/**
 * The boxed values that flow through the tester: ids read from responses are
 * strings, generated values are strings, 32-bit integers or booleans, and
 * ConvertType turns strings into 64-bit integers or booleans.
 */
module Values {
  import opened Wrappers
  import Text

  /** An object? that is not null; object.Equals on these is value equality within a type. */
  datatype Value = Str(s: string) | Int(i: int) | Long(l: int) | Bool(b: bool)

  /** Convert.ToString(value, CultureInfo.InvariantCulture); null becomes the empty string. */
  function ToText(v: Option<Value>): string
  {
    match v
    case None => ""
    case Some(Str(s)) => s
    case Some(Int(i)) => Text.IntToString(i)
    case Some(Long(l)) => Text.IntToString(l)
    case Some(Bool(b)) => if b then "True" else "False"
  }
}
