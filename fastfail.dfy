/**
 * The FastFail algebra (ObST.Tester/Domain/Util/FastFailProperty.cs and
 * FastFailPropertyExtention.cs): a verdict computed eagerly as a boolean together
 * with the FsCheck property it stands for. The property is modelled as a small
 * symbolic term; FsCheck's `When` discards a test case whose condition is false,
 * which counts as not failing.
 */
module FastFail {

  datatype Property =
    | FromBool(b: bool)
    | When(b: bool, condition: bool)
    | And(left: Property, right: Property)
    | Or(left: Property, right: Property)
    | Labelled(p: Property, text: string)

  /** Whether FsCheck would not report the property as failed. */
  predicate Holds(p: Property)
  {
    match p
    case FromBool(b) => b
    case When(b, c) => !c || b
    case And(l, r) => Holds(l) && Holds(r)
    case Or(l, r) => Holds(l) || Holds(r)
    case Labelled(q, _) => Holds(q)
  }

  /** The labels a property carries, outermost first. */
  function Labels(p: Property): seq<string>
  {
    match p
    case FromBool(_) => []
    case When(_, _) => []
    case And(l, r) => Labels(l) + Labels(r)
    case Or(l, r) => Labels(l) + Labels(r)
    case Labelled(q, l) => [l] + Labels(q)
  }

  datatype FastFailProperty = FastFailProperty(isSuccess: bool, property: Property)
  {
    predicate IsFail() { !isSuccess }
  }

  /** The eager verdict agrees with the property it stands for. */
  predicate Consistent(f: FastFailProperty)
  {
    f.isSuccess == Holds(f.property)
  }

  function ToFastFailProperty(b: bool): (r: FastFailProperty)
    ensures r.isSuccess == b && Consistent(r)
  {
    FastFailProperty(b, FromBool(b))
  }

  function FastFailWhen(b: bool, condition: bool): (r: FastFailProperty)
    ensures r.isSuccess <==> (condition ==> b)
    ensures Consistent(r)
  {
    FastFailProperty(b || !condition, When(b, condition))
  }

  function AndF(left: FastFailProperty, right: FastFailProperty): (r: FastFailProperty)
    ensures r.isSuccess <==> left.isSuccess && right.isSuccess
    ensures Consistent(left) && Consistent(right) ==> Consistent(r)
    ensures Labels(r.property) == Labels(left.property) + Labels(right.property)
  {
    FastFailProperty(left.isSuccess && right.isSuccess, And(left.property, right.property))
  }

  function OrF(left: FastFailProperty, right: FastFailProperty): (r: FastFailProperty)
    ensures r.isSuccess <==> left.isSuccess || right.isSuccess
    ensures Consistent(left) && Consistent(right) ==> Consistent(r)
  {
    FastFailProperty(left.isSuccess || right.isSuccess, Or(left.property, right.property))
  }

  function Label(f: FastFailProperty, text: string): (r: FastFailProperty)
    ensures r.isSuccess == f.isSuccess
    ensures Consistent(f) ==> Consistent(r)
    ensures Labels(r.property) == [text] + Labels(f.property)
  {
    FastFailProperty(f.isSuccess, Labelled(f.property, text))
  }

  function FastFailLabel(b: bool, text: string): (r: FastFailProperty)
    ensures r.isSuccess == b && Consistent(r)
    ensures Labels(r.property) == [text]
  {
    FastFailProperty(b, Labelled(FromBool(b), text))
  }

  /** Every FastFail value built from the combinators above. */
  datatype Expr =
    | EBool(b: bool)
    | EWhen(b: bool, c: bool)
    | EAnd(l: Expr, r: Expr)
    | EOr(l: Expr, r: Expr)
    | ELabel(e: Expr, text: string)
    | EBoolLabel(b: bool, text: string)

  function Build(e: Expr): FastFailProperty
  {
    match e
    case EBool(b) => ToFastFailProperty(b)
    case EWhen(b, c) => FastFailWhen(b, c)
    case EAnd(l, r) => AndF(Build(l), Build(r))
    case EOr(l, r) => OrF(Build(l), Build(r))
    case ELabel(x, l) => Label(Build(x), l)
    case EBoolLabel(b, l) => FastFailLabel(b, l)
  }

  /**
   * The point of the algebra: whatever combination of the operations builds a
   * value, its eager verdict is exactly what FsCheck would conclude from its
   * property, so a run may stop at the first failing step.
   */
  lemma {:induction false} BuildConsistent(e: Expr)
    ensures Consistent(Build(e))
  {
    match e
    case EBool(_) =>
    case EWhen(_, _) =>
    case EAnd(l, r) => BuildConsistent(l); BuildConsistent(r);
    case EOr(l, r) => BuildConsistent(l); BuildConsistent(r);
    case ELabel(x, _) => BuildConsistent(x);
    case EBoolLabel(_, _) =>
  }
}
