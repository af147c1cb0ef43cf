/**
 * The configured JSON schemas (ObST.Core/Models/JsonSchemaConfiguration.cs) and the
 * filter that prepares them for one direction of an exchange
 * (TestConfigurationExtention.FilterSchema): a request never carries read-only
 * parts and a response never carries write-only parts, and an allOf composition
 * is merged into one schema first.
 */
module SchemaFilter {
  import opened Wrappers

  /**
   * A schema as configured; every member may be absent. The resource class
   * configuration is carried as an uninterpreted name, and the type as its text.
   * The two lists of nested schemas have their own absent cases (rather than
   * Option) so that their elements are structurally below the schema.
   */
  datatype SchemaConfig = SchemaConfig(
    title: Option<string>,
    resourceClass: Option<string>,
    allOf: AllOfList,
    kind: Option<string>,
    format: Option<string>,
    required: Option<seq<string>>,
    items: Option<SchemaConfig>,
    properties: PropertyList,
    additionalPropertiesAllowed: Option<bool>,
    enumeration: Option<seq<string>>,
    nullable: Option<bool>,
    maximum: Option<real>,
    minimum: Option<real>,
    maxLength: Option<int>,
    minLength: Option<int>,
    readOnly: Option<bool>,
    writeOnly: Option<bool>)

  datatype AllOfList = NoAllOf | AllOf(members: seq<SchemaConfig>)

  /** A Properties dictionary, its entries in insertion order. */
  datatype PropertyList = NoProperties | Properties(entries: seq<Property>)

  datatype Property = Property(key: string, schema: SchemaConfig)

  /** new JsonSchemaConfiguration { ResourceClass = rc }. */
  function Blank(rc: Option<string>): SchemaConfig
  {
    SchemaConfig(None, rc, NoAllOf, None, None, None, None, NoProperties, None, None, None, None, None, None, None, None, None)
  }

  /** The number of schema nodes, the measure the filter's recursion decreases. */
  function Size(s: SchemaConfig): nat
  {
    1 + (if s.allOf.AllOf? then ListSize(s.allOf.members) else 0)
      + (if s.items.Some? then Size(s.items.value) else 0)
      + (if s.properties.Properties? then PropsSize(s.properties.entries) else 0)
  }

  function ListSize(l: seq<SchemaConfig>): nat
  {
    if l == [] then 0 else ListSize(l[..|l| - 1]) + Size(l[|l| - 1])
  }

  function PropsSize(ps: seq<Property>): nat
  {
    if ps == [] then 0 else PropsSize(ps[..|ps| - 1]) + Size(ps[|ps| - 1].schema)
  }

  /** The schema is dropped in this direction: read-only in a request, write-only in a response. */
  predicate Excluded(s: SchemaConfig, isRequest: bool)
  {
    (isRequest && s.readOnly == Some(true)) || (!isRequest && s.writeOnly == Some(true))
  }

  /** A later value that is set replaces the earlier one. */
  function Later<T>(earlier: Option<T>, later: Option<T>): Option<T>
  {
    if later.Some? then later else earlier
  }

  /** ToHashSet().ToList(): the first occurrence of each element, in order. */
  function Distinct(xs: seq<string>): (d: seq<string>)
    ensures forall x :: x in d <==> x in xs
    ensures forall i, j :: 0 <= i < j < |d| ==> d[i] != d[j]
  {
    if xs == [] then []
    else
      var front := Distinct(xs[..|xs| - 1]);
      var x := xs[|xs| - 1];
      assert forall y :: y in xs <==> y in xs[..|xs| - 1] || y == x;
      if x in front then front else front + [x]
  }

  predicate HasKey(ps: seq<Property>, k: string)
  {
    exists i :: 0 <= i < |ps| && ps[i].key == k
  }

  /** The entries of ps whose key is not one of over's keys. */
  function Without(ps: seq<Property>, over: seq<Property>): (r: seq<Property>)
    ensures forall p :: p in r <==> p in ps && !HasKey(over, p.key)
    ensures PropsSize(r) <= PropsSize(ps)
  {
    if ps == [] then []
    else
      var front := Without(ps[..|ps| - 1], over);
      var p := ps[|ps| - 1];
      assert forall q :: q in ps <==> q in ps[..|ps| - 1] || q == p;
      if HasKey(over, p.key) then front
      else
        var r := front + [p];
        assert r[..|r| - 1] == front;
        r
  }

  /**
   * Properties.Where(p => !s.Properties.ContainsKey(p.Key)).Concat(s.Properties):
   * the later member's properties replace the earlier ones of the same name.
   */
  function Override(ps: seq<Property>, over: seq<Property>): seq<Property>
  {
    Without(ps, over) + over
  }

  function PropsOrEmpty(ps: PropertyList): seq<Property>
  {
    if ps.Properties? then ps.entries else []
  }

  /** One pass of the allOf loop: every member set in s replaces merged's, Enum accumulates, Properties override. */
  function MergeOne(merged: SchemaConfig, s: SchemaConfig): SchemaConfig
  {
    merged.(
      additionalPropertiesAllowed := Later(merged.additionalPropertiesAllowed, s.additionalPropertiesAllowed),
      enumeration :=
        if s.enumeration.Some? then
          Some(Distinct((if merged.enumeration.Some? then merged.enumeration.value else []) + s.enumeration.value))
        else merged.enumeration,
      format := Later(merged.format, s.format),
      maximum := Later(merged.maximum, s.maximum),
      maxLength := Later(merged.maxLength, s.maxLength),
      minimum := Later(merged.minimum, s.minimum),
      minLength := Later(merged.minLength, s.minLength),
      nullable := Later(merged.nullable, s.nullable),
      properties :=
        if s.properties.Properties? then Properties(Override(PropsOrEmpty(merged.properties), s.properties.entries))
        else merged.properties,
      readOnly := Later(merged.readOnly, s.readOnly),
      required := Later(merged.required, s.required),
      title := Later(merged.title, s.title),
      resourceClass := Later(merged.resourceClass, s.resourceClass),
      kind := Later(merged.kind, s.kind),
      writeOnly := Later(merged.writeOnly, s.writeOnly))
  }

  /** The allOf loop over the members, starting from start. */
  function MergeAll(start: SchemaConfig, members: seq<SchemaConfig>): SchemaConfig
  {
    if members == [] then start
    else MergeOne(MergeAll(start, members[..|members| - 1]), members[|members| - 1])
  }

  /** The merge copies nothing but properties out of its members, and neither allOf nor items. */
  lemma {:induction false} MergeSize(members: seq<SchemaConfig>, rc: Option<string>)
    ensures MergeAll(Blank(rc), members).allOf.NoAllOf? && MergeAll(Blank(rc), members).items.None?
    ensures Size(MergeAll(Blank(rc), members)) <= 1 + ListSize(members)
  {
    if members != [] {
      var front := members[..|members| - 1];
      var s := members[|members| - 1];
      MergeSize(front, rc);
      var m := MergeAll(Blank(rc), front);
      if s.properties.Properties? {
        var over := s.properties.entries;
        var ps := PropsOrEmpty(m.properties);
        PropsAppend(Without(ps, over), over);
        assert PropsSize(over) < Size(s);
      }
    }
  }

  lemma {:induction false} PropsAppend(a: seq<Property>, b: seq<Property>)
    ensures PropsSize(a + b) == PropsSize(a) + PropsSize(b)
    decreases |b|
  {
    if b != [] {
      var front := b[..|b| - 1];
      assert (a + b)[..|a + b| - 1] == a + front;
      assert (a + b)[|a + b| - 1] == b[|b| - 1];
      PropsAppend(a, front);
      assert PropsSize(a + b) == PropsSize(a + front) + Size(b[|b| - 1].schema);
    } else {
      assert a + b == a;
    }
  }

  /** Each property of ps counts toward the size of ps. */
  lemma {:induction false} PropAtSize(ps: seq<Property>, i: nat)
    requires i < |ps|
    ensures Size(ps[i].schema) <= PropsSize(ps)
    decreases |ps|
  {
    if i < |ps| - 1 {
      PropAtSize(ps[..|ps| - 1], i);
    }
  }

  /** The properties after filtering their schemas, those filtered away dropped. */
  function FilteredProps(ps: seq<Property>, isRequest: bool): seq<Property>
    decreases PropsSize(ps), 3
  {
    if ps == [] then []
    else
      var p := ps[|ps| - 1];
      PropAtSize(ps, |ps| - 1);
      var front := FilteredProps(ps[..|ps| - 1], isRequest);
      var f := Filtered(p.schema, isRequest);
      if f.Some? then front + [Property(p.key, f.value)] else front
  }

  /** FilterSchema, as a function of the configured schema. */
  function Filtered(schema: SchemaConfig, isRequest: bool): Option<SchemaConfig>
    decreases Size(schema), if schema.allOf.AllOf? then 2 else 1
  {
    if Excluded(schema, isRequest) then None
    else if schema.allOf.AllOf? then
      var members := schema.allOf.members;
      if exists m :: m in members && Excluded(m, isRequest) then None
      else
        MergeSize(members, schema.resourceClass);
        Filtered(MergeAll(Blank(schema.resourceClass), members), isRequest)
    else
      var items :=
        if schema.items.None? then None
        else
          var f := Filtered(schema.items.value, isRequest);
          if f.Some? then Some(f.value.(title := schema.title)) else None;
      var props := if schema.properties.Properties? then Properties(FilteredProps(schema.properties.entries, isRequest)) else NoProperties;
      Some(schema.(allOf := NoAllOf, items := items, properties := props))
  }

  /** The filter as the source writes it: recursion, and loops over allOf and the properties. */
  method FilterSchema(schema: SchemaConfig, isRequest: bool) returns (r: Option<SchemaConfig>)
    ensures r == Filtered(schema, isRequest)
    decreases Size(schema), if schema.allOf.AllOf? then 2 else 1
  {
    if Excluded(schema, isRequest) {
      return None;
    }
    if schema.allOf.AllOf? {
      var members := schema.allOf.members;
      if exists m :: m in members && Excluded(m, isRequest) {
        return None;
      }
      var merged := Blank(schema.resourceClass);
      for i := 0 to |members|
        invariant merged == MergeAll(Blank(schema.resourceClass), members[..i])
      {
        assert members[..i + 1][..i] == members[..i];
        merged := MergeOne(merged, members[i]);
      }
      assert members[..|members|] == members;
      MergeSize(members, schema.resourceClass);
      r := FilterSchema(merged, isRequest);
      return;
    }
    var items: Option<SchemaConfig> := None;
    if schema.items.Some? {
      items := FilterSchema(schema.items.value, isRequest);
      if items.Some? {
        items := Some(items.value.(title := schema.title));
      }
    }
    var props := NoProperties;
    if schema.properties.Properties? {
      var ps := schema.properties.entries;
      var kept := [];
      for i := 0 to |ps|
        invariant kept == FilteredProps(ps[..i], isRequest)
      {
        assert ps[..i + 1][..i] == ps[..i];
        PropAtSize(ps, i);
        var f := FilterSchema(ps[i].schema, isRequest);
        if f.Some? {
          kept := kept + [Property(ps[i].key, f.value)];
        }
      }
      assert ps[..|ps|] == ps;
      props := Properties(kept);
    }
    r := Some(schema.(allOf := NoAllOf, items := items, properties := props));
  }

  /** No part of the schema is excluded in this direction, and no allOf is left. */
  predicate Clean(t: SchemaConfig, isRequest: bool)
  {
    !Excluded(t, isRequest) && t.allOf.NoAllOf? &&
    (t.items.Some? ==> Clean(t.items.value, isRequest)) &&
    (t.properties.Properties? ==> forall i :: 0 <= i < |t.properties.entries| ==> Clean(t.properties.entries[i].schema, isRequest))
  }

  /** A request schema holds nothing read-only and a response schema nothing write-only, at any depth. */
  lemma {:induction false} FilteredClean(schema: SchemaConfig, isRequest: bool)
    ensures Filtered(schema, isRequest).Some? ==> Clean(Filtered(schema, isRequest).value, isRequest)
    decreases Size(schema), if schema.allOf.AllOf? then 2 else 1
  {
    if Excluded(schema, isRequest) {
    } else if schema.allOf.AllOf? {
      var members := schema.allOf.members;
      if !exists m :: m in members && Excluded(m, isRequest) {
        MergeSize(members, schema.resourceClass);
        FilteredClean(MergeAll(Blank(schema.resourceClass), members), isRequest);
      }
    } else {
      if schema.items.Some? {
        FilteredClean(schema.items.value, isRequest);
      }
      if schema.properties.Properties? {
        FilteredPropsClean(schema.properties.entries, isRequest);
      }
    }
  }

  lemma {:induction false} FilteredPropsClean(ps: seq<Property>, isRequest: bool)
    ensures forall i :: 0 <= i < |FilteredProps(ps, isRequest)| ==> Clean(FilteredProps(ps, isRequest)[i].schema, isRequest)
    decreases PropsSize(ps), 3
  {
    if ps != [] {
      var p := ps[|ps| - 1];
      PropAtSize(ps, |ps| - 1);
      FilteredPropsClean(ps[..|ps| - 1], isRequest);
      FilteredClean(p.schema, isRequest);
    }
  }

  /**
   * The filtered properties: an entry for each property whose schema survives the
   * filter, under the same key, with the filtered schema.
   */
  lemma FilteredPropsEntries(ps: seq<Property>, isRequest: bool)
    ensures forall p :: p in FilteredProps(ps, isRequest) <==>
      exists i :: 0 <= i < |ps| && ps[i].key == p.key && Filtered(ps[i].schema, isRequest) == Some(p.schema)
  {
    forall p ensures p in FilteredProps(ps, isRequest) <==>
      exists i :: 0 <= i < |ps| && ps[i].key == p.key && Filtered(ps[i].schema, isRequest) == Some(p.schema)
    {
      if p in FilteredProps(ps, isRequest) {
        FilteredPropsSound(ps, isRequest, p);
      }
      if exists i :: 0 <= i < |ps| && ps[i].key == p.key && Filtered(ps[i].schema, isRequest) == Some(p.schema) {
        var i :| 0 <= i < |ps| && ps[i].key == p.key && Filtered(ps[i].schema, isRequest) == Some(p.schema);
        FilteredPropsComplete(ps, isRequest, i);
      }
    }
  }

  lemma {:induction false} FilteredPropsSound(ps: seq<Property>, isRequest: bool, p: Property)
    requires p in FilteredProps(ps, isRequest)
    ensures exists i :: 0 <= i < |ps| && ps[i].key == p.key && Filtered(ps[i].schema, isRequest) == Some(p.schema)
  {
    var front := ps[..|ps| - 1];
    var last := ps[|ps| - 1];
    PropAtSize(ps, |ps| - 1);
    var f := Filtered(last.schema, isRequest);
    if f.Some? && p == Property(last.key, f.value) {
      assert ps[|ps| - 1].key == p.key && Filtered(ps[|ps| - 1].schema, isRequest) == Some(p.schema);
    } else {
      assert p in FilteredProps(front, isRequest);
      FilteredPropsSound(front, isRequest, p);
      var i :| 0 <= i < |front| && front[i].key == p.key && Filtered(front[i].schema, isRequest) == Some(p.schema);
      assert ps[i] == front[i];
    }
  }

  lemma {:induction false} FilteredPropsComplete(ps: seq<Property>, isRequest: bool, i: nat)
    requires i < |ps| && Filtered(ps[i].schema, isRequest).Some?
    ensures Property(ps[i].key, Filtered(ps[i].schema, isRequest).value) in FilteredProps(ps, isRequest)
  {
    var front := ps[..|ps| - 1];
    PropAtSize(ps, |ps| - 1);
    if i < |ps| - 1 {
      assert front[i] == ps[i];
      FilteredPropsComplete(front, isRequest, i);
    }
  }

  /** The merged schema is excluded only when one of the members is. */
  lemma {:induction false} MergeExcluded(start: SchemaConfig, members: seq<SchemaConfig>, isRequest: bool)
    requires !Excluded(start, isRequest)
    ensures Excluded(MergeAll(start, members), isRequest) ==> exists m :: m in members && Excluded(m, isRequest)
  {
    if members != [] {
      var front := members[..|members| - 1];
      MergeExcluded(start, front, isRequest);
      if Excluded(MergeAll(start, members), isRequest) && !Excluded(members[|members| - 1], isRequest) {
        var m :| m in front && Excluded(m, isRequest);
        assert m in members;
      }
    }
  }

  /**
   * A schema is filtered away exactly when it, or one of its allOf members, is
   * read-only in a request or write-only in a response.
   */
  lemma FilteredAwayIff(schema: SchemaConfig, isRequest: bool)
    ensures Filtered(schema, isRequest).None? <==>
      Excluded(schema, isRequest) ||
      (schema.allOf.AllOf? && exists m :: m in schema.allOf.members && Excluded(m, isRequest))
  {
    if !Excluded(schema, isRequest) && schema.allOf.AllOf? {
      var members := schema.allOf.members;
      MergeSize(members, schema.resourceClass);
      MergeExcluded(Blank(schema.resourceClass), members, isRequest);
    }
  }

  /** A property name is in the merged schema exactly when some member declares it. */
  lemma {:induction false} MergeKeys(start: SchemaConfig, members: seq<SchemaConfig>, k: string)
    ensures HasKey(PropsOrEmpty(MergeAll(start, members).properties), k) <==>
      HasKey(PropsOrEmpty(start.properties), k) ||
      exists j :: 0 <= j < |members| && HasKey(PropsOrEmpty(members[j].properties), k)
  {
    if members != [] {
      var front := members[..|members| - 1];
      var s := members[|members| - 1];
      MergeKeys(start, front, k);
      var m := MergeAll(start, front);
      if s.properties.Properties? {
        OverrideKeys(PropsOrEmpty(m.properties), s.properties.entries, k);
      }
      if exists j :: 0 <= j < |members| && HasKey(PropsOrEmpty(members[j].properties), k) {
        var j :| 0 <= j < |members| && HasKey(PropsOrEmpty(members[j].properties), k);
        if j < |members| - 1 {
          assert front[j] == members[j];
        }
      }
      if exists j :: 0 <= j < |front| && HasKey(PropsOrEmpty(front[j].properties), k) {
        var j :| 0 <= j < |front| && HasKey(PropsOrEmpty(front[j].properties), k);
        assert members[j] == front[j];
      }
    }
  }

  /** The overriding properties win; the others are kept. */
  lemma OverrideKeys(ps: seq<Property>, over: seq<Property>, k: string)
    ensures HasKey(Override(ps, over), k) <==> HasKey(ps, k) || HasKey(over, k)
    ensures forall p :: p in Override(ps, over) && p.key == k && HasKey(over, k) ==> p in over
  {
    var r := Override(ps, over);
    if HasKey(ps, k) && !HasKey(over, k) {
      var i :| 0 <= i < |ps| && ps[i].key == k;
      assert ps[i] in Without(ps, over);
      var j :| 0 <= j < |Without(ps, over)| && Without(ps, over)[j] == ps[i];
      assert r[j] == ps[i];
    }
    if HasKey(over, k) {
      var i :| 0 <= i < |over| && over[i].key == k;
      assert r[|Without(ps, over)| + i] == over[i];
    }
    if HasKey(r, k) {
      var i :| 0 <= i < |r| && r[i].key == k;
      if i < |Without(ps, over)| {
        assert r[i] in Without(ps, over);
      } else {
        assert r[i] == over[i - |Without(ps, over)|];
      }
    }
  }

  /** The merged Enum lists every value of the members' Enums once. */
  lemma {:induction false} MergeEnum(start: SchemaConfig, members: seq<SchemaConfig>, x: string)
    requires start.enumeration.None?
    ensures var e := MergeAll(start, members).enumeration;
      (e.Some? <==> exists j :: 0 <= j < |members| && members[j].enumeration.Some?) &&
      (e.Some? ==> (x in e.value <==> exists j :: 0 <= j < |members| && members[j].enumeration.Some? && x in members[j].enumeration.value))
    ensures var e := MergeAll(start, members).enumeration;
      e.Some? ==> forall i, j :: 0 <= i < j < |e.value| ==> e.value[i] != e.value[j]
  {
    if members != [] {
      var front := members[..|members| - 1];
      MergeEnum(start, front, x);
      assert forall j :: 0 <= j < |front| ==> front[j] == members[j];
      if exists j :: 0 <= j < |members| && members[j].enumeration.Some? && x in members[j].enumeration.value {
        var j :| 0 <= j < |members| && members[j].enumeration.Some? && x in members[j].enumeration.value;
      }
    }
  }
}
