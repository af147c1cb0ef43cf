/**
 * Harvesting ids from a response body (ObST.Tester/Domain/Util/TestUtil.cs):
 * SearchForIds walks a JSON value along its schema and hands every id it finds,
 * with the ids of its parents, to TestModel.Add. The walk is described by the
 * function Walk, which lists the Add calls in order and the exception that ends
 * the walk, if any; the method SearchForIds performs it on a TestModel object.
 */
module IdSearch {
  import opened Wrappers
  import opened Schemas
  import opened IdMappings
  import opened TestModels
  import Text
  import Domain
  import TestConfigurations

  /**
   * A JSON token. A scalar carries the text Convert.ToString gives it under the
   * invariant culture. Arrays and objects have their own element types so that
   * their elements are structurally below them.
   */
  datatype Json = JNull | JScalar(text: string) | JArray(items: seq<Json>) | JObject(members: seq<Member>)

  datatype Member = Member(key: string, value: Json)

  type Path = seq<(string, string)>

  /** The Add calls of a walk, in order, and the exception that ended it. */
  datatype Walked = Walked(adds: seq<Path>, error: Option<Exception>)

  /** a, then (unless a threw) b. */
  function Then(a: Walked, b: Walked): Walked
  {
    if a.error.Some? then a else Walked(a.adds + b.adds, b.error)
  }

  function Width(j: Json): nat
  {
    match j
    case JArray(items) => 2
    case JObject(members) => 3
    case _ => 1
  }

  /** Properties.FirstOrDefault(p => p.Value.Title == mapping).Key. */
  function IdKey(ps: seq<(string, JsonSchema)>, mapping: string): (r: Option<string>)
    ensures r.Some? ==> exists i :: 0 <= i < |ps| && ps[i].0 == r.value && ps[i].1.title == mapping
  {
    if ps == [] then None
    else if ps[0].1.title == mapping then Some(ps[0].0)
    else
      var r := IdKey(ps[1..], mapping);
      if r.Some? then
        var i :| 0 <= i < |ps[1..]| && ps[1..][i].0 == r.value && ps[1..][i].1.title == mapping;
        assert ps[i + 1] == ps[1..][i];
        r
      else r
  }

  /** JObject.TryGetValue: the member of that name. */
  function Lookup(ms: seq<Member>, k: string): Option<Json>
  {
    if ms == [] then None else if ms[0].key == k then Some(ms[0].value) else Lookup(ms[1..], k)
  }

  /** Convert.ToString of an id token: a null token gives the empty string. */
  function TokenText(j: Json): string
  {
    if j.JScalar? then j.text else ""
  }

  /** The resource an object schema stands for: its title without a leading '>' or '<'. */
  function Resource(title: string): string
  {
    if Text.StartsWith(title, ">") || Text.StartsWith(title, "<") then title[1..] else title
  }

  /**
   * The Add calls for an object's own id, and the ids its members are searched
   * with. A '>' object is a parent: its id is added together with the innermost
   * id so far, and its members see only its own id. Otherwise the id extends
   * the ids so far, unless they already end with it.
   */
  function ObjectIds(title: string, primary: string, id: Option<string>, ids: Path): (Walked, Path)
    requires title != []
  {
    if title[0] == '>' then
      if id.Some? then
        var newIds := [(primary, id.value)];
        (Walked([if ids != [] then newIds + [ids[|ids| - 1]] else ids], None), newIds)
      else (Walked([], None), [])
    else if id.Some? then
      var base := if ids != [] && ids[|ids| - 1] == (primary, id.value) then ids[..|ids| - 1] else ids;
      var next := base + [(primary, id.value)];
      (Walked([next], None), next)
    else (Walked([], None), ids)
  }

  /** The Add call for a scalar whose schema title is an id mapping. */
  function ScalarIds(mapping: string, id: string, ids: Path): Path
    requires mapping != []
  {
    if mapping[0] == '>' then [(mapping[1..], id)] + (if ids != [] then [ids[|ids| - 1]] else [])
    else if mapping[0] == '<' then ids + [(mapping[1..], id)]
    else [(mapping, id)]
  }

  /** SearchForIds(obj, objSchema, ids) as the Add calls it makes. */
  function Walk(obj: Json, schema: Option<JsonSchema>, ids: Path): Walked
    decreases obj, Width(obj)
  {
    match obj
    case JNull => Walked([], None)
    case JArray(items) => WalkItems(obj, schema, ids, |items|)
    case JObject(members) =>
      if schema.None? then Walked([], Some(NullReference))
      else
        var s := schema.value;
        var primary := AddIdMapping(Resource(s.title));
        var key := IdKey(s.properties, primary);
        var token := if key.Some? then Lookup(members, key.value) else None;
        var id := if token.Some? then Some(TokenText(token.value)) else None;
        if s.title == [] then Walked([], Some(IndexOutOfRange))
        else
          var (head, next) := ObjectIds(s.title, primary, id, ids);
          Then(head, WalkMembers(obj, s, key, next, |members|))
    case JScalar(text) =>
      if schema.None? then Walked([], Some(NullReference))
      else if IsIdMapping(schema.value.title) then Walked([ScalarIds(schema.value.title, text, ids)], None)
      else Walked([], None)
  }

  /** The foreach over the first n entries of an array: each with the item schema. */
  function WalkItems(obj: Json, schema: Option<JsonSchema>, ids: Path, n: nat): Walked
    requires obj.JArray? && n <= |obj.items|
    decreases obj, 1, n
  {
    if n == 0 then Walked([], None) else Then(WalkItems(obj, schema, ids, n - 1), WalkItem(obj, schema, ids, n - 1))
  }

  /** One entry of an array: without a schema, objSchema.Item throws. */
  function WalkItem(obj: Json, schema: Option<JsonSchema>, ids: Path, i: nat): Walked
    requires obj.JArray? && i < |obj.items|
    decreases obj, 0
  {
    if schema.None? then Walked([], Some(NullReference)) else Walk(obj.items[i], schema.value.item, ids)
  }

  /**
   * The foreach over the first n members of an object: the id member is skipped,
   * a member without a property schema is skipped when additional properties are
   * allowed and throws KeyNotFound otherwise.
   */
  function WalkMembers(obj: Json, s: JsonSchema, key: Option<string>, ids: Path, n: nat): Walked
    requires obj.JObject? && n <= |obj.members|
    decreases obj, 1, n
  {
    if n == 0 then Walked([], None) else Then(WalkMembers(obj, s, key, ids, n - 1), WalkMember(obj, s, key, ids, n - 1))
  }

  /** One member of an object. */
  function WalkMember(obj: Json, s: JsonSchema, key: Option<string>, ids: Path, i: nat): Walked
    requires obj.JObject? && i < |obj.members|
    decreases obj, 0
  {
    var m := obj.members[i];
    var p := Property(s.properties, m.key);
    if key == Some(m.key) then Walked([], None)
    else if p.Some? then Walk(m.value, p, ids)
    else if s.allowAdditionalProperties then Walked([], None)
    else Walked([], Some(KeyNotFound))
  }

  /** Every pair of the path names an id mapping. */
  predicate IdPath(p: Path)
  {
    forall i :: 0 <= i < |p| ==> IsIdMapping(p[i].0)
  }

  predicate AllIdPaths(adds: seq<Path>)
  {
    forall k :: 0 <= k < |adds| ==> IdPath(adds[k])
  }

  lemma ThenIdPaths(a: Walked, b: Walked)
    requires AllIdPaths(a.adds) && AllIdPaths(b.adds)
    ensures AllIdPaths(Then(a, b).adds)
  {
    if a.error.None? {
      forall k | 0 <= k < |a.adds + b.adds| ensures IdPath((a.adds + b.adds)[k]) {
        if k >= |a.adds| {
          assert (a.adds + b.adds)[k] == b.adds[k - |a.adds|];
        }
      }
    }
  }

  /** Dropping the marker of a '>' or '<' id mapping leaves an id mapping. */
  lemma MarkedIdMapping(mapping: string)
    requires IsIdMapping(mapping) && (mapping[0] == '>' || mapping[0] == '<')
    ensures IsIdMapping(mapping[1..])
  {
    assert |mapping| > |IdSuffix|;
    assert mapping[1..][|mapping[1..]| - |IdSuffix|..] == mapping[|mapping| - |IdSuffix|..];
  }

  /**
   * Given ids that are id mappings, every Add call of the walk passes id
   * mappings only: the objects' own ids are built by AddIdMapping, the scalars'
   * come from titles that are id mappings.
   */
  lemma {:induction false} WalkIdPaths(obj: Json, schema: Option<JsonSchema>, ids: Path)
    requires IdPath(ids)
    ensures AllIdPaths(Walk(obj, schema, ids).adds)
    decreases obj, Width(obj)
  {
    match obj
    case JNull =>
    case JArray(items) =>
      ItemsIdPaths(obj, schema, ids, |items|);
    case JObject(members) =>
      if schema.Some? && schema.value.title != [] {
        var s := schema.value;
        var primary := AddIdMapping(Resource(s.title));
        var key := IdKey(s.properties, primary);
        var token := if key.Some? then Lookup(members, key.value) else None;
        var id := if token.Some? then Some(TokenText(token.value)) else None;
        var (head, next) := ObjectIds(s.title, primary, id, ids);
        ObjectHeadIdPaths(s, id, ids);
        MembersIdPaths(obj, s, key, next, |members|);
        ThenIdPaths(head, WalkMembers(obj, s, key, next, |members|));
      }
    case JScalar(text) =>
      ScalarIdPaths(obj, schema, ids);
  }

  /** The paths an object's own id adds, and the prefix it leaves for its members, are id paths. */
  lemma ObjectHeadIdPaths(s: JsonSchema, id: Option<string>, ids: Path)
    requires IdPath(ids) && s.title != []
    ensures var (head, next) := ObjectIds(s.title, AddIdMapping(Resource(s.title)), id, ids);
      IdPath(next) && AllIdPaths(head.adds)
  {
    var primary := AddIdMapping(Resource(s.title));
    AddIdMappingIsIdMapping(Resource(s.title));
    var (head, next) := ObjectIds(s.title, primary, id, ids);
    if s.title[0] != '>' && id.Some? {
      var base := if ids != [] && ids[|ids| - 1] == (primary, id.value) then ids[..|ids| - 1] else ids;
      assert next == base + [(primary, id.value)];
      assert forall i :: 0 <= i < |base| ==> base[i] == ids[i];
    }
  }

  /** A scalar adds only id paths. */
  lemma ScalarIdPaths(obj: Json, schema: Option<JsonSchema>, ids: Path)
    requires obj.JScalar? && IdPath(ids)
    ensures AllIdPaths(Walk(obj, schema, ids).adds)
  {
    if schema.Some? && IsIdMapping(schema.value.title) {
      var mapping := schema.value.title;
      if mapping[0] == '>' || mapping[0] == '<' {
        MarkedIdMapping(mapping);
      }
    }
  }

  lemma {:induction false} ItemsIdPaths(obj: Json, schema: Option<JsonSchema>, ids: Path, n: nat)
    requires obj.JArray? && n <= |obj.items| && IdPath(ids)
    ensures AllIdPaths(WalkItems(obj, schema, ids, n).adds)
    decreases obj, 1, n
  {
    if n > 0 {
      ItemsIdPaths(obj, schema, ids, n - 1);
      if schema.Some? {
        WalkIdPaths(obj.items[n - 1], schema.value.item, ids);
      }
      ThenIdPaths(WalkItems(obj, schema, ids, n - 1), WalkItem(obj, schema, ids, n - 1));
    }
  }

  lemma {:induction false} MembersIdPaths(obj: Json, s: JsonSchema, key: Option<string>, ids: Path, n: nat)
    requires obj.JObject? && n <= |obj.members| && IdPath(ids)
    ensures AllIdPaths(WalkMembers(obj, s, key, ids, n).adds)
    decreases obj, 1, n
  {
    if n > 0 {
      MembersIdPaths(obj, s, key, ids, n - 1);
      var m := obj.members[n - 1];
      var p := Property(s.properties, m.key);
      if p.Some? {
        WalkIdPaths(m.value, p, ids);
      }
      ThenIdPaths(WalkMembers(obj, s, key, ids, n - 1), WalkMember(obj, s, key, ids, n - 1));
    }
  }

  // ---------------------------------------------------------------------------------
  // The behaviour the unit tests of SearchForIds describe

  /** A schema as the tests write it: a title, properties, and items for an array. */
  function TestSchema(title: string, kind: JsonObjectType, properties: seq<(string, JsonSchema)>, item: Option<JsonSchema>): JsonSchema
  {
    JsonSchema(title, kind, properties, {}, item, true, [], None)
  }

  function IdSchema(title: string): JsonSchema
  {
    TestSchema(title, StringType, [], None)
  }

  lemma ThenUnit(a: Walked, b: Walked)
    ensures a.error.None? && a.adds == [] ==> Then(a, b) == b
    ensures b == Walked([], None) ==> Then(a, b) == a
  {
    assert [] + b.adds == b.adds;
    assert a.adds + [] == a.adds;
  }

  /**
   * An object with its id under "id", the first property of its schema: the
   * object's own Add calls, then those of its other members.
   */
  lemma IdentifiedObject(obj: Json, s: JsonSchema, ids: Path, v: string)
    requires obj.JObject? && |obj.members| >= 1 && obj.members[0] == Member("id", JScalar(v))
    requires s.title != [] && s.properties != [] && s.properties[0] == ("id", s.properties[0].1)
    requires s.properties[0].1.title == AddIdMapping(Resource(s.title))
    ensures Walk(obj, Some(s), ids)
         == Then(ObjectIds(s.title, AddIdMapping(Resource(s.title)), Some(v), ids).0,
                 WalkMembers(obj, s, Some("id"), ObjectIds(s.title, AddIdMapping(Resource(s.title)), Some(v), ids).1, |obj.members|))
    ensures WalkMembers(obj, s, Some("id"), ObjectIds(s.title, AddIdMapping(Resource(s.title)), Some(v), ids).1, 1) == Walked([], None)
  {
    var next := ObjectIds(s.title, AddIdMapping(Resource(s.title)), Some(v), ids).1;
    ThenUnit(WalkMembers(obj, s, Some("id"), next, 0), WalkMember(obj, s, Some("id"), next, 0));
  }

  /** The second member of an identified object is its only other one. */
  lemma SecondMember(obj: Json, s: JsonSchema, ids: Path)
    requires obj.JObject? && |obj.members| == 2 && WalkMembers(obj, s, Some("id"), ids, 1) == Walked([], None)
    ensures WalkMembers(obj, s, Some("id"), ids, 2) == WalkMember(obj, s, Some("id"), ids, 1)
  {
    ThenUnit(Walked([], None), WalkMember(obj, s, Some("id"), ids, 1));
  }

  /** An object with nothing but its id. */
  lemma IdOnlyObject(obj: Json, s: JsonSchema, ids: Path, v: string)
    requires obj == JObject([Member("id", JScalar(v))])
    requires s.title != [] && s.properties != [] && s.properties[0] == ("id", s.properties[0].1)
    requires s.properties[0].1.title == AddIdMapping(Resource(s.title))
    ensures Walk(obj, Some(s), ids) == ObjectIds(s.title, AddIdMapping(Resource(s.title)), Some(v), ids).0
  {
    IdentifiedObject(obj, s, ids, v);
    ThenUnit(ObjectIds(s.title, AddIdMapping(Resource(s.title)), Some(v), ids).0, Walked([], None));
  }

  /** A child object's id extends the ids. */
  lemma ChildIds(title: string, primary: string, v: string, ids: Path)
    requires title != [] && title[0] != '>' && (ids == [] || ids[|ids| - 1] != (primary, v))
    ensures ObjectIds(title, primary, Some(v), ids) == (Walked([ids + [(primary, v)]], None), ids + [(primary, v)])
  {
  }

  /** ... unless the ids already end with it. */
  lemma SelfIds(title: string, primary: string, v: string, ids: Path)
    requires title != [] && title[0] != '>' && ids != [] && ids[|ids| - 1] == (primary, v)
    ensures ObjectIds(title, primary, Some(v), ids) == (Walked([ids], None), ids)
  {
    assert ids[..|ids| - 1] + [(primary, v)] == ids;
  }

  /** A parent object's id comes before the innermost id, and alone it is the ids of its members. */
  lemma ParentIds(title: string, primary: string, v: string, ids: Path)
    requires title != [] && title[0] == '>' && ids != []
    ensures ObjectIds(title, primary, Some(v), ids) == (Walked([[(primary, v), ids[|ids| - 1]]], None), [(primary, v)])
  {
    assert [(primary, v)] + [ids[|ids| - 1]] == [(primary, v), ids[|ids| - 1]];
  }

  /** An array of two entries, with an item schema. */
  lemma TwoItems(arr: Json, schema: JsonSchema, ids: Path)
    requires arr.JArray? && |arr.items| == 2
    requires Walk(arr.items[0], schema.item, ids).error.None?
    ensures Walk(arr, Some(schema), ids)
         == Walked(Walk(arr.items[0], schema.item, ids).adds + Walk(arr.items[1], schema.item, ids).adds, Walk(arr.items[1], schema.item, ids).error)
  {
    ThenUnit(WalkItems(arr, Some(schema), ids, 0), WalkItem(arr, Some(schema), ids, 0));
    assert WalkItems(arr, Some(schema), ids, 1) == Walk(arr.items[0], schema.item, ids);
    assert WalkItems(arr, Some(schema), ids, 2) == Then(WalkItems(arr, Some(schema), ids, 1), Walk(arr.items[1], schema.item, ids));
  }

  function HouseSchema(): JsonSchema
  {
    TestSchema("House", ObjectType, [("id", IdSchema("House:@id"))], None)
  }

  lemma HouseMapping()
    ensures AddIdMapping(Resource("House")) == "House:@id"
  {
    assert "House"[0] == 'H';
  }

  /** An object with an id of its own: one Add call with that id. */
  lemma PlainObjectId()
    ensures Walk(JObject([Member("id", JScalar("123"))]), Some(HouseSchema()), []) == Walked([[("House:@id", "123")]], None)
  {
    var none: Path := [];
    HouseMapping();
    IdOnlyObject(JObject([Member("id", JScalar("123"))]), HouseSchema(), none, "123");
    ChildIds("House", "House:@id", "123", none);
    assert none + [("House:@id", "123")] == [("House:@id", "123")];
  }

  /** Below path ids, the object's id is appended to them. */
  lemma PlainObjectIdWithPathVariables()
    ensures Walk(JObject([Member("id", JScalar("123"))]), Some(HouseSchema()), [("City:@id", "456")])
         == Walked([[("City:@id", "456"), ("House:@id", "123")]], None)
  {
    HouseMapping();
    IdOnlyObject(JObject([Member("id", JScalar("123"))]), HouseSchema(), [("City:@id", "456")], "123");
    assert "City:@id"[0] != "House:@id"[0];
    ChildIds("House", "House:@id", "123", [("City:@id", "456")]);
    assert [("City:@id", "456")] + [("House:@id", "123")] == [("City:@id", "456"), ("House:@id", "123")];
  }

  /** Path ids already ending with the object's id are taken as they are. */
  lemma PlainObjectIdSelfCall()
    ensures Walk(JObject([Member("id", JScalar("123"))]), Some(HouseSchema()), [("City:@id", "456"), ("House:@id", "123")])
         == Walked([[("City:@id", "456"), ("House:@id", "123")]], None)
  {
    HouseMapping();
    IdOnlyObject(JObject([Member("id", JScalar("123"))]), HouseSchema(), [("City:@id", "456"), ("House:@id", "123")], "123");
    SelfIds("House", "House:@id", "123", [("City:@id", "456"), ("House:@id", "123")]);
  }

  /** A nested object of the same class with another id keeps the outer one and adds its own. */
  lemma PlainObjectIdNestedCall()
    ensures Walk(JObject([Member("id", JScalar("123"))]), Some(HouseSchema()), [("City:@id", "456"), ("House:@id", "456")])
         == Walked([[("City:@id", "456"), ("House:@id", "456"), ("House:@id", "123")]], None)
  {
    var ids := [("City:@id", "456"), ("House:@id", "456")];
    HouseMapping();
    IdOnlyObject(JObject([Member("id", JScalar("123"))]), HouseSchema(), ids, "123");
    assert "456"[0] != "123"[0];
    ChildIds("House", "House:@id", "123", ids);
    assert ids + [("House:@id", "123")] == [("City:@id", "456"), ("House:@id", "456"), ("House:@id", "123")];
  }

  /** Children in a '<' array are added below the parent's id, one call each. */
  lemma NestedArrayChildObjectId()
    ensures
      var room := TestSchema("<Room", ObjectType, [("id", IdSchema("Room:@id"))], None);
      var house := TestSchema("House", ObjectType, [("id", IdSchema("House:@id")), ("rooms", TestSchema("<Room", ArrayType, [], Some(room)))], None);
      Walk(JObject([Member("id", JScalar("123")), Member("rooms", JArray([JObject([Member("id", JScalar("6"))]), JObject([Member("id", JScalar("7"))])]))]),
           Some(house), [])
      == Walked([[("House:@id", "123")], [("House:@id", "123"), ("Room:@id", "6")], [("House:@id", "123"), ("Room:@id", "7")]], None)
  {
    var room := RoomSchema();
    var rooms := TestSchema("<Room", ArrayType, [], Some(room));
    var house := TestSchema("House", ObjectType, [("id", IdSchema("House:@id")), ("rooms", rooms)], None);
    var r6 := JObject([Member("id", JScalar("6"))]);
    var r7 := JObject([Member("id", JScalar("7"))]);
    var arr := JArray([r6, r7]);
    var obj := JObject([Member("id", JScalar("123")), Member("rooms", arr)]);
    var none: Path := [];
    var h := [("House:@id", "123")];
    HouseMapping();
    assert "<Room"[1..] == "Room";
    assert AddIdMapping(Resource("<Room")) == "Room:@id";
    IdentifiedObject(obj, house, none, "123");
    ChildIds("House", "House:@id", "123", none);
    assert none + h == h;
    SecondMember(obj, house, h);
    assert Property(house.properties, "rooms") == Some(rooms);
    assert "id"[0] != "rooms"[0];
    assert WalkMember(obj, house, Some("id"), h, 1) == Walk(arr, Some(rooms), h);
    var w := Walked([[("House:@id", "123"), ("Room:@id", "6")], [("House:@id", "123"), ("Room:@id", "7")]], None);
    RoomItems();
    assert Walk(arr, Some(rooms), h) == w;
    assert Then(Walked([h], None), w) == Walked([h] + w.adds, None);
    assert [h] + w.adds == [[("House:@id", "123")], [("House:@id", "123"), ("Room:@id", "6")], [("House:@id", "123"), ("Room:@id", "7")]];
  }

  function RoomSchema(): JsonSchema
  {
    TestSchema("<Room", ObjectType, [("id", IdSchema("Room:@id"))], None)
  }

  /** The two rooms of the '<' array, each added below the house id. */
  lemma RoomItems()
    ensures
      Walk(JArray([JObject([Member("id", JScalar("6"))]), JObject([Member("id", JScalar("7"))])]),
           Some(TestSchema("<Room", ArrayType, [], Some(RoomSchema()))), [("House:@id", "123")])
      == Walked([[("House:@id", "123"), ("Room:@id", "6")], [("House:@id", "123"), ("Room:@id", "7")]], None)
  {
    var room := RoomSchema();
    var r6 := JObject([Member("id", JScalar("6"))]);
    var r7 := JObject([Member("id", JScalar("7"))]);
    var h := [("House:@id", "123")];
    assert "<Room"[1..] == "Room";
    assert AddIdMapping(Resource("<Room")) == "Room:@id";
    IdOnlyObject(r6, room, h, "6");
    ChildIds("<Room", "Room:@id", "6", h);
    IdOnlyObject(r7, room, h, "7");
    ChildIds("<Room", "Room:@id", "7", h);
    TwoItems(JArray([r6, r7]), TestSchema("<Room", ArrayType, [], Some(room)), h);
    assert h + [("Room:@id", "6")] == [("House:@id", "123"), ("Room:@id", "6")];
    assert h + [("Room:@id", "7")] == [("House:@id", "123"), ("Room:@id", "7")];
  }

  /** A '>' object is the parent: its id is added before the child's. */
  lemma NestedParentObjectId()
    ensures
      var house := TestSchema(">House", ObjectType, [("id", IdSchema("House:@id"))], None);
      var room := TestSchema("Room", ObjectType, [("id", IdSchema("Room:@id")), ("house", house)], None);
      Walk(JObject([Member("id", JScalar("6")), Member("house", JObject([Member("id", JScalar("123"))]))]), Some(room), [])
      == Walked([[("Room:@id", "6")], [("House:@id", "123"), ("Room:@id", "6")]], None)
  {
    var house := TestSchema(">House", ObjectType, [("id", IdSchema("House:@id"))], None);
    var room := TestSchema("Room", ObjectType, [("id", IdSchema("Room:@id")), ("house", house)], None);
    var inner := JObject([Member("id", JScalar("123"))]);
    var obj := JObject([Member("id", JScalar("6")), Member("house", inner)]);
    var none: Path := [];
    var r := [("Room:@id", "6")];
    assert "Room"[0] == 'R';
    assert AddIdMapping(Resource("Room")) == "Room:@id";
    assert ">House"[1..] == "House";
    assert AddIdMapping(Resource(">House")) == "House:@id";
    IdentifiedObject(obj, room, none, "6");
    ChildIds("Room", "Room:@id", "6", none);
    assert none + r == r;
    SecondMember(obj, room, r);
    assert Property(room.properties, "house") == Some(house);
    IdOnlyObject(inner, house, r, "123");
    ParentIds(">House", "House:@id", "123", r);
  }

  /** A scalar '>' reference names the parent of the innermost id. */
  lemma ReferencedParentId()
    ensures Walk(JObject([Member("id", JScalar("6")), Member("houseId", JScalar("123"))]),
                 Some(TestSchema("Room", ObjectType, [("id", IdSchema("Room:@id")), ("houseId", IdSchema(">House:@id"))], None)), [])
         == Walked([[("Room:@id", "6")], [("House:@id", "123"), ("Room:@id", "6")]], None)
  {
    var none: Path := [];
    var obj := JObject([Member("id", JScalar("6")), Member("houseId", JScalar("123"))]);
    var room := TestSchema("Room", ObjectType, [("id", IdSchema("Room:@id")), ("houseId", IdSchema(">House:@id"))], None);
    var r := [("Room:@id", "6")];
    assert "Room"[0] == 'R';
    assert AddIdMapping(Resource("Room")) == "Room:@id";
    IdentifiedObject(obj, room, none, "6");
    ChildIds("Room", "Room:@id", "6", none);
    assert none + r == r;
    SecondMember(obj, room, r);
    assert IsIdMapping(">House:@id") && ">House:@id"[1..] == "House:@id";
    assert Property(room.properties, "houseId") == Some(IdSchema(">House:@id"));
    assert ScalarIds(">House:@id", "123", r) == [("House:@id", "123"), ("Room:@id", "6")];
  }

  /** A scalar '<' reference names a child below the ids. */
  lemma ReferencedChildId()
    ensures Walk(JObject([Member("id", JScalar("123")), Member("roomId", JScalar("6"))]),
                 Some(TestSchema("House", ObjectType, [("id", IdSchema("House:@id")), ("roomId", IdSchema("<Room:@id"))], None)), [])
         == Walked([[("House:@id", "123")], [("House:@id", "123"), ("Room:@id", "6")]], None)
  {
    var none: Path := [];
    var obj := JObject([Member("id", JScalar("123")), Member("roomId", JScalar("6"))]);
    var house := TestSchema("House", ObjectType, [("id", IdSchema("House:@id")), ("roomId", IdSchema("<Room:@id"))], None);
    var h := [("House:@id", "123")];
    HouseMapping();
    IdentifiedObject(obj, house, none, "123");
    ChildIds("House", "House:@id", "123", none);
    assert none + h == h;
    SecondMember(obj, house, h);
    assert IsIdMapping("<Room:@id") && "<Room:@id"[1..] == "Room:@id";
    assert Property(house.properties, "roomId") == Some(IdSchema("<Room:@id"));
    assert ScalarIds("<Room:@id", "6", h) == [("House:@id", "123"), ("Room:@id", "6")];
  }

  // ---------------------------------------------------------------------------------
  // The walk performed on a TestModel

  /** A TestModel's fields, and the exception that stopped the calls made on it. */
  datatype ModelState = ModelState(nodes: IdGraph, state: State, nextId: nat, error: Option<Exception>)

  ghost predicate Ok(m: ModelState)
  {
    Inv(m.nodes, m.state, m.nextId)
  }

  /** model.Add(values), unless an earlier call threw. */
  function AddOne(m: ModelState, values: Path): (r: ModelState)
    requires Ok(m)
    ensures Ok(r)
  {
    if m.error.Some? then m
    else
      var o := AddSpec(m.nodes, m.state, m.nextId, values);
      ModelState(o.nodes, o.state, m.nextId + |values|, o.error)
  }

  /** The Add calls in order, up to the first that throws. */
  function AddAll(m: ModelState, adds: seq<Path>): (r: ModelState)
    requires Ok(m)
    ensures Ok(r)
  {
    if adds == [] then m else AddOne(AddAll(m, adds[..|adds| - 1]), adds[|adds| - 1])
  }

  /** The model after a walk: its Add calls, then the exception that ended it. */
  function Replay(m: ModelState, w: Walked): (r: ModelState)
    requires Ok(m)
    ensures Ok(r)
  {
    var r := AddAll(m, w.adds);
    if r.error.Some? then r else r.(error := w.error)
  }

  lemma {:induction false} AddAllStopped(m: ModelState, adds: seq<Path>)
    requires Ok(m) && m.error.Some?
    ensures AddAll(m, adds) == m
  {
    if adds != [] {
      AddAllStopped(m, adds[..|adds| - 1]);
    }
  }

  lemma {:induction false} AddAllAppend(m: ModelState, a: seq<Path>, b: seq<Path>)
    requires Ok(m)
    ensures AddAll(m, a + b) == AddAll(AddAll(m, a), b)
    decreases |b|
  {
    if b == [] {
      assert a + b == a;
    } else {
      assert (a + b)[..|a + b| - 1] == a + b[..|b| - 1];
      AddAllAppend(m, a, b[..|b| - 1]);
    }
  }

  /** Replaying a then b is replaying a, and b from where a left the model. */
  lemma ReplayThen(m: ModelState, a: Walked, b: Walked)
    requires Ok(m) && m.error.None?
    ensures Replay(m, Then(a, b)) ==
      if Replay(m, a).error.Some? then Replay(m, a) else Replay(AddAll(m, a.adds), b)
  {
    if a.error.None? {
      AddAllAppend(m, a.adds, b.adds);
      var r := AddAll(m, a.adds);
      if r.error.Some? {
        AddAllStopped(r, b.adds);
      }
    }
  }

  /** A walk without Add calls only sets the exception. */
  lemma ReplayNoAdds(m: ModelState, e: Option<Exception>)
    requires Ok(m) && m.error.None?
    ensures Replay(m, Walked([], e)) == m.(error := e)
  {
  }

  /** A walk with one Add call and no exception is that call. */
  lemma ReplayOneAdd(m: ModelState, values: Path)
    requires Ok(m) && m.error.None?
    ensures Replay(m, Walked([values], None)) == AddOne(m, values)
  {
    assert [values][..0] == [];
    var r := AddOne(m, values);
    assert AddAll(m, [values]) == r;
    if r.error.None? {
      assert r.(error := None) == r;
    }
  }

  /** Once a walk has thrown, what follows it changes nothing. */
  lemma ReplayStopped(m: ModelState, front: Walked, next: Walked)
    requires Ok(m) && m.error.None? && Replay(m, front).error.Some?
    ensures Replay(m, Then(front, next)) == Replay(m, front)
  {
    ReplayThen(m, front, next);
  }

  /** A walk that has not thrown continues from the model it left. */
  lemma ReplayStep(m: ModelState, front: Walked, next: Walked)
    requires Ok(m) && m.error.None? && Replay(m, front).error.None?
    ensures Replay(m, Then(front, next)) == Replay(Replay(m, front), next)
  {
    ReplayThen(m, front, next);
    assert Replay(m, front) == AddAll(m, front.adds);
  }

  function Snapshot(model: Domain.TestModel): ModelState
    reads model
  {
    ModelState(model.nodes, model.state, model.nextId, None)
  }

  /** Once replaying the foreach over the entries has thrown, later entries change nothing. */
  lemma {:induction false} ItemsStopped(m: ModelState, obj: Json, schema: Option<JsonSchema>, ids: Path, k: nat, n: nat)
    requires Ok(m) && m.error.None?
    requires obj.JArray? && k <= n <= |obj.items| && Replay(m, WalkItems(obj, schema, ids, k)).error.Some?
    ensures Replay(m, WalkItems(obj, schema, ids, n)) == Replay(m, WalkItems(obj, schema, ids, k))
    decreases n
  {
    if k < n {
      ItemsStopped(m, obj, schema, ids, k, n - 1);
      ReplayStopped(m, WalkItems(obj, schema, ids, n - 1), WalkItem(obj, schema, ids, n - 1));
    }
  }

  /** Once replaying the foreach over the members has thrown, later members change nothing. */
  lemma {:induction false} MembersStopped(m: ModelState, obj: Json, s: JsonSchema, key: Option<string>, ids: Path, k: nat, n: nat)
    requires Ok(m) && m.error.None?
    requires obj.JObject? && k <= n <= |obj.members| && Replay(m, WalkMembers(obj, s, key, ids, k)).error.Some?
    ensures Replay(m, WalkMembers(obj, s, key, ids, n)) == Replay(m, WalkMembers(obj, s, key, ids, k))
    decreases n
  {
    if k < n {
      MembersStopped(m, obj, s, key, ids, k, n - 1);
      ReplayStopped(m, WalkMembers(obj, s, key, ids, n - 1), WalkMember(obj, s, key, ids, n - 1));
    }
  }

  /** The extension method, recursive over the token: model.Add for every id found. */
  method SearchForIds(model: Domain.TestModel, obj: Json, schema: Option<JsonSchema>, ids: Path) returns (error: Option<Exception>)
    requires model.Valid()
    modifies model
    ensures model.Valid()
    ensures Snapshot(model).(error := error) == Replay(old(Snapshot(model)), Walk(obj, schema, ids))
    decreases obj, Width(obj)
  {
    match obj
    case JNull =>
      ReplayNoAdds(Snapshot(model), None);
      error := None;
    case JArray(items) =>
      error := SearchItems(model, obj, schema, ids);
    case JObject(members) =>
      if schema.None? {
        ReplayNoAdds(Snapshot(model), Some(NullReference));
        return Some(NullReference);
      }
      error := SearchObject(model, obj, schema.value, ids);
    case JScalar(text) =>
      if schema.None? {
        ReplayNoAdds(Snapshot(model), Some(NullReference));
        return Some(NullReference);
      }
      if IsIdMapping(schema.value.title) {
        var values := ScalarIds(schema.value.title, text, ids);
        ReplayOneAdd(Snapshot(model), values);
        error := model.Add(values);
      } else {
        ReplayNoAdds(Snapshot(model), None);
        error := None;
      }
  }

  /** An object: its own id first, then its members. */
  method SearchObject(model: Domain.TestModel, obj: Json, s: JsonSchema, ids: Path) returns (error: Option<Exception>)
    requires obj.JObject? && model.Valid()
    modifies model
    ensures model.Valid()
    ensures Snapshot(model).(error := error) == Replay(old(Snapshot(model)), Walk(obj, Some(s), ids))
    decreases obj, 2
  {
    var members := obj.members;
    ghost var start := Snapshot(model);
    var primary := AddIdMapping(Resource(s.title));
    var key := IdKey(s.properties, primary);
    var token := if key.Some? then Lookup(members, key.value) else None;
    var id := if token.Some? then Some(TokenText(token.value)) else None;
    if |s.title| == 0 {
      assert Walk(obj, Some(s), ids) == Walked([], Some(IndexOutOfRange));
      ReplayNoAdds(start, Some(IndexOutOfRange));
      return Some(IndexOutOfRange);
    }
    var (head, next) := ObjectIds(s.title, primary, id, ids);
    assert Walk(obj, Some(s), ids) == Then(head, WalkMembers(obj, s, key, next, |members|));
    ReplayThen(start, head, WalkMembers(obj, s, key, next, |members|));
    if |head.adds| == 1 {
      assert head == Walked([head.adds[0]], None);
      ReplayOneAdd(start, head.adds[0]);
      assert head.adds[..0] == [];
      error := model.Add(head.adds[0]);
      assert Snapshot(model).(error := error) == AddOne(start, head.adds[0]);
      if error.Some? {
        return;
      }
    } else {
      assert head == Walked([], None);
      ReplayNoAdds(start, None);
    }
    assert Snapshot(model) == AddAll(start, head.adds);
    error := SearchMembers(model, obj, s, key, next);
  }

  /** foreach (var entry in obj) model.SearchForIds(entry, objSchema.Item, ids). */
  method SearchItems(model: Domain.TestModel, obj: Json, schema: Option<JsonSchema>, ids: Path) returns (error: Option<Exception>)
    requires obj.JArray? && model.Valid()
    modifies model
    ensures model.Valid()
    ensures Snapshot(model).(error := error) == Replay(old(Snapshot(model)), WalkItems(obj, schema, ids, |obj.items|))
    decreases obj, 1
  {
    ghost var start := Snapshot(model);
    for i := 0 to |obj.items|
      invariant model.Valid()
      invariant Snapshot(model) == Replay(start, WalkItems(obj, schema, ids, i))
    {
      ReplayStep(start, WalkItems(obj, schema, ids, i), WalkItem(obj, schema, ids, i));
      error := SearchItem(model, obj, schema, ids, i);
      if error.Some? {
        ItemsStopped(start, obj, schema, ids, i + 1, |obj.items|);
        return;
      }
    }
    error := None;
  }

  /** One pass of the foreach over the entries. */
  method SearchItem(model: Domain.TestModel, obj: Json, schema: Option<JsonSchema>, ids: Path, i: nat) returns (error: Option<Exception>)
    requires obj.JArray? && i < |obj.items| && model.Valid()
    modifies model
    ensures model.Valid()
    ensures Snapshot(model).(error := error) == Replay(old(Snapshot(model)), WalkItem(obj, schema, ids, i))
    decreases obj, 0
  {
    if schema.None? {
      ReplayNoAdds(Snapshot(model), Some(NullReference));
      return Some(NullReference);
    }
    error := SearchForIds(model, obj.items[i], schema.value.item, ids);
  }

  /** The foreach over the members of an object, with the ids the object's own id gave. */
  method SearchMembers(model: Domain.TestModel, obj: Json, s: JsonSchema, key: Option<string>, ids: Path) returns (error: Option<Exception>)
    requires obj.JObject? && model.Valid()
    modifies model
    ensures model.Valid()
    ensures Snapshot(model).(error := error) == Replay(old(Snapshot(model)), WalkMembers(obj, s, key, ids, |obj.members|))
    decreases obj, 1
  {
    ghost var start := Snapshot(model);
    for i := 0 to |obj.members|
      invariant model.Valid()
      invariant Snapshot(model) == Replay(start, WalkMembers(obj, s, key, ids, i))
    {
      ReplayStep(start, WalkMembers(obj, s, key, ids, i), WalkMember(obj, s, key, ids, i));
      error := SearchMember(model, obj, s, key, ids, i);
      if error.Some? {
        MembersStopped(start, obj, s, key, ids, i + 1, |obj.members|);
        return;
      }
    }
    error := None;
  }

  /** One pass of the foreach over the members: the id member and unknown allowed members are skipped. */
  method SearchMember(model: Domain.TestModel, obj: Json, s: JsonSchema, key: Option<string>, ids: Path, i: nat) returns (error: Option<Exception>)
    requires obj.JObject? && i < |obj.members| && model.Valid()
    modifies model
    ensures model.Valid()
    ensures Snapshot(model).(error := error) == Replay(old(Snapshot(model)), WalkMember(obj, s, key, ids, i))
    decreases obj, 0
  {
    var m := obj.members[i];
    var p := Property(s.properties, m.key);
    if key == Some(m.key) || (p.None? && s.allowAdditionalProperties) {
      ReplayNoAdds(Snapshot(model), None);
      return None;
    }
    if p.None? {
      ReplayNoAdds(Snapshot(model), Some(KeyNotFound));
      return Some(KeyNotFound);
    }
    error := SearchForIds(model, m.value, p, ids);
  }


  /**
   * ExtractIdsFromUri: the ids the path of the URI carries (matched case
   * sensitively against the configured paths) are added to the model; matching
   * failures propagate and leave the model as it was.
   */
  method ExtractIdsFromUri(model: Domain.TestModel, paths: Option<TestConfigurations.PathEntries>, absolutePath: string)
    returns (error: Option<Exception>)
    requires model.Valid()
    modifies model
    ensures model.Valid()
    ensures match TestConfigurations.IdsOfPath(paths, absolutePath, false)
      case Failure(e) => error == Some(e) && Snapshot(model) == old(Snapshot(model))
      case Success(values) => Snapshot(model).(error := error) == AddOne(old(Snapshot(model)), values)
  {
    var values := TestConfigurations.GetIdsOfPath(paths, absolutePath, false);
    if values.Failure? {
      return Some(values.error);
    }
    error := model.Add(values.value);
  }
}
