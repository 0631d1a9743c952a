/** What canonical text is for: equal values, and only equal values, have equal texts, and a text gives
    its value back. */
module CanonicalJson {
  import opened Basics
  import opened Documents
  import opened JsonText
  import opened Arrangement
  import opened Serializer
  import JsonRoundTrip
  import Text

  /* ---------- JSON values among all values ---------- */

  function Of(j: Json): JsValue {
    match j
    case Null => JsNull
    case Bool(b) => JsBool(b)
    case Num(n) => JsNumber(n)
    case Str(s) => JsString(s)
    case Arr(items) => JsArray(seq(|items|, i requires 0 <= i < |items| => Of(items[i])))
    case Obj(fields) => JsObject(seq(|fields|, i requires 0 <= i < |fields| => Prop(fields[i].name, Of(fields[i].value))))
  }

  lemma {:induction false} JsonIsProper(j: Json)
    requires WellFormed(j)
    ensures Proper(Of(j))
  {
    match j
    case Arr(items) => forall i | 0 <= i < |items| ensures Proper(Of(items[i])) { JsonIsProper(items[i]); }
    case Obj(fields) =>
      forall i | 0 <= i < |fields| ensures Proper(Of(fields[i].value)) {
        JsonIsProper(fields[i].value);
      }
    case _ =>
  }

  /** At most `levels` containers are open at once, members under reserved names not counted. */
  predicate Shallow(j: Json, levels: int) {
    && levels >= 0
    && match j
       case Arr(items) => forall i :: 0 <= i < |items| ==> Shallow(items[i], levels - 1)
       case Obj(fields) =>
         forall i :: 0 <= i < |fields| ==> fields[i].name in RESERVED || Shallow(fields[i].value, levels - 1)
       case _ => true
  }

  /** The stored form: members by code units, reserved names gone. */
  function Canonical(j: Json): Json {
    Arrange(CodeUnitLess, RESERVED, j)
  }

  /* ---------- sorted keys ---------- */

  predicate AscendingNames(names: seq<string>) {
    forall i, j :: 0 <= i < j < |names| ==> CodeUnitLess(names[i], names[j])
  }

  lemma {:induction false} InsertNameAscends(name: string, names: seq<string>)
    requires AscendingNames(names) && name !in names
    ensures AscendingNames(InsertName(name, names))
  {
    CodeUnitOrderIsStrictTotal();
    if names != [] && !CodeUnitLess(name, names[0]) {
      var rest := InsertName(name, names[1..]);
      assert name !in names[1..];
      InsertNameAscends(name, names[1..]);
      forall j | 0 <= j < |rest| ensures CodeUnitLess(names[0], rest[j]) {
        assert rest[j] in rest;
        if rest[j] != name {
          var i :| 0 <= i < |names[1..]| && names[1..][i] == rest[j];
          assert names[i + 1] == rest[j];
        }
      }
    }
  }

  lemma {:induction false} SortedKeysAscend(props: seq<Prop>)
    requires forall i, j :: 0 <= i < j < |props| ==> props[i].name != props[j].name
    ensures AscendingNames(SortedKeys(props))
  {
    if props != [] {
      SortedKeysAscend(props[1..]);
      assert forall i :: 0 <= i < |props[1..]| ==> props[1..][i] == props[i + 1];
      InsertNameAscends(props[0].name, SortedKeys(props[1..]));
    }
  }

  /* ---------- members, one key after the other ---------- */

  lemma {:induction false} LookupSnoc(fields: seq<Field>, last: Field, name: string)
    ensures Lookup(fields + [last], name)
         == if Lookup(fields, name).Some? then Lookup(fields, name)
            else if last.name == name then Some(last.value) else None
  {
    if fields == [] {
      assert fields + [last] == [last] && [last][1..] == [];
    } else {
      assert (fields + [last])[1..] == fields[1..] + [last];
      LookupSnoc(fields[1..], last, name);
    }
  }

  lemma {:induction false} AscendingSnoc(fields: seq<Field>, last: Field)
    requires Ascending(CodeUnitLess, fields)
    requires forall i :: 0 <= i < |fields| ==> CodeUnitLess(fields[i].name, last.name)
    ensures Ascending(CodeUnitLess, fields + [last])
  {
    if fields == [] {
      assert fields + [last] == [last] && [last][1..] == [];
    } else {
      assert (fields + [last])[1..] == fields[1..] + [last];
      assert forall i :: 0 <= i < |fields[1..]| ==> fields[1..][i] == fields[i + 1];
      AscendingSnoc(fields[1..], last);
    }
  }

  lemma {:induction false} PropIsLookedUp(fields: seq<Field>, key: string)
    requires Lookup(fields, key).Some?
    ensures IsKeyOf(Of(Obj(fields)), key)
    ensures PropValue(Of(Obj(fields)).props, key) == Of(Lookup(fields, key).value)
  {
    var props := Of(Obj(fields)).props;
    var i :| 0 <= i < |fields| && fields[i] == Field(key, Lookup(fields, key).value);
    assert props[i].name == key;
    if fields[0].name != key {
      assert props[1..] == Of(Obj(fields[1..])).props;
      PropIsLookedUp(fields[1..], key);
    }
  }

  /** What the first keys contribute: the members under them, in order, those with reserved names left out. */
  ghost predicate Collected(fields: seq<Field>, keys: seq<string>, out: seq<Field>) {
    && Ascending(CodeUnitLess, out)
    && forall n :: Lookup(out, n)
                == if n in keys && n !in RESERVED && Lookup(fields, n).Some?
                   then Some(Canonical(Lookup(fields, n).value)) else None
  }

  lemma LookedUpIn(fields: seq<Field>, name: string)
    ensures name in Names(fields) <==> Lookup(fields, name).Some?
  {
  }

  lemma LastIsAbove(keys: seq<string>, key: string)
    requires AscendingNames(keys + [key])
    ensures forall k :: k in keys ==> CodeUnitLess(k, key)
  {
    var all := keys + [key];
    forall k | k in keys ensures CodeUnitLess(k, key) {
      var i :| 0 <= i < |keys| && keys[i] == k;
      assert CodeUnitLess(all[i], all[|keys|]);
    }
  }

  lemma CollectMore(fields: seq<Field>, keys: seq<string>, key: string, out: seq<Field>)
    requires Collected(fields, keys, out)
    requires AscendingNames(keys + [key]) && Lookup(fields, key).Some? && key !in RESERVED
    ensures Collected(fields, keys + [key], out + [Field(key, Canonical(Lookup(fields, key).value))])
  {
    var last := Field(key, Canonical(Lookup(fields, key).value));
    LastIsAbove(keys, key);
    CodeUnitOrderIsStrictTotal();
    assert key !in keys;
    forall i | 0 <= i < |out| ensures CodeUnitLess(out[i].name, key) {
      assert out[i].name in Names(out);
      LookedUpIn(out, out[i].name);
    }
    AscendingSnoc(out, last);
    assert forall n :: n in keys + [key] <==> n in keys || n == key;
    forall n ensures Lookup(out + [last], n) == if Lookup(out, n).Some? then Lookup(out, n)
                                                else if key == n then Some(last.value) else None
    {
      LookupSnoc(out, last, n);
    }
  }

  predicate Room(fields: seq<Field>, keys: seq<string>, levels: int) {
    forall i :: 0 <= i < |keys| && keys[i] !in RESERVED && Lookup(fields, keys[i]).Some? ==>
      Shallow(Lookup(fields, keys[i]).value, levels)
  }

  /** The members under the keys become the collected ones, unless one of them is too deep. */
  ghost predicate MembersTurnOut(fields: seq<Field>, keys: seq<string>, path: seq<Step>) {
    AreKeysOf(Of(Obj(fields)), keys) &&
    match MembersToJson(Of(Obj(fields)), keys, path)
    case Ok(out) => Room(fields, keys, MAX_DEPTH - |path| - 1) && Collected(fields, keys, out)
    case Err(e) => !Room(fields, keys, MAX_DEPTH - |path| - 1) && e.fault == TooDeep
  }

  /** The value becomes its canonical form, unless it is too deep. */
  ghost predicate TurnsOut(j: Json, path: seq<Step>) {
    match ToJson(Of(j), path)
    case Ok(out) => Shallow(j, MAX_DEPTH - |path|) && out == Canonical(j)
    case Err(e) => !Shallow(j, MAX_DEPTH - |path|) && e.fault == TooDeep
  }

  lemma RoomForOneMore(fields: seq<Field>, keys: seq<string>, key: string, levels: int)
    requires Lookup(fields, key).Some?
    ensures Room(fields, keys + [key], levels)
       <==> Room(fields, keys, levels) && (key in RESERVED || Shallow(Lookup(fields, key).value, levels))
  {
    var all := keys + [key];
    assert all[|keys|] == key;
    assert forall i :: 0 <= i < |keys| ==> all[i] == keys[i];
  }

  /** One more key, its value turned out as it does. */
  lemma OneMoreKeyConverts(v: JsValue, keys: seq<string>, key: string, path: seq<Step>)
    requires v.JsObject? && AreKeysOf(v, keys) && IsKeyOf(v, key) && !PropValue(v.props, key).Undefined?
    ensures AreKeysOf(v, keys + [key])
    ensures MembersToJson(v, keys + [key], path)
         == match MembersToJson(v, keys, path)
            case Err(e) => Err(e)
            case Ok(before) =>
              if key in RESERVED then Ok(before)
              else
                match ToJson(PropValue(v.props, key), path + [Member(key)])
                case Err(e) => Err(e)
                case Ok(j) => Ok(before + [Field(key, j)])
  {
  }

  lemma OneReservedMore(fields: seq<Field>, keys: seq<string>, key: string, path: seq<Step>)
    requires key in RESERVED && Lookup(fields, key).Some? && MembersTurnOut(fields, keys, path)
    requires IsKeyOf(Of(Obj(fields)), key) && !PropValue(Of(Obj(fields)).props, key).Undefined?
    ensures MembersTurnOut(fields, keys + [key], path)
  {
  }

  /** A member that becomes itself is collected. */
  lemma OneMemberCollected(fields: seq<Field>, keys: seq<string>, key: string, path: seq<Step>, before: seq<Field>)
    requires key !in RESERVED && AscendingNames(keys + [key]) && Lookup(fields, key).Some?
    requires AreKeysOf(Of(Obj(fields)), keys) && IsKeyOf(Of(Obj(fields)), key)
    requires PropValue(Of(Obj(fields)).props, key) == Of(Lookup(fields, key).value)
    requires MembersToJson(Of(Obj(fields)), keys, path) == Ok(before)
    requires Room(fields, keys, MAX_DEPTH - |path| - 1) && Collected(fields, keys, before)
    requires Shallow(Lookup(fields, key).value, MAX_DEPTH - |path| - 1)
    requires ToJson(Of(Lookup(fields, key).value), path + [Member(key)]) == Ok(Canonical(Lookup(fields, key).value))
    ensures MembersTurnOut(fields, keys + [key], path)
  {
    OneMoreKeyConverts(Of(Obj(fields)), keys, key, path);
    RoomForOneMore(fields, keys, key, MAX_DEPTH - |path| - 1);
    CollectMore(fields, keys, key, before);
  }

  /** A member that is too deep stops the object. */
  lemma OneMemberTooDeep(fields: seq<Field>, keys: seq<string>, key: string, path: seq<Step>)
    requires key !in RESERVED && Lookup(fields, key).Some?
    requires AreKeysOf(Of(Obj(fields)), keys) && IsKeyOf(Of(Obj(fields)), key)
    requires PropValue(Of(Obj(fields)).props, key) == Of(Lookup(fields, key).value)
    requires MembersToJson(Of(Obj(fields)), keys, path).Ok?
    requires var r := ToJson(Of(Lookup(fields, key).value), path + [Member(key)]); r.Err? && r.error.fault == TooDeep
    requires !Shallow(Lookup(fields, key).value, MAX_DEPTH - |path| - 1)
    ensures MembersTurnOut(fields, keys + [key], path)
  {
    OneMoreKeyConverts(Of(Obj(fields)), keys, key, path);
    RoomForOneMore(fields, keys, key, MAX_DEPTH - |path| - 1);
  }

  /** So does one before it. */
  lemma EarlierMemberTooDeep(fields: seq<Field>, keys: seq<string>, key: string, path: seq<Step>)
    requires Lookup(fields, key).Some? && IsKeyOf(Of(Obj(fields)), key)
    requires !PropValue(Of(Obj(fields)).props, key).Undefined?
    requires MembersTurnOut(fields, keys, path) && MembersToJson(Of(Obj(fields)), keys, path).Err?
    ensures MembersTurnOut(fields, keys + [key], path)
  {
    OneMoreKeyConverts(Of(Obj(fields)), keys, key, path);
    RoomForOneMore(fields, keys, key, MAX_DEPTH - |path| - 1);
  }

  lemma OneMemberMore(fields: seq<Field>, keys: seq<string>, key: string, path: seq<Step>)
    requires key !in RESERVED && AscendingNames(keys + [key]) && Lookup(fields, key).Some?
    requires IsKeyOf(Of(Obj(fields)), key) && PropValue(Of(Obj(fields)).props, key) == Of(Lookup(fields, key).value)
    requires MembersTurnOut(fields, keys, path)
    requires TurnsOut(Lookup(fields, key).value, path + [Member(key)])
    ensures MembersTurnOut(fields, keys + [key], path)
  {
    var before := MembersToJson(Of(Obj(fields)), keys, path);
    if before.Err? {
      EarlierMemberTooDeep(fields, keys, key, path);
    } else if ToJson(Of(Lookup(fields, key).value), path + [Member(key)]).Ok? {
      OneMemberCollected(fields, keys, key, path, before.value);
    } else {
      OneMemberTooDeep(fields, keys, key, path);
    }
  }

  lemma {:induction false} MembersBecomeThemselves(fields: seq<Field>, keys: seq<string>, path: seq<Step>)
    requires WellFormed(Obj(fields)) && AscendingNames(keys)
    requires forall i :: 0 <= i < |keys| ==> Lookup(fields, keys[i]).Some?
    ensures MembersTurnOut(fields, keys, path)
    decreases fields, |keys|
  {
    if keys != [] {
      var init, k := keys[..|keys| - 1], keys[|keys| - 1];
      assert keys == init + [k];
      MembersBecomeThemselves(fields, init, path);
      PropIsLookedUp(fields, k);
      var i :| 0 <= i < |fields| && fields[i] == Field(k, Lookup(fields, k).value);
      JsonBecomesItself(fields[i].value, path + [Member(k)]);
      if k in RESERVED {
        OneReservedMore(fields, init, k, path);
      } else {
        OneMemberMore(fields, init, k, path);
      }
    }
  }

  ghost predicate ItemsTurnOut(items: seq<Json>, n: nat, path: seq<Step>)
    requires n <= |items|
  {
    match ItemsToJson(Of(Arr(items)), n, path)
    case Ok(out) =>
      && |out| == n
      && forall i :: 0 <= i < n ==> Shallow(items[i], MAX_DEPTH - |path| - 1) && out[i] == Canonical(items[i])
    case Err(e) =>
      e.fault == TooDeep && exists i :: 0 <= i < n && !Shallow(items[i], MAX_DEPTH - |path| - 1)
  }

  lemma OneItemMore(items: seq<Json>, n: nat, path: seq<Step>)
    requires n < |items| && ItemsTurnOut(items, n, path) && TurnsOut(items[n], path + [Element(n)])
    ensures ItemsTurnOut(items, n + 1, path)
  {
  }

  lemma {:induction false} ItemsBecomeThemselves(items: seq<Json>, n: nat, path: seq<Step>)
    requires WellFormed(Arr(items)) && n <= |items|
    ensures ItemsTurnOut(items, n, path)
    decreases items, n
  {
    if n > 0 {
      ItemsBecomeThemselves(items, n - 1, path);
      JsonBecomesItself(items[n - 1], path + [Element(n - 1)]);
      OneItemMore(items, n - 1, path);
    }
  }

  lemma KeysAreNames(fields: seq<Field>)
    requires Distinct(fields)
    ensures var keys := KeysOf(Of(Obj(fields)));
            && AscendingNames(keys)
            && (forall i :: 0 <= i < |keys| ==> Lookup(fields, keys[i]).Some?)
            && (forall n :: Lookup(fields, n).Some? ==> n in keys)
  {
    var props := Of(Obj(fields)).props;
    var keys := SortedKeys(props);
    SortedKeysAscend(props);
    forall i | 0 <= i < |keys| ensures Lookup(fields, keys[i]).Some? {
      assert keys[i] in keys;
      var k :| 0 <= k < |props| && props[k].name == keys[i];
      LookupAt(fields, k);
    }
    forall n | Lookup(fields, n).Some? ensures n in keys {
      PropIsLookedUp(fields, n);
    }
  }

  /** Every name is a key: room for the keys is room for the members. */
  lemma RoomForAll(fields: seq<Field>, keys: seq<string>, levels: int)
    requires Distinct(fields)
    requires forall i :: 0 <= i < |keys| ==> Lookup(fields, keys[i]).Some?
    requires forall n :: Lookup(fields, n).Some? ==> n in keys
    ensures Room(fields, keys, levels)
       <==> forall i :: 0 <= i < |fields| ==> fields[i].name in RESERVED || Shallow(fields[i].value, levels)
  {
    if Room(fields, keys, levels) {
      forall i | 0 <= i < |fields| ensures fields[i].name in RESERVED || Shallow(fields[i].value, levels) {
        LookupAt(fields, i);
        var k :| 0 <= k < |keys| && keys[k] == fields[i].name;
      }
    } else {
      var k :| 0 <= k < |keys| && keys[k] !in RESERVED && !Shallow(Lookup(fields, keys[k]).value, levels);
      var i :| 0 <= i < |fields| && fields[i] == Field(keys[k], Lookup(fields, keys[k]).value);
    }
  }

  /** Collecting all keys gives the members of the canonical form. */
  lemma CollectedIsCanonical(fields: seq<Field>, keys: seq<string>, out: seq<Field>)
    requires Distinct(fields) && Collected(fields, keys, out)
    requires forall n :: Lookup(fields, n).Some? ==> n in keys
    ensures Obj(out) == Canonical(Obj(fields))
  {
    CodeUnitOrderIsStrictTotal();
    forall n ensures Lookup(out, n) == Lookup(Canonical(Obj(fields)).fields, n) {
      ArrangedObjectLooksUp(CodeUnitLess, RESERVED, fields, n);
    }
    ArrangedObjectLooksUp(CodeUnitLess, RESERVED, fields, "");
    AscendingIsUnique(CodeUnitLess, out, Canonical(Obj(fields)).fields);
  }

  lemma ObjectTurnsOut(fields: seq<Field>, keys: seq<string>, path: seq<Step>)
    requires Distinct(fields) && |path| <= MAX_DEPTH && keys == KeysOf(Of(Obj(fields)))
    requires forall i :: 0 <= i < |keys| ==> Lookup(fields, keys[i]).Some?
    requires forall n :: Lookup(fields, n).Some? ==> n in keys
    requires MembersTurnOut(fields, keys, path)
    ensures TurnsOut(Obj(fields), path)
  {
    RoomForAll(fields, keys, MAX_DEPTH - |path| - 1);
    var r := MembersToJson(Of(Obj(fields)), keys, path);
    if r.Ok? {
      CollectedIsCanonical(fields, keys, r.value);
    }
  }

  /** A JSON value serializes unless it nests deeper than the limit, and becomes its canonical form. */
  lemma {:induction false} JsonBecomesItself(j: Json, path: seq<Step>)
    requires WellFormed(j)
    ensures TurnsOut(j, path)
    decreases j
  {
    if |path| <= MAX_DEPTH {
      match j
      case Arr(items) => ItemsBecomeThemselves(items, |items|, path);
      case Obj(fields) =>
        var keys := KeysOf(Of(j));
        KeysAreNames(fields);
        MembersBecomeThemselves(fields, keys, path);
        ObjectTurnsOut(fields, keys, path);
      case _ =>
    }
  }

  /* ---------- equal texts, equal values ---------- */

  /** The stored text of a JSON value. */
  ghost function TextOf(j: Json): Result<string, SerializationError>
    requires WellFormed(j)
  {
    JsonIsProper(j);
    Rendered(Of(j), [])
  }

  /** The depth limit alone decides whether a JSON value has a text. */
  lemma HasTextExactlyWhenShallow(j: Json)
    requires WellFormed(j)
    ensures TextOf(j).Ok? <==> Shallow(j, MAX_DEPTH)
  {
    JsonBecomesItself(j, []);
  }

  /** Two values have one text exactly when they are equal, members in any order and reserved names apart. */
  lemma TextsAreEqualExactlyWhenSame(a: Json, b: Json)
    requires WellFormed(a) && WellFormed(b)
    requires TextOf(a).Ok? && TextOf(b).Ok?
    ensures TextOf(a) == TextOf(b) <==> Same(Without(RESERVED, a), Without(RESERVED, b))
  {
    JsonBecomesItself(a, []);
    JsonBecomesItself(b, []);
    CodeUnitOrderIsStrictTotal();
    ArrangedAlikeExactlyWhenSameWithout(CodeUnitLess, RESERVED, a, b);
    JsonIsProper(a);
    JsonIsProper(b);
    ResultIsWritable(Of(a), []);
    ResultIsWritable(Of(b), []);
    JsonRoundTrip.TextIsUnique(Canonical(a), Canonical(b));
  }

  /* ---------- reading a stored text ---------- */

  /** The reviver drops reserved names at every level. */
  function Deserialize(text: string): Option<Json> {
    match Parse(text)
    case None => None
    case Some(j) => Some(Without(RESERVED, j))
  }

  lemma {:induction false} ResultIsFree(v: JsValue, path: seq<Step>)
    requires ToJson(v, path).Ok?
    ensures Free(RESERVED, ToJson(v, path).value)
    decreases v
  {
    match v
    case JsArray(items) => ItemsAreFree(v, |items|, path);
    case WithToJson(result) => ResultIsFree(result, path);
    case JsObject(_) => MembersAreFree(v, KeysOf(v), path);
    case _ =>
  }

  lemma {:induction false} ItemsAreFree(v: JsValue, n: nat, path: seq<Step>)
    requires v.JsArray? && n <= |v.items| && ItemsToJson(v, n, path).Ok?
    ensures Free(RESERVED, Arr(ItemsToJson(v, n, path).value))
    decreases v, n
  {
    if n > 0 {
      ItemsAreFree(v, n - 1, path);
      if !v.items[n - 1].Undefined? {
        ResultIsFree(v.items[n - 1], path + [Element(n - 1)]);
      }
    }
  }

  lemma {:induction false} MembersAreFree(v: JsValue, keys: seq<string>, path: seq<Step>)
    requires v.JsObject? && AreKeysOf(v, keys) && MembersToJson(v, keys, path).Ok?
    ensures Free(RESERVED, Obj(MembersToJson(v, keys, path).value))
    decreases v, |keys|
  {
    if keys != [] {
      var k := keys[|keys| - 1];
      MembersAreFree(v, keys[..|keys| - 1], path);
      assert IsKeyOf(v, k);
      var i :| 0 <= i < |v.props| && v.props[i] == Prop(k, PropValue(v.props, k));
      if k !in RESERVED && !v.props[i].value.Undefined? {
        ResultIsFree(v.props[i].value, path + [Member(k)]);
      }
    }
  }

  /** Round trip: whatever a program serializes, reading its text gives the value the text stands for. */
  lemma StoredTextReadsBack(v: JsValue)
    requires Proper(v) && ToJson(v, []).Ok?
    ensures Rendered(v, []).Ok?
    ensures Deserialize(Rendered(v, []).value) == Some(ToJson(v, []).value)
  {
    ResultIsWritable(v, []);
    ResultIsFree(v, []);
    JsonRoundTrip.TextReadsBack(ToJson(v, []).value);
    FreeIsUntouched(RESERVED, ToJson(v, []).value);
  }

  lemma {:induction false} ArrangedIsWellFormed(less: Order, j: Json)
    requires StrictTotal(less) && WellFormed(j) && Free(RESERVED, j)
    ensures WellFormed(Arrange(less, RESERVED, j)) && Free(RESERVED, Arrange(less, RESERVED, j))
    decreases j
  {
    match j
    case Arr(items) =>
      forall i | 0 <= i < |items|
        ensures WellFormed(Arrange(less, RESERVED, items[i])) && Free(RESERVED, Arrange(less, RESERVED, items[i]))
      {
        ArrangedIsWellFormed(less, items[i]);
      }
    case Obj(fields) =>
      var out := Arrange(less, RESERVED, j).fields;
      ArrangedObjectLooksUp(less, RESERVED, fields, "");
      AscendingIsDistinct(less, out);
      forall i | 0 <= i < |out|
        ensures out[i].name !in RESERVED && WellFormed(out[i].value) && Free(RESERVED, out[i].value)
      {
        LookupAt(out, i);
        ArrangedObjectLooksUp(less, RESERVED, fields, out[i].name);
        var k :| 0 <= k < |fields| && fields[k] == Field(out[i].name, Lookup(fields, out[i].name).value);
        ArrangedIsWellFormed(less, fields[k].value);
      }
    case _ =>
  }

  lemma {:induction false} AscendingIsDistinct(less: Order, fields: seq<Field>)
    requires StrictTotal(less) && Ascending(less, fields)
    ensures Distinct(fields)
  {
    if fields != [] {
      AscendingIsDistinct(less, fields[1..]);
      assert forall i :: 1 <= i < |fields| ==> fields[i] == fields[1..][i - 1];
    }
  }

  /** A stored JSON value comes back equal to what was stored, reserved names apart. */
  lemma JsonComesBack(j: Json)
    requires WellFormed(j) && TextOf(j).Ok?
    ensures Deserialize(TextOf(j).value) == Some(Canonical(j))
    ensures Same(Canonical(j), Without(RESERVED, j))
    ensures Same(Canonical(j), j) <==> Free(RESERVED, j)
  {
    var kept := Without(RESERVED, j);
    JsonIsProper(j);
    JsonBecomesItself(j, []);
    StoredTextReadsBack(Of(j));
    CodeUnitOrderIsStrictTotal();
    WithoutIsFree(RESERVED, j);
    WithoutIsArrangedAlike(CodeUnitLess, RESERVED, j);
    ArrangedIsWellFormed(CodeUnitLess, kept);
    ArrangingTwice(CodeUnitLess, kept);
    ArrangedAlikeExactlyWhenSame(CodeUnitLess, RESERVED, Canonical(j), kept);
    SameIsAnEquivalence(CodeUnitLess, j, Canonical(j), kept);
    SameIsAnEquivalence(CodeUnitLess, Canonical(j), kept, j);
    SameIsAnEquivalence(CodeUnitLess, kept, j, j);
    WithoutIsSameExactlyWhenFree(RESERVED, j);
  }

  /** The canonical form is its own canonical form. */
  lemma {:induction false} ArrangingTwice(less: Order, j: Json)
    requires StrictTotal(less) && WellFormed(j) && Free(RESERVED, j)
    ensures Arrange(less, RESERVED, Arrange(less, RESERVED, j)) == Arrange(less, RESERVED, j)
    decreases j
  {
    match j
    case Arr(items) =>
      forall i | 0 <= i < |items|
        ensures Arrange(less, RESERVED, Arrange(less, RESERVED, items[i])) == Arrange(less, RESERVED, items[i])
      {
        ArrangingTwice(less, items[i]);
      }
      assert Arrange(less, RESERVED, Arrange(less, RESERVED, j)).items == Arrange(less, RESERVED, j).items;
    case Obj(fields) =>
      var once := Arrange(less, RESERVED, j).fields;
      var twice := Arrange(less, RESERVED, Obj(once)).fields;
      ArrangedObjectLooksUp(less, RESERVED, fields, "");
      AscendingIsDistinct(less, once);
      forall n ensures Lookup(twice, n) == Lookup(once, n) {
        ArrangedObjectLooksUp(less, RESERVED, once, n);
        ArrangedObjectLooksUp(less, RESERVED, fields, n);
        if Lookup(once, n).Some? {
          var k :| 0 <= k < |fields| && fields[k] == Field(n, Lookup(fields, n).value);
          ArrangingTwice(less, fields[k].value);
        }
      }
      ArrangedObjectLooksUp(less, RESERVED, once, "");
      AscendingIsUnique(less, twice, once);
    case _ =>
  }
}
