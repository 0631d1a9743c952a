/** Canonical serialization: which values have a stored text, and what it is. */
module Serializer {
  import opened Basics
  import opened Documents
  import opened JsonText
  import opened Arrangement
  import Text

  const MAX_DEPTH := 64

  const RESERVED: set<string> := {"__proto__", "constructor", "prototype"}

  /* ---------- values as the program holds them ---------- */

  /** A finite tree; `WithToJson` is an object with a `toJSON` method and what that returns. */
  datatype JsValue =
    | Undefined
    | JsNull
    | JsBool(b: bool)
    | JsNumber(n: Number)
    | NonFinite
    | BigInt
    | FunctionOrSymbol
    | JsString(s: string)
    | JsArray(items: seq<JsValue>)
    | JsObject(props: seq<Prop>)
    | WithToJson(result: JsValue)

  datatype Prop = Prop(name: string, value: JsValue)

  /** Property names are distinct and numbers in shortest form, as in every JavaScript value. */
  predicate Proper(v: JsValue) {
    match v
    case JsNumber(n) => Shortest(n)
    case JsArray(items) => forall i :: 0 <= i < |items| ==> Proper(items[i])
    case JsObject(props) =>
      && (forall i, j :: 0 <= i < j < |props| ==> props[i].name != props[j].name)
      && forall i :: 0 <= i < |props| ==> Proper(props[i].value)
    case WithToJson(result) => Proper(result)
    case _ => true
  }

  datatype Step = Element(index: nat) | Member(name: string)

  datatype Fault = TooDeep | NonFiniteNumber | BigIntValue | FunctionOrSymbolValue | NotAnObject

  datatype SerializationError = SerializationError(fault: Fault, path: seq<Step>)

  /* ---------- the order of member names ---------- */

  predicate CodeUnitLess(a: string, b: string) {
    Text.Compare(a, b) < 0
  }

  lemma CodeUnitOrderIsStrictTotal()
    ensures StrictTotal(CodeUnitLess)
  {
    forall a, b, c | CodeUnitLess(a, b) && CodeUnitLess(b, c) ensures CodeUnitLess(a, c) {
      Text.CompareTransitive(a, b, c);
    }
    forall a, b | a != b ensures CodeUnitLess(a, b) || CodeUnitLess(b, a) {
      Text.CompareFlips(a, b);
    }
    forall a ensures !CodeUnitLess(a, a) {
      assert Text.Compare(a, a) == 0;
    }
  }

  function InsertName(name: string, names: seq<string>): (r: seq<string>)
    ensures forall n :: n in r <==> n == name || n in names
  {
    if names == [] then [name]
    else if CodeUnitLess(name, names[0]) then [name] + names
    else
      assert names == [names[0]] + names[1..];
      [names[0]] + InsertName(name, names[1..])
  }

  /** `Object.keys(object).sort()`. */
  function SortedKeys(props: seq<Prop>): (r: seq<string>)
    ensures forall n :: n in r <==> exists i :: 0 <= i < |props| && props[i].name == n
  {
    if props == [] then []
    else
      assert forall i :: 1 <= i < |props| ==> props[i] == props[1..][i - 1];
      InsertName(props[0].name, SortedKeys(props[1..]))
  }

  /** `object[key]` for one of its own keys. */
  function PropValue(props: seq<Prop>, key: string): (v: JsValue)
    requires exists i :: 0 <= i < |props| && props[i].name == key
    ensures exists i :: 0 <= i < |props| && props[i] == Prop(key, v)
  {
    if props[0].name == key then props[0].value
    else
      assert exists i :: 0 <= i < |props[1..]| && props[1..][i].name == key by {
        var i :| 0 <= i < |props| && props[i].name == key;
        assert props[1..][i - 1] == props[i];
      }
      var v := PropValue(props[1..], key);
      assert exists i :: 1 <= i < |props| && props[i] == Prop(key, v) by {
        var i :| 0 <= i < |props[1..]| && props[1..][i] == Prop(key, v);
        assert props[i + 1] == props[1..][i];
      }
      v
  }

  /* ---------- what a value becomes ---------- */

  predicate IsKeyOf(v: JsValue, key: string) {
    v.JsObject? && exists i :: 0 <= i < |v.props| && v.props[i].name == key
  }

  predicate AreKeysOf(v: JsValue, keys: seq<string>) {
    forall i :: 0 <= i < |keys| ==> IsKeyOf(v, keys[i])
  }

  function KeysOf(v: JsValue): (keys: seq<string>)
    requires v.JsObject?
    ensures AreKeysOf(v, keys)
  {
    var keys := SortedKeys(v.props);
    assert forall i :: 0 <= i < |keys| ==> keys[i] in keys;
    keys
  }

  /** The first `n` elements; an undefined one becomes null. */
  function ItemsToJson(v: JsValue, n: nat, path: seq<Step>): Result<seq<Json>, SerializationError>
    requires v.JsArray? && n <= |v.items|
    decreases v, n
  {
    if n == 0 then Ok([])
    else
      match ItemsToJson(v, n - 1, path)
      case Err(e) => Err(e)
      case Ok(before) =>
        if v.items[n - 1].Undefined? then Ok(before + [Null])
        else
          match ToJson(v.items[n - 1], path + [Element(n - 1)])
          case Err(e) => Err(e)
          case Ok(j) => Ok(before + [j])
  }

  /** The members under the keys, in that order; reserved names and undefined values are left out. */
  function MembersToJson(v: JsValue, keys: seq<string>, path: seq<Step>): Result<seq<Field>, SerializationError>
    requires v.JsObject? && AreKeysOf(v, keys)
    decreases v, |keys|
  {
    if keys == [] then Ok([])
    else
      match MembersToJson(v, keys[..|keys| - 1], path)
      case Err(e) => Err(e)
      case Ok(before) =>
        var k := keys[|keys| - 1];
        assert IsKeyOf(v, k);
        var value := PropValue(v.props, k);
        if k in RESERVED || value.Undefined? then Ok(before)
        else
          match ToJson(value, path + [Member(k)])
          case Err(e) => Err(e)
          case Ok(j) => Ok(before + [Field(k, j)])
  }

  /** The value a text stands for, or why there is none; `path` leads to it from the root. */
  function ToJson(v: JsValue, path: seq<Step>): Result<Json, SerializationError>
    decreases v
  {
    if |path| > MAX_DEPTH then Err(SerializationError(TooDeep, path))
    else
      match v
      case JsNull => Ok(Null)
      case JsString(s) => Ok(Str(s))
      case JsBool(b) => Ok(Bool(b))
      case JsNumber(n) => Ok(Num(n))
      case NonFinite => Err(SerializationError(NonFiniteNumber, path))
      case BigInt => Err(SerializationError(BigIntValue, path))
      case FunctionOrSymbol => Err(SerializationError(FunctionOrSymbolValue, path))
      case Undefined => Err(SerializationError(NotAnObject, path))
      case JsArray(items) =>
        (match ItemsToJson(v, |items|, path)
         case Err(e) => Err(e)
         case Ok(js) => Ok(Arr(js)))
      case WithToJson(result) => ToJson(result, path)
      case JsObject(props) =>
        (match MembersToJson(v, KeysOf(v), path)
         case Err(e) => Err(e)
         case Ok(fields) => Ok(Obj(fields)))
  }

  /** Texts are written only for values that can be written. */
  lemma {:induction false} ResultIsWritable(v: JsValue, path: seq<Step>)
    requires Proper(v) && ToJson(v, path).Ok?
    ensures Writable(ToJson(v, path).value)
    decreases v
  {
    match v
    case JsArray(items) => ItemsAreWritable(v, |items|, path);
    case WithToJson(result) => ResultIsWritable(result, path);
    case JsObject(props) => MembersAreWritable(v, KeysOf(v), path);
    case _ =>
  }

  lemma {:induction false} ItemsAreWritable(v: JsValue, n: nat, path: seq<Step>)
    requires Proper(v) && v.JsArray? && n <= |v.items| && ItemsToJson(v, n, path).Ok?
    ensures forall i :: 0 <= i < |ItemsToJson(v, n, path).value| ==> Writable(ItemsToJson(v, n, path).value[i])
    decreases v, n
  {
    if n > 0 {
      ItemsAreWritable(v, n - 1, path);
      if !v.items[n - 1].Undefined? {
        ResultIsWritable(v.items[n - 1], path + [Element(n - 1)]);
      }
    }
  }

  lemma {:induction false} MembersAreWritable(v: JsValue, keys: seq<string>, path: seq<Step>)
    requires Proper(v) && v.JsObject? && AreKeysOf(v, keys)
    requires MembersToJson(v, keys, path).Ok?
    ensures forall i :: 0 <= i < |MembersToJson(v, keys, path).value| ==> Writable(MembersToJson(v, keys, path).value[i].value)
    decreases v, |keys|
  {
    if keys != [] {
      var k := keys[|keys| - 1];
      MembersAreWritable(v, keys[..|keys| - 1], path);
      assert IsKeyOf(v, k);
      var i :| 0 <= i < |v.props| && v.props[i] == Prop(k, PropValue(v.props, k));
      if k !in RESERVED && !v.props[i].value.Undefined? {
        ResultIsWritable(v.props[i].value, path + [Member(k)]);
      }
    }
  }

  /* ---------- the string that is built up ---------- */

  lemma {:induction false} ItemsGrow(items: seq<Json>, last: Json)
    requires Writable(last) && forall i :: 0 <= i < |items| ==> Writable(items[i])
    ensures EmitItems(items + [last]) == (if items == [] then "" else EmitItems(items) + ",") + Emit(last)
  {
    if |items| == 1 {
      assert (items + [last])[1..] == [last];
      assert EmitItems([last]) == Emit(last);
    } else if |items| > 1 {
      ItemsGrow(items[1..], last);
      assert (items + [last])[1..] == items[1..] + [last];
    } else {
      assert items + [last] == [last];
    }
  }

  lemma {:induction false} FieldsGrow(fields: seq<Field>, last: Field)
    requires Writable(last.value) && forall i :: 0 <= i < |fields| ==> Writable(fields[i].value)
    ensures EmitFields(fields + [last]) == (if fields == [] then "" else EmitFields(fields) + ",") + EmitField(last)
  {
    if |fields| == 1 {
      assert (fields + [last])[1..] == [last];
      assert EmitFields([last]) == EmitField(last);
    } else if |fields| > 1 {
      FieldsGrow(fields[1..], last);
      assert (fields + [last])[1..] == fields[1..] + [last];
    } else {
      assert fields + [last] == [last];
    }
  }

  /** The path to the value at hand, pushed and popped around every step down. */
  class PathStack {
    var steps: seq<Step>

    constructor ()
      ensures steps == []
    {
      steps := [];
    }

    method Push(step: Step)
      modifies this
      ensures steps == old(steps) + [step]
    {
      steps := steps + [step];
    }

    method Pop()
      requires steps != []
      modifies this
      ensures steps == old(steps[..|steps| - 1])
    {
      steps := steps[..|steps| - 1];
    }
  }

  ghost function ItemsText(v: JsValue, n: nat, path: seq<Step>): string
    requires Proper(v) && v.JsArray? && n <= |v.items| && ItemsToJson(v, n, path).Ok?
  {
    ItemsAreWritable(v, n, path);
    EmitItems(ItemsToJson(v, n, path).value)
  }

  ghost function MembersText(v: JsValue, keys: seq<string>, path: seq<Step>): string
    requires Proper(v) && v.JsObject? && AreKeysOf(v, keys) && MembersToJson(v, keys, path).Ok?
  {
    MembersAreWritable(v, keys, path);
    EmitFields(MembersToJson(v, keys, path).value)
  }

  /** The text of the tree that the value becomes, or its error. */
  ghost function Rendered(v: JsValue, path: seq<Step>): Result<string, SerializationError>
    requires Proper(v)
  {
    match ToJson(v, path)
    case Err(e) => Err(e)
    case Ok(j) =>
      ResultIsWritable(v, path);
      Ok(Emit(j))
  }

  lemma {:induction false} ItemsCount(v: JsValue, n: nat, path: seq<Step>)
    requires v.JsArray? && n <= |v.items| && ItemsToJson(v, n, path).Ok?
    ensures |ItemsToJson(v, n, path).value| == n
  {
    if n > 0 {
      ItemsCount(v, n - 1, path);
    }
  }

  /** One more element: its text, after a comma unless it is the first. */
  lemma NextItem(v: JsValue, n: nat, path: seq<Step>)
    requires Proper(v) && v.JsArray? && n < |v.items| && ItemsToJson(v, n, path).Ok?
    requires v.items[n].Undefined? || ToJson(v.items[n], path + [Element(n)]).Ok?
    ensures ItemsToJson(v, n + 1, path).Ok?
    ensures ItemsText(v, n + 1, path)
         == (if n == 0 then "" else ItemsText(v, n, path) + ",")
            + if v.items[n].Undefined? then "null" else Rendered(v.items[n], path + [Element(n)]).value
  {
    ItemsCount(v, n, path);
    ItemsAreWritable(v, n + 1, path);
    ItemsAreWritable(v, n, path);
    var done := ItemsToJson(v, n, path).value;
    ItemsGrow(done, ItemsToJson(v, n + 1, path).value[n]);
  }

  predicate Skipped(v: JsValue, key: string)
    requires IsKeyOf(v, key)
  {
    key in RESERVED || PropValue(v.props, key).Undefined?
  }

  /** One more key: nothing if it is skipped, and otherwise a member, after a comma unless it is the first. */
  lemma NextMember(v: JsValue, keys: seq<string>, k: string, path: seq<Step>)
    requires Proper(v) && v.JsObject? && AreKeysOf(v, keys) && IsKeyOf(v, k) && MembersToJson(v, keys, path).Ok?
    requires Skipped(v, k) || ToJson(PropValue(v.props, k), path + [Member(k)]).Ok?
    requires Proper(PropValue(v.props, k))
    ensures AreKeysOf(v, keys + [k]) && MembersToJson(v, keys + [k], path).Ok?
    ensures Skipped(v, k) ==> MembersToJson(v, keys + [k], path) == MembersToJson(v, keys, path)
    ensures !Skipped(v, k) ==>
              && MembersToJson(v, keys + [k], path).value != []
              && MembersText(v, keys + [k], path)
              == (if MembersToJson(v, keys, path).value == [] then "" else MembersText(v, keys, path) + ",")
                 + (Quote(k) + ":" + Rendered(PropValue(v.props, k), path + [Member(k)]).value)
  {
    assert (keys + [k])[..|keys|] == keys;
    MembersAreWritable(v, keys, path);
    if !Skipped(v, k) {
      var j := ToJson(PropValue(v.props, k), path + [Member(k)]).value;
      ResultIsWritable(PropValue(v.props, k), path + [Member(k)]);
      FieldsGrow(MembersToJson(v, keys, path).value, Field(k, j));
    }
  }

  lemma PropIsProper(v: JsValue, k: string)
    requires Proper(v) && IsKeyOf(v, k)
    ensures Proper(PropValue(v.props, k))
    ensures PropValue(v.props, k) < v
  {
  }

  /** The text of element `i`, undefined or not. */
  ghost function ItemRendered(v: JsValue, i: nat, path: seq<Step>): Result<string, SerializationError>
    requires Proper(v) && v.JsArray? && i < |v.items|
  {
    if v.items[i].Undefined? then Ok("null") else Rendered(v.items[i], path + [Element(i)])
  }

  method CanonicalizeItem(v: JsValue, i: nat, stack: PathStack) returns (r: Result<string, SerializationError>)
    requires Proper(v) && v.JsArray? && i < |v.items|
    modifies stack
    ensures r == ItemRendered(v, i, old(stack.steps))
    ensures r.Ok? ==> stack.steps == old(stack.steps)
    decreases v, 0
  {
    if v.items[i].Undefined? {
      return Ok("null");
    }
    stack.Push(Element(i));
    r := Canonicalize(v.items[i], stack);
    if r.Ok? {
      stack.Pop();
    }
  }

  lemma ItemDecides(v: JsValue, i: nat, path: seq<Step>)
    requires Proper(v) && v.JsArray? && i < |v.items| && |path| <= MAX_DEPTH && ItemsToJson(v, i, path).Ok?
    ensures ItemRendered(v, i, path).Err? ==> Rendered(v, path) == ItemRendered(v, i, path)
    ensures ItemRendered(v, i, path).Ok? ==>
              && ItemsToJson(v, i + 1, path).Ok?
              && ItemsText(v, i + 1, path)
              == (if i == 0 then "" else ItemsText(v, i, path) + ",") + ItemRendered(v, i, path).value
  {
    if ItemRendered(v, i, path).Err? {
      FirstBadItem(v, i + 1, path);
    } else {
      NextItem(v, i, path);
    }
  }

  method CanonicalizeItems(v: JsValue, stack: PathStack) returns (r: Result<string, SerializationError>)
    requires Proper(v) && v.JsArray? && |stack.steps| <= MAX_DEPTH
    modifies stack
    ensures r == Rendered(v, old(stack.steps))
    ensures r.Ok? ==> stack.steps == old(stack.steps)
    decreases v, 1
  {
    ghost var path := stack.steps;
    var text := "[";
    for i := 0 to |v.items|
      invariant stack.steps == path
      invariant ItemsToJson(v, i, path).Ok? && text == "[" + ItemsText(v, i, path)
    {
      if i > 0 {
        text := text + ",";
      }
      var one := CanonicalizeItem(v, i, stack);
      ItemDecides(v, i, path);
      if one.Err? {
        return one;
      }
      text := text + one.value;
    }
    return Ok(text + "]");
  }

  /** The text of the member under a key, with its name. */
  ghost function MemberRendered(v: JsValue, k: string, path: seq<Step>): Result<string, SerializationError>
    requires Proper(v) && IsKeyOf(v, k)
  {
    PropIsProper(v, k);
    match Rendered(PropValue(v.props, k), path + [Member(k)])
    case Err(e) => Err(e)
    case Ok(text) => Ok(Quote(k) + ":" + text)
  }

  method CanonicalizeMember(v: JsValue, k: string, stack: PathStack) returns (r: Result<string, SerializationError>)
    requires Proper(v) && IsKeyOf(v, k)
    modifies stack
    ensures r == MemberRendered(v, k, old(stack.steps))
    ensures r.Ok? ==> stack.steps == old(stack.steps)
    decreases v, 0
  {
    PropIsProper(v, k);
    stack.Push(Member(k));
    r := Canonicalize(PropValue(v.props, k), stack);
    if r.Ok? {
      stack.Pop();
      r := Ok(Quote(k) + ":" + r.value);
    }
  }

  lemma BadMemberDecides(v: JsValue, i: nat, path: seq<Step>)
    requires Proper(v) && v.JsObject? && |path| <= MAX_DEPTH && i < |KeysOf(v)|
    requires MembersToJson(v, KeysOf(v)[..i], path).Ok?
    requires !Skipped(v, KeysOf(v)[i]) && MemberRendered(v, KeysOf(v)[i], path).Err?
    ensures Rendered(v, path) == MemberRendered(v, KeysOf(v)[i], path)
  {
    var keys := KeysOf(v);
    PropIsProper(v, keys[i]);
    assert keys[..i + 1][..i] == keys[..i];
    FirstBadMember(v, keys, i + 1, path);
  }

  lemma MemberDecides(v: JsValue, keys: seq<string>, i: nat, path: seq<Step>)
    requires Proper(v) && v.JsObject? && |path| <= MAX_DEPTH && keys == KeysOf(v) && i < |keys|
    requires MembersToJson(v, keys[..i], path).Ok?
    requires Skipped(v, keys[i]) || MemberRendered(v, keys[i], path).Ok?
    ensures AreKeysOf(v, keys[..i + 1])
    ensures Skipped(v, keys[i]) ==> MembersToJson(v, keys[..i + 1], path) == MembersToJson(v, keys[..i], path)
    ensures !Skipped(v, keys[i]) ==>
              && MembersToJson(v, keys[..i + 1], path).Ok?
              && MembersToJson(v, keys[..i + 1], path).value != []
              && MembersText(v, keys[..i + 1], path)
              == (if MembersToJson(v, keys[..i], path).value == [] then "" else MembersText(v, keys[..i], path) + ",")
                 + MemberRendered(v, keys[i], path).value
  {
    PropIsProper(v, keys[i]);
    assert keys[..i + 1] == keys[..i] + [keys[i]];
    NextMember(v, keys[..i], keys[i], path);
  }

  /** After `i` keys: the text so far, and whether no member has been written. */
  ghost predicate SoFar(v: JsValue, i: nat, path: seq<Step>, text: string, first: bool)
    requires Proper(v) && v.JsObject? && i <= |KeysOf(v)|
  {
    var keys := KeysOf(v)[..i];
    && MembersToJson(v, keys, path).Ok?
    && text == "{" + MembersText(v, keys, path)
    && (first <==> MembersToJson(v, keys, path).value == [])
  }

  lemma TextGrows(open: string, done: string, first: bool, member: string)
    requires first ==> done == ""
    ensures open + ((if first then "" else done + ",") + member)
         == (if first then open + done else open + done + ",") + member
  {
  }

  /** A key that is written. */
  lemma OneMoreMember(v: JsValue, i: nat, path: seq<Step>, text: string, first: bool)
    requires Proper(v) && v.JsObject? && |path| <= MAX_DEPTH && i < |KeysOf(v)| && SoFar(v, i, path, text, first)
    requires !Skipped(v, KeysOf(v)[i]) && MemberRendered(v, KeysOf(v)[i], path).Ok?
    ensures SoFar(v, i + 1, path, (if first then text else text + ",") + MemberRendered(v, KeysOf(v)[i], path).value, false)
  {
    var keys := KeysOf(v);
    MemberDecides(v, keys, i, path);
    TextGrows("{", MembersText(v, keys[..i], path), first, MemberRendered(v, keys[i], path).value);
  }

  lemma OneMoreKey(v: JsValue, i: nat, path: seq<Step>, text: string, first: bool)
    requires Proper(v) && v.JsObject? && |path| <= MAX_DEPTH && i < |KeysOf(v)| && SoFar(v, i, path, text, first)
    ensures var k := KeysOf(v)[i];
            if Skipped(v, k) then SoFar(v, i + 1, path, text, first)
            else if MemberRendered(v, k, path).Err? then Rendered(v, path) == MemberRendered(v, k, path)
            else SoFar(v, i + 1, path, (if first then text else text + ",") + MemberRendered(v, k, path).value, false)
  {
    if Skipped(v, KeysOf(v)[i]) {
      MemberDecides(v, KeysOf(v), i, path);
    } else if MemberRendered(v, KeysOf(v)[i], path).Err? {
      BadMemberDecides(v, i, path);
    } else {
      OneMoreMember(v, i, path, text, first);
    }
  }

  lemma AllKeys(v: JsValue, path: seq<Step>, text: string, first: bool)
    requires Proper(v) && v.JsObject? && |path| <= MAX_DEPTH && SoFar(v, |KeysOf(v)|, path, text, first)
    ensures Ok(text + "}") == Rendered(v, path)
  {
    assert KeysOf(v)[..|KeysOf(v)|] == KeysOf(v);
  }

  method CanonicalizeMembers(v: JsValue, stack: PathStack) returns (r: Result<string, SerializationError>)
    requires Proper(v) && v.JsObject? && |stack.steps| <= MAX_DEPTH
    modifies stack
    ensures r == Rendered(v, old(stack.steps))
    ensures r.Ok? ==> stack.steps == old(stack.steps)
    decreases v, 1
  {
    ghost var path := stack.steps;
    var keys := KeysOf(v);
    var text := "{";
    var first := true;
    for i := 0 to |keys|
      invariant stack.steps == path
      invariant SoFar(v, i, path, text, first)
    {
      var k := keys[i];
      OneMoreKey(v, i, path, text, first);
      if k in RESERVED || PropValue(v.props, k).Undefined? {
        continue;
      }
      var one := CanonicalizeMember(v, k, stack);
      if one.Err? {
        return one;
      }
      if !first {
        text := text + ",";
      }
      text := text + one.value;
      first := false;
    }
    AllKeys(v, path, text, first);
    return Ok(text + "}");
  }

  method Canonicalize(v: JsValue, stack: PathStack) returns (r: Result<string, SerializationError>)
    requires Proper(v)
    modifies stack
    ensures r == Rendered(v, old(stack.steps))
    ensures r.Ok? ==> stack.steps == old(stack.steps)
    decreases v, 2
  {
    if |stack.steps| > MAX_DEPTH {
      return Err(SerializationError(TooDeep, stack.steps));
    }
    match v
    case JsNull => return Ok("null");
    case JsString(s) => return Ok(Quote(s));
    case JsBool(b) => return Ok(if b then "true" else "false");
    case JsNumber(n) => return Ok(NumberText(n));
    case NonFinite => return Err(SerializationError(NonFiniteNumber, stack.steps));
    case BigInt => return Err(SerializationError(BigIntValue, stack.steps));
    case FunctionOrSymbol => return Err(SerializationError(FunctionOrSymbolValue, stack.steps));
    case Undefined => return Err(SerializationError(NotAnObject, stack.steps));
    case JsArray(_) => r := CanonicalizeItems(v, stack);
    case WithToJson(result) => r := Canonicalize(result, stack);
    case JsObject(_) => r := CanonicalizeMembers(v, stack);
  }

  method Serialize(v: JsValue) returns (r: Result<string, SerializationError>)
    requires Proper(v)
    ensures r == Rendered(v, [])
  {
    var stack := new PathStack();
    r := Canonicalize(v, stack);
  }

  /** An element that fails makes the whole array fail with its error. */
  lemma {:induction false} FirstBadItem(v: JsValue, n: nat, path: seq<Step>)
    requires v.JsArray? && n <= |v.items| && ItemsToJson(v, n, path).Err?
    ensures ItemsToJson(v, |v.items|, path) == ItemsToJson(v, n, path)
    decreases |v.items| - n
  {
    if n < |v.items| {
      FirstBadItem(v, n + 1, path);
    }
  }

  lemma {:induction false} FirstBadMember(v: JsValue, keys: seq<string>, n: nat, path: seq<Step>)
    requires v.JsObject? && n <= |keys| && AreKeysOf(v, keys)
    requires MembersToJson(v, keys[..n], path).Err?
    ensures MembersToJson(v, keys, path) == MembersToJson(v, keys[..n], path)
    decreases |keys| - n
  {
    if n < |keys| {
      assert keys[..n + 1][..n] == keys[..n];
      FirstBadMember(v, keys, n + 1, path);
    } else {
      assert keys[..n] == keys;
    }
  }
}
