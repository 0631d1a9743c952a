/** Physical keys, and the LIKE patterns that scan one namespace of a shared table by prefix. */
module Namespaces {
  import opened Basics

  /* ---------- LIKE with '\' as its escape character, case-sensitive ---------- */

  predicate Like(pattern: string, text: string)
    decreases |pattern| + |text|
  {
    if pattern == [] then text == []
    else if pattern[0] == '%' then Like(pattern[1..], text) || (text != [] && Like(pattern, text[1..]))
    else if pattern[0] == '_' then text != [] && Like(pattern[1..], text[1..])
    else if pattern[0] == '\\' then
      |pattern| > 1 && text != [] && text[0] == pattern[1] && Like(pattern[2..], text[1..])
    else text != [] && text[0] == pattern[0] && Like(pattern[1..], text[1..])
  }

  function EscapeLike(prefix: string): string {
    if prefix == [] then []
    else (if prefix[0] in ['\\', '%', '_'] then ['\\', prefix[0]] else [prefix[0]]) + EscapeLike(prefix[1..])
  }

  function PrefixPattern(prefix: string): string {
    EscapeLike(prefix) + "%"
  }

  lemma {:induction false} PercentMatchesAll(text: string)
    ensures Like("%", text)
  {
    if text == [] {
      assert Like([], text);
    } else {
      PercentMatchesAll(text[1..]);
    }
  }

  /** Whatever characters a prefix holds, wildcards included, its pattern matches exactly the keys that
      start with it. */
  lemma {:induction false} PatternMatchesPrefix(prefix: string, key: string)
    ensures Like(PrefixPattern(prefix), key) <==> prefix <= key
  {
    var pattern := PrefixPattern(prefix);
    if prefix == [] {
      assert pattern == "%";
      PercentMatchesAll(key);
    } else {
      var rest := PrefixPattern(prefix[1..]);
      if prefix[0] in ['\\', '%', '_'] {
        assert pattern == ['\\', prefix[0]] + rest;
        assert pattern[2..] == rest;
      } else {
        assert pattern == [prefix[0]] + rest;
        assert pattern[1..] == rest;
      }
      if key != [] {
        PatternMatchesPrefix(prefix[1..], key[1..]);
        assert prefix[0] == key[0] && prefix[1..] <= key[1..] <==> prefix <= key by {
          assert key == [key[0]] + key[1..];
          assert prefix == [prefix[0]] + prefix[1..];
        }
      }
    }
  }

  /* ---------- physical keys ---------- */

  datatype Scope = Scope(tablePrefix: string, namespace: string)

  datatype ConfigError = HasSeparator(part: string, segment: string)

  const SEPARATOR := ':'

  function NamespacePrefix(scope: Scope): Result<string, ConfigError> {
    if SEPARATOR in scope.tablePrefix then Err(HasSeparator("tablePrefix", scope.tablePrefix))
    else if SEPARATOR in scope.namespace then Err(HasSeparator("namespace", scope.namespace))
    else Ok(scope.tablePrefix + scope.namespace + [SEPARATOR])
  }

  predicate Legal(scope: Scope) {
    NamespacePrefix(scope).Ok?
  }

  /** Both `toPhysicalKey` and `toPhysicalPrefix`. */
  function ToPhysical(scope: Scope, userKey: string): Result<string, ConfigError> {
    match NamespacePrefix(scope)
    case Ok(prefix) => Ok(prefix + userKey)
    case Err(e) => Err(e)
  }

  function ToUserKey(scope: Scope, physicalKey: string): Result<string, ConfigError> {
    match NamespacePrefix(scope)
    case Ok(prefix) => Ok(if prefix <= physicalKey then physicalKey[|prefix|..] else physicalKey)
    case Err(e) => Err(e)
  }

  lemma UserKeyComesBack(scope: Scope, userKey: string)
    ensures Legal(scope) ==>
              && ToPhysical(scope, userKey).Ok?
              && ToUserKey(scope, ToPhysical(scope, userKey).value) == Ok(userKey)
    ensures !Legal(scope) ==> ToPhysical(scope, userKey).Err? && ToUserKey(scope, userKey).Err?
  {
  }

  /** Text up to the first separator decides: no separator occurs in `a` or `b`. */
  lemma {:induction false} FirstSeparatorSplits(a: string, x: string, b: string, y: string)
    requires SEPARATOR !in a && SEPARATOR !in b
    ensures a + [SEPARATOR] + x <= b + [SEPARATOR] + y <==> a == b && x <= y
  {
    var left, right := a + [SEPARATOR] + x, b + [SEPARATOR] + y;
    if left <= right {
      assert left[|a|] == SEPARATOR && right[|b|] == SEPARATOR;
      assert |a| == |b|;
      assert a == left[..|a|] == right[..|b|] == b;
      assert x == left[|a| + 1..] && y == right[|b| + 1..];
    }
  }

  /** Two legal scopes place two keys at one physical key exactly when prefix and namespace run together
      to the same text and the user keys agree. */
  lemma SharedPhysicalKey(s: Scope, u: string, t: Scope, v: string)
    requires Legal(s) && Legal(t)
    ensures ToPhysical(s, u) == ToPhysical(t, v)
       <==> s.tablePrefix + s.namespace == t.tablePrefix + t.namespace && u == v
  {
    FirstSeparatorSplits(s.tablePrefix + s.namespace, u, t.tablePrefix + t.namespace, v);
    FirstSeparatorSplits(t.tablePrefix + t.namespace, v, s.tablePrefix + s.namespace, u);
  }

  /** The validation does not keep different table prefixes apart. */
  lemma TablePrefixesCollide()
    ensures var s, t := Scope("app", "_x"), Scope("app_", "x");
            Legal(s) && Legal(t) && s != t && ToPhysical(s, "k") == ToPhysical(t, "k")
  {
    assert "app" + "_x" == "app_" + "x";
  }

  lemma {:induction false} SameHead(t: string, a: string, b: string)
    ensures t + a == t + b <==> a == b
  {
    assert (t + a)[|t|..] == a && (t + b)[|t|..] == b;
  }

  /** Under one table prefix a physical prefix reaches the keys of its own namespace, and among those the
      ones that start with the user's prefix. */
  lemma PrefixStaysInNamespace(tablePrefix: string, namespace: string, prefix: string, other: string, key: string)
    requires Legal(Scope(tablePrefix, namespace)) && Legal(Scope(tablePrefix, other))
    ensures ToPhysical(Scope(tablePrefix, namespace), prefix).value <= ToPhysical(Scope(tablePrefix, other), key).value
       <==> namespace == other && prefix <= key
  {
    FirstSeparatorSplits(tablePrefix + namespace, prefix, tablePrefix + other, key);
    SameHead(tablePrefix, namespace, other);
  }

  /* ---------- one table, many namespaces ---------- */

  datatype Row = Row(value: string, expiresAt: Option<int>)

  predicate LiveAt(row: Row, now: int) {
    row.expiresAt.None? || now < row.expiresAt.value
  }

  function GetByPrefix(table: map<string, Row>, prefix: string, now: int): map<string, string> {
    map k | k in table && Like(PrefixPattern(prefix), k) && LiveAt(table[k], now) :: table[k].value
  }

  function DeleteByPrefix(table: map<string, Row>, prefix: string): map<string, Row> {
    map k | k in table && !Like(PrefixPattern(prefix), k) :: table[k]
  }

  datatype Place = Place(namespace: string, key: string)

  /** The namespaces' contents as their users see them. */
  type Contents = map<Place, Row>

  function Physical(tablePrefix: string, p: Place): string
    requires Legal(Scope(tablePrefix, p.namespace))
  {
    ToPhysical(Scope(tablePrefix, p.namespace), p.key).value
  }

  /** `table` holds `contents` and nothing else. */
  ghost predicate Stores(tablePrefix: string, contents: Contents, table: map<string, Row>) {
    && (forall p :: p in contents ==> Legal(Scope(tablePrefix, p.namespace)))
    && (forall p :: p in contents ==>
          Physical(tablePrefix, p) in table && table[Physical(tablePrefix, p)] == contents[p])
    && (forall k :: k in table ==> exists p :: p in contents && Physical(tablePrefix, p) == k)
  }

  predicate Reached(p: Place, namespace: string, prefix: string) {
    p.namespace == namespace && prefix <= p.key
  }

  lemma Reaches(tablePrefix: string, namespace: string, prefix: string, p: Place)
    requires Legal(Scope(tablePrefix, namespace)) && Legal(Scope(tablePrefix, p.namespace))
    ensures Like(PrefixPattern(ToPhysical(Scope(tablePrefix, namespace), prefix).value), Physical(tablePrefix, p))
       <==> Reached(p, namespace, prefix)
  {
    PatternMatchesPrefix(ToPhysical(Scope(tablePrefix, namespace), prefix).value, Physical(tablePrefix, p));
    PrefixStaysInNamespace(tablePrefix, namespace, prefix, p.namespace, p.key);
  }

  /** A prefix delete removes the named namespace's keys with that prefix, in every namespace's view. */
  lemma PrefixDeleteIsIsolated(tablePrefix: string, contents: Contents, table: map<string, Row>,
                               namespace: string, prefix: string)
    requires Stores(tablePrefix, contents, table) && Legal(Scope(tablePrefix, namespace))
    ensures Stores(tablePrefix,
                   map p | p in contents && !Reached(p, namespace, prefix) :: contents[p],
                   DeleteByPrefix(table, ToPhysical(Scope(tablePrefix, namespace), prefix).value))
  {
    var after := map p | p in contents && !Reached(p, namespace, prefix) :: contents[p];
    var left := DeleteByPrefix(table, ToPhysical(Scope(tablePrefix, namespace), prefix).value);
    forall p | p in after
      ensures Physical(tablePrefix, p) in left && left[Physical(tablePrefix, p)] == after[p]
    {
      Reaches(tablePrefix, namespace, prefix, p);
    }
    forall k | k in left
      ensures exists p :: p in after && Physical(tablePrefix, p) == k
    {
      var p :| p in contents && Physical(tablePrefix, p) == k;
      Reaches(tablePrefix, namespace, prefix, p);
      assert p in after;
    }
  }

  /** Some row of the scan maps back to `key` with this value. */
  predicate Lists(rows: map<string, string>, scope: Scope, key: string, value: string) {
    exists k :: k in rows && ToUserKey(scope, k) == Ok(key) && rows[k] == value
  }

  /** The namespace holds `key`, alive, with this value. */
  predicate Has(contents: Contents, p: Place, now: int, value: string) {
    p in contents && LiveAt(contents[p], now) && contents[p].value == value
  }

  /** A prefix scan, its keys mapped back, lists the live rows of the namespace with that prefix. */
  lemma PrefixScanIsIsolated(tablePrefix: string, contents: Contents, table: map<string, Row>,
                             namespace: string, prefix: string, now: int, key: string, value: string)
    requires Stores(tablePrefix, contents, table) && Legal(Scope(tablePrefix, namespace))
    ensures Lists(GetByPrefix(table, ToPhysical(Scope(tablePrefix, namespace), prefix).value, now),
                  Scope(tablePrefix, namespace), key, value)
       <==> prefix <= key && Has(contents, Place(namespace, key), now, value)
  {
    var scope := Scope(tablePrefix, namespace);
    var rows := GetByPrefix(table, ToPhysical(scope, prefix).value, now);
    var p := Place(namespace, key);
    UserKeyComesBack(scope, key);
    Reaches(tablePrefix, namespace, prefix, p);
    if prefix <= key && Has(contents, p, now, value) {
      var k := Physical(tablePrefix, p);
      assert k in rows && ToUserKey(scope, k) == Ok(key) && rows[k] == value;
    }
    if k :| k in rows && ToUserKey(scope, k) == Ok(key) && rows[k] == value {
      var q :| q in contents && Physical(tablePrefix, q) == k;
      Reaches(tablePrefix, namespace, prefix, q);
      UserKeyComesBack(scope, q.key);
      assert q == p;
    }
  }
}
