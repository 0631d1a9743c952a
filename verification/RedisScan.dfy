/** Prefix scans on Redis: the prefix goes into the server's glob pattern as it is. */
module RedisScan {

  /* ---------- the server's glob patterns ---------- */

  predicate Between(a: char, b: char, c: char) {
    a <= c <= b || b <= c <= a
  }

  /** `c` is listed in a character class, given what follows its opening bracket and its `^`, if any. */
  predicate Listed(body: string, c: char)
    decreases |body|
  {
    if body == [] then false
    else if body[0] == '\\' && |body| >= 2 then body[1] == c || Listed(body[2..], c)
    else if body[0] == ']' then false
    else if |body| >= 3 && body[1] == '-' then Between(body[0], body[2], c) || Listed(body[3..], c)
    else body[0] == c || Listed(body[1..], c)
  }

  /** What follows the class; one that is not closed takes the whole pattern. */
  function AfterClass(body: string): (rest: string)
    ensures |rest| <= |body| && rest == body[|body| - |rest|..]
    ensures body != [] ==> |rest| < |body|
    decreases |body|
  {
    if body == [] then []
    else if body[0] == '\\' && |body| >= 2 then AfterClass(body[2..])
    else if body[0] == ']' then body[1..]
    else if |body| >= 3 && body[1] == '-' then AfterClass(body[3..])
    else AfterClass(body[1..])
  }

  predicate Negated(pattern: string) {
    |pattern| > 1 && pattern[1] == '^'
  }

  /** What follows the opening bracket, and the `^` after it. */
  function ClassBody(pattern: string): string
    requires pattern != []
  {
    pattern[if Negated(pattern) then 2 else 1..]
  }

  predicate Glob(pattern: string, text: string)
    decreases |pattern| + |text|
  {
    if pattern == [] then text == []
    else if pattern[0] == '*' then Glob(pattern[1..], text) || (text != [] && Glob(pattern, text[1..]))
    else if text == [] then false
    else if pattern[0] == '?' then Glob(pattern[1..], text[1..])
    else if pattern[0] == '[' then
      Listed(ClassBody(pattern), text[0]) != Negated(pattern) && Glob(AfterClass(ClassBody(pattern)), text[1..])
    else if pattern[0] == '\\' && |pattern| > 1 then text[0] == pattern[1] && Glob(pattern[2..], text[1..])
    else text[0] == pattern[0] && Glob(pattern[1..], text[1..])
  }

  function ScanPattern(prefix: string): string {
    prefix + "*"
  }

  predicate Scanned(prefix: string, key: string) {
    Glob(ScanPattern(prefix), key)
  }

  predicate Wildcard(c: char) {
    c == '*' || c == '?' || c == '[' || c == '\\'
  }

  predicate Plain(prefix: string) {
    forall i :: 0 <= i < |prefix| ==> !Wildcard(prefix[i])
  }

  /* ---------- a prefix without wildcards ---------- */

  lemma {:induction false} StarMatchesAll(text: string)
    ensures Glob("*", text)
  {
    if text == [] {
      assert Glob([], text);
    } else {
      StarMatchesAll(text[1..]);
    }
  }

  /** Plain characters in front of a pattern match themselves. */
  lemma {:induction false} PlainFront(plain: string, pattern: string, text: string)
    requires Plain(plain)
    ensures Glob(plain + pattern, text) <==> plain <= text && Glob(pattern, text[|plain|..])
  {
    if plain == [] {
      assert plain + pattern == pattern && text[0..] == text;
    } else {
      assert (plain + pattern)[1..] == plain[1..] + pattern;
      if text != [] {
        PlainFront(plain[1..], pattern, text[1..]);
        assert text == [text[0]] + text[1..] && plain == [plain[0]] + plain[1..];
        assert plain <= text ==> text[|plain|..] == text[1..][|plain[1..]|..];
      }
    }
  }

  lemma PlainPatternMatchesPrefix(prefix: string, key: string)
    requires Plain(prefix)
    ensures Scanned(prefix, key) <==> prefix <= key
  {
    PlainFront(prefix, "*", key);
    if prefix <= key {
      StarMatchesAll(key[|prefix|..]);
    }
  }

  /* ---------- a prefix with one ---------- */

  /** The end of a scan's pattern. */
  predicate StarLast(pattern: string) {
    pattern != [] ==> pattern[|pattern| - 1] == '*'
  }

  /** Every sign of the pattern but the last star takes one character at most. */
  lemma {:induction false} ShortMatch(pattern: string, text: string) returns (k: string)
    requires Glob(pattern, text) && StarLast(pattern)
    ensures Glob(pattern, k) && |k| <= if pattern == [] then 0 else |pattern| - 1
    decreases |pattern| + |text|
  {
    if pattern == [] {
      k := [];
    } else if pattern[0] == '*' {
      if Glob(pattern[1..], text) {
        k := ShortMatch(pattern[1..], text);
      } else {
        k := ShortMatch(pattern, text[1..]);
      }
    } else {
      var rest := if pattern[0] == '[' then AfterClass(ClassBody(pattern))
                  else if pattern[0] == '\\' && |pattern| > 1 then pattern[2..] else pattern[1..];
      var tail := ShortMatch(rest, text[1..]);
      k := [text[0]] + tail;
      assert k[1..] == tail;
    }
  }

  lemma AloneMatchesNotItself(prefix: string)
    requires prefix == "[" || prefix == "\\"
    ensures !Scanned(prefix, prefix)
  {
    assert ScanPattern(prefix)[1] == '*';
    assert prefix == "[" ==> ClassBody(ScanPattern(prefix)) == "*" && !Listed("*", '[');
  }

  lemma StarOrQuestionDisagrees(prefix: string) returns (key: string)
    requires prefix != [] && (prefix[0] == '*' || prefix[0] == '?') && Scanned(prefix, prefix)
    ensures Scanned(prefix, key) && !(prefix <= key)
  {
    var after := if prefix[0] == '*' then prefix else prefix[1..];
    key := ['x'] + after;
    assert key[1..] == after;
  }

  /** The character and a short match of the rest are shorter than the prefix. */
  lemma ClassOrEscapeDisagrees(prefix: string) returns (key: string)
    requires |prefix| >= 2 && (prefix[0] == '[' || prefix[0] == '\\') && Scanned(prefix, prefix)
    ensures Scanned(prefix, key) && !(prefix <= key)
  {
    var pattern := ScanPattern(prefix);
    var rest := if prefix[0] == '[' then AfterClass(ClassBody(pattern)) else pattern[2..];
    var k := ShortMatch(rest, prefix[1..]);
    key := [prefix[0]] + k;
    assert key[1..] == k;
    assert |key| < |prefix|;
  }

  /** A pattern that starts with a wildcard does not match exactly the keys that start with its own text. */
  lemma WildcardDisagrees(prefix: string) returns (key: string)
    requires prefix != [] && Wildcard(prefix[0])
    ensures Scanned(prefix, key) != (prefix <= key)
  {
    if |prefix| == 1 && (prefix[0] == '[' || prefix[0] == '\\') {
      assert prefix == [prefix[0]];
      AloneMatchesNotItself(prefix);
    }
    if !Scanned(prefix, prefix) {
      key := prefix;
    } else if prefix[0] == '*' || prefix[0] == '?' {
      key := StarOrQuestionDisagrees(prefix);
    } else {
      key := ClassOrEscapeDisagrees(prefix);
    }
  }

  lemma FirstWildcard(prefix: string) returns (i: nat)
    requires !Plain(prefix)
    ensures i < |prefix| && Wildcard(prefix[i]) && Plain(prefix[..i])
  {
    i := 0;
    while !Wildcard(prefix[i])
      invariant i < |prefix| && Plain(prefix[..i]) && !Plain(prefix[i..])
      decreases |prefix| - i
    {
      i := i + 1;
    }
  }

  /** A scan finds the keys with the prefix, and only those, exactly when the prefix has no wildcard. */
  lemma ScanIsPrefixExactlyWhen(prefix: string)
    ensures (forall key :: Scanned(prefix, key) <==> prefix <= key) <==> Plain(prefix)
  {
    if Plain(prefix) {
      forall key ensures Scanned(prefix, key) <==> prefix <= key {
        PlainPatternMatchesPrefix(prefix, key);
      }
    } else {
      var i := FirstWildcard(prefix);
      var front, back := prefix[..i], prefix[i..];
      var end := WildcardDisagrees(back);
      var key := front + end;
      PlainFront(front, ScanPattern(back), key);
      assert front + ScanPattern(back) == ScanPattern(prefix);
      assert key[|front|..] == end;
      assert prefix <= key <==> back <= end by {
        assert prefix == front + back;
        if prefix <= key {
          assert back == prefix[i..] == key[..|prefix|][i..] == end[..|back|];
        }
      }
      assert Scanned(prefix, key) != (prefix <= key);
    }
  }
}
