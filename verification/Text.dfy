/** The parts of Go's strings package the model needs, on strings of characters. */
module Text {
  import opened Results

  /** unicode.IsSpace */
  predicate IsSpace(c: char) {
    || '\t' <= c <= '\r' || c == ' ' || c == '\U{85}' || c == '\U{A0}' || c == '\U{1680}'
    || '\U{2000}' <= c <= '\U{200A}' || c == '\U{2028}' || c == '\U{2029}' || c == '\U{202F}'
    || c == '\U{205F}' || c == '\U{3000}'
  }

  function TrimLeftSpace(s: string): string {
    if s != [] && IsSpace(s[0]) then TrimLeftSpace(s[1..]) else s
  }

  function TrimRightSpace(s: string): string {
    if s != [] && IsSpace(s[|s| - 1]) then TrimRightSpace(s[..|s| - 1]) else s
  }

  function TrimSpace(s: string): string {
    TrimRightSpace(TrimLeftSpace(s))
  }

  /** strings.TrimLeft(s, "0") */
  function TrimLeftZeros(s: string): string {
    if s != [] && s[0] == '0' then TrimLeftZeros(s[1..]) else s
  }

  /** strings.TrimRight(s, "0") */
  function TrimRightZeros(s: string): string {
    if s != [] && s[|s| - 1] == '0' then TrimRightZeros(s[..|s| - 1]) else s
  }

  function Repeat(c: char, n: nat): (s: string)
    ensures |s| == n && forall i :: 0 <= i < n ==> s[i] == c
  {
    seq(n, _ => c)
  }

  predicate HasPrefix(s: string, prefix: string) {
    prefix <= s
  }

  /** strings.ReplaceAll(s, string(c), "") */
  function Without(s: string, c: char): string {
    if s == [] then [] else (if s[0] == c then [] else [s[0]]) + Without(s[1..], c)
  }

  lemma {:induction false} WithoutAbsent(s: string, c: char)
    requires c !in s
    ensures Without(s, c) == s
  {
    if s != [] {
      WithoutAbsent(s[1..], c);
    }
  }

  /** strings.SplitN(s, string(c), 2): the text before the first c, and the text after it if there is one. */
  function SplitFirst(s: string, c: char): (r: (string, Option<string>))
    ensures c !in r.0
    ensures c in s <==> r.1.Some?
    ensures r.1.None? ==> r.0 == s
    ensures r.1.Some? ==> s == r.0 + [c] + r.1.value
  {
    if s == [] then ([], None)
    else if s[0] == c then ([], Some(s[1..]))
    else
      var (before, after) := SplitFirst(s[1..], c);
      ([s[0]] + before, after)
  }

  function LengthBefore(s: string, c: char): nat {
    if s == [] || s[0] == c then 0 else 1 + LengthBefore(s[1..], c)
  }

  function LengthAfter(s: string, c: char): nat {
    if s == [] || s[|s| - 1] == c then 0 else 1 + LengthAfter(s[..|s| - 1], c)
  }

  lemma {:induction false} LengthBeforeIs(a: string, b: string, c: char)
    requires c !in a
    ensures LengthBefore(a + [c] + b, c) == |a|
  {
    if a != [] {
      LengthBeforeIs(a[1..], b, c);
      assert (a + [c] + b)[1..] == a[1..] + [c] + b;
    }
  }

  lemma {:induction false} LengthAfterIs(a: string, b: string, c: char)
    requires c !in b
    ensures LengthAfter(a + [c] + b, c) == |b|
  {
    if b != [] {
      LengthAfterIs(a, b[..|b| - 1], c);
      assert (a + [c] + b)[..|a| + |b|] == a + [c] + b[..|b| - 1];
    }
  }

  /** Text before a separator it does not contain is determined, and so is the text after. */
  lemma FirstSeparatorIsUnique(a: string, b: string, a': string, b': string, c: char)
    requires c !in a && c !in a'
    requires a + [c] + b == a' + [c] + b'
    ensures a == a' && b == b'
  {
    LengthBeforeIs(a, b, c);
    LengthBeforeIs(a', b', c);
    assert a == (a + [c] + b)[..|a|] && a' == (a' + [c] + b')[..|a'|];
    assert b == (a + [c] + b)[|a| + 1..] && b' == (a' + [c] + b')[|a'| + 1..];
  }

  /** Text after a separator it does not contain is determined, and so is the text before. */
  lemma LastSeparatorIsUnique(a: string, b: string, a': string, b': string, c: char)
    requires c !in b && c !in b'
    requires a + [c] + b == a' + [c] + b'
    ensures a == a' && b == b'
  {
    LengthAfterIs(a, b, c);
    LengthAfterIs(a', b', c);
    assert a == (a + [c] + b)[..|a|] && a' == (a' + [c] + b')[..|a'|];
    assert b == (a + [c] + b)[|a| + 1..] && b' == (a' + [c] + b')[|a'| + 1..];
  }

  lemma {:induction false} SplitFirstIs(a: string, b: string, c: char)
    requires c !in a
    ensures SplitFirst(a + [c] + b, c) == (a, Some(b))
  {
    var r := SplitFirst(a + [c] + b, c);
    assert (a + [c] + b)[|a|] == c;
    FirstSeparatorIsUnique(a, b, r.0, r.1.value, c);
  }

  predicate NoSpaces(s: string) {
    forall i :: 0 <= i < |s| ==> !IsSpace(s[i])
  }

  lemma TrimSpaceOfNoSpaces(s: string)
    requires NoSpaces(s)
    ensures TrimSpace(s) == s
  {
  }
}
