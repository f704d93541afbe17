/** Legacy names and their replacements (internal/legacy/legacy.go). Normalizing a key twice changes nothing. */
module LegacyNames {
  import opened Text

  /** One replacement: a name, and the text before and after it that is matched and kept. */
  datatype Replacement = Replacement(before: string, upper: bool, after: string) {
    function Name(): string {
      if upper then "SHIVA" else "shiva"
    }

    function NewName(): string {
      if upper then "ONEX" else "onex"
    }

    function Old(): string {
      before + Name() + after
    }

    function New(): string {
      before + NewName() + after
    }
  }

  const REPLACEMENTS: seq<Replacement> := [
    Replacement("", false, "-mainnet-1"),
    Replacement("", false, "-testnet-1"),
    Replacement(".", false, ""),
    Replacement("", false, "-wallet"),
    Replacement("", false, "-bridge"),
    Replacement("", false, "-ai"),
    Replacement("", false, "d"),
    Replacement("t", true, ""),
    Replacement("s", true, ""),
    Replacement("w", true, ""),
    Replacement("", true, "")
  ]

  /** strings.ReplaceAll(s, r.Old(), r.New()) */
  function ReplaceAll(s: string, r: Replacement): string
    decreases |s|
  {
    if |s| < |r.Old()| then s
    else if r.Old() <= s then r.New() + ReplaceAll(s[|r.Old()|..], r)
    else [s[0]] + ReplaceAll(s[1..], r)
  }

  function Rewritten(s: string, from: nat): string
    requires from <= |REPLACEMENTS|
    decreases |REPLACEMENTS| - from
  {
    if from == |REPLACEMENTS| then s else Rewritten(ReplaceAll(s, REPLACEMENTS[from]), from + 1)
  }

  function RewriteText(s: string): string {
    Rewritten(s, 0)
  }

  function NormalizeChainID(id: string): string {
    if id == "shiva-mainnet-1" then "onex-mainnet-1"
    else if id == "shiva-testnet-1" then "onex-testnet-1"
    else id
  }

  function NormalizeToken(id: string): string {
    if id == "SHIVA" || id == "tSHIVA" then "ONEX"
    else if id == "wSHIVA" then "wONEX"
    else if id == "sSHIVA" then "sONEX"
    else id
  }

  function NormalizeTokenKey(key: string): string {
    match SplitFirst(key, ':')
    case (_, None) => RewriteText(key)
    case (chain, Some(token)) => NormalizeChainID(chain) + ":" + NormalizeToken(token)
  }

  predicate Replaces(i: nat, old_: string, new_: string) {
    i < |REPLACEMENTS| && REPLACEMENTS[i].Old() == old_ && REPLACEMENTS[i].New() == new_
  }

  lemma ReplacesIs(i: nat, before: string, upper: bool, after: string, old_: string, new_: string)
    requires i < |REPLACEMENTS| && REPLACEMENTS[i] == Replacement(before, upper, after)
    requires before + (if upper then "SHIVA" else "shiva") + after == old_
    requires before + (if upper then "ONEX" else "onex") + after == new_
    ensures Replaces(i, old_, new_)
  {
  }

  lemma {:induction false} MainnetReplacement()
    ensures Replaces(0, "shiva-mainnet-1", "onex-mainnet-1")
  {
    hide Replaces;
    ReplacesIs(0, "", false, "-mainnet-1", "shiva-mainnet-1", "onex-mainnet-1");
  }

  lemma {:induction false} TestnetReplacement()
    ensures Replaces(1, "shiva-testnet-1", "onex-testnet-1")
  {
    hide Replaces;
    ReplacesIs(1, "", false, "-testnet-1", "shiva-testnet-1", "onex-testnet-1");
  }

  lemma {:induction false} WalletReplacements()
    ensures Replaces(2, ".shiva", ".onex")
    ensures Replaces(3, "shiva-wallet", "onex-wallet")
    ensures Replaces(4, "shiva-bridge", "onex-bridge")
  {
    hide Replaces;
    ReplacesIs(2, ".", false, "", ".shiva", ".onex");
    ReplacesIs(3, "", false, "-wallet", "shiva-wallet", "onex-wallet");
    ReplacesIs(4, "", false, "-bridge", "shiva-bridge", "onex-bridge");
  }

  lemma {:induction false} ProgramReplacements()
    ensures Replaces(5, "shiva-ai", "onex-ai")
    ensures Replaces(6, "shivad", "onexd")
    ensures Replaces(7, "tSHIVA", "tONEX")
  {
    hide Replaces;
    ReplacesIs(5, "", false, "-ai", "shiva-ai", "onex-ai");
    ReplacesIs(6, "", false, "d", "shivad", "onexd");
    ReplacesIs(7, "t", true, "", "tSHIVA", "tONEX");
  }

  lemma {:induction false} TokenReplacements()
    ensures Replaces(8, "sSHIVA", "sONEX")
    ensures Replaces(9, "wSHIVA", "wONEX")
    ensures Replaces(10, "SHIVA", "ONEX")
  {
    hide Replaces;
    ReplacesIs(8, "s", true, "", "sSHIVA", "sONEX");
    ReplacesIs(9, "w", true, "", "wSHIVA", "wONEX");
    ReplacesIs(10, "", true, "", "SHIVA", "ONEX");
  }

  /** The eleven replacements, in the order they are made. */
  lemma {:induction false} ReplacementTable()
    ensures |REPLACEMENTS| == 11
    ensures Replaces(0, "shiva-mainnet-1", "onex-mainnet-1")
    ensures Replaces(1, "shiva-testnet-1", "onex-testnet-1")
    ensures Replaces(2, ".shiva", ".onex")
    ensures Replaces(3, "shiva-wallet", "onex-wallet")
    ensures Replaces(4, "shiva-bridge", "onex-bridge")
    ensures Replaces(5, "shiva-ai", "onex-ai")
    ensures Replaces(6, "shivad", "onexd")
    ensures Replaces(7, "tSHIVA", "tONEX")
    ensures Replaces(8, "sSHIVA", "sONEX")
    ensures Replaces(9, "wSHIVA", "wONEX")
    ensures Replaces(10, "SHIVA", "ONEX")
  {
    hide Replaces;
    MainnetReplacement();
    TestnetReplacement();
    WalletReplacements();
    ProgramReplacements();
    TokenReplacements();
  }

  /** What becomes of a chain:token key: its two parts, replaced as wholes. */
  lemma {:induction false} TokenKeyTable(chain: string, token: string)
    requires ':' !in chain
    ensures NormalizeTokenKey(chain + ":" + token)
         == (if chain == "shiva-mainnet-1" then "onex-mainnet-1"
             else if chain == "shiva-testnet-1" then "onex-testnet-1" else chain)
            + ":" + (if token == "SHIVA" || token == "tSHIVA" then "ONEX"
                     else if token == "wSHIVA" then "wONEX"
                     else if token == "sSHIVA" then "sONEX" else token)
  {
    hide Rewritten;
    SplitFirstIs(chain, token, ':');
  }

  // ----- where an old name can occur after a replacement -----

  predicate Occurs(p: string, s: string) {
    exists i :: 0 <= i <= |s| && p <= s[i..]
  }

  /** A text no new name can be part of: it lacks the letters O and X of either case. */
  predicate Foreign(p: string) {
    'o' !in p && 'O' !in p && 'x' !in p && 'X' !in p
  }

  /** What the proofs use of the list: what is kept lacks those letters, and does not end as an old name begins. */
  predicate Sane(r: Replacement) {
    && |r.before| <= 1 && Foreign(r.before) && Foreign(r.after) && ':' !in r.before && ':' !in r.after
    && (r.after != "" ==> r.before == "" && !r.upper)
    && NeverBegins(r.after)
  }

  /** No end of the text begins with "sh", or could. */
  predicate NeverBegins(a: string) {
    forall m :: 0 <= m < |a| && a[m] == 's' ==> m + 1 < |a| && a[m + 1] == 't'
  }

  lemma {:induction false} KeptTextIsForeign(a: string)
    requires a in ["-mainnet-1", "-testnet-1", "-wallet", "-bridge", "-ai", "d", ""]
    ensures Foreign(a) && ':' !in a
  {
  }

  lemma {:induction false} KeptTextNeverBegins(a: string)
    requires a in ["-mainnet-1", "-testnet-1", "-wallet", "-bridge", "-ai", "d", ""]
    ensures NeverBegins(a)
  {
  }

  lemma {:induction false} ReplacementsAreSane(i: nat)
    requires i < |REPLACEMENTS|
    ensures Sane(REPLACEMENTS[i])
  {
    KeptTextIsForeign(REPLACEMENTS[i].after);
    KeptTextNeverBegins(REPLACEMENTS[i].after);
  }

  lemma OldIsForeign(r: Replacement)
    requires Sane(r)
    ensures Foreign(r.Old()) && 5 <= |r.Old()| && ':' !in r.New()
  {
  }

  lemma OccursInTail(p: string, s: string, t: string)
    requires Occurs(p, t)
    ensures Occurs(p, s + t)
  {
    var i :| 0 <= i <= |t| && p <= t[i..];
    assert (s + t)[|s| + i..] == t[i..];
  }

  lemma OccursAtFront(p: string, s: string)
    requires p <= s
    ensures Occurs(p, s)
  {
    assert s[0..] == s;
  }

  /** A foreign text that begins the result began the input. */
  lemma {:induction false} PrefixWasThere(p: string, s: string, r: Replacement)
    requires Foreign(p) && |r.before| <= 1 && p <= ReplaceAll(s, r)
    ensures p <= s
    decreases |s|
  {
    if p != [] && |r.Old()| <= |s| {
      if r.Old() <= s {
        NewNameStops(p, r, ReplaceAll(s[|r.Old()|..], r));
        assert p <= r.before <= r.Old();
      } else {
        assert p[1..] <= ReplaceAll(s[1..], r);
        PrefixWasThere(p[1..], s[1..], r);
        assert p == [p[0]] + p[1..] && s == [s[0]] + s[1..];
      }
    }
  }

  /** A foreign text cannot reach into a new name. */
  lemma NewNameStops(p: string, r: Replacement, rest: string)
    requires Foreign(p) && p <= r.New() + rest
    ensures p <= r.before
  {
    var text := r.New() + rest;
    assert text[|r.before|] == r.NewName()[0];
    assert |p| <= |r.before|;
    assert text[..|p|] == r.before[..|p|];
  }

  /** The same behind any kept text. */
  lemma BehindKeptText(p: string, z: string, s: string, r: Replacement)
    requires Foreign(p) && |r.before| <= 1 && p <= z + ReplaceAll(s, r)
    ensures p <= z + s
  {
    if |z| < |p| {
      var q := p[|z|..];
      assert p == z + q by {
        assert p[..|z|] == (z + ReplaceAll(s, r))[..|z|] == z;
      }
      assert q <= ReplaceAll(s, r) by {
        assert (z + ReplaceAll(s, r))[|z|..|p|] == ReplaceAll(s, r)[..|q|];
      }
      PrefixWasThere(q, s, r);
    } else {
      assert p == (z + ReplaceAll(s, r))[..|p|] == z[..|p|];
    }
  }

  /** An old name that occurs in the result occurred in the input; and the one replaced is gone. */
  lemma {:induction false} OccurredBefore(p: string, s: string, r: Replacement)
    requires Foreign(p) && 5 <= |p| && Sane(r) && Occurs(p, ReplaceAll(s, r))
    ensures Occurs(p, s) && p != r.Old()
    decreases |s|
  {
    hide Sane, Foreign;
    KeptIsShort(r);
    var i :| 0 <= i <= |ReplaceAll(s, r)| && p <= ReplaceAll(s, r)[i..];
    if |s| < |r.Old()| {
      assert |p| <= |s|;
    } else if r.Old() <= s {
      var rest := s[|r.Old()|..];
      assert s == r.Old() + rest;
      if |r.New()| <= i {
        assert ReplaceAll(s, r)[i..] == ReplaceAll(rest, r)[i - |r.New()|..];
        OccurredBefore(p, rest, r);
        OccursInTail(p, r.Old(), rest);
      } else {
        InsideNewName(p, r, rest, i);
      }
    } else {
      assert s == [s[0]] + s[1..];
      if i == 0 {
        assert ReplaceAll(s, r)[0..] == ReplaceAll(s, r);
        PrefixWasThere(p, s, r);
        OccursAtFront(p, s);
      } else {
        assert ReplaceAll(s, r)[i..] == ReplaceAll(s[1..], r)[i - 1..];
        OccurredBefore(p, s[1..], r);
        OccursInTail(p, [s[0]], s[1..]);
      }
    }
  }

  /** An occurrence that starts in a new name starts behind the letters that changed. */
  lemma {:induction false} InsideNewName(p: string, r: Replacement, rest: string, i: nat)
    requires Foreign(p) && 5 <= |p| && Sane(r) && i < |r.New()|
    requires p <= (r.New() + ReplaceAll(rest, r))[i..]
    ensures Occurs(p, r.Old() + rest) && p != r.Old()
  {
    hide Sane, Occurs, ReplaceAll;
    StartsBehind(p, r, ReplaceAll(rest, r), i);
    var m := i - |r.before| - 4;
    var z := r.after[m..];
    var text := r.New() + ReplaceAll(rest, r);
    assert text == (r.before + r.NewName() + r.after[..m]) + (z + ReplaceAll(rest, r));
    assert text[i..] == z + ReplaceAll(rest, r);
    BehindKeptText(p, z, rest, r) by {
      assert |r.before| <= 1 by {
        KeptIsShort(r);
      }
    }
    var kept := r.before + r.Name() + r.after[..m];
    assert r.Old() + rest == kept + (z + rest);
    OccursAtFront(p, z + rest);
    OccursInTail(p, kept, z + rest);
    BeginsAnew(p, r, z + rest, m);
  }

  lemma KeptIsShort(r: Replacement)
    requires Sane(r)
    ensures |r.before| <= 1
  {
  }

  lemma {:induction false} StartsBehind(p: string, r: Replacement, tail: string, i: nat)
    requires Foreign(p) && 5 <= |p| && Sane(r) && i < |r.New()|
    requires p <= (r.New() + tail)[i..]
    ensures |r.before| + 4 <= i
  {
    var k, text := |r.before|, r.New() + tail;
    assert text[k] == r.NewName()[0] && text[k + 3] == r.NewName()[3];
    if i <= k {
      LetterOf(p, text, i, k);
    } else if i <= k + 3 {
      LetterOf(p, text, i, k + 3);
    }
  }

  lemma LetterOf(p: string, text: string, i: nat, j: nat)
    requires i <= j < i + |p| && i <= |text| && p <= text[i..]
    ensures j < |text| && p[j - i] == text[j]
  {
    assert p[j - i] == text[i..][j - i];
  }

  /** What follows a new name does not begin as the old name does. */
  lemma {:induction false} BeginsAnew(p: string, r: Replacement, text: string, m: nat)
    requires Sane(r) && 5 <= |p| && m < |r.after| && r.after[m..] <= text && p <= text
    ensures p != r.Old()
  {
    assert p[0] == text[0] == r.after[m..][0] == r.after[m];
    assert m + 1 < |r.after| ==> p[1] == text[1] == r.after[m..][1] == r.after[m + 1];
    assert r.Old()[0] == 's' && r.Old()[1] == 'h';
  }

  // ----- rewriting twice -----

  lemma {:induction false} NothingToReplace(s: string, r: Replacement)
    requires !Occurs(r.Old(), s)
    ensures ReplaceAll(s, r) == s
    decreases |s|
  {
    if |r.Old()| <= |s| {
      if r.Old() <= s {
        OccursAtFront(r.Old(), s);
      } else {
        assert s == [s[0]] + s[1..];
        if Occurs(r.Old(), s[1..]) {
          OccursInTail(r.Old(), [s[0]], s[1..]);
        }
        NothingToReplace(s[1..], r);
      }
    }
  }

  lemma ReplaceHead(s: string, r: Replacement)
    ensures r.Old() <= s ==> ReplaceAll(s, r) == r.New() + ReplaceAll(s[|r.Old()|..], r)
    ensures !(r.Old() <= s) && s != "" ==> ReplaceAll(s, r) == [s[0]] + ReplaceAll(s[1..], r)
  {
  }

  /** The first occurrence of an old name becomes the new one; what is before it stays. */
  lemma {:induction false} ReplacedAt(a: string, b: string, r: Replacement)
    requires forall i :: 0 <= i < |a| ==> !(r.Old() <= (a + r.Old() + b)[i..])
    ensures ReplaceAll(a + r.Old() + b, r) == a + r.New() + ReplaceAll(b, r)
  {
    hide ReplaceAll;
    ReplacedAround(a, r.Old(), b, r);
  }

  lemma {:induction false} ReplacedAround(a: string, o: string, b: string, r: Replacement)
    requires o == r.Old() && forall i :: 0 <= i < |a| ==> !(o <= (a + o + b)[i..])
    ensures ReplaceAll(a + o + b, r) == a + r.New() + ReplaceAll(b, r)
    decreases |a|
  {
    hide ReplaceAll, Replacement.Old, Replacement.New;
    var s := a + o + b;
    ReplaceHead(s, r);
    if a == "" {
      assert s == o + b && s[|o|..] == b;
      assert "" + r.New() == r.New();
    } else {
      assert s[0..] == s && s[0] == a[0] && s[1..] == a[1..] + o + b;
      forall i | 0 <= i < |a[1..]|
        ensures !(o <= (a[1..] + o + b)[i..])
      {
        assert s[i + 1..] == s[1..][i..];
      }
      ReplacedAround(a[1..], o, b, r);
      assert [a[0]] + (a[1..] + r.New() + ReplaceAll(b, r)) == a + r.New() + ReplaceAll(b, r);
    }
  }

  /** No old name is left after the whole list has been gone through. */
  lemma {:induction false} NoOldNameLeft(s: string, from: nat)
    requires from <= |REPLACEMENTS| && forall i :: 0 <= i < from ==> !Occurs(REPLACEMENTS[i].Old(), s)
    ensures forall i :: 0 <= i < |REPLACEMENTS| ==> !Occurs(REPLACEMENTS[i].Old(), Rewritten(s, from))
    decreases |REPLACEMENTS| - from
  {
    hide Occurs, ReplaceAll, Sane, Foreign;
    if from < |REPLACEMENTS| {
      var r := REPLACEMENTS[from];
      ReplacementsAreSane(from);
      forall i | 0 <= i <= from
        ensures !Occurs(REPLACEMENTS[i].Old(), ReplaceAll(s, r))
      {
        ReplacementsAreSane(i);
        OldIsForeign(REPLACEMENTS[i]);
        if Occurs(REPLACEMENTS[i].Old(), ReplaceAll(s, r)) {
          OccurredBefore(REPLACEMENTS[i].Old(), s, r);
        }
      }
      NoOldNameLeft(ReplaceAll(s, r), from + 1);
    }
  }

  lemma {:induction false} NothingToRewrite(s: string, from: nat)
    requires from <= |REPLACEMENTS| && forall i :: 0 <= i < |REPLACEMENTS| ==> !Occurs(REPLACEMENTS[i].Old(), s)
    ensures Rewritten(s, from) == s
    decreases |REPLACEMENTS| - from
  {
    hide Occurs, ReplaceAll;
    if from < |REPLACEMENTS| {
      NothingToReplace(s, REPLACEMENTS[from]);
      NothingToRewrite(s, from + 1);
    }
  }

  /** Rewriting leaves no legacy identifier, so rewriting again changes nothing. */
  lemma {:induction false} RewriteIsFinal(s: string)
    ensures forall i :: 0 <= i < |REPLACEMENTS| ==> !Occurs(REPLACEMENTS[i].Old(), RewriteText(s))
    ensures RewriteText(RewriteText(s)) == RewriteText(s)
  {
    hide Occurs, Rewritten;
    NoOldNameLeft(s, 0);
    NothingToRewrite(RewriteText(s), 0);
  }

  lemma {:induction false} ReplaceAddsNoColon(s: string, r: Replacement)
    requires ':' !in s && ':' !in r.New()
    ensures ':' !in ReplaceAll(s, r)
    decreases |s|
  {
    if |r.Old()| <= |s| {
      if r.Old() <= s {
        ReplaceAddsNoColon(s[|r.Old()|..], r);
      } else {
        ReplaceAddsNoColon(s[1..], r);
      }
    }
  }

  lemma {:induction false} RewriteAddsNoColon(s: string, from: nat)
    requires ':' !in s && from <= |REPLACEMENTS|
    ensures ':' !in Rewritten(s, from)
    decreases |REPLACEMENTS| - from
  {
    hide ReplaceAll, Sane;
    if from < |REPLACEMENTS| {
      ReplacementsAreSane(from);
      OldIsForeign(REPLACEMENTS[from]);
      ReplaceAddsNoColon(s, REPLACEMENTS[from]);
      RewriteAddsNoColon(ReplaceAll(s, REPLACEMENTS[from]), from + 1);
    }
  }

  /** A normalized key is normal already, whether or not it is a chain:token key. */
  lemma {:induction false} NormalIsNormal(key: string)
    ensures NormalizeTokenKey(NormalizeTokenKey(key)) == NormalizeTokenKey(key)
    ensures ':' in NormalizeTokenKey(key) <==> ':' in key
  {
    hide Rewritten;
    var (chain, token) := SplitFirst(key, ':');
    if token.None? {
      RewriteAddsNoColon(key, 0);
      RewriteIsFinal(key);
    } else {
      SplitFirstIs(NormalizeChainID(chain), NormalizeToken(token.value), ':');
    }
  }
}
