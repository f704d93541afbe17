/**
 * When the state root (internal/chain/state.go, ComputeStateRoot) determines the state.
 *
 * The hashed text lists entries address:balance:nonce; so an address that continues past another
 * address's whole entry can be read in two ways. No other reading is possible.
 */
module StateRoot {
  import opened Decimal
  import opened Text
  import opened Types
  import opened Crypto
  import opened LedgerState
  import opened Sorting

  /** An address that cannot continue past an entry; a hexadecimal one lacks both separators. */
  predicate PlainAddress(a: string) {
    ':' !in a || ';' !in a
  }

  predicate PlainState(st: State) {
    forall a :: a in st ==> PlainAddress(a)
  }

  /** An address of t alone continues past the entry of an address of s alone. */
  ghost predicate Overlaps(s: State, t: State) {
    exists a, x :: a in s && a !in t && x in t && Entry(a, s[a]) <= x
  }

  // ----- entries -----

  /** Two entries that begin the same text are the same entry, or one address continues past the other entry. */
  lemma EntriesAgreeOrOverlap(a: string, acc: Account, rest: string, x: string, acc': Account, rest': string)
    requires |a| <= |x|
    requires Entry(a, acc) + rest == Entry(x, acc') + rest'
    ensures (a == x && acc == acc' && rest == rest') || Entry(a, acc) <= x
  {
    hide Dec;
    var b, n, b', n' := Dec(acc.balance), Dec(acc.nonce), Dec(acc'.balance), Dec(acc'.nonce);
    NumbersAreClean(acc);
    NumbersAreClean(acc');
    var tail, tail' := b + ":" + (n + ";" + rest), b' + ":" + (n' + ";" + rest');
    var text := a + ":" + tail;
    assert Entry(a, acc) + rest == text && Entry(x, acc') + rest' == x + ":" + tail';
    if |a| == |x| {
      assert a == text[..|a|] && x == text[..|x|];
      assert tail == text[|a| + 1..] && tail' == text[|a| + 1..];
      TailsAgree(acc, rest, acc', rest');
    } else {
      assert a == text[..|a|] && text[..|x|] == x && text[|a|] == ':';
      var z := x[|a| + 1..];
      assert x == a + ":" + z;
      assert tail == text[|a| + 1..] == z + ":" + tail';
      ContinuesPast(b, n, rest, z, b', n', rest');
      assert a + ":" + (b + ":" + (n + ";")) <= a + ":" + z;
    }
  }

  lemma NumbersAreClean(acc: Account)
    ensures ColonFree(Dec(acc.balance)) && ColonFree(Dec(acc.nonce))
    ensures ';' !in Dec(acc.balance) && ';' !in Dec(acc.nonce)
  {
    hide Dec;
    DigitsAreColonFree(Dec(acc.balance));
    DigitsAreColonFree(Dec(acc.nonce));
  }

  lemma TailsAgree(acc: Account, rest: string, acc': Account, rest': string)
    requires Dec(acc.balance) + ":" + (Dec(acc.nonce) + ";" + rest)
          == Dec(acc'.balance) + ":" + (Dec(acc'.nonce) + ";" + rest')
    ensures acc == acc' && rest == rest'
  {
    hide Dec;
    NumbersAreClean(acc);
    NumbersAreClean(acc');
    FirstSeparatorIsUnique(Dec(acc.balance), Dec(acc.nonce) + ";" + rest,
                           Dec(acc'.balance), Dec(acc'.nonce) + ";" + rest', ':');
    FirstSeparatorIsUnique(Dec(acc.nonce), rest, Dec(acc'.nonce), rest', ';');
    DecIsInjective(acc.balance, acc'.balance);
    DecIsInjective(acc.nonce, acc'.nonce);
  }

  /** What follows the shorter address is a balance and a nonce; the longer address goes on past both. */
  lemma ContinuesPast(b: string, n: string, rest: string, z: string, b': string, n': string, rest': string)
    requires ColonFree(b) && ColonFree(n) && ';' !in n && ColonFree(b') && ';' !in b'
    requires b + ":" + (n + ";" + rest) == z + ":" + (b' + ":" + (n' + ";" + rest'))
    ensures b + ":" + (n + ";") <= z
  {
    var (z0, after) := SplitFirst(z, ':');
    var tail' := b' + ":" + (n' + ";" + rest');
    if after.None? {
      FirstSeparatorIsUnique(b, n + ";" + rest, z, tail', ':');
      NonceIsNoBalance(n, rest, b', n' + ";" + rest');
    } else {
      var z1 := after.value;
      assert z + ":" + tail' == z0 + ":" + (z1 + ":" + tail');
      FirstSeparatorIsUnique(b, n + ";" + rest, z0, z1 + ":" + tail', ':');
      var text := n + ";" + rest;
      assert text[|z1|] == ':';
      assert forall i :: 0 <= i < |n| ==> text[i] == n[i] && n[i] != ':';
      assert text[|n|] == ';';
      assert n + ";" == text[..|n| + 1] && z1 == text[..|z1|];
      assert n + ";" <= z1;
      assert b + ":" + (n + ";") <= b + ":" + z1;
    }
  }

  lemma NonceIsNoBalance(n: string, rest: string, b: string, rest': string)
    requires ColonFree(n) && ';' !in b
    ensures n + ";" + rest != b + ":" + rest'
  {
    var text, text' := n + ";" + rest, b + ":" + rest';
    assert text[|n|] == ';' && text'[|b|] == ':';
    if |b| < |n| {
      assert text[|b|] == n[|b|];
    } else if |n| < |b| {
      assert text'[|n|] == b[|n|];
    }
  }

  lemma EntryIsNotEmpty(st: State, ks: seq<string>)
    requires ks != []
    ensures 0 < |Listing(st, ks)| && ';' in Listing(st, ks)
  {
    var e := Entry(ks[0], Get(st, ks[0]));
    assert e[|e| - 1] == ';';
    assert Listing(st, ks)[|e| - 1] == ';';
  }

  // ----- listings -----

  /** The same for two listings and the addresses in them. */
  ghost predicate ListsOverlap(s: State, ks: seq<string>, ls: seq<string>) {
    exists a, x :: a in ks && a !in ls && x in ls && Entry(a, Get(s, a)) <= x
  }

  lemma {:induction false} PrefixIsLe(a: string, x: string)
    requires a <= x
    ensures Le(a, x)
  {
    if a != [] {
      PrefixIsLe(a[1..], x[1..]);
    }
  }

  /** An address is not listed when the listing starts with one that continues past its entry. */
  lemma OverlapIsUnlisted(a: string, acc: Account, ls: seq<string>)
    requires ls != [] && Sorted(ls) && Entry(a, acc) <= ls[0]
    ensures a !in ls
  {
    hide Dec;
    assert a <= Entry(a, acc) && |a| < |Entry(a, acc)|;
    assert a == Entry(a, acc)[..|a|] == ls[0][..|a|];
    PrefixIsLe(a, ls[0]);
    if a in ls {
      FirstIsLeast(ls, a);
      LeAntisymmetric(a, ls[0]);
    }
  }

  lemma HeadsOverlap(s: State, t: State, ks: seq<string>, ls: seq<string>)
    requires ks != [] && ls != [] && Sorted(ls) && |ks[0]| <= |ls[0]|
    requires Listing(s, ks) == Listing(t, ls)
    ensures (ks[0] == ls[0] && Get(s, ks[0]) == Get(t, ls[0]) && Listing(s, ks[1..]) == Listing(t, ls[1..]))
         || ListsOverlap(s, ks, ls)
  {
    hide Entry, Sorted, Le;
    EntriesAgreeOrOverlap(ks[0], Get(s, ks[0]), Listing(s, ks[1..]), ls[0], Get(t, ls[0]), Listing(t, ls[1..]));
    if Entry(ks[0], Get(s, ks[0])) <= ls[0] {
      OverlapIsUnlisted(ks[0], Get(s, ks[0]), ls);
      assert ks[0] in ks && ls[0] in ls;
    }
  }

  /** Equal listings list the same accounts, unless somewhere an address continues past an entry. */
  lemma {:induction false} FirstDifference(s: State, t: State, ks: seq<string>, ls: seq<string>)
    requires Sorted(ks) && Sorted(ls) && Distinct(ks) && Distinct(ls)
    requires Listing(s, ks) == Listing(t, ls)
    ensures (ks == ls && forall k :: k in ks ==> Get(s, k) == Get(t, k))
         || ListsOverlap(s, ks, ls) || ListsOverlap(t, ls, ks)
    decreases |ks|
  {
    hide Entry, Sorted, Le, Listing;
    if ks == [] || ls == [] {
      EmptyListings(s, t, ks, ls);
    } else {
      if |ks[0]| <= |ls[0]| {
        HeadsOverlap(s, t, ks, ls);
      } else {
        HeadsOverlap(t, s, ls, ks);
      }
      if !ListsOverlap(s, ks, ls) && !ListsOverlap(t, ls, ks) {
        SortedHead(ks);
        SortedHead(ls);
        FirstDifference(s, t, ks[1..], ls[1..]);
        OverlapOfTails(s, ks, ls);
        OverlapOfTails(t, ls, ks);
        assert ks == [ks[0]] + ks[1..] && ls == [ls[0]] + ls[1..];
      }
    }
  }

  lemma EmptyListings(s: State, t: State, ks: seq<string>, ls: seq<string>)
    requires Listing(s, ks) == Listing(t, ls) && (ks == [] || ls == [])
    ensures ks == [] && ls == []
  {
    if ks != [] {
      EntryIsNotEmpty(s, ks);
    }
    if ls != [] {
      EntryIsNotEmpty(t, ls);
    }
  }

  lemma OverlapOfTails(s: State, ks: seq<string>, ls: seq<string>)
    requires ks != [] && ls != [] && ks[0] == ls[0] && Distinct(ks)
    ensures ListsOverlap(s, ks[1..], ls[1..]) ==> ListsOverlap(s, ks, ls)
  {
    hide Entry;
    if ListsOverlap(s, ks[1..], ls[1..]) {
      var a, x :| a in ks[1..] && a !in ls[1..] && x in ls[1..] && Entry(a, Get(s, a)) <= x;
      assert a in ks && a != ks[0] && a !in ls && x in ls;
    }
  }

  // ----- states -----

  lemma {:induction false} SortedKeysAreKeys(keys: set<string>)
    ensures forall k :: k in SortedKeys(keys) <==> k in keys
    ensures Distinct(SortedKeys(keys))
  {
    var ks := SortedKeys(keys);
    assert forall k :: k in ks <==> k in multiset(ks);
    forall i, j | 0 <= i < j < |ks|
      ensures ks[i] != ks[j]
    {
      if ks[i] == ks[j] {
        TwiceInMultiset(ks, i, j);
      }
    }
  }

  lemma SameAccounts(s: State, t: State, ks: seq<string>)
    requires forall k :: k in ks <==> k in s
    requires forall k :: k in ks <==> k in t
    requires forall k :: k in ks ==> Get(s, k) == Get(t, k)
    ensures s == t
  {
    assert s.Keys == t.Keys;
    forall k | k in s
      ensures s[k] == t[k]
    {
      assert k in ks;
      assert Get(s, k) == Get(t, k);
    }
  }

  lemma {:induction false} RootTextOfSome(st: State)
    ensures st != map[] <==> ';' in RootText(st)
  {
    if st != map[] {
      var k :| k in st;
      SortedKeysAreKeys(st.Keys);
      EntryIsNotEmpty(st, SortedKeys(st.Keys));
    }
  }

  lemma {:induction false} ListsOverlapIsOverlaps(s: State, t: State)
    ensures ListsOverlap(s, SortedKeys(s.Keys), SortedKeys(t.Keys)) <==> Overlaps(s, t)
  {
    hide Entry;
    SortedKeysAreKeys(s.Keys);
    SortedKeysAreKeys(t.Keys);
    assert forall a :: a in s ==> Get(s, a) == s[a];
  }

  /**
   * Two states with the same hashed text are the same state exactly when no address of the one continues
   * past an entry that only the other has.
   */
  lemma {:induction false} RootTextDecides(s: State, t: State)
    requires RootText(s) == RootText(t)
    ensures s == t <==> !Overlaps(s, t) && !Overlaps(t, s)
  {
    hide Entry, Listing, Sorted, Le;
    RootTextOfSome(s);
    RootTextOfSome(t);
    if s != map[] {
      var ks, ls := SortedKeys(s.Keys), SortedKeys(t.Keys);
      SortedKeysAreKeys(s.Keys);
      SortedKeysAreKeys(t.Keys);
      FirstDifference(s, t, ks, ls);
      ListsOverlapIsOverlaps(s, t);
      ListsOverlapIsOverlaps(t, s);
      if !Overlaps(s, t) && !Overlaps(t, s) {
        SameAccounts(s, t, ks);
      }
    }
  }

  lemma ContinuingIsNotPlain(a: string, acc: Account, x: string)
    requires Entry(a, acc) <= x
    ensures !PlainAddress(x)
  {
    hide Dec;
    var e := Entry(a, acc);
    assert e[|a|] == ':' && e[|e| - 1] == ';';
    assert x[|a|] == ':' && x[|e| - 1] == ';';
  }

  lemma PlainNeverOverlaps(s: State, t: State)
    requires PlainState(t)
    ensures !Overlaps(s, t)
  {
    hide Entry, PlainAddress;
    forall a, x | a in s && x in t
      ensures !(Entry(a, s[a]) <= x)
    {
      if Entry(a, s[a]) <= x {
        ContinuingIsNotPlain(a, s[a], x);
      }
    }
  }

  /** For a sound hash, equal roots mean equal states exactly when the addresses do not overlap. */
  lemma {:induction false} RootDecides(c: Scheme, s: State, t: State)
    requires Sound(c) && Root(c, s) == Root(c, t)
    ensures s == t <==> !Overlaps(s, t) && !Overlaps(t, s)
    ensures PlainState(s) && PlainState(t) ==> s == t
  {
    hide RootText, Overlaps, PlainState;
    RootTextDecides(s, t);
    if PlainState(s) && PlainState(t) {
      PlainNeverOverlaps(s, t);
      PlainNeverOverlaps(t, s);
    }
  }

  // ----- the other direction: overlapping addresses do collide -----

  /** The address that reads as a's entry followed by y. */
  function Joined(a: string, acc: Account, y: string): string {
    Entry(a, acc) + y
  }

  /** The state in which the first two accounts are read as one. */
  function Fused(s: State, a: string, y: string): State
    requires a in s && y in s
  {
    (s - {a, y})[Joined(a, s[a], y) := s[y]]
  }

  /** Fusing the first two accounts of a state leaves its hashed text as it was. */
  lemma {:induction false} FusedCollides(s: State, a: string, y: string)
    requires a in s && y in s && a != y && Le(a, y)
    requires forall k :: k in s && k != a && k != y ==> Le(y, k) && Le(Joined(a, s[a], y), k)
    requires Joined(a, s[a], y) !in s
    ensures Fused(s, a, y) != s && RootText(Fused(s, a, y)) == RootText(s)
  {
    hide Entry, Le, Listing, Fused, Joined;
    var x, t := Joined(a, s[a], y), Fused(s, a, y);
    var others := s.Keys - {a, y};
    KeysOfFused(s, a, y);
    FirstTwo(s.Keys, a, y);
    ConsIsSorted(x, others);
    SortedKeysAreKeys(others);
    ListingOfFused(s, t, a, y, SortedKeys(others));
  }

  lemma {:induction false} KeysOfFused(s: State, a: string, y: string)
    requires a in s && y in s && Joined(a, s[a], y) !in s
    ensures Fused(s, a, y).Keys == s.Keys - {a, y} + {Joined(a, s[a], y)}
    ensures Fused(s, a, y) != s && Fused(s, a, y) != map[] && s != map[]
  {
    hide Joined;
    assert Joined(a, s[a], y) in Fused(s, a, y);
  }

  lemma {:induction false} FirstTwo(keys: set<string>, a: string, y: string)
    requires a in keys && y in keys && a != y && Le(a, y)
    requires forall k :: k in keys && k != a && k != y ==> Le(y, k)
    ensures SortedKeys(keys) == [a] + ([y] + SortedKeys(keys - {a, y}))
  {
    hide Le, Sorted;
    var others := keys - {a, y};
    ConsIsSorted(y, others);
    assert keys - {a} == others + {y};
    forall k | k in keys - {a}
      ensures Le(a, k)
    {
      if k != y {
        LeTransitive(a, y, k);
      }
    }
    ConsIsSorted(a, keys - {a});
    assert keys == keys - {a} + {a};
  }

  lemma {:induction false} ConsIsSorted(k: string, keys: set<string>)
    requires k !in keys && forall l :: l in keys ==> Le(k, l)
    ensures SortedKeys(keys + {k}) == [k] + SortedKeys(keys)
  {
    hide Le;
    SortedKeysAreKeys(keys);
    assert Below(k, SortedKeys(keys));
    SortedCons(k, SortedKeys(keys));
    assert multiset(keys + {k}) == multiset(keys) + multiset{k};
    SortedIsUnique(SortedKeys(keys + {k}), [k] + SortedKeys(keys));
  }

  lemma EntryOfJoined(a: string, acc: Account, y: string, acc': Account)
    ensures Entry(Joined(a, acc, y), acc') == Entry(a, acc) + Entry(y, acc')
  {
    hide Dec;
  }

  lemma ListingCons(st: State, k: string, ks: seq<string>)
    ensures Listing(st, [k] + ks) == Entry(k, Get(st, k)) + Listing(st, ks)
  {
    hide Entry;
    assert ([k] + ks)[1..] == ks;
  }

  lemma {:induction false} ListingOfFused(s: State, t: State, a: string, y: string, rest: seq<string>)
    requires a in s && y in s && t == Fused(s, a, y)
    requires forall k :: k in rest ==> k in s && k != a && k != y && k != Joined(a, s[a], y)
    ensures Listing(s, [a] + ([y] + rest)) == Listing(t, [Joined(a, s[a], y)] + rest)
  {
    hide Entry, Listing, Joined;
    var x := Joined(a, s[a], y);
    SameListing(s, t, rest);
    ListingCons(s, y, rest);
    ListingCons(s, a, [y] + rest);
    ListingCons(t, x, rest);
    EntryOfJoined(a, s[a], y, s[y]);
  }

  lemma {:induction false} SameListing(s: State, t: State, ks: seq<string>)
    requires forall k :: k in ks ==> Get(s, k) == Get(t, k)
    ensures Listing(s, ks) == Listing(t, ks)
  {
    if ks != [] {
      SameListing(s, t, ks[1..]);
    }
  }

  // ----- an example -----

  lemma TwoEntries()
    ensures Entry("a", Account(7, 0)) == "a:7:0;" && Entry("b", Account(20, 3)) == "b:20:3;"
  {
    assert Dec(20) == "20";
  }

  lemma {:induction false} KeysInOrder()
    ensures SortedKeys({"a", "b"}) == ["a"] + (["b"] + [])
  {
    assert Le("a", "b");
    FirstTwo({"a", "b"}, "a", "b");
    assert {"a", "b"} - {"a", "b"} == {};
  }

  /** The hashed text of a small state, and of none. */
  lemma {:induction false} RootTextOfTwo()
    ensures RootText(map["b" := Account(20, 3), "a" := Account(7, 0)]) == "a:7:0;b:20:3;"
    ensures RootText(map[]) == "empty"
  {
    var st: State := map["b" := Account(20, 3), "a" := Account(7, 0)];
    assert st.Keys == {"a", "b"} && "a" in st;
    KeysInOrder();
    TwoEntries();
    assert Listing(st, []) == "";
    hide Entry, Listing, Le, Sorted;
    ListingCons(st, "b", []);
    ListingCons(st, "a", ["b"] + []);
    assert "a:7:0;" + ("b:20:3;" + "") == "a:7:0;b:20:3;";
  }
}
