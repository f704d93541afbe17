/** Legacy key migration (internal/legacy/portfolio.go, legacy.go). */
module Migration {
  import opened Numbers
  import opened LegacyNames
  import opened Decimal
  import opened Sorting
  import opened Sums

  // ----- amounts -----

  /** strconv.ParseUint with its error ignored. */
  function Value(s: string): nat {
    match ParseUint(s)
    case Number(n) => n
    case SyntaxError => 0
    case RangeError => TWO_64 - 1
  }

  function MergeAtomic(a: string, b: string): string {
    Dec(Add64(Value(a), Value(b)))
  }

  /** A decimal entry stands for its number; other texts for 0, and numbers too large for the largest uint64. */
  lemma {:induction false} ValueOfDecimal(n: nat)
    ensures Value(Dec(n)) == if n < TWO_64 then n else TWO_64 - 1
  {
    ValOfDec(n);
  }

  /** Two decimal entries merge to the decimal of their sum, modulo 2^64. */
  lemma {:induction false} DecimalsMerge(x: u64, y: u64)
    ensures MergeAtomic(Dec(x), Dec(y)) == Dec((x + y) % TWO_64)
  {
    ValueOfDecimal(x);
    ValueOfDecimal(y);
  }

  /** The text of a uint64, as every balance is written. */
  ghost predicate IsDecimal(s: string) {
    exists n: u64 :: s == Dec(n)
  }

  ghost predicate AllDecimal(m: map<string, string>) {
    forall k :: k in m ==> IsDecimal(m[k])
  }

  lemma {:induction false} DecimalIsItsValue(s: string)
    requires IsDecimal(s)
    ensures s == Dec(Value(s))
  {
    var n: u64 :| s == Dec(n);
    ValueOfDecimal(n);
  }

  lemma {:induction false} MoveKeepsDecimal(m: map<string, string>, key: string)
    requires AllDecimal(m) && key in m
    ensures AllDecimal(Moved(m, key))
  {
    hide NormalizeTokenKey, IsDecimal, Value, Add64;
    var name := NormalizeTokenKey(key);
    MergeIsDecimal(m, name, m[key]);
  }

  lemma MergeIsDecimal(m: map<string, string>, key: string, value: string)
    requires IsDecimal(value)
    ensures IsDecimal(Merged(m, key, value))
  {
    hide Value;
  }

  /** The entry a legacy value is merged into: an absent or empty one is simply replaced. */
  function Merged(m: map<string, string>, key: string, value: string): string {
    if key in m && m[key] != "" then MergeAtomic(m[key], value) else value
  }

  function ValueAt(m: map<string, string>, key: string): nat {
    if key in m then Value(m[key]) else 0
  }

  lemma {:induction false} MergedAddsUp(m: map<string, string>, key: string, value: string)
    ensures SameModulo64(Value(Merged(m, key, value)), ValueAt(m, key) + Value(value))
    ensures Value(Merged(m, key, value)) < TWO_64
  {
    if key in m && m[key] != "" {
      ParseUintOfDec(Add64(Value(m[key]), Value(value)));
      Add64Carries(Value(m[key]), Value(value));
      var carry: int := Carry(Value(m[key]), Value(value));
      assert Value(Merged(m, key, value)) == ValueAt(m, key) + Value(value) + TWO_64 * (0 - carry);
    } else {
      assert Value("") == 0;
      assert Value(Merged(m, key, value)) == ValueAt(m, key) + Value(value) + TWO_64 * 0;
    }
  }

  // ----- what the keys that normalize to one name hold together -----

  function Share(m: map<string, string>, name: string): map<string, nat> {
    map k | k in m && NormalizeTokenKey(k) == name :: Value(m[k])
  }

  ghost function Sum(m: map<string, string>, name: string): nat {
    Total(Share(m, name))
  }

  /** Some key stands for this name. */
  ghost predicate Named(m: map<string, string>, name: string) {
    exists k :: k in m && NormalizeTokenKey(k) == name
  }

  function Moved(m: map<string, string>, key: string): map<string, string>
    requires key in m
  {
    var name := NormalizeTokenKey(key);
    m[name := Merged(m, name, m[key])] - {key}
  }

  /** Moving one legacy key keeps what every name holds, modulo 2^64, and which names there are. */
  lemma {:induction false} MoveKeepsSums(m: map<string, string>, key: string, name: string)
    requires key in m && NormalizeTokenKey(key) != key
    ensures SameModulo64(Sum(Moved(m, key), name), Sum(m, name))
    ensures Named(Moved(m, key), name) <==> Named(m, name)
  {
    hide NormalizeTokenKey, Merged, Value, Total;
    var to := NormalizeTokenKey(key);
    NormalIsNormal(key);
    NormalIsNormal(to);
    var after := Moved(m, key);
    if to == name {
      MoveIntoName(m, key);
      assert to in after && NormalizeTokenKey(to) == name;
    } else {
      assert NormalizeTokenKey(to) != name;
      assert Share(after, name) == Share(m, name);
      assert Sum(after, name) == Sum(m, name) + TWO_64 * 0;
      assert forall k :: NormalizeTokenKey(k) == name ==> (k in after <==> k in m);
    }
  }

  lemma {:induction false} MoveIntoName(m: map<string, string>, key: string)
    requires key in m && NormalizeTokenKey(key) != key
    ensures SameModulo64(Sum(Moved(m, key), NormalizeTokenKey(key)), Sum(m, NormalizeTokenKey(key)))
  {
    hide NormalizeTokenKey, Merged, Value, Total;
    var to := NormalizeTokenKey(key);
    NormalIsNormal(key);
    var before, after := Share(m, to), Share(Moved(m, key), to);
    var v := Value(Merged(m, to, m[key]));
    assert after == before[to := v] - {key};
    TotalWithout(before[to := v], key);
    TotalUpdate(before, to, v);
    assert At(before, to) == ValueAt(m, to);
    MergedAddsUp(m, to, m[key]);
    var k: int :| v == ValueAt(m, to) + Value(m[key]) + TWO_64 * k;
    assert Total(after) == Total(before) + TWO_64 * k;
  }

  lemma {:induction false} SameModulo64Chain(a: int, b: int, d: int)
    requires SameModulo64(a, b) && SameModulo64(b, d)
    ensures SameModulo64(a, d)
  {
    var j: int :| a == b + TWO_64 * j;
    var k: int :| b == d + TWO_64 * k;
    assert a == d + TWO_64 * (j + k);
  }

  lemma {:induction false} SameModulo64Reflexive(a: int)
    ensures SameModulo64(a, a)
  {
    assert a == a + TWO_64 * 0;
  }

  /** When no legacy key is left, a name's sum is the value of its one entry. */
  lemma {:induction false} SumOfNormal(m: map<string, string>, name: string)
    requires forall k :: k in m ==> NormalizeTokenKey(k) == k
    ensures Sum(m, name) == ValueAt(m, name)
    ensures Named(m, name) <==> name in m && NormalizeTokenKey(name) == name
  {
    hide NormalizeTokenKey, Value;
    forall k | k in m && NormalizeTokenKey(k) == name
      ensures k == name
    {
      NormalIsNormal(k);
    }
    if name in m {
      assert Share(m, name) == map[name := Value(m[name])];
      TotalUpdate(map[], name, Value(m[name]));
      assert map[][name := Value(m[name])] == map[name := Value(m[name])];
    } else {
      assert Share(m, name) == map[];
    }
  }

  class BalanceMap {
    var balances: map<string, string>

    constructor (balances: map<string, string>)
      ensures this.balances == balances
    {
      this.balances := balances;
    }

    /**
     * Go ranges over the map while it is rewritten. `order` is any order the runtime may visit keys in:
     * every original key once, and any keys added on the way at most once; a key that is not in the
     * map when its turn comes is not visited.
     */
    method MigrateBalanceKeys(order: seq<string>) returns (changed: bool)
      requires Distinct(order) && forall k :: k in balances ==> k in order
      modifies this
      ensures forall k :: k in balances ==> NormalizeTokenKey(k) == k
      ensures forall name :: name in balances <==> Named(old(balances), name)
      ensures forall name :: name in balances ==>
                Value(balances[name]) == Low64(Sum(old(balances), name))
      ensures AllDecimal(old(balances)) ==>
                forall name :: name in balances ==> balances[name] == Dec(Low64(Sum(old(balances), name)))
      ensures changed <==> exists k :: k in old(balances) && NormalizeTokenKey(k) != k
      ensures !changed ==> balances == old(balances)
    {
      hide NormalizeTokenKey, Merged, Value, Sum, Named, SameModulo64, AllDecimal;
      changed := false;
      ghost var start := balances;
      var i := 0;
      forall name
        ensures SameModulo64(Sum(start, name), Sum(start, name))
      {
        SameModulo64Reflexive(Sum(start, name));
      }
      while i < |order|
        invariant 0 <= i <= |order|
        invariant Settled(start, balances, order[..i])
        invariant Accounted(start, balances)
        invariant AllDecimal(start) ==> AllDecimal(balances)
        invariant changed ==> exists k :: k in start && NormalizeTokenKey(k) != k
        invariant !changed ==> balances == start
        invariant !changed ==> forall j :: 0 <= j < i && order[j] in start ==> NormalizeTokenKey(order[j]) == order[j]
      {
        var key := order[i];
        ghost var before := balances;
        if key in balances && NormalizeTokenKey(key) != key {
          var val := balances[key];
          var nk := NormalizeTokenKey(key);
          if nk in balances && balances[nk] != "" {
            balances := balances[nk := MergeAtomic(balances[nk], val)];
          } else {
            balances := balances[nk := val];
          }
          balances := balances - {key};
          MovedIs(before, balances, key);
          MoveKeepsAccount(start, before, key);
          if AllDecimal(before) {
            MoveKeepsDecimal(before, key);
          }
          changed := true;
        }
        SettledStep(start, before, balances, order, i);
        i := i + 1;
      }
      assert order[..i] == order;
      AllSettled(start, balances, order);
      if AllDecimal(start) {
        DecimalTexts(balances);
      }
    }
  }

  lemma {:induction false} DecimalTexts(m: map<string, string>)
    requires AllDecimal(m)
    ensures forall k :: k in m ==> m[k] == Dec(Value(m[k]))
  {
    hide Value, IsDecimal;
    forall k | k in m
      ensures m[k] == Dec(Value(m[k]))
    {
      DecimalIsItsValue(m[k]);
    }
  }

  /** Two keys that normalize to a third, and one that does not. */
  lemma {:induction false} SumOfThree(a: string, b: string, name: string, d: string, s: string, t: string, u: string,
                                      v: string)
    requires a != b && a != name && b != name && d != a && d != b && d != name
    requires NormalizeTokenKey(a) == NormalizeTokenKey(b) == NormalizeTokenKey(name) == name
    requires NormalizeTokenKey(d) != name
    ensures Sum(map[a := s, b := t, name := u, d := v], name) == Value(s) + Value(t) + Value(u)
  {
    hide NormalizeTokenKey, Value;
    var one: map<string, nat> := map[a := Value(s)];
    var two := one[b := Value(t)];
    assert Share(map[a := s, b := t, name := u, d := v], name) == two[name := Value(u)];
    TotalUpdate(map[], a, Value(s));
    assert map[][a := Value(s)] == one;
    TotalUpdate(one, b, Value(t));
    TotalUpdate(two, name, Value(u));
  }

  /** Entries 5 and 1 under two legacy keys join the 7 under the new name. */
  lemma {:induction false} Thirteen()
    ensures Sum(map["shiva-mainnet-1:SHIVA" := "5", "onex-mainnet-1:tSHIVA" := "1", "onex-mainnet-1:ONEX" := "7",
                    "bsc:BNB" := "9"], "onex-mainnet-1:ONEX") == 13
  {
    hide NormalizeTokenKey, Value, Sum;
    assert "shiva-mainnet-1" + ":" + "SHIVA" == "shiva-mainnet-1:SHIVA" && "bsc" + ":" + "BNB" == "bsc:BNB";
    assert "onex-mainnet-1" + ":" + "tSHIVA" == "onex-mainnet-1:tSHIVA";
    assert "onex-mainnet-1" + ":" + "ONEX" == "onex-mainnet-1:ONEX";
    TokenKeyTable("shiva-mainnet-1", "SHIVA");
    TokenKeyTable("onex-mainnet-1", "tSHIVA");
    TokenKeyTable("onex-mainnet-1", "ONEX");
    TokenKeyTable("bsc", "BNB");
    ValueOfDecimal(5);
    ValueOfDecimal(1);
    ValueOfDecimal(7);
    SumOfThree("shiva-mainnet-1:SHIVA", "onex-mainnet-1:tSHIVA", "onex-mainnet-1:ONEX", "bsc:BNB", "5", "1", "7", "9");
  }

  lemma {:induction false} MovedIs(m: map<string, string>, after: map<string, string>, key: string)
    requires key in m && NormalizeTokenKey(key) != key
    requires var nk := NormalizeTokenKey(key);
             after == m[nk := if nk in m && m[nk] != "" then MergeAtomic(m[nk], m[key]) else m[key]] - {key}
    ensures after == Moved(m, key)
  {
    hide NormalizeTokenKey, MergeAtomic;
  }

  /** Every legacy key still in the map is an original one whose turn has not come. */
  ghost predicate Settled(start: map<string, string>, m: map<string, string>, visited: seq<string>) {
    forall k :: k in m ==> NormalizeTokenKey(k) == k || (k in start && k !in visited)
  }

  lemma {:induction false} SettledStep(start: map<string, string>, m: map<string, string>, after: map<string, string>,
                                       order: seq<string>, i: nat)
    requires i < |order| && Distinct(order) && Settled(start, m, order[..i])
    requires after == if order[i] in m && NormalizeTokenKey(order[i]) != order[i] then Moved(m, order[i]) else m
    ensures Settled(start, after, order[..i + 1])
  {
    hide NormalizeTokenKey, Merged;
    NormalIsNormal(order[i]);
    assert order[..i + 1] == order[..i] + [order[i]];
  }

  lemma {:induction false} AllSettled(start: map<string, string>, m: map<string, string>, order: seq<string>)
    requires Settled(start, m, order) && Accounted(start, m) && forall k :: k in start ==> k in order
    ensures forall k :: k in m ==> NormalizeTokenKey(k) == k
    ensures forall name :: name in m <==> Named(start, name)
    ensures forall name :: name in m ==> Value(m[name]) == Low64(Sum(start, name))
  {
    hide NormalizeTokenKey, Value, Sum, Named;
    forall name
      ensures name in m <==> Named(start, name)
      ensures name in m ==> Value(m[name]) == Low64(Sum(start, name))
    {
      SumOfNormal(m, name);
      if name in m {
        ValueFits(m[name]);
        var k: int :| Sum(m, name) == Sum(start, name) + TWO_64 * k;
        ModuloOf(Value(m[name]), Sum(start, name), k);
      }
    }
  }

  lemma {:induction false} ValueFits(s: string)
    ensures Value(s) < TWO_64
  {
  }

  lemma {:induction false} ModuloOf(v: nat, sum: nat, k: int)
    requires v == sum + TWO_64 * k && v < TWO_64
    ensures v == Low64(sum)
  {
  }

  /** Every name holds what it held, modulo 2^64. */
  ghost predicate Accounted(start: map<string, string>, m: map<string, string>) {
    forall name ::
      SameModulo64(Sum(m, name), Sum(start, name)) && (Named(m, name) <==> Named(start, name))
  }

  lemma {:induction false} MoveKeepsAccount(start: map<string, string>, m: map<string, string>, key: string)
    requires key in m && NormalizeTokenKey(key) != key && Accounted(start, m)
    ensures Accounted(start, Moved(m, key))
  {
    hide NormalizeTokenKey, Sum, Named, Moved, SameModulo64;
    forall name
      ensures SameModulo64(Sum(Moved(m, key), name), Sum(start, name))
      ensures Named(Moved(m, key), name) <==> Named(start, name)
    {
      MoveKeepsSums(m, key, name);
      SameModulo64Chain(Sum(Moved(m, key), name), Sum(m, name), Sum(start, name));
    }
  }
}
