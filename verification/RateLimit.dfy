/** The sliding-window limiter (bsc-launcher/server/handlers.go, rateLimiter). Times are nanoseconds. */
module RateLimit {
  const MINUTE: int := 60_000_000_000

  /** The times after a cutoff, in order. */
  function After(times: seq<int>, cutoff: int): seq<int> {
    if times == [] then []
    else After(times[..|times| - 1], cutoff) + if cutoff < times[|times| - 1] then [times[|times| - 1]] else []
  }

  /** The times in the one-minute window that ends at `end`. */
  function InWindow(times: seq<int>, end: int): seq<int> {
    if times == [] then []
    else
      var t := times[|times| - 1];
      InWindow(times[..|times| - 1], end) + if end - MINUTE < t <= end then [t] else []
  }

  /** Deciding from the full history of allowed requests. */
  predicate Admits(perMin: int, history: seq<int>, now: int) {
    |After(history, now - MINUTE)| < perMin
  }

  predicate Ordered(times: seq<int>) {
    forall i, j :: 0 <= i < j < |times| ==> times[i] <= times[j]
  }

  /** A history in which each request was admitted by those before it. */
  predicate Admitted(perMin: int, history: seq<int>) {
    history == [] ||
    (Admitted(perMin, history[..|history| - 1])
     && Admits(perMin, history[..|history| - 1], history[|history| - 1]))
  }

  /** Which positions of a log are kept: those of the times later than the cutoff, in order. */
  predicate KeptAt(times: seq<int>, cutoff: int, kept: seq<int>, at: seq<nat>) {
    && |at| == |kept|
    && (forall i :: 0 <= i < |at| ==> at[i] < |times| && kept[i] == times[at[i]] && cutoff < kept[i])
    && (forall i, j :: 0 <= i < j < |at| ==> at[i] < at[j])
    && (forall p: nat :: p < |times| && cutoff < times[p] ==> p in at)
  }

  /** A time is kept exactly when it is later than the cutoff, and the kept ones stay in order. */
  lemma {:induction false} AfterKeepsTheLater(times: seq<int>, cutoff: int)
    ensures exists at: seq<nat> :: KeptAt(times, cutoff, After(times, cutoff), at)
  {
    hide KeptAt;
    if times == [] {
      KeptNone(cutoff);
    } else {
      var init, t := times[..|times| - 1], times[|times| - 1];
      AfterKeepsTheLater(init, cutoff);
      var at: seq<nat> :| KeptAt(init, cutoff, After(init, cutoff), at);
      assert times == init + [t];
      if cutoff < t {
        KeptOneMore(init, t, cutoff, After(init, cutoff), at);
        assert After(times, cutoff) == After(init, cutoff) + [t];
        assert KeptAt(times, cutoff, After(times, cutoff), at + [|init|]);
      } else {
        KeptNoMore(init, t, cutoff, After(init, cutoff), at);
        assert After(times, cutoff) == After(init, cutoff);
        assert KeptAt(times, cutoff, After(times, cutoff), at);
      }
    }
  }

  lemma KeptNone(cutoff: int)
    ensures KeptAt([], cutoff, After([], cutoff), [])
  {
  }

  lemma KeptOneMore(times: seq<int>, t: int, cutoff: int, kept: seq<int>, at: seq<nat>)
    requires KeptAt(times, cutoff, kept, at) && cutoff < t
    ensures KeptAt(times + [t], cutoff, kept + [t], at + [|times|])
  {
    var all, at' := times + [t], at + [|times|];
    assert at'[|at|] == |times|;
    forall p: nat | p < |all| && cutoff < all[p]
      ensures p in at'
    {
      if p < |times| {
        assert times[p] == all[p];
        assert p in at;
      }
    }
  }

  lemma KeptNoMore(times: seq<int>, t: int, cutoff: int, kept: seq<int>, at: seq<nat>)
    requires KeptAt(times, cutoff, kept, at) && t <= cutoff
    ensures KeptAt(times + [t], cutoff, kept, at)
  {
    var all := times + [t];
    forall p: nat | p < |all| && cutoff < all[p]
      ensures p in at
    {
      assert times[p] == all[p];
    }
  }

  /** The times from position k on are the ones later than the cutoff. */
  predicate LaterFrom(times: seq<int>, cutoff: int, k: nat) {
    k <= |times| && forall i :: 0 <= i < |times| ==> (cutoff < times[i] <==> k <= i)
  }

  /** In an ordered log the kept times are its last ones. */
  lemma {:induction false} AfterIsSuffix(times: seq<int>, cutoff: int) returns (k: nat)
    requires Ordered(times)
    ensures LaterFrom(times, cutoff, k) && After(times, cutoff) == times[k..]
  {
    k := 0;
    if times != [] {
      var init := times[..|times| - 1];
      k := AfterIsSuffix(init, cutoff);
      k := OneMoreTime(init, times[|times| - 1], cutoff, k);
      assert times == init + [times[|times| - 1]];
    }
  }

  lemma {:induction false} OneMoreTime(times: seq<int>, t: int, cutoff: int, k: nat) returns (k': nat)
    requires Ordered(times + [t]) && LaterFrom(times, cutoff, k)
    ensures LaterFrom(times + [t], cutoff, k')
    ensures times[k..] + (if cutoff < t then [t] else []) == (times + [t])[k'..]
  {
    k' := if cutoff < t then k else |times| + 1;
    assert forall i :: 0 <= i < |times| ==> (times + [t])[i] == times[i];
    assert (times + [t])[|times|] == t;
    assert k < |times| ==> (times + [t])[k] <= (times + [t])[|times|];
  }

  /** The last n times are the ones of the last minute, 60 seconds to the nanosecond. */
  predicate InLastMinute(history: seq<int>, n: nat, now: int) {
    n <= |history| &&
    forall i :: 0 <= i < |history| ==> (now - 60_000_000_000 < history[i] <==> |history| - n <= i)
  }

  /** A request is refused exactly when the last minute already holds perMin allowed ones. */
  lemma {:induction false} RefusedExactlyWhen(perMin: int, history: seq<int>, now: int)
    requires Ordered(history)
    ensures exists n: nat :: InLastMinute(history, n, now) && (!Admits(perMin, history, now) <==> perMin <= n)
  {
    var k := AfterIsSuffix(history, now - MINUTE);
    assert InLastMinute(history, |history| - k, now);
  }

  lemma {:induction false} AfterAfter(times: seq<int>, c: int, d: int)
    requires c <= d
    ensures After(After(times, c), d) == After(times, d)
  {
    if times != [] {
      var init, t := times[..|times| - 1], times[|times| - 1];
      AfterAfter(init, c, d);
      if c < t {
        assert After(times, c)[..|After(init, c)|] == After(init, c);
      } else {
        assert After(times, c) == After(init, c);
      }
    }
  }

  lemma {:induction false} WindowWithinRecent(times: seq<int>, end: int, now: int)
    requires now <= end
    ensures |InWindow(times, end)| <= |After(times, now - MINUTE)|
    requires forall i :: 0 <= i < |times| ==> times[i] <= now
  {
    // a time after end - MINUTE is after now - MINUTE
    if times != [] {
      WindowWithinRecent(times[..|times| - 1], end, now);
    }
  }

  /** No one-minute window holds more allowed requests than the limit. */
  lemma {:induction false} NeverAboveLimit(perMin: int, history: seq<int>, end: int)
    requires Admitted(perMin, history) && Ordered(history)
    ensures |InWindow(history, end)| <= if perMin < 0 then 0 else perMin
  {
    if history != [] {
      var before, t := history[..|history| - 1], history[|history| - 1];
      NeverAboveLimit(perMin, before, end);
      if end - MINUTE < t <= end {
        WindowWithinRecent(before, end, t);
      }
    }
  }

  /** Every allowed request of a key, and the cutoff its log was last pruned at. */
  datatype Past = Past(history: seq<int>, cutoff: int)

  class RateLimiter {
    const perMin: int
    var hits: map<string, seq<int>>
    ghost var past: map<string, Past>

    constructor (perMin: int)
      ensures Valid() && this.perMin == perMin && past == map[]
    {
      this.perMin := perMin;
      hits, past := map[], map[];
    }

    ghost function History(key: string): seq<int>
      reads this
    {
      if key in past then past[key].history else []
    }

    function Log(key: string): seq<int>
      reads this
    {
      if key in hits then hits[key] else []
    }

    /**
     * The kept log is the history after the last cutoff, which no later request will look behind; and
     * each request in the history was admitted by those before it.
     */
    ghost predicate Valid()
      reads this
    {
      && hits.Keys == past.Keys
      && (forall key :: key in hits ==> hits[key] == After(past[key].history, past[key].cutoff))
      && (forall key :: key in past ==> Admitted(perMin, past[key].history) && Ordered(past[key].history))
    }

    /** The clock has not gone back since the key was last seen. */
    ghost predicate ClockAhead(key: string, now: int)
      reads this
    {
      key in past ==> past[key].cutoff <= now - MINUTE && NoneLater(past[key].history, now)
    }

    /** The pruned log decides as the full history would. */
    method Allow(key: string, now: int) returns (ok: bool)
      requires Valid() && ClockAhead(key, now)
      modifies this
      ensures Valid() && ClockAhead(key, now)
      ensures ok <==> Admits(perMin, old(History(key)), now)
      ensures past == old(past)[key := Past(if ok then old(History(key)) + [now] else old(History(key)), now - MINUTE)]
    {
      hide After, Admits, Admitted, Ordered, NoneLater;
      var cutoff := now - MINUTE;
      var kept := Kept(Log(key), cutoff);
      ghost var h := History(key);
      PrunedLog(key, cutoff);
      AdmitsIs(perMin, h, now);
      NoneIsLater(now);
      NothingYet(perMin);
      AdmittedExtends(perMin, h, now);
      LoggedNow(h, now);
      if perMin <= |kept| {
        hits := hits[key := kept];
        ok := false;
      } else {
        hits := hits[key := kept + [now]];
        ok := true;
      }
      past := past[key := Past(if ok then h + [now] else h, cutoff)];
    }

    /** Whatever was asked of it, the limiter has let through at most perMin requests of a key in any minute. */
    lemma {:induction false} NeverAbovePerMin(key: string, end: int)
      requires Valid()
      ensures |InWindow(History(key), end)| <= if perMin < 0 then 0 else perMin
    {
      hide After, InWindow, Admitted, Ordered;
      NothingInWindow(end);
      if key in past {
        NeverAboveLimit(perMin, past[key].history, end);
      }
    }

    /** The loop that filters the log. */
    method Kept(log: seq<int>, cutoff: int) returns (kept: seq<int>)
      ensures kept == After(log, cutoff)
    {
      kept := [];
      var i := 0;
      while i < |log|
        invariant 0 <= i <= |log|
        invariant kept == After(log[..i], cutoff)
      {
        assert log[..i + 1][..i] == log[..i];
        if cutoff < log[i] {
          kept := kept + [log[i]];
        }
        i := i + 1;
      }
      assert log[..i] == log;
    }

    /** Pruning the log again gives the history after the new cutoff. */
    lemma {:induction false} PrunedLog(key: string, cutoff: int)
      requires Valid() && (key in past ==> past[key].cutoff <= cutoff)
      ensures After(Log(key), cutoff) == After(History(key), cutoff)
    {
      if key in hits {
        AfterAfter(past[key].history, past[key].cutoff, cutoff);
      }
    }
  }

  lemma {:induction false} AdmitsIs(perMin: int, h: seq<int>, now: int)
    ensures Admits(perMin, h, now) <==> |After(h, now - MINUTE)| < perMin
  {
  }

  predicate NoneLater(times: seq<int>, now: int) {
    forall i :: 0 <= i < |times| ==> times[i] <= now
  }

  lemma {:induction false} NoneIsLater(now: int)
    ensures NoneLater([], now)
  {
  }

  lemma {:induction false} AdmittedExtends(perMin: int, h: seq<int>, now: int)
    requires NoneLater(h, now)
    ensures Admitted(perMin, h) && Admits(perMin, h, now) ==> Admitted(perMin, h + [now])
    ensures Ordered(h) ==> Ordered(h + [now])
    ensures NoneLater(h + [now], now)
  {
    assert (h + [now])[..|h|] == h;
  }

  lemma {:induction false} NothingInWindow(end: int)
    ensures InWindow([], end) == []
  {
  }

  lemma {:induction false} NothingYet(perMin: int)
    ensures Admitted(perMin, []) && Ordered([])
  {
  }

  lemma {:induction false} LoggedNow(h: seq<int>, now: int)
    ensures After(h + [now], now - MINUTE) == After(h, now - MINUTE) + [now]
  {
    assert (h + [now])[..|h|] == h;
  }
}
