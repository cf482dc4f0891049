// The sliding-window rate limiter (crates/rendezvous/src/mailbox.rs, `RateLimiter`).
module RateLimiters {
  type Ip = string
  type Time = nat

  const WINDOW := 60

  /** `now.duration_since(t)`, which is zero for a later `t`. */
  function Since(now: Time, t: Time): nat {
    if now >= t then now - t else 0
  }

  /** The deque once its stale front is gone. */
  function Prune(window: seq<Time>, now: Time): seq<Time> {
    if window == [] || Since(now, window[0]) < WINDOW then window else Prune(window[1..], now)
  }

  /** Whatever the clock does: pruning drops the times from the front that are 60 s old or
      older, up to the first that is not. */
  lemma {:induction false} PruneExactly(window: seq<Time>, now: Time) returns (k: nat)
    ensures k <= |window| && Prune(window, now) == window[k..]
    ensures forall i :: 0 <= i < k ==> now >= window[i] + 60
    ensures k < |window| ==> now < window[k] + 60
    decreases |window|
  {
    if window == [] || Since(now, window[0]) < WINDOW {
      k := 0;
    } else {
      var rest := PruneExactly(window[1..], now);
      k := rest + 1;
      assert window[1..][rest..] == window[k..];
    }
  }

  function Checked(window: seq<Time>, limit: nat, now: Time): seq<Time> {
    var w := Prune(window, now);
    if |w| >= limit then w else w + [now]
  }

  datatype Call = Call(ip: Ip, now: Time)

  /** The deque of `ip` after the calls. */
  function Window(calls: seq<Call>, limit: nat, ip: Ip): seq<Time> {
    if calls == [] then []
    else
      var n := |calls| - 1;
      var w := Window(calls[..n], limit, ip);
      if calls[n].ip == ip then Checked(w, limit, calls[n].now) else w
  }

  class RateLimiter {
    const limit: nat
    var entries: map<Ip, seq<Time>>
    ghost var calls: seq<Call>

    ghost predicate Valid()
      reads this
    {
      forall ip :: (if ip in entries then entries[ip] else []) == Window(calls, limit, ip)
    }

    constructor (limit: nat)
      ensures Valid() && this.limit == limit && calls == []
    {
      this.limit := limit;
      entries := map[];
      calls := [];
    }

    /** One access. A rejected access is not recorded. */
    method Check(ip: Ip, now: Time) returns (ok: bool)
      requires Valid()
      modifies this
      ensures Valid() && calls == old(calls) + [Call(ip, now)]
      ensures ok <==> |Prune(Window(old(calls), limit, ip), now)| < limit
      ensures NonDecreasing(old(calls)) && By(old(calls), now) ==>
                (ok <==> InWindow(Accepted(old(calls), limit, ip), now) < limit)
    {
      if NonDecreasing(calls) && By(calls, now) {
        RefinesFullLog(calls, limit, ip, now);
      }
      var window := if ip in entries then entries[ip] else [];
      ghost var before := window;
      while window != [] && Since(now, window[0]) >= WINDOW
        invariant Prune(window, now) == Prune(before, now)
      {
        window := window[1..];
      }
      ok := |window| < limit;
      if ok {
        window := window + [now];
      }
      entries := entries[ip := window];
      assert (calls + [Call(ip, now)])[..|calls|] == calls;
      calls := calls + [Call(ip, now)];
    }
  }

  // ----- the full log ----------------------------------------------------------------

  /** The times of all accepted calls of `ip`, none ever forgotten. */
  function Accepted(calls: seq<Call>, limit: nat, ip: Ip): seq<Time> {
    if calls == [] then []
    else
      var n := |calls| - 1;
      var log := Accepted(calls[..n], limit, ip);
      if calls[n].ip == ip && |Prune(Window(calls[..n], limit, ip), calls[n].now)| < limit
      then log + [calls[n].now]
      else log
  }

  /** How many of the times lie in the half-open window of 60 s that ends with `t`. */
  function InWindow(log: seq<Time>, t: Time): nat {
    if log == [] then 0
    else
      var n := |log| - 1;
      InWindow(log[..n], t) + if log[n] <= t < log[n] + 60 then 1 else 0
  }

  predicate Ascending(times: seq<Time>) {
    forall i, j :: 0 <= i < j < |times| ==> times[i] <= times[j]
  }

  predicate NonDecreasing(calls: seq<Call>) {
    forall i, j :: 0 <= i < j < |calls| ==> calls[i].now <= calls[j].now
  }

  predicate AtMost(times: seq<Time>, now: Time) {
    forall i :: 0 <= i < |times| ==> times[i] <= now
  }

  /** All calls so far were made by `now`. */
  predicate By(calls: seq<Call>, now: Time) {
    forall i :: 0 <= i < |calls| ==> calls[i].now <= now
  }

  /** `window` is what is left of `log` when times from before `now` minus 60 s have
      been dropped, and perhaps some are still to be dropped. */
  predicate Suffix(log: seq<Time>, window: seq<Time>, now: Time) {
    && |window| <= |log|
    && (forall i :: 0 <= i < |window| ==> window[i] == log[|log| - |window| + i])
    && forall i :: 0 <= i < |log| - |window| ==> now >= log[i] + WINDOW
  }

  lemma {:induction false} PruneSuffix(log: seq<Time>, window: seq<Time>, now: Time)
    requires Suffix(log, window, now)
    ensures Suffix(log, Prune(window, now), now)
    ensures Prune(window, now) != [] ==> Since(now, Prune(window, now)[0]) < WINDOW
    decreases |window|
  {
    if window == [] || Since(now, window[0]) < WINDOW {
    } else {
      assert log[|log| - |window|] == window[0];
      PruneSuffix(log, window[1..], now);
    }
  }

  lemma SuffixSnoc(log: seq<Time>, window: seq<Time>, now: Time)
    requires Suffix(log, window, now)
    ensures Suffix(log + [now], window + [now], now)
  {
  }

  /** The deque is the recent end of the full log. */
  lemma {:induction false} WindowSuffix(calls: seq<Call>, limit: nat, ip: Ip, now: Time)
    requires NonDecreasing(calls) && By(calls, now)
    ensures Suffix(Accepted(calls, limit, ip), Window(calls, limit, ip), now)
  {
    if calls == [] {
    } else {
      var n := |calls| - 1;
      var last := calls[n].now;
      CallsBefore(calls);
      WindowSuffix(calls[..n], limit, ip, last);
      SuffixStep(calls, limit, ip);
      SuffixLater(Accepted(calls, limit, ip), Window(calls, limit, ip), last, now);
    }
  }

  lemma SuffixStep(calls: seq<Call>, limit: nat, ip: Ip)
    requires calls != []
    requires var n := |calls| - 1;
      Suffix(Accepted(calls[..n], limit, ip), Window(calls[..n], limit, ip), calls[n].now)
    ensures Suffix(Accepted(calls, limit, ip), Window(calls, limit, ip), calls[|calls| - 1].now)
  {
    var n := |calls| - 1;
    var log, window, last := Accepted(calls[..n], limit, ip), Window(calls[..n], limit, ip), calls[n].now;
    PruneSuffix(log, window, last);
    SuffixSnoc(log, Prune(window, last), last);
  }

  lemma SuffixLater(log: seq<Time>, window: seq<Time>, now: Time, later: Time)
    requires Suffix(log, window, now) && now <= later
    ensures Suffix(log, window, later)
  {
  }

  lemma CallsBefore(calls: seq<Call>)
    requires NonDecreasing(calls) && calls != []
    ensures NonDecreasing(calls[..|calls| - 1]) && By(calls[..|calls| - 1], calls[|calls| - 1].now)
  {
  }

  lemma {:induction false} AcceptedAtMost(calls: seq<Call>, limit: nat, ip: Ip, now: Time)
    requires By(calls, now)
    ensures AtMost(Accepted(calls, limit, ip), now)
  {
    if calls == [] {
    } else {
      AcceptedAtMost(calls[..|calls| - 1], limit, ip, now);
    }
  }

  lemma {:induction false} AcceptedAscending(calls: seq<Call>, limit: nat, ip: Ip)
    requires NonDecreasing(calls)
    ensures Ascending(Accepted(calls, limit, ip))
  {
    if calls == [] {
    } else {
      var n := |calls| - 1;
      CallsBefore(calls);
      AcceptedAscending(calls[..n], limit, ip);
      AcceptedAtMost(calls[..n], limit, ip, calls[n].now);
    }
  }

  /** Old times do not count, recent ones all do. */
  lemma {:induction false} CountOld(log: seq<Time>, t: Time)
    requires forall i :: 0 <= i < |log| ==> t >= log[i] + WINDOW
    ensures InWindow(log, t) == 0
  {
    if log == [] {
    } else {
      CountOld(log[..|log| - 1], t);
    }
  }

  lemma {:induction false} CountSuffix(log: seq<Time>, k: nat, t: Time)
    requires k <= |log| && forall i :: 0 <= i < k ==> t >= log[i] + WINDOW
    requires forall i :: k <= i < |log| ==> log[i] <= t < log[i] + WINDOW
    ensures InWindow(log, t) == |log| - k
  {
    var n := |log| - 1;
    if k == |log| {
      CountOld(log, t);
    } else {
      assert forall i :: 0 <= i < n ==> log[..n][i] == log[i];
      CountSuffix(log[..n], k, t);
    }
  }

  /** What the pruned deque decides is what the full log says: a call is accepted
      exactly if fewer than `limit` accepted calls of that address are younger than
      60 s. */
  lemma RefinesFullLog(calls: seq<Call>, limit: nat, ip: Ip, now: Time)
    requires NonDecreasing(calls) && By(calls, now)
    ensures |Prune(Window(calls, limit, ip), now)| == InWindow(Accepted(calls, limit, ip), now)
  {
    var log, w := Accepted(calls, limit, ip), Prune(Window(calls, limit, ip), now);
    WindowSuffix(calls, limit, ip, now);
    AcceptedAscending(calls, limit, ip);
    AcceptedAtMost(calls, limit, ip, now);
    PruneSuffix(log, Window(calls, limit, ip), now);
    var k := |log| - |w|;
    forall i | k <= i < |log| ensures log[i] <= now < log[i] + WINDOW {
      assert log[i] == w[i - k] && log[k] == w[0];
    }
    CountSuffix(log, k, now);
  }

  lemma {:induction false} CountMonotone(log: seq<Time>, now: Time, t: Time)
    requires now <= t && AtMost(log, now)
    ensures InWindow(log, t) <= InWindow(log, now)
  {
    if log == [] {
    } else {
      var n := |log| - 1;
      CountMonotone(log[..n], now, t);
    }
  }

  /** No 60 s window, wherever it ends, holds more than `limit` accepted calls of one
      address. */
  lemma {:induction false} NeverTooMany(calls: seq<Call>, limit: nat, ip: Ip, t: Time)
    requires NonDecreasing(calls)
    ensures InWindow(Accepted(calls, limit, ip), t) <= limit
  {
    if calls == [] {
    } else {
      var n := |calls| - 1;
      var init, last := calls[..n], calls[n].now;
      CallsBefore(calls);
      NeverTooMany(init, limit, ip, t);
      if Accepted(calls, limit, ip) != Accepted(init, limit, ip) && last <= t {
        var log := Accepted(init, limit, ip);
        RefinesFullLog(init, limit, ip, last);
        AcceptedAtMost(init, limit, ip, last);
        CountMonotone(log, last, t);
        assert (log + [last])[..|log|] == log;
      }
      CountOne(Accepted(init, limit, ip), last, t);
    }
  }

  lemma CountOne(log: seq<Time>, now: Time, t: Time)
    ensures InWindow(log + [now], t) == InWindow(log, t) + if now <= t < now + WINDOW then 1 else 0
  {
    assert (log + [now])[..|log|] == log;
  }

  /** The calls of one address. */
  function Own(calls: seq<Call>, ip: Ip): seq<Call> {
    if calls == [] then []
    else
      var n := |calls| - 1;
      if calls[n].ip == ip then Own(calls[..n], ip) + [calls[n]] else Own(calls[..n], ip)
  }

  /** Addresses do not affect each other. */
  lemma {:induction false} AddressesIndependent(calls: seq<Call>, limit: nat, ip: Ip)
    ensures Window(calls, limit, ip) == Window(Own(calls, ip), limit, ip)
    ensures Accepted(calls, limit, ip) == Accepted(Own(calls, ip), limit, ip)
  {
    if calls == [] {
    } else {
      var n := |calls| - 1;
      AddressesIndependent(calls[..n], limit, ip);
      var own := Own(calls[..n], ip);
      assert (own + [calls[n]])[..|own|] == own;
    }
  }
}
