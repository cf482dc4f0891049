// The two meters of a transfer: the engine's count of served bytes
// (crates/core/src/transfer/engine/events.rs) and the progress lines printed where
// there is no terminal (crates/cli/src/ui.rs, `PlainBar`).
module Meters {
  // ----- served bytes ------------------------------------------------------------------

  datatype Update = Started | Progress(endOffset: nat) | Completed(payload: nat) | Aborted

  function Saturating(a: nat, b: nat): nat {
    if a >= b then a - b else 0
  }

  /** What an update adds to the count, after an offset. */
  function Delta(lastOffset: nat, update: Update): nat {
    match update
    case Progress(end) => Saturating(end, lastOffset)
    case Completed(payload) => Saturating(payload, lastOffset)
    case _ => 0
  }

  /** What the updates of one request leave as its last offset. */
  function LastOffset(updates: seq<Update>): nat {
    if updates == [] then 0
    else
      var last := updates[|updates| - 1];
      if last.Progress? then last.endOffset else LastOffset(updates[..|updates| - 1])
  }

  /** What one request adds to the count. */
  function Contribution(updates: seq<Update>): nat {
    if updates == [] then 0
    else
      var earlier, last := updates[..|updates| - 1], updates[|updates| - 1];
      Contribution(earlier) + Delta(LastOffset(earlier), last)
  }

  /** What all requests together add, for the updates of each. */
  function Contributions(streams: seq<seq<Update>>): nat {
    if streams == [] then 0
    else Contributions(streams[..|streams| - 1]) + Contribution(streams[|streams| - 1])
  }

  lemma AddedUpdate(updates: seq<Update>, update: Update)
    ensures Contribution(updates + [update]) == Contribution(updates) + Delta(LastOffset(updates), update)
    ensures LastOffset(updates + [update]) == if update.Progress? then update.endOffset else LastOffset(updates)
  {
    assert (updates + [update])[..|updates|] == updates;
  }

  /** Whatever came before: between two offsets a request adds what the second is ahead of
      the first, if it is; and a completion what the payload is ahead of the last. */
  lemma RiseAfter(updates: seq<Update>, offset: nat, next: nat)
    ensures var before := updates + [Progress(offset)];
      && Contribution(before + [Progress(next)]) == Contribution(before) + (if next > offset then next - offset else 0)
      && Contribution(before + [Completed(next)]) == Contribution(before) + (if next > offset then next - offset else 0)
      && Contribution(before + [Aborted]) == Contribution(before)
  {
    AddedUpdate(updates, Progress(offset));
    AddedUpdate(updates + [Progress(offset)], Progress(next));
    AddedUpdate(updates + [Progress(offset)], Completed(next));
    AddedUpdate(updates + [Progress(offset)], Aborted);
  }

  /** What happens to one request does not change what the others have added. */
  lemma {:induction false} OnlyItsOwn(streams: seq<seq<Update>>, request: nat, updates: seq<Update>)
    requires request < |streams|
    ensures Contributions(streams[request := updates]) + Contribution(streams[request]) ==
            Contributions(streams) + Contribution(updates)
  {
    var n := |streams| - 1;
    var changed := streams[request := updates];
    if request == n {
      assert changed[..n] == streams[..n];
    } else {
      OnlyItsOwn(streams[..n], request, updates);
      assert changed[..n] == streams[..n][request := updates];
    }
  }

  /** A well-behaved stream: offsets that do not go down nor exceed the payload. */
  predicate Orderly(updates: seq<Update>, payload: nat) {
    if updates == [] then true
    else
      var earlier, last := updates[..|updates| - 1], updates[|updates| - 1];
      && Orderly(earlier, payload)
      && !last.Completed?
      && (last.Progress? ==> LastOffset(earlier) <= last.endOffset <= payload)
  }

  /** A well-behaved request has contributed its last offset, which its completion
      tops up to exactly the payload it sent. */
  lemma {:induction false} OrderlyRequest(updates: seq<Update>, payload: nat)
    requires Orderly(updates, payload)
    ensures Contribution(updates) == LastOffset(updates) <= payload
    ensures Contribution(updates + [Completed(payload)]) == payload
  {
    if updates == [] {
    } else {
      OrderlyRequest(updates[..|updates| - 1], payload);
    }
    AddedUpdate(updates, Completed(payload));
  }

  /** A well-behaved request that has completed. */
  predicate Finished(updates: seq<Update>, payload: nat) {
    && updates != [] && updates[|updates| - 1] == Completed(payload)
    && Orderly(updates[..|updates| - 1], payload)
  }

  function Sum(payloads: seq<nat>): nat {
    if payloads == [] then 0 else Sum(payloads[..|payloads| - 1]) + payloads[|payloads| - 1]
  }

  /** With well-behaved requests the count never exceeds the payloads, and it is their
      sum once all requests have completed. */
  lemma {:induction false} ServedIsSent(streams: seq<seq<Update>>, payloads: seq<nat>)
    requires |streams| == |payloads|
    requires forall r :: 0 <= r < |streams| ==> Orderly(streams[r], payloads[r]) || Finished(streams[r], payloads[r])
    ensures Contributions(streams) <= Sum(payloads)
    ensures (forall r :: 0 <= r < |streams| ==> Finished(streams[r], payloads[r])) ==> Contributions(streams) == Sum(payloads)
  {
    if streams == [] {
    } else {
      var n := |streams| - 1;
      var updates, payload := streams[n], payloads[n];
      ServedIsSent(streams[..n], payloads[..n]);
      if Finished(updates, payload) {
        OrderlyRequest(updates[..|updates| - 1], payload);
        assert updates == updates[..|updates| - 1] + [Completed(payload)];
      } else {
        OrderlyRequest(updates, payload);
      }
    }
  }

  /** The shared counter, with the last offset that the task of each request keeps. */
  class ServedCounter {
    var served: nat
    var lastOffsets: seq<nat>
    ghost var streams: seq<seq<Update>>   // the updates of each request so far

    /** However the requests interleave, the count is the sum of what each adds. */
    ghost predicate Valid()
      reads this
    {
      && served == Contributions(streams)
      && |lastOffsets| == |streams|
      && forall r :: 0 <= r < |streams| ==> lastOffsets[r] == LastOffset(streams[r])
    }

    constructor ()
      ensures Valid() && served == 0 && streams == []
    {
      served, lastOffsets, streams := 0, [], [];
    }

    /** A request begins, with a task of its own. */
    method Begin() returns (request: nat)
      requires Valid()
      modifies this`lastOffsets, this`streams
      ensures Valid() && request == |old(streams)| && streams == old(streams) + [[]]
    {
      request := |lastOffsets|;
      assert (streams + [[]])[..|streams|] == streams;
      lastOffsets, streams := lastOffsets + [0], streams + [[]];
    }

    /** The task of a request takes an update, between any others. */
    method Take(request: nat, update: Update)
      requires Valid() && request < |streams|
      modifies this
      ensures Valid() && streams == old(streams)[request := old(streams)[request] + [update]]
      ensures served >= old(served)
    {
      OnlyItsOwn(streams, request, streams[request] + [update]);
      AddedUpdate(streams[request], update);
      match update {
        case Progress(end) =>
          served := served + Saturating(end, lastOffsets[request]);
          lastOffsets := lastOffsets[request := end];
        case Completed(payload) =>
          served := served + Saturating(payload, lastOffsets[request]);
        case Started =>
        case Aborted =>
      }
      streams := streams[request := streams[request] + [update]];
    }
  }

  // ----- progress lines ----------------------------------------------------------------

  const STEP_PERCENT := 5
  const U64_MAX := 0xFFFF_FFFF_FFFF_FFFF

  lemma Division(n: nat, d: nat)
    requires d > 0
    ensures n / d * d <= n < (n / d + 1) * d
  {
    assert n == n / d * d + n % d;
  }

  class PlainBar {
    const total: nat
    var lastReported: nat
    ghost var lines: seq<nat>   // the positions that got a line

    function Percent(position: nat): nat
      requires total > 0
    {
      position * 100 / total
    }

    /** At most nineteen lines before the total, and one for it. */
    ghost predicate Valid()
      reads this
    {
      && total * 100 <= U64_MAX && lastReported <= total
      && (total == 0 ==> lines == [])
      && (total > 0 && lastReported < total ==> STEP_PERCENT * |lines| <= Percent(lastReported))
      && |lines| <= 20
      && (total > 0 && lastReported == total <==> total in lines)
    }

    constructor (total: nat)
      requires total * 100 <= U64_MAX
      ensures Valid() && this.total == total && lines == []
    {
      this.total := total;
      lastReported, lines := 0, [];
    }

    /** Whether a position gets a line. Nothing follows the line for the total, and
        every other line is a step ahead of the one before. */
    method ReportLine(position: nat) returns (line: bool)
      requires Valid() && position <= total
      modifies this`lastReported, this`lines
      ensures Valid()
      ensures total in old(lines) ==> !line
      ensures line ==> lines == old(lines) + [position] && old(lastReported) < position == lastReported
      ensures !line ==> lines == old(lines) && lastReported == old(lastReported)
      ensures position == total > 0 ==> total in lines
      ensures !line && total > 0 ==> position == total || Percent(position) < Percent(lastReported) + 5
      ensures line ==> position == total || Percent(position) >= Percent(old(lastReported)) + 5
    {
      if total == 0 || position == lastReported {
        return false;
      }
      PercentBounds(position);
      PercentBounds(lastReported);
      if position < lastReported {
        PercentMonotone(position, lastReported);
      }
      if position >= total || Percent(position) >= Percent(lastReported) + STEP_PERCENT {
        lastReported := position;
        lines := lines + [position];
        return true;
      }
      line := false;
    }

    lemma PercentBounds(position: nat)
      requires total > 0 && position <= total
      ensures Percent(position) <= 100 && (Percent(position) == 100 <==> position == total)
    {
    }

    /** The percentage is rounded down. */
    lemma PercentRounds(position: nat)
      requires total > 0
      ensures Percent(position) * total <= position * 100 < (Percent(position) + 1) * total
    {
      Division(position * 100, total);
    }

    lemma PercentMonotone(low: nat, high: nat)
      requires total > 0 && low <= high
      ensures Percent(low) <= Percent(high)
    {
      var p, q := Percent(low), Percent(high);
      assert p > q ==> p * total >= (q + 1) * total;
    }
  }
}
