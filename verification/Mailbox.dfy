// The rendezvous mailbox (crates/rendezvous/src/mailbox.rs): nameplates, tickets,
// one-shot claims, expiry.
module Mailboxes {
  import opened Basics

  const NAMEPLATE_MIN := 1
  const NAMEPLATE_MAX := 9999

  type Nameplate = n: int | NAMEPLATE_MIN <= n <= NAMEPLATE_MAX witness NAMEPLATE_MIN
  type Ticket = string
  type Time = nat

  datatype Entry = Entry(ticket: Ticket, expiresAt: Time, claimed: bool)
  type Entries = map<Nameplate, Entry>

  datatype PairState = Pending | Claimed | Expired
  /** `Gone` is the claim of an expired entry. */
  datatype ClaimError = NotFound | Gone

  function ClaimAnswer(entries: Entries, np: Nameplate, now: Time): Result<Ticket, ClaimError> {
    if np !in entries then Err(NotFound)
    else if now >= entries[np].expiresAt then Err(Gone)
    else if entries[np].claimed then Err(NotFound)
    else Ok(entries[np].ticket)
  }

  function StatusAnswer(entries: Entries, np: Nameplate, now: Time): Option<PairState> {
    if np !in entries then None
    else if now >= entries[np].expiresAt then Some(Expired)
    else if entries[np].claimed then Some(Claimed)
    else Some(Pending)
  }

  function MarkClaimed(entries: Entries, np: Nameplate, now: Time): Entries {
    if ClaimAnswer(entries, np, now).Ok? then entries[np := entries[np].(claimed := true)] else entries
  }

  function Purge(entries: Entries, now: Time): Entries {
    map np | np in entries && entries[np].expiresAt > now :: entries[np]
  }

  class Mailbox {
    var entries: Entries
    ghost var log: seq<Event>

    ghost predicate Valid()
      reads this
    {
      Possible(log) && entries == After(log)
    }

    constructor ()
      ensures Valid() && log == []
    {
      entries := map[];
      log := [];
    }

    /** Store the ticket under the first free nameplate drawn. `draws` is what the
        random generator yields; the loop ends because it yields a free one. */
    method Allocate(ticket: Ticket, ttl: nat, now: Time, draws: seq<Nameplate>) returns (np: Nameplate)
      requires Valid()
      requires exists i :: 0 <= i < |draws| && draws[i] !in entries
      modifies this
      ensures Valid() && log == old(log) + [Allocated(np, ticket, now + ttl)]
      ensures np !in old(entries) && 1 <= np <= 9999
      ensures exists i :: 0 <= i < |draws| && draws[i] == np && forall k :: 0 <= k < i ==> draws[k] in old(entries)
    {
      var i := 0;
      while draws[i] in entries
        invariant 0 <= i < |draws|
        invariant forall k :: 0 <= k < i ==> draws[k] in entries
        decreases |draws| - i
      {
        assert exists k :: i < k < |draws| && draws[k] !in entries;
        i := i + 1;
      }
      np := draws[i];
      entries := entries[np := Entry(ticket, now + ttl, false)];
      Record(Allocated(np, ticket, now + ttl));
    }

    method Claim(np: Nameplate, now: Time) returns (r: Result<Ticket, ClaimError>)
      requires Valid()
      modifies this
      ensures Valid() && log == old(log) + [ClaimedAt(np, now)]
      ensures r == ClaimAnswer(old(entries), np, now)
      ensures ClaimMeans(old(log), np, now, r)
    {
      ClaimFromLog(log, np, now);
      r := Err(NotFound);
      if np in entries {
        var entry := entries[np];
        if now >= entry.expiresAt {
          r := Err(Gone);
        } else if !entry.claimed {
          entries := entries[np := entry.(claimed := true)];
          r := Ok(entry.ticket);
        }
      }
      Record(ClaimedAt(np, now));
    }

    method Status(np: Nameplate, now: Time) returns (r: Option<PairState>)
      requires Valid()
      ensures r == StatusAnswer(entries, np, now)
      ensures StatusMeans(log, np, now, r)
    {
      StatusMeaning(log, np, now);
      if np !in entries {
        return None;
      }
      var entry := entries[np];
      r := Some(if now >= entry.expiresAt then Expired else if entry.claimed then Claimed else Pending);
    }

    method PurgeExpired(now: Time) returns (removed: nat)
      requires Valid()
      modifies this
      ensures Valid() && log == old(log) + [PurgedAt(now)]
      ensures removed == |old(entries)| - |entries|
    {
      var before := |entries|;
      PurgeShrinks(entries, now);
      entries := map np | np in entries && entries[np].expiresAt > now :: entries[np];
      removed := before - |entries|;
      Record(PurgedAt(now));
    }

    ghost method Record(event: Event)
      requires Possible(log) && (event.Allocated? ==> event.np !in After(log))
      requires entries == After(log + [event])
      modifies this`log
      ensures Valid() && log == old(log) + [event]
    {
      assert (log + [event])[..|log|] == log;
      log := log + [event];
    }
  }

  lemma PurgeShrinks(entries: Entries, now: Time)
    ensures |Purge(entries, now)| <= |entries|
  {
    assert Purge(entries, now).Keys <= entries.Keys;
    SubsetCardinality(Purge(entries, now).Keys, entries.Keys);
  }

  // ----- the full log -------------------------------------------------------------

  /** What the server did, in order. `Allocated` carries the nameplate the random
      generator came up with. */
  datatype Event =
    | Allocated(np: Nameplate, ticket: Ticket, expiresAt: Time)
    | ClaimedAt(np: Nameplate, now: Time)
    | PurgedAt(now: Time)

  /** The entries after the events of the log. */
  function After(log: seq<Event>): Entries {
    if log == [] then map[]
    else
      var entries := After(log[..|log| - 1]);
      match log[|log| - 1]
      case Allocated(np, ticket, expiresAt) => entries[np := Entry(ticket, expiresAt, false)]
      case ClaimedAt(np, now) => MarkClaimed(entries, np, now)
      case PurgedAt(now) => Purge(entries, now)
  }

  /** Allocation never hands out a nameplate that is in use. */
  predicate Possible(log: seq<Event>) {
    if log == [] then true
    else
      var n := |log| - 1;
      Possible(log[..n]) && (log[n].Allocated? ==> log[n].np !in After(log[..n]))
  }

  /** The event claims a ticket with success, given the log before it. */
  predicate Succeeds(log: seq<Event>, i: nat)
    requires i < |log|
  {
    log[i].ClaimedAt? && ClaimAnswer(After(log[..i]), log[i].np, log[i].now).Ok?
  }

  /** The allocation that `np` stands for last. */
  function LastAllocation(log: seq<Event>, np: Nameplate): (r: Option<nat>)
    ensures r.Some? ==> r.value < |log| && log[r.value].Allocated? && log[r.value].np == np
    ensures r.Some? ==> forall k :: r.value < k < |log| && log[k].Allocated? ==> log[k].np != np
    ensures r.None? ==> forall k :: 0 <= k < |log| && log[k].Allocated? ==> log[k].np != np
  {
    if log == [] then None
    else
      var n := |log| - 1;
      if log[n].Allocated? && log[n].np == np then Some(n) else LastAllocation(log[..n], np)
  }

  /** Some claim of `np` has succeeded since event `k`. */
  predicate TakenSince(log: seq<Event>, np: Nameplate, k: nat) {
    exists i :: k < i < |log| && Succeeds(log, i) && log[i].np == np
  }

  lemma SucceedsPrefix(log: seq<Event>, n: nat, i: nat)
    requires i < n <= |log|
    ensures Succeeds(log[..n], i) <==> Succeeds(log, i)
  {
    assert log[..n][..i] == log[..i];
  }

  lemma TakenPrefix(log: seq<Event>, np: Nameplate, k: nat)
    requires log != [] && k < |log| - 1
    ensures var n := |log| - 1;
      TakenSince(log, np, k) <==> TakenSince(log[..n], np, k) || (Succeeds(log, n) && log[n].np == np)
  {
    var n := |log| - 1;
    forall i: nat | i < n ensures Succeeds(log[..n], i) <==> Succeeds(log, i) {
      SucceedsPrefix(log, n, i);
    }
    if i :| k < i < |log| && Succeeds(log, i) && log[i].np == np {
      if i < n {
        assert Succeeds(log[..n], i) && log[..n][i].np == np;
      }
    }
    if i :| k < i < n && Succeeds(log[..n], i) && log[..n][i].np == np {
      assert Succeeds(log, i) && log[i].np == np;
    }
  }

  /** An entry in the table is the last allocation of its nameplate, and it is marked
      claimed exactly if a claim has succeeded since. */
  lemma {:induction false} EntryMeaning(log: seq<Event>, np: Nameplate)
    requires Possible(log) && np in After(log)
    ensures LastAllocation(log, np).Some?
    ensures var k, e := LastAllocation(log, np).value, After(log)[np];
      log[k] == Allocated(np, e.ticket, e.expiresAt) && (e.claimed <==> TakenSince(log, np, k))
  {
    var n := |log| - 1;
    if log[n].Allocated? && log[n].np == np {
    } else {
      assert np in After(log[..n]);
      EntryMeaning(log[..n], np);
      TakenPrefix(log, np, LastAllocation(log, np).value);
    }
  }

  /** Two successful claims of one nameplate are claims of two allocations: there is
      an allocation between them. No ticket is handed out twice. */
  lemma OneShot(log: seq<Event>, i: nat, j: nat)
    requires Possible(log) && i < j < |log|
    requires Succeeds(log, i) && Succeeds(log, j) && log[i].np == log[j].np
    ensures exists k :: i < k < j && log[k].Allocated? && log[k].np == log[i].np
  {
    var np := log[j].np;
    PossiblePrefix(log, j);
    EntryMeaning(log[..j], np);
    var k := LastAllocation(log[..j], np).value;
    assert log[k].Allocated? && log[k].np == np;
    SucceedsPrefix(log, j, i);
    assert Succeeds(log[..j], i) && log[..j][i].np == np;
    TakenOrBefore(log[..j], np, k, i);
  }

  lemma TakenOrBefore(log: seq<Event>, np: Nameplate, k: nat, i: nat)
    requires i < |log| && Succeeds(log, i) && log[i].np == np
    ensures TakenSince(log, np, k) || i <= k
  {
  }

  lemma {:induction false} PossiblePrefix(log: seq<Event>, n: nat)
    requires Possible(log) && n <= |log|
    ensures Possible(log[..n])
    decreases |log|
  {
    if n < |log| {
      var init := log[..|log| - 1];
      PossiblePrefix(init, n);
      assert init[..n] == log[..n];
    } else {
      assert log[..n] == log;
    }
  }

  /** A purge since event `k` came after the expiry of the allocation it stands for. */
  predicate PurgedSince(log: seq<Event>, k: nat)
    requires k < |log| && log[k].Allocated?
  {
    exists i :: k < i < |log| && log[i].PurgedAt? && log[k].expiresAt <= log[i].now
  }

  lemma PurgedPrefix(log: seq<Event>, k: nat)
    requires log != [] && k < |log| - 1 && log[k].Allocated?
    ensures var n := |log| - 1;
      PurgedSince(log, k) <==> PurgedSince(log[..n], k) || (log[n].PurgedAt? && log[k].expiresAt <= log[n].now)
  {
    var n := |log| - 1;
    assert forall i :: 0 <= i < n ==> log[..n][i] == log[i];
  }

  /** The table holds exactly the nameplates that were allocated and not purged since
      they expired. */
  lemma {:induction false} InTable(log: seq<Event>, np: Nameplate)
    requires Possible(log)
    ensures np in After(log) <==> LastAllocation(log, np).Some? && !PurgedSince(log, LastAllocation(log, np).value)
  {
    var n := |log| - 1;
    if log == [] || (log[n].Allocated? && log[n].np == np) {
    } else {
      InTable(log[..n], np);
      if LastAllocation(log, np).Some? {
        PurgedPrefix(log, LastAllocation(log, np).value);
      }
      if np in After(log[..n]) {
        EntryMeaning(log[..n], np);
      }
    }
  }

  /** What a status says about the full log: not found is never allocated, or purged
      after it expired; expiry counts before claims; and claimed means that a claim
      has succeeded since the allocation. */
  predicate StatusMeans(log: seq<Event>, np: Nameplate, now: Time, r: Option<PairState>) {
    var last := LastAllocation(log, np);
    if last.None? || PurgedSince(log, last.value) then r == None
    else if log[last.value].expiresAt <= now then r == Some(Expired)
    else r == Some(if TakenSince(log, np, last.value) then Claimed else Pending)
  }

  lemma StatusMeaning(log: seq<Event>, np: Nameplate, now: Time)
    requires Possible(log)
    ensures StatusMeans(log, np, now, StatusAnswer(After(log), np, now))
  {
    InTable(log, np);
    if np in After(log) {
      EntryMeaning(log, np);
    }
  }

  /** What the answer to a claim says about the full log: a ticket is that of the last
      allocation, unexpired and not taken since; gone is expired and not yet purged; and
      not found is never allocated, purged after expiry, or taken and unexpired. */
  predicate ClaimMeans(log: seq<Event>, np: Nameplate, now: Time, r: Result<Ticket, ClaimError>) {
    var last := LastAllocation(log, np);
    if last.None? || PurgedSince(log, last.value) then r == Err(NotFound)
    else if log[last.value].expiresAt <= now then r == Err(Gone)
    else r == if TakenSince(log, np, last.value) then Err(NotFound) else Ok(log[last.value].ticket)
  }

  lemma ClaimFromLog(log: seq<Event>, np: Nameplate, now: Time)
    requires Possible(log)
    ensures ClaimMeans(log, np, now, ClaimAnswer(After(log), np, now))
  {
    InTable(log, np);
    if np in After(log) {
      EntryMeaning(log, np);
    }
  }

  /** Every purge so far happened no later than `now`. */
  predicate PurgesBy(log: seq<Event>, now: Time) {
    forall k :: 0 <= k < |log| && log[k].PurgedAt? ==> log[k].now <= now
  }

  /** Purging never removes what has not expired. */
  lemma LiveEntryStays(log: seq<Event>, np: Nameplate, now: Time)
    requires Possible(log) && PurgesBy(log, now) && LastAllocation(log, np).Some?
    requires log[LastAllocation(log, np).value].expiresAt > now
    ensures np in After(log)
  {
    InTable(log, np);
  }

  /** The compact table answers a claim as the full log does: with the ticket of the
      last allocation of that nameplate, if it has not expired and nobody has taken
      it; and with nothing else. The clock must not run backwards past a purge. */
  lemma ClaimMeaning(log: seq<Event>, np: Nameplate, now: Time, ticket: Ticket)
    requires Possible(log) && PurgesBy(log, now)
    ensures ClaimAnswer(After(log), np, now) == Ok(ticket) <==>
      exists k :: LastAllocation(log, np) == Some(k) && log[k].ticket == ticket && now < log[k].expiresAt
        && !TakenSince(log, np, k)
  {
    if np in After(log) {
      EntryMeaning(log, np);
    } else if LastAllocation(log, np).Some? && now < log[LastAllocation(log, np).value].expiresAt {
      LiveEntryStays(log, np, now);
    }
  }

  /** A purge removes exactly the entries that are reported as expired; afterwards
      the same questions get the same answers, but for those, which are not found. */
  lemma PurgeForgetsExpired(entries: Entries, np: Nameplate, purge: Time, now: Time)
    requires purge <= now
    ensures np in entries && np !in Purge(entries, purge) <==> StatusAnswer(entries, np, purge) == Some(Expired)
    ensures StatusAnswer(Purge(entries, purge), np, now) ==
      if StatusAnswer(entries, np, purge) == Some(Expired) then None else StatusAnswer(entries, np, now)
    ensures ClaimAnswer(Purge(entries, purge), np, now) ==
      if StatusAnswer(entries, np, purge) == Some(Expired) then Err(NotFound) else ClaimAnswer(entries, np, now)
    ensures StatusAnswer(entries, np, purge) == Some(Expired) ==> ClaimAnswer(entries, np, now) == Err(Gone)
  {
  }
}
