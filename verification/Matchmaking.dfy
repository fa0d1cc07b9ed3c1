/** The matchmaking queue. */
module Matchmaking {
  import opened Common

  type PlayerId = nat

  /** A queued player; enqueuedAt is a steady-clock reading in nanoseconds. */
  datatype Entry = Entry(player: PlayerId, elo: int, enqueuedAt: int)

  const MAX_QUEUE_SIZE := 10000
  const NANOS_PER_SECOND := 1000000000

  function Abs(n: int): nat { if n < 0 then -n else n }

  /** Whole seconds waited: durations convert by truncation towards zero. */
  function WaitSeconds(e: Entry, now: int): int {
    var nanos := now - e.enqueuedAt;
    if nanos >= 0 then nanos / NANOS_PER_SECOND else -(-nanos / NANOS_PER_SECOND)
  }

  /** The rating range an entry accepts widens by ten points for every second it has waited. */
  predicate InRange(waiting: Entry, other: Entry, now: int) {
    Abs(waiting.elo - other.elo) <= 100 + WaitSeconds(waiting, now) * 10
  }

  /** A rating is in range when it is at most 100 points off, and ten more for every whole second of waiting. */
  lemma InRangeExactlyWhen(waiting: Entry, other: Entry, now: int, seconds: nat)
    requires seconds * 1_000_000_000 <= now - waiting.enqueuedAt < (seconds + 1) * 1_000_000_000
    ensures InRange(waiting, other, now)
            <==> waiting.elo - (100 + 10 * seconds) <= other.elo <= waiting.elo + (100 + 10 * seconds)
  {}

  /** A clock that has gone back counts whole seconds too, and narrows the range. */
  lemma InRangeBackInTime(waiting: Entry, other: Entry, now: int, seconds: nat)
    requires seconds * 1_000_000_000 <= waiting.enqueuedAt - now < (seconds + 1) * 1_000_000_000
    ensures InRange(waiting, other, now)
            <==> waiting.elo - (100 - 10 * seconds) <= other.elo <= waiting.elo + (100 - 10 * seconds)
  {}

  /** Entries i < j may be paired: only the wait of the earlier one counts. */
  predicate Matches(entries: seq<Entry>, i: nat, j: nat, now: int) {
    i < j < |entries| && InRange(entries[i], entries[j], now)
  }

  /** (i, j) comes before (k, l) in the order of the two nested loops. */
  predicate Before(i: nat, j: nat, k: nat, l: nat) { i < k || (i == k && j < l) }

  predicate NoDuplicates(entries: seq<Entry>) {
    forall i, j :: 0 <= i < j < |entries| ==> entries[i].player != entries[j].player
  }

  predicate Queued(entries: seq<Entry>, player: PlayerId) {
    exists i :: 0 <= i < |entries| && entries[i].player == player
  }

  function WithoutPlayer(entries: seq<Entry>, player: PlayerId): (rest: seq<Entry>)
    ensures forall e :: e in rest <==> e in entries && e.player != player
    ensures |rest| <= |entries|
  {
    if entries == [] then []
    else (if entries[0].player == player then [] else [entries[0]]) + WithoutPlayer(entries[1..], player)
  }

  /** The queue without the entries at two positions, order kept. */
  function WithoutPair(entries: seq<Entry>, i: nat, j: nat): seq<Entry>
    requires i < j < |entries|
  {
    entries[..i] + entries[i + 1..j] + entries[j + 1..]
  }

  class MatchmakingQueue {
    var entries: seq<Entry>

    predicate Valid()
      reads this
    {
      NoDuplicates(entries) && |entries| <= MAX_QUEUE_SIZE
    }

    constructor ()
      ensures Valid() && entries == []
    {
      entries := [];
    }

    /** Accepts an entry exactly when there is room and the player is not queued yet. */
    method Add(entry: Entry) returns (ok: bool)
      requires Valid()
      modifies this
      ensures Valid()
      ensures ok <==> |old(entries)| < 10000 && !Queued(old(entries), entry.player)
      ensures entries == if ok then old(entries) + [entry] else old(entries)
    {
      if |entries| >= MAX_QUEUE_SIZE {
        return false;
      }
      for i := 0 to |entries|
        invariant forall k :: 0 <= k < i ==> entries[k].player != entry.player
        invariant entries == old(entries)
      {
        if entries[i].player == entry.player {
          return false;
        }
      }
      entries := entries + [entry];
      return true;
    }

    method Remove(player: PlayerId)
      requires Valid()
      modifies this
      ensures Valid()
      ensures entries == WithoutPlayer(old(entries), player)
    {
      WithoutKeepsNoDuplicates(entries, player);
      entries := WithoutPlayer(entries, player);
    }

    /** Finds nothing exactly when no pair matches; otherwise takes out the first matching pair in the
        order of the loops and keeps the other entries in order. */
    method FindMatch(now: int) returns (found: Option<(Entry, Entry)>)
      requires Valid()
      modifies this
      ensures Valid()
      ensures found.None? ==> entries == old(entries) && forall i: nat, j: nat :: !Matches(old(entries), i, j, now)
      ensures found.Some? ==> exists i: nat, j: nat ::
                && Matches(old(entries), i, j, now)
                && (forall k: nat, l: nat :: Before(k, l, i, j) ==> !Matches(old(entries), k, l, now))
                && found.value == (old(entries)[i], old(entries)[j])
                && entries == WithoutPair(old(entries), i, j)
    {
      if |entries| < 2 {
        return None;
      }
      var i := 0;
      while i < |entries|
        invariant 0 <= i <= |entries| && entries == old(entries)
        invariant forall k: nat, l: nat :: k < i ==> !Matches(entries, k, l, now)
      {
        var range := 100 + WaitSeconds(entries[i], now) * 10;
        var j := i + 1;
        while j < |entries|
          invariant i < j <= |entries| && entries == old(entries)
          invariant forall l: nat :: l < j ==> !Matches(entries, i, l, now)
        {
          if Abs(entries[i].elo - entries[j].elo) <= range {
            var a, b := entries[i], entries[j];
            assert Matches(old(entries), i, j, now);
            WithoutPairKeepsNoDuplicates(entries, i, j);
            entries := entries[..j] + entries[j + 1..];
            entries := entries[..i] + entries[i + 1..];
            assert entries == WithoutPair(old(entries), i, j);
            return Some((a, b));
          }
          j := j + 1;
        }
        i := i + 1;
      }
      return None;
    }
  }

  lemma {:induction false} WithoutKeepsNoDuplicates(entries: seq<Entry>, player: PlayerId)
    requires NoDuplicates(entries)
    ensures NoDuplicates(WithoutPlayer(entries, player))
  {
    if entries == [] {
    } else {
      assert forall i :: 0 <= i < |entries[1..]| ==> entries[1..][i] == entries[i + 1];
      WithoutKeepsNoDuplicates(entries[1..], player);
      var rest := WithoutPlayer(entries[1..], player);
      forall k | 0 <= k < |rest| ensures rest[k].player != entries[0].player {
        assert rest[k] in entries[1..];
      }
    }
  }

  lemma WithoutPairKeepsNoDuplicates(entries: seq<Entry>, i: nat, j: nat)
    requires NoDuplicates(entries) && i < j < |entries|
    ensures NoDuplicates(WithoutPair(entries, i, j))
  {
    var rest := WithoutPair(entries, i, j);
    forall k, l | 0 <= k < l < |rest| ensures rest[k].player != rest[l].player {
      assert rest[k] == entries[if k < i then k else if k < j - 1 then k + 1 else k + 2];
      assert rest[l] == entries[if l < i then l else if l < j - 1 then l + 1 else l + 2];
    }
  }

  // ---------- Whole runs ----------

  datatype Request = Add(entry: Entry) | Remove(player: PlayerId) | FindMatch(now: int)

  /** The entries a removal takes out. */
  function Taken(entries: seq<Entry>, player: PlayerId): seq<Entry> {
    if entries == [] then []
    else (if entries[0].player == player then [entries[0]] else []) + Taken(entries[1..], player)
  }

  lemma {:induction false} WithoutAndTaken(entries: seq<Entry>, player: PlayerId)
    ensures multiset(entries) == multiset(WithoutPlayer(entries, player)) + multiset(Taken(entries, player))
  {
    if entries == [] {
    } else {
      var first := [entries[0]];
      WithoutAndTaken(entries[1..], player);
      assert multiset(entries) == multiset(first) + multiset(entries[1..]) by {
        assert entries == first + entries[1..];
      }
      if entries[0].player == player {
        assert WithoutPlayer(entries, player) == WithoutPlayer(entries[1..], player);
        assert multiset(Taken(entries, player)) == multiset(first) + multiset(Taken(entries[1..], player));
      } else {
        assert Taken(entries, player) == Taken(entries[1..], player);
        assert multiset(WithoutPlayer(entries, player))
               == multiset(first) + multiset(WithoutPlayer(entries[1..], player));
      }
    }
  }

  lemma PairAndRest(entries: seq<Entry>, i: nat, j: nat)
    requires i < j < |entries|
    ensures multiset(entries) == multiset(WithoutPair(entries, i, j)) + multiset{entries[i], entries[j]}
  {
    assert entries == entries[..i] + [entries[i]] + entries[i + 1..j] + [entries[j]] + entries[j + 1..];
  }

  /** What came of a request: an entry accepted or refused, the entries taken out, or the pair found. */
  datatype Outcome = Accepted | Refused | Dropped(entries: seq<Entry>) | Paired(first: Entry, second: Entry) | Unpaired

  /** The first matching pair in the order of the two loops. */
  ghost predicate FirstMatch(entries: seq<Entry>, i: nat, j: nat, now: int) {
    Matches(entries, i, j, now) && forall k: nat, l: nat :: Before(k, l, i, j) ==> !Matches(entries, k, l, now)
  }

  /** One request has been served: what it makes of the queue, and what it answers. */
  ghost predicate Served(request: Request, before: seq<Entry>, after: seq<Entry>, outcome: Outcome) {
    match request
    case Add(entry) =>
      if |before| < 10000 && !Queued(before, entry.player)
      then outcome == Accepted && after == before + [entry]
      else outcome == Refused && after == before
    case Remove(player) =>
      outcome == Dropped(Taken(before, player)) && after == WithoutPlayer(before, player)
    case FindMatch(now) =>
      if exists i: nat, j: nat :: Matches(before, i, j, now)
      then exists i: nat, j: nat ::
             FirstMatch(before, i, j, now) && outcome == Paired(before[i], before[j])
             && after == WithoutPair(before, i, j)
      else outcome == Unpaired && after == before
  }

  /** Consecutive queues of a run, one request after the other. */
  ghost predicate Trace(requests: seq<Request>, outcomes: seq<Outcome>, queues: seq<seq<Entry>>) {
    && |outcomes| == |requests| && |queues| == |requests| + 1
    && forall n :: 0 <= n < |requests| ==> Served(requests[n], queues[n], queues[n + 1], outcomes[n])
  }

  // What one request has accepted, removed and matched, read off the request and its outcome.

  function AcceptedBy(request: Request, outcome: Outcome): multiset<Entry> {
    if request.Add? && outcome.Accepted? then multiset{request.entry} else multiset{}
  }

  function RemovedBy(outcome: Outcome): multiset<Entry> {
    if outcome.Dropped? then multiset(outcome.entries) else multiset{}
  }

  function MatchedBy(outcome: Outcome): multiset<Entry> {
    if outcome.Paired? then multiset{outcome.first, outcome.second} else multiset{}
  }

  // And the same of a whole run.

  function AcceptedIn(requests: seq<Request>, outcomes: seq<Outcome>): multiset<Entry>
    requires |requests| == |outcomes|
  {
    if requests == [] then multiset{}
    else
      var n := |requests| - 1;
      AcceptedIn(requests[..n], outcomes[..n]) + AcceptedBy(requests[n], outcomes[n])
  }

  function RemovedIn(outcomes: seq<Outcome>): multiset<Entry> {
    if outcomes == [] then multiset{}
    else RemovedIn(outcomes[..|outcomes| - 1]) + RemovedBy(outcomes[|outcomes| - 1])
  }

  function MatchedIn(outcomes: seq<Outcome>): multiset<Entry> {
    if outcomes == [] then multiset{}
    else MatchedIn(outcomes[..|outcomes| - 1]) + MatchedBy(outcomes[|outcomes| - 1])
  }

  /** Of any run from the empty queue: no player is ever queued twice, and every accepted entry has been
      removed, has been matched or is still queued, exactly once. */
  lemma {:induction false} EachEntryOnce(requests: seq<Request>, outcomes: seq<Outcome>, queues: seq<seq<Entry>>)
    requires Trace(requests, outcomes, queues) && queues[0] == []
    ensures AcceptedIn(requests, outcomes) == RemovedIn(outcomes) + MatchedIn(outcomes) + multiset(queues[|requests|])
    ensures forall n :: 0 <= n <= |requests| ==> NoDuplicates(queues[n])
  {
    if requests == [] {
      assert queues[|requests|] == [];
    } else {
      var n := |requests| - 1;
      var front := queues[..n + 1];
      assert Trace(requests[..n], outcomes[..n], front);
      EachEntryOnce(requests[..n], outcomes[..n], front);
      assert front[n] == queues[n] && NoDuplicates(front[n]);
      OneMoreServed(requests[n], queues[n], queues[n + 1], outcomes[n]);
      StillBalanced(AcceptedIn(requests[..n], outcomes[..n]), RemovedIn(outcomes[..n]), MatchedIn(outcomes[..n]),
                    multiset(queues[n]), AcceptedBy(requests[n], outcomes[n]), RemovedBy(outcomes[n]),
                    MatchedBy(outcomes[n]), multiset(queues[n + 1]));
      forall k | 0 <= k <= n ensures NoDuplicates(queues[k]) {
        assert queues[k] == front[k];
      }
    }
  }

  lemma StillBalanced<T(!new)>(accepted: multiset<T>, removed: multiset<T>, matched: multiset<T>, queued: multiset<T>,
                         a: multiset<T>, r: multiset<T>, m: multiset<T>, after: multiset<T>)
    requires accepted == removed + matched + queued && queued + a == after + r + m
    ensures accepted + a == (removed + r) + (matched + m) + after
  {
    forall x: T ensures (accepted + a)[x] == ((removed + r) + (matched + m) + after)[x] {
      assert (queued + a)[x] == (after + r + m)[x];
    }
  }

  /** One request keeps the balance and the players apart. */
  lemma OneMoreServed(request: Request, before: seq<Entry>, after: seq<Entry>, outcome: Outcome)
    requires Served(request, before, after, outcome) && NoDuplicates(before)
    ensures NoDuplicates(after)
    ensures multiset(before) + AcceptedBy(request, outcome) == multiset(after) + RemovedBy(outcome) + MatchedBy(outcome)
  {
    match request
    case Add(entry) =>
    case Remove(player) =>
      WithoutAndTaken(before, player);
      WithoutKeepsNoDuplicates(before, player);
    case FindMatch(now) =>
      if outcome.Paired? {
        PairServed(now, before, after, outcome);
      }
  }

  lemma PairServed(now: int, before: seq<Entry>, after: seq<Entry>, outcome: Outcome)
    requires Served(FindMatch(now), before, after, outcome) && NoDuplicates(before) && outcome.Paired?
    ensures NoDuplicates(after) && multiset(before) == multiset(after) + multiset{outcome.first, outcome.second}
  {
    var i: nat, j: nat :|
      FirstMatch(before, i, j, now) && outcome == Paired(before[i], before[j]) && after == WithoutPair(before, i, j);
    PairAndRest(before, i, j);
    WithoutPairKeepsNoDuplicates(before, i, j);
  }

  /** Serves any requests, in order; the queues in between are those of a run. */
  method Run(queue: MatchmakingQueue, requests: seq<Request>)
    returns (outcomes: seq<Outcome>, ghost queues: seq<seq<Entry>>)
    requires queue.Valid() && queue.entries == []
    modifies queue
    ensures queue.Valid()
    ensures Trace(requests, outcomes, queues) && queues[0] == [] && queues[|requests|] == queue.entries
    ensures AcceptedIn(requests, outcomes) == RemovedIn(outcomes) + MatchedIn(outcomes) + multiset(queue.entries)
    ensures forall n :: 0 <= n <= |requests| ==> NoDuplicates(queues[n])
  {
    outcomes, queues := [], [[]];
    for n := 0 to |requests|
      invariant queue.Valid()
      invariant Trace(requests[..n], outcomes, queues) && queues[0] == [] && queues[n] == queue.entries
    {
      var outcome := Serve(queue, requests[n]);
      OneMoreInTrace(requests, n, outcomes, queues, outcome, queue.entries);
      outcomes, queues := outcomes + [outcome], queues + [queue.entries];
    }
    assert requests[..|requests|] == requests;
    EachEntryOnce(requests, outcomes, queues);
  }

  lemma OneMoreInTrace(requests: seq<Request>, n: nat, outcomes: seq<Outcome>, queues: seq<seq<Entry>>,
                       outcome: Outcome, after: seq<Entry>)
    requires n < |requests| && Trace(requests[..n], outcomes, queues) && Served(requests[n], queues[n], after, outcome)
    ensures Trace(requests[..n + 1], outcomes + [outcome], queues + [after])
  {
    forall k | 0 <= k < n + 1
      ensures Served(requests[..n + 1][k], (queues + [after])[k], (queues + [after])[k + 1], (outcomes + [outcome])[k])
    {
      assert k < n ==> Served(requests[..n][k], queues[k], queues[k + 1], outcomes[k]);
    }
  }

  method Serve(queue: MatchmakingQueue, request: Request) returns (outcome: Outcome)
    requires queue.Valid()
    modifies queue
    ensures queue.Valid() && Served(request, old(queue.entries), queue.entries, outcome)
  {
    ghost var before := queue.entries;
    match request
    case Add(entry) =>
      var ok := queue.Add(entry);
      outcome := if ok then Accepted else Refused;
    case Remove(player) =>
      outcome := Dropped(Taken(queue.entries, player));
      queue.Remove(player);
    case FindMatch(now) =>
      var found := queue.FindMatch(now);
      if found.Some? {
        outcome := Paired(found.value.0, found.value.1);
        ghost var i: nat, j: nat :|
          FirstMatch(before, i, j, now) && found.value == (before[i], before[j])
          && queue.entries == WithoutPair(before, i, j);
      } else {
        outcome := Unpaired;
      }
  }
}
