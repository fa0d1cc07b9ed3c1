/** Priority passing, the stack, and the priority round that drives both. */
module Priority {
  import opened Common
  import opened Permanents
  import opened Stack

  // ---------- Passing priority ----------

  /** An index less than 2 * n, taken around a table of n players. */
  function Wrap(i: nat, n: nat): nat
    requires i < 2 * n
  {
    if i < n then i else i - n
  }

  lemma WrapIsModulo(i: nat, n: nat)
    requires i < 2 * n
    ensures i % n == Wrap(i, n)
  {
    var q, r := i / n, i % n;
    assert i == n * q + r && 0 <= r < n;
    assert q >= 2 ==> n * q >= n * 2;
    assert q == 0 || q == 1;
    if q == 1 {
      assert n * q == n;
    } else {
      assert n * q == 0;
    }
  }

  /** The first k players in turn order from a start index. */
  function RoundFrom(order: seq<Id>, start: nat, k: nat): seq<Id>
    requires start < |order| && k <= |order|
  {
    seq(k, i requires 0 <= i < k => order[Wrap(start + i, |order|)])
  }

  /** The first index of a player in the turn order, and 0 for somebody who is not in it. */
  function SeatOf(order: seq<Id>, player: Id): (seat: nat)
    requires order != []
    ensures seat < |order|
    ensures player in order ==> order[seat] == player && player !in order[..seat]
    ensures player !in order ==> seat == 0
  {
    if order[0] == player || player !in order then 0
    else
      var later := SeatOf(order[1..], player);
      assert order[..later + 1] == [order[0]] + order[1..][..later];
      later + 1
  }

  /** A full round from any start index has every player exactly as often as the turn order has. */
  lemma FullRoundIsEveryone(order: seq<Id>, start: nat)
    requires start < |order|
    ensures multiset(RoundFrom(order, start, |order|)) == multiset(order)
  {
    var head, tail := order[..start], order[start..];
    var round := RoundFrom(order, start, |order|);
    forall i | 0 <= i < |order| ensures round[i] == (tail + head)[i] {
      assert round[i] == order[Wrap(start + i, |order|)];
    }
    assert round == tail + head;
    assert order == head + tail;
  }

  class PrioritySystem {
    var order: seq<Id>
    var currentIndex: nat
    var consecutivePasses: nat
    /** Whose passes are counted, in order, and the index the count started at. */
    ghost var passed: seq<Id>
    ghost var start: nat

    ghost predicate Valid()
      reads this
    {
      && start < |order| && consecutivePasses <= |order|
      && passed == RoundFrom(order, start, consecutivePasses)
      && currentIndex == Wrap(start + if consecutivePasses < |order| then consecutivePasses else |order| - 1, |order|)
    }

    constructor (players: seq<Id>)
      requires players != []
      ensures Valid() && order == players && passed == [] && currentIndex == 0
    {
      order, currentIndex, consecutivePasses, passed, start := players, 0, 0, [], 0;
    }

    /** Starts at the active player, or at the first player when that player is not in the order. */
    method BeginRound(active: Id)
      requires order != []
      modifies this
      ensures Valid() && order == old(order) && passed == [] && consecutivePasses == 0
      ensures active in order ==> Holder() == active && active !in order[..currentIndex]
      ensures active !in order ==> currentIndex == 0
    {
      consecutivePasses := 0;
      var i := 0;
      while i < |order| && order[i] != active
        invariant 0 <= i <= |order| && active !in order[..i]
      {
        i := i + 1;
      }
      currentIndex := if i < |order| then i else 0;
      passed, start := [], currentIndex;
    }

    function Holder(): Id
      requires currentIndex < |order|
      reads this
    {
      order[currentIndex]
    }

    /** The holder passes; true when that was the last one. */
    method Pass() returns (done: bool)
      requires Valid() && !AllPassed()
      modifies this
      ensures Valid() && order == old(order) && start == old(start)
      ensures passed == old(passed) + [old(Holder())]
      ensures done <==> AllPassed()
    {
      passed := passed + [Holder()];
      consecutivePasses := consecutivePasses + 1;
      if consecutivePasses >= |order| {
        return true;
      }
      WrapIsModulo(currentIndex + 1, |order|);
      currentIndex := (currentIndex + 1) % |order|;
      return false;
    }

    /** Somebody acted: the count starts again at the same holder. */
    method Interrupt()
      requires Valid()
      modifies this
      ensures Valid() && order == old(order) && passed == [] && currentIndex == old(currentIndex)
    {
      consecutivePasses := 0;
      passed, start := [], currentIndex;
    }

    predicate AllPassed()
      reads this
    {
      consecutivePasses >= |order|
    }
  }

  // ---------- The priority round ----------

  /** What an observer of a run can see. */
  datatype Event =
    | Began(active: Id)
    | Interrupted
    | Passed(player: Id)
    | Added(entry: StackEntry)
    | Removed(id: nat, rest: seq<StackEntry>)
    | Broke(running: bool, waiting: nat)
    | Resolved(id: nat, rest: seq<StackEntry>)

  /** What one turn of the inner loop meets. */
  datatype Input =
    | AutoPass
    | Disconnected(running: bool)
    | ClockExpired(running: bool)
    | EndedByOther
    | Pass(triggers: seq<StackEntry>)
    | CastOrActivate(entry: StackEntry, triggers: seq<StackEntry>)
    | OtherAction(running: bool, triggers: seq<StackEntry>)

  /** What resolving an entry does to the stack: entries it counters, then triggers it puts there. */
  datatype Outcome = Outcome(counters: seq<nat>, triggers: seq<StackEntry>)

  function PassesIn(events: seq<Event>): seq<Id> {
    if events == [] then []
    else
      var rest := PassesIn(events[..|events| - 1]);
      var last := events[|events| - 1];
      if last.Passed? then rest + [last.player] else rest
  }

  predicate Resets(e: Event) { e.Began? || e.Interrupted? }

  predicate IsTrigger(e: StackEntry) { e.content.Triggered? }

  predicate AllTriggers(entries: seq<StackEntry>) { forall e :: e in entries ==> IsTrigger(e) }

  /** No new round, no interruption, and no spell or activated ability put on the stack. */
  predicate Undisturbed(events: seq<Event>) {
    forall e :: e in events ==> !Resets(e) && !(e.Added? && !IsTrigger(e.entry))
  }

  /** Since some moment every player has passed exactly once and nothing disturbed those passes. */
  ghost predicate FullRound(past: seq<Event>, order: seq<Id>) {
    exists s :: 0 <= s <= |past| && Undisturbed(past[s..]) && multiset(PassesIn(past[s..])) == multiset(order)
  }

  predicate AfterBreak(past: seq<Event>) { past != [] && past[|past| - 1].Broke? }

  // ---------- The stack as the log tells it ----------

  function StackStep(entries: seq<StackEntry>, e: Event): seq<StackEntry> {
    match e
    case Added(entry) => entries + [entry]
    case Removed(_, rest) => rest
    case Resolved(_, rest) => rest
    case _ => entries
  }

  function StackAfter(initial: seq<StackEntry>, events: seq<Event>): seq<StackEntry> {
    if events == [] then initial else StackStep(StackAfter(initial, events[..|events| - 1]), events[|events| - 1])
  }

  lemma StackAppend(initial: seq<StackEntry>, log: seq<Event>, e: Event)
    ensures StackAfter(initial, log + [e]) == StackStep(StackAfter(initial, log), e)
  {
    assert (log + [e])[..|log|] == log;
  }

  /** What an event says of the stack is true of the stack before it: a countered entry was there, a resolved one
      was the top, and a break counts what waits. */
  ghost predicate Truthful(entries: seq<StackEntry>, e: Event) {
    match e
    case Removed(id, rest) => exists i :: 0 <= i < |entries| && entries[i].id == id && rest == Without(entries, i)
    case Resolved(id, rest) => entries != [] && entries[|entries| - 1].id == id && rest == entries[..|entries| - 1]
    case Broke(_, waiting) => waiting == |entries|
    case _ => true
  }

  /** A resolution comes after a full round exactly when it does not directly follow a break (a lost
      connection or an expired clock); and it takes the entry with the greatest id. Entries are countered only
      by what has resolved. */
  ghost predicate Justified(log: seq<Event>, t: nat, order: seq<Id>, initial: seq<StackEntry>)
    requires t < |log|
  {
    && Truthful(StackAfter(initial, log[..t]), log[t])
    && (log[t].Resolved? ==>
          && (FullRound(log[..t], order) <==> !AfterBreak(log[..t]))
          && (AfterBreak(log[..t]) ==> log[t - 1].running)
          && forall e :: e in log[t].rest ==> e.id < log[t].id)
    && (log[t].Removed? ==> exists k :: 0 <= k < t && log[k].Resolved?)
  }

  ghost predicate AllJustified(log: seq<Event>, order: seq<Id>, initial: seq<StackEntry>) {
    forall t :: 0 <= t < |log| ==> Justified(log, t, order, initial)
  }

  lemma {:induction false} MorePasses(events: seq<Event>, s: nat)
    requires s <= |events|
    ensures |PassesIn(events[s..])| <= |PassesIn(events)|
  {
    if s == |events| {
    } else {
      var front := events[..|events| - 1];
      MorePasses(front, s);
      assert events[s..][..|events[s..]| - 1] == front[s..];
    }
  }

  lemma JustifiedAppend(log: seq<Event>, e: Event, order: seq<Id>, initial: seq<StackEntry>)
    requires AllJustified(log, order, initial)
    requires Justified(log + [e], |log|, order, initial)
    ensures AllJustified(log + [e], order, initial)
  {
    forall t | 0 <= t < |log| ensures Justified(log + [e], t, order, initial) {
      assert (log + [e])[..t] == log[..t];
      assert Justified(log, t, order, initial);
    }
  }

  /** Events that are neither resolutions nor counterings only have to be truthful. */
  lemma PlainAppend(log: seq<Event>, e: Event, order: seq<Id>, initial: seq<StackEntry>)
    requires AllJustified(log, order, initial) && !e.Resolved? && Truthful(StackAfter(initial, log), e)
    requires e.Removed? ==> exists k :: 0 <= k < |log| && log[k].Resolved?
    ensures AllJustified(log + [e], order, initial)
    ensures StackAfter(initial, log + [e]) == StackStep(StackAfter(initial, log), e)
  {
    assert (log + [e])[..|log|] == log;
    if e.Removed? {
      var k :| 0 <= k < |log| && log[k].Resolved?;
      assert (log + [e])[k].Resolved?;
    }
    JustifiedAppend(log, e, order, initial);
    StackAppend(initial, log, e);
  }

  /** Nobody who looks back from a shorter count can find a full round. */
  lemma NoFullRound(past: seq<Event>, s: nat, order: seq<Id>)
    requires s <= |past| && (s == 0 || Resets(past[s - 1]))
    requires |PassesIn(past[s..])| < |order|
    ensures !FullRound(past, order)
  {
    forall s' | 0 <= s' <= |past|
      ensures !(Undisturbed(past[s'..]) && multiset(PassesIn(past[s'..])) == multiset(order))
    {
      if s' < s {
        assert past[s'..][s - 1 - s'] == past[s - 1];
      } else {
        MorePasses(past[s..], s' - s);
        assert past[s..][s' - s..] == past[s'..];
        assert |multiset(PassesIn(past[s'..]))| == |PassesIn(past[s'..])| < |multiset(order)|;
      }
    }
  }

  lemma AppendEvent(log: seq<Event>, since: nat, e: Event)
    requires since <= |log|
    ensures (log + [e])[since..] == log[since..] + [e]
    ensures PassesIn((log + [e])[since..]) == PassesIn(log[since..]) + (if e.Passed? then [e.player] else [])
    ensures Undisturbed(log[since..]) && Undisturbed([e]) ==> Undisturbed((log + [e])[since..])
  {
    var events := log[since..] + [e];
    assert (log + [e])[since..] == events;
    assert events[..|events| - 1] == log[since..];
  }

  /** The passes that count began at an index of the log, undisturbed. */
  ghost predicate CountedSince(log: seq<Event>, since: nat, passed: seq<Id>) {
    && since <= |log| && (since == 0 || Resets(log[since - 1]))
    && Undisturbed(log[since..]) && PassesIn(log[since..]) == passed
  }

  lemma CountContinues(log: seq<Event>, since: nat, passed: seq<Id>, e: Event)
    requires CountedSince(log, since, passed) && Undisturbed([e])
    ensures CountedSince(log + [e], since, passed + (if e.Passed? then [e.player] else []))
  {
    AppendEvent(log, since, e);
  }

  // ---------- What a run does, told on the log alone ----------

  /** What a run depends on besides its inputs: the active player, the turn order, what is on the stack at its start,
      and the id of the next entry. */
  datatype Setting = Setting(active: Id, order: seq<Id>, initial: seq<StackEntry>, firstId: nat)

  function NextIdAfter(firstId: nat, log: seq<Event>): nat {
    if log == [] then firstId
    else NextIdAfter(firstId, log[..|log| - 1]) + (if log[|log| - 1].Added? then 1 else 0)
  }

  function SeatStep(order: seq<Id>, seat: nat, e: Event): (next: nat)
    requires seat < |order|
    ensures next < |order|
  {
    if e.Began? then SeatOf(order, e.active) else if e.Passed? then Wrap(seat + 1, |order|) else seat
  }

  /** Whose turn it is: the active player's when a round begins, and the next one's after each pass. */
  function SeatAfter(order: seq<Id>, log: seq<Event>): (seat: nat)
    requires order != []
    ensures seat < |order|
  {
    if log == [] then 0
    else SeatStep(order, SeatAfter(order, log[..|log| - 1]), log[|log| - 1])
  }

  function HolderAfter(order: seq<Id>, log: seq<Event>): Id
    requires order != []
  {
    order[SeatAfter(order, log)]
  }

  lemma OneMoreEvent(firstId: nat, order: seq<Id>, log: seq<Event>, e: Event)
    requires order != []
    ensures NextIdAfter(firstId, log + [e]) == NextIdAfter(firstId, log) + (if e.Added? then 1 else 0)
    ensures SeatAfter(order, log + [e]) == SeatStep(order, SeatAfter(order, log), e)
  {
    assert (log + [e])[..|log|] == log;
  }

  /** Where an entry is on the stack; the length of the stack when it is not there. */
  function IndexOfId(entries: seq<StackEntry>, id: nat): (i: nat)
    ensures i <= |entries| && forall k :: 0 <= k < i ==> entries[k].id != id
    ensures i < |entries| ==> entries[i].id == id
  {
    if entries == [] || entries[0].id == id then 0 else IndexOfId(entries[1..], id) + 1
  }

  /** Triggered abilities have gone onto the stack in order, each with the next id. */
  function AfterTriggers(w: Setting, log: seq<Event>, triggers: seq<StackEntry>): seq<Event> {
    if triggers == [] then log
    else
      var n := |triggers| - 1;
      var before := AfterTriggers(w, log, triggers[..n]);
      before + [Added(triggers[n].(id := NextIdAfter(w.firstId, before)))]
  }

  /** An entry has been countered, if it was on the stack. */
  function AfterCountering(w: Setting, log: seq<Event>, id: nat): seq<Event> {
    var entries := StackAfter(w.initial, log);
    var i := IndexOfId(entries, id);
    if i < |entries| then log + [Removed(id, Without(entries, i))] else log
  }

  function AfterCounters(w: Setting, log: seq<Event>, ids: seq<nat>): seq<Event> {
    if ids == [] then log else AfterCountering(w, AfterCounters(w, log, ids[..|ids| - 1]), ids[|ids| - 1])
  }

  function AfterTop(w: Setting, log: seq<Event>): seq<Event> {
    var entries := StackAfter(w.initial, log);
    if entries == [] then log else log + [Resolved(entries[|entries| - 1].id, entries[..|entries| - 1])]
  }

  /** The top of the stack has resolved: what it counters is gone, what it triggers is on the stack, and a new round
      begins with the active player. */
  function AfterResolution(w: Setting, log: seq<Event>, outcome: Outcome): seq<Event> {
    AfterTriggers(w, AfterCounters(w, AfterTop(w, log), outcome.counters), outcome.triggers) + [Began(w.active)]
  }

  /** What an input is itself, before anything resolves. */
  function AfterOwn(w: Setting, log: seq<Event>, i: Input): seq<Event>
    requires w.order != []
  {
    match i
    case AutoPass => log + [Passed(HolderAfter(w.order, log))]
    case Disconnected(running) => log + [Broke(running, |StackAfter(w.initial, log)|)]
    case ClockExpired(running) => log + [Broke(running, |StackAfter(w.initial, log)|)]
    case EndedByOther => log
    case Pass(triggers) => AfterTriggers(w, log + [Passed(HolderAfter(w.order, log))], triggers)
    case CastOrActivate(entry, triggers) =>
      AfterTriggers(w, log + [Added(entry.(id := NextIdAfter(w.firstId, log)))] + [Interrupted], triggers)
    case OtherAction(_, triggers) => AfterTriggers(w, log, triggers)
  }

  /** The inner loop is left for this input. */
  predicate Breaks(i: Input) { i.Disconnected? || i.ClockExpired? }

  /** The game is over because of this input. */
  predicate Stops(i: Input) {
    i.EndedByOther? || ((i.OtherAction? || i.Disconnected? || i.ClockExpired?) && !i.running)
  }

  /** It is time to look at the stack: everybody has passed, or the inner loop has been left and the game goes on. */
  ghost predicate TimeToResolve(w: Setting, now: seq<Event>, i: Input) {
    FullRound(now, w.order) || (Breaks(i) && i.running)
  }

  /** One input: what it is itself, and then a resolution if it is time for one and there is something to resolve. */
  ghost function AfterTurn(w: Setting, log: seq<Event>, i: Input, outcome: Outcome): seq<Event>
    requires w.order != []
  {
    var now := AfterOwn(w, log, i);
    if TimeToResolve(w, now, i) && StackAfter(w.initial, now) != [] then AfterResolution(w, now, outcome) else now
  }

  /** The log after some inputs. */
  ghost function RunLog(w: Setting, script: seq<Input>, outcome: nat -> Outcome, n: nat): seq<Event>
    requires w.order != [] && n <= |script|
  {
    if n == 0 then [Began(w.active)]
    else AfterTurn(w, RunLog(w, script, outcome, n - 1), script[n - 1], outcome(n))
  }

  /** The log when an input has been heeded and nothing has resolved yet. */
  ghost function Acted(w: Setting, script: seq<Input>, outcome: nat -> Outcome, n: nat): seq<Event>
    requires w.order != [] && 0 < n <= |script|
  {
    AfterOwn(w, RunLog(w, script, outcome, n - 1), script[n - 1])
  }

  /** The round ends here: it is time to resolve, and nothing is left to. */
  ghost predicate Ends(w: Setting, now: seq<Event>, i: Input) {
    TimeToResolve(w, now, i) && StackAfter(w.initial, now) == []
  }

  /** The run is over after so many inputs. */
  ghost predicate Over(w: Setting, script: seq<Input>, outcome: nat -> Outcome, n: nat)
    requires w.order != [] && n <= |script|
  {
    n > 0 && (Stops(script[n - 1]) || Ends(w, Acted(w, script, outcome, n), script[n - 1]))
  }

  class PriorityRound {
    const priority: PrioritySystem
    const stack: TheStack
    var running: bool
    ghost var log: seq<Event>
    /** Where the passes that count now begin. */
    ghost var since: nat

    /** What was on the stack before the first event, and the id of the next entry then. */
    ghost var initial: seq<StackEntry>
    ghost var firstId: nat

    ghost predicate Valid()
      reads this, priority, stack
    {
      Steady() && Told()
    }

    /** The log tells what is on the stack, which id comes next, and whose turn it is. */
    ghost predicate Told()
      reads this, priority, stack
    {
      && priority.order != []
      && stack.entries == StackAfter(initial, log) && stack.nextId == NextIdAfter(firstId, log)
      && (!priority.AllPassed() ==> priority.currentIndex == SeatAfter(priority.order, log))
    }

    ghost predicate Steady()
      reads this, priority, stack
    {
      && priority.Valid() && stack.Valid()
      && CountedSince(log, since, priority.passed)
      && AllJustified(log, priority.order, initial)
    }

    ghost predicate At(w: Setting)
      reads this, priority, stack
    {
      Valid() && w == Setting(w.active, priority.order, initial, firstId)
    }

    constructor (players: seq<Id>)
      requires players != []
      ensures Valid() && running && log == [] && initial == [] && firstId == 1 && priority.order == players
      ensures stack.entries == [] && fresh(priority) && fresh(stack)
    {
      priority := new PrioritySystem(players);
      stack := new TheStack();
      running := true;
      log, since, initial, firstId := [], 0, [], 1;
    }

    /** Record something that is neither a pass, a reset nor a resolution. */
    ghost method Note(e: Event)
      requires Steady() && Truthful(StackAfter(initial, log), e) && priority.order != []
      requires stack.entries == StackStep(StackAfter(initial, log), e)
      requires stack.nextId == NextIdAfter(firstId, log) + (if e.Added? then 1 else 0)
      requires !priority.AllPassed() ==> priority.currentIndex == SeatAfter(priority.order, log)
      requires e.Removed? || e.Broke? || (e.Added? && IsTrigger(e.entry))
      requires e.Removed? ==> exists k :: 0 <= k < |log| && log[k].Resolved?
      modifies this`log
      ensures Valid() && log == old(log) + [e]
    {
      PlainAppend(log, e, priority.order, initial);
      CountContinues(log, since, priority.passed, e);
      OneMoreEvent(firstId, priority.order, log, e);
      log := log + [e];
    }

    ghost method NoteReset(e: Event)
      requires priority.Valid() && stack.Valid() && priority.passed == [] && priority.order != []
      requires Resets(e) && AllJustified(log, priority.order, initial)
      requires stack.entries == StackAfter(initial, log) && stack.nextId == NextIdAfter(firstId, log)
      requires priority.currentIndex == SeatAfter(priority.order, log + [e])
      modifies this`log, this`since
      ensures Valid() && log == old(log) + [e]
    {
      PlainAppend(log, e, priority.order, initial);
      OneMoreEvent(firstId, priority.order, log, e);
      log := log + [e];
      since := |log|;
    }

    method Begin(active: Id)
      requires Valid()
      modifies this`log, this`since, priority
      ensures Valid() && priority.order == old(priority.order) && !priority.AllPassed()
      ensures log == old(log) + [Began(active)]
    {
      priority.BeginRound(active);
      OneMoreEvent(firstId, priority.order, log, Began(active));
      FirstSeat(priority.order, active, priority.currentIndex);
      NoteReset(Began(active));
    }

    method PassPriority()
      requires Valid() && !priority.AllPassed()
      modifies this`log, priority
      ensures Valid() && priority.order == old(priority.order)
      ensures log == old(log) + [Passed(HolderAfter(priority.order, old(log)))]
    {
      ghost var e := Passed(priority.Holder());
      PlainAppend(log, e, priority.order, initial);
      CountContinues(log, since, priority.passed, e);
      OneMoreEvent(firstId, priority.order, log, e);
      var done := priority.Pass();
      log := log + [e];
    }

    /** A spell or a non-mana ability goes on the stack and the passes are forgotten. */
    method Play(entry: StackEntry)
      requires Valid() && !IsTrigger(entry) && !priority.AllPassed()
      modifies this`log, this`since, priority, stack
      ensures Valid() && priority.order == old(priority.order) && !priority.AllPassed()
      ensures log == old(log) + [Added(entry.(id := NextIdAfter(firstId, old(log))))] + [Interrupted]
    {
      var id := stack.Push(entry);
      priority.Interrupt();
      NotePlay(entry.(id := id));
    }

    ghost method NotePlay(entry: StackEntry)
      requires priority.Valid() && stack.Valid() && priority.passed == [] && priority.order != []
      requires AllJustified(log, priority.order, initial) && stack.entries == StackAfter(initial, log) + [entry]
      requires stack.nextId == NextIdAfter(firstId, log) + 1
      requires priority.currentIndex == SeatAfter(priority.order, log)
      modifies this`log, this`since
      ensures Valid() && log == old(log) + [Added(entry)] + [Interrupted]
    {
      PlainAppend(log, Added(entry), priority.order, initial);
      OneMoreEvent(firstId, priority.order, log, Added(entry));
      log := log + [Added(entry)];
      OneMoreEvent(firstId, priority.order, log, Interrupted);
      NoteReset(Interrupted);
    }

    /** Triggered abilities go on the stack without an interruption. */
    method PushTriggers(ghost w: Setting, triggers: seq<StackEntry>)
      requires At(w) && AllTriggers(triggers)
      modifies this`log, stack
      ensures At(w) && log == AfterTriggers(w, old(log), triggers)
    {
      ghost var before := log;
      for i := 0 to |triggers|
        invariant At(w) && log == AfterTriggers(w, before, triggers[..i])
      {
        assert triggers[i] in triggers && triggers[..i + 1][..i] == triggers[..i];
        var id := stack.Push(triggers[i]);
        Note(Added(triggers[i].(id := id)));
      }
      assert triggers[..|triggers|] == triggers;
    }

    /** Entries countered by what has resolved leave the stack. */
    method Counter(ghost w: Setting, ids: seq<nat>)
      requires At(w) && log != [] && exists k :: 0 <= k < |log| && log[k].Resolved?
      modifies this`log, stack
      ensures At(w) && log == AfterCounters(w, old(log), ids)
    {
      ghost var before := log;
      for i := 0 to |ids|
        invariant At(w) && log == AfterCounters(w, before, ids[..i])
        invariant exists k :: 0 <= k < |log| && log[k].Resolved?
      {
        assert ids[..i + 1][..i] == ids[..i];
        CounterOne(w, ids[i]);
      }
      assert ids[..|ids|] == ids;
    }

    method CounterOne(ghost w: Setting, id: nat)
      requires At(w) && exists k :: 0 <= k < |log| && log[k].Resolved?
      modifies this`log, stack
      ensures At(w) && log == AfterCountering(w, old(log), id)
      ensures exists k :: 0 <= k < |log| && log[k].Resolved?
    {
      ghost var k :| 0 <= k < |log| && log[k].Resolved?;
      ghost var entries := stack.entries;
      var removed := stack.Remove(id);
      if removed.Some? {
        OnlyOneHasTheId(entries, id, stack.entries);
        NoteRemoved(id, k);
      }
    }

    ghost method NoteRemoved(id: nat, k: nat)
      requires Steady() && Truthful(StackAfter(initial, log), Removed(id, stack.entries)) && priority.order != []
      requires stack.nextId == NextIdAfter(firstId, log)
      requires !priority.AllPassed() ==> priority.currentIndex == SeatAfter(priority.order, log)
      requires k < |log| && log[k].Resolved?
      modifies this`log
      ensures Valid() && log == old(log) + [Removed(id, stack.entries)] && log[k].Resolved?
    {
      Note(Removed(id, stack.entries));
    }

    /** A resolution is justified when everybody has passed, and when it follows a break. */
    lemma ResolutionJustified(e: Event)
      requires Steady() && e.Resolved? && (forall r :: r in e.rest ==> r.id < e.id)
      requires Truthful(StackAfter(initial, log), e)
      requires (priority.AllPassed() <==> !AfterBreak(log)) && (AfterBreak(log) ==> log[|log| - 1].running)
      ensures Justified(log + [e], |log|, priority.order, initial)
    {
      assert (log + [e])[..|log|] == log;
      EveryoneHasPassed();
    }

    /** All passes are counted exactly when there was a full round. */
    lemma EveryoneHasPassed()
      requires Steady()
      ensures priority.AllPassed() <==> FullRound(log, priority.order)
    {
      if priority.AllPassed() {
        FullRoundIsEveryone(priority.order, priority.start);
        assert FullRound(log, priority.order);
      } else {
        NoFullRound(log, since, priority.order);
      }
    }

    ghost method NoteResolution(e: Event)
      requires Steady() && e.Resolved? && (forall r :: r in e.rest ==> r.id < e.id) && priority.order != []
      requires Truthful(StackAfter(initial, log), e) && stack.entries == e.rest
      requires stack.nextId == NextIdAfter(firstId, log)
      requires !priority.AllPassed() ==> priority.currentIndex == SeatAfter(priority.order, log)
      requires (priority.AllPassed() <==> !AfterBreak(log)) && (AfterBreak(log) ==> log[|log| - 1].running)
      modifies this`log
      ensures Valid() && log == old(log) + [e]
    {
      ResolutionJustified(e);
      JustifiedAppend(log, e, priority.order, initial);
      StackAppend(initial, log, e);
      CountContinues(log, since, priority.passed, e);
      OneMoreEvent(firstId, priority.order, log, e);
      log := log + [e];
    }

    /** Take the top entry off the stack. */
    method TakeTop(ghost w: Setting)
      requires At(w) && stack.entries != []
      requires (priority.AllPassed() <==> !AfterBreak(log)) && (AfterBreak(log) ==> log[|log| - 1].running)
      modifies this`log, stack
      ensures At(w) && log == AfterTop(w, old(log))
      ensures exists k :: 0 <= k < |log| && log[k].Resolved?
    {
      ghost var n := |log|;
      var top := stack.ResolveTop();
      NoteResolution(Resolved(top.value.id, stack.entries));
      assert log[n].Resolved?;
    }

    /** Resolve the top entry, let its effect act on the stack, and start a new round. */
    method Resolve(ghost w: Setting, active: Id, outcome: Outcome)
      requires At(w) && w.active == active && stack.entries != [] && AllTriggers(outcome.triggers)
      requires (priority.AllPassed() <==> !AfterBreak(log)) && (AfterBreak(log) ==> log[|log| - 1].running)
      modifies this`log, this`since, priority, stack
      ensures At(w) && !priority.AllPassed() && log == AfterResolution(w, old(log), outcome)
    {
      TakeTop(w);
      Counter(w, outcome.counters);
      PushTriggers(w, outcome.triggers);
      Begin(active);
    }

    /** The inner loop is left early: the holder lost the connection or ran out of time. */
    method Break(stillRunning: bool)
      requires Valid() && running
      modifies this`log, this`running
      ensures Valid() && running == stillRunning
      ensures log == old(log) + [Broke(stillRunning, |StackAfter(initial, old(log))|)]
    {
      running := running && stillRunning;
      Note(Broke(running, |stack.entries|));
    }

    method Continue(still: bool)
      requires Valid()
      modifies this`running
      ensures Valid() && running == (old(running) && still)
    {
      running := running && still;
    }

    /** One response of the holder, with the triggers that it and the state-based actions put on the stack. */
    method Respond(ghost w: Setting, input: Input)
      requires At(w) && running && !priority.AllPassed()
      requires input.Pass? || input.CastOrActivate? || input.OtherAction?
      requires WellFormedInput(input)
      modifies this`log, this`since, this`running, priority, stack
      ensures At(w) && log == AfterOwn(w, old(log), input)
      ensures running <==> !Stops(input)
      ensures priority.AllPassed() ==> input.Pass?
    {
      match input {
        case Pass(triggers) =>
          PassPriority();
          PushTriggers(w, triggers);
        case CastOrActivate(entry, triggers) =>
          Play(entry);
          PushTriggers(w, triggers);
        case OtherAction(still, triggers) =>
          Continue(still);
          PushTriggers(w, triggers);
      }
    }

    /** The inner loop: until everybody has passed with nothing left to resolve, the game is over, or
        the loop breaks. Says how far the script was read. */
    method PassUntilDone(ghost w: Setting, active: Id, script: seq<Input>, from: nat, outcome: nat -> Outcome)
      returns (pos: nat, ghost left: bool, ghost inTime: bool)
      requires AtRound(w, active, script, from, outcome) && WellFormed(script) && WellFormedOutcomes(outcome)
      modifies this`log, this`since, this`running, priority, stack
      ensures At(w) && from <= pos <= |script|
      ensures running <==> inTime && (left || priority.AllPassed())
      ensures inTime ==> left || pos == |script| || priority.AllPassed()
      ensures Midway(w, script, outcome, from, pos, log, inTime, priority.AllPassed(), left)
    {
      var early;
      pos, early := Turns(w, active, script, from, outcome);
      left, inTime := early, running;
      Continue(early || priority.AllPassed());
    }

    /** Turn after turn, until one of these reasons to stop. */
    method Turns(ghost w: Setting, active: Id, script: seq<Input>, from: nat, outcome: nat -> Outcome)
      returns (pos: nat, left: bool)
      requires AtRound(w, active, script, from, outcome) && WellFormed(script) && WellFormedOutcomes(outcome)
      modifies this`log, this`since, this`running, priority, stack
      ensures At(w) && from <= pos <= |script|
      ensures Midway(w, script, outcome, from, pos, log, running, priority.AllPassed(), left)
      ensures !running || left || pos == |script| || priority.AllPassed()
    {
      pos, left := from, false;
      while running && !left && pos < |script| && !priority.AllPassed()
        invariant At(w) && from <= pos <= |script|
        invariant Midway(w, script, outcome, from, pos, log, running, priority.AllPassed(), left)
        decreases |script| - pos
      {
        assert script[pos] in script;
        ghost var past := log;
        var next := pos + 1;
        left := OneTurn(w, active, script[pos], outcome(next));
        TurnTaken(w, script, outcome, from, pos, next, past, log, running, priority.AllPassed(), left);
        pos := next;
      }
    }

    /** One turn of the inner loop; says whether the loop is left early. */
    method OneTurn(ghost w: Setting, active: Id, input: Input, outcome: Outcome) returns (left: bool)
      requires At(w) && w.active == active && running && !priority.AllPassed()
      requires WellFormedInput(input) && AllTriggers(outcome.triggers)
      modifies this`log, this`since, this`running, priority, stack
      ensures At(w)
      ensures TurnDone(w, old(log), log, input, outcome, running, priority.AllPassed(), left)
    {
      left := false;
      match input {
        case Disconnected(still) =>
          Break(still);
          left := true;
        case ClockExpired(still) =>
          Break(still);
          left := true;
        case EndedByOther =>
          Continue(false);
          left := true;
        case AutoPass =>
          PassPriority();
          EveryoneHasPassed();
        case _ =>
          RespondAndResolve(w, active, input, outcome);
      }
    }

    /** The end of one turn of the inner loop: act, then resolve if that was the last pass. */
    method RespondAndResolve(ghost w: Setting, active: Id, input: Input, outcome: Outcome)
      requires At(w) && w.active == active && running && !priority.AllPassed() && AllTriggers(outcome.triggers)
      requires WellFormedInput(input) && (input.Pass? || input.CastOrActivate? || input.OtherAction?)
      modifies this`log, this`since, this`running, priority, stack
      ensures At(w)
      ensures TurnDone(w, old(log), log, input, outcome, running, priority.AllPassed(), false)
    {
      Respond(w, input);
      EveryoneHasPassed();
      if priority.AllPassed() && stack.entries != [] {
        OwnEnds(w, old(log), input);
        Resolve(w, active, outcome);
      }
    }

    /** The whole round, for any script of what happens and any effects of the resolved entries. */
    method Run(active: Id, script: seq<Input>, outcome: nat -> Outcome) returns (pos: nat)
      requires Valid() && running && log == [] && WellFormed(script) && WellFormedOutcomes(outcome)
      modifies this`log, this`since, this`running, priority, stack
      ensures At(Setting(active, old(priority.order), initial, firstId))
      ensures initial == old(initial) == old(stack.entries) && firstId == old(firstId) == old(stack.nextId)
      ensures RunDone(Setting(active, priority.order, initial, firstId), log, script, outcome, pos, running)
      ensures Connected(script) ==> AllAfterFullRound(log, priority.order)
      ensures running ==> stack.entries == [] && (Connected(script) ==> priority.AllPassed())
      ensures var w := Setting(active, priority.order, initial, firstId);
              && AddedIn(log) == Numbered(Asked(w, script, outcome, pos), firstId)
              && RemovedIn(log) == Countered(w, script, outcome, pos)
    {
      ghost var w := Setting(active, priority.order, initial, firstId);
      Begin(active);
      pos := RunLoop(w, active, script, outcome);
      EveryoneHasPassed();
      RunOver(w, log, script, outcome, pos, running);
      AsAskedFor(w, script, outcome, pos);
    }

    /** The state of the outer loop. */
    ghost predicate AtRound(w: Setting, active: Id, script: seq<Input>, pos: nat, outcome: nat -> Outcome)
      reads this, priority, stack
    {
      && At(w) && w.active == active && running && !priority.AllPassed() && pos <= |script|
      && log == RunLog(w, script, outcome, pos)
      && NotOverBefore(w, script, outcome, pos) && !Over(w, script, outcome, pos)
    }

    /** The outer loop: resolve and start again until nothing waits or the game is over. */
    method RunLoop(ghost w: Setting, active: Id, script: seq<Input>, outcome: nat -> Outcome) returns (pos: nat)
      requires AtRound(w, active, script, 0, outcome) && WellFormed(script) && WellFormedOutcomes(outcome)
      modifies this`log, this`since, this`running, priority, stack
      ensures At(w) && Finished(w, log, script, outcome, pos, running)
    {
      pos := 0;
      var over := false;
      while !over
        invariant if over then At(w) && Finished(w, log, script, outcome, pos, running)
                  else AtRound(w, active, script, pos, outcome)
        decreases !over, |script| - pos
      {
        over, pos := OneRound(w, active, script, pos, outcome);
      }
    }

    /** One round of passes, and the resolution that follows it. */
    method OneRound(ghost w: Setting, active: Id, script: seq<Input>, from: nat, outcome: nat -> Outcome)
      returns (over: bool, pos: nat)
      requires AtRound(w, active, script, from, outcome) && WellFormed(script) && WellFormedOutcomes(outcome)
      modifies this`log, this`since, this`running, priority, stack
      ensures if over then At(w) && Finished(w, log, script, outcome, pos, running)
              else AtRound(w, active, script, pos, outcome) && pos > from
    {
      ghost var left, inTime;
      pos, left, inTime := PassUntilDone(w, active, script, from, outcome);
      ghost var middle, allPassed := log, priority.AllPassed();
      EveryoneHasPassed();
      over := !running || stack.entries == [];
      if over {
        LoopEnds(w, script, outcome, from, pos, middle, inTime, running, allPassed, left);
      } else {
        LoopGoesOn(w, script, outcome, from, pos, middle, allPassed, left);
        Resolve(w, active, outcome(pos));
      }
    }
  }

  predicate WellFormed(script: seq<Input>) {
    forall i :: i in script ==> WellFormedInput(i)
  }

  /** Only spells and abilities are cast or activated, and only triggers come by themselves. */
  predicate WellFormedInput(i: Input) {
    match i
    case CastOrActivate(entry, triggers) => !IsTrigger(entry) && AllTriggers(triggers)
    case Pass(triggers) => AllTriggers(triggers)
    case OtherAction(_, triggers) => AllTriggers(triggers)
    case _ => true
  }

  ghost predicate WellFormedOutcomes(outcome: nat -> Outcome) { forall n :: AllTriggers(outcome(n).triggers) }

  /** No lost connection and no expired clock. */
  predicate Connected(script: seq<Input>) {
    forall i :: i in script ==> !i.Disconnected? && !i.ClockExpired?
  }

  // ---------- The loops ----------

  lemma FirstSeat(order: seq<Id>, player: Id, seat: nat)
    requires seat < |order| && (player in order ==> order[seat] == player && player !in order[..seat])
    requires player !in order ==> seat == 0
    ensures seat == SeatOf(order, player)
  {}

  lemma OnlyOneHasTheId(entries: seq<StackEntry>, id: nat, rest: seq<StackEntry>)
    requires Ascending(entries)
    requires exists i :: 0 <= i < |entries| && entries[i].id == id && rest == Without(entries, i)
    ensures IndexOfId(entries, id) < |entries| && rest == Without(entries, IndexOfId(entries, id))
  {
    var i :| 0 <= i < |entries| && entries[i].id == id && rest == Without(entries, i);
    assert IndexOfId(entries, id) == i;
  }

  /** The triggers follow one another at the end of the log, with the next ids. */
  lemma {:induction false} TriggersNumbered(w: Setting, log: seq<Event>, triggers: seq<StackEntry>)
    ensures var later := AfterTriggers(w, log, triggers);
            && |later| == |log| + |triggers| && later[..|log|] == log
            && (forall k :: |log| <= k < |later| ==>
                  later[k] == Added(triggers[k - |log|].(id := NextIdAfter(w.firstId, log) + k - |log|)))
            && NextIdAfter(w.firstId, later) == NextIdAfter(w.firstId, log) + |triggers|
  {
    if triggers == [] {
    } else {
      var n := |triggers| - 1;
      TriggersNumbered(w, log, triggers[..n]);
      var before, later := AfterTriggers(w, log, triggers[..n]), AfterTriggers(w, log, triggers);
      assert later[..|later| - 1] == before;
      assert before[..|log|] == later[..|log|];
    }
  }

  /** Inputs that bring triggers do not end the log with a break, and breaks do. */
  lemma OwnEnds(w: Setting, log: seq<Event>, i: Input)
    requires w.order != []
    ensures i.Pass? || i.AutoPass? ==> !AfterBreak(AfterOwn(w, log, i))
    ensures Breaks(i) ==> AfterOwn(w, log, i) == log + [Broke(i.running, |StackAfter(w.initial, log)|)]
    ensures Breaks(i) ==> StackAfter(w.initial, AfterOwn(w, log, i)) == StackAfter(w.initial, log)
  {
    if i.Pass? {
      TriggersNumbered(w, log + [Passed(HolderAfter(w.order, log))], i.triggers);
    }
    if Breaks(i) {
      StackAppend(w.initial, log, Broke(i.running, |StackAfter(w.initial, log)|));
    }
  }

  predicate LeavesLoop(i: Input) { Breaks(i) || i.EndedByOther? }

  /** One turn of the inner loop. A resolution that does not belong to the turn is left to the outer loop. */
  ghost predicate TurnDone(w: Setting, past: seq<Event>, log: seq<Event>, i: Input, outcome: Outcome, running: bool,
                           allPassed: bool, left: bool)
  {
    && w.order != [] && (running <==> !Stops(i)) && (left <==> LeavesLoop(i))
    && (allPassed ==> i.Pass? || i.AutoPass?)
    && var now := AfterOwn(w, past, i);
       if allPassed || left then log == now else log == AfterTurn(w, past, i, outcome) && !Ends(w, now, i)
  }

  ghost predicate NotOverBefore(w: Setting, script: seq<Input>, outcome: nat -> Outcome, n: nat)
    requires w.order != [] && n <= |script|
  {
    n <= 1 || (NotOverBefore(w, script, outcome, n - 1) && !Over(w, script, outcome, n - 1))
  }

  /** The inner loop between two turns. */
  ghost predicate Midway(w: Setting, script: seq<Input>, outcome: nat -> Outcome, from: nat, pos: nat, log: seq<Event>,
                         running: bool, allPassed: bool, left: bool)
  {
    && w.order != [] && from <= pos <= |script|
    && NotOverBefore(w, script, outcome, pos)
    && if pos == from then running && !allPassed && !left && JustBefore(w, script, outcome, pos, log)
       else JustAfter(w, script, outcome, pos, log, running, allPassed, left)
  }

  ghost predicate JustBefore(w: Setting, script: seq<Input>, outcome: nat -> Outcome, pos: nat, log: seq<Event>)
    requires w.order != [] && pos <= |script|
  {
    log == RunLog(w, script, outcome, pos) && !Over(w, script, outcome, pos)
  }

  ghost predicate JustAfter(w: Setting, script: seq<Input>, outcome: nat -> Outcome, pos: nat, log: seq<Event>,
                            running: bool, allPassed: bool, left: bool)
    requires w.order != [] && 0 < pos <= |script|
  {
    TurnDone(w, RunLog(w, script, outcome, pos - 1), log, script[pos - 1], outcome(pos), running, allPassed, left)
  }

  lemma TurnTaken(w: Setting, script: seq<Input>, outcome: nat -> Outcome, from: nat, pos: nat, next: nat,
                  past: seq<Event>, log: seq<Event>, running: bool, allPassed: bool, left: bool)
    requires pos < |script| && next == pos + 1 && Midway(w, script, outcome, from, pos, past, true, false, false)
    requires TurnDone(w, past, log, script[pos], outcome(next), running, allPassed, left)
    ensures Midway(w, script, outcome, from, next, log, running, allPassed, left)
  {
    NotOverYet(w, script, outcome, from, pos, past);
    assert JustAfter(w, script, outcome, next, log, running, allPassed, left);
  }

  lemma NotOverYet(w: Setting, script: seq<Input>, outcome: nat -> Outcome, from: nat, pos: nat, log: seq<Event>)
    requires Midway(w, script, outcome, from, pos, log, true, false, false)
    ensures JustBefore(w, script, outcome, pos, log)
  {}

  /** How a run has ended: the log is what the inputs make of it, up to the first moment at which it is over. */
  ghost predicate Finished(w: Setting, log: seq<Event>, script: seq<Input>, outcome: nat -> Outcome, pos: nat,
                           running: bool)
  {
    && w.order != [] && pos <= |script| && log == RunLog(w, script, outcome, pos)
    && NotOverBefore(w, script, outcome, pos)
    && (pos < |script| ==> Over(w, script, outcome, pos))
    && (running <==> && pos > 0 && !Stops(script[pos - 1])
                     && Ends(w, Acted(w, script, outcome, pos), script[pos - 1]))
  }

  lemma LoopEnds(w: Setting, script: seq<Input>, outcome: nat -> Outcome, from: nat, pos: nat, log: seq<Event>,
                 inTime: bool, running: bool, allPassed: bool, left: bool)
    requires Midway(w, script, outcome, from, pos, log, inTime, allPassed, left)
    requires running <==> inTime && (left || allPassed)
    requires inTime ==> left || pos == |script| || allPassed
    requires (allPassed <==> FullRound(log, w.order)) && (running ==> StackAfter(w.initial, log) == [])
    ensures Finished(w, log, script, outcome, pos, running)
  {}

  lemma LoopGoesOn(w: Setting, script: seq<Input>, outcome: nat -> Outcome, from: nat, pos: nat, log: seq<Event>,
                   allPassed: bool, left: bool)
    requires Midway(w, script, outcome, from, pos, log, true, allPassed, left) && (left || allPassed)
    requires (allPassed <==> FullRound(log, w.order)) && StackAfter(w.initial, log) != []
    ensures pos > from && AfterResolution(w, log, outcome(pos)) == RunLog(w, script, outcome, pos)
    ensures NotOverBefore(w, script, outcome, pos) && !Over(w, script, outcome, pos)
    ensures (allPassed <==> !AfterBreak(log)) && (AfterBreak(log) ==> log[|log| - 1].running)
  {
    OwnEnds(w, RunLog(w, script, outcome, pos - 1), script[pos - 1]);
  }

  // ---------- What a run is ----------

  /** Everything that holds of the log of a run: it is what the inputs make of it, one after the other, up to the first
      moment at which the run is over; and each of its events is justified. */
  ghost predicate RunDone(w: Setting, log: seq<Event>, script: seq<Input>, outcome: nat -> Outcome, pos: nat,
                          running: bool)
  {
    Finished(w, log, script, outcome, pos, running) && AllJustified(log, w.order, w.initial)
  }

  /** Every resolution comes after a full round and takes the greatest id. */
  ghost predicate AllAfterFullRound(log: seq<Event>, order: seq<Id>) {
    forall t :: 0 <= t < |log| && log[t].Resolved? ==>
      FullRound(log[..t], order) && forall e :: e in log[t].rest ==> e.id < log[t].id
  }

  lemma RunOver(w: Setting, log: seq<Event>, script: seq<Input>, outcome: nat -> Outcome, pos: nat, running: bool)
    requires Finished(w, log, script, outcome, pos, running) && AllJustified(log, w.order, w.initial)
    ensures Connected(script) ==> AllAfterFullRound(log, w.order)
    ensures running ==> StackAfter(w.initial, log) == [] && (Connected(script) ==> FullRound(log, w.order))
  {
    if Connected(script) {
      forall k | 0 <= k < pos ensures !Breaks(script[k]) {
        assert script[k] in script;
      }
      FullRoundsExactlyWhen(w, log, script, outcome, pos, running);
    }
  }

  lemma NoBreakMeansFullRounds(log: seq<Event>, order: seq<Id>, initial: seq<StackEntry>)
    requires AllJustified(log, order, initial) && NoBreak([], log)
    ensures AllAfterFullRound(log, order)
  {
    forall t | 0 <= t < |log| && log[t].Resolved?
      ensures FullRound(log[..t], order) && forall e :: e in log[t].rest ==> e.id < log[t].id
    {
      assert Justified(log, t, order, initial);
      assert !AfterBreak(log[..t]);
    }
  }

  // ---------- Nothing is lost, and nothing comes from nowhere ----------

  /** The entries that were put on the stack, and those that were countered, in order. */
  function AddedIn(events: seq<Event>): seq<StackEntry> {
    if events == [] then []
    else
      var last := events[|events| - 1];
      AddedIn(events[..|events| - 1]) + if last.Added? then [last.entry] else []
  }

  function RemovedIn(events: seq<Event>): seq<nat> {
    if events == [] then []
    else
      var last := events[|events| - 1];
      RemovedIn(events[..|events| - 1]) + if last.Removed? then [last.id] else []
  }

  /** Entries with the next ids, in order. */
  function Numbered(entries: seq<StackEntry>, firstId: nat): seq<StackEntry> {
    seq(|entries|, k requires 0 <= k < |entries| => entries[k].(id := firstId + k))
  }

  /** What an input puts on the stack by itself. */
  function Brought(i: Input): seq<StackEntry> {
    match i
    case Pass(triggers) => triggers
    case CastOrActivate(entry, triggers) => [entry] + triggers
    case OtherAction(_, triggers) => triggers
    case _ => []
  }

  /** Does something resolve after an input? */
  ghost predicate ResolvesAt(w: Setting, script: seq<Input>, outcome: nat -> Outcome, n: nat)
    requires w.order != [] && 0 < n <= |script|
  {
    var now := Acted(w, script, outcome, n);
    TimeToResolve(w, now, script[n - 1]) && StackAfter(w.initial, now) != []
  }

  /** What the inputs have put on the stack, and what has been triggered by what resolved in between, in order. */
  ghost function Asked(w: Setting, script: seq<Input>, outcome: nat -> Outcome, n: nat): seq<StackEntry>
    requires w.order != [] && n <= |script|
  {
    if n == 0 then []
    else
      var brought := Asked(w, script, outcome, n - 1) + Brought(script[n - 1]);
      if ResolvesAt(w, script, outcome, n) then brought + outcome(n).triggers else brought
  }

  predicate OnStack(entries: seq<StackEntry>, id: nat) { exists e :: e in entries && e.id == id }

  /** Those of some ids that are on the stack, each at its first mention. */
  function There(entries: seq<StackEntry>, ids: seq<nat>): seq<nat> {
    if ids == [] then []
    else
      var n := |ids| - 1;
      There(entries, ids[..n])
      + if ids[n] !in ids[..n] && OnStack(entries, ids[n]) then [ids[n]] else []
  }

  /** What the outcomes of the resolutions have countered, in order: what they name, as far as it is below the entry
      that resolves. */
  ghost function Countered(w: Setting, script: seq<Input>, outcome: nat -> Outcome, n: nat): seq<nat>
    requires w.order != [] && n <= |script|
  {
    if n == 0 then []
    else
      var before, now := Countered(w, script, outcome, n - 1), Acted(w, script, outcome, n);
      if ResolvesAt(w, script, outcome, n)
      then before + There(StackAfter(w.initial, AfterTop(w, now)), outcome(n).counters) else before
  }

  lemma OneMoreIn(log: seq<Event>, e: Event)
    ensures AddedIn(log + [e]) == AddedIn(log) + (if e.Added? then [e.entry] else [])
    ensures RemovedIn(log + [e]) == RemovedIn(log) + (if e.Removed? then [e.id] else [])
  {
    assert (log + [e])[..|log|] == log;
  }

  lemma {:induction false} NextIdCounts(firstId: nat, log: seq<Event>)
    ensures NextIdAfter(firstId, log) == firstId + |AddedIn(log)|
  {
    if log == [] {
    } else {
      NextIdCounts(firstId, log[..|log| - 1]);
    }
  }

  lemma NumberedBoth(a: seq<StackEntry>, b: seq<StackEntry>, firstId: nat)
    ensures Numbered(a + b, firstId) == Numbered(a, firstId) + Numbered(b, firstId + |a|)
  {}

  /** The log adds entries as asked for: so many more have been added, with the next ids, and none countered. */
  ghost predicate AddsTo(firstId: nat, log: seq<Event>, later: seq<Event>, entries: seq<StackEntry>) {
    AddedIn(later) == AddedIn(log) + Numbered(entries, NextIdAfter(firstId, log)) && RemovedIn(later) == RemovedIn(log)
  }

  lemma AddsBoth(firstId: nat, log: seq<Event>, middle: seq<Event>, later: seq<Event>, a: seq<StackEntry>,
                 b: seq<StackEntry>)
    requires AddsTo(firstId, log, middle, a) && AddsTo(firstId, middle, later, b)
    ensures AddsTo(firstId, log, later, a + b)
  {
    NextIdCounts(firstId, log);
    NextIdCounts(firstId, middle);
    NumberedBoth(a, b, NextIdAfter(firstId, log));
  }

  lemma {:induction false} TriggersAdd(w: Setting, log: seq<Event>, triggers: seq<StackEntry>)
    ensures AddsTo(w.firstId, log, AfterTriggers(w, log, triggers), triggers)
  {
    if triggers == [] {
      assert AddedIn(log) + [] == AddedIn(log);
    } else {
      var n := |triggers| - 1;
      TriggersAdd(w, log, triggers[..n]);
      var before := AfterTriggers(w, log, triggers[..n]);
      OneAdds(w, before, triggers[n]);
      assert triggers == triggers[..n] + [triggers[n]];
      AddsBoth(w.firstId, log, before, AfterTriggers(w, log, triggers), triggers[..n], [triggers[n]]);
    }
  }

  lemma OneAdds(w: Setting, log: seq<Event>, entry: StackEntry)
    ensures AddsTo(w.firstId, log, log + [Added(entry.(id := NextIdAfter(w.firstId, log)))], [entry])
  {
    OneMoreIn(log, Added(entry.(id := NextIdAfter(w.firstId, log))));
    assert Numbered([entry], NextIdAfter(w.firstId, log)) == [entry.(id := NextIdAfter(w.firstId, log))];
  }

  lemma OwnAddsWhatItBrings(w: Setting, log: seq<Event>, i: Input)
    requires w.order != []
    ensures AddsTo(w.firstId, log, AfterOwn(w, log, i), Brought(i))
  {
    match i
    case AutoPass => OneMoreIn(log, Passed(HolderAfter(w.order, log)));
    case Disconnected(running) => OneMoreIn(log, Broke(running, |StackAfter(w.initial, log)|));
    case ClockExpired(running) => OneMoreIn(log, Broke(running, |StackAfter(w.initial, log)|));
    case EndedByOther =>
    case Pass(triggers) =>
      var passed := log + [Passed(HolderAfter(w.order, log))];
      OneMoreIn(log, Passed(HolderAfter(w.order, log)));
      TriggersAdd(w, passed, triggers);
      AddsBoth(w.firstId, log, passed, AfterOwn(w, log, i), [], triggers);
      assert [] + triggers == triggers;
    case CastOrActivate(entry, triggers) =>
      CastAdds(w, log, entry, triggers);
    case OtherAction(_, triggers) =>
      TriggersAdd(w, log, triggers);
  }

  lemma CastAdds(w: Setting, log: seq<Event>, entry: StackEntry, triggers: seq<StackEntry>)
    requires w.order != []
    ensures AddsTo(w.firstId, log, AfterOwn(w, log, CastOrActivate(entry, triggers)), [entry] + triggers)
  {
    var e := Added(entry.(id := NextIdAfter(w.firstId, log)));
    var played := log + [e] + [Interrupted];
    OneAdds(w, log, entry);
    OneMoreIn(log + [e], Interrupted);
    TriggersAdd(w, played, triggers);
    AddsBoth(w.firstId, log, played, AfterOwn(w, log, CastOrActivate(entry, triggers)), [entry], triggers);
  }

  /** Ids on the stack grow from bottom to top, and are less than the next id. */
  ghost predicate IdsOk(w: Setting, log: seq<Event>) {
    var entries := StackAfter(w.initial, log);
    Ascending(entries) && forall e :: e in entries ==> e.id < NextIdAfter(w.firstId, log)
  }

  lemma {:induction false} TriggersKeepIds(w: Setting, log: seq<Event>, triggers: seq<StackEntry>)
    requires IdsOk(w, log)
    ensures IdsOk(w, AfterTriggers(w, log, triggers))
  {
    if triggers == [] {
    } else {
      var n := |triggers| - 1;
      TriggersKeepIds(w, log, triggers[..n]);
      var before := AfterTriggers(w, log, triggers[..n]);
      PushKeepsIds(w, before, triggers[n]);
    }
  }

  lemma PushKeepsIds(w: Setting, log: seq<Event>, entry: StackEntry)
    requires IdsOk(w, log)
    ensures IdsOk(w, log + [Added(entry.(id := NextIdAfter(w.firstId, log)))])
  {
    var e := Added(entry.(id := NextIdAfter(w.firstId, log)));
    StackAppend(w.initial, log, e);
    assert (log + [e])[..|log|] == log;
  }

  /** An event that puts nothing on the stack, and takes nothing off it, leaves the ids alone. */
  lemma PlainKeepsIds(w: Setting, log: seq<Event>, e: Event)
    requires IdsOk(w, log) && !e.Added? && !e.Removed? && !e.Resolved?
    ensures IdsOk(w, log + [e])
  {
    StackAppend(w.initial, log, e);
    assert (log + [e])[..|log|] == log;
  }

  lemma OwnKeepsIds(w: Setting, log: seq<Event>, i: Input)
    requires w.order != [] && IdsOk(w, log)
    ensures IdsOk(w, AfterOwn(w, log, i))
  {
    match i
    case AutoPass => PlainKeepsIds(w, log, Passed(HolderAfter(w.order, log)));
    case Disconnected(running) => PlainKeepsIds(w, log, Broke(running, |StackAfter(w.initial, log)|));
    case ClockExpired(running) => PlainKeepsIds(w, log, Broke(running, |StackAfter(w.initial, log)|));
    case EndedByOther =>
    case Pass(triggers) =>
      PlainKeepsIds(w, log, Passed(HolderAfter(w.order, log)));
      TriggersKeepIds(w, log + [Passed(HolderAfter(w.order, log))], triggers);
    case CastOrActivate(entry, triggers) =>
      var e := Added(entry.(id := NextIdAfter(w.firstId, log)));
      PushKeepsIds(w, log, entry);
      PlainKeepsIds(w, log + [e], Interrupted);
      TriggersKeepIds(w, log + [e] + [Interrupted], triggers);
    case OtherAction(_, triggers) => TriggersKeepIds(w, log, triggers);
  }

  /** Countering takes exactly the entries with the named ids, each once. */
  lemma {:induction false} CountersTake(w: Setting, log: seq<Event>, ids: seq<nat>)
    requires IdsOk(w, log)
    ensures Took(w, log, AfterCounters(w, log, ids), ids)
  {
    if ids == [] {
      assert RemovedIn(log) + [] == RemovedIn(log);
    } else {
      var n := |ids| - 1;
      CountersTake(w, log, ids[..n]);
      TookOneMore(w, log, AfterCounters(w, log, ids[..n]), ids, n);
    }
  }

  ghost predicate Took(w: Setting, log: seq<Event>, later: seq<Event>, ids: seq<nat>) {
    && RemovedIn(later) == RemovedIn(log) + There(StackAfter(w.initial, log), ids) && AddedIn(later) == AddedIn(log)
    && IdsOk(w, later) && LeftWithout(StackAfter(w.initial, log), StackAfter(w.initial, later), ids)
  }

  lemma TookOneMore(w: Setting, log: seq<Event>, before: seq<Event>, ids: seq<nat>, n: nat)
    requires n + 1 == |ids| && Took(w, log, before, ids[..n])
    ensures Took(w, log, AfterCountering(w, before, ids[n]), ids)
  {
    var entries, left := StackAfter(w.initial, log), StackAfter(w.initial, before);
    var later := AfterCountering(w, before, ids[n]);
    CounterTakes(w, before, ids[n]);
    StillThere(entries, left, ids, n);
    LeftWithoutOneMore(entries, left, StackAfter(w.initial, later), ids, n);
    Regroup(RemovedIn(log), There(entries, ids[..n]), if OnStack(left, ids[n]) then [ids[n]] else []);
  }

  lemma Regroup<T>(a: seq<T>, b: seq<T>, c: seq<T>)
    ensures (a + b) + c == a + (b + c)
  {}

  /** What is left of the stack when the entries with some ids are gone. */
  ghost predicate LeftWithout(entries: seq<StackEntry>, left: seq<StackEntry>, ids: seq<nat>) {
    forall e :: e in left <==> e in entries && e.id !in ids
  }

  lemma StillThere(entries: seq<StackEntry>, left: seq<StackEntry>, ids: seq<nat>, n: nat)
    requires n < |ids| && LeftWithout(entries, left, ids[..n])
    ensures OnStack(left, ids[n]) <==> ids[n] !in ids[..n] && OnStack(entries, ids[n])
  {}

  lemma LeftWithoutOneMore(entries: seq<StackEntry>, left: seq<StackEntry>, later: seq<StackEntry>, ids: seq<nat>,
                           n: nat)
    requires n + 1 == |ids| && LeftWithout(entries, left, ids[..n]) && LeftWithout(left, later, [ids[n]])
    ensures LeftWithout(entries, later, ids)
  {
    assert ids == ids[..n] + [ids[n]];
  }

  lemma CounterTakes(w: Setting, log: seq<Event>, id: nat)
    requires IdsOk(w, log)
    ensures var later, here := AfterCountering(w, log, id), OnStack(StackAfter(w.initial, log), id);
            && RemovedIn(later) == RemovedIn(log) + (if here then [id] else []) && AddedIn(later) == AddedIn(log)
            && IdsOk(w, later) && LeftWithout(StackAfter(w.initial, log), StackAfter(w.initial, later), [id])
  {
    var entries := StackAfter(w.initial, log);
    var i := IndexOfId(entries, id);
    FoundExactlyWhen(entries, id);
    if i < |entries| {
      OneRemoved(w, log, entries, i, Removed(id, Without(entries, i)));
    } else {
      assert RemovedIn(log) + [] == RemovedIn(log);
    }
  }

  lemma FoundExactlyWhen(entries: seq<StackEntry>, id: nat)
    ensures IndexOfId(entries, id) < |entries| <==> OnStack(entries, id)
  {
    var i := IndexOfId(entries, id);
    if i < |entries| {
      assert entries[i] in entries;
    }
  }

  lemma OneRemoved(w: Setting, log: seq<Event>, entries: seq<StackEntry>, i: nat, e: Event)
    requires IdsOk(w, log) && entries == StackAfter(w.initial, log) && i < |entries|
    requires e == Removed(entries[i].id, Without(entries, i))
    ensures RemovedIn(log + [e]) == RemovedIn(log) + [e.id] && AddedIn(log + [e]) == AddedIn(log)
    ensures IdsOk(w, log + [e]) && LeftWithout(entries, StackAfter(w.initial, log + [e]), [e.id])
  {
    OneMoreIn(log, e);
    StackAppend(w.initial, log, e);
    WithoutOne(entries, i);
    SameNextId(w.firstId, log, e);
  }

  lemma SameNextId(firstId: nat, log: seq<Event>, e: Event)
    requires !e.Added?
    ensures NextIdAfter(firstId, log + [e]) == NextIdAfter(firstId, log)
  {
    assert (log + [e])[..|log|] == log;
  }

  lemma WithoutOne(entries: seq<StackEntry>, i: nat)
    requires i < |entries| && Ascending(entries)
    ensures Ascending(Without(entries, i))
    ensures forall e :: e in Without(entries, i) <==> e in entries && e.id != entries[i].id
  {
    var rest := Without(entries, i);
    forall e | e in entries && e.id != entries[i].id ensures e in rest {
      var k :| 0 <= k < |entries| && entries[k] == e;
      assert k < i ==> rest[k] == e;
      assert k > i ==> rest[k - 1] == e;
    }
  }

  /** A resolution, told in full: the top of the stack goes, then exactly those of the countered entries that are there,
      each once; what has been triggered comes with the next ids; and the active player begins a new round. */
  lemma ResolutionInFull(w: Setting, log: seq<Event>, outcome: Outcome)
    requires IdsOk(w, log) && StackAfter(w.initial, log) != []
    ensures var later, below := AfterResolution(w, log, outcome), StackAfter(w.initial, AfterTop(w, log));
            && StackAfter(w.initial, log)[..|StackAfter(w.initial, log)| - 1] == below
            && AddedIn(later) == AddedIn(log) + Numbered(outcome.triggers, NextIdAfter(w.firstId, log))
            && RemovedIn(later) == RemovedIn(log) + There(below, outcome.counters)
            && IdsOk(w, later)
  {
    var taken := AfterTop(w, log);
    TopTaken(w, log);
    CountersTake(w, taken, outcome.counters);
    var countered := AfterCounters(w, taken, outcome.counters);
    TriggersThenRound(w, countered, outcome.triggers);
    PartsOfResolution(w, log, taken, countered, AfterResolution(w, log, outcome), outcome);
  }

  lemma PartsOfResolution(w: Setting, log: seq<Event>, taken: seq<Event>, countered: seq<Event>, later: seq<Event>,
                          outcome: Outcome)
    requires AddedIn(taken) == AddedIn(log) && RemovedIn(taken) == RemovedIn(log)
    requires Took(w, taken, countered, outcome.counters) && AddsTo(w.firstId, countered, later, outcome.triggers)
    ensures AddedIn(later) == AddedIn(log) + Numbered(outcome.triggers, NextIdAfter(w.firstId, log))
    ensures RemovedIn(later) == RemovedIn(log) + There(StackAfter(w.initial, taken), outcome.counters)
  {
    NextIdCounts(w.firstId, log);
    NextIdCounts(w.firstId, countered);
  }

  lemma TriggersThenRound(w: Setting, log: seq<Event>, triggers: seq<StackEntry>)
    requires IdsOk(w, log)
    ensures var later := AfterTriggers(w, log, triggers) + [Began(w.active)];
            AddsTo(w.firstId, log, later, triggers) && IdsOk(w, later)
  {
    var triggered := AfterTriggers(w, log, triggers);
    TriggersAdd(w, log, triggers);
    TriggersKeepIds(w, log, triggers);
    OneMoreIn(triggered, Began(w.active));
    PlainKeepsIds(w, triggered, Began(w.active));
  }

  lemma TopTaken(w: Setting, log: seq<Event>)
    requires IdsOk(w, log) && StackAfter(w.initial, log) != []
    ensures var taken, entries := AfterTop(w, log), StackAfter(w.initial, log);
            && StackAfter(w.initial, taken) == entries[..|entries| - 1] && IdsOk(w, taken)
            && AddedIn(taken) == AddedIn(log) && RemovedIn(taken) == RemovedIn(log)
  {
    var entries := StackAfter(w.initial, log);
    var e := Resolved(entries[|entries| - 1].id, entries[..|entries| - 1]);
    StackAppend(w.initial, log, e);
    OneMoreIn(log, e);
    assert (log + [e])[..|log|] == log;
  }

  /** The log has put on the stack what was asked for, under consecutive ids, and countered some entries. */
  ghost predicate AskedSoFar(w: Setting, log: seq<Event>, asked: seq<StackEntry>, countered: seq<nat>) {
    AddedIn(log) == Numbered(asked, w.firstId) && RemovedIn(log) == countered && IdsOk(w, log)
  }

  /** So in a run exactly what the inputs and the resolutions in between ask for is put on the stack, in order and under
      consecutive ids; and exactly what the resolutions counter, and is there, is taken off it. */
  lemma AsAskedFor(w: Setting, script: seq<Input>, outcome: nat -> Outcome, n: nat)
    requires w.order != [] && n <= |script| && IdsOk(w, [])
    ensures AskedAt(w, script, outcome, n)
  {
    var marks := Marks(w, script, outcome, n);
    AskedFirst(w, script, outcome);
    forall m | 0 <= m < n ensures marks[m] ==> marks[m + 1] {
      MarkNext(w, script, outcome, n, marks, m);
    }
    AllMarked(marks, n);
  }

  /** For how many inputs the log is as asked for. */
  ghost predicate AreMarks(w: Setting, script: seq<Input>, outcome: nat -> Outcome, n: nat, marks: seq<bool>)
    requires w.order != [] && n <= |script|
  {
    |marks| == n + 1 && forall m :: 0 <= m <= n ==> marks[m] == AskedAt(w, script, outcome, m)
  }

  lemma Marks(w: Setting, script: seq<Input>, outcome: nat -> Outcome, n: nat) returns (marks: seq<bool>)
    requires w.order != [] && n <= |script|
    ensures AreMarks(w, script, outcome, n, marks)
  {
    marks := seq(n + 1, m requires 0 <= m <= n => AskedAt(w, script, outcome, m));
  }

  lemma MarkNext(w: Setting, script: seq<Input>, outcome: nat -> Outcome, n: nat, marks: seq<bool>, m: nat)
    requires w.order != [] && m < n <= |script| && AreMarks(w, script, outcome, n, marks)
    ensures marks[m] ==> marks[m + 1]
  {
    if marks[m] {
      AskedNext(w, script, outcome, m + 1);
    }
  }

  lemma {:induction false} AllMarked(marks: seq<bool>, n: nat)
    requires n < |marks| && marks[0] && forall m :: 0 <= m < n ==> marks[m] ==> marks[m + 1]
    ensures marks[n]
  {
    if n == 0 {
    } else {
      AllMarked(marks, n - 1);
      assert marks[n - 1] ==> marks[n - 1 + 1];
    }
  }

  lemma AskedFirst(w: Setting, script: seq<Input>, outcome: nat -> Outcome)
    requires w.order != [] && IdsOk(w, [])
    ensures AskedAt(w, script, outcome, 0)
  {
    NothingAsked(w);
  }

  ghost predicate AskedAt(w: Setting, script: seq<Input>, outcome: nat -> Outcome, n: nat)
    requires w.order != [] && n <= |script|
  {
    AskedSoFar(w, RunLog(w, script, outcome, n), Asked(w, script, outcome, n), Countered(w, script, outcome, n))
  }

  lemma AskedNext(w: Setting, script: seq<Input>, outcome: nat -> Outcome, n: nat)
    requires w.order != [] && 0 < n <= |script| && AskedAt(w, script, outcome, n - 1)
    ensures AskedAt(w, script, outcome, n)
  {
    AskedByInput(w, script, outcome, n);
    AskedByResolution(w, script, outcome, n);
  }

  lemma AskedByInput(w: Setting, script: seq<Input>, outcome: nat -> Outcome, n: nat)
    requires w.order != [] && 0 < n <= |script|
    requires AskedSoFar(w, RunLog(w, script, outcome, n - 1), Asked(w, script, outcome, n - 1),
                        Countered(w, script, outcome, n - 1))
    ensures AskedSoFar(w, Acted(w, script, outcome, n), Asked(w, script, outcome, n - 1) + Brought(script[n - 1]),
                       Countered(w, script, outcome, n - 1))
  {
    OwnAsked(w, RunLog(w, script, outcome, n - 1), script[n - 1], Asked(w, script, outcome, n - 1));
    OwnKeepsIds(w, RunLog(w, script, outcome, n - 1), script[n - 1]);
  }

  lemma AskedByResolution(w: Setting, script: seq<Input>, outcome: nat -> Outcome, n: nat)
    requires w.order != [] && 0 < n <= |script|
    requires AskedSoFar(w, Acted(w, script, outcome, n), Asked(w, script, outcome, n - 1) + Brought(script[n - 1]),
                        Countered(w, script, outcome, n - 1))
    ensures AskedSoFar(w, RunLog(w, script, outcome, n), Asked(w, script, outcome, n), Countered(w, script, outcome, n))
  {
    if ResolvesAt(w, script, outcome, n) {
      ResolutionAsked(w, Acted(w, script, outcome, n), outcome(n),
                      Asked(w, script, outcome, n - 1) + Brought(script[n - 1]), Countered(w, script, outcome, n - 1));
    }
  }

  lemma NothingAsked(w: Setting)
    requires IdsOk(w, [])
    ensures AskedSoFar(w, [Began(w.active)], [], [])
  {
    var e := Began(w.active);
    assert [] + [e] == [e];
    OneMoreIn([], e);
    PlainKeepsIds(w, [], e);
  }

  lemma OwnAsked(w: Setting, past: seq<Event>, i: Input, before: seq<StackEntry>)
    requires w.order != [] && AddedIn(past) == Numbered(before, w.firstId)
    ensures AddedIn(AfterOwn(w, past, i)) == Numbered(before + Brought(i), w.firstId)
    ensures RemovedIn(AfterOwn(w, past, i)) == RemovedIn(past)
  {
    OwnAddsWhatItBrings(w, past, i);
    NextIdCounts(w.firstId, past);
    NumberedBoth(before, Brought(i), w.firstId);
  }

  lemma ResolutionAsked(w: Setting, now: seq<Event>, outcome: Outcome, asked: seq<StackEntry>, countered: seq<nat>)
    requires AskedSoFar(w, now, asked, countered) && StackAfter(w.initial, now) != []
    ensures AskedSoFar(w, AfterResolution(w, now, outcome), asked + outcome.triggers,
                       countered + There(StackAfter(w.initial, AfterTop(w, now)), outcome.counters))
  {
    ResolutionInFull(w, now, outcome);
    NextIdCounts(w.firstId, now);
    NumberedBoth(asked, outcome.triggers, w.firstId);
  }

  function IdsOf(entries: seq<StackEntry>): multiset<nat> {
    if entries == [] then multiset{} else IdsOf(entries[..|entries| - 1]) + multiset{entries[|entries| - 1].id}
  }

  /** The ids of the entries that have resolved or have been countered. */
  function Gone(events: seq<Event>): multiset<nat> {
    if events == [] then multiset{}
    else
      var last := events[|events| - 1];
      Gone(events[..|events| - 1]) + if last.Resolved? || last.Removed? then multiset{last.id} else multiset{}
  }

  lemma {:induction false} IdsWithout(entries: seq<StackEntry>, i: nat)
    requires i < |entries|
    ensures IdsOf(entries) == IdsOf(Without(entries, i)) + multiset{entries[i].id}
  {
    var n := |entries| - 1;
    if i == n {
      assert Without(entries, i) == entries[..n];
    } else {
      IdsWithout(entries[..n], i);
      assert Without(entries, i) == Without(entries[..n], i) + [entries[n]];
    }
  }

  /** Whatever was on the stack, or was put there, has resolved, has been countered, or is still there, exactly once. */
  lemma {:induction false} EachEntryLeavesOnce(log: seq<Event>, order: seq<Id>, initial: seq<StackEntry>)
    requires AllJustified(log, order, initial)
    ensures IdsOf(initial) + IdsOf(AddedIn(log))
            == IdsOf(StackAfter(initial, log)) + Gone(log)
  {
    if log == [] {
    } else {
      var n := |log| - 1;
      JustifiedFront(log, n, order, initial);
      EachEntryLeavesOnce(log[..n], order, initial);
      OneEventBalances(log[..n], log[n], log, initial);
    }
  }

  lemma JustifiedFront(log: seq<Event>, n: nat, order: seq<Id>, initial: seq<StackEntry>)
    requires n < |log| && AllJustified(log, order, initial)
    ensures AllJustified(log[..n], order, initial) && Truthful(StackAfter(initial, log[..n]), log[n])
  {
    forall t | 0 <= t < n ensures Justified(log[..n], t, order, initial) {
      assert Justified(log, t, order, initial);
      assert log[..n][..t] == log[..t];
    }
    assert Justified(log, n, order, initial);
  }

  lemma OneEventBalances(front: seq<Event>, e: Event, log: seq<Event>, initial: seq<StackEntry>)
    requires log == front + [e] && Truthful(StackAfter(initial, front), e)
    requires IdsOf(initial) + IdsOf(AddedIn(front)) == IdsOf(StackAfter(initial, front)) + Gone(front)
    ensures IdsOf(initial) + IdsOf(AddedIn(log)) == IdsOf(StackAfter(initial, log)) + Gone(log)
  {
    LoggedIds(front, e);
    OneEvent(StackAfter(initial, front), e);
    StackAppend(initial, front, e);
    Balance(IdsOf(initial) + IdsOf(AddedIn(front)), IdsOf(StackAfter(initial, front)), Gone(front),
            IdsOf(StackAfter(initial, log)), if e.Added? then multiset{e.entry.id} else multiset{},
            if e.Resolved? || e.Removed? then multiset{e.id} else multiset{});
  }

  lemma Balance(known: multiset<nat>, there: multiset<nat>, gone: multiset<nat>, later: multiset<nat>,
                comes: multiset<nat>, goes: multiset<nat>)
    requires known == there + gone && later + goes == there + comes
    ensures known + comes == later + (gone + goes)
  {
    forall id: nat ensures (known + comes)[id] == (later + (gone + goes))[id] {
      assert (later + goes)[id] == (there + comes)[id];
    }
  }

  /** Of the ids on the stack an event takes away those that it resolves or counters, and adds the one it adds. */
  lemma OneEvent(entries: seq<StackEntry>, e: Event)
    requires Truthful(entries, e)
    ensures IdsOf(StackStep(entries, e)) + (if e.Resolved? || e.Removed? then multiset{e.id} else multiset{})
            == IdsOf(entries) + (if e.Added? then multiset{e.entry.id} else multiset{})
  {
    match e
    case Added(entry) => OneMoreId(entries, entry);
    case Removed(id, rest) =>
      var i :| 0 <= i < |entries| && entries[i].id == id && rest == Without(entries, i);
      IdsWithout(entries, i);
    case _ =>
  }

  lemma LoggedIds(log: seq<Event>, e: Event)
    ensures IdsOf(AddedIn(log + [e])) == IdsOf(AddedIn(log)) + (if e.Added? then multiset{e.entry.id} else multiset{})
    ensures Gone(log + [e]) == Gone(log) + (if e.Resolved? || e.Removed? then multiset{e.id} else multiset{})
  {
    assert (log + [e])[..|log|] == log;
    if e.Added? {
      OneMoreId(AddedIn(log), e.entry);
    } else {
      assert AddedIn(log) + [] == AddedIn(log);
    }
  }

  lemma OneMoreId(entries: seq<StackEntry>, entry: StackEntry)
    ensures IdsOf(entries + [entry]) == IdsOf(entries) + multiset{entry.id}
  {
    assert (entries + [entry])[..|entries|] == entries;
  }

  /** The active player has the first turn of a round, and after a pass it is the next player's around the table. */
  lemma TurnsGoAround(order: seq<Id>, log: seq<Event>, player: Id)
    requires order != []
    ensures player in order ==> HolderAfter(order, log + [Began(player)]) == player
    ensures HolderAfter(order, log + [Passed(player)]) == order[Wrap(SeatAfter(order, log) + 1, |order|)]
    ensures HolderAfter(order, log + [Interrupted]) == HolderAfter(order, log)
  {
    OneMoreEvent(0, order, log, Began(player));
    OneMoreEvent(0, order, log, Passed(player));
    OneMoreEvent(0, order, log, Interrupted);
  }

  // ---------- When a resolution waits for everybody ----------

  /** The log has grown, and nothing broke. */
  ghost predicate NoBreak(before: seq<Event>, after: seq<Event>) {
    before <= after && forall k :: |before| <= k < |after| ==> !after[k].Broke?
  }

  /** A break while the game goes on resolves the top of the stack at once, if anything waits there. */
  ghost predicate BreaksResolve(log: seq<Event>) {
    forall k :: 0 <= k < |log| && log[k].Broke? && log[k].running && log[k].waiting > 0 ==>
      k + 1 < |log| && log[k + 1].Resolved?
  }

  /** A break that resolves something is in the log. */
  ghost predicate BreakLogged(log: seq<Event>) {
    exists k :: BreakAt(log, k)
  }

  predicate BreakAt(log: seq<Event>, k: int) {
    0 <= k < |log| && log[k].Broke? && log[k].running && log[k].waiting > 0
  }

  /** The connection is lost or the clock runs out, the game goes on, and something waits on the stack. */
  predicate BreaksOnStack(i: Input, waiting: nat) {
    Breaks(i) && i.running && waiting > 0
  }

  /** How many entries wait on the stack when the next input is read. */
  ghost function WaitingAt(w: Setting, script: seq<Input>, outcome: nat -> Outcome, n: nat): nat
    requires w.order != [] && n <= |script|
  {
    |StackAfter(w.initial, RunLog(w, script, outcome, n))|
  }

  lemma {:induction false} CountersOnlyRemove(w: Setting, log: seq<Event>, ids: seq<nat>)
    ensures var later := AfterCounters(w, log, ids);
            log <= later && forall k :: |log| <= k < |later| ==> later[k].Removed?
  {
    if ids == [] {
    } else {
      CountersOnlyRemove(w, log, ids[..|ids| - 1]);
    }
  }

  /** The log has grown without breaks and passes. */
  ghost predicate Quiet(before: seq<Event>, after: seq<Event>) {
    before <= after && forall k :: |before| <= k < |after| ==> !after[k].Broke? && !after[k].Passed?
  }

  lemma QuietTwice(before: seq<Event>, middle: seq<Event>, after: seq<Event>)
    requires Quiet(before, middle) && Quiet(middle, after)
    ensures Quiet(before, after) && forall k :: 0 <= k < |middle| ==> after[k] == middle[k]
  {}

  lemma QuietTriggers(w: Setting, log: seq<Event>, triggers: seq<StackEntry>)
    ensures Quiet(log, AfterTriggers(w, log, triggers))
  {
    TriggersNumbered(w, log, triggers);
  }

  /** A resolution takes the top first, and begins a new round last. */
  lemma ResolutionInOrder(w: Setting, log: seq<Event>, outcome: Outcome)
    requires StackAfter(w.initial, log) != []
    ensures var later := AfterResolution(w, log, outcome);
            && Quiet(log, later) && |later| > |log|
            && later[|log|].Resolved? && later[|later| - 1] == Began(w.active)
  {
    var taken := AfterTop(w, log);
    var countered := AfterCounters(w, taken, outcome.counters);
    var triggered := AfterTriggers(w, countered, outcome.triggers);
    CountersOnlyRemove(w, taken, outcome.counters);
    QuietTriggers(w, countered, outcome.triggers);
    QuietTwice(log, taken, countered);
    QuietTwice(log, countered, triggered);
    QuietTwice(log, triggered, triggered + [Began(w.active)]);
  }

  lemma OwnAdds(w: Setting, log: seq<Event>, i: Input)
    requires w.order != []
    ensures log <= AfterOwn(w, log, i) && (!Breaks(i) ==> NoBreak(log, AfterOwn(w, log, i)))
  {
    match i
    case Pass(triggers) => TriggersAfter(w, log, log + [Passed(HolderAfter(w.order, log))], triggers);
    case CastOrActivate(entry, triggers) =>
      var e := Added(entry.(id := NextIdAfter(w.firstId, log)));
      TriggersAfter(w, log, log + [e] + [Interrupted], triggers);
    case OtherAction(_, triggers) => TriggersAfter(w, log, log, triggers);
    case _ =>
  }

  lemma TriggersAfter(w: Setting, log: seq<Event>, middle: seq<Event>, triggers: seq<StackEntry>)
    requires NoBreak(log, middle)
    ensures NoBreak(log, AfterTriggers(w, middle, triggers))
  {
    TriggersNumbered(w, middle, triggers);
    var later := AfterTriggers(w, middle, triggers);
    assert later[..|middle|] == middle;
    forall k | |log| <= k < |middle| ensures !later[k].Broke? {
      assert later[k] == middle[k];
    }
  }

  /** The only break of a turn is the input's own, and it is followed by a resolution if there is one to make. */
  lemma TurnBreaks(w: Setting, past: seq<Event>, i: Input, outcome: Outcome)
    requires w.order != []
    ensures var later, waiting := AfterTurn(w, past, i, outcome), |StackAfter(w.initial, past)|;
            && past <= later
            && (!Breaks(i) ==> NoBreak(past, later))
            && (Breaks(i) ==>
                  && |later| > |past| && later[|past|] == Broke(i.running, waiting)
                  && (forall k :: |past| < k < |later| ==> !later[k].Broke?)
                  && (i.running && waiting > 0 ==> |later| > |past| + 1 && later[|past| + 1].Resolved?))
  {
    OwnAdds(w, past, i);
    OwnEnds(w, past, i);
    var now := AfterOwn(w, past, i);
    if TimeToResolve(w, now, i) && StackAfter(w.initial, now) != [] {
      ResolutionInOrder(w, now, outcome);
    }
  }

  lemma {:induction false} BreaksResolveAtOnce(w: Setting, script: seq<Input>, outcome: nat -> Outcome, n: nat)
    requires w.order != [] && n <= |script|
    ensures BreaksResolve(RunLog(w, script, outcome, n))
  {
    if n == 0 {
    } else {
      BreaksResolveAtOnce(w, script, outcome, n - 1);
      TurnResolves(w, RunLog(w, script, outcome, n - 1), script[n - 1], outcome(n));
    }
  }

  lemma TurnResolves(w: Setting, past: seq<Event>, i: Input, outcome: Outcome)
    requires w.order != [] && BreaksResolve(past)
    ensures BreaksResolve(AfterTurn(w, past, i, outcome))
  {
    TurnBreaks(w, past, i, outcome);
    var later := AfterTurn(w, past, i, outcome);
    forall k | 0 <= k < |later| && later[k].Broke? && later[k].running && later[k].waiting > 0
      ensures k + 1 < |later| && later[k + 1].Resolved?
    {
      if k < |past| {
        assert past[k] == later[k];
        assert past[k + 1] == later[k + 1];
      }
    }
  }

  lemma BreakAtInput(w: Setting, script: seq<Input>, outcome: nat -> Outcome, n: nat)
    requires w.order != [] && n < |script|
    ensures BreakLogged(RunLog(w, script, outcome, n + 1))
            <==> || BreakLogged(RunLog(w, script, outcome, n))
                 || BreaksOnStack(script[n], WaitingAt(w, script, outcome, n))
  {
    BreaksInTurn(w, RunLog(w, script, outcome, n), script[n], outcome(n + 1));
  }

  /** Which logs have a break that resolves something, and which inputs are one. */
  ghost predicate Flags(w: Setting, script: seq<Input>, outcome: nat -> Outcome, n: nat, logged: seq<bool>,
                        breaking: seq<bool>)
    requires w.order != [] && n <= |script|
  {
    && |logged| == n + 1 && |breaking| == n
    && (forall m :: 0 <= m <= n ==> logged[m] == BreakLogged(RunLog(w, script, outcome, m)))
    && forall m :: 0 <= m < n ==> breaking[m] == BreaksOnStack(script[m], WaitingAt(w, script, outcome, m))
  }

  lemma FlagsUpTo(w: Setting, script: seq<Input>, outcome: nat -> Outcome, n: nat)
    returns (logged: seq<bool>, breaking: seq<bool>)
    requires w.order != [] && n <= |script|
    ensures Flags(w, script, outcome, n, logged, breaking)
  {
    logged := seq(n + 1, m requires 0 <= m <= n => BreakLogged(RunLog(w, script, outcome, m)));
    breaking := seq(n, m requires 0 <= m < n => BreaksOnStack(script[m], WaitingAt(w, script, outcome, m)));
  }

  lemma FlagsFollow(w: Setting, script: seq<Input>, outcome: nat -> Outcome, n: nat, logged: seq<bool>,
                    breaking: seq<bool>)
    requires w.order != [] && n <= |script| && Flags(w, script, outcome, n, logged, breaking)
    ensures Follow(logged, breaking)
  {
    NoBreakAtFirst(w, script, outcome);
    forall m | 0 <= m < n ensures logged[m + 1] == (logged[m] || breaking[m]) {
      OneFlag(w, script, outcome, n, logged, breaking, m);
    }
  }

  lemma OneFlag(w: Setting, script: seq<Input>, outcome: nat -> Outcome, n: nat, logged: seq<bool>,
                breaking: seq<bool>, m: nat)
    requires w.order != [] && m < n <= |script| && Flags(w, script, outcome, n, logged, breaking)
    ensures logged[m + 1] == (logged[m] || breaking[m])
  {
    BreakAtInput(w, script, outcome, m);
  }

  lemma NoBreakAtFirst(w: Setting, script: seq<Input>, outcome: nat -> Outcome)
    requires w.order != []
    ensures !BreakLogged(RunLog(w, script, outcome, 0))
  {}

  ghost predicate Follow(logged: seq<bool>, breaking: seq<bool>) {
    && |logged| == |breaking| + 1 && !logged[0]
    && forall m :: 0 <= m < |breaking| ==> logged[m + 1] == (logged[m] || breaking[m])
  }

  lemma {:induction false} SomeBefore(logged: seq<bool>, breaking: seq<bool>, n: nat)
    requires Follow(logged, breaking) && n < |logged|
    ensures logged[n] <==> exists k :: 0 <= k < n && breaking[k]
  {
    if n == 0 {
    } else {
      SomeBefore(logged, breaking, n - 1);
      assert logged[n - 1 + 1] == (logged[n - 1] || breaking[n - 1]);
    }
  }

  lemma BreaksAreInputs(w: Setting, script: seq<Input>, outcome: nat -> Outcome, n: nat)
    requires w.order != [] && n <= |script|
    ensures BreakLogged(RunLog(w, script, outcome, n))
            <==> exists k :: 0 <= k < n && BreaksOnStack(script[k], WaitingAt(w, script, outcome, k))
  {
    var logged, breaking := FlagsUpTo(w, script, outcome, n);
    FlagsFollow(w, script, outcome, n, logged, breaking);
    SomeBefore(logged, breaking, n);
  }

  lemma BreaksInTurn(w: Setting, past: seq<Event>, i: Input, outcome: Outcome)
    requires w.order != []
    ensures BreakLogged(AfterTurn(w, past, i, outcome))
            <==> BreakLogged(past) || BreaksOnStack(i, |StackAfter(w.initial, past)|)
  {
    TurnBreaks(w, past, i, outcome);
    BreaksInSegment(past, AfterTurn(w, past, i, outcome), i, |StackAfter(w.initial, past)|);
  }

  lemma BreaksInSegment(past: seq<Event>, later: seq<Event>, i: Input, waiting: nat)
    requires past <= later && (!Breaks(i) ==> NoBreak(past, later))
    requires Breaks(i) ==>
               && |later| > |past| && later[|past|] == Broke(i.running, waiting)
               && forall k :: |past| < k < |later| ==> !later[k].Broke?
    ensures BreakLogged(later) <==> BreakLogged(past) || BreaksOnStack(i, waiting)
  {
    if k :| BreakAt(past, k) {
      assert BreakAt(later, k);
    }
    if BreaksOnStack(i, waiting) {
      assert BreakAt(later, |past|);
    }
    if k :| BreakAt(later, k) {
      assert k < |past| ==> BreakAt(past, k);
    }
  }

  /** A run resolves everything after a full round exactly when no break that lets the game go on meets a stack with
      something on it. */
  lemma FullRoundsExactlyWhen(w: Setting, log: seq<Event>, script: seq<Input>, outcome: nat -> Outcome, pos: nat,
                              running: bool)
    requires RunDone(w, log, script, outcome, pos, running)
    ensures AllAfterFullRound(log, w.order)
            <==> forall k :: 0 <= k < pos ==> !BreaksOnStack(script[k], WaitingAt(w, script, outcome, k))
  {
    BreaksAreInputs(w, script, outcome, pos);
    BreaksResolveAtOnce(w, script, outcome, pos);
    EarlyExactlyWhen(log, w.order, w.initial);
  }

  lemma EarlyExactlyWhen(log: seq<Event>, order: seq<Id>, initial: seq<StackEntry>)
    requires AllJustified(log, order, initial) && BreaksResolve(log)
    ensures AllAfterFullRound(log, order) <==> !BreakLogged(log)
  {
    if BreakLogged(log) {
      BreakIsEarly(log, order, initial);
    } else {
      NoBreakIsLate(log, order, initial);
    }
  }

  lemma BreakIsEarly(log: seq<Event>, order: seq<Id>, initial: seq<StackEntry>)
    requires AllJustified(log, order, initial) && BreaksResolve(log) && BreakLogged(log)
    ensures !AllAfterFullRound(log, order)
  {
    var k :| BreakAt(log, k);
    assert Justified(log, k + 1, order, initial) && AfterBreak(log[..k + 1]);
  }

  lemma NoBreakIsLate(log: seq<Event>, order: seq<Id>, initial: seq<StackEntry>)
    requires AllJustified(log, order, initial) && !BreakLogged(log)
    ensures AllAfterFullRound(log, order)
  {
    forall t | 0 <= t < |log| && log[t].Resolved?
      ensures FullRound(log[..t], order) && forall e :: e in log[t].rest ==> e.id < log[t].id
    {
      NotAfterBreak(log, t, order, initial);
      assert !BreakAt(log, t - 1) && Justified(log, t, order, initial);
    }
  }

  /** A resolution directly after a break has a break with something waiting before it. */
  lemma NotAfterBreak(log: seq<Event>, t: nat, order: seq<Id>, initial: seq<StackEntry>)
    requires AllJustified(log, order, initial) && t < |log| && log[t].Resolved?
    ensures AfterBreak(log[..t]) ==> log[t - 1].Broke? && log[t - 1].running && log[t - 1].waiting > 0
  {
    assert Justified(log, t, order, initial);
    if AfterBreak(log[..t]) {
      assert Justified(log, t - 1, order, initial);
      assert log[..t] == log[..t - 1] + [log[t - 1]];
      StackAppend(initial, log[..t - 1], log[t - 1]);
    }
  }

  // ---------- A run in which nobody passes ----------

  /** The holder activates an ability and then loses the connection. */
  const ABILITY := StackEntry(0, Activated(3), 1, [], false, false)
  const ABANDONED: seq<Input> := [CastOrActivate(ABILITY, []), Disconnected(true)]

  lemma {:induction false} NoPasses(events: seq<Event>)
    requires forall e :: e in events ==> !e.Passed?
    ensures PassesIn(events) == []
  {
    if events == [] {
      assert PassesIn(events) == [];
    } else {
      NoPasses(events[..|events| - 1]);
    }
  }

  lemma NoFullRoundWithoutPasses(past: seq<Event>, order: seq<Id>)
    requires order != [] && forall e :: e in past ==> !e.Passed?
    ensures !FullRound(past, order)
  {
    forall s | 0 <= s <= |past| ensures multiset(PassesIn(past[s..])) != multiset(order) {
      NoPasses(past[s..]);
      assert |multiset(order)| == |order|;
    }
  }

  /** After the first input the ability is on the stack, and nobody has passed. */
  lemma AbilityWaits(w: Setting, outcome: nat -> Outcome)
    requires w.order != [] && w.initial == []
    ensures var log := RunLog(w, ABANDONED, outcome, 1);
            && log == Acted(w, ABANDONED, outcome, 1) && |StackAfter([], log)| == 1
            && (forall e :: e in log ==> !e.Passed?) && !FullRound(log, w.order)
  {
    var start := RunLog(w, ABANDONED, outcome, 0);
    var e := Added(ABILITY.(id := NextIdAfter(w.firstId, start)));
    var log := start + [e] + [Interrupted];
    assert Acted(w, ABANDONED, outcome, 1) == log;
    StackAppend([], start, e);
    StackAppend([], start + [e], Interrupted);
    StackAppend([], [], start[0]);
    assert [] + [start[0]] == start;
    NoFullRoundWithoutPasses(log, w.order);
  }

  /** So the rule "only after everybody passed" does fail: in every run of this script the ability resolves although
      nobody has passed at all. */
  lemma AbandonedResolvesEarly(w: Setting, log: seq<Event>, outcome: nat -> Outcome, pos: nat, running: bool)
    requires w.initial == [] && RunDone(w, log, ABANDONED, outcome, pos, running)
    ensures pos == 2 && WaitingAt(w, ABANDONED, outcome, 1) == 1 && PassesIn(log) == []
    ensures !AllAfterFullRound(log, w.order)
  {
    AbilityWaits(w, outcome);
    assert !Over(w, ABANDONED, outcome, 1);
    assert pos == 2;
    var past := RunLog(w, ABANDONED, outcome, 1);
    OwnEnds(w, past, ABANDONED[1]);
    ResolutionInOrder(w, past + [Broke(true, 1)], outcome(2));
    forall e | e in log ensures !e.Passed? {
      var k :| 0 <= k < |log| && log[k] == e;
      assert k < |past| ==> past[k] in past;
    }
    NoPasses(log);
    assert BreaksOnStack(ABANDONED[1], WaitingAt(w, ABANDONED, outcome, 1));
    FullRoundsExactlyWhen(w, log, ABANDONED, outcome, pos, running);
  }

  /** And such a run exists: the engine's own. */
  method LostConnectionResolvesEarly(outcome: nat -> Outcome) returns (round: PriorityRound, pos: nat)
    requires WellFormedOutcomes(outcome)
    ensures round.Valid() && round.priority.order == [1, 2]
    ensures RunDone(Setting(1, [1, 2], [], 1), round.log, ABANDONED, outcome, pos, round.running)
    ensures PassesIn(round.log) == [] && !AllAfterFullRound(round.log, [1, 2])
  {
    round := new PriorityRound([1, 2]);
    pos := round.Run(1, ABANDONED, outcome);
    AbandonedResolvesEarly(Setting(1, [1, 2], [], 1), round.log, outcome, pos, round.running);
  }
}
