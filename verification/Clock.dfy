/** The game clock. Every update charges the running player the whole milliseconds since the last tick and
    forgets the rest, so a clock may run out late, but never early. */
module Clock {
  import opened Common
  import opened Permanents

  /** Ticks of the steady clock in one millisecond. */
  const TICKS := 1000000

  // ---------- What a list of charged intervals comes to ----------

  function Sum(intervals: seq<nat>): nat {
    if intervals == [] then 0 else Sum(intervals[..|intervals| - 1]) + intervals[|intervals| - 1]
  }

  /** The milliseconds charged: each interval is rounded down on its own. */
  function Charged(intervals: seq<nat>): nat {
    if intervals == [] then 0 else Charged(intervals[..|intervals| - 1]) + intervals[|intervals| - 1] / TICKS
  }

  function Left(budget: int, intervals: seq<nat>): int {
    if budget > Charged(intervals) then budget - Charged(intervals) else 0
  }

  function AfterCharge(time: int, interval: nat): int {
    if time > interval / TICKS then time - interval / TICKS else 0
  }

  lemma OneMoreInterval(budget: nat, intervals: seq<nat>, interval: nat)
    ensures Left(budget, intervals + [interval]) == AfterCharge(Left(budget, intervals), interval)
  {
    assert (intervals + [interval])[..|intervals|] == intervals;
  }

  /** What rounding has dropped: of each interval the part that is no whole millisecond. */
  function Dropped(intervals: seq<nat>): nat {
    if intervals == [] then 0 else Dropped(intervals[..|intervals| - 1]) + intervals[|intervals| - 1] % TICKS
  }

  /** Time used is time charged and time dropped. */
  lemma {:induction false} UsedIsChargedAndDropped(intervals: seq<nat>)
    ensures Sum(intervals) == TICKS * Charged(intervals) + Dropped(intervals)
    ensures Dropped(intervals) <= (TICKS - 1) * |intervals|
  {
    if intervals == [] {
      assert Sum(intervals) == Charged(intervals) == Dropped(intervals) == 0;
    } else {
      UsedIsChargedAndDropped(intervals[..|intervals| - 1]);
      var last := intervals[|intervals| - 1];
      assert last == TICKS * (last / TICKS) + last % TICKS;
    }
  }

  /** The budget is used, by the clock on the wall. */
  predicate Used(budget: nat, intervals: seq<nat>) { Sum(intervals) >= TICKS * budget }

  /** The clock shows no time. */
  predicate Out(budget: nat, intervals: seq<nat>) { Left(budget, intervals) == 0 }

  /** A clock never runs out early; and it is right exactly when the time used does not lie between the budget
      and the budget with the dropped time on top. */
  lemma OnTimeExactlyWhen(budget: nat, intervals: seq<nat>)
    ensures Out(budget, intervals) ==> Used(budget, intervals)
    ensures (Out(budget, intervals) <==> Used(budget, intervals))
            <==> !(TICKS * budget <= Sum(intervals) < TICKS * budget + Dropped(intervals))
  {
    UsedIsChargedAndDropped(intervals);
  }

  /** In particular when every interval is of whole milliseconds. */
  lemma {:induction false} WholeMillisecondsAreOnTime(budget: nat, intervals: seq<nat>)
    requires forall x :: x in intervals ==> x % TICKS == 0
    ensures Out(budget, intervals) <==> Used(budget, intervals)
  {
    NothingDropped(intervals);
    OnTimeExactlyWhen(budget, intervals);
  }

  lemma {:induction false} NothingDropped(intervals: seq<nat>)
    requires forall x :: x in intervals ==> x % TICKS == 0
    ensures Dropped(intervals) == 0
  {
    if intervals == [] {
      assert Dropped(intervals) == 0;
    } else {
      assert intervals[|intervals| - 1] in intervals;
      var front := intervals[..|intervals| - 1];
      assert forall x :: x in front ==> x in intervals;
      NothingDropped(front);
    }
  }

  /** It can be late by any amount: updates half a millisecond apart cost nothing, so a clock looked at that often
      still shows its whole budget when it has been used up, however many times over. */
  lemma {:induction false} HalfMillisecondsAreFree(budget: nat, n: nat)
    ensures var intervals := seq(n, i => TICKS / 2);
            && Sum(intervals) == n * (TICKS / 2) && Left(budget, intervals) == budget
            && (n >= 2 * budget ==> Used(budget, intervals))
            && (budget > 0 ==> !Out(budget, intervals))
    decreases n
  {
    var intervals := seq(n, i => TICKS / 2);
    if n == 0 {
      assert Sum(intervals) == Charged(intervals) == 0;
    } else {
      HalfMillisecondsAreFree(1, n - 1);
      assert intervals[..n - 1] == seq(n - 1, i => TICKS / 2);
      assert Charged(intervals[..n - 1]) == 0;
    }
  }

  // ---------- The clock ----------

  class GameClock {
    const budget: nat
    var remaining: map<Id, int>
    var active: Option<Id>
    var lastTick: nat
    /** The intervals charged to every player so far. */
    ghost var intervals: map<Id, seq<nat>>

    ghost predicate Valid()
      reads this
    {
      && remaining.Keys == intervals.Keys
      && forall p :: p in remaining ==> remaining[p] == Left(budget, intervals[p])
    }

    constructor (timePerPlayer: nat, now: nat)
      ensures Valid() && budget == 1000 * timePerPlayer && remaining == map[] && active == None && lastTick == now
    {
      budget := 1000 * timePerPlayer;
      remaining, active, lastTick, intervals := map[], None, now, map[];
    }

    method AddPlayer(player: Id)
      requires Valid()
      modifies this`remaining, this`intervals
      ensures Valid() && intervals == old(intervals)[player := []] && remaining == old(remaining)[player := budget]
    {
      remaining := remaining[player := budget];
      intervals := intervals[player := []];
    }

    /** Charges the running player, and nobody else, the interval since the last tick. */
    method Update(now: nat)
      requires Valid() && lastTick <= now
      modifies this`remaining, this`lastTick, this`intervals
      ensures Valid()
      ensures lastTick == if active.Some? then now else old(lastTick)
      ensures intervals == if active.Some? && active.value in old(intervals)
                           then old(intervals)[active.value := old(intervals)[active.value] + [now - old(lastTick)]]
                           else old(intervals)
    {
      if active.None? {
        return;
      }
      var interval := now - lastTick;
      lastTick := now;
      var player := active.value;
      if player in remaining {
        var time := Charge(remaining[player], interval);
        OneMoreInterval(budget, intervals[player], interval);
        remaining := remaining[player := time];
        intervals := intervals[player := intervals[player] + [interval]];
      }
    }

    static method Charge(time: int, interval: nat) returns (rest: int)
      ensures rest == AfterCharge(time, interval)
    {
      var elapsed := interval / 1_000_000;
      rest := time - elapsed;
      if rest < 0 {
        rest := 0;
      }
    }

    /** The running player is charged up to now; the next one is charged from a second look at the clock on. */
    method StartClock(player: Id, now: nat, later: nat)
      requires Valid() && lastTick <= now <= later
      modifies this`remaining, this`active, this`lastTick, this`intervals
      ensures Valid() && active == Some(player) && lastTick == later
      ensures intervals == if old(active).Some? && old(active).value in old(intervals)
                           then old(intervals)[old(active).value := old(intervals)[old(active).value]
                           + [now - old(lastTick)]]
                           else old(intervals)
    {
      Update(now);
      active := Some(player);
      lastTick := later;
    }

    method StopClock(now: nat)
      requires Valid() && lastTick <= now
      modifies this`remaining, this`active, this`lastTick, this`intervals
      ensures Valid() && active == None
      ensures intervals == if old(active).Some? && old(active).value in old(intervals)
                           then old(intervals)[old(active).value := old(intervals)[old(active).value]
                           + [now - old(lastTick)]]
                           else old(intervals)
    {
      Update(now);
      active := None;
    }

    /** Whatever the run so far: a player is expired exactly when the milliseconds charged have reached the budget,
        so never before the time used has, and at once when no time was dropped. */
    method IsExpired(player: Id) returns (expired: bool)
      requires Valid()
      ensures expired <==> player in intervals && Charged(intervals[player]) >= budget
      ensures expired <==> player in intervals && Sum(intervals[player]) - Dropped(intervals[player]) >= TICKS * budget
    {
      if player !in remaining {
        return false;
      }
      UsedIsChargedAndDropped(intervals[player]);
      return remaining[player] <= 0;
    }
  }
}
