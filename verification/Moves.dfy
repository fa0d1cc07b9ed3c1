/** The card moves of the game context that touch the zones only. */
module Moves {
  import opened Common
  import opened Permanents
  import opened Zones
  import opened ZoneManagement

  /** How many of `count` things can be had from `size`. */
  function Clamp(count: int, size: nat): nat { if count <= 0 then 0 else if count < size then count else size }

  /** The last n cards of a pile, last one first. */
  function FromTop(cards: seq<Card>, n: nat): seq<Card>
    requires n <= |cards|
  {
    if n == 0 then [] else FromTop(cards, n - 1) + [cards[|cards| - n]]
  }

  /** n cards moved from the end of one pile to the end of another, one by one. */
  function LastMovedTimes(z: Zoning, from: Pile, to: Pile, n: nat): (y: Zoning)
    requires from != to && n <= |At(z.piles, from)|
    ensures |At(y.piles, from)| == |At(z.piles, from)| - n
  {
    if n == 0 then z else LastMoved(LastMovedTimes(z, from, to, n - 1), from, to)
  }

  /** n cards have come from the end of one pile, last one first, and nothing else has changed but zone notes. */
  ghost predicate TopMoved(z: Zoning, y: Zoning, from: Pile, to: Pile, n: nat) {
    && n <= |At(z.piles, from)|
    && At(y.piles, from) == At(z.piles, from)[..|At(z.piles, from)| - n]
    && At(y.piles, to) == At(z.piles, to) + FromTop(At(z.piles, from), n)
    && y.field == z.field && y.exile == z.exile && y.owner == z.owner
    && forall pile :: pile != from && pile != to ==> At(y.piles, pile) == At(z.piles, pile)
  }

  lemma OneMoreFromTop(z: Zoning, m: Zoning, from: Pile, to: Pile, n: nat)
    requires from != to && n < |At(z.piles, from)| && TopMoved(z, m, from, to, n)
    ensures TopMoved(z, LastMoved(m, from, to), from, to, n + 1)
  {
    var cards := At(z.piles, from);
    assert cards[..|cards| - n][..|cards| - n - 1] == cards[..|cards| - (n + 1)];
    assert FromTop(cards, n + 1) == FromTop(cards, n) + [cards[|cards| - (n + 1)]];
  }

  lemma {:induction false} MovedTimes(z: Zoning, from: Pile, to: Pile, n: nat)
    requires from != to && n <= |At(z.piles, from)|
    ensures TopMoved(z, LastMovedTimes(z, from, to, n), from, to, n)
  {
    if n == 0 {
      assert At(z.piles, from)[..|At(z.piles, from)|] == At(z.piles, from);
    } else {
      MovedTimes(z, from, to, n - 1);
      OneMoreFromTop(z, LastMovedTimes(z, from, to, n - 1), from, to, n - 1);
    }
  }

  ghost predicate MovedSoFar(z: Zoning, y: Zoning, from: Pile, to: Pile, i: nat) {
    && from != to && i <= |At(z.piles, from)| && |At(y.piles, from)| == |At(z.piles, from)| - i
    && y == LastMovedTimes(z, from, to, i) && SameHeld(z, y)
  }

  /** So many cards have moved as were asked for and were there. */
  ghost predicate UpTo(z: Zoning, y: Zoning, from: Pile, to: Pile, count: int) {
    from != to && y == LastMovedTimes(z, from, to, Clamp(count, |At(z.piles, from)|))
  }

  /** The loop of draws and mills: until the count is reached or the pile is empty; says whether the pile was
      too small. */
  method MoveUpTo(zones: ZoneManager, from: Pile, to: Pile, count: int) returns (short: bool)
    requires zones.Valid() && IsPile(from) && IsPile(to) && from != to && from.player == to.player
    modifies zones
    ensures zones.Valid() && SameHeld(old(zones.Value()), zones.Value())
    ensures short == (count > |old(zones.Cards(from))|)
    ensures UpTo(old(zones.Value()), zones.Value(), from, to, count)
    ensures old(zones.Noted()) ==> zones.Noted()
  {
    ghost var z := zones.Value();
    var i := MoveLoop(zones, from, to, count);
    AllMoved(z, zones.Value(), from, to, count, i);
    short := i < count;
  }

  method MoveLoop(zones: ZoneManager, from: Pile, to: Pile, count: int) returns (i: nat)
    requires zones.Valid() && IsPile(from) && IsPile(to) && from != to && from.player == to.player
    modifies zones
    ensures zones.Valid() && (old(zones.Noted()) ==> zones.Noted())
    ensures MovedSoFar(old(zones.Value()), zones.Value(), from, to, i)
    ensures (i == 0 || i <= count) && (i < count ==> zones.Cards(from) == [])
  {
    ghost var z, noted := zones.Value(), zones.Noted();
    i := 0;
    NoneMoved(z, from, to);
    while i < count && zones.Cards(from) != []
      invariant zones.Valid() && (noted ==> zones.Noted())
      invariant (i == 0 || i <= count) && MovedSoFar(z, zones.Value(), from, to, i)
      decreases count - i
    {
      i := MoveOne(zones, from, to, z, i);
    }
  }

  lemma AllMoved(z: Zoning, y: Zoning, from: Pile, to: Pile, count: int, i: nat)
    requires MovedSoFar(z, y, from, to, i) && (i == 0 || i <= count) && (i < count ==> At(y.piles, from) == [])
    ensures UpTo(z, y, from, to, count) && (i < count <==> count > |At(z.piles, from)|)
  {
    assert i == Clamp(count, |At(z.piles, from)|);
  }

  lemma NoneMoved(z: Zoning, from: Pile, to: Pile)
    requires from != to
    ensures MovedSoFar(z, z, from, to, 0)
  {}

  method MoveOne(zones: ZoneManager, from: Pile, to: Pile, ghost z: Zoning, i: nat) returns (next: nat)
    requires zones.Valid() && IsPile(from) && IsPile(to) && from != to && from.player == to.player
    requires MovedSoFar(z, zones.Value(), from, to, i) && zones.Cards(from) != []
    modifies zones
    ensures zones.Valid() && (old(zones.Noted()) ==> zones.Noted()) && next == i + 1
    ensures MovedSoFar(z, zones.Value(), from, to, next)
  {
    ghost var y := zones.Value();
    next := i + 1;
    var card := zones.MoveLast(from, to);
    OneMoved(z, y, zones.Value(), from, to, i, next);
  }

  lemma OneMoved(z: Zoning, y: Zoning, x: Zoning, from: Pile, to: Pile, i: nat, next: nat)
    requires MovedSoFar(z, y, from, to, i) && At(y.piles, from) != [] && next == i + 1
    requires x == LastMoved(y, from, to) && SameHeld(y, x)
    ensures MovedSoFar(z, x, from, to, next)
  {
    StillSameHeld(z, y, x);
  }

  lemma StillSameHeld(z: Zoning, y: Zoning, x: Zoning)
    requires SameHeld(z, y) && SameHeld(y, x)
    ensures SameHeld(z, x)
  {}

  // ---------- Looking at the top of a library ----------

  /** A player's answer to a card prompt; a timeout has no ids and target 0. */
  datatype Response = Response(ids: seq<Id>, target: Id)

  /** The cards an answer names: its ids, or else its single target. */
  function Named(response: Response): (named: set<Id>)
    ensures forall id :: id in named <==>
              if response.ids != [] then id in response.ids else response.target != 0 && id == response.target
  {
    if response.ids == [] && response.target != 0 then {response.target}
    else set i | 0 <= i < |response.ids| :: response.ids[i]
  }

  /** The cards that are named, or those that are not, in order. */
  function Keep(cards: seq<Card>, named: set<Id>, chosen: bool): seq<Card> {
    if cards == [] then []
    else (if (cards[0].id in named) == chosen then [cards[0]] else []) + Keep(cards[1..], named, chosen)
  }

  /** One card comes before another in a list. */
  ghost predicate ComesBefore(cards: seq<Card>, c: Card, d: Card) {
    exists a, b :: 0 <= a < b < |cards| && cards[a] == c && cards[b] == d
  }

  /** Some cards of a list, in its order. */
  ghost predicate Sublist(some: seq<Card>, cards: seq<Card>) {
    && (forall c :: c in some ==> c in cards)
    && forall i, j :: 0 <= i < j < |some| ==> ComesBefore(cards, some[i], some[j])
  }

  /** What is kept is in order, and is chosen or not as asked for. */
  lemma {:induction false} KeepIsSublist(cards: seq<Card>, named: set<Id>, chosen: bool)
    ensures Sublist(Keep(cards, named, chosen), cards)
    ensures forall c :: c in Keep(cards, named, chosen) ==> (c.id in named) == chosen
  {
    if cards == [] {
    } else {
      KeepIsSublist(cards[1..], named, chosen);
      OneMoreInFront(Keep(cards[1..], named, chosen), cards, Keep(cards, named, chosen));
    }
  }

  /** What is kept of the one kind and of the other is the whole list. */
  lemma {:induction false} KeepSplits(cards: seq<Card>, named: set<Id>)
    ensures multiset(Keep(cards, named, true)) + multiset(Keep(cards, named, false)) == multiset(cards)
  {
    if cards == [] {
    } else {
      KeepSplits(cards[1..], named);
      assert cards == [cards[0]] + cards[1..];
    }
  }

  lemma OneMoreInFront(some: seq<Card>, cards: seq<Card>, more: seq<Card>)
    requires cards != [] && Sublist(some, cards[1..]) && (more == some || more == [cards[0]] + some)
    ensures Sublist(more, cards)
  {
    forall i, j | 0 <= i < j < |more| ensures ComesBefore(cards, more[i], more[j]) {
      if more != some && i == 0 {
        assert more[j] == some[j - 1] && some[j - 1] in cards[1..];
        var b :| 0 <= b < |cards[1..]| && cards[1..][b] == more[j];
        assert cards[0] == more[i] && cards[b + 1] == more[j];
      } else {
        var d := |more| - |some|;
        assert ComesBefore(cards[1..], some[i - d], some[j - d]);
        var a, b :| 0 <= a < b < |cards[1..]| && cards[1..][a] == some[i - d] && cards[1..][b] == some[j - d];
        assert cards[a + 1] == more[i] && cards[b + 1] == more[j];
      }
    }
  }

  lemma {:induction false} KeepConcat(a: seq<Card>, b: seq<Card>, named: set<Id>, chosen: bool)
    ensures Keep(a + b, named, chosen) == Keep(a, named, chosen) + Keep(b, named, chosen)
  {
    if a == [] {
      assert a + b == b;
    } else {
      var rest := a[1..];
      assert a == [a[0]] + rest && a + b == [a[0]] + (rest + b);
      KeepConcat(rest, b, named, chosen);
      KeepFirst(a[0], rest, a, named, chosen);
      KeepFirst(a[0], rest + b, a + b, named, chosen);
    }
  }

  lemma KeepFirst(card: Card, rest: seq<Card>, cards: seq<Card>, named: set<Id>, chosen: bool)
    requires cards == [card] + rest
    ensures Keep(cards, named, chosen)
            == (if (card.id in named) == chosen then [card] else []) + Keep(rest, named, chosen)
  {
    assert cards[1..] == rest;
  }

  /** Cards that have left all zones and are held by the running operation. */
  ghost predicate InFlight(z: Zoning, y: Zoning, cards: seq<Card>) {
    forall id: Id :: Held(y, id) + Times(cards, id) == Held(z, id)
  }

  /** y has this library and graveyard for a player, and is otherwise like z but for the zone notes. */
  ghost predicate Arranged(z: Zoning, y: Zoning, player: Id, library: seq<Card>, graveyard: seq<Card>) {
    && At(y.piles, Pile(Library, player)) == library && At(y.piles, Pile(Graveyard, player)) == graveyard
    && (forall pile ::
         pile != Pile(Library, player) && pile != Pile(Graveyard, player) ==> At(y.piles, pile) == At(z.piles, pile))
    && y.field == z.field && y.exile == z.exile && y.owner == z.owner
  }

  ghost predicate OnlyLibrary(z: Zoning, y: Zoning, player: Id, library: seq<Card>) {
    Arranged(z, y, player, library, At(z.piles, Pile(Graveyard, player)))
  }

  lemma FlightNowhere(z: Zoning, y: Zoning, cards: seq<Card>, i: nat)
    requires Unique(z) && InFlight(z, y, cards) && i < |cards|
    ensures Held(y, cards[i].id) == 0
  {
    TimesMeansIn(cards, cards[i].id);
  }

  /** One card less in a zone, one more in flight; and the other way round. */
  lemma TakeOff(z: Zoning, y: Zoning, x: Zoning, cards: seq<Card>, card: Card, zone: Zone)
    requires InFlight(z, y, cards) && Gains(x, y, zone, card.id)
    ensures InFlight(z, x, cards + [card]) && InFlight(z, x, [card] + cards)
  {
    forall id: Id ensures Times(cards + [card], id) == Times(cards, id) + (if card.id == id then 1 else 0) {
      TimesConcat(cards, [card], id);
    }
  }

  lemma LandFirst(z: Zoning, y: Zoning, x: Zoning, cards: seq<Card>, zone: Zone)
    requires cards != [] && InFlight(z, y, cards) && Gains(y, x, zone, cards[0].id)
    ensures InFlight(z, x, cards[1..])
  {}

  /** Take up to `count` cards off the top of a library: the deepest comes first in the result. */
  method TakeTop(zones: ZoneManager, player: Id, count: int) returns (tail: seq<Card>)
    requires zones.Valid()
    modifies zones
    ensures zones.Valid() && (old(zones.Noted()) ==> zones.Noted())
    ensures Looking(old(zones.Value()), zones.Value(), player, tail, zones.dealt)
    ensures |tail| == Clamp(count, |old(zones.Cards(Pile(Library, player)))|)
  {
    ghost var z := zones.Value();
    tail := [];
    while |tail| < count
      invariant zones.Valid() && (old(zones.Noted()) ==> zones.Noted())
      invariant Looking(z, zones.Value(), player, tail, zones.dealt)
      invariant tail == [] || |tail| <= count
    {
      ghost var y := zones.Value();
      var card := zones.RemoveTop(player);
      if card.None? {
        return;
      }
      OneDeeper(z, y, zones.Value(), player, tail, card.value, zones.dealt);
      tail := [card.value] + tail;
    }
  }

  /** Between z and y the cards of `tail` have been taken off the top of a library. */
  ghost predicate Looking(z: Zoning, y: Zoning, player: Id, tail: seq<Card>, dealt: map<Id, Id>) {
    && InFlight(z, y, tail) && FlightOwned(tail, player, dealt)
    && At(z.piles, Pile(Library, player)) == At(y.piles, Pile(Library, player)) + tail
    && OnlyLibrary(z, y, player, At(y.piles, Pile(Library, player)))
  }

  lemma OneDeeper(z: Zoning, y: Zoning, x: Zoning, player: Id, tail: seq<Card>, card: Card, dealt: map<Id, Id>)
    requires Looking(z, y, player, tail, dealt) && Gains(x, y, Library, card.id)
    requires At(y.piles, Pile(Library, player)) == At(x.piles, Pile(Library, player)) + [card]
    requires OnlyLibrary(y, x, player, At(x.piles, Pile(Library, player)))
    requires card.id in dealt ==> dealt[card.id] == player
    ensures Looking(z, x, player, [card] + tail, dealt)
  {
    TakeOff(z, y, x, tail, card, Library);
  }

  ghost predicate FlightOwned(cards: seq<Card>, player: Id, dealt: map<Id, Id>) {
    forall i :: 0 <= i < |cards| && cards[i].id in dealt ==> dealt[cards[i].id] == player
  }

  /** Between z and y cards are in flight, and a player's library and graveyard are being rearranged. */
  ghost predicate Placing(z: Zoning, y: Zoning, player: Id, library: seq<Card>, graveyard: seq<Card>, flight: seq<Card>,
                          dealt: map<Id, Id>) {
    InFlight(z, y, flight) && FlightOwned(flight, player, dealt) && Arranged(z, y, player, library, graveyard)
  }

  /** A card of the flight is in no zone and belongs to the player. */
  lemma InTheAir(z: Zoning, y: Zoning, player: Id, library: seq<Card>, graveyard: seq<Card>, flight: seq<Card>,
                 dealt: map<Id, Id>, i: nat)
    requires Unique(z) && Placing(z, y, player, library, graveyard, flight, dealt) && i < |flight|
    ensures Held(y, flight[i].id) == 0 && (flight[i].id in dealt ==> dealt[flight[i].id] == player)
  {
    FlightNowhere(z, y, flight, i);
  }

  /** It lands. */
  lemma Landed(z: Zoning, y: Zoning, x: Zoning, player: Id, l1: seq<Card>, g1: seq<Card>, l2: seq<Card>, g2: seq<Card>,
               flight: seq<Card>, i: nat, zone: Zone, dealt: map<Id, Id>)
    requires Placing(z, y, player, l1, g1, flight, dealt) && i < |flight|
    requires Gains(y, x, zone, flight[i].id) && Arranged(y, x, player, l2, g2)
    ensures Placing(z, x, player, l2, g2, Without(flight, i), dealt)
  {
    forall id: Id {
      TimesWithout(flight, i, id);
    }
  }

  /** The cards a look at the top of a library shows, and the cards under them. */
  function Shown(library: seq<Card>, count: int): seq<Card> { library[|library| - Clamp(count, |library|)..] }

  function Unseen(library: seq<Card>, count: int): seq<Card> { library[..|library| - Clamp(count, |library|)] }

  /** What scry leaves of a library: named cards at the bottom, the others on top, each in order. */
  function ScryResult(library: seq<Card>, count: int, named: set<Id>): seq<Card> {
    Keep(Shown(library, count), named, true) + Unseen(library, count) + Keep(Shown(library, count), named, false)
  }

  /** What that is: the shown cards that are named are at the bottom, the cards that were not shown above them, and the
      other shown cards on top; each part in its order, and no card more or less. */
  lemma ScryMeans(library: seq<Card>, count: int, named: set<Id>)
    ensures var shown := if count <= 0 then 0 else if count < |library| then count else |library|;
            var unseen, seen := library[..|library| - shown], library[|library| - shown..];
            exists bottom, top ::
              && ScryResult(library, count, named) == bottom + unseen + top
              && Sublist(bottom, seen) && Sublist(top, seen) && multiset(bottom) + multiset(top) == multiset(seen)
              && (forall c :: c in bottom ==> c.id in named) && forall c :: c in top ==> c.id !in named
  {
    var seen := Shown(library, count);
    KeepIsSublist(seen, named, true);
    KeepIsSublist(seen, named, false);
    KeepSplits(seen, named);
    var bottom, top := Keep(seen, named, true), Keep(seen, named, false);
    assert ScryResult(library, count, named) == bottom + Unseen(library, count) + top;
  }

  lemma LookingMeans(z: Zoning, y: Zoning, player: Id, tail: seq<Card>, count: int, dealt: map<Id, Id>)
    requires Looking(z, y, player, tail, dealt)
    requires |tail| == Clamp(count, |At(z.piles, Pile(Library, player))|)
    ensures var library := At(z.piles, Pile(Library, player));
            && tail == Shown(library, count)
            && Placing(z, y, player, Unseen(library, count), At(z.piles, Pile(Graveyard, player)), tail, dealt)
  {}

  lemma NothingLookedAt(z: Zoning, y: Zoning, player: Id, library: seq<Card>, count: int, named: set<Id>, dealt: map<Id,
                        Id>)
    requires Placing(z, y, player, Unseen(library, count), At(z.piles, Pile(Graveyard, player)), [], dealt)
    requires Shown(library, count) == []
    ensures SameHeld(z, y) && OnlyLibrary(z, y, player, ScryResult(library, count, named))
  {
    assert ScryResult(library, count, named) == Unseen(library, count);
    assert forall id: Id :: Times([], id) == 0;
  }

  /** Scry: the named cards of the looked-at top go to the bottom and the others stay on top, both in
      the order they had. */
  method Scry(zones: ZoneManager, player: Id, count: int, response: Response)
    requires zones.Valid()
    modifies zones
    ensures zones.Valid() && SameHeld(old(zones.Value()), zones.Value()) && (old(zones.Noted()) ==> zones.Noted())
    ensures OnlyLibrary(old(zones.Value()), zones.Value(), player,
                        ScryResult(old(zones.Cards(Pile(Library, player))), count, Named(response)))
  {
    ghost var z := zones.Value();
    ghost var library := zones.Cards(Pile(Library, player));
    var named := Named(response);
    var tail := TakeTop(zones, player, count);
    LookingMeans(z, zones.Value(), player, tail, count, zones.dealt);
    if tail == [] {
      NothingLookedAt(z, zones.Value(), player, library, count, named, zones.dealt);
      return;
    }
    PutUnnamedOnTop(zones, player, tail, named, z, Unseen(library, count));
    PutNamedOnBottom(zones, player, tail, named, z, Unseen(library, count) + Keep(tail, named, false));
    ScryResultIs(library, count, named);
  }

  lemma ScryResultIs(library: seq<Card>, count: int, named: set<Id>)
    ensures Keep(Shown(library, count), named, true)
            + (Unseen(library, count) + Keep(Shown(library, count), named, false))
            == ScryResult(library, count, named)
  {}

  lemma KeepOneMore(tail: seq<Card>, named: set<Id>, chosen: bool, j: nat)
    requires j < |tail|
    ensures Keep(tail[..j + 1], named, chosen)
            == Keep(tail[..j], named, chosen) + (if (tail[j].id in named) == chosen then [tail[j]] else [])
    ensures Keep(tail[j..], named, chosen)
            == (if (tail[j].id in named) == chosen then [tail[j]] else []) + Keep(tail[j + 1..], named, chosen)
  {
    assert tail[..j + 1] == tail[..j] + [tail[j]];
    KeepConcat(tail[..j], [tail[j]], named, chosen);
    assert Keep([tail[j]], named, chosen) == if (tail[j].id in named) == chosen then [tail[j]] else [];
    assert tail[j..][1..] == tail[j + 1..];
  }

  /** The first loop of scry has dealt with the j deepest cards: the unnamed ones of them are back on top. */
  ghost predicate Raising(z: Zoning, y: Zoning, player: Id, rest: seq<Card>, tail: seq<Card>, named: set<Id>, j: nat,
                          dealt: map<Id, Id>)
    requires j <= |tail|
  {
    Placing(z, y, player, rest + Keep(tail[..j], named, false), At(z.piles, Pile(Graveyard, player)),
            Keep(tail[..j], named, true) + tail[j..], dealt)
  }

  lemma RaisingStarts(z: Zoning, y: Zoning, player: Id, rest: seq<Card>, tail: seq<Card>, named: set<Id>, dealt: map<Id,
                      Id>)
    requires Placing(z, y, player, rest, At(z.piles, Pile(Graveyard, player)), tail, dealt)
    ensures Raising(z, y, player, rest, tail, named, 0, dealt)
  {
    assert rest + Keep(tail[..0], named, false) == rest;
    assert Keep(tail[..0], named, true) + tail[0..] == tail;
  }

  lemma RaisingEnds(z: Zoning, y: Zoning, player: Id, rest: seq<Card>, tail: seq<Card>, named: set<Id>, dealt: map<Id,
                    Id>)
    requires Raising(z, y, player, rest, tail, named, |tail|, dealt)
    ensures Placing(z, y, player, rest + Keep(tail, named, false), At(z.piles, Pile(Graveyard, player)),
                    Keep(tail, named, true), dealt)
  {
    assert tail[..|tail|] == tail;
    assert Keep(tail, named, true) + tail[|tail|..] == Keep(tail, named, true);
  }

  lemma RaisingSkips(z: Zoning, y: Zoning, player: Id, rest: seq<Card>, tail: seq<Card>, named: set<Id>, j: nat,
                     dealt: map<Id, Id>)
    requires j < |tail| && tail[j].id in named && Raising(z, y, player, rest, tail, named, j, dealt)
    ensures Raising(z, y, player, rest, tail, named, j + 1, dealt)
  {
    KeepOneMore(tail, named, true, j);
    KeepOneMore(tail, named, false, j);
    assert Keep(tail[..j + 1], named, true) + tail[j + 1..] == Keep(tail[..j], named, true) + tail[j..];
  }

  lemma RaisingInTheAir(z: Zoning, y: Zoning, player: Id, rest: seq<Card>, tail: seq<Card>, named: set<Id>, j: nat,
                        dealt: map<Id, Id>)
    requires j < |tail| && Unique(z) && Raising(z, y, player, rest, tail, named, j, dealt)
    ensures Held(y, tail[j].id) == 0 && (tail[j].id in dealt ==> dealt[tail[j].id] == player)
    ensures At(y.piles, Pile(Library, player)) == rest + Keep(tail[..j], named, false)
  {
    var flight := Keep(tail[..j], named, true) + tail[j..];
    var k := |Keep(tail[..j], named, true)|;
    assert flight[k] == tail[j];
    InTheAir(z, y, player, rest + Keep(tail[..j], named, false), At(z.piles, Pile(Graveyard, player)), flight, dealt,
             k);
  }

  lemma Raised(z: Zoning, y: Zoning, x: Zoning, player: Id, rest: seq<Card>, tail: seq<Card>, named: set<Id>, j: nat,
               next: nat, dealt: map<Id, Id>)
    requires j < |tail| && tail[j].id !in named && Raising(z, y, player, rest, tail, named, j, dealt)
    requires Gains(y, x, Library, tail[j].id)
             && OnlyLibrary(y, x, player, At(y.piles, Pile(Library, player)) + [tail[j]])
    requires next == j + 1
    ensures Raising(z, x, player, rest, tail, named, next, dealt)
  {
    var g := At(z.piles, Pile(Graveyard, player));
    var flight, k := Keep(tail[..j], named, true) + tail[j..], |Keep(tail[..j], named, true)|;
    var l1, l2 := rest + Keep(tail[..j], named, false), rest + Keep(tail[..next], named, false);
    RaisedLists(rest, tail, named, j, next);
    Landed(z, y, x, player, l1, g, l2, g, flight, k, Library, dealt);
  }

  lemma RaisedLists(rest: seq<Card>, tail: seq<Card>, named: set<Id>, j: nat, next: nat)
    requires j < |tail| && tail[j].id !in named && next == j + 1
    ensures var flight, k := Keep(tail[..j], named, true) + tail[j..], |Keep(tail[..j], named, true)|;
            && rest + Keep(tail[..j], named, false) + [tail[j]] == rest + Keep(tail[..next], named, false)
            && flight[k] == tail[j] && Without(flight, k) == Keep(tail[..next], named, true) + tail[next..]
  {
    KeepOneMore(tail, named, true, j);
    KeepOneMore(tail, named, false, j);
  }

  /** The first loop of scry, deepest card first. */
  method PutUnnamedOnTop(zones: ZoneManager, player: Id, tail: seq<Card>, named: set<Id>, ghost z: Zoning,
                         ghost rest: seq<Card>)
    requires zones.Valid() && Unique(z)
    requires Placing(z, zones.Value(), player, rest, At(z.piles, Pile(Graveyard, player)), tail, zones.dealt)
    modifies zones
    ensures zones.Valid() && (old(zones.Noted()) ==> zones.Noted())
    ensures Placing(z, zones.Value(), player, rest + Keep(tail, named, false), At(z.piles, Pile(Graveyard, player)),
                    Keep(tail, named, true), zones.dealt)
  {
    RaisingStarts(z, zones.Value(), player, rest, tail, named, zones.dealt);
    var j := 0;
    while j < |tail|
      invariant 0 <= j <= |tail|
      invariant zones.Valid() && (old(zones.Noted()) ==> zones.Noted())
      invariant Raising(z, zones.Value(), player, rest, tail, named, j, zones.dealt)
    {
      j := RaiseOne(zones, player, tail, named, j, z, rest);
    }
    RaisingEnds(z, zones.Value(), player, rest, tail, named, zones.dealt);
  }

  /** One card of that loop. */
  method RaiseOne(zones: ZoneManager, player: Id, tail: seq<Card>, named: set<Id>, j: nat, ghost z: Zoning,
                  ghost rest: seq<Card>) returns (next: nat)
    requires zones.Valid() && Unique(z) && j < |tail|
    requires Raising(z, zones.Value(), player, rest, tail, named, j, zones.dealt)
    modifies zones
    ensures zones.Valid() && (old(zones.Noted()) ==> zones.Noted()) && next == j + 1
    ensures Raising(z, zones.Value(), player, rest, tail, named, next, zones.dealt)
  {
    next := j + 1;
    if tail[j].id in named {
      RaisingSkips(z, zones.Value(), player, rest, tail, named, j, zones.dealt);
    } else {
      ghost var y := zones.Value();
      RaisingInTheAir(z, y, player, rest, tail, named, j, zones.dealt);
      zones.PutOnTop(player, tail[j]);
      Raised(z, y, zones.Value(), player, rest, tail, named, j, next, zones.dealt);
    }
  }

  /** The second loop of scry has come down to card j: the named ones above it are at the bottom. */
  ghost predicate Sinking(z: Zoning, y: Zoning, player: Id, library: seq<Card>, tail: seq<Card>, named: set<Id>, j: nat,
                          dealt: map<Id, Id>)
    requires j <= |tail|
  {
    Placing(z, y, player, Keep(tail[j..], named, true) + library, At(z.piles, Pile(Graveyard, player)),
            Keep(tail[..j], named, true), dealt)
  }

  lemma SinkingStarts(z: Zoning, y: Zoning, player: Id, library: seq<Card>, tail: seq<Card>, named: set<Id>,
                      dealt: map<Id, Id>)
    requires Placing(z, y, player, library, At(z.piles, Pile(Graveyard, player)), Keep(tail, named, true), dealt)
    ensures Sinking(z, y, player, library, tail, named, |tail|, dealt)
  {
    assert tail[..|tail|] == tail && Keep(tail[|tail|..], named, true) + library == library;
  }

  lemma SinkingEnds(z: Zoning, y: Zoning, player: Id, library: seq<Card>, tail: seq<Card>, named: set<Id>,
                    dealt: map<Id, Id>)
    requires Sinking(z, y, player, library, tail, named, 0, dealt)
    ensures SameHeld(z, y) && OnlyLibrary(z, y, player, Keep(tail, named, true) + library)
  {
    assert tail[0..] == tail && Keep(tail[..0], named, true) == [];
    forall id: Id ensures Held(y, id) == Held(z, id) {
      assert Times([], id) == 0;
    }
  }

  lemma SinkingSkips(z: Zoning, y: Zoning, player: Id, library: seq<Card>, tail: seq<Card>, named: set<Id>, j: nat,
                     dealt: map<Id, Id>)
    requires j < |tail| && tail[j].id !in named && Sinking(z, y, player, library, tail, named, j + 1, dealt)
    ensures Sinking(z, y, player, library, tail, named, j, dealt)
  {
    KeepOneMore(tail, named, true, j);
    assert Keep(tail[..j + 1], named, true) == Keep(tail[..j], named, true);
    assert Keep(tail[j..], named, true) == Keep(tail[j + 1..], named, true);
  }

  lemma SinkingInTheAir(z: Zoning, y: Zoning, player: Id, library: seq<Card>, tail: seq<Card>, named: set<Id>, j: nat,
                        dealt: map<Id, Id>)
    requires j < |tail| && tail[j].id in named && Unique(z) && Sinking(z, y, player, library, tail, named, j + 1, dealt)
    ensures Held(y, tail[j].id) == 0 && (tail[j].id in dealt ==> dealt[tail[j].id] == player)
  {
    KeepOneMore(tail, named, true, j);
    var flight := Keep(tail[..j + 1], named, true);
    InTheAir(z, y, player, Keep(tail[j + 1..], named, true) + library, At(z.piles, Pile(Graveyard, player)), flight,
             dealt, |flight| - 1);
  }

  lemma Sunk(z: Zoning, y: Zoning, x: Zoning, player: Id, library: seq<Card>, tail: seq<Card>, named: set<Id>, j: nat,
             dealt: map<Id, Id>)
    requires j < |tail| && tail[j].id in named && Sinking(z, y, player, library, tail, named, j + 1, dealt)
    requires Gains(y, x, Library, tail[j].id)
             && OnlyLibrary(y, x, player, [tail[j]] + At(y.piles, Pile(Library, player)))
    ensures Sinking(z, x, player, library, tail, named, j, dealt)
  {
    KeepOneMore(tail, named, true, j);
    var g := At(z.piles, Pile(Graveyard, player));
    var flight := Keep(tail[..j + 1], named, true);
    assert [tail[j]] + (Keep(tail[j + 1..], named, true) + library) == Keep(tail[j..], named, true) + library;
    Landed(z, y, x, player, Keep(tail[j + 1..], named, true) + library, g, Keep(tail[j..], named, true) + library, g,
           flight, |flight| - 1, Library, dealt);
    assert Without(flight, |flight| - 1) == Keep(tail[..j], named, true);
  }

  /** The second loop of scry, top card first. */
  method PutNamedOnBottom(zones: ZoneManager, player: Id, tail: seq<Card>, named: set<Id>, ghost z: Zoning,
                          ghost library: seq<Card>)
    requires zones.Valid() && Unique(z)
    requires Placing(z, zones.Value(), player, library, At(z.piles, Pile(Graveyard, player)), Keep(tail, named, true),
                     zones.dealt)
    modifies zones
    ensures zones.Valid() && (old(zones.Noted()) ==> zones.Noted())
    ensures SameHeld(z, zones.Value())
    ensures OnlyLibrary(z, zones.Value(), player, Keep(tail, named, true) + library)
  {
    SinkingStarts(z, zones.Value(), player, library, tail, named, zones.dealt);
    var j := |tail|;
    while j > 0
      invariant 0 <= j <= |tail|
      invariant zones.Valid() && (old(zones.Noted()) ==> zones.Noted())
      invariant Sinking(z, zones.Value(), player, library, tail, named, j, zones.dealt)
    {
      j := SinkOne(zones, player, tail, named, j, z, library);
    }
    SinkingEnds(z, zones.Value(), player, library, tail, named, zones.dealt);
  }

  /** One card of that loop. */
  method SinkOne(zones: ZoneManager, player: Id, tail: seq<Card>, named: set<Id>, above: nat, ghost z: Zoning,
                 ghost library: seq<Card>) returns (j: nat)
    requires zones.Valid() && Unique(z) && 0 < above <= |tail|
    requires Sinking(z, zones.Value(), player, library, tail, named, above, zones.dealt)
    modifies zones
    ensures zones.Valid() && (old(zones.Noted()) ==> zones.Noted()) && j == above - 1
    ensures Sinking(z, zones.Value(), player, library, tail, named, j, zones.dealt)
  {
    j := above - 1;
    if tail[j].id in named {
      ghost var y := zones.Value();
      SinkingInTheAir(z, y, player, library, tail, named, j, zones.dealt);
      zones.PutOnBottom(player, tail[j]);
      Sunk(z, y, zones.Value(), player, library, tail, named, j, zones.dealt);
    } else {
      SinkingSkips(z, zones.Value(), player, library, tail, named, j, zones.dealt);
    }
  }

  // ---------- Surveil ----------

  /** The loop of surveil has dealt with the j deepest cards. */
  ghost predicate Surveying(z: Zoning, y: Zoning, player: Id, rest: seq<Card>, tail: seq<Card>, named: set<Id>, j: nat,
                            dealt: map<Id, Id>)
    requires j <= |tail|
  {
    Placing(z, y, player, rest + Keep(tail[..j], named, false),
            At(z.piles, Pile(Graveyard, player)) + Keep(tail[..j], named, true), tail[j..], dealt)
  }

  lemma SurveyingStarts(z: Zoning, y: Zoning, player: Id, rest: seq<Card>, tail: seq<Card>, named: set<Id>,
                        dealt: map<Id, Id>)
    requires Placing(z, y, player, rest, At(z.piles, Pile(Graveyard, player)), tail, dealt)
    ensures Surveying(z, y, player, rest, tail, named, 0, dealt)
  {
    var g := At(z.piles, Pile(Graveyard, player));
    assert tail[0..] == tail && rest + Keep(tail[..0], named, false) == rest && g + Keep(tail[..0], named, true) == g;
  }

  lemma SurveyingEnds(z: Zoning, y: Zoning, player: Id, rest: seq<Card>, tail: seq<Card>, named: set<Id>, dealt: map<Id,
                      Id>)
    requires Surveying(z, y, player, rest, tail, named, |tail|, dealt)
    ensures SameHeld(z, y)
    ensures Arranged(z, y, player, rest + Keep(tail, named, false),
                     At(z.piles, Pile(Graveyard, player)) + Keep(tail, named, true))
  {
    assert tail[..|tail|] == tail && tail[|tail|..] == [];
    assert forall id: Id :: Times([], id) == 0;
  }

  lemma Surveyed(z: Zoning, y: Zoning, x: Zoning, player: Id, rest: seq<Card>, tail: seq<Card>, named: set<Id>, j: nat,
                 next: nat, dealt: map<Id, Id>)
    requires j < |tail| && next == j + 1 && Surveying(z, y, player, rest, tail, named, j, dealt)
    requires Gains(y, x, if tail[j].id in named then Graveyard else Library, tail[j].id)
    requires if tail[j].id in named
             then Arranged(y, x, player, At(y.piles, Pile(Library, player)),
                           At(y.piles, Pile(Graveyard, player)) + [tail[j]])
             else OnlyLibrary(y, x, player, At(y.piles, Pile(Library, player)) + [tail[j]])
    ensures Surveying(z, x, player, rest, tail, named, next, dealt)
  {
    var g := At(z.piles, Pile(Graveyard, player));
    var l1, g1 := rest + Keep(tail[..j], named, false), g + Keep(tail[..j], named, true);
    var l2, g2 := rest + Keep(tail[..next], named, false), g + Keep(tail[..next], named, true);
    SurveyedLists(rest, g, tail, named, j, next);
    assert tail[j..][0] == tail[j] && Without(tail[j..], 0) == tail[next..];
    Landed(z, y, x, player, l1, g1, l2, g2, tail[j..], 0, if tail[j].id in named then Graveyard else Library, dealt);
  }

  lemma SurveyedLists(rest: seq<Card>, g: seq<Card>, tail: seq<Card>, named: set<Id>, j: nat, next: nat)
    requires j < |tail| && next == j + 1
    ensures var l1, g1 := rest + Keep(tail[..j], named, false), g + Keep(tail[..j], named, true);
            var l2, g2 := rest + Keep(tail[..next], named, false), g + Keep(tail[..next], named, true);
            if tail[j].id in named then l2 == l1 && g2 == g1 + [tail[j]] else l2 == l1 + [tail[j]] && g2 == g1
  {
    KeepOneMore(tail, named, true, j);
    KeepOneMore(tail, named, false, j);
  }

  /** Surveil: the named cards of the looked-at top go to the graveyard and the others stay on top,
      both in the order they had. */
  method Surveil(zones: ZoneManager, player: Id, count: int, response: Response)
    requires zones.Valid()
    modifies zones
    ensures zones.Valid() && SameHeld(old(zones.Value()), zones.Value()) && (old(zones.Noted()) ==> zones.Noted())
    ensures Arranged(old(zones.Value()), zones.Value(), player,
                     SurveilLibrary(old(zones.Cards(Pile(Library, player))), count, Named(response)),
                     old(zones.Cards(Pile(Graveyard, player)))
                     + Keep(Shown(old(zones.Cards(Pile(Library, player))), count), Named(response), true))
  {
    ghost var z := zones.Value();
    ghost var library := zones.Cards(Pile(Library, player));
    var named := Named(response);
    var tail := TakeTop(zones, player, count);
    LookingMeans(z, zones.Value(), player, tail, count, zones.dealt);
    ghost var rest := Unseen(library, count);
    SurveyLoop(zones, player, tail, named, z, rest);
  }

  /** What surveil leaves of a library. */
  function SurveilLibrary(library: seq<Card>, count: int, named: set<Id>): seq<Card> {
    Unseen(library, count) + Keep(Shown(library, count), named, false)
  }

  /** The shown cards that are not named stay on top, in order. */
  lemma SurveilMeans(library: seq<Card>, count: int, named: set<Id>)
    ensures var shown := if count <= 0 then 0 else if count < |library| then count else |library|;
            var unseen, seen := library[..|library| - shown], library[|library| - shown..];
            exists top, gone ::
              && SurveilLibrary(library, count, named) == unseen + top
              && Keep(Shown(library, count), named, true) == gone
              && Sublist(top, seen) && Sublist(gone, seen) && multiset(gone) + multiset(top) == multiset(seen)
              && (forall c :: c in gone ==> c.id in named) && forall c :: c in top ==> c.id !in named
  {
    var seen := Shown(library, count);
    KeepIsSublist(seen, named, true);
    KeepIsSublist(seen, named, false);
    KeepSplits(seen, named);
  }

  method SurveyLoop(zones: ZoneManager, player: Id, tail: seq<Card>, named: set<Id>, ghost z: Zoning,
                    ghost rest: seq<Card>)
    requires zones.Valid() && Unique(z)
    requires Placing(z, zones.Value(), player, rest, At(z.piles, Pile(Graveyard, player)), tail, zones.dealt)
    modifies zones
    ensures zones.Valid() && (old(zones.Noted()) ==> zones.Noted())
    ensures SameHeld(z, zones.Value())
    ensures Arranged(z, zones.Value(), player, rest + Keep(tail, named, false),
                     At(z.piles, Pile(Graveyard, player)) + Keep(tail, named, true))
  {
    SurveyingStarts(z, zones.Value(), player, rest, tail, named, zones.dealt);
    var j := 0;
    while j < |tail|
      invariant 0 <= j <= |tail|
      invariant zones.Valid() && (old(zones.Noted()) ==> zones.Noted())
      invariant Surveying(z, zones.Value(), player, rest, tail, named, j, zones.dealt)
    {
      j := SurveyOne(zones, player, tail, named, j, z, rest);
    }
    SurveyingEnds(z, zones.Value(), player, rest, tail, named, zones.dealt);
  }

  /** One card of surveil. */
  method SurveyOne(zones: ZoneManager, player: Id, tail: seq<Card>, named: set<Id>, j: nat, ghost z: Zoning,
                   ghost rest: seq<Card>) returns (next: nat)
    requires zones.Valid() && Unique(z) && j < |tail|
    requires Surveying(z, zones.Value(), player, rest, tail, named, j, zones.dealt)
    modifies zones
    ensures zones.Valid() && (old(zones.Noted()) ==> zones.Noted()) && next == j + 1
    ensures Surveying(z, zones.Value(), player, rest, tail, named, next, zones.dealt)
  {
    next := j + 1;
    ghost var y := zones.Value();
    SurveyInTheAir(z, y, player, rest, tail, named, j, zones.dealt);
    PlaceSurveyed(zones, player, tail[j], tail[j].id in named);
    Surveyed(z, y, zones.Value(), player, rest, tail, named, j, next, zones.dealt);
  }

  method PlaceSurveyed(zones: ZoneManager, player: Id, card: Card, chosen: bool)
    requires zones.Valid() && zones.Places(card.id) == 0 && (card.id in zones.dealt ==> zones.dealt[card.id] == player)
    modifies zones
    ensures zones.Valid() && (old(zones.Noted()) ==> zones.Noted())
    ensures Gains(old(zones.Value()), zones.Value(), if chosen then Graveyard else Library, card.id)
    ensures var z, y := old(zones.Value()), zones.Value();
            var library, yard := At(z.piles, Pile(Library, player)), At(z.piles, Pile(Graveyard, player));
            if chosen then Arranged(z, y, player, library, yard + [card])
            else OnlyLibrary(z, y, player, library + [card])
  {
    if chosen {
      zones.AddToGraveyard(player, card);
    } else {
      zones.PutOnTop(player, card);
    }
  }

  lemma SurveyInTheAir(z: Zoning, y: Zoning, player: Id, rest: seq<Card>, tail: seq<Card>, named: set<Id>, j: nat,
                       dealt: map<Id, Id>)
    requires j < |tail| && Unique(z) && Surveying(z, y, player, rest, tail, named, j, dealt)
    ensures Held(y, tail[j].id) == 0 && (tail[j].id in dealt ==> dealt[tail[j].id] == player)
  {
    InTheAir(z, y, player, rest + Keep(tail[..j], named, false),
             At(z.piles, Pile(Graveyard, player)) + Keep(tail[..j], named, true), tail[j..], dealt, 0);
  }

  // ---------- Searching a library ----------

  lemma {:induction false} KeepNobody(cards: seq<Card>)
    ensures Keep(cards, {}, false) == cards && Keep(cards, {}, true) == []
  {
    if cards == [] {
    } else {
      KeepNobody(cards[1..]);
    }
  }

  /** The whole library is taken off and put back before it is shuffled: the search itself changes
      nothing. The answer is 0, or a card of the library that matches. */
  method SearchLibrary(zones: ZoneManager, player: Id, matches: Card -> bool, response: Response,
                       shuffle: seq<Card> -> seq<Card>)
    returns (found: Id)
    requires zones.Valid() && Permutes(shuffle)
    modifies zones
    ensures zones.Valid() && SameHeld(old(zones.Value()), zones.Value()) && (old(zones.Noted()) ==> zones.Noted())
    ensures OnlyLibrary(old(zones.Value()), zones.Value(), player, shuffle(old(zones.Cards(Pile(Library, player)))))
    ensures found == if exists c ::
              c in old(zones.Cards(Pile(Library, player))) && matches(c) && c.id == response.target
                     then response.target else 0
  {
    ghost var z := zones.Value();
    var library := zones.Cards(Pile(Library, player));
    TakeOffAndPutBack(zones, player);
    zones.ShuffleLibrary(player, shuffle);
    if exists c :: c in library && matches(c) && c.id == response.target {
      return response.target;
    }
    return 0;
  }

  method TakeOffAndPutBack(zones: ZoneManager, player: Id)
    requires zones.Valid()
    modifies zones
    ensures zones.Valid() && SameHeld(old(zones.Value()), zones.Value()) && (old(zones.Noted()) ==> zones.Noted())
    ensures OnlyLibrary(old(zones.Value()), zones.Value(), player, old(zones.Cards(Pile(Library, player))))
  {
    ghost var z := zones.Value();
    var tail := TakeTop(zones, player, |zones.Cards(Pile(Library, player))|);
    LookingMeans(z, zones.Value(), player, tail, |At(z.piles, Pile(Library, player))|, zones.dealt);
    PutUnnamedOnTop(zones, player, tail, {}, z, []);
    KeepNobody(tail);
    assert [] + tail == tail == At(z.piles, Pile(Library, player));
    assert forall id: Id :: Times([], id) == 0;
  }

  /** The card of a library with this id has entered, and the rest of the library has been shuffled. */
  ghost predicate PutOntoField(z: Zoning, y: Zoning, player: Id, id: Id, tapped: bool,
                               shuffle: seq<Card> -> seq<Card>) {
    var library := At(z.piles, Pile(Library, player));
    var found := Keep(library, {id}, true);
    && At(y.piles, Pile(Library, player)) == shuffle(Keep(library, {id}, false))
    && (forall pile :: pile != Pile(Library, player) ==> At(y.piles, pile) == At(z.piles, pile))
    && y.exile == z.exile && y.owner == z.owner
    && (found != [] <==> Times(library, id) > 0)
    && y.field == if found == [] then z.field else z.field[id := Entering(found[0], player, player).(tapped := tapped)]
  }

  /** The searched card is put onto the battlefield, tapped or not, if it is still in the library; the other
      cards stay in the library, shuffled. */
  method FetchToBattlefield(zones: ZoneManager, player: Id, id: Id, tapped: bool,
                            shuffle: seq<Card> -> seq<Card>) returns (entered: bool)
    requires zones.Valid() && Permutes(shuffle)
    modifies zones
    ensures zones.Valid() && SameHeld(old(zones.Value()), zones.Value()) && (old(zones.Noted()) ==> zones.Noted())
    ensures entered <==> Times(old(zones.Cards(Pile(Library, player))), id) > 0
    ensures PutOntoField(old(zones.Value()), zones.Value(), player, id, tapped, shuffle)
  {
    ghost var z := zones.Value();
    var found := TakeOutAndShuffle(zones, player, id, shuffle);
    ghost var y := zones.Value();
    AtMostOneKept(z, y, At(z.piles, Pile(Library, player)), id);
    entered := found != [];
    if entered {
      FlightNowhere(z, y, found, 0);
      EnterFetched(zones, player, found[0], tapped);
      ghost var x := zones.Value();
      Fetched(z, y, x, found);
    } else {
      assert forall c: Id :: Times([], c) == 0;
    }
  }

  method EnterFetched(zones: ZoneManager, player: Id, card: Card, tapped: bool)
    requires zones.Valid() && zones.Places(card.id) == 0 && (card.id in zones.dealt ==> zones.dealt[card.id] == player)
    modifies zones
    ensures zones.Valid() && (old(zones.Noted()) ==> zones.Noted())
    ensures zones.Value() == old(zones.Value()).(
              field := old(zones.field)[card.id := Entering(card, player, player).(tapped := tapped)],
              zone := old(zones.zone)[card.id := Battlefield])
    ensures Gains(old(zones.Value()), zones.Value(), Battlefield, card.id)
  {
    ghost var z := zones.Value();
    zones.AddToBattlefield(card, player, player);
    if tapped {
      ghost var y := zones.Value();
      zones.Update(card.id, zones.field[card.id].(tapped := true));
      EnteredTapped(z, y, zones.Value(), card, player);
    }
  }

  lemma EnteredTapped(z: Zoning, y: Zoning, x: Zoning, card: Card, player: Id)
    requires y
             == z.(field := z.field[card.id := Entering(card, player, player)], zone := z.zone[card.id := Battlefield])
    requires Gains(z, y, Battlefield, card.id) && SameCounts(y, x)
    requires x == y.(field := y.field[card.id := y.field[card.id].(tapped := true)])
    ensures x == z.(field := z.field[card.id := Entering(card, player, player).(tapped := true)],
                    zone := z.zone[card.id := Battlefield])
    ensures Gains(z, x, Battlefield, card.id)
  {
    var p := Entering(card, player, player);
    assert z.field[card.id := p][card.id := p.(tapped := true)] == z.field[card.id := p.(tapped := true)];
  }

  /** The loops of the fetch: everything is taken off, everything but the searched card put back. */
  method TakeOutAndShuffle(zones: ZoneManager, player: Id, id: Id,
                           shuffle: seq<Card> -> seq<Card>) returns (found: seq<Card>)
    requires zones.Valid() && Permutes(shuffle)
    modifies zones
    ensures zones.Valid() && (old(zones.Noted()) ==> zones.Noted())
    ensures found == Keep(old(zones.Cards(Pile(Library, player))), {id}, true)
    ensures InFlight(old(zones.Value()), zones.Value(), found) && FlightOwned(found, player, zones.dealt)
    ensures OnlyLibrary(old(zones.Value()), zones.Value(), player,
                        shuffle(Keep(old(zones.Cards(Pile(Library, player))), {id}, false)))
  {
    ghost var z := zones.Value();
    var library := zones.Cards(Pile(Library, player));
    var tail := TakeTop(zones, player, |library|);
    LookingMeans(z, zones.Value(), player, tail, |library|, zones.dealt);
    PutUnnamedOnTop(zones, player, tail, {id}, z, []);
    assert [] + Keep(tail, {id}, false) == Keep(library, {id}, false);
    ghost var y := zones.Value();
    zones.ShuffleLibrary(player, shuffle);
    found := Keep(tail, {id}, true);
    ShuffledInFlight(z, y, zones.Value(), player, Keep(library, {id}, false), shuffle(Keep(library, {id}, false)),
                     found, zones.dealt);
  }

  lemma ShuffledInFlight(z: Zoning, y: Zoning, x: Zoning, player: Id, before: seq<Card>, after: seq<Card>,
                         found: seq<Card>, dealt: map<Id, Id>)
    requires Placing(z, y, player, before, At(z.piles, Pile(Graveyard, player)), found, dealt)
    requires SameHeld(y, x) && x == y.(piles := y.piles[Pile(Library, player) := after])
    ensures InFlight(z, x, found) && FlightOwned(found, player, dealt) && OnlyLibrary(z, x, player, after)
  {}

  /** Only one card of a library has a given id, and it is kept exactly when it is there. */
  lemma AtMostOneKept(z: Zoning, y: Zoning, library: seq<Card>, id: Id)
    requires Unique(z) && InFlight(z, y, Keep(library, {id}, true))
    ensures |Keep(library, {id}, true)| <= 1
    ensures Keep(library, {id}, true) != [] <==> Times(library, id) > 0
    ensures forall c :: c in Keep(library, {id}, true) ==> c.id == id && c in library
  {
    KeptTimes(library, id);
    assert Held(z, id) <= 1;
  }

  lemma {:induction false} KeptTimes(library: seq<Card>, id: Id)
    ensures Times(Keep(library, {id}, true), id) == |Keep(library, {id}, true)| == Times(library, id)
    ensures forall c :: c in Keep(library, {id}, true) ==> c.id == id && c in library
  {
    if library == [] {
    } else {
      KeptTimes(library[1..], id);
      TimesConcat(if library[0].id == id then [library[0]] else [], Keep(library[1..], {id}, true), id);
      assert (library[0].id in {id}) == (library[0].id == id);
    }
  }

  lemma Fetched(z: Zoning, y: Zoning, x: Zoning, found: seq<Card>)
    requires |found| == 1 && InFlight(z, y, found) && Gains(y, x, Battlefield, found[0].id)
    ensures SameHeld(z, x)
  {
    LandFirst(z, y, x, found, Battlefield);
    assert forall c: Id :: Times(found[1..], c) == 0;
  }

  // ---------- Discard ----------

  /** A card of one pile moved to the end of another by its id, if it is there. */
  function MovedById(z: Zoning, from: Pile, to: Pile, id: Id): Zoning
    requires from != to
  {
    match IndexOf(At(z.piles, from), id)
    case None => z
    case Some(i) =>
      z.(piles := z.piles[from := Without(At(z.piles, from), i)][to := At(z.piles, to) + [At(z.piles, from)[i]]],
         zone := z.zone[id := to.zone])
  }

  /** The chosen cards, one by one; ids that are not there (any more) are skipped. */
  function ChosenMoved(z: Zoning, from: Pile, to: Pile, ids: seq<Id>, n: nat): Zoning
    requires from != to && n <= |ids|
  {
    if n == 0 then z else MovedById(ChosenMoved(z, from, to, ids, n - 1), from, to, ids[n - 1])
  }

  /** These cards have left one pile and come to the end of the other. */
  ghost predicate Tail(z: Zoning, y: Zoning, from: Pile, to: Pile, moved: seq<Card>) {
    && At(y.piles, to) == At(z.piles, to) + moved
    && multiset(At(z.piles, from)) == multiset(At(y.piles, from)) + multiset(moved)
  }

  /** k cards of one pile have come to the end of the other; nothing else has moved. */
  ghost predicate Shifted(z: Zoning, y: Zoning, from: Pile, to: Pile, k: nat) {
    && (exists moved: seq<Card> :: |moved| == k && Tail(z, y, from, to, moved))
    && |At(y.piles, from)| + k == |At(z.piles, from)|
    && (forall pile :: pile != from && pile != to ==> At(y.piles, pile) == At(z.piles, pile))
    && y.field == z.field && y.exile == z.exile && y.owner == z.owner
  }

  lemma ShiftedNothing(z: Zoning, from: Pile, to: Pile)
    ensures Shifted(z, z, from, to, 0)
  {
    var none: seq<Card> := [];
    assert |none| == 0 && Tail(z, z, from, to, none);
  }

  lemma TwoTails(z: Zoning, y: Zoning, x: Zoning, from: Pile, to: Pile, a: seq<Card>, b: seq<Card>)
    requires Tail(z, y, from, to, a) && Tail(y, x, from, to, b)
    ensures Tail(z, x, from, to, a + b)
  {}

  lemma ShiftedTwice(z: Zoning, y: Zoning, x: Zoning, from: Pile, to: Pile, k: nat, l: nat)
    requires Shifted(z, y, from, to, k) && Shifted(y, x, from, to, l)
    ensures Shifted(z, x, from, to, k + l)
  {
    var a: seq<Card> :| |a| == k && Tail(z, y, from, to, a);
    var b: seq<Card> :| |b| == l && Tail(y, x, from, to, b);
    TwoTails(z, y, x, from, to, a, b);
    assert |a + b| == k + l;
  }

  lemma ShiftedOne(z: Zoning, y: Zoning, from: Pile, to: Pile, i: nat)
    requires from != to && i < |At(z.piles, from)|
    requires y.piles == z.piles[from := Without(At(z.piles, from), i)][to := At(z.piles, to) + [At(z.piles, from)[i]]]
    requires y.field == z.field && y.exile == z.exile && y.owner == z.owner
    ensures Shifted(z, y, from, to, 1)
  {
    var cards := At(z.piles, from);
    assert cards == cards[..i] + [cards[i]] + cards[i + 1..];
    assert multiset(cards) == multiset(Without(cards, i)) + multiset([cards[i]]);
    assert |[cards[i]]| == 1 && Tail(z, y, from, to, [cards[i]]);
  }

  lemma {:induction false} LastMovedShifts(z: Zoning, from: Pile, to: Pile, n: nat)
    requires from != to && n <= |At(z.piles, from)|
    ensures Shifted(z, LastMovedTimes(z, from, to, n), from, to, n)
  {
    if n == 0 {
      ShiftedNothing(z, from, to);
    } else {
      LastMovedShifts(z, from, to, n - 1);
      var y := LastMovedTimes(z, from, to, n - 1);
      assert Without(At(y.piles, from), |At(y.piles, from)| - 1) == At(y.piles, from)[..|At(y.piles, from)| - 1];
      ShiftedOne(y, LastMoved(y, from, to), from, to, |At(y.piles, from)| - 1);
      ShiftedTwice(z, y, LastMoved(y, from, to), from, to, n - 1, 1);
    }
  }

  /** Choosing moves at most as many cards as there are ids, and only cards that are there. */
  lemma {:induction false} ChosenShifts(z: Zoning, from: Pile, to: Pile, ids: seq<Id>, n: nat) returns (k: nat)
    requires from != to && n <= |ids|
    ensures k <= n && k <= |At(z.piles, from)| && Shifted(z, ChosenMoved(z, from, to, ids, n), from, to, k)
  {
    if n == 0 {
      ShiftedNothing(z, from, to);
      k := 0;
    } else {
      k := ChosenShifts(z, from, to, ids, n - 1);
      k := OneChosenShifts(z, ChosenMoved(z, from, to, ids, n - 1), from, to, ids[n - 1], k);
    }
  }

  lemma OneChosenShifts(z: Zoning, y: Zoning, from: Pile, to: Pile, id: Id, k: nat) returns (l: nat)
    requires from != to && Shifted(z, y, from, to, k)
    ensures l <= k + 1 && l <= |At(z.piles, from)| && Shifted(z, MovedById(y, from, to, id), from, to, l)
  {
    l := k;
    var at := IndexOf(At(y.piles, from), id);
    if at.Some? {
      ShiftedOne(y, MovedById(y, from, to, id), from, to, at.value);
      ShiftedTwice(z, y, MovedById(y, from, to, id), from, to, k, 1);
      l := k + 1;
    }
  }

  /** The chosen cards have moved, if the answer has the right length and not all cards must go. */
  function AnswerTaken(z: Zoning, player: Id, actual: nat, ids: seq<Id>): Zoning {
    if actual < |At(z.piles, Pile(Hand, player))| && |ids| == actual
    then ChosenMoved(z, Pile(Hand, player), Pile(Graveyard, player), ids, |ids|) else z
  }

  /** Cards moved from the end of the hand until so many are left. */
  function TrimmedTo(z: Zoning, player: Id, left: nat): Zoning {
    var hand := At(z.piles, Pile(Hand, player));
    if left <= |hand| then LastMovedTimes(z, Pile(Hand, player), Pile(Graveyard, player), |hand| - left) else z
  }

  /** The zones after a discard: all cards when that many are asked for, and otherwise the chosen ones,
      filled up from the end of the hand. */
  function Discarded(z: Zoning, player: Id, count: int, ids: seq<Id>): Zoning {
    var size := |At(z.piles, Pile(Hand, player))|;
    TrimmedTo(AnswerTaken(z, player, Clamp(count, size), ids), player, size - Clamp(count, size))
  }

  /** For every answer a discard takes exactly min(count, hand size) cards from the hand to the
      player's graveyard, and moves nothing else. */
  lemma DiscardTakesExactly(z: Zoning, player: Id, count: int, ids: seq<Id>)
    ensures var hand := Pile(Hand, player);
            Shifted(z, Discarded(z, player, count, ids), hand, Pile(Graveyard, player),
                    Clamp(count, |At(z.piles, hand)|))
  {
    var actual := Clamp(count, |At(z.piles, Pile(Hand, player))|);
    var k := AnswerShifts(z, player, actual, ids);
    FilledShifts(z, AnswerTaken(z, player, actual, ids), player, actual, k);
  }

  lemma FilledShifts(z: Zoning, y: Zoning, player: Id, actual: nat, k: nat)
    requires Shifted(z, y, Pile(Hand, player), Pile(Graveyard, player), k)
    requires k <= actual <= |At(z.piles, Pile(Hand, player))|
    ensures var left := |At(z.piles, Pile(Hand, player))| - actual;
            Shifted(z, TrimmedTo(y, player, left), Pile(Hand, player), Pile(Graveyard, player), actual)
  {
    var hand, graveyard := Pile(Hand, player), Pile(Graveyard, player);
    var left: nat, l: nat := |At(z.piles, hand)| - actual, actual - k;
    var x := LastMovedTimes(y, hand, graveyard, l);
    FillUp(z, y, hand, graveyard, k, l, actual);
    TrimIs(y, x, player, left, l);
  }

  lemma TrimIs(y: Zoning, x: Zoning, player: Id, left: nat, n: nat)
    requires |At(y.piles, Pile(Hand, player))| == left + n
    requires x == LastMovedTimes(y, Pile(Hand, player), Pile(Graveyard, player), n)
    ensures x == TrimmedTo(y, player, left)
  {}

  lemma AnswerShifts(z: Zoning, player: Id, actual: nat, ids: seq<Id>) returns (k: nat)
    requires actual <= |At(z.piles, Pile(Hand, player))|
    ensures k <= actual
            && Shifted(z, AnswerTaken(z, player, actual, ids), Pile(Hand, player), Pile(Graveyard, player), k)
  {
    k := 0;
    if actual < |At(z.piles, Pile(Hand, player))| && |ids| == actual {
      k := ChosenShifts(z, Pile(Hand, player), Pile(Graveyard, player), ids, |ids|);
    } else {
      ShiftedNothing(z, Pile(Hand, player), Pile(Graveyard, player));
    }
  }

  lemma FillUp(z: Zoning, y: Zoning, from: Pile, to: Pile, k: nat, l: nat, n: nat)
    requires from != to && Shifted(z, y, from, to, k) && l <= |At(y.piles, from)| && n == k + l
    ensures Shifted(z, LastMovedTimes(y, from, to, l), from, to, n)
  {
    LastMovedShifts(y, from, to, l);
    ShiftedTwice(z, y, LastMovedTimes(y, from, to, l), from, to, k, l);
  }

  lemma {:induction false} ChosenAreThose(z: Zoning, from: Pile, to: Pile, ids: seq<Id>, n: nat)
    requires from != to && n <= |ids| && (forall i, j :: 0 <= i < j < |ids| ==> ids[i] != ids[j])
    requires forall id :: id in ids ==> Times(At(z.piles, from), id) > 0
    ensures Answered(z, ChosenMoved(z, from, to, ids, n), from, to, ids[..n])
  {
    if n == 0 {
    } else {
      ChosenAreThose(z, from, to, ids, n - 1);
      assert ids[n - 1] in ids && ids[n - 1] !in ids[..n - 1] && ids[..n] == ids[..n - 1] + [ids[n - 1]];
      OneMoreAnswered(z, ChosenMoved(z, from, to, ids, n - 1), from, to, ids[..n - 1], ids[n - 1], ids[..n]);
    }
  }

  /** The cards with these ids have come to the end of a pile, in this order; of other ids as many are left. */
  ghost predicate Answered(z: Zoning, y: Zoning, from: Pile, to: Pile, ids: seq<Id>) {
    && |At(y.piles, to)| == |At(z.piles, to)| + |ids| && At(y.piles, to)[..|At(z.piles, to)|] == At(z.piles, to)
    && (forall k :: |At(z.piles, to)| <= k < |At(y.piles, to)| ==> At(y.piles, to)[k].id == ids[k - |At(z.piles, to)|])
    && forall id :: id !in ids ==> Times(At(y.piles, from), id) == Times(At(z.piles, from), id)
  }

  lemma OneMoreAnswered(z: Zoning, y: Zoning, from: Pile, to: Pile, before: seq<Id>, id: Id, ids: seq<Id>)
    requires from != to && Answered(z, y, from, to, before) && ids == before + [id] && id !in before
    requires Times(At(z.piles, from), id) > 0
    ensures Answered(z, MovedById(y, from, to, id), from, to, ids)
  {
    var i := IndexOf(At(y.piles, from), id).value;
    forall other | other !in ids
      ensures Times(Without(At(y.piles, from), i), other) == Times(At(z.piles, from), other)
    {
      TimesWithout(At(y.piles, from), i, other);
    }
  }

  /** An answer that names as many different cards of the hand as have to go is followed to the letter: exactly these
      go, in this order. */
  lemma DiscardFollowsTheAnswer(z: Zoning, player: Id, count: int, ids: seq<Id>)
    requires var size := |At(z.piles, Pile(Hand, player))|; 0 < count < size && |ids| == count
    requires forall i, j :: 0 <= i < j < |ids| ==> ids[i] != ids[j]
    requires forall id :: id in ids ==> Times(At(z.piles, Pile(Hand, player)), id) > 0
    ensures Answered(z, Discarded(z, player, count, ids), Pile(Hand, player), Pile(Graveyard, player), ids)
  {
    var hand, yard := Pile(Hand, player), Pile(Graveyard, player);
    ChosenAreThose(z, hand, yard, ids, |ids|);
    assert ids[..|ids|] == ids;
    var y := ChosenMoved(z, hand, yard, ids, |ids|);
    var k := ChosenShifts(z, hand, yard, ids, |ids|);
    assert |At(y.piles, yard)| == |At(z.piles, yard)| + k;
    assert k == |ids|;
  }

  /** Without a usable answer the cards go from the end of the hand, the last one first. */
  lemma DiscardWithoutAnswer(z: Zoning, player: Id, count: int, ids: seq<Id>)
    requires var size := |At(z.piles, Pile(Hand, player))|; count >= size || (0 <= count && |ids| != count)
    ensures var size := |At(z.piles, Pile(Hand, player))|;
            TopMoved(z, Discarded(z, player, count, ids), Pile(Hand, player), Pile(Graveyard, player),
                     if count < size then count else size)
  {
    var size := |At(z.piles, Pile(Hand, player))|;
    MovedTimes(z, Pile(Hand, player), Pile(Graveyard, player), if count < size then count else size);
  }

  const MAX_HAND_SIZE := 7

  /** discard_cards, for any answer to the prompt (an empty list stands for none). */
  method DiscardCards(zones: ZoneManager, player: Id, count: int, ids: seq<Id>)
    requires zones.Valid()
    modifies zones
    ensures zones.Valid() && SameHeld(old(zones.Value()), zones.Value()) && (old(zones.Noted()) ==> zones.Noted())
    ensures zones.Value() == Discarded(old(zones.Value()), player, count, ids)
    ensures Shifted(old(zones.Value()), zones.Value(), Pile(Hand, player), Pile(Graveyard, player),
                    Clamp(count, |old(zones.Cards(Pile(Hand, player)))|))
  {
    ghost var z := zones.Value();
    var size := |zones.Cards(Pile(Hand, player))|;
    var actual := if count < size then count else size;
    DiscardTakesExactly(z, player, count, ids);
    if actual <= 0 {
      DiscardedCases(z, player, count, ids);
    } else if actual >= size || |ids| != actual {
      DiscardFromEnd(zones, player, actual, count, ids);
    } else {
      DiscardByAnswer(zones, player, actual, count, ids);
    }
  }

  /** As many cards are named as are to be discarded. */
  method DiscardByAnswer(zones: ZoneManager, player: Id, actual: nat, ghost count: int, ids: seq<Id>)
    requires zones.Valid() && actual == Clamp(count, |zones.Cards(Pile(Hand, player))|)
    requires actual < |zones.Cards(Pile(Hand, player))| && |ids| == actual
    modifies zones
    ensures zones.Valid() && SameHeld(old(zones.Value()), zones.Value()) && (old(zones.Noted()) ==> zones.Noted())
    ensures zones.Value() == Discarded(old(zones.Value()), player, count, ids)
  {
    ghost var z := zones.Value();
    ghost var left: nat := |zones.Cards(Pile(Hand, player))| - actual;
    DiscardAnswered(zones, player, actual, ids, z, left);
    AnswerDiscarded(z, zones.Value(), player, actual, count, ids, left);
  }

  lemma AnswerDiscarded(z: Zoning, y: Zoning, player: Id, actual: nat, count: int, ids: seq<Id>, left: nat)
    requires actual == Clamp(count, |At(z.piles, Pile(Hand, player))|)
    requires left + actual == |At(z.piles, Pile(Hand, player))|
    requires y == TrimmedTo(AnswerTaken(z, player, actual, ids), player, left)
    ensures y == Discarded(z, player, count, ids)
  {}

  /** No answer is asked for, or none of the right length is given. */
  method DiscardFromEnd(zones: ZoneManager, player: Id, actual: nat, ghost count: int, ghost ids: seq<Id>)
    requires zones.Valid() && actual == Clamp(count, |zones.Cards(Pile(Hand, player))|)
    requires actual == |zones.Cards(Pile(Hand, player))| || |ids| != actual
    modifies zones
    ensures zones.Valid() && SameHeld(old(zones.Value()), zones.Value()) && (old(zones.Noted()) ==> zones.Noted())
    ensures zones.Value() == Discarded(old(zones.Value()), player, count, ids)
  {
    ghost var z := zones.Value();
    var _ := MoveUpTo(zones, Pile(Hand, player), Pile(Graveyard, player), actual);
    EndDiscarded(z, zones.Value(), player, actual, count, ids);
  }

  lemma EndDiscarded(z: Zoning, y: Zoning, player: Id, actual: nat, count: int, ids: seq<Id>)
    requires UpTo(z, y, Pile(Hand, player), Pile(Graveyard, player), actual)
    requires actual == Clamp(count, |At(z.piles, Pile(Hand, player))|)
    requires actual == |At(z.piles, Pile(Hand, player))| || |ids| != actual
    ensures y == Discarded(z, player, count, ids)
  {
    DiscardedCases(z, player, count, ids);
  }

  lemma DiscardedCases(z: Zoning, player: Id, count: int, ids: seq<Id>)
    ensures var hand, graveyard := Pile(Hand, player), Pile(Graveyard, player);
            var size := |At(z.piles, hand)|;
            var actual := Clamp(count, size);
            && (actual == 0 ==> Discarded(z, player, count, ids) == z)
            && (actual == size || |ids| != actual ==>
                  Discarded(z, player, count, ids) == LastMovedTimes(z, hand, graveyard, actual))
  {
    var size := |At(z.piles, Pile(Hand, player))|;
    assert Clamp(count, size) == 0 ==> AnswerTaken(z, player, 0, ids) == z;
  }

  /** A discard with an answer of the right length: the chosen cards, then the end of the hand. */
  method DiscardAnswered(zones: ZoneManager, player: Id, actual: nat, ids: seq<Id>, ghost z: Zoning, ghost left: nat)
    requires zones.Valid() && actual < |zones.Cards(Pile(Hand, player))| == left + actual && |ids| == actual
    requires z == zones.Value()
    modifies zones
    ensures zones.Valid() && SameHeld(z, zones.Value()) && (old(zones.Noted()) ==> zones.Noted())
    ensures zones.Value() == TrimmedTo(AnswerTaken(z, player, actual, ids), player, left)
  {
    var discarded := DiscardAnswer(zones, player, actual, ids);
    ghost var y := zones.Value();
    FillFromHand(zones, player, left, actual, discarded);
    StillSameHeld(z, y, zones.Value());
  }

  method DiscardAnswer(zones: ZoneManager, player: Id, ghost actual: nat, ids: seq<Id>) returns (discarded: nat)
    requires zones.Valid() && actual < |zones.Cards(Pile(Hand, player))| && |ids| == actual
    modifies zones
    ensures zones.Valid() && SameHeld(old(zones.Value()), zones.Value()) && (old(zones.Noted()) ==> zones.Noted())
    ensures zones.Value() == AnswerTaken(old(zones.Value()), player, actual, ids) && discarded <= actual
    ensures discarded + |zones.Cards(Pile(Hand, player))| == |old(zones.Cards(Pile(Hand, player)))|
  {
    discarded := DiscardChosen(zones, player, ids);
  }

  /** What is missing is taken from the end of the hand. */
  method FillFromHand(zones: ZoneManager, player: Id, ghost left: nat, actual: nat, discarded: nat)
    requires zones.Valid() && discarded <= actual && discarded + |zones.Cards(Pile(Hand, player))| == left + actual
    modifies zones
    ensures zones.Valid() && SameHeld(old(zones.Value()), zones.Value()) && (old(zones.Noted()) ==> zones.Noted())
    ensures zones.Value() == TrimmedTo(old(zones.Value()), player, left)
  {
    ghost var y := zones.Value();
    var _ := MoveUpTo(zones, Pile(Hand, player), Pile(Graveyard, player), actual - discarded);
    FilledUp(y, zones.Value(), player, left, actual - discarded);
  }

  lemma FilledUp(y: Zoning, x: Zoning, player: Id, left: nat, n: nat)
    requires |At(y.piles, Pile(Hand, player))| == left + n && UpTo(y, x, Pile(Hand, player), Pile(Graveyard, player), n)
    ensures x == TrimmedTo(y, player, left)
  {}

  /** The loop over the chosen ids. */
  method DiscardChosen(zones: ZoneManager, player: Id, ids: seq<Id>) returns (discarded: nat)
    requires zones.Valid()
    modifies zones
    ensures zones.Valid() && SameHeld(old(zones.Value()), zones.Value()) && (old(zones.Noted()) ==> zones.Noted())
    ensures zones.Value() == ChosenMoved(old(zones.Value()), Pile(Hand, player), Pile(Graveyard, player), ids, |ids|)
    ensures discarded + |zones.Cards(Pile(Hand, player))| == |old(zones.Cards(Pile(Hand, player)))|
            && discarded <= |ids|
  {
    ghost var z := zones.Value();
    var i := 0;
    discarded := 0;
    while i < |ids|
      invariant 0 <= i <= |ids| && discarded <= i
      invariant zones.Valid() && SameHeld(z, zones.Value()) && (old(zones.Noted()) ==> zones.Noted())
      invariant zones.Value() == ChosenMoved(z, Pile(Hand, player), Pile(Graveyard, player), ids, i)
      invariant discarded + |zones.Cards(Pile(Hand, player))| == |At(z.piles, Pile(Hand, player))|
    {
      ghost var y := zones.Value();
      var done := DiscardOne(zones, player, ids[i]);
      StillSameHeld(z, y, zones.Value());
      if done {
        discarded := discarded + 1;
      }
      i := i + 1;
    }
  }

  method DiscardOne(zones: ZoneManager, player: Id, id: Id) returns (done: bool)
    requires zones.Valid()
    modifies zones
    ensures zones.Valid() && SameHeld(old(zones.Value()), zones.Value()) && (old(zones.Noted()) ==> zones.Noted())
    ensures zones.Value() == MovedById(old(zones.Value()), Pile(Hand, player), Pile(Graveyard, player), id)
    ensures |old(zones.Cards(Pile(Hand, player)))| == |zones.Cards(Pile(Hand, player))| + (if done then 1 else 0)
  {
    ghost var z := zones.Value();
    var card := zones.RemoveFromHand(player, id);
    if card.None? {
      return false;
    }
    ghost var y := zones.Value();
    zones.AddToGraveyard(player, card.value);
    TakenThenFiled(z, y, zones.Value(), player, id);
    return true;
  }

  lemma TakenThenFiled(z: Zoning, y: Zoning, x: Zoning, player: Id, id: Id)
    requires IndexOf(At(z.piles, Pile(Hand, player)), id).Some?
    requires var hand, yard := Pile(Hand, player), Pile(Graveyard, player);
             var i := IndexOf(At(z.piles, hand), id).value;
             && y == z.(piles := z.piles[hand := Without(At(z.piles, hand), i)], zone := z.zone - {id})
             && x == y.(piles := y.piles[yard := At(y.piles, yard) + [At(z.piles, hand)[i]]],
                        zone := y.zone[id := Graveyard])
    requires Gains(y, z, Hand, id) && Gains(y, x, Graveyard, id)
    ensures x == MovedById(z, Pile(Hand, player), Pile(Graveyard, player), id) && SameHeld(z, x)
  {
    assert x.zone == z.zone[id := Graveyard];
  }

  /** The cleanup discard: afterwards the active player holds at most seven cards, and exactly seven
      if it was more. */
  method CleanupDiscard(zones: ZoneManager, active: Id, ids: seq<Id>)
    requires zones.Valid()
    modifies zones
    ensures zones.Valid() && SameHeld(old(zones.Value()), zones.Value()) && (old(zones.Noted()) ==> zones.Noted())
    ensures var before, after := |old(zones.Cards(Pile(Hand, active)))|, |zones.Cards(Pile(Hand, active))|;
            after == if before > 7 then 7 else before
    ensures zones.Value() == CleanedUp(old(zones.Value()), active, ids)
  {
    var excess := |zones.Cards(Pile(Hand, active))| - 7;
    if excess > 0 {
      ghost var z := zones.Value();
      DiscardCards(zones, active, excess, ids);
      DiscardTakesExactly(z, active, excess, ids);
    }
  }

  /** The zones with the active hand discarded down to its maximal size. */
  function CleanedUp(z: Zoning, active: Id, ids: seq<Id>): Zoning {
    var excess := |At(z.piles, Pile(Hand, active))| - MAX_HAND_SIZE;
    if excess > 0 then Discarded(z, active, excess, ids) else z
  }

  lemma CleanupKeepsField(z: Zoning, active: Id, ids: seq<Id>)
    ensures CleanedUp(z, active, ids).field == z.field
  {
    var excess := |At(z.piles, Pile(Hand, active))| - MAX_HAND_SIZE;
    DiscardTakesExactly(z, active, excess, ids);
  }
}
