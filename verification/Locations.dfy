/** The location map over whole runs of card moves: whatever the moves, every card is in at most one container,
    and the location map names that one for every card but those put into a hand without a note. */
module Locations {
  import opened Common
  import opened Permanents
  import opened Zones
  import opened ZoneManagement
  import Removal

  /** What an answer about a card says of the zones; none stands for "Unknown". */
  ghost predicate Answers(found: Option<Zone>, z: Zoning, id: Id) {
    && (found.Some? ==> forall zone: Zone :: TimesIn(z, zone, id) > 0 <==> found == Some(zone))
    && (found.None? && Held(z, id) > 0 ==> TimesIn(z, Hand, id) == 1)
  }

  /** The noted zone of a card. A known answer is the zone the card is in; an unknown one means that it is nowhere,
      or in a hand without a note. */
  method FindCardZone(zones: ZoneManager, id: Id) returns (found: Option<Zone>)
    requires zones.Valid()
    ensures Answers(found, zones.Value(), id)
    ensures found.None? <==> id !in zones.zone
    ensures ExactFor(zones.Value(), id) <==> found.Some? || zones.Places(id) == 0
    ensures zones.Noted() ==> ExactFor(zones.Value(), id)
  {
    found := if id in zones.zone then Some(zones.zone[id]) else None;
    NotedZoneIsTheZone(zones.Value(), zones.dealt, id);
    assert zones.Places(id) <= 1;
    InOneZone(zones.Value(), Hand, id);
  }

  // ---------- A card without a note ----------

  /** A card returned from the graveyard is in the hand and the location map does not know it. */
  lemma ReturnedIsUnknown(z: Zoning, dealt: map<Id, Id>, player: Id, id: Id)
    requires Good(z, dealt) && Times(At(z.piles, Pile(Graveyard, player)), id) > 0
    requires Good(Removal.ReturnedFromYard(z, player, id), dealt)
    requires Removal.Carried(z, Removal.ReturnedFromYard(z, player, id), id, Hand)
    ensures var y := Removal.ReturnedFromYard(z, player, id);
            TimesIn(y, Hand, id) == 1 && id !in y.zone && !ExactFor(y, id)
  {
    NotedZoneIsTheZone(Removal.ReturnedFromYard(z, player, id), dealt, id);
  }

  /** A game in which that happens: one card goes to the graveyard and comes back to the hand. */
  method NoteIsLost(card: Card, player: Id) returns (zones: ZoneManager, before: Option<Zone>, after: Option<Zone>)
    ensures fresh(zones) && zones.Valid()
    ensures var inYard := Removal.IntoGraveyard(Zoning(map[], map[], [], map[], map[]), card, player);
            zones.Value() == Removal.ReturnedFromYard(inYard, player, card.id)
    ensures before == Some(Graveyard) && after == None && TimesIn(zones.Value(), Hand, card.id) == 1
    ensures !ExactFor(zones.Value(), card.id)
  {
    zones := new ZoneManager(map[]);
    NothingYet(zones.Value(), card.id);
    zones.AddToGraveyard(player, card);
    before := FindCardZone(zones, card.id);
    ghost var z := zones.Value();
    assert At(z.piles, Pile(Graveyard, player)) == [card];
    Removal.ReturnFromGraveyard(zones, player, card.id);
    ReturnedIsUnknown(z, zones.dealt, player, card.id);
    after := FindCardZone(zones, card.id);
  }

  lemma NothingYet(z: Zoning, id: Id)
    requires z == Zoning(map[], map[], [], map[], map[])
    ensures Held(z, id) == 0
  {}

  // ---------- Moves ----------

  /** The zone manager's own moves, and the engine's way to put a card into a hand, which notes no zone. A card
      taken out is held by the caller until it is put somewhere. */
  datatype Move =
    | DrawOne(player: Id)
    | Shuffle(player: Id, shuffle: seq<Card> -> seq<Card>)
    | ReturnHand(player: Id)
    | TakeFromTop(player: Id)
    | TakeFromHand(player: Id, id: Id)
    | TakeFromGraveyard(player: Id, id: Id)
    | TakeFromField(id: Id)
    | TakeFromExile(id: Id)
    | PutOn(k: nat, where: Zone, bottom: bool, player: Id, controller: Id)
    | PushIntoHand(k: nat, player: Id)

  /** The zones, and the cards in the caller's hands. */
  datatype State = State(z: Zoning, held: seq<Card>)

  function TopTaken(s: State, player: Id): State {
    var pile := Pile(Library, player);
    var library := At(s.z.piles, pile);
    if library == [] then s
    else
      var card := library[|library| - 1];
      State(s.z.(piles := s.z.piles[pile := library[..|library| - 1]], zone := s.z.zone - {card.id}), s.held + [card])
  }

  function TakenById(s: State, pile: Pile, id: Id): State {
    if Times(At(s.z.piles, pile), id) == 0 then s
    else State(Removal.TakenFrom(s.z, pile, id), s.held + [Removal.CardOf(s.z, pile, id)])
  }

  function TakenFromField(s: State, id: Id): State {
    if id in s.z.field then State(Removal.OffField(s.z, id), s.held + [s.z.field[id].card]) else s
  }

  function TakenFromExile(s: State, id: Id): State {
    match ExileIndexOf(s.z.exile, id)
    case None => s
    case Some(i) => State(s.z.(exile := Without(s.z.exile, i), zone := s.z.zone - {id}), s.held + [s.z.exile[i].card])
  }

  /** The zone manager has no way of its own to put a card into a hand. */
  function PutInto(z: Zoning, card: Card, where: Zone, bottom: bool, player: Id, controller: Id): Zoning
    requires where != Hand && where != Sideboard
  {
    var library := Pile(Library, player);
    match where
    case Library =>
      var cards := if bottom then [card] + At(z.piles, library) else At(z.piles, library) + [card];
      z.(piles := z.piles[library := cards], zone := z.zone[card.id := Library])
    case Graveyard => Removal.IntoGraveyard(z, card, player)
    case Exile => Removal.IntoExile(z, card, player)
    case Battlefield =>
      z.(field := z.field[card.id := Entering(card, controller, player)], zone := z.zone[card.id := Battlefield])
  }

  function AfterMove(s: State, move: Move): State {
    match move
    case DrawOne(player) =>
      if At(s.z.piles, Pile(Library, player)) == [] then s
      else s.(z := LastMoved(s.z, Pile(Library, player), Pile(Hand, player)))
    case Shuffle(player, shuffle) =>
      var pile := Pile(Library, player);
      s.(z := s.z.(piles := s.z.piles[pile := shuffle(At(s.z.piles, pile))]))
    case ReturnHand(player) => s.(z := HandReturned(s.z, player))
    case TakeFromTop(player) => TopTaken(s, player)
    case TakeFromHand(player, id) => TakenById(s, Pile(Hand, player), id)
    case TakeFromGraveyard(player, id) => TakenById(s, Pile(Graveyard, player), id)
    case TakeFromField(id) => TakenFromField(s, id)
    case TakeFromExile(id) => TakenFromExile(s, id)
    case PutOn(k, where, bottom, player, controller) =>
      if k >= |s.held| || where == Hand || where == Sideboard then s
      else State(PutInto(s.z, s.held[k], where, bottom, player, controller), Without(s.held, k))
    case PushIntoHand(k, player) =>
      if k >= |s.held| then s else State(Removal.IntoHand(s.z, s.held[k], player), Without(s.held, k))
  }

  function AfterMoves(s: State, moves: seq<Move>): State {
    if moves == [] then s else AfterMove(AfterMoves(s, moves[..|moves| - 1]), moves[|moves| - 1])
  }

  lemma OneMoreMove(s: State, moves: seq<Move>, i: nat)
    requires i < |moves|
    ensures AfterMoves(s, moves[..i + 1]) == AfterMove(AfterMoves(s, moves[..i]), moves[i])
  {
    assert moves[..i + 1][..i] == moves[..i];
  }

  // ---------- What every move keeps ----------

  /** No card is in two places, counting the caller's hands. */
  ghost predicate Apart(s: State) { forall id: Id :: Held(s.z, id) + Times(s.held, id) <= 1 }

  lemma Took(s: State, y: Zoning, zone: Zone, card: Card)
    requires Apart(s) && Gains(y, s.z, zone, card.id)
    ensures Apart(State(y, s.held + [card]))
  {
    forall id: Id ensures Held(y, id) + Times(s.held + [card], id) <= 1 {
      assert Held(s.z, id) + Times(s.held, id) <= 1;
      TimesConcat(s.held, [card], id);
    }
  }

  lemma Put(s: State, y: Zoning, zone: Zone, k: nat)
    requires Apart(s) && k < |s.held| && Gains(s.z, y, zone, s.held[k].id)
    ensures Apart(State(y, Without(s.held, k)))
  {
    forall id: Id ensures Held(y, id) + Times(Without(s.held, k), id) <= 1 {
      assert Held(s.z, id) + Times(s.held, id) <= 1;
      TimesWithout(s.held, k, id);
    }
  }

  lemma HeldIsNowhere(s: State, k: nat)
    requires Apart(s) && k < |s.held|
    ensures Held(s.z, s.held[k].id) == 0
  {
    TimesWithout(s.held, k, s.held[k].id);
    assert Held(s.z, s.held[k].id) + Times(s.held, s.held[k].id) <= 1;
  }

  lemma SameHeldApart(s: State, y: Zoning)
    requires Apart(s) && SameHeld(s.z, y)
    ensures Apart(s.(z := y))
  {
    forall id: Id ensures Held(y, id) + Times(s.held, id) <= 1 {
      assert Held(s.z, id) + Times(s.held, id) <= 1;
    }
  }

  // ---------- The moves on the zone manager ----------

  method TakeTop(zones: ZoneManager, player: Id, held: seq<Card>) returns (now: seq<Card>)
    requires zones.Valid() && Apart(State(zones.Value(), held))
    modifies zones
    ensures zones.Valid() && (old(zones.Noted()) ==> zones.Noted()) && Apart(State(zones.Value(), now))
    ensures State(zones.Value(), now) == TopTaken(State(old(zones.Value()), held), player)
  {
    ghost var s := State(zones.Value(), held);
    var card := zones.RemoveTop(player);
    if card.None? {
      return held;
    }
    now := held + [card.value];
    Took(s, zones.Value(), Library, card.value);
  }

  method TakeFromPile(zones: ZoneManager, zone: Zone, player: Id, id: Id, held: seq<Card>) returns (now: seq<Card>)
    requires zones.Valid() && Apart(State(zones.Value(), held)) && (zone == Hand || zone == Graveyard)
    modifies zones
    ensures zones.Valid() && (old(zones.Noted()) ==> zones.Noted()) && Apart(State(zones.Value(), now))
    ensures State(zones.Value(), now) == TakenById(State(old(zones.Value()), held), Pile(zone, player), id)
  {
    ghost var s := State(zones.Value(), held);
    var card;
    if zone == Hand {
      card := zones.RemoveFromHand(player, id);
    } else {
      card := zones.RemoveFromGraveyard(player, id);
    }
    if card.None? {
      return held;
    }
    now := held + [card.value];
    Took(s, zones.Value(), zone, card.value);
  }

  method TakePermanent(zones: ZoneManager, id: Id, held: seq<Card>) returns (now: seq<Card>)
    requires zones.Valid() && Apart(State(zones.Value(), held))
    modifies zones
    ensures zones.Valid() && (old(zones.Noted()) ==> zones.Noted()) && Apart(State(zones.Value(), now))
    ensures State(zones.Value(), now) == TakenFromField(State(old(zones.Value()), held), id)
  {
    ghost var s := State(zones.Value(), held);
    var p := zones.RemoveFromBattlefield(id);
    if p.None? {
      return held;
    }
    now := held + [p.value.card];
    Took(s, zones.Value(), Battlefield, p.value.card);
  }

  method TakeExiled(zones: ZoneManager, id: Id, held: seq<Card>) returns (now: seq<Card>)
    requires zones.Valid() && Apart(State(zones.Value(), held))
    modifies zones
    ensures zones.Valid() && (old(zones.Noted()) ==> zones.Noted()) && Apart(State(zones.Value(), now))
    ensures State(zones.Value(), now) == TakenFromExile(State(old(zones.Value()), held), id)
  {
    ghost var s := State(zones.Value(), held);
    var e := zones.RemoveFromExile(id);
    if e.None? {
      return held;
    }
    now := held + [e.value.card];
    Took(s, zones.Value(), Exile, e.value.card);
  }

  /** A held card goes where the caller says; no card is dealt to anybody here, so any pile will do. */
  method PutCard(zones: ZoneManager, card: Card, where: Zone, bottom: bool, player: Id, controller: Id)
    requires zones.Valid() && zones.dealt == map[] && zones.Places(card.id) == 0
    requires where != Hand && where != Sideboard
    modifies zones
    ensures zones.Valid() && (old(zones.Noted()) ==> zones.Noted())
    ensures zones.Value() == PutInto(old(zones.Value()), card, where, bottom, player, controller)
    ensures Gains(old(zones.Value()), zones.Value(), where, card.id)
  {
    match where {
      case Library =>
        if bottom {
          zones.PutOnBottom(player, card);
        } else {
          zones.PutOnTop(player, card);
        }
      case Graveyard => zones.AddToGraveyard(player, card);
      case Battlefield => zones.AddToBattlefield(card, controller, player);
      case Exile => zones.AddToExile(card, player);
    }
  }

  method PutOne(zones: ZoneManager, move: Move, held: seq<Card>) returns (now: seq<Card>)
    requires zones.Valid() && zones.dealt == map[] && Apart(State(zones.Value(), held)) && move.PutOn?
    modifies zones
    ensures zones.Valid() && (old(zones.Noted()) ==> zones.Noted()) && Apart(State(zones.Value(), now))
    ensures State(zones.Value(), now) == AfterMove(State(old(zones.Value()), held), move)
  {
    if move.k >= |held| || move.where == Hand || move.where == Sideboard {
      return held;
    }
    ghost var s := State(zones.Value(), held);
    HeldIsNowhere(s, move.k);
    PutCard(zones, held[move.k], move.where, move.bottom, move.player, move.controller);
    now := Without(held, move.k);
    Put(s, zones.Value(), move.where, move.k);
  }

  method PushOne(zones: ZoneManager, k: nat, player: Id, held: seq<Card>) returns (now: seq<Card>)
    requires zones.Valid() && zones.dealt == map[] && Apart(State(zones.Value(), held))
    modifies zones
    ensures zones.Valid() && Apart(State(zones.Value(), now))
    ensures State(zones.Value(), now) == AfterMove(State(old(zones.Value()), held), PushIntoHand(k, player))
  {
    if k >= |held| {
      return held;
    }
    ghost var s := State(zones.Value(), held);
    HeldIsNowhere(s, k);
    zones.PushToHand(player, held[k]);
    now := Without(held, k);
    Put(s, zones.Value(), Hand, k);
  }

  method TakeOne(zones: ZoneManager, move: Move, held: seq<Card>) returns (now: seq<Card>)
    requires zones.Valid() && Apart(State(zones.Value(), held))
    requires move.TakeFromTop? || move.TakeFromHand? || move.TakeFromGraveyard? || move.TakeFromField?
             || move.TakeFromExile?
    modifies zones
    ensures zones.Valid() && (old(zones.Noted()) ==> zones.Noted()) && Apart(State(zones.Value(), now))
    ensures State(zones.Value(), now) == AfterMove(State(old(zones.Value()), held), move)
  {
    match move
    case TakeFromTop(player) => now := TakeTop(zones, player, held);
    case TakeFromHand(player, id) => now := TakeFromPile(zones, Hand, player, id, held);
    case TakeFromGraveyard(player, id) => now := TakeFromPile(zones, Graveyard, player, id, held);
    case TakeFromField(id) => now := TakePermanent(zones, id, held);
    case TakeFromExile(id) => now := TakeExiled(zones, id, held);
  }

  /** The moves that hand the caller no card. */
  method MoveInside(zones: ZoneManager, move: Move, ghost held: seq<Card>)
    requires zones.Valid() && Apart(State(zones.Value(), held))
    requires move.DrawOne? || move.ReturnHand? || (move.Shuffle? && Permutes(move.shuffle))
    modifies zones
    ensures zones.Valid() && (old(zones.Noted()) ==> zones.Noted()) && Apart(State(zones.Value(), held))
    ensures State(zones.Value(), held) == AfterMove(State(old(zones.Value()), held), move)
  {
    ghost var s := State(zones.Value(), held);
    match move {
      case DrawOne(player) =>
        var card := zones.DrawCard(player);
      case Shuffle(player, shuffle) =>
        zones.ShuffleLibrary(player, shuffle);
      case ReturnHand(player) =>
        zones.ReturnHandToLibrary(player);
    }
    SameHeldApart(s, zones.Value());
  }

  method MoveOnce(zones: ZoneManager, move: Move, held: seq<Card>) returns (now: seq<Card>)
    requires zones.Valid() && zones.dealt == map[] && Apart(State(zones.Value(), held))
    requires move.Shuffle? ==> Permutes(move.shuffle)
    modifies zones
    ensures zones.Valid() && Apart(State(zones.Value(), now))
    ensures old(zones.Noted()) && !move.PushIntoHand? ==> zones.Noted()
    ensures State(zones.Value(), now) == AfterMove(State(old(zones.Value()), held), move)
  {
    if move.PushIntoHand? {
      now := PushOne(zones, move.k, move.player, held);
    } else if move.PutOn? {
      now := PutOne(zones, move, held);
    } else if move.DrawOne? || move.Shuffle? || move.ReturnHand? {
      now := held;
      MoveInside(zones, move, held);
    } else {
      now := TakeOne(zones, move, held);
    }
  }

  /** No move that leaves a card without a note. */
  predicate OwnMoves(moves: seq<Move>) { forall i :: 0 <= i < |moves| ==> !moves[i].PushIntoHand? }

  /** Any moves whatever: the zones become what the moves, one after another, make of them, and the answer about
      any card is right; under the zone manager's own moves it is exact. */
  method MoveAndFind(zones: ZoneManager, moves: seq<Move>, id: Id) returns (found: Option<Zone>, held: seq<Card>)
    requires zones.Valid() && zones.dealt == map[]
    requires forall i :: 0 <= i < |moves| && moves[i].Shuffle? ==> Permutes(moves[i].shuffle)
    modifies zones
    ensures zones.Valid() && State(zones.Value(), held) == AfterMoves(State(old(zones.Value()), []), moves)
    ensures Answers(found, zones.Value(), id)
    ensures old(zones.Noted()) && OwnMoves(moves) ==> ExactFor(zones.Value(), id)
    ensures Apart(State(zones.Value(), held))
  {
    held := [];
    ghost var s, noted := State(zones.Value(), []), zones.Noted();
    forall c: Id ensures Held(s.z, c) + Times([], c) <= 1 {
      assert zones.Places(c) <= 1;
    }
    assert moves[..0] == [];
    for i := 0 to |moves|
      invariant zones.Valid() && Apart(State(zones.Value(), held))
      invariant State(zones.Value(), held) == AfterMoves(s, moves[..i])
      invariant noted && OwnMoves(moves) ==> zones.Noted()
    {
      OneMoreMove(s, moves, i);
      held := MoveOnce(zones, moves[i], held);
    }
    assert moves[..|moves|] == moves;
    found := FindCardZone(zones, id);
  }
}
