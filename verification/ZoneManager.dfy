/** The zone manager: every elementary card move, with the location map kept beside the containers. */
module ZoneManagement {
  import opened Common
  import opened Permanents
  import opened Zones

  class ZoneManager {
    var piles: Piles
    var field: map<Id, Permanent>
    var exile: seq<Exiled>
    var owner: map<Id, Id>
    var zone: map<Id, Zone>
    /** The cards dealt to the players, with their owners. */
    ghost const dealt: map<Id, Id>

    /** All zones empty; the owners of the cards to come are known. */
    constructor (ghost owners: map<Id, Id>)
      ensures Value() == Zoning(map[], map[], [], map[], map[]) && dealt == owners
      ensures Valid() && Noted()
    {
      piles, field, exile, owner, zone := map[], map[], [], map[], map[];
      dealt := owners;
    }

    function Value(): Zoning
      reads this
    {
      Zoning(piles, field, exile, owner, zone)
    }

    function Cards(pile: Pile): seq<Card>
      reads this
    {
      At(piles, pile)
    }

    ghost predicate Valid()
      reads this
    {
      Good(Value(), dealt)
    }

    ghost predicate Noted()
      reads this
    {
      Complete(Value())
    }

    /** In how many places a card is. */
    ghost function Places(id: Id): nat
      reads this
    {
      Held(Value(), id)
    }

    // ---------- Piles ----------

    /** Put a card that is nowhere at the end of one of its owner's piles, noting its zone. */
    method Push(pile: Pile, card: Card)
      requires Valid() && IsPile(pile) && Places(card.id) == 0
      requires card.id in dealt ==> dealt[card.id] == pile.player
      modifies this
      ensures Valid() && (old(Noted()) ==> Noted())
      ensures Value()
              == old(Value()).(piles := old(piles)[pile := old(Cards(pile)) + [card]],
                               zone := old(zone)[card.id := pile.zone])
      ensures Gains(old(Value()), Value(), pile.zone, card.id)
    {
      zone := zone[card.id := pile.zone];
      piles := piles[pile := Cards(pile) + [card]];
      PushGains(old(Value()), Value(), pile, card);
      Came(old(Value()), Value(), dealt, pile.zone, card.id);
    }

    method PutOnTop(player: Id, card: Card)
      requires Valid() && Places(card.id) == 0 && (card.id in dealt ==> dealt[card.id] == player)
      modifies this
      ensures Valid() && (old(Noted()) ==> Noted())
      ensures Value()
              == old(Value()).(piles := old(piles)[Pile(Library, player) := old(Cards(Pile(Library, player))) + [card]],
                                       zone := old(zone)[card.id := Library])
      ensures Gains(old(Value()), Value(), Library, card.id)
    {
      Push(Pile(Library, player), card);
    }

    method PutOnBottom(player: Id, card: Card)
      requires Valid() && Places(card.id) == 0 && (card.id in dealt ==> dealt[card.id] == player)
      modifies this
      ensures Valid() && (old(Noted()) ==> Noted())
      ensures Value()
              == old(Value()).(piles := old(piles)[Pile(Library, player) := [card] + old(Cards(Pile(Library, player)))],
                                       zone := old(zone)[card.id := Library])
      ensures Gains(old(Value()), Value(), Library, card.id)
    {
      var pile := Pile(Library, player);
      zone := zone[card.id := Library];
      piles := piles[pile := [card] + Cards(pile)];
      PushGains(old(Value()), Value(), pile, card);
      Came(old(Value()), Value(), dealt, Library, card.id);
    }

    method AddToGraveyard(player: Id, card: Card)
      requires Valid() && Places(card.id) == 0 && (card.id in dealt ==> dealt[card.id] == player)
      modifies this
      ensures Valid() && (old(Noted()) ==> Noted())
      ensures Value()
              == old(Value()).(piles := old(piles)[Pile(Graveyard,
                                                        player) := old(Cards(Pile(Graveyard, player))) + [card]],
                                       zone := old(zone)[card.id := Graveyard])
      ensures Gains(old(Value()), Value(), Graveyard, card.id)
    {
      Push(Pile(Graveyard, player), card);
    }

    /** `get_hand(player).push_back(card)`: the engine's own way to put a card into a hand, which notes no zone. */
    method PushToHand(player: Id, card: Card)
      requires Valid() && Places(card.id) == 0 && (card.id in dealt ==> dealt[card.id] == player)
      modifies this
      ensures Valid()
      ensures Value()
              == old(Value()).(piles := old(piles)[Pile(Hand, player) := old(Cards(Pile(Hand, player))) + [card]])
      ensures Gains(old(Value()), Value(), Hand, card.id)
    {
      var pile := Pile(Hand, player);
      piles := piles[pile := Cards(pile) + [card]];
      PushGains(old(Value()), Value(), pile, card);
      Came(old(Value()), Value(), dealt, Hand, card.id);
    }

    /** Take the card at an index out of a pile and forget its zone. */
    method TakeAt(pile: Pile, i: nat) returns (card: Card)
      requires Valid() && IsPile(pile) && i < |Cards(pile)|
      modifies this
      ensures Valid() && (old(Noted()) ==> Noted())
      ensures card == old(Cards(pile))[i] && Places(card.id) == 0
      ensures Value()
              == old(Value()).(piles := old(piles)[pile := Without(old(Cards(pile)), i)], zone := old(zone) - {card.id})
      ensures Gains(Value(), old(Value()), pile.zone, card.id)
      ensures card.id in dealt ==> dealt[card.id] == pile.player
    {
      card := Cards(pile)[i];
      WithoutOwned(Cards(pile), i, pile.player, dealt);
      piles := piles[pile := Without(Cards(pile), i)];
      zone := zone - {card.id};
      TakeLoses(old(Value()), Value(), pile, i);
      Left(old(Value()), Value(), dealt, pile.zone, card.id);
    }

    /** Take a card out of a pile by its id, if it is there. */
    method TakeById(pile: Pile, id: Id) returns (card: Option<Card>)
      requires Valid() && IsPile(pile)
      modifies this
      ensures Valid() && (old(Noted()) ==> Noted())
      ensures card.None? <==> Times(old(Cards(pile)), id) == 0
      ensures card.None? ==> Value() == old(Value())
      ensures card.Some? ==>
                var i := IndexOf(old(Cards(pile)), id).value;
                && card.value == old(Cards(pile))[i] && card.value.id == id && Places(id) == 0
                && Value()
                   == old(Value()).(piles := old(piles)[pile := Without(old(Cards(pile)), i)], zone := old(zone) - {id})
                && Gains(Value(), old(Value()), pile.zone, id)
                && (id in dealt ==> dealt[id] == pile.player)
    {
      var cards := Cards(pile);
      var i := 0;
      while i < |cards| && cards[i].id != id
        invariant 0 <= i <= |cards| && forall k :: 0 <= k < i ==> cards[k].id != id
      {
        i := i + 1;
      }
      FirstIndex(cards, i, id);
      if i == |cards| {
        return None;
      }
      var taken := TakeAt(pile, i);
      card := Some(taken);
    }

    method RemoveFromHand(player: Id, id: Id) returns (card: Option<Card>)
      requires Valid()
      modifies this
      ensures Valid() && (old(Noted()) ==> Noted())
      ensures card.None? <==> Times(old(Cards(Pile(Hand, player))), id) == 0
      ensures card.None? ==> Value() == old(Value())
      ensures card.Some? ==>
                var hand := old(Cards(Pile(Hand, player)));
                var i := IndexOf(hand, id).value;
                && card.value == hand[i] && card.value.id == id && Places(id) == 0
                && Value()
                   == old(Value()).(piles := old(piles)[Pile(Hand, player) := Without(hand, i)],
                                    zone := old(zone) - {id})
                && Gains(Value(), old(Value()), Hand, id)
                && (id in dealt ==> dealt[id] == player)
    {
      card := TakeById(Pile(Hand, player), id);
    }

    method RemoveFromGraveyard(player: Id, id: Id) returns (card: Option<Card>)
      requires Valid()
      modifies this
      ensures Valid() && (old(Noted()) ==> Noted())
      ensures card.None? <==> Times(old(Cards(Pile(Graveyard, player))), id) == 0
      ensures card.None? ==> Value() == old(Value())
      ensures card.Some? ==>
                var cards := old(Cards(Pile(Graveyard, player)));
                var i := IndexOf(cards, id).value;
                && card.value == cards[i] && card.value.id == id && Places(id) == 0
                && Value()
                   == old(Value()).(piles := old(piles)[Pile(Graveyard, player) := Without(cards, i)],
                                    zone := old(zone) - {id})
                && Gains(Value(), old(Value()), Graveyard, id)
                && (id in dealt ==> dealt[id] == player)
    {
      card := TakeById(Pile(Graveyard, player), id);
    }

    /** The top card of a library is its last one. */
    method RemoveTop(player: Id) returns (card: Option<Card>)
      requires Valid()
      modifies this
      ensures Valid() && (old(Noted()) ==> Noted())
      ensures card.None? <==> old(Cards(Pile(Library, player))) == []
      ensures card.None? ==> Value() == old(Value())
      ensures card.Some? ==>
                var library := old(Cards(Pile(Library, player)));
                && library == Cards(Pile(Library, player)) + [card.value] && Places(card.value.id) == 0
                && Value()
                   == old(Value()).(piles := old(piles)[Pile(Library, player) := library[..|library| - 1]],
                                    zone := old(zone) - {card.value.id})
                && Gains(Value(), old(Value()), Library, card.value.id)
                && (card.value.id in dealt ==> dealt[card.value.id] == player)
    {
      var library := Cards(Pile(Library, player));
      if library == [] {
        return None;
      }
      assert Without(library, |library| - 1) == library[..|library| - 1];
      var taken := TakeAt(Pile(Library, player), |library| - 1);
      card := Some(taken);
    }

    // ---------- Battlefield and exile ----------

    /** A card enters the battlefield under its own id. */
    method AddToBattlefield(card: Card, controller: Id, cardOwner: Id)
      requires Valid() && Places(card.id) == 0 && (card.id in dealt ==> dealt[card.id] == cardOwner)
      modifies this
      ensures Valid() && (old(Noted()) ==> Noted())
      ensures Value() == old(Value()).(field := old(field)[card.id := Entering(card, controller, cardOwner)],
                                       zone := old(zone)[card.id := Battlefield])
      ensures Gains(old(Value()), Value(), Battlefield, card.id)
    {
      zone := zone[card.id := Battlefield];
      if card.id !in field {
        var p := Permanent(card := card, controller := controller, owner := cardOwner, tapped := false,
                           summoningSick := true, damage := 0, deathtouched := false, token := false,
                           modifiers := Stats(0, 0), granted := {}, counters := map[], attachedTo := None,
                           attachments := [], animation := None);
        field := field[card.id := p];
      }
      FieldGains(old(Value()), Value(), card.id, Entering(card, controller, cardOwner));
      Came(old(Value()), Value(), dealt, Battlefield, card.id);
    }

    method RemoveFromBattlefield(id: Id) returns (p: Option<Permanent>)
      requires Valid()
      modifies this
      ensures Valid() && (old(Noted()) ==> Noted())
      ensures p == if id in old(field) then Some(old(field)[id]) else None
      ensures p.None? ==> Value() == old(Value())
      ensures p.Some? ==>
                && Value() == old(Value()).(field := old(field) - {id}, zone := old(zone) - {id})
                && Places(id) == 0 && p.value.card.id == id
                && Gains(Value(), old(Value()), Battlefield, id)
                && (id in dealt ==> dealt[id] == p.value.owner)
    {
      if id !in field {
        return None;
      }
      p := Some(field[id]);
      field := field - {id};
      zone := zone - {id};
      assert old(field) == field[id := p.value];
      FieldGains(Value(), old(Value()), id, p.value);
      Left(old(Value()), Value(), dealt, Battlefield, id);
    }

    /** `find_permanent(id)->...`: a permanent changes in place; its card and owner stay. */
    method Update(id: Id, p: Permanent)
      requires Valid() && id in field && p.card == field[id].card && p.owner == field[id].owner
      modifies this`field
      ensures Valid() && (old(Noted()) ==> Noted())
      ensures field == old(field)[id := p] && SameCounts(old(Value()), Value())
    {
      field := field[id := p];
      UpdatedField(old(Value()), Value(), dealt);
    }

    method SetToken(id: Id)
      requires Valid() && id in field
      modifies this`field
      ensures Valid() && (old(Noted()) ==> Noted())
      ensures field == old(field)[id := old(field)[id].(token := true)] && SameCounts(old(Value()), Value())
    {
      Update(id, field[id].(token := true));
    }

    method AddToExile(card: Card, cardOwner: Id)
      requires Valid() && Places(card.id) == 0 && (card.id in dealt ==> dealt[card.id] == cardOwner)
      modifies this
      ensures Valid() && (old(Noted()) ==> Noted())
      ensures Value()
              == old(Value()).(exile := old(exile) + [Exiled(card, cardOwner, false, 0)],
                               zone := old(zone)[card.id := Exile])
      ensures Gains(old(Value()), Value(), Exile, card.id)
    {
      zone := zone[card.id := Exile];
      exile := exile + [Exiled(card, cardOwner, false, 0)];
      ExileGains(old(Value()), Value(), Exiled(card, cardOwner, false, 0));
      Came(old(Value()), Value(), dealt, Exile, card.id);
    }

    method RemoveFromExile(id: Id) returns (e: Option<Exiled>)
      requires Valid()
      modifies this
      ensures Valid() && (old(Noted()) ==> Noted())
      ensures e.None? <==> TimesExiled(old(exile), id) == 0
      ensures e.None? ==> Value() == old(Value())
      ensures e.Some? ==>
                var i := ExileIndexOf(old(exile), id).value;
                && e.value == old(exile)[i] && e.value.card.id == id && Places(id) == 0
                && Value() == old(Value()).(exile := Without(old(exile), i), zone := old(zone) - {id})
                && Gains(Value(), old(Value()), Exile, id)
                && (id in dealt ==> dealt[id] == e.value.owner)
    {
      var at := ExileIndexOf(exile, id);
      if at.None? {
        return None;
      }
      e := Some(exile[at.value]);
      assert e.value in exile;
      exile := Without(exile, at.value);
      zone := zone - {id};
      ExileLoses(old(Value()), Value(), at.value);
      Left(old(Value()), Value(), dealt, Exile, id);
    }

    // ---------- Whole piles ----------

    /** Cards that are nowhere become a library, with their owner and zone noted. */
    method SetLibrary(player: Id, cards: seq<Card>)
      requires Valid() && Cards(Pile(Library, player)) == [] && PileOwned(cards, player, dealt)
      requires forall id: Id :: Places(id) + Times(cards, id) <= 1
      modifies this
      ensures Valid() && (old(Noted()) ==> Noted())
      ensures forall id: Id :: Places(id) == old(Places(id)) + Times(cards, id)
      ensures Value() == LibrarySet(old(Value()), player, cards)
    {
      NoteLibrary(player, cards);
      piles := piles[Pile(Library, player) := cards];
      LibrarySetKeeps(old(Value()), player, cards, dealt);
    }

    method NoteLibrary(player: Id, cards: seq<Card>)
      modifies this`owner, this`zone
      ensures owner == Recorded(old(owner), cards, player) && zone == Recorded(old(zone), cards, Library)
    {
      assert cards[..0] == [];
      for i := 0 to |cards|
        invariant owner == Recorded(old(owner), cards[..i], player)
        invariant zone == Recorded(old(zone), cards[..i], Library)
      {
        RecordedOneMore(old(owner), cards, i, player);
        RecordedOneMore(old(zone), cards, i, Library);
        owner := owner[cards[i].id := player];
        zone := zone[cards[i].id := Library];
      }
      assert cards[..|cards|] == cards;
    }

    /** The hand goes to the end of the library. */
    method ReturnHandToLibrary(player: Id)
      requires Valid()
      modifies this
      ensures Valid() && (old(Noted()) ==> Noted()) && SameHeld(old(Value()), Value())
      ensures Value() == HandReturned(old(Value()), player)
    {
      var hand := Cards(Pile(Hand, player));
      var library := AppendToLibrary(hand, Cards(Pile(Library, player)));
      piles := piles[Pile(Library, player) := library][Pile(Hand, player) := []];
      HandReturnedKeeps(old(Value()), player, dealt);
    }

    method AppendToLibrary(hand: seq<Card>, before: seq<Card>) returns (library: seq<Card>)
      modifies this`zone
      ensures library == before + hand && zone == Recorded(old(zone), hand, Library)
    {
      library := before;
      assert hand[..0] == [];
      for i := 0 to |hand|
        invariant library == before + hand[..i] && zone == Recorded(old(zone), hand[..i], Library)
      {
        RecordedOneMore(old(zone), hand, i, Library);
        zone := zone[hand[i].id := Library];
        library := library + [hand[i]];
      }
      assert hand[..|hand|] == hand;
    }

    // ---------- Draws, and the engine's direct edits ----------

    /** The last card of one pile becomes the last card of another. */
    method MoveLast(from: Pile, to: Pile) returns (card: Card)
      requires Valid() && IsPile(from) && IsPile(to) && from != to && from.player == to.player && Cards(from) != []
      modifies this
      ensures Valid() && (old(Noted()) ==> Noted())
      ensures Value() == LastMoved(old(Value()), from, to) && SameHeld(old(Value()), Value())
      ensures card == old(Cards(from))[|old(Cards(from))| - 1]
      ensures Cards(from) == old(Cards(from))[..|old(Cards(from))| - 1] && Cards(to) == old(Cards(to)) + [card]
    {
      ghost var z := Value();
      card := TakeAt(from, |Cards(from)| - 1);
      ghost var m := Value();
      Push(to, card);
      TakenThenPushed(z, m, Value(), from, to, card);
    }

    /** The library in some other order. */
    method ShuffleLibrary(player: Id, shuffle: seq<Card> -> seq<Card>)
      requires Valid() && Permutes(shuffle)
      modifies this
      ensures Valid() && SameHeld(old(Value()), Value()) && (old(Noted()) ==> Noted())
      ensures Value()
              == old(Value()).(piles := old(piles)[Pile(Library, player) := shuffle(old(Cards(Pile(Library, player))))])
    {
      var pile := Pile(Library, player);
      piles := piles[pile := shuffle(Cards(pile))];
      Shuffled(old(Value()), Value(), pile, shuffle(old(Cards(pile))), dealt);
    }

    /** The top card of the library goes to the hand. */
    method DrawCard(player: Id) returns (card: Option<Card>)
      requires Valid()
      modifies this
      ensures Valid() && (old(Noted()) ==> Noted())
      ensures card.None? <==> old(Cards(Pile(Library, player))) == []
      ensures card.None? ==> Value() == old(Value())
      ensures card.Some? ==> Value() == LastMoved(old(Value()), Pile(Library, player), Pile(Hand, player))
      ensures SameHeld(old(Value()), Value())
    {
      if Cards(Pile(Library, player)) == [] {
        return None;
      }
      var top := MoveLast(Pile(Library, player), Pile(Hand, player));
      card := Some(top);
    }
  }

  /** The zones with the last card of one pile moved to the end of another, its new zone noted. */
  function LastMoved(z: Zoning, from: Pile, to: Pile): Zoning
    requires At(z.piles, from) != []
  {
    var cards := At(z.piles, from);
    var card := cards[|cards| - 1];
    z.(piles := z.piles[from := cards[..|cards| - 1]][to := At(z.piles, to) + [card]],
       zone := z.zone[card.id := to.zone])
  }

  /** A shuffle gives back the same cards, whatever the order. */
  ghost predicate Permutes(shuffle: seq<Card> -> seq<Card>) {
    forall cards: seq<Card> :: multiset(shuffle(cards)) == multiset(cards)
  }

  lemma {:induction false} SameTimes(a: seq<Card>, b: seq<Card>, id: Id)
    requires multiset(a) == multiset(b)
    ensures Times(a, id) == Times(b, id)
  {
    if a == [] {
      assert |multiset(b)| == 0;
    } else {
      var k := HeadInPermutation(a, b);
      TimesWithout(b, k, id);
      SameTimes(a[1..], Without(b, k), id);
    }
  }

  lemma Shuffled(z: Zoning, y: Zoning, pile: Pile, cards: seq<Card>, dealt: map<Id, Id>)
    requires Good(z, dealt) && IsPile(pile) && multiset(cards) == multiset(At(z.piles, pile))
    requires y == z.(piles := z.piles[pile := cards])
    ensures Good(y, dealt) && SameHeld(z, y) && (Complete(z) ==> Complete(y))
  {
    AllPilesAfterPut(z.piles, pile, cards);
    forall id: Id ensures Times(cards, id) == Times(At(z.piles, pile), id) {
      SameTimes(cards, At(z.piles, pile), id);
    }
    forall c | c in cards ensures c in At(z.piles, pile) {
      assert c in multiset(cards);
    }
    assert SameHeld(z, y);
    forall id: Id ensures Held(y, id) <= 1 {
      assert Held(z, id) <= 1;
    }
    forall id | id in y.zone ensures TimesIn(y, y.zone[id], id) > 0 {
      assert TimesIn(z, z.zone[id], id) > 0;
    }
  }

  /** Every card is where it was. */
  ghost predicate SameCounts(z: Zoning, y: Zoning) {
    SameHeld(z, y) && forall zone: Zone, id: Id :: TimesIn(y, zone, id) == TimesIn(z, zone, id)
  }

  lemma UpdatedField(z: Zoning, y: Zoning, dealt: map<Id, Id>)
    requires Good(z, dealt) && y == z.(field := y.field) && y.field.Keys == z.field.Keys
    requires forall id :: id in z.field ==>
               y.field[id].card == z.field[id].card && y.field[id].owner == z.field[id].owner
    ensures Good(y, dealt) && SameCounts(z, y) && (Complete(z) ==> Complete(y))
  {
    assert SameCounts(z, y);
    forall id: Id ensures Held(y, id) <= 1 {
      assert Held(z, id) <= 1;
    }
    forall id | id in y.zone ensures TimesIn(y, y.zone[id], id) > 0 {
      assert TimesIn(z, z.zone[id], id) > 0;
    }
  }

  /** Every card is in as many places as before. */
  ghost predicate SameHeld(z: Zoning, y: Zoning) { forall id: Id :: Held(y, id) == Held(z, id) }

  lemma TakenThenPushed(z: Zoning, m: Zoning, y: Zoning, from: Pile, to: Pile, card: Card)
    requires from != to && At(z.piles, from) != [] && card == At(z.piles, from)[|At(z.piles, from)| - 1]
    requires m
             == z.(piles := z.piles[from := Without(At(z.piles, from), |At(z.piles, from)| - 1)],
                   zone := z.zone - {card.id})
    requires y == m.(piles := m.piles[to := At(m.piles, to) + [card]], zone := m.zone[card.id := to.zone])
    requires Gains(m, z, from.zone, card.id) && Gains(m, y, to.zone, card.id)
    ensures y == LastMoved(z, from, to) && SameHeld(z, y)
  {
    assert y.zone == z.zone[card.id := to.zone];
    assert Without(At(z.piles, from), |At(z.piles, from)| - 1) == At(z.piles, from)[..|At(z.piles, from)| - 1];
  }

  // ---------- Whole piles, as values ----------

  function IdsOf(cards: seq<Card>): set<Id> { set c | c in cards :: c.id }

  /** A record with the same entry for every one of some cards. */
  function Recorded<V>(record: map<Id, V>, cards: seq<Card>, v: V): map<Id, V> {
    record + (map id | id in IdsOf(cards) :: v)
  }

  lemma RecordedOneMore<V>(record: map<Id, V>, cards: seq<Card>, i: nat, v: V)
    requires i < |cards|
    ensures Recorded(record, cards[..i + 1], v) == Recorded(record, cards[..i], v)[cards[i].id := v]
  {
    assert cards[..i + 1] == cards[..i] + [cards[i]];
    assert IdsOf(cards[..i + 1]) == IdsOf(cards[..i]) + {cards[i].id} by {
      assert cards[i] in cards[..i + 1];
    }
  }

  lemma IdsOfMeansTimes(cards: seq<Card>, id: Id)
    ensures id in IdsOf(cards) <==> Times(cards, id) > 0
  {
    TimesMeansIn(cards, id);
  }

  function LibrarySet(z: Zoning, player: Id, cards: seq<Card>): Zoning {
    z.(piles := z.piles[Pile(Library, player) := cards],
       owner := Recorded(z.owner, cards, player), zone := Recorded(z.zone, cards, Library))
  }

  lemma LibrarySetKeeps(z: Zoning, player: Id, cards: seq<Card>, dealt: map<Id, Id>)
    requires Good(z, dealt) && At(z.piles, Pile(Library, player)) == [] && PileOwned(cards, player, dealt)
    requires forall id: Id :: Held(z, id) + Times(cards, id) <= 1
    ensures var y := LibrarySet(z, player, cards);
            Good(y, dealt) && (Complete(z) ==> Complete(y))
            && forall id: Id :: Held(y, id) == Held(z, id) + Times(cards, id)
  {
    var y := LibrarySet(z, player, cards);
    LibrarySetCounts(z, player, cards);
    forall id: Id ensures id in IdsOf(cards) <==> Times(cards, id) > 0 {
      IdsOfMeansTimes(cards, id);
    }
    NotedInLibrary(z, y, cards);
  }

  lemma LibrarySetCounts(z: Zoning, player: Id, cards: seq<Card>)
    requires At(z.piles, Pile(Library, player)) == []
    ensures var y := LibrarySet(z, player, cards);
            && (forall id: Id :: Held(y, id) == Held(z, id) + Times(cards, id))
            && (forall id: Id :: TimesIn(y, Library, id) == TimesIn(z, Library, id) + Times(cards, id))
            && (forall id: Id, zone: Zone :: zone != Library ==> TimesIn(y, zone, id) == TimesIn(z, zone, id))
  {
    AllPilesAfterPut(z.piles, Pile(Library, player), cards);
  }

  /** Cards noted in the library are there, when the count of the library has risen by them. */
  lemma NotedInLibrary(z: Zoning, y: Zoning, cards: seq<Card>)
    requires Sound(z) && y.zone == Recorded(z.zone, cards, Library)
    requires forall id: Id :: id in IdsOf(cards) ==> TimesIn(y, Library, id) > 0
    requires forall id: Id, zone: Zone :: id !in IdsOf(cards) ==> TimesIn(y, zone, id) == TimesIn(z, zone, id)
    ensures Sound(y)
  {
    forall id | id in y.zone ensures TimesIn(y, y.zone[id], id) > 0 {
      if id !in IdsOf(cards) {
        assert TimesIn(z, z.zone[id], id) > 0;
      }
    }
  }

  function HandReturned(z: Zoning, player: Id): Zoning {
    var hand, library := At(z.piles, Pile(Hand, player)), At(z.piles, Pile(Library, player));
    z.(piles := z.piles[Pile(Library, player) := library + hand][Pile(Hand, player) := []],
       zone := Recorded(z.zone, hand, Library))
  }

  lemma HandReturnedKeeps(z: Zoning, player: Id, dealt: map<Id, Id>)
    requires Good(z, dealt)
    ensures var y := HandReturned(z, player); Good(y, dealt) && (Complete(z) ==> Complete(y)) && SameHeld(z, y)
  {
    var y := HandReturned(z, player);
    var hand := At(z.piles, Pile(Hand, player));
    HandReturnedCounts(z, y, player);
    forall id: Id ensures id in IdsOf(hand) <==> Times(hand, id) > 0 {
      IdsOfMeansTimes(hand, id);
    }
    forall id: Id ensures Held(y, id) <= 1 {
      assert Held(z, id) <= 1;
    }
    NotedInLibrary(z, y, hand);
  }

  lemma HandReturnedCounts(z: Zoning, y: Zoning, player: Id)
    requires y == HandReturned(z, player)
    ensures SameHeld(z, y)
    ensures forall id: Id ::
              TimesInPiles(y.piles, Library, id)
              == TimesInPiles(z.piles, Library, id) + Times(At(z.piles, Pile(Hand, player)), id)
    ensures forall id: Id ::
              TimesInPiles(y.piles, Hand, id)
              == TimesInPiles(z.piles, Hand, id) - Times(At(z.piles, Pile(Hand, player)), id)
    ensures forall id: Id :: TimesInPiles(y.piles, Graveyard, id) == TimesInPiles(z.piles, Graveyard, id)
  {
    var hand, library := At(z.piles, Pile(Hand, player)), At(z.piles, Pile(Library, player));
    var between := z.piles[Pile(Library, player) := library + hand];
    AllPilesAfterPut(z.piles, Pile(Library, player), library + hand);
    AllPilesAfterPut(between, Pile(Hand, player), []);
    forall id: Id ensures Times(library + hand, id) == Times(library, id) + Times(hand, id) {
      TimesConcat(library, hand, id);
    }
  }
}
