/** The zones of a game as values: the card piles, the battlefield and exile, with the map from a
    card to its owner and the map from a card to the name of its zone. */
module Zones {
  import opened Common
  import opened Permanents

  /** The zones a card can be noted in, and the sideboard, which is a player's own list. */
  datatype Zone = Library | Hand | Graveyard | Exile | Battlefield | Sideboard

  /** One player's library, hand, graveyard or sideboard. The end of a library is its top. */
  datatype Pile = Pile(zone: Zone, player: Id)

  datatype Exiled = Exiled(card: Card, owner: Id, faceDown: bool, exiledBy: Id)

  type Piles = map<Pile, seq<Card>>

  /** A pile that was never written is an empty one. */
  function At(piles: Piles, pile: Pile): seq<Card> { if pile in piles then piles[pile] else [] }

  datatype Zoning = Zoning(piles: Piles, field: map<Id, Permanent>, exile: seq<Exiled>,
                           owner: map<Id, Id>, zone: map<Id, Zone>)

  // ---------- How often a card is where ----------

  function Times(cards: seq<Card>, id: Id): nat {
    if cards == [] then 0 else (if cards[0].id == id then 1 else 0) + Times(cards[1..], id)
  }

  function TimesExiled(cards: seq<Exiled>, id: Id): nat {
    if cards == [] then 0 else (if cards[0].card.id == id then 1 else 0) + TimesExiled(cards[1..], id)
  }

  /** In all players' piles of one zone. */
  ghost function TimesInPiles(piles: Piles, zone: Zone, id: Id): nat
    decreases |piles|
  {
    if piles == map[] then 0
    else
      var pile :| pile in piles;
      (if pile.zone == zone then Times(piles[pile], id) else 0) + TimesInPiles(piles - {pile}, zone, id)
  }

  ghost function TimesIn(z: Zoning, zone: Zone, id: Id): nat {
    match zone
    case Battlefield => if id in z.field then 1 else 0
    case Exile => TimesExiled(z.exile, id)
    case Sideboard => 0
    case _ => TimesInPiles(z.piles, zone, id)
  }

  /** In all zones together. */
  ghost function Held(z: Zoning, id: Id): nat {
    TimesInPiles(z.piles, Library, id) + TimesInPiles(z.piles, Hand, id) + TimesInPiles(z.piles, Graveyard, id)
    + TimesExiled(z.exile, id) + (if id in z.field then 1 else 0)
  }

  lemma {:induction false} PilesWithoutOne(piles: Piles, pile: Pile, zone: Zone, id: Id)
    requires pile in piles
    ensures TimesInPiles(piles, zone, id)
            == (if pile.zone == zone then Times(piles[pile], id) else 0) + TimesInPiles(piles - {pile}, zone, id)
    decreases |piles|
  {
    var first :| first in piles
                 && TimesInPiles(piles, zone, id)
                    == (if first.zone == zone then Times(piles[first],
                                                         id) else 0) + TimesInPiles(piles - {first}, zone, id);
    if first == pile {
    } else {
      PilesWithoutOne(piles - {first}, pile, zone, id);
      PilesWithoutOne(piles - {pile}, first, zone, id);
      assert piles - {first} - {pile} == piles - {pile} - {first};
    }
  }

  /** Writing one pile changes the count of its zone by that pile, and no other count. */
  lemma PilesAfterPut(piles: Piles, pile: Pile, cards: seq<Card>, zone: Zone, id: Id)
    ensures pile.zone == zone ==> Times(At(piles, pile), id) <= TimesInPiles(piles, zone, id)
    ensures TimesInPiles(piles[pile := cards], zone, id)
            == if pile.zone == zone then TimesInPiles(piles, zone, id) - Times(At(piles, pile), id) + Times(cards, id)
               else TimesInPiles(piles, zone, id)
  {
    PilesWithoutOne(piles[pile := cards], pile, zone, id);
    assert piles[pile := cards] - {pile} == piles - {pile};
    if pile in piles {
      PilesWithoutOne(piles, pile, zone, id);
    } else {
      assert piles - {pile} == piles;
    }
  }

  lemma {:induction false} TimesConcat(a: seq<Card>, b: seq<Card>, id: Id)
    ensures Times(a + b, id) == Times(a, id) + Times(b, id)
  {
    if a == [] {
      assert a + b == b;
    } else {
      assert (a + b)[1..] == a[1..] + b;
      TimesConcat(a[1..], b, id);
    }
  }

  lemma {:induction false} TimesWithout(cards: seq<Card>, i: nat, id: Id)
    requires i < |cards|
    ensures Times(cards, id) == Times(Without(cards, i), id) + (if cards[i].id == id then 1 else 0)
  {
    if i == 0 {
      assert Without(cards, 0) == cards[1..];
    } else {
      assert Without(cards, i)[1..] == Without(cards[1..], i - 1);
      TimesWithout(cards[1..], i - 1, id);
    }
  }

  lemma {:induction false} TimesMeansIn(cards: seq<Card>, id: Id)
    ensures Times(cards, id) > 0 <==> exists i :: 0 <= i < |cards| && cards[i].id == id
  {
    if cards == [] {
    } else {
      TimesMeansIn(cards[1..], id);
      if i :| 0 <= i < |cards[1..]| && cards[1..][i].id == id {
        assert cards[i + 1].id == id;
      }
      if i :| 0 <= i < |cards| && cards[i].id == id {
        assert i > 0 ==> cards[1..][i - 1].id == id;
      }
    }
  }

  lemma {:induction false} ExiledWithout(cards: seq<Exiled>, i: nat, id: Id)
    requires i < |cards|
    ensures TimesExiled(cards, id) == TimesExiled(Without(cards, i), id) + (if cards[i].card.id == id then 1 else 0)
  {
    if i == 0 {
      assert Without(cards, 0) == cards[1..];
    } else {
      assert Without(cards, i)[1..] == Without(cards[1..], i - 1);
      ExiledWithout(cards[1..], i - 1, id);
    }
  }

  // ---------- What always holds ----------

  /** No card is anywhere twice. */
  ghost predicate Unique(z: Zoning) { forall id :: Held(z, id) <= 1 }

  /** A zone that is noted for a card is the zone it is in. */
  ghost predicate Sound(z: Zoning) { forall id :: id in z.zone ==> TimesIn(z, z.zone[id], id) > 0 }

  /** Every card in a zone has its zone noted. */
  ghost predicate Complete(z: Zoning) { forall id :: Held(z, id) > 0 ==> id in z.zone }

  ghost predicate PileOwned(cards: seq<Card>, player: Id, dealt: map<Id, Id>) {
    forall c :: c in cards && c.id in dealt ==> dealt[c.id] == player
  }

  /** Dealt cards are in their owner's piles only, and their owner is on record wherever they are. */
  ghost predicate Owned(z: Zoning, dealt: map<Id, Id>) {
    && (forall pile :: pile in z.piles ==> PileOwned(z.piles[pile], pile.player, dealt))
    && (forall id :: id in z.field && id in dealt ==> z.field[id].owner == dealt[id])
    && (forall e :: e in z.exile && e.card.id in dealt ==> e.owner == dealt[e.card.id])
    && (forall id :: id in z.owner && id in dealt ==> z.owner[id] == dealt[id])
  }

  /** Permanents are filed under their card's id. */
  ghost predicate Filed(z: Zoning) { forall id :: id in z.field ==> z.field[id].card.id == id }

  /** A card that is somewhere without a note is in a hand. */
  ghost predicate OnlyHandsUnnoted(z: Zoning) {
    forall id: Id :: Held(z, id) > 0 && id !in z.zone ==> TimesIn(z, Hand, id) > 0
  }

  ghost predicate Good(z: Zoning, dealt: map<Id, Id>) {
    Unique(z) && Sound(z) && OnlyHandsUnnoted(z) && Owned(z, dealt) && Filed(z)
  }

  /** The notes tell exactly where a card is: the noted zone is the one it is in. */
  ghost predicate ExactFor(z: Zoning, id: Id) {
    forall zone: Zone :: TimesIn(z, zone, id) > 0 <==> id in z.zone && z.zone[id] == zone
  }

  /** For every card: its notes are exact just when it has one or is nowhere, that is, unless it is in a hand
      without a note. */
  lemma NotedZoneIsTheZone(z: Zoning, dealt: map<Id, Id>, id: Id)
    requires Good(z, dealt)
    ensures ExactFor(z, id) <==> id in z.zone || Held(z, id) == 0
    ensures ExactFor(z, id) <==> !(id !in z.zone && TimesIn(z, Hand, id) > 0)
    ensures id in z.zone ==> TimesIn(z, z.zone[id], id) == 1
  {
    assert Held(z, id) <= 1;
    forall zone: Zone ensures TimesIn(z, zone, id) <= Held(z, id) {
      InOneZone(z, zone, id);
    }
    if id in z.zone {
      InOneZone(z, z.zone[id], id);
    } else if Held(z, id) > 0 {
      assert TimesIn(z, Hand, id) > 0;
    }
  }

  lemma InOneZone(z: Zoning, zone: Zone, id: Id)
    requires Held(z, id) <= 1
    ensures TimesIn(z, zone, id) <= Held(z, id)
    ensures TimesIn(z, zone, id) > 0 ==> forall other :: other != zone ==> TimesIn(z, other, id) == 0
  {
    match zone { case Library => case Hand => case Graveyard => case Exile => case Battlefield => case Sideboard => }
  }

  predicate IsPile(pile: Pile) { pile.zone == Library || pile.zone == Hand || pile.zone == Graveyard }

  /** y differs from z in that a card has come into a zone, or left it. */
  ghost predicate Gains(z: Zoning, y: Zoning, zone: Zone, id: Id) {
    && Held(y, id) == Held(z, id) + 1 && TimesIn(y, zone, id) == TimesIn(z, zone, id) + 1
    && (forall other :: other != id ==> Held(y, other) == Held(z, other))
    && (forall other, any :: other != id ==> TimesIn(y, any, other) == TimesIn(z, any, other))
  }

  /** A move into a zone keeps everything. */
  lemma Came(z: Zoning, y: Zoning, dealt: map<Id, Id>, zone: Zone, id: Id)
    requires Good(z, dealt) && Held(z, id) == 0
    requires Gains(z, y, zone, id) && Owned(y, dealt) && Filed(y)
    requires (zone == Hand && y.zone == z.zone) || y.zone == z.zone[id := zone]
    ensures Good(y, dealt)
    ensures Complete(z) && y.zone == z.zone[id := zone] ==> Complete(y)
  {
    GainKeeps(z, y, zone, id);
  }

  /** So does a move out of one. */
  lemma Left(z: Zoning, y: Zoning, dealt: map<Id, Id>, zone: Zone, id: Id)
    requires Good(z, dealt)
    requires Gains(y, z, zone, id) && Owned(y, dealt) && Filed(y)
    requires y.zone == z.zone - {id}
    ensures Good(y, dealt) && Held(y, id) == 0
    ensures Complete(z) ==> Complete(y)
  {
    LossKeeps(z, y, zone, id);
  }

  /** A card that was nowhere has come into a zone: uniqueness and soundness stay, whether or not its
      zone is noted; and if it is, completeness stays too. */
  lemma GainKeeps(z: Zoning, y: Zoning, zone: Zone, id: Id)
    requires Unique(z) && Sound(z) && OnlyHandsUnnoted(z) && Held(z, id) == 0 && Gains(z, y, zone, id)
    requires (zone == Hand && y.zone == z.zone) || y.zone == z.zone[id := zone]
    ensures Unique(y) && Sound(y) && OnlyHandsUnnoted(y)
    ensures Complete(z) && y.zone == z.zone[id := zone] ==> Complete(y)
  {
    if id in z.zone {
      InOneZone(z, z.zone[id], id);
    }
  }

  /** A card has left a zone and is no longer noted there. */
  lemma LossKeeps(z: Zoning, y: Zoning, zone: Zone, id: Id)
    requires Unique(z) && Sound(z) && OnlyHandsUnnoted(z) && Gains(y, z, zone, id)
    requires y.zone == z.zone - {id}
    ensures Unique(y) && Sound(y) && OnlyHandsUnnoted(y) && Held(y, id) == 0
    ensures Complete(z) ==> Complete(y)
  {
    assert Held(z, id) <= 1;
  }

  // ---------- The elementary moves ----------

  /** A pile written with one more card. */
  lemma PileGains(z: Zoning, y: Zoning, pile: Pile, cards: seq<Card>, id: Id)
    requires IsPile(pile) && y.piles == z.piles[pile := cards] && y.field == z.field && y.exile == z.exile
    requires forall c :: Times(cards, c) == Times(At(z.piles, pile), c) + (if c == id then 1 else 0)
    ensures Gains(z, y, pile.zone, id)
  {
    AllPilesAfterPut(z.piles, pile, cards);
  }

  lemma AllPilesAfterPut(piles: Piles, pile: Pile, cards: seq<Card>)
    ensures forall zone, c :: TimesInPiles(piles[pile := cards], zone, c)
              == if pile.zone == zone then TimesInPiles(piles, zone, c) - Times(At(piles, pile), c) + Times(cards, c)
                 else TimesInPiles(piles, zone, c)
  {
    forall zone, c ensures TimesInPiles(piles[pile := cards], zone, c)
              == if pile.zone == zone then TimesInPiles(piles, zone, c) - Times(At(piles, pile), c) + Times(cards, c)
                 else TimesInPiles(piles, zone, c)
    {
      PilesAfterPut(piles, pile, cards, zone, c);
    }
  }

  lemma PushGains(z: Zoning, y: Zoning, pile: Pile, card: Card)
    requires IsPile(pile) && y.field == z.field && y.exile == z.exile
    requires y.piles == z.piles[pile := At(z.piles, pile) + [card]]
             || y.piles == z.piles[pile := [card] + At(z.piles, pile)]
    ensures Gains(z, y, pile.zone, card.id)
  {
    var cards := At(z.piles, pile);
    forall c
      ensures Times(cards + [card], c) == Times([card] + cards, c) == Times(cards, c) + (if c == card.id then 1 else 0)
    {
      TimesConcat(cards, [card], c);
      TimesConcat([card], cards, c);
    }
    if y.piles == z.piles[pile := cards + [card]] {
      PileGains(z, y, pile, cards + [card], card.id);
    } else {
      PileGains(z, y, pile, [card] + cards, card.id);
    }
  }

  /** A pile written without one of its cards. */
  lemma TakeLoses(z: Zoning, y: Zoning, pile: Pile, i: nat)
    requires IsPile(pile) && y.field == z.field && y.exile == z.exile && i < |At(z.piles, pile)|
    requires y.piles == z.piles[pile := Without(At(z.piles, pile), i)]
    ensures Gains(y, z, pile.zone, At(z.piles, pile)[i].id)
  {
    var cards := At(z.piles, pile);
    forall c {
      TimesWithout(cards, i, c);
    }
    AllPilesAfterPut(z.piles, pile, Without(cards, i));
  }

  lemma FieldGains(z: Zoning, y: Zoning, id: Id, p: Permanent)
    requires id !in z.field && y.field == z.field[id := p] && y.piles == z.piles && y.exile == z.exile
    ensures Gains(z, y, Battlefield, id)
  {}

  lemma ExileGains(z: Zoning, y: Zoning, e: Exiled)
    requires y.exile == z.exile + [e] && y.piles == z.piles && y.field == z.field
    ensures Gains(z, y, Exile, e.card.id)
  {
    forall c ensures TimesExiled(y.exile, c) == TimesExiled(z.exile, c) + (if c == e.card.id then 1 else 0) {
      ExiledWithout(y.exile, |z.exile|, c);
      assert Without(y.exile, |z.exile|) == z.exile;
    }
  }

  lemma ExileLoses(z: Zoning, y: Zoning, i: nat)
    requires i < |z.exile| && y.exile == Without(z.exile, i) && y.piles == z.piles && y.field == z.field
    ensures Gains(y, z, Exile, z.exile[i].card.id)
  {
    forall c {
      ExiledWithout(z.exile, i, c);
    }
  }

  lemma WithoutOwned(cards: seq<Card>, i: nat, player: Id, dealt: map<Id, Id>)
    requires i < |cards| && PileOwned(cards, player, dealt)
    ensures PileOwned(Without(cards, i), player, dealt)
    ensures cards[i].id in dealt ==> dealt[cards[i].id] == player
  {
    assert cards[i] in cards;
  }

  /** The first card with an id. */
  function IndexOf(cards: seq<Card>, id: Id): (at: Option<nat>)
    ensures at.Some? ==> at.value < |cards| && cards[at.value].id == id
    ensures at.Some? ==> forall k :: 0 <= k < at.value ==> cards[k].id != id
    ensures at.None? <==> Times(cards, id) == 0
  {
    if cards == [] then None
    else if cards[0].id == id then Some(0)
    else match IndexOf(cards[1..], id) case None => None case Some(k) => Some(k + 1)
  }

  lemma FirstIndex(cards: seq<Card>, i: nat, id: Id)
    requires i <= |cards| && (forall k :: 0 <= k < i ==> cards[k].id != id) && (i < |cards| ==> cards[i].id == id)
    ensures IndexOf(cards, id) == if i < |cards| then Some(i) else None
  {
    TimesMeansIn(cards, id);
  }

  function ExileIndexOf(cards: seq<Exiled>, id: Id): (at: Option<nat>)
    ensures at.Some? ==> at.value < |cards| && cards[at.value].card.id == id
    ensures at.Some? ==> forall k :: 0 <= k < at.value ==> cards[k].card.id != id
    ensures at.None? <==> TimesExiled(cards, id) == 0
  {
    if cards == [] then None
    else if cards[0].card.id == id then Some(0)
    else match ExileIndexOf(cards[1..], id) case None => None case Some(k) => Some(k + 1)
  }
}
