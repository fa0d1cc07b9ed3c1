/** Moves of one card by its id, from wherever it is: exile, return, destroy, sacrifice. */
module Removal {
  import opened Common
  import opened Permanents
  import opened Zones
  import opened ZoneManagement

  /** One card is now in a given zone; it and every other card are in as many places as before, and
      every other card is in the zone it was in. */
  ghost predicate Carried(z: Zoning, y: Zoning, id: Id, to: Zone) {
    && SameHeld(z, y) && TimesIn(y, to, id) == 1
    && forall other: Id, any: Zone :: other != id ==> TimesIn(y, any, other) == TimesIn(z, any, other)
  }

  /** A token has ceased to exist. */
  ghost predicate Dissolved(z: Zoning, y: Zoning, id: Id) {
    id in z.field && z.field[id].token && Gains(y, z, Battlefield, id)
  }

  lemma OutAndIn(z: Zoning, m: Zoning, y: Zoning, id: Id, from: Zone, to: Zone)
    requires Gains(m, z, from, id) && Gains(m, y, to, id) && Held(m, id) == 0
    ensures Carried(z, y, id, to)
  {
    InOneZone(m, to, id);
  }

  /** The owner on record, or a fallback when none is. */
  function RecordedOwner(owners: map<Id, Id>, id: Id, player: Id): Id { if id in owners then owners[id] else player }

  /** Is the card in a pile of one of these players? */
  ghost predicate InPileOf(z: Zoning, seats: seq<Id>, zone: Zone, id: Id) {
    exists i :: 0 <= i < |seats| && Times(At(z.piles, Pile(zone, seats[i])), id) > 0
  }

  /** The first of these players, in seating order, whose pile has the card. */
  function FirstWith(piles: Piles, seats: seq<Id>, zone: Zone, id: Id): (player: Option<Id>)
    ensures player.Some? ==> Times(At(piles, Pile(zone, player.value)), id) > 0
  {
    if seats == [] then None
    else
      var before := FirstWith(piles, seats[..|seats| - 1], zone, id);
      if before.Some? then before
      else if Times(At(piles, Pile(zone, seats[|seats| - 1])), id) > 0 then Some(seats[|seats| - 1])
      else None
  }

  lemma {:induction false} FirstWithMeans(z: Zoning, seats: seq<Id>, zone: Zone, id: Id)
    ensures FirstWith(z.piles, seats, zone, id).Some? <==> InPileOf(z, seats, zone, id)
    ensures FirstWith(z.piles, seats, zone, id).Some? ==>
              exists i :: && 0 <= i < |seats| && seats[i] == FirstWith(z.piles, seats, zone, id).value
                          && forall k :: 0 <= k < i ==> Times(At(z.piles, Pile(zone, seats[k])), id) == 0
  {
    if seats == [] {
    } else {
      var front := seats[..|seats| - 1];
      FirstWithMeans(z, front, zone, id);
      assert forall k :: 0 <= k < |front| ==> front[k] == seats[k];
      if FirstWith(z.piles, front, zone, id).Some? {
        var i :| && 0 <= i < |front| && front[i] == FirstWith(z.piles, front, zone, id).value
                 && forall k :: 0 <= k < i ==> Times(At(z.piles, Pile(zone, front[k])), id) == 0;
        assert seats[i] == front[i];
      } else {
        assert forall k :: 0 <= k < |front| ==> Times(At(z.piles, Pile(zone, front[k])), id) == 0;
      }
      if InPileOf(z, front, zone, id) {
        var i :| 0 <= i < |front| && Times(At(z.piles, Pile(zone, front[i])), id) > 0;
        assert seats[i] == front[i];
      }
      if i :| 0 <= i < |seats| && Times(At(z.piles, Pile(zone, seats[i])), id) > 0 {
        assert i < |front| ==> front[i] == seats[i];
      }
    }
  }

  // ---------- The zones after each of these moves ----------

  /** A card of a pile, and the zones without it. */
  function CardOf(z: Zoning, pile: Pile, id: Id): Card
    requires Times(At(z.piles, pile), id) > 0
  {
    At(z.piles, pile)[IndexOf(At(z.piles, pile), id).value]
  }

  function TakenFrom(z: Zoning, pile: Pile, id: Id): Zoning
    requires Times(At(z.piles, pile), id) > 0
  {
    z.(piles := z.piles[pile := Without(At(z.piles, pile), IndexOf(At(z.piles, pile), id).value)],
       zone := z.zone - {id})
  }

  function OffField(z: Zoning, id: Id): Zoning { z.(field := z.field - {id}, zone := z.zone - {id}) }

  /** A card at the end of exile, of a graveyard, of a hand (where the engine notes no zone). */
  function IntoExile(z: Zoning, card: Card, owner: Id): Zoning {
    z.(exile := z.exile + [Exiled(card, owner, false, 0)], zone := z.zone[card.id := Exile])
  }

  function IntoGraveyard(z: Zoning, card: Card, player: Id): Zoning {
    z.(piles := z.piles[Pile(Graveyard, player) := At(z.piles, Pile(Graveyard, player)) + [card]],
       zone := z.zone[card.id := Graveyard])
  }

  function IntoHand(z: Zoning, card: Card, player: Id): Zoning {
    z.(piles := z.piles[Pile(Hand, player) := At(z.piles, Pile(Hand, player)) + [card]])
  }

  /** exile_card: a permanent (a token just ceases to exist), or a card of a graveyard, or of a hand. */
  function ExiledFrom(z: Zoning, seats: seq<Id>, id: Id): Zoning {
    var inYard, inHand := FirstWith(z.piles, seats, Graveyard, id), FirstWith(z.piles, seats, Hand, id);
    if id in z.field then
      if z.field[id].token then OffField(z, id) else IntoExile(OffField(z, id), z.field[id].card, z.field[id].owner)
    else if inYard.Some? then
      var pile := Pile(Graveyard, inYard.value);
      IntoExile(TakenFrom(z, pile, id), CardOf(z, pile, id), RecordedOwner(z.owner, id, pile.player))
    else if inHand.Some? then
      var pile := Pile(Hand, inHand.value);
      IntoExile(TakenFrom(z, pile, id), CardOf(z, pile, id), RecordedOwner(z.owner, id, pile.player))
    else z
  }

  /** return_to_hand: to the owner's hand, from the battlefield, a graveyard or exile. */
  function Returned(z: Zoning, seats: seq<Id>, id: Id): Zoning {
    var inYard, inExile := FirstWith(z.piles, seats, Graveyard, id), ExileIndexOf(z.exile, id);
    if id in z.field then IntoHand(OffField(z, id), z.field[id].card, z.field[id].owner)
    else if inYard.Some? then
      var pile := Pile(Graveyard, inYard.value);
      IntoHand(TakenFrom(z, pile, id), CardOf(z, pile, id), RecordedOwner(z.owner, id, pile.player))
    else if inExile.Some? then
      var e := z.exile[inExile.value];
      IntoHand(z.(exile := Without(z.exile, inExile.value), zone := z.zone - {id}), e.card, e.owner)
    else z
  }

  function ReturnedFromYard(z: Zoning, player: Id, id: Id): Zoning {
    var pile := Pile(Graveyard, player);
    if Times(At(z.piles, pile), id) > 0 then IntoHand(TakenFrom(z, pile, id), CardOf(z, pile, id), player) else z
  }

  /** Sacrifice: to the owner's graveyard, tokens too. */
  function Sacrificed(z: Zoning, id: Id): Zoning {
    if id in z.field then IntoGraveyard(OffField(z, id), z.field[id].card, z.field[id].owner) else z
  }

  /** The same for destruction, but for indestructible permanents. */
  function Destroyed(z: Zoning, id: Id): Zoning {
    if id in z.field && z.field[id].Has(Indestructible) then z else Sacrificed(z, id)
  }

  /** Exile makes a token cease to exist; destroyed or sacrificed it lands in its owner's graveyard, and returned in its
      owner's hand. */
  lemma WhereTokensGo(z: Zoning, seats: seq<Id>, id: Id)
    requires id in z.field && z.field[id].token
    ensures var p := z.field[id];
            var yard, hand := Pile(Graveyard, p.owner), Pile(Hand, p.owner);
            && ExiledFrom(z, seats, id).exile == z.exile && ExiledFrom(z, seats, id).piles == z.piles
            && At(Sacrificed(z, id).piles, yard) == At(z.piles, yard) + [p.card]
            && (!p.Has(Indestructible) ==> At(Destroyed(z, id).piles, yard) == At(z.piles, yard) + [p.card])
            && At(Returned(z, seats, id).piles, hand) == At(z.piles, hand) + [p.card]
  {}

  /** A permanent that is no token comes to the end of exile under its owner, of its owner's graveyard, or of its
      owner's hand, and is off the battlefield; an indestructible one is not destroyed. */
  lemma WherePermanentsGo(z: Zoning, seats: seq<Id>, id: Id)
    requires id in z.field && !z.field[id].token
    ensures var p := z.field[id];
            var yard, hand := Pile(Graveyard, p.owner), Pile(Hand, p.owner);
            && ExiledFrom(z, seats, id).exile == z.exile + [Exiled(p.card, p.owner, false, 0)]
            && At(Sacrificed(z, id).piles, yard) == At(z.piles, yard) + [p.card]
            && At(Returned(z, seats, id).piles, hand) == At(z.piles, hand) + [p.card]
            && id !in ExiledFrom(z, seats, id).field && id !in Sacrificed(z, id).field
            && id !in Returned(z, seats, id).field
            && (Indestructible in p.granted + p.card.keywords ==> Destroyed(z, id) == z)
            && (Indestructible !in p.granted + p.card.keywords ==> Destroyed(z, id) == Sacrificed(z, id))
  {}

  /** A card of a graveyard comes to the end of exile, or of a hand, under its owner on record, or else under the player
      whose graveyard it was in; a card of a hand can be exiled but not returned. */
  lemma WhereCardsGo(z: Zoning, seats: seq<Id>, id: Id)
    requires id !in z.field
    ensures match FirstWith(z.piles, seats, Graveyard, id)
            case Some(player) =>
              var owner := if id in z.owner then z.owner[id] else player;
              var card := CardOf(z, Pile(Graveyard, player), id);
              && ExiledFrom(z, seats, id).exile == z.exile + [Exiled(card, owner, false, 0)]
              && At(Returned(z, seats, id).piles, Pile(Hand, owner))
                 == At(z.piles, Pile(Hand, owner)) + [card]
            case None =>
              match FirstWith(z.piles, seats, Hand, id)
              case Some(player) =>
                var owner := if id in z.owner then z.owner[id] else player;
                ExiledFrom(z, seats, id).exile == z.exile + [Exiled(CardOf(z, Pile(Hand, player), id), owner, false, 0)]
              case None => ExiledFrom(z, seats, id) == z
  {}

  // ---------- The moves ----------

  /** Looks for a card in the graveyards, or in the hands, in seating order, and takes it out. */
  method TakeFromPlayers(zones: ZoneManager, seats: seq<Id>, zone: Zone, id: Id) returns (found: Option<(Card, Id)>)
    requires zones.Valid() && (zone == Graveyard || zone == Hand)
    modifies zones
    ensures zones.Valid() && (old(zones.Noted()) ==> zones.Noted())
    ensures found.Some? <==> InPileOf(old(zones.Value()), seats, zone, id)
    ensures FirstWith(old(zones.piles), seats, zone, id) == if found.Some? then Some(found.value.1) else None
    ensures found.None? ==> zones.Value() == old(zones.Value())
    ensures found.Some? ==>
              && found.value.0 == CardOf(old(zones.Value()), Pile(zone, found.value.1), id) && found.value.0.id == id
              && zones.Value() == TakenFrom(old(zones.Value()), Pile(zone, found.value.1), id)
              && zones.Places(id) == 0 && Gains(zones.Value(), old(zones.Value()), zone, id)
              && (id in zones.dealt ==> zones.dealt[id] == found.value.1)
  {
    FirstWithMeans(zones.Value(), seats, zone, id);
    for i := 0 to |seats|
      invariant zones.Valid() && zones.Value() == old(zones.Value())
      invariant FirstWith(zones.piles, seats[..i], zone, id).None?
    {
      assert seats[..i + 1][..i] == seats[..i];
      var card := zones.TakeById(Pile(zone, seats[i]), id);
      if card.Some? {
        FirstStays(old(zones.piles), seats, i, zone, id);
        return Some((card.value, seats[i]));
      }
    }
    assert seats[..|seats|] == seats;
    return None;
  }

  lemma {:induction false} FirstStays(piles: Piles, seats: seq<Id>, i: nat, zone: Zone, id: Id)
    requires i < |seats| && FirstWith(piles, seats[..i], zone, id).None?
             && Times(At(piles, Pile(zone, seats[i])), id) > 0
    ensures FirstWith(piles, seats, zone, id) == Some(seats[i])
  {
    if i == |seats| - 1 {
      assert seats[..|seats| - 1] == seats[..i];
    } else {
      var front := seats[..|seats| - 1];
      assert front[..i] == seats[..i] && front[i] == seats[i];
      FirstStays(piles, front, i, zone, id);
    }
  }

  /** exile_card; a card that moves is afterwards in exile, once. */
  method ExileCard(zones: ZoneManager, seats: seq<Id>, id: Id)
    requires zones.Valid()
    modifies zones
    ensures zones.Valid() && (old(zones.Noted()) ==> zones.Noted())
    ensures zones.Value() == ExiledFrom(old(zones.Value()), seats, id)
    ensures if id in old(zones.field)
            && old(zones.field)[id].token then Dissolved(old(zones.Value()), zones.Value(), id)
            else if id in old(zones.field) || InPileOf(old(zones.Value()), seats, Graveyard, id)
            || InPileOf(old(zones.Value()), seats, Hand, id)
            then Carried(old(zones.Value()), zones.Value(), id, Exile)
            else zones.Value() == old(zones.Value())
  {
    ghost var z := zones.Value();
    var p := zones.RemoveFromBattlefield(id);
    if p.Some? {
      if !p.value.token {
        ghost var m := zones.Value();
        zones.AddToExile(p.value.card, p.value.owner);
        OutAndIn(z, m, zones.Value(), id, Battlefield, Exile);
      }
      return;
    }
    var found := TakeFromPlayers(zones, seats, Graveyard, id);
    if found.Some? {
      ghost var m := zones.Value();
      var cardOwner := if id in zones.owner then zones.owner[id] else found.value.1;
      zones.AddToExile(found.value.0, cardOwner);
      OutAndIn(z, m, zones.Value(), id, Graveyard, Exile);
      return;
    }
    found := TakeFromPlayers(zones, seats, Hand, id);
    if found.Some? {
      ghost var m := zones.Value();
      var cardOwner := if id in zones.owner then zones.owner[id] else found.value.1;
      zones.AddToExile(found.value.0, cardOwner);
      OutAndIn(z, m, zones.Value(), id, Hand, Exile);
    }
  }

  /** return_to_hand; a card that moves is afterwards in a hand, once. */
  method ReturnToHand(zones: ZoneManager, seats: seq<Id>, id: Id)
    requires zones.Valid()
    modifies zones
    ensures zones.Valid()
    ensures zones.Value() == Returned(old(zones.Value()), seats, id)
    ensures if id in old(zones.field) || InPileOf(old(zones.Value()), seats, Graveyard, id)
            || TimesExiled(old(zones.exile), id) > 0
            then Carried(old(zones.Value()), zones.Value(), id, Hand)
            else zones.Value() == old(zones.Value())
  {
    ghost var z := zones.Value();
    var p := zones.RemoveFromBattlefield(id);
    if p.Some? {
      ghost var m := zones.Value();
      zones.PushToHand(p.value.owner, p.value.card);
      OutAndIn(z, m, zones.Value(), id, Battlefield, Hand);
      return;
    }
    var found := TakeFromPlayers(zones, seats, Graveyard, id);
    if found.Some? {
      ghost var m := zones.Value();
      var cardOwner := if id in zones.owner then zones.owner[id] else found.value.1;
      zones.PushToHand(cardOwner, found.value.0);
      OutAndIn(z, m, zones.Value(), id, Graveyard, Hand);
      return;
    }
    var e := zones.RemoveFromExile(id);
    if e.Some? {
      ghost var m := zones.Value();
      zones.PushToHand(e.value.owner, e.value.card);
      OutAndIn(z, m, zones.Value(), id, Exile, Hand);
    }
  }

  method ReturnFromGraveyard(zones: ZoneManager, player: Id, id: Id)
    requires zones.Valid()
    modifies zones
    ensures zones.Valid() && zones.Value() == ReturnedFromYard(old(zones.Value()), player, id)
    ensures if Times(old(zones.Cards(Pile(Graveyard, player))), id) > 0
            then Carried(old(zones.Value()), zones.Value(), id, Hand)
            else zones.Value() == old(zones.Value())
  {
    ghost var z := zones.Value();
    var card := zones.RemoveFromGraveyard(player, id);
    if card.Some? {
      ghost var m := zones.Value();
      zones.PushToHand(player, card.value);
      OutAndIn(z, m, zones.Value(), id, Graveyard, Hand);
    }
  }

  /** A permanent goes to its owner's graveyard; tokens go there too. */
  method SendToGraveyard(zones: ZoneManager, id: Id) returns (done: bool)
    requires zones.Valid()
    modifies zones
    ensures zones.Valid() && (old(zones.Noted()) ==> zones.Noted())
    ensures done <==> id in old(zones.field)
    ensures zones.Value() == Sacrificed(old(zones.Value()), id)
    ensures done ==> Carried(old(zones.Value()), zones.Value(), id, Graveyard)
  {
    ghost var z := zones.Value();
    var p := zones.RemoveFromBattlefield(id);
    if p.None? {
      return false;
    }
    ghost var m := zones.Value();
    zones.AddToGraveyard(p.value.owner, p.value.card);
    OutAndIn(z, m, zones.Value(), id, Battlefield, Graveyard);
    return true;
  }

  /** destroy_permanent: nothing happens to an indestructible permanent. */
  method DestroyPermanent(zones: ZoneManager, id: Id) returns (done: bool)
    requires zones.Valid()
    modifies zones
    ensures zones.Valid() && (old(zones.Noted()) ==> zones.Noted())
    ensures done <==> id in old(zones.field) && !old(zones.field)[id].Has(Indestructible)
    ensures zones.Value() == Destroyed(old(zones.Value()), id)
    ensures done ==> Carried(old(zones.Value()), zones.Value(), id, Graveyard)
  {
    if id !in zones.field || zones.field[id].Has(Indestructible) {
      return false;
    }
    done := SendToGraveyard(zones, id);
  }
}
