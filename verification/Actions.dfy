/** Player actions: cards are cast or played, and abilities activated, with everything they cost. */
module Actions {
  import opened Common
  import opened Permanents
  import opened Zones
  import opened ZoneManagement
  import opened Moves
  import opened Removal
  import opened Stack
  import opened Game
  import opened Costs
  import Mana

  // ---------- Pieces shared by the actions ----------

  /** A card in flight: it is nowhere, and was in one place at the start. */
  ghost predicate Flying(s: Snapshot, t: Snapshot, id: Id) {
    && Total(t, id) == 0 && id < t.next && s.next == t.next
    && forall c: Id :: Total(s, c) == Total(t, c) + (if c == id then 1 else 0)
  }

  lemma LandedAgain(s: Snapshot, t: Snapshot, u: Snapshot, id: Id, dealt: map<Id, Id>)
    requires Flying(s, t, id) && t.next == u.next
    requires forall c: Id :: Total(u, c) == Total(t, c) + (if c == id then 1 else 0)
    ensures Keeps(s, u, dealt) && Keeps(u, s, dealt)
  {}

  /** What happens in the zones alone does not touch a card in flight. */
  lemma StillFlying(s: Snapshot, t: Snapshot, u: Snapshot, id: Id)
    requires Flying(s, t, id) && SameHeld(t.z, u.z) && u == t.(z := u.z)
    ensures Flying(s, u, id)
  {
    assert forall c: Id :: Total(u, c) == Total(t, c);
  }

  lemma SameKeysSameHeld(z: Zoning, field: map<Id, Permanent>)
    requires field.Keys == z.field.Keys
    ensures SameHeld(z, z.(field := field))
  {}

  /** A card has been taken out of a pile. */
  function Taken(st: State, pile: Pile, id: Id): State
    requires Times(At(st.s.z.piles, pile), id) > 0
  {
    st.(s := st.s.(z := TakenFrom(st.s.z, pile, id)))
  }

  /** A card in flight goes to the end of a hand or of a graveyard, or becomes the spell on top of the stack. */
  function InHand(st: State, card: Card, player: Id): State { st.(s := st.s.(z := IntoHand(st.s.z, card, player))) }

  function InYard(st: State, card: Card, player: Id): State {
    st.(s := st.s.(z := IntoGraveyard(st.s.z, card, player)))
  }

  function AsSpell(st: State, card: Card, player: Id, targets: seq<Id>, flashback: bool, adventure: bool): State {
    var entry := StackEntry(st.nextId, Spell(card), player, targets, flashback, adventure);
    st.(s := st.s.(entries := st.s.entries + [entry]), nextId := st.nextId + 1)
  }

  /** A card is flying, and it belongs to this player if it was dealt to anybody. */
  ghost predicate InTheAir(g: GameTable, s: Snapshot, player: Id, card: Card)
    reads g, g.zones, g.stack
  {
    && g.Valid() && Flying(s, g.Snap(), card.id)
    && (card.id in g.zones.dealt ==> g.zones.dealt[card.id] == player)
  }

  /** The card goes back to the end of the hand. */
  method PutBackInHand(g: GameTable, player: Id, card: Card, ghost s: Snapshot)
    requires InTheAir(g, s, player, card)
    modifies g.zones
    ensures g.Valid() && Keeps(s, g.Snap(), g.zones.dealt) && g.Now() == InHand(old(g.Now()), card, player)
  {
    ghost var t := g.Snap();
    g.zones.PushToHand(player, card);
    CardIn(t, g.Snap(), g.zones.dealt, Hand, card.id);
    LandedAgain(s, t, g.Snap(), card.id, g.zones.dealt);
  }

  method PutBackInGraveyard(g: GameTable, player: Id, card: Card, ghost s: Snapshot)
    requires InTheAir(g, s, player, card)
    modifies g.zones
    ensures g.Valid() && Keeps(s, g.Snap(), g.zones.dealt) && g.Now() == InYard(old(g.Now()), card, player)
  {
    ghost var t := g.Snap();
    g.zones.AddToGraveyard(player, card);
    CardIn(t, g.Snap(), g.zones.dealt, Graveyard, card.id);
    LandedAgain(s, t, g.Snap(), card.id, g.zones.dealt);
  }

  /** The card becomes a spell on the stack. */
  method PutOnStack(g: GameTable, player: Id, card: Card, targets: seq<Id>, flashback: bool, adventure: bool,
                    ghost s: Snapshot)
    requires InTheAir(g, s, player, card)
    modifies g.stack
    ensures g.Valid() && Keeps(s, g.Snap(), g.zones.dealt)
    ensures g.Now() == AsSpell(old(g.Now()), card, player, targets, flashback, adventure)
  {
    ghost var t := g.Snap();
    var entry := StackEntry(0, Spell(card), player, targets, flashback, adventure);
    var id := g.stack.Push(entry);
    SpellPushed(t, g.Snap(), g.zones.dealt, entry.(id := id));
    LandedAgain(s, t, g.Snap(), card.id, g.zones.dealt);
  }

  /** The card leaves the hand or the graveyard, first of all. */
  method TakeCard(g: GameTable, zone: Zone, player: Id, id: Id) returns (card: Option<Card>)
    requires g.Valid() && (zone == Hand || zone == Graveyard)
    modifies g.zones
    ensures g.Valid() && (card.None? <==> Times(At(old(g.zones.piles), Pile(zone, player)), id) == 0)
    ensures card.None? ==> g.Now() == old(g.Now())
    ensures card.Some? ==>
              && card.value == CardOf(old(g.zones.Value()), Pile(zone, player), id)
              && g.Now() == Taken(old(g.Now()), Pile(zone, player), id)
                 && InTheAir(g, old(g.Snap()), player, card.value)
  {
    ghost var s := g.Snap();
    if zone == Hand {
      card := g.zones.RemoveFromHand(player, id);
    } else {
      card := g.zones.RemoveFromGraveyard(player, id);
    }
    if card.Some? {
      CardOut(s, g.Snap(), g.zones.dealt, zone, id);
    }
  }

  // ---------- Triggers ----------

  predicate OnlyTriggered(triggers: seq<StackEntry>) {
    forall i :: 0 <= i < |triggers| ==> triggers[i].content.Triggered?
  }

  /** Entries with the next ids, in order. */
  function Numbered(triggers: seq<StackEntry>, nextId: nat): seq<StackEntry> {
    seq(|triggers|, i requires 0 <= i < |triggers| => triggers[i].(id := nextId + i))
  }

  /** Triggered abilities have gone onto the stack, one on top of the other. */
  function WithTriggers(st: State, triggers: seq<StackEntry>): State {
    st.(s := st.s.(entries := st.s.entries + Numbered(triggers, st.nextId)), nextId := st.nextId + |triggers|)
  }

  method PushTriggers(g: GameTable, triggers: seq<StackEntry>)
    requires g.Valid() && OnlyTriggered(triggers)
    modifies g.stack
    ensures g.Valid() && Keeps(old(g.Snap()), g.Snap(), g.zones.dealt)
    ensures g.Now() == WithTriggers(old(g.Now()), triggers)
  {
    ghost var st := g.Now();
    assert st.s.entries + [] == st.s.entries;
    for i := 0 to |triggers|
      invariant g.Valid() && Keeps(st.s, g.Snap(), g.zones.dealt)
      invariant g.Now() == WithTriggers(st, triggers[..i])
    {
      ghost var t := g.Snap();
      OneMoreTrigger(st, triggers, i);
      g.PushTrigger(triggers[i]);
      KeepsTwice(st.s, t, g.Snap(), g.zones.dealt);
    }
    assert triggers[..|triggers|] == triggers;
  }

  lemma OneMoreTrigger(st: State, triggers: seq<StackEntry>, i: nat)
    requires i < |triggers|
    ensures var before := WithTriggers(st, triggers[..i]);
            WithTriggers(st, triggers[..i + 1])
            == before.(s := before.s.(entries := before.s.entries + [triggers[i].(id := before.nextId)]),
                       nextId := before.nextId + 1)
  {
    var entries := st.s.entries;
    assert Numbered(triggers[..i + 1], st.nextId)
           == Numbered(triggers[..i], st.nextId) + [triggers[i].(id := st.nextId + i)];
    assert entries + (Numbered(triggers[..i], st.nextId) + [triggers[i].(id := st.nextId + i)])
           == (entries + Numbered(triggers[..i], st.nextId)) + [triggers[i].(id := st.nextId + i)];
  }

  // ---------- Delve ----------

  function AllExiled(cards: seq<Card>, owner: Id): seq<Exiled> {
    seq(|cards|, i requires 0 <= i < |cards| => Exiled(cards[i], owner, false, 0))
  }

  /** n cards from the end of a graveyard have been exiled, last one first. */
  ghost predicate Delved(z: Zoning, y: Zoning, player: Id, n: nat) {
    var graveyard := At(z.piles, Pile(Graveyard, player));
    && n <= |graveyard| && SameHeld(z, y)
    && At(y.piles, Pile(Graveyard, player)) == graveyard[..|graveyard| - n]
    && y.exile == z.exile + AllExiled(FromTop(graveyard, n), player)
    && (forall pile :: pile != Pile(Graveyard, player) ==> At(y.piles, pile) == At(z.piles, pile))
    && y.field == z.field && y.owner == z.owner
  }

  method DelveCards(zones: ZoneManager, player: Id, n: nat)
    requires zones.Valid() && n <= |zones.Cards(Pile(Graveyard, player))|
    modifies zones
    ensures zones.Valid() && Delved(old(zones.Value()), zones.Value(), player, n)
  {
    ghost var z := zones.Value();
    assert AllExiled(FromTop(At(z.piles, Pile(Graveyard, player)), 0), player) == [];
    for i := 0 to n
      invariant zones.Valid() && Delved(z, zones.Value(), player, i)
    {
      ghost var y := zones.Value();
      DelveOne(zones, player);
      DelvedOneMore(z, y, zones.Value(), player, i);
    }
  }

  /** One turn of the loop: `pop_back` on the graveyard and then add_to_exile. */
  method DelveOne(zones: ZoneManager, player: Id)
    requires zones.Valid() && zones.Cards(Pile(Graveyard, player)) != []
    modifies zones
    ensures zones.Valid() && Delved(old(zones.Value()), zones.Value(), player, 1)
  {
    ghost var z := zones.Value();
    var graveyard := zones.Cards(Pile(Graveyard, player));
    var card := zones.TakeAt(Pile(Graveyard, player), |graveyard| - 1);
    ghost var m := zones.Value();
    zones.AddToExile(card, player);
    OutAndIn(z, m, zones.Value(), card.id, Graveyard, Exile);
    assert Without(graveyard, |graveyard| - 1) == graveyard[..|graveyard| - 1];
    FromTopOne(graveyard);
    assert AllExiled([card], player) == [Exiled(card, player, false, 0)];
  }

  lemma FromTopOne(cards: seq<Card>)
    requires cards != []
    ensures FromTop(cards, 1) == [cards[|cards| - 1]]
  {
    assert FromTop(cards, 0) == [];
  }

  lemma DelvedOneMore(z: Zoning, y: Zoning, x: Zoning, player: Id, i: nat)
    requires Delved(z, y, player, i) && Delved(y, x, player, 1)
    ensures Delved(z, x, player, i + 1)
  {
    var graveyard := At(z.piles, Pile(Graveyard, player));
    var left := At(y.piles, Pile(Graveyard, player));
    FromTopOne(left);
    assert left[|left| - 1] == graveyard[|graveyard| - (i + 1)];
    assert FromTop(graveyard, i + 1) == FromTop(graveyard, i) + FromTop(left, 1);
    assert AllExiled(FromTop(graveyard, i + 1), player)
           == AllExiled(FromTop(graveyard, i), player) + AllExiled(FromTop(left, 1), player);
    assert graveyard[..|graveyard| - i][..|graveyard| - i - 1] == graveyard[..|graveyard| - (i + 1)];
  }

  // ---------- Casting from the hand ----------

  /** What a player brings to casting a card: whether it is the own main phase, the printed cost with its X symbols
      and the chosen X, the kicker's cost if it is kicked and can be read, the creatures named for convoke, the cards
      offered for delve, the targets, and what the lands yield. */
  datatype Casting = Casting(ownMainPhase: bool, cost: Mana.Cost, xCount: nat, x: int, kicker: Option<Mana.Cost>,
                             convoke: seq<Id>, delveCount: int, targets: seq<Id>, lands: Lands)
  {
    function Full(): Mana.Cost { WithKicker(WithX(cost, xCount, x), kicker) }
  }

  predicate InstantSpeed(card: Card) { card.cardType == Instant || card.Has(Flash) }

  /** May the card be cast now, before costs? */
  predicate Timely(card: Card, ownMainPhase: bool, entries: seq<StackEntry>) {
    InstantSpeed(card) || (ownMainPhase && entries == [])
  }

  /** The creatures that convoke taps for a card. */
  function ConvokersFor(field: map<Id, Permanent>, player: Id, card: Card, c: Casting): seq<Id> {
    if card.Has(Convoke) then Convokers(field, player, c.convoke) else []
  }

  function AfterConvoke(field: map<Id, Permanent>, player: Id, card: Card, c: Casting): Mana.Cost {
    ConvokedCost(field, c.Full(), ConvokersFor(field, player, card, c))
  }

  /** As many cards as are offered, as are in the graveyard, and as the generic part takes. */
  function DelveNumber(card: Card, graveyard: seq<Card>, delveCount: int, generic: nat): nat {
    if card.Has(Delve) then Min(Clamp(delveCount, |graveyard|), generic) else 0
  }

  function DelvedFor(z: Zoning, player: Id, card: Card, c: Casting): nat {
    DelveNumber(card, At(z.piles, Pile(Graveyard, player)), c.delveCount,
                AfterConvoke(z.field, player, card, c).generic)
  }

  /** What is left to pay in mana. */
  function Due(z: Zoning, player: Id, card: Card, c: Casting): (due: Mana.Cost)
    ensures due.hybrids == AfterConvoke(z.field, player, card, c).hybrids
  {
    var cost := AfterConvoke(z.field, player, card, c);
    cost.(generic := cost.generic - Min(DelvedFor(z, player, card, c), cost.generic))
  }

  /** Delve takes as many cards as it may: none without the keyword, and otherwise all that are offered, all of the
      graveyard, or one for each generic mana, whichever is least; each pays for one generic mana and nothing else. */
  lemma DelvePays(z: Zoning, player: Id, card: Card, c: Casting)
    ensures var n, cost := DelvedFor(z, player, card, c), AfterConvoke(z.field, player, card, c);
            var yard := |At(z.piles, Pile(Graveyard, player))|;
            && (Delve !in card.keywords ==> n == 0)
            && (Delve in card.keywords ==>
                  && n <= yard && n <= cost.generic && n <= Max(c.delveCount, 0)
                  && (n == yard || n == cost.generic || n == Max(c.delveCount, 0)))
            && n <= cost.generic && Due(z, player, card, c) == cost.(generic := cost.generic - n)
  {}

  /** Creatures have been tapped for convoke, and cards of the graveyard exiled for delve. */
  ghost predicate Prepared(st: State, st': State, player: Id, card: Card, c: Casting) {
    var z := st.s.z.(field := TapAll(st.s.z.field, ConvokersFor(st.s.z.field, player, card, c)));
    && st' == st.(s := st.s.(z := st'.s.z))
    && Delved(z, st'.s.z, player, DelvedFor(st.s.z, player, card, c))
  }

  /** Where a card goes that has been paid for, or not. */
  function PaidCard(st: State, card: Card, player: Id, targets: seq<Id>, paid: bool): State {
    if paid then AsSpell(st, card, player, targets, false, false) else InHand(st, card, player)
  }

  ghost predicate PreparedAndPaid(st: State, u: State, v: State, player: Id, card: Card, c: Casting, paid: bool) {
    Prepared(st, u, player, card, c) && PaidFor(u, v, player, Due(st.s.z, player, card, c), c.lands, paid)
  }

  /** What playing a card from the hand has done. A card that cannot be cast goes back to the end of the hand;
      creatures tapped and cards exiled for an unpaid spell stay tapped and exiled. */
  ghost predicate Played(st: State, st': State, player: Id, id: Id, c: Casting, cast: bool) {
    var hand := Pile(Hand, player);
    if Times(At(st.s.z.piles, hand), id) == 0 then st' == st && !cast
    else
      var card, t := CardOf(st.s.z, hand, id), Taken(st, hand, id);
      if !Timely(card, c.ownMainPhase, st.s.entries) || player !in st.players
      then st' == InHand(t, card, player) && !cast
      else exists u, v ::
        PreparedAndPaid(t, u, v, player, card, c, cast) && st' == PaidCard(v, card, player, c.targets, cast)
  }

  method PlayCard(g: GameTable, player: Id, id: Id, c: Casting) returns (cast: bool)
    requires g.Valid()
    modifies g`players, g.zones, g.stack
    ensures g.Valid() && Keeps(old(g.Snap()), g.Snap(), g.zones.dealt)
    ensures Played(old(g.Now()), g.Now(), player, id, c, cast)
  {
    ghost var s := g.Snap();
    var card := TakeCard(g, Hand, player, id);
    cast := false;
    if card.Some? {
      var timely := card.value.cardType == Instant || card.value.Has(Flash)
                    || (c.ownMainPhase && g.stack.entries == []);
      if !timely || player !in g.players {
        PutBackInHand(g, player, card.value, s);
      } else {
        cast := PayAndCast(g, player, card.value, c, s);
      }
    }
  }

  /** The costs, and then the stack or the way back. */
  method PayAndCast(g: GameTable, player: Id, card: Card, c: Casting, ghost s: Snapshot) returns (cast: bool)
    requires InTheAir(g, s, player, card) && player in g.players
    modifies g`players, g.zones, g.stack
    ensures g.Valid() && Keeps(s, g.Snap(), g.zones.dealt)
    ensures exists u, v :: PreparedAndPaid(old(g.Now()), u, v, player, card, c, cast)
                           && g.Now() == PaidCard(v, card, player, c.targets, cast)
  {
    ghost var t := g.Now();
    var due := Prepare(g, player, card, c, s);
    ghost var u := g.Now();
    cast := PayDue(g, player, card, due, c.lands, s);
    ghost var v := g.Now();
    assert PreparedAndPaid(t, u, v, player, card, c, cast);
    if cast {
      PutOnStack(g, player, card, c.targets, false, false, s);
    } else {
      PutBackInHand(g, player, card, s);
    }
  }

  /** Convoke and delve. */
  method Prepare(g: GameTable, player: Id, card: Card, c: Casting, ghost s: Snapshot) returns (due: Mana.Cost)
    requires InTheAir(g, s, player, card)
    modifies g.zones
    ensures InTheAir(g, s, player, card) && Prepared(old(g.Now()), g.Now(), player, card, c)
    ensures due == Due(old(g.zones.Value()), player, card, c)
  {
    ghost var t := g.Now();
    due := PayConvoke(g, player, card, c, s);
    ghost var m := g.Now();
    var n := CountDelved(card, g.zones.Cards(Pile(Graveyard, player)), c.delveCount, due.generic);
    PayDelve(g, player, card, n, s);
    PreparedForDue(t, m, g.Now(), player, card, c, due, n);
    due := due.(generic := due.generic - n);
  }

  lemma PreparedForDue(t: State, m: State, u: State, player: Id, card: Card, c: Casting, cost: Mana.Cost, n: nat)
    requires cost == AfterConvoke(t.s.z.field, player, card, c) && n <= cost.generic
    requires n == DelveNumber(card, At(m.s.z.piles, Pile(Graveyard, player)), c.delveCount, cost.generic)
    requires m == t.(s := m.s)
             && OnlyField(t.s, m.s, TapAll(t.s.z.field, ConvokersFor(t.s.z.field, player, card, c)))
    requires u == m.(s := m.s.(z := u.s.z)) && Delved(m.s.z, u.s.z, player, n)
    ensures Prepared(t, u, player, card, c) && cost.(generic := cost.generic - n) == Due(t.s.z, player, card, c)
  {}

  method PayConvoke(g: GameTable, player: Id, card: Card, c: Casting, ghost s: Snapshot) returns (cost: Mana.Cost)
    requires InTheAir(g, s, player, card)
    modifies g.zones
    ensures InTheAir(g, s, player, card) && cost == AfterConvoke(old(g.zones.field), player, card, c)
    ensures OnlyField(old(g.Snap()), g.Snap(),
                      TapAll(old(g.zones.field), ConvokersFor(old(g.zones.field), player, card, c)))
  {
    ghost var t := g.Snap();
    cost := c.Full();
    if card.Has(Convoke) {
      cost := TapConvokers(g, player, c.convoke, cost);
      SameKeysSameHeld(t.z, g.zones.field);
      StillFlying(s, t, g.Snap(), card.id);
    } else {
      NobodyTapped(t);
    }
  }

  method PayDelve(g: GameTable, player: Id, card: Card, n: nat, ghost s: Snapshot)
    requires InTheAir(g, s, player, card) && n <= |g.zones.Cards(Pile(Graveyard, player))|
    modifies g.zones
    ensures InTheAir(g, s, player, card) && g.Now() == old(g.Now()).(s := old(g.Snap()).(z := g.zones.Value()))
    ensures Delved(old(g.zones.Value()), g.zones.Value(), player, n)
  {
    ghost var t := g.Snap();
    DelveCards(g.zones, player, n);
    MovedInZones(t, g.Snap(), g.zones.dealt);
    StillFlying(s, t, g.Snap(), card.id);
  }

  method CountDelved(card: Card, graveyard: seq<Card>, delveCount: int, generic: nat) returns (n: nat)
    ensures n == DelveNumber(card, graveyard, delveCount, generic) && n <= |graveyard| && n <= generic
  {
    n := 0;
    if card.Has(Delve) && delveCount > 0 {
      n := if delveCount < |graveyard| then delveCount else |graveyard|;
      n := Min(n, generic);
    }
  }

  /** A cost of nothing is not even looked at. */
  method PayDue(g: GameTable, player: Id, card: Card, due: Mana.Cost, lands: Lands,
                ghost s: Snapshot) returns (paid: bool)
    requires InTheAir(g, s, player, card) && player in g.players
    modifies g`players, g.zones
    ensures InTheAir(g, s, player, card) && PaidFor(old(g.Now()), g.Now(), player, due, lands, paid)
  {
    ghost var t := g.Now();
    if due.Size() > 0 {
      paid := PayWithLands(g, player, due, lands);
      PaidOnField(t, g.Now(), player, due, lands, paid);
      StillFlying(s, t.s, g.Snap(), card.id);
    } else {
      paid := true;
      NothingToPay(t, player, due, lands);
    }
  }

  lemma PaidOnField(st: State, st': State, player: Id, cost: Mana.Cost, lands: Lands, paid: bool)
    requires PaidFor(st, st', player, cost, lands, paid)
    ensures st'.s == st.s.(z := st'.s.z) && SameHeld(st.s.z, st'.s.z) && st'.nextId == st.nextId
    ensures st'.s.z == st.s.z.(field := st'.s.z.field) && st'.s.z.field.Keys == st.s.z.field.Keys
    ensures player in st.players && st'.players.Keys == st.players.Keys
  {
    var taps := SomeTaps(st, st', player, cost, lands, paid);
    TapsOnField(st, AfterTaps(st, player, lands, taps), player, lands, taps);
  }

  lemma SomeTaps(st: State, st': State, player: Id, cost: Mana.Cost, lands: Lands, paid: bool) returns (taps: seq<Id>)
    requires PaidFor(st, st', player, cost, lands, paid)
    ensures player in st.players && st' == AfterTaps(st, player, lands, taps).(players := st'.players)
    ensures st'.players.Keys == AfterTaps(st, player, lands, taps).players.Keys
  {
    taps :| PaidTapping(st, st', player, cost, lands, taps, paid);
  }

  lemma TapsOnField(st: State, made: State, player: Id, lands: Lands, taps: seq<Id>)
    requires player in st.players && made == AfterTaps(st, player, lands, taps)
    ensures made.s == st.s.(z := made.s.z) && SameHeld(st.s.z, made.s.z) && made.nextId == st.nextId
    ensures made.s.z == st.s.z.(field := made.s.z.field) && made.s.z.field.Keys == st.s.z.field.Keys
    ensures made.players.Keys == st.players.Keys
  {
    SameKeysSameHeld(st.s.z, made.s.z.field);
  }

  /** Some lands, which are the player's, untapped and not tapped for convoke, make with the pool what is due for a
      card. */
  ghost predicate LandsPay(st: State, player: Id, card: Card, c: Casting, taps: seq<Id>)
    requires player in st.players
  {
    var field, due := st.s.z.field, Due(st.s.z, player, card, c);
    && Distinct(taps)
    && (forall id :: id in taps ==>
          && id in field && field[id].controller == player && field[id].card.cardType == Land && !field[id].tapped
          && id !in ConvokersFor(field, player, card, c) && c.lands(field[id].card).Some?)
    && exists choice :: Mana.Covers(ManaAfter(field, c.lands, taps, st.players[player].mana), due, choice)
  }

  lemma {:induction false} SameMana(field: map<Id, Permanent>, tapped: seq<Id>, lands: Lands, taps: seq<Id>,
                                    mana: Mana.Pool)
    ensures ManaAfter(TapAll(field, tapped), lands, taps, mana) == ManaAfter(field, lands, taps, mana)
  {
    if taps == [] {
    } else {
      SameMana(field, tapped, lands, taps[..|taps| - 1], mana);
      assert YieldOf(TapAll(field, tapped), lands, taps[|taps| - 1]) == YieldOf(field, lands, taps[|taps| - 1]);
    }
  }

  lemma LandsPayMeans(st: State, player: Id, card: Card, c: Casting)
    requires player in st.players
    ensures LandsSuffice(TapAll(st.s.z.field, ConvokersFor(st.s.z.field, player, card, c)), player,
                         st.players[player].mana, Due(st.s.z, player, card, c), c.lands)
            <==> |Due(st.s.z, player, card, c).hybrids| <= 10
                 && exists taps: seq<Id> :: LandsPay(st, player, card, c, taps)
  {
    var field, tapped, mana := st.s.z.field, ConvokersFor(st.s.z.field, player, card, c), st.players[player].mana;
    var due := Due(st.s.z, player, card, c);
    forall taps: seq<Id>
      ensures Suffice(TapAll(field, tapped), player, mana, due, c.lands, taps)
              <==> |due.hybrids| <= 10 && LandsPay(st, player, card, c, taps)
    {
      SameMana(field, tapped, c.lands, taps, mana);
    }
  }

  /** With one hybrid pair, or pairs that do not overlap: a card of the hand is cast exactly when it is an instant, has
      flash, or is played in the own main phase with an empty stack; its player is known; and the player's untapped
      lands and pool can pay what convoke and delve have left of the cost. */
  lemma CastExactlyWhen(st: State, st': State, player: Id, id: Id, c: Casting, cast: bool)
    requires Played(st, st', player, id, c, cast) && Mana.PairsDoNotOverlap(c.cost.hybrids)
    ensures cast <==>
              && Times(At(st.s.z.piles, Pile(Hand, player)), id) > 0 && player in st.players
              && var card := CardOf(st.s.z, Pile(Hand, player), id);
                 && (card.cardType == Instant || Flash in card.keywords || (c.ownMainPhase && st.s.entries == []))
                 && |c.cost.hybrids| <= 10 && exists taps: seq<Id> :: LandsPay(st, player, card, c, taps)
  {
    var hand := Pile(Hand, player);
    if Times(At(st.s.z.piles, hand), id) > 0 && player in st.players {
      var card, t := CardOf(st.s.z, hand, id), Taken(st, hand, id);
      if Timely(card, c.ownMainPhase, st.s.entries) {
        var u, v :| PreparedAndPaid(t, u, v, player, card, c, cast)
        && st' == PaidCard(v, card, player, c.targets, cast);
        PaidExactlyWhen(t, u, v, player, card, c, cast);
        SameDue(st.s.z, t.s.z, player, card, c);
        FullHybrids(st.s.z.field, player, card, c);
        LandsPayMeans(st, player, card, c);
      }
    }
  }

  /** So a player whose lands are all tapped casts exactly what the pool alone can pay. */
  lemma CastWithoutLands(st: State, st': State, player: Id, id: Id, c: Casting, cast: bool)
    requires Played(st, st', player, id, c, cast) && Mana.PairsDoNotOverlap(c.cost.hybrids) && |c.cost.hybrids| <= 10
    requires Times(At(st.s.z.piles, Pile(Hand, player)), id) > 0 && player in st.players
    requires forall land ::
               land in st.s.z.field && st.s.z.field[land].controller == player
               && st.s.z.field[land].card.cardType == Land
               ==> st.s.z.field[land].tapped
    ensures var card := CardOf(st.s.z, Pile(Hand, player), id);
            cast <==>
              && (card.cardType == Instant || Flash in card.keywords || (c.ownMainPhase && st.s.entries == []))
              && exists choice :: Mana.Covers(st.players[player].mana, Due(st.s.z, player, card, c), choice)
  {
    CastExactlyWhen(st, st', player, id, c, cast);
    var card := CardOf(st.s.z, Pile(Hand, player), id);
    var field := TapAll(st.s.z.field, ConvokersFor(st.s.z.field, player, card, c));
    FullHybrids(st.s.z.field, player, card, c);
    LandsPayMeans(st, player, card, c);
    NoLandsLeft(field, player, st.players[player].mana, Due(st.s.z, player, card, c), c.lands);
  }

  lemma PaidExactlyWhen(t: State, u: State, v: State, player: Id, card: Card, c: Casting, paid: bool)
    requires PreparedAndPaid(t, u, v, player, card, c, paid) && Mana.PairsDoNotOverlap(c.cost.hybrids)
    ensures player in t.players
    ensures paid <==> LandsSuffice(TapAll(t.s.z.field, ConvokersFor(t.s.z.field, player, card, c)), player,
                                   t.players[player].mana, Due(t.s.z, player, card, c), c.lands)
  {
    FullHybrids(t.s.z.field, player, card, c);
    PaidWhenLandsSuffice(u, v, player, Due(t.s.z, player, card, c), c.lands, paid);
  }

  lemma SameDue(z: Zoning, y: Zoning, player: Id, card: Card, c: Casting)
    requires y.field == z.field && At(y.piles, Pile(Graveyard, player)) == At(z.piles, Pile(Graveyard, player))
    ensures Due(y, player, card, c) == Due(z, player, card, c)
    ensures DelvedFor(y, player, card, c) == DelvedFor(z, player, card, c)
  {}

  lemma FullHybrids(field: map<Id, Permanent>, player: Id, card: Card, c: Casting)
    ensures AfterConvoke(field, player, card, c).hybrids == c.cost.hybrids
  {
    ConvokePays(field, c.Full(), ConvokersFor(field, player, card, c));
  }

  /** Where the cards are after a card of the hand has been played: it is a spell on top of the stack exactly when it
      was cast, and back at the end of the hand otherwise; delved cards are in exile; and nothing else has moved. */
  lemma PlayedMeans(st: State, st': State, player: Id, id: Id, c: Casting, cast: bool)
    requires Played(st, st', player, id, c, cast) && Times(At(st.s.z.piles, Pile(Hand, player)), id) > 0
    ensures var card := CardOf(st.s.z, Pile(Hand, player), id);
            var ready := Timely(card, c.ownMainPhase, st.s.entries) && player in st.players;
            CardsMoved(st, st', player, id, c.targets, if ready then DelvedFor(st.s.z, player, card, c) else 0, cast)
  {
    var hand := Pile(Hand, player);
    var card, t := CardOf(st.s.z, hand, id), Taken(st, hand, id);
    if Timely(card, c.ownMainPhase, st.s.entries) && player in st.players {
      var u, v :| PreparedAndPaid(t, u, v, player, card, c, cast) && st' == PaidCard(v, card, player, c.targets, cast);
      PaidMeans(st, t, u, v, st', player, id, card, c, cast);
    } else {
      assert AllExiled(FromTop(At(st.s.z.piles, Pile(Graveyard, player)), 0), player) == [];
    }
  }

  lemma PaidMeans(st: State, t: State, u: State, v: State, st': State, player: Id, id: Id, card: Card, c: Casting,
                  cast: bool)
    requires Times(At(st.s.z.piles, Pile(Hand, player)), id) > 0 && t == Taken(st, Pile(Hand, player), id)
    requires card == CardOf(st.s.z, Pile(Hand, player), id)
    requires PreparedAndPaid(t, u, v, player, card, c, cast) && st' == PaidCard(v, card, player, c.targets, cast)
    ensures CardsMoved(st, st', player, id, c.targets, DelvedFor(st.s.z, player, card, c), cast)
  {
    SameDue(st.s.z, t.s.z, player, card, c);
    PreparedMoves(st, t, u, player, id, card, c);
    PaidOnField(u, v, player, Due(t.s.z, player, card, c), c.lands, cast);
    FieldAside(st, u, v, st', player, id, card, c.targets, DelvedFor(t.s.z, player, card, c), cast);
  }

  ghost predicate CardsMoved(st: State, st': State, player: Id, id: Id, targets: seq<Id>, n: nat, cast: bool)
    requires Times(At(st.s.z.piles, Pile(Hand, player)), id) > 0
  {
    var z, y, hand, yard := st.s.z, st'.s.z, Pile(Hand, player), Pile(Graveyard, player);
    var card := CardOf(z, hand, id);
    && LeftTheHand(z, y, player, id, n, if cast then [] else [card])
    && st'.s.entries == st.s.entries
         + (if cast then [StackEntry(st.nextId, Spell(card), player, targets, false, false)] else [])
    && st'.s.boards == st.s.boards && y.field.Keys == z.field.Keys
  }

  /** A card has left the hand, n cards have gone from the end of the graveyard to exile, and some have come back. */
  ghost predicate LeftTheHand(z: Zoning, y: Zoning, player: Id, id: Id, n: nat, back: seq<Card>)
    requires Times(At(z.piles, Pile(Hand, player)), id) > 0
  {
    var hand, yard := Pile(Hand, player), Pile(Graveyard, player);
    && At(y.piles, hand) == Without(At(z.piles, hand), IndexOf(At(z.piles, hand), id).value) + back
    && n <= |At(z.piles, yard)| && At(y.piles, yard) == At(z.piles, yard)[..|At(z.piles, yard)| - n]
    && y.exile == z.exile + AllExiled(FromTop(At(z.piles, yard), n), player)
    && (forall pile :: pile != hand && pile != yard ==> At(y.piles, pile) == At(z.piles, pile))
  }

  lemma PreparedMoves(st: State, t: State, u: State, player: Id, id: Id, card: Card, c: Casting)
    requires Times(At(st.s.z.piles, Pile(Hand, player)), id) > 0 && t == Taken(st, Pile(Hand, player), id)
    requires Prepared(t, u, player, card, c)
    ensures LeftTheHand(st.s.z, u.s.z, player, id, DelvedFor(t.s.z, player, card, c), [])
    ensures u == st.(s := st.s.(z := u.s.z)) && u.s.z.field.Keys == st.s.z.field.Keys
  {}

  lemma FieldAside(st: State, u: State, v: State, st': State, player: Id, id: Id, card: Card, targets: seq<Id>, n: nat,
                   cast: bool)
    requires Times(At(st.s.z.piles, Pile(Hand, player)), id) > 0 && card == CardOf(st.s.z, Pile(Hand, player), id)
    requires LeftTheHand(st.s.z, u.s.z, player, id, n, [])
    requires u == st.(s := st.s.(z := u.s.z)) && u.s.z.field.Keys == st.s.z.field.Keys
    requires v.s == u.s.(z := u.s.z.(field := v.s.z.field)) && v.s.z.field.Keys == u.s.z.field.Keys
             && v.nextId == u.nextId
    requires st' == PaidCard(v, card, player, targets, cast)
    ensures CardsMoved(st, st', player, id, targets, n, cast)
  {
    if cast {
      SamePiles(st.s.z, u.s.z, st'.s.z, player, id, n);
    } else {
      BackInHand(st.s.z, u.s.z, st'.s.z, player, id, n, card);
    }
  }

  lemma SamePiles(z: Zoning, m: Zoning, y: Zoning, player: Id, id: Id, n: nat)
    requires Times(At(z.piles, Pile(Hand, player)), id) > 0 && LeftTheHand(z, m, player, id, n, [])
    requires y.piles == m.piles && y.exile == m.exile
    ensures LeftTheHand(z, y, player, id, n, [])
  {}

  lemma BackInHand(z: Zoning, m: Zoning, y: Zoning, player: Id, id: Id, n: nat, card: Card)
    requires Times(At(z.piles, Pile(Hand, player)), id) > 0 && LeftTheHand(z, m, player, id, n, [])
    requires y.piles == m.piles[Pile(Hand, player) := At(m.piles, Pile(Hand, player)) + [card]] && y.exile == m.exile
    ensures LeftTheHand(z, y, player, id, n, [card])
  {
    var hand := At(z.piles, Pile(Hand, player));
    assert Without(hand, IndexOf(hand, id).value) + [] + [card] == Without(hand, IndexOf(hand, id).value) + [card];
  }

  // ---------- Flashback and adventures ----------

  /** What casting a card from the graveyard has done. */
  ghost predicate FlashedBack(st: State, st': State, player: Id, id: Id, targets: seq<Id>, cost: Option<Mana.Cost>,
                              lands: Lands, cast: bool)
  {
    var yard := Pile(Graveyard, player);
    if Times(At(st.s.z.piles, yard), id) == 0 then st' == st && !cast
    else
      var card, t := CardOf(st.s.z, yard, id), Taken(st, yard, id);
      if !card.flashback || player !in st.players || cost.None? then st' == InYard(t, card, player) && !cast
      else exists v :: && PaidFor(t, v, player, cost.value, lands, cast)
                       && st' ==
                          if cast then AsSpell(v, card, player, targets, true, false) else InYard(v, card, player)
  }

  /** Flashback: a card of the graveyard with a flashback cost is cast when the cost can be read and
      paid; otherwise it goes back to the end of the graveyard. */
  method PlayFlashback(g: GameTable, player: Id, id: Id, targets: seq<Id>, cost: Option<Mana.Cost>, lands: Lands)
    returns (cast: bool)
    requires g.Valid()
    modifies g`players, g.zones, g.stack
    ensures g.Valid() && Keeps(old(g.Snap()), g.Snap(), g.zones.dealt)
    ensures FlashedBack(old(g.Now()), g.Now(), player, id, targets, cost, lands, cast)
  {
    ghost var s := g.Snap();
    var card := TakeCard(g, Graveyard, player, id);
    cast := false;
    if card.Some? {
      if !card.value.flashback || player !in g.players || cost.None? {
        PutBackInGraveyard(g, player, card.value, s);
      } else {
        cast := PayFlashback(g, player, card.value, targets, cost.value, lands, s);
      }
    }
  }

  method PayFlashback(g: GameTable, player: Id, card: Card, targets: seq<Id>, cost: Mana.Cost, lands: Lands,
                      ghost s: Snapshot) returns (cast: bool)
    requires InTheAir(g, s, player, card) && player in g.players
    modifies g`players, g.zones, g.stack
    ensures g.Valid() && Keeps(s, g.Snap(), g.zones.dealt)
    ensures exists v :: && PaidFor(old(g.Now()), v, player, cost, lands, cast)
                        && g.Now() ==
                           if cast then AsSpell(v, card, player, targets, true, false) else InYard(v, card, player)
  {
    ghost var t := g.Now();
    cast := PayWithLands(g, player, cost, lands);
    ghost var v := g.Now();
    PaidOnField(t, v, player, cost, lands, cast);
    StillFlying(s, t.s, v.s, card.id);
    if cast {
      PutOnStack(g, player, card, targets, true, false, s);
    } else {
      PutBackInGraveyard(g, player, card, s);
    }
  }

  /** The stack has one more entry: a card that a player has cast as a spell. */
  ghost predicate NewSpell(st: State, st': State, card: Card, player: Id, targets: seq<Id>) {
    && |st'.s.entries| == |st.s.entries| + 1 && st'.s.entries[..|st.s.entries|] == st.s.entries
    && st'.nextId == st.nextId + 1
    && var entry := st'.s.entries[|st.s.entries|];
       && entry.id == st.nextId && entry.content == Spell(card) && entry.controller == player
       && entry.targets == targets
  }

  /** With one hybrid pair, or pairs that do not overlap: a card is cast from the graveyard exactly when it has a
      flashback cost that can be read and that its player's untapped lands and pool can pay. */
  lemma FlashedBackExactlyWhen(st: State, st': State, player: Id, id: Id, targets: seq<Id>, cost: Option<Mana.Cost>,
                               lands: Lands, cast: bool)
    requires FlashedBack(st, st', player, id, targets, cost, lands, cast)
    requires cost.Some? ==> Mana.PairsDoNotOverlap(cost.value.hybrids)
    ensures cast <==>
              && Times(At(st.s.z.piles, Pile(Graveyard, player)), id) > 0 && player in st.players && cost.Some?
              && CardOf(st.s.z, Pile(Graveyard, player), id).flashback
              && LandsSuffice(st.s.z.field, player, st.players[player].mana, cost.value, lands)
    ensures cast ==> NewSpell(st, st', CardOf(st.s.z, Pile(Graveyard, player), id), player, targets)
                     && st'.s.entries[|st.s.entries|].flashback && !st'.s.entries[|st.s.entries|].adventure
  {
    var yard := Pile(Graveyard, player);
    if Times(At(st.s.z.piles, yard), id) > 0 && player in st.players && cost.Some? {
      var card, t := CardOf(st.s.z, yard, id), Taken(st, yard, id);
      if card.flashback {
        var v :| && PaidFor(t, v, player, cost.value, lands, cast)
                 && st' == if cast then AsSpell(v, card, player, targets, true, false) else InYard(v, card, player);
        PaidWhenLandsSuffice(t, v, player, cost.value, lands, cast);
        PaidOnField(t, v, player, cost.value, lands, cast);
      }
    }
  }

  /** The pool alone has paid, or could not. */
  ghost predicate Charged(st: State, st': State, player: Id, cost: Mana.Cost, paid: bool) {
    && player in st.players && (paid <==> Affordable(st.players[player].mana, cost))
    && st' == st.(players := st'.players)
    && if paid then PoolPaid(st.players, st'.players, player, cost) else st' == st
  }

  /** What casting the adventure half of a card has done; no land is tapped for it. */
  ghost predicate Adventured(st: State, st': State, player: Id, id: Id, targets: seq<Id>, cost: Mana.Cost, cast: bool) {
    var hand := Pile(Hand, player);
    if Times(At(st.s.z.piles, hand), id) == 0 then st' == st && !cast
    else
      var card, t := CardOf(st.s.z, hand, id), Taken(st, hand, id);
      if !card.adventure || player !in st.players then st' == InHand(t, card, player) && !cast
      else exists v :: && Charged(t, v, player, cost, cast)
                       && st' ==
                          if cast then AsSpell(v, card, player, targets, false, true) else InHand(v, card, player)
  }

  /** The adventure half is cast exactly when the card is in the hand and has one, its player is known, and the pool
      alone can pay; it is on top of the stack then, and no permanent has changed. */
  lemma AdventuredExactlyWhen(st: State, st': State, player: Id, id: Id, targets: seq<Id>, cost: Mana.Cost, cast: bool)
    requires Adventured(st, st', player, id, targets, cost, cast) && Mana.PairsDoNotOverlap(cost.hybrids)
    ensures st'.s.z.field == st.s.z.field
    ensures cast <==>
              && Times(At(st.s.z.piles, Pile(Hand, player)), id) > 0 && player in st.players
              && CardOf(st.s.z, Pile(Hand, player), id).adventure
              && |cost.hybrids| <= 10 && exists choice :: Mana.Covers(st.players[player].mana, cost, choice)
    ensures cast ==> NewSpell(st, st', CardOf(st.s.z, Pile(Hand, player), id), player, targets)
                     && st'.s.entries[|st.s.entries|].adventure && !st'.s.entries[|st.s.entries|].flashback
  {
    var hand := Pile(Hand, player);
    if Times(At(st.s.z.piles, hand), id) > 0 && player in st.players {
      var card, t, mana := CardOf(st.s.z, hand, id), Taken(st, hand, id), st.players[player].mana;
      if card.adventure {
        var v :| && Charged(t, v, player, cost, cast)
                 && st' == if cast then AsSpell(v, card, player, targets, false, true) else InHand(v, card, player);
        Mana.PayableExactlyWhen(mana, cost);
        if CanPay(mana, cost) {
          Mana.GreedyCompleteOnDisjointPairs(Mana.Minus(mana, cost.Pips()), cost.hybrids);
        }
      }
    }
  }

  method PlayAdventure(g: GameTable, player: Id, id: Id, targets: seq<Id>, cost: Mana.Cost) returns (cast: bool)
    requires g.Valid()
    modifies g`players, g.zones, g.stack
    ensures g.Valid() && Keeps(old(g.Snap()), g.Snap(), g.zones.dealt)
    ensures Adventured(old(g.Now()), g.Now(), player, id, targets, cost, cast)
  {
    ghost var s := g.Snap();
    var card := TakeCard(g, Hand, player, id);
    cast := false;
    if card.Some? {
      if !card.value.adventure || player !in g.players {
        PutBackInHand(g, player, card.value, s);
      } else {
        cast := PayAdventure(g, player, card.value, targets, cost, s);
      }
    }
  }

  method PayAdventure(g: GameTable, player: Id, card: Card, targets: seq<Id>, cost: Mana.Cost, ghost s: Snapshot)
    returns (cast: bool)
    requires InTheAir(g, s, player, card) && player in g.players
    modifies g`players, g.zones, g.stack
    ensures g.Valid() && Keeps(s, g.Snap(), g.zones.dealt)
    ensures exists v :: && Charged(old(g.Now()), v, player, cost, cast)
                        && g.Now() ==
                           if cast then AsSpell(v, card, player, targets, false, true) else InHand(v, card, player)
  {
    ghost var t := g.Now();
    cast := PayFromPool(g, player, cost);
    ghost var v := g.Now();
    assert Charged(t, v, player, cost, cast);
    if cast {
      PutOnStack(g, player, card, targets, false, true, s);
    } else {
      PutBackInHand(g, player, card, s);
    }
  }

  // ---------- Lands ----------

  /** A card in flight becomes a permanent. */
  function AsPermanent(st: State, p: Permanent): State {
    st.(s := st.s.(z := st.s.z.(field := st.s.z.field[p.card.id := p], zone := st.s.z.zone[p.card.id := Battlefield])))
  }

  /** What playing a land has done: it enters, never summoning sick, and abilities trigger. */
  ghost predicate LandPlayed(st: State, st': State, player: Id, id: Id, allowed: bool, triggers: seq<StackEntry>,
                             done: bool) {
    var hand := Pile(Hand, player);
    if !allowed || player !in st.players || st.s.entries != [] || Times(At(st.s.z.piles, hand), id) == 0
    then st' == st && !done
    else
      var card, t := CardOf(st.s.z, hand, id), Taken(st, hand, id);
      && (done <==> card.cardType == Land)
      && st' ==
         if done then WithTriggers(AsPermanent(t, Entering(card, player, player).(summoningSick := false)), triggers)
                else InHand(t, card, player)
  }

  /** What that means: the land is there, untapped and ready, under its player; and its triggers are on the stack. */
  lemma LandIsThere(st: State, st': State, player: Id, id: Id, allowed: bool, triggers: seq<StackEntry>, done: bool)
    requires LandPlayed(st, st', player, id, allowed, triggers, done)
    ensures done <==>
              && allowed && player in st.players && st.s.entries == []
              && Times(At(st.s.z.piles, Pile(Hand, player)), id) > 0
              && CardOf(st.s.z, Pile(Hand, player), id).cardType == Land
    ensures done ==>
              && var card := CardOf(st.s.z, Pile(Hand, player), id);
                 && card.id in st'.s.z.field
                 && var p := st'.s.z.field[card.id];
                    && p.card == card && p.controller == player && p.owner == player && !p.tapped && !p.summoningSick
                    && p.damage == 0 && !p.deathtouched && !p.token && p.counters == map[] && p.attachedTo.None?
                    && forall other :: other != card.id ==> (other in st'.s.z.field <==> other in st.s.z.field)
    ensures done ==>
              && |st'.s.entries| == |triggers|
              && forall k :: 0 <= k < |triggers| ==> st'.s.entries[k] == triggers[k].(id := st.nextId + k)
  {}

  /** Playing a land: in the player's own main phase, with a land play left and an empty stack. A card
      that is no land goes back to the end of the hand. */
  method PlayLand(g: GameTable, player: Id, id: Id, landPlayLeft: bool, ownMainPhase: bool, triggers: seq<StackEntry>)
    returns (done: bool)
    requires g.Valid() && OnlyTriggered(triggers)
    modifies g.zones, g.stack
    ensures g.Valid() && Keeps(old(g.Snap()), g.Snap(), g.zones.dealt)
    ensures LandPlayed(old(g.Now()), g.Now(), player, id, landPlayLeft && ownMainPhase, triggers, done)
  {
    done := false;
    if player in g.players && landPlayLeft && ownMainPhase && g.stack.entries == [] {
      ghost var s := g.Snap();
      var card := TakeCard(g, Hand, player, id);
      if card.Some? {
        done := card.value.cardType == Land;
        if done {
          LandEnters(g, player, card.value, triggers, s);
        } else {
          PutBackInHand(g, player, card.value, s);
        }
      }
    }
  }

  method LandEnters(g: GameTable, player: Id, card: Card, triggers: seq<StackEntry>, ghost s: Snapshot)
    requires InTheAir(g, s, player, card) && OnlyTriggered(triggers)
    modifies g.zones, g.stack
    ensures g.Valid() && Keeps(s, g.Snap(), g.zones.dealt)
    ensures g.Now()
            == WithTriggers(AsPermanent(old(g.Now()), Entering(card, player, player).(summoningSick := false)),
                            triggers)
  {
    ghost var st := g.Now();
    EnterBattlefield(g, player, player, card, s);
    ghost var u := g.Now();
    g.UpdatePermanent(card.id, g.zones.field[card.id].(summoningSick := false));
    WrittenTwice(st, u, g.Now(), Entering(card, player, player),
                 Entering(card, player, player).(summoningSick := false));
    ghost var v := g.Now();
    PushTriggers(g, triggers);
    KeepsTwice(s, u.s, v.s, g.zones.dealt);
    KeepsTwice(s, v.s, g.Snap(), g.zones.dealt);
  }

  lemma WrittenTwice(st: State, u: State, v: State, p: Permanent, q: Permanent)
    requires u == AsPermanent(st, p) && p.card == q.card
    requires v == u.(s := u.s.(z := u.s.z.(field := u.s.z.field[q.card.id := q])))
    ensures v == AsPermanent(st, q)
  {
    assert st.s.z.field[p.card.id := p][q.card.id := q] == st.s.z.field[q.card.id := q];
  }

  /** A flying card becomes a permanent. */
  method EnterBattlefield(g: GameTable, controller: Id, cardOwner: Id, card: Card, ghost s: Snapshot)
    requires InTheAir(g, s, cardOwner, card)
    modifies g.zones
    ensures g.Valid() && Keeps(s, g.Snap(), g.zones.dealt) && card.id !in old(g.zones.field)
    ensures g.Now() == AsPermanent(old(g.Now()), Entering(card, controller, cardOwner))
  {
    ghost var t := g.Snap();
    g.zones.AddToBattlefield(card, controller, cardOwner);
    CardIn(t, g.Snap(), g.zones.dealt, Battlefield, card.id);
    LandedAgain(s, t, g.Snap(), card.id, g.zones.dealt);
  }

  // ---------- Activated abilities ----------

  /** The mana an ability costs: none, something that cannot be read, or a cost. */
  datatype AbilityCost = NoMana | Unreadable | ManaCost(cost: Mana.Cost)

  /** An activated ability of a permanent, as far as it decides what activating it does. */
  datatype Ability = Ability(sorcerySpeed: bool, isMana: bool, requiresTap: bool, cost: AbilityCost,
                             effect: seq<ContextCall>)
  {
    ghost predicate Sensible() { forall i :: 0 <= i < |effect| ==> WellFormed(effect[i]) }
  }

  /** May this player activate the ability now, before costs? */
  predicate Usable(field: map<Id, Permanent>, player: Id, id: Id, ability: Ability, mainPhase: bool,
                   entries: seq<StackEntry>)
  {
    && id in field && field[id].controller == player
    && (ability.sorcerySpeed && !ability.isMana ==> mainPhase && entries == [])
    && (ability.requiresTap ==>
          !field[id].tapped && !(field[id].IsCreature() && field[id].summoningSick && !field[id].Has(Haste)))
  }

  /** The mana an ability costs has been paid; lands tapped for a cost that could not be paid stay tapped. */
  ghost predicate AbilityPaid(st: State, st': State, player: Id, cost: AbilityCost, lands: Lands, paid: bool) {
    match cost
    case NoMana => st' == st && paid
    case Unreadable => st' == st && !paid
    case ManaCost(c) => PaidFor(st, st', player, c, lands, paid)
  }

  function SourceTapped(st: State, id: Id, ability: Ability): State {
    if ability.requiresTap then st.(s := st.s.(z := st.s.z.(field := TapAll(st.s.z.field, [id])))) else st
  }

  /** A mana ability takes effect at once, and any other goes onto the stack. */
  ghost predicate AbilityUsed(st: State, st': State, player: Id, id: Id, ability: Ability, targets: seq<Id>,
                              seats: seq<Id>) {
    if ability.isMana then RanAll(ability.effect, seats, st, st')
    else
      var entry := StackEntry(st.nextId, Activated(id), player, targets, false, false);
      st' == st.(s := st.s.(entries := st.s.entries + [entry]), nextId := st.nextId + 1)
  }

  /** What activating an ability has done. */
  ghost predicate ActivationDone(st: State, st': State, player: Id, id: Id, ability: Ability, mainPhase: bool,
                                 targets: seq<Id>, lands: Lands, seats: seq<Id>, done: bool)
  {
    if !Usable(st.s.z.field, player, id, ability, mainPhase, st.s.entries) || player !in st.players
    then st' == st && !done
    else exists v :: && AbilityPaid(st, v, player, ability.cost, lands, done)
                     && if done then AbilityUsed(SourceTapped(v, id, ability), st', player, id, ability, targets, seats)
                        else st' == v
  }

  /** An ability is activated exactly when its permanent is there under the player's control, it is not too early for
      it, the permanent can be tapped if it has to be, and its mana can be read and paid; with overlapping hybrid pairs
      the payment may fail although the mana is there. */
  lemma ActivatedExactlyWhen(st: State, st': State, player: Id, id: Id, ability: Ability, mainPhase: bool,
                             targets: seq<Id>, lands: Lands, seats: seq<Id>, done: bool)
    requires ActivationDone(st, st', player, id, ability, mainPhase, targets, lands, seats, done)
    requires ability.cost.ManaCost? ==> Mana.PairsDoNotOverlap(ability.cost.cost.hybrids)
    ensures done <==>
              && id in st.s.z.field && player in st.players
              && var p := st.s.z.field[id];
                 && p.controller == player
                 && (ability.sorcerySpeed ==> ability.isMana || (mainPhase && st.s.entries == []))
                 && (ability.requiresTap ==>
                       && !p.tapped
                       && (p.card.cardType == Creature || p.animation.Some? ==> !p.summoningSick || p.Has(Haste)))
                 && match ability.cost
                    case NoMana => true
                    case Unreadable => false
                    case ManaCost(m) => LandsSuffice(st.s.z.field, player, st.players[player].mana, m, lands)
    ensures done && !ability.isMana ==>
              && |st'.s.entries| == |st.s.entries| + 1 && st'.s.entries[..|st.s.entries|] == st.s.entries
              && st'.s.entries[|st.s.entries|] == StackEntry(st.nextId, Activated(id), player, targets, false, false)
              && id in st'.s.z.field && (ability.requiresTap ==> st'.s.z.field[id].tapped)
  {
    if Usable(st.s.z.field, player, id, ability, mainPhase, st.s.entries) && player in st.players {
      var v :| && AbilityPaid(st, v, player, ability.cost, lands, done)
               && if done then AbilityUsed(SourceTapped(v, id, ability), st', player, id, ability, targets, seats)
                  else st' == v;
      if ability.cost.ManaCost? {
        PaidWhenLandsSuffice(st, v, player, ability.cost.cost, lands, done);
        PaidOnField(st, v, player, ability.cost.cost, lands, done);
      }
    }
  }

  /** Activating an ability: it goes onto the stack, unless it is a mana ability, which takes effect at once. */
  method ActivateAbility(g: GameTable, player: Id, id: Id, ability: Ability, mainPhase: bool, targets: seq<Id>,
                         lands: Lands) returns (done: bool)
    requires g.Valid() && ability.Sensible()
    modifies g, g.zones, g.stack
    ensures g.Valid() && Keeps(old(g.Snap()), g.Snap(), g.zones.dealt)
    ensures ActivationDone(old(g.Now()), g.Now(), player, id, ability, mainPhase, targets, lands, g.seats, done)
  {
    ghost var st := g.Now();
    done := false;
    if id in g.zones.field && player in g.players {
      var p := g.zones.field[id];
      var tooEarly := ability.sorcerySpeed && !ability.isMana && !(mainPhase && g.stack.entries == []);
      var unready := ability.requiresTap && (p.tapped || (p.IsCreature() && p.summoningSick && !p.Has(Haste)));
      done := p.controller == player && !tooEarly && !unready;
    }
    if done {
      done := PayAbility(g, player, ability.cost, lands);
      ghost var v := g.Now();
      PaidKeepsField(st, v, player, ability.cost, lands, done);
      if done {
        UseAbility(g, player, id, ability, targets);
        KeepsTwice(st.s, v.s, g.Snap(), g.zones.dealt);
      }
    }
  }

  lemma PaidKeepsField(st: State, v: State, player: Id, cost: AbilityCost, lands: Lands, paid: bool)
    requires AbilityPaid(st, v, player, cost, lands, paid)
    ensures v.s.z.field.Keys == st.s.z.field.Keys
  {
    if cost.ManaCost? {
      PaidOnField(st, v, player, cost.cost, lands, paid);
    }
  }

  method PayAbility(g: GameTable, player: Id, cost: AbilityCost, lands: Lands) returns (paid: bool)
    requires g.Valid() && player in g.players
    modifies g`players, g.zones
    ensures g.Valid() && Keeps(old(g.Snap()), g.Snap(), g.zones.dealt)
    ensures AbilityPaid(old(g.Now()), g.Now(), player, cost, lands, paid)
  {
    match cost
    case NoMana => paid := true;
    case Unreadable => paid := false;
    case ManaCost(c) => paid := PayWithLands(g, player, c, lands);
  }

  method UseAbility(g: GameTable, player: Id, id: Id, ability: Ability, targets: seq<Id>)
    requires g.Valid() && ability.Sensible() && id in g.zones.field
    modifies g, g.zones, g.stack
    ensures g.Valid() && Keeps(old(g.Snap()), g.Snap(), g.zones.dealt)
    ensures AbilityUsed(SourceTapped(old(g.Now()), id, ability), g.Now(), player, id, ability, targets, g.seats)
  {
    ghost var s := g.Snap();
    TapSource(g, id, ability);
    ghost var t := g.Snap();
    if ability.isMana {
      g.RunEffect(ability.effect);
    } else {
      PushAbility(g, player, id, targets);
    }
    KeepsTwice(s, t, g.Snap(), g.zones.dealt);
  }

  method TapSource(g: GameTable, id: Id, ability: Ability)
    requires g.Valid() && id in g.zones.field
    modifies g.zones
    ensures g.Valid() && Keeps(old(g.Snap()), g.Snap(), g.zones.dealt)
    ensures g.Now() == SourceTapped(old(g.Now()), id, ability)
  {
    if ability.requiresTap {
      ghost var st := g.Now();
      g.UpdatePermanent(id, g.zones.field[id].(tapped := true));
      TappedOnce(st.s.z.field, id);
    }
  }

  lemma TappedOnce(field: map<Id, Permanent>, id: Id)
    requires id in field
    ensures field[id := field[id].(tapped := true)] == TapAll(field, [id])
  {}

  method PushAbility(g: GameTable, player: Id, id: Id, targets: seq<Id>)
    requires g.Valid()
    modifies g.stack
    ensures g.Valid() && Keeps(old(g.Snap()), g.Snap(), g.zones.dealt)
    ensures var st := old(g.Now());
            var entry := StackEntry(st.nextId, Activated(id), player, targets, false, false);
            g.Now() == st.(s := st.s.(entries := st.s.entries + [entry]), nextId := st.nextId + 1)
  {
    ghost var s := g.Snap();
    var entry := StackEntry(0, Activated(id), player, targets, false, false);
    var stackId := g.stack.Push(entry);
    AbilityPushed(s, g.Snap(), g.zones.dealt, entry.(id := stackId));
  }
}
