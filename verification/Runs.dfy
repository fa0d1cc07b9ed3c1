/** Whole games: any sequence of actions, resolutions, effects, damage steps, draws, discards and
    state-based checks. At every moment each dealt card is in exactly one place, and only where its owner
    may have it. */
module Runs {
  import opened Common
  import opened Permanents
  import opened Zones
  import opened ZoneManagement
  import opened Moves
  import opened Stack
  import opened Game
  import opened Actions
  import opened Resolution
  import opened StateBased
  import opened CombatSteps
  import Combat
  import Costs
  import Mana
  import Setup
  import Sideboarding

  /** Everything the game does that can move a card or change a permanent or a player, with the players' answers and
      what card effects do as parameters. */
  datatype Step =
    | CastFromHand(player: Id, id: Id, casting: Casting)
    | CastFlashback(player: Id, id: Id, targets: seq<Id>, flashbackCost: Option<Mana.Cost>, lands: Costs.Lands)
    | CastAdventure(player: Id, id: Id, targets: seq<Id>, cost: Mana.Cost)
    | LandDrop(player: Id, id: Id, landPlayLeft: bool, ownMainPhase: bool, triggers: seq<StackEntry>)
    | Activate(player: Id, id: Id, ability: Ability, mainPhase: bool, targets: seq<Id>, lands: Costs.Lands)
    | Swap(player: Id, ids: seq<Id>, names: seq<string>)
    | Resolve(resolving: Resolving)
    | Settle(passes: Passes, last: nat)
    | Damage(lines: Combat.Lineup, firstStrike: bool, answers: Id -> Combat.Answer, passes: Passes, last: nat)
    | DrawStep(player: Id)
    | Cleanup(player: Id, ids: seq<Id>)
    | Effect(calls: seq<ContextCall>)
    | Alter(id: Id, how: Permanent -> Permanent)
    | Change(player: Id, change: Player -> Player)

  /** Effects shuffle by permuting and put only triggered abilities on the stack; deaths stop setting off effects at
      some time; and a permanent that is altered keeps its card, its owner and whether it is a token. */
  ghost predicate Legal(step: Step) {
    match step
    case LandDrop(_, _, _, _, triggers) => OnlyTriggered(triggers)
    case Activate(_, _, ability, _, _, _) => ability.Sensible()
    case Resolve(resolving) => resolving.Sensible()
    case Settle(passes, last) => SilentFrom(passes, last)
    case Damage(_, _, _, passes, last) => SilentFrom(passes, last)
    case Effect(calls) => CallsWellFormed(calls)
    case Alter(_, how) => forall p: Permanent :: SameCard(p, how(p))
    case _ => true
  }

  // ---------- What a step does ----------

  /** Actions of a player. */
  predicate ByPlayer(step: Step) {
    step.CastFromHand? || step.CastFlashback? || step.CastAdventure? || step.LandDrop? || step.Activate? || step.Swap?
  }

  ghost predicate PlayerDid(step: Step, st: State, st': State, seats: seq<Id>, done: bool)
    requires ByPlayer(step)
  {
    match step
    case CastFromHand(player, id, casting) => Played(st, st', player, id, casting, done)
    case CastFlashback(player, id, targets, cost, lands) => FlashedBack(st, st', player, id, targets, cost, lands, done)
    case CastAdventure(player, id, targets, cost) => Adventured(st, st', player, id, targets, cost, done)
    case LandDrop(player, id, landPlayLeft, ownMainPhase, triggers) =>
      LandPlayed(st, st', player, id, landPlayLeft && ownMainPhase, triggers, done)
    case Activate(player, id, ability, mainPhase, targets, lands) =>
      ActivationDone(st, st', player, id, ability, mainPhase, targets, lands, seats, done)
    case Swap(player, ids, names) =>
      st' == st.(s := st'.s) && Sideboarding.SwapDone(player in st.players, st.s, st'.s, player, ids, names)
  }

  ghost predicate GameDid(step: Step, st: State, st': State, seats: seq<Id>)
    requires !ByPlayer(step)
  {
    match step
    case Resolve(resolving) => TopResolved(st, st', resolving, seats)
    case Settle(passes, _) => ReachedByPasses(st, st', passes, seats) && Stable(st'.s.z.field, st'.players)
    case Damage(lines, firstStrike, answers, passes, _) => DamageStep(st, st', lines, firstStrike, answers, passes,
                                                                      seats)
    case DrawStep(player) => Done(Draw(player, 1), seats, st, st')
    case Cleanup(player, ids) => st' == st.(s := st.s.(z := CleanedUp(st.s.z, player, ids)))
    case Effect(calls) => RanAll(calls, seats, st, st')
    case Alter(id, how) => st' == Altered(st, id, how)
    case Change(player, change) => st' == Changed(st, player, change)
  }

  function Altered(st: State, id: Id, how: Permanent -> Permanent): State {
    var field := st.s.z.field;
    if id in field then st.(s := st.s.(z := st.s.z.(field := field[id := how(field[id])]))) else st
  }

  function Changed(st: State, player: Id, change: Player -> Player): State {
    if player in st.players then st.(players := st.players[player := change(st.players[player])]) else st
  }

  ghost predicate Did(step: Step, st: State, st': State, seats: seq<Id>) {
    if ByPlayer(step) then exists done :: PlayerDid(step, st, st', seats, done) else GameDid(step, st, st', seats)
  }

  // ---------- The steps ----------

  method PlayerActs(g: GameTable, step: Step) returns (done: bool)
    requires g.Valid() && Legal(step) && ByPlayer(step)
    modifies g, g.zones, g.stack
    ensures g.Valid() && Keeps(old(g.Snap()), g.Snap(), g.zones.dealt)
    ensures PlayerDid(step, old(g.Now()), g.Now(), g.seats, done)
  {
    match step
    case CastFromHand(player, id, casting) =>
      done := PlayCard(g, player, id, casting);
    case CastFlashback(player, id, targets, cost, lands) =>
      done := PlayFlashback(g, player, id, targets, cost, lands);
    case CastAdventure(player, id, targets, cost) =>
      done := PlayAdventure(g, player, id, targets, cost);
    case LandDrop(player, id, landPlayLeft, ownMainPhase, triggers) =>
      done := PlayLand(g, player, id, landPlayLeft, ownMainPhase, triggers);
    case Activate(player, id, ability, mainPhase, targets, lands) =>
      done := ActivateAbility(g, player, id, ability, mainPhase, targets, lands);
    case Swap(player, ids, names) =>
      Sideboarding.SideboardSwap(g, player, ids, names);
      done := true;
  }

  method GameActs(g: GameTable, step: Step)
    requires g.Valid() && Legal(step) && !ByPlayer(step)
    modifies g, g.zones, g.stack
    ensures g.Valid() && Keeps(old(g.Snap()), g.Snap(), g.zones.dealt)
    ensures GameDid(step, old(g.Now()), g.Now(), g.seats)
  {
    match step
    case Resolve(resolving) =>
      var entry := ResolveTop(g, resolving);
    case Settle(passes, last) =>
      CheckStateBasedActions(g, passes, last);
    case Damage(lines, firstStrike, answers, passes, last) =>
      DamageActs(g, lines, firstStrike, answers, passes, last);
    case DrawStep(player) =>
      g.CallDraw(player, 1);
    case Cleanup(player, ids) =>
      CleanUp(g, player, ids);
    case Effect(calls) =>
      g.RunEffect(calls);
    case Alter(id, how) =>
      AlterPermanent(g, id, how);
    case Change(player, change) =>
      ChangePlayer(g, player, change);
  }

  method DamageActs(g: GameTable, lines: Combat.Lineup, firstStrike: bool, answers: Id -> Combat.Answer, passes: Passes,
                    ghost last: nat)
    requires g.Valid() && SilentFrom(passes, last)
    modifies g, g.zones, g.stack
    ensures g.Valid() && Keeps(old(g.Snap()), g.Snap(), g.zones.dealt)
    ensures DamageStep(old(g.Now()), g.Now(), lines, firstStrike, answers, passes, g.seats)
  {
    var combat := new Combat.CombatManager.Facing(lines);
    if firstStrike {
      FirstStrikeDamage(g, combat, answers, passes, last);
    } else {
      CombatDamage(g, combat, answers, passes, last);
    }
  }

  /** The cleanup discard: the active hand has at most seven cards afterwards. */
  method CleanUp(g: GameTable, player: Id, ids: seq<Id>)
    requires g.Valid()
    modifies g.zones
    ensures g.Valid() && Keeps(old(g.Snap()), g.Snap(), g.zones.dealt)
    ensures g.Now() == old(g.Now()).(s := old(g.Snap()).(z := CleanedUp(old(g.zones.Value()), player, ids)))
    ensures |g.Cards(Pile(Hand, player))| <= 7
  {
    ghost var s := g.Snap();
    CleanupDiscard(g.zones, player, ids);
    CleanupKeepsField(s.z, player, ids);
    MovedInZones(s, g.Snap(), g.zones.dealt);
  }

  method AlterPermanent(g: GameTable, id: Id, how: Permanent -> Permanent)
    requires g.Valid() && forall p: Permanent :: SameCard(p, how(p))
    modifies g.zones
    ensures g.Valid() && Keeps(old(g.Snap()), g.Snap(), g.zones.dealt) && g.Now() == Altered(old(g.Now()), id, how)
  {
    if id in g.zones.field {
      assert SameCard(g.zones.field[id], how(g.zones.field[id]));
      g.UpdatePermanent(id, how(g.zones.field[id]));
    }
  }

  method ChangePlayer(g: GameTable, player: Id, change: Player -> Player)
    requires g.Valid()
    modifies g`players
    ensures g.Valid() && g.Now() == Changed(old(g.Now()), player, change)
  {
    if player in g.players {
      g.players := g.players[player := change(g.players[player])];
    }
  }

  // ---------- Whole runs ----------

  /** The states of a run, one before every step and one at the end, each made of the one before by its step. */
  ghost predicate Run(steps: seq<Step>, seats: seq<Id>, trace: seq<State>) {
    |trace| == |steps| + 1 && forall i :: 0 <= i < |steps| ==> Did(steps[i], trace[i], trace[i + 1], seats)
  }

  /** At every moment the table is consistent, and nothing has been lost since the first one. */
  ghost predicate NothingLost(trace: seq<State>, dealt: map<Id, Id>) {
    forall i :: 0 <= i < |trace| ==> Consistent(trace[i].s, dealt) && Keeps(trace[0].s, trace[i].s, dealt)
  }

  ghost predicate Consistent(s: Snapshot, dealt: map<Id, Id>) { Good(s.z, dealt) && TableOk(s, dealt) }

  /** Every dealt card is in its place at every moment. */
  ghost predicate AlwaysInPlace(trace: seq<State>, dealt: map<Id, Id>) {
    forall i :: 0 <= i < |trace| ==> EveryCardInPlace(trace[i].s, dealt)
  }

  method TakeStep(g: GameTable, step: Step)
    requires g.Valid() && Legal(step)
    modifies g, g.zones, g.stack
    ensures g.Valid() && Keeps(old(g.Snap()), g.Snap(), g.zones.dealt)
    ensures Did(step, old(g.Now()), g.Now(), g.seats)
  {
    if ByPlayer(step) {
      var done := PlayerActs(g, step);
    } else {
      GameActs(g, step);
    }
  }

  lemma OneMoreStep(steps: seq<Step>, i: nat, seats: seq<Id>, trace: seq<State>, st': State, dealt: map<Id, Id>)
    requires i < |steps| && Run(steps[..i], seats, trace) && NothingLost(trace, dealt)
    requires Did(steps[i], trace[i], st', seats) && Consistent(st'.s, dealt) && Keeps(trace[i].s, st'.s, dealt)
    ensures Run(steps[..i + 1], seats, trace + [st']) && NothingLost(trace + [st'], dealt)
  {
    var longer := trace + [st'];
    forall k | 0 <= k < i + 1 ensures Did(steps[..i + 1][k], longer[k], longer[k + 1], seats) {
      assert k < i ==> Did(steps[..i][k], trace[k], trace[k + 1], seats);
    }
    assert Keeps(trace[0].s, trace[i].s, dealt);
    KeepsTwice(trace[0].s, trace[i].s, st'.s, dealt);
  }

  /** Any run, from any state of the table: the states it goes through are those its steps make; nothing is lost,
      duplicated or brought to a wrong player in any of them; and when no dealt card was missing at the start, every one
      is in its place at every moment. */
  method Play(g: GameTable, steps: seq<Step>) returns (ghost trace: seq<State>)
    requires g.Valid() && forall i :: 0 <= i < |steps| ==> Legal(steps[i])
    modifies g, g.zones, g.stack
    ensures g.Valid() && Run(steps, g.seats, trace) && NothingLost(trace, g.zones.dealt)
    ensures trace[0] == old(g.Now()) && trace[|steps|] == g.Now()
    ensures old(Conserved(g.Snap(), g.zones.dealt)) ==> AlwaysInPlace(trace, g.zones.dealt)
  {
    ghost var st := g.Now();
    trace := [st];
    for i := 0 to |steps|
      invariant g.Valid() && Run(steps[..i], g.seats, trace) && NothingLost(trace, g.zones.dealt)
      invariant trace[0] == st && trace[i] == g.Now()
    {
      TakeStep(g, steps[i]);
      OneMoreStep(steps, i, g.seats, trace, g.Now(), g.zones.dealt);
      trace := trace + [g.Now()];
    }
    assert steps[..|steps|] == steps;
    if Conserved(st.s, g.zones.dealt) {
      AllInPlace(trace, g.zones.dealt);
    }
  }

  lemma AllInPlace(trace: seq<State>, dealt: map<Id, Id>)
    requires trace != [] && NothingLost(trace, dealt) && Conserved(trace[0].s, dealt)
    ensures AlwaysInPlace(trace, dealt)
  {
    forall i | 0 <= i < |trace| ensures EveryCardInPlace(trace[i].s, dealt) {
      assert Consistent(trace[i].s, dealt) && Keeps(trace[0].s, trace[i].s, dealt);
      ConservedMeansInPlace(trace[i].s, dealt);
    }
  }

  /** A whole game, from the setup on. */
  method PlayFromSetup(g: GameTable, decks: map<Id, seq<Card>>, shuffles: Id -> (seq<Card> -> seq<Card>),
                       steps: seq<Step>) returns (ghost trace: seq<State>)
    requires g.zones.Value() == Zoning(map[], map[], [], map[], map[]) && g.zones.Valid() && g.stack.Valid()
             && g.stack.entries == []
    requires g.tokens == {} && forall player :: Permutes(shuffles(player))
    requires Setup.Dealt(decks, g.seats, g.sideboards, g.zones.dealt, g.nextInstance)
    requires forall i :: 0 <= i < |steps| ==> Legal(steps[i])
    modifies g, g.zones, g.stack
    ensures g.Valid() && Run(steps, g.seats, trace) && trace[|steps|] == g.Now()
    ensures Setup.Ready(trace[0].s.z, decks, g.seats) && AlwaysInPlace(trace, g.zones.dealt)
  {
    Setup.SetupGame(g, decks, shuffles);
    trace := Play(g, steps);
  }

  // ---------- Where a dealt card can be ----------

  /** The places a card can be in, as far as its owner is concerned. */
  datatype Place = Owned(zone: Zone) | OnField | InExileZone | OnStack

  /** How often a card is in a place: in a pile of its owner, on the battlefield, in exile, or on the stack. */
  ghost function TimesAt(s: Snapshot, cardOwner: Id, place: Place, id: Id): nat {
    match place
    case Owned(zone) => if zone
    == Sideboard then Times(At(s.boards, Pile(zone, cardOwner)), id)
    else Times(At(s.z.piles, Pile(zone, cardOwner)), id)
    case OnField => if id in s.z.field then 1 else 0
    case InExileZone => TimesExiled(s.z.exile, id)
    case OnStack => TimesOnStack(s.entries, id)
  }

  predicate RealPlace(place: Place) {
    place.Owned? ==> place.zone == Library || place.zone == Hand || place.zone == Graveyard || place.zone == Sideboard
  }

  /** The card is in exactly one place, once, and in no pile of another player. */
  ghost predicate InPlace(s: Snapshot, cardOwner: Id, id: Id) {
    && (exists place :: RealPlace(place) && TimesAt(s, cardOwner, place, id) == 1
                        && forall other :: RealPlace(other) && other != place ==> TimesAt(s, cardOwner, other, id) == 0)
    && (forall player, zone ::
         player != cardOwner && RealPlace(Owned(zone)) ==> TimesAt(s, player, Owned(zone), id) == 0)
  }

  ghost predicate EveryCardInPlace(s: Snapshot, dealt: map<Id, Id>) {
    forall id :: id in dealt ==> InPlace(s, dealt[id], id)
  }

  lemma {:induction false} OnlyOwnersPile(piles: Piles, zone: Zone, id: Id, cardOwner: Id, dealt: map<Id, Id>)
    requires id in dealt && dealt[id] == cardOwner && forall pile :: pile in piles ==>
               PileOwned(piles[pile], pile.player, dealt)
    ensures TimesInPiles(piles, zone, id) == Times(At(piles, Pile(zone, cardOwner)), id)
    ensures forall player :: player != cardOwner ==> Times(At(piles, Pile(zone, player)), id) == 0
    decreases |piles|
  {
    forall player | player != cardOwner ensures Times(At(piles, Pile(zone, player)), id) == 0 {
      NotInOthersPile(At(piles, Pile(zone, player)), player, id, dealt);
    }
    if piles == map[] {
    } else {
      var pile :| pile in piles
                  && TimesInPiles(piles, zone, id)
                     == (if pile.zone == zone then Times(piles[pile],
                                                         id) else 0) + TimesInPiles(piles - {pile}, zone, id);
      OnlyOwnersPile(piles - {pile}, zone, id, cardOwner, dealt);
      if pile.player != cardOwner {
        NotInOthersPile(piles[pile], pile.player, id, dealt);
      }
    }
  }

  lemma NotInOthersPile(cards: seq<Card>, player: Id, id: Id, dealt: map<Id, Id>)
    requires PileOwned(cards, player, dealt) && id in dealt && dealt[id] != player
    ensures Times(cards, id) == 0
  {
    TimesMeansIn(cards, id);
  }

  /** When nothing has been lost, every dealt card is in its place. */
  lemma ConservedMeansInPlace(s: Snapshot, dealt: map<Id, Id>)
    requires Good(s.z, dealt) && TableOk(s, dealt) && Conserved(s, dealt)
    ensures EveryCardInPlace(s, dealt)
  {
    forall id | id in dealt ensures InPlace(s, dealt[id], id) {
      var cardOwner := dealt[id];
      OnlyOwnersPile(s.z.piles, Library, id, cardOwner, dealt);
      OnlyOwnersPile(s.z.piles, Hand, id, cardOwner, dealt);
      OnlyOwnersPile(s.z.piles, Graveyard, id, cardOwner, dealt);
      OnlyOwnersPile(s.boards, Sideboard, id, cardOwner, dealt);
      SumIsOne(s, cardOwner, id);
    }
  }

  lemma SumIsOne(s: Snapshot, o: Id, id: Id)
    requires TimesAt(s, o, Owned(Library), id) + TimesAt(s, o, Owned(Hand), id) + TimesAt(s, o, Owned(Graveyard), id)
             + TimesAt(s, o, Owned(Sideboard), id)
             + TimesAt(s, o, OnField, id) + TimesAt(s, o, InExileZone, id) + TimesAt(s, o, OnStack, id) == 1
    ensures exists place :: RealPlace(place) && TimesAt(s, o, place, id) == 1
                            && forall other :: RealPlace(other) && other != place ==> TimesAt(s, o, other, id) == 0
  {
    var place :=
      if TimesAt(s, o, Owned(Library), id) == 1 then Owned(Library)
      else if TimesAt(s, o, Owned(Hand), id) == 1 then Owned(Hand)
      else if TimesAt(s, o, Owned(Graveyard), id) == 1 then Owned(Graveyard)
      else if TimesAt(s, o, Owned(Sideboard), id) == 1 then Owned(Sideboard)
      else if TimesAt(s, o, OnField, id) == 1 then OnField
      else if TimesAt(s, o, InExileZone, id) == 1 then InExileZone
      else OnStack;
    assert TimesAt(s, o, place, id) == 1;
    forall other | RealPlace(other) && other != place ensures TimesAt(s, o, other, id) == 0 {
      assert other in {Owned(Library), Owned(Hand), Owned(Graveyard), Owned(Sideboard), OnField, InExileZone,
                       OnStack} by {
        if other.Owned? {
          assert other == Owned(other.zone);
        }
      }
    }
  }
}
