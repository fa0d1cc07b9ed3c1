/** Resolution of the top of the stack: targets are checked again, and then the entry's card goes to the
    battlefield, to exile or to a graveyard. What a card effect does in between is an arbitrary list of calls. */
module Resolution {
  import opened Common
  import opened Permanents
  import opened Zones
  import opened Removal
  import opened Stack
  import opened Game
  import opened Actions

  /** What the card and the rest of the game contribute: the targets a filter allows (when the entry has a
      filter), the calls of the effect, whether the card has a working adventure half, and the abilities
      that trigger when the card enters. */
  datatype Resolving = Resolving(filtered: Option<set<Id>>, effect: seq<ContextCall>, adventureWorks: bool,
                                 triggers: seq<StackEntry>)
  {
    ghost predicate Sensible() {
      && (forall i :: 0 <= i < |effect| ==> WellFormed(effect[i]))
      && OnlyTriggered(triggers)
    }
  }

  predicate LegalTarget(field: map<Id, Permanent>, players: map<Id, Player>, filtered: Option<set<Id>>, id: Id) {
    if filtered.Some? then id in filtered.value else id in field || id in players
  }

  function StillLegal(field: map<Id, Permanent>, players: map<Id, Player>, filtered: Option<set<Id>>,
                      targets: seq<Id>): seq<Id> {
    if targets == [] then []
    else
      var rest := StillLegal(field, players, filtered, targets[..|targets| - 1]);
      var last := targets[|targets| - 1];
      if LegalTarget(field, players, filtered, last) then rest + [last] else rest
  }

  lemma {:induction false} StillLegalMeans(field: map<Id, Permanent>, players: map<Id, Player>,
                                           filtered: Option<set<Id>>, targets: seq<Id>)
    ensures var legal := StillLegal(field, players, filtered, targets);
            && InOrder(legal, targets)
            && forall id: Id ::
                 multiset(legal)[id]
                 == if filtered.Some? && id !in filtered.value then 0
                    else if filtered.None? && id !in field && id !in players then 0
                    else multiset(targets)[id]
  {
    forall id: Id
      ensures multiset(StillLegal(field, players, filtered, targets))[id]
              == if LegalTarget(field, players, filtered, id) then multiset(targets)[id] else 0
    {
      LegalTimes(field, players, filtered, targets, id);
    }
    StillLegalInOrder(field, players, filtered, targets);
  }

  lemma {:induction false} LegalTimes(field: map<Id, Permanent>, players: map<Id, Player>, filtered: Option<set<Id>>,
                                      targets: seq<Id>, id: Id)
    ensures multiset(StillLegal(field, players, filtered, targets))[id]
            == if LegalTarget(field, players, filtered, id) then multiset(targets)[id] else 0
  {
    if targets == [] {
    } else {
      var n := |targets| - 1;
      LegalTimes(field, players, filtered, targets[..n], id);
      assert targets == targets[..n] + [targets[n]];
    }
  }

  lemma {:induction false} StillLegalInOrder(field: map<Id, Permanent>, players: map<Id, Player>,
                                             filtered: Option<set<Id>>, targets: seq<Id>)
    ensures InOrder(StillLegal(field, players, filtered, targets), targets)
  {
    if targets == [] {
    } else {
      var n := |targets| - 1;
      StillLegalInOrder(field, players, filtered, targets[..n]);
      LegalInOrder(StillLegal(field, players, filtered, targets[..n]), StillLegal(field, players, filtered, targets),
                   targets, n);
    }
  }

  /** Of two ids in the first list the earlier one comes before the other in the second. */
  ghost predicate InOrder(some: seq<Id>, ids: seq<Id>) {
    (forall id :: id in some ==> id in ids) && forall i, j :: 0 <= i < j < |some| ==> Earlier(ids, some[i], some[j])
  }

  ghost predicate Earlier(ids: seq<Id>, x: Id, y: Id) {
    exists a, b :: 0 <= a < b < |ids| && ids[a] == x && ids[b] == y
  }

  lemma LegalInOrder(before: seq<Id>, legal: seq<Id>, targets: seq<Id>, n: nat)
    requires n + 1 == |targets| && (legal == before || legal == before + [targets[n]]) && InOrder(before, targets[..n])
    ensures InOrder(legal, targets)
  {
    forall i, j | 0 <= i < j < |legal| ensures Earlier(targets, legal[i], legal[j]) {
      if j < |before| {
        assert Earlier(targets[..n], before[i], before[j]);
        var a, b :| 0 <= a < b < n && targets[..n][a] == before[i] && targets[..n][b] == before[j];
        assert targets[a] == legal[i] && targets[b] == legal[j];
      } else {
        assert before[i] in targets[..n];
        var a :| 0 <= a < n && targets[..n][a] == before[i];
        assert targets[a] == legal[i] && targets[n] == legal[j];
      }
    }
  }

  method CheckTargets(g: GameTable, filtered: Option<set<Id>>, targets: seq<Id>) returns (legal: seq<Id>)
    ensures legal == StillLegal(g.zones.field, g.players, filtered, targets)
  {
    legal := [];
    for i := 0 to |targets|
      invariant legal == StillLegal(g.zones.field, g.players, filtered, targets[..i])
    {
      assert targets[..i + 1][..i] == targets[..i];
      var id := targets[i];
      if filtered.Some? {
        if id in filtered.value {
          legal := legal + [id];
        }
      } else if id in g.zones.field || id in g.players {
        legal := legal + [id];
      }
    }
    assert targets[..|targets|] == targets;
  }

  // ---------- The card in flight while an effect runs ----------

  /** The card is nowhere, and nothing else has been lost or has come from nowhere. */
  ghost predicate Aloft(s: Snapshot, t: Snapshot, id: Id, dealt: map<Id, Id>) {
    && Total(t, id) == 0 && id < s.next <= t.next
    && (forall c: Id :: c in dealt ==> Total(s, c) == Total(t, c) + (if c == id then 1 else 0))
    && (forall c: Id :: c < s.next ==> Total(t, c) + (if c == id then 1 else 0) <= Total(s, c))
  }

  lemma StaysAloft(s: Snapshot, t: Snapshot, u: Snapshot, id: Id, dealt: map<Id, Id>)
    requires Aloft(s, t, id, dealt) && Keeps(t, u, dealt)
    ensures Aloft(s, u, id, dealt)
  {
    forall c: Id | c in dealt ensures Total(s, c) == Total(u, c) + (if c == id then 1 else 0) {
      assert Total(u, c) == Total(t, c);
    }
    forall c: Id | c < s.next ensures Total(u, c) + (if c == id then 1 else 0) <= Total(s, c) {
      assert Total(u, c) <= Total(t, c);
    }
    assert Total(u, id) <= Total(t, id);
  }

  lemma Lands(s: Snapshot, t: Snapshot, u: Snapshot, id: Id, dealt: map<Id, Id>)
    requires Aloft(s, t, id, dealt) && u.next == t.next
    requires forall c: Id :: Total(u, c) == Total(t, c) + (if c == id then 1 else 0)
    ensures Keeps(s, u, dealt)
  {
    forall c: Id | c in dealt ensures Total(u, c) == Total(s, c) {
      assert Total(u, c) == Total(t, c) + (if c == id then 1 else 0);
    }
    forall c: Id | c < s.next ensures Total(u, c) <= Total(s, c) {
      assert Total(u, c) == Total(t, c) + (if c == id then 1 else 0);
    }
  }

  // ---------- Where the card goes ----------

  predicate PermanentType(t: CardType) { t == Creature || t == Enchantment || t == Artifact || t == Planeswalker }

  /** An aura and the permanent it is put on, when both are there. */
  function Attach(field: map<Id, Permanent>, aura: Id, target: Id): map<Id, Permanent> {
    if aura !in field || target !in field then field
    else
      var first := field[aura := field[aura].(attachedTo := Some(target))];
      first[target := first[target].(attachments := first[target].attachments + [aura])]
  }

  /** A spell's card has entered, an aura on its first legal target. */
  function Entered(st: State, card: Card, controller: Id, legal: seq<Id>): State {
    var with := AsPermanent(st, Entering(card, controller, RecordedOwner(st.s.z.owner, card.id, controller)));
    if card.cardType == Enchantment && legal != []
    then with.(s := with.s.(z := with.s.z.(field := Attach(with.s.z.field, card.id, legal[0]))))
    else with
  }

  function InExile(st: State, card: Card, cardOwner: Id): State {
    st.(s := st.s.(z := IntoExile(st.s.z, card, cardOwner)))
  }

  /** Does an instant or sorcery go to exile when its effect has run? */
  predicate GoesToExile(entry: StackEntry, card: Card, r: Resolving) {
    (entry.adventure && card.adventure && r.adventureWorks) || entry.flashback
  }

  /** The effect has run, and then the card has gone to the end of exile or of its controller's graveyard; it is
      there once. */
  ghost predicate RanThenGone(st: State, u: State, st': State, entry: StackEntry, r: Resolving, seats: seq<Id>)
    requires entry.content.Spell?
  {
    var card, exiled := entry.content.card, GoesToExile(entry, entry.content.card, r);
    && RanAll(r.effect, seats, st, u)
    && st' == (if exiled then InExile(u, card, entry.controller) else InYard(u, card, entry.controller))
    && TimesIn(st'.s.z, if exiled then Exile else Graveyard, card.id) == 1
  }

  /** What has become of the entry that has left the stack. */
  ghost predicate Resolved(st: State, st': State, entry: StackEntry, r: Resolving, legal: seq<Id>, seats: seq<Id>) {
    var fizzles := entry.targets != [] && legal == [];
    match entry.content
    case Spell(card) =>
      if fizzles then st' == InYard(st, card, entry.controller)
      else if PermanentType(card.cardType) then st'
      == WithTriggers(Entered(st, card, entry.controller, legal), r.triggers)
      else exists u :: RanThenGone(st, u, st', entry, r, seats)
    case _ => if fizzles then st' == st else RanAll(r.effect, seats, st, st')
  }

  /** What a permanent spell is on the battlefield: fresh, under its controller, its owner on record; an aura is
      attached to its first legal target, if that is there, and the target knows it. */
  lemma EnteredMeans(st: State, card: Card, controller: Id, legal: seq<Id>)
    ensures var later := Entered(st, card, controller, legal).s.z.field;
            && card.id in later
            && var p := later[card.id];
               var onto := card.cardType == Enchantment && legal != []
                           && (legal[0] == card.id || legal[0] in st.s.z.field);
               && p.card == card && p.controller == controller && !p.tapped && p.summoningSick && p.damage == 0
               && p.owner == (if card.id in st.s.z.owner then st.s.z.owner[card.id] else controller)
               && p.attachedTo == (if onto then Some(legal[0]) else None)
               && (onto ==> later[legal[0]].attachments != []
                            && later[legal[0]].attachments[|later[legal[0]].attachments| - 1] == card.id)
               && forall id :: id in st.s.z.field && id != card.id && !(onto && id == legal[0]) ==>
                    id in later && later[id] == st.s.z.field[id]
  {}

  /** An instant or sorcery that has resolved is in exile after a flashback or a working adventure, and in its
      controller's graveyard otherwise, in both cases as the last card. */
  lemma WhereTheSpellGoes(st: State, st': State, entry: StackEntry, r: Resolving, legal: seq<Id>, seats: seq<Id>)
    requires Resolved(st, st', entry, r, legal, seats) && entry.content.Spell?
    requires entry.targets == [] || legal != []
    requires entry.content.card.cardType == Instant || entry.content.card.cardType == Sorcery
    ensures var card, yard := entry.content.card, At(st'.s.z.piles, Pile(Graveyard, entry.controller));
            if entry.flashback || (entry.adventure && card.adventure && r.adventureWorks)
            then st'.s.z.exile != [] && st'.s.z.exile[|st'.s.z.exile| - 1] == Exiled(card, entry.controller, false, 0)
            else yard != [] && yard[|yard| - 1] == card
  {
    var u :| RanThenGone(st, u, st', entry, r, seats);
  }

  /** A flashback spell whose targets have all become illegal goes to its controller's graveyard, not to exile. */
  lemma FizzledFlashback(st: State, st': State, entry: StackEntry, r: Resolving, seats: seq<Id>)
    requires entry.content.Spell? && entry.flashback && entry.targets != []
    requires Resolved(st, st', entry, r, [], seats)
    ensures st'.s.z.exile == st.s.z.exile
    ensures var yard := Pile(Graveyard, entry.controller);
            At(st'.s.z.piles, yard) == At(st.s.z.piles, yard) + [entry.content.card]
  {}

  /** A card is in the air during a resolution, and it belongs to this player if it was dealt to anybody. */
  ghost predicate InTheAirOf(g: GameTable, s: Snapshot, player: Id, card: Card)
    reads g, g.zones, g.stack
  {
    && g.Valid() && Aloft(s, g.Snap(), card.id, g.zones.dealt)
    && (card.id in g.zones.dealt ==> g.zones.dealt[card.id] == player)
  }

  method ToGraveyard(g: GameTable, card: Card, controller: Id, ghost s: Snapshot)
    requires InTheAirOf(g, s, controller, card)
    modifies g.zones
    ensures g.Valid() && Keeps(s, g.Snap(), g.zones.dealt)
    ensures g.Now() == InYard(old(g.Now()), card, controller) && TimesIn(g.zones.Value(), Graveyard, card.id) == 1
  {
    ghost var t := g.Snap();
    g.zones.AddToGraveyard(controller, card);
    CardIn(t, g.Snap(), g.zones.dealt, Graveyard, card.id);
    InOneZone(t.z, Graveyard, card.id);
    Lands(s, t, g.Snap(), card.id, g.zones.dealt);
  }

  method ToExile(g: GameTable, card: Card, controller: Id, ghost s: Snapshot)
    requires InTheAirOf(g, s, controller, card)
    modifies g.zones
    ensures g.Valid() && Keeps(s, g.Snap(), g.zones.dealt)
    ensures g.Now() == InExile(old(g.Now()), card, controller) && TimesIn(g.zones.Value(), Exile, card.id) == 1
  {
    ghost var t := g.Snap();
    g.zones.AddToExile(card, controller);
    CardIn(t, g.Snap(), g.zones.dealt, Exile, card.id);
    InOneZone(t.z, Exile, card.id);
    Lands(s, t, g.Snap(), card.id, g.zones.dealt);
  }

  /** A permanent spell: the card enters under its controller, an aura on its first legal target; then
      abilities trigger. */
  method ToBattlefield(g: GameTable, entry: StackEntry, legal: seq<Id>, r: Resolving, ghost s: Snapshot)
    requires r.Sensible() && entry.content.Spell? && InTheAirOf(g, s, entry.controller, entry.content.card)
    modifies g.zones, g.stack
    ensures g.Valid() && Keeps(s, g.Snap(), g.zones.dealt)
    ensures g.Now() == WithTriggers(Entered(old(g.Now()), entry.content.card, entry.controller, legal), r.triggers)
  {
    var card := entry.content.card;
    OwnerOnRecord(g.zones.Value(), card.id, entry.controller, g.zones.dealt);
    var cardOwner := if card.id in g.zones.owner then g.zones.owner[card.id] else entry.controller;
    PermanentEnters(g, card, entry.controller, cardOwner, s);
    ghost var u := g.Snap();
    if card.cardType == Enchantment && legal != [] {
      AttachAura(g, card.id, legal[0]);
    }
    ghost var v := g.Snap();
    PushTriggers(g, r.triggers);
    KeepsTwice(u, v, g.Snap(), g.zones.dealt);
    KeepsTwice(s, u, g.Snap(), g.zones.dealt);
  }

  lemma OwnerOnRecord(z: Zoning, id: Id, controller: Id, dealt: map<Id, Id>)
    requires Owned(z, dealt) && (id in dealt ==> dealt[id] == controller)
    ensures id in dealt ==> dealt[id] == RecordedOwner(z.owner, id, controller)
  {}

  method PermanentEnters(g: GameTable, card: Card, controller: Id, cardOwner: Id, ghost s: Snapshot)
    requires InTheAirOf(g, s, cardOwner, card)
    modifies g.zones
    ensures g.Valid() && Keeps(s, g.Snap(), g.zones.dealt)
    ensures g.Now() == AsPermanent(old(g.Now()), Entering(card, controller, cardOwner))
  {
    ghost var t := g.Snap();
    g.zones.AddToBattlefield(card, controller, cardOwner);
    CardIn(t, g.Snap(), g.zones.dealt, Battlefield, card.id);
    Lands(s, t, g.Snap(), card.id, g.zones.dealt);
  }

  method AttachAura(g: GameTable, aura: Id, target: Id)
    requires g.Valid()
    modifies g.zones
    ensures g.Valid() && Keeps(old(g.Snap()), g.Snap(), g.zones.dealt)
    ensures g.zones.Value() == old(g.zones.Value()).(field := Attach(old(g.zones.field), aura, target))
  {
    ghost var s := g.Snap();
    if aura in g.zones.field && target in g.zones.field {
      g.UpdatePermanent(aura, g.zones.field[aura].(attachedTo := Some(target)));
      ghost var t := g.Snap();
      var p := g.zones.field[target];
      g.UpdatePermanent(target, p.(attachments := p.attachments + [aura]));
      KeepsTwice(s, t, g.Snap(), g.zones.dealt);
    }
  }

  /** An instant or sorcery: the effect runs while the card is nowhere; then the card is exiled after an
      adventure or a flashback, and goes to the graveyard otherwise. */
  method RunSpell(g: GameTable, entry: StackEntry, r: Resolving, ghost s: Snapshot)
    requires r.Sensible() && entry.content.Spell? && InTheAirOf(g, s, entry.controller, entry.content.card)
    modifies g, g.zones, g.stack
    ensures g.Valid() && Keeps(s, g.Snap(), g.zones.dealt)
    ensures exists u :: RanThenGone(old(g.Now()), u, g.Now(), entry, r, g.seats)
  {
    ghost var t := g.Now();
    var card := entry.content.card;
    g.RunEffect(r.effect);
    ghost var u := g.Now();
    StaysAloft(s, t.s, u.s, card.id, g.zones.dealt);
    if entry.adventure && card.adventure && r.adventureWorks {
      ToExile(g, card, entry.controller, s);
    } else if entry.flashback {
      ToExile(g, card, entry.controller, s);
    } else {
      ToGraveyard(g, card, entry.controller, s);
    }
    assert RanThenGone(t, u, g.Now(), entry, r, g.seats);
  }

  method ResolveSpell(g: GameTable, entry: StackEntry, r: Resolving, ghost s: Snapshot) returns (ghost legal: seq<Id>)
    requires r.Sensible() && entry.content.Spell? && InTheAirOf(g, s, entry.controller, entry.content.card)
    modifies g, g.zones, g.stack
    ensures g.Valid() && Keeps(s, g.Snap(), g.zones.dealt)
    ensures legal == StillLegal(old(g.zones.field), old(g.players), r.filtered, entry.targets)
    ensures Resolved(old(g.Now()), g.Now(), entry, r, legal, g.seats)
  {
    var still := CheckTargets(g, r.filtered, entry.targets);
    legal := still;
    if entry.targets != [] && still == [] {
      ToGraveyard(g, entry.content.card, entry.controller, s);
    } else if entry.content.card.cardType in {Creature, Enchantment, Artifact, Planeswalker} {
      ToBattlefield(g, entry, still, r, s);
    } else {
      RunSpell(g, entry, r, s);
    }
  }

  /** An ability whose targets have all become illegal does nothing; any other does its effect. */
  method ResolveAbility(g: GameTable, entry: StackEntry, r: Resolving) returns (ghost legal: seq<Id>)
    requires g.Valid() && r.Sensible() && !entry.content.Spell?
    modifies g, g.zones, g.stack
    ensures g.Valid() && Keeps(old(g.Snap()), g.Snap(), g.zones.dealt)
    ensures legal == StillLegal(old(g.zones.field), old(g.players), r.filtered, entry.targets)
    ensures Resolved(old(g.Now()), g.Now(), entry, r, legal, g.seats)
  {
    var still := CheckTargets(g, r.filtered, entry.targets);
    legal := still;
    if entry.targets == [] || still != [] {
      g.RunEffect(r.effect);
    }
  }

  /** The top entry has left the stack. */
  function Popped(st: State): State
    requires st.s.entries != []
  {
    st.(s := st.s.(entries := st.s.entries[..|st.s.entries| - 1]))
  }

  /** The top entry has left the stack and resolved, with the targets that are still legal. */
  ghost predicate TopResolved(st: State, st': State, r: Resolving, seats: seq<Id>) {
    if st.s.entries == [] then st' == st
    else
      var entry, popped := st.s.entries[|st.s.entries| - 1], Popped(st);
      Resolved(popped, st', entry, r, StillLegal(popped.s.z.field, st.players, r.filtered, entry.targets), seats)
  }

  /** The top entry, the one with the greatest id, leaves the stack and resolves. */
  method ResolveTop(g: GameTable, r: Resolving) returns (entry: Option<StackEntry>)
    requires g.Valid() && r.Sensible()
    modifies g, g.zones, g.stack
    ensures g.Valid() && Keeps(old(g.Snap()), g.Snap(), g.zones.dealt)
    ensures entry.None? <==> old(g.stack.entries) == []
    ensures entry.Some? ==> entry.value == old(g.stack.entries)[|old(g.stack.entries)| - 1]
    ensures entry.Some? ==> forall e :: e in Popped(old(g.Now())).s.entries ==> e.id < entry.value.id
    ensures TopResolved(old(g.Now()), g.Now(), r, g.seats)
  {
    ghost var st := g.Now();
    entry := g.stack.ResolveTop();
    if entry.Some? {
      TopTaken(st, g.Now(), entry.value);
      ResolveEntry(g, entry.value, r, st);
    }
  }

  lemma TopTaken(st: State, popped: State, entry: StackEntry)
    requires popped == st.(s := st.s.(entries := popped.s.entries)) && st.s.entries == popped.s.entries + [entry]
    ensures st.s.entries != [] && popped == Popped(st) && entry == st.s.entries[|st.s.entries| - 1]
    ensures popped.s.entries == Without(st.s.entries, |st.s.entries| - 1)
  {}

  /** The rest of that, once the entry is off the stack. */
  method ResolveEntry(g: GameTable, entry: StackEntry, r: Resolving, ghost st: State)
    requires g.zones.Valid() && g.stack.Valid() && r.Sensible()
    requires TableOk(st.s, g.zones.dealt) && st.s.entries != [] && g.Now() == Popped(st)
    requires entry == st.s.entries[|st.s.entries| - 1]
    modifies g, g.zones, g.stack
    ensures g.Valid() && Keeps(st.s, g.Snap(), g.zones.dealt) && TopResolved(st, g.Now(), r, g.seats)
  {
    ghost var popped, i := g.Now(), |st.s.entries| - 1;
    TopTaken(st, popped, entry);
    EntryTaken(st.s, popped.s, g.zones.dealt, i);
    ghost var legal;
    if entry.content.Spell? {
      assert Aloft(st.s, popped.s, entry.content.card.id, g.zones.dealt);
      legal := ResolveSpell(g, entry, r, st.s);
    } else {
      assert Keeps(st.s, popped.s, g.zones.dealt);
      legal := ResolveAbility(g, entry, r);
      KeepsTwice(st.s, popped.s, g.Snap(), g.zones.dealt);
    }
  }
}
