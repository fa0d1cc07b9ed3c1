/** State-based actions: one pass over players, creatures, legends, attachments and counters, and the
    loop that repeats it until nothing applies (rule 704.3 of the Magic Comprehensive Rules). */
module StateBased {
  import opened Common
  import opened Permanents
  import opened Zones
  import opened ZoneManagement
  import opened Game

  // ---------- What each rule looks for ----------

  predicate Losing(p: Player) { !p.lost && (p.life <= 0 || p.poison >= 10 || p.failedToDraw) }

  predicate Dying(p: Permanent) {
    && p.IsCreature()
    && (p.Toughness() <= 0 || (!p.Has(Indestructible) && (p.HasLethalDamage() || p.deathtouched)))
  }

  datatype Legend = Legend(controller: Id, name: string)

  function LegendOf(p: Permanent): Legend { Legend(p.controller, p.card.name) }

  predicate Dangling(field: map<Id, Permanent>, p: Permanent) { p.attachedTo.Some? && p.attachedTo.value !in field }

  predicate Opposed(p: Permanent) { p.Counters(PlusOne) > 0 && p.Counters(MinusOne) > 0 }

  /** No rule applies: nobody has lost without being marked so, no creature is dying, nothing is attached to something
      that is gone or has counters that cancel, and no player controls two legends of a name. */
  ghost predicate Stable(field: map<Id, Permanent>, players: map<Id, Player>) {
    && (forall p :: p in players && !players[p].lost ==>
          players[p].life > 0 && players[p].poison < 10 && !players[p].failedToDraw)
    && (forall id :: id in field ==> AtRest(field, field[id]))
    && (forall i, j :: i in field && j in field && i != j && field[i].Has(Legendary) && field[j].Has(Legendary)
                       ==> field[i].controller != field[j].controller || field[i].card.name != field[j].card.name)
  }

  predicate AtRest(field: map<Id, Permanent>, p: Permanent) {
    && (p.card.cardType == Creature || p.animation.Some? ==>
          p.Toughness() > 0 && (p.Has(Indestructible) || (p.damage < p.Toughness() && !p.deathtouched)))
    && (p.attachedTo.Some? ==> p.attachedTo.value in field)
    && (p.Counters(PlusOne) <= 0 || p.Counters(MinusOne) <= 0)
  }

  // ---------- What one pass makes of players and battlefield ----------

  function Judged(players: map<Id, Player>): map<Id, Player> {
    map p | p in players :: if Losing(players[p]) then players[p].(lost := true) else players[p]
  }

  function Survivors(field: map<Id, Permanent>): map<Id, Permanent> {
    map id | id in field && !Dying(field[id]) :: field[id]
  }

  /** One legend is kept for every controller and name, the one its controller names if that is one of them. */
  ghost predicate Kept(field: map<Id, Permanent>, kept: map<Legend, Id>, choose: Legend -> Id) {
    && (forall id :: id in field && field[id].Has(Legendary) ==> LegendOf(field[id]) in kept)
    && (forall l :: l in kept ==> KeptFor(field, l, kept[l], choose(l)))
  }

  predicate IsLegend(field: map<Id, Permanent>, l: Legend, id: Id) {
    id in field && field[id].Has(Legendary) && LegendOf(field[id]) == l
  }

  predicate KeptFor(field: map<Id, Permanent>, l: Legend, keep: Id, answer: Id) {
    && IsLegend(field, l, keep)
    && (answer != 0 && IsLegend(field, l, answer) ==> keep == answer)
  }

  predicate Surplus(p: Permanent, id: Id, kept: map<Legend, Id>) {
    p.Has(Legendary) && LegendOf(p) in kept && kept[LegendOf(p)] != id
  }

  function OneOfEachLegend(field: map<Id, Permanent>, kept: map<Legend, Id>): map<Id, Permanent> {
    map id | id in field && !Surplus(field[id], id, kept) :: field[id]
  }

  function Loosened(field: map<Id, Permanent>): map<Id, Permanent> {
    map id | id in field && !(Dangling(field, field[id]) && field[id].card.cardType == Enchantment) ::
      if Dangling(field, field[id]) then field[id].(attachedTo := None) else field[id]
  }

  function Cancelled(field: map<Id, Permanent>): map<Id, Permanent> {
    map id | id in field :: if Opposed(field[id]) then field[id].CancelCounters() else field[id]
  }

  /** The legend rule, attachments and counters. */
  function Tidied(field: map<Id, Permanent>, kept: map<Legend, Id>): map<Id, Permanent> {
    Cancelled(Loosened(OneOfEachLegend(field, kept)))
  }

  // ---------- What leaves the battlefield, and where it goes ----------

  /** Permanents have left the battlefield: tokens are nowhere, other cards are in their owner's graveyard,
      and no other card has moved. */
  ghost predicate Fell(z: Zoning, y: Zoning) {
    && y.exile == z.exile && y.owner == z.owner
    && y.field.Keys <= z.field.Keys
    && (forall id :: id in y.field ==> SameCard(z.field[id], y.field[id]))
    && (forall pile: Pile :: OnlyYardsGrow(z.piles, y.piles, pile))
    && (forall id ::
         id in z.field && id !in y.field && !z.field[id].token ==>
           z.field[id].card in At(y.piles, Pile(Graveyard, z.field[id].owner)))
    && (forall id: Id :: Held(y, id) == if id in z.field && id !in y.field && z.field[id].token then 0 else Held(z, id))
  }

  /** Cards are added to graveyards; the other piles stay. */
  predicate OnlyYardsGrow(piles: Piles, later: Piles, pile: Pile) {
    if pile.zone == Graveyard then At(piles, pile) <= At(later, pile) else At(later, pile) == At(piles, pile)
  }

  predicate SameCard(p: Permanent, q: Permanent) { q.card == p.card && q.owner == p.owner && q.token == p.token }

  lemma FellTwice(z: Zoning, m: Zoning, y: Zoning)
    requires Fell(z, m) && Fell(m, y)
    ensures Fell(z, y)
  {
    forall pile: Pile ensures OnlyYardsGrow(z.piles, y.piles, pile) {
      assert OnlyYardsGrow(z.piles, m.piles, pile) && OnlyYardsGrow(m.piles, y.piles, pile);
      assert pile.zone == Graveyard ==> At(z.piles, pile) <= At(m.piles, pile) <= At(y.piles, pile);
    }
    forall id | id in z.field && id !in y.field && !z.field[id].token
      ensures z.field[id].card in At(y.piles, Pile(Graveyard, z.field[id].owner))
    {
      assert OnlyYardsGrow(m.piles, y.piles, Pile(Graveyard, z.field[id].owner));
    }
  }

  /** Every dealt card is still in exactly one place. */
  lemma FellKeeps(s: Snapshot, t: Snapshot, dealt: map<Id, Id>)
    requires TableOk(s, dealt) && Fell(s.z, t.z) && t == s.(z := t.z)
    ensures TableOk(t, dealt) && Keeps(s, t, dealt)
  {
    assert forall id: Id :: Total(t, id) <= Total(s, id);
    CountsStayOk(s, t, dealt, None);
    forall id | id in t.z.field && t.z.field[id].token ensures id in s.tokens {
      assert SameCard(s.z.field[id], t.z.field[id]);
    }
  }

  function SetOf(ids: seq<Id>): set<Id> { set id | id in ids }

  lemma SetOfMore(ids: seq<Id>, i: nat)
    requires i < |ids|
    ensures SetOf(ids[..i + 1]) == SetOf(ids[..i]) + {ids[i]}
  {
    assert ids[..i + 1] == ids[..i] + [ids[i]];
  }

  /** The permanents of a set have left, and the answer says whether there were any. */
  ghost predicate Buried(z: Zoning, y: Zoning, gone: set<Id>, applied: bool) {
    Fell(z, y) && y.field == z.field - gone && (applied <==> y.field != z.field) && (!applied ==> y == z)
  }

  lemma BuriedOneMore(z: Zoning, m: Zoning, y: Zoning, gone: set<Id>, id: Id, before: bool, now: bool)
    requires Buried(z, m, gone, before) && Buried(m, y, {id}, now)
    ensures Buried(z, y, gone + {id}, before || now)
  {
    FellTwice(z, m, y);
    if now {
      assert id in m.field;
      assert id in z.field && id !in y.field;
    }
  }

  lemma OneFell(z: Zoning, m: Zoning, y: Zoning, id: Id)
    requires id in z.field && Held(m, id) == 0 && Held(z, id) == 1 && Gains(m, z, Battlefield, id)
    requires m == z.(field := z.field - {id}, zone := m.zone)
    requires if z.field[id].token then y == m
             else var pile := Pile(Graveyard, z.field[id].owner);
                  && y == m.(piles := m.piles[pile := At(m.piles, pile) + [z.field[id].card]], zone := y.zone)
                  && Gains(m, y, Graveyard, id)
    ensures Buried(z, y, {id}, true)
  {
    assert id !in y.field;
  }

  method Bury(zones: ZoneManager, id: Id) returns (gone: bool)
    requires zones.Valid()
    modifies zones
    ensures zones.Valid() && Buried(old(zones.Value()), zones.Value(), {id}, gone)
    ensures gone <==> id in old(zones.field)
  {
    ghost var z := zones.Value();
    var p := zones.RemoveFromBattlefield(id);
    if p.None? {
      return false;
    }
    ghost var m := zones.Value();
    if !p.value.token {
      zones.AddToGraveyard(p.value.owner, p.value.card);
    }
    OneFell(z, m, zones.Value(), id);
    return true;
  }

  method BuryAll(zones: ZoneManager, ids: seq<Id>) returns (applied: bool)
    requires zones.Valid()
    modifies zones
    ensures zones.Valid() && Buried(old(zones.Value()), zones.Value(), SetOf(ids), applied)
  {
    ghost var z := zones.Value();
    ghost var gone: set<Id> := {};
    applied := false;
    for i := 0 to |ids|
      invariant zones.Valid() && Buried(z, zones.Value(), gone, applied)
      invariant gone == SetOf(ids[..i])
    {
      SetOfMore(ids, i);
      ghost var m := zones.Value();
      var one := Bury(zones, ids[i]);
      BuriedOneMore(z, m, zones.Value(), gone, ids[i], applied, one);
      applied := applied || one;
      gone := gone + {ids[i]};
    }
    assert gone == SetOf(ids);
  }

  // ---------- The rules, one after the other ----------

  method JudgePlayer(player: Player) returns (p: Player, applied: bool)
    ensures p == if Losing(player) then player.(lost := true) else player
    ensures applied <==> p != player
  {
    p, applied := player, false;
    if p.life <= 0 && !p.lost {
      p, applied := p.(lost := true), true;
    }
    if p.poison >= 10 && !p.lost {
      p, applied := p.(lost := true), true;
    }
    if p.failedToDraw && !p.lost {
      p, applied := p.(lost := true), true;
    }
  }

  method EliminatePlayers(g: GameTable) returns (applied: bool)
    modifies g`players
    ensures g.players == Judged(old(g.players)) && g.Snap() == old(g.Snap())
    ensures applied <==> g.players != old(g.players)
  {
    ghost var before := g.players;
    var players, todo := g.players, g.players.Keys;
    applied := false;
    while todo != {}
      invariant JudgedSoFar(before, players, todo, applied)
      decreases |todo|
    {
      var id :| id in todo;
      var p, one := JudgePlayer(players[id]);
      JudgedOneMore(before, players, todo, applied, id, p, one);
      todo := todo - {id};
      players := players[id := p];
      applied := applied || one;
    }
    JudgedAtLast(before, players, applied);
    g.players := players;
  }

  ghost predicate JudgedSoFar(before: map<Id, Player>, players: map<Id, Player>, todo: set<Id>, applied: bool) {
    && todo <= before.Keys == players.Keys
    && (forall p :: p in todo ==> players[p] == before[p])
    && (forall p :: p in before && p !in todo ==> players[p] == Judged(before)[p])
    && (applied <==> exists p :: p in before && players[p] != before[p])
  }

  lemma JudgedOneMore(before: map<Id, Player>, players: map<Id, Player>, todo: set<Id>, applied: bool, id: Id,
                      p: Player,
                      one: bool)
    requires JudgedSoFar(before, players, todo, applied) && id in todo
    requires p == Judged(before)[id] && (one <==> p != before[id])
    ensures JudgedSoFar(before, players[id := p], todo - {id}, applied || one)
  {
    var later := players[id := p];
    if applied {
      var q :| q in before && players[q] != before[q];
      assert later[q] != before[q];
    } else if one {
      assert later[id] != before[id];
    }
  }

  lemma JudgedAtLast(before: map<Id, Player>, players: map<Id, Player>, applied: bool)
    requires JudgedSoFar(before, players, {}, applied)
    ensures players == Judged(before) && (applied <==> players != before)
  {}

  /** Exactly the creatures that die, each once. */
  ghost predicate AreDying(field: map<Id, Permanent>, ids: seq<Id>) {
    && (forall id :: id in ids <==> id in field && Dying(field[id]))
    && (forall i, j :: 0 <= i < j < |ids| ==> ids[i] != ids[j])
  }

  /** The creatures that die, in the order the battlefield is walked. */
  method FindDying(field: map<Id, Permanent>) returns (ids: seq<Id>)
    ensures AreDying(field, ids)
  {
    ids := [];
    var todo := field.Keys;
    while todo != {}
      invariant todo <= field.Keys
      invariant forall id :: id in ids <==> id in field && id !in todo && Dying(field[id])
      invariant forall i, j :: 0 <= i < j < |ids| ==> ids[i] != ids[j]
      decreases |todo|
    {
      var id :| id in todo;
      todo := todo - {id};
      var p := field[id];
      if p.IsCreature() {
        if p.Toughness() <= 0 {
          ids := ids + [id];
        } else if !p.Has(Indestructible) {
          if p.HasLethalDamage() || p.deathtouched {
            ids := ids + [id];
          }
        }
      }
    }
  }

  method CreaturesDie(zones: ZoneManager) returns (dying: seq<Id>)
    requires zones.Valid()
    modifies zones
    ensures zones.Valid() && Fell(old(zones.Value()), zones.Value()) && AreDying(old(zones.field), dying)
    ensures zones.field == Survivors(old(zones.field))
    ensures dying == [] ==> zones.Value() == old(zones.Value())
  {
    ghost var z := zones.Value();
    dying := FindDying(zones.field);
    var applied := BuryAll(zones, dying);
    DyingGone(z, zones.Value(), dying, applied);
  }

  lemma DyingGone(z: Zoning, y: Zoning, dying: seq<Id>, applied: bool)
    requires AreDying(z.field, dying) && Buried(z, y, SetOf(dying), applied)
    ensures y.field == Survivors(z.field) && (dying == [] ==> y == z)
  {
    assert y.field == Survivors(z.field);
    if applied {
      var id :| id in z.field && id !in y.field;
      assert id in dying;
    }
  }

  // ---------- What the deaths set off ----------

  /** Those of some creatures that a player controls, or those that it does not, in order. */
  function Those(field: map<Id, Permanent>, ids: seq<Id>, player: Id, own: bool): seq<Id> {
    if ids == [] then []
    else
      var before, last := Those(field, ids[..|ids| - 1], player, own), ids[|ids| - 1];
      if last in field && (field[last].controller == player) == own then before + [last] else before
  }

  /** The active player's creatures first, otherwise in the order they were found. */
  function ActiveFirst(field: map<Id, Permanent>, ids: seq<Id>, active: Id): seq<Id> {
    Those(field, ids, active, true) + Those(field, ids, active, false)
  }

  /** One id stands before another in a list. */
  ghost predicate Precedes(ids: seq<Id>, x: Id, y: Id) {
    exists i, j :: 0 <= i < j < |ids| && ids[i] == x && ids[j] == y
  }

  /** Every dying creature has its turn once; those of the active player come before the others; and those on the same
      side keep the order in which they were found. */
  ghost predicate DeathOrder(field: map<Id, Permanent>, dying: seq<Id>, order: seq<Id>, active: Id) {
    && multiset(order) == multiset(dying)
    && (forall id :: id in order ==> id in field)
    && forall i, j :: 0 <= i < j < |order| ==>
         if (field[order[i]].controller == active) == (field[order[j]].controller == active)
         then Precedes(dying, order[i], order[j])
         else field[order[i]].controller == active
  }

  lemma {:induction false} ThoseAreInOrder(field: map<Id, Permanent>, ids: seq<Id>, player: Id, own: bool)
    ensures var some := Those(field, ids, player, own);
            && (forall id :: id in some ==> id in ids && id in field && (field[id].controller == player) == own)
            && forall i, j :: 0 <= i < j < |some| ==> Precedes(ids, some[i], some[j])
  {
    if ids == [] {
    } else {
      var n := |ids| - 1;
      ThoseAreInOrder(field, ids[..n], player, own);
      var some, before := Those(field, ids, player, own), Those(field, ids[..n], player, own);
      forall i, j | 0 <= i < j < |some| ensures Precedes(ids, some[i], some[j]) {
        if j < |before| {
          assert Precedes(ids[..n], before[i], before[j]);
          var a, b :| 0 <= a < b < n && ids[..n][a] == before[i] && ids[..n][b] == before[j];
          assert ids[a] == some[i] && ids[b] == some[j];
        } else {
          assert before[i] in ids[..n];
          var a :| 0 <= a < n && ids[a] == before[i];
          assert ids[a] == some[i] && ids[n] == some[j];
        }
      }
    }
  }

  lemma {:induction false} ThoseAndTheOthers(field: map<Id, Permanent>, ids: seq<Id>, player: Id)
    requires forall id :: id in ids ==> id in field
    ensures multiset(ActiveFirst(field, ids, player)) == multiset(ids)
  {
    if ids == [] {
    } else {
      var front := ids[..|ids| - 1];
      ThoseAndTheOthers(field, front, player);
      assert ids == front + [ids[|ids| - 1]] && ids[|ids| - 1] in field;
    }
  }

  /** The order of the effects of deaths is the one the rules ask for. */
  lemma ActiveFirstIsDeathOrder(field: map<Id, Permanent>, dying: seq<Id>, active: Id)
    requires forall id :: id in dying ==> id in field
    ensures DeathOrder(field, dying, ActiveFirst(field, dying, active), active)
  {
    ThoseAndTheOthers(field, dying, active);
    ThoseAreInOrder(field, dying, active, true);
    ThoseAreInOrder(field, dying, active, false);
  }

  /** On the fields: a creature dies without toughness, or, unless it is indestructible, with damage as high as its
      toughness or with a mark of deathtouch. */
  lemma DyingExactlyWhen(p: Permanent)
    ensures Dying(p) <==>
              && (p.card.cardType == Creature || p.animation.Some?)
              && (|| p.Toughness() <= 0
                  || (&& Indestructible !in p.granted && Indestructible !in p.card.keywords
                      && (p.damage >= p.Toughness() || p.deathtouched)))
  {}

  /** Every creature that dies in a pass sets off its effect once, and no other does. */
  lemma EachDeathOnce(field: map<Id, Permanent>, dying: seq<Id>, order: seq<Id>, active: Id, id: Id)
    requires AreDying(field, dying) && DeathOrder(field, dying, order, active)
    ensures multiset(order)[id] == if id in field && Dying(field[id]) then 1 else 0
  {
    if id in dying {
      var i :| 0 <= i < |dying| && dying[i] == id;
      assert dying == dying[..i] + [id] + dying[i + 1..];
      assert id !in dying[..i] && id !in dying[i + 1..];
    }
  }

  /** One creature after the other, in some order, has had its effect. */
  ghost predicate EffectsRan(order: seq<Id>, onDeath: Id -> seq<ContextCall>, seats: seq<Id>, trace: seq<State>) {
    && |trace| == |order| + 1
    && forall i :: 0 <= i < |order| ==> RanAll(onDeath(order[i]), seats, trace[i], trace[i + 1])
  }

  /** What the deaths of some creatures set off, one after the other, leads from one state to another. */
  ghost predicate DeathsRan(order: seq<Id>, onDeath: Id -> seq<ContextCall>, seats: seq<Id>, u: State, v: State) {
    exists trace :: EffectsRan(order, onDeath, seats, trace) && trace[0] == u && trace[|order|] == v
  }

  ghost predicate CallsWellFormed(calls: seq<ContextCall>) { forall i :: 0 <= i < |calls| ==> WellFormed(calls[i]) }

  method RunDeathEffects(g: GameTable, ids: seq<Id>, onDeath: Id -> seq<ContextCall>)
    requires g.Valid() && forall id: Id :: CallsWellFormed(onDeath(id))
    modifies g, g.zones, g.stack
    ensures g.Valid() && Keeps(old(g.Snap()), g.Snap(), g.zones.dealt)
    ensures DeathsRan(ids, onDeath, g.seats, old(g.Now()), g.Now())
  {
    ghost var st := g.Now();
    ghost var trace := [st];
    for i := 0 to |ids|
      invariant g.Valid() && Keeps(st.s, g.Snap(), g.zones.dealt)
      invariant EffectsRan(ids[..i], onDeath, g.seats, trace) && trace[0] == st && trace[i] == g.Now()
    {
      ghost var u := g.Now();
      assert CallsWellFormed(onDeath(ids[i]));
      g.RunEffect(onDeath(ids[i]));
      OneMoreDeath(ids, i, onDeath, g.seats, trace, g.Now());
      trace := trace + [g.Now()];
      KeepsTwice(st.s, u.s, g.Snap(), g.zones.dealt);
    }
    assert ids[..|ids|] == ids;
  }

  lemma OneMoreDeath(ids: seq<Id>, i: nat, onDeath: Id -> seq<ContextCall>, seats: seq<Id>, trace: seq<State>, v: State)
    requires i < |ids| && EffectsRan(ids[..i], onDeath, seats, trace) && RanAll(onDeath(ids[i]), seats, trace[i], v)
    ensures EffectsRan(ids[..i + 1], onDeath, seats, trace + [v])
  {
    var longer := trace + [v];
    forall k | 0 <= k < i + 1 ensures RanAll(onDeath(ids[..i + 1][k]), seats, longer[k], longer[k + 1]) {
      if k < i {
        assert ids[..i][k] == ids[k];
        assert RanAll(onDeath(ids[..i][k]), seats, trace[k], trace[k + 1]);
      }
    }
  }

  /** The legends by controller and name. */
  method GroupLegends(field: map<Id, Permanent>) returns (groups: map<Legend, seq<Id>>)
    ensures forall id :: id in field && field[id].Has(Legendary) ==> LegendOf(field[id]) in groups
    ensures forall l :: l in groups ==> groups[l] != [] && forall id :: id in groups[l] <==> IsLegend(field, l, id)
  {
    groups := map[];
    var todo := field.Keys;
    while todo != {}
      invariant todo <= field.Keys
      invariant forall id :: id in field && id !in todo && field[id].Has(Legendary) ==> LegendOf(field[id]) in groups
      invariant forall l :: l in groups ==>
                  groups[l] != [] && forall id :: id in groups[l] <==> id !in todo && IsLegend(field, l, id)
      decreases |todo|
    {
      var id :| id in todo;
      todo := todo - {id};
      if field[id].Has(Legendary) {
        var l := LegendOf(field[id]);
        groups := groups[l := (if l in groups then groups[l] else []) + [id]];
      }
    }
  }

  /** A legend is looked up again before it goes, in case it is no longer what it was. */
  method BuryLegend(zones: ZoneManager, l: Legend, id: Id) returns (gone: bool)
    requires zones.Valid() && (id in zones.field ==> LegendOf(zones.field[id]) == l)
    modifies zones
    ensures zones.Valid() && Buried(old(zones.Value()), zones.Value(), {id}, gone)
  {
    if id !in zones.field || LegendOf(zones.field[id]) != l {
      return false;
    }
    gone := Bury(zones, id);
  }

  /** All of one group but the one that is kept. */
  method BuryOthers(zones: ZoneManager, l: Legend, ids: seq<Id>, keep: Id) returns (applied: bool)
    requires zones.Valid()
    requires forall id :: id in ids && id in zones.field ==> LegendOf(zones.field[id]) == l
    modifies zones
    ensures zones.Valid() && Buried(old(zones.Value()), zones.Value(), SetOf(ids) - {keep}, applied)
  {
    ghost var z := zones.Value();
    ghost var gone: set<Id> := {};
    applied := false;
    for i := 0 to |ids|
      invariant zones.Valid() && Buried(z, zones.Value(), gone, applied)
      invariant gone == SetOf(ids[..i]) - {keep}
    {
      SetOfMore(ids, i);
      var id := ids[i];
      if id != keep {
        ghost var m := zones.Value();
        var one := BuryLegend(zones, l, id);
        BuriedOneMore(z, m, zones.Value(), gone, id, applied, one);
        applied := applied || one;
        gone := gone + {id};
      }
    }
    assert gone == SetOf(ids) - {keep};
  }

  /** How far the walk over the groups has come. */
  ghost predicate LegendsSoFar(z: Zoning, y: Zoning, kept: map<Legend, Id>, choose: Legend -> Id, applied: bool) {
    && Fell(z, y) && y.field == OneOfEachLegend(z.field, kept)
    && (forall l :: l in kept ==> KeptFor(z.field, l, kept[l], choose(l)))
    && (applied <==> y.field != z.field) && (!applied ==> y == z)
  }

  lemma OneMoreGroup(z: Zoning, m: Zoning, y: Zoning, kept: map<Legend, Id>, l: Legend, ids: seq<Id>, keep: Id,
                     choose: Legend -> Id, before: bool, now: bool)
    requires LegendsSoFar(z, m, kept, choose, before) && l !in kept && KeptFor(z.field, l, keep, choose(l))
    requires keep in ids && forall id :: id in ids <==> IsLegend(z.field, l, id)
    requires if |ids| > 1 then Buried(m, y, SetOf(ids) - {keep}, now) else y == m && !now
    ensures LegendsSoFar(z, y, kept[l := keep], choose, before || now)
  {
    OneMoreLegend(z.field, kept, l, ids, keep);
    if |ids| > 1 {
      FellTwice(z, m, y);
      if now {
        var gone :| gone in m.field && gone !in y.field;
        assert gone in z.field;
      }
    }
  }

  /** The answer, if it is one of several; the first one otherwise. */
  function KeepOf(ids: seq<Id>, answer: Id): (keep: Id)
    requires ids != []
    ensures keep in ids && (answer != 0 && answer in ids ==> keep == answer)
  {
    if |ids| > 1 && answer != 0 && answer in ids then answer else ids[0]
  }

  /** The rule for one controller and name: a prompt if there are several, and then all but the answer go. */
  method SettleGroup(zones: ZoneManager, l: Legend, ids: seq<Id>, answer: Id) returns (applied: bool, keep: Id)
    requires zones.Valid() && ids != []
    requires forall id :: id in ids && id in zones.field ==> LegendOf(zones.field[id]) == l
    modifies zones
    ensures zones.Valid() && keep == KeepOf(ids, answer)
    ensures if |ids| > 1 then Buried(old(zones.Value()), zones.Value(), SetOf(ids) - {keep}, applied)
            else zones.Value() == old(zones.Value()) && !applied
  {
    applied, keep := false, ids[0];
    if |ids| > 1 {
      if answer != 0 && answer in ids {
        keep := answer;
      }
      applied := BuryOthers(zones, l, ids, keep);
    }
  }

  method LegendRule(zones: ZoneManager, choose: Legend -> Id) returns (applied: bool, ghost kept: map<Legend, Id>)
    requires zones.Valid()
    modifies zones
    ensures zones.Valid() && Fell(old(zones.Value()), zones.Value())
    ensures Kept(old(zones.field), kept, choose) && zones.field == OneOfEachLegend(old(zones.field), kept)
    ensures applied <==> zones.field != old(zones.field)
    ensures !applied ==> zones.Value() == old(zones.Value())
  {
    ghost var z := zones.Value();
    var groups := GroupLegends(zones.field);
    var todo := groups.Keys;
    applied, kept := false, map[];
    assert OneOfEachLegend(z.field, kept) == z.field;
    while todo != {}
      invariant zones.Valid() && LegendsSoFar(z, zones.Value(), kept, choose, applied)
      invariant todo <= groups.Keys && kept.Keys == groups.Keys - todo
      decreases |todo|
    {
      var l :| l in todo;
      todo := todo - {l};
      ghost var m := zones.Value();
      var some, keep := SettleGroup(zones, l, groups[l], choose(l));
      OneMoreGroup(z, m, zones.Value(), kept, l, groups[l], keep, choose, applied, some);
      applied := applied || some;
      kept := kept[l := keep];
    }
  }

  lemma OneMoreLegend(field: map<Id, Permanent>, kept: map<Legend, Id>, l: Legend, ids: seq<Id>, keep: Id)
    requires l !in kept && keep in ids && forall id :: id in ids <==> IsLegend(field, l, id)
    ensures OneOfEachLegend(field, kept[l := keep]) == OneOfEachLegend(field, kept) - (SetOf(ids) - {keep})
    ensures |ids| <= 1 ==> OneOfEachLegend(field, kept[l := keep]) == OneOfEachLegend(field, kept)
  {
  }

  /** What is attached to nothing: auras and the rest. */
  method FindDangling(field: map<Id, Permanent>) returns (auras: seq<Id>, equipment: seq<Id>)
    ensures forall id :: id in auras <==>
              id in field && Dangling(field, field[id]) && field[id].card.cardType == Enchantment
    ensures forall id :: id in equipment <==>
              id in field && Dangling(field, field[id]) && field[id].card.cardType != Enchantment
  {
    auras, equipment := [], [];
    var todo := field.Keys;
    while todo != {}
      invariant todo <= field.Keys
      invariant forall id :: id in auras <==>
                  id in field && id !in todo && Dangling(field, field[id]) && field[id].card.cardType == Enchantment
      invariant forall id :: id in equipment <==>
                  id in field && id !in todo && Dangling(field, field[id]) && field[id].card.cardType != Enchantment
      decreases |todo|
    {
      var id :| id in todo;
      todo := todo - {id};
      if field[id].attachedTo.Some? && field[id].attachedTo.value !in field {
        if field[id].card.cardType == Enchantment {
          auras := auras + [id];
        } else {
          equipment := equipment + [id];
        }
      }
    }
  }

  // ---------- Attachments and counters ----------

  /** The permanents of a set have each changed as a function says, and no other permanent has. */
  ghost predicate Rewritten(field: map<Id, Permanent>, later: map<Id, Permanent>, ids: set<Id>,
                            how: Permanent -> Permanent) {
    && later.Keys == field.Keys
    && forall id :: id in field ==> later[id] == if id in ids then how(field[id]) else field[id]
  }

  function Detached(p: Permanent): Permanent { p.(attachedTo := None) }

  function WithoutPairs(p: Permanent): Permanent { if Opposed(p) then p.CancelCounters() else p }

  lemma RewrittenOneMore(field: map<Id, Permanent>, m: map<Id, Permanent>, ids: set<Id>, how: Permanent -> Permanent,
                         id: Id)
    requires Rewritten(field, m, ids, how) && id in field
    ensures Rewritten(field, m[id := how(field[id])], ids + {id}, how)
  {}

  lemma RewrittenFell(z: Zoning, y: Zoning, ids: set<Id>, how: Permanent -> Permanent)
    requires y == z.(field := y.field) && Rewritten(z.field, y.field, ids, how)
    requires forall p: Permanent :: SameCard(p, how(p))
    ensures Fell(z, y)
  {
    forall id | id in y.field ensures SameCard(z.field[id], y.field[id]) {
      assert SameCard(z.field[id], how(z.field[id]));
    }
  }

  lemma DetachOneMore(field: map<Id, Permanent>, m: map<Id, Permanent>, ids: seq<Id>, i: nat)
    requires i < |ids| && ids[i] in field && Rewritten(field, m, SetOf(ids[..i]), Detached)
    ensures Rewritten(field, m[ids[i] := Detached(m[ids[i]])], SetOf(ids[..i + 1]), Detached)
  {
    assert SetOf(ids[..i + 1]) == SetOf(ids[..i]) + {ids[i]};
    RewrittenOneMore(field, m, SetOf(ids[..i]), Detached, ids[i]);
  }

  method DetachAll(zones: ZoneManager, ids: seq<Id>) returns (applied: bool)
    requires zones.Valid() && forall id :: id in ids ==> id in zones.field
    modifies zones
    ensures zones.Valid() && zones.Value() == old(zones.Value()).(field := zones.field)
    ensures Rewritten(old(zones.field), zones.field, SetOf(ids), Detached)
    ensures applied <==> ids != []
  {
    ghost var field := zones.field;
    applied := false;
    assert SetOf(ids[..0]) == {};
    for i := 0 to |ids|
      invariant zones.Valid() && zones.Value() == old(zones.Value()).(field := zones.field)
      invariant Rewritten(field, zones.field, SetOf(ids[..i]), Detached)
      invariant applied <==> i > 0
    {
      DetachOneMore(field, zones.field, ids, i);
      zones.Update(ids[i], Detached(zones.field[ids[i]]));
      applied := true;
    }
    assert ids[..|ids|] == ids;
  }

  method Attachments(zones: ZoneManager) returns (applied: bool)
    requires zones.Valid()
    modifies zones
    ensures zones.Valid() && Fell(old(zones.Value()), zones.Value())
    ensures zones.field == Loosened(old(zones.field))
    ensures applied <==> zones.field != old(zones.field)
    ensures !applied ==> zones.Value() == old(zones.Value())
  {
    ghost var z := zones.Value();
    var auras, equipment := FindDangling(zones.field);
    var loose := DetachAll(zones, equipment);
    ghost var m := zones.Value();
    var fallen := BuryAll(zones, auras);
    AttachmentsDone(z, m, zones.Value(), auras, equipment, loose, fallen);
    applied := loose || fallen;
  }

  lemma AttachmentsDone(z: Zoning, m: Zoning, y: Zoning, auras: seq<Id>, equipment: seq<Id>, loose: bool, fallen: bool)
    requires forall id :: id in auras <==>
               id in z.field && Dangling(z.field, z.field[id]) && z.field[id].card.cardType == Enchantment
    requires forall id :: id in equipment <==>
               id in z.field && Dangling(z.field, z.field[id]) && z.field[id].card.cardType != Enchantment
    requires m == z.(field := m.field) && Rewritten(z.field, m.field, SetOf(equipment), Detached)
             && (loose <==> equipment != [])
    requires Buried(m, y, SetOf(auras), fallen)
    ensures Fell(z, y) && y.field == Loosened(z.field)
    ensures loose || fallen <==> y.field != z.field
    ensures !(loose || fallen) ==> y == z
  {
    RewrittenFell(z, m, SetOf(equipment), Detached);
    FellTwice(z, m, y);
    LoosenedInTwoSteps(z.field, m.field, y.field, auras, equipment);
    assert !loose ==> m.field == z.field;
  }

  lemma LoosenedInTwoSteps(f: map<Id, Permanent>, m: map<Id, Permanent>, g: map<Id, Permanent>, auras: seq<Id>,
                           equipment: seq<Id>)
    requires forall id :: id in auras <==> id in f && Dangling(f, f[id]) && f[id].card.cardType == Enchantment
    requires forall id :: id in equipment <==> id in f && Dangling(f, f[id]) && f[id].card.cardType != Enchantment
    requires Rewritten(f, m, SetOf(equipment), Detached) && g == m - SetOf(auras)
    ensures g == Loosened(f)
    ensures equipment != [] ==> g != f
    ensures g != m ==> g != f
  {
    assert g == Loosened(f);
    if equipment != [] {
      var id := equipment[0];
      assert id in f && id !in auras && f[id].attachedTo.Some?;
      assert g[id] == Detached(f[id]);
    }
    assert g.Keys <= m.Keys == f.Keys;
  }

  method Counters(zones: ZoneManager) returns (applied: bool)
    requires zones.Valid()
    modifies zones
    ensures zones.Valid() && Fell(old(zones.Value()), zones.Value())
    ensures zones.field == Cancelled(old(zones.field))
    ensures applied <==> zones.field != old(zones.field)
    ensures !applied ==> zones.Value() == old(zones.Value())
  {
    ghost var z := zones.Value();
    var todo := zones.field.Keys;
    applied := false;
    while todo != {}
      invariant zones.Valid() && zones.Value() == z.(field := zones.field)
      invariant CancelledSoFar(z.field, zones.field, todo, applied)
      decreases |todo|
    {
      var id :| id in todo;
      CancelOneMore(z.field, zones.field, todo, applied, id);
      todo := todo - {id};
      var one := CancelOne(zones, id);
      applied := applied || one;
    }
    CancelledDone(z, zones.Value(), applied);
  }

  lemma CancelledDone(z: Zoning, y: Zoning, applied: bool)
    requires y == z.(field := y.field) && CancelledSoFar(z.field, y.field, {}, applied)
    ensures Fell(z, y) && y.field == Cancelled(z.field)
  {
    RewrittenFell(z, y, z.field.Keys - {}, WithoutPairs);
    assert y.field == Cancelled(z.field);
  }

  ghost predicate CancelledSoFar(field: map<Id, Permanent>, later: map<Id, Permanent>, todo: set<Id>, applied: bool) {
    todo <= field.Keys && Rewritten(field, later, field.Keys - todo, WithoutPairs) && (applied <==> later != field)
  }

  lemma CancelOneMore(field: map<Id, Permanent>, later: map<Id, Permanent>, todo: set<Id>, applied: bool, id: Id)
    requires CancelledSoFar(field, later, todo, applied) && id in todo
    ensures later[id] == field[id]
    ensures CancelledSoFar(field, later[id := WithoutPairs(field[id])], todo - {id}, applied || Opposed(field[id]))
  {
    var next := later[id := WithoutPairs(field[id])];
    if Opposed(field[id]) {
      assert !Opposed(next[id]);
    } else if applied {
      var x :| x in field && later[x] != field[x];
      assert next[x] == later[x];
    } else {
      assert next == field;
    }
  }

  method CancelOne(zones: ZoneManager, id: Id) returns (applied: bool)
    requires zones.Valid() && id in zones.field
    modifies zones
    ensures zones.Valid() && zones.Value() == old(zones.Value()).(field := zones.field)
    ensures zones.field == old(zones.field)[id := WithoutPairs(old(zones.field)[id])]
    ensures applied <==> Opposed(old(zones.field)[id])
  {
    var p := zones.field[id];
    applied := p.Counters(PlusOne) > 0 && p.Counters(MinusOne) > 0;
    if applied {
      zones.Update(id, p.CancelCounters());
    } else {
      assert zones.field[id := p] == zones.field;
    }
  }

  // ---------- What a pass means ----------

  /** A permanent leaves in a pass only for a reason: it is dying; or an effect set off by a death takes it away; or it
      is a legend of which its controller keeps another; or it is an aura attached to nothing that has outlived the
      legend rule. */
  lemma OnlyTheDoomedLeave(field: map<Id, Permanent>, later: map<Id, Permanent>, kept: map<Legend, Id>,
                           choose: Legend -> Id, id: Id)
    requires Kept(later, kept, choose) && id in field && id !in Tidied(later, kept)
    ensures
      || Dying(field[id])
      || (id in Survivors(field) && id !in later)
      || (id in later && later[id].Has(Legendary)
          && exists other ::
            && other != id && other in later && later[other].Has(Legendary)
            && later[other].controller == later[id].controller && later[other].card.name == later[id].card.name)
      || (id in later && later[id].card.cardType == Enchantment && later[id].attachedTo.Some?
          && later[id].attachedTo.value !in OneOfEachLegend(later, kept))
  {
    if id in later && Surplus(later[id], id, kept) {
      var other := kept[LegendOf(later[id])];
      assert KeptFor(later, LegendOf(later[id]), other, choose(LegendOf(later[id])));
      assert IsLegend(later, LegendOf(later[id]), other);
    }
  }

  /** Who is no surplus legend and no aura without its permanent stays, as strong as before; and of every group of
      legends exactly one outlives the legend rule. */
  lemma TheOthersStay(field: map<Id, Permanent>, kept: map<Legend, Id>, choose: Legend -> Id, id: Id)
    requires Kept(field, kept, choose) && id in Tidied(field, kept)
    ensures id in field && !Opposed(Tidied(field, kept)[id])
    ensures Tidied(field, kept)[id].Power() == field[id].Power()
            && Tidied(field, kept)[id].Toughness() == field[id].Toughness()
    ensures field[id].Has(Legendary) ==>
              forall other ::
                && other in Tidied(field, kept) && field[other].Has(Legendary)
                && field[other].controller == field[id].controller && field[other].card.name == field[id].card.name
                ==> other == id
  {
  }

  /** A legend that its controller has named, and that is one of several of that name, is the one that stays. */
  lemma TheNamedLegendStays(field: map<Id, Permanent>, kept: map<Legend, Id>, choose: Legend -> Id, id: Id)
    requires Kept(field, kept, choose) && id in field && field[id].Has(Legendary) && id != 0
    requires choose(Legend(field[id].controller, field[id].card.name)) == id
    ensures id in OneOfEachLegend(field, kept)
  {
    assert IsLegend(field, LegendOf(field[id]), id);
  }

  /** Of what has outlived the legend rule, an aura without its permanent leaves, anything else without its permanent is
      detached, and the rest stays as it was attached. */
  lemma WhatIsLoose(field: map<Id, Permanent>, kept: map<Legend, Id>, id: Id)
    requires id in OneOfEachLegend(field, kept)
    ensures var later, target := Tidied(field, kept), field[id].attachedTo;
            var loose := target.Some? && target.value !in OneOfEachLegend(field, kept);
            && (id in later <==> !(loose && field[id].card.cardType == Enchantment))
            && (id in later ==> later[id].attachedTo == if loose then None else target)
            && (id in later ==> later[id] == field[id].(attachedTo := later[id].attachedTo,
                                                        counters := later[id].counters))
  {}

  // ---------- Every pass that applies something makes the game smaller ----------

  function Pairs(p: Permanent): nat {
    if !Opposed(p) then 0
    else if p.Counters(PlusOne) < p.Counters(MinusOne) then p.Counters(PlusOne) else p.Counters(MinusOne)
  }

  function Weight(p: Permanent): nat { 1 + (if p.attachedTo.Some? then 1 else 0) + Pairs(p) }

  /** Permanents, attached permanents and pairs of opposed counters. */
  ghost function TotalWeight(field: map<Id, Permanent>): nat
    decreases |field|
  {
    if field == map[] then 0
    else
      var id :| id in field;
      Weight(field[id]) + TotalWeight(field - {id})
  }

  lemma {:induction false} WeightWithoutOne(field: map<Id, Permanent>, id: Id)
    requires id in field
    ensures TotalWeight(field) == Weight(field[id]) + TotalWeight(field - {id})
    decreases |field|
  {
    var first :| first in field && TotalWeight(field) == Weight(field[first]) + TotalWeight(field - {first});
    if first == id {
    } else {
      WeightWithoutOne(field - {first}, id);
      WeightWithoutOne(field - {id}, first);
      assert field - {first} - {id} == field - {id} - {first};
    }
  }

  /** Permanents may have left, and whatever has changed has become lighter. */
  ghost predicate Lessened(field: map<Id, Permanent>, later: map<Id, Permanent>) {
    && later.Keys <= field.Keys
    && forall id :: id in later ==> later[id] == field[id] || Weight(later[id]) < Weight(field[id])
  }

  lemma {:induction false} LessWeighsLess(field: map<Id, Permanent>, later: map<Id, Permanent>)
    requires Lessened(field, later)
    ensures TotalWeight(later) <= TotalWeight(field)
    ensures later != field ==> TotalWeight(later) < TotalWeight(field)
    decreases |field|
  {
    if field == map[] {
      assert later == map[];
    } else {
      var id :| id in field;
      WeightWithoutOne(field, id);
      if id in later {
        WeightWithoutOne(later, id);
        LessWeighsLess(field - {id}, later - {id});
        if later[id] == field[id] {
          DifferElsewhere(field, later, id);
        }
      } else {
        LessWeighsLess(field - {id}, later);
      }
    }
  }

  lemma DifferElsewhere(field: map<Id, Permanent>, later: map<Id, Permanent>, id: Id)
    requires id in field && id in later && later[id] == field[id]
    ensures later - {id} == field - {id} ==> later == field
  {
    assert later == (later - {id})[id := later[id]] && field == (field - {id})[id := field[id]];
  }

  lemma PassLessens(field: map<Id, Permanent>, kept: map<Legend, Id>)
    ensures Lessened(field, Tidied(Survivors(field), kept))
  {
    var alive := Survivors(field);
    var unique := OneOfEachLegend(alive, kept);
    StepsLessen(alive, unique, kept);
    LessenedTwice(alive, unique, Loosened(unique));
    LessenedTwice(alive, Loosened(unique), Tidied(alive, kept));
    LessenedTwice(field, alive, Tidied(alive, kept));
  }

  lemma LessenedTwice(f: map<Id, Permanent>, g: map<Id, Permanent>, h: map<Id, Permanent>)
    requires Lessened(f, g) && Lessened(g, h)
    ensures Lessened(f, h)
  {}

  function Living(players: map<Id, Player>): set<Id> { set p | p in players && !players[p].lost }

  lemma FewerAlive(players: map<Id, Player>)
    ensures |Living(Judged(players))| <= |Living(players)|
    ensures Judged(players) != players ==> |Living(Judged(players))| < |Living(players)|
  {
    SubsetIsSmaller(Living(Judged(players)), Living(players));
    if Judged(players) != players {
      var p :| p in players && Losing(players[p]);
      assert p in Living(players) && p !in Living(Judged(players));
    }
  }

  lemma {:induction false} SubsetIsSmaller(a: set<Id>, b: set<Id>)
    requires a <= b
    ensures |a| <= |b| && (a != b ==> |a| < |b|)
  {
    assert b == a + (b - a);
    if a != b {
      assert b - a != {};
    }
  }

  // ---------- One pass, and the loop ----------

  /** Live players, permanents, attached permanents and pairs of opposed counters. */
  ghost function Measure(field: map<Id, Permanent>, players: map<Id, Player>): nat {
    |Living(players)| + TotalWeight(field)
  }

  /** A pass that changes nothing found nothing to do. */
  lemma NothingChangedIsStable(field: map<Id, Permanent>, players: map<Id, Player>, kept: map<Legend, Id>,
                               choose: Legend -> Id)
    requires Survivors(field) == field && Kept(field, kept, choose) && OneOfEachLegend(field, kept) == field
    requires Loosened(field) == field && Cancelled(field) == field && Judged(players) == players
    ensures Stable(field, players)
  {
    forall id | id in field ensures AtRest(field, field[id]) {
      assert id in Survivors(field);
      assert id in Loosened(field) && Loosened(field)[id] == field[id];
      assert Cancelled(field)[id] == field[id];
    }
    forall p | p in players ensures !Losing(players[p]) {
      assert Judged(players)[p] == players[p];
    }
    forall id | id in field ensures !Surplus(field[id], id, kept) {
      assert id in OneOfEachLegend(field, kept);
    }
  }

  /** The legend rule, attachments and counters, on the battlefield that the deaths have left. */
  method TidyField(zones: ZoneManager, choose: Legend -> Id) returns (applied: bool, ghost kept: map<Legend, Id>)
    requires zones.Valid()
    modifies zones
    ensures zones.Valid() && Fell(old(zones.Value()), zones.Value())
    ensures Kept(old(zones.field), kept, choose) && zones.field == Tidied(old(zones.field), kept)
    ensures applied <==> zones.field != old(zones.field)
    ensures !applied ==> zones.Value() == old(zones.Value()) && NothingToTidy(old(zones.field), kept)
  {
    ghost var z1 := zones.Value();
    var surplus;
    surplus, kept := LegendRule(zones, choose);
    ghost var z2 := zones.Value();
    var loose := Attachments(zones);
    ghost var z3 := zones.Value();
    var paired := Counters(zones);
    applied := surplus || loose || paired;
    FellTwice(z1, z2, z3);
    FellTwice(z1, z3, zones.Value());
    StepsLessen(z1.field, z2.field, kept);
    ThreeSteps(z1.field, z2.field, z3.field, zones.field);
  }

  ghost predicate NothingToTidy(field: map<Id, Permanent>, kept: map<Legend, Id>) {
    OneOfEachLegend(field, kept) == field && Loosened(field) == field && Cancelled(field) == field
  }

  lemma StepsLessen(f1: map<Id, Permanent>, f2: map<Id, Permanent>, kept: map<Legend, Id>)
    ensures Lessened(f1, OneOfEachLegend(f1, kept))
    ensures Lessened(f2, Loosened(f2)) && Lessened(Loosened(f2), Cancelled(Loosened(f2)))
  {}

  lemma ThreeSteps(f1: map<Id, Permanent>, f2: map<Id, Permanent>, f3: map<Id, Permanent>, f4: map<Id, Permanent>)
    requires Lessened(f1, f2) && Lessened(f2, f3) && Lessened(f3, f4)
    ensures f4 == f1 <==> f2 == f1 && f3 == f2 && f4 == f3
  {
    LessWeighsLess(f1, f2);
    LessWeighsLess(f2, f3);
    LessWeighsLess(f3, f4);
  }

  /** Players are judged and creatures die; then what the deaths set off happens; then the rest of the battlefield is
      put in order. */
  ghost predicate PassSteps(st: State, u: State, v: State, st': State, dying: seq<Id>, order: seq<Id>,
                            kept: map<Legend, Id>, pass: Pass, seats: seq<Id>, applied: bool)
  {
    && AreDying(st.s.z.field, dying) && JudgedAndBuried(st, u)
    && DeathOrder(st.s.z.field, dying, order, pass.active) && DeathsRan(order, pass.onDeath, seats, u, v)
    && TidiedUp(v, st', kept, pass.choose)
    && (applied <==> Judged(st.players) != st.players || dying != [] || st'.s.z.field != v.s.z.field)
  }

  /** The first part of a pass, and the last. */
  ghost predicate JudgedAndBuried(st: State, u: State) {
    && u == st.(s := st.s.(z := u.s.z), players := Judged(st.players))
    && Fell(st.s.z, u.s.z) && u.s.z.field == Survivors(st.s.z.field)
  }

  ghost predicate TidiedUp(v: State, st': State, kept: map<Legend, Id>, choose: Legend -> Id) {
    && st' == v.(s := v.s.(z := st'.s.z)) && Fell(v.s.z, st'.s.z)
    && Kept(v.s.z.field, kept, choose) && st'.s.z.field == Tidied(v.s.z.field, kept)
  }

  /** What a pass depends on: the answers about legends, the active player, and what each death sets off. */
  datatype Pass = Pass(choose: Legend -> Id, active: Id, onDeath: Id -> seq<ContextCall>)
  {
    ghost predicate Sensible() { forall id: Id :: CallsWellFormed(onDeath(id)) }
  }

  ghost predicate PassDone(st: State, st': State, pass: Pass, seats: seq<Id>, applied: bool) {
    exists u, v, dying, order, kept :: PassSteps(st, u, v, st', dying, order, kept, pass, seats, applied)
  }

  /** One pass. It changes nothing exactly when nothing applies. */
  method CheckAndApply(g: GameTable, pass: Pass) returns (applied: bool)
    requires g.Valid() && pass.Sensible()
    modifies g, g.zones, g.stack
    ensures g.Valid() && Keeps(old(g.Snap()), g.Snap(), g.zones.dealt)
    ensures PassDone(old(g.Now()), g.Now(), pass, g.seats, applied)
    ensures !applied ==> g.Now() == old(g.Now()) && Stable(g.zones.field, g.players)
  {
    ghost var st := g.Now();
    var out, dying, order := Eliminate(g, pass);
    ghost var u := g.Now();
    RunDeathEffects(g, order, pass.onDeath);
    ghost var v := g.Now();
    var moved;
    ghost var kept;
    moved, kept := TidyField(g.zones, pass.choose);
    ghost var w := g.Now();
    FellKeeps(v.s, w.s, g.zones.dealt);
    KeepsTwice(st.s, u.s, v.s, g.zones.dealt);
    KeepsTwice(st.s, v.s, w.s, g.zones.dealt);
    applied := out || dying != [] || moved;
    assert PassSteps(st, u, v, w, dying, order, kept, pass, g.seats, applied);
    if !applied {
      RanNothingElse(pass.onDeath, g.seats, u, v);
      QuietIsStable(st, u, v, w, kept, pass.choose);
    }
  }

  /** The first half of a pass: players are eliminated, creatures die. */
  method Eliminate(g: GameTable, pass: Pass) returns (out: bool, dying: seq<Id>, order: seq<Id>)
    requires g.Valid()
    modifies g`players, g.zones
    ensures g.Valid() && Keeps(old(g.Snap()), g.Snap(), g.zones.dealt) && JudgedAndBuried(old(g.Now()), g.Now())
    ensures AreDying(old(g.zones.field), dying) && DeathOrder(old(g.zones.field), dying, order, pass.active)
    ensures out <==> Judged(old(g.players)) != old(g.players)
    ensures !out && dying == [] ==> g.Now() == old(g.Now())
    ensures dying == [] ==> order == []
  {
    ghost var s := g.Snap();
    var field := g.zones.field;
    out := EliminatePlayers(g);
    dying := CreaturesDie(g.zones);
    order := ActiveFirst(field, dying, pass.active);
    ActiveFirstIsDeathOrder(field, dying, pass.active);
    FellKeeps(s, g.Snap(), g.zones.dealt);
  }

  lemma RanNothingElse(onDeath: Id -> seq<ContextCall>, seats: seq<Id>, u: State, v: State)
    requires DeathsRan([], onDeath, seats, u, v)
    ensures v == u
  {}

  lemma QuietIsStable(st: State, u: State, v: State, w: State, kept: map<Legend, Id>, choose: Legend -> Id)
    requires u == st && v == u && w == v && JudgedAndBuried(st, u) && TidiedUp(v, w, kept, choose)
    requires NothingToTidy(v.s.z.field, kept)
    ensures Stable(w.s.z.field, w.players)
  {
    NothingChangedIsStable(st.s.z.field, st.players, kept, choose);
  }

  // ---------- Passes without effects ----------

  /** No death sets anything off. */
  ghost predicate Silent(pass: Pass) { forall id: Id :: pass.onDeath(id) == [] }

  lemma {:induction false} SilentDeaths(order: seq<Id>, onDeath: Id -> seq<ContextCall>, seats: seq<Id>,
                                        trace: seq<State>, n: nat)
    requires EffectsRan(order, onDeath, seats, trace) && n <= |order| && forall id: Id :: onDeath(id) == []
    ensures trace[n] == trace[0]
  {
    if n == 0 {
    } else {
      SilentDeaths(order, onDeath, seats, trace, n - 1);
      assert RanAll(onDeath(order[n - 1]), seats, trace[n - 1], trace[n - 1 + 1]);
    }
  }

  /** Then a pass only takes permanents away or makes them lighter, and eliminates players; if it applies anything the
      game is smaller afterwards. */
  lemma SilentPass(st: State, st': State, pass: Pass, seats: seq<Id>, applied: bool)
    requires PassDone(st, st', pass, seats, applied) && Silent(pass)
    ensures st' == st.(s := st.s.(z := st'.s.z), players := Judged(st.players)) && Fell(st.s.z, st'.s.z)
    ensures exists kept :: Kept(Survivors(st.s.z.field), kept, pass.choose)
               && st'.s.z.field == Tidied(Survivors(st.s.z.field), kept)
    ensures st'.s.z.field.Keys <= Survivors(st.s.z.field).Keys
    ensures applied ==> Measure(st'.s.z.field, st'.players) < Measure(st.s.z.field, st.players)
  {
    var u, v, dying, order, kept :| PassSteps(st, u, v, st', dying, order, kept, pass, seats, applied);
    var trace :| EffectsRan(order, pass.onDeath, seats, trace) && trace[0] == u && trace[|order|] == v;
    SilentDeaths(order, pass.onDeath, seats, trace, |order|);
    SilentSteps(st, u, st', dying, kept, pass, applied);
  }

  lemma SilentSteps(st: State, u: State, st': State, dying: seq<Id>, kept: map<Legend, Id>, pass: Pass, applied: bool)
    requires AreDying(st.s.z.field, dying) && JudgedAndBuried(st, u) && TidiedUp(u, st', kept, pass.choose)
    requires applied <==> Judged(st.players) != st.players || dying != [] || st'.s.z.field != u.s.z.field
    ensures st' == st.(s := st.s.(z := st'.s.z), players := Judged(st.players)) && Fell(st.s.z, st'.s.z)
    ensures Kept(Survivors(st.s.z.field), kept, pass.choose) && st'.s.z.field == Tidied(Survivors(st.s.z.field), kept)
    ensures st'.s.z.field.Keys <= Survivors(st.s.z.field).Keys
    ensures applied ==> Measure(st'.s.z.field, st'.players) < Measure(st.s.z.field, st.players)
  {
    FellTwice(st.s.z, u.s.z, st'.s.z);
    SilentShrinks(st.s.z.field, st.players, dying, kept, applied);
    TidiedKeys(Survivors(st.s.z.field), kept);
  }

  lemma SilentShrinks(field: map<Id, Permanent>, players: map<Id, Player>, dying: seq<Id>, kept: map<Legend, Id>,
                      applied: bool)
    requires AreDying(field, dying)
    requires applied <==> || Judged(players) != players || dying != []
                          || Tidied(Survivors(field), kept) != Survivors(field)
    ensures applied ==> Measure(Tidied(Survivors(field), kept), Judged(players)) < Measure(field, players)
  {
    var later := Tidied(Survivors(field), kept);
    FewerAlive(players);
    PassLessens(field, kept);
    LessWeighsLess(field, later);
    if dying != [] || later != Survivors(field) {
      PassDiffers(field, dying, kept);
    }
  }

  lemma PassDiffers(field: map<Id, Permanent>, dying: seq<Id>, kept: map<Legend, Id>)
    requires AreDying(field, dying) && (dying != [] || Tidied(Survivors(field), kept) != Survivors(field))
    ensures Tidied(Survivors(field), kept) != field
  {
    if dying == [] {
      assert Survivors(field) == field;
    } else {
      assert dying[0] in field && dying[0] !in Survivors(field);
      TidiedKeys(Survivors(field), kept);
    }
  }

  lemma TidiedKeys(field: map<Id, Permanent>, kept: map<Legend, Id>)
    ensures Tidied(field, kept).Keys <= field.Keys
  {}

  // ---------- The loop ----------

  /** Every pass asks for legends anew, and its deaths set off what they will; from some pass on, nothing. */
  type Passes = nat -> Pass

  ghost predicate SilentFrom(passes: Passes, last: nat) {
    (forall n: nat :: passes(n).Sensible()) && forall n: nat :: n >= last ==> Silent(passes(n))
  }

  /** The states of a run of passes. */
  ghost predicate PassTrace(trace: seq<State>, passes: Passes, seats: seq<Id>) {
    trace != [] && forall i :: 0 < i < |trace| ==> AnyPassDone(trace[i - 1], trace[i], passes(i - 1), seats)
  }

  ghost predicate AnyPassDone(st: State, st': State, pass: Pass, seats: seq<Id>) {
    exists applied :: PassDone(st, st', pass, seats, applied)
  }

  ghost predicate ReachedByPasses(st: State, st': State, passes: Passes, seats: seq<Id>) {
    exists trace :: PassTrace(trace, passes, seats) && |trace| > 1 && trace[0] == st && trace[|trace| - 1] == st'
  }

  /** Pass after pass, until one changes nothing. For every answer to every prompt and every effect the deaths set off,
      as long as deaths stop setting off effects at some time, the loop ends; and then no rule applies. Nothing but
      the passes has changed the game. */
  method CheckStateBasedActions(g: GameTable, passes: Passes, ghost last: nat)
    requires g.Valid() && SilentFrom(passes, last)
    modifies g, g.zones, g.stack
    ensures g.Valid() && Keeps(old(g.Snap()), g.Snap(), g.zones.dealt)
    ensures Stable(g.zones.field, g.players) && ReachedByPasses(old(g.Now()), g.Now(), passes, g.seats)
  {
    ghost var st := g.Now();
    var n, applied := 0, true;
    ghost var trace := [st];
    while applied
      invariant g.Valid() && Keeps(st.s, g.Snap(), g.zones.dealt)
      invariant |trace| == n + 1 && PassTrace(trace, passes, g.seats) && trace[0] == st && trace[n] == g.Now()
      invariant !applied ==> n > 0 && Stable(g.zones.field, g.players)
      decreases applied, if n < last then last - n else 0, Measure(g.zones.field, g.players)
    {
      ghost var t := g.Now();
      assert passes(n).Sensible();
      applied := CheckAndApply(g, passes(n));
      KeepsTwice(st.s, t.s, g.Snap(), g.zones.dealt);
      OnePassMore(trace, g.Now(), passes, g.seats, applied);
      if n >= last {
        SilentPass(t, g.Now(), passes(n), g.seats, applied);
      }
      trace := trace + [g.Now()];
      n := n + 1;
    }
  }

  lemma OnePassMore(trace: seq<State>, st': State, passes: Passes, seats: seq<Id>, applied: bool)
    requires PassTrace(trace, passes, seats) && PassDone(trace[|trace| - 1], st', passes(|trace| - 1), seats, applied)
    ensures PassTrace(trace + [st'], passes, seats)
  {
    var longer := trace + [st'];
    forall i | 0 < i < |longer| ensures AnyPassDone(longer[i - 1], longer[i], passes(i - 1), seats) {
      if i < |trace| {
        assert AnyPassDone(trace[i - 1], trace[i], passes(i - 1), seats);
      } else {
        assert AnyPassDone(trace[|trace| - 1], st', passes(i - 1), seats);
      }
    }
  }

  /** When deaths set off nothing at all, a run of passes takes permanents only to where they belong, and eliminates
      exactly the players who were losing at its start. */
  lemma SilentRun(st: State, st': State, passes: Passes, seats: seq<Id>)
    requires ReachedByPasses(st, st', passes, seats) && SilentFrom(passes, 0)
    ensures OnlyFellAndJudged(st, st')
  {
    var trace :| PassTrace(trace, passes, seats) && |trace| > 1 && trace[0] == st && trace[|trace| - 1] == st';
    SilentTrace(trace, passes, seats, |trace| - 1);
  }

  ghost predicate OnlyFellAndJudged(st: State, st': State) {
    && st' == st.(s := st.s.(z := st'.s.z), players := Judged(st.players)) && Fell(st.s.z, st'.s.z)
    && st'.s.z.field.Keys <= Survivors(st.s.z.field).Keys
  }

  lemma OnlyFellTwice(a: State, b: State, c: State)
    requires OnlyFellAndJudged(a, b) && OnlyFellAndJudged(b, c)
    ensures OnlyFellAndJudged(a, c)
  {
    FellTwice(a.s.z, b.s.z, c.s.z);
    JudgedTwice(a.players);
  }

  lemma {:induction false} SilentTrace(trace: seq<State>, passes: Passes, seats: seq<Id>, n: nat)
    requires PassTrace(trace, passes, seats) && SilentFrom(passes, 0) && 0 < n < |trace|
    ensures OnlyFellAndJudged(trace[0], trace[n])
  {
    SilentStep(trace[n - 1], trace[n], passes(n - 1), seats);
    if n == 1 {
    } else {
      SilentTrace(trace, passes, seats, n - 1);
      OnlyFellTwice(trace[0], trace[n - 1], trace[n]);
    }
  }

  lemma SilentStep(st: State, st': State, pass: Pass, seats: seq<Id>)
    requires AnyPassDone(st, st', pass, seats) && Silent(pass)
    ensures OnlyFellAndJudged(st, st')
  {
    var applied :| PassDone(st, st', pass, seats, applied);
    SilentPass(st, st', pass, seats, applied);
  }

  lemma JudgedTwice(players: map<Id, Player>)
    ensures Judged(Judged(players)) == Judged(players)
  {}
}
