/** The two combat damage steps: the damage is worked out against one battlefield, dealt entry by entry,
    and only then do state-based actions look at the result. */
module CombatSteps {
  import opened Permanents
  import opened Zones
  import opened ZoneManagement
  import opened Game
  import opened Damage
  import opened StateBased
  import Combat

  ghost function BoardOf(g: GameTable): Board
    reads g, g.zones
  {
    Board(g.zones.field, g.players)
  }

  /** The zones with damage marked on some permanents. */
  ghost predicate OnlyMarked(z: Zoning, y: Zoning) {
    && y == z.(field := y.field) && y.field.Keys == z.field.Keys
    && forall id :: id in z.field ==> SameCard(z.field[id], y.field[id])
  }

  lemma MarkedKeeps(s: Snapshot, t: Snapshot, dealt: map<Id, Id>)
    requires TableOk(s, dealt) && OnlyMarked(s.z, t.z) && t == s.(z := t.z)
    ensures SameHeld(s.z, t.z) && TableOk(t, dealt) && Keeps(s, t, dealt)
  {
    forall id | id in t.z.field && t.z.field[id].token ensures id in s.tokens {
      assert SameCard(s.z.field[id], t.z.field[id]);
    }
    MovedInZones(s, t, dealt);
  }

  function WithLife(players: map<Id, Player>, player: Id, amount: int): map<Id, Player> {
    if player in players then players[player := players[player].(life := players[player].life + amount)] else players
  }

  method GainLife(g: GameTable, player: Id, amount: int)
    modifies g`players
    ensures g.players == WithLife(old(g.players), player, amount)
  {
    if player in g.players {
      var p := g.players[player];
      g.players := g.players[player := p.(life := p.life + amount)];
    }
  }

  /** deal_damage: to a permanent, unless it is protected from the source, or else to a player. */
  method DealDamage(g: GameTable, source: Id, target: Id, amount: int)
    requires g.zones.Valid()
    modifies g`players, g.zones
    ensures g.zones.Valid() && OnlyMarked(old(g.zones.Value()), g.zones.Value())
    ensures BoardOf(g) == Deal(old(BoardOf(g)), Assignment(source, target, amount))
  {
    ghost var b := BoardOf(g);
    ghost var d := Assignment(source, target, amount);
    var lands := HitTarget(g, source, target, amount);
    if lands {
      ghost var c := BoardOf(g);
      Lifelinked(g, source, target, amount);
      DealInSteps(b, c, BoardOf(g), d);
    } else {
      DealNothing(b, d);
    }
  }

  method Lifelinked(g: GameTable, source: Id, ghost target: Id, amount: int)
    modifies g`players
    ensures ControllerGained(old(BoardOf(g)), BoardOf(g), Assignment(source, target, amount))
  {
    if source in g.zones.field && g.zones.field[source].Has(Lifelink) {
      GainLife(g, g.zones.field[source].controller, amount);
    }
  }

  ghost predicate ControllerGained(c: Board, e: Board, d: Assignment) {
    && e.battlefield == c.battlefield
    && if SourceHas(c, d, Lifelink) && c.battlefield[d.source].controller in c.players
       then var player := c.battlefield[d.source].controller;
            e.players == c.players[player := c.players[player].(life := c.players[player].life + d.amount)]
       else e.players == c.players
  }

  /** The target takes the damage, unless there is none to deal, the permanent is protected, or there is no target. */
  method HitTarget(g: GameTable, source: Id, target: Id, amount: int) returns (lands: bool)
    requires g.zones.Valid()
    modifies g`players, g.zones
    ensures g.zones.Valid() && OnlyMarked(old(g.zones.Value()), g.zones.Value())
    ensures lands <==> Lands(old(BoardOf(g)), Assignment(source, target, amount))
    ensures !lands ==> BoardOf(g) == old(BoardOf(g))
    ensures lands ==> TargetHit(old(BoardOf(g)), BoardOf(g), Assignment(source, target, amount))
  {
    if amount <= 0 {
      return false;
    }
    lands := true;
    if target in g.zones.field {
      var p := g.zones.field[target];
      lands := !(source in g.zones.field && p.ProtectedFrom(g.zones.field[source]));
      if lands {
        MarkOne(g, source, target, amount);
      }
    } else if target in g.players {
      GainLife(g, target, -amount);
    } else {
      lands := false;
    }
  }

  ghost predicate TargetHit(b: Board, c: Board, d: Assignment)
    requires Lands(b, d)
  {
    if d.target in b.battlefield then
      var p := Marked(b.battlefield[d.target], d.amount, SourceHas(b, d, Deathtouch));
      c == b.(battlefield := b.battlefield[d.target := p])
    else
      c == b.(players := WithLife(b.players, d.target, -d.amount))
  }

  method MarkOne(g: GameTable, source: Id, target: Id, amount: nat)
    requires g.zones.Valid() && target in g.zones.field
    modifies g.zones
    ensures g.zones.Valid() && OnlyMarked(old(g.zones.Value()), g.zones.Value())
    ensures g.zones.field
            == old(g.zones.field)[target := Marked(old(g.zones.field)[target], amount, amount > 0
                                                   && SourceHas(old(BoardOf(g)), Assignment(source, target, amount),
                                                                Deathtouch))]
  {
    ghost var z := g.zones.Value();
    var p := MarkOn(g.zones.field[target], source in g.zones.field && g.zones.field[source].Has(Deathtouch), amount);
    OneUpdated(z, target, p);
    g.zones.Update(target, p);
  }

  method MarkOn(before: Permanent, deathtouch: bool, amount: nat) returns (p: Permanent)
    ensures p == Marked(before, amount, amount > 0 && deathtouch)
  {
    p := before.(damage := before.damage + amount);
    if deathtouch && amount > 0 {
      p := p.(deathtouched := true);
    }
  }

  lemma OneUpdated(z: Zoning, id: Id, p: Permanent)
    requires id in z.field && SameCard(z.field[id], p)
    ensures OnlyMarked(z, z.(field := z.field[id := p]))
  {}

  lemma DealNothing(b: Board, d: Assignment)
    requires !Lands(b, d)
    ensures Deal(b, d) == b
  {
    assert Deal(b, d).battlefield == b.battlefield && Deal(b, d).players == b.players;
  }

  /** The target first, and then the life of the source's controller. */
  lemma DealInSteps(b: Board, c: Board, e: Board, d: Assignment)
    requires Lands(b, d) && TargetHit(b, c, d) && ControllerGained(c, e, d)
    ensures e == Deal(b, d)
  {
    assert SourceHas(c, d, Lifelink) == SourceHas(b, d, Lifelink);
    assert SourceHas(b, d, Lifelink) ==> c.battlefield[d.source].controller == b.battlefield[d.source].controller;
    assert e.battlefield == Deal(b, d).battlefield;
    LifeInSteps(b, c, e, d);
  }

  lemma LifeInSteps(b: Board, c: Board, e: Board, d: Assignment)
    requires Lands(b, d)
    requires c.players == if d.target in b.battlefield then b.players
                          else b.players[d.target := b.players[d.target].(life := b.players[d.target].life - d.amount)]
    requires if SourceHas(b, d, Lifelink) && b.battlefield[d.source].controller in c.players
             then var player := b.battlefield[d.source].controller;
                  e.players == c.players[player := c.players[player].(life := c.players[player].life + d.amount)]
             else e.players == c.players
    ensures e.players == Deal(b, d).players
  {
    assert e.players.Keys == b.players.Keys;
    forall p | p in b.players ensures e.players[p] == Deal(b, d).players[p] {
    }
  }

  /** A list of damage, dealt one entry after the other: the result is that of dealing it all at once, so
      any order of the list would give the same. */
  method DealInTurn(g: GameTable, damage: seq<Assignment>)
    requires g.Valid()
    modifies g`players, g.zones
    ensures g.Valid() && Keeps(old(g.Snap()), g.Snap(), g.zones.dealt)
    ensures BoardOf(g) == AllAtOnce(old(BoardOf(g)), damage)
    ensures g.zones.Value() == old(g.zones.Value()).(field := g.zones.field)
  {
    ghost var s, b := g.Snap(), BoardOf(g);
    for i := 0 to |damage|
      invariant g.zones.Valid() && g.Snap() == s.(z := g.zones.Value()) && g.stack.Valid()
      invariant OnlyMarked(s.z, g.zones.Value())
      invariant DealAll(b, damage) == DealAll(BoardOf(g), damage[i..])
    {
      assert damage[i..][1..] == damage[i + 1..];
      ghost var z := g.zones.Value();
      DealDamage(g, damage[i].source, damage[i].target, damage[i].amount);
      MarkedTwiceOnly(s.z, z, g.zones.Value());
    }
    DealAllIsAllAtOnce(b, damage);
    MarkedKeeps(s, g.Snap(), g.zones.dealt);
  }

  lemma MarkedTwiceOnly(z: Zoning, m: Zoning, y: Zoning)
    requires OnlyMarked(z, m) && OnlyMarked(m, y)
    ensures OnlyMarked(z, y)
  {
    forall id | id in z.field ensures SameCard(z.field[id], y.field[id]) {
      assert SameCard(z.field[id], m.field[id]);
    }
  }

  /** A damage step up to state-based actions: exactly the fair answers of the prompted attackers are in force, all
      damage has been dealt at once, and nothing else has happened. */
  ghost predicate Struck(st: State, hit: State, lines: Combat.Lineup, custom: map<Id, Combat.Split>, firstStrike: bool,
                         answers: Id -> Combat.Answer)
  {
    && Combat.SplitsInForce(st.s.z.field, lines, custom, firstStrike, answers)
    && StruckAtOnce(Board(st.s.z.field, st.players), Board(hit.s.z.field, hit.players), lines, custom, firstStrike)
    && hit == st.(s := st.s.(z := st.s.z.(field := hit.s.z.field)), players := hit.players)
  }

  ghost predicate StruckAtOnce(b: Board, c: Board, lines: Combat.Lineup, custom: map<Id, Combat.Split>,
                               firstStrike: bool) {
    c == AllAtOnce(b, Combat.StepDamage(b.battlefield, lines, custom, firstStrike))
  }

  /** Works out and deals the damage of one step. */
  method Strike(g: GameTable, combat: Combat.CombatManager, firstStrike: bool, answers: Id -> Combat.Answer)
    requires g.Valid()
    modifies g`players, g.zones, combat`customDamage
    ensures g.Valid() && Keeps(old(g.Snap()), g.Snap(), g.zones.dealt)
    ensures Struck(old(g.Now()), g.Now(), combat.Lines(), combat.customDamage, firstStrike, answers)
  {
    var damage := combat.AssignCombatDamage(g.zones.field, firstStrike, answers);
    DealInTurn(g, damage);
  }

  // ---------- What a step does to one creature, and to one player ----------

  /** What the blockers that strike mark on a permanent: the powers of those that it has blocking it. */
  function MarkedByBlocks(field: map<Id, Permanent>, blocks: seq<Combat.Block>, firstStrike: bool, id: Id): nat
    requires id in field
  {
    if blocks == [] then 0
    else
      var last := blocks[|blocks| - 1];
      MarkedByBlocks(field, blocks[..|blocks| - 1], firstStrike, id)
      + if && last.attacker == id && Combat.DealsIn(field, last.blocker, firstStrike)
           && !field[id].ProtectedFrom(field[last.blocker])
        then field[last.blocker].Power() else 0
  }

  /** What the attackers mark on a permanent: what each of them gives it, unless it is protected. */
  function MarkedByAttacks(field: map<Id, Permanent>, lines: Combat.Lineup, custom: map<Id, Combat.Split>, n: nat,
                           firstStrike: bool, id: Id): nat
    requires id in field && n <= |lines.attackers|
  {
    if n == 0 then 0
    else
      var attack := lines.attackers[n - 1];
      MarkedByAttacks(field, lines, custom, n - 1, firstStrike, id)
      + if attack.attacker in field && !field[id].ProtectedFrom(field[attack.attacker])
        then Combat.Given(field, lines.order, custom, attack, firstStrike, id) else 0
  }

  /** What the attackers take from a player in all. */
  function TakenByAttacks(field: map<Id, Permanent>, lines: Combat.Lineup, custom: map<Id, Combat.Split>, n: nat,
                          firstStrike: bool, player: Id): nat
    requires n <= |lines.attackers|
  {
    if n == 0 then 0
    else TakenByAttacks(field, lines, custom, n - 1, firstStrike, player)
         + Combat.Given(field, lines.order, custom, lines.attackers[n - 1], firstStrike, player)
  }

  lemma {:induction false} MarksFromOne(b: Board, ds: seq<Assignment>, source: Id, id: Id)
    requires Combat.AllFrom(ds, source)
    ensures id in b.battlefield ==>
              TotalMarks(b, ds, id)
              == if source in b.battlefield && b.battlefield[id].ProtectedFrom(b.battlefield[source]) then 0
                 else Combat.AmountTo(ds, id)
    ensures id in b.players && id !in b.battlefield ==>
              TotalLifeChange(b, ds, id) == TotalGained(b, ds, id) - Combat.AmountTo(ds, id)
  {
    if ds == [] {
    } else {
      assert ds[0] in ds;
      MarksFromOne(b, ds[1..], source, id);
    }
  }

  lemma {:induction false} MarksFromAttacks(b: Board, lines: Combat.Lineup, custom: map<Id, Combat.Split>, n: nat,
                                            firstStrike: bool, id: Id)
    requires n <= |lines.attackers|
    ensures var ds := Combat.AllAttackDamage(b.battlefield, lines.order, custom, lines.attackers[..n], firstStrike);
            && (id in b.battlefield ==>
                  TotalMarks(b, ds, id) == MarkedByAttacks(b.battlefield, lines, custom, n, firstStrike, id))
            && (id in b.players && id !in b.battlefield ==>
                  TotalLifeChange(b, ds, id)
                  == TotalGained(b, ds, id) - TakenByAttacks(b.battlefield, lines, custom, n, firstStrike, id))
  {
    if n == 0 {
    } else {
      var front, attack := lines.attackers[..n - 1], lines.attackers[n - 1];
      assert lines.attackers[..n][..n - 1] == front;
      MarksFromAttacks(b, lines, custom, n - 1, firstStrike, id);
      var dealt := Combat.AttackDamage(b.battlefield, lines.order, custom, attack, firstStrike);
      Combat.AttackGives(b.battlefield, lines.order, custom, attack, firstStrike, id);
      MarksFromOne(b, dealt, attack.attacker, id);
      TotalsOfBoth(b, Combat.AllAttackDamage(b.battlefield, lines.order, custom, front, firstStrike), dealt, id);
    }
  }

  lemma {:induction false} MarksFromBlocks(b: Board, blocks: seq<Combat.Block>, firstStrike: bool, id: Id)
    requires id in b.battlefield
    ensures TotalMarks(b, Combat.AllBlockDamage(b.battlefield, blocks, firstStrike), id)
            == MarkedByBlocks(b.battlefield, blocks, firstStrike, id)
  {
    if blocks == [] {
    } else {
      var front, last := blocks[..|blocks| - 1], blocks[|blocks| - 1];
      MarksFromBlocks(b, front, firstStrike, id);
      TotalsOfBoth(b, Combat.AllBlockDamage(b.battlefield, front, firstStrike),
                   Combat.BlockDamage(b.battlefield, last, firstStrike), id);
    }
  }

  /** Damage goes to players from attackers only, when no block names a player. */
  lemma {:induction false} BlocksTakeNothing(b: Board, blocks: seq<Combat.Block>, firstStrike: bool, player: Id)
    requires forall k :: 0 <= k < |blocks| ==> blocks[k].attacker != player
    ensures var ds := Combat.AllBlockDamage(b.battlefield, blocks, firstStrike);
            TotalLifeChange(b, ds, player) == TotalGained(b, ds, player)
  {
    if blocks == [] {
    } else {
      var front, last := blocks[..|blocks| - 1], blocks[|blocks| - 1];
      BlocksTakeNothing(b, front, firstStrike, player);
      TotalsOfBoth(b, Combat.AllBlockDamage(b.battlefield, front, firstStrike),
                   Combat.BlockDamage(b.battlefield, last, firstStrike), player);
    }
  }

  /** A permanent is marked with the powers of the creatures blocking it that strike, and with what the attackers give
      it, as far as it is not protected; nothing else about it changes but the mark of deathtouch. */
  lemma StruckPermanent(st: State, hit: State, lines: Combat.Lineup, custom: map<Id, Combat.Split>, firstStrike: bool,
                        answers: Id -> Combat.Answer, id: Id)
    requires Struck(st, hit, lines, custom, firstStrike, answers) && id in st.s.z.field
    ensures id in hit.s.z.field
    ensures var field, p, q := st.s.z.field, st.s.z.field[id], hit.s.z.field[id];
            && q.damage == p.damage + MarkedByBlocks(field, lines.blockers, firstStrike, id)
                           + MarkedByAttacks(field, lines, custom, |lines.attackers|, firstStrike, id)
            && q == p.(damage := q.damage, deathtouched := q.deathtouched)
  {
    var b := Board(st.s.z.field, st.players);
    assert lines.attackers[..|lines.attackers|] == lines.attackers;
    MarksFromAttacks(b, lines, custom, |lines.attackers|, firstStrike, id);
    MarksFromBlocks(b, lines.blockers, firstStrike, id);
    TotalsOfBoth(b, Combat.AllAttackDamage(b.battlefield, lines.order, custom, lines.attackers, firstStrike),
                 Combat.AllBlockDamage(b.battlefield, lines.blockers, firstStrike), id);
  }

  /** A player loses what the attackers give the player, and gains what creatures with lifelink bring. */
  lemma StruckPlayer(st: State, hit: State, lines: Combat.Lineup, custom: map<Id, Combat.Split>, firstStrike: bool,
                     answers: Id -> Combat.Answer, player: Id)
    requires Struck(st, hit, lines, custom, firstStrike, answers)
    requires player in st.players && player !in st.s.z.field
    requires forall k :: 0 <= k < |lines.blockers| ==> lines.blockers[k].attacker != player
    ensures player in hit.players
    ensures hit.players[player].life
            == st.players[player].life
               - TakenByAttacks(st.s.z.field, lines, custom, |lines.attackers|, firstStrike, player)
               + TotalGained(Board(st.s.z.field, st.players),
                             Combat.StepDamage(st.s.z.field, lines, custom, firstStrike), player)
  {
    var b := Board(st.s.z.field, st.players);
    assert lines.attackers[..|lines.attackers|] == lines.attackers;
    MarksFromAttacks(b, lines, custom, |lines.attackers|, firstStrike, player);
    BlocksTakeNothing(b, lines.blockers, firstStrike, player);
    TotalsOfBoth(b, Combat.AllAttackDamage(b.battlefield, lines.order, custom, lines.attackers, firstStrike),
                 Combat.AllBlockDamage(b.battlefield, lines.blockers, firstStrike), player);
  }

  /** Is there an attacker or blocker, still on the battlefield, with first or double strike? */
  ghost predicate FirstStrikers(field: map<Id, Permanent>, lines: Combat.Lineup) {
    || (exists a :: a in lines.attackers && a.attacker in field && Combat.StrikesNow(field[a.attacker], true))
    || (exists b :: b in lines.blockers && b.blocker in field && Combat.StrikesNow(field[b.blocker], true))
  }

  method HasFirstStrikers(field: map<Id, Permanent>, combat: Combat.CombatManager) returns (has: bool)
    ensures has <==> FirstStrikers(field, combat.Lines())
  {
    for i := 0 to |combat.attackers|
      invariant forall k :: 0 <= k < i && combat.attackers[k].attacker in field ==>
                  !Combat.StrikesNow(field[combat.attackers[k].attacker], true)
    {
      var id := combat.attackers[i].attacker;
      if id in field && (field[id].Has(FirstStrike) || field[id].Has(DoubleStrike)) {
        return true;
      }
    }
    for i := 0 to |combat.blockers|
      invariant forall k :: 0 <= k < i && combat.blockers[k].blocker in field ==>
                  !Combat.StrikesNow(field[combat.blockers[k].blocker], true)
    {
      var id := combat.blockers[i].blocker;
      if id in field && (field[id].Has(FirstStrike) || field[id].Has(DoubleStrike)) {
        return true;
      }
    }
    return false;
  }

  /** Does the damage step take place? The one for first strike only if somebody strikes first. */
  ghost predicate TakesPlace(field: map<Id, Permanent>, lines: Combat.Lineup, firstStrike: bool) {
    lines.attackers != [] && (firstStrike ==> FirstStrikers(field, lines))
  }

  /** A whole damage step: all damage at once, with exactly the fair answers in force, and then state-based actions
      until none applies. */
  ghost predicate DamageStep(st: State, st': State, lines: Combat.Lineup, firstStrike: bool,
                             answers: Id -> Combat.Answer,
                             passes: Passes, seats: seq<Id>)
  {
    if TakesPlace(st.s.z.field, lines, firstStrike)
    then exists hit, custom :: StruckAndSettled(st, hit, custom, st', lines, firstStrike, answers, passes, seats)
    else st' == st
  }

  ghost predicate StruckAndSettled(st: State, hit: State, custom: map<Id, Combat.Split>, st': State,
                                   lines: Combat.Lineup,
                                   firstStrike: bool, answers: Id -> Combat.Answer, passes: Passes, seats: seq<Id>)
  {
    && Struck(st, hit, lines, custom, firstStrike, answers)
    && ReachedByPasses(hit, st', passes, seats) && Stable(st'.s.z.field, st'.players)
  }

  /** The first strike damage step. */
  method FirstStrikeDamage(g: GameTable, combat: Combat.CombatManager, answers: Id -> Combat.Answer, passes: Passes,
                           ghost last: nat)
    requires g.Valid() && SilentFrom(passes, last)
    modifies g, g.zones, g.stack, combat`customDamage
    ensures g.Valid() && Keeps(old(g.Snap()), g.Snap(), g.zones.dealt)
    ensures DamageStep(old(g.Now()), g.Now(), combat.Lines(), true, answers, passes, g.seats)
  {
    if combat.attackers != [] {
      var strikes := HasFirstStrikers(g.zones.field, combat);
      if strikes {
        StrikeAndSettle(g, combat, true, answers, passes, last);
      }
    }
  }

  /** The regular damage step. */
  method CombatDamage(g: GameTable, combat: Combat.CombatManager, answers: Id -> Combat.Answer, passes: Passes,
                      ghost last: nat)
    requires g.Valid() && SilentFrom(passes, last)
    modifies g, g.zones, g.stack, combat`customDamage
    ensures g.Valid() && Keeps(old(g.Snap()), g.Snap(), g.zones.dealt)
    ensures DamageStep(old(g.Now()), g.Now(), combat.Lines(), false, answers, passes, g.seats)
  {
    if combat.attackers != [] {
      StrikeAndSettle(g, combat, false, answers, passes, last);
    }
  }

  method StrikeAndSettle(g: GameTable, combat: Combat.CombatManager, firstStrike: bool, answers: Id -> Combat.Answer,
                         passes: Passes, ghost last: nat)
    requires g.Valid() && SilentFrom(passes, last)
    modifies g, g.zones, g.stack, combat`customDamage
    ensures g.Valid() && Keeps(old(g.Snap()), g.Snap(), g.zones.dealt) && combat.Lines() == old(combat.Lines())
    ensures exists hit, custom ::
              StruckAndSettled(old(g.Now()), hit, custom, g.Now(), combat.Lines(), firstStrike, answers, passes,
                               g.seats)
  {
    ghost var st := g.Now();
    Strike(g, combat, firstStrike, answers);
    ghost var hit := g.Now();
    CheckStateBasedActions(g, passes, last);
    KeepsTwice(st.s, hit.s, g.Snap(), g.zones.dealt);
    assert StruckAndSettled(st, hit, combat.customDamage, g.Now(), combat.Lines(), firstStrike, answers, passes,
                            g.seats);
  }

  /** When deaths set off nothing, the creatures that the damage has killed are gone after the step, and exactly the
      players whom it has brought to lose are eliminated. */
  lemma TheKilledAreGone(st: State, hit: State, custom: map<Id, Combat.Split>, st': State, lines: Combat.Lineup,
                         firstStrike: bool, answers: Id -> Combat.Answer, passes: Passes, seats: seq<Id>)
    requires StruckAndSettled(st, hit, custom, st', lines, firstStrike, answers, passes, seats) && SilentFrom(passes, 0)
    ensures st'.players == Judged(hit.players) && Fell(hit.s.z, st'.s.z)
    ensures forall id :: id in hit.s.z.field && Dying(hit.s.z.field[id]) ==> id !in st'.s.z.field
  {
    SilentRun(hit, st', passes, seats);
    forall id | id in hit.s.z.field && Dying(hit.s.z.field[id]) ensures id !in st'.s.z.field {
      assert id !in Survivors(hit.s.z.field);
    }
  }

  /** The order in which one step's damage is dealt makes no difference. */
  lemma StepInAnyOrder(b: Board, c: Board, lines: Combat.Lineup, custom: map<Id, Combat.Split>, firstStrike: bool,
                       damage: seq<Assignment>)
    requires StruckAtOnce(b, c, lines, custom, firstStrike)
    requires multiset(damage) == multiset(Combat.StepDamage(b.battlefield, lines, custom, firstStrike))
    ensures DealAll(b, damage) == c
  {
    var dealt := Combat.StepDamage(b.battlefield, lines, custom, firstStrike);
    DealAllIsAllAtOnce(b, dealt);
    AnyOrder(b, damage, dealt);
  }
}
