/** Combat damage: who strikes, how an attacker's damage is split among its blockers, trample and
    the splits a player may choose (rules 510.1c and 702.19b of the Magic Comprehensive Rules). */
module Combat {
  import opened Common
  import opened Permanents
  import opened Damage

  datatype Attack = Attack(attacker: Id, defender: Id)

  datatype Block = Block(blocker: Id, attacker: Id)

  /** A split chosen by the attacking player: one number per ordered blocker, and the player's share. */
  datatype Split = Split(blockers: seq<int>, player: int)

  type Battlefield = map<Id, Permanent>

  /** Whether a creature deals damage in the first-strike step, or in the regular one. */
  predicate StrikesNow(p: Permanent, firstStrike: bool) {
    if firstStrike then p.Has(FirstStrike) || p.Has(DoubleStrike)
    else !p.Has(FirstStrike) || p.Has(DoubleStrike)
  }

  /** Damage that is lethal for a blocker that is still there: one from a deathtouch source. */
  function Lethal(attacker: Permanent, blocker: Permanent): nat {
    Max(if attacker.Has(Deathtouch) then 1 else blocker.Toughness() - blocker.damage, 0)
  }

  /** The same for a blocker id; nothing once the blocker has left. */
  function LethalFor(field: Battlefield, attacker: Permanent, blocker: Id): nat {
    if blocker in field then Lethal(attacker, field[blocker]) else 0
  }

  function LethalSum(field: Battlefield, attacker: Permanent, blockers: seq<Id>): nat {
    if blockers == [] then 0 else LethalFor(field, attacker, blockers[0]) + LethalSum(field, attacker, blockers[1..])
  }

  /** The automatic split among blockers, in order. */
  function AutoBlockers(field: Battlefield, attacker: Permanent, source: Id, blockers: seq<Id>,
                        power: int): seq<Assignment> {
    if blockers == [] then []
    else if blockers[0] !in field || power <= 0 then AutoBlockers(field, attacker, source, blockers[1..], power)
    else
      var given := Min(power, LethalFor(field, attacker, blockers[0]));
      [Assignment(source, blockers[0], given)] + AutoBlockers(field, attacker, source, blockers[1..], power - given)
  }

  /** The automatic split, with what a trampler has left over going to the player. */
  function AutoSplit(field: Battlefield, attacker: Permanent, attack: Attack, blockers: seq<Id>,
                     power: int): seq<Assignment> {
    var left := power - Min(power, LethalSum(field, attacker, blockers));
    AutoBlockers(field, attacker, attack.attacker, blockers, power)
    + (if left > 0 && attacker.Has(Trample) then [Assignment(attack.attacker, attack.defender, left)] else [])
  }

  /** The loop has still to go over the rest of the blockers, with so much power left. */
  ghost predicate Assigned(field: Battlefield, p: Permanent, source: Id, blockers: seq<Id>, rest: seq<Id>,
                           damage: seq<Assignment>, remaining: int)
  {
    && remaining >= 0
    && AutoBlockers(field, p, source, blockers, p.Power()) == damage + AutoBlockers(field, p, source, rest, remaining)
    && remaining - Min(remaining, LethalSum(field, p, rest))
       == p.Power() - Min(p.Power(), LethalSum(field, p, blockers))
  }

  lemma AssignNext(field: Battlefield, p: Permanent, source: Id, blockers: seq<Id>, rest: seq<Id>, next: seq<Id>,
                   damage: seq<Assignment>, remaining: int)
    requires rest != [] && next == rest[1..] && Assigned(field, p, source, blockers, rest, damage, remaining)
    ensures if rest[0] in field && remaining > 0
            then var given := Min(remaining, LethalFor(field, p, rest[0]));
                 Assigned(field, p, source, blockers, next, damage + [Assignment(source, rest[0], given)],
                          remaining - given)
            else Assigned(field, p, source, blockers, next, damage, remaining)
  {
    if rest[0] in field && remaining > 0 {
      var given := Min(remaining, LethalFor(field, p, rest[0]));
      var later := AutoBlockers(field, p, source, next, remaining - given);
      assert damage + ([Assignment(source, rest[0], given)] + later)
             == damage + [Assignment(source, rest[0], given)] + later;
    }
  }

  /** The positive parts of a chosen split. */
  function ChosenBlockers(source: Id, blockers: seq<Id>, amounts: seq<int>): seq<Assignment> {
    if blockers == [] || amounts == [] then []
    else (if amounts[0] > 0 then [Assignment(source, blockers[0],
                                             amounts[0])] else []) + ChosenBlockers(source, blockers[1..], amounts[1..])
  }

  function ChosenSplit(attack: Attack, blockers: seq<Id>, split: Split): seq<Assignment> {
    ChosenBlockers(attack.attacker, blockers, split.blockers)
    + (if split.player > 0 then [Assignment(attack.attacker, attack.defender, split.player)] else [])
  }

  function BlockersOf(order: map<Id, seq<Id>>,
                      attacker: Id): seq<Id> { if attacker in order then order[attacker] else [] }

  /** Everything one declared attacker deals in this step. */
  function AttackDamage(field: Battlefield, order: map<Id, seq<Id>>, custom: map<Id, Split>, attack: Attack,
                        firstStrike: bool): seq<Assignment> {
    if attack.attacker !in field then []
    else
      var p := field[attack.attacker];
      var blockers := BlockersOf(order, attack.attacker);
      if !p.IsCreature() || !StrikesNow(p, firstStrike) || p.Power() <= 0 then []
      else if blockers == [] then [Assignment(attack.attacker, attack.defender, p.Power())]
      else if attack.attacker in custom then ChosenSplit(attack, blockers, custom[attack.attacker])
      else AutoSplit(field, p, attack, blockers, p.Power())
  }

  /** What one blocker deals back. */
  function BlockDamage(field: Battlefield, block: Block, firstStrike: bool): seq<Assignment> {
    if block.blocker !in field then []
    else
      var p := field[block.blocker];
      if !p.IsCreature() || !StrikesNow(p, firstStrike) || p.Power() <= 0 then []
      else [Assignment(block.blocker, block.attacker, p.Power())]
  }

  function AllAttackDamage(field: Battlefield, order: map<Id, seq<Id>>, custom: map<Id, Split>, attacks: seq<Attack>,
                           firstStrike: bool): seq<Assignment> {
    if attacks == [] then []
    else AllAttackDamage(field, order, custom, attacks[..|attacks| - 1], firstStrike)
         + AttackDamage(field, order, custom, attacks[|attacks| - 1], firstStrike)
  }

  function AllBlockDamage(field: Battlefield, blocks: seq<Block>, firstStrike: bool): seq<Assignment> {
    if blocks == [] then []
    else AllBlockDamage(field, blocks[..|blocks| - 1], firstStrike)
         + BlockDamage(field, blocks[|blocks| - 1], firstStrike)
  }

  // ---------- Which creatures deal damage, and how much is lethal ----------

  /** A creature with power that takes part in a step: everybody with double strike does, and otherwise those with
      first strike in the first strike step and those without it in the regular one. */
  predicate DealsIn(field: Battlefield, id: Id, firstStrike: bool) {
    && id in field && (field[id].card.cardType == Creature || field[id].animation.Some?) && field[id].Power() > 0
    && (field[id].Has(DoubleStrike) || field[id].Has(FirstStrike) == firstStrike)
  }

  /** Of one creature's damage in the two steps together: once, or twice with double strike. */
  lemma StrikesOnceOrTwice(p: Permanent)
    ensures StrikesNow(p, true) && StrikesNow(p, false) <==> p.Has(DoubleStrike)
    ensures !p.Has(DoubleStrike) ==> (StrikesNow(p, true) <==> p.Has(FirstStrike))
    ensures !p.Has(DoubleStrike) ==> (StrikesNow(p, false) <==> !p.Has(FirstStrike))
  {}

  /** Lethal damage is the least that makes the damage on the blocker reach its toughness; one from a source with
      deathtouch. */
  lemma LethalIsLeastThatKills(attacker: Permanent, blocker: Permanent, amount: nat)
    ensures attacker.Has(Deathtouch) ==> Lethal(attacker, blocker) == 1
    ensures !attacker.Has(Deathtouch) ==>
              (amount >= Lethal(attacker, blocker) <==> blocker.damage + amount >= blocker.Toughness())
  {}

  /** All that blockers deal in a step: every block whose blocker deals damage gives its attacker that blocker's power,
      once for each time it was declared, and there is nothing else. */
  lemma {:induction false} BlocksDeal(field: Battlefield, blocks: seq<Block>, firstStrike: bool, d: Assignment)
    ensures multiset(AllBlockDamage(field, blocks, firstStrike))[d]
            == if DealsIn(field, d.source, firstStrike) && d.amount == field[d.source].Power()
               then multiset(blocks)[Block(blocker := d.source, attacker := d.target)] else 0
  {
    if blocks == [] {
    } else {
      var front, last := blocks[..|blocks| - 1], blocks[|blocks| - 1];
      BlocksDeal(field, front, firstStrike, d);
      BlockDeals(field, last, firstStrike, d);
      assert blocks == front + [last];
    }
  }

  lemma BlockDeals(field: Battlefield, block: Block, firstStrike: bool, d: Assignment)
    ensures multiset(BlockDamage(field, block, firstStrike))[d]
            == if && DealsIn(field, d.source, firstStrike) && d.amount == field[d.source].Power()
                  && block == Block(blocker := d.source, attacker := d.target)
               then 1 else 0
  {
    if DealsIn(field, block.blocker, firstStrike) {
      assert BlockDamage(field, block, firstStrike)
             == [Assignment(block.blocker, block.attacker, field[block.blocker].Power())];
    } else {
      assert BlockDamage(field, block, firstStrike) == [];
    }
  }

  /** The share of the blocker at an index: its lethal amount, as far as the power reaches behind the earlier ones. */
  function Share(field: Battlefield, p: Permanent, blockers: seq<Id>, j: nat): nat
    requires j < |blockers|
  {
    Min(LethalFor(field, p, blockers[j]), Max(0, p.Power() - LethalSum(field, p, blockers[..j])))
  }

  /** What the first blockers' shares give a target. */
  function SharesTo(field: Battlefield, p: Permanent, blockers: seq<Id>, n: nat, target: Id): nat
    requires n <= |blockers|
  {
    if n == 0 then 0
    else SharesTo(field, p, blockers, n - 1, target)
         + (if blockers[n - 1] == target then Share(field, p, blockers, n - 1) else 0)
  }

  /** What the first numbers of a chosen split give a target. */
  function ChosenTo(blockers: seq<Id>, amounts: seq<int>, n: nat, target: Id): nat
    requires n <= |blockers| && n <= |amounts|
  {
    if n == 0 then 0
    else ChosenTo(blockers, amounts, n - 1, target)
         + (if blockers[n - 1] == target && amounts[n - 1] > 0 then amounts[n - 1] else 0)
  }

  /** What a declared attacker gives a creature or player in a step: unblocked its power to the defender; by choice
      what was chosen; and otherwise shares in the order of the blockers, with the rest to the defender if it has
      trample. */
  function Given(field: Battlefield, order: map<Id, seq<Id>>, custom: map<Id, Split>, attack: Attack, firstStrike: bool,
                 target: Id): nat
  {
    if !DealsIn(field, attack.attacker, firstStrike) then 0
    else
      var p := field[attack.attacker];
      if attack.attacker !in order || order[attack.attacker] == [] then
        (if target == attack.defender then p.Power() else 0)
      else
        var ids := order[attack.attacker];
        if attack.attacker in custom then
          var split := custom[attack.attacker];
          ChosenTo(ids, split.blockers, Min(|ids|, |split.blockers|), target)
          + (if target == attack.defender then Max(0, split.player) else 0)
        else
          SharesTo(field, p, ids, |ids|, target)
          + (if target == attack.defender && p.Has(Trample) then Max(0, p.Power() - LethalSum(field, p, ids)) else 0)
  }

  /** All assignments come from one source, and none takes damage away. */
  predicate AllFrom(ds: seq<Assignment>, source: Id) { forall d :: d in ds ==> d.source == source && d.amount >= 0 }

  // ---------- What a split gives ----------

  function Sum(ds: seq<Assignment>): int { if ds == [] then 0 else ds[0].amount + Sum(ds[1..]) }

  /** What a list of assignments gives one target. */
  function AmountTo(ds: seq<Assignment>, target: Id): int {
    if ds == [] then 0 else (if ds[0].target == target then ds[0].amount else 0) + AmountTo(ds[1..], target)
  }

  lemma {:induction false} SumConcat(a: seq<Assignment>, b: seq<Assignment>, target: Id)
    ensures Sum(a + b) == Sum(a) + Sum(b)
    ensures AmountTo(a + b, target) == AmountTo(a, target) + AmountTo(b, target)
  {
    if a == [] {
      assert a + b == b;
    } else {
      assert (a + b)[1..] == a[1..] + b;
      SumConcat(a[1..], b, target);
    }
  }

  ghost predicate Distinct(ids: seq<Id>) {
    forall i, j :: 0 <= i < j < |ids| ==> ids[i] != ids[j]
  }

  lemma {:induction false} AutoSum(field: Battlefield, attacker: Permanent, source: Id, blockers: seq<Id>, power: int)
    ensures Sum(AutoBlockers(field, attacker, source, blockers, power))
            == Max(0, Min(power, LethalSum(field, attacker, blockers)))
    decreases |blockers|
  {
    if blockers == [] {
    } else {
      var given := if blockers[0] !in field
      || power <= 0 then 0 else Min(power, LethalFor(field, attacker, blockers[0]));
      AutoSum(field, attacker, source, blockers[1..], power - given);
    }
  }

  lemma {:induction false} AutoTargets(field: Battlefield, attacker: Permanent, source: Id, blockers: seq<Id>,
                                       power: int)
    ensures forall d :: d in AutoBlockers(field, attacker, source, blockers, power) ==>
              d.source == source && d.target in blockers && d.target in field && d.amount >= 0
    decreases |blockers|
  {
    if blockers == [] {
    } else {
      var given := if blockers[0] !in field
      || power <= 0 then 0 else Min(power, LethalFor(field, attacker, blockers[0]));
      AutoTargets(field, attacker, source, blockers[1..], power - given);
    }
  }

  lemma {:induction false} NotATarget(ds: seq<Assignment>, target: Id)
    requires forall d :: d in ds ==> d.target != target
    ensures AmountTo(ds, target) == 0
  {
    if ds == [] {
    } else {
      NotATarget(ds[1..], target);
    }
  }

  /** What the automatic split gives the blocker at an index: its lethal amount, as far as the power
      reaches behind the lethal amounts of the earlier blockers. */
  lemma {:induction false} AutoAmount(field: Battlefield, attacker: Permanent, source: Id, blockers: seq<Id>,
                                      power: int, j: nat)
    requires j < |blockers| && Distinct(blockers)
    ensures AmountTo(AutoBlockers(field, attacker, source, blockers, power), blockers[j])
            == Min(LethalFor(field, attacker, blockers[j]), Max(0, power - LethalSum(field, attacker, blockers[..j])))
    decreases |blockers|
  {
    var rest := blockers[1..];
    var given := if blockers[0] !in field || power <= 0 then 0 else Min(power, LethalFor(field, attacker, blockers[0]));
    AutoTargets(field, attacker, source, rest, power - given);
    if j == 0 {
      forall d | d in AutoBlockers(field, attacker, source, rest, power - given) ensures d.target != blockers[0] {
        var k :| 0 <= k < |rest| && rest[k] == d.target;
        assert rest[k] == blockers[k + 1];
      }
      NotATarget(AutoBlockers(field, attacker, source, rest, power - given), blockers[0]);
    } else {
      assert forall k :: 0 <= k < |rest| ==> rest[k] == blockers[k + 1];
      AutoAmount(field, attacker, source, rest, power - given, j - 1);
      assert blockers[..j][1..] == rest[..j - 1];
    }
  }

  lemma {:induction false} LethalSumSplit(field: Battlefield, attacker: Permanent, blockers: seq<Id>, j: nat)
    requires j <= |blockers|
    ensures LethalSum(field, attacker, blockers)
            == LethalSum(field, attacker, blockers[..j]) + LethalSum(field, attacker, blockers[j..])
  {
    if j == 0 {
    } else {
      assert blockers[..j][1..] == blockers[1..][..j - 1];
      assert blockers[j..] == blockers[1..][j - 1..];
      LethalSumSplit(field, attacker, blockers[1..], j - 1);
    }
  }

  /** The split is ordered: a blocker gets damage only when every earlier blocker that is still there
      got its full lethal amount; and no blocker gets more than that. */
  lemma AutoIsOrdered(field: Battlefield, attacker: Permanent, source: Id, blockers: seq<Id>, power: int, i: nat,
                      j: nat)
    requires i < j < |blockers| && Distinct(blockers)
    requires AmountTo(AutoBlockers(field, attacker, source, blockers, power), blockers[j]) > 0
    ensures AmountTo(AutoBlockers(field, attacker, source, blockers, power), blockers[i])
            == LethalFor(field, attacker, blockers[i])
    ensures blockers[j] in field
    ensures AmountTo(AutoBlockers(field, attacker, source, blockers,
                                  power), blockers[j]) <= LethalFor(field, attacker, blockers[j])
  {
    AutoAmount(field, attacker, source, blockers, power, i);
    AutoAmount(field, attacker, source, blockers, power, j);
    LethalSumSplit(field, attacker, blockers[..j], i);
    assert blockers[..j][..i] == blockers[..i];
    assert blockers[..j][i..][0] == blockers[i];
  }

  // ---------- What one attacker gives a target ----------

  /** The automatic split from some blocker on. */
  lemma {:induction false} AutoGives(field: Battlefield, p: Permanent, source: Id, blockers: seq<Id>, n: nat, target: Id)
    requires n <= |blockers| && p.Power() > 0
    ensures var power := p.Power() - LethalSum(field, p, blockers[..n]);
            SharesTo(field, p, blockers, |blockers|, target)
            == SharesTo(field, p, blockers, n, target)
               + AmountTo(AutoBlockers(field, p, source, blockers[n..], power), target)
    decreases |blockers| - n
  {
    if n == |blockers| {
    } else {
      AutoGives(field, p, source, blockers, n + 1, target);
      var power := p.Power() - LethalSum(field, p, blockers[..n]);
      LethalSumSplit(field, p, blockers[..n + 1], n);
      assert blockers[..n + 1][..n] == blockers[..n] && blockers[..n + 1][n..] == [blockers[n]];
      AutoGivesOne(field, p, source, blockers, n, target, power);
    }
  }

  lemma AutoGivesOne(field: Battlefield, p: Permanent, source: Id, blockers: seq<Id>, n: nat, target: Id, power: int)
    requires n < |blockers| && power == p.Power() - LethalSum(field, p, blockers[..n])
    ensures AmountTo(AutoBlockers(field, p, source, blockers[n..], power), target)
            == (if blockers[n] == target then Share(field, p, blockers, n) else 0)
               + AmountTo(AutoBlockers(field, p, source, blockers[n + 1..], power - LethalFor(field, p, blockers[n])),
                          target)
  {
    var rest := blockers[n + 1..];
    assert blockers[n..][0] == blockers[n] && blockers[n..][1..] == rest;
    if power <= 0 {
      NothingLeft(field, p, source, rest, power);
      NothingLeft(field, p, source, rest, power - LethalFor(field, p, blockers[n]));
    } else if blockers[n] in field && power < LethalFor(field, p, blockers[n]) {
      NothingLeft(field, p, source, rest, 0);
      NothingLeft(field, p, source, rest, power - LethalFor(field, p, blockers[n]));
    }
  }

  lemma {:induction false} NothingLeft(field: Battlefield, p: Permanent, source: Id, blockers: seq<Id>, power: int)
    requires power <= 0
    ensures AutoBlockers(field, p, source, blockers, power) == []
  {
    if blockers == [] {
    } else {
      NothingLeft(field, p, source, blockers[1..], power);
    }
  }

  lemma {:induction false} ChosenGives(source: Id, blockers: seq<Id>, amounts: seq<int>, n: nat, target: Id)
    requires n <= |blockers| && n <= |amounts|
    ensures ChosenTo(blockers, amounts, Min(|blockers|, |amounts|), target)
            == ChosenTo(blockers, amounts, n, target)
               + AmountTo(ChosenBlockers(source, blockers[n..], amounts[n..]), target)
    ensures AllFrom(ChosenBlockers(source, blockers[n..], amounts[n..]), source)
    decreases |blockers| - n
  {
    if n == |blockers| || n == |amounts| {
      assert ChosenBlockers(source, blockers[n..], amounts[n..]) == [];
    } else {
      ChosenGives(source, blockers, amounts, n + 1, target);
      assert blockers[n..][1..] == blockers[n + 1..] && amounts[n..][1..] == amounts[n + 1..];
      var first := if amounts[n] > 0 then [Assignment(source, blockers[n], amounts[n])] else [];
      assert ChosenBlockers(source, blockers[n..], amounts[n..])
             == first + ChosenBlockers(source, blockers[n + 1..], amounts[n + 1..]);
      SumConcat(first, ChosenBlockers(source, blockers[n + 1..], amounts[n + 1..]), target);
    }
  }

  /** A declared attacker's assignments all come from it and give every target what it is due. */
  lemma AttackGives(field: Battlefield, order: map<Id, seq<Id>>, custom: map<Id, Split>, attack: Attack,
                    firstStrike: bool, target: Id)
    ensures AllFrom(AttackDamage(field, order, custom, attack, firstStrike), attack.attacker)
    ensures AmountTo(AttackDamage(field, order, custom, attack, firstStrike), target)
            == Given(field, order, custom, attack, firstStrike, target)
  {
    var ids := BlockersOf(order, attack.attacker);
    if DealsIn(field, attack.attacker, firstStrike) && ids != [] {
      if attack.attacker in custom {
        ChosenSplitGives(attack, ids, custom[attack.attacker], target);
      } else {
        AutoSplitGives(field, field[attack.attacker], attack, ids, target);
      }
    }
  }

  lemma ChosenSplitGives(attack: Attack, ids: seq<Id>, split: Split, target: Id)
    ensures AllFrom(ChosenSplit(attack, ids, split), attack.attacker)
    ensures AmountTo(ChosenSplit(attack, ids, split), target)
            == ChosenTo(ids, split.blockers, Min(|ids|, |split.blockers|), target)
               + if target == attack.defender then Max(0, split.player) else 0
  {
    ChosenGives(attack.attacker, ids, split.blockers, 0, target);
    assert ids[0..] == ids && split.blockers[0..] == split.blockers;
    SumConcat(ChosenBlockers(attack.attacker, ids, split.blockers),
              if split.player > 0 then [Assignment(attack.attacker, attack.defender, split.player)] else [], target);
  }

  lemma AutoSplitGives(field: Battlefield, p: Permanent, attack: Attack, ids: seq<Id>, target: Id)
    requires p.Power() > 0
    ensures AllFrom(AutoSplit(field, p, attack, ids, p.Power()), attack.attacker)
    ensures AmountTo(AutoSplit(field, p, attack, ids, p.Power()), target)
            == SharesTo(field, p, ids, |ids|, target)
               + if target == attack.defender && p.Has(Trample) then Max(0, p.Power() - LethalSum(field, p, ids)) else 0
  {
    AutoTargets(field, p, attack.attacker, ids, p.Power());
    AutoGives(field, p, attack.attacker, ids, 0, target);
    assert ids[0..] == ids;
    var left := p.Power() - Min(p.Power(), LethalSum(field, p, ids));
    SumConcat(AutoBlockers(field, p, attack.attacker, ids, p.Power()),
              if left > 0 && p.Has(Trample) then [Assignment(attack.attacker, attack.defender, left)] else [], target);
  }

  // ---------- Chosen splits ----------

  function SumOf(amounts: seq<int>): int { if amounts == [] then 0 else amounts[0] + SumOf(amounts[1..]) }

  /** What the engine demands of a chosen split: nothing negative, lethal damage to every blocker
      that is still there, and exactly the attacker's power in all. */
  predicate FairSplit(field: Battlefield, attacker: Permanent, blockers: seq<Id>, split: Split) {
    && |split.blockers| == |blockers|
    && (forall i :: 0 <= i < |blockers| ==> split.blockers[i] >= LethalFor(field, attacker, blockers[i]))
    && split.player >= 0
    && SumOf(split.blockers) + split.player == attacker.Power()
  }

  lemma {:induction false} SumOfAppend(amounts: seq<int>, n: nat)
    requires n < |amounts|
    ensures SumOf(amounts[..n + 1]) == SumOf(amounts[..n]) + amounts[n]
  {
    if n == 0 {
      assert amounts[..1] == [amounts[0]];
    } else {
      SumOfAppend(amounts[1..], n - 1);
      assert amounts[..n + 1][1..] == amounts[1..][..n];
      assert amounts[..n][1..] == amounts[1..][..n - 1];
    }
  }

  lemma {:induction false} ChosenSum(source: Id, blockers: seq<Id>, amounts: seq<int>)
    requires |blockers| == |amounts| && forall i :: 0 <= i < |amounts| ==> amounts[i] >= 0
    ensures Sum(ChosenBlockers(source, blockers, amounts)) == SumOf(amounts)
    ensures forall d :: d in ChosenBlockers(source, blockers, amounts) ==> d.target in blockers
  {
    if blockers == [] {
    } else {
      ChosenSum(source, blockers[1..], amounts[1..]);
      var rest := ChosenBlockers(source, blockers[1..], amounts[1..]);
      SumConcat([Assignment(source, blockers[0], amounts[0])], rest, blockers[0]);
      assert ChosenBlockers(source, blockers, amounts)
             == if amounts[0] > 0 then [Assignment(source, blockers[0], amounts[0])] + rest else rest;
    }
  }

  lemma {:induction false} LethalIsLeast(field: Battlefield, attacker: Permanent, blockers: seq<Id>, amounts: seq<int>)
    requires |blockers| == |amounts|
    requires forall i :: 0 <= i < |blockers| ==> amounts[i] >= LethalFor(field, attacker, blockers[i])
    ensures LethalSum(field, attacker, blockers) <= SumOf(amounts)
  {
    if blockers == [] {
    } else {
      assert forall i :: 0 <= i < |blockers[1..]| ==>
               blockers[1..][i] == blockers[i + 1] && amounts[1..][i] == amounts[i + 1];
      LethalIsLeast(field, attacker, blockers[1..], amounts[1..]);
    }
  }

  /** Trample: the automatic split and every fair split use exactly the attacker's power, and no fair
      split gives the defending player more than the automatic one. */
  lemma TrampleIsOptimal(field: Battlefield, attacker: Permanent, attack: Attack, blockers: seq<Id>, split: Split)
    requires attacker.Has(Trample) && attacker.Power() > 0 && attack.defender !in blockers
    requires FairSplit(field, attacker, blockers, split)
    ensures Sum(AutoSplit(field, attacker, attack, blockers, attacker.Power())) == attacker.Power()
    ensures Sum(ChosenSplit(attack, blockers, split)) == attacker.Power()
    ensures AmountTo(ChosenSplit(attack, blockers, split), attack.defender)
            <= AmountTo(AutoSplit(field, attacker, attack, blockers, attacker.Power()), attack.defender)
  {
    TrampleTotal(field, attacker, attack, blockers);
    ChosenTotal(field, attacker, attack, blockers, split);
    LethalIsLeast(field, attacker, blockers, split.blockers);
  }

  lemma TrampleTotal(field: Battlefield, attacker: Permanent, attack: Attack, blockers: seq<Id>)
    requires attacker.Has(Trample) && attacker.Power() > 0 && attack.defender !in blockers
    ensures var power := attacker.Power();
            && Sum(AutoSplit(field, attacker, attack, blockers, power)) == power
            && AmountTo(AutoSplit(field, attacker, attack, blockers, power), attack.defender)
               == power - Min(power, LethalSum(field, attacker, blockers))
  {
    var power := attacker.Power();
    var auto := AutoBlockers(field, attacker, attack.attacker, blockers, power);
    var left := power - Min(power, LethalSum(field, attacker, blockers));
    AutoSum(field, attacker, attack.attacker, blockers, power);
    AutoTargets(field, attacker, attack.attacker, blockers, power);
    NotATarget(auto, attack.defender);
    SumConcat(auto, if left > 0 then [Assignment(attack.attacker, attack.defender, left)] else [], attack.defender);
  }

  lemma ChosenTotal(field: Battlefield, attacker: Permanent, attack: Attack, blockers: seq<Id>, split: Split)
    requires FairSplit(field, attacker, blockers, split) && attack.defender !in blockers
    ensures Sum(ChosenSplit(attack, blockers, split)) == attacker.Power()
    ensures AmountTo(ChosenSplit(attack, blockers, split), attack.defender) == split.player
  {
    var chosen := ChosenBlockers(attack.attacker, blockers, split.blockers);
    ChosenSum(attack.attacker, blockers, split.blockers);
    NotATarget(chosen, attack.defender);
    SumConcat(chosen, if split.player > 0 then [Assignment(attack.attacker, attack.defender, split.player)] else [],
              attack.defender);
  }

  /** Without trample a blocked attacker deals exactly min(power, lethal amounts of the blockers still
      there), all of it to blockers: the player gets nothing even when every blocker has left. */
  lemma BlockedWithoutTrample(field: Battlefield, attacker: Permanent, attack: Attack, blockers: seq<Id>)
    requires !attacker.Has(Trample) && attacker.Power() > 0
    ensures var split := AutoSplit(field, attacker, attack, blockers, attacker.Power());
            && Sum(split) == Min(attacker.Power(), LethalSum(field, attacker, blockers))
            && forall d :: d in split ==> d.target in blockers && d.target in field
  {
    AutoSum(field, attacker, attack.attacker, blockers, attacker.Power());
    AutoTargets(field, attacker, attack.attacker, blockers, attacker.Power());
    var auto := AutoBlockers(field, attacker, attack.attacker, blockers, attacker.Power());
    assert auto + [] == auto;
  }

  // ---------- The blocker index ----------

  /** The blockers declared for an attacker, in declaration order. */
  function DeclaredFor(blocks: seq<Block>, attacker: Id): seq<Id> {
    if blocks == [] then []
    else
      var last := blocks[|blocks| - 1];
      DeclaredFor(blocks[..|blocks| - 1], attacker) + (if last.attacker == attacker then [last.blocker] else [])
  }

  ghost predicate IsIndex(order: map<Id, seq<Id>>, blocks: seq<Block>) {
    && (forall a :: a in order <==> DeclaredFor(blocks, a) != [])
    && forall a :: a in order ==> order[a] == DeclaredFor(blocks, a)
  }

  lemma IndexOneMore(order: map<Id, seq<Id>>, blocks: seq<Block>, i: nat)
    requires i < |blocks| && IsIndex(order, blocks[..i])
    ensures IsIndex(order[blocks[i].attacker := BlockersOf(order, blocks[i].attacker) + [blocks[i].blocker]],
                    blocks[..i + 1])
  {
    assert blocks[..i + 1][..i] == blocks[..i];
    assert forall a ::
             DeclaredFor(blocks[..i + 1], a)
             == DeclaredFor(blocks[..i], a) + (if blocks[i].attacker == a then [blocks[i].blocker] else []);
  }

  // ---------- The combat manager ----------

  /** A player's answer to the damage prompt; None stands for no answer or one of another kind. */
  type Answer = Option<Split>

  /** Who attacks, who blocks whom, and the order in which blockers are dealt damage. */
  datatype Lineup = Lineup(attackers: seq<Attack>, blockers: seq<Block>, order: map<Id, seq<Id>>)

  /** An attacker whose controller is asked for a split: a blocked trampler that strikes in this step. */
  ghost predicate Prompted(field: Battlefield, lines: Lineup, firstStrike: bool, id: Id) {
    && (exists i :: 0 <= i < |lines.attackers| && lines.attackers[i].attacker == id)
    && id in field && field[id].IsCreature() && field[id].Has(Trample)
    && id in lines.order && StrikesNow(field[id], firstStrike)
  }

  /** An answer that splits all of the attacker's power, lethal damage to every blocker still there. */
  predicate FairAnswer(field: Battlefield, order: map<Id, seq<Id>>, attacker: Id, answer: Answer) {
    && attacker in field && BlockersOf(order, attacker) != [] && field[attacker].Power() > 0
    && answer.Some? && FairSplit(field, field[attacker], BlockersOf(order, attacker), answer.value)
  }

  /** Exactly the fair answers of the prompted attackers are in force. */
  ghost predicate SplitsInForce(field: Battlefield, lines: Lineup, custom: map<Id, Split>, firstStrike: bool,
                                answers: Id -> Answer)
  {
    && (forall a ::
         a in custom <==> Prompted(field, lines, firstStrike, a) && FairAnswer(field, lines.order, a, answers(a)))
    && (forall a :: a in custom ==> custom[a] == answers(a).value)
  }

  /** A chosen split is in force exactly for a declared attacker with trample that is blocked and deals damage, when its
      controller's answer gives every blocker still there lethal damage, the player nothing negative, and the attacker's
      power in all. */
  lemma InForceExactlyWhen(field: Battlefield, lines: Lineup, custom: map<Id, Split>, firstStrike: bool,
                           answers: Id -> Answer, id: Id)
    requires SplitsInForce(field, lines, custom, firstStrike, answers)
    ensures id in custom <==>
              && (exists attack :: attack in lines.attackers && attack.attacker == id)
              && DealsIn(field, id, firstStrike) && field[id].Has(Trample)
              && id in lines.order && lines.order[id] != [] && answers(id).Some?
              && var split, ids := answers(id).value, lines.order[id];
                 && |split.blockers| == |ids| && split.player >= 0
                 && (forall j :: 0 <= j < |ids| ==> split.blockers[j] >= LethalFor(field, field[id], ids[j]))
                 && SumOf(split.blockers) + split.player == field[id].Power()
    ensures id in custom ==> custom[id] == answers(id).value
  {
    if exists attack :: attack in lines.attackers && attack.attacker == id {
      var attack :| attack in lines.attackers && attack.attacker == id;
      var k :| 0 <= k < |lines.attackers| && lines.attackers[k] == attack;
      assert lines.attackers[k].attacker == id;
    }
  }

  /** All damage of one step: that of the attackers, then that of the blockers. */
  function StepDamage(field: Battlefield, lines: Lineup, custom: map<Id, Split>, firstStrike: bool): seq<Assignment> {
    AllAttackDamage(field, lines.order, custom, lines.attackers, firstStrike)
    + AllBlockDamage(field, lines.blockers, firstStrike)
  }

  class CombatManager {
    var attackers: seq<Attack>
    var blockers: seq<Block>
    var damageOrder: map<Id, seq<Id>>
    var customDamage: map<Id, Split>

    constructor ()
      ensures attackers == [] && blockers == [] && damageOrder == map[] && customDamage == map[]
    {
      attackers, blockers, damageOrder, customDamage := [], [], map[], map[];
    }

    /** In the middle of a combat. */
    constructor Facing(lines: Lineup)
      ensures Lines() == lines && customDamage == map[]
    {
      attackers, blockers, damageOrder, customDamage := lines.attackers, lines.blockers, lines.order, map[];
    }

    function Lines(): Lineup
      reads this
    {
      Lineup(attackers, blockers, damageOrder)
    }

    method BeginCombat()
      modifies this`attackers, this`blockers, this`damageOrder
      ensures attackers == [] && blockers == [] && damageOrder == map[]
    {
      attackers, blockers, damageOrder := [], [], map[];
    }

    /** Takes over the blocks and rebuilds the index from attacker to blockers, in declaration order. */
    method SetBlockers(blocks: seq<Block>)
      modifies this`blockers, this`damageOrder
      ensures blockers == blocks && IsIndex(damageOrder, blocks)
    {
      blockers := blocks;
      damageOrder := map[];
      for i := 0 to |blocks|
        invariant blockers == blocks && IsIndex(damageOrder, blocks[..i])
      {
        IndexOneMore(damageOrder, blocks, i);
        var b := blocks[i];
        damageOrder := damageOrder[b.attacker := BlockersOf(damageOrder, b.attacker) + [b.blocker]];
      }
      assert blocks[..|blocks|] == blocks;
    }

    method SetDamageOrder(attacker: Id, ordered: seq<Id>)
      modifies this`damageOrder
      ensures damageOrder == old(damageOrder)[attacker := ordered]
    {
      damageOrder := damageOrder[attacker := ordered];
    }

    /** Attackers with two or more blockers, in no particular order. */
    method GetAttackersNeedingBlockerOrder() returns (ids: seq<Id>)
      ensures forall a :: a in ids <==> a in damageOrder && |damageOrder[a]| >= 2
    {
      ids := [];
      var left := damageOrder.Keys;
      while left != {}
        invariant left <= damageOrder.Keys
        invariant forall a :: a in ids <==> a in damageOrder && a !in left && |damageOrder[a]| >= 2
        decreases left
      {
        var a :| a in left;
        if |damageOrder[a]| >= 2 {
          ids := ids + [a];
        }
        left := left - {a};
      }
    }

    predicate IsBlocked(attacker: Id)
      reads this
    {
      attacker in damageOrder
    }

    /** The automatic loop over an attacker's ordered blockers. */
    static method AssignAutomatically(field: Battlefield, attack: Attack,
                                      blockers: seq<Id>) returns (damage: seq<Assignment>)
      requires attack.attacker in field && field[attack.attacker].Power() > 0
      ensures damage == AutoSplit(field, field[attack.attacker], attack, blockers, field[attack.attacker].Power())
    {
      var p := field[attack.attacker];
      var remaining := p.Power();
      damage := [];
      var i := 0;
      assert blockers[0..] == blockers && [] + AutoBlockers(field, p, attack.attacker, blockers, remaining)
                                          == AutoBlockers(field, p, attack.attacker, blockers, remaining);
      while i < |blockers|
        invariant 0 <= i <= |blockers|
        invariant Assigned(field, p, attack.attacker, blockers, blockers[i..], damage, remaining)
      {
        AssignNext(field, p, attack.attacker, blockers, blockers[i..], blockers[i + 1..], damage, remaining);
        if blockers[i] in field && remaining > 0 {
          var blocker := field[blockers[i]];
          var needed := if p.Has(Deathtouch) then 1 else blocker.Toughness() - blocker.damage;
          var given := Min(remaining, Max(needed, 0));
          damage := damage + [Assignment(attack.attacker, blockers[i], given)];
          remaining := remaining - given;
        }
        i := i + 1;
      }
      assert blockers[i..] == [];
      assert damage == damage + [];
      if remaining > 0 && p.Has(Trample) {
        damage := damage + [Assignment(attack.attacker, attack.defender, remaining)];
      }
    }

    /** The loop over a chosen split. */
    static method AssignChosen(attack: Attack, blockers: seq<Id>, split: Split) returns (damage: seq<Assignment>)
      ensures damage == ChosenSplit(attack, blockers, split)
    {
      damage := [];
      var i := 0;
      while i < |blockers| && i < |split.blockers|
        invariant 0 <= i <= |blockers| && i <= |split.blockers|
        invariant ChosenBlockers(attack.attacker, blockers, split.blockers)
                  == damage + ChosenBlockers(attack.attacker, blockers[i..], split.blockers[i..])
      {
        assert blockers[i..][1..] == blockers[i + 1..] && split.blockers[i..][1..] == split.blockers[i + 1..];
        if split.blockers[i] > 0 {
          damage := damage + [Assignment(attack.attacker, blockers[i], split.blockers[i])];
        }
        i := i + 1;
      }
      if split.player > 0 {
        damage := damage + [Assignment(attack.attacker, attack.defender, split.player)];
      }
    }

    /** The damage of one step: every attacker that strikes now, then every blocker that does. */
    method ResolveCombatDamage(field: Battlefield, firstStrike: bool) returns (damage: seq<Assignment>)
      ensures damage == AllAttackDamage(field, damageOrder, customDamage, attackers, firstStrike)
                        + AllBlockDamage(field, blockers, firstStrike)
    {
      damage := DamageByAttackers(field, firstStrike);
      var more := DamageByBlockers(field, firstStrike);
      damage := damage + more;
    }

    method DamageByAttackers(field: Battlefield, firstStrike: bool) returns (damage: seq<Assignment>)
      ensures damage == AllAttackDamage(field, damageOrder, customDamage, attackers, firstStrike)
    {
      damage := [];
      for i := 0 to |attackers|
        invariant damage == AllAttackDamage(field, damageOrder, customDamage, attackers[..i], firstStrike)
      {
        assert attackers[..i + 1][..i] == attackers[..i];
        var more := OneAttacker(field, attackers[i], firstStrike);
        damage := damage + more;
      }
      assert attackers[..|attackers|] == attackers;
    }

    method DamageByBlockers(field: Battlefield, firstStrike: bool) returns (damage: seq<Assignment>)
      ensures damage == AllBlockDamage(field, blockers, firstStrike)
    {
      damage := [];
      for i := 0 to |blockers|
        invariant damage == AllBlockDamage(field, blockers[..i], firstStrike)
      {
        assert blockers[..i + 1][..i] == blockers[..i];
        var id := blockers[i].blocker;
        if id in field && field[id].IsCreature() && StrikesNow(field[id], firstStrike) && field[id].Power() > 0 {
          damage := damage + [Assignment(id, blockers[i].attacker, field[id].Power())];
        }
      }
      assert blockers[..|blockers|] == blockers;
    }

    method OneAttacker(field: Battlefield, attack: Attack, firstStrike: bool) returns (damage: seq<Assignment>)
      ensures damage == AttackDamage(field, damageOrder, customDamage, attack, firstStrike)
    {
      if attack.attacker !in field {
        return [];
      }
      var p := field[attack.attacker];
      if !p.IsCreature() || !StrikesNow(p, firstStrike) || p.Power() <= 0 {
        return [];
      }
      var ids := BlockersOf(damageOrder, attack.attacker);
      if ids == [] {
        return [Assignment(attack.attacker, attack.defender, p.Power())];
      }
      if attack.attacker in customDamage {
        damage := AssignChosen(attack, ids, customDamage[attack.attacker]);
      } else {
        damage := AssignAutomatically(field, attack, ids);
      }
    }

    /** The attackers whose controller is asked for a split. */
    method GetTrampleAttackers(field: Battlefield, firstStrike: bool) returns (ids: seq<Id>)
      ensures forall id :: id in ids <==> Prompted(field, Lines(), firstStrike, id)
    {
      ids := [];
      for i := 0 to |attackers|
        invariant forall id :: id in ids <==>
                    && (exists k :: 0 <= k < i && attackers[k].attacker == id)
                    && id in field && field[id].IsCreature() && field[id].Has(Trample)
                    && IsBlocked(id) && StrikesNow(field[id], firstStrike)
      {
        var id := attackers[i].attacker;
        if id in field && field[id].IsCreature() && field[id].Has(Trample) && IsBlocked(id)
        && StrikesNow(field[id], firstStrike) {
          ids := ids + [id];
        }
      }
    }

    /** The prompt for one trampler: the answer is taken over exactly when it is a fair split. */
    method PromptTrampleDamage(field: Battlefield, attacker: Id, answer: Answer)
      modifies this`customDamage
      ensures customDamage == if FairAnswer(field, damageOrder, attacker, answer)
                              then old(customDamage)[attacker := answer.value] else old(customDamage)
    {
      if attacker !in field {
        return;
      }
      var p := field[attacker];
      var ids := BlockersOf(damageOrder, attacker);
      if ids == [] || p.Power() <= 0 || answer.None? {
        return;
      }
      var fair := CheckSplit(field, p, ids, answer.value);
      if fair {
        customDamage := customDamage[attacker := answer.value];
      }
    }

    /** The checking loop of the prompt. */
    static method CheckSplit(field: Battlefield, p: Permanent, ids: seq<Id>, split: Split) returns (fair: bool)
      ensures fair <==> FairSplit(field, p, ids, split)
    {
      if |split.blockers| != |ids| {
        return false;
      }
      var sum := 0;
      for i := 0 to |ids|
        invariant forall k :: 0 <= k < i ==> split.blockers[k] >= LethalFor(field, p, ids[k])
        invariant sum == SumOf(split.blockers[..i])
      {
        var given := split.blockers[i];
        if given < 0 {
          return false;
        }
        if ids[i] in field {
          var blocker := field[ids[i]];
          var lethal := if p.Has(Deathtouch) then 1 else blocker.Toughness() - blocker.damage;
          if lethal < 0 {
            lethal := 0;
          }
          if given < lethal {
            return false;
          }
        }
        SumOfAppend(split.blockers, i);
        sum := sum + given;
      }
      assert split.blockers[..|ids|] == split.blockers;
      if split.player < 0 {
        return false;
      }
      return sum + split.player == p.Power();
    }

    /** The damage step up to the dealing of damage: forget old splits, ask for new ones, assign. For
        all answers exactly the fair ones of the prompted tramplers are in force. */
    method AssignCombatDamage(field: Battlefield, firstStrike: bool,
                              answers: Id -> Answer) returns (damage: seq<Assignment>)
      modifies this`customDamage
      ensures SplitsInForce(field, Lines(), customDamage, firstStrike, answers)
      ensures damage == StepDamage(field, Lines(), customDamage, firstStrike)
    {
      customDamage := map[];
      var tramplers := GetTrampleAttackers(field, firstStrike);
      for i := 0 to |tramplers|
        invariant SplitsTaken(field, damageOrder, customDamage, tramplers[..i], answers)
      {
        ghost var before := customDamage;
        PromptTrampleDamage(field, tramplers[i], answers(tramplers[i]));
        OneMorePrompt(field, damageOrder, before, customDamage, tramplers, i, answers);
      }
      assert tramplers[..|tramplers|] == tramplers;
      damage := ResolveCombatDamage(field, firstStrike);
    }
  }

  /** Of some prompted attackers exactly the fair answers have been taken. */
  ghost predicate SplitsTaken(field: Battlefield, order: map<Id, seq<Id>>, custom: map<Id, Split>, prompted: seq<Id>,
                              answers: Id -> Answer)
  {
    && (forall a :: a in custom <==> a in prompted && FairAnswer(field, order, a, answers(a)))
    && (forall a :: a in custom ==> custom[a] == answers(a).value)
  }

  lemma OneMorePrompt(field: Battlefield, order: map<Id, seq<Id>>, before: map<Id, Split>, custom: map<Id, Split>,
                      tramplers: seq<Id>, i: nat, answers: Id -> Answer)
    requires i < |tramplers| && SplitsTaken(field, order, before, tramplers[..i], answers)
    requires var a := tramplers[i];
             custom == if FairAnswer(field, order, a, answers(a)) then before[a := answers(a).value] else before
    ensures SplitsTaken(field, order, custom, tramplers[..i + 1], answers)
  {
    assert tramplers[..i + 1] == tramplers[..i] + [tramplers[i]];
  }

  /** Whatever the answers were: an attacker that strikes uses exactly its power when it is unblocked
      or tramples, and otherwise exactly min(power, lethal amounts) unless a split was chosen. */
  lemma AttackUsesPower(field: Battlefield, order: map<Id, seq<Id>>, custom: map<Id, Split>, attack: Attack,
                        firstStrike: bool)
    requires attack.attacker in field && field[attack.attacker].IsCreature()
    requires StrikesNow(field[attack.attacker], firstStrike) && field[attack.attacker].Power() > 0
    requires attack.attacker in custom ==>
               FairSplit(field, field[attack.attacker], BlockersOf(order, attack.attacker), custom[attack.attacker])
    requires attack.defender !in BlockersOf(order, attack.attacker)
    ensures var p, ids := field[attack.attacker], BlockersOf(order, attack.attacker);
            Sum(AttackDamage(field, order, custom, attack, firstStrike))
            == if ids == [] || p.Has(Trample) || attack.attacker in custom then p.Power()
               else Min(p.Power(), LethalSum(field, p, ids))
  {
    var p, ids := field[attack.attacker], BlockersOf(order, attack.attacker);
    if ids != [] {
      if attack.attacker in custom {
        ChosenTotal(field, p, attack, ids, custom[attack.attacker]);
      } else if p.Has(Trample) {
        TrampleTotal(field, p, attack, ids);
      } else {
        BlockedWithoutTrample(field, p, attack, ids);
      }
    }
  }
}
