/** The declare-blockers step: which declared blocks are taken, and in what order damage is assigned. */
module Blocks {
  import opened Permanents
  import opened Combat

  /** An answer to a prompt: none or one of another kind, a lost connection, or a list of ids. */
  datatype Reply = Silent | Lost | Given(ids: seq<Id>)

  predicate SharesColor(a: Permanent, b: Permanent) {
    exists c :: c in a.card.colors && c in b.card.colors
  }

  /** May this creature block that attacker? */
  predicate ValidBlocker(field: Battlefield, blocker: Id, attacker: Id) {
    && blocker in field && attacker in field
    && var b, a := field[blocker], field[attacker];
       && b.IsCreature() && !b.tapped && !b.Has(CantBlock)
       && (a.Has(Flying) ==> b.Has(Flying) || b.Has(Reach))
       && (a.Has(Intimidate) ==> b.card.cardType == Artifact || SharesColor(a, b))
       && !a.ProtectedFrom(b)
  }

  /** On the fields: the blocker is an untapped creature that can block, a flier needs one that flies or has reach,
      intimidation an artifact or one of a common colour, and nothing blocks what is protected from its colours. */
  lemma MayBlockExactlyWhen(field: Battlefield, blocker: Id, attacker: Id)
    requires blocker in field && attacker in field
    ensures var b, a := field[blocker], field[attacker];
            ValidBlocker(field, blocker, attacker) <==>
              && (b.card.cardType == Creature || b.animation.Some?) && !b.tapped
              && CantBlock !in b.granted && CantBlock !in b.card.keywords
              && (Flying in a.granted + a.card.keywords ==>
                    Flying in b.granted + b.card.keywords || Reach in b.granted + b.card.keywords)
              && (Intimidate in a.granted + a.card.keywords ==>
                    b.card.cardType == Artifact || a.card.colors * b.card.colors != {})
              && forall c :: c in b.card.colors ==> ProtectionFrom(c) !in a.granted + a.card.keywords
  {
    var b, a := field[blocker], field[attacker];
    CommonColor(a, b);
    if a.card.colors * b.card.colors == {} {
      NoCommonColor(a, b);
    }
  }

  /** validate_blocker, test after test. */
  method ValidateBlocker(field: Battlefield, blocker: Id, attacker: Id) returns (ok: bool)
    ensures ok <==> ValidBlocker(field, blocker, attacker)
  {
    if blocker !in field || attacker !in field {
      return false;
    }
    var b, a := field[blocker], field[attacker];
    if !b.IsCreature() || b.tapped || b.Has(CantBlock) {
      return false;
    }
    if a.Has(Flying) && !b.Has(Flying) && !b.Has(Reach) {
      return false;
    }
    if a.Has(Intimidate) {
      var sharesColor := a.card.colors * b.card.colors != {};
      if b.card.cardType != Artifact && !sharesColor {
        NoCommonColor(a, b);
        return false;
      }
      CommonColor(a, b);
    }
    return !a.ProtectedFrom(b);
  }

  lemma CommonColor(a: Permanent, b: Permanent)
    ensures a.card.colors * b.card.colors != {} ==> SharesColor(a, b)
  {
    if a.card.colors * b.card.colors != {} {
      var c :| c in a.card.colors * b.card.colors;
      assert c in a.card.colors && c in b.card.colors;
    }
  }

  lemma NoCommonColor(a: Permanent, b: Permanent)
    requires a.card.colors * b.card.colors == {}
    ensures !SharesColor(a, b)
  {
    assert forall c :: c in a.card.colors && c in b.card.colors ==> c in a.card.colors * b.card.colors;
  }

  predicate Attacking(attacks: seq<Attack>, attacker: Id) {
    exists i :: 0 <= i < |attacks| && attacks[i].attacker == attacker
  }

  /** A block the engine may take from a player. */
  predicate Takes(field: Battlefield, attacks: seq<Attack>, player: Id, block: Block) {
    && ValidBlocker(field, block.blocker, block.attacker)
    && field[block.blocker].controller == player
    && Attacking(attacks, block.attacker)
  }

  method IsAttacking(attacks: seq<Attack>, attacker: Id) returns (found: bool)
    ensures found <==> Attacking(attacks, attacker)
  {
    for i := 0 to |attacks|
      invariant forall k :: 0 <= k < i ==> attacks[k].attacker != attacker
    {
      if attacks[i].attacker == attacker {
        return true;
      }
    }
    return false;
  }

  /** The tests that a declared pair has to pass. */
  method MayTake(field: Battlefield, attacks: seq<Attack>, player: Id, blocker: Id, attacker: Id) returns (ok: bool)
    ensures ok <==> Takes(field, attacks, player, Block(blocker, attacker))
  {
    if blocker !in field || field[blocker].controller != player {
      return false;
    }
    ok := IsAttacking(attacks, attacker);
    if ok {
      ok := ValidateBlocker(field, blocker, attacker);
    }
  }

  /** No creature blocks twice. */
  ghost predicate OneBlockEach(blocks: seq<Block>) {
    forall i, j :: 0 <= i < j < |blocks| ==> blocks[i].blocker != blocks[j].blocker
  }

  /** Every block was taken from one of these players. */
  ghost predicate AllTaken(field: Battlefield, attacks: seq<Attack>, players: seq<Id>, blocks: seq<Block>) {
    forall b :: b in blocks ==> exists p :: p in players && Takes(field, attacks, p, b)
  }

  predicate Eligible(field: Battlefield, player: Id) {
    exists id :: id in field && field[id].controller == player && field[id].IsCreature() && !field[id].tapped
  }

  /** The creatures a player could block with. */
  method EligibleBlockers(field: Battlefield, player: Id) returns (ids: seq<Id>)
    ensures ids != [] <==> Eligible(field, player)
  {
    ids := [];
    var todo := field.Keys;
    while todo != {}
      invariant todo <= field.Keys
      invariant ids != [] ==> Eligible(field, player)
      invariant ids == [] ==>
                  forall id :: id in field && id !in todo
                               && field[id].controller == player && field[id].IsCreature() ==>
                                 field[id].tapped
      decreases todo
    {
      var id :| id in todo;
      todo := todo - {id};
      if field[id].controller == player && field[id].IsCreature() && !field[id].tapped {
        ids := ids + [id];
      }
    }
  }

  /** The blocks taken from the first n pairs (blocker, attacker) of a player's answer. */
  function Read(field: Battlefield, attacks: seq<Attack>, player: Id, ids: seq<Id>, n: nat): seq<Block>
    requires n <= |ids| / 2
  {
    if n == 0 then []
    else
      var earlier := Read(field, attacks, player, ids, n - 1);
      var block := Block(ids[2 * n - 2], ids[2 * n - 1]);
      if Takes(field, attacks, player, block) && forall b :: b in earlier ==> b.blocker != block.blocker
      then earlier + [block] else earlier
  }

  /** A block is taken exactly when some pair of the answer says so, blocker first, which is the first acceptable one
      for that blocker. */
  lemma {:induction false} TakenExactlyWhen(field: Battlefield, attacks: seq<Attack>, player: Id, ids: seq<Id>, n: nat,
                                            block: Block)
    requires n <= |ids| / 2
    ensures block in Read(field, attacks, player, ids, n)
            <==> exists k :: 0 <= k < n && FirstPair(field, attacks, player, ids, k, block)
    ensures forall b :: b in Read(field, attacks, player, ids, n) ==> Takes(field, attacks, player, b)
    ensures (exists b :: b in Read(field, attacks, player, ids, n) && b.blocker == block.blocker)
            <==> exists k :: 0 <= k < n && PairTaken(field, attacks, player, ids, k, block.blocker)
  {
    if n == 0 {
    } else {
      TakenExactlyWhen(field, attacks, player, ids, n - 1, block);
      TakenWithOneMore(field, attacks, player, ids, n, block);
    }
  }

  /** A pair of an answer names a blocker, and is acceptable by itself. */
  predicate PairTaken(field: Battlefield, attacks: seq<Attack>, player: Id, ids: seq<Id>, k: int, blocker: Id) {
    && 0 <= k < |ids| / 2 && ids[2 * k] == blocker
    && Takes(field, attacks, player, Block(blocker := blocker, attacker := ids[2 * k + 1]))
  }

  predicate FirstPair(field: Battlefield, attacks: seq<Attack>, player: Id, ids: seq<Id>, k: int, block: Block) {
    && PairTaken(field, attacks, player, ids, k, block.blocker) && ids[2 * k + 1] == block.attacker
    && forall j :: 0 <= j < k ==> !PairTaken(field, attacks, player, ids, j, block.blocker)
  }

  lemma TakenWithOneMore(field: Battlefield, attacks: seq<Attack>, player: Id, ids: seq<Id>, n: nat, block: Block)
    requires 0 < n <= |ids| / 2
    requires var earlier := Read(field, attacks, player, ids, n - 1);
             && (block in earlier <==> exists k :: 0 <= k < n - 1 && FirstPair(field, attacks, player, ids, k, block))
             && ((exists b :: b in earlier && b.blocker == block.blocker)
                 <==> exists k :: 0 <= k < n - 1 && PairTaken(field, attacks, player, ids, k, block.blocker))
    ensures var now := Read(field, attacks, player, ids, n);
            && (block in now <==> exists k :: 0 <= k < n && FirstPair(field, attacks, player, ids, k, block))
            && ((exists b :: b in now && b.blocker == block.blocker)
                <==> exists k :: 0 <= k < n && PairTaken(field, attacks, player, ids, k, block.blocker))
  {
    var earlier, now := Read(field, attacks, player, ids, n - 1), Read(field, attacks, player, ids, n);
    var pair := Block(ids[2 * n - 2], ids[2 * n - 1]);
    var k := n - 1;
    assert 2 * k == 2 * n - 2;
    if Takes(field, attacks, player, pair) && pair.blocker == block.blocker {
      assert PairTaken(field, attacks, player, ids, k, block.blocker);
      if forall b :: b in earlier ==> b.blocker != pair.blocker {
        assert now == earlier + [pair] && pair in now;
        if block == pair {
          assert FirstPair(field, attacks, player, ids, k, block);
        }
      }
    }
    assert now == earlier || now == earlier + [pair];
  }

  /** Reads one player's answer, pair by pair: (blocker, attacker). */
  method ReadBlocks(field: Battlefield, attacks: seq<Attack>, player: Id, ids: seq<Id>) returns (blocks: seq<Block>)
    ensures blocks == Read(field, attacks, player, ids, |ids| / 2)
    ensures OneBlockEach(blocks) && forall b :: b in blocks ==> Takes(field, attacks, player, b)
  {
    blocks := [];
    var used: set<Id> := {};
    var i := 0;
    while 2 * i + 1 < |ids|
      invariant 0 <= i <= |ids| / 2
      invariant blocks == Read(field, attacks, player, ids, i)
      invariant forall b :: b in blocks ==> Takes(field, attacks, player, b)
      invariant OneBlockEach(blocks) && UsedBy(blocks, used)
    {
      var block := Block(blocker := ids[2 * i], attacker := ids[2 * i + 1]);
      if block.blocker !in used {
        var ok := MayTake(field, attacks, player, block.blocker, block.attacker);
        if ok {
          TakeOneMore(blocks, block, used);
          blocks := blocks + [block];
          used := used + {block.blocker};
        }
      }
      i := i + 1;
    }
  }

  /** The ids of the creatures that block already. */
  ghost predicate UsedBy(blocks: seq<Block>, used: set<Id>) {
    forall id :: id in used <==> exists b :: b in blocks && b.blocker == id
  }

  lemma TakeOneMore(blocks: seq<Block>, block: Block, used: set<Id>)
    requires OneBlockEach(blocks) && UsedBy(blocks, used) && block.blocker !in used
    ensures OneBlockEach(blocks + [block]) && UsedBy(blocks + [block], used + {block.blocker})
  {
    forall i | 0 <= i < |blocks| ensures blocks[i].blocker != block.blocker {
      assert blocks[i] in blocks;
    }
    forall id | id in used ensures exists b :: b in blocks + [block] && b.blocker == id {
      var b :| b in blocks && b.blocker == id;
      assert b in blocks + [block];
    }
    assert block in blocks + [block];
  }

  /** Blocks of different players are blocks of different creatures. */
  lemma JoinBlocks(field: Battlefield, attacks: seq<Attack>, players: seq<Id>, player: Id, earlier: seq<Block>,
                   blocks: seq<Block>)
    requires player !in players
    requires OneBlockEach(earlier) && AllTaken(field, attacks, players, earlier)
    requires OneBlockEach(blocks) && forall b :: b in blocks ==> Takes(field, attacks, player, b)
    ensures OneBlockEach(earlier + blocks) && AllTaken(field, attacks, players + [player], earlier + blocks)
  {
    var all := earlier + blocks;
    forall i, j | 0 <= i < j < |all| ensures all[i].blocker != all[j].blocker {
      if i < |earlier| <= j {
        assert earlier[i] in earlier && blocks[j - |earlier|] in blocks;
      }
    }
    forall b | b in all ensures exists p :: p in players + [player] && Takes(field, attacks, p, b) {
      if b in blocks {
        assert player in players + [player];
      } else {
        var p :| p in players && Takes(field, attacks, p, b);
        assert p in players + [player];
      }
    }
  }

  lemma AllTakenByMore(field: Battlefield, attacks: seq<Attack>, players: seq<Id>, n: nat, blocks: seq<Block>)
    requires n <= |players| && AllTaken(field, attacks, players[..n], blocks)
    ensures AllTaken(field, attacks, players, blocks)
  {
    forall b | b in blocks ensures exists p :: p in players && Takes(field, attacks, p, b) {
      var p :| p in players[..n] && Takes(field, attacks, p, b);
      assert p in players;
    }
  }

  predicate Reorders(reply: Reply, ids: seq<Id>) { reply.Given? && multiset(reply.ids) == multiset(ids) }

  /** Every blocked attacker has its declared order, but for those asked about whose answer reorders it. */
  ghost predicate Ordered(order: map<Id, seq<Id>>, blocks: seq<Block>, orders: Id -> Reply, asked: set<Id>) {
    && (forall a :: a in order <==> DeclaredFor(blocks, a) != [])
    && forall a :: a in order ==> order[a] == OrderFor(blocks, orders, asked, a)
  }

  function OrderFor(blocks: seq<Block>, orders: Id -> Reply, asked: set<Id>, a: Id): seq<Id> {
    if a in asked && Reorders(orders(a), DeclaredFor(blocks, a)) then orders(a).ids else DeclaredFor(blocks, a)
  }

  /** Attackers with two or more blockers are asked about: all of them, unless a connection is lost on the way. */
  ghost predicate AskedAbout(blocks: seq<Block>, orders: Id -> Reply, asked: set<Id>) {
    && (forall a :: a in asked ==> |DeclaredFor(blocks, a)| >= 2 && orders(a) != Lost)
    && ((exists a: Id :: LostOver(blocks, orders, a)) || forall a: Id :: |DeclaredFor(blocks, a)| >= 2 ==> a in asked)
  }

  predicate LostOver(blocks: seq<Block>, orders: Id -> Reply, a: Id) {
    |DeclaredFor(blocks, a)| >= 2 && orders(a) == Lost
  }

  /** Somebody among the first n prompted players has lost the connection. */
  predicate LostBy(field: Battlefield, players: seq<Id>, replies: Id -> Reply, n: nat)
    requires n <= |players|
  {
    exists k :: 0 <= k < n && Eligible(field, players[k]) && replies(players[k]) == Lost
  }

  /** The blocks taken from the first n defending players, up to a lost connection. */
  function Collected(field: Battlefield, attacks: seq<Attack>, players: seq<Id>, replies: Id -> Reply,
                     n: nat): seq<Block>
    requires n <= |players|
  {
    if n == 0 then []
    else
      var earlier := Collected(field, attacks, players, replies, n - 1);
      var player := players[n - 1];
      if LostBy(field, players, replies, n) || !Eligible(field, player) || !replies(player).Given? then earlier
      else earlier + Read(field, attacks, player, replies(player).ids, |replies(player).ids| / 2)
  }

  /** A block is collected exactly when it is taken from the answer of one of the players who can block, before anybody
      has lost the connection. */
  lemma {:induction false} CollectedExactlyWhen(field: Battlefield, attacks: seq<Attack>, players: seq<Id>,
                                                replies: Id -> Reply, n: nat, block: Block)
    requires n <= |players|
    ensures block in Collected(field, attacks, players, replies, n)
            <==> exists k :: 0 <= k < n && TakenFrom(field, attacks, players, replies, k, block)
  {
    if n == 0 {
    } else {
      CollectedExactlyWhen(field, attacks, players, replies, n - 1, block);
      assert TakenFrom(field, attacks, players, replies, n - 1, block)
             <==> block in Collected(field, attacks, players, replies, n)
                  && (block !in Collected(field, attacks, players, replies, n - 1)
                      || TakenFrom(field, attacks, players, replies, n - 1, block));
    }
  }

  predicate TakenFrom(field: Battlefield, attacks: seq<Attack>, players: seq<Id>, replies: Id -> Reply, k: int,
                      block: Block)
  {
    && 0 <= k < |players| && !LostBy(field, players, replies, k + 1)
    && Eligible(field, players[k]) && replies(players[k]).Given?
    && block in Read(field, attacks, players[k], replies(players[k]).ids, |replies(players[k]).ids| / 2)
  }

  lemma {:induction false} NothingAfterLost(field: Battlefield, attacks: seq<Attack>, players: seq<Id>,
                                            replies: Id -> Reply, n: nat, m: nat)
    requires n <= m <= |players| && LostBy(field, players, replies, n)
    ensures Collected(field, attacks, players, replies, m) == Collected(field, attacks, players, replies, n)
    decreases m - n
  {
    if n == m {
    } else {
      NothingAfterLost(field, attacks, players, replies, n, m - 1);
    }
  }

  /** The prompts to the defending players, in their order; a lost connection ends them. */
  method CollectBlocks(combat: CombatManager, field: Battlefield, players: seq<Id>, replies: Id -> Reply)
    requires combat.blockers == [] && combat.damageOrder == map[]
    requires forall i, j :: 0 <= i < j < |players| ==> players[i] != players[j]
    modifies combat`blockers, combat`damageOrder
    ensures OneBlockEach(combat.blockers) && AllTaken(field, combat.attackers, players, combat.blockers)
    ensures IsIndex(combat.damageOrder, combat.blockers)
    ensures combat.blockers == Collected(field, combat.attackers, players, replies, |players|)
  {
    for i := 0 to |players|
      invariant !LostBy(field, players, replies, i)
      invariant combat.blockers == Collected(field, combat.attackers, players, replies, i)
      invariant OneBlockEach(combat.blockers) && AllTaken(field, combat.attackers, players[..i], combat.blockers)
      invariant IsIndex(combat.damageOrder, combat.blockers)
    {
      assert players[..i + 1] == players[..i] + [players[i]];
      var eligible := EligibleBlockers(field, players[i]);
      if eligible != [] {
        match replies(players[i])
        case Silent =>
        case Lost =>
          AllTakenByMore(field, combat.attackers, players, i, combat.blockers);
          assert LostBy(field, players, replies, i + 1);
          NothingAfterLost(field, combat.attackers, players, replies, i + 1, |players|);
          return;
        case Given(ids) =>
          var blocks := ReadBlocks(field, combat.attackers, players[i], ids);
          JoinBlocks(field, combat.attackers, players[..i], players[i], combat.blockers, blocks);
          if blocks != [] {
            combat.SetBlockers(combat.blockers + blocks);
          } else {
            assert combat.blockers + blocks == combat.blockers;
          }
      }
    }
    assert players[..|players|] == players;
  }

  /** The prompts to the attacking player: an answer that is a reordering of the blockers is taken. */
  method OrderBlockers(combat: CombatManager, orders: Id -> Reply) returns (ghost asked: set<Id>)
    requires IsIndex(combat.damageOrder, combat.blockers)
    modifies combat`damageOrder
    ensures Ordered(combat.damageOrder, combat.blockers, orders, asked) && AskedAbout(combat.blockers, orders, asked)
  {
    var needing := combat.GetAttackersNeedingBlockerOrder();
    ghost var index, blocks := combat.damageOrder, combat.blockers;
    var i := 0;
    asked := {};
    while i < |needing| && orders(needing[i]) != Lost
      invariant 0 <= i <= |needing|
      invariant OrderedSoFar(combat.damageOrder, blocks, orders, needing, i, asked)
    {
      ghost var before := combat.damageOrder;
      assert needing[i] in needing;
      OrderOne(combat, needing[i], orders(needing[i]));
      OrderedOneMore(before, combat.damageOrder, blocks, orders, needing, i, asked);
      i, asked := i + 1, asked + {needing[i]};
    }
    AllAsked(index, blocks, orders, needing, i, asked);
  }

  /** One prompt; no answer, or one that is no reordering, leaves the order as it is. */
  method OrderOne(combat: CombatManager, attacker: Id, reply: Reply)
    requires attacker in combat.damageOrder && reply != Lost
    modifies combat`damageOrder
    ensures combat.damageOrder == if Reorders(reply, old(combat.damageOrder)[attacker])
                                  then old(combat.damageOrder)[attacker := reply.ids] else old(combat.damageOrder)
  {
    if reply.Given? {
      var ids := combat.damageOrder[attacker];
      SameLength(reply.ids, ids);
      if |reply.ids| == |ids| && multiset(reply.ids) == multiset(ids) {
        combat.SetDamageOrder(attacker, reply.ids);
      }
    }
  }

  ghost predicate OrderedSoFar(order: map<Id, seq<Id>>, blocks: seq<Block>, orders: Id -> Reply, needing: seq<Id>,
                               i: nat,
                               asked: set<Id>)
  {
    && i <= |needing| && Ordered(order, blocks, orders, asked)
    && (forall a :: a in asked <==> exists k :: 0 <= k < i && needing[k] == a)
    && (forall k :: 0 <= k < i ==> orders(needing[k]) != Lost)
    && forall k :: 0 <= k < |needing| ==> |DeclaredFor(blocks, needing[k])| >= 2
  }

  /** An answer is compared with the order in force, which is a reordering of the declared one. */
  lemma OrderedOneMore(before: map<Id, seq<Id>>, order: map<Id, seq<Id>>, blocks: seq<Block>, orders: Id -> Reply,
                       needing: seq<Id>, i: nat, asked: set<Id>)
    requires i < |needing| && OrderedSoFar(before, blocks, orders, needing, i, asked) && orders(needing[i]) != Lost
    requires needing[i] in before
    requires order == if Reorders(orders(needing[i]), before[needing[i]])
                      then before[needing[i] := orders(needing[i]).ids] else before
    ensures OrderedSoFar(order, blocks, orders, needing, i + 1, asked + {needing[i]})
  {
    OrderedWithOne(before, order, blocks, orders, asked, needing[i]);
  }

  lemma OrderedWithOne(before: map<Id, seq<Id>>, order: map<Id, seq<Id>>, blocks: seq<Block>, orders: Id -> Reply,
                       asked: set<Id>, attacker: Id)
    requires attacker in before && Ordered(before, blocks, orders, asked)
    requires order == if Reorders(orders(attacker), before[attacker])
                      then before[attacker := orders(attacker).ids] else before
    ensures Ordered(order, blocks, orders, asked + {attacker})
  {
    var more := asked + {attacker};
    assert multiset(before[attacker]) == multiset(DeclaredFor(blocks, attacker));
    forall a | a in order ensures order[a] == OrderFor(blocks, orders, more, a) {
      assert before[a] == OrderFor(blocks, orders, asked, a);
    }
  }

  lemma AllAsked(index: map<Id, seq<Id>>, blocks: seq<Block>, orders: Id -> Reply, needing: seq<Id>, i: nat,
                 asked: set<Id>)
    requires IsIndex(index, blocks) && forall a :: a in needing <==> a in index && |index[a]| >= 2
    requires i <= |needing| && (i == |needing| || orders(needing[i]) == Lost)
    requires forall a :: a in asked <==> exists k :: 0 <= k < i && needing[k] == a
    requires forall k :: 0 <= k < i ==> orders(needing[k]) != Lost
    ensures AskedAbout(blocks, orders, asked)
  {
    forall a | a in asked ensures |DeclaredFor(blocks, a)| >= 2 && orders(a) != Lost {
      var k :| 0 <= k < i && needing[k] == a;
      assert needing[k] in needing;
    }
    if i < |needing| {
      assert needing[i] in needing && LostOver(blocks, orders, needing[i]);
    } else {
      forall a: Id | |DeclaredFor(blocks, a)| >= 2 ensures a in asked {
        assert a in index && a in needing;
      }
    }
  }

  lemma SameLength(a: seq<Id>, b: seq<Id>)
    ensures multiset(a) == multiset(b) ==> |a| == |b|
  {
    assert |multiset(a)| == |a| && |multiset(b)| == |b|;
  }

  /** The whole step, for any answers: every block was taken from a defending player who controls the
      blocker, no creature blocks twice, an attacker is blocked exactly when a block names it, and its
      damage order is an order of its declared blockers, the answered one if the answer is such an order. */
  method DeclareBlockers(combat: CombatManager, field: Battlefield, players: seq<Id>, replies: Id -> Reply,
                         orders: Id -> Reply) returns (ghost asked: set<Id>)
    requires combat.blockers == [] && combat.damageOrder == map[]
    requires forall i, j :: 0 <= i < j < |players| ==> players[i] != players[j]
    modifies combat`blockers, combat`damageOrder
    ensures combat.attackers != [] ==>
              combat.blockers == Collected(field, combat.attackers, players, replies, |players|)
    ensures OneBlockEach(combat.blockers) && AllTaken(field, combat.attackers, players, combat.blockers)
    ensures Ordered(combat.damageOrder, combat.blockers, orders, asked) && AskedAbout(combat.blockers, orders, asked)
    ensures forall a :: combat.IsBlocked(a) <==> exists b :: b in combat.blockers && b.attacker == a
    ensures forall a :: combat.IsBlocked(a) ==>
              && multiset(combat.damageOrder[a]) == multiset(DeclaredFor(combat.blockers, a))
              && Distinct(combat.damageOrder[a])
              && Attacking(combat.attackers, a)
  {
    if combat.attackers == [] {
      assert forall a: Id :: DeclaredFor(combat.blockers, a) == [];
      return {};
    }
    CollectBlocks(combat, field, players, replies);
    asked := OrderBlockers(combat, orders);
    forall a ensures combat.IsBlocked(a) <==> exists b :: b in combat.blockers && b.attacker == a {
      DeclaredIffBlocked(combat.blockers, a);
    }
    forall a | combat.IsBlocked(a) ensures Distinct(combat.damageOrder[a]) && Attacking(combat.attackers, a) {
      DeclaredAreDistinct(combat.blockers, a);
      SameLength(combat.damageOrder[a], DeclaredFor(combat.blockers, a));
      DistinctReordering(DeclaredFor(combat.blockers, a), combat.damageOrder[a]);
      DeclaredIffBlocked(combat.blockers, a);
    }
  }

  lemma {:induction false} DeclaredIffBlocked(blocks: seq<Block>, attacker: Id)
    ensures DeclaredFor(blocks, attacker) != [] <==> exists b :: b in blocks && b.attacker == attacker
    ensures forall id :: id in DeclaredFor(blocks, attacker) <==> Block(id, attacker) in blocks
  {
    if blocks == [] {
    } else {
      DeclaredIffBlocked(blocks[..|blocks| - 1], attacker);
      assert blocks == blocks[..|blocks| - 1] + [blocks[|blocks| - 1]];
    }
  }

  lemma {:induction false} DeclaredAreDistinct(blocks: seq<Block>, attacker: Id)
    requires OneBlockEach(blocks)
    ensures Distinct(DeclaredFor(blocks, attacker))
  {
    if blocks == [] {
    } else {
      var front, last := blocks[..|blocks| - 1], blocks[|blocks| - 1];
      DeclaredAreDistinct(front, attacker);
      DeclaredIffBlocked(front, attacker);
      var ids := DeclaredFor(front, attacker);
      forall i | 0 <= i < |ids| ensures ids[i] != last.blocker {
        assert Block(ids[i], attacker) in front;
      }
    }
  }

  lemma DistinctReordering(ids: seq<Id>, other: seq<Id>)
    requires Distinct(ids) && multiset(ids) == multiset(other)
    ensures Distinct(other)
  {
    forall id ensures multiset(ids)[id] <= 1 {
      AtMostOnce(ids, id);
    }
    forall i, j | 0 <= i < j < |other| ensures other[i] != other[j] {
      assert other == other[..i] + [other[i]] + other[i + 1..j] + [other[j]] + other[j + 1..];
      assert multiset(other)[other[i]] <= 1;
    }
  }

  lemma {:induction false} AtMostOnce(ids: seq<Id>, id: Id)
    requires Distinct(ids)
    ensures multiset(ids)[id] <= 1
  {
    if ids == [] {
    } else {
      assert ids == [ids[0]] + ids[1..];
      AtMostOnce(ids[1..], id);
      if ids[0] == id {
        assert id !in ids[1..];
      }
    }
  }
}
