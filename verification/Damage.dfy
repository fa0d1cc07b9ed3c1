/** Damage: dealt one assignment at a time, meant to be simultaneous
    (rule 510.2 of the Magic Comprehensive Rules). */
module Damage {
  import opened Common
  import opened Permanents

  /** What damage can change. */
  datatype Board = Board(battlefield: map<Id, Permanent>, players: map<Id, Player>)

  datatype Assignment = Assignment(source: Id, target: Id, amount: int)

  /** The damage is really dealt: a positive amount, to a permanent that is not protected from the
      source, or else to a player. */
  predicate Lands(b: Board, d: Assignment) {
    && d.amount > 0
    && if d.target in b.battlefield
       then !(d.source in b.battlefield && b.battlefield[d.target].ProtectedFrom(b.battlefield[d.source]))
       else d.target in b.players
  }

  predicate SourceHas(b: Board, d: Assignment, k: Keyword) {
    d.source in b.battlefield && b.battlefield[d.source].Has(k)
  }

  /** A permanent with more damage on it. */
  function Marked(p: Permanent, amount: nat, deathtouch: bool): Permanent {
    p.(damage := p.damage + amount, deathtouched := p.deathtouched || deathtouch)
  }

  /** Damage that one assignment marks on a permanent. */
  function Marks(b: Board, d: Assignment, id: Id): nat {
    if Lands(b, d) && d.target == id && id in b.battlefield then d.amount else 0
  }

  predicate MarksDeathtouch(b: Board, d: Assignment, id: Id) {
    Marks(b, d, id) > 0 && SourceHas(b, d, Deathtouch)
  }

  /** Life that one assignment costs a player, as its target. */
  function LifeLost(b: Board, d: Assignment, player: Id): nat {
    if Lands(b, d) && d.target == player && d.target !in b.battlefield then d.amount else 0
  }

  /** Life that one assignment brings a player, as the controller of a source with lifelink. */
  function LifeGained(b: Board, d: Assignment, player: Id): nat {
    if Lands(b, d) && SourceHas(b, d, Lifelink) && b.battlefield[d.source].controller == player then d.amount else 0
  }

  /** The board after one assignment. */
  function Deal(b: Board, d: Assignment): Board {
    Board(map id | id in b.battlefield :: Marked(b.battlefield[id], Marks(b, d, id), MarksDeathtouch(b, d, id)),
          map p | p in b.players :: b.players[p].(life := b.players[p].life - LifeLost(b, d, p) + LifeGained(b, d, p)))
  }

  /** One assignment, on the fields: without a positive amount, or with a target that is protected or is nobody, it does
      nothing; a permanent is marked, and marked for destruction by a source with deathtouch; a player loses life; and
      with lifelink the source's controller gains as much. */
  lemma DealMeans(b: Board, d: Assignment, id: Id)
    ensures var c := Deal(b, d);
            var hits := d.amount > 0 && if d.target !in b.battlefield then d.target in b.players
                                        else d.source !in b.battlefield || !Shields(b.battlefield[d.target],
                                                                                    b.battlefield[d.source]);
            var source := if d.source in b.battlefield then Some(b.battlefield[d.source]) else None;
            && (id in c.battlefield <==> id in b.battlefield) && (id in c.players <==> id in b.players)
            && (id in b.battlefield ==>
                  var p, q := b.battlefield[id], c.battlefield[id];
                  && q == p.(damage := q.damage, deathtouched := q.deathtouched)
                  && q.damage - p.damage == (if hits && d.target == id then d.amount else 0)
                  && (q.deathtouched <==> || p.deathtouched
                                          || (hits && d.target == id && source.Some? && source.value.Has(Deathtouch))))
            && (id in b.players ==>
                  var p, q := b.players[id], c.players[id];
                  && q == p.(life := q.life)
                  && q.life - p.life
                     == (if hits && source.Some? && source.value.Has(Lifelink) && source.value.controller == id
                         then d.amount else 0)
                        - if hits && d.target == id && id !in b.battlefield then d.amount else 0)
  {}

  /** Protection from one of the source's colours. */
  ghost predicate Shields(p: Permanent, source: Permanent) {
    exists c :: c in source.card.colors && (ProtectionFrom(c) in p.granted || ProtectionFrom(c) in p.card.keywords)
  }

  /** The assignments dealt one after the other. */
  function DealAll(b: Board, ds: seq<Assignment>): Board
    decreases |ds|
  {
    if ds == [] then b else DealAll(Deal(b, ds[0]), ds[1..])
  }

  // ---------- Damage changes only marks and life ----------

  ghost predicate SameButMarks(b: Board, c: Board) {
    && b.battlefield.Keys == c.battlefield.Keys && b.players.Keys == c.players.Keys
    && forall id :: id in b.battlefield ==>
         c.battlefield[id]
         == b.battlefield[id].(damage := c.battlefield[id].damage, deathtouched := c.battlefield[id].deathtouched)
  }

  lemma SameEffect(b: Board, c: Board, d: Assignment)
    requires SameButMarks(b, c)
    ensures Lands(b, d) == Lands(c, d)
    ensures forall id :: Marks(b, d, id) == Marks(c, d, id) && MarksDeathtouch(b, d, id) == MarksDeathtouch(c, d, id)
    ensures forall p :: LifeLost(b, d, p) == LifeLost(c, d, p) && LifeGained(b, d, p) == LifeGained(c, d, p)
  {
    assert d.source in b.battlefield ==> c.battlefield[d.source].card == b.battlefield[d.source].card
                                         && c.battlefield[d.source].granted == b.battlefield[d.source].granted;
    assert d.target in b.battlefield ==> c.battlefield[d.target].card == b.battlefield[d.target].card
                                         && c.battlefield[d.target].granted == b.battlefield[d.target].granted;
    if d.source in b.battlefield && d.target in b.battlefield {
      assert b.battlefield[d.target].ProtectedFrom(b.battlefield[d.source])
             == c.battlefield[d.target].ProtectedFrom(c.battlefield[d.source]) by {
        assert forall k :: b.battlefield[d.target].Has(k) == c.battlefield[d.target].Has(k);
      }
    }
  }

  lemma DealKeepsRest(b: Board, d: Assignment)
    ensures SameButMarks(b, Deal(b, d))
  {}

  // ---------- One after the other is all at once ----------

  function TotalMarks(b: Board, ds: seq<Assignment>, id: Id): nat {
    if ds == [] then 0 else Marks(b, ds[0], id) + TotalMarks(b, ds[1..], id)
  }

  function TotalLifeChange(b: Board, ds: seq<Assignment>, player: Id): int {
    if ds == [] then 0
    else LifeGained(b, ds[0], player) - LifeLost(b, ds[0], player) + TotalLifeChange(b, ds[1..], player)
  }

  function TotalGained(b: Board, ds: seq<Assignment>, player: Id): nat {
    if ds == [] then 0 else LifeGained(b, ds[0], player) + TotalGained(b, ds[1..], player)
  }

  lemma {:induction false} TotalsOfBoth(b: Board, ds: seq<Assignment>, es: seq<Assignment>, id: Id)
    ensures TotalMarks(b, ds + es, id) == TotalMarks(b, ds, id) + TotalMarks(b, es, id)
    ensures TotalLifeChange(b, ds + es, id) == TotalLifeChange(b, ds, id) + TotalLifeChange(b, es, id)
    ensures TotalGained(b, ds + es, id) == TotalGained(b, ds, id) + TotalGained(b, es, id)
  {
    if ds == [] {
      assert ds + es == es;
    } else {
      assert (ds + es)[1..] == ds[1..] + es;
      TotalsOfBoth(b, ds[1..], es, id);
    }
  }

  predicate Touched(b: Board, ds: seq<Assignment>, id: Id) { exists d :: d in ds && MarksDeathtouch(b, d, id) }

  /** The board when every assignment is judged against the board before the damage. */
  function AllAtOnce(b: Board, ds: seq<Assignment>): Board {
    Board(map id | id in b.battlefield ::
            Marked(b.battlefield[id], TotalMarks(b, ds, id), Touched(b, ds, id)),
          map p | p in b.players :: b.players[p].(life := b.players[p].life + TotalLifeChange(b, ds, p)))
  }

  lemma {:induction false} SameTotals(b: Board, c: Board, ds: seq<Assignment>, id: Id)
    requires SameButMarks(b, c)
    ensures TotalMarks(b, ds, id) == TotalMarks(c, ds, id) && TotalLifeChange(b, ds, id) == TotalLifeChange(c, ds, id)
  {
    if ds == [] {
    } else {
      SameEffect(b, c, ds[0]);
      SameTotals(b, c, ds[1..], id);
    }
  }

  /** The board afterwards does not depend on what earlier assignments did to it. */
  lemma {:induction false} DealAllIsAllAtOnce(b: Board, ds: seq<Assignment>)
    ensures DealAll(b, ds) == AllAtOnce(b, ds)
    decreases |ds|
  {
    if ds == [] {
      assert AllAtOnce(b, ds) == b;
    } else {
      var c := Deal(b, ds[0]);
      DealAllIsAllAtOnce(c, ds[1..]);
      DealKeepsRest(b, ds[0]);
      OneMore(b, ds);
    }
  }

  lemma OneMore(b: Board, ds: seq<Assignment>)
    requires ds != []
    ensures AllAtOnce(Deal(b, ds[0]), ds[1..]) == AllAtOnce(b, ds)
  {
    var left, right := AllAtOnce(Deal(b, ds[0]), ds[1..]), AllAtOnce(b, ds);
    forall id | id in b.battlefield ensures left.battlefield[id] == right.battlefield[id] {
      OneMoreOnPermanent(b, ds, id);
    }
    forall p | p in b.players ensures left.players[p] == right.players[p] {
      DealKeepsRest(b, ds[0]);
      SameTotals(b, Deal(b, ds[0]), ds[1..], p);
    }
    assert left.battlefield == right.battlefield && left.players == right.players;
  }

  lemma OneMoreOnPermanent(b: Board, ds: seq<Assignment>, id: Id)
    requires ds != [] && id in b.battlefield
    ensures AllAtOnce(Deal(b, ds[0]), ds[1..]).battlefield[id] == AllAtOnce(b, ds).battlefield[id]
  {
    var c := Deal(b, ds[0]);
    DealKeepsRest(b, ds[0]);
    SameTotals(b, c, ds[1..], id);
    SomeMarksDeathtouch(b, c, ds, id);
    MarkedTwice(b.battlefield[id], Marks(b, ds[0], id), MarksDeathtouch(b, ds[0], id), TotalMarks(c, ds[1..], id),
                Touched(c, ds[1..], id));
  }

  lemma MarkedTwice(p: Permanent, m: nat, f: bool, n: nat, g: bool)
    ensures Marked(Marked(p, m, f), n, g) == Marked(p, m + n, f || g)
  {}

  lemma SomeMarksDeathtouch(b: Board, c: Board, ds: seq<Assignment>, id: Id)
    requires ds != [] && SameButMarks(b, c)
    ensures Touched(b, ds, id) <==> MarksDeathtouch(b, ds[0], id) || Touched(c, ds[1..], id)
  {
    forall d {
      SameEffect(b, c, d);
    }
    assert forall d :: d in ds <==> d == ds[0] || d in ds[1..];
  }

  // ---------- Order does not matter ----------

  lemma {:induction false} TakeOut(b: Board, before: seq<Assignment>, x: Assignment, after: seq<Assignment>, id: Id)
    ensures TotalMarks(b, before + [x] + after, id) == Marks(b, x, id) + TotalMarks(b, before + after, id)
    ensures TotalLifeChange(b, before + [x] + after, id)
            == LifeGained(b, x, id) - LifeLost(b, x, id) + TotalLifeChange(b, before + after, id)
  {
    var all := before + [x] + after;
    if before == [] {
      assert all[1..] == after && before + after == after;
    } else {
      assert all[1..] == before[1..] + [x] + after;
      assert (before + after)[1..] == before[1..] + after;
      TakeOut(b, before[1..], x, after, id);
    }
  }

  lemma {:induction false} SameTotalsInAnyOrder(b: Board, ds: seq<Assignment>, es: seq<Assignment>, id: Id)
    requires multiset(ds) == multiset(es)
    ensures TotalMarks(b, ds, id) == TotalMarks(b, es, id)
    ensures TotalLifeChange(b, ds, id) == TotalLifeChange(b, es, id)
  {
    if ds == [] {
      assert |multiset(es)| == 0;
    } else {
      var k := HeadInPermutation(ds, es);
      TakeOut(b, es[..k], es[k], es[k + 1..], id);
      SameTotalsInAnyOrder(b, ds[1..], es[..k] + es[k + 1..], id);
    }
  }

  /** Any order of the same assignments gives the same board. */
  lemma AnyOrder(b: Board, ds: seq<Assignment>, es: seq<Assignment>)
    requires multiset(ds) == multiset(es)
    ensures DealAll(b, ds) == DealAll(b, es)
  {
    DealAllIsAllAtOnce(b, ds);
    DealAllIsAllAtOnce(b, es);
    var left, right := AllAtOnce(b, ds), AllAtOnce(b, es);
    forall id | id in b.battlefield ensures left.battlefield[id] == right.battlefield[id] {
      SamePermanent(b, ds, es, id);
    }
    forall p | p in b.players ensures left.players[p] == right.players[p] {
      SameTotalsInAnyOrder(b, ds, es, p);
    }
    assert left.battlefield == right.battlefield && left.players == right.players;
  }

  lemma SamePermanent(b: Board, ds: seq<Assignment>, es: seq<Assignment>, id: Id)
    requires multiset(ds) == multiset(es) && id in b.battlefield
    ensures AllAtOnce(b, ds).battlefield[id] == AllAtOnce(b, es).battlefield[id]
  {
    SameTotalsInAnyOrder(b, ds, es, id);
    assert forall d :: d in ds <==> d in multiset(ds);
    assert forall d :: d in es <==> d in multiset(es);
  }
}
