/** What a spell or an ability costs and how that is paid: convoke, lands that are tapped automatically, and the
    player's mana pool. */
module Costs {
  import opened Common
  import opened Permanents
  import opened Game
  import Mana

  // ---------- The cost of a spell ----------

  function Pip(cost: Mana.Cost, c: CardColor): nat {
    match c
    case White => cost.white
    case Blue => cost.blue
    case Black => cost.black
    case Red => cost.red
    case Green => cost.green
  }

  function WithPip(cost: Mana.Cost, c: CardColor, n: nat): Mana.Cost {
    match c
    case White => cost.(white := n)
    case Blue => cost.(blue := n)
    case Black => cost.(black := n)
    case Red => cost.(red := n)
    case Green => cost.(green := n)
  }

  /** The chosen X for every X in the cost; a negative one counts as none. */
  function WithX(cost: Mana.Cost, xCount: nat, x: int): Mana.Cost {
    var chosen: nat := if x > 0 then x else 0;
    cost.(generic := cost.generic + chosen * xCount)
  }

  /** A kicker adds its pips and its generic part; hybrid symbols of a kicker are not charged. */
  function WithKicker(cost: Mana.Cost, kicker: Option<Mana.Cost>): Mana.Cost {
    match kicker
    case None => cost
    case Some(k) =>
      Mana.Cost(cost.white + k.white, cost.blue + k.blue, cost.black + k.black, cost.red + k.red,
                cost.green + k.green, cost.generic + k.generic, cost.hybrids)
  }

  // ---------- Convoke ----------

  /** May the player tap this permanent for convoke? */
  predicate CanConvoke(field: map<Id, Permanent>, player: Id, id: Id) {
    id in field && field[id].IsCreature() && field[id].controller == player && !field[id].tapped
  }

  /** The first colour of a creature, in the order white, blue, black, red, green, that the cost asks for. */
  function FirstPip(colors: set<CardColor>, cost: Mana.Cost): (pip: Option<CardColor>)
    ensures pip.Some? ==> pip.value in colors && Pip(cost, pip.value) > 0
    ensures pip.None? ==> forall c :: c in colors ==> Pip(cost, c) == 0
  {
    if White in colors && cost.white > 0 then Some(White)
    else if Blue in colors && cost.blue > 0 then Some(Blue)
    else if Black in colors && cost.black > 0 then Some(Black)
    else if Red in colors && cost.red > 0 then Some(Red)
    else if Green in colors && cost.green > 0 then Some(Green)
    else None
  }

  /** What a creature of these colours takes off a cost: a pip of one of its colours, or else one generic. */
  function Reduced(cost: Mana.Cost, colors: set<CardColor>): (less: Mana.Cost)
    ensures less.hybrids == cost.hybrids && less.generic <= cost.generic
    ensures cost.Size() - 1 <= less.Size() <= cost.Size()
    ensures less.Size() == cost.Size() <==> cost.generic == 0 && forall c :: c in colors ==> Pip(cost, c) == 0
  {
    match FirstPip(colors, cost)
    case Some(c) => WithPip(cost, c, Pip(cost, c) - 1)
    case None => if cost.generic > 0 then cost.(generic := cost.generic - 1) else cost
  }

  /** The colours are asked in order; a pip that is found goes, and otherwise one generic mana does. */
  lemma ReducedByOne(cost: Mana.Cost, colors: set<CardColor>)
    ensures Reduced(cost, colors)
            == if White in colors && cost.white > 0 then cost.(white := cost.white - 1)
               else if Blue in colors && cost.blue > 0 then cost.(blue := cost.blue - 1)
               else if Black in colors && cost.black > 0 then cost.(black := cost.black - 1)
               else if Red in colors && cost.red > 0 then cost.(red := cost.red - 1)
               else if Green in colors && cost.green > 0 then cost.(green := cost.green - 1)
               else if cost.generic > 0 then cost.(generic := cost.generic - 1)
               else cost
  {}

  /** X and kicker, on the fields: the kicker's symbols come on top colour by colour, every X counts as many as were
      chosen, and hybrid symbols stay. */
  lemma FullCost(cost: Mana.Cost, xCount: nat, x: int, kicker: Option<Mana.Cost>)
    ensures var full := WithKicker(WithX(cost, xCount, x), kicker);
            && full.hybrids == cost.hybrids
            && (kicker.None? ==> full == cost.(generic := full.generic)
                                 && full.generic == cost.generic + Max(x, 0) * xCount)
            && (kicker.Some? ==>
                  && full.white - cost.white == kicker.value.white && full.blue - cost.blue == kicker.value.blue
                  && full.black - cost.black == kicker.value.black && full.red - cost.red == kicker.value.red
                  && full.green - cost.green == kicker.value.green
                  && full.generic - cost.generic == kicker.value.generic + Max(x, 0) * xCount)
  {}

  /** The battlefield with some permanents tapped. */
  function TapAll(field: map<Id, Permanent>, ids: seq<Id>): map<Id, Permanent> {
    map id | id in field :: if id in ids then field[id].(tapped := true) else field[id]
  }

  /** The creatures that are tapped for convoke: of those that are named, the ones that may be, each once. */
  function Convokers(field: map<Id, Permanent>, player: Id, ids: seq<Id>): (tapped: seq<Id>)
    ensures forall id :: id in tapped <==> id in ids && CanConvoke(field, player, id)
    ensures forall i, j :: 0 <= i < j < |tapped| ==> tapped[i] != tapped[j]
  {
    if ids == [] then []
    else
      var before := Convokers(field, player, ids[..|ids| - 1]);
      var last := ids[|ids| - 1];
      assert ids == ids[..|ids| - 1] + [last];
      if CanConvoke(field, player, last) && last !in before then before + [last] else before
  }

  /** On the fields: of those that are named, exactly the untapped creatures that the player controls. */
  lemma ConvokersAre(field: map<Id, Permanent>, player: Id, ids: seq<Id>, id: Id)
    ensures id in Convokers(field, player, ids) <==>
              && id in ids && id in field && field[id].controller == player && !field[id].tapped
              && (field[id].card.cardType == Creature || field[id].animation.Some?)
  {}

  /** The cost that is left after creatures have been tapped for it, in turn. */
  function ConvokedCost(field: map<Id, Permanent>, cost: Mana.Cost, tapped: seq<Id>): Mana.Cost {
    if tapped == [] then cost
    else
      var before := ConvokedCost(field, cost, tapped[..|tapped| - 1]);
      var last := tapped[|tapped| - 1];
      if last in field then Reduced(before, field[last].card.colors) else before
  }

  /** Every creature tapped for convoke pays for one mana at most; and for exactly one each as long as some
      generic mana is left to pay. */
  lemma {:induction false} ConvokePays(field: map<Id, Permanent>, cost: Mana.Cost, tapped: seq<Id>)
    requires forall id :: id in tapped ==> id in field
    ensures var less := ConvokedCost(field, cost, tapped);
            && less.hybrids == cost.hybrids && less.generic <= cost.generic
            && cost.Size() - |tapped| <= less.Size() <= cost.Size()
            && (less.generic > 0 ==> less.Size() == cost.Size() - |tapped|)
  {
    if tapped == [] {
      assert ConvokedCost(field, cost, tapped) == cost;
    } else {
      var front, last := tapped[..|tapped| - 1], tapped[|tapped| - 1];
      assert last in tapped && forall id :: id in front ==> id in tapped;
      ConvokePays(field, cost, front);
    }
  }

  /** The loop over the named creatures. */
  method TapConvokers(g: GameTable, player: Id, ids: seq<Id>, full: Mana.Cost) returns (cost: Mana.Cost)
    requires g.Valid()
    modifies g.zones
    ensures g.Valid() && Keeps(old(g.Snap()), g.Snap(), g.zones.dealt)
    ensures cost == ConvokedCost(old(g.zones.field), full, Convokers(old(g.zones.field), player, ids))
    ensures OnlyField(old(g.Snap()), g.Snap(), TapAll(old(g.zones.field), Convokers(old(g.zones.field), player, ids)))
  {
    ghost var s := g.Snap();
    cost := full;
    NobodyTapped(s);
    for i := 0 to |ids|
      invariant g.Valid() && Keeps(s, g.Snap(), g.zones.dealt)
      invariant ConvokedSoFar(s, g.Snap(), player, ids[..i], full, cost)
    {
      OneMoreNamed(ids, i);
      cost := TapConvoker(g, player, ids[..i], ids[i], full, cost, s);
    }
    assert ids[..|ids|] == ids;
  }

  lemma OneMoreNamed(ids: seq<Id>, i: nat)
    requires i < |ids|
    ensures ids[..i + 1] == ids[..i] + [ids[i]]
  {}

  /** Nothing but the battlefield has changed. */
  ghost predicate OnlyField(s: Snapshot, t: Snapshot, field: map<Id, Permanent>) {
    t == s.(z := s.z.(field := field))
  }

  ghost predicate ConvokedSoFar(s: Snapshot, t: Snapshot, player: Id, named: seq<Id>, full: Mana.Cost,
                                cost: Mana.Cost) {
    && OnlyField(s, t, TapAll(s.z.field, Convokers(s.z.field, player, named)))
    && cost == ConvokedCost(s.z.field, full, Convokers(s.z.field, player, named))
  }

  lemma NobodyTapped(s: Snapshot)
    ensures TapAll(s.z.field, []) == s.z.field && OnlyField(s, s, TapAll(s.z.field, []))
  {}

  method TapConvoker(g: GameTable, player: Id, ghost named: seq<Id>, id: Id, ghost full: Mana.Cost, cost: Mana.Cost,
                     ghost s: Snapshot) returns (less: Mana.Cost)
    requires g.Valid() && Keeps(s, g.Snap(), g.zones.dealt) && ConvokedSoFar(s, g.Snap(), player, named, full, cost)
    modifies g.zones
    ensures g.Valid() && Keeps(s, g.Snap(), g.zones.dealt)
    ensures ConvokedSoFar(s, g.Snap(), player, named + [id], full, less)
  {
    ghost var t := g.Snap();
    less := cost;
    if id in g.zones.field && g.zones.field[id].IsCreature() && g.zones.field[id].controller == player
    && !g.zones.field[id].tapped {
      g.UpdatePermanent(id, g.zones.field[id].(tapped := true));
      KeepsTwice(s, t, g.Snap(), g.zones.dealt);
      less := Reduced(cost, g.zones.field[id].card.colors);
    }
    ConvokedOneMore(s, t, g.Snap(), player, named, id, full, cost, less);
  }

  lemma OneMoreTapped(field: map<Id, Permanent>, before: seq<Id>, id: Id, after: seq<Id>)
    requires id in field && after == before + [id]
    ensures var once := TapAll(field, before); once[id := once[id].(tapped := true)] == TapAll(field, after)
  {}

  lemma ConvokedOneMore(s: Snapshot, t: Snapshot, u: Snapshot, player: Id, named: seq<Id>, id: Id, full: Mana.Cost,
                        cost: Mana.Cost, less: Mana.Cost)
    requires ConvokedSoFar(s, t, player, named, full, cost)
    requires if CanConvoke(t.z.field, player, id)
             then OnlyField(t, u, t.z.field[id := t.z.field[id].(tapped := true)])
             && less == Reduced(cost, t.z.field[id].card.colors)
             else u == t && less == cost
    ensures ConvokedSoFar(s, u, player, named + [id], full, less)
  {
    var field, before := s.z.field, Convokers(s.z.field, player, named);
    var after := Convokers(field, player, named + [id]);
    assert (named + [id])[..|named|] == named;
    assert CanConvoke(t.z.field, player, id) <==> CanConvoke(field, player, id) && id !in before;
    if CanConvoke(t.z.field, player, id) {
      assert after == before + [id] && after[..|before|] == before;
      OneMoreTapped(field, before, id, after);
    } else {
      assert after == before;
    }
  }

  // ---------- Lands tapped automatically ----------

  /** The mana ability of a land: the colour its text names first, and what its effect adds to the pool. */
  datatype Yield = Yield(produces: Mana.Color, adds: Mana.Pool)

  /** Which cards have a mana ability. */
  type Lands = Card -> Option<Yield>

  predicate Tappable(field: map<Id, Permanent>, player: Id, lands: Lands, id: Id) {
    && id in field && field[id].controller == player && field[id].card.cardType == Land && !field[id].tapped
    && lands(field[id].card).Some?
  }

  function YieldOf(field: map<Id, Permanent>, lands: Lands, id: Id): Yield {
    if id in field && lands(field[id].card).Some? then lands(field[id].card).value else Yield(Mana.Colorless, Mana.ZERO)
  }

  /** Does the cost ask for pips of the colour? */
  predicate Needs(cost: Mana.Cost, color: Mana.Color) {
    match color
    case White => cost.white > 0
    case Blue => cost.blue > 0
    case Black => cost.black > 0
    case Red => cost.red > 0
    case Green => cost.green > 0
    case Colorless => false
  }

  lemma NeedsItsPips(cost: Mana.Cost, color: Mana.Color)
    ensures Needs(cost, color) <==> cost.Pips()[color] > 0
  {}

  function Plus(a: Mana.Pool, b: Mana.Pool): Mana.Pool { map c: Mana.Color | c in a :: a[c] + b[c] }

  /** The pool after some lands have been tapped for mana. */
  function ManaAfter(field: map<Id, Permanent>, lands: Lands, taps: seq<Id>, mana: Mana.Pool): Mana.Pool {
    if taps == [] then mana
    else Plus(ManaAfter(field, lands, taps[..|taps| - 1], mana), YieldOf(field, lands, taps[|taps| - 1]).adds)
  }

  /** What the search for a payment says of a pool, and what payment itself needs. */
  ghost predicate CanPay(mana: Mana.Pool, cost: Mana.Cost) {
    |cost.hybrids| <= Mana.MAX_HYBRIDS && Mana.Payable(mana, cost)
  }

  ghost predicate Affordable(mana: Mana.Pool, cost: Mana.Cost) {
    CanPay(mana, cost) && Mana.NeverStuck(Mana.Minus(mana, cost.Pips()), cost.hybrids)
  }

  /** Untapped lands of the player have been tapped, none twice, each while the cost could not be paid, and one
      whose colour is not needed only when no needed one was left. */
  ghost predicate Tapping(field: map<Id, Permanent>, player: Id, mana: Mana.Pool, cost: Mana.Cost, lands: Lands,
                          taps: seq<Id>)
  {
    && (forall i :: 0 <= i < |taps| ==> Tappable(field, player, lands, taps[i]))
    && (forall i, j :: 0 <= i < j < |taps| ==> taps[i] != taps[j])
    && (forall i :: 0 <= i < |taps| ==> NeededFirst(field, player, cost, lands, taps, i))
    && (forall i :: 0 <= i < |taps| ==> !CanPay(ManaAfter(field, lands, taps[..i], mana), cost))
  }

  ghost predicate NeededFirst(field: map<Id, Permanent>, player: Id, cost: Mana.Cost, lands: Lands, taps: seq<Id>,
                              i: nat)
    requires i < |taps|
  {
    Needs(cost, YieldOf(field, lands, taps[i]).produces)
    || forall id :: Tappable(field, player, lands, id) && Needs(cost, YieldOf(field, lands, id).produces) ==>
         id in taps[..i]
  }

  /** And the tapping has ended because the cost can be paid, or because no such land was left. */
  ghost predicate AutoTapped(field: map<Id, Permanent>, player: Id, mana: Mana.Pool, cost: Mana.Cost, lands: Lands,
                             taps: seq<Id>)
  {
    && Tapping(field, player, mana, cost, lands, taps)
    && (CanPay(ManaAfter(field, lands, taps, mana), cost)
        || forall id :: Tappable(field, player, lands, id) ==> id in taps)
  }

  /** The game after some lands have been tapped for mana. */
  function AfterTaps(st: State, player: Id, lands: Lands, taps: seq<Id>): State
    requires player in st.players
  {
    var p := st.players[player];
    st.(s := st.s.(z := st.s.z.(field := TapAll(st.s.z.field, taps))),
        players := st.players[player := p.(mana := ManaAfter(st.s.z.field, lands, taps, p.mana))])
  }

  lemma NothingTapped(st: State, player: Id, lands: Lands)
    requires player in st.players
    ensures AfterTaps(st, player, lands, []) == st
  {
    assert TapAll(st.s.z.field, []) == st.s.z.field;
    assert st.players[player := st.players[player]] == st.players;
  }

  lemma OneMoreTap(st: State, player: Id, lands: Lands, taps: seq<Id>, id: Id, more: seq<Id>)
    requires player in st.players && id in st.s.z.field && more == taps + [id]
    ensures AfterTaps(AfterTaps(st, player, lands, taps), player, lands, [id]) == AfterTaps(st, player, lands, more)
  {
    var field := st.s.z.field;
    assert more[..|taps|] == taps;
    assert TapAll(TapAll(field, taps), [id]) == TapAll(field, more);
    var once := AfterTaps(st, player, lands, taps);
    assert [id][..0] == [];
    assert ManaAfter(once.s.z.field, lands, [id], once.players[player].mana)
           == Plus(once.players[player].mana, YieldOf(field, lands, id).adds);
    assert AfterTaps(once, player, lands, [id]).players == AfterTaps(st, player, lands, more).players;
  }

  /** The lands that are still to be tapped. */
  ghost predicate LeftToTap(field: map<Id, Permanent>, player: Id, lands: Lands, taps: seq<Id>, todo: set<Id>) {
    forall id :: id in todo <==> Tappable(field, player, lands, id) && id !in taps
  }

  method TappableLands(field: map<Id, Permanent>, player: Id, lands: Lands) returns (todo: set<Id>)
    ensures LeftToTap(field, player, lands, [], todo)
  {
    todo := set id | && id in field && field[id].controller == player && field[id].card.cardType == Land
                     && !field[id].tapped && lands(field[id].card).Some?;
  }

  /** auto_tap_lands: lands of a needed colour first, in any order otherwise, until the cost can be paid. */
  method AutoTap(g: GameTable, player: Id, cost: Mana.Cost, lands: Lands) returns (taps: seq<Id>)
    requires g.Valid() && player in g.players
    modifies g`players, g.zones
    ensures g.Valid() && Keeps(old(g.Snap()), g.Snap(), g.zones.dealt)
    ensures g.Now() == AfterTaps(old(g.Now()), player, lands, taps)
    ensures AutoTapped(old(g.zones.field), player, old(g.players)[player].mana, cost, lands, taps)
    ensures forall id :: id in taps ==>
              && id in old(g.zones.field) && old(g.zones.field)[id].controller == player
              && old(g.zones.field)[id].card.cardType == Land && !old(g.zones.field)[id].tapped
              && lands(old(g.zones.field)[id].card).Some?
  {
    ghost var st := g.Now();
    NothingTapped(st, player, lands);
    taps := [];
    var enough := CanPayNow(g, player, cost);
    var todo := TappableLands(g.zones.field, player, lands);
    while !enough && todo != {}
      invariant g.Valid() && Keeps(st.s, g.Snap(), g.zones.dealt) && player in g.players
      invariant LandsSoFar(st, g.Now(), player, cost, lands, taps, todo, enough)
      decreases |todo|
    {
      var id := NextLand(g, player, cost, lands, todo, st, taps);
      enough, taps := TapLand(g, player, cost, lands, id, st, taps, todo);
      todo := todo - {id};
    }
    TappingEnds(st, g.Now(), player, cost, lands, taps, todo, enough);
  }

  lemma TappingEnds(st: State, now: State, player: Id, cost: Mana.Cost, lands: Lands, taps: seq<Id>,
                          todo: set<Id>, enough: bool)
    requires LandsSoFar(st, now, player, cost, lands, taps, todo, enough) && (enough || todo == {})
    ensures AutoTapped(st.s.z.field, player, st.players[player].mana, cost, lands, taps)
    ensures forall id :: id in taps ==>
              && id in st.s.z.field && st.s.z.field[id].controller == player
              && st.s.z.field[id].card.cardType == Land && !st.s.z.field[id].tapped
              && lands(st.s.z.field[id].card).Some?
  {
    forall id | id in taps ensures Tappable(st.s.z.field, player, lands, id) {
      var i :| 0 <= i < |taps| && taps[i] == id;
    }
  }

  ghost predicate LandsSoFar(st: State, now: State, player: Id, cost: Mana.Cost, lands: Lands, taps: seq<Id>,
                             todo: set<Id>, enough: bool)
  {
    && player in st.players && now == AfterTaps(st, player, lands, taps)
    && Tapping(st.s.z.field, player, st.players[player].mana, cost, lands, taps)
    && LeftToTap(st.s.z.field, player, lands, taps, todo)
    && (enough <==> CanPay(ManaAfter(st.s.z.field, lands, taps, st.players[player].mana), cost))
  }

  method CanPayNow(g: GameTable, player: Id, cost: Mana.Cost) returns (ok: bool)
    requires player in g.players
    ensures ok <==> CanPay(g.players[player].mana, cost)
  {
    var pool := new Mana.ManaPool.Holding(g.players[player].mana);
    ok := pool.CanPayCost(cost);
  }

  /** Any land of a needed colour, or any land at all when there is none. */
  method NextLand(g: GameTable, player: Id, cost: Mana.Cost, lands: Lands, todo: set<Id>, ghost st: State,
                  ghost taps: seq<Id>) returns (id: Id)
    requires todo != {} && LandsSoFar(st, g.Now(), player, cost, lands, taps, todo, false)
    ensures id in todo
    ensures Needs(cost, YieldOf(st.s.z.field, lands, id).produces)
            || forall other :: other in todo ==> !Needs(cost, YieldOf(st.s.z.field, lands, other).produces)
  {
    var field := g.zones.field;
    assert forall other :: YieldOf(field, lands, other) == YieldOf(st.s.z.field, lands, other);
    assert forall other :: other in todo ==> Tappable(st.s.z.field, player, lands, other);
    var needed := set other | other in todo && other in field && lands(field[other].card).Some?
                              && Needs(cost, lands(field[other].card).value.produces);
    assert forall other :: other in needed <==> other in todo && Needs(cost, YieldOf(field, lands, other).produces);
    if needed != {} {
      id :| id in needed;
    } else {
      id :| id in todo;
      forall other | other in todo ensures !Needs(cost, YieldOf(field, lands, other).produces) {
        assert other !in needed;
      }
    }
  }

  method TapLand(g: GameTable, player: Id, cost: Mana.Cost, lands: Lands, id: Id, ghost st: State, taps: seq<Id>,
                 ghost todo: set<Id>) returns (enough: bool, more: seq<Id>)
    requires g.Valid() && Keeps(st.s, g.Snap(), g.zones.dealt) && player in g.players && id in todo
    requires LandsSoFar(st, g.Now(), player, cost, lands, taps, todo, false)
    requires Needs(cost, YieldOf(st.s.z.field, lands, id).produces)
             || forall other :: other in todo ==> !Needs(cost, YieldOf(st.s.z.field, lands, other).produces)
    modifies g`players, g.zones
    ensures g.Valid() && Keeps(st.s, g.Snap(), g.zones.dealt) && player in g.players
    ensures LandsSoFar(st, g.Now(), player, cost, lands, more, todo - {id}, enough)
  {
    more := taps + [id];
    ghost var now := g.Now();
    assert Tappable(st.s.z.field, player, lands, id);
    TapForMana(g, player, id, lands);
    KeepsTwice(st.s, now.s, g.Snap(), g.zones.dealt);
    OneMoreTap(st, player, lands, taps, id, more);
    enough := CanPayNow(g, player, cost);
    OneMoreLand(st, player, cost, lands, taps, id, more, todo);
  }

  method TapForMana(g: GameTable, player: Id, id: Id, lands: Lands)
    requires g.Valid() && player in g.players && id in g.zones.field && lands(g.zones.field[id].card).Some?
    modifies g`players, g.zones
    ensures g.Valid() && Keeps(old(g.Snap()), g.Snap(), g.zones.dealt)
    ensures g.Now() == AfterTaps(old(g.Now()), player, lands, [id])
  {
    ghost var st := g.Now();
    var mana, adds := g.players[player].mana, lands(g.zones.field[id].card).value.adds;
    g.UpdatePermanent(id, g.zones.field[id].(tapped := true));
    SetMana(g, player, map c: Mana.Color | c in mana :: mana[c] + adds[c]);
    OneTap(st, player, lands, id);
  }

  method SetMana(g: GameTable, player: Id, mana: Mana.Pool)
    requires player in g.players
    modifies g`players
    ensures g.players == old(g.players)[player := old(g.players)[player].(mana := mana)]
  {
    g.players := g.players[player := g.players[player].(mana := mana)];
  }

  lemma OneTap(st: State, player: Id, lands: Lands, id: Id)
    requires player in st.players && id in st.s.z.field
    ensures var field, p := st.s.z.field, st.players[player];
            AfterTaps(st, player, lands, [id])
            == st.(s := st.s.(z := st.s.z.(field := field[id := field[id].(tapped := true)])),
                   players := st.players[player := p.(mana := Plus(p.mana, YieldOf(field, lands, id).adds))])
  {
    var field, mana := st.s.z.field, st.players[player].mana;
    assert [id][..0] == [];
    assert ManaAfter(field, lands, [id], mana) == Plus(mana, YieldOf(field, lands, id).adds);
    assert TapAll(field, [id]) == field[id := field[id].(tapped := true)];
  }

  lemma OneMoreLand(st: State, player: Id, cost: Mana.Cost, lands: Lands, taps: seq<Id>, id: Id, more: seq<Id>,
                    todo: set<Id>)
    requires player in st.players && id in todo && more == taps + [id]
    requires Tapping(st.s.z.field, player, st.players[player].mana, cost, lands, taps)
    requires LeftToTap(st.s.z.field, player, lands, taps, todo)
    requires !CanPay(ManaAfter(st.s.z.field, lands, taps, st.players[player].mana), cost)
    requires Needs(cost, YieldOf(st.s.z.field, lands, id).produces)
             || forall other :: other in todo ==> !Needs(cost, YieldOf(st.s.z.field, lands, other).produces)
    ensures Tapping(st.s.z.field, player, st.players[player].mana, cost, lands, more)
    ensures LeftToTap(st.s.z.field, player, lands, more, todo - {id})
  {
    var field, mana := st.s.z.field, st.players[player].mana;
    forall i | 0 <= i < |more|
      ensures NeededFirst(field, player, cost, lands, more, i)
              && !CanPay(ManaAfter(field, lands, more[..i], mana), cost)
    {
      if i < |taps| {
        EarlierTap(field, player, cost, lands, taps, more, i);
      } else {
        assert more[..i] == taps;
      }
    }
  }

  lemma EarlierTap(field: map<Id, Permanent>, player: Id, cost: Mana.Cost, lands: Lands, taps: seq<Id>, more: seq<Id>,
                   i: nat)
    requires i < |taps| < |more| && more[..|taps|] == taps && NeededFirst(field, player, cost, lands, taps, i)
    ensures more[..i] == taps[..i] && NeededFirst(field, player, cost, lands, more, i)
  {
    assert more[..|taps|][i] == more[i] && more[..|taps|][..i] == more[..i];
  }

  // ---------- Paying ----------

  /** A player's pool has paid for a cost, and nothing else about the players has changed. */
  ghost predicate PoolPaid(players: map<Id, Player>, later: map<Id, Player>, player: Id, cost: Mana.Cost) {
    && player in players && player in later
    && later == players[player := players[player].(mana := later[player].mana)]
    && Mana.Settles(Mana.Minus(players[player].mana, later[player].mana), cost)
    && Mana.Total(later[player].mana) == Mana.Total(players[player].mana) - cost.Size()
  }

  /** Computes a payment and makes it, if it can. */
  method PayFromPool(g: GameTable, player: Id, cost: Mana.Cost) returns (paid: bool)
    requires player in g.players
    modifies g`players
    ensures paid <==> Affordable(old(g.players)[player].mana, cost)
    ensures if paid then PoolPaid(old(g.players), g.players, player, cost) else g.players == old(g.players)
  {
    var pool := new Mana.ManaPool.Holding(g.players[player].mana);
    paid := pool.Pay(cost);
    if paid {
      SetMana(g, player, pool.mana);
    }
  }

  /** Lands have been tapped for a cost, and it has been paid if the pool could then pay it; mana made by lands
      that did not suffice stays in the pool. */
  ghost predicate PaidTapping(st: State, st': State, player: Id, cost: Mana.Cost, lands: Lands, taps: seq<Id>,
                              paid: bool) {
    && player in st.players && AutoTapped(st.s.z.field, player, st.players[player].mana, cost, lands, taps)
    && var made := AfterTaps(st, player, lands, taps);
       && (paid <==> Affordable(made.players[player].mana, cost))
       && st' == made.(players := st'.players)
       && if paid then PoolPaid(made.players, st'.players, player, cost) else st' == made
  }

  ghost predicate PaidFor(st: State, st': State, player: Id, cost: Mana.Cost, lands: Lands, paid: bool) {
    exists taps :: PaidTapping(st, st', player, cost, lands, taps, paid)
  }

  /** No permanent has changed but untapped lands of the player, which are tapped now. */
  ghost predicate OnlyLandsTapped(field: map<Id, Permanent>, later: map<Id, Permanent>, player: Id) {
    && later.Keys == field.Keys
    && forall id :: id in field && later[id] != field[id] ==>
         && field[id].controller == player && field[id].card.cardType == Land && !field[id].tapped
         && later[id] == field[id].(tapped := true)
  }

  /** The way spells, flashbacks and abilities are paid for. */
  method PayWithLands(g: GameTable, player: Id, cost: Mana.Cost, lands: Lands) returns (paid: bool)
    requires g.Valid() && player in g.players
    modifies g`players, g.zones
    ensures g.Valid() && Keeps(old(g.Snap()), g.Snap(), g.zones.dealt)
    ensures PaidFor(old(g.Now()), g.Now(), player, cost, lands, paid)
    ensures OnlyLandsTapped(old(g.zones.field), g.zones.field, player)
  {
    ghost var st := g.Now();
    var taps := AutoTap(g, player, cost, lands);
    paid := PayFromPool(g, player, cost);
    assert PaidTapping(st, g.Now(), player, cost, lands, taps, paid);
  }

  // ---------- When a cost is paid ----------

  /** More mana pays for no less. */
  lemma MoreManaPays(mana: Mana.Pool, more: Mana.Pool, cost: Mana.Cost)
    requires CanPay(mana, cost) && Mana.AtMost(mana, more)
    ensures CanPay(more, cost)
  {
    var rem, left := Mana.Minus(mana, cost.Pips()), Mana.Minus(more, cost.Pips());
    var choice :| Mana.Fits(rem, cost.hybrids, choice);
    assert forall c: Mana.Color :: left[c] >= rem[c];
    assert Mana.Fits(left, cost.hybrids, choice);
  }

  lemma {:induction false} ManaWithout(field: map<Id, Permanent>, lands: Lands, taps: seq<Id>, k: nat, mana: Mana.Pool,
                                       c: Mana.Color)
    requires k < |taps|
    ensures ManaAfter(field, lands, taps, mana)[c]
            == ManaAfter(field, lands, Without(taps, k), mana)[c] + YieldOf(field, lands, taps[k]).adds[c]
    ensures taps[k] in field && lands(field[taps[k]].card).Some? ==>
              ManaAfter(field, lands, taps, mana)[c]
              == ManaAfter(field, lands, Without(taps, k), mana)[c] + lands(field[taps[k]].card).value.adds[c]
  {
    var front, last := taps[..|taps| - 1], taps[|taps| - 1];
    assert taps == front + [last];
    if k == |front| {
      assert Without(taps, k) == front;
      ManaOneMore(field, lands, front, last, taps, mana);
    } else {
      var less := Without(front, k);
      assert Without(taps, k) == less + [last];
      ManaWithout(field, lands, front, k, mana, c);
      ManaOneMore(field, lands, front, last, taps, mana);
      ManaOneMore(field, lands, less, last, Without(taps, k), mana);
    }
  }

  lemma ManaOneMore(field: map<Id, Permanent>, lands: Lands, taps: seq<Id>, id: Id, more: seq<Id>, mana: Mana.Pool)
    requires more == taps + [id]
    ensures ManaAfter(field, lands, more, mana)
            == Plus(ManaAfter(field, lands, taps, mana), YieldOf(field, lands, id).adds)
  {
    assert more[..|taps|] == taps;
  }

  /** Tapping more lands makes no less mana, in whatever order. */
  lemma {:induction false} MoreLandsMoreMana(field: map<Id, Permanent>, lands: Lands, few: seq<Id>, many: seq<Id>,
                                             mana: Mana.Pool, c: Mana.Color)
    requires Distinct(few) && forall id :: id in few ==> id in many
    ensures ManaAfter(field, lands, few, mana)[c] <= ManaAfter(field, lands, many, mana)[c]
  {
    if few == [] {
      OnlyAdds(field, lands, many, mana, c);
    } else {
      var front, last := few[..|few| - 1], few[|few| - 1];
      assert last in few && forall id :: id in front ==> id in few;
      var k :| 0 <= k < |many| && many[k] == last;
      forall id | id in front ensures id in Without(many, k) {
        var j :| 0 <= j < |many| && many[j] == id;
        assert j < k ==> Without(many, k)[j] == id;
        assert j > k ==> Without(many, k)[j - 1] == id;
      }
      MoreLandsMoreMana(field, lands, front, Without(many, k), mana, c);
      ManaWithout(field, lands, many, k, mana, c);
    }
  }

  predicate Distinct(ids: seq<Id>) { forall i, j :: 0 <= i < j < |ids| ==> ids[i] != ids[j] }

  lemma {:induction false} OnlyAdds(field: map<Id, Permanent>, lands: Lands, taps: seq<Id>, mana: Mana.Pool,
                                    c: Mana.Color)
    ensures mana[c] <= ManaAfter(field, lands, taps, mana)[c]
  {
    if taps == [] {
      assert ManaAfter(field, lands, taps, mana) == mana;
    } else {
      OnlyAdds(field, lands, taps[..|taps| - 1], mana, c);
    }
  }

  /** Some of the player's untapped lands would make the cost payable. */
  ghost predicate LandsSuffice(field: map<Id, Permanent>, player: Id, mana: Mana.Pool, cost: Mana.Cost, lands: Lands) {
    exists taps: seq<Id> :: Suffice(field, player, mana, cost, lands, taps)
  }

  ghost predicate Suffice(field: map<Id, Permanent>, player: Id, mana: Mana.Pool, cost: Mana.Cost, lands: Lands,
                          taps: seq<Id>)
  {
    && Distinct(taps)
    && (forall id :: id in taps ==>
          && id in field && field[id].controller == player && field[id].card.cardType == Land
          && !field[id].tapped && lands(field[id].card).Some?)
    && |cost.hybrids| <= 10 && exists choice :: Mana.Covers(ManaAfter(field, lands, taps, mana), cost, choice)
  }

  /** Automatic tapping makes the cost payable whenever any choice of lands does. */
  lemma AutoTapIsComplete(field: map<Id, Permanent>, player: Id, mana: Mana.Pool, cost: Mana.Cost, lands: Lands,
                          taps: seq<Id>)
    requires AutoTapped(field, player, mana, cost, lands, taps)
    ensures CanPay(ManaAfter(field, lands, taps, mana), cost) <==> LandsSuffice(field, player, mana, cost, lands)
  {
    var made := ManaAfter(field, lands, taps, mana);
    Mana.PayableExactlyWhen(made, cost);
    if CanPay(made, cost) {
      assert Suffice(field, player, mana, cost, lands, taps);
    } else if LandsSuffice(field, player, mana, cost, lands) {
      var some: seq<Id> :| Suffice(field, player, mana, cost, lands, some);
      forall id | id in some ensures id in taps {
        assert Tappable(field, player, lands, id);
      }
      AllLandsDoAsWell(field, player, mana, cost, lands, some, taps);
    }
  }

  lemma AllLandsDoAsWell(field: map<Id, Permanent>, player: Id, mana: Mana.Pool, cost: Mana.Cost, lands: Lands,
                         some: seq<Id>, taps: seq<Id>)
    requires Suffice(field, player, mana, cost, lands, some) && forall id :: id in some ==> id in taps
    ensures CanPay(ManaAfter(field, lands, taps, mana), cost)
  {
    var made, all := ManaAfter(field, lands, some, mana), ManaAfter(field, lands, taps, mana);
    Mana.PayableExactlyWhen(made, cost);
    forall c: Mana.Color ensures made[c] <= all[c] {
      MoreLandsMoreMana(field, lands, some, taps, mana, c);
    }
    MoreManaPays(made, all, cost);
  }

  /** With one hybrid pair, or pairs that do not overlap, a cost is paid exactly when some of the player's untapped
      lands, together with the pool, can pay it. */
  lemma PaidWhenLandsSuffice(st: State, st': State, player: Id, cost: Mana.Cost, lands: Lands, paid: bool)
    requires PaidFor(st, st', player, cost, lands, paid) && Mana.PairsDoNotOverlap(cost.hybrids)
    ensures paid <==> LandsSuffice(st.s.z.field, player, st.players[player].mana, cost, lands)
  {
    var taps :| PaidTapping(st, st', player, cost, lands, taps, paid);
    var field, mana := st.s.z.field, st.players[player].mana;
    AutoTapIsComplete(field, player, mana, cost, lands, taps);
    var made := ManaAfter(field, lands, taps, mana);
    if CanPay(made, cost) {
      Mana.GreedyCompleteOnDisjointPairs(Mana.Minus(made, cost.Pips()), cost.hybrids);
    }
  }

  lemma FirstIsUntapped(field: map<Id, Permanent>, player: Id, mana: Mana.Pool, cost: Mana.Cost, lands: Lands,
                        taps: seq<Id>)
    requires Suffice(field, player, mana, cost, lands, taps) && taps != []
    ensures taps[0] in field && field[taps[0]].controller == player && field[taps[0]].card.cardType == Land
            && !field[taps[0]].tapped
  {
    assert taps[0] in taps;
  }

  /** Without an untapped land of the player's the lands are no help. */
  lemma NoLandsLeft(field: map<Id, Permanent>, player: Id, mana: Mana.Pool, cost: Mana.Cost, lands: Lands)
    requires forall id :: id in field && field[id].controller == player && field[id].card.cardType == Land ==>
               field[id].tapped
    ensures LandsSuffice(field, player, mana, cost, lands)
            <==> |cost.hybrids| <= 10 && exists choice :: Mana.Covers(mana, cost, choice)
  {
    assert ManaAfter(field, lands, [], mana) == mana;
    if LandsSuffice(field, player, mana, cost, lands) {
      var taps: seq<Id> :| Suffice(field, player, mana, cost, lands, taps);
      if taps != [] {
        FirstIsUntapped(field, player, mana, cost, lands, taps);
      }
    } else if choice :| Mana.Covers(mana, cost, choice) {
      assert |cost.hybrids| <= 10 ==> Suffice(field, player, mana, cost, lands, []);
    }
  }

  /** A cost within the pool is settled, or refused by a stuck greedy payment, without tapping anything. */
  lemma PaidWithoutLands(st: State, st': State, player: Id, cost: Mana.Cost, lands: Lands, paid: bool)
    requires PaidFor(st, st', player, cost, lands, paid) && CanPay(st.players[player].mana, cost)
    ensures paid <==> Affordable(st.players[player].mana, cost)
    ensures st'.s == st.s
  {
    var taps :| PaidTapping(st, st', player, cost, lands, taps, paid);
    if taps != [] {
      assert taps[..0] == [];
    }
    NothingTapped(st, player, lands);
  }

  /** An empty cost is paid at once. */
  lemma NothingToPay(st: State, player: Id, cost: Mana.Cost, lands: Lands)
    requires player in st.players && cost.Size() == 0
    ensures PaidFor(st, st, player, cost, lands, true)
  {
    var mana := st.players[player].mana;
    NothingTapped(st, player, lands);
    assert Mana.Minus(mana, cost.Pips()) == mana;
    FreeIsAffordable(mana, cost);
    assert PaidTapping(st, st, player, cost, lands, [], true);
  }

  lemma FreeIsAffordable(mana: Mana.Pool, cost: Mana.Cost)
    requires cost.Size() == 0
    ensures Affordable(mana, cost) && Mana.Settles(Mana.Minus(mana, mana), cost)
  {
    assert cost.hybrids == [];
    assert Mana.Minus(mana, cost.Pips()) == mana;
    assert Mana.Minus(mana, mana) == Mana.ZERO;
    assert Mana.Fits(Mana.Minus(mana, cost.Pips()), [], []);
    assert Mana.SettlesWith(Mana.ZERO, cost, [], Mana.ZERO);
  }

  lemma FreeIsPaid(players: map<Id, Player>, player: Id, cost: Mana.Cost)
    requires player in players && cost.Size() == 0
    ensures PoolPaid(players, players, player, cost)
  {
    FreeIsAffordable(players[player].mana, cost);
    assert players[player := players[player]] == players;
  }
}
