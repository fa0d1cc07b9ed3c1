/** The sideboard swap: cards of the hand, by id, against cards of the sideboard, by name. */
module Sideboarding {
  import opened Common
  import opened Permanents
  import opened Zones
  import opened Game

  // ---------- What is taken ----------

  /** Some cards taken out of a pile, and the cards that are left. */
  datatype Taken = Taken(out: seq<Card>, rest: seq<Card>)

  /** A request for one card: this id, or this name. */
  datatype Wish = ById(id: Id) | ByName(name: string)

  predicate Fits(wish: Wish, card: Card) {
    match wish case ById(id) => card.id == id case ByName(name) => card.name == name
  }

  /** Each wish takes the first card that fits, if there is one. */
  function Take(cards: seq<Card>, wishes: seq<Wish>): Taken
    decreases |wishes|
  {
    if wishes == [] then Taken([], cards)
    else
      var t := Take(cards, wishes[..|wishes| - 1]);
      var at := FirstFit(t.rest, wishes[|wishes| - 1]);
      if at.None? then t else Taken(t.out + [t.rest[at.value]], Without(t.rest, at.value))
  }

  function FirstFit(cards: seq<Card>, wish: Wish): (at: Option<nat>)
    ensures at.Some? ==> at.value < |cards| && Fits(wish, cards[at.value])
    ensures at.Some? ==> forall k :: 0 <= k < at.value ==> !Fits(wish, cards[k])
    ensures at.None? <==> forall k :: 0 <= k < |cards| ==> !Fits(wish, cards[k])
  {
    if cards == [] then None
    else if Fits(wish, cards[0]) then Some(0)
    else match FirstFit(cards[1..], wish)
      case None => assert forall k :: 0 < k < |cards| ==> cards[k] == cards[1..][k - 1]; None
      case Some(k) => assert forall j :: 0 < j <= k ==> cards[j] == cards[1..][j - 1]; Some(k + 1)
  }

  /** A wish for an id is met by the first card with that id, one for a name by the first card of that name. */
  lemma FirstFitMeans(cards: seq<Card>, id: Id, name: string)
    ensures match FirstFit(cards, ById(id))
            case None => forall k :: 0 <= k < |cards| ==> cards[k].id != id
            case Some(at) => cards[at].id == id && forall k :: 0 <= k < at ==> cards[k].id != id
    ensures match FirstFit(cards, ByName(name))
            case None => forall k :: 0 <= k < |cards| ==> cards[k].name != name
            case Some(at) => cards[at].name == name && forall k :: 0 <= k < at ==> cards[k].name != name
  {
    assert forall k :: 0 <= k < |cards| ==> (Fits(ById(id), cards[k]) <==> cards[k].id == id);
    assert forall k :: 0 <= k < |cards| ==> (Fits(ByName(name), cards[k]) <==> cards[k].name == name);
  }

  /** Nothing is lost by taking. */
  lemma {:induction false} TakeSplits(cards: seq<Card>, wishes: seq<Wish>)
    ensures var t := Take(cards, wishes); multiset(t.out) + multiset(t.rest) == multiset(cards)
    ensures |Take(cards, wishes).out| <= |wishes|
    decreases |wishes|
  {
    if wishes == [] {
    } else {
      TakeSplits(cards, wishes[..|wishes| - 1]);
      var t := Take(cards, wishes[..|wishes| - 1]);
      var at := FirstFit(t.rest, wishes[|wishes| - 1]);
      if at.Some? {
        assert t.rest == t.rest[..at.value] + [t.rest[at.value]] + t.rest[at.value + 1..];
      }
    }
  }

  /** Hand and sideboard after the swap. It takes place when there are as many names as cards to give up,
      and every name finds a card; otherwise the cards go back where they were taken from, at the end. */
  function Swapped(hand: seq<Card>, board: seq<Card>, ids: seq<Wish>, names: seq<Wish>): (seq<Card>, seq<Card>) {
    var given := Take(hand, ids);
    var wanted := Take(board, names);
    if |names| != |given.out| then (given.rest + given.out, board)
    else if |wanted.out| != |given.out| then (given.rest + given.out, wanted.rest + wanted.out)
    else (given.rest + wanted.out, wanted.rest + given.out)
  }

  /** The swap exchanges equally many cards, or leaves the same cards in both piles; either way hand and
      sideboard keep their sizes, and together hold the same cards. */
  lemma SwapIsEven(hand: seq<Card>, board: seq<Card>, ids: seq<Wish>, names: seq<Wish>)
    ensures var (h, b) := Swapped(hand, board, ids, names);
            && |h| == |hand| && |b| == |board|
            && multiset(h) + multiset(b) == multiset(hand) + multiset(board)
            && (|Take(board, names).out| != |Take(hand, ids).out| || |names| != |Take(hand, ids).out|
                ==> multiset(h) == multiset(hand) && multiset(b) == multiset(board))
  {
    TakeSplits(hand, ids);
    TakeSplits(board, names);
    var given, wanted := Take(hand, ids), Take(board, names);
    assert |multiset(given.out) + multiset(given.rest)| == |multiset(hand)|
           && |multiset(wanted.out) + multiset(wanted.rest)| == |multiset(board)|;
  }

  // ---------- Cards in flight between hand and sideboard ----------

  /** Only one player's hand and sideboard have changed. */
  ghost predicate HandAndBoard(s: Snapshot, t: Snapshot, player: Id, hand: seq<Card>, board: seq<Card>) {
    && At(t.z.piles, Pile(Hand, player)) == hand && At(t.boards, Pile(Sideboard, player)) == board
    && (forall pile :: pile != Pile(Hand, player) ==> At(t.z.piles, pile) == At(s.z.piles, pile))
    && (forall pile :: pile != Pile(Sideboard, player) ==> At(t.boards, pile) == At(s.boards, pile))
    && t.z.field == s.z.field && t.z.exile == s.z.exile && t.z.owner == s.z.owner
    && t.entries == s.entries && t.next == s.next && t.tokens == s.tokens
  }

  /** Two lists of the player's cards are nowhere, and everything else is as it was. */
  ghost predicate InTheAir(s: Snapshot, t: Snapshot, a: seq<Card>, b: seq<Card>, player: Id, dealt: map<Id, Id>) {
    && TableOk(s, dealt) && s.next == t.next && PileOwned(a, player, dealt) && PileOwned(b, player, dealt)
    && forall c: Id :: Total(s, c) == Total(t, c) + Times(a, c) + Times(b, c)
  }

  lemma Plus(cards: seq<Card>, card: Card)
    ensures forall c: Id :: Times(cards + [card], c) == Times(cards, c) + (if c == card.id then 1 else 0)
  {
    forall c: Id ensures Times(cards + [card], c) == Times(cards, c) + (if c == card.id then 1 else 0) {
      TimesConcat(cards, [card], c);
    }
  }

  /** One card more has been taken. */
  lemma OneMoreUp(s: Snapshot, t: Snapshot, u: Snapshot, a: seq<Card>, b: seq<Card>, player: Id, dealt: map<Id, Id>,
                  card: Card)
    requires InTheAir(s, t, a, b, player, dealt) && u.next == t.next && (card.id in dealt ==> dealt[card.id] == player)
    requires forall c: Id :: Total(t, c) == Total(u, c) + (if c == card.id then 1 else 0)
    ensures InTheAir(s, u, a + [card], b, player, dealt) && InTheAir(s, u, b, a + [card], player, dealt)
  {
    Plus(a, card);
  }

  /** The first card of a list is about to land. */
  lemma OneToLand(s: Snapshot, t: Snapshot, a: seq<Card>, b: seq<Card>, player: Id, dealt: map<Id, Id>)
    requires InTheAir(s, t, a, b, player, dealt) && a != []
    ensures Total(t, a[0].id) == 0 && a[0].id < t.next && (a[0].id in dealt ==> dealt[a[0].id] == player)
  {
    assert Total(s, a[0].id) <= 1;
  }

  lemma OneLanded(s: Snapshot, t: Snapshot, u: Snapshot, a: seq<Card>, b: seq<Card>, player: Id, dealt: map<Id, Id>)
    requires InTheAir(s, t, a, b, player, dealt) && a != [] && u.next == t.next
    requires forall c: Id :: Total(u, c) == Total(t, c) + (if c == a[0].id then 1 else 0)
    ensures InTheAir(s, u, a[1..], b, player, dealt)
  {
    assert forall c: Id :: Times(a, c) == Times(a[1..], c) + (if c == a[0].id then 1 else 0);
  }

  lemma BoardWritten(t: Snapshot, u: Snapshot, dealt: map<Id, Id>, player: Id, cards: seq<Card>)
    requires TableOk(t, dealt) && u == t.(boards := t.boards[Pile(Sideboard, player) := cards])
    requires PileOwned(cards, player, dealt)
    requires forall c: Id :: Times(cards, c) <= Times(At(t.boards, Pile(Sideboard, player)), c)
                             || (Total(t, c) == 0 && c < t.next && Times(cards, c) <= 1)
    ensures TableOk(u, dealt)
    ensures forall c: Id ::
              Total(u, c) == Total(t, c) - Times(At(t.boards, Pile(Sideboard, player)), c) + Times(cards, c)
  {
    AllPilesAfterPut(t.boards, Pile(Sideboard, player), cards);
    forall c: Id
      ensures Total(u, c) == Total(t, c) - Times(At(t.boards, Pile(Sideboard, player)), c) + Times(cards, c)
    {
      PilesAfterPut(t.boards, Pile(Sideboard, player), cards, Sideboard, c);
    }
    forall c: Id ensures Total(u, c) <= 1 && (Total(u, c) > 0 ==> c < u.next) {
      assert Total(t, c) <= 1;
    }
  }

  // ---------- The swap, step by step ----------

  function Board(g: GameTable, player: Id): seq<Card>
    reads g
  {
    At(g.sideboards, Pile(Sideboard, player))
  }

  function IdWishes(ids: seq<Id>): seq<Wish> { seq(|ids|, i requires 0 <= i < |ids| => ById(ids[i])) }

  function NameWishes(names: seq<string>): seq<Wish> { seq(|names|, i requires 0 <= i < |names| => ByName(names[i])) }

  lemma IndexIsFirstFit(cards: seq<Card>, id: Id)
    ensures IndexOf(cards, id) == FirstFit(cards, ById(id))
  {
    TimesMeansIn(cards, id);
  }

  /** How far the taking from the hand has come. */
  ghost predicate TakingFromHand(s: Snapshot, t: Snapshot, player: Id, wishes: seq<Wish>, out: seq<Card>, dealt: map<Id,
                                 Id>) {
    var taken := Take(At(s.z.piles, Pile(Hand, player)), wishes);
    && InTheAir(s, t, out, [], player, dealt) && out == taken.out
    && HandAndBoard(s, t, player, taken.rest, At(s.boards, Pile(Sideboard, player)))
  }

  lemma OneFromHand(s: Snapshot, t: Snapshot, u: Snapshot, player: Id, ids: seq<Id>, i: nat, out: seq<Card>,
                    card: Option<Card>, dealt: map<Id, Id>)
    requires i < |ids| && TakingFromHand(s, t, player, IdWishes(ids[..i]), out, dealt) && TableOk(t, dealt)
    requires var hand := At(t.z.piles, Pile(Hand, player));
             var at := IndexOf(hand, ids[i]);
             && (card.None? <==> at.None?) && (card.None? ==> u == t)
             && (card.Some? ==> && card.value == hand[at.value] && Gains(u.z, t.z, Hand, ids[i])
                                && u
                                   == t.(z := t.z.(piles := t.z.piles[Pile(Hand, player) := Without(hand, at.value)],
                                                   zone := u.z.zone))
                                && (ids[i] in dealt ==> dealt[ids[i]] == player))
    ensures TakingFromHand(s, u, player, IdWishes(ids[..i + 1]), if card.Some? then out + [card.value] else out, dealt)
    ensures TableOk(u, dealt)
  {
    assert IdWishes(ids[..i + 1])[..i] == IdWishes(ids[..i]);
    IndexIsFirstFit(At(t.z.piles, Pile(Hand, player)), ids[i]);
    if card.Some? {
      CardOut(t, u, dealt, Hand, ids[i]);
      OneMoreUp(s, t, u, out, [], player, dealt, card.value);
    }
  }

  method TakeFromHandById(g: GameTable, player: Id, ids: seq<Id>) returns (out: seq<Card>)
    requires g.Valid()
    modifies g.zones
    ensures g.Valid() && TakingFromHand(old(g.Snap()), g.Snap(), player, IdWishes(ids), out, g.zones.dealt)
  {
    ghost var s := g.Snap();
    out := [];
    for i := 0 to |ids|
      invariant g.Valid() && TakingFromHand(s, g.Snap(), player, IdWishes(ids[..i]), out, g.zones.dealt)
    {
      ghost var t := g.Snap();
      var card := g.zones.RemoveFromHand(player, ids[i]);
      OneFromHand(s, t, g.Snap(), player, ids, i, out, card, g.zones.dealt);
      if card.Some? {
        out := out + [card.value];
      }
    }
    assert ids[..|ids|] == ids;
  }

  /** How far the taking from the sideboard has come; the cards to be given up are in the air already. */
  ghost predicate TakingFromBoard(s: Snapshot, t: Snapshot, player: Id, hand: seq<Card>, given: seq<Card>,
                                  wishes: seq<Wish>, out: seq<Card>, dealt: map<Id, Id>) {
    var taken := Take(At(s.boards, Pile(Sideboard, player)), wishes);
    && InTheAir(s, t, out, given, player, dealt) && out == taken.out
    && HandAndBoard(s, t, player, hand, taken.rest)
  }

  lemma OneFromBoard(s: Snapshot, t: Snapshot, u: Snapshot, player: Id, hand: seq<Card>, given: seq<Card>,
                     names: seq<string>, i: nat, out: seq<Card>, dealt: map<Id, Id>)
    requires i < |names| && TakingFromBoard(s, t, player, hand, given, NameWishes(names[..i]), out, dealt)
             && TableOk(t, dealt)
    requires var board := At(t.boards, Pile(Sideboard, player));
             var at := FirstFit(board, ByName(names[i]));
             u == if at.None? then t else t.(boards := t.boards[Pile(Sideboard, player) := Without(board, at.value)])
    ensures var board := At(t.boards, Pile(Sideboard, player));
            var at := FirstFit(board, ByName(names[i]));
            TakingFromBoard(s, u, player, hand, given, NameWishes(names[..i + 1]),
                            if at.Some? then out + [board[at.value]] else out, dealt)
    ensures TableOk(u, dealt)
  {
    var board := At(t.boards, Pile(Sideboard, player));
    var at := FirstFit(board, ByName(names[i]));
    assert NameWishes(names[..i + 1])[..i] == NameWishes(names[..i]);
    if at.Some? {
      WithoutOwned(board, at.value, player, dealt);
      forall c: Id
        ensures Times(board, c) == Times(Without(board, at.value), c) + (if board[at.value].id == c then 1 else 0)
      {
        TimesWithout(board, at.value, c);
      }
      BoardWritten(t, u, dealt, player, Without(board, at.value));
      OneMoreUp(s, t, u, out, given, player, dealt, board[at.value]);
    }
  }

  method TakeFromBoardByName(g: GameTable, player: Id, names: seq<string>, ghost s: Snapshot, ghost hand: seq<Card>,
                             ghost given: seq<Card>) returns (out: seq<Card>)
    requires g.Valid() && TakingFromBoard(s, g.Snap(), player, hand, given, [], [], g.zones.dealt)
    modifies g`sideboards
    ensures g.Valid() && TakingFromBoard(s, g.Snap(), player, hand, given, NameWishes(names), out, g.zones.dealt)
  {
    out := [];
    for i := 0 to |names|
      invariant g.Valid()
                && TakingFromBoard(s, g.Snap(), player, hand, given, NameWishes(names[..i]), out, g.zones.dealt)
    {
      ghost var t := g.Snap();
      var board := Board(g, player);
      var at := FirstFit(board, ByName(names[i]));
      if at.Some? {
        g.sideboards := g.sideboards[Pile(Sideboard, player) := Without(board, at.value)];
        out := out + [board[at.value]];
      }
      OneFromBoard(s, t, g.Snap(), player, hand, given, names, i, if at.Some? then out[..|out| - 1] else out,
                   g.zones.dealt);
    }
    assert names[..|names|] == names;
  }

  lemma OneIntoHand(s: Snapshot, t: Snapshot, u: Snapshot, player: Id, cards: seq<Card>, i: nat,
                    hand: seq<Card>, board: seq<Card>, others: seq<Card>, dealt: map<Id, Id>)
    requires i < |cards| && InTheAir(s, t, cards[i..], others, player, dealt) && TableOk(t, dealt)
    requires HandAndBoard(s, t, player, hand + cards[..i], board)
    requires AtEndOfHand(t, u, player, cards[i]) && Gains(t.z, u.z, Hand, cards[i].id)
    ensures TableOk(u, dealt) && InTheAir(s, u, cards[i + 1..], others, player, dealt)
    ensures HandAndBoard(s, u, player, hand + cards[..i + 1], board)
  {
    OneToLand(s, t, cards[i..], others, player, dealt);
    CardIn(t, u, dealt, Hand, cards[i].id);
    OneLanded(s, t, u, cards[i..], others, player, dealt);
    assert cards[i..][1..] == cards[i + 1..] && hand + cards[..i] + [cards[i]] == hand + cards[..i + 1];
  }

  ghost predicate AtEndOfHand(t: Snapshot, u: Snapshot, player: Id, card: Card) {
    u == t.(z := t.z.(piles := t.z.piles[Pile(Hand, player) := At(t.z.piles, Pile(Hand, player)) + [card]],
                       zone := u.z.zone))
  }

  lemma OneOntoBoard(s: Snapshot, t: Snapshot, u: Snapshot, player: Id, cards: seq<Card>, i: nat,
                     hand: seq<Card>, board: seq<Card>, others: seq<Card>, dealt: map<Id, Id>)
    requires i < |cards| && InTheAir(s, t, cards[i..], others, player, dealt) && TableOk(t, dealt)
    requires HandAndBoard(s, t, player, hand, board + cards[..i])
    requires u == t.(boards := t.boards[Pile(Sideboard, player) := At(t.boards, Pile(Sideboard, player)) + [cards[i]]])
    ensures TableOk(u, dealt) && InTheAir(s, u, cards[i + 1..], others, player, dealt)
    ensures HandAndBoard(s, u, player, hand, board + cards[..i + 1])
  {
    OneToLand(s, t, cards[i..], others, player, dealt);
    OnBoard(t, u, dealt, player, cards[i]);
    OneLanded(s, t, u, cards[i..], others, player, dealt);
    assert cards[i..][1..] == cards[i + 1..] && board + cards[..i] + [cards[i]] == board + cards[..i + 1];
  }

  /** Cards in the air land at the end of the hand. */
  method LandInHand(g: GameTable, player: Id, cards: seq<Card>, ghost s: Snapshot, ghost hand: seq<Card>,
                    ghost board: seq<Card>, ghost others: seq<Card>)
    requires g.Valid() && InTheAir(s, g.Snap(), cards, others, player, g.zones.dealt)
             && HandAndBoard(s, g.Snap(), player, hand, board)
    modifies g.zones
    ensures g.Valid() && InTheAir(s, g.Snap(), others, [], player, g.zones.dealt)
            && HandAndBoard(s, g.Snap(), player, hand + cards, board)
  {
    for i := 0 to |cards|
      invariant g.Valid() && InTheAir(s, g.Snap(), cards[i..], others, player, g.zones.dealt)
      invariant HandAndBoard(s, g.Snap(), player, hand + cards[..i], board)
    {
      ghost var t := g.Snap();
      OneToLand(s, t, cards[i..], others, player, g.zones.dealt);
      g.zones.PushToHand(player, cards[i]);
      OneIntoHand(s, t, g.Snap(), player, cards, i, hand, board, others, g.zones.dealt);
    }
    assert cards[..|cards|] == cards;
  }

  /** Cards in the air land at the end of the sideboard. */
  method LandOnBoard(g: GameTable, player: Id, cards: seq<Card>, ghost s: Snapshot, ghost hand: seq<Card>,
                     ghost board: seq<Card>, ghost others: seq<Card>)
    requires g.Valid() && InTheAir(s, g.Snap(), cards, others, player, g.zones.dealt)
             && HandAndBoard(s, g.Snap(), player, hand, board)
    modifies g`sideboards
    ensures g.Valid() && InTheAir(s, g.Snap(), others, [], player, g.zones.dealt)
            && HandAndBoard(s, g.Snap(), player, hand, board + cards)
  {
    for i := 0 to |cards|
      invariant g.Valid() && InTheAir(s, g.Snap(), cards[i..], others, player, g.zones.dealt)
      invariant HandAndBoard(s, g.Snap(), player, hand, board + cards[..i])
    {
      ghost var t := g.Snap();
      g.sideboards := g.sideboards[Pile(Sideboard, player) := Board(g, player) + [cards[i]]];
      OneOntoBoard(s, t, g.Snap(), player, cards, i, hand, board, others, g.zones.dealt);
    }
    assert cards[..|cards|] == cards;
  }

  lemma OnBoard(t: Snapshot, u: Snapshot, dealt: map<Id, Id>, player: Id, card: Card)
    requires TableOk(t, dealt) && Total(t, card.id) == 0 && card.id < t.next
             && (card.id in dealt ==> dealt[card.id] == player)
    requires u == t.(boards := t.boards[Pile(Sideboard, player) := At(t.boards, Pile(Sideboard, player)) + [card]])
    ensures TableOk(u, dealt)
    ensures forall c: Id :: Total(u, c) == Total(t, c) + (if c == card.id then 1 else 0)
  {
    var board := At(t.boards, Pile(Sideboard, player));
    Plus(board, card);
    PilesAfterPut(t.boards, Pile(Sideboard, player), board, Sideboard, card.id);
    BoardWritten(t, u, dealt, player, board + [card]);
  }

  lemma AllDown(s: Snapshot, t: Snapshot, player: Id, dealt: map<Id, Id>)
    requires InTheAir(s, t, [], [], player, dealt)
    ensures Keeps(s, t, dealt)
  {}

  /** Hand and sideboard of a player of the game are as the swap leaves them. */
  ghost predicate SwapDone(known: bool, s: Snapshot, t: Snapshot, player: Id, ids: seq<Id>, names: seq<string>) {
    if !known then t == s
    else
      var hand, board := At(s.z.piles, Pile(Hand, player)), At(s.boards, Pile(Sideboard, player));
      var after := Swapped(hand, board, IdWishes(ids), NameWishes(names));
      HandAndBoard(s, t, player, after.0, after.1)
  }

  /** The swap: whatever is asked for, hand and sideboard end as Swapped says, and nothing else changes. */
  method SideboardSwap(g: GameTable, player: Id, ids: seq<Id>, names: seq<string>)
    requires g.Valid()
    modifies g`sideboards, g.zones
    ensures g.Valid() && Keeps(old(g.Snap()), g.Snap(), g.zones.dealt)
    ensures SwapDone(player in g.players, old(g.Snap()), g.Snap(), player, ids, names)
  {
    if player !in g.players {
      return;
    }
    ghost var s := g.Snap();
    var given := TakeFromHandById(g, player, ids);
    ghost var hand, board := g.Cards(Pile(Hand, player)), Board(g, player);
    if |names| != |given| {
      LandInHand(g, player, given, s, hand, board, []);
      AllDown(s, g.Snap(), player, g.zones.dealt);
      return;
    }
    Exchange(g, player, given, names, s);
  }

  /** The rest of the swap, once as many cards are in the air as there are names. */
  method Exchange(g: GameTable, player: Id, given: seq<Card>, names: seq<string>, ghost s: Snapshot)
    requires g.Valid() && |names| == |given| && At(s.boards, Pile(Sideboard, player)) == Board(g, player)
    requires InTheAir(s, g.Snap(), given, [], player, g.zones.dealt)
    requires HandAndBoard(s, g.Snap(), player, g.Cards(Pile(Hand, player)), Board(g, player))
    modifies g`sideboards, g.zones
    ensures g.Valid() && Keeps(s, g.Snap(), g.zones.dealt)
    ensures var wanted, hand := Take(At(s.boards, Pile(Sideboard, player)),
                                     NameWishes(names)), old(g.Cards(Pile(Hand, player)));
            if |wanted.out| != |given| then HandAndBoard(s, g.Snap(), player, hand + given, wanted.rest + wanted.out)
            else HandAndBoard(s, g.Snap(), player, hand + wanted.out, wanted.rest + given)
  {
    ghost var hand := g.Cards(Pile(Hand, player));
    var wanted := TakeFromBoardByName(g, player, names, s, hand, given);
    ghost var rest := Board(g, player);
    if |wanted| != |given| {
      LandInHand(g, player, given, s, hand, rest, wanted);
      LandOnBoard(g, player, wanted, s, hand + given, rest, []);
    } else {
      LandOnBoard(g, player, given, s, hand, rest, wanted);
      LandInHand(g, player, wanted, s, hand, rest + given, []);
    }
    AllDown(s, g.Snap(), player, g.zones.dealt);
  }
}
