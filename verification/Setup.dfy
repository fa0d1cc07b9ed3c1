/** The setup of a game: libraries are dealt and shuffled, and opening hands are drawn. Afterwards every
    dealt card is in exactly one place. */
module Setup {
  import opened Permanents
  import opened Zones
  import opened ZoneManagement
  import opened Moves
  import opened Game

  const OPENING_HAND := 7

  function DeckOf(decks: map<Id, seq<Card>>, player: Id): seq<Card> { if player in decks then decks[player] else [] }

  /** How often a card is in the decks of some players. */
  function TimesInDecks(decks: map<Id, seq<Card>>, seats: seq<Id>, id: Id): nat {
    if seats == [] then 0
    else TimesInDecks(decks, seats[..|seats| - 1], id) + Times(DeckOf(decks, seats[|seats| - 1]), id)
  }

  lemma {:induction false} FewerSeats(decks: map<Id, seq<Card>>, seats: seq<Id>, i: nat, id: Id)
    requires i <= |seats|
    ensures TimesInDecks(decks, seats[..i], id) <= TimesInDecks(decks, seats, id)
  {
    if i < |seats| {
      assert seats[..|seats| - 1][..i] == seats[..i];
      FewerSeats(decks, seats[..|seats| - 1], i, id);
    } else {
      assert seats[..i] == seats;
    }
  }

  /** The cards of decks and sideboards are exactly the dealt ones, each there once, with its owner; ids come
      from the instance counter; and no player sits twice. */
  ghost predicate Dealt(decks: map<Id, seq<Card>>, seats: seq<Id>, boards: Piles, dealt: map<Id, Id>, next: nat) {
    && (forall id: Id ::
         TimesInDecks(decks, seats, id) + TimesInPiles(boards, Sideboard, id) == if id in dealt then 1 else 0)
    && (forall id :: id in dealt ==> id < next)
    && (forall i :: 0 <= i < |seats| ==> PileOwned(DeckOf(decks, seats[i]), seats[i], dealt))
    && BoardsOwned(boards, dealt)
    && (forall i, j :: 0 <= i < j < |seats| ==> seats[i] != seats[j])
  }

  ghost predicate LibraryOf(z: Zoning, decks: map<Id, seq<Card>>, player: Id, given: bool) {
    && At(z.piles, Pile(Hand, player)) == []
    && multiset(At(z.piles, Pile(Library, player))) == if given then multiset(DeckOf(decks, player)) else multiset{}
  }

  /** The first players have their decks as libraries, in some order; the others have none yet. */
  ghost predicate LibrariesSet(z: Zoning, decks: map<Id, seq<Card>>, seats: seq<Id>, n: nat)
    requires n <= |seats|
  {
    && (forall id: Id :: Held(z, id) == TimesInDecks(decks, seats[..n], id))
    && (forall k :: 0 <= k < |seats| ==> LibraryOf(z, decks, seats[k], k < n))
    && z.field == map[]
  }

  lemma RoomForDeck(z: Zoning, decks: map<Id, seq<Card>>, seats: seq<Id>, i: nat, boards: Piles, dealt: map<Id, Id>,
                    next: nat)
    requires i < |seats| && Dealt(decks, seats, boards, dealt, next) && LibrariesSet(z, decks, seats, i)
    ensures forall id: Id ::
              TimesInDecks(decks, seats[..i + 1], id) == Held(z, id) + Times(DeckOf(decks, seats[i]), id) <= 1
  {
    forall id: Id
      ensures TimesInDecks(decks, seats[..i + 1], id) == Held(z, id) + Times(DeckOf(decks, seats[i]), id) <= 1
    {
      FewerSeats(decks, seats, i + 1, id);
      assert seats[..i + 1][..i] == seats[..i];
    }
  }

  lemma LibraryGiven(z: Zoning, y: Zoning, decks: map<Id, seq<Card>>, seats: seq<Id>, i: nat, boards: Piles,
                     dealt: map<Id, Id>, next: nat)
    requires i < |seats| && Dealt(decks, seats, boards, dealt, next) && LibrariesSet(z, decks, seats, i)
    requires Given(z, y, seats[i], DeckOf(decks, seats[i]))
    ensures LibrariesSet(y, decks, seats, i + 1)
  {
    RoomForDeck(z, decks, seats, i, boards, dealt, next);
    forall k | 0 <= k < |seats| ensures LibraryOf(y, decks, seats[k], k < i + 1) {
      assert LibraryOf(z, decks, seats[k], k < i);
      assert k != i ==> Pile(Library, seats[k]) != Pile(Library, seats[i]);
    }
    assert forall id: Id :: Held(y, id) == TimesInDecks(decks, seats[..i + 1], id);
  }

  /** One player's library is set and shuffled. */
  method GiveLibrary(zones: ZoneManager, decks: map<Id, seq<Card>>, seats: seq<Id>, i: nat, boards: Piles,
                     ghost next: nat, shuffle: seq<Card> -> seq<Card>)
    requires zones.Valid() && i < |seats| && Dealt(decks, seats, boards, zones.dealt, next) && Permutes(shuffle)
    requires LibrariesSet(zones.Value(), decks, seats, i)
    modifies zones
    ensures zones.Valid() && (old(zones.Noted()) ==> zones.Noted())
    ensures LibrariesSet(zones.Value(), decks, seats, i + 1)
  {
    ghost var z := zones.Value();
    RoomForDeck(z, decks, seats, i, boards, zones.dealt, next);
    SetAndShuffle(zones, seats[i], DeckOf(decks, seats[i]), shuffle);
    LibraryGiven(z, zones.Value(), decks, seats, i, boards, zones.dealt, next);
  }

  method SetAndShuffle(zones: ZoneManager, player: Id, deck: seq<Card>, shuffle: seq<Card> -> seq<Card>)
    requires zones.Valid() && zones.Cards(Pile(Library, player)) == [] && PileOwned(deck, player, zones.dealt)
    requires Permutes(shuffle) && forall id: Id :: zones.Places(id) + Times(deck, id) <= 1
    modifies zones
    ensures zones.Valid() && (old(zones.Noted()) ==> zones.Noted())
    ensures Given(old(zones.Value()), zones.Value(), player, deck)
  {
    ghost var z := zones.Value();
    zones.SetLibrary(player, deck);
    ghost var m := zones.Value();
    zones.ShuffleLibrary(player, shuffle);
    ShuffledDeck(z, m, zones.Value(), player, deck, shuffle(deck));
  }

  /** A deck has become a player's library, in some order, and nothing else has moved. */
  ghost predicate Given(z: Zoning, y: Zoning, player: Id, deck: seq<Card>) {
    && (forall id: Id :: Held(y, id) == Held(z, id) + Times(deck, id))
    && multiset(At(y.piles, Pile(Library, player))) == multiset(deck)
    && (forall pile :: pile != Pile(Library, player) ==> At(y.piles, pile) == At(z.piles, pile))
    && y.field == z.field
  }

  lemma ShuffledDeck(z: Zoning, m: Zoning, y: Zoning, player: Id, deck: seq<Card>, shuffled: seq<Card>)
    requires m == LibrarySet(z, player, deck) && multiset(shuffled) == multiset(deck) && SameHeld(m, y)
    requires forall id: Id :: Held(m, id) == Held(z, id) + Times(deck, id)
    requires y == m.(piles := m.piles[Pile(Library, player) := shuffled])
    ensures Given(z, y, player, deck)
  {}

  /** The first players have drawn their opening hands from the top of their libraries. */
  ghost predicate HandsDrawn(z: Zoning, y: Zoning, seats: seq<Id>, n: nat)
    requires n <= |seats|
  {
    forall k :: 0 <= k < |seats| ==> HandDrawn(z, y, seats[k], k < n)
  }

  ghost predicate HandDrawn(z: Zoning, y: Zoning, player: Id, drew: bool) {
    var library := At(z.piles, Pile(Library, player));
    var n := if drew then Clamp(OPENING_HAND, |library|) else 0;
    At(y.piles, Pile(Hand, player)) == FromTop(library, n)
    && At(y.piles, Pile(Library, player)) == library[..|library| - n]
  }

  lemma OneHandDrawn(z: Zoning, y: Zoning, x: Zoning, seats: seq<Id>, i: nat)
    requires i < |seats| && HandsDrawn(z, y, seats, i) && forall k, l :: 0 <= k < l < |seats| ==> seats[k] != seats[l]
    requires UpTo(y, x, Pile(Library, seats[i]), Pile(Hand, seats[i]), OPENING_HAND)
    ensures HandsDrawn(z, x, seats, i + 1)
  {
    var library, hand := Pile(Library, seats[i]), Pile(Hand, seats[i]);
    MovedTimes(y, library, hand, Clamp(OPENING_HAND, |At(y.piles, library)|));
    forall k | 0 <= k < |seats| ensures HandDrawn(z, x, seats[k], k < i + 1) {
      assert HandDrawn(z, y, seats[k], k < i);
      if k == i {
        assert At(y.piles, library) == At(z.piles, library)[..|At(z.piles, library)|] == At(z.piles, library);
      }
    }
  }

  /** Every player draws the opening hand. */
  method OpeningHands(g: GameTable)
    requires g.Valid() && HandsDrawn(g.zones.Value(), g.zones.Value(), g.seats, 0)
    requires forall k, l :: 0 <= k < l < |g.seats| ==> g.seats[k] != g.seats[l]
    modifies g`players, g.zones
    ensures g.Valid() && Keeps(old(g.Snap()), g.Snap(), g.zones.dealt)
    ensures HandsDrawn(old(g.zones.Value()), g.zones.Value(), g.seats, |g.seats|)
  {
    ghost var s := g.Snap();
    for i := 0 to |g.seats|
      invariant g.Valid() && Keeps(s, g.Snap(), g.zones.dealt) && HandsDrawn(s.z, g.zones.Value(), g.seats, i)
    {
      ghost var t := g.Snap();
      g.CallDraw(g.seats[i], OPENING_HAND);
      OneHandDrawn(s.z, t.z, g.zones.Value(), g.seats, i);
      KeepsTwice(s, t, g.Snap(), g.zones.dealt);
    }
  }

  /** Every player has the opening hand, or the whole deck if it is smaller, and the rest as library. */
  ghost predicate Ready(z: Zoning, decks: map<Id, seq<Card>>, seats: seq<Id>) {
    forall k :: 0 <= k < |seats| ==> ReadyPlayer(z, decks, seats[k])
  }

  ghost predicate ReadyPlayer(z: Zoning, decks: map<Id, seq<Card>>, player: Id) {
    var hand, library := At(z.piles, Pile(Hand, player)), At(z.piles, Pile(Library, player));
    var deck := if player in decks then decks[player] else [];
    && |hand| == (if |deck| < 7 then |deck| else 7)
    && multiset(hand) + multiset(library) == multiset(deck)
  }

  lemma DrawnFromDeck(z: Zoning, y: Zoning, decks: map<Id, seq<Card>>, seats: seq<Id>)
    requires LibrariesSet(z, decks, seats, |seats|) && HandsDrawn(z, y, seats, |seats|)
    ensures Ready(y, decks, seats)
  {
    forall k | 0 <= k < |seats| ensures ReadyPlayer(y, decks, seats[k]) {
      assert LibraryOf(z, decks, seats[k], k < |seats|) && HandDrawn(z, y, seats[k], k < |seats|);
      var library := At(z.piles, Pile(Library, seats[k]));
      assert |multiset(library)| == |multiset(DeckOf(decks, seats[k]))|;
      DrawnIsRest(library, Clamp(OPENING_HAND, |library|));
    }
  }

  lemma {:induction false} DrawnIsRest(cards: seq<Card>, n: nat)
    requires n <= |cards|
    ensures |FromTop(cards, n)| == n
    ensures multiset(FromTop(cards, n)) + multiset(cards[..|cards| - n]) == multiset(cards)
  {
    if n == 0 {
      assert cards[..|cards|] == cards;
    } else {
      DrawnIsRest(cards, n - 1);
      assert cards[..|cards| - (n - 1)] == cards[..|cards| - n] + [cards[|cards| - n]];
    }
  }

  lemma NothingYet(z: Zoning, decks: map<Id, seq<Card>>, seats: seq<Id>)
    requires z == Zoning(map[], map[], [], map[], map[])
    ensures LibrariesSet(z, decks, seats, 0)
  {}

  method GiveLibraries(zones: ZoneManager, decks: map<Id, seq<Card>>, seats: seq<Id>, boards: Piles, ghost next: nat,
                       shuffles: Id -> (seq<Card> -> seq<Card>))
    requires zones.Value() == Zoning(map[], map[], [], map[], map[]) && zones.Valid()
             && forall player :: Permutes(shuffles(player))
    requires Dealt(decks, seats, boards, zones.dealt, next)
    modifies zones
    ensures zones.Valid() && LibrariesSet(zones.Value(), decks, seats, |seats|)
  {
    NothingYet(zones.Value(), decks, seats);
    for i := 0 to |seats|
      invariant zones.Valid() && LibrariesSet(zones.Value(), decks, seats, i)
    {
      GiveLibrary(zones, decks, seats, i, boards, next, shuffles(seats[i]));
    }
  }

  method SetupGame(g: GameTable, decks: map<Id, seq<Card>>, shuffles: Id -> (seq<Card> -> seq<Card>))
    requires g.zones.Value() == Zoning(map[], map[], [], map[], map[]) && g.zones.Valid() && g.stack.Valid()
             && g.stack.entries == []
    requires g.tokens == {} && forall player :: Permutes(shuffles(player))
    requires Dealt(decks, g.seats, g.sideboards, g.zones.dealt, g.nextInstance)
    modifies g`players, g.zones
    ensures g.Valid() && Conserved(g.Snap(), g.zones.dealt) && Ready(g.zones.Value(), decks, g.seats)
  {
    GiveLibraries(g.zones, decks, g.seats, g.sideboards, g.nextInstance, shuffles);
    ghost var s := g.Snap();
    AllDealt(s, decks, g.seats, g.zones.dealt);
    OpeningHands(g);
    DrawnFromDeck(s.z, g.zones.Value(), decks, g.seats);
  }

  lemma AllDealt(s: Snapshot, decks: map<Id, seq<Card>>, seats: seq<Id>, dealt: map<Id, Id>)
    requires LibrariesSet(s.z, decks, seats, |seats|) && Dealt(decks, seats, s.boards, dealt, s.next) && s.entries == []
             && s.tokens == {}
    ensures TableOk(s, dealt) && Conserved(s, dealt) && HandsDrawn(s.z, s.z, seats, 0)
  {
    assert seats[..|seats|] == seats;
    assert forall id: Id :: Total(s, id) == if id in dealt then 1 else 0;
    forall k | 0 <= k < |seats| ensures HandDrawn(s.z, s.z, seats[k], k < 0) {
      assert LibraryOf(s.z, decks, seats[k], k < |seats|);
    }
  }
}
