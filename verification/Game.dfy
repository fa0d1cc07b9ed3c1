/** The game table: zones, stack and sideboards together, and the game context through which card
    effects move cards. Whatever an effect does, every dealt card stays in exactly one place, and never
    comes into another player's hand, library, graveyard or sideboard. */
module Game {
  import opened Common
  import opened Permanents
  import opened Zones
  import opened ZoneManagement
  import opened Moves
  import opened Removal
  import opened Stack
  import Mana

  // ---------- Counting cards over the whole table ----------

  function SpellTimes(e: StackEntry, id: Id): nat { if e.content.Spell? && e.content.card.id == id then 1 else 0 }

  /** How often a card is on the stack, as a spell. */
  function TimesOnStack(entries: seq<StackEntry>, id: Id): nat {
    if entries == [] then 0 else SpellTimes(entries[0], id) + TimesOnStack(entries[1..], id)
  }

  lemma {:induction false} StackConcat(a: seq<StackEntry>, b: seq<StackEntry>, id: Id)
    ensures TimesOnStack(a + b, id) == TimesOnStack(a, id) + TimesOnStack(b, id)
  {
    if a == [] {
      assert a + b == b;
    } else {
      assert (a + b)[1..] == a[1..] + b;
      StackConcat(a[1..], b, id);
    }
  }

  lemma StackPushed(entries: seq<StackEntry>, e: StackEntry)
    ensures forall id :: TimesOnStack(entries + [e], id) == TimesOnStack(entries, id) + SpellTimes(e, id)
  {
    forall id: Id ensures TimesOnStack(entries + [e], id) == TimesOnStack(entries, id) + SpellTimes(e, id) {
      StackConcat(entries, [e], id);
      assert TimesOnStack([e], id) == SpellTimes(e, id);
    }
  }

  lemma StackWithout(entries: seq<StackEntry>, i: nat)
    requires i < |entries|
    ensures forall id :: TimesOnStack(entries, id) == TimesOnStack(Without(entries, i), id) + SpellTimes(entries[i], id)
  {
    var a, e, b := entries[..i], entries[i], entries[i + 1..];
    forall id: Id ensures TimesOnStack(entries, id) == TimesOnStack(Without(entries, i), id) + SpellTimes(e, id) {
      assert entries == (a + [e]) + b;
      StackConcat(a + [e], b, id);
      StackConcat(a, [e], id);
      StackConcat(a, b, id);
      assert TimesOnStack([e], id) == SpellTimes(e, id);
    }
  }

  /** All that matters for where cards are. */
  datatype Snapshot = Snapshot(z: Zoning, entries: seq<StackEntry>, boards: Piles, next: nat, tokens: set<Id>)

  /** In how many places a card is: zones, stack and sideboards. */
  ghost function Total(s: Snapshot, id: Id): nat {
    Held(s.z, id) + TimesOnStack(s.entries, id) + TimesInPiles(s.boards, Sideboard, id)
  }

  /** Spells on the stack are controlled by their card's owner. */
  ghost predicate SpellsOwned(entries: seq<StackEntry>, dealt: map<Id, Id>) {
    forall e :: e in entries && e.content.Spell? && e.content.card.id in dealt ==>
      dealt[e.content.card.id] == e.controller
  }

  ghost predicate BoardsOwned(boards: Piles, dealt: map<Id, Id>) {
    forall pile :: pile in boards ==> PileOwned(boards[pile], pile.player, dealt)
  }

  ghost predicate TokensFlagged(field: map<Id, Permanent>, tokens: set<Id>) {
    forall id :: id in field && field[id].token ==> id in tokens
  }

  /** What holds of the table at every moment: no card is in two places, card ids come from the instance
      counter, and tokens are not dealt cards. */
  ghost predicate TableOk(s: Snapshot, dealt: map<Id, Id>) {
    && (forall id: Id :: Total(s, id) <= 1)
    && (forall id: Id :: Total(s, id) > 0 ==> id < s.next)
    && (forall id: Id :: id in dealt ==> id < s.next && id !in s.tokens)
    && SpellsOwned(s.entries, dealt) && BoardsOwned(s.boards, dealt) && TokensFlagged(s.z.field, s.tokens)
  }

  /** Every dealt card is in exactly one place. */
  ghost predicate Conserved(s: Snapshot, dealt: map<Id, Id>) {
    forall id: Id :: id in dealt ==> Total(s, id) == 1
  }

  /** From s to t no dealt card has been lost, and no card has come from nowhere. */
  ghost predicate Keeps(s: Snapshot, t: Snapshot, dealt: map<Id, Id>) {
    && s.next <= t.next
    && (forall id: Id :: id in dealt ==> Total(t, id) == Total(s, id))
    && (forall id: Id :: id < s.next ==> Total(t, id) <= Total(s, id))
  }

  lemma KeepsTwice(s: Snapshot, t: Snapshot, u: Snapshot, dealt: map<Id, Id>)
    requires Keeps(s, t, dealt) && Keeps(t, u, dealt)
    ensures Keeps(s, u, dealt)
  {}

  /** Moves within the zones. */
  lemma MovedInZones(s: Snapshot, t: Snapshot, dealt: map<Id, Id>)
    requires TableOk(s, dealt) && SameHeld(s.z, t.z) && t == s.(z := t.z) && TokensFlagged(t.z.field, s.tokens)
    ensures TableOk(t, dealt) && Keeps(s, t, dealt)
  {
    assert forall id: Id :: Total(t, id) == Total(s, id);
  }

  /** A token that ceases to exist. */
  lemma TokenGone(s: Snapshot, t: Snapshot, dealt: map<Id, Id>, id: Id)
    requires TableOk(s, dealt) && Dissolved(s.z, t.z, id) && t == s.(z := t.z) && TokensFlagged(t.z.field, s.tokens)
    ensures TableOk(t, dealt) && Keeps(s, t, dealt)
  {
    assert forall c: Id :: Total(s, c) == Total(t, c) + (if c == id then 1 else 0);
  }

  /** A new card instance. */
  lemma TokenMade(s: Snapshot, t: Snapshot, dealt: map<Id, Id>)
    requires TableOk(s, dealt) && Gains(s.z, t.z, Battlefield, s.next)
    requires t == s.(z := t.z, next := s.next + 1, tokens := s.tokens + {s.next}) && TokensFlagged(t.z.field, t.tokens)
    ensures TableOk(t, dealt) && Keeps(s, t, dealt)
  {
    assert forall c: Id :: Total(t, c) == Total(s, c) + (if c == s.next then 1 else 0);
  }

  /** An ability comes onto the stack. */
  lemma AbilityPushed(s: Snapshot, t: Snapshot, dealt: map<Id, Id>, e: StackEntry)
    requires TableOk(s, dealt) && !e.content.Spell? && t == s.(entries := s.entries + [e])
    ensures TableOk(t, dealt) && Keeps(s, t, dealt)
  {
    StackPushed(s.entries, e);
    assert forall c: Id :: Total(t, c) == Total(s, c);
  }

  /** Fewer cards, or one more that was nowhere: still nothing is anywhere twice. */
  lemma CountsStayOk(s: Snapshot, t: Snapshot, dealt: map<Id, Id>, extra: Option<Id>)
    requires TableOk(s, dealt) && s.next <= t.next
    requires forall id: Id :: Total(t, id) <= Total(s, id) + (if extra == Some(id) then 1 else 0)
    requires extra.Some? ==> Total(s, extra.value) == 0 && extra.value < t.next
    ensures forall id: Id :: Total(t, id) <= 1
    ensures forall id: Id :: Total(t, id) > 0 ==> id < t.next
  {
    forall id: Id ensures Total(t, id) <= 1 && (Total(t, id) > 0 ==> id < t.next) {
      assert Total(s, id) <= 1;
    }
  }

  /** A card that is nowhere comes onto the stack as a spell of its owner. */
  lemma SpellPushed(s: Snapshot, t: Snapshot, dealt: map<Id, Id>, e: StackEntry)
    requires TableOk(s, dealt) && e.content.Spell? && t == s.(entries := s.entries + [e])
    requires Total(s, e.content.card.id) == 0 && e.content.card.id < s.next
    requires e.content.card.id in dealt ==> dealt[e.content.card.id] == e.controller
    ensures TableOk(t, dealt)
    ensures forall id: Id :: Total(t, id) == Total(s, id) + (if id == e.content.card.id then 1 else 0)
  {
    StackPushed(s.entries, e);
    CountsStayOk(s, t, dealt, Some(e.content.card.id));
  }

  /** An entry leaves the stack: a spell's card is nowhere then. */
  lemma EntryTaken(s: Snapshot, t: Snapshot, dealt: map<Id, Id>, i: nat)
    requires TableOk(s, dealt) && i < |s.entries| && t == s.(entries := Without(s.entries, i))
    ensures TableOk(t, dealt)
    ensures forall id: Id :: Total(s, id) == Total(t, id) + SpellTimes(s.entries[i], id)
    ensures var e := s.entries[i];
            e.content.Spell? ==> && Total(t, e.content.card.id) == 0 && e.content.card.id < s.next
                                 && (e.content.card.id in dealt ==> dealt[e.content.card.id] == e.controller)
  {
    StackWithout(s.entries, i);
    var e := s.entries[i];
    assert e in s.entries;
    CountsStayOk(s, t, dealt, None);
    if e.content.Spell? {
      assert Total(s, e.content.card.id) <= 1;
    }
  }

  /** A card leaves its zone into the hands of the running operation. */
  lemma CardOut(s: Snapshot, t: Snapshot, dealt: map<Id, Id>, zone: Zone, id: Id)
    requires TableOk(s, dealt) && Gains(t.z, s.z, zone, id) && t == s.(z := t.z) && TokensFlagged(t.z.field, s.tokens)
    ensures TableOk(t, dealt) && Total(t, id) == 0 && id < s.next
    ensures forall c: Id :: Total(s, c) == Total(t, c) + (if c == id then 1 else 0)
  {
    assert Total(s, id) <= 1;
    CountsStayOk(s, t, dealt, None);
  }

  /** And comes to a zone again. */
  lemma CardIn(s: Snapshot, t: Snapshot, dealt: map<Id, Id>, zone: Zone, id: Id)
    requires TableOk(s, dealt) && Gains(s.z, t.z, zone, id) && t == s.(z := t.z) && TokensFlagged(t.z.field, s.tokens)
    requires Total(s, id) == 0 && id < s.next
    ensures TableOk(t, dealt)
    ensures forall c: Id :: Total(t, c) == Total(s, c) + (if c == id then 1 else 0)
  {
    CountsStayOk(s, t, dealt, Some(id));
  }

  // ---------- The table and the game context ----------

  /** The calls a card effect can make that move cards; everything else leaves cards where they are.
      Prompt answers and shuffles are part of the call. */
  datatype ContextCall =
    | Draw(player: Id, count: int)
    | MillTop(player: Id, count: int)
    | ScryTop(player: Id, count: int, response: Response)
    | SurveilTop(player: Id, count: int, response: Response)
    | DiscardHand(player: Id, count: int, ids: seq<Id>)
    | Search(player: Id, matches: Card -> bool, response: Response, shuffle: seq<Card> -> seq<Card>)
    | Fetch(player: Id, matches: Card -> bool, response: Response, tapped: bool, shuffle: seq<Card> -> seq<Card>,
            again: seq<Card> -> seq<Card>)
    | ExileAny(id: Id)
    | ReturnAny(id: Id)
    | ReturnFromYard(player: Id, id: Id)
    | Destroy(id: Id)
    | Sacrifice(id: Id)
    | CounterSpell(stackId: nat)
    | CreateToken(name: string, cardType: CardType, stats: Stats, controller: Id)
    | Trigger(entry: StackEntry)
    | AddMana(player: Id, color: Mana.Color, amount: nat)

  /** Shuffles permute, and only triggered abilities are put on the stack by effects. */
  ghost predicate WellFormed(call: ContextCall) {
    match call
    case Search(_, _, _, shuffle) => Permutes(shuffle)
    case Fetch(_, _, _, _, shuffle, again) => Permutes(shuffle) && Permutes(again)
    case Trigger(entry) => entry.content.Triggered?
    case _ => true
  }

  predicate OnPiles(call: ContextCall) {
    call.MillTop? || call.ScryTop? || call.SurveilTop? || call.DiscardHand? || call.Search?
  }

  predicate OnCard(call: ContextCall) {
    call.ReturnAny? || call.ReturnFromYard? || call.Destroy? || call.Sacrifice?
  }

  // ---------- What each call has done ----------

  ghost predicate DoneOnPiles(call: ContextCall, z: Zoning, y: Zoning)
    requires OnPiles(call)
  {
    var library := At(z.piles, Pile(Library, call.player));
    match call
    case MillTop(player, count) =>
      UpTo(z, y, Pile(Library, player), Pile(Graveyard, player), count)
    case ScryTop(player, count, response) =>
      OnlyLibrary(z, y, player, ScryResult(library, count, Named(response)))
    case SurveilTop(player, count, response) =>
      Arranged(z, y, player, SurveilLibrary(library, count, Named(response)),
               At(z.piles, Pile(Graveyard, player)) + Keep(Shown(library, count), Named(response), true))
    case DiscardHand(player, count, ids) =>
      y == Discarded(z, player, count, ids)
    case Search(player, _, _, shuffle) =>
      OnlyLibrary(z, y, player, shuffle(library))
  }

  ghost predicate DoneOnCard(call: ContextCall, seats: seq<Id>, z: Zoning, y: Zoning)
    requires OnCard(call)
  {
    match call
    case ReturnAny(id) => y == Returned(z, seats, id)
    case ReturnFromYard(player, id) => y == ReturnedFromYard(z, player, id)
    case Destroy(id) => y == Destroyed(z, id)
    case Sacrifice(id) => y == Sacrificed(z, id)
  }

  /** Such a call can only take permanents away. */
  lemma FieldOnlyShrinks(call: ContextCall, seats: seq<Id>, z: Zoning, y: Zoning, tokens: set<Id>)
    requires OnCard(call)
    requires DoneOnCard(call, seats, z, y) && TokensFlagged(z.field, tokens)
    ensures TokensFlagged(y.field, tokens)
  {}

  lemma ExileOnlyShrinks(seats: seq<Id>, id: Id, z: Zoning, tokens: set<Id>)
    requires TokensFlagged(z.field, tokens)
    ensures TokensFlagged(ExiledFrom(z, seats, id).field, tokens)
  {}

  /** What the answer to a search names, if it is a card of the library that matches. */
  ghost function FoundBy(library: seq<Card>, matches: Card -> bool, response: Response): Id {
    if exists c :: c in library && matches(c) && c.id == response.target then response.target else 0
  }

  /** The library is shuffled; and if a card was found, that card enters and the rest is shuffled again. */
  ghost predicate FetchDone(z: Zoning, y: Zoning, player: Id, matches: Card -> bool, response: Response, tapped: bool,
                            shuffle: seq<Card> -> seq<Card>, again: seq<Card> -> seq<Card>)
  {
    var library, found := At(z.piles, Pile(Library, player)), FoundBy(At(z.piles, Pile(Library, player)), matches,
                                                                      response);
    && At(y.piles, Pile(Library, player))
       == (if found == 0 then shuffle(library) else again(Keep(shuffle(library), {found}, false)))
    && (forall pile :: pile != Pile(Library, player) ==> At(y.piles, pile) == At(z.piles, pile))
    && y.exile == z.exile && y.owner == z.owner
    && (found == 0 ==> y.field == z.field)
    && (found != 0 ==> && found in y.field && y.field == z.field[found := y.field[found]]
                       && y.field[found].card in library
                       && y.field[found] == Entering(y.field[found].card, player, player).(tapped := tapped))
  }

  /** What a call has made of the cards; the next stack entry gets the given id. */
  ghost predicate Moved(call: ContextCall, seats: seq<Id>, s: Snapshot, t: Snapshot, nextId: nat) {
    match call
    case Draw(player, count) =>
      t == s.(z := t.z) && UpTo(s.z, t.z, Pile(Library, player), Pile(Hand, player), count)
    case MillTop(_, _) => t == s.(z := t.z) && DoneOnPiles(call, s.z, t.z)
    case ScryTop(_, _, _) => t == s.(z := t.z) && DoneOnPiles(call, s.z, t.z)
    case SurveilTop(_, _, _) => t == s.(z := t.z) && DoneOnPiles(call, s.z, t.z)
    case DiscardHand(_, _, _) => t == s.(z := t.z) && DoneOnPiles(call, s.z, t.z)
    case Search(_, _, _, _) => t == s.(z := t.z) && DoneOnPiles(call, s.z, t.z)
    case Fetch(player, matches, response, tapped, shuffle, again) =>
      t == s.(z := t.z) && FetchDone(s.z, t.z, player, matches, response, tapped, shuffle, again)
    case ExileAny(id) => t == s.(z := ExiledFrom(s.z, seats, id))
    case ReturnAny(_) => t == s.(z := t.z) && DoneOnCard(call, seats, s.z, t.z)
    case ReturnFromYard(_, _) => t == s.(z := t.z) && DoneOnCard(call, seats, s.z, t.z)
    case Destroy(_) => t == s.(z := t.z) && DoneOnCard(call, seats, s.z, t.z)
    case Sacrifice(_) => t == s.(z := t.z) && DoneOnCard(call, seats, s.z, t.z)
    case CounterSpell(stackId) => CounteredById(s, t, stackId)
    case CreateToken(name, cardType, stats, controller) =>
      && t.z.field == s.z.field[s.next := TokenPermanent(s.next, name, cardType, stats, controller)]
      && t.next == s.next + 1 && t.tokens == s.tokens + {s.next} && t.entries == s.entries && t.boards == s.boards
      && t.z.piles == s.z.piles && t.z.exile == s.z.exile && t.z.owner == s.z.owner
    case Trigger(entry) => t == s.(entries := s.entries + [entry.(id := nextId)])
    case AddMana(_, _, _) => t == s
  }

  /** The entry with this id has been countered, if there is one. */
  ghost predicate CounteredById(s: Snapshot, t: Snapshot, id: nat) {
    if exists e :: e in s.entries && e.id == id
    then exists i :: 0 <= i < |s.entries| && Countered(s, t, i, id)
    else t == s
  }

  /** Everything about a game that the rules here read or write. */
  datatype State = State(s: Snapshot, players: map<Id, Player>, nextId: nat)

  /** A draw that found too few cards is noted on the player, and mana goes to the player's pool; no other call
      changes a player. */
  function PlayersAfter(call: ContextCall, st: State): map<Id, Player> {
    if call.Draw? && call.count > |At(st.s.z.piles, Pile(Library, call.player))| && call.player in st.players
    then st.players[call.player := st.players[call.player].(failedToDraw := true)]
    else if call.AddMana? && call.player in st.players
    then st.players[call.player := WithMana(st.players[call.player], call.color, call.amount)]
    else st.players
  }

  /** A draw marks the player exactly when more cards were asked for than the library had, and no other call does; and
      only added mana changes a pool, by the amount, in the colour. */
  lemma PlayersAfterMeans(call: ContextCall, st: State, player: Id)
    requires player in st.players
    ensures player in PlayersAfter(call, st)
    ensures var p, q := st.players[player], PlayersAfter(call, st)[player];
            && (q.failedToDraw <==>
                  || p.failedToDraw
                  || (call.Draw? && call.player == player && call.count > |At(st.s.z.piles, Pile(Library, player))|))
            && (forall color: Mana.Color ::
                 q.mana[color] == p.mana[color]
                   + if call.AddMana? && call.player == player && call.color == color then call.amount else 0)
            && q.life == p.life && q.poison == p.poison && q.lost == p.lost
  {}

  function WithMana(p: Player, color: Mana.Color, amount: nat): Player {
    p.(mana := Mana.Bump(p.mana, color, amount))
  }

  /** What a call has done to the whole game. */
  ghost predicate Done(call: ContextCall, seats: seq<Id>, st: State, st': State) {
    && Moved(call, seats, st.s, st'.s, st.nextId)
    && st'.players == PlayersAfter(call, st) && st'.nextId == st.nextId + (if call.Trigger? then 1 else 0)
  }

  function TokenPermanent(id: Id, name: string, cardType: CardType, stats: Stats, controller: Id): Permanent {
    Entering(Card(id, name, cardType, {}, {}, Some(stats), false, false), controller, controller).(token := true)
  }

  lemma FetchFound(z: Zoning, m: Zoning, y: Zoning, player: Id, matches: Card -> bool, response: Response,
                   tapped: bool, shuffle: seq<Card> -> seq<Card>, again: seq<Card> -> seq<Card>)
    requires Permutes(shuffle) && OnlyLibrary(z, m, player, shuffle(At(z.piles, Pile(Library, player))))
    requires FoundBy(At(z.piles, Pile(Library, player)), matches, response) == response.target != 0
    requires PutOntoField(m, y, player, response.target, tapped, again) && SameHeld(z, m) && SameHeld(m, y)
    ensures SameHeld(z, y)
    ensures FetchDone(z, y, player, matches, response, tapped, shuffle, again)
  {
    FoundIsThere(At(z.piles, Pile(Library, player)), At(m.piles, Pile(Library, player)), matches, response);
    FetchedFromLibrary(At(z.piles, Pile(Library, player)), At(m.piles, Pile(Library, player)), response.target);
    StillSameHeld(z, m, y);
    forall pile | pile != Pile(Library, player) ensures At(y.piles, pile) == At(z.piles, pile) {
      assert At(y.piles, pile) == At(m.piles, pile);
    }
  }

  lemma FieldUntouched(call: ContextCall, z: Zoning, y: Zoning)
    requires OnPiles(call)
    requires DoneOnPiles(call, z, y)
    ensures y.field == z.field
  {
    match call {
      case MillTop(player, count) =>
        MovedTimes(z, Pile(Library, player), Pile(Graveyard, player),
                   Clamp(count, |At(z.piles, Pile(Library, player))|));
      case ScryTop(_, _, _) =>
      case SurveilTop(_, _, _) =>
      case DiscardHand(player, count, ids) =>
        DiscardTakesExactly(z, player, count, ids);
      case Search(_, _, _, _) =>
    }
  }

  /** The states of an effect that is run call by call. */
  ghost predicate Trace(calls: seq<ContextCall>, seats: seq<Id>, trace: seq<State>) {
    |trace| == |calls| + 1 && forall i :: 0 <= i < |calls| ==> Done(calls[i], seats, trace[i], trace[i + 1])
  }

  /** All calls of an effect, in order, lead from one state to another. */
  ghost predicate RanAll(calls: seq<ContextCall>, seats: seq<Id>, st: State, st': State) {
    exists trace :: Trace(calls, seats, trace) && trace[0] == st && trace[|calls|] == st'
  }

  lemma OneMoreCall(calls: seq<ContextCall>, i: nat, seats: seq<Id>, trace: seq<State>, t: State)
    requires i < |calls| && Trace(calls[..i], seats, trace) && Done(calls[i], seats, trace[i], t)
    ensures Trace(calls[..i + 1], seats, trace + [t])
  {
    var longer := trace + [t];
    forall k | 0 <= k < i + 1 ensures Done(calls[..i + 1][k], seats, longer[k], longer[k + 1]) {
      assert k < i ==> Done(calls[..i][k], seats, trace[k], trace[k + 1]);
    }
  }

  lemma StillGains(z: Zoning, m: Zoning, y: Zoning, zone: Zone, id: Id)
    requires Gains(z, m, zone, id) && SameCounts(m, y)
    ensures Gains(z, y, zone, id)
  {}

  lemma FoundIsThere(before: seq<Card>, shuffled: seq<Card>, matches: Card -> bool, response: Response)
    requires multiset(shuffled) == multiset(before) && FoundBy(before, matches, response) != 0
    ensures Times(shuffled, response.target) > 0
  {
    var c :| c in before && matches(c) && c.id == response.target;
    assert c in multiset(shuffled);
    var i :| 0 <= i < |shuffled| && shuffled[i] == c;
    TimesMeansIn(shuffled, c.id);
  }

  lemma FetchedFromLibrary(before: seq<Card>, shuffled: seq<Card>, id: Id)
    requires multiset(shuffled) == multiset(before) && Keep(shuffled, {id}, true) != []
    ensures Keep(shuffled, {id}, true)[0] in before
  {
    KeptTimes(shuffled, id);
    assert Keep(shuffled, {id}, true)[0] in multiset(shuffled);
  }

  /** The i-th entry of the stack, which has this id, has been countered: a spell's card is at the end of its
      controller's graveyard, and nothing else has changed. */
  ghost predicate Countered(s: Snapshot, t: Snapshot, i: nat, id: nat)
    requires i < |s.entries|
  {
    var e := s.entries[i];
    && e.id == id
    && t == s.(
         entries := Without(s.entries, i),
         z := if e.content.Spell? then IntoGraveyard(s.z, e.content.card, e.controller) else s.z)
  }

  lemma CounteredIs(s: Snapshot, t: Snapshot, u: Snapshot, i: nat, dealt: map<Id, Id>)
    requires i < |s.entries| && Countered(s, u, i, s.entries[i].id) && s.next == t.next
    requires forall id: Id :: Total(s, id) == Total(t, id) + SpellTimes(s.entries[i], id)
    requires forall id: Id :: Total(u, id) == Total(t, id) + SpellTimes(s.entries[i], id)
    ensures Keeps(s, u, dealt) && CounteredById(s, u, s.entries[i].id) && s.entries[i] in s.entries
  {
    assert s.entries[i] in s.entries;
  }

  lemma BecameToken(z: Zoning, m: Zoning, y: Zoning, card: Card, controller: Id)
    requires m
             == z.(field := z.field[card.id := Entering(card, controller, controller)],
                   zone := z.zone[card.id := Battlefield])
    requires Gains(z, m, Battlefield, card.id) && SameCounts(m, y)
    requires y == m.(field := m.field[card.id := m.field[card.id].(token := true)])
    ensures Gains(z, y, Battlefield, card.id)
    ensures y == z.(field := z.field[card.id := Entering(card, controller, controller).(token := true)],
                    zone := z.zone[card.id := Battlefield])
  {
    StillGains(z, m, y, Battlefield, card.id);
    var p := Entering(card, controller, controller);
    assert z.field[card.id := p][card.id := p.(token := true)] == z.field[card.id := p.(token := true)];
  }

  lemma FetchKeeps(s: Snapshot, t: Snapshot, player: Id, matches: Card -> bool, response: Response, tapped: bool,
                   shuffle: seq<Card> -> seq<Card>, again: seq<Card> -> seq<Card>, dealt: map<Id, Id>)
    requires TableOk(s, dealt) && t == s.(z := t.z) && SameHeld(s.z, t.z)
    requires FetchDone(s.z, t.z, player, matches, response, tapped, shuffle, again)
    ensures TableOk(t, dealt) && Keeps(s, t, dealt)
  {
    MovedInZones(s, t, dealt);
  }

  lemma ExiledKeeps(s: Snapshot, t: Snapshot, seats: seq<Id>, id: Id, dealt: map<Id, Id>)
    requires TableOk(s, dealt) && t == s.(z := ExiledFrom(s.z, seats, id))
    requires if id in s.z.field && s.z.field[id].token then Dissolved(s.z, t.z, id) else SameHeld(s.z, t.z)
    ensures TableOk(t, dealt) && Keeps(s, t, dealt)
  {
    ExileOnlyShrinks(seats, id, s.z, s.tokens);
    if id in s.z.field && s.z.field[id].token {
      TokenGone(s, t, dealt, id);
    } else {
      MovedInZones(s, t, dealt);
    }
  }

  lemma DrawDone(st: State, st': State, player: Id, count: int, seats: seq<Id>, dealt: map<Id, Id>)
    requires TableOk(st.s, dealt) && st'.s == st.s.(z := st'.s.z) && SameHeld(st.s.z, st'.s.z)
    requires UpTo(st.s.z, st'.s.z, Pile(Library, player), Pile(Hand, player), count)
    requires st'.players == PlayersAfter(Draw(player, count), st) && st'.nextId == st.nextId
    ensures TableOk(st'.s, dealt) && Keeps(st.s, st'.s, dealt) && Done(Draw(player, count), seats, st, st')
  {
    var z := st.s.z;
    MovedTimes(z, Pile(Library, player), Pile(Hand, player), Clamp(count, |At(z.piles, Pile(Library, player))|));
    MovedInZones(st.s, st'.s, dealt);
  }

  lemma PilesMoved(call: ContextCall, seats: seq<Id>, s: Snapshot, t: Snapshot, nextId: nat, dealt: map<Id, Id>)
    requires OnPiles(call) && TableOk(s, dealt) && t == s.(z := t.z) && SameHeld(s.z, t.z)
             && DoneOnPiles(call, s.z, t.z)
    ensures TableOk(t, dealt) && Keeps(s, t, dealt) && Moved(call, seats, s, t, nextId)
  {
    FieldUntouched(call, s.z, t.z);
    MovedInZones(s, t, dealt);
  }

  class GameTable {
    const zones: ZoneManager
    const stack: TheStack
    /** The players in seating order. */
    const seats: seq<Id>
    var sideboards: Piles
    var players: map<Id, Player>
    /** The next card instance id. */
    var nextInstance: nat
    /** The ids of the cards made as tokens. */
    ghost var tokens: set<Id>

    constructor (zoneManager: ZoneManager, theStack: TheStack, order: seq<Id>, boards: Piles, roster: map<Id, Player>,
                 next: nat)
      ensures zones == zoneManager && stack == theStack && seats == order && sideboards == boards
      ensures players == roster && nextInstance == next && tokens == {}
    {
      zones, stack, seats := zoneManager, theStack, order;
      sideboards, players, nextInstance, tokens := boards, roster, next, {};
    }

    ghost function Snap(): Snapshot
      reads this, zones, stack
    {
      Snapshot(zones.Value(), stack.entries, sideboards, nextInstance, tokens)
    }

    ghost function Now(): State
      reads this, zones, stack
    {
      State(Snap(), players, stack.nextId)
    }

    ghost predicate Valid()
      reads this, zones, stack
    {
      zones.Valid() && stack.Valid() && TableOk(Snap(), zones.dealt)
    }

    /** One call of a card effect. */
    method Call(call: ContextCall)
      requires Valid() && WellFormed(call)
      modifies this, zones, stack
      ensures Valid() && Keeps(old(Snap()), Snap(), zones.dealt) && Done(call, seats, old(Now()), Now())
    {
      if OnPiles(call) {
        CallOnPiles(call);
      } else if OnCard(call) {
        CallOnCard(call);
      } else if call.Draw? || call.Fetch? || call.ExileAny? || call.AddMana? {
        CallOnZones(call);
      } else {
        CallOnTable(call);
      }
    }

    method CallOnZones(call: ContextCall)
      requires Valid() && WellFormed(call) && (call.Draw? || call.Fetch? || call.ExileAny? || call.AddMana?)
      modifies this`players, zones
      ensures Valid() && Keeps(old(Snap()), Snap(), zones.dealt) && Done(call, seats, old(Now()), Now())
    {
      if call.Draw? {
        CallDraw(call.player, call.count);
      } else if call.AddMana? {
        CallAddMana(call);
      } else if call.Fetch? {
        CallFetch(call);
      } else {
        CallExile(call);
      }
    }

    method CallAddMana(call: ContextCall)
      requires Valid() && call.AddMana?
      modifies this`players
      ensures Valid() && Snap() == old(Snap()) && Done(call, seats, old(Now()), Now())
    {
      GiveMana(call.player, call.color, call.amount);
    }

    method CallFetch(call: ContextCall)
      requires Valid() && WellFormed(call) && call.Fetch?
      modifies zones
      ensures Valid() && Keeps(old(Snap()), Snap(), zones.dealt) && Done(call, seats, old(Now()), Now())
    {
      var id :=
        SearchLibraryToBattlefield(call.player, call.matches, call.response, call.tapped, call.shuffle, call.again);
    }

    method CallOnTable(call: ContextCall)
      requires Valid() && WellFormed(call) && (call.CounterSpell? || call.CreateToken? || call.Trigger?)
      modifies this, zones, stack
      ensures Valid() && Keeps(old(Snap()), Snap(), zones.dealt) && Done(call, seats, old(Now()), Now())
    {
      match call
      case CounterSpell(stackId) =>
        var done := Counter(stackId);
      case CreateToken(name, cardType, stats, controller) =>
        var id := MakeToken(name, cardType, stats, controller);
      case Trigger(entry) =>
        PushTrigger(entry);
    }

    /** add_mana; a player who is not there gets none. */
    method GiveMana(player: Id, color: Mana.Color, amount: nat)
      modifies this`players
      ensures players
              == if player in old(players) then old(players)[player := WithMana(old(players)[player], color, amount)]
                         else old(players)
    {
      if player in players {
        var p := players[player];
        var mana := p.mana[color := p.mana[color] + amount];
        assert mana == Mana.Bump(p.mana, color, amount);
        players := players[player := p.(mana := mana)];
      }
    }

    /** A triggered ability goes on the stack. */
    method PushTrigger(entry: StackEntry)
      requires Valid() && entry.content.Triggered?
      modifies stack
      ensures Valid() && Keeps(old(Snap()), Snap(), zones.dealt)
      ensures Now() == old(Now()).(s := old(Snap()).(entries := old(stack.entries) + [entry.(id := old(stack.nextId))]),
                                   nextId := old(stack.nextId) + 1)
    {
      ghost var s := Snap();
      var id := stack.Push(entry);
      AbilityPushed(s, Snap(), zones.dealt, entry.(id := id));
    }

    /** A whole effect: any calls, one after the other. */
    method RunEffect(calls: seq<ContextCall>)
      requires Valid() && forall i :: 0 <= i < |calls| ==> WellFormed(calls[i])
      modifies this, zones, stack
      ensures Valid() && Keeps(old(Snap()), Snap(), zones.dealt) && RanAll(calls, seats, old(Now()), Now())
    {
      ghost var trace := [Now()];
      for i := 0 to |calls|
        invariant Valid() && Keeps(old(Snap()), Snap(), zones.dealt)
        invariant Trace(calls[..i], seats, trace) && trace[0] == old(Now()) && trace[i] == Now()
      {
        ghost var s := Snap();
        Call(calls[i]);
        KeepsTwice(old(Snap()), s, Snap(), zones.dealt);
        OneMoreCall(calls, i, seats, trace, Now());
        trace := trace + [Now()];
      }
      assert calls[..|calls|] == calls;
    }

    /** A failed draw is noted on the player; the game ends at the next state-based check. */
    method CallDraw(player: Id, count: int)
      requires Valid()
      modifies this`players, zones
      ensures Valid() && Keeps(old(Snap()), Snap(), zones.dealt)
      ensures Done(Draw(player, count), seats, old(Now()), Now())
    {
      ghost var st := Now();
      var failed := MoveUpTo(zones, Pile(Library, player), Pile(Hand, player), count);
      if failed {
        NoteFailedDraw(player);
      }
      DrawDone(st, Now(), player, count, seats, zones.dealt);
    }

    method NoteFailedDraw(player: Id)
      modifies this`players
      ensures players
              == if player in old(players) then old(players)[player := old(players)[player].(failedToDraw := true)]
                         else old(players)
    {
      if player in players {
        players := players[player := players[player].(failedToDraw := true)];
      }
    }

    method CallOnPiles(call: ContextCall)
      requires Valid() && WellFormed(call)
      requires OnPiles(call)
      modifies zones
      ensures Valid() && Keeps(old(Snap()), Snap(), zones.dealt) && Done(call, seats, old(Now()), Now())
    {
      ghost var s := Snap();
      MoveInPiles(call);
      PilesMoved(call, seats, s, Snap(), stack.nextId, zones.dealt);
    }

    method MoveInPiles(call: ContextCall)
      requires zones.Valid() && WellFormed(call) && OnPiles(call)
      modifies zones
      ensures zones.Valid() && SameHeld(old(zones.Value()), zones.Value())
      ensures DoneOnPiles(call, old(zones.Value()), zones.Value())
    {
      match call
      case MillTop(player, count) =>
        var short := MoveUpTo(zones, Pile(Library, player), Pile(Graveyard, player), count);
      case ScryTop(player, count, response) =>
        Scry(zones, player, count, response);
      case SurveilTop(player, count, response) =>
        Surveil(zones, player, count, response);
      case DiscardHand(player, count, ids) =>
        DiscardCards(zones, player, count, ids);
      case Search(player, matches, response, shuffle) =>
        var id := SearchLibrary(zones, player, matches, response, shuffle);
    }

    method CallOnCard(call: ContextCall)
      requires Valid() && OnCard(call)
      modifies zones
      ensures Valid() && Keeps(old(Snap()), Snap(), zones.dealt) && Done(call, seats, old(Now()), Now())
    {
      ghost var s := Snap();
      MoveCard(call);
      FieldOnlyShrinks(call, seats, s.z, zones.Value(), tokens);
      MovedInZones(s, Snap(), zones.dealt);
    }

    method MoveCard(call: ContextCall)
      requires zones.Valid() && OnCard(call)
      modifies zones
      ensures zones.Valid() && SameHeld(old(zones.Value()), zones.Value())
      ensures DoneOnCard(call, seats, old(zones.Value()), zones.Value())
    {
      match call
      case ReturnAny(id) =>
        ReturnToHand(zones, seats, id);
      case ReturnFromYard(player, id) =>
        ReturnFromGraveyard(zones, player, id);
      case Destroy(id) =>
        var done := DestroyPermanent(zones, id);
      case Sacrifice(id) =>
        var done := SendToGraveyard(zones, id);
    }

    method CallExile(call: ContextCall)
      requires Valid() && call.ExileAny?
      modifies zones
      ensures Valid() && Keeps(old(Snap()), Snap(), zones.dealt) && Done(call, seats, old(Now()), Now())
    {
      ghost var s := Snap();
      ExileCard(zones, seats, call.id);
      ExiledKeeps(s, Snap(), seats, call.id, zones.dealt);
    }

    /** search_library_to_battlefield: the answer to the search enters, if it names a legal card. */
    method SearchLibraryToBattlefield(player: Id, matches: Card -> bool, response: Response,
                                      tapped: bool, shuffle: seq<Card> -> seq<Card>, again: seq<Card> -> seq<Card>)
      returns (id: Id)
      requires Valid() && Permutes(shuffle) && Permutes(again)
      modifies zones
      ensures Valid() && Keeps(old(Snap()), Snap(), zones.dealt) && Snap() == old(Snap()).(z := zones.Value())
      ensures FetchDone(old(zones.Value()), zones.Value(), player, matches, response, tapped, shuffle, again)
      ensures id == FoundBy(old(Cards(Pile(Library, player))), matches, response)
    {
      ghost var s := Snap();
      var found := SearchLibrary(zones, player, matches, response, shuffle);
      MovedInZones(s, Snap(), zones.dealt);
      if found == 0 {
        return 0;
      }
      Enter(player, found, matches, response, tapped, shuffle, again, s);
      return found;
    }

    /** The second half of that: the card that was found enters. */
    method Enter(player: Id, found: Id, ghost matches: Card -> bool, ghost response: Response, tapped: bool,
                 ghost shuffle: seq<Card> -> seq<Card>, again: seq<Card> -> seq<Card>, ghost s: Snapshot)
      requires Valid() && Permutes(shuffle) && Permutes(again) && Snap() == s.(z := zones.Value())
      requires TableOk(s, zones.dealt) && SameHeld(s.z, zones.Value())
               && OnlyLibrary(s.z, zones.Value(), player, shuffle(At(s.z.piles, Pile(Library, player))))
      requires found == FoundBy(At(s.z.piles, Pile(Library, player)), matches, response) != 0
      modifies zones
      ensures Valid() && Keeps(s, Snap(), zones.dealt) && Snap() == s.(z := zones.Value())
      ensures FetchDone(s.z, zones.Value(), player, matches, response, tapped, shuffle, again)
    {
      ghost var z := zones.Value();
      var entered := FetchToBattlefield(zones, player, found, tapped, again);
      FetchFound(s.z, z, zones.Value(), player, matches, response, tapped, shuffle, again);
      FetchKeeps(s, Snap(), player, matches, response, tapped, shuffle, again, zones.dealt);
    }

    /** counter_spell: the entry leaves the stack, and a spell's card goes to its controller's graveyard. */
    method Counter(id: nat) returns (done: bool)
      requires Valid()
      modifies zones, stack
      ensures Valid() && Keeps(old(Snap()), Snap(), zones.dealt)
      ensures done <==> exists e :: e in old(stack.entries) && e.id == id
      ensures CounteredById(old(Snap()), Snap(), id) && stack.nextId == old(stack.nextId)
    {
      ghost var s := Snap();
      var removed := stack.Remove(id);
      done := removed.Some?;
      if done {
        ghost var i :| 0 <= i < |s.entries| && s.entries[i] == removed.value && stack.entries == Without(s.entries, i);
        CounterEntry(removed.value, s, i);
      }
    }

    /** What has been countered is off the stack already. */
    method CounterEntry(entry: StackEntry, ghost s: Snapshot, ghost i: nat)
      requires zones.Valid() && stack.Valid() && TableOk(s, zones.dealt) && i < |s.entries| && s.entries[i] == entry
      requires Snap() == s.(entries := Without(s.entries, i))
      modifies zones
      ensures Valid() && Keeps(s, Snap(), zones.dealt) && CounteredById(s, Snap(), entry.id)
      ensures exists e :: e in s.entries && e.id == entry.id
    {
      ghost var t := Snap();
      EntryTaken(s, t, zones.dealt, i);
      if entry.content.Spell? {
        SpellToGraveyard(entry);
      }
      CounteredIs(s, t, Snap(), i, zones.dealt);
    }

    /** The card of a spell that has left the stack goes to its controller's graveyard. */
    method SpellToGraveyard(entry: StackEntry)
      requires Valid() && entry.content.Spell?
      requires Total(Snap(), entry.content.card.id) == 0 && entry.content.card.id < nextInstance
      requires entry.content.card.id in zones.dealt ==> zones.dealt[entry.content.card.id] == entry.controller
      modifies zones
      ensures Valid() && TimesIn(zones.Value(), Graveyard, entry.content.card.id) == 1
      ensures forall c: Id :: Total(Snap(), c) == Total(old(Snap()), c) + (if c == entry.content.card.id then 1 else 0)
      ensures zones.Value() == IntoGraveyard(old(zones.Value()), entry.content.card, entry.controller)
    {
      ghost var t := Snap();
      zones.AddToGraveyard(entry.controller, entry.content.card);
      CardIn(t, Snap(), zones.dealt, Graveyard, entry.content.card.id);
      InOneZone(t.z, Graveyard, entry.content.card.id);
    }

    function Cards(pile: Pile): seq<Card>
      reads zones
    {
      zones.Cards(pile)
    }

    /** A permanent changes in place, keeping its card, its owner and whether it is a token. */
    method UpdatePermanent(id: Id, p: Permanent)
      requires Valid() && id in zones.field
      requires p.card == zones.field[id].card && p.owner == zones.field[id].owner && p.token == zones.field[id].token
      modifies zones
      ensures Valid() && Keeps(old(Snap()), Snap(), zones.dealt)
      ensures zones.Value() == old(zones.Value()).(field := old(zones.field)[id := p])
    {
      ghost var s := Snap();
      zones.Update(id, p);
      MovedInZones(s, Snap(), zones.dealt);
    }

    /** create_token: a new card instance enters the battlefield as a token. */
    method MakeToken(name: string, cardType: CardType, stats: Stats, controller: Id) returns (id: Id)
      requires Valid()
      modifies this`nextInstance, this`tokens, zones
      ensures Valid() && Keeps(old(Snap()), Snap(), zones.dealt)
      ensures id == old(nextInstance) && nextInstance == id + 1
      ensures Done(CreateToken(name, cardType, stats, controller), seats, old(Now()), Now())
    {
      id := nextInstance;
      assert Total(Snap(), id) == 0;
      EnterToken(Card(id, name, cardType, {}, {}, Some(stats), false, false), controller);
      nextInstance := nextInstance + 1;
      tokens := tokens + {id};
      TokenMade(old(Snap()), Snap(), zones.dealt);
    }

    method EnterToken(card: Card, controller: Id)
      requires zones.Valid() && zones.Places(card.id) == 0 && card.id !in zones.dealt
      modifies zones
      ensures zones.Valid() && Gains(old(zones.Value()), zones.Value(), Battlefield, card.id)
      ensures var p := Entering(card, controller, controller).(token := true);
              zones.Value() == old(zones.Value()).(field := old(zones.field)[card.id := p],
                                                   zone := old(zones.zone)[card.id := Battlefield])
    {
      ghost var z := zones.Value();
      zones.AddToBattlefield(card, controller, controller);
      ghost var m := zones.Value();
      zones.SetToken(card.id);
      BecameToken(z, m, zones.Value(), card, controller);
    }
  }
}
