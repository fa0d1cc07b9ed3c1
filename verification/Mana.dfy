/** The mana pool: the search that decides whether a cost is payable, the greedy
    algorithm that builds a payment, and the payment itself. */
module Mana {

  import opened Common

  datatype Color = White | Blue | Black | Red | Green | Colorless

  /** A hybrid symbol such as {W/U}: one mana of either colour. */
  datatype Hybrid = Hybrid(primary: Color, secondary: Color)

  /** One number per colour. "Remaining" amounts may be negative. */
  type Amounts = m: map<Color, int> | forall c: Color :: c in m
    witness map c: Color :: 0

  const ZERO: Amounts := map c: Color :: 0

  function Table(white: int, blue: int, black: int, red: int, green: int, colorless: int): Amounts {
    map c: Color | c in ZERO :: match c
      case White => white
      case Blue => blue
      case Black => black
      case Red => red
      case Green => green
      case Colorless => colorless
  }

  function Total(a: Amounts): int {
    a[White] + a[Blue] + a[Black] + a[Red] + a[Green] + a[Colorless]
  }

  function Minus(a: Amounts, b: Amounts): Amounts { map c: Color | c in a :: a[c] - b[c] }

  /** No colour is overdrawn. */
  predicate NonNegative(a: Amounts) { forall c: Color :: a[c] >= 0 }

  predicate AtMost(a: Amounts, b: Amounts) { forall c: Color :: a[c] <= b[c] }

  /** A mana cost: coloured pips, a generic amount and hybrid symbols in the order they are written. */
  datatype Cost = Cost(white: nat, blue: nat, black: nat, red: nat, green: nat, generic: nat, hybrids: seq<Hybrid>) {
    function Pips(): Amounts {
      Table(white, blue, black, red, green, 0)
    }

    /** Everything that has to be spent: pips, one mana per hybrid symbol and the generic amount. */
    function Size(): nat { white + blue + black + red + green + generic + |hybrids| }
  }

  // ---------- What it means for a cost to be payable ----------

  function Pick(h: Hybrid, primary: bool): Color { if primary then h.primary else h.secondary }

  /** How many of the hybrid symbols are paid with colour c, when choice[i] says which half of symbol i is paid. */
  function Demand(hybrids: seq<Hybrid>, choice: seq<bool>, c: Color): nat
    requires |hybrids| == |choice|
  {
    if hybrids == [] then 0
    else (if Pick(hybrids[0], choice[0]) == c then 1 else 0) + Demand(hybrids[1..], choice[1..], c)
  }

  /** The chosen halves take no more of any colour than remains. */
  ghost predicate Fits(rem: Amounts, hybrids: seq<Hybrid>, choice: seq<bool>) {
    |choice| == |hybrids| && forall c: Color :: Demand(hybrids, choice, c) <= rem[c]
  }

  /** Some choice of one colour per hybrid symbol fits. */
  ghost predicate Coverable(rem: Amounts, hybrids: seq<Hybrid>) {
    exists choice :: Fits(rem, hybrids, choice)
  }

  /** The definition of "this pool can pay this cost", with no search order in it. */
  ghost predicate Payable(pool: Amounts, cost: Cost) {
    Coverable(Minus(pool, cost.Pips()), cost.hybrids) && cost.Size() <= Total(pool)
  }

  /** The same on the fields of the cost: with some choice of halves no colour is asked for more than there is of it,
      and there is enough in all. */
  ghost predicate Covers(pool: Amounts, cost: Cost, choice: seq<bool>) {
    && |choice| == |cost.hybrids|
    && cost.white + Demand(cost.hybrids, choice, White) <= pool[White]
    && cost.blue + Demand(cost.hybrids, choice, Blue) <= pool[Blue]
    && cost.black + Demand(cost.hybrids, choice, Black) <= pool[Black]
    && cost.red + Demand(cost.hybrids, choice, Red) <= pool[Red]
    && cost.green + Demand(cost.hybrids, choice, Green) <= pool[Green]
    && Demand(cost.hybrids, choice, Colorless) <= pool[Colorless]
    && cost.white + cost.blue + cost.black + cost.red + cost.green + cost.generic + |cost.hybrids|
       <= pool[White] + pool[Blue] + pool[Black] + pool[Red] + pool[Green] + pool[Colorless]
  }

  lemma CoversIsFits(pool: Amounts, cost: Cost, choice: seq<bool>)
    ensures Covers(pool, cost, choice)
            <==> Fits(Minus(pool, cost.Pips()), cost.hybrids, choice) && cost.Size() <= Total(pool)
  {
    var start := Minus(pool, cost.Pips());
    assert start[White] == pool[White] - cost.white && start[Blue] == pool[Blue] - cost.blue;
    assert start[Black] == pool[Black] - cost.black && start[Red] == pool[Red] - cost.red;
    assert start[Green] == pool[Green] - cost.green && start[Colorless] == pool[Colorless];
    if Covers(pool, cost, choice) {
      forall c: Color ensures Demand(cost.hybrids, choice, c) <= start[c] {
        match c { case White => case Blue => case Black => case Red => case Green => case Colorless => }
      }
    }
  }

  lemma PayableExactlyWhen(pool: Amounts, cost: Cost)
    ensures Payable(pool, cost) <==> exists choice :: Covers(pool, cost, choice)
  {
    if Payable(pool, cost) {
      var choice :| Fits(Minus(pool, cost.Pips()), cost.hybrids, choice);
      CoversIsFits(pool, cost, choice);
    }
    if choice :| Covers(pool, cost, choice) {
      CoversIsFits(pool, cost, choice);
    }
  }

  /** A payable cost asks for no more pips of a colour than there is mana of it; and without hybrid symbols a cost is
      payable exactly when it does that and there is enough in all. */
  lemma PayableWithoutHybrids(pool: Amounts, cost: Cost)
    requires NonNegative(pool)
    ensures Payable(pool, cost) ==>
              cost.white <= pool[White] && cost.blue <= pool[Blue] && cost.black <= pool[Black]
              && cost.red <= pool[Red] && cost.green <= pool[Green]
    ensures cost.hybrids == [] ==>
              (Payable(pool, cost) <==>
               && cost.white <= pool[White] && cost.blue <= pool[Blue] && cost.black <= pool[Black]
               && cost.red <= pool[Red] && cost.green <= pool[Green]
               && cost.white + cost.blue + cost.black + cost.red + cost.green + cost.generic
                  <= pool[White] + pool[Blue] + pool[Black] + pool[Red] + pool[Green] + pool[Colorless])
  {
    PayableExactlyWhen(pool, cost);
    if cost.hybrids == [] && cost.Size() <= Total(pool) {
      var none: seq<bool> := [];
      assert forall c: Color :: Demand(cost.hybrids, none, c) == 0;
      if cost.white <= pool[White] && cost.blue <= pool[Blue] && cost.black <= pool[Black]
      && cost.red <= pool[Red] && cost.green <= pool[Green] {
        assert Covers(pool, cost, none);
      }
    }
  }

  const MAX_HYBRIDS := 10

  /** n more mana of colour c. */
  function Bump(a: Amounts, c: Color, n: int): (b: Amounts)
    ensures Total(b) == Total(a) + n
    ensures b[c] == a[c] + n && forall d: Color :: d != c ==> b[d] == a[d]
  {
    assert c == White || c == Blue || c == Black || c == Red || c == Green || c == Colorless;
    a[c := a[c] + n]
  }

  function Spend(rem: Amounts, c: Color): Amounts { Bump(rem, c, -1) }

  /** What remains when the symbols are paid one after the other. */
  function After(rem: Amounts, hybrids: seq<Hybrid>, choice: seq<bool>): Amounts
    requires |hybrids| == |choice|
    decreases |hybrids|
  {
    if hybrids == [] then rem else After(Spend(rem, Pick(hybrids[0], choice[0])), hybrids[1..], choice[1..])
  }

  lemma AfterOne(rem: Amounts, hybrids: seq<Hybrid>, choice: seq<bool>, h: nat, c: Color)
    requires h < |hybrids| == |choice| && c == Pick(hybrids[h], choice[h])
    ensures After(rem, hybrids[h..], choice[h..]) == After(Spend(rem, c), hybrids[h + 1..], choice[h + 1..])
  {
    assert hybrids[h..][1..] == hybrids[h + 1..] && choice[h..][1..] == choice[h + 1..];
  }

  /** The first symbols of a choice are paid, and no colour is overdrawn yet. */
  ghost predicate PaidSoFar(start: Amounts, hybrids: seq<Hybrid>, choice: seq<bool>, h: nat, rem: Amounts)
    requires h <= |hybrids| == |choice|
  {
    NonNegative(rem) && After(start, hybrids, choice) == After(rem, hybrids[h..], choice[h..])
  }

  lemma PayOne(start: Amounts, hybrids: seq<Hybrid>, choice: seq<bool>, h: nat, rem: Amounts, c: Color)
    requires h < |hybrids| == |choice| && PaidSoFar(start, hybrids, choice, h, rem) && c == Pick(hybrids[h], choice[h])
    ensures if Spend(rem, c)[c] < 0 then !NonNegative(After(start, hybrids, choice))
            else PaidSoFar(start, hybrids, choice, h + 1, Spend(rem, c))
  {
    AfterOne(rem, hybrids, choice, h, c);
    AfterTakesDemand(Spend(rem, c), hybrids[h + 1..], choice[h + 1..], c);
  }

  lemma {:induction false} AfterTakesDemand(rem: Amounts, hybrids: seq<Hybrid>, choice: seq<bool>, c: Color)
    requires |hybrids| == |choice|
    ensures After(rem, hybrids, choice)[c] == rem[c] - Demand(hybrids, choice, c)
    decreases |hybrids|
  {
    if hybrids == [] {
    } else {
      AfterTakesDemand(Spend(rem, Pick(hybrids[0], choice[0])), hybrids[1..], choice[1..], c);
    }
  }

  /** Every way to pay the hybrid symbols leaves the same total, so all valid masks of the search
      have the same leftover. */
  lemma {:induction false} AfterTotal(rem: Amounts, hybrids: seq<Hybrid>, choice: seq<bool>)
    requires |hybrids| == |choice|
    ensures Total(After(rem, hybrids, choice)) == Total(rem) - |hybrids|
    decreases |hybrids|
  {
    if hybrids == [] {
    } else {
      AfterTotal(Spend(rem, Pick(hybrids[0], choice[0])), hybrids[1..], choice[1..]);
    }
  }

  lemma FitsIffNotOverdrawn(rem: Amounts, hybrids: seq<Hybrid>, choice: seq<bool>)
    requires |hybrids| == |choice|
    ensures Fits(rem, hybrids, choice) <==> NonNegative(After(rem, hybrids, choice))
  {
    forall c: Color {
      AfterTakesDemand(rem, hybrids, choice, c);
    }
  }

  // ---------- Masks ----------

  function Pow2(n: nat): nat { if n == 0 then 1 else 2 * Pow2(n - 1) }

  /** Bit h of mask, `(mask & (1 << h)) != 0`. */
  predicate Bit(mask: nat, h: nat) {
    if h == 0 then mask % 2 == 1 else Bit(mask / 2, h - 1)
  }

  function ChoiceOf(mask: nat, n: nat): (choice: seq<bool>)
    ensures |choice| == n
    ensures forall h :: 0 <= h < n ==> choice[h] == Bit(mask, h)
  {
    seq(n, h requires 0 <= h < n => Bit(mask, h))
  }

  /** Every choice is met by some mask of the loop. */
  lemma {:induction false} EveryChoiceHasMask(choice: seq<bool>) returns (mask: nat)
    ensures mask < Pow2(|choice|)
    ensures ChoiceOf(mask, |choice|) == choice
  {
    if choice == [] {
      mask := 0;
    } else {
      var m := EveryChoiceHasMask(choice[1..]);
      mask := 2 * m + (if choice[0] then 1 else 0);
      assert mask / 2 == m;
      forall h | 0 <= h < |choice| ensures Bit(mask, h) == choice[h] {
        if h > 0 {
          assert ChoiceOf(m, |choice| - 1)[h - 1] == choice[1..][h - 1];
        }
      }
    }
  }

  /** And no choice is met twice. */
  lemma {:induction false} MasksAreChoices(n: nat, a: nat, b: nat)
    requires a < Pow2(n) && b < Pow2(n) && ChoiceOf(a, n) == ChoiceOf(b, n)
    ensures a == b
  {
    if n == 0 {
    } else {
      assert ChoiceOf(a, n)[0] == Bit(a, 0) && ChoiceOf(b, n)[0] == Bit(b, 0);
      forall h | 0 <= h < n - 1 ensures Bit(a / 2, h) == Bit(b / 2, h) {
        assert ChoiceOf(a, n)[h + 1] == Bit(a, h + 1) && ChoiceOf(b, n)[h + 1] == Bit(b, h + 1);
      }
      assert ChoiceOf(a / 2, n - 1) == ChoiceOf(b / 2, n - 1);
      MasksAreChoices(n - 1, a / 2, b / 2);
    }
  }

  // ---------- The greedy choice ----------

  /** The greedy rule: the half of the symbol with more mana left, the first half on a tie. */
  function GreedyColor(rem: Amounts, h: Hybrid): Color {
    if rem[h.primary] >= rem[h.secondary] then h.primary else h.secondary
  }

  function GreedyChoice(rem: Amounts, hybrids: seq<Hybrid>): (choice: seq<bool>)
    ensures |choice| == |hybrids|
    decreases |hybrids|
  {
    if hybrids == [] then []
    else [rem[hybrids[0].primary] >= rem[hybrids[0].secondary]]
         + GreedyChoice(Spend(rem, GreedyColor(rem, hybrids[0])), hybrids[1..])
  }

  /** What a caller can check symbol by symbol: the greedy never meets a symbol both of whose colours are used up. */
  predicate NeverStuck(rem: Amounts, hybrids: seq<Hybrid>)
    decreases |hybrids|
  {
    hybrids == [] ||
    (&& (rem[hybrids[0].primary] > 0 || rem[hybrids[0].secondary] > 0)
     && NeverStuck(Spend(rem, GreedyColor(rem, hybrids[0])), hybrids[1..]))
  }

  lemma GreedyUnfold(rem: Amounts, hybrids: seq<Hybrid>)
    requires hybrids != []
    ensures var next := Spend(rem, GreedyColor(rem, hybrids[0]));
            After(rem, hybrids, GreedyChoice(rem, hybrids))
            == After(next, hybrids[1..], GreedyChoice(next, hybrids[1..]))
  {
    assert GreedyChoice(rem, hybrids)[1..] == GreedyChoice(Spend(rem, GreedyColor(rem, hybrids[0])), hybrids[1..]);
  }

  /** The greedy overdraws some colour exactly when it is stuck somewhere. */
  lemma {:induction false} GreedyFitsIffNeverStuck(rem: Amounts, hybrids: seq<Hybrid>)
    requires NonNegative(rem)
    ensures NonNegative(After(rem, hybrids, GreedyChoice(rem, hybrids))) <==> NeverStuck(rem, hybrids)
    decreases |hybrids|
  {
    if hybrids == [] {
    } else {
      var g := GreedyColor(rem, hybrids[0]);
      var rest := GreedyChoice(Spend(rem, g), hybrids[1..]);
      assert GreedyChoice(rem, hybrids)[1..] == rest;
      if rem[g] > 0 {
        GreedyFitsIffNeverStuck(Spend(rem, g), hybrids[1..]);
      } else {
        AfterTakesDemand(Spend(rem, g), hybrids[1..], rest, g);
      }
    }
  }

  // ---------- Where the greedy is complete ----------

  predicate SamePair(a: Hybrid, b: Hybrid) {
    || (a.primary == b.primary && a.secondary == b.secondary)
    || (a.primary == b.secondary && a.secondary == b.primary)
  }

  predicate NoSharedColor(a: Hybrid, b: Hybrid) {
    a.primary != b.primary && a.primary != b.secondary && a.secondary != b.primary && a.secondary != b.secondary
  }

  /** Any two symbols name the same two colours or no common colour. */
  ghost predicate PairsDoNotOverlap(hybrids: seq<Hybrid>) {
    forall i, j :: 0 <= i < j < |hybrids| ==> SamePair(hybrids[i], hybrids[j]) || NoSharedColor(hybrids[i], hybrids[j])
  }

  lemma {:induction false} DemandFlip(hybrids: seq<Hybrid>, choice: seq<bool>, k: nat, b: bool, c: Color)
    requires |hybrids| == |choice| && k < |hybrids|
    ensures Demand(hybrids, choice[k := b], c) - (if Pick(hybrids[k], b) == c then 1 else 0)
            == Demand(hybrids, choice, c) - (if Pick(hybrids[k], choice[k]) == c then 1 else 0)
  {
    if k == 0 {
      assert choice[k := b][1..] == choice[1..];
    } else {
      DemandFlip(hybrids[1..], choice[1..], k - 1, b, c);
      assert choice[k := b][1..] == choice[1..][k - 1 := b];
    }
  }

  /** A colour that no symbol is paid with is not demanded. */
  lemma {:induction false} UnusedColor(hybrids: seq<Hybrid>, choice: seq<bool>, x: Color)
    requires |hybrids| == |choice|
    requires forall i :: 0 <= i < |hybrids| ==> Pick(hybrids[i], choice[i]) != x
    ensures Demand(hybrids, choice, x) == 0
  {
    if hybrids == [] {
    } else {
      assert forall i :: 0 <= i < |hybrids[1..]| ==>
               hybrids[1..][i] == hybrids[i + 1] && choice[1..][i] == choice[i + 1];
      UnusedColor(hybrids[1..], choice[1..], x);
    }
  }

  /** The exchange step: whatever a valid choice does with the first symbol, paying it greedily
      leaves the other symbols coverable. */
  lemma Exchange(rem: Amounts, h: Hybrid, others: seq<Hybrid>, y: Color, rest: seq<bool>) returns (rest': seq<bool>)
    requires y == h.primary || y == h.secondary
    requires forall i :: 0 <= i < |others| ==> SamePair(h, others[i]) || NoSharedColor(h, others[i])
    requires Fits(Spend(rem, y), others, rest) && rem[y] >= 1
    ensures Fits(Spend(rem, GreedyColor(rem, h)), others, rest')
  {
    var x := GreedyColor(rem, h);
    rest' := rest;
    if x != y {
      if k :| 0 <= k < |others| && Pick(others[k], rest[k]) == x {
        assert Pick(others[k], !rest[k]) == y;
        rest' := rest[k := !rest[k]];
        Swap(rem, others, rest, k, x, y);
      } else {
        UnusedColor(others, rest, x);
      }
    }
  }

  /** Another symbol of the pair gives its colour to the first one. */
  lemma Swap(rem: Amounts, others: seq<Hybrid>, rest: seq<bool>, k: nat, x: Color, y: Color)
    requires Fits(Spend(rem, y), others, rest) && k < |others| && x != y
    requires Pick(others[k], rest[k]) == x && Pick(others[k], !rest[k]) == y
    ensures Fits(Spend(rem, x), others, rest[k := !rest[k]])
  {
    forall c: Color ensures Demand(others, rest[k := !rest[k]], c) <= Spend(rem, x)[c] {
      DemandFlip(others, rest, k, !rest[k], c);
      assert Demand(others, rest, c) <= Spend(rem, y)[c];
    }
  }

  /** The greedy never gets stuck on a coverable cost whose hybrid pairs do not overlap. */
  lemma {:induction false} GreedyCompleteOnDisjointPairs(rem: Amounts, hybrids: seq<Hybrid>)
    requires PairsDoNotOverlap(hybrids) && Coverable(rem, hybrids)
    ensures NeverStuck(rem, hybrids)
    decreases |hybrids|
  {
    if hybrids == [] {
    } else {
      var choice :| Fits(rem, hybrids, choice);
      var y, others := Pick(hybrids[0], choice[0]), hybrids[1..];
      assert Demand(hybrids, choice, y) > 0;
      assert forall i :: 0 <= i < |others| ==> others[i] == hybrids[i + 1];
      FitsTail(rem, hybrids, choice);
      var rest := Exchange(rem, hybrids[0], others, y, choice[1..]);
      GreedyCompleteOnDisjointPairs(Spend(rem, GreedyColor(rem, hybrids[0])), others);
    }
  }

  lemma FitsTail(rem: Amounts, hybrids: seq<Hybrid>, choice: seq<bool>)
    requires hybrids != [] && Fits(rem, hybrids, choice)
    ensures Fits(Spend(rem, Pick(hybrids[0], choice[0])), hybrids[1..], choice[1..])
  {
    FitsIffNotOverdrawn(rem, hybrids, choice);
    FitsIffNotOverdrawn(Spend(rem, Pick(hybrids[0], choice[0])), hybrids[1..], choice[1..]);
  }

  /** Being stuck is a real possibility: a payable cost on which the greedy overdraws white. */
  lemma GreedyIncomplete()
    ensures var pool := Bump(Bump(ZERO, White, 1), Blue, 1);
            var cost := Cost(0, 0, 0, 0, 0, 0, [Hybrid(White, Blue), Hybrid(White, Black)]);
            Payable(pool, cost) && !NeverStuck(Minus(pool, cost.Pips()), cost.hybrids)
  {
    var pool := Bump(Bump(ZERO, White, 1), Blue, 1);
    var cost := Cost(0, 0, 0, 0, 0, 0, [Hybrid(White, Blue), Hybrid(White, Black)]);
    NoPips(pool, cost);
    BlueThenWhiteFits(pool, cost.hybrids);
    WhiteThenStuck(pool, cost.hybrids);
  }

  lemma NoPips(pool: Amounts, cost: Cost)
    requires cost.white == cost.blue == cost.black == cost.red == cost.green == 0
    ensures Minus(pool, cost.Pips()) == pool
  {
    assert forall c: Color :: c in ZERO && cost.Pips()[c] == 0;
  }

  lemma BlueThenWhiteFits(pool: Amounts, hybrids: seq<Hybrid>)
    requires hybrids == [Hybrid(White, Blue), Hybrid(White, Black)] && pool[White] == 1 && pool[Blue] == 1
    requires NonNegative(pool)
    ensures Fits(pool, hybrids, [false, true])
  {
    var rest := [Hybrid(White, Black)];
    assert hybrids[1..] == rest && [false, true][1..] == [true];
    assert forall c: Color :: Demand(rest, [true], c) == if c == White then 1 else 0;
  }

  lemma WhiteThenStuck(pool: Amounts, hybrids: seq<Hybrid>)
    requires hybrids == [Hybrid(White, Blue), Hybrid(White, Black)] && pool[White] == 1 && pool[Blue] == 1
             && pool[Black] == 0
    ensures !NeverStuck(pool, hybrids)
  {
    assert GreedyColor(pool, hybrids[0]) == White;
    assert !NeverStuck(Spend(pool, White), hybrids[1..]);
  }

  // ---------- What a payment must be ----------

  ghost predicate SettlesWith(payment: Amounts, cost: Cost, choice: seq<bool>, generic: Amounts) {
    && |choice| == |cost.hybrids|
    && NonNegative(generic) && Total(generic) == cost.generic
    && forall c: Color :: payment[c] == cost.Pips()[c] + Demand(cost.hybrids, choice, c) + generic[c]
  }

  /** A payment settles a cost: the pips, one of the two named colours for each hybrid symbol,
      and mana of any colour adding up to exactly the generic amount. */
  ghost predicate Settles(payment: Amounts, cost: Cost) {
    exists choice, generic: Amounts :: SettlesWith(payment, cost, choice, generic)
  }

  /** On the fields: what is spent of each colour is its pips, the hybrid symbols paid with it, and a part of the
      generic amount. */
  lemma SettledByColor(payment: Amounts, cost: Cost, choice: seq<bool>, generic: Amounts)
    requires SettlesWith(payment, cost, choice, generic)
    ensures payment[White] == cost.white + Demand(cost.hybrids, choice, White) + generic[White]
    ensures payment[Blue] == cost.blue + Demand(cost.hybrids, choice, Blue) + generic[Blue]
    ensures payment[Black] == cost.black + Demand(cost.hybrids, choice, Black) + generic[Black]
    ensures payment[Red] == cost.red + Demand(cost.hybrids, choice, Red) + generic[Red]
    ensures payment[Green] == cost.green + Demand(cost.hybrids, choice, Green) + generic[Green]
    ensures payment[Colorless] == Demand(cost.hybrids, choice, Colorless) + generic[Colorless]
  {}

  /** So of each colour at least the pips are spent. */
  lemma SettledPips(payment: Amounts, cost: Cost)
    requires Settles(payment, cost)
    ensures payment[White] >= cost.white && payment[Blue] >= cost.blue && payment[Black] >= cost.black
    ensures payment[Red] >= cost.red && payment[Green] >= cost.green && payment[Colorless] >= 0
  {
    var choice, generic: Amounts :| SettlesWith(payment, cost, choice, generic);
    SettledByColor(payment, cost, choice, generic);
  }

  lemma SettledTotal(payment: Amounts, cost: Cost)
    requires Settles(payment, cost)
    ensures Total(payment) == cost.Size()
  {
    var choice, generic: Amounts :| SettlesWith(payment, cost, choice, generic);
    AfterTotal(payment, cost.hybrids, choice);
    forall c: Color {
      AfterTakesDemand(payment, cost.hybrids, choice, c);
    }
  }

  function Sum3(a: Amounts, b: Amounts, d: Amounts): Amounts { map c: Color | c in a :: a[c] + b[c] + d[c] }

  /** Greedy hybrids and any distribution of the generic amount settle the cost. */
  lemma PaymentSettles(payment: Amounts, cost: Cost, start: Amounts, hybridPart: Amounts, generic: Amounts)
    requires payment == Sum3(cost.Pips(), hybridPart, generic)
    requires Splits(start, After(start, cost.hybrids, GreedyChoice(start, cost.hybrids)), hybridPart)
    requires NonNegative(generic) && Total(generic) == cost.generic
    ensures Settles(payment, cost) && NonNegative(payment)
    ensures SettlesWith(payment, cost, GreedyChoice(start, cost.hybrids), generic)
  {
    var choice := GreedyChoice(start, cost.hybrids);
    forall c: Color ensures payment[c] == cost.Pips()[c] + Demand(cost.hybrids, choice, c) + generic[c] >= 0 {
      GreedyTakes(start, cost.hybrids, hybridPart, c);
      PartsOf(payment, cost, hybridPart, generic, c);
    }
    assert SettlesWith(payment, cost, choice, generic);
  }

  lemma GreedyTakes(start: Amounts, hybrids: seq<Hybrid>, hybridPart: Amounts, c: Color)
    requires Splits(start, After(start, hybrids, GreedyChoice(start, hybrids)), hybridPart)
    ensures hybridPart[c] == Demand(hybrids, GreedyChoice(start, hybrids), c)
  {
    AfterTakesDemand(start, hybrids, GreedyChoice(start, hybrids), c);
  }

  lemma PartsOf(payment: Amounts, cost: Cost, hybridPart: Amounts, generic: Amounts, c: Color)
    requires payment == Sum3(cost.Pips(), hybridPart, generic)
    ensures payment[c] == cost.Pips()[c] + hybridPart[c] + generic[c] && cost.Pips()[c] >= 0
  {}

  /** A payable cost leaves the pool non-negative after pips, with enough left for hybrids and generic. */
  lemma PayableStart(pool: Amounts, cost: Cost)
    requires Payable(pool, cost)
    ensures NonNegative(Minus(pool, cost.Pips()))
    ensures Total(After(Minus(pool, cost.Pips()), cost.hybrids,
                        GreedyChoice(Minus(pool, cost.Pips()), cost.hybrids))) >= cost.generic
  {
    var start := Minus(pool, cost.Pips());
    var choice :| Fits(start, cost.hybrids, choice);
    assert forall c: Color :: Demand(cost.hybrids, choice, c) <= start[c];
    MinusTotal(pool, cost.Pips());
    AfterTotal(start, cost.hybrids, GreedyChoice(start, cost.hybrids));
  }

  /** The pool can make the payment exactly when hybrids and generic overdraw nothing. */
  lemma AtMostMeansNotOverdrawn(pool: Amounts, cost: Cost, rem: Amounts, hybridPart: Amounts, generic: Amounts)
    requires Splits(Minus(pool, cost.Pips()), rem, hybridPart)
    requires NonNegative(generic)
    ensures AtMost(Sum3(cost.Pips(), hybridPart, generic), pool) <==> AtMost(generic, rem)
    ensures AtMost(generic, rem) ==> NonNegative(rem)
  {
    var total := Sum3(cost.Pips(), hybridPart, generic);
    assert forall c: Color :: pool[c] - total[c] == rem[c] - generic[c] by {
      forall c: Color ensures pool[c] - total[c] == rem[c] - generic[c] {
        assert c in total && c in Minus(pool, cost.Pips());
      }
    }
    assert forall c: Color :: total[c] <= pool[c] <==> generic[c] <= rem[c];
  }

  lemma WithoutPips(pool: Amounts, cost: Cost, start: Amounts)
    requires start == Table(pool[White] - cost.white, pool[Blue] - cost.blue, pool[Black] - cost.black,
                            pool[Red] - cost.red, pool[Green] - cost.green, pool[Colorless])
    ensures start == Minus(pool, cost.Pips())
  {
    var left := Minus(pool, cost.Pips());
    forall c: Color ensures c in start && c in left && start[c] == left[c] {
      match c { case White => case Blue => case Black => case Red => case Green => case Colorless => }
    }
  }

  /** The parts put together are the greedy's payment. */
  lemma PaymentMade(pool: Amounts, cost: Cost, start: Amounts, rem: Amounts, pips: Amounts, hybridPart: Amounts,
                    generic: Amounts, payment: Amounts)
    requires start == Minus(pool, cost.Pips()) && rem == After(start, cost.hybrids, GreedyChoice(start, cost.hybrids))
    requires pips == Table(cost.white, cost.blue, cost.black, cost.red, cost.green, 0)
    requires Splits(start, rem, hybridPart) && payment == Sum3(pips, hybridPart, generic)
    requires NonNegative(generic) && Total(generic) == cost.generic && Levelled(Minus(rem, generic), generic)
    requires cost.generic > generic[Colorless] ==> generic[Colorless] >= rem[Colorless]
    ensures Settles(payment, cost) && NonNegative(payment) && GreedyPayment(pool, cost, payment, generic)
    ensures payment[White] >= cost.white && payment[Blue] >= cost.blue && payment[Black] >= cost.black
    ensures payment[Red] >= cost.red && payment[Green] >= cost.green
    ensures AtMost(payment, pool) <==> AtMost(generic, rem)
    ensures AtMost(generic, rem) ==> NonNegative(rem)
  {
    PaymentSettles(payment, cost, start, hybridPart, generic);
    AtMostMeansNotOverdrawn(pool, cost, rem, hybridPart, generic);
    SettledPips(payment, cost);
  }

  lemma MinusMinus(a: Amounts, b: Amounts)
    ensures Minus(a, Minus(a, b)) == b
  {
    assert forall c: Color :: c in Minus(a, Minus(a, b)) && Minus(a, b)[c] == a[c] - b[c];
  }

  lemma MinusTotal(a: Amounts, b: Amounts)
    ensures Total(Minus(a, b)) == Total(a) - Total(b)
  {
    assert forall c: Color :: Minus(a, b)[c] == a[c] - b[c];
  }

  /** The order in which the generic loop looks at the five colours. */
  predicate ComesBefore(c: Color, d: Color) {
    match c
    case White => d == Blue || d == Black || d == Red || d == Green
    case Blue => d == Black || d == Red || d == Green
    case Black => d == Red || d == Green
    case Red => d == Green
    case Green => false
    case Colorless => false
  }

  /** The colour the generic loop takes next: the first of the five colours with the most mana left, if any is left. */
  function Richest(rem: Amounts): (best: Option<Color>)
    ensures best.None? <==> forall c: Color :: c != Colorless ==> rem[c] <= 0
    ensures best.Some? ==> best.value != Colorless && rem[best.value] > 0
    ensures best.Some? ==> forall c: Color :: c != Colorless ==> rem[c] <= rem[best.value]
    ensures best.Some? ==> forall c: Color :: ComesBefore(c, best.value) ==> rem[c] < rem[best.value]
  {
    RicherOverFive(rem);
    Richer(rem, Richer(rem, Richer(rem, Richer(rem, Richer(rem, None, White), Blue), Black), Red), Green)
  }

  /** One comparison of that search: c replaces the best so far when it has strictly more. */
  function Richer(rem: Amounts, best: Option<Color>, c: Color): Option<Color> {
    if rem[c] > (if best.None? then 0 else rem[best.value]) then Some(c) else best
  }

  /** The maximum after each comparison. */
  function Top(rem: Amounts, best: Option<Color>): int { if best.None? then 0 else rem[best.value] }

  lemma RicherOverFive(rem: Amounts)
    ensures var b := Richer(rem, Richer(rem, Richer(rem, Richer(rem, Richer(rem, None, White), Blue), Black), Red),
                            Green);
            && (b.Some? ==> b.value != Colorless && rem[b.value] > 0)
            && (forall c: Color :: c != Colorless ==> rem[c] <= Top(rem, b))
            && (b.Some? ==> forall c: Color :: ComesBefore(c, b.value) ==> rem[c] < Top(rem, b))
  {
    var b1 := Richer(rem, None, White);
    var b2 := Richer(rem, b1, Blue);
    var b3 := Richer(rem, b2, Black);
    var b4 := Richer(rem, b3, Red);
    var b := Richer(rem, b4, Green);
    assert 0 <= Top(rem, b1) <= Top(rem, b2) <= Top(rem, b3) <= Top(rem, b4) <= Top(rem, b);
    forall c: Color | c != Colorless ensures rem[c] <= Top(rem, b) {
      match c { case White => case Blue => case Black => case Red => case Green => }
    }
    if b.Some? {
      forall c: Color | ComesBefore(c, b.value) ensures rem[c] < Top(rem, b) {
        match c { case White => case Blue => case Black => case Red => }
      }
    }
  }

  /** A running payment: what has been spent is what is missing. */
  ghost predicate Splits(start: Amounts, rem: Amounts, spent: Amounts) {
    forall c: Color :: spent[c] == start[c] - rem[c]
  }

  lemma SplitStep(start: Amounts, rem: Amounts, spent: Amounts, c: Color)
    requires Splits(start, rem, spent)
    ensures Splits(start, Spend(rem, c), Bump(spent, c, 1))
  {}

  lemma OutOfMana(start: Amounts, rem0: Amounts, rem: Amounts, paid0: Amounts, paid: Amounts)
    requires Splits(start, rem0, paid0) && Splits(start, rem, paid)
    requires paid[Colorless] == paid0[Colorless] && rem0[Colorless] <= 0
    requires forall c: Color :: c != Colorless ==> rem[c] <= 0
    ensures Total(rem) <= 0
  {
    assert rem[Colorless] == start[Colorless] - paid[Colorless] == rem0[Colorless] by {
      assert paid[Colorless] == start[Colorless] - rem[Colorless];
    }
  }

  lemma EnoughMana(start: Amounts, rem: Amounts, paid: Amounts)
    requires Splits(start, rem, paid)
    ensures NonNegative(rem) ==> Total(rem) >= 0 && AtMost(paid, start)
  {}

  /** Richest first: a colour that was used has no colour more than one ahead of it in what is left, and none that is
      looked at earlier ahead of it at all. */
  ghost predicate Levelled(left: Amounts, spent: Amounts) {
    forall c: Color, d: Color :: c != Colorless && d != Colorless && spent[c] > 0 ==>
                                   left[d] <= left[c] + if ComesBefore(d, c) then 0 else 1
  }

  lemma StaysLevelled(rem: Amounts, paid: Amounts, c: Color)
    requires Levelled(rem, paid) && c != Colorless && NonNegative(paid)
    requires forall d: Color :: d != Colorless ==> rem[d] <= rem[c]
    requires forall d: Color :: ComesBefore(d, c) ==> rem[d] < rem[c]
    ensures Levelled(Spend(rem, c), Bump(paid, c, 1))
  {}

  lemma LevelledAtTheEnd(start: Amounts, rem: Amounts, paid: Amounts)
    requires Splits(start, rem, paid) && Levelled(rem, paid)
    ensures Levelled(Minus(start, paid), paid)
  {
    assert forall c: Color :: Minus(start, paid)[c] == rem[c];
  }

  /** The payment the greedy makes: for each symbol in turn the colour with more left, colourless mana first
      for the generic part, and then always the richest colour. */
  ghost predicate GreedyPayment(pool: Amounts, cost: Cost, payment: Amounts, generic: Amounts) {
    var start := Minus(pool, cost.Pips());
    var choice := GreedyChoice(start, cost.hybrids);
    var rem := After(start, cost.hybrids, choice);
    && SettlesWith(payment, cost, choice, generic)
    && (cost.generic > generic[Colorless] ==> generic[Colorless] >= rem[Colorless])
    && Levelled(Minus(rem, generic), generic)
  }

  /** Pools are never negative. */
  type Pool = a: Amounts | NonNegative(a) witness map c: Color :: 0

  /** What the mask loop knows after some masks: the leftover of every choice that fits, once one has fit. */
  ghost predicate BestSoFar(start: Amounts, hybrids: seq<Hybrid>, masks: nat, best: int) {
    if best == -1 then forall m: nat :: m < masks ==> !Fits(start, hybrids, ChoiceOf(m, |hybrids|))
    else best == Total(start) - |hybrids| >= 0 && Coverable(start, hybrids)
  }

  lemma OneMoreMask(start: Amounts, hybrids: seq<Hybrid>, mask: nat, best: int)
    requires BestSoFar(start, hybrids, mask, best)
    ensures var rem := After(start, hybrids, ChoiceOf(mask, |hybrids|));
            BestSoFar(start, hybrids, mask + 1, if NonNegative(rem) && Total(rem) > best then Total(rem) else best)
  {
    var choice := ChoiceOf(mask, |hybrids|);
    FitsIffNotOverdrawn(start, hybrids, choice);
    AfterTotal(start, hybrids, choice);
  }

  lemma AllMasksTried(start: Amounts, hybrids: seq<Hybrid>, best: int)
    requires BestSoFar(start, hybrids, Pow2(|hybrids|), best)
    ensures best == if Coverable(start, hybrids) then Total(start) - |hybrids| else -1
    ensures best >= -1
  {
    if best == -1 && Coverable(start, hybrids) {
      var choice :| Fits(start, hybrids, choice);
      var m := EveryChoiceHasMask(choice);
      assert false;
    }
  }

  /** The six counters of a player's pool, kept as one table indexed by colour. */
  class ManaPool {
    var mana: Pool

    constructor ()
      ensures mana == ZERO
    {
      mana := ZERO;
    }

    /** A pool that holds some mana already. */
    constructor Holding(amounts: Pool)
      ensures mana == amounts
    {
      mana := amounts;
    }

    method Add(color: Color, amount: nat)
      modifies this
      ensures mana == Bump(old(mana), color, amount)
    {
      mana := Bump(mana, color, amount);
    }

    method Clear()
      modifies this
      ensures mana == ZERO
    {
      mana := ZERO;
    }

    /** One mask of the search: pay the symbols in order, stopping at the first overdrawn colour. */
    static method TryMask(start: Amounts, hybrids: seq<Hybrid>, mask: nat) returns (valid: bool, rem: Amounts)
      requires NonNegative(start)
      ensures valid <==> NonNegative(After(start, hybrids, ChoiceOf(mask, |hybrids|)))
      ensures valid ==> rem == After(start, hybrids, ChoiceOf(mask, |hybrids|))
    {
      rem, valid := start, true;
      var h := 0;
      while h < |hybrids|
        invariant 0 <= h <= |hybrids| && valid
        invariant PaidSoFar(start, hybrids, ChoiceOf(mask, |hybrids|), h, rem)
      {
        var color := if Bit(mask, h) then hybrids[h].primary else hybrids[h].secondary;
        PayOne(start, hybrids, ChoiceOf(mask, |hybrids|), h, rem, color);
        rem := Spend(rem, color);
        if rem[color] < 0 {
          valid := false;
          return;
        }
        h := h + 1;
      }
    }

    /** The search accepts exactly the payable costs with at most ten hybrid symbols. */
    method CanPayCost(cost: Cost) returns (ok: bool)
      ensures ok <==> |cost.hybrids| <= 10 && Payable(mana, cost)
      ensures ok <==> |cost.hybrids| <= 10 && exists choice :: Covers(mana, cost, choice)
    {
      PayableExactlyWhen(mana, cost);
      var pool: Amounts := mana;
      var start := Table(pool[White] - cost.white, pool[Blue] - cost.blue, pool[Black] - cost.black,
                         pool[Red] - cost.red, pool[Green] - cost.green, pool[Colorless]);
      WithoutPips(pool, cost, start);
      MinusTotal(mana, cost.Pips());
      if start[White] < 0 || start[Blue] < 0 || start[Black] < 0 || start[Red] < 0 || start[Green] < 0 {
        return false;
      }
      var n := |cost.hybrids|;
      if n > 10 {
        return false;
      }
      assert NonNegative(start);
      var best := BestLeftover(start, cost.hybrids);
      if best < 0 {
        return false;
      }
      return best >= cost.generic;
    }

    /** The mask loop: -1 when no choice fits, and otherwise the one leftover every fitting choice has. */
    static method BestLeftover(start: Amounts, hybrids: seq<Hybrid>) returns (best: int)
      requires NonNegative(start)
      ensures best == if Coverable(start, hybrids) then Total(start) - |hybrids| else -1
      ensures best >= -1
    {
      var n := |hybrids|;
      best := -1;
      var mask := 0;
      while mask < Pow2(n)
        invariant 0 <= mask <= Pow2(n)
        invariant BestSoFar(start, hybrids, mask, best)
      {
        var valid, rem := TryMask(start, hybrids, mask);
        OneMoreMask(start, hybrids, mask, best);
        if valid {
          var leftover := Total(rem);
          if leftover > best {
            best := leftover;
          }
        }
        mask := mask + 1;
      }
      AllMasksTried(start, hybrids, best);
    }

    /** Spend the payment if no colour is short, otherwise change nothing. */
    method PayCost(payment: Amounts) returns (ok: bool)
      modifies this
      ensures ok <==> AtMost(payment, old(mana))
      ensures mana == if ok then Minus(old(mana), payment) else old(mana)
    {
      if !AtMost(payment, mana) {
        return false;
      }
      assert forall c: Color :: Minus(mana, payment)[c] == mana[c] - payment[c];
      mana := Minus(mana, payment);
      return true;
    }

    /** The hybrid loop of the greedy. */
    static method SpendHybrids(start: Amounts, hybrids: seq<Hybrid>) returns (rem: Amounts, spent: Amounts)
      ensures rem == After(start, hybrids, GreedyChoice(start, hybrids))
      ensures Splits(start, rem, spent)
    {
      rem, spent := start, ZERO;
      var i := 0;
      while i < |hybrids|
        invariant 0 <= i <= |hybrids|
        invariant Splits(start, rem, spent)
        invariant After(start, hybrids, GreedyChoice(start, hybrids))
                  == After(rem, hybrids[i..], GreedyChoice(rem, hybrids[i..]))
      {
        GreedyUnfold(rem, hybrids[i..]);
        assert hybrids[i..][0] == hybrids[i] && hybrids[i..][1..] == hybrids[i + 1..];
        var color := GreedyColor(rem, hybrids[i]);
        SplitStep(start, rem, spent, color);
        rem, spent := Spend(rem, color), Bump(spent, color, 1);
        i := i + 1;
      }
    }

    /** The two generic loops: colourless mana first, then always the richest colour. They give up
        only when no colour has mana left. */
    static method SpendGeneric(start: Amounts, amount: nat) returns (spent: Option<Amounts>)
      ensures spent.Some? ==> NonNegative(spent.value) && Total(spent.value) == amount
      ensures spent.Some? && amount > spent.value[Colorless] ==> spent.value[Colorless] >= start[Colorless]
      ensures spent.Some? ==> Levelled(Minus(start, spent.value), spent.value)
      ensures NonNegative(start) ==> (spent.Some? <==> amount <= Total(start))
      ensures NonNegative(start) && spent.Some? ==> AtMost(spent.value, start)
    {
      var rem, paid, generic := start, ZERO, amount;
      while generic > 0 && rem[Colorless] > 0
        invariant 0 <= generic <= amount
        invariant paid[Colorless] == amount - generic == Total(paid) && NonNegative(paid)
        invariant forall c: Color :: c != Colorless ==> paid[c] == 0
        invariant Splits(start, rem, paid)
        invariant NonNegative(start) ==> NonNegative(rem)
      {
        SplitStep(start, rem, paid, Colorless);
        rem, paid := Spend(rem, Colorless), Bump(paid, Colorless, 1);
        generic := generic - 1;
      }
      spent := SpendRichest(start, rem, paid, generic);
    }

    /** One mana of a colour that has some. */
    static method SpendOne(rem: Amounts, paid: Amounts, c: Color) returns (rem': Amounts, paid': Amounts)
      requires rem[c] > 0 && NonNegative(paid)
      ensures rem' == Spend(rem, c) && paid' == Bump(paid, c, 1)
      ensures NonNegative(paid') && (NonNegative(rem) ==> NonNegative(rem'))
    {
      rem', paid' := Spend(rem, c), Bump(paid, c, 1);
    }

    /** The second of those loops. */
    static method SpendRichest(start: Amounts, rem0: Amounts, paid0: Amounts,
                               generic0: nat) returns (spent: Option<Amounts>)
      requires Splits(start, rem0, paid0) && NonNegative(paid0)
      requires NonNegative(start) ==> NonNegative(rem0)
      requires generic0 > 0 ==> rem0[Colorless] <= 0
      requires forall c: Color :: c != Colorless ==> paid0[c] == 0
      ensures spent.Some? ==> NonNegative(spent.value) && Total(spent.value) == Total(paid0) + generic0
      ensures spent.Some? ==> spent.value[Colorless] == paid0[Colorless]
      ensures spent.Some? ==> Levelled(Minus(start, spent.value), spent.value)
      ensures NonNegative(start) ==> (spent.Some? <==> generic0 <= Total(rem0))
      ensures NonNegative(start) && spent.Some? ==> AtMost(spent.value, start)
    {
      var rem, paid, generic := rem0, paid0, generic0;
      while generic > 0
        invariant 0 <= generic <= generic0
        invariant NonNegative(paid) && Total(paid) + generic == Total(paid0) + generic0
        invariant Total(rem) - generic == Total(rem0) - generic0
        invariant Splits(start, rem, paid) && paid[Colorless] == paid0[Colorless] && Levelled(rem, paid)
        invariant NonNegative(start) ==> NonNegative(rem)
      {
        var best := Richest(rem);
        if best.None? {
          OutOfMana(start, rem0, rem, paid0, paid);
          return None;
        }
        SplitStep(start, rem, paid, best.value);
        StaysLevelled(rem, paid, best.value);
        rem, paid := SpendOne(rem, paid, best.value);
        generic := generic - 1;
      }
      EnoughMana(start, rem, paid);
      LevelledAtTheEnd(start, rem, paid);
      return Some(paid);
    }

    /** The greedy payment. Whatever it returns settles the cost; and it returns a payment that this
        pool can make exactly when the cost passes the search and the greedy is never stuck. */
    method ComputeOptimalPayment(cost: Cost) returns (payment: Option<Amounts>)
      ensures payment.Some? ==> Settles(payment.value, cost) && NonNegative(payment.value)
      ensures payment.Some? ==> |cost.hybrids| <= MAX_HYBRIDS && Payable(mana, cost)
      ensures payment.Some? ==>
                && payment.value[White] >= cost.white && payment.value[Blue] >= cost.blue
                && payment.value[Black] >= cost.black && payment.value[Red] >= cost.red
                && payment.value[Green] >= cost.green
      ensures payment.Some? ==> exists generic: Amounts :: GreedyPayment(mana, cost, payment.value, generic)
      ensures payment.Some? && AtMost(payment.value, mana) <==>
              && |cost.hybrids| <= MAX_HYBRIDS && Payable(mana, cost)
              && NeverStuck(Minus(mana, cost.Pips()), cost.hybrids)
    {
      var ok := CanPayCost(cost);
      if !ok {
        return None;
      }
      var pool: Amounts := mana;
      var start := Table(pool[White] - cost.white, pool[Blue] - cost.blue, pool[Black] - cost.black,
                         pool[Red] - cost.red, pool[Green] - cost.green, pool[Colorless]);
      WithoutPips(pool, cost, start);
      PayableStart(mana, cost);
      var rem, hybridPart := SpendHybrids(start, cost.hybrids);
      GreedyFitsIffNeverStuck(start, cost.hybrids);
      var generic := SpendGeneric(rem, cost.generic);
      if generic.None? {
        return None;
      }
      var pips := Table(cost.white, cost.blue, cost.black, cost.red, cost.green, 0);
      payment := Some(Sum3(pips, hybridPart, generic.value));
      PaymentMade(mana, cost, start, rem, pips, hybridPart, generic.value, payment.value);
    }

    /** Paying for a spell, as the engine does it: compute a payment, then try to make it. The pool
        pays exactly when the cost passes the search and the greedy is never stuck; then the total
        falls by the whole cost, and otherwise nothing is spent. */
    method Pay(cost: Cost) returns (ok: bool)
      modifies this
      ensures ok <==> && |cost.hybrids| <= MAX_HYBRIDS && Payable(old(mana), cost)
                      && NeverStuck(Minus(old(mana), cost.Pips()), cost.hybrids)
      ensures !ok ==> mana == old(mana)
      ensures ok ==> Settles(Minus(old(mana), mana), cost)
      ensures ok ==> && old(mana)[White] - mana[White] >= cost.white && old(mana)[Blue] - mana[Blue] >= cost.blue
                     && old(mana)[Black] - mana[Black] >= cost.black && old(mana)[Red] - mana[Red] >= cost.red
                     && old(mana)[Green] - mana[Green] >= cost.green && old(mana)[Colorless] >= mana[Colorless]
      ensures ok ==> Total(mana) == Total(old(mana)) - cost.Size()
    {
      var payment := ComputeOptimalPayment(cost);
      if payment.None? {
        return false;
      }
      ok := PayCost(payment.value);
      if ok {
        MinusMinus(old(mana), payment.value);
        SettledPips(payment.value, cost);
        SettledTotal(payment.value, cost);
        MinusTotal(old(mana), payment.value);
      }
    }
  }

  /** With one hybrid pair, or pairs that do not overlap, the engine pays every payable cost of at
      most ten hybrid symbols. */
  method PayDisjointPairs(pool: ManaPool, cost: Cost) returns (ok: bool)
    requires PairsDoNotOverlap(cost.hybrids) && |cost.hybrids| <= MAX_HYBRIDS
    modifies pool
    ensures ok <==> Payable(old(pool.mana), cost)
  {
    if Payable(pool.mana, cost) {
      GreedyCompleteOnDisjointPairs(Minus(pool.mana, cost.Pips()), cost.hybrids);
    }
    ok := pool.Pay(cost);
  }
}
