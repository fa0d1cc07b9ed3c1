/** Continuous effects, applied layer by layer (rule 613.1 of the Magic Comprehensive Rules). */
module Effects {
  import opened Common
  import opened Permanents

  const FIRST_LAYER := 1
  const LAST_LAYER := 7
  const MAX_EFFECTS := 512

  type Layer = n: nat | FIRST_LAYER <= n <= LAST_LAYER witness 1

  datatype Effect = Effect(source: Id, layer: Layer, until: Option<nat>, apply: Permanent -> Permanent)

  /** The effects of one layer, in registration order. */
  function OfLayer(effects: seq<Effect>, layer: nat): seq<Effect> {
    if effects == [] then []
    else (if effects[0].layer == layer then [effects[0]] else []) + OfLayer(effects[1..], layer)
  }

  /** Layer by layer from a given one, registration order within a layer. */
  function ByLayer(effects: seq<Effect>, from: nat): seq<Effect>
    decreases LAST_LAYER + 1 - from
  {
    if from > LAST_LAYER then [] else OfLayer(effects, from) + ByLayer(effects, from + 1)
  }

  /** One permanent under a list of effects, applied one after the other. */
  function Under(effects: seq<Effect>, p: Permanent): Permanent {
    if effects == [] then p else effects[|effects| - 1].apply(Under(effects[..|effects| - 1], p))
  }

  ghost predicate Sorted(effects: seq<Effect>) {
    forall i, j :: 0 <= i < j < |effects| ==> effects[i].layer <= effects[j].layer
  }

  /** The two lists agree within every layer. */
  ghost predicate SameWithinLayers(a: seq<Effect>, b: seq<Effect>) {
    forall l: nat :: OfLayer(a, l) == OfLayer(b, l)
  }

  lemma {:induction false} OfLayerConcat(a: seq<Effect>, b: seq<Effect>, layer: nat)
    ensures OfLayer(a + b, layer) == OfLayer(a, layer) + OfLayer(b, layer)
  {
    if a == [] {
      assert a + b == b;
    } else {
      var rest := a[1..];
      assert a == [a[0]] + rest && a + b == [a[0]] + (rest + b);
      OfLayerConcat(rest, b, layer);
      OfLayerOne(a[0], rest, a, layer);
      OfLayerOne(a[0], rest + b, a + b, layer);
    }
  }

  lemma OfLayerOne(e: Effect, rest: seq<Effect>, effects: seq<Effect>, layer: nat)
    requires effects == [e] + rest
    ensures OfLayer(effects, layer) == (if e.layer == layer then [e] else []) + OfLayer(rest, layer)
  {
    assert effects[1..] == rest;
  }

  /** A layer holds exactly the effects of that layer, as they were registered. */
  lemma {:induction false} LayerInOrder(effects: seq<Effect>, layer: nat) returns (at: seq<nat>)
    ensures |at| == |OfLayer(effects, layer)|
    ensures forall k :: 0 <= k < |at| ==> at[k] < |effects| && OfLayer(effects, layer)[k] == effects[at[k]]
    ensures forall k, l :: 0 <= k < l < |at| ==> at[k] < at[l]
    ensures forall i :: 0 <= i < |effects| ==> (effects[i].layer == layer <==> i in at)
  {
    at := [];
    for n := 0 to |effects|
      invariant |at| == |OfLayer(effects[..n], layer)|
      invariant forall k :: 0 <= k < |at| ==> at[k] < n && OfLayer(effects[..n], layer)[k] == effects[at[k]]
      invariant forall k, l :: 0 <= k < l < |at| ==> at[k] < at[l]
      invariant forall i :: 0 <= i < n ==> (effects[i].layer == layer <==> i in at)
    {
      assert effects[..n + 1] == effects[..n] + [effects[n]];
      OfLayerConcat(effects[..n], [effects[n]], layer);
      if effects[n].layer == layer {
        at := at + [n];
      }
    }
    assert effects[..|effects|] == effects;
  }

  /** Layers below the first effect's layer are empty in a sorted list. */
  lemma {:induction false} EmptyLayer(effects: seq<Effect>, layer: nat)
    requires forall e :: e in effects ==> e.layer != layer
    ensures OfLayer(effects, layer) == []
  {
    if effects == [] {
    } else {
      EmptyLayer(effects[1..], layer);
    }
  }

  /** A sorted list is its layers one after the other, so a stable sort has only one possible result. */
  lemma {:induction false} SortedIsByLayer(effects: seq<Effect>, from: nat)
    requires from <= LAST_LAYER && Sorted(effects) && forall e :: e in effects ==> from <= e.layer
    ensures effects == ByLayer(effects, from)
    decreases LAST_LAYER + 1 - from
  {
    if from == LAST_LAYER {
      WholeLayer(effects, from);
    } else {
      var k := LayerEnd(effects, from);
      var low, high := effects[..k], effects[k..];
      assert effects == low + high;
      SortedIsByLayer(high, from + 1);
      OneLayerMore(low, high, effects, from);
    }
  }

  lemma OneLayerMore(low: seq<Effect>, high: seq<Effect>, effects: seq<Effect>, from: nat)
    requires effects == low + high
    requires from < LAST_LAYER && high == ByLayer(high, from + 1)
    requires (forall e :: e in low ==> e.layer == from) && forall e :: e in high ==> e.layer != from
    ensures effects == ByLayer(effects, from)
  {
    WholeLayer(low, from);
    EmptyLayer(high, from);
    OfLayerConcat(low, high, from);
    LowLayersDoNotCount(low, high, from, from + 1);
    assert OfLayer(low + high, from) == low && ByLayer(low + high, from + 1) == high;
  }

  /** Where the first layer of a sorted list ends. */
  lemma LayerEnd(effects: seq<Effect>, from: nat) returns (k: nat)
    requires Sorted(effects) && forall e :: e in effects ==> from <= e.layer
    ensures k <= |effects| && Sorted(effects[k..])
    ensures forall e :: e in effects[..k] ==> e.layer == from
    ensures forall e :: e in effects[k..] ==> from + 1 <= e.layer
  {
    k := 0;
    while k < |effects| && effects[k].layer == from
      invariant 0 <= k <= |effects|
      invariant forall i :: 0 <= i < k ==> effects[i].layer == from
    {
      k := k + 1;
    }
    if k < |effects| {
      assert effects[k] in effects;
    }
  }

  lemma {:induction false} WholeLayer(low: seq<Effect>, layer: nat)
    requires forall e :: e in low ==> e.layer == layer
    ensures OfLayer(low, layer) == low
  {
    if low == [] {
    } else {
      WholeLayer(low[1..], layer);
      assert low == [low[0]] + low[1..];
    }
  }

  lemma {:induction false} LowLayersDoNotCount(low: seq<Effect>, high: seq<Effect>, layer: nat, from: nat)
    requires layer < from && forall e :: e in low ==> e.layer == layer
    ensures ByLayer(low + high, from) == ByLayer(high, from)
    decreases LAST_LAYER + 1 - from
  {
    if from > LAST_LAYER {
    } else {
      OfLayerConcat(low, high, from);
      EmptyLayer(low, from);
      assert OfLayer(low + high, from) == OfLayer(high, from);
      LowLayersDoNotCount(low, high, layer, from + 1);
    }
  }

  lemma {:induction false} SameLayersSameOrder(a: seq<Effect>, b: seq<Effect>, from: nat)
    requires SameWithinLayers(a, b)
    ensures ByLayer(a, from) == ByLayer(b, from)
    decreases LAST_LAYER + 1 - from
  {
    if from > LAST_LAYER {
    } else {
      SameLayersSameOrder(a, b, from + 1);
    }
  }

  /** Two registration orders that agree within every layer leave every permanent the same. */
  lemma OnlyLayerOrderMatters(a: seq<Effect>, b: seq<Effect>, p: Permanent)
    requires SameWithinLayers(a, b)
    ensures Under(ByLayer(a, FIRST_LAYER), p) == Under(ByLayer(b, FIRST_LAYER), p)
  {
    SameLayersSameOrder(a, b, FIRST_LAYER);
  }

  /** In particular two neighbours of different layers may register in either order. */
  lemma NeighboursOfDifferentLayersCommute(before: seq<Effect>, x: Effect, y: Effect, after: seq<Effect>, p: Permanent)
    requires x.layer != y.layer
    ensures Under(ByLayer(before + [x, y] + after, FIRST_LAYER), p)
            == Under(ByLayer(before + [y, x] + after, FIRST_LAYER), p)
  {
    forall l: nat ensures OfLayer(before + [x, y] + after, l) == OfLayer(before + [y, x] + after, l) {
      OfLayerConcat(before + [x, y], after, l);
      OfLayerConcat(before + [y, x], after, l);
      OfLayerConcat(before, [x, y], l);
      OfLayerConcat(before, [y, x], l);
      PairOfLayers(x, y, l);
    }
    OnlyLayerOrderMatters(before + [x, y] + after, before + [y, x] + after, p);
  }

  lemma PairOfLayers(x: Effect, y: Effect, layer: nat)
    requires x.layer != y.layer
    ensures OfLayer([x, y], layer) == OfLayer([y, x], layer)
  {
    assert [x, y][1..] == [y] && [y, x][1..] == [x];
    assert [x][1..] == [] && [y][1..] == [];
  }

  /** A stable sort by layer, by insertion. */
  method StableSort(effects: seq<Effect>) returns (sorted: seq<Effect>)
    ensures sorted == ByLayer(effects, FIRST_LAYER)
  {
    sorted := [];
    var i := 0;
    assert effects[..0] == [];
    while i < |effects|
      invariant 0 <= i <= |effects|
      invariant Sorted(sorted) && SameWithinLayers(sorted, effects[..i])
    {
      ghost var before := sorted;
      sorted := InsertOne(sorted, effects[i]);
      assert effects[..i + 1] == effects[..i] + [effects[i]];
      InsertedLast(before, sorted, effects[..i], effects[i], effects[..i + 1]);
      i := i + 1;
    }
    assert effects[..i] == effects;
    SortedIsByLayer(sorted, FIRST_LAYER);
    SameLayersSameOrder(sorted, effects, FIRST_LAYER);
  }

  /** An effect goes behind all that are not of a later layer. */
  method InsertOne(sorted: seq<Effect>, e: Effect) returns (longer: seq<Effect>)
    requires Sorted(sorted)
    ensures Sorted(longer) && Inserted(sorted, longer, e)
  {
    var k := |sorted|;
    while k > 0 && sorted[k - 1].layer > e.layer
      invariant 0 <= k <= |sorted|
      invariant forall j :: k <= j < |sorted| ==> sorted[j].layer > e.layer
    {
      k := k - 1;
    }
    InsertSorted(sorted, k, e);
    InsertStable(sorted, k, e);
    longer := sorted[..k] + [e] + sorted[k..];
  }

  /** The effect is the last of its layer, and the other layers are as they were. */
  ghost predicate Inserted(sorted: seq<Effect>, longer: seq<Effect>, e: Effect) {
    forall l: nat :: OfLayer(longer, l) == OfLayer(sorted, l) + OfLayer([e], l)
  }

  lemma InsertedLast(sorted: seq<Effect>, longer: seq<Effect>, done: seq<Effect>, e: Effect, next: seq<Effect>)
    requires SameWithinLayers(sorted, done) && Inserted(sorted, longer, e) && next == done + [e]
    ensures SameWithinLayers(longer, next)
  {
    forall l: nat ensures OfLayer(longer, l) == OfLayer(next, l) {
      OfLayerConcat(done, [e], l);
      assert OfLayer(sorted, l) == OfLayer(done, l);
    }
  }

  /** Behind everything that is not of a later layer, an effect comes last in its own layer. */
  lemma InsertInLayer(low: seq<Effect>, e: Effect, high: seq<Effect>, l: nat)
    requires forall x :: x in high ==> x.layer > e.layer
    ensures OfLayer(low + [e] + high, l) == OfLayer(low + high, l) + OfLayer([e], l)
  {
    OfLayerConcat(low + [e], high, l);
    OfLayerConcat(low, [e], l);
    OfLayerConcat(low, high, l);
    if l == e.layer {
      EmptyLayer(high, l);
    } else {
      EmptyLayer([e], l);
    }
  }

  lemma InsertSorted(sorted: seq<Effect>, k: nat, e: Effect)
    requires k <= |sorted| && Sorted(sorted)
    requires forall j :: k <= j < |sorted| ==> sorted[j].layer > e.layer
    requires k > 0 ==> sorted[k - 1].layer <= e.layer
    ensures Sorted(sorted[..k] + [e] + sorted[k..])
  {
    var longer := sorted[..k] + [e] + sorted[k..];
    forall i, j | 0 <= i < j < |longer| ensures longer[i].layer <= longer[j].layer {
      assert j > k ==> longer[j] == sorted[j - 1];
      assert i > k ==> longer[i] == sorted[i - 1];
      assert i < k ==> longer[i] == sorted[i] && sorted[i].layer <= sorted[k - 1].layer;
    }
  }

  lemma InsertStable(sorted: seq<Effect>, k: nat, e: Effect)
    requires k <= |sorted|
    requires forall j :: k <= j < |sorted| ==> sorted[j].layer > e.layer
    ensures Inserted(sorted, sorted[..k] + [e] + sorted[k..], e)
  {
    var low, high := sorted[..k], sorted[k..];
    assert sorted == low + high;
    forall l: nat ensures OfLayer(low + [e] + high, l) == OfLayer(sorted, l) + OfLayer([e], l) {
      InsertInLayer(low, e, high, l);
    }
  }

  /** Every permanent has come under the same effects, or one more effect. */
  ghost predicate AllUnder(effects: seq<Effect>, before: seq<Permanent>, after: seq<Permanent>) {
    |after| == |before| && forall k :: 0 <= k < |before| ==> after[k] == Under(effects, before[k])
  }

  ghost predicate Applied(effect: Effect, before: seq<Permanent>, after: seq<Permanent>) {
    |after| == |before| && forall k :: 0 <= k < |before| ==> after[k] == effect.apply(before[k])
  }

  lemma NoneApplied(permanents: seq<Permanent>)
    ensures AllUnder([], permanents, permanents)
  {}

  lemma AppliedOneMore(effects: seq<Effect>, effect: Effect, more: seq<Effect>, before: seq<Permanent>,
                       now: seq<Permanent>, after: seq<Permanent>)
    requires AllUnder(effects, before, now) && Applied(effect, now, after) && more == effects + [effect]
    ensures AllUnder(more, before, after)
  {
    assert more[..|effects|] == effects;
    forall k | 0 <= k < |before| ensures after[k] == Under(more, before[k]) {
      assert now[k] == Under(effects, before[k]);
    }
  }

  class ContinuousEffectManager {
    var effects: seq<Effect>

    ghost predicate Valid()
      reads this
    {
      |effects| <= MAX_EFFECTS
    }

    constructor ()
      ensures Valid() && effects == []
    {
      effects := [];
    }

    /** Effects beyond the limit are dropped silently. */
    method Register(effect: Effect)
      requires Valid()
      modifies this
      ensures Valid()
      ensures effects == if |old(effects)| < 512 then old(effects) + [effect] else old(effects)
    {
      if |effects| >= MAX_EFFECTS {
        return;
      }
      effects := effects + [effect];
    }

    /** Each permanent ends as the fold of the effects over it, by layer and then by registration,
        whatever the other permanents are. */
    method ApplyAll(permanents: array<Permanent>)
      modifies permanents
      ensures AllUnder(ByLayer(effects, FIRST_LAYER), old(permanents[..]), permanents[..])
    {
      var sorted := StableSort(effects);
      ghost var before := permanents[..];
      NoneApplied(before);
      ghost var done: seq<Effect> := [];
      for i := 0 to |sorted|
        invariant done == sorted[..i] && AllUnder(done, before, permanents[..])
      {
        ghost var now, more := permanents[..], sorted[..i + 1];
        assert more == done + [sorted[i]];
        ApplyToAll(sorted[i], permanents);
        AppliedOneMore(done, sorted[i], more, before, now, permanents[..]);
        done := more;
      }
      assert done == sorted;
    }

    /** The inner loop: one effect over every permanent. */
    static method ApplyToAll(effect: Effect, permanents: array<Permanent>)
      modifies permanents
      ensures Applied(effect, old(permanents[..]), permanents[..])
    {
      var j := 0;
      while j < permanents.Length
        invariant 0 <= j <= permanents.Length
        invariant forall k :: 0 <= k < j ==> permanents[k] == effect.apply(old(permanents[k]))
        invariant forall k :: j <= k < permanents.Length ==> permanents[k] == old(permanents[k])
      {
        permanents[j] := effect.apply(permanents[j]);
        j := j + 1;
      }
    }
  }
}
