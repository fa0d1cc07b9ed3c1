/** Cards, permanents and players, and what the engine reads off them. */
module Permanents {
  import opened Common
  import Mana

  type Id = nat

  datatype CardType = Creature | Instant | Sorcery | Enchantment | Artifact | Planeswalker | Land

  datatype CardColor = White | Blue | Black | Red | Green

  /** The keywords the engine asks for, and any other text. */
  datatype Keyword =
    | FirstStrike | DoubleStrike | Deathtouch | Lifelink | Trample | Flying | Reach | Menace | Vigilance | Haste
    | Defender | Indestructible | Legendary | Intimidate | CantBlock | Flash | Delve | Convoke
    | ProtectionFrom(color: CardColor)
    | OtherKeyword(text: string)

  datatype Stats = Stats(power: int, toughness: int)

  /** A card instance; ids are unique over a game. */
  datatype Card = Card(id: Id, name: string, cardType: CardType, keywords: set<Keyword>, colors: set<CardColor>,
                       stats: Option<Stats>, flashback: bool, adventure: bool)
  {
    predicate Has(k: Keyword) { k in keywords }
  }

  datatype CounterKind = PlusOne | MinusOne | OtherCounter(text: string)

  datatype Animation = Animation(stats: Stats, untilEndOfTurn: bool)

  /** A permanent on the battlefield, held by value in the battlefield map. */
  datatype Permanent = Permanent(card: Card, controller: Id, owner: Id, tapped: bool, summoningSick: bool,
                                 damage: int, deathtouched: bool, token: bool, modifiers: Stats,
                                 granted: set<Keyword>, counters: map<CounterKind, int>,
                                 attachedTo: Option<Id>, attachments: seq<Id>, animation: Option<Animation>)
  {
    predicate Has(k: Keyword) { k in granted || k in card.keywords }

    function Counters(k: CounterKind): int { if k in counters then counters[k] else 0 }

    predicate IsCreature() { card.cardType == Creature || animation.Some? }

    function BaseStats(): Stats {
      if animation.Some? then animation.value.stats
      else if card.stats.Some? then card.stats.value
      else Stats(0, 0)
    }

    function Power(): int { BaseStats().power + modifiers.power + Counters(PlusOne) - Counters(MinusOne) }

    function Toughness(): int { BaseStats().toughness + modifiers.toughness + Counters(PlusOne) - Counters(MinusOne) }

    predicate HasLethalDamage() { IsCreature() && damage >= Toughness() }

    /** Never true of a colourless source. */
    predicate ProtectedFrom(source: Permanent) {
      exists c :: c in source.card.colors && Has(ProtectionFrom(c))
    }

    /** Takes counters off, never below zero, and forgets a kind that has none left. */
    function RemoveCounter(k: CounterKind, amount: int): (p: Permanent)
      ensures p.Counters(k) == if k in counters && counters[k] - amount > 0 then counters[k] - amount else 0
      ensures forall other :: other != k ==> p.Counters(other) == Counters(other)
      ensures p == this.(counters := p.counters)
      ensures k in p.counters <==> k in counters && counters[k] - amount > 0
    {
      if k !in counters then this
      else if counters[k] - amount > 0 then this.(counters := counters[k := counters[k] - amount])
      else this.(counters := counters - {k})
    }

    /** Cancelling pairs of +1/+1 and -1/-1 counters changes neither power nor toughness. */
    function CancelCounters(): (p: Permanent)
      requires Counters(PlusOne) > 0 && Counters(MinusOne) > 0
      ensures p.Power() == Power() && p.Toughness() == Toughness()
      ensures p.Counters(PlusOne) == 0 || p.Counters(MinusOne) == 0
      ensures p.Counters(PlusOne) >= 0 && p.Counters(MinusOne) >= 0
      ensures forall k :: k != PlusOne && k != MinusOne ==> p.Counters(k) == Counters(k)
      ensures p == this.(counters := p.counters)
    {
      var cancel := if Counters(PlusOne) < Counters(MinusOne) then Counters(PlusOne) else Counters(MinusOne);
      RemoveCounter(PlusOne, cancel).RemoveCounter(MinusOne, cancel)
    }
  }

  /** Power and toughness: the printed numbers, or those of an animation instead; what modifies them; and one up for
      each +1/+1 counter and one down for each -1/-1 counter. An animated permanent is a creature, always. */
  lemma StrengthInFull(p: Permanent)
    ensures var stats := match p.animation
                         case Some(animation) => animation.stats
                         case None => if p.card.stats.Some? then p.card.stats.value else Stats(0, 0);
            var plus := if PlusOne in p.counters then p.counters[PlusOne] else 0;
            var minus := if MinusOne in p.counters then p.counters[MinusOne] else 0;
            var creature := p.card.cardType == Creature || p.animation.Some?;
            && p.Power() - plus + minus == stats.power + p.modifiers.power
            && p.Toughness() - plus + minus == stats.toughness + p.modifiers.toughness
            && (p.IsCreature() <==> creature)
            && (p.HasLethalDamage() <==> creature && p.damage >= p.Toughness())
  {}

  /** A keyword counts whether it is printed or granted; protection counts for any of the source's colours. */
  lemma KeywordsInFull(p: Permanent, k: Keyword, source: Permanent)
    ensures p.Has(k) <==> k in p.card.keywords + p.granted
    ensures p.card.Has(k) <==> k in p.card.keywords
    ensures p.ProtectedFrom(source) <==>
              exists c :: c in source.card.colors && ProtectionFrom(c) in p.card.keywords + p.granted
  {
    if p.ProtectedFrom(source) {
      var c :| c in source.card.colors && p.Has(ProtectionFrom(c));
      assert ProtectionFrom(c) in p.card.keywords + p.granted;
    }
    if c :| c in source.card.colors && ProtectionFrom(c) in p.card.keywords + p.granted {
      assert p.Has(ProtectionFrom(c));
    }
  }

  /** A permanent as it enters the battlefield. */
  function Entering(card: Card, controller: Id, owner: Id): Permanent {
    Permanent(card, controller, owner, false, true, 0, false, false, Stats(0, 0), {}, map[], None, [], None)
  }

  datatype Player = Player(life: int, poison: int, failedToDraw: bool, lost: bool, mana: Mana.Pool)
}
