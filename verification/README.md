# A verified model of a card-game rules engine

The engine in `server/src/engine` is the only writer of a game's state: zones, stack, combat, players and
mana. This project models it in Dafny, together with the matchmaking queue and the password hasher, and proves
what each operation keeps and what holds over whole runs. Player answers, shuffles, card effects and the clock
are parameters, so every result is about all of them.

Check everything with `dafny verify dfyconfig.toml`.

## What is modelled

| file | what it models |
|---|---|
| `Permanents.dfy` | cards, permanents, players and what the engine reads off them |
| `Zones.dfy`, `ZoneManager.dfy`, `Locations.dfy` | the card containers with the owner and location maps, the elementary moves, and the location map over whole runs |
| `Moves.dfy`, `Removal.dfy` | the game context's moves: draw, mill, scry, surveil, search, fetch, discard; exile, return, destroy, sacrifice |
| `Stack.dfy`, `Priority.dfy` | the stack, priority passing and the priority round |
| `Game.dfy` | zones, stack and sideboards as one table; the calls a card effect can make |
| `Costs.dfy` | convoke, lands tapped automatically, and paying |
| `Actions.dfy`, `Sideboarding.dfy`, `Resolution.dfy` | player actions and the resolution of the top of the stack |
| `StateBased.dfy` | one state-based pass and the loop around it |
| `Damage.dfy`, `Combat.dfy`, `Blocks.dfy`, `CombatSteps.dfy` | damage, its assignment, block declaration, the damage steps |
| `Setup.dfy`, `Runs.dfy` | the setup and whole games |
| `Mana.dfy`, `Effects.dfy`, `Clock.dfy`, `Matchmaking.dfy`, `Passwords.dfy` | mana payment, layered effects, the game clock, the matchmaking queue, stored passwords |

How the state is represented:

- Objects whose methods update their fields are classes with the same fields (`ZoneManager`, `TheStack`,
  `PrioritySystem`, `CombatManager`, `ManaPool`, `MatchmakingQueue`, `GameClock`, `GameTable`). Permanents and
  players are values, because the engine keeps them by value in a map and a vector.
- Libraries, hands and graveyards are one map keyed by zone and player; the end of a library is its top.
- Card instance ids are unique; ids of dealt cards come from the instance counter and tokens get later ones.
- An effect is an arbitrary list of the calls in `Game.ContextCall`; calls that neither move a card nor add mana are left out.
- `Game.State` is everything that actions, effects and passes read or write: cards, players with their mana, the next stack id.
- Keyword and counter texts are a datatype with a case for any other text.
- Loops over a hash map take its keys in an arbitrary order.
- "Dealt" cards are those of decks and sideboards. A card is counted in seven places: library, hand,
  graveyard, exile, battlefield, stack and sideboard. `Keeps` says that no count of a dealt card has changed
  and that no other card has come from nowhere; `Conserved` that every dealt card counts one.

## What is false of the code, and when it holds

- The greedy payment is not complete: `Mana.GreedyIncomplete` gives a payable cost it cannot pay.
  `Mana.ManaPool.Pay` states exactly when it does pay, by a condition checked symbol by symbol
  (`NeverStuck`: one of the symbol's two colours is left); `Mana.GreedyCompleteOnDisjointPairs` shows that
  equal or non-overlapping pairs always meet it.
- A stack entry does not always wait for everybody to pass: when the holder's connection is lost or the clock
  runs out, the loop is left and the top resolves at once. `Priority.AbandonedResolvesEarly` and
  `Priority.LostConnectionResolvesEarly` give the script and the run; `Priority.FullRoundsExactlyWhen` says for
  every run that each resolution waits if and only if no such input, with the game going on, meets a stack with
  something on it.
- The location map is not exact for every card, because the engine also writes hands directly without a note:
  `Locations.NoteIsLost` returns a card from the graveyard and loses sight of it. `Zones.NotedZoneIsTheZone` says for
  each card that its note is exact if and only if it has one or the card is nowhere; only cards in a hand can lack it.
- A clock may run out late, because every update drops the started millisecond: `Clock.HalfMillisecondsAreFree` is a
  clock that is late by any amount. `Clock.OnTimeExactlyWhen` says for all intervals that a clock is on time if and
  only if the time used is not within the dropped time above the budget; it is never early.
- Destroyed and sacrificed tokens are put into a graveyard and returned ones into a hand, while state-based
  actions and exile make them cease (`Removal.WhereTokensGo`). The model follows the code in each place.
- A fizzled flashback spell goes to the graveyard, not to exile (`Resolution.FizzledFlashback`), and a countered
  spell goes there too (`Game.GameTable.Counter`).
- The state-based loop has no bound of its own. It ends for every run in which deaths stop setting off effects at
  some time (`StateBased.CheckStateBasedActions`).
- Colourless mana that a cost names is charged as generic, and the mana code charges neither phyrexian symbols
  nor X by itself.

## Model

| member | source | states |
|---|---|---|
| `StateBased.CheckStateBasedActions` | server/src/engine/game.cpp:2237-2240 | for every answer to every prompt and every effect that deaths set off, as long as deaths stop setting off effects at some time, the repeat-until-stable loop ends; then no player is losing, no creature is dying, nobody controls two legends of a name, nothing dangles and no permanent has opposed counters; and only the passes have changed the game |
| `StateBased.CheckAndApply` | server/src/engine/state_based_actions.cpp:14-256 | one pass, in order: players judged, dying creatures buried, the effect of each of these deaths run exactly once, the active player's creatures before the others and otherwise as they were found, then legends, attachments and counters; a false answer means nothing has changed and nothing applies |
| `StateBased.TidyField` | server/src/engine/state_based_actions.cpp:132-255 | the battlefield after legend rule, attachments and counters, in that order; it changes exactly when the answer says so |
| `StateBased.RunDeathEffects` | server/src/engine/state_based_actions.cpp:104-130 | the effect of each death runs whole, one creature after the other in the given order, over a trace of states |
| `StateBased.ActiveFirstIsDeathOrder` | server/src/engine/state_based_actions.cpp:104-113 | the order of the deaths' effects is a reordering of the dying creatures in which no creature of the active player comes after one of another player, and two on the same side keep their order |
| `StateBased.EachDeathOnce` | server/src/engine/state_based_actions.cpp:46-130 | a creature has its turn exactly once if it is on the battlefield and dying, and not at all otherwise |
| `StateBased.DyingExactlyWhen` | server/src/engine/state_based_actions.cpp:46-62 | dying, on the fields of the permanent: a creature without toughness, or not indestructible with damage as high as its toughness or marked by deathtouch |
| `StateBased.SilentPass` | server/src/engine/state_based_actions.cpp:14-256 | without death effects a pass that applies something strictly lowers live players + permanents + attached permanents + pairs of opposed counters |
| `StateBased.SilentRun` | server/src/engine/game.cpp:2237-2240 | without death effects the loop only takes permanents to where they belong and eliminates exactly the players who were losing at its start |
| `StateBased.JudgePlayer` | server/src/engine/state_based_actions.cpp:26-42 | a player loses exactly with life at most 0, ten poison or a failed draw, and is reported only when not lost before |
| `StateBased.EliminatePlayers` | server/src/engine/state_based_actions.cpp:26-42 | all losing players, and no others, are marked lost |
| `StateBased.FindDying` | server/src/engine/state_based_actions.cpp:46-62 | exactly the creatures with toughness at most 0, or not indestructible with lethal damage or a deathtouch mark |
| `StateBased.CreaturesDie` | server/src/engine/state_based_actions.cpp:46-102 | exactly the dying creatures leave, each once; tokens cease, other cards reach their owner's graveyard |
| `StateBased.Bury` | server/src/engine/state_based_actions.cpp:87-101 | one permanent leaves: a token is nowhere afterwards, another card is in its owner's graveyard, nothing else moves |
| `StateBased.BuryAll` | server/src/engine/state_based_actions.cpp:84-102 | a list of permanents leaves, and the answer says whether there were any |
| `StateBased.GroupLegends` | server/src/engine/state_based_actions.cpp:146-152 | the groups are exactly the legends by controller and name |
| `StateBased.SettleGroup` | server/src/engine/state_based_actions.cpp:154-194 | of a group of several exactly one is kept, the answer if it names one of them and the first otherwise |
| `StateBased.LegendRule` | server/src/engine/state_based_actions.cpp:132-195 | afterwards one legend is left for each controller and name, the chosen one where a choice was made |
| `StateBased.TheNamedLegendStays` | server/src/engine/state_based_actions.cpp:158-169 | a legend that its controller has named among several of that name is the one that stays |
| `StateBased.FindDangling` | server/src/engine/state_based_actions.cpp:198-212 | exactly the permanents attached to something that is gone, auras apart from the rest |
| `StateBased.Attachments` | server/src/engine/state_based_actions.cpp:197-240 | dangling auras leave, other dangling permanents are detached, nothing else changes |
| `StateBased.Counters` | server/src/engine/state_based_actions.cpp:242-253 | every pair of opposed counters is cancelled, nothing else changes |
| `StateBased.NothingChangedIsStable` | server/src/engine/state_based_actions.cpp:255 | a pass that leaves battlefield and players as they were found none of its five conditions |
| `StateBased.LessWeighsLess` | server/src/engine/game.cpp:2238 | removing, detaching or cancelling strictly lowers the weight of the battlefield: the termination measure |
| `StateBased.FewerAlive` | server/src/engine/state_based_actions.cpp:26-42 | marking players lost strictly lowers the number of live ones |
| `StateBased.OnlyTheDoomedLeave` | server/src/engine/state_based_actions.cpp:44-240 | a permanent leaves in a pass only because it is dying, because an effect set off by a death takes it, because its controller keeps another legend of that name, or because it is an aura attached to nothing |
| `StateBased.TheOthersStay` | server/src/engine/state_based_actions.cpp:132-253 | who is no surplus legend and no dangling aura stays, keeps power and toughness, has no opposed counters, and is the only legend of its name under its controller |
| `StateBased.WhatIsLoose` | server/src/engine/state_based_actions.cpp:197-253 | after the legend rule an aura whose permanent is gone leaves, anything else whose permanent is gone is detached, and the rest stays attached as it was |
| `StateBased.FellKeeps` | server/src/engine/state_based_actions.cpp:84-102 | whatever a pass removes, no dealt card is lost or duplicated |
| `Permanents.Permanent.RemoveCounter` | server/src/engine/permanent.cpp:76-84 | counters of one kind fall, never below zero; other kinds stay |
| `Permanents.Permanent.CancelCounters` | server/src/engine/state_based_actions.cpp:247-249 | cancelling leaves power, toughness and other counters as they were, and of the two kinds one at zero and none below |
| `Permanents.StrengthInFull` | server/src/engine/permanent.cpp:17-41 | power and toughness differ from the printed or animated numbers by the modifiers and by the same number of counters; an animated permanent is a creature; damage is lethal from the toughness on |
| `Permanents.KeywordsInFull` | server/src/engine/permanent.cpp:54-160 | a keyword counts printed or granted, and protection for any one of the source's colours |
| `Damage.DealAllIsAllAtOnce` | server/src/engine/game_context_impl.cpp:222-298 | dealing a list entry by entry gives the marks, deathtouch flags and life totals of judging every entry against the board before the damage, lifelink and protection included |
| `Damage.AnyOrder` | server/src/engine/game.cpp:760-763 | every permutation of a damage list leads to the same board |
| `Damage.SameEffect` | server/src/engine/game_context_impl.cpp:227-297 | what an assignment does depends on nothing that damage changes |
| `Damage.DealMeans` | server/src/engine/game_context_impl.cpp:222-298 | one assignment on the fields: marks or life loss of a target that is there and not protected, the deathtouch mark, life for a lifelink source's controller, and nothing else |
| `CombatSteps.DealDamage` | server/src/engine/game_context_impl.cpp:222-298 | one assignment: marks or life loss of the target unless it is protected, life for the controller of a lifelink source, nothing else; no card moves |
| `CombatSteps.DealInTurn` | server/src/engine/game.cpp:779-782 | the loop over a damage list ends with the board of dealing it all at once |
| `CombatSteps.Strike` | server/src/engine/game.cpp:771-782 | a damage step deals all damage at once, worked out from the board before it, with exactly the fair answers of the prompted tramplers in force; nothing else happens (what it deals to whom: StruckPermanent, StruckPlayer) |
| `CombatSteps.StruckPermanent` | server/src/engine/game.cpp:771-782 | a permanent is marked with the powers of the striking creatures that block it and with what the attackers give it, except by sources it is protected from; nothing else about it changes but the deathtouch mark |
| `CombatSteps.StruckPlayer` | server/src/engine/game.cpp:771-782 | a player loses exactly what the attackers give the player in all, and gains what lifelink brings |
| `CombatSteps.HasFirstStrikers` | server/src/engine/game.cpp:733-753 | a first strike step takes place exactly when an attacker or blocker still there strikes first |
| `CombatSteps.FirstStrikeDamage` | server/src/engine/game.cpp:728-767 | the first strike step takes place exactly when somebody strikes first; then all damage at once, with exactly the fair splits in force, then state-based passes until none applies |
| `CombatSteps.CombatDamage` | server/src/engine/game.cpp:768-785 | the regular damage step: all damage at once, with exactly the fair splits in force, then state-based passes until none applies |
| `CombatSteps.TheKilledAreGone` | server/src/engine/game.cpp:728-785 | without death effects the creatures the damage has killed are gone after the step, and exactly the players it brought to lose are eliminated |
| `CombatSteps.StepInAnyOrder` | server/src/engine/game.cpp:779-782 | any other order of the step's damage list would have led to the same board |
| `Combat.TrampleIsOptimal` | server/src/engine/combat_manager.cpp:66-98 | automatic and accepted custom splits of a trampler both total its power, and no accepted split gives the player more than the automatic one |
| `Combat.AutoAmount` | server/src/engine/combat_manager.cpp:66-98 | each blocker gets its lethal amount as far as the power reaches behind the earlier blockers |
| `Combat.AutoIsOrdered` | server/src/engine/combat_manager.cpp:66-98 | a blocker gets damage only when every earlier one still there got its full lethal amount, and never more than its own |
| `Combat.BlockedWithoutTrample` | server/src/engine/combat_manager.cpp:66-98 | a blocked attacker without trample deals min(power, lethal amounts), all to blockers, even when they have all left |
| `Combat.AttackUsesPower` | server/src/engine/combat_manager.cpp:39-126 | an attacker that strikes deals exactly its power when unblocked, trampling or split by choice, and min(power, lethal amounts) otherwise |
| `Combat.BlocksDeal` | server/src/engine/combat_manager.cpp:101-122 | every declared block whose blocker deals damage in the step gives the attacker exactly the blocker's power, as often as it was declared, and the blockers' part of the list holds nothing else |
| `Combat.AttackGives` | server/src/engine/combat_manager.cpp:39-99 | all of an attacker's assignments come from it, and each target gets what it is due: the power unblocked, the chosen numbers, or shares in blocker order with the rest to the player when it tramples |
| `Combat.StrikesOnceOrTwice` | server/src/engine/combat_manager.cpp:46-58 | double strike deals in both steps, first strike only in the first, and everything else only in the second |
| `Combat.LethalIsLeastThatKills` | server/src/engine/combat_manager.cpp:86-92 | the lethal amount is the least that brings a blocker's damage to its toughness, and one from a deathtouch source |
| `Combat.InForceExactlyWhen` | server/src/engine/game.cpp:2349-2446 | a chosen split is in force exactly for a declared, blocked trampler that deals damage and whose answer is lethal for every blocker still there, gives nothing negative and totals the power |
| `Combat.CombatManager.SetBlockers` | server/src/engine/combat_manager.cpp:19-25 | the index lists for each attacker exactly its declared blockers, in declaration order |
| `Combat.CombatManager.GetAttackersNeedingBlockerOrder` | server/src/engine/combat_manager.cpp:146-154 | exactly the attackers with two or more blockers |
| `Combat.CombatManager.AssignAutomatically` | server/src/engine/combat_manager.cpp:80-98 | the loop with its running remainder computes the specified split |
| `Combat.CombatManager.AssignChosen` | server/src/engine/combat_manager.cpp:69-79 | the loop over a chosen split computes it, shorter lists included |
| `Combat.CombatManager.ResolveCombatDamage` | server/src/engine/combat_manager.cpp:39-126 | the damage list is that of all attackers, then of all blockers, that strike in this step |
| `Combat.CombatManager.GetTrampleAttackers` | server/src/engine/combat_manager.cpp:156-186 | exactly the blocked tramplers that strike in this step |
| `Combat.CombatManager.CheckSplit` | server/src/engine/game.cpp:2407-2445 | the answer is accepted exactly when it is fair: lethal for every blocker still there, nothing negative, the power in all |
| `Combat.CombatManager.PromptTrampleDamage` | server/src/engine/game.cpp:2349-2446 | a split is taken over exactly when it is fair |
| `Combat.CombatManager.AssignCombatDamage` | server/src/engine/game.cpp:773-779 | for all answers exactly the fair ones of the prompted tramplers are in force when damage is worked out |
| `Blocks.ReadBlocks` | server/src/engine/game.cpp:646-681 | of an answer exactly the legal blocks of that player's own creatures are taken, none twice |
| `Blocks.MayBlockExactlyWhen` | server/src/engine/combat_manager.cpp:235-269 | on the fields: an untapped creature that can block, flying or with reach against a flier, an artifact or of a common colour against intimidation, and of no colour the attacker is protected from |
| `Blocks.ValidateBlocker` | server/src/engine/combat_manager.cpp:235-269 | the chain of early returns decides exactly that |
| `Blocks.TakenExactlyWhen` | server/src/engine/game.cpp:646-681 | a block is taken exactly when some pair of the answer names it, blocker first, and is the first acceptable pair for that blocker |
| `Blocks.CollectedExactlyWhen` | server/src/engine/game.cpp:595-687 | a block is collected exactly when it is taken from the answer of an eligible player and nobody up to that player has lost the connection |
| `Blocks.CollectBlocks` | server/src/engine/game.cpp:595-687 | the blocks of all defending players together, up to a lost connection |
| `Blocks.OrderBlockers` | server/src/engine/game.cpp:686-725 | each order is the declared one, or the answer that permutes it; attackers with two or more blockers are asked about, all of them unless a connection is lost |
| `Blocks.DeclareBlockers` | server/src/engine/game.cpp:595-726 | for all answers: each damage order is the declared one or the answer that permutes it, as the prompts were answered; an attacker is blocked exactly when a block names it, no creature blocks twice, and every block was validated against a declared attacker |
| `Mana.ManaPool.CanPayCost` | server/src/engine/mana_pool.cpp:81-159 | true exactly when there are at most ten hybrids and, on the fields of the cost, some choice of a colour for each leaves no colour short and the whole demand is within the total |
| `Mana.PayableExactlyWhen` | server/src/engine/mana_pool.cpp:81-159 | payable by the search is the same as covered colour by colour by the fields of the cost, for some choice of halves, with enough in all |
| `Mana.PayableWithoutHybrids` | server/src/engine/mana_pool.cpp:81-92 | a payable cost asks for no more white, blue, black, red or green pips than there is mana of that colour; without hybrids that and the total are all it takes |
| `Mana.ManaPool.BestLeftover` | server/src/engine/mana_pool.cpp:97-158 | the mask loop with early break finds a fitting choice if there is one; all fitting choices leave the same |
| `Mana.ManaPool.TryMask` | server/src/engine/mana_pool.cpp:100-144 | stopping at the first overdrawn colour rejects exactly the masks that overdraw in the end |
| `Mana.EveryChoiceHasMask` | server/src/engine/mana_pool.cpp:99-107 | the masks below 2^n reach every choice of halves |
| `Mana.MasksAreChoices` | server/src/engine/mana_pool.cpp:99-107 | different masks below 2^n are different choices |
| `Mana.AfterTotal` | server/src/engine/mana_pool.cpp:146-151 | every choice leaves the same total |
| `Mana.FitsIffNotOverdrawn` | server/src/engine/mana_pool.cpp:104-144 | a choice fits exactly when paying it symbol by symbol overdraws no colour |
| `Mana.ManaPool.ComputeOptimalPayment` | server/src/engine/mana_pool.cpp:175-284 | what it returns settles the cost with at least its pips of each colour, takes colourless mana first and then always the richest colour, the earlier one on a tie; the pool can make the payment exactly when the cost passes the search and the greedy is never stuck |
| `Mana.ManaPool.SpendHybrids` | server/src/engine/mana_pool.cpp:196-246 | the hybrid loop spends the colour with more left, the first half on a tie |
| `Mana.ManaPool.SpendGeneric` | server/src/engine/mana_pool.cpp:249-281 | exactly the generic amount, colourless first, then levelling the colours; gives up exactly when there is too little |
| `Mana.Richest` | server/src/engine/mana_pool.cpp:254-273 | the first of the five colours with the most mana left, none exactly when none is left |
| `Mana.ManaPool.PayCost` | server/src/engine/mana_pool.cpp:161-173 | pays exactly when no colour is short, and then takes exactly the payment |
| `Mana.ManaPool.Pay` | server/src/engine/game.cpp:1375-1378 | computing and paying together: succeeds exactly when the cost is payable and the greedy is never stuck; then a settlement of the cost is spent, of each colour at least its pips, and otherwise nothing |
| `Mana.GreedyFitsIffNeverStuck` | server/src/engine/mana_pool.cpp:196-246 | the greedy overdraws exactly when it meets a symbol both of whose colours are used up |
| `Mana.GreedyCompleteOnDisjointPairs` | server/src/engine/mana_pool.cpp:196-246 | on a payable cost whose hybrid pairs are equal or share no colour the greedy is never stuck |
| `Mana.GreedyIncomplete` | server/src/engine/mana_pool.cpp:196-246 | with overlapping pairs it can be: white and blue in the pool, W/U then W/B |
| `Mana.PayDisjointPairs` | server/src/engine/mana_pool.cpp:161-284 | with one hybrid pair, or pairs without a common colour, every payable cost of at most ten hybrids is paid |
| `Mana.SettledTotal` | server/src/engine/mana_pool.cpp:175-284 | a settlement totals pips + hybrids + generic |
| `Mana.SettledByColor` | server/src/engine/mana_pool.cpp:175-284 | of each colour a settlement spends the pips of that colour, the hybrid symbols paid with it and a part of the generic amount |
| `Zones.NotedZoneIsTheZone` | server/src/engine/zone_manager.cpp:285-288 | for each card: its note names exactly the zone it is in if and only if it has a note or is nowhere, that is, unless it is in a hand without a note; a noted zone holds the card once |
| `Locations.FindCardZone` | server/src/engine/zone_manager.cpp:285-288 | a known answer is the one zone the card is in; an unknown one means the card is nowhere, or in a hand without a note |
| `Locations.MoveAndFind` | server/src/engine/zone_manager.cpp:23-288 | after any sequence of moves the zones are what the moves, one after another, make of them, each card is in at most one container, and the answer about any card is right; under the zone manager's own moves it is exact |
| `Locations.MoveOnce` | server/src/engine/zone_manager.cpp:23-288 | each move has its own exact result, keeps cards apart, and keeps the notes complete unless it is the engine's direct edit of a hand |
| `Locations.ReturnedIsUnknown` | server/src/engine/game_context_impl.cpp:678-684 | a card returned from a graveyard is in the hand and its zone is unknown |
| `Locations.NoteIsLost` | server/src/engine/game_context_impl.cpp:678-684 | a run in which that happens: known in the graveyard, unknown in the hand |
| `Zones.PilesAfterPut` | server/src/engine/zone_manager.cpp:33-43 | writing one player's pile changes the count of that pile's zone and of no other |
| `ZoneManagement.ZoneManager.SetLibrary` | server/src/engine/zone_manager.cpp:23-31 | the cards are the library, their owner and zone on record, and each is in one place |
| `ZoneManagement.ZoneManager.ReturnHandToLibrary` | server/src/engine/zone_manager.cpp:55-63 | the hand goes to the end of the library, and every card is in as many places as before |
| `ZoneManagement.ZoneManager.Push` | server/src/engine/zone_manager.cpp:202-205 | a card that was nowhere is at the end of one of its owner's piles, its zone noted |
| `ZoneManagement.ZoneManager.PutOnTop` | server/src/engine/zone_manager.cpp:65-68 | the card is the last of the library |
| `ZoneManagement.ZoneManager.PutOnBottom` | server/src/engine/zone_manager.cpp:70-73 | the card is the first of the library |
| `ZoneManagement.ZoneManager.AddToGraveyard` | server/src/engine/zone_manager.cpp:202-205 | the card is the last of its owner's graveyard |
| `ZoneManagement.ZoneManager.PushToHand` | server/src/engine/game.cpp:1153-1166 | the engine's direct edit of a hand: the zone is not noted, and what is noted stays true |
| `ZoneManagement.ZoneManager.RemoveFromHand` | server/src/engine/zone_manager.cpp:113-125 | the first card with the id leaves the hand and is nowhere; none exactly when there is none |
| `ZoneManagement.ZoneManager.RemoveFromGraveyard` | server/src/engine/zone_manager.cpp:221-233 | the first card with the id leaves the graveyard and is nowhere; none exactly when there is none |
| `ZoneManagement.ZoneManager.RemoveTop` | server/src/engine/zone_manager.cpp:83-93 | the last card of the library leaves it |
| `ZoneManagement.ZoneManager.DrawCard` | server/src/engine/zone_manager.cpp:33-43 | the last card of the library becomes the last of the hand |
| `ZoneManagement.ZoneManager.ShuffleLibrary` | server/src/engine/zone_manager.cpp:45-48 | any permutation of the library, everything else as it was |
| `ZoneManagement.ZoneManager.AddToBattlefield` | server/src/engine/zone_manager.cpp:127-133 | the card is a fresh permanent under its own id |
| `ZoneManagement.ZoneManager.RemoveFromBattlefield` | server/src/engine/zone_manager.cpp:135-144 | the permanent leaves, its card is nowhere, its owner was right |
| `ZoneManagement.ZoneManager.AddToExile` | server/src/engine/zone_manager.cpp:252-261 | the card is the last in exile, under its owner |
| `ZoneManagement.ZoneManager.RemoveFromExile` | server/src/engine/zone_manager.cpp:273-283 | the first exiled card with the id leaves exile |
| `Moves.Scry` | server/src/engine/game_context_impl.cpp:548-584 | for every answer the library becomes chosen(tail) + rest + unchosen(tail), order kept in each part |
| `Moves.ScryMeans` | server/src/engine/game_context_impl.cpp:548-584 | after a scry the shown cards that were named are at the bottom, those not shown above them, the other shown ones on top, each part in order and no card more or less |
| `Moves.Surveil` | server/src/engine/game_context_impl.cpp:586-621 | for every answer the library becomes rest + unchosen(tail), and chosen(tail) is appended to the graveyard |
| `Moves.SurveilMeans` | server/src/engine/game_context_impl.cpp:586-621 | of the shown cards exactly the named ones go to the graveyard and the others stay on top of those not shown, each part in order |
| `Moves.SearchLibrary` | server/src/engine/game_context_impl.cpp:623-676 | the search restores the library exactly before the shuffle, and finds the answer only if it is a matching card of the library |
| `Moves.TakeOffAndPutBack` | server/src/engine/game_context_impl.cpp:630-666 | taking the whole library off and putting it back restores it in order |
| `Moves.FetchToBattlefield` | server/src/engine/game_context_impl.cpp:878-917 | exactly the named card enters, tapped if asked for; the rest of the library is kept and shuffled |
| `Moves.DiscardCards` | server/src/engine/game_context_impl.cpp:127-172 | for every answer exactly min(count, hand size) cards go from the hand to that player's graveyard |
| `Moves.DiscardTakesExactly` | server/src/engine/game_context_impl.cpp:127-172 | whatever ids are answered, the discard shifts exactly that many cards and nothing else |
| `Moves.DiscardFollowsTheAnswer` | server/src/engine/game_context_impl.cpp:127-172 | an answer naming as many different cards of the hand as must go is followed exactly, in its order |
| `Moves.DiscardWithoutAnswer` | server/src/engine/game_context_impl.cpp:127-172 | without a usable answer the cards go from the end of the hand, the last one first |
| `Moves.CleanupDiscard` | server/src/engine/game.cpp:838-846 | at most seven cards stay in the active hand, and exactly seven if there were more; the exact zones afterwards |
| `Moves.MoveUpTo` | server/src/engine/game_context_impl.cpp:94-125 | a draw moves min(count, library) cards from the top, one by one, and reports when the library was too small |
| `Moves.MovedTimes` | server/src/engine/game_context_impl.cpp:686-697 | after n moves the target has gained the top n cards, the last one first |
| `Removal.ExileCard` | server/src/engine/game_context_impl.cpp:328-364 | a permanent, else a graveyard card, else a hand card, found in seating order, comes to the end of exile under its owner; a token ceases; the exact zones afterwards |
| `Removal.TakeFromPlayers` | server/src/engine/game_context_impl.cpp:328-364 | the first player in seating order whose pile has the card loses it; none exactly when no pile has it |
| `Removal.ReturnToHand` | server/src/engine/game_context_impl.cpp:366-394 | a permanent, else a graveyard card, else an exiled card comes to the end of its owner's hand; the exact zones afterwards |
| `Removal.ReturnFromGraveyard` | server/src/engine/game_context_impl.cpp:678-684 | a card of that graveyard comes to the end of that player's hand; the exact zones afterwards |
| `Removal.SendToGraveyard` | server/src/engine/game_context_impl.cpp:959-982 | a permanent comes to the end of its owner's graveyard; the exact zones afterwards |
| `Removal.DestroyPermanent` | server/src/engine/game_context_impl.cpp:300-326 | the same, but for an indestructible permanent nothing happens |
| `Removal.WhereTokensGo` | server/src/engine/game_context_impl.cpp:300-394 | an exiled token ceases, a destroyed or sacrificed one lands in its owner's graveyard and a returned one in its owner's hand |
| `Removal.WherePermanentsGo` | server/src/engine/game_context_impl.cpp:300-394 | exiled under its owner, sacrificed to its owner's graveyard, returned to its owner's hand; destroyed like sacrificed unless indestructible |
| `Removal.WhereCardsGo` | server/src/engine/game_context_impl.cpp:300-394 | of a graveyard before a hand, in seating order; under the owner on record, or else the player whose pile it was |
| `Game.GameTable.Call` | server/src/engine/game_context_impl.cpp:94-1001 | every call of an effect that moves cards or adds mana does exactly what its own specification says, to cards, players and stack ids, and conserves cards |
| `Game.GameTable.RunEffect` | server/src/engine/game.cpp:1881-1912 | an effect runs its calls in order, each as specified, over a trace of game states, and conserves cards: no dealt card is lost, none is duplicated, none reaches another player's pile |
| `Game.GameTable.Counter` | server/src/engine/game_context_impl.cpp:984-1001 | the named entry leaves the stack, a spell's card is at the end of its controller's graveyard, nothing else changes; false exactly when no entry has the id |
| `Game.GameTable.SearchLibraryToBattlefield` | server/src/engine/game_context_impl.cpp:878-917 | the found card enters under the searching player, tapped if asked for, the rest is shuffled twice; without a find the library is only shuffled |
| `Game.GameTable.CallDraw` | server/src/engine/game_context_impl.cpp:94-125 | the draw, and the failed draw noted on the player exactly when the library was too small |
| `Game.PlayersAfterMeans` | server/src/engine/game_context_impl.cpp:94-212 | what a call changes of a player: the failed draw exactly when the library was too small, and the mana added |
| `Game.GameTable.MakeToken` | server/src/engine/game_context_impl.cpp:410-432 | a new card instance enters as a token and is no dealt card |
| `Game.CardOut` | server/src/engine/game.cpp:1140-1751 | a card taken out of a zone is nowhere while the operation runs |
| `Game.SpellPushed` | server/src/engine/the_stack.cpp:5-9 | a flying card put on the stack is there once and nowhere else |
| `Game.EntryTaken` | server/src/engine/the_stack.cpp:11-29 | the card of an entry that has left the stack is nowhere, and its controller owns it |
| `Costs.ConvokePays` | server/src/engine/game.cpp:1191-1233 | each creature tapped for convoke pays for one mana at most, and for exactly one as long as some generic mana is left to pay; hybrid symbols stay |
| `Costs.Reduced` | server/src/engine/game.cpp:1201-1231 | a creature takes a pip of one of its colours off the cost, or else one generic; nothing exactly when the cost has neither (which pip: ReducedByOne) |
| `Costs.ConvokersAre` | server/src/engine/game.cpp:1191-1200 | who can be tapped for convoke: the named permanents that are there, untapped, creatures, and the player's |
| `Costs.ReducedByOne` | server/src/engine/game.cpp:1201-1231 | the pip taken is the first of white, blue, black, red, green that the creature has and the cost asks for; a generic mana only without one |
| `Costs.FullCost` | server/src/engine/game.cpp:1169-1189 | X counts as often as the cost has it, a kicker adds its pips colour by colour and its generic part, hybrids stay |
| `Costs.TapConvokers` | server/src/engine/game.cpp:1191-1233 | of the named creatures exactly the player's untapped ones are tapped, each once, and the cost is what they leave of it |
| `Costs.AutoTap` | server/src/engine/game.cpp:2459-2564 | exactly some permanents on the battlefield that are untapped lands of the player with a mana ability are tapped, needed colours first, each while the cost cannot be paid, until it can be or none is left; the pool holds what they yield |
| `Costs.AutoTapIsComplete` | server/src/engine/game.cpp:2459-2564 | automatic tapping makes the cost payable exactly when some choice of the player's untapped lands does |
| `Costs.PayWithLands` | server/src/engine/game.cpp:1254-1270 | tapping and paying together: no permanent changes but untapped lands of the player, which are tapped; paid exactly when the pool can then pay without the greedy getting stuck; a settlement is spent, otherwise the mana stays |
| `Costs.PaidWhenLandsSuffice` | server/src/engine/game.cpp:1254-1270 | with one hybrid pair, or pairs without a common colour, a cost is paid exactly when some of the player's untapped lands, with the pool, can pay it |
| `Costs.PaidWithoutLands` | server/src/engine/game.cpp:2465-2467 | a cost the pool can pay taps nothing |
| `Costs.NothingToPay` | server/src/engine/game.cpp:1252-1254 | skipping an empty cost is the same as paying it |
| `Actions.PlayCard` | server/src/engine/game.cpp:1141-1293 | an untimely card, or one of an unknown player, is back at the end of the hand; for any other convoke taps, delve exiles, lands are tapped and the rest is paid from the pool, and it is a spell exactly when paid and back in the hand otherwise, with taps and exiled cards kept |
| `Actions.CastExactlyWhen` | server/src/engine/game.cpp:1141-1293 | with one hybrid pair, or pairs without a common colour: a card is cast exactly when it is in the hand, an instant, with flash or in the own main phase with an empty stack, its player known, the cost has at most ten hybrids, and some untapped lands of the player, not tapped for convoke, make with the pool all that convoke and delve leave of the cost |
| `Actions.CastWithoutLands` | server/src/engine/game.cpp:1141-1293 | a player whose lands are all tapped casts exactly what the pool alone can pay |
| `Actions.DelvePays` | server/src/engine/game.cpp:1235-1250 | delve takes the least of what is offered, the graveyard and the generic part, one generic mana each and nothing else |
| `Actions.PlayedMeans` | server/src/engine/game.cpp:1141-1293 | where every card is after playing one: on top of the stack or back in the hand, delved cards in exile, nothing else moved |
| `Actions.DelveCards` | server/src/engine/game.cpp:1235-1250 | exactly the last n cards of the graveyard are exiled, last one first |
| `Actions.PlayFlashback` | server/src/engine/game.cpp:1295-1351 | a graveyard card with a readable flashback cost is paid for with lands and pool and cast exactly when paid; otherwise it is back at the end of the graveyard |
| `Actions.FlashedBackExactlyWhen` | server/src/engine/game.cpp:1295-1351 | with one hybrid pair, or pairs without a common colour: cast exactly with a readable flashback cost that untapped lands and pool can pay, and then on top of the stack as a flashback |
| `Actions.PlayAdventure` | server/src/engine/game.cpp:1353-1392 | the adventure half is cast exactly when there is one and the pool alone pays for it, no land being tapped; otherwise the card is back in the hand |
| `Actions.AdventuredExactlyWhen` | server/src/engine/game.cpp:1353-1392 | with one hybrid pair, or pairs without a common colour: cast exactly when the card of the hand has an adventure half and the pool alone can pay; then it is on top of the stack as one, and no permanent has changed |
| `Actions.PlayLand` | server/src/engine/game.cpp:1394-1455 | a land enters untapped and not summoning sick exactly in the own main phase with a land play left and an empty stack, and its landfall triggers are on the stack with the next ids; another card is back in the hand |
| `Actions.LandIsThere` | server/src/engine/game.cpp:1394-1455 | when a land can be played, and what is there afterwards: the land untapped, ready, undamaged and without counters under its player, and the triggers with consecutive ids |
| `Actions.ActivateAbility` | server/src/engine/game.cpp:1457-1570 | activated exactly when controlled, usable and its mana paid with lands and pool; its source tapped if it costs a tap; a mana ability takes effect at once, any other is the new top of the stack; lands tapped for an unpaid cost stay tapped |
| `Actions.ActivatedExactlyWhen` | server/src/engine/game.cpp:1457-1570 | with one hybrid pair, or pairs without a common colour: activated exactly when the permanent is controlled, it is not too early, it can be tapped if it must, and untapped lands and pool can pay |
| `Sideboarding.SideboardSwap` | server/src/engine/game.cpp:1575-1638 | hand and sideboard end as the swap specification says, nothing else changes, and cards are conserved |
| `Sideboarding.SwapIsEven` | server/src/engine/game.cpp:1604-1637 | a swap keeps the sizes of hand and sideboard and their cards together; a failed one keeps the cards of each |
| `Sideboarding.TakeSplits` | server/src/engine/game.cpp:1583-1623 | taking by id or by name splits a pile without loss |
| `Sideboarding.FirstFitMeans` | server/src/engine/game.cpp:1583-1623 | a wish for an id takes the first card with that id, one for a name the first card of that name, and none exactly when there is none |
| `Resolution.ResolveTop` | server/src/engine/game.cpp:2212-2215 | the entry with the greatest id leaves the stack and resolves, with exactly the targets that are still legal; cards are conserved |
| `Resolution.ResolveSpell` | server/src/engine/game.cpp:1753-1925 | a spell whose targets are all illegal goes to its controller's graveyard; a permanent card enters and its triggers follow; an adventure or flashback is exiled after its effect has run; any other goes to the graveyard; nothing else changes |
| `Resolution.ResolveAbility` | server/src/engine/game.cpp:1927-1964 | an ability whose targets are all illegal does nothing; otherwise exactly its effect runs, and cards are conserved |
| `Resolution.CheckTargets` | server/src/engine/game.cpp:1756-1788 | the targets that are still legal, in order |
| `Resolution.StillLegalMeans` | server/src/engine/game.cpp:1756-1788 | a target is kept as often as it was named if it is allowed by the filter, or without a filter is a permanent or a player, and not at all otherwise; the order stays |
| `Resolution.ToBattlefield` | server/src/engine/game.cpp:1798-1880 | the card enters under its controller with the owner on record, an aura attached to its first legal target, and its triggers are on the stack in order with the next ids |
| `Resolution.EnteredMeans` | server/src/engine/game.cpp:1798-1830 | the permanent is fresh under its controller with its owner on record; an aura is attached to its first legal target if that is there, and the target knows it; other permanents stay as they were |
| `Actions.PushTriggers` | server/src/engine/game.cpp:895-930 | triggered abilities go on the stack in order, with the next ids |
| `Resolution.RunSpell` | server/src/engine/game.cpp:1881-1918 | the card is nowhere while the effect runs and lands exactly once afterwards |
| `Resolution.WhereTheSpellGoes` | server/src/engine/game.cpp:1881-1925 | an instant or sorcery that has resolved is the last card of exile after a flashback or working adventure, and of its controller's graveyard otherwise |
| `Resolution.FizzledFlashback` | server/src/engine/game.cpp:1775-1788 | a flashback spell whose targets have all become illegal goes to the graveyard, and exile stays as it was |
| `Setup.SetupGame` | server/src/engine/game.cpp:309-351 | after the setup every dealt card is in exactly one place and every player has min(7, deck) cards of the own deck in hand |
| `Setup.OpeningHands` | server/src/engine/game.cpp:339-341 | each player draws from the top of the own library |
| `Runs.Play` | server/src/engine/game.cpp:1140-2240 | any sequence of actions, resolutions, effects, damage steps, draws, discards, swaps, changes and state-based checks: the states on the way are exactly those its steps make, and in every one of them each dealt card is in exactly one place |
| `Runs.TakeStep` | server/src/engine/game.cpp:1140-2240 | one step of a run does to cards, players and stack exactly what its own specification says |
| `Runs.AllInPlace` | server/src/engine/game.cpp:1140-2240 | when nothing was missing at the start of a run, every dealt card is in its place at every moment |
| `Runs.PlayFromSetup` | server/src/engine/game.cpp:309-449 | a whole game from the setup on, with the trace of its states: in each of them every dealt or sideboard card is in exactly one of its owner's library, hand, graveyard or sideboard, the battlefield, exile or the stack, and in no other player's pile |
| `Runs.ConservedMeansInPlace` | server/src/engine/game.cpp:1140-2240 | a total count of one and ownership of the piles put the card in exactly one place its owner may have it |
| `Runs.OnlyOwnersPile` | server/src/engine/zone_manager.cpp:23-93 | a dealt card is counted in its owner's piles only |
| `Runs.CleanUp` | server/src/engine/game.cpp:838-846 | the cleanup discard conserves cards and leaves at most seven in hand |
| `Priority.FullRoundIsEveryone` | server/src/engine/priority_system.cpp:18-32 | n passes from any start index are one pass of each player |
| `Priority.WrapIsModulo` | server/src/engine/priority_system.cpp:28-30 | the index around the table is the remainder modulo n |
| `Priority.PrioritySystem.BeginRound` | server/src/engine/priority_system.cpp:11-16 | the first seat of the active player holds priority and no pass is counted; the first player does when the active one is unknown |
| `Priority.PrioritySystem.Pass` | server/src/engine/priority_system.cpp:25-32 | counts the holder's pass and hands on; true exactly when all have passed |
| `Priority.PrioritySystem.Interrupt` | server/src/engine/priority_system.cpp:34-36 | forgets the counted passes, the holder stays |
| `Priority.PriorityRound.Run` | server/src/engine/game.cpp:1967-2235 | for every script of inputs and effects the log is exactly what the inputs make of it one after the other, up to the first moment at which the round is over; what is put on the stack is, in order and under consecutive ids, what the inputs and the resolutions in between ask for, and what is countered is what the resolutions counter and is there; each resolution comes after a full undisturbed round of passes exactly when it does not directly follow a break, and takes the greatest id |
| `Priority.PriorityRound.Resolve` | server/src/engine/game.cpp:2212-2219 | the log grows by the resolution of the top, the countering of each named entry that is there, every trigger with the next id, and the active player's new round |
| `Priority.ResolutionInFull` | server/src/engine/game.cpp:1743-1964 | that resolution told in full: exactly the named entries that are below the top are countered, each once, and exactly the triggers are added, in order, with the next ids |
| `Priority.AsAskedFor` | server/src/engine/game.cpp:1967-2235 | for any script: the entries added are those the inputs bring and the resolutions trigger, numbered in order, and those removed are the ones the resolutions counter |
| `Priority.EachEntryLeavesOnce` | server/src/engine/the_stack.cpp:5-29 | for any justified log: whatever was on the stack or was put there has resolved, has been countered or is still there, exactly once |
| `Priority.TurnsGoAround` | server/src/engine/priority_system.cpp:11-32 | the active player has the first turn of a round and after each pass the next player around the table; an interruption leaves the turn where it is |
| `Priority.BreaksResolveAtOnce` | server/src/engine/game.cpp:2221-2232 | a break that leaves the game going resolves the top of the stack at once, if there is one |
| `Priority.NoBreakMeansFullRounds` | server/src/engine/game.cpp:2203-2232 | in a log without breaks every resolution comes after each player has passed exactly once with nothing cast in between |
| `Priority.FullRoundsExactlyWhen` | server/src/engine/game.cpp:2044-2046 | for any run: every resolution waits for a full round if and only if no lost connection or expired clock that leaves the game going meets a stack with something on it |
| `Priority.AbandonedResolvesEarly` | server/src/engine/game.cpp:2044-2046 | in every run of the script 'activate an ability, lose the connection' the ability is the one entry waiting, and resolves although nobody has passed |
| `Priority.LostConnectionResolvesEarly` | server/src/engine/game.cpp:2044-2046 | such a run exists: the engine's own loop on that script, with two players and any effects |
| `Priority.NoFullRound` | server/src/engine/priority_system.cpp:25-40 | while fewer than n passes are counted there is no full round, from whatever moment one counts |
| `Stack.TheStack.Push` | server/src/engine/the_stack.cpp:5-9 | the entry gets the next id, the greatest on the stack |
| `Stack.TheStack.ResolveTop` | server/src/engine/the_stack.cpp:11-18 | the entry with the greatest id leaves the stack; none exactly when it is empty |
| `Stack.TheStack.Remove` | server/src/engine/the_stack.cpp:20-29 | an entry with the id leaves the stack, the others keep their order; none exactly when no entry has the id |
| `Effects.ContinuousEffectManager.ApplyAll` | server/src/engine/continuous_effect.cpp:28-41 | each permanent ends as the fold of the effects by layer and registration order, whatever the other permanents are |
| `Effects.StableSort` | server/src/engine/continuous_effect.cpp:30-34 | the sorted list is the layers one after the other, registration order within each |
| `Effects.LayerInOrder` | server/src/engine/continuous_effect.cpp:30-34 | a layer holds exactly the effects of that layer, in the order of registration |
| `Effects.SortedIsByLayer` | server/src/engine/continuous_effect.cpp:30-34 | a stable sort by layer has only one possible result |
| `Effects.OnlyLayerOrderMatters` | server/src/engine/continuous_effect.cpp:28-41 | lists that agree within every layer leave every permanent the same |
| `Effects.NeighboursOfDifferentLayersCommute` | server/src/engine/continuous_effect.cpp:28-41 | two neighbours of different layers may register in either order |
| `Effects.ContinuousEffectManager.Register` | server/src/engine/continuous_effect.cpp:9-14 | an effect is appended while fewer than 512 are registered, and dropped otherwise |
| `Matchmaking.MatchmakingQueue.FindMatch` | server/src/matchmaking/queue.cpp:26-48 | none exactly when no earlier entry accepts a later one; otherwise the lexicographically first pair, the rest kept in order |
| `Matchmaking.InRangeExactlyWhen` | server/src/matchmaking/queue.cpp:26-48 | a rating is accepted exactly when it is at most 100 points off plus ten for every whole second waited |
| `Matchmaking.MatchmakingQueue.Add` | server/src/matchmaking/queue.cpp:8-19 | accepted exactly when there is room and the player is not queued |
| `Matchmaking.MatchmakingQueue.Remove` | server/src/matchmaking/queue.cpp:21-24 | exactly that player's entry is gone, the order kept |
| `Matchmaking.Run` | server/src/matchmaking/queue.cpp:8-48 | over any requests the queues on the way are those that serving each request makes, with its outcome; no player is queued twice, and the entries accepted are those queued, removed and matched, each once |
| `Matchmaking.EachEntryOnce` | server/src/matchmaking/queue.cpp:8-48 | for every trace of served requests, accepted = queued + removed + matched as multisets, all four computed from requests and outcomes |
| `Matchmaking.WithoutAndTaken` | server/src/matchmaking/queue.cpp:21-24 | a removal splits the queue without loss |
| `Passwords.VerifyHash` | server/src/auth/password_hasher.cpp:60-116 | for every salt and derivation, a stored hash of p is accepted for q exactly when the derived keys agree |
| `Passwords.HashThenVerify` | server/src/auth/password_hasher.cpp:60-116 | hashing p and verifying q says whether the keys agree, so p itself is accepted |
| `Passwords.Verify` | server/src/auth/password_hasher.cpp:73-116 | true exactly when the text has the stored shape and its fields make the check succeed |
| `Passwords.Hash` | server/src/auth/password_hasher.cpp:60-71 | the stored text: prefix, iterations, salt and key in hex |
| `Passwords.HexRoundTrip` | server/src/auth/password_hasher.cpp:22-42 | printing bytes in hex and reading them back gives the same bytes, with no colon in the print |
| `Passwords.BytesToHex` | server/src/auth/password_hasher.cpp:22-28 | the printing loop computes the hex text |
| `Passwords.HexToBytes` | server/src/auth/password_hasher.cpp:30-42 | the reading loop computes the bytes, and nothing when some pair is bad |
| `Passwords.ConstantTimeCompare` | server/src/auth/password_hasher.cpp:44-50 | the XOR/OR loop decides equality |
| `Passwords.ShapeIsUnique` | server/src/auth/password_hasher.cpp:77-98 | a stored text has only one reading into fields |
| `Passwords.Split` | server/src/auth/password_hasher.cpp:74-98 | splitting at the two colons finds the fields exactly when the text has the stored shape |
| `Passwords.StoiDigits` | server/src/auth/password_hasher.cpp:86-95 | the printed iteration count is read back |
| `Passwords.StoiReads` | server/src/auth/password_hasher.cpp:86-95 | digits up to something that is none denote their number if an int can hold it, with or without a sign; without a digit nothing is read |
| `Clock.GameClock.Update` | server/src/engine/game_clock.cpp:23-39 | the running player, and nobody else, is charged the whole milliseconds since the last tick, down to zero |
| `Clock.GameClock.StartClock` | server/src/engine/game_clock.cpp:12-16 | the running player is charged up to now, and the next one runs from the second look at the clock |
| `Clock.GameClock.IsExpired` | server/src/engine/game_clock.cpp:49-55 | a player is expired exactly when the charged milliseconds have reached the budget, that is, when the time used less the time dropped has |
| `Clock.OnTimeExactlyWhen` | server/src/engine/game_clock.cpp:23-39 | a clock never runs out early, and it is on time if and only if the time used does not lie between the budget and the budget with the dropped time on top |
| `Clock.UsedIsChargedAndDropped` | server/src/engine/game_clock.cpp:23-39 | time used is time charged and time dropped, less than a millisecond being dropped by each update |
| `Clock.WholeMillisecondsAreOnTime` | server/src/engine/game_clock.cpp:23-39 | a clock updated at whole milliseconds is on time |
| `Clock.HalfMillisecondsAreFree` | server/src/engine/game_clock.cpp:23-39 | updates half a millisecond apart charge nothing, so a clock is late by any amount |

## Left out

- Transport: RPC services, message conversion, broadcasting, metrics, event log; an emitted event changes nothing here.
- Threads, timeouts and reconnection waits: a prompt is an arbitrary answer or none; a lost connection is an input of the priority round.
- Card scripts: an effect is any list of calls that move cards or add mana; what scripts compute, and their other calls, are open.
- StateBased.CheckStateBasedActions: a run in which deaths set off effects for ever does not end in the engine either, and is not covered.
- Costs.AutoTap: a land's mana ability only adds mana to its controller's pool; what else a script might do there is left out.
- Actions.PlayCard: printed costs, the number of X symbols and what a kicker text reads as are parameters, not fields of a card.
- Actions.PlayLand: which abilities trigger, and in which order, is a parameter, as it is after every other event.
- Runs.Play: a step that alters a permanent (tapping, cleanup of damage, layers) keeps card, owner and token flag; one that changes a player (life, poison, emptied pools) is any change.
- Priority.PriorityRound.Run: the effects of resolved entries are reduced to the entries they counter and the triggers they put on the stack.
- Integers are unbounded; the engine's counters, life totals and clocks are 32 or 64 bits wide.
- Clock.GameClock.Update: adding time to a clock is not modelled, because the engine never does it.
- Mana undo, preset decks, deck validation, best-of-n matches, trigger ordering prompts, delayed triggers' bookkeeping, the unused replacement effects and removal of continuous effects: easy or inert.
- Attack declaration: an attacker with vigilance can be declared twice, so no uniqueness is claimed.
- Shuffling is any permutation; Elo arithmetic, stores, tokens and the client are not modelled.
- Peeking and the read-only getters of the zone manager: no state changes.
- The key derivation function is an arbitrary function of password, salt, iterations and length (PBKDF2, section 5.2 of RFC 8018), which may fail.
