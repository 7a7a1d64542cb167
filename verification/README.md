# Verified models of the eventcontracts trading framework

This project models the parts of `eventcontracts` whose behaviour is hardest to see by reading and
proves what they promise, for every input, every run or every reachable state. `dafny verify
dfyconfig.toml` checks all of it.

**In-play tennis prices** (`python/scripts/tennis_inplay_backtest.py`). `Scoring` is the engine's
four-level recursion over `real`: game, tiebreak, set, match, with the two deuce closed forms.
`LivePlay` is a match played point by point with the serve rotation of the script's own simulator,
and the engine's price along it. The main results:

- the price is a martingale at every legal state, through deuce, game end, tiebreak and set end
  (`LivePlay.PriceIsFair`), so it is the expected price at every horizon (`Horizon.PriceAtEveryHorizon`);
- the price is the limit of the probability that player one has won, from every legal state, unless both
  players always hold serve or both are always broken. In those two cases every point is forced, and the
  price is exact precisely when the score forces the end of the match (`Horizon.PriceIsWinProbability`,
  `ForcedPlay.PriceExactIff`); from the start it never does, and the engine answers one half;
- who serves first is irrelevant at every even score, so the engine's "approx" for the next set's server
  is exact (`FirstServer`); values never fall when a player serves better or wins a point (`Monotone`,
  `LivePlay`); exchanging the players complements every value (`PlayerSwap`);
- the rules themselves, in numbers (`Rulebook`): a game is worth its first six points played out and then deuce, with
  a closed form from love all; a set its first ten games, a match all of its sets;
- the memo tables and the engine cache never change an answer (`InPlayEngine`), and the walk over a
  recorded match never looks ahead (`Trajectory`); its sets, quotes and stops are those of the rows (`TrajectoryMeaning`).

Two findings about this code. The set recursion returns exactly on legal game scores; a raw 7-6 never
returns, which the walk over the data hides by suppressing the error (`Scoring.SetReturnsIffLegal`). The
header says the engine can start from any in-play state, but at six games all it prices the tiebreak from
its first point whatever the running score is. Between equal players with uncertain serves that quote is
right exactly at level tiebreak scores; whatever the uncertain strengths, a lead to love is quoted too low and a deficit to
love too high (`SixAll`), and a level score other than love all is quoted right exactly when both serve equally well
(`LevelScores`). `LivePlay.SixAllExactIff` is the general algebraic condition.

**Audit lineage** (`python/src/eventcontracts/audit.py`). `AuditWalk` is the depth-first walk as a
function, `AuditValidator` the code that updates its lists and sets in place and equals it. Validation
succeeds exactly on complete chains (stamped, acyclic, linked both ways, no parent after its child), the
result is a topological order of exactly the ancestors, a rejection reports exactly the defects and a member of
every cycle, the chain is the parents' chains in listed order and then the object, and an append breaks a
validated chain exactly when it links one of its objects to something that is not its parent.

**Websocket capture** (`python/scripts/kalshi_ws_capture.py`). Receiver and writer are interleaved atomic
steps over a bounded queue, the writer's uncaught errors among them. Conservation of envelopes, order on disk,
the per-channel counts and the drain at shutdown hold over every interleaving. Every line goes to the shard of the line before it exactly if it fits there (`CapturePacking`). The shutdown's
blocking put hangs for good exactly when the writer crashed and the queue is full, and every queue bound has a
run that gets there (`CaptureRuns.HangIsReachable`). The shard cap holds over every run exactly when the first file
is within it and every file rolled to is empty (`CaptureRuns.CapHoldsIff`).

**Portfolio ledger** (`python/src/eventcontracts/allocation/capital.py`). A reservation is granted exactly
when the enlarged book would still respect every budget; no run exceeds one; the book balances.

**Smaller algorithms**: the whole-date chronological split, settlement bounds from bracket results, and the
REST polling deduplicator. The settlement docstring promises the tightest bounds; that holds exactly
when the bounds do not cross and no NO result on a two-sided bracket covers an end (`Settlement.TightestIff`,
`Settlement.NotTightest`). The reconciliation fails a day whose brackets are all reproduced exactly when they pin
a high and the reference exceeds 999, the top of the scale (`Settlement.PinMismatchIff`). The deduplication key
of a trade without an id identifies its fields among such trades exactly when none contains a colon
(`RestPolls.FieldsIdentifiedIff`, `RestPolls.ClockTimesCollide`), and what is stored under a key is the first trade
in polling order that carries it (`RestStored`).

Source floats and decimals are `real` here; integers are unbounded where the source's are. Operations that update
fields in place are classes whose methods are specified by the functions the lemmas are about.

## Model

| member | source | states |
|---|---|---|
| `Scoring.SetReturnsIffLegal` | python/scripts/tennis_inplay_backtest.py:107-121 | the set recursion comes to an end exactly on legal game scores; 7-6 is not one |
| `Scoring.SetLegalReturns` | python/scripts/tennis_inplay_backtest.py:107-121 | from a legal score the call tree is no deeper than the games left to 6-6 |
| `Scoring.SetIllegalNeverReturns` | python/scripts/tennis_inplay_backtest.py:107-121 | beyond 6-6 and within one game no call depth suffices |
| `OneStep.GameOneStep` | python/scripts/tennis_inplay_backtest.py:62-78 | at every live point score, deuce closed forms included, the game value is the weighted average of its successors |
| `OneStep.GameP1OneStep` | python/scripts/tennis_inplay_backtest.py:80-81 | the same law from player one's perspective, whoever serves |
| `OneStep.TiebreakRotation` | python/scripts/tennis_inplay_backtest.py:99-100 | the first server serves one tiebreak point, then each player two |
| `OneStep.TiebreakDeuceSolves` | python/scripts/tennis_inplay_backtest.py:89-94 | the tiebreak deuce form, its 0.5 case included, solves the two-point recursion in either serve order |
| `OneStep.TiebreakOneStep` | python/scripts/tennis_inplay_backtest.py:84-105 | the one-step law at every live tiebreak score, beyond 6-6 too |
| `OneStep.GwpIsProb` | python/scripts/tennis_inplay_backtest.py:62-78 | game values lie in [0, 1] |
| `OneStep.TbP1IsProb` | python/scripts/tennis_inplay_backtest.py:84-105 | tiebreak values lie in [0, 1] |
| `OneStep.SetP1IsProb` | python/scripts/tennis_inplay_backtest.py:107-121 | set values lie in [0, 1] |
| `OneStep.MatchFromSetStartIsProb` | python/scripts/tennis_inplay_backtest.py:123-137 | set-start match values lie in [0, 1] |
| `OneStep.MatchP1IsProb` | python/scripts/tennis_inplay_backtest.py:139-149 | in-play match values lie in [0, 1] |
| `PlayerSwap.GwpReturner` | python/scripts/tennis_inplay_backtest.py:62-78 | the returner's game is the server's with won and lost points exchanged |
| `PlayerSwap.TiebreakSwap` | python/scripts/tennis_inplay_backtest.py:84-105 | exchanging the players complements the tiebreak value |
| `PlayerSwap.SetSwap` | python/scripts/tennis_inplay_backtest.py:107-121 | exchanging the players complements the set value |
| `PlayerSwap.MatchFromSetStartSwap` | python/scripts/tennis_inplay_backtest.py:123-137 | exchanging the players complements the set-start value |
| `PlayerSwap.MatchSwap` | python/scripts/tennis_inplay_backtest.py:139-149 | exchanging serves, sets, games and server complements the in-play price at every legal state |
| `FirstServer.TiebreakPair` | python/scripts/tennis_inplay_backtest.py:84-105 | from an even score a tiebreak may be played two points at a time although it can stop between them |
| `FirstServer.TiebreakFirstServer` | python/scripts/tennis_inplay_backtest.py:84-105 | at every even score, 0-0 among them, the tiebreak value is the same for both first servers |
| `FirstServer.SetPair` | python/scripts/tennis_inplay_backtest.py:107-121 | from an even score a set may be played two games at a time |
| `FirstServer.SetFirstServer` | python/scripts/tennis_inplay_backtest.py:107-121 | at every even game score the set value is the same whoever serves next |
| `FirstServer.MatchFirstServer` | python/scripts/tennis_inplay_backtest.py:123-137 | the set-start value does not depend on the first server |
| `FirstServer.NextSetServerIrrelevant` | python/scripts/tennis_inplay_backtest.py:139-149 | the next-set server marked approximate makes no difference: any choice, even one depending on the result, gives the same price |
| `FirstServer.SetStartPrice` | python/scripts/tennis_inplay_backtest.py:123-149 | the in-play price at the first point of a set is the set-start price |
| `Monotone.DeuceMonotone` | python/scripts/tennis_inplay_backtest.py:72-75 | the deuce closed form rises with the serve probability |
| `Monotone.GamePointOrder` | python/scripts/tennis_inplay_backtest.py:62-78 | winning rather than losing a point never lowers the server's game value |
| `Monotone.GwpMonotone` | python/scripts/tennis_inplay_backtest.py:62-78 | the game value never falls in the serve probability |
| `Monotone.TiebreakDeuceMonotone` | python/scripts/tennis_inplay_backtest.py:89-94 | so does the tiebreak deuce form, across its undecidable cases |
| `Monotone.TiebreakPointOrder` | python/scripts/tennis_inplay_backtest.py:84-105 | winning rather than losing a point never lowers the tiebreak value |
| `Monotone.TiebreakMonotone` | python/scripts/tennis_inplay_backtest.py:84-105 | the tiebreak value never falls when player one serves better or player two worse |
| `Monotone.SetGameOrder` | python/scripts/tennis_inplay_backtest.py:107-121 | winning rather than losing a game never lowers the set value |
| `Monotone.SetMonotone` | python/scripts/tennis_inplay_backtest.py:107-121 | the set value never falls when player one serves better or player two worse |
| `Monotone.MatchSetOrder` | python/scripts/tennis_inplay_backtest.py:123-137 | winning rather than losing a set never lowers the match value |
| `Monotone.MatchFromSetStartMonotone` | python/scripts/tennis_inplay_backtest.py:123-137 | monotonicity of the set-start value |
| `Monotone.MatchMonotone` | python/scripts/tennis_inplay_backtest.py:139-149 | monotonicity of the in-play price at every legal state |
| `LivePlay.Next` | python/scripts/tennis_inplay_backtest.py:152-200 | one more point of the simulated match, with its serve rotation across games, tiebreaks and sets, leads from legal to legal states |
| `Rulebook.LegalByTheBook` | python/scripts/tennis_inplay_backtest.py:152-200 | the legal states in plain numbers |
| `Rulebook.PointInGame` | python/scripts/tennis_inplay_backtest.py:161-178 | a point takes the game exactly with three points or more and more than the opponent |
| `Rulebook.GameToPlayer` | python/scripts/tennis_inplay_backtest.py:159-182 | a game takes the set at 6-4 or better or 7-5; 6-6 is a tiebreak opened by the next server |
| `Rulebook.PointInTiebreak` | python/scripts/tennis_inplay_backtest.py:181-195 | a tiebreak point takes the set exactly with six points or more and more than the opponent; the first receiver serves next |
| `Rulebook.SetToPlayer` | python/scripts/tennis_inplay_backtest.py:157-200 | a set is its winner's, and the match too when it is the last one needed |
| `Rulebook.ServerWinsPoint` | python/scripts/tennis_inplay_backtest.py:162-186 | whoever serves wins the point with their own serve probability |
| `Rulebook.GamePlayedOut` | python/scripts/tennis_inplay_backtest.py:62-78 | a game is worth as much as playing all of its first six points and then deuce |
| `Rulebook.GameByTheBook` | python/scripts/tennis_inplay_backtest.py:62-78 | four points and a lead of two win a game; from deuce only the lead counts |
| `Rulebook.GameClosedForm` | python/scripts/tennis_inplay_backtest.py:62-78 | the value at every score before deuce as a polynomial |
| `Rulebook.LoveGame` | python/scripts/tennis_inplay_backtest.py:62-78 | the closed form of a game from love all |
| `Rulebook.TiebreakByTheBook` | python/scripts/tennis_inplay_backtest.py:84-105 | seven points and a lead of two win a tiebreak; at every other score the next point decides |
| `Rulebook.SetPlayedOut` | python/scripts/tennis_inplay_backtest.py:107-121 | a set is worth as much as playing all of its first ten games and, if level, two more and perhaps a tiebreak |
| `Rulebook.SetByTheBook` | python/scripts/tennis_inplay_backtest.py:107-121 | six games and a lead of two win a set, six all is a tiebreak |
| `Rulebook.MatchPlayedOut` | python/scripts/tennis_inplay_backtest.py:123-137 | a match to n sets is worth as much as playing all 2n - 1 and counting them |
| `LivePlay.PriceIsFair` | python/scripts/tennis_inplay_backtest.py:62-149 | at every legal state of a match in progress the price is the average of the prices after the next point |
| `LivePlay.PointNeverHurts` | python/scripts/tennis_inplay_backtest.py:62-149 | winning a point never lowers the price, losing one never raises it |
| `LivePlay.GameNeverHurts` | python/scripts/tennis_inplay_backtest.py:107-149 | winning rather than losing a game never lowers the in-play price |
| `LivePlay.SixAllExactIff` | python/scripts/tennis_inplay_backtest.py:112-113 | general algebraic form: the price quoted at 6-6 is that of the running tiebreak score exactly when the tiebreak is worth the same at both scores or the set no longer matters |
| `LivePlay.SixAllMispriced` | python/scripts/tennis_inplay_backtest.py:112-113 | equal players, deciding set, 6-0 in the tiebreak: quoted 0.5, worth at least 0.75 |
| `Interior.MatchInterior` | python/scripts/tennis_inplay_backtest.py:123-137 | with uncertain serves nobody is certain or hopeless at a set start |
| `Interior.EverySetMatters` | python/scripts/tennis_inplay_backtest.py:123-137 | with uncertain serves winning a set rather than losing it strictly raises the price |
| `Interior.SixAllExactInterior` | python/scripts/tennis_inplay_backtest.py:112-113 | with uncertain serves the set always matters, so only the two tiebreak values decide |
| `SixAll.TiebreakPointStrict` | python/scripts/tennis_inplay_backtest.py:84-105 | with uncertain serves winning a tiebreak point is strictly better than losing it, at every live score |
| `SixAll.TiebreakPointMoves` | python/scripts/tennis_inplay_backtest.py:84-105 | every tiebreak point strictly moves the value, up if won and down if lost |
| `SixAll.TiebreakMorePoints` | python/scripts/tennis_inplay_backtest.py:84-105 | more points against the same number are strictly better |
| `SixAll.TiebreakMoreAgainst` | python/scripts/tennis_inplay_backtest.py:84-105 | more points conceded are strictly worse |
| `SixAll.LevelIsEven` | python/scripts/tennis_inplay_backtest.py:84-105 | between equal players every level tiebreak score is even, whoever serves |
| `SixAll.LeaderIsAhead` | python/scripts/tennis_inplay_backtest.py:84-105 | between equal players the leader of a tiebreak, and only the leader, is above one half |
| `SixAll.QuoteComparison` | python/scripts/tennis_inplay_backtest.py:112-113 | the 6-6 quote is below, equal to or above the price as the tiebreak at 0-0 is against the running score |
| `SixAll.SixAllEqualPlayers` | python/scripts/tennis_inplay_backtest.py:112-113 | equal players: the 6-6 quote is right exactly when the tiebreak is level, and too low exactly when player one leads |
| `SixAll.LeadToLoveMisquoted` | python/scripts/tennis_inplay_backtest.py:112-113 | any uncertain strengths: a lead to love is quoted too low, a deficit to love too high |
| `SixAll.SixAllExactAtMostOnce` | python/scripts/tennis_inplay_backtest.py:112-113 | any uncertain strengths: for each number of points conceded at most one score is quoted right, and to love only 0-0 |
| `LevelScores.TiebreakIsWalk` | python/scripts/tennis_inplay_backtest.py:84-105 | at even scores up to 6-6 the tiebreak is a walk of the lead, a pair of points at a time |
| `LevelScores.Mirror` | python/scripts/tennis_inplay_backtest.py:84-105 | the chances that a number of pairs raises or lowers the lead by j are in proportion x^j to y^j |
| `LevelScores.OneMorePair` | python/scripts/tennis_inplay_backtest.py:84-105 | what one more pair to play changes, at every lead, in closed form |
| `LevelScores.LongerFavours` | python/scripts/tennis_inplay_backtest.py:84-105 | from level, more pairs to play favour the player more likely to win a pair, strictly beyond the first |
| `LevelScores.LevelAgainstLove` | python/scripts/tennis_inplay_backtest.py:84-105 | a later level score is worth more than love all exactly for the weaker server, and as much exactly for equal ones |
| `LevelScores.SixAllLevelScores` | python/scripts/tennis_inplay_backtest.py:112-113 | at k-k, k > 0, the 6-6 quote is right exactly when both serve equally well and too low exactly when player one serves worse |
| `LevelScores.SixAllAgainstTheOdds` | python/scripts/tennis_inplay_backtest.py:112-113 | the weaker server not behind is quoted too low, the better one not ahead too high |
| `LivePlay.EqualPlayersEven` | python/scripts/tennis_inplay_backtest.py:123-149 | between equal players a level match is priced at one half at every set start |
| `Horizon.PriceAtEveryHorizon` | python/scripts/tennis_inplay_backtest.py:62-149 | the expected price after any number of points is the price now |
| `Horizon.PriceBracket` | python/scripts/tennis_inplay_backtest.py:62-149 | after any number of points the price lies between player one's wins so far and what player two has not yet won |
| `Horizon.NotStuckResolves` | python/scripts/tennis_inplay_backtest.py:152-200 | unless stuck, the chance that the match is still going falls below any tolerance, from every legal state |
| `Horizon.PriceIsWinProbability` | python/scripts/tennis_inplay_backtest.py:139-149 | from every legal state the price is the limit of the probability that player one has won |
| `Horizon.ResolvesExact` | python/scripts/tennis_inplay_backtest.py:62-149 | wherever the match is decided with certainty the price is the win probability |
| `ForcedPlay.GameStep` | python/scripts/tennis_inplay_backtest.py:152-200 | stuck strengths: a forced point in a game keeps who takes the set, or ends the set for that player |
| `ForcedPlay.TiebreakStep` | python/scripts/tennis_inplay_backtest.py:152-200 | the same of a forced tiebreak point, whose two-point rotation gives one point to each player |
| `ForcedPlay.ForcedStep` | python/scripts/tennis_inplay_backtest.py:152-200 | a forced point keeps whether the score ends the match, and comes closer to the end if it does |
| `ForcedPlay.ForcedEnd` | python/scripts/tennis_inplay_backtest.py:152-200 | forced play that ends does so after finitely many points |
| `ForcedPlay.ForcedForever` | python/scripts/tennis_inplay_backtest.py:152-200 | forced play that does not end leaves the match undecided at every horizon |
| `ForcedPlay.ResolvesIff` | python/scripts/tennis_inplay_backtest.py:89-94 | from every legal state the match is decided with certainty exactly when the strengths are not stuck or the score forces its end |
| `ForcedPlay.EndlessPricePositive` | python/scripts/tennis_inplay_backtest.py:89-94 | a match that never ends is still given a positive price |
| `ForcedPlay.PriceExactIff` | python/scripts/tennis_inplay_backtest.py:89-94 | from every legal state the price is the win probability exactly when the strengths are not stuck or the score forces the end |
| `ForcedPlay.StuckFromTheStart` | python/scripts/tennis_inplay_backtest.py:89-94 | a match that starts stuck is never decided and is priced at one half |
| `ForcedPlay.StuckButWon` | python/scripts/tennis_inplay_backtest.py:89-94 | a stuck state, serving for the match, that is won with certainty |
| `InPlayEngine.InPlay.constructor` | python/scripts/tennis_inplay_backtest.py:52-59 | four empty tables, sets to win from the match length |
| `InPlayEngine.InPlay.Gwp` | python/scripts/tennis_inplay_backtest.py:62-78 | cached game value equals the recursion; every table entry stays right |
| `InPlayEngine.InPlay.GameP1` | python/scripts/tennis_inplay_backtest.py:80-81 | the same from player one's perspective |
| `InPlayEngine.InPlay.TbP1` | python/scripts/tennis_inplay_backtest.py:84-105 | cached tiebreak value equals the recursion |
| `InPlayEngine.InPlay.SetP1` | python/scripts/tennis_inplay_backtest.py:107-121 | cached set value equals the recursion |
| `InPlayEngine.InPlay.MatchFromSetStart` | python/scripts/tennis_inplay_backtest.py:123-137 | cached set-start value equals the recursion |
| `InPlayEngine.InPlay.MatchP1` | python/scripts/tennis_inplay_backtest.py:139-149 | the price equals the uncached recursion whatever was computed before, and in a decided match on any game score |
| `InPlayEngine.EngineCache.EngineFor` | python/scripts/tennis_inplay_backtest.py:591-602 | the engine returned was built for the rounded key; other engines are untouched |
| `InPlayEngine.EngineCache.Quote` | python/scripts/tennis_inplay_backtest.py:591-602 | a price through the cache is the uncached recursion at the rounded serves |
| `Trajectory.MatchTrajectory` | python/scripts/tennis_inplay_backtest.py:609-670 | the loop returns the prices of the specified walk, cache state notwithstanding, and raises exactly where the walk cannot compute the serve probabilities |
| `Trajectory.PricesAreCausal` | python/scripts/tennis_inplay_backtest.py:609-670 | the prices of a prefix of the rows are a prefix of the prices |
| `Trajectory.TalliesCount` | python/scripts/tennis_inplay_backtest.py:632-669 | the serve counts are those of the playable rows so far |
| `Trajectory.QuoteUsesStrictPast` | python/scripts/tennis_inplay_backtest.py:652-669 | a price uses the counts of strictly earlier rows, and who wins its own row makes no difference |
| `Trajectory.PricesAreProbabilities` | python/scripts/tennis_inplay_backtest.py:605-670 | every price of a walk is a probability |
| `Trajectory.EvidenceRaisesThePrice` | python/scripts/tennis_inplay_backtest.py:654-662 | had player one held more of the points served so far, or player two fewer, the quote would be no lower |
| `Trajectory.RaisesOnlyAtABreak` | python/scripts/tennis_inplay_backtest.py:654-658 | the walk raises only after a number of points served at which the prior breaks down: any if there is no strength, else minus the strength |
| `Trajectory.NeverRaisesIff` | python/scripts/tennis_inplay_backtest.py:654-658 | no match raises exactly when serves are fixed, or there is a strength that is not minus a positive whole number |
| `Trajectory.WinnerOfSetExactly` | python/scripts/tennis_inplay_backtest.py:223-228 | exactly the scores the set-end rule calls finished, and for whom: the engine's, 7-6, and also 7-7, 8-7 and 7-8 |
| `Trajectory.OverButUnpriced` | python/scripts/tennis_inplay_backtest.py:223-228 | where the rule calls a set finished and the engine does not, the engine cannot price |
| `TrajectoryMeaning.PlayableIff` | python/scripts/tennis_inplay_backtest.py:630-639 | which rows count |
| `TrajectoryMeaning.SkippedRow` | python/scripts/tennis_inplay_backtest.py:630-639 | any other row changes nothing |
| `TrajectoryMeaning.ScoreTexts` | python/scripts/tennis_inplay_backtest.py:46 | the points of every score text |
| `TrajectoryMeaning.SetsAreCounted` | python/scripts/tennis_inplay_backtest.py:640-649 | a player's sets are the set changes between rows that count whose earlier row gives that player the set |
| `TrajectoryMeaning.WalkStopsIff` | python/scripts/tennis_inplay_backtest.py:640-662 | a row stops the walk exactly when a player then has the sets that win; otherwise it adds one price, or none at a score the engine cannot price |
| `TrajectoryMeaning.QuoteIsLivePrice` | python/scripts/tennis_inplay_backtest.py:658-662 | the quote in a game is the live price of that state, the server's own points first |
| `TrajectoryMeaning.QuoteAtSixAll` | python/scripts/tennis_inplay_backtest.py:658-662 | at six all it is that of the tiebreak's first point |
| `TrajectoryMeaning.ServeProbsMeaning` | python/scripts/tennis_inplay_backtest.py:605-658 | each player's serve probability from their own prior and points, kept between 0.5 and 0.85 |
| `AuditTrail.InMemoryAuditTrail.AppendStamp` | python/src/eventcontracts/audit.py:119-123 | stores a stamp, or refuses a conflicting one and changes nothing |
| `AuditTrail.InMemoryAuditTrail.AppendLink` | python/src/eventcontracts/audit.py:125-128 | appends a link once, in order |
| `AuditTrail.StampsAreForever` | python/src/eventcontracts/audit.py:119-128 | no run of appends loses or rewrites a stamp |
| `AuditHistory.StampsAreFirst` | python/src/eventcontracts/audit.py:119-123 | an object carries the first stamp appended for it |
| `AuditHistory.LineageIsHistory` | python/src/eventcontracts/audit.py:125-136 | the lineage is the links appended for the child, each once, in the order of their first appends |
| `AuditWalk.Walk` | python/src/eventcontracts/audit.py:160-215 | terminates on every finite trail, restores `visiting`, and only ever adds issues, output and visited ids |
| `AuditProof.WalkKeeps` | python/src/eventcontracts/audit.py:160-215 | each step keeps: one expansion per stamp, only ancestors touched, true issues, parents-first output while there is no issue |
| `AuditProof.ValidateIff` | python/src/eventcontracts/audit.py:145-220 | validation succeeds exactly when every ancestor is stamped, linked to exactly its parents, produced no earlier than them and on no cycle |
| `AuditProof.ChainIsAncestry` | python/src/eventcontracts/audit.py:145-220 | the chain is duplicate-free, parents-first, exactly the ancestors and the object, which comes last |
| `AuditOrder.ChainMerges` | python/src/eventcontracts/audit.py:202-215 | the chain is the parents' chains in listed order, each stamp at its first occurrence, and then the object |
| `AuditOrder.ValidatedOrder` | python/src/eventcontracts/audit.py:145-220 | the same of what the validator returns, whose parents all validate |
| `AuditOrder.WalkMerges` | python/src/eventcontracts/audit.py:160-215 | from any state without issues the walk adds an object's chain less what is already there |
| `AuditProof.RejectionIsTrue` | python/src/eventcontracts/audit.py:217-219 | a rejection lists only real defects of the object's ancestry, and at least one |
| `AuditReport.WalkNotes` | python/src/eventcontracts/audit.py:160-215 | every step notes the link and time issues of each stamp it expands and accounts for each parent |
| `AuditReport.CycleIsReported` | python/src/eventcontracts/audit.py:161-163 | every cycle in the ancestry has a member that is reported |
| `AuditReport.RejectionIsComplete` | python/src/eventcontracts/audit.py:217-219 | a rejection lists an issue other than a cycle exactly when it is a defect of the ancestry, and a member of every cycle |
| `AuditReport.OwnIssuesFirst` | python/src/eventcontracts/audit.py:166-200 | a report starts with the object's own link issues in order, or is its missing stamp alone |
| `AuditProof.ExpandsEachStampOnce` | python/src/eventcontracts/audit.py:160-215 | on any trail, cyclic or incomplete, no stamp is expanded twice |
| `AuditProof.ChainSurvives` | python/src/eventcontracts/audit.py:119-136 | a validated chain comes back unchanged after any run of appends that do not link its objects to non-parents |
| `AuditProof.AppendBreaksIff` | python/src/eventcontracts/audit.py:119-136 | an append breaks a validated chain exactly when it links one of its objects to something that is not its parent |
| `AuditValidator.ChainWalk.Visit` | python/src/eventcontracts/audit.py:160-215 | the in-place walk computes the specified walk |
| `AuditValidator.ChainWalk.VisitParents` | python/src/eventcontracts/audit.py:202-211 | so does its loop over the parents |
| `AuditValidator.ChainWalk.ReportUnmatched` | python/src/eventcontracts/audit.py:176-200 | one issue for each parent the other list lacks, in order |
| `AuditValidator.ValidateCompleteChain` | python/src/eventcontracts/audit.py:145-220 | returns a chain exactly for a non-empty id with a complete chain, and then its ancestors in topological order |
| `CaptureProof.RunKeeps` | python/scripts/kalshi_ws_capture.py:167-270 | every interleaving of receiver and writer steps, crashes of the writer included, keeps the queue, count and file invariants |
| `CaptureProof.Conservation` | python/scripts/kalshi_ws_capture.py:192-215 | received = dropped + queued + in hand + rows, and rows = lines + write errors + about to be written, a crashed writer's hand included |
| `CaptureProof.ShardsAreTheStream` | python/scripts/kalshi_ws_capture.py:187-215 | the shards in index order are the accepted envelopes in arrival order minus failed writes; after the sentinel nothing is queued |
| `CaptureProof.ShardsWithinCapIff` | python/scripts/kalshi_ws_capture.py:200-210 | the counted bytes of every shard stay within the cap exactly when the first file and every written line do, and so do the files if those rolled to were empty |
| `CapturePacking.ShardsArePacked` | python/scripts/kalshi_ws_capture.py:200-215 | every shard holds exactly the lines sent to it: a line joins the shard of the line before it if it fits, else it opens the next |
| `CapturePacking.LeftOnlyWhenFull` | python/scripts/kalshi_ws_capture.py:201-207 | a shard is left only because the next line tried did not fit |
| `CapturePacking.OneShardIsEnough` | python/scripts/kalshi_ws_capture.py:201-207 | while everything counted fits in the first shard there is no other |
| `CaptureRuns.CapHoldsIff` | python/scripts/kalshi_ws_capture.py:200-210 | over every run whose lines fit, every file stays within the cap exactly when the first one starts within it and every later one starts empty |
| `CaptureProof.DropsNeedOverflow` | python/scripts/kalshi_ws_capture.py:252-258 | nothing is dropped unless more arrived than the queue holds |
| `CaptureProof.ChannelsAddUp` | python/scripts/kalshi_ws_capture.py:192-199 | the per-channel counts add up to the rows |
| `CaptureProof.ShutdownDrains` | python/scripts/kalshi_ws_capture.py:265-270 | once the sentinel is queued the writer takes boundedly many steps and, unless it crashes, ends with everything processed |
| `CaptureProof.CrashFreezes` | python/scripts/kalshi_ws_capture.py:178-226 | after a crash the counts and shards are final in every continuation and the queue only grows |
| `CaptureProof.ShutdownHangsIff` | python/scripts/kalshi_ws_capture.py:265-267 | the blocking put of the sentinel can never go through exactly when the writer crashed and the queue is full |
| `CaptureRuns.CrashCanHang` | python/scripts/kalshi_ws_capture.py:252-266 | from every open state with a crashed writer, enough envelopes make the shutdown hang |
| `CaptureRuns.HangIsReachable` | python/scripts/kalshi_ws_capture.py:178-266 | a run that ends in a hanging shutdown exists for every queue bound |
| `Capture.CaptureRun.Receive` | python/scripts/kalshi_ws_capture.py:249-258 | enqueue, or count a drop when the queue is full |
| `Capture.CaptureRun.TakeItem` | python/scripts/kalshi_ws_capture.py:185-190 | take the oldest item; the sentinel ends the writer |
| `Capture.CaptureRun.CountRow` | python/scripts/kalshi_ws_capture.py:192-199 | count the row, its channel and its ticker if any |
| `Capture.CaptureRun.WriteLine` | python/scripts/kalshi_ws_capture.py:200-215 | roll the shard if needed, then append the line or count an error; a roll that fails is `Break` instead |
| `Capture.CaptureRun.Break` | python/scripts/kalshi_ws_capture.py:178-226 | an uncaught error ends the thread where it is and loses only what it held |
| `Capture.CaptureRun.constructor` | python/scripts/kalshi_ws_capture.py:166-172 | a queue of a million envelopes, shards of 3.5 GB, nothing written |
| `Capture.CaptureRun.Handle` | python/scripts/kalshi_ws_capture.py:191-222 | one envelope from serialisation to flush, with the three places where an error escapes and what was written by then |
| `Capture.CaptureRun.WriterLoop` | python/scripts/kalshi_ws_capture.py:178-226 | after close the loop reaches the sentinel exactly when no error escapes the guarded write, with all accepted envelopes processed; in every case the writes turned out as their rows' fates say and the successful ones are on disk in order |
| `Capture.ShardNamesDiffer` | python/scripts/kalshi_ws_capture.py:173-176 | no two shards of a run share a file name |
| `Capture.ShardNameShape` | python/scripts/kalshi_ws_capture.py:173-176 | the first shard keeps its name; later ones carry their index in at least four digits |
| `Ledger.ReservedInsert` | python/src/eventcontracts/allocation/capital.py:183-200 | a total over the book does not depend on the order it is read in |
| `Ledger.TotalIsSpread` | python/src/eventcontracts/allocation/capital.py:183-200 | the total is the sum over any partition of the book into scopes |
| `Ledger.TotalOverSleeves` | python/src/eventcontracts/allocation/capital.py:183-200 | listing each sleeve once, the sleeve totals add up to the total |
| `Ledger.TotalOverGroups` | python/src/eventcontracts/allocation/capital.py:183-200 | so do the group totals |
| `Ledger.GrantsIffSafe` | python/src/eventcontracts/allocation/capital.py:124-138 | a new reservation is granted exactly when the enlarged book respects every budget |
| `Ledger.WantedIsFiled` | python/src/eventcontracts/allocation/capital.py:116-163 | a reservation holds price times quantity, or the quantity of a market order, and the first group id that is not empty |
| `Ledger.AsksIff` | python/src/eventcontracts/allocation/capital.py:113-118 | only a buy order for a positive amount asks for capital |
| `Ledger.RefusalsExplained` | python/src/eventcontracts/allocation/capital.py:124-138 | a refusal names exactly the budgets that would break, portfolio, sleeve, group, each once |
| `Ledger.ReserveExplained` | python/src/eventcontracts/allocation/capital.py:107-163 | every case of a reserve in terms of the reservation filed for the order |
| `Ledger.ReservationsAreOrders` | python/src/eventcontracts/allocation/capital.py:107-181 | every standing reservation was filed for a buy order of the run, with its amount, sleeve and group |
| `Ledger.EveryRunIsSafe` | python/src/eventcontracts/allocation/capital.py:107-181 | over every run from an empty ledger no total, sleeve or group budget is exceeded and no sleeve without a budget holds capital |
| `Ledger.RunBalances` | python/src/eventcontracts/allocation/capital.py:107-181 | reserved = price times quantity of what was accepted minus what was released, over every run |
| `Ledger.ReplayIsFree` | python/src/eventcontracts/allocation/capital.py:120-122 | replaying a live order id, whatever its contents, charges nothing and returns the standing reservation |
| `Ledger.ReservationStands` | python/src/eventcontracts/allocation/capital.py:107-181 | only its own release or terminal outcome touches a reservation |
| `Ledger.OutcomeUndoesReserve` | python/src/eventcontracts/allocation/capital.py:165-181 | a granted reserve followed by a terminal outcome restores the book |
| `Ledger.PortfolioRiskAllocator.ReservedFor` | python/src/eventcontracts/allocation/capital.py:183-200 | the three reserved totals |
| `Ledger.PortfolioRiskAllocator.Reserve` | python/src/eventcontracts/allocation/capital.py:107-163 | the answer, its refusal reasons in order, and the new book; no grant, no change; a grant holds price times quantity under the order's ids and passes the reservation's own checks |
| `Ledger.PortfolioRiskAllocator.Release` | python/src/eventcontracts/allocation/capital.py:165-166 | removes the reservation and returns it |
| `Ledger.PortfolioRiskAllocator.OnIntentOutcome` | python/src/eventcontracts/allocation/capital.py:168-181 | terminal outcomes release, "accepted" does nothing, unknown names raise |
| `TemporalSplit.SplitFrame` | python/src/eventcontracts/cli/model_train.py:389-433 | bad fractions are refused; with three dates a date split, ties going to the earlier cut, otherwise slices at the floored fractions; always the same rows |
| `TemporalSplit.SplitByDate` | python/src/eventcontracts/cli/model_train.py:406-428 | three non-empty consecutive parts, no date torn, each cut the first of those closest to its target among admissible dates |
| `TemporalSplit.DateSplitUnique` | python/src/eventcontracts/cli/model_train.py:413-421 | these conditions determine the split |
| `TemporalSplit.ClosestCut` | python/src/eventcontracts/cli/model_train.py:413-421 | the first index whose running count is closest to the target |
| `TemporalSplit.RunningTotals` | python/src/eventcontracts/cli/model_train.py:407-411 | the cumulative counts |
| `TemporalSplit.CumulativeIsThrough` | python/src/eventcontracts/cli/model_train.py:405-411 | a running count is the number of rows up to its date |
| `TemporalSplit.FiltersAreSlices` | python/src/eventcontracts/cli/model_train.py:424-428 | on a sorted frame the three date filters are consecutive slices of it |
| `Settlement.KalshiHighBounds` | python/scripts/weather_settlement_reconcile.py:74-88 | the possible highs are exactly those within the bounds that no two-sided NO rules out |
| `Settlement.HighBoundsMeaning` | python/scripts/weather_settlement_reconcile.py:63-88 | the same of the bounds as a function, against the settlement rule |
| `Settlement.TightestIff` | python/scripts/weather_settlement_reconcile.py:74-88 | for any brackets the bounds are the tightest, as the docstring says, exactly when they do not cross and no two-sided NO covers an end |
| `Settlement.NotTightest` | python/scripts/weather_settlement_reconcile.py:74-88 | two brackets for which they are not |
| `Settlement.WholeStrikes` | python/scripts/weather_settlement_reconcile.py:63-71 | in whole degrees: above the floor, below the cap, from floor to cap, and which brackets cannot be judged |
| `Settlement.FractionsAreDropped` | python/scripts/weather_settlement_reconcile.py:63-71 | fractional strikes count as the whole degrees they are truncated to |
| `Settlement.WholeScale` | python/scripts/weather_settlement_reconcile.py:76 | with no brackets the bounds are -999 and 999 |
| `Settlement.BoundsExact` | python/scripts/weather_settlement_reconcile.py:74-88 | without two-sided NOs the bounds are exact |
| `Settlement.PinMismatchIsDisagreement` | python/scripts/weather_settlement_reconcile.py:145-161 | a pinned integer other than a reference up to 999, however low, means some bracket disagrees with it |
| `Settlement.AllowedBeyondScale` | python/scripts/weather_settlement_reconcile.py:74-88 | results that all allow a high off the scale leave the bound on that side at its start |
| `Settlement.PinMismatchOffScale` | python/scripts/weather_settlement_reconcile.py:145-161 | for every reference above 999 a bracket it satisfies yet counted as a pin mismatch |
| `Settlement.PinMismatchIff` | python/scripts/weather_settlement_reconcile.py:145-161 | with every bracket reproduced, a pin mismatch is counted exactly when a high is pinned and the reference exceeds 999 |
| `Settlement.DayReportMeaning` | python/scripts/weather_settlement_reconcile.py:143-161 | a day has no disagreement exactly when every bracket is reproduced, and passes exactly when also not off the scale |
| `Settlement.CompareDay` | python/scripts/weather_settlement_reconcile.py:143-161 | the four counters of a day |
| `Settlement.DayReportCounts` | python/scripts/weather_settlement_reconcile.py:143-161 | each comparable bracket and each contradicted one counts once; when a day is pinned and mismatched |
| `Settlement.FullReportSums` | python/scripts/weather_settlement_reconcile.py:171-174 | the overall counters add up those of the days |
| `Settlement.FullReportMeaning` | python/scripts/weather_settlement_reconcile.py:137-179 | the same over all days |
| `Settlement.Reconcile` | python/scripts/weather_settlement_reconcile.py:137-183 | the verdict is positive exactly when every bracket of every day is reproduced and no pinned day has a reference above 999 |
| `RestPolls.KeyIsTradeId` | python/src/eventcontracts/cli/capture.py:300-303 | on one ticker, with ids, equal keys exactly for equal ids |
| `RestPolls.KeyIsFields` | python/src/eventcontracts/cli/capture.py:304-312 | without ids, equal keys exactly for equal joined fields; exactly for equal fields as soon as one trade has no colon in a field |
| `RestPolls.KeySpelled` | python/src/eventcontracts/cli/capture.py:300-312 | the key written out: ticker and id, or ticker and five fields, each under the first of its names that is filled in |
| `RestPolls.FieldsIdentifiedIff` | python/src/eventcontracts/cli/capture.py:304-312 | among trades without ids, a key identifies the five fields exactly when none of them contains a colon |
| `RestPolls.UnambiguousIff` | python/src/eventcontracts/cli/capture.py:304-312 | joined texts can be taken apart in one way exactly when none contains a colon |
| `RestPolls.ColonSharesKey` | python/src/eventcontracts/cli/capture.py:304-312 | a trade of plain JSON strings that takes the key of a given trade with a colon in a field |
| `RestPolls.ClockTimesCollide` | python/src/eventcontracts/cli/capture.py:304-312 | two trades without ids, one with a clock time, that share a key on every ticker |
| `RestPolls.TickersShareKeyIff` | python/src/eventcontracts/cli/capture.py:300-312 | two different tickers have trades with one key exactly when one ticker continues the other after a colon |
| `RestPolls.KeysSeparateTickers` | python/src/eventcontracts/cli/capture.py:300-312 | trades of different colon-free tickers never share a key |
| `RestPolls.KeyIsTickerAndId` | python/src/eventcontracts/cli/capture.py:300-303 | across tickers, with ids, equal keys exactly for equal ticker and id |
| `RestPolls.KeyCollision` | python/src/eventcontracts/cli/capture.py:300-312 | exactly when a trade with an id and one without share a key, colons or not |
| `RestPolls.CollidingTrades` | python/src/eventcontracts/cli/capture.py:300-312 | two different trades with one key |
| `RestPolls.OnePerKey` | python/src/eventcontracts/cli/capture.py:255-269 | one stored trade for every distinct key |
| `RestPolls.RepeatsAddNothing` | python/src/eventcontracts/cli/capture.py:239-274 | more records with only known keys store nothing more |
| `RestPolls.PollKeys` | python/src/eventcontracts/cli/capture.py:239-269 | the keys of a poll are those its answers carry, whenever it is made |
| `RestPolls.RepeatedPollAddsNothing` | python/src/eventcontracts/cli/capture.py:239-274 | one more poll whose trades all occurred before leaves the stored trades unchanged |
| `RestPolls.SnapshotAt` | python/src/eventcontracts/cli/capture.py:243-254 | the books: in every poll one for each ticker, in order |
| `RestStored.StoredTrades` | python/src/eventcontracts/cli/capture.py:239-269 | the stored trades are exactly the first with their keys, with their own ticker, poll and fields, in polling order |
| `RestStored.EveryKeyIsStored` | python/src/eventcontracts/cli/capture.py:256-269 | whatever trade an answer carries, the first one with its key is stored |
| `RestCapture.Capture.StoreTrades` | python/src/eventcontracts/cli/capture.py:255-269 | the store keeps the first occurrences by key |
| `RestCapture.CaptureRestPolls` | python/src/eventcontracts/cli/capture.py:214-274 | argument errors; the first trade with each key, after the book of its own ticker and poll; one book per poll and ticker; count = polls x tickers + distinct keys |

## Left out

- Floating-point and decimal rounding: all arithmetic is exact; the three-digit rounding of the engine cache is an arbitrary function on keys.
- Monte-Carlo validation, calibration, swing, persistence and threshold reports, and file loading of the tennis script: random or statistical.
- Recursion limits of the interpreter: a legal score or a deep audit chain never overflows here, and an illegal score is taken to raise and be suppressed.
- Discovery of tickers, sessions, reconnects, clocks, the contents of manifests and the 30-second join timeout of the websocket capture; what a run reports if the join times out.
- `Capture.CaptureRun.WriteLine`: a failed write is taken to leave nothing behind in the file, and a line counts as on disk once written, although the handle buffers it until the next flush.
- `Capture.CaptureRun.CountRow`: the three counters change together; an error raised between them is not modelled.
- Hash digests, canonical serialisation, stamp metadata and field checks other than empty ids: opaque values compared by equality.
- `EqualWeightAllocator`, the sleeve registry and audit stamps of reservations: they would only add easy members.
- The order of rows that share a date after sorting, which the source's library leaves open; here the sort is stable.
- REST and websocket clients, pacing between polls, model training and the edge and odds scripts.
