# AATS: verified models of the trading system's hard cores

This project models, in Dafny, the parts of AATS whose correctness is hardest to see by reading, and
proves what they are meant to guarantee. Each core is a module or a small group of modules:

- **Solana wire codec.** `Base58`, `CompactU16`, `WireFormat`, `TxParser`, `TxBuilder` (on `Radix`). A
  grammar of transactions, the parser and the builder as cursor functions, and the source's loops over
  an offset proved equal to them. The parser accepts exactly the byte strings of the grammar.
- **Ed25519 decompression test.** `Ed25519` on `FieldConstants`, `Primality`, `PrimeCertificate` and
  `NumberTheory`. Nothing about the field is assumed: that 2^255 - 19 is prime follows from a checked
  chain of Pocklington certificates, that the code's constant I squares to -1 and that d is not a square
  from powers evaluated digit by digit, and the root extraction from Fermat's little theorem.
- **Walk-forward reputation.** `MinHeap`, `Reputation`, `ReactionHarness`. The cursor-and-heap
  accumulator equals a filter and a mean, decision by decision, and decisions are causal.
- **Triple-loop controller.** `ControllerState` (the state, and a `Cell` view of what it knows about one
  mint), `PositionFsm` (every operation on one mint), `Controller` (operations on the whole book),
  `ControllerRuns` (what each step keeps), `ControllerSafety` (runs), `ControllerScenarios` (runs that show
  where its conditions bite), `ControllerLoops` (the objects, updating their dictionaries in place),
  `Claims` (locks and dedup against a clock).
- **Submit and retry.** `LandRetry` (one call against a network that may land what it reports failed) and
  `IntentRuns` (runs of calls on one venue).
- **Smaller cores.** `Licensing` (purged and embargoed folds), `RealizableExit` (exit haircuts),
  `BlockTimeCache` and `BlockTimePool` (cached resolution, sequential and concurrent), `SimVenue`
  (constant-product fills and the landing race), `RiskConfig` (tighten-only configuration).

Loops and objects of the source are methods and classes here, each proved equal to a specification
function; the theorems are about those functions. Environment answers (RPC, signer, venue, clock,
random draws, exit engine, scorer) are inputs, universally quantified.

## What turned out false, and exactly when it holds

- Parsing what was built gives back the input exactly when every count is below 2^21 and a legacy message
  asks for fewer than 128 signatures (`TxBuilder.ParseOfBuild`); inputs outside that are built and rejected or
  read as the other message kind (`TxBuilder.BuildMisread`, `TxBuilder.MisreadInputs`). The length code reads
  21 bits although it is named for 16 (`CompactU16.ReadWrite`).
- The curve test ignores the sign bit. It agrees with section 5.1.3 of RFC 8032 exactly off the encodings of
  y = 1 and y = -1 with the sign bit set, which it accepts and the RFC rejects (`Ed25519.DiffersFromRfcExactly`).
- A circuit breaker that trips on a mint's own profit event flattens the book in the middle of the tick
  (`aats/controller/__main__.py:421` wires it so). If that mint's exit lands and the engine then scales it
  out, `record_tp_hit` writes the closed record back (`ControllerScenarios.RevivedRun`). That is the only way
  a terminal record stays in the store: it is free of them exactly when no tick since the last startup did
  this (`ControllerSafety.Safety`). Such a record outlives every tick and flatten
  (`ControllerSafety.ResurrectedStays`).
- `claim_entering` is documented to refuse an OPEN mint (`aats/controller/state.py:92`), but opening releases
  the lock, so the claim is granted (`ControllerRuns.OpenMintIsClaimable`, `ControllerScenarios.OpenIsClaimed`).
  A flatten also leaves a closed FSM registered until the next tick, and a mint relaunched before it loses its
  landed fill (`ControllerScenarios.RelaunchRun`). An entry keeps the invariant exactly when the mint has no
  other registered position and no OPEN or CLOSING record (`ControllerRuns.EntryKeepsExactly`); the safety
  theorems take as the environment's duty that SNIPE is offered only mints absent from store and registry.
- One landing per intent id across calls holds, when no recheck misses a landing, exactly when every attempt a call makes
  reports its landing (`IntentRuns.TruthfulExactly`); the last attempt is never rechecked, and a send that
  raises is not either (`IntentRuns.AccurateIsNotTruthful`).
- The kill switch is a field of the process (`aats/controller/__main__.py:364`). It holds exactly until a clear
  or a crash (`ControllerSafety.KilledExactly`), and a controller killed, crashed and started again enters new
  mints (`ControllerScenarios.CrashForgetsKill`).
- A flatten with landing exits empties the store exactly when no record is terminal and every OPEN or CLOSING
  one is registered (`ControllerSafety.FlattenEmpties`). A restart registers nothing for an OPEN record, so a
  flatten before the next tick leaves it (`ControllerScenarios.FlattenAfterRestart`).
- `_licensing_reason` says GO without a license exactly when nothing survives the purge and no fold is
  required (`Licensing.Verdict`).
- An accepted risk-config body replaces the whole configuration, so a body that drops a field forgets its
  limit (`RiskConfig.PartialBodiesWiden`). A limit stays in force and never widens along a run exactly when
  every accepted body carries it (`RiskConfig.NeverWidensExactly`), and the next post cannot set a field wider
  than a bound exactly when the configuration carries the field within it, or the hard limits already forbid
  anything wider (`RiskConfig.BoundedExactly`).

## Model

| member | source | states |
|---|---|---|
| `Base58.DecodeEncode` | aats/execution/solana_wire.py:39-61 | decoding an encoding returns the bytes, for all byte strings, leading zero bytes included |
| `Base58.EncodeDecode` | aats/execution/solana_wire.py:39-61 | encoding a decoding returns the text, for all texts over the alphabet, leading '1's included |
| `Base58.ToBytesIsDigits` | aats/execution/solana_wire.py:51-61 | `to_bytes` at the bit-length-derived width gives the base-256 digits without leading zeros |
| `Base58.EncodeMeaning` | aats/execution/solana_wire.py:39-48 | the text is the base-58 numeral of the big-endian number, with one 1 per leading zero byte |
| `Base58.AlphabetExactly` | aats/execution/solana_wire.py:35-36 | the alphabet is the digits and letters without 0, I, O and l |
| `Base58.B58Encode` | aats/execution/solana_wire.py:39-48 | the divmod loop computes Encode |
| `Base58.B58Decode` | aats/execution/solana_wire.py:51-61 | the accumulation loop computes Decode, and fails exactly on a character outside the alphabet |
| `CompactU16.ReadComplete` | aats/execution/solana_wire.py:69-83 | a valid length encoding followed by anything is read as its value, leaving what follows |
| `CompactU16.ReadSound` | aats/execution/solana_wire.py:69-83 | whatever is read was a valid encoding of one to three bytes |
| `CompactU16.ReadWrite` | aats/execution/solana_wire.py:69-99 | reading back a written length gives it when below 2^21, and overflows otherwise |
| `CompactU16.CanonicalExactly` | aats/execution/solana_wire.py:86-99 | an encoding is the one the writer produces exactly when its last group is nonzero or it is one byte |
| `CompactU16.LenDigit` | aats/execution/solana_wire.py:69-83 | byte i of an encoding carries the i-th seven-bit group of its value, lowest first |
| `CompactU16.WriteBytes` | aats/execution/solana_wire.py:86-99 | byte i written is the i-th seven-bit group, with the continuation bit on all but the last |
| `CompactU16.ReadCompactU16` | aats/execution/solana_wire.py:69-83 | the shifting loop equals Read at any offset, never indexing past the buffer |
| `CompactU16.WriteCompactU16` | aats/execution/solana_wire.py:86-99 | the writing loop equals Write, and refuses negative values |
| `TxParser.ParseComplete` | aats/execution/solana_wire.py:138-250 | every transaction of the grammar parses to its view |
| `TxParser.ParseSound` | aats/execution/solana_wire.py:138-250 | every accepted byte string is a transaction of the grammar with that view |
| `TxParser.ParseExactly` | aats/execution/solana_wire.py:138-250 | accepted with result p if and only if some transaction of the grammar has these bytes and view p |
| `TxParser.LookupFlagExact` | aats/execution/solana_wire.py:130-250 | the lookup flag is false exactly when no table entry is declared and all indices are below the key count; then every program id is the non-empty key at its index |
| `TxParser.ReadKeys` | aats/execution/solana_wire.py:170-177 | the key loop equals its cursor form at every offset |
| `TxParser.ReadInstructions` | aats/execution/solana_wire.py:186-223 | the instruction loop, with the unresolved-index flag, equals its cursor form |
| `TxParser.SkipTables` | aats/execution/solana_wire.py:225-240 | skipping the lookup tables equals its cursor form |
| `TxParser.ParseTransaction` | aats/execution/solana_wire.py:138-250 | the offset-driven parser equals Parse on arbitrary bytes: a result or an error, never an out-of-range read |
| `TxBuilder.ParseOfBuild` | aats/execution/solana_wire.py:268-336 | parsing what was built returns keys, payer, blockhash, version, indices, data, program ids and flag, if and only if the input is well formed |
| `TxBuilder.Misread` | aats/execution/solana_wire.py:268-336 | a built transaction whose counts or signature number overflow never parses to its own view |
| `TxBuilder.BuildMisread` | aats/execution/solana_wire.py:268-336 | every input that builds and is not well formed gives bytes that are rejected or read as the other message kind |
| `TxBuilder.MisreadInputs` | aats/execution/solana_wire.py:268-336 | such inputs: every legacy message with 128 to 255 signatures and every versioned one with 2^21 tables or more, on one key |
| `TxBuilder.BuildAccepts` | aats/execution/solana_wire.py:268-336 | a transaction is built if and only if counts and indices are bytes, keys and blockhash decode to 32 bytes, programs resolve, and a versioned table count is not negative |
| `TxBuilder.BuildLayout` | aats/execution/solana_wire.py:287-296 | the output starts with the signature count, that many zeroed signatures, the version byte if versioned, and the three header counts in order |
| `TxBuilder.BuildBody` | aats/execution/solana_wire.py:298-308 | then the key count, each key at its place and the blockhash |
| `TxBuilder.BuildTables` | aats/execution/solana_wire.py:329-336 | a versioned output ends with the table count and 34 zero bytes per table |
| `TxBuilder.BuildEnd` | aats/execution/solana_wire.py:329-336 | nothing else follows the instructions |
| `TxBuilder.ProgramIndexExactly` | aats/execution/solana_wire.py:311-323 | the program index is the override, else the first key equal to the program id, and must be a byte |
| `TxBuilder.BuildVersionedTx` | aats/execution/solana_wire.py:268-336 | the appending builder equals Build, error cases included |
| `NumberTheory.Fermat` | aats/execution/ed25519_field.py:34-36 | a^(p-1) is 1 modulo a prime p not dividing a |
| `Primality.Pocklington` | aats/execution/ed25519_field.py:29-29 | the certificate step: a witness of order divisible by r fixes every prime divisor modulo r |
| `Primality.PrimeByLargeFactor` | aats/execution/ed25519_field.py:29-29 | a number certified for a factor above its square root is prime |
| `FieldConstants.QIsPrime` | aats/execution/ed25519_field.py:29-29 | 2^255 - 19 is prime |
| `FieldConstants.ISquared` | aats/execution/ed25519_field.py:31-31 | the code's I squares to -1 |
| `FieldConstants.DIsTheCurveConstant` | aats/execution/ed25519_field.py:30-30 | the code's d is the residue of -121665/121666 |
| `FieldConstants.DTimesSquareNotMinusOne` | aats/execution/ed25519_field.py:30-30 | d times a square is never -1 |
| `Ed25519.InverseCorrect` | aats/execution/ed25519_field.py:34-36 | the power form is the inverse of every nonzero residue |
| `Ed25519.SquareRootSound` | aats/execution/ed25519_field.py:39-47 | a returned root squares to its argument |
| `Ed25519.SquareRootComplete` | aats/execution/ed25519_field.py:39-47 | every square has its root found |
| `Ed25519.DenominatorNonzero` | aats/execution/ed25519_field.py:39-47 | the denominator d*y^2 + 1 is never zero |
| `Ed25519.XRecoverDecides` | aats/execution/ed25519_field.py:39-47 | a returned x lies on the curve with y, and None is returned exactly when no x does |
| `Ed25519.IsOnCurveDecides` | aats/execution/ed25519_field.py:50-63 | on every 32-byte string the test is true exactly when y is below q and some x completes the point |
| `Ed25519.LittleEndianExactly` | aats/execution/ed25519_field.py:57-61 | 32 bytes read as v exactly when byte i is the i-th base-256 digit of v, lowest first |
| `Ed25519.EncodedPoint` | aats/execution/ed25519_field.py:50-63 | on the bytes of y plus the sign bit, y below q: true exactly when some x completes y; the RFC also asks for the parity of x |
| `Ed25519.DiffersFromRfcExactly` | aats/execution/ed25519_field.py:50-63 | agrees with section 5.1.3 of RFC 8032 if and only if the encoding is not y = 1 or y = -1 with the sign bit set; those it accepts |
| `MinHeap.Push` | aats/backtest/reaction_harness.py:956-968 | sifting up keeps the heap order and adds exactly the entry |
| `MinHeap.Pop` | aats/backtest/reaction_harness.py:973-974 | the popped entry is least, and exactly it is removed |
| `Reputation.ReferenceIsSourceReputation` | aats/backtest/reaction_harness.py:656-706 | the filter-and-mean reference passes the leak audit and equals `source_reputation` |
| `Reputation.ReferenceIsMean` | aats/backtest/reaction_harness.py:690-706 | the number of priors is the number of same-source outcomes anchored before and resolved by the decision; the score times that number is the sum of their PnL per SOL |
| `Reputation.AuditExactly` | aats/backtest/reaction_harness.py:656-687 | the leak audit passes exactly when every input is strictly prior and observed, and otherwise names the first fault |
| `Reputation.Admit` | aats/backtest/reaction_harness.py:953-971 | the per-source index admits exactly the outcomes anchored before the decision, logging each push once |
| `Reputation.Release` | aats/backtest/reaction_harness.py:972-977 | the heap releases into the sums exactly the outcomes resolved by the decision, logging each pop once |
| `Reputation.WalkForward` | aats/backtest/reaction_harness.py:910-986 | every answer equals the reference and the audit never fires; an outcome is pushed exactly once if it is strictly prior to the last decision of its source, popped exactly once if also observed by then, and otherwise neither; the tick counts the pushes |
| `ReactionHarness.OnChainOrderSorts` | aats/backtest/reaction_harness.py:1040-1048 | the sort orders by the on-chain key and permutes |
| `ReactionHarness.OrderSpelledOut` | aats/backtest/reaction_harness.py:1040-1048 | by block time, then slot, then mint |
| `ReactionHarness.DecisionExactly` | aats/backtest/reaction_harness.py:748-803 | with too few priors the neutral answer; otherwise selected exactly when the summed PnL reaches the threshold times the number of priors |
| `ReactionHarness.Causality` | aats/backtest/reaction_harness.py:1040-1097 | changing outcomes not observed by time t changes no decision anchored at or before t |
| `ReactionHarness.BuildReactionOutcomes` | aats/backtest/reaction_harness.py:1020-1114 | each outcome carries the reference decision, the statistics add up and each counts its decisions |
| `ReactionHarness.TallyCounts` | aats/backtest/reaction_harness.py:1060-1097 | each counter is the number of decisions of its kind |
| `ReactionHarness.ResolvedInOrder` | aats/backtest/reaction_harness.py:1020-1039 | records that resolve are kept in order, whatever lies between them |
| `ControllerState.SumMonotone` | aats/controller/state.py:713-715 | less exposure per mint over fewer mints sums to less |
| `ControllerState.AggregateSave` | aats/controller/state.py:436-438 | saving a record adds at most its own exposure, and exactly that for a new mint |
| `PositionFsm.FillKeeps` | aats/controller/fast_loop.py:496-560 | a fill keeps the invariant; an ENTERING record becomes the open one, or disappears with its lock and cools the mint down |
| `PositionFsm.FlattenKeeps` | aats/controller/fast_loop.py:102-164 | flattening a mint keeps the invariant and its exposure, and ends CLOSED or CLOSING with the exit |
| `PositionFsm.FlattenDeletes` | aats/controller/fast_loop.py:102-164 | a landing exit deletes the record exactly when it is ENTERING, or OPEN or CLOSING and registered |
| `PositionFsm.FlattenDoes` | aats/controller/fast_loop.py:102-164 | the whole cell a flatten leaves: vetoed and deleted, closed, left CLOSING, or untouched |
| `PositionFsm.SyncKeeps` | aats/controller/fast_loop.py:566-591 | registry and store agree afterwards; an exit state appears exactly for a newly registered OPEN record and goes with a stale one |
| `PositionFsm.LegalExactly` | aats/contracts/positions.py:51-59 | a history of saves is legal exactly when it starts ENTERING and takes only the listed edges, updates in place, or a new life after the end |
| `PositionFsm.TpHitKeeps` | aats/controller/fsm.py:232-236 | `record_tp_hit` keeps coherence, and leaves a terminal record exactly when the FSM was terminal |
| `PositionFsm.ContinuousKeeps` | aats/controller/reconcile.py:188-224 | after the per-tick reconcile the mint's entry is not older than the limit |
| `PositionFsm.StartupSettles` | aats/controller/reconcile.py:99-186 | after a restart a record is OPEN or CLOSING |
| `PositionFsm.StartupKeepsRecord` | aats/controller/reconcile.py:99-186 | a restart keeps a record exactly when its entry landed, or it is OPEN and not gone, or CLOSING without a landed exit |
| `PositionFsm.StartupOpenIsKnown` | aats/controller/reconcile.py:115-162 | an OPEN record unknown to the venue survives exactly when the venue omitted a mint whose fill it reported |
| `PositionFsm.StartupIdempotent` | aats/controller/reconcile.py:99-186 | a second startup changes nothing, exactly when that omission is absent |
| `ControllerRuns.SnipeKeeps` | aats/controller/snipe_loop.py:321-509 | on a fresh mint with fallback sizing the invariant and the aggregate limit are kept |
| `ControllerRuns.SnipeExact` | aats/controller/snipe_loop.py:223-509 | SNIPE submits exactly when nothing halts it, signal, gates, size, dedup and claim all pass; the fallback size is the least of minimum size, per-trade cap and remaining headroom; the record stands under its own 30-second lock, and a skipped event leaves no claim and no record |
| `ControllerRuns.SnipeAnswers` | aats/controller/snipe_loop.py:223-509 | the answer is the first failing check, in the order they are made, with the limits written out |
| `ControllerRuns.SnipeTraces` | aats/controller/snipe_loop.py:223-509 | when the intent id is marked, a write-ahead recorded and an expired cooldown forgotten |
| `ControllerRuns.EntryKeepsExactly` | aats/controller/snipe_loop.py:350-456 | an allowed entry keeps the invariant if and only if no other position is registered for the mint and no OPEN or CLOSING record is overwritten |
| `ControllerRuns.OpenMintIsClaimable` | aats/controller/state.py:417-430 | a mint that is stored and not ENTERING holds no lock, so a claim on it succeeds at any time |
| `ControllerScenarios.OpenIsClaimed` | aats/controller/fsm.py:143-164 | from the initial state: after a startup, a launch and a landed fill the OPEN mint can be claimed again |
| `ControllerScenarios.RelaunchRun` | aats/controller/fast_loop.py:145-164 | from the initial state: opened, flattened and relaunched before a tick, the second entry is written and its landed fill is refused |
| `ControllerRuns.EvaluateKeeps` | aats/controller/fast_loop.py:316-431 | evaluating a mint keeps the invariant and adds no exposure even if the breaker flattens in between; no terminal record is left exactly when the evaluation does not resurrect one |
| `ControllerRuns.EvaluateDoes` | aats/controller/fast_loop.py:316-431 | without a trip: no price or a full exit closes, forgets and cools the mint; otherwise it stays open, marked, one rung further on a scale-out; other mints are untouched |
| `ControllerRuns.BreakerExactly` | aats/controller/fast_loop.py:390-412 | only a priced OPEN position with tokens changes the breaker, to the answer it gets; kill flag, start flag and dedup table are untouched |
| `ControllerRuns.EvaluateAllLive` | aats/controller/fast_loop.py:316-431 | a pass leaves the store free of terminal records if and only if none of its evaluations resurrects one in the state it meets |
| `ControllerRuns.TickKeeps` | aats/controller/loops.py:147-165 | a tick keeps the invariant, adds no exposure, leaves no entry older than the limit, and leaves no terminal record exactly when no evaluation resurrects one |
| `ControllerSafety.Safety` | aats/controller/loops.py:47-171 | in every reachable state registry and store agree, only entries hold locks, every saved state followed a legal edge and exposure is within the limit; no terminal record is stored if and only if no tick since the last startup wrote one back |
| `ControllerSafety.StepLive` | aats/controller/reconcile.py:99-186 | per step: a startup clears every terminal record, any other step keeps them, and only a reviving tick adds one |
| `ControllerScenarios.RevivedRun` | aats/controller/fast_loop.py:382-431 | from the initial state: a tick that trips on an opened mint, whose exit lands and which is then scaled out, leaves the closed record in the store |
| `ControllerSafety.KillSafety` | aats/controller/loops.py:114-171 | once killed, no run without a clear or a crash adds a mint to the store or raises exposure |
| `ControllerSafety.KilledExactly` | aats/controller/control_api.py:45-68 | per step: the kill flag is set by a kill, dropped by a clear or a crash, and untouched by everything else |
| `ControllerSafety.StartedExactly` | aats/controller/loops.py:104-112 | per step: only a startup starts the controller and only a crash stops it |
| `ControllerScenarios.CrashForgetsKill` | aats/controller/control_api.py:53-54 | from the initial state: killed, crashed and started again, the controller enters a new mint without a clear |
| `ControllerSafety.FlattenEmpties` | aats/controller/fast_loop.py:166-170 | with landing exits a flatten empties the store exactly when no record is terminal and every OPEN or CLOSING one is registered; a second call submits nothing |
| `ControllerSafety.KillEmpties` | aats/control_plane/server.py:934-955 | a kill empties the store under the same condition as a flatten |
| `ControllerSafety.SubmissionsExactly` | aats/controller/fast_loop.py:102-164 | a flatten submits for exactly the OPEN and CLOSING records |
| `ControllerScenarios.FlattenAfterRestart` | aats/controller/fast_loop.py:153-164 | from the initial state: after a restart a flatten submits and lands the exit of an OPEN record and leaves the record stored |
| `ControllerSafety.ResurrectedStays` | aats/controller/fast_loop.py:133-134 | a terminal record in the store survives every flatten and tick unchanged |
| `ControllerSafety.RestartSettles` | aats/controller/reconcile.py:99-186 | the three startup results at the level of the whole store |
| `ControllerLoops.Engine.ClaimEntering` | aats/controller/state.py:417-430 | purge-then-claim equals Claim, with its two clock readings |
| `ControllerLoops.Engine.MarkIntentSeen` | aats/controller/state.py:679-686 | equals MarkSeen, with its two clock readings |
| `ControllerLoops.Engine.AggregateOpen` | aats/controller/state.py:713-715 | the loop sums every stored exposure once, in any order |
| `ControllerLoops.Engine.ToOpen` | aats/controller/fsm.py:143-164 | legal only from ENTERING; saves the open record, then releases the lock |
| `ControllerLoops.Engine.ToVetoed` | aats/controller/fsm.py:166-180 | legal only from ENTERING; saves, releases, deletes |
| `ControllerLoops.Engine.ToClosing` | aats/controller/fsm.py:182-188 | legal only from OPEN; saves |
| `ControllerLoops.Engine.ToClosed` | aats/controller/fsm.py:190-217 | legal only from CLOSING; saves, then deletes |
| `ControllerLoops.Engine.ReconcileFill` | aats/controller/fast_loop.py:496-560 | equals FillCell on its mint and touches no other |
| `ControllerLoops.Engine.FullExit` | aats/controller/fast_loop.py:593-645 | equals ExitCell on its mint and touches no other |
| `ControllerLoops.Engine.FlattenPosition` | aats/controller/fast_loop.py:102-164 | equals FlattenCell on its mint, and submits exactly for OPEN and CLOSING |
| `ControllerLoops.Engine.EmergencyFlattenAll` | aats/controller/fast_loop.py:166-170 | the loop over a snapshot flattens the whole book whatever the order: no snapshot entry is stale when reached |
| `ControllerLoops.Engine.FlattenOne` | aats/controller/fast_loop.py:172-184 | exits one mint and leaves all others |
| `ControllerLoops.Engine.SyncRegistry` | aats/controller/fast_loop.py:566-591 | the two loops make registry and store agree on every mint |
| `ControllerLoops.Engine.EvaluateMint` | aats/controller/fast_loop.py:316-431 | equals Evaluate, the breaker's flatten included |
| `ControllerLoops.Engine.Tick` | aats/controller/loops.py:147-165 | sync, one evaluation per registered mint, then timeouts; raises and changes nothing before startup |
| `ControllerLoops.Engine.ContinuousReconcileTick` | aats/controller/reconcile.py:188-224 | the loop times out exactly the stale entries |
| `ControllerLoops.Engine.Startup` | aats/controller/reconcile.py:99-186 | the loop reconciles every stored mint independently of order |
| `ControllerLoops.Engine.ProcessEvent` | aats/controller/snipe_loop.py:223-509 | every check, claim, abort and write of the entry path equals Snipe |
| `ControllerLoops.Engine.OnLaunchEvent` | aats/controller/loops.py:114-145 | refused before startup, no entry while killed, otherwise Snipe |
| `ControllerLoops.Engine.Kill` | aats/control_plane/server.py:934-955 | sets the kill flag, then flattens the book |
| `Claims.ClaimExcludes` | aats/controller/state.py:417-434 | inside the window of an unreleased successful claim every claim of the mint fails |
| `Claims.ClaimFailsExactly` | aats/controller/state.py:417-434 | a claim fails if and only if such a claim exists |
| `Claims.MarkedOnce` | aats/controller/state.py:679-686 | two true answers for one id are at least a time to live apart |
| `LandRetry.SendDiscipline` | aats/execution/jito_jupiter_venue.py:879-1030 | at most three sends, each of exactly the bytes last simulated successfully; in DRY_RUN none |
| `LandRetry.SendsExactly` | aats/execution/jito_jupiter_venue.py:243-257 | something is sent if and only if quote and rounds succeed and, on devnet, its RPC gate is open, elsewhere live submit is on and DRY_RUN is off; otherwise the call says why not |
| `LandRetry.ReasonExactly` | aats/execution/jito_jupiter_venue.py:263-530 | the reason of every answer: filled, the failed quote, the first round not signed or reverted, or what the last attempt left |
| `LandRetry.SendSpelledOut` | aats/execution/jito_jupiter_venue.py:748-878 | when a send confirms by itself and when it is retried, on the raw reply |
| `LandRetry.LandCarries` | aats/execution/jito_jupiter_venue.py:931-1030 | a landed result carries signature and slot of the attempt that made it |
| `LandRetry.AtMostOneLanding` | aats/execution/jito_jupiter_venue.py:931-1030 | with a status endpoint, when no recheck the call makes misses a landing, at most one of its transactions lands |
| `LandRetry.LandingsExactly` | aats/execution/jito_jupiter_venue.py:931-1030 | in every environment the landings of a call are exactly the landing attempts among those it makes |
| `LandRetry.GuardIsNeeded` | aats/execution/jito_jupiter_venue.py:1154-1195 | without the endpoint, or with a wrong answer, two transactions of one call can land |
| `LandRetry.LandingIsAFill` | aats/execution/jito_jupiter_venue.py:879-1241 | when no recheck the call makes misses a landing, a call that lands returns a landed fill if and only if every attempt it makes reports its landing |
| `LandRetry.FillExactly` | aats/execution/jito_jupiter_venue.py:931-1241 | a call returns a landed fill if and only if it sends and one of the attempts it makes is confirmed by its own send or found by the recheck after it |
| `LandRetry.DevnetFillIsConfirmed` | aats/execution/jito_jupiter_venue.py:748-838 | on devnet the attempt that makes the fill was itself confirmed, or the recheck consulted after it found its bytes; all attempts before it went on |
| `LandRetry.Rebuild` | aats/execution/jito_jupiter_venue.py:946-989 | recheck, rebuild, re-sign and re-simulate: the call ends or the new bytes go out next |
| `LandRetry.LandWithRetry` | aats/execution/jito_jupiter_venue.py:879-1030 | the attempt loop of entry and exit equals Land |
| `IntentRuns.Venue.Submit` | aats/execution/jito_jupiter_venue.py:263-530 | a call equals Respond, and the id is remembered exactly when the fill landed |
| `IntentRuns.OneFillPerIntent` | aats/execution/jito_jupiter_venue.py:284-295 | after a landed fill every later call with the id is refused and sends nothing |
| `IntentRuns.OneLandingPerIntent` | aats/execution/jito_jupiter_venue.py:376-382 | when no recheck misses a landing and every made attempt reports its own, at most one transaction per id lands over any run |
| `IntentRuns.UnreportedLandingRepeats` | aats/execution/jito_jupiter_venue.py:376-382 | repeating a call doubles its landings exactly when its fill is not landed |
| `IntentRuns.RepeatedOnce` | aats/execution/jito_jupiter_venue.py:284-382 | a repeated request lands at most once if and only if it lands at most once alone, and then only with a landed fill |
| `IntentRuns.TruthfulExactly` | aats/execution/jito_jupiter_venue.py:284-382 | when no recheck misses a landing, that holds if and only if every attempt the call makes reports its landing |
| `IntentRuns.AccurateIsNotTruthful` | aats/execution/jito_jupiter_venue.py:879-1030 | two calls with accurate rechecks that land twice when repeated: one lands on its unchecked third attempt, one on a first send that raises |
| `Licensing.OrderUpToOrdered` | aats/backtest/licensing.py:145-145 | the order is by event time then index, and lists each index once |
| `Licensing.Partition` | aats/backtest/licensing.py:151-161 | the chunks in order are the sorted corpus, and sizes differ by at most one |
| `Licensing.FoldExact` | aats/backtest/licensing.py:165-192 | a fold scores exactly the members of its chunk outside the embargo whose label ends in it; kept, purged and embargoed add up |
| `Licensing.FoldFrame` | aats/backtest/licensing.py:151-192 | a fold starts and ends at the earliest and latest time of its chunk and keeps members in order |
| `Licensing.FoldCounts` | aats/backtest/licensing.py:165-192 | the embargoed are the members in the gap, the purged the other members whose label ends late |
| `Licensing.EmbargoExactly` | aats/backtest/licensing.py:146-149 | the embargo given, never negative, or by default the rounded-down fraction of the time span |
| `Licensing.Decoupled` | aats/backtest/licensing.py:165-192 | a label kept in an earlier fold ends more than the embargo before any decision kept later |
| `Licensing.PooledDistinct` | aats/backtest/licensing.py:312-317 | no decision is pooled twice |
| `Licensing.PooledExactly` | aats/backtest/licensing.py:312-317 | the pool is exactly what the folds keep |
| `Licensing.CountsExactly` | aats/backtest/licensing.py:312-345 | the counters count the folds that keep something and those with a positive delta |
| `Licensing.CautionShrinks` | aats/backtest/licensing.py:165-192 | a larger embargo and later label ends keep a subset of every fold |
| `Licensing.PurgeHolds` | aats/backtest/licensing.py:198-214 | the purge assertion never fires on built folds |
| `Licensing.BuildFolds` | aats/backtest/licensing.py:113-195 | the loops build exactly these folds, and fail exactly on misaligned input or no fold |
| `Licensing.Verdict` | aats/backtest/licensing.py:312-402 | the verdict, the counts, and when the reason says GO exactly when the license is given |
| `Licensing.WalkForwardLicensing` | aats/backtest/licensing.py:277-377 | errors, distinct pool, and GO in the reason exactly with the license when a fold is required |
| `Licensing.AllPurged` | aats/backtest/licensing.py:174-178 | when all labels end after the last event the pool is empty, for every fold count |
| `RealizableExit.Conservative` | aats/backtest/realizable_exit.py:332-421 | on nonnegative proceeds neither clamp acts, gross never exceeds spot, and sellable proceeds keep the uncapped share |
| `RealizableExit.UnsellableKeepsResidual` | aats/backtest/realizable_exit.py:280-385 | never sellable: the kept share is the residual in basis points |
| `RealizableExit.SellableSlips` | aats/backtest/realizable_exit.py:264-385 | sellable: capped linear impact of the USD notional at the thinnest sellable book |
| `RealizableExit.ModelSwitch` | aats/backtest/realizable_exit.py:388-421 | spot passes through, realizable deducts, any other model is an error |
| `RealizableExit.SlippageMonotone` | aats/backtest/realizable_exit.py:264-277 | slippage grows with the amount and shrinks with liquidity |
| `RealizableExit.OrderIrrelevant` | aats/backtest/realizable_exit.py:280-385 | the adjustment is invariant under permuting the marks |
| `RealizableExit.DeriveSolUsd` | aats/backtest/realizable_exit.py:289-306 | the loop collects the usable ratios and takes their median, else the fallback |
| `RealizableExit.MedianExactly` | aats/backtest/realizable_exit.py:280-286 | the middle of any ascending arrangement, or halfway between the two middle values |
| `RealizableExit.RateAgreed` | aats/backtest/realizable_exit.py:289-306 | the rate all fully priced marks agree on, else the fallback |
| `RealizableExit.RateCancels` | aats/backtest/reaction_harness.py:415-435 | with the curve proxy the slippage is min(cap, coeff*notional/(2*vsol)) at the thinnest usable reserve, whatever the rate |
| `BlockTimeCache.Cache.Put` | aats/backtest/block_time_cache.py:137-141 | stores the value and keeps the dirty flag truthful |
| `BlockTimeCache.Cache.Flush` | aats/backtest/block_time_cache.py:143-161 | afterwards the file holds the memo |
| `BlockTimeCache.ResolveWithBackoff` | aats/backtest/block_time_cache.py:221-245 | the answer, the exact number of inner calls and the exact sleeps |
| `BlockTimeCache.ResolveAll` | aats/backtest/block_time_cache.py:248-303 | the sequential loop returns exactly what resolves and adds exactly that to the cache |
| `BlockTimeCache.AnswerIsTrue` | aats/backtest/block_time_cache.py:184-190 | an answer is the true value |
| `BlockTimeCache.CallsExactly` | aats/backtest/block_time_cache.py:221-245 | calls go up to and including the first that is not throttled, or to the limit; the answer is that call's |
| `BlockTimeCache.DelayDoubles` | aats/backtest/block_time_cache.py:221-245 | delays start at the base and double up to the cap |
| `BlockTimeCache.ResolvedIsTrue` | aats/backtest/block_time_cache.py:248-303 | the returned map holds true values of requested signatures only |
| `BlockTimeCache.ThrottlesDoNotMatter` | aats/backtest/block_time_cache.py:237-245 | one unthrottled call within the limit is enough for the true answer |
| `BlockTimePool.ScheduleDoesNotMatter` | aats/backtest/block_time_cache.py:275-303 | for every interleaving the finished pool returns the sequential map and leaves the sequential cache |
| `BlockTimePool.ThrottlesAndSchedulesDoNotMatter` | aats/backtest/block_time_cache.py:237-303 | two resolvers with the same true answers and different throttles, each answering in time: the pool under one, on any schedule, returns and caches what the sequential loop under the other does |
| `BlockTimePool.EveryMoment` | aats/backtest/block_time_cache.py:184-245 | at every moment the cache is true, cached signatures cost no call, others at most max_retries + 1 |
| `BlockTimePool.WarmRunIsFree` | aats/backtest/block_time_cache.py:184-190 | a warm second run makes no call for a resolved signature and returns the same value |
| `BlockTimePool.TurnsFinish` | aats/backtest/block_time_cache.py:237-245 | every worker finishes within 2*max_retries + 3 of its own turns |
| `SimVenue.TokensOutIsCeiling` | aats/contracts/venue.py:387-422 | tokens out is ceil(tok*in/(sol+in)) on the shifted reserve, between one and the pool |
| `SimVenue.TokensOutMonotone` | aats/contracts/venue.py:387-422 | more input buys no less, more buyers ahead leave no more |
| `SimVenue.SlippageBound` | aats/contracts/venue.py:411-422 | reported slippage is at most floor(10000*in/sol) |
| `SimVenue.SlippageExactly` | aats/contracts/venue.py:411-422 | reported slippage is the excess of the input over the tokens' worth at spot, in whole basis points rounded down |
| `SimVenue.AheadExactly` | aats/contracts/venue.py:424-445 | the number ahead is the number of rivals with a smaller delay, or the same delay and a higher tip |
| `SimVenue.FloorDivExactly` | aats/contracts/venue.py:387-410 | floor division rounds toward minus infinity for either sign |
| `SimVenue.AttemptLand` | aats/contracts/venue.py:424-445 | the race counts exactly the rivals that beat us, and lands exactly within the slot limit |
| `SimVenue.Execute` | aats/contracts/venue.py:453-502 | a landed fill keeps the slippage limit and lies between the all-ahead and none-ahead amounts |
| `RiskConfig.Validate` | aats/control_plane/server.py:270-333 | reports exactly the checked fields present in both that widen |
| `RiskConfig.ControlPlane.PostRiskConfig` | aats/control_plane/server.py:878-928 | accepted bodies replace the configuration, refused ones change nothing |
| `RiskConfig.NeverWidens` | aats/control_plane/server.py:888-928 | a limit carried by every accepted body of a run never widens |
| `RiskConfig.NeverWidensExactly` | aats/control_plane/server.py:878-928 | a limit is in force and not wider than at the start at every moment of a run if and only if every accepted body carries it |
| `RiskConfig.BoundedExactly` | aats/control_plane/server.py:270-333 | the next accepted post cannot set a field wider than a bound if and only if the configuration carries the field within it, for every bound the hard limits do not enforce |
| `RiskConfig.CompleteBodiesNeverWiden` | aats/control_plane/server.py:270-333 | when the accepted bodies are complete no limit widens between any two moments |
| `RiskConfig.CheckedExactly` | aats/control_plane/server.py:270-333 | every field but the haircut is compared |
| `RiskConfig.NothingLoosened` | aats/control_plane/server.py:270-333 | field by field: caps, slippage, tip, Kelly and loss limit have not risen, the snipe threshold has not fallen |
| `RiskConfig.PartialBodiesWiden` | aats/control_plane/server.py:888-928 | two partial bodies bring any field to any value within the hard limits |
| `RiskConfig.LimitsHold` | aats/contracts/risk.py:85-119 | the hard limits hold in every configuration reached |

## Left out

- RPC, sockets, Redis, FastAPI routing, SSE, the command line and file formats: I/O; their answers are inputs.
- GATE-A and GATE-B statistics and the cluster bootstrap: the fold scorer is an arbitrary function.
- ExitEngine, CircuitBreaker, price feed, sell simulation, signer enforcer, survivor and regime models: arbitrary decisions of the environment.
- The Layer-2 stop enforcer and heartbeats of `tick`, enrichment and regime wiring: thin dispatch, modelled as not wired.
- SHA-256 intent ids: kept as the triple they hash, so collisions do not occur in the model.
- The sizing engine: admitted as an input of a launch event; the aggregate limit is proved for the fallback sizing only.
- Pydantic field checks, candidate recording, cost-stack construction, price strings: easy members; whether an entry intent validates is an input.
- `PositionFSM` objects: the registry maps a mint to the position its FSM holds, since no other object keeps an FSM between steps.
- The Redis store: only the in-memory one; a crash keeps the store and loses the registry.
- Concurrent `BlockTimeCache.flush`: flushed only after the pool closes, as `resolve_block_times` does.
- Decimal's 28-digit rounding and floats (thresholds, prices, slippage fractions): reals.
- Bit operations of the codec: arithmetic on powers of two.
- `sorted` and `heapq`: written out, the sort as stable insertion and the heap as the sift loops.
- Texts in a risk-config body that do not parse as numbers, and fields neither compared nor limited.
- `LandRetry.Land`: the quote, freshness and minimum-output steps are one answer, and the text after `devnet_confirm_failed:` is not kept.
- `Licensing.LicensingReason`: which causes are listed, not the sentence with its numbers; per-fold score records are not kept.
- `walk_position`, corpus parsing, the entry-latency haircut and feature assembly of the reaction harness: they decide what a resolved outcome is, not how decisions use it.
