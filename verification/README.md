# Verified models of the ANEMOS near-memory system

Dafny models of the parts of this repository that are hardest to get right by reading, with proofs over all inputs,
all runs and all configuration parameters.

- **binary16 arithmetic** (`Powers`, `Binary16`, `Rounding`, `Half*.dfy`). The software half-precision type:
  `+ - * /`, `fma`, `sqrt`, `fmod`, `remainder`, `remquo` and the conversions from and to double. Magnitudes are counted
  in units of 2^-24, so every finite half is an integer; correct rounding is a relation between an exact real value and
  a word, proved unique. One lemma on sticky shifts over unbounded integers carries all operators. Words are natural
  numbers below 2^16 or 2^32, and wrap-around is written out where the program has it (the quotient counter of `mod`).
- **DRAM timing** (`DramSpec`, `DramHistory`, `DramLegal`, `DramState`, `DramWindows`, `DramSeparation`, `DramTrace`,
  `DramTree`, `DramRun`, `DramExact`, `RowTable`). Every node of the tree keeps an incremental `next` table and short
  `prev` queues; their meaning is a constraint over the whole history of issued commands. `DramTree.Dram` is the tree
  itself, updated in place, and its `check` is proved to decide that constraint. `DramSeparation` says what the
  constraint is without the tables: how far apart every two commands of a run are, on the data bus, in the banks and
  around refresh and power states. The two specifications DDR4 and DDR4_AB are compared as tables, over all legal runs
  and over those that decode produces. `DramTrace` is what a run of commands implies for rows and power states.
  `DramRun` puts decode, check and update together: whatever is asked of a channel, cycle by cycle, its commands meet
  every timing constraint, every access finds its row open and every refresh its rank closed; and every list of reads
  and writes is served. `RowTable` is the controller's own table of open rows beside it.
- **Memory controller** (`Meter`, `ControllerQueues`, `ControllerSpec`, `ControllerRows`, `Controller`, `ControllerRun`,
  `ControllerOrder`, `ControllerCoherence`). `enqueue`, `enqueue_AB`, `tick` and `tick_AB` as methods of one class, proved against a function of
  the state and of arbitrary answers of the scheduler, the DRAM and the row policy. Conservation of requests and the
  service accounting of a DRAM node are invariants of every run, and every pending read is reported in time. Which
  request a cycle serves is stated on the queues before and after it: refreshes go before reads and writes, and their
  queue empties.
- **Controller and channel** (`MemoryRun`). The two together, each cycle's answers taken from the tree: every run of
  requests and cycles issues a legal run of commands and keeps all invariants of both.
- **Near-memory core** (`Pim*.dfy`). The decoder's OR-merged shift registers, the enable-gated floating-point pipelines
  and the register files, cycle by cycle, against a one-instruction-at-a-time interpreter and the fields of the
  instructions, for every number of multiplier and adder stages; the hardware loop, NOPs, EXIT and the program counter;
  the serial-to-parallel interface.
  `PimHardware` and the classes in `PimSequencer` and `PimInterface` are the clocked processes. A signal written in a
  cycle is read in the next one, so each cycle is computed from the state before the edge. `PimRun` clocks the assembled
  core through programs from reset on.
- **Cache** (`Cache`, `CacheRun`). One level: lookup, MSHR merging, LRU eviction, write-back, and its runs.
- **Pipeline viewer** (`ReorderBuffer`). The bounded reorder buffer of the O3 viewer.

Where the code and its intention part, the model follows the code, and the condition under which they agree is proved
exact:

- A MAD with a bank operand and SRC1 in GRF_B drives the read address of GRF_A
  (`ANEMOS/src/instr_decoder.cpp:974-978`), so register 0 of GRF_B is read. `PimProgram.MeetsIsaExactly`: every run of
  an instruction meets the instruction set exactly outside that family.
- A JUMP or NOP count of 0 wraps around (`PimSequencer.CountIsExact`, `NopStalls`). The program counter has eight bits, so
  a jump further back than the counter may leave the instruction memory or come around to it again
  (`PcStaysInside`, `AroundTheCounter`, `StaysInsideExactly`).
- The auto-precharge upgrade is meant for the last request to an open row (`ramulator_files/src/Controller.h:732`), but
  looks at two of the three data queues at most, and counts one queued request as the activated one being served
  (`ControllerRows.UpgradeAndLast`, `UpgradedTooEarly`; `ControllerRun.EarlyClose` drives a new controller there).
- The shortcut of `enqueue` for reads of queued writes is called necessary for coherence
  (`ramulator_files/src/Controller.h:322-329`), but looks at `writeq` only. Reads stay behind the writes that they should
  see exactly as long as none is queued while a write of its address has been activated
  (`ControllerCoherence.ReceivedExactly`, `OrderOfRuns`; `Overtakes` drives a new controller there).
- The cache replaces the line hit or filled longest ago; a request merged into an outstanding miss does not move its
  line (`ramulator_files/src/Cache.cpp:150-158`). So the sets stay in the order of their last requests, and the victim
  is the line asked for longest ago, exactly as long as no request is merged into a line that is not the last of its
  set (`Cache.MergeAndOrder`, `SentAndOrder`, `CacheRun.OrderOfRuns`; `CacheRun.MergedRun` fails).
- The row table of the all-bank standards is meant to have an entry for every rank, but files rows under the part of the
  address above it (`ramulator_files/src/Scheduler.h:340-346`). Its assertions hold in every run exactly if the channel
  has one rank (`RowTable.OneRankExactly`, `TwoRanksFail`).
- DDR4_AB is stricter than DDR4 exactly under three inequalities between delays (`DramLegal.RefinesExactly`), and on
  decoded runs exactly under weaker ones (`DramExact.RefinesDecodedExactly`).

Some predicates are guarded by a trivial predicate (`Opened`, `Unfolded`, `Shown`) or hidden behind a trigger: the
meaning is unchanged, the solver unfolds them only where a proof says so.

`dafny verify dfyconfig.toml` checks the whole project.

## Model

| member | source | states |
|---|---|---|
| `Binary16.RoundingIsUnique` | ANEMOS/src/half.hpp:824-854 | for each rounding mode and exact real value at most one half is the correctly rounded one, so every "exact to rounding" contract below fixes its result bit for bit |
| `Rounding.StickyShift` | ANEMOS/src/half.hpp:3002-3006 | shifting right and OR-ing the lost bits into the last one keeps the cell an exact value lies in, for every width and distance; this is why alignment never changes a rounded result |
| `Rounding.ShlBrackets` | ANEMOS/src/half.hpp:3012-3013 | a normalising left shift after bits were lost costs exactly one bit of resolution |
| `Rounding.Quantize` | ANEMOS/src/half.hpp:914-920 | splitting a bracketed significand into word, guard and sticky bits describes the exact value: which half-ulp it lies in, and whether at its end |
| `Rounding.RoundedCorrect` | ANEMOS/src/half.hpp:834-854 | `rounded` returns the correctly rounded half (IEEE 754-2019, sections 4.3.1 and 4.3.2) for every word, guard bit, sticky bit and mode, including the carry into infinity |
| `Rounding.OverflowCorrect` | ANEMOS/src/half.hpp:799-808 | `overflow` is the correct rounding of every magnitude from 2^16 on |
| `Rounding.UnderflowCorrect` | ANEMOS/src/half.hpp:815-822 | `underflow` is the correct rounding of every magnitude below half the smallest subnormal |
| `Rounding.NormalizeFixed` | ANEMOS/src/half.hpp:910-912 | the N loop of `fixed2half` ends with F + 1 significant bits or a subnormal exponent and still stands for the same value |
| `Rounding.Fixed2Half` | ANEMOS/src/half.hpp:903-922 | generic in F, S and N: the result is the correctly rounded value of the fixed-point significand with its sticky flag |
| `HalfCommon.Signal` | ANEMOS/src/half.hpp:721-727 | a NaN operand yields a NaN with the quiet bit set |
| `HalfCommon.Normalize` | ANEMOS/src/half.hpp:3065-3068 | the loop that brings a subnormal to eleven bits keeps its value |
| `HalfCommon.AlignedBrackets` | ANEMOS/src/half.hpp:3002-3006 | aligning the smaller operand, also with the sticky bit alone, loses nothing that rounding could see |
| `HalfCommon.DifferenceResolved` | ANEMOS/src/half.hpp:3002-3013 | after a subtraction either the difference is exact or at most one bit cancels, so the guard bits suffice; it is zero exactly when the exact difference is |
| `HalfCommon.SumBracketed` | ANEMOS/src/half.hpp:3014-3021 | the sum of aligned significands still brackets the exact sum |
| `HalfCommon.Magnitudes` | ANEMOS/src/half.hpp:3341-3344 | an exponent above the range means a magnitude of at least 2^16, one below it a magnitude under half the smallest subnormal |
| `HalfCommon.RoundOff` | ANEMOS/src/half.hpp:3341-3347 | the common end of `*`, `/` and `fma`: overflow, underflow or `fixed2half`, correctly rounded in each case |
| `HalfProduct.Multiply` | ANEMOS/src/half.hpp:3051-3081 | every pair of halves, every mode: the correctly rounded product, with the NaN, infinity and zero cases and signs of IEEE 754-2019, sections 6.1 to 6.3 |
| `HalfProduct.Divide` | ANEMOS/src/half.hpp:3091-3125 | the same for the quotient, with division by zero |
| `HalfProduct.ProductSignificand` | ANEMOS/src/half.hpp:3069-3072 | the 22-bit product of the significands, at the sum of the exponents, is the exact product |
| `HalfProduct.QuotientSignificand` | ANEMOS/src/half.hpp:3112-3123 | integer quotient and nonzero-remainder flag locate the exact quotient |
| `HalfSum.Add` | ANEMOS/src/half.hpp:2976-3027 | every pair of halves, every mode: the correctly rounded sum; NaN for opposite infinities, and the sign rules of an exact zero sum |
| `HalfSum.Subtract` | ANEMOS/src/half.hpp:3036-3042 | every pair of halves, every mode: the correctly rounded value of x - y, with its own NaN, infinity and zero-sign cases; computed by adding the negated right operand |
| `HalfSum.AddMagnitudes` | ANEMOS/src/half.hpp:3014-3025 | the addition branch rounds the sum of two magnitudes, carry and overflow included |
| `HalfSum.SubtractMagnitudes` | ANEMOS/src/half.hpp:3007-3013 | the subtraction branch rounds the difference; an exact zero is -0 only toward negative |
| `HalfSum.RoundCarried` | ANEMOS/src/half.hpp:3015-3025 | a carry out of fourteen bits is shifted back stickily, or overflows, and the rounding is still correct |
| `HalfFma.Fma` | ANEMOS/src/half.hpp:3266-3349 | every triple of halves, every mode: one correct rounding of the exact x*y+z, with cancellation, subnormals, overflow, underflow, NaN, infinity and zero-sign cases |
| `HalfFma.FmaNonzero` | ANEMOS/src/half.hpp:3298-3347 | the same for finite operands with a nonzero product |
| `HalfFma.AddToProduct` | ANEMOS/src/half.hpp:3307-3347 | adding a nonzero addend to the exact product, in either order of magnitude |
| `HalfFma.AddWide` | ANEMOS/src/half.hpp:3334-3347 | the addition branch on Q1.23 significands |
| `HalfFma.SubtractWide` | ANEMOS/src/half.hpp:3326-3347 | the subtraction branch, with the sign of an exact zero |
| `HalfFma.WideProduct` | ANEMOS/src/half.hpp:3302-3306 | the product significand shifted to Q1.23 is the exact product |
| `HalfSqrt.FixedSqrt` | ANEMOS/src/half.hpp:1824-1838 | for every even F and every radicand below 4*2^F: m is the integer square root of the radicand and r = radicand - m*m <= 2*m; the exponent is halved and no 32-bit word wraps |
| `HalfSqrt.SqrtStep` | ANEMOS/src/half.hpp:1829-1836 | one iteration decides one bit of the root: after it the radicand is still below (root + step)^2 |
| `HalfSqrt.RootCut` | ANEMOS/src/half.hpp:3758-3760 | r > m is the guard bit and r != 0 the sticky bit of the exact root |
| `HalfSqrt.Sqrt` | ANEMOS/src/half.hpp:3745-3762 | every half, every mode: the correctly rounded square root, -0 kept, NaN for negatives |
| `HalfRemainder.DivideLoop` | ANEMOS/src/half.hpp:1769-1784 | the subtract-and-shift loop computes quotient and remainder; the early exit of the Q = false instance happens only when the division is exact; the counter wraps as a 32-bit word |
| `HalfRemainder.PackRemainder` | ANEMOS/src/half.hpp:1790-1792 | packing the remainder, the final right shift of a subnormal one drops no set bit |
| `HalfRemainder.Reduce` | ANEMOS/src/half.hpp:1760-1793 | the reduced word is the remainder of the magnitudes; the counter has the low bits of the quotient |
| `HalfRemainder.Complement` | ANEMOS/src/half.hpp:1804-1810 | the R instance: divisor minus remainder, exactly, with the sign bit set |
| `HalfRemainder.Mod` | ANEMOS/src/half.hpp:1757-1817 | all four instances: truncated or nearest remainder of the magnitudes, and the quotient modulo 2^30, plus one where it rounds up |
| `HalfRemainder.NearestQuotientIsNearest` | ANEMOS/src/half.hpp:1794-1813 | the multiple the R instance subtracts is the nearest one, the even one of two equally near ones |
| `HalfRemainder.Fmod` | ANEMOS/src/half.hpp:3194-3209 | in units of 2^-24 the result is exactly x - n*y with n the truncated quotient; a zero result has the sign of x |
| `HalfRemainder.Remainder` | ANEMOS/src/half.hpp:3217-3230 | exactly x - n*y with n the nearest integer, ties to even (IEEE 754-2019, section 5.3.1) |
| `HalfRemainder.Remquo` | ANEMOS/src/half.hpp:3239-3254 | the same remainder, and a count that agrees with n in its low thirty bits under the sign of x/y |
| `HalfRemainder.RemainderValue` | ANEMOS/src/half.hpp:3194-3254 | in values: an exact remainder h satisfies Value(h) = Value(x) - N * Value(y) |
| `HalfDouble.DoubleToHalf` | ANEMOS/src/half.hpp:1023-1053 | every double, every mode: the correctly rounded half, infinities kept, NaN payload bits kept with the quiet bit set |
| `HalfDouble.RoundNormal` | ANEMOS/src/half.hpp:1040-1043 | the branch for normal results |
| `HalfDouble.RoundSubnormal` | ANEMOS/src/half.hpp:1044-1049 | the branch for subnormal results |
| `HalfDouble.HalfToDouble` | ANEMOS/src/half.hpp:1592-1609 | every half: the double of exactly its value and sign, infinity, or the same NaN payload |
| `HalfDouble.RoundTrip` | ANEMOS/src/half.hpp:1592-1609 | half to double to half is the identity in every mode, except that a signalling NaN gets its quiet bit |
| `DramHistory.StepTracks` | ramulator_files/src/DRAM.h:352-406 | the main step: a node whose next/prev tables say what a history implies says what the longer history implies after one more command, whether it is a target, a sibling or elsewhere |
| `DramHistory.NextMeaning` | ramulator_files/src/DRAM.h:267-278 | next[c] <= v holds exactly when every timing entry of the level allows c at v, in view of the full history |
| `DramHistory.InitialTracks` | ramulator_files/src/DRAM.h:201-209 | freshly built tables stand for the empty history |
| `DramHistory.RecentGrows` | ramulator_files/src/DRAM.h:369-373 | how one more command moves the k-th most recent issue of each command |
| `DramLegal.EntryWindow` | ramulator_files/src/DRAM.h:375-395 | in every legal run two commands with dist issues of the earlier one in between are at least val apart, for any entry at any visited level |
| `DramLegal.FourActivateWindow` | ramulator_files/src/DDR4.cpp:321 | any stretch of a legal run with five activations of one rank lasts at least nFAW, under both standards |
| `DramLegal.WellFormed` | ramulator_files/src/DRAM.h:356-364 | both timing tables meet the assertion that sibling entries look back one command only |
| `DramLegal.AdmittedRefines` | ramulator_files/src/DDR4_AB.cpp:254-388 | a command DDR4_AB admits after a history, DDR4 admits after the same history |
| `DramLegal.AllBankRefinesDdr4` | ramulator_files/src/DDR4_AB.cpp:254-388 | for every organization and every speed entry with nWTRS <= nWTRL, nCCDS <= max(nCCDL, nBL) and nRRDS <= max(nRRDL, nRC): every run legal under DDR4_AB is legal under DDR4 |
| `DramLegal.RefinesExactly` | ramulator_files/src/DDR4_AB.cpp:254-388 | that condition on the speed entry is exact: it holds if and only if every run legal under DDR4_AB is legal under DDR4 |
| `DramLegal.PairTellsApart` | ramulator_files/src/DDR4.cpp:246-404 | where it fails, two commands to one address form a run that DDR4_AB admits and DDR4 does not |
| `DramLegal.Ddr4AdmitsMore` | ramulator_files/src/DDR4.cpp:246-404 | the refinement is strict: two reads of different bank groups, nCCDS apart |
| `DramLegal.TwinNext` | ramulator_files/src/DDR4.cpp:252-398 | in every reachable state next[RD] == next[RDA] and next[WR] == next[WRA], at every node and under both standards |
| `DramLegal.TwinsAdmitted` | ramulator_files/src/DDR4.cpp:252-398 | an access is admitted exactly when its auto-precharging twin is |
| `DramWindows.RankPasses` | ramulator_files/src/DDR4.cpp:266-365 | what the entries of a rank demand of two commands is that bursts, precharges, refreshes and power states keep their distances, in terms of the speed parameters alone: a write after a read starts its burst at least two cycles after the end of the read burst |
| `DramWindows.AcrossPasses` | ramulator_files/src/DDR4.cpp:286-306 | and between two ranks: nRTRS on the data bus, unless both are writes |
| `DramWindows.GroupPasses` | ramulator_files/src/DDR4.cpp:367-385 | in a bank group: nCCDL, nWTRL from the end of a write burst, nRRDL |
| `DramWindows.BankPasses` | ramulator_files/src/DDR4.cpp:386-404 | in a bank: nRCD, nRC, nRAS, nRTP, write recovery and nRP |
| `DramSeparation.AdmittedExactly` | ramulator_files/src/DDR4.cpp:246-404 | for either standard, after any ordered history: a command is admitted if and only if it is separated from every earlier one, taken by itself, and from the fourth-last activation of its rank by nFAW; no entry of the tables is mentioned |
| `DramSeparation.LegalExactly` | ramulator_files/src/DDR4.cpp:246-404 | the legal runs of either standard are the ordered ones in which every two commands are separated and the four-activate window is kept |
| `DramSeparation.BurstsApart` | ramulator_files/src/DDR4.cpp:252-306 | in every legal run of either standard the data bursts of two accesses on the channel do not overlap: a read burst starts nCL after its command, a write burst nCWL after it, each lasts nBL; two more cycles from a read to a write of its rank, nRTRS more between ranks |
| `DramSeparation.BankWindows` | ramulator_files/src/DDR4.cpp:386-404 | in every legal run, two commands of one bank (of one rank under DDR4_AB): nRCD, nRC, nRAS, nRTP, write recovery, nRP, also after auto-precharge |
| `DramSeparation.ColumnWindows` | ramulator_files/src/DDR4.cpp:268-385 | column to column, write to read and row to row, within a rank and within a bank group |
| `DramSeparation.RefreshWindows` | ramulator_files/src/DDR4.cpp:300-346 | before PREA and REF the rank has recovered and precharged; after REF nRFC goes by |
| `DramSeparation.PowerWindows` | ramulator_files/src/DDR4.cpp:307-365 | into and out of power-down and self-refresh: after the last burst, nPD, nXP, nCKESR, nXS |
| `DramSeparation.CommandsReach` | ramulator_files/src/DRAM.h:267-278 | check visits the rank of every command, and the bank group and bank of those that concern a bank |
| `DramState.OneRowKept` | ramulator_files/src/DDR4.cpp:205-243 | a command never leaves a bank otherwise than closed without rows or open at exactly one row, if activations find it closed |
| `DramState.LockstepKept` | ramulator_files/src/DDR4_AB.cpp:205-251 | under DDR4_AB two banks of a rank that agree go on agreeing after every command |
| `DramState.PrerequisitesRunOut` | ramulator_files/src/DDR4.cpp:117-171 | one step seen from the addressed rank and bank: of at most three prerequisites issuing the one decode asks for leaves exactly one less, and a well-formed rank and bank; none is left exactly when decode returns the access itself |
| `DramState.HitsWhenReady` | ramulator_files/src/DDR4.cpp:174-189 | decode returns an access itself only when it is a row hit |
| `DramTrace.OpenSinceActivation` | ramulator_files/src/DDR4.cpp:205-243 | after any run a row is open exactly if it has been activated and since then no PRE, RDA or WRA for its bank (for its rank under DDR4_AB) and no PREA for its rank has been issued |
| `DramTrace.PowerSince` | ramulator_files/src/DDR4.cpp:213-242 | after any run a rank is in the state that its last PDE, PDX, SRE or SRX left it in: power-down with or without an open bank, self-refresh, or awake |
| `DramTrace.AwakeUnlessTold` | ramulator_files/src/DDR4.cpp:213-242 | and awake if there was none |
| `DramTrace.RowsFound` | ramulator_files/src/DDR4.cpp:117-171 | in a run of suitable commands an access finds its row activated and not closed since, an activation no row of its bank, and a refresh no row of any bank of its rank |
| `DramTrace.OnePrerequisite` | ramulator_files/src/DDR4.cpp:143-170 | REF, PDE and SRE wait for at most one other command: PREA exactly if a bank of the rank is open, SRX exactly in self-refresh, PDX exactly in power-down |
| `DramTree.Dram.constructor` | ramulator_files/src/DRAM.h:190-228 | the tree built has a node for every id of the organization down to the banks, with no history and its start states |
| `DramTree.Dram.Children` | ramulator_files/src/DRAM.h:211-226 | the construction loop: as many children as the organization says, with disjoint subtrees |
| `DramTree.Dram.RaiseBeside` | ramulator_files/src/DRAM.h:354-367 | the sibling branch of update_timing |
| `DramTree.Dram.RaiseOwn` | ramulator_files/src/DRAM.h:375-384 | the target branch: next is raised by every own entry with enough history; prev never runs out |
| `DramTree.Dram.Push` | ramulator_files/src/DRAM.h:370-373 | the history of the command is shifted by the new clock |
| `DramTree.Dram.UpdateTiming` | ramulator_files/src/DRAM.h:352-406 | every node of the tree takes its step, targets, siblings and all others |
| `DramTree.Dram.UpdateChildren` | ramulator_files/src/DRAM.h:402-404 | all children are visited, each once |
| `DramTree.Dram.CheckDecides` | ramulator_files/src/DRAM.h:267-278 | check on a subtree decides whether every visited node below allows the command in view of the full history |
| `DramTree.Dram.CheckIsAdmission` | ramulator_files/src/DRAM.h:267-278 | the fast form refines the simple one: check(cmd, addr, clk) at the channel holds exactly when the whole history of issued commands satisfies every timing entry at every node on the path; what that means in distances between commands is the next row |
| `DramRun.CheckIsSeparation` | ramulator_files/src/DRAM.h:267-278 | check holds exactly when the command is separated from every earlier one of the run and keeps the four-activate window, under both standards |
| `DramTree.Dram.UpgradeStaysReady` | ramulator_files/src/Controller.h:776-779 | the is_ready assertion after an auto-precharge upgrade holds: the upgraded command is as ready as the plain one |
| `DramTree.Dram.HasOpenBank` | ramulator_files/src/DDR4.cpp:143-150 | the search over all bank groups and banks finds an open bank exactly when there is one |
| `DramTree.Dram.SetBanks` | ramulator_files/src/DDR4_AB.cpp:205-251 | the all-bank loops overwrite every bank of the rank and nothing else |
| `DramTree.Dram.SetGroup` | ramulator_files/src/DDR4_AB.cpp:205-251 | the inner one overwrites every bank of its group and nothing else |
| `DramTree.Dram.RankTransition` | ramulator_files/src/DDR4.cpp:213-242 | state changes of a rank |
| `DramTree.Dram.BankTransition` | ramulator_files/src/DDR4_AB.cpp:207-235 | state changes of a bank, of all banks of its rank under DDR4_AB |
| `DramTree.Dram.UpdateBelow` | ramulator_files/src/DRAM.h:336-347 | update_state takes every node of the rank to the state its transition prescribes, down to the scope of the command |
| `DramTree.Dram.UpdateState` | ramulator_files/src/DRAM.h:336-347 | on the channel: ranks that are not addressed keep their states |
| `DramTree.Dram.RankPrereq` | ramulator_files/src/DDR4.cpp:120-170 | the prerequisite at a rank, where it has a say; that a refresh never meets an open bank, and what else it means, is in DramTrace.RowsFound, DramRun.WantedSuits and DramRun.ServeRank |
| `DramTree.Dram.Decode` | ramulator_files/src/DRAM.h:248-262 | decode returns the prerequisite of the addressed rank and bank, or the command itself; over runs, see DramRun.WantedSuits |
| `DramTree.Dram.CheckRowHit` | ramulator_files/src/DRAM.h:283-295 | check_row_hit holds exactly for an access whose row is open in its bank |
| `DramTree.Dram.Update` | ramulator_files/src/DRAM.h:326-331 | one command on the whole channel: the timing tables follow the longer history and every state takes its transition |
| `DramTree.Dram.SaneKept` | ramulator_files/src/DDR4.cpp:205-243 | over one command that opens closed banks only, banks stay closed or open at one row and ranks in a power state, so the assertions of init_prereq are never reached |
| `DramTree.Dram.LockstepStays` | ramulator_files/src/DDR4_AB.cpp:205-251 | all banks of a rank stay in lockstep under DDR4_AB |
| `DramTree.Dram.DecodedOpensClosed` | ramulator_files/src/DDR4.cpp:128-137 | an activation that decode asked for finds every bank it opens closed |
| `DramTree.Dram.Follow` | ramulator_files/src/DRAM.h:326-347 | update with such a command: the tables follow the longer history and both state invariants survive |
| `DramRun.InitiallyInOrder` | ramulator_files/src/DRAM.h:190-228 | as built, banks are closed, ranks powered up and the banks of every rank agree |
| `DramRun.ReadyFrom` | ramulator_files/src/DRAM.h:267-278 | no command waits forever: from some clock on check admits it |
| `DramRun.AwaitReady` | ramulator_files/src/Controller.h:651-660 | asking every cycle finds the first clock at which check admits a command |
| `DramRun.LegalStep` | ramulator_files/src/DRAM.h:267-278 | issuing what check admits keeps the whole run legal |
| `DramRun.Prepare` | ramulator_files/src/DRAM.h:248-347 | the special case of asking for one prerequisite until it is admitted: the longer run is legal, tables and states stand for it, one prerequisite less is left |
| `DramRun.MakeReady` | ramulator_files/src/DRAM.h:248-347 | repeating that for a read or write: after at most three prerequisites decode returns the command of the request itself and check admits it, in a legal run, with both state invariants, under both standards |
| `DramRun.Serve` | ramulator_files/src/DRAM.h:248-347 | and then the command itself, which leaves the channel fit for the next request |
| `DramRun.ServeAll` | ramulator_files/src/DRAM.h:248-347 | the special case of asking for each request until it is finished: from a newly built channel every list of reads and writes is served in order; the accesses in the run are exactly the list, the run meets every timing constraint, and it has at most four commands a request |
| `DramTrace.BankOfLonger` | ramulator_files/src/DDR4.cpp:205-243 | the state that a run implies for a bank is its transition after the state that the shorter run implies |
| `DramRun.OpenAgrees` | ramulator_files/src/DDR4.cpp:143-150 | the banks that decode finds open are those that the run says are open: the tree has a bank for each of them |
| `DramRun.WantedSuits` | ramulator_files/src/DRAM.h:248-262 | whatever decode asks for suits bank and rank: an access only if its row is open, an activation only if the bank is closed, both only if the rank is awake, a refresh only if all banks of the rank are closed, an exit only from its own power state; auto-precharge makes no difference |
| `DramRun.ServeRank` | ramulator_files/src/DDR4.cpp:143-170 | a refresh, power-down or self-refresh is issued after at most one other command, PREA exactly if a bank of the rank is open; the channel stays fit |
| `DramRun.Put` | ramulator_files/src/DRAM.h:326-347 | one command that check admits: the longer run is legal, tables and states stand for it, and it suited its bank |
| `DramRun.Offer` | ramulator_files/src/Controller.h:457-458 | one cycle for any ask (RD, WR, REF, PDE or SRE decoded in the current state, an access also auto-precharging, or PRE): the command is issued exactly if check admits it, the run stays legal and the channel stands for it; otherwise nothing happens |
| `DramRun.OfferAll` | ramulator_files/src/Controller.h:457-458 | every list of such asks, in any order and for any addresses, one in each cycle: the commands issued form a legal run, the tables stand for it, every bank is in the state it implies and closed or open at one row, every access found its row open, every refresh all banks of its rank closed, every rank its power state fit for the command, and under DDR4_AB the banks of a rank agree |
| `DramExact.ClosedBetween` | ramulator_files/src/DDR4_AB.cpp:205-251 | between an activation of a rank and a time when its banks are closed lies a command that closes them |
| `DramExact.ActivationsApart` | ramulator_files/src/DDR4_AB.cpp:254-388 | in every decoded run legal under DDR4_AB two activations of a rank are nRRDL, nRC and the time of the fastest close apart |
| `DramExact.DecodedAdmitted` | ramulator_files/src/DDR4_AB.cpp:254-388 | where the three inequalities for decoded runs hold, DDR4 admits every command of such a run |
| `DramExact.TripleTellsApart` | ramulator_files/src/DDR4.cpp:246-404 | where they fail, an activation and two commands that decode asks for form a run that DDR4_AB admits and DDR4 does not |
| `DramExact.RefinesDecodedExactly` | ramulator_files/src/DDR4_AB.cpp:254-388 | exactness on the runs that decode produces: every such run legal under DDR4_AB is legal under DDR4 if and only if nWTRS <= nWTRL, nCCDS <= max(nCCDL, nBL) and nRRDS <= max(nRRDL, nRC, min(nRAS, nRCD + nRTP, nRCD + nCWL + nBL + nWR) + nRP) |
| `DramRun.WantedUseful` | ramulator_files/src/DRAM.h:248-262 | a closing command that decode asks for finds an open bank |
| `RowTable.UpdateAgrees` | ramulator_files/src/Scheduler.h:294-338 | one command: where the table agrees with the banks, none of its assertions fails and it agrees with them afterwards |
| `RowTable.TableAgrees` | ramulator_files/src/Scheduler.h:294-375 | over every run in which commands suit their banks: the row table has an entry exactly for the open banks, with their rows, and none of its three assertions fails; for DDR4, and for DDR4_AB within one rank |
| `RowTable.TableCounts` | ramulator_files/src/Scheduler.h:305-313 | over the same runs the hits of an entry are the accesses to its bank since the activation of the row, and its time stamp is the clock of the last of them |
| `RowTable.TwoRanksFail` | ramulator_files/src/Scheduler.h:340-363 | with two ranks it happens: both are activated at different rows, the second activation is not entered, and the read of the second rank meets the row of the first |
| `RowTable.OneRankExactly` | ramulator_files/src/Scheduler.h:340-375 | the assertions of update_AB hold in every legal decoded run of a channel if and only if the channel has one rank |
| `RowTable.OpenRows.Erase` | ramulator_files/src/Scheduler.h:325-336 | the loop removes the entries below the scope of the command and counts whether there is one |
| `RowTable.OpenRows.Update` | ramulator_files/src/Scheduler.h:294-375 | update and update_AB take the table to the specified one, or to the failure of an assertion |
| `RowTable.OfferAllFiled` | ramulator_files/src/Controller.h:776-788 | whatever is asked of a channel, cycle by cycle: its row table agrees with the banks and no assertion fails, for DDR4 and for one rank of DDR4_AB |
| `Meter.ResidenceGrows` | ramulator_files/src/DRAM.h:413-416 | while nothing starts or ends, total residence grows by one unit per cycle for each service in progress |
| `Meter.Closed` | ramulator_files/src/DRAM.h:418-440 | ending a service lowers the number in progress by one and leaves the residence up to now unchanged |
| `Meter.ServingMeter.Accrue` | ramulator_files/src/DRAM.h:413-416 | serving_requests is brought up to the sum of all residence times so far |
| `Meter.ServingMeter.Update` | ramulator_files/src/DRAM.h:409-440 | cur_serving_requests equals the services in progress, serving_requests their residence times up to the last update; the three assertions hold |
| `ControllerSpec.PendingTicked` | ramulator_files/src/Controller.h:346-485 | in every cycle of tick and tick_AB the oldest pending read is reported if it is due, and no other leaves |
| `ControllerSpec.RefreshKeeps` | ramulator_files/src/Controller.h:367-368 | the refresh step adds to otherq only, one accepted request at a time, and respects its capacity |
| `ControllerSpec.ReceivedExtends` | ramulator_files/src/Controller.h:353-365 | whatever a callback sends joins the ends of the queues and of the pending reads, so the head that is popped and the write that is erased are still in their places |
| `ControllerOrder.ActivatedFirst` | ramulator_files/src/Controller.h:382-395 | if the first activated request is ready its command is the one issued, and nothing is taken from, or marked in, any other queue |
| `ControllerOrder.OthersBeforeData` | ramulator_files/src/Controller.h:397-411 | while otherq, after the refreshes of this cycle, is nonempty and no activated request is ready, no request of readq or writeq is marked, promoted or finished; if the head of otherq is ready its command is the one issued, and otherwise nothing changes |
| `ControllerOrder.DataByMode` | ramulator_files/src/Controller.h:397-421 | and then the queue the mode favours: the other data queue is not touched; if its head is not ready only the precharge of the row policy may be issued |
| `ControllerOrder.TurnServes` | ramulator_files/src/Controller.h:423-485 | the head of the queue whose turn it is gets its next command: with RD, WR, REF, PDE or SRE of its own it leaves the queue, a read to be pending until clk + read_latency, a write reported, any other done; with ACT it becomes the last activated request; otherwise it keeps its place |
| `ControllerOrder.OthersServed` | ramulator_files/src/Controller.h:397-411 | over runs: with no activated request ready and the heads of otherq ready, at most one prerequisite each, otherq is empty and its requests done within two cycles for each of them |
| `ControllerOrder.RefreshesQueued` | ramulator_files/src/Controller.h:367-368 | of the refreshes wanted in a cycle exactly those that fit are queued, in order |
| `ControllerOrder.WritesGoFirst` | ramulator_files/src/Controller.h:370-380 | in tick writes go first exactly if no read waits or the write queue has passed the high mark and not yet fallen below the low one |
| `ControllerOrder.OlderGoesFirst` | ramulator_files/src/Controller.h:606-648 | in tick_AB, after a request has ended, the data queue with the older head goes next, writes on a tie; an activation fixes the mode to its own kind |
| `ControllerCoherence.Accepts` | ramulator_files/src/Controller.h:314-345 | a read of an address that a queued write has is answered in the next cycle, by enqueue but not by enqueue_AB; all others join the ends of their own queues; a full queue refuses |
| `ControllerCoherence.ReceivedExactly` | ramulator_files/src/Controller.h:314-345 | the shortcut of enqueue that is called necessary for coherence: every waiting read stays older than every waiting write of its address if and only if the call is not a read queued while such a write is already activated (with enqueue_AB, while any such write waits) |
| `ControllerCoherence.RunsOrdered` | ramulator_files/src/Controller.h:314-649 | over every run, with all that callbacks send: without such a call no read overtakes a write of its address |
| `ControllerCoherence.OrderOfRuns` | ramulator_files/src/Controller.h:314-649 | in every run of requests and cycles the order is kept throughout if and only if there is no such call |
| `ControllerCoherence.Overtakes` | ramulator_files/src/Controller.h:322-329 | and it fails on a new controller: a write is sent and activated, a read of its address is sent, and gets its RD while the write still waits |
| `ControllerRows.OwnRowHits` | ramulator_files/src/Controller.h:738-763 | a queued request that hits its own row is counted, so num_row_hits > 0 |
| `ControllerRows.UpgradedFromModeQueue` | ramulator_files/src/Controller.h:727-774 | a request of the queue the mode favours is upgraded exactly if no other request of that queue hits the row |
| `ControllerRows.UpgradedFromActivated` | ramulator_files/src/Controller.h:727-774 | an activated request is upgraded exactly if one request of the favoured queue hits the row, or none does and no other activated request |
| `ControllerRows.UpgradeAndLast` | ramulator_files/src/Controller.h:732-771 | the last request for a row in all data queues is always upgraded; an upgraded one is the last exactly if no other data queue holds a request that hits the row |
| `ControllerRows.UpgradedTooEarly` | ramulator_files/src/Controller.h:732-771 | the row may be closed under waiting requests: an activated read is upgraded while a queued read needs the row, and a queued read while an activated one does |
| `Controller.Joined` | ramulator_files/src/Controller.h:320-321 | queueing a new request keeps conservation and accounting |
| `Controller.Forwarded` | ramulator_files/src/Controller.h:324-329 | answering a read from the write queue keeps both; such a read is never in service |
| `Controller.Begun` | ramulator_files/src/Controller.h:423-428 | the first command of a read or write puts it in service |
| `Controller.Promoted` | ramulator_files/src/Controller.h:463-467 | promotion to actq moves a request, it neither duplicates nor loses it |
| `Controller.ReadIssued` | ramulator_files/src/Controller.h:473-476 | a read that got its last command is pending and still in service |
| `Controller.WriteIssued` | ramulator_files/src/Controller.h:478-484 | a write that got its last command is reported and out of service |
| `Controller.HeadReported` | ramulator_files/src/Controller.h:353-365 | reporting the oldest pending read ends its service exactly if it had been sent to the DRAM |
| `Controller.PendingIsOpen` | ramulator_files/src/Controller.h:357-361 | the service that is ended is in progress, so the count of served requests never gets negative |
| `Controller.Controller.constructor` | ramulator_files/src/Controller.h:84-93 | an empty controller at clock 0 satisfies the invariant; the read latency is nCL + nBL, at least two cycles |
| `Controller.Controller.ServePending` | ramulator_files/src/Controller.h:353-365 | step 1 of a cycle, with the requests that the callback of the read sends |
| `Controller.Controller.Enqueue` | ramulator_files/src/Controller.h:314-345 | between ticks and from a callback within one: refused exactly when the queue is full and then without effect; otherwise queued, or pending for the next cycle if it is a read of an address that has a queued write (enqueue only) |
| `Controller.Controller.Receive` | ramulator_files/src/Controller.h:357-363 | all that a callback sends, request after request |
| `Controller.Controller.FirstCommand` | ramulator_files/src/Controller.h:423-428 | the request is marked once and the service meters of the nodes on its path are told once |
| `Controller.Controller.Promote` | ramulator_files/src/Controller.h:463-467 | the activated request moves to actq |
| `Controller.Controller.Finish` | ramulator_files/src/Controller.h:472-484 | the request leaves its queue: a read becomes pending, a write is reported, after what its callback sends while it is still in its queue |
| `Controller.Controller.AutoPrecharge` | ramulator_files/src/Controller.h:727-774 | the command becomes its auto-precharging twin whenever the request is the last one for its row in all data queues; where it does, the request is the last one exactly if no other data queue holds a request for the row; both assertions hold |
| `Controller.Controller.RefreshTick` | ramulator_files/src/Controller.h:367-368 | step 2 of a cycle |
| `Controller.Controller.ChooseMode` | ramulator_files/src/Controller.h:370-380 | step 3, for tick with its watermarks and for tick_AB with its block |
| `Controller.Controller.Select` | ramulator_files/src/Controller.h:382-411 | activated requests first, then others, then the queue the mode favours; the head only if its next command is ready; what follows for the queues is in the rows of ControllerOrder |
| `Controller.Controller.Serve` | ramulator_files/src/Controller.h:460-484 | after the command: finished, promoted, or unchanged, and the mode of tick_AB |
| `Controller.Controller.OrderByArrival` | ramulator_files/src/Controller.h:636-648 | tick_AB lets the older head go next |
| `Controller.Controller.Schedule` | ramulator_files/src/Controller.h:382-485 | step 4 (its precedence is in the rows of ControllerOrder): at most one command, for the address of the request chosen or of the bank the row policy closes |
| `Controller.Controller.Tick` | ramulator_files/src/Controller.h:346-649 | every cycle of tick and tick_AB, with everything that callbacks send in it, takes the state to the specified one and keeps the invariant: each accepted request is in exactly one of the queues, pending, reported or done, and the meter of any DRAM node counts exactly the requests in service there |
| `ControllerRun.ReportedInTime` | ramulator_files/src/Controller.h:314-365 | over every interleaving of enqueue, enqueue_AB, tick and tick_AB a pending read at position i, with departures up to it at most D, has been reported by clock max(D, now) + i + 1 |
| `ControllerRun.Drive` | ramulator_files/src/Controller.h:314-649 | a controller driven through any such interleaving keeps conservation and accounting, reaches the specified state, and reports every pending read in time |
| `ControllerRun.EarlyClose` | ramulator_files/src/Controller.h:732-771 | the early close on a new controller: a read is sent and activated, a second one is sent for its row, and the first is issued as RDA while the second waits for the row |
| `MemoryRun.RightDecodes` | ramulator_files/src/DRAM.h:248-262 | what the channel decodes keeps the contract that the controller relies on: only reads and writes are activated, and an access is decoded only for a row hit |
| `MemoryRun.AnswerIssuable` | ramulator_files/src/Controller.h:776-779 | the command of a request that was found ready can be issued, upgraded or not: check admits it, as issue_cmd asserts, and it suits its bank |
| `MemoryRun.VictimIssuable` | ramulator_files/src/Controller.h:413-421 | and so can the PRE of the row policy |
| `MemoryRun.IssuedIsWarranted` | ramulator_files/src/Controller.h:382-458 | the controller issues nothing else |
| `MemoryRun.Inquire` | ramulator_files/src/Controller.h:651-724 | decode, check and check_row_hit answer for every request that can be chosen in the cycle |
| `MemoryRun.Cycle` | ramulator_files/src/Controller.h:346-649 | one cycle of controller and channel together: the channel answers, tick chooses, the command is ready and is issued, and both keep their invariants |
| `MemoryRun.Drive` | ramulator_files/src/Controller.h:314-649 | every run of requests and cycles of controller and channel, under both standards, for every scheduler, refresh timer and row policy and with all callbacks: the commands that the controller issues form a legal run, every access finds its row open and every refresh all banks of its rank closed, no two accesses are on the data bus of the channel at once, tables and states stand for the run, and the controller keeps conservation and accounting and is where ControllerRun says |
| `PimPipeline.PipesLoad` | ANEMOS/src/instr_decoder.cpp:71-278 | decoding into empty pipelines puts every signal at its entry point |
| `PimPipeline.PipesMove` | ANEMOS/src/instr_decoder.cpp:71-278 | each idle cycle moves every signal of the decoder one position on |
| `PimPipeline.PipesEmpty` | ANEMOS/src/instr_decoder.cpp:71-278 | after 1 + MULT_STAGES + ADD_STAGES cycles nothing is left |
| `PimSchedule.EmergesOnce` | ANEMOS/src/instr_decoder.cpp:97-130 | for every number of stages the write-back signals of an instruction are seen in the cycle of its latency and in no other |
| `PimSchedule.EarlySeen` | ANEMOS/src/instr_decoder.cpp:80-95 | the read-side signals are seen when the operands are there, those of an addend when the product is |
| `PimSchedule.MulEnabled` | ANEMOS/src/instr_decoder.cpp:1328-1331 | the multiplier is enabled for as many cycles as it has stages, from the decoding or one cycle later, and in no other cycle |
| `PimSchedule.AddEnabled` | ANEMOS/src/instr_decoder.cpp:1332-1335 | the adder is enabled for as many cycles as it has stages from each of the four points at which operands can arrive, and in no other cycle |
| `PimExec.RunPipes` | ANEMOS/src/instr_decoder.cpp:71-278 | in every run the decoder registers of cycle k are those computed from the entry points |
| `PimExec.Taps` | ANEMOS/src/instr_decoder.cpp:1289-1343 | what out_method shows the data path in cycle k, signal by signal |
| `PimExec.MulRuns` | ANEMOS/src/instr_decoder.cpp:1328-1331 | for every instruction: the multiplier runs exactly in the MULT_STAGES cycles from the operands of a multiplication on |
| `PimExec.AddRuns` | ANEMOS/src/instr_decoder.cpp:1332-1335 | for every instruction: the adder runs exactly in the ADD_STAGES cycles from the start of its addition on |
| `PimExec.MulOperands` | ANEMOS/src/instr_decoder.cpp:804-1283 | in the first cycle of MUL, MAD and MAC the multiplier inputs are the first named operand and the second operand the decoder addresses; by fields, the rows of PimIsa |
| `PimExec.AddOperands` | ANEMOS/src/instr_decoder.cpp:654-803 | in the first cycle of ADD the adder inputs are the named operands; by fields, PimIsa.AddFields |
| `PimExec.AddendOperands` | ANEMOS/src/instr_decoder.cpp:942-1283 | when the product comes out of the multiplier the addend is at the other input of the adder |
| `PimExec.MulTravels` | ANEMOS/src/fp_multiplier.cpp:31-45 | what enters the enabled multiplier comes out after MULT_STAGES cycles |
| `PimExec.AddTravels` | ANEMOS/src/fp_adder.cpp:31-45 | what enters the enabled adder comes out after ADD_STAGES cycles |
| `PimExec.ProductReady` | ANEMOS/src/instr_decoder.cpp:804-1283 | the product of the operands is at the output when it is needed |
| `PimExec.SilentElsewhere` | ANEMOS/src/instr_decoder.cpp:1289-1343 | outside the cycle of its latency an arithmetic instruction writes no register file |
| `PimProgram.WritesBack` | ANEMOS/src/grf.cpp:56-142 | in the cycle of the latency the FPU output goes to the destination register and nowhere else |
| `PimProgram.Arithmetic` | ANEMOS/src/instr_decoder.cpp:654-1283 | ADD, MUL, MAD and MAC, cycle by cycle: one write, in the cycle of the latency; what it writes, by fields, is in the rows of PimIsa |
| `PimProgram.Move` | ANEMOS/src/instr_decoder.cpp:557-648 | MOV between register files and from a bank, with ReLU |
| `PimProgram.OneInstruction` | ANEMOS/src/instr_decoder.cpp:557-1283 | one instruction from a quiet core: registers unchanged up to the cycle of the latency, from then on its result on the operands the decoder addresses |
| `PimProgram.QuietAgain` | ANEMOS/src/instr_decoder.cpp:71-278 | after the depth of the pipeline nothing is in flight |
| `PimProgram.PipelineRefinesInterpreter` | ANEMOS/src/instr_decoder.cpp:71-278 | for every number of stages >= 1, all bus contents and every program of supported instructions, spaced past the depth and without loading MADs of SRC1 in GRF_B other than register 0: the pipelined core leaves the register files as the one-at-a-time interpreter of the instruction set does |
| `PimProgram.PipelineRunsStepwise` | ANEMOS/src/instr_decoder.cpp:71-278 | for all programs: it leaves them as an interpreter does whose second operand is the one the decoder addresses |
| `PimProgram.OthersMeetIsa` | ANEMOS/src/instr_decoder.cpp:557-1283 | every run of an instruction outside that family ends with the registers the instruction set prescribes |
| `PimProgram.MisportedRunFails` | ANEMOS/src/instr_decoder.cpp:974-978 | for every instruction of the family and every number of stages there is a run of the core that ends with other registers |
| `PimProgram.MeetsIsaExactly` | ANEMOS/src/instr_decoder.cpp:974-978 | so every run of an instruction meets the instruction set if and only if it is outside the family |
| `PimIsa.AddFields` | ANEMOS/src/instr_decoder.cpp:654-803 | the last ADD of any program, by its fields: DST[DST_N] becomes SRC0[SRC0_N] + SRC1[SRC1_N], in aligned-address mode DST[dst] becomes SRC0[src] + SRC1[src] with the column address; no other register changes |
| `PimIsa.MulFields` | ANEMOS/src/instr_decoder.cpp:804-941 | the same for MUL |
| `PimIsa.MadFields` | ANEMOS/src/instr_decoder.cpp:942-1139 | MAD: SRC2[SRC1_N] + SRC0[SRC0_N] * SRC1[SRC1_N], or SRC2[dst] + SRC0[src] * SRC1[src] |
| `PimIsa.MacFields` | ANEMOS/src/instr_decoder.cpp:1140-1283 | MAC: DST[DST_N] + SRC0[SRC0_N] * SRC1[SRC1_N], or DST[dst] + SRC0[src] * SRC1[src] |
| `PimIsa.MovFields` | ANEMOS/src/instr_decoder.cpp:557-648 | MOV to a vector file, with ReLU if its flag is set |
| `PimIsa.MovScalarFields` | ANEMOS/src/instr_decoder.cpp:557-648 | MOV to a scalar file takes a scalar, or the first lane of a vector |
| `PimIsa.ProgramMeans` | ANEMOS/src/instr_decoder.cpp:557-1283 | every spaced program outside the misported family leaves the registers that its instructions name by their fields, one after the other |
| `PimHardware.ShiftRead` | ANEMOS/src/instr_decoder.cpp:80-93 | both preprocessor variants of the read pipelines, computed from the values before the edge, are the merged shift |
| `PimHardware.CollectWrites` | ANEMOS/src/instr_decoder.cpp:97-122 | the scratch array holds every entry point or-ed in |
| `PimHardware.ShiftWrite` | ANEMOS/src/instr_decoder.cpp:97-130 | the write pipelines |
| `PimHardware.ShiftAddEnable` | ANEMOS/src/instr_decoder.cpp:238-257 | the enables of the adder |
| `PimHardware.ShiftMulEnable` | ANEMOS/src/instr_decoder.cpp:259-267 | the enables of the multiplier |
| `PimHardware.ShiftOutSelect` | ANEMOS/src/instr_decoder.cpp:269-275 | the output select |
| `PimHardware.InstrDecoder.ClkThread` | ANEMOS/src/instr_decoder.cpp:71-278 | one clock edge of the decoder |
| `PimHardware.FpUnit.ClkThread` | ANEMOS/src/fp_multiplier.cpp:31-39 | the enable-gated pipeline array shifted in place |
| `PimHardware.RegisterFile.Clock` | ANEMOS/src/rf_threeport.h:58-74 | a write port: the addressed entry if it exists and the enable is set, nothing else |
| `PimHardware.RegisterFile.Read` | ANEMOS/src/rf_threeport.h:46-55 | a read port; an index out of range reads zero |
| `PimHardware.AnyEnabled` | ANEMOS/src/instr_decoder.cpp:1328-1335 | the loop that or-s the stage enables |
| `PimHardware.ImcCore.Store` | ANEMOS/src/grf.cpp:56-142 | each register file writes what its multiplexer selects |
| `PimHardware.ImcCore.Compute` | ANEMOS/src/fpu.cpp:11-208 | multiplier and adder advance on the operands their selects name |
| `PimHardware.ImcCore.constructor` | ANEMOS/src/imc_core.cpp:153-264 | after reset nothing is in flight and every register is zero; all parts are new |
| `PimHardware.ImcCore.Clock` | ANEMOS/src/imc_core.cpp:153-264 | one clock edge of the assembled core is one step of the model the theorems are about |
| `PimRun.Instruction` | ANEMOS/src/instr_decoder.cpp:71-278 | clocking the assembled core through an instruction takes it through the trace of that instruction |
| `PimRun.ExecuteFromReset` | ANEMOS/src/instr_decoder.cpp:71-278 | a new core that is clocked through any spaced program outside the misported family ends with the registers that the fields of its instructions name, as the interpreter also says, for all stage counts |
| `PimSequencer.CycleKeeps` | ANEMOS/src/pc_unit.cpp:25-37 | program counter, NOP counter and jump counter stay inside their registers, in every cycle of every program |
| `PimSequencer.PcStaysInside` | ANEMOS/src/pc_unit.cpp:25-37 | the next program counter, taken modulo 2^8, is inside the instruction memory if and only if there is no jump, or it goes back no further than the counter, or so far that it comes around to the memory again |
| `PimSequencer.AroundTheCounter` | ANEMOS/src/pc_unit.cpp:25-37 | with 32 entries: from counter 0 an offset of 255 leads to 1, inside, and an offset of 1 to 255, outside |
| `PimSequencer.StaysInsideExactly` | ANEMOS/src/pc_unit.cpp:25-37 | of a whole program: no state inside the memory leads out of it if and only if every jump, at its own place, lands |
| `PimSequencer.OnlyStepsMatter` | ANEMOS/src/instr_decoder.cpp:309-319 | NOPs and idle cycles only delay: the state after any pattern of enables depends on the number of decoding steps alone |
| `PimSequencer.NopStalls` | ANEMOS/src/instr_decoder.cpp:527-529 | a NOP with count c >= 1 occupies c cycles, its own included; a count of 0 wraps and occupies 256 |
| `PimSequencer.LoopRuns` | ANEMOS/src/instr_decoder.cpp:539-546 | once active, the loop makes the passes that are left |
| `PimSequencer.JumpLoops` | ANEMOS/src/instr_decoder.cpp:518-548 | a JUMP of count n and offset k over a body without JUMP and EXIT, entered inactive, branches back n times and leaves inactive after (n+1)(k+1) decoding steps |
| `PimSequencer.CountIsExact` | ANEMOS/src/instr_decoder.cpp:532-538 | the number of branches is the count in the instruction exactly when that is not 0 |
| `PimSequencer.NextEntry` | ANEMOS/src/pc_unit.cpp:25-37 | without JUMP and EXIT the counter goes to the next entry, and from the last one to the first |
| `PimSequencer.ExitReturns` | ANEMOS/src/instr_decoder.cpp:551-554 | EXIT sends the program counter to 0 and leaves jump activity and count as they were |
| `PimSequencer.StretchReturns` | ANEMOS/src/instr_decoder.cpp:551-554 | a straight stretch that ends in EXIT is back at 0 after one decoding step for each of its instructions |
| `PimSequencer.ProgramReturns` | ANEMOS/src/instr_decoder.cpp:518-554 | so is every program of straight stretches and JUMP loops that ends in EXIT, after the steps of its stretches and all passes of its loops |
| `PimSequencer.ProgramRepeats` | ANEMOS/src/instr_decoder.cpp:518-554 | and it repeats with that period: n rounds and m steps lead where m steps lead |
| `PimSequencer.CyclesRepeat` | ANEMOS/src/instr_decoder.cpp:309-319 | in clock cycles: from reset, whatever cycles idle or count NOPs in between |
| `PimSequencer.Sequencer.Clock` | ANEMOS/src/instr_decoder.cpp:518-554 | one cycle of the decoder and the program counter takes the registers to the specified ones, whose runs the rows above are about |
| `PimInterface.CycleKeepsRange` | ANEMOS/src/interface_unit.cpp:58-134 | for every DQ_CLK from 2 to 16 and all inputs the beat counter stays in 0..DQ_CLK-1 |
| `PimInterface.Collects` | ANEMOS/src/interface_unit.cpp:92-127 | the beats received so far are the low part of the register, in order |
| `PimInterface.WriteDelivers` | ANEMOS/src/interface_unit.cpp:58-134 | a GRF write held for DQ_CLK beats raises rf_access in its last cycle only, with the beats concatenated, first beat lowest |
| `PimInterface.ExternalWrites` | ANEMOS/src/instr_decoder.cpp:497-514 | an access to any register file writes the external word to the addressed entry and changes nothing else |
| `PimInterface.LanesReceive` | ANEMOS/src/imc_core.cpp:192-206 | end to end: the entry written is the one addressed in the cycle of the last beat, in which rf_access is raised; each SIMD lane of it receives its slice of the concatenated beats, and nothing else changes |
| `PimInterface.LaneBit` | ANEMOS/src/imc_core.cpp:192-206 | bit by bit: in the cycle of the last beat, bit j of lane i is the bit of the beat that has the same place in the wide word |
| `PimInterface.DecodesInItsCycle` | ANEMOS/src/interface_unit.cpp:58-61 | decode_en is raised in a cycle exactly if it has PIM mode, row MSB 0 and RD or WR; a transfer that has begun is given up |
| `PimInterface.CommandSteps` | ANEMOS/src/instr_decoder.cpp:518-522 | such a command makes the sequencer take one decoding step in its own cycle, unless a NOP is being counted; nothing else does |
| `PimInterface.CommandsStep` | ANEMOS/src/interface_unit.cpp:58-61 | over any stream of inputs a program without NOPs takes exactly one step for each such command |
| `PimInterface.OneBeat` | ANEMOS/src/interface_unit.cpp:75-91 | a scalar or instruction write takes one beat, zero-extended; reads, other addresses and everything outside PIM mode do nothing |
| `PimInterface.InterfaceUnit.Clock` | ANEMOS/src/interface_unit.cpp:12-134 | one cycle of the unit |
| `Cache.BlockByFields` | ramulator_files/src/Cache.h:97-103 | set index and tag together name the block: two addresses agree in both exactly when they are in the same block |
| `Cache.AlignNamesBlock` | ramulator_files/src/Cache.h:105-108 | comparing aligned addresses, as the MSHR search does, compares blocks |
| `Cache.CalcLog2` | ramulator_files/src/Cache.h:90-95 | the loop computes the floor of the binary logarithm, and 0 for 0 |
| `Cache.FirstUnlockedIsLeastRecent` | ramulator_files/src/Cache.cpp:305-319 | of the unlocked lines of a set the first is the one whose last hit or fill is longest ago |
| `Cache.VictimByRequests` | ramulator_files/src/Cache.cpp:305-319 | counting requests merged into an outstanding miss as well, the victim is the unlocked line asked for longest ago whenever none was merged into its own miss |
| `Cache.VictimInOrder` | ramulator_files/src/Cache.cpp:305-319 | and in every set whose lines are in the order of their last requests |
| `Cache.HitKeepsOrder` | ramulator_files/src/Cache.cpp:119-123 | a hit keeps all sets in that order |
| `Cache.EvictionKeepsOrder` | ramulator_files/src/Cache.cpp:257-299 | so does an eviction |
| `Cache.MissKeepsOrder` | ramulator_files/src/Cache.cpp:176-193 | and a new miss |
| `Cache.ArrivalKeepsOrder` | ramulator_files/src/Cache.cpp:367-378 | an arrival neither makes nor breaks the order |
| `Cache.MergeAndOrder` | ramulator_files/src/Cache.cpp:150-158 | the branch that fails: a merged request keeps the order if and only if its line is the last of its set |
| `Cache.SentAndOrder` | ramulator_files/src/Cache.cpp:103-197 | so send keeps the order if and only if it does not merge the request into a line that is not the last of its set, which can be told before the call |
| `Cache.SentSound` | ramulator_files/src/Cache.cpp:103-197 | every request keeps the invariant |
| `Cache.SentMeans` | ramulator_files/src/Cache.cpp:103-197 | what becomes of a request: refused without effect, a hit, merged, or a new miss, with the least recent line replaced and written back if it is dirty |
| `Cache.SentAndResident` | ramulator_files/src/Cache.cpp:257-332 | lines leave only as victims: after a request a block is resident if and only if it was asked for and accepted, or was resident and did not have to go |
| `Cache.SentAndReady` | ramulator_files/src/Cache.cpp:103-197 | a line that is ready stays ready through a request if and only if it is not the one replaced |
| `Cache.ArrivedAndReady` | ramulator_files/src/Cache.cpp:367-378 | a block that was being read is ready when it has arrived, and no other line changes |
| `CacheRun.OrderOfRuns` | ramulator_files/src/Cache.cpp:150-158 | over every run of requests and arrivals: all sets are in the order of their last requests throughout if and only if no request is merged into a line that is not the last of its set |
| `CacheRun.VictimsOfRuns` | ramulator_files/src/Cache.cpp:301-319 | in such a run every line replaced is the one asked for longest ago of those that may go |
| `CacheRun.StaysReady` | ramulator_files/src/Cache.cpp:103-197 | retention over every run: a block that is ready stays so throughout if and only if no request replaces its line |
| `CacheRun.Drive` | ramulator_files/src/Cache.cpp:103-378 | a cache driven through any run keeps its invariant and follows the specification |
| `CacheRun.MergedRun` | ramulator_files/src/Cache.cpp:150-158 | the failing branch is reached: in a new two-way cache a and b miss, a is asked for again, both arrive, and a miss of c writes a back although b was asked for earlier |
| `CacheRun.MergedExample` | ramulator_files/src/Cache.cpp:150-158 | that run on a cache of 256 bytes, built and driven |
| `Cache.LinesExplained` | ramulator_files/src/Cache.h:42-51 | in every reachable state: at most assoc lines in a set, unique tags, a line locked exactly while an MSHR entry names its block, dirty exactly when a write to it has not been written back |
| `Cache.WritesAreKept` | ramulator_files/src/Cache.cpp:257-299 | in every reachable state every accepted write is followed by a queued write-back of its block or its block is in a dirty line; the write-backs logged are those queued for memory |
| `Cache.PendingOrReturned` | ramulator_files/src/Cache.cpp:284-296 | a block written and not written back since is unwritten |
| `Cache.EntrySound` | ramulator_files/src/Cache.h:178-187 | every MSHR entry names exactly one line, which is resident and locked |
| `Cache.FoundSound` | ramulator_files/src/Cache.cpp:334-343 | the tag search and the lock bit tell a hit, an outstanding miss and a new miss apart |
| `Cache.HitSound` | ramulator_files/src/Cache.cpp:119-123 | moving the line to the end on a hit keeps the invariant |
| `Cache.MergeSound` | ramulator_files/src/Cache.cpp:150-158 | a further request for a block that is being read keeps the invariant |
| `Cache.ArrivalSound` | ramulator_files/src/Cache.cpp:367-378 | unlocking a line, with its MSHR entry erased, keeps the invariant |
| `Cache.EvictSound` | ramulator_files/src/Cache.cpp:257-299 | erasing an unlocked line, with its write-back if it is dirty, keeps the invariant |
| `Cache.MissSound` | ramulator_files/src/Cache.cpp:176-193 | a new locked line with its MSHR entry and memory read keeps the invariant |
| `Cache.Cache.constructor` | ramulator_files/src/Cache.cpp:16-51 | an empty cache satisfies the invariant; line offset and set bits are the logarithms of block size and number of sets, and the other parameters are kept |
| `Cache.Cache.GetLines` | ramulator_files/src/Cache.h:189-196 | a missing set is created empty; no set changes |
| `Cache.Cache.HitMshr` | ramulator_files/src/Cache.h:178-187 | the search finds an entry exactly when the block has one |
| `Cache.Cache.AllLocked` | ramulator_files/src/Cache.h:141-151 | true exactly when the set is full and every line is locked |
| `Cache.Cache.NeedEviction` | ramulator_files/src/Cache.cpp:351-365 | its assert(false) is unreachable where send calls it |
| `Cache.Cache.FindVictim` | ramulator_files/src/Cache.cpp:305-319 | the victim exists and is the unlocked line whose last hit or fill is longest ago; it is the one asked for longest ago if no request was merged into its miss or the set is in the order of its requests |
| `Cache.Cache.Evict` | ramulator_files/src/Cache.cpp:257-299 | the victim leaves its set, and a dirty one queues a write of its address |
| `Cache.Cache.AllocateLine` | ramulator_files/src/Cache.cpp:301-332 | room is made if the set is full, and a locked clean line is put last |
| `Cache.Cache.Merge` | ramulator_files/src/Cache.cpp:150-158 | a further request for an outstanding block leaves at most a dirty bit, and the place of its line |
| `Cache.Cache.Dispatch` | ramulator_files/src/Cache.cpp:103-197 | the branches of send take the state to the specified one |
| `Cache.Cache.Send` | ramulator_files/src/Cache.cpp:103-197 | accepted exactly if the line is usable, or the block is being read, or there is an MSHR and an unlocked line; refused without effect; the state is the specified one: hit, merged miss and new miss, lines leave only as victims, and the order of requests is kept exactly unless the request is merged into a line that is not the last |
| `Cache.Cache.Callback` | ramulator_files/src/Cache.cpp:367-378 | the block that arrived is no longer missing, its line is unlocked and ready and its entry erased; otherwise nothing happens; the order of requests is as before |
| `ReorderBuffer.SortOrders` | gem5-x-nmc/util/o3-pipeview.py:169 | the queue sort orders by sequence number |
| `ReorderBuffer.SortKeeps` | gem5-x-nmc/util/o3-pipeview.py:169 | and keeps the instructions |
| `ReorderBuffer.SortStable` | gem5-x-nmc/util/o3-pipeview.py:169 | and instructions of equal sequence number in their order of arrival |
| `ReorderBuffer.SelectionPrints` | gem5-x-nmc/util/o3-pipeview.py:172-188 | of the instructions popped exactly those inside the sequence and tick bounds, retired if that is asked, are printed, each as often as it arrived |
| `ReorderBuffer.ArrivalKeepsOrder` | gem5-x-nmc/util/o3-pipeview.py:159-164 | an arrival preceded by at most min_threshold larger sequence numbers belongs after everything already printed |
| `ReorderBuffer.PopsKeepOrder` | gem5-x-nmc/util/o3-pipeview.py:170-171 | popping down to min_threshold keeps that so for later arrivals |
| `ReorderBuffer.Viewer.PrintInsts` | gem5-x-nmc/util/o3-pipeview.py:167-188 | the smallest instructions leave, in order, until the threshold; what the filters admit is printed |
| `ReorderBuffer.Viewer.QueueInst` | gem5-x-nmc/util/o3-pipeview.py:159-164 | nothing is lost or duplicated, a queue above max_threshold is sorted and popped down to min_threshold and otherwise left alone, and the output so far stays a sorted prefix under bounded disorder |
| `ReorderBuffer.Viewer.Flush` | gem5-x-nmc/util/o3-pipeview.py:146-149 | the final flush empties the queue; exactly what the filters want of all arrivals has been printed |
| `ReorderBuffer.ProcessTrace` | gem5-x-nmc/util/o3-pipeview.py:128-150 | for every trace, thresholds and filters: if every instruction is preceded by at most min_threshold larger sequence numbers the whole output is sorted, and what is printed is exactly what lies inside the bounds, retired if that is asked, each instruction as often as it arrived; without filters a permutation of the input |

## Left out

- The transcendental functions of `half.hpp`, its stream I/O, comparisons, classification, conversions from `float` and
  integers, exception flags, F16C intrinsics, lookup tables and `HALF_ARITHMETIC_TYPE` builds.
- Round-to-nearest with ties away, which `half.hpp` does not implement for its operators.
- HalfRemainder.Remquo: the original leaves the count untouched when the remainder is a NaN; the model returns 0 there and promises nothing about it.
- The speed and organization tables: a speed entry and the child counts are parameters. The timing tables are functions of them, listed in the order in which `init_timing` pushes; nothing depends on that order.
- Parent pointers of DRAM nodes: the rank that a bank-level transition reaches through two parents is passed down instead.
- `check_row_open`, `get_next`, refresh and active-cycle statistics, the parts of `update_timing` and `update_serving_requests` that feed them, and `average_serving_requests`.
- DramTree.Dram.Update: the addressed node must exist down to the scope of the command, as the original dereferences it without a test.
- Meter.ServingMeter.Update: one node at a time; the recursion to the child on the path is the same update there.
- The scheduler, the refresh timer and the row policy: any element of a queue, any list of refresh requests, any ready precharge or none. Row-hit counters, latency sums, command traces, the look-ups in the row table, and requests of type EXTENSION.
- `tick_AB` reads the type of a promoted request after erasing it (`ramulator_files/src/Controller.h:606-616`); the model reads it before.
- What callbacks do besides sending requests to this controller. A callback comes before its read is popped or its write erased; since requests only join the ends of lists, the model pops the read first.
- The row policy's victim is a full address here, of which the row and the column are not looked at; in `MemoryRun` it is any bank, in `RowTable` one that the table has.
- Watermarks are absolute queue lengths here, not fractions of the capacity.
- The bit layout of instruction words: instructions are given by their fields. Decoder inputs outside the supported operand places, FILL, two SRF operands in one ADD, and external register writes that overlap an instruction.
- The arithmetic of the data path in the core: words V and scalars S with arbitrary operations, one word for all SIMD lanes. The SRF write registers that have no source.
- The instruction-memory path of the interface unit when DQ_BITS is 16, its register-file address decoding, and the tristate output.
- Levels above or below the cache, `invalidate`, `evictline`, `tick` and the retry list; the wait list keeps everything ever queued. MSHR iterators are modelled by the unique tag they point to; addresses are nonnegative. Powers of two are what the original asserts of its sizes; a cache smaller than one set is not modelled.
- Skipping of trace lines before the start and the early stop of `process_trace`, where `print_insts` is called with one argument too few (`gem5-x-nmc/util/o3-pipeview.py:134`); parsing and formatting.
- SystemC wiring, module constructors, reset sequences other than initial values, configuration, trace files, the other DRAM standards, and the remaining gem5 scripts.
