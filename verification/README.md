# A verified model of the RISC-V debug reference model

This project models, in Dafny, the parts of pydebug that decide whether a RISC-V Debug
Module behaves: the golden predictor of the module, the rule checker that judges it, the
coverage observer that rebuilds its state from bus traffic, the debugger object that
drives it, the socket bridge to a simulator, the enumeration of abstract-command program
bits, and the native trigger model. `dafny verify dfyconfig.toml` checks all of it.

The project says how these parts relate, over every run:

* **The checker and the predictor agree, exactly.** For every run and every next
  operation, the rules report a violation that is not the debugger's own fault if and only
  if the module reports version 0, or the operation is a lone resume of an existing hart
  that was halted with `dcsr.step` shadowed, or whose halted state changes in the very
  write because it releases a reset (`Agreement`). `Checker` is the rule checker with its
  loops and its shared list, and reports exactly what `Rules` states.
* **What dmstatus says, and why.** One closed law gives every bit of a hart after a dmcontrol
  write (`HartLaws`), and over every run the havereset and resumeack bits of dmstatus are told by
  the resets, acknowledgements and resumes written so far (`HartHistory`). Every other register is
  given by address and bit: read, written, claimed, busy, reset and replayed (`RegisterLaws`).
* **What the rules say of any device.** For arbitrary read-backs and arbitrary states before and
  after, each rule reports exactly the stated bits and transitions, and a transition of the
  selected hart passes exactly if it does what section 3.5 asks (`RuleMeaning`).
* **What bus traffic shows is what is hidden.** The observer's ndmreset level, selection,
  halt-on-reset bits, havereset and hart state are the module's own; a transition bin is hit exactly
  when one hart made that move; the excluded bins a run can hit are listed exactly, and
  the one called unreachable (a halted hart caught by a reset) is reached
  (`CoverageRuns`). Every bin is hit exactly by the stated bits, addresses and states
  (`BinMeaning`), and what is declared is exactly what can be hit (`BinPopulation`).
* **The abstract-command shadow is sound, exactly** as long as a stated discipline is kept,
  against a Debug Module with a real 64-bit register file, autoexec replay included: over
  every run the next operation leaves the two in agreement if and only if it keeps the
  discipline, and a false claim about a register shows when that register is read (`AbstractShadow`).
* **The bridge is a sequential call, exactly.** The client sends printed lines and the server
  parses what fgets makes of them. In every interleaving of client, server thread and simulator
  the k-th reply answers the k-th line received as the server understands it; with every line
  within the receive buffer it answers the k-th call if and only if that call is no log whose
  text fakes a key, and the simulator then runs what the call means. Whatever was sent, an accepted
  reply is the answer to the very call that waits for it; a line past the buffer makes every later
  call fail. The unlocked text read is race-free, and a waiting server can always be brought to its
  reply (`Bridge`). The hand-written scanner inverts the printer, with the exact texts on which it
  does not (`BridgeLines`), and no cut of a line is read as a later call (`ReceivedLines`).
* **The generated programs do what the commands ask.** Decoded and executed by a RISC-V hart, the
  program of every command moves exactly its register and restores the two it uses
  (`ProgramRuns`); **the sampled enumeration is exact** for all command types, sizes, flags and 65536
  register numbers (`ConstantBits`), **icount fires exactly once** over every event stream
  (`NativeTriggers`) and every firing shows the handler what Sdtrig says (`TriggerLaws`),
  **haltsum descends to exactly the halted harts** (`HaltSummary`), **words streamed over the
  system bus come back** (`SystemBus`), **a reset of the module is canonical up to a stated list of
  survivors** (`DmReset`), and **halting, resuming and stepping succeed exactly when the model
  says** (`Driver`).

How it is built: `Bits` treats Python's integers bit by bit on natural numbers; `Registers`
and `Words` hold the register tables and the two run-control words; `DebugModule` states
one DMI operation as a function on values. The objects of the original are classes proved
against those functions: `Predictor.DMPredictor`, `Observer.DebugCoverageModel`,
`Driver.RISCVDebug`, `NativeTriggers.NativeTriggerModel`. Words written or read are
arbitrary natural numbers and are truncated where the original truncates them.

Facts found on the way, where code and its own comments or tests differ; the code is
followed:

* `src/pydebug/model/invariants.py:162-176` takes a write for a reset write by the state it
  leaves, so a write that releases ndmreset is judged by the resume rules
  (`Agreement.CheckerAgreesWithModel`); `Disagreements` shows how every
  state leads there, and to the same with an armed step.
* A hart of the predictor is never neither halted nor running, so the release rule of
  `src/pydebug/model/invariants.py:628-707` never applies (`RunControl.NeverInReset`).
* `src/pydebug/model/coverage.py:668-679` calls `halted_to_in_reset` unreachable; it is
  reached by halting, reading dmstatus, asserting ndmreset and reading again
  (`CoverageRuns.HaltedToInResetIsReachable`).
* `src/pydebug/model/coverage.py:970-982` means to drop a prior state that belongs to another
  hart, but keeps it when the selection moved one write earlier
  (`CoverageRuns.ResumeCrossMisnamesHart`; `ResumeCrossBelongs` says when it is the resumed
  hart's).
* The acknowledgement cross of `src/pydebug/model/coverage.py:984-996` has the same flaw
  (`BinMeaning.AckBinMisnamesHart`; `KnownIsRead` says whose bit it counts).
* The `deassert_rhr1` bin names the shadow as the releasing write leaves it, while the hart
  halts by what was pending before it; `CoverageRuns.ReleaseBinMeaning` says when the two agree
  and `ReleaseBinMisnames` has a run on which they do not.
* `src/pydebug/model/coverage.py:910-912` reads hgselect from bit 2, the low bit of the group
  number (`Coverage.HgselectBinReadsGroup`).
* A register written from data0 is claimed to hold the word last written to data0 over the bus,
  at 64 bits likewise data1: wrong exactly if data0 holds something else by then, as after a
  register read of another value (`AbstractShadow.ExecuteExact`, `StaleWriteShows`,
  `StaleRunMisleads`). A word written to a data register of an inactive module is taken by the
  shadow: wrong exactly if it is not 0 (`InactiveWriteMisleads`). So is one written to its command
  or abstractauto, which leaves the two with different ones exactly if it is not 0
  (`IgnoredExact`). An ndmreset leaves every claim about the registers standing
  (`NdmresetExact`).
* The generated program keeps s0 and x10 in dscratch0 and dscratch1, so a command on either of
  these reads, or overwrites, s0 or x10 instead (`ProgramRuns.ScratchMisses`).
* A log line whose text is `id`, or ends in a quote and `id`, is answered with identifier 0,
  which the client refuses (`BridgeLines.LogIdentified`).
* A log line of more than 1022 characters is read as two requests or more, so one reply too
  many is on its way and no later call ever reads its own (`Bridge.LongLineDesynchronises`).

## Model

| member | source | states |
|---|---|---|
| Registers.Encode | src/pydebug/model/registers.py:124-129 | None exactly for an unknown field name; otherwise the word that replacing the named fields one by one in 0 gives |
| Registers.EncodedBit | src/pydebug/model/registers.py:93-129 | with disjoint fields every bit of an encoding is set by exactly the named value whose field covers it |
| Registers.EncodeThenGet | src/pydebug/model/registers.py:89-129 | decoding an encoding gives each named value truncated to its field's width |
| Registers.EncodeThenGetOther | src/pydebug/model/registers.py:111-129 | a field that was not named decodes to 0 |
| Registers.DecodeThenEncode | src/pydebug/model/registers.py:120-129 | encoding what was decoded gives the word masked to the fields, bit by bit |
| Registers.EncodeOrderIrrelevant | src/pydebug/model/registers.py:124-129 | the order of the named values does not matter |
| Registers.TablesDisjoint | src/pydebug/model/registers.py:136-713 | no declared table gives one bit to two fields |
| Words.HartselRoundTrip | src/pydebug/model/registers.py:239-251 | the split index comes back modulo 2^20 and no other bit of the word changes |
| Words.StatusRoundTrip | src/pydebug/model/predictor.py:959-1010 | a predicted dmstatus word decodes to exactly the facts it was built from, version modulo 16 |
| Words.DmcontrolEncodersAgree | src/pydebug/api/riscv_dm.py:60-102 | the hand-written dmcontrol encoder equals the table-driven one for all flags and every hartsel |
| Words.DriverDecodes | src/pydebug/api/riscv_dm.py:60-109 | what the debugger asks for is what the model decodes, hartsel modulo 2^20 |
| Words.Dmcs2EncodersAgree | src/pydebug/api/riscv_dm.py:204-217 | the hand-written dmcs2 encoder equals the table-driven one |
| Words.ReadbackDecodes | src/pydebug/model/predictor.py:1012-1027 | a dmcontrol read-back shows 0 in every write-only field and the live value in the others |
| Predictor.DMPredictor.constructor | src/pydebug/model/predictor.py:182-292 | a new predictor is in the power-on state |
| Predictor.DMPredictor.SetConfig | src/pydebug/model/predictor.py:294-314 | the run-control parameters are overwritten and everything is reset as at power-on |
| Predictor.DMPredictor.ResetDm | src/pydebug/model/predictor.py:316-382 | everything takes its reset value but the shadows, the armed bit, the busy bit and, unless at power-on, three facts per hart |
| Predictor.DMPredictor.ApplyNdmreset | src/pydebug/model/predictor.py:717-748 | the ndmreset edge as every hart sees it |
| Predictor.DMPredictor.ApplyHartreset | src/pydebug/model/predictor.py:750-768 | the hartreset edge as the newly selected hart sees it |
| Predictor.DMPredictor.ReleaseFromReset | src/pydebug/model/predictor.py:770-788 | a released hart shows havereset and halts exactly if a halt is pending |
| Predictor.DMPredictor.ApplyResumereq | src/pydebug/model/predictor.py:682-715 | a resume acknowledges and runs a halted hart, halts it again if a step is armed, and empties the register shadow |
| Predictor.DMPredictor.SettleResetState | src/pydebug/model/predictor.py:790-798 | a hart held in reset reads running, not halted |
| Predictor.DMPredictor.WriteDmcontrol | src/pydebug/model/predictor.py:602-680 | the whole effect of a dmcontrol write, in the original's order of stages |
| Predictor.DMPredictor.ExecuteCommand | src/pydebug/model/predictor.py:517-554 | an abstract command's effect on the shadow, the data registers and their validity |
| Predictor.DMPredictor.WriteBuffer | src/pydebug/model/predictor.py:470-499 | a write to data or progbuf stores if implemented and then replays the last command if autoexec asks for it |
| Predictor.DMPredictor.HawindowMask | src/pydebug/model/predictor.py:501-505 | the accumulated word has a 1 exactly for the window's implemented harts |
| Predictor.DMPredictor.OnWrite | src/pydebug/model/predictor.py:417-468 | the whole effect of any DMI write, busy guard and address dispatch included |
| Predictor.DMPredictor.ObserveRead | src/pydebug/model/predictor.py:507-515 | the side effects of a read: sbdata0 streaming and autoexec |
| Predictor.DMPredictor.ExpectHaltsum | src/pydebug/model/predictor.py:844-856 | the accumulated haltsum word has a 1 exactly for the slots of the selected block that hold a halted hart |
| Predictor.DMPredictor.ExpectHaltsum0 | src/pydebug/model/predictor.py:888-893 | bit k is set exactly if hart k below 32 exists and is halted |
| Predictor.DMPredictor.Predict | src/pydebug/model/predictor.py:858-925 | the predicted value of every register |
| RunControl.ReachableOk | src/pydebug/model/predictor.py:602-798 | every reachable state keeps the run-control invariant: harts available, exactly one of halted and running, none halted under a reset |
| RunControl.NeverInReset | src/pydebug/model/predictor.py:717-798 | no implemented hart is ever neither halted nor running, nor both |
| RunControl.ReleaseLaw | src/pydebug/model/predictor.py:643-680 | on a write that ends ndmreset and resumes nothing a hart halts exactly if a halt was pending or this write asks for it; havereset is set unless this write acks it |
| RunControl.OthersUnchanged | src/pydebug/model/predictor.py:602-680 | outside ndmreset a dmcontrol write touches only the hart it selects |
| RunControl.HaltResponse | src/pydebug/model/predictor.py:659-680 | a halt request halts the selected hart in the same write unless it is stuck in hartreset |
| RunControl.LoneResumeHart | src/pydebug/model/predictor.py:682-715 | what a lone resume leaves: halted only if found halted with a step armed, acknowledged exactly if found halted |
| RunControl.DmcontrolReadback | src/pydebug/model/predictor.py:1012-1027 | over every run dmcontrol reads back as the last word written, masked to the readable bits if it set dmactive and 0 otherwise |
| HartLaws.DmcontrolLaw | src/pydebug/model/predictor.py:602-798 | every bit of every implemented hart after an active dmcontrol write, in closed form over the bits of the word and the state before: what it met, what reset moved, what was asked of it |
| HartLaws.RaiseLaw | src/pydebug/model/predictor.py:717-745 | a write that raises ndmreset leaves every hart running with havereset set, unless it acknowledges that hart, and its resume acknowledgement at the declared value, unless it asks that hart to resume |
| HartLaws.InactiveLaw | src/pydebug/model/predictor.py:345-382 | a write without dmactive resets the tracked bits of a hart and leaves halted, running and havereset |
| HartLaws.UnavailableLaw | src/pydebug/model/predictor.py:643-715 | in any state, unavailability is acknowledged only by name once available, and a hart that is not available ignores halt and resume requests |
| HartLaws.DmstatusHartBits | src/pydebug/model/predictor.py:959-1003 | the all and any bit of each pair of dmstatus both say what the module holds of the selected hart, pair by pair |
| HartLaws.DmstatusModuleBits | src/pydebug/model/predictor.py:974-1010 | the other bits of dmstatus by position, the reserved ones 0 |
| HartHistory.PowersOn | src/pydebug/model/predictor.py:345-382 | after the constructor and after set_config every hart runs and only the two declared bits can be set |
| HartHistory.HaveresetMeans | src/pydebug/model/predictor.py:717-788 | over every run a hart shows havereset exactly if a reset of it, or power-on, was not acknowledged since, told by the words written alone |
| HartHistory.ResumeackMeans | src/pydebug/model/predictor.py:682-768 | over every run a hart's resume acknowledgement says whether its last resume found it halted, or is the declared value if a reset followed or there was none |
| HartHistory.DmstatusHistory | src/pydebug/model/predictor.py:989-992 | so bits 19, 18, 17 and 16 of dmstatus report exactly that of the selected hart, over every run |
| HartHistory.DmstatusModule | src/pydebug/model/predictor.py:974-1010 | over every run bits 24, 15, 14 and 5 by the last dmcontrol word and the device, and no hart bit of a hart that is not there |
| ReadBack.SbcsReadsBack | src/pydebug/model/predictor.py:558-564 | every writable sbcs setting reads back as written, sbaccess as declared where tied off |
| ReadBack.AbstractautoReadsBack | src/pydebug/model/predictor.py:882-887 | abstractauto reads back masked to the words there are |
| ReadBack.HawindowReadsBack | src/pydebug/model/predictor.py:501-505 | hawindow reads back masked to the harts of the selected window that exist |
| RegisterLaws.HartinfoBits | src/pydebug/model/predictor.py:874-876 | hartinfo, bit by bit |
| RegisterLaws.AbstractcsBits | src/pydebug/model/predictor.py:877-879 | abstractcs, bit by bit |
| RegisterLaws.SbcsBits | src/pydebug/model/predictor.py:906-913 | sbcs, bit by bit |
| RegisterLaws.HaltsumReads | src/pydebug/model/predictor.py:844-899 | the four haltsum registers by address: which halted harts each bit covers |
| RegisterLaws.AbsentReadsZero | src/pydebug/model/predictor.py:858-925 | the registers of a feature the device does not declare read 0 |
| RegisterLaws.TableDecodesHartinfo | src/pydebug/model/registers.py:273-293 | the declared hartinfo table decodes the predicted word to the declared device |
| RegisterLaws.DataReadsBack | src/pydebug/model/predictor.py:479-499 | a data word that is there comes back and is claimed, staged only from data0 and data1; one that is not reads 0 and changes nothing |
| RegisterLaws.Sbaddress0Law | src/pydebug/model/predictor.py:574-586 | a write of sbaddress0 fetches exactly with sbreadonaddr, claims the fetched word exactly if memory holds it, and drops the claim on sbdata1 |
| RegisterLaws.Sbdata0Law | src/pydebug/model/predictor.py:597-600 | a read of sbdata0 fetches exactly with sbreadondata, from the address it then moves on from |
| RegisterLaws.ClaimedExactly | src/pydebug/model/predictor.py:802-842 | a read is claimed exactly if the module is declared and active and neither lost the value nor leaves the register unsimulated |
| RegisterLaws.BusyRefuses | src/pydebug/model/predictor.py:417-428 | a busy module refuses exactly the stated registers; every other write acts as when idle |
| RegisterLaws.OthersIgnored | src/pydebug/model/predictor.py:422-457 | a write to any other address, or to a register the device does not have, changes nothing |
| RegisterLaws.ResetValues | src/pydebug/model/predictor.py:316-382 | after dmactive=0 every register has its reset value, and the shadows, the armed bit and the device are kept |
| RegisterLaws.PowerOnValues | src/pydebug/model/predictor.py:182-382 | the same after the constructor and set_config, the shadows empty at power-on |
| RegisterLaws.AutoexecReplays | src/pydebug/model/predictor.py:470-515 | an access to a word armed by its own bit of abstractauto is the plain access followed by the last command written again |
| Agreement.ExactReports | src/pydebug/model/invariants.py:804-869 | each rule's verdict on the model's own traffic, violation by violation |
| Agreement.CheckerAgreesWithModel | src/pydebug/model/invariants.py:804-869 | over every run and next operation a violation not of the stimulus is reported exactly on the stated operations |
| Agreement.WithoutHartreset | src/pydebug/model/invariants.py:162-176 | with hartreset tied to 0 the reset family is exactly a halt pending on this ndmreset release |
| Disagreements.ReleaseDisagrees | src/pydebug/model/invariants.py:462-554 | from every state one write leads to a resume, released into a pending halt, for which the checker reports the model |
| Disagreements.StepDisagrees | src/pydebug/model/predictor.py:706-715 | from every idle state a halt and a dcsr write with step lead to a resume for which the checker reports the model |
| RuleMeaning.PairReported | src/pydebug/model/invariants.py:223-245 | any dmstatus read-back breaks a pair exactly if its upper bit is set and its lower clear |
| RuleMeaning.GenuinePairPasses | src/pydebug/model/invariants.py:223-245 | a word that says all and any of a non-empty selection is never reported |
| RuleMeaning.VersionReported | src/pydebug/model/invariants.py:247-262 | version 0 is reported exactly while active and out of ndmreset |
| RuleMeaning.PendingReported | src/pydebug/model/invariants.py:264-287 | a clear bit 24 is reported exactly under ndmreset from version 1.0 on |
| RuleMeaning.PredictionReported | src/pydebug/model/invariants.py:842-850 | without a dmstatus read-back only version 0 can be reported of the predicted word |
| RuleMeaning.ReadsZeroReported | src/pydebug/model/invariants.py:290-318 | any dmcontrol read-back is reported for exactly the write-only bits it shows |
| RuleMeaning.SeveralReported | src/pydebug/model/invariants.py:321-346 | a write is reported exactly if two of bits 30, 29, 28, 3 and 2 are set |
| RuleMeaning.LostReported | src/pydebug/model/invariants.py:557-607 | a lost havereset is reported for any states, unless the write resets the module or acknowledges that hart |
| RuleMeaning.SelectedConforms | src/pydebug/model/invariants.py:381-554 | the selected hart's transition is reported by some rule exactly if it does not do what section 3.5 asks |
| RuleMeaning.HaltreqReported | src/pydebug/model/invariants.py:381-459 | each way a halted hart can fail to ignore a halt request, one rule each, for any states |
| RuleMeaning.ResumeReported | src/pydebug/model/invariants.py:462-520 | each way a halted hart can fail a resume |
| RuleMeaning.RunningReported | src/pydebug/model/invariants.py:521-554 | each way a running hart can fail a resume |
| RuleMeaning.ReleaseReported | src/pydebug/model/invariants.py:628-707 | each wrong way out of reset, for any states |
| RuleMeaning.OtherHartReported | src/pydebug/model/invariants.py:710-747 | a moved halt-on-reset bit of a hart not selected is reported |
| RuleMeaning.ResetFieldReported | src/pydebug/model/invariants.py:750-783 | after dmactive=0 exactly the dmcontrol fields left set are reported |
| RuleMeaning.RequestBitReported | src/pydebug/model/invariants.py:784-801 | after dmactive=0 exactly the request bits left standing are reported |
| Checker.HaltedRunningMutex | src/pydebug/model/invariants.py:186-212 | lists exactly the harts both halted and running |
| Checker.CheckDmstatusWord | src/pydebug/model/invariants.py:215-287 | lists exactly the all/any pairs broken, version 0 while active, and a missing ndmresetpending |
| Checker.DmcontrolReadsZero | src/pydebug/model/invariants.py:290-318 | lists exactly the write-only fields that read nonzero |
| Checker.HaveresetRules | src/pydebug/model/invariants.py:557-625 | reports exactly the harts whose havereset vanished unacknowledged or survived an acknowledgement |
| Checker.ResetReleaseRule | src/pydebug/model/invariants.py:628-707 | reports exactly the wrong release edges |
| Checker.ResethaltreqRule | src/pydebug/model/invariants.py:710-747 | reports exactly the unselected harts whose halt-on-reset bit moved |
| Checker.TransitionRules | src/pydebug/model/invariants.py:816-869 | reports exactly what the rules say of one dmcontrol write |
| Checker.CheckAll | src/pydebug/model/invariants.py:804-869 | reports a violation exactly if the rules require it for this operation |
| Coverage.BinsAndExclusionsDisjoint | src/pydebug/model/coverage.py:203-211 | no key is both a bin and an exclusion |
| Coverage.SamplingTotal | src/pydebug/model/coverage.py:816-925 | whatever the state, operation, address and word, every key hit is declared |
| Coverage.HgselectBinReadsGroup | src/pydebug/model/coverage.py:910-914 | the hgselect bin records whether the group number is odd |
| Observer.DebugCoverageModel.constructor | src/pydebug/model/coverage.py:145-226 | the dictionaries hold exactly the declared bins and exclusions, all at 0 |
| Observer.DebugCoverageModel.BuildDmstatusFieldBins | src/pydebug/model/coverage.py:430-551 | both values of every one-bit field are declared, as an exclusion exactly where out of slice, and the version enumeration |
| Observer.DebugCoverageModel.BuildAllAnyBins | src/pydebug/model/coverage.py:553-633 | four combinations per pair, the mixed ones and both-unavailable as exclusions |
| Observer.DebugCoverageModel.BuildCrossBins | src/pydebug/model/coverage.py:635-812 | the crosses, with halted-to-reset as an exclusion |
| Observer.DebugCoverageModel.Hit | src/pydebug/model/coverage.py:1112-1127 | one count goes up by one, or the key is undeclared |
| Observer.DebugCoverageModel.SampleDmcontrolWrite | src/pydebug/model/coverage.py:927-1029 | exactly the stated bins are hit, in order, and the inferred state is updated as stated |
| Observer.DebugCoverageModel.SampleDmstatusRead | src/pydebug/model/coverage.py:1031-1077 | exactly the stated bins are hit, in order, and the inferred state is updated as stated |
| Observer.DebugCoverageModel.SampleExternalDebug | src/pydebug/model/coverage.py:844-925 | exactly the stated external-debug bins are hit, the trigger type read from the staged operand |
| Observer.DebugCoverageModel.Sample | src/pydebug/model/coverage.py:816-842 | dispatch, the counts kept equal to the occurrences in the history, and no KeyError |
| Observer.DebugCoverageModel.SliceComplete | src/pydebug/model/coverage.py:1172-1189 | the un-hit bins and contradicted exclusions are exactly those never, and ever, hit |
| CoverageRuns.BusOnlyReconstruction | src/pydebug/model/coverage.py:927-1029 | over every run the observed ndmreset, selection while active, and halt-on-reset bits are the module's |
| CoverageRuns.ObservedState | src/pydebug/model/coverage.py:1031-1108 | over every run the inferred state is the true state of the hart last read, unknown exactly without a read since the last module reset |
| CoverageRuns.TransitionsAreReal | src/pydebug/model/coverage.py:1056-1077 | a transition bin is hit exactly when one hart made that move between two reads |
| CoverageRuns.ExclusionsExact | src/pydebug/model/coverage.py:477-551 | the exact account, key by key, of the exclusions an operation after a run hits |
| CoverageRuns.OnlyTwoExclusions | src/pydebug/model/coverage.py:306-316 | a correctly configured run contradicts no exclusion but a dmstatus write and halted-to-reset |
| CoverageRuns.ConfiguredSession | src/pydebug/model/coverage.py:306-316 | the same for every session that declares the device first |
| CoverageRuns.HaltedToInResetIsReachable | src/pydebug/model/coverage.py:668-679 | the excluded transition is reached by four operations from any module reset |
| CoverageRuns.ReleaseBinMeaning | src/pydebug/model/coverage.py:1017-1029 | what a reset-release bin says of the selected hart, how that hart ends up, and exactly on which writes the two agree |
| CoverageRuns.ReleaseBinMisnames | src/pydebug/model/coverage.py:1017-1029 | a two-write run from any module reset in which the bin counts a release with the bit set and the hart runs |
| CoverageRuns.ResumeCrossExact | src/pydebug/model/coverage.py:970-982 | the resume cross is hit exactly with the state last read, of whichever hart was selected then |
| CoverageRuns.ResumeCrossBelongs | src/pydebug/model/coverage.py:970-982 | whose state the cross counts, and exactly when that is the hart being resumed |
| CoverageRuns.ResumeCrossMisnamesHart | src/pydebug/model/coverage.py:970-982 | a four-operation run from any module reset in which the cross names another hart's state |
| BinMeaning.ControlFieldBin | src/pydebug/model/coverage.py:927-934 | a dmcontrol field bin is hit exactly by a write with that value in that field's bit |
| BinMeaning.HartselBinHit | src/pydebug/model/coverage.py:936-950 | each hartsel bin is a range of the 20-bit index |
| BinMeaning.RequestBin | src/pydebug/model/coverage.py:952-956 | the request cross is bits 31 and 30 of the word |
| BinMeaning.MutexBinHit | src/pydebug/model/coverage.py:958-963 | the mutex bins count the exclusive bits set: none, one, more |
| BinMeaning.ObservedHavereset | src/pydebug/model/coverage.py:984-996 | over every run the observed havereset is the module's at the last dmstatus read, cleared by acknowledgements that kept the selection |
| BinMeaning.AckBinExact | src/pydebug/model/coverage.py:984-996 | over every run the acknowledgement cross is hit exactly with that value and bit 28 |
| BinMeaning.KnownIsRead | src/pydebug/model/coverage.py:984-996 | whose havereset it is: that of the hart selected at the last read, acknowledged since or not |
| BinMeaning.AckBinMisnamesHart | src/pydebug/model/coverage.py:984-996 | a run in which the cross counts an acknowledgement of a set bit though that of the hart named is clear |
| BinMeaning.EdgeBinExact | src/pydebug/model/coverage.py:998-1029 | over every run a reset-edge bin is hit exactly when ndmreset moves that way, named by the set and clear requests since the last module reset |
| BinMeaning.StatusFieldBin | src/pydebug/model/coverage.py:1031-1038 | a dmstatus field bin is hit exactly by a read with that value in that field's bit |
| BinMeaning.VersionBin | src/pydebug/model/coverage.py:1040-1049 | the version bins name the low four bits |
| BinMeaning.PairBinIsReal | src/pydebug/model/coverage.py:1051-1056 | over every run an all/any bin says what the module holds of the selected hart |
| BinMeaning.TransitionBin | src/pydebug/model/coverage.py:1058-1108 | for any word read and any state of the observer: the state the bits tell, and the transition bin exactly for a change between two live states of one hart |
| BinMeaning.CommandBins | src/pydebug/model/coverage.py:863-883 | the command bins by bits 18, 17 and 16 and the register number |
| BinMeaning.TriggerTypeExact | src/pydebug/model/coverage.py:853-881 | over every run a trigger type is that of the word last written to the data register the transfer uses |
| BinMeaning.AbstractcsBins | src/pydebug/model/coverage.py:885-890 | the abstractcs bins by the bits read |
| BinMeaning.SystemBusBins | src/pydebug/model/coverage.py:895-908 | the system bus bins by address, direction and bits |
| BinMeaning.Dmcs2Bins | src/pydebug/model/coverage.py:910-918 | the dmcs2 bins by the bits written |
| BinMeaning.AddressBins | src/pydebug/model/coverage.py:859-925 | the bins of an address and a direction alone |
| BinPopulation.ExclusionsListed | src/pydebug/model/coverage.py:301-679 | the exclusions, one by one |
| BinPopulation.PopulationExact | src/pydebug/model/coverage.py:217-316 | what can be hit is exactly what is declared, but for the wholly excluded groups |
| BinPopulation.CountedOnce | src/pydebug/model/coverage.py:816-842 | one sample counts no key twice |
| AbstractShadow.ExecuteExact | src/pydebug/model/predictor.py:521-554 | an abstract command, written or replayed, keeps every claim true of the reference exactly if it writes no readable register from data0 or data1 that differ from the words last written to them over the bus |
| AbstractShadow.IgnoredExact | src/pydebug/model/predictor.py:422-461 | a word the shadow takes and an inactive module ignores leaves the two in agreement, on claims, last command and abstractauto, exactly if it is 0 |
| AbstractShadow.StepExact | src/pydebug/model/predictor.py:422-554 | an operation keeps the two in agreement, on every claim, the last command and abstractauto, if and only if it keeps the discipline |
| AbstractShadow.ShadowIsSound | src/pydebug/model/predictor.py:470-554 | over every disciplined run a claimed data register reads in the reference as predicted |
| AbstractShadow.DisciplineIsExact | src/pydebug/model/predictor.py:470-554 | over every disciplined run and every next operation in scope the two stay in agreement if and only if it keeps the discipline too |
| AbstractShadow.ReadShows | src/pydebug/model/predictor.py:528-550 | what the shadow holds of a register is right exactly if reading that register shows no false claim |
| AbstractShadow.StaleWriteShows | src/pydebug/model/predictor.py:530-550 | after a register is written and read back each data register's claim is right exactly if it held the word last written to it |
| AbstractShadow.StaleDataMisleads | src/pydebug/model/predictor.py:538-550 | x5 moved to x6 through data0: x6 is claimed to hold the last written data0, right exactly if x5 is that word |
| AbstractShadow.StaleRunMisleads | src/pydebug/model/predictor.py:538-550 | the same as a run from power-on, whose claim is wrong exactly if x5 is not 0 |
| AbstractShadow.NdmresetExact | src/pydebug/model/predictor.py:717-748 | after ndmreset takes the hart out of halted, the claims hold whatever its registers are exactly if no readable register was held |
| AbstractShadow.InactiveWriteMisleads | src/pydebug/model/predictor.py:422-461 | a word written to any data register while inactive is claimed after activation, wrong exactly if it is not 0 |
| HaltSummary.AnyHalted | src/pydebug/model/predictor.py:844-856 | haltsum3 is nonzero exactly if some hart is halted |
| HaltSummary.DrillDown | src/pydebug/model/predictor.py:844-856 | a bit of haltsum3 or haltsum2 is set exactly if the level below is nonzero once hartsel points into its block |
| HaltSummary.WindowHalted | src/pydebug/model/predictor.py:844-856 | a bit of haltsum1 is set exactly if its 32-hart window holds a halted hart |
| HaltSummary.HaltedShowsEverywhere | src/pydebug/model/registers.py:495-497 | a halted hart's haltsum_bit is set at every level on the way to it |
| HaltSummary.DescentByWrite | src/pydebug/model/predictor.py:844-856 | after a real selecting write every level says whether the one below is nonzero and whether the window holds a hart halted before it |
| HaltSummary.Haltsum0IsFixed | src/pydebug/model/predictor.py:888-893 | haltsum0 shows harts 0 to 31 whatever hartsel is |
| SystemBus.AddressLaw | src/pydebug/model/predictor.py:566-600 | after any stream of which k accesses move the address it is start + k*2^sbaccess, with the 64-bit carry only on a bus wider than 32 bits |
| SystemBus.StreamRoundTrip | src/pydebug/model/predictor.py:558-600 | the i-th word of any stream that fits the 32-bit address space is claimed and predicted when streamed back in |
| DmReset.ResetIsCanonical | src/pydebug/model/predictor.py:316-382 | a dmactive=0 write makes two modules of one configuration equal exactly if the survivors agree |
| DmReset.LaterPredictionsAgree | src/pydebug/model/predictor.py:316-382 | so from any two reachable states with agreeing survivors every later claim and prediction agrees |
| DmReset.ArmedSurvives | src/pydebug/model/predictor.py:316-343 | the armed read-on-address outlives the reset and shows |
| Driver.HaltTakesEffect | src/pydebug/api/riscv_dm.py:313-334 | the first poll after a halt request reads allhalted exactly if the hart is not stuck in hartreset |
| Driver.ResumeTakesEffect | src/pydebug/api/riscv_dm.py:336-354 | the first poll after a resume reads allrunning exactly if no armed step re-halts the hart |
| Driver.OthersStandStill | src/pydebug/api/riscv_dm.py:313-377 | with ndmreset low no request touches an unselected hart |
| Driver.RequestWords | src/pydebug/api/riscv_dm.py:299-354 | the words that halt, resume and select name the hart and set no other bit but dmactive and the request |
| Driver.WriteThenRead | src/pydebug/api/riscv_dm.py:509-533 | a 32-bit register write followed by a read predicts the value written, 0 for x0, and nothing for a trigger CSR |
| Driver.WriteThenRead64 | src/pydebug/api/riscv_dm.py:535-556 | both halves of a 64-bit register write come back |
| Driver.RISCVDebug.PollUntil | src/pydebug/api/riscv_dm.py:734-745 | success is the predicate on the unchanging register, at the first poll or never |
| Driver.RISCVDebug.Activate | src/pydebug/api/riscv_dm.py:260-273 | fails exactly when the module reports version 0 |
| Driver.RISCVDebug.Deactivate | src/pydebug/api/riscv_dm.py:275-295 | one write of dmactive=0, and hartsel forgotten |
| Driver.RISCVDebug.SelectHart | src/pydebug/api/riscv_dm.py:299-309 | one selecting write, and hartsel remembered |
| Driver.RISCVDebug.Halt | src/pydebug/api/riscv_dm.py:313-334 | succeeds on the first poll exactly if the hart is not stuck in hartreset, and then leaves it halted with the request cleared |
| Driver.RISCVDebug.Resume | src/pydebug/api/riscv_dm.py:336-354 | succeeds on the first poll and leaves the hart running, or, with a step armed, never |
| Driver.RISCVDebug.ResumeNoWait | src/pydebug/api/riscv_dm.py:356-375 | the step is over and acknowledged when it returns |
| Driver.RISCVDebug.WaitAbstractcs | src/pydebug/api/riscv_dm.py:747-761 | the predicted abstractcs is never busy and never in error |
| Driver.RISCVDebug.WriteReg64 | src/pydebug/api/riscv_dm.py:550-556 | three writes: the low half, the high half, the command |
| Driver.RISCVDebug.SetStep | src/pydebug/api/riscv_dm.py:642-656 | the step the next resume takes is the one asked for, no other bit of a claimed dcsr changes, and no hart moves |
| Bridge.Reachable | src/pydebug/c_bridge/uvm_bridge.c:178-284 | every interleaving keeps the invariant that places each request in exactly one stage |
| Bridge.RepliesInOrder | src/pydebug/c_bridge/uvm_bridge.c:178-312 | the k-th reply carries the identifier the server reads in the k-th line received, and the data produced for the operation it reads there |
| Bridge.WireIsFgets | src/pydebug/c_bridge/uvm_bridge.c:306-313 | the lines received are what fgets, call after call, makes of the bytes sent |
| Bridge.RepliesAnswerCalls | src/pydebug/c_bridge/uvm_bridge.c:178-284 | with every line within the buffer the k-th reply answers the k-th call, number and packed operation, if and only if it is no log that fakes the identifier or a verbosity other than 0 |
| Bridge.AcceptedIsGenuine | src/pydebug/api/uvm_transport.py:258-281 | whatever was sent before, faked keys, cut lines and calls that gave up included, an accepted reply is the answer to the first line received of the very call that waits |
| Bridge.AcceptedAnswersCall | src/pydebug/api/uvm_transport.py:258-281 | an accepted reply to a call within the buffer carries what the simulator produced for its operation, but for a log that fakes its verbosity |
| Bridge.CallsAreServed | src/pydebug/c_bridge/uvm_bridge.c:214-277 | in every interleaving a call within the buffer that fakes no key is served: the slots held its code, address and data, the simulator ran what it means, and the reply carries its number and exactly the returned values |
| Bridge.AcceptedIsServed | src/pydebug/api/uvm_transport.py:258-281 | an accepted reply to such a call is that of the call served |
| Requests.DispatchedAsMeant | src/pydebug/sv/env/py_bridge.sv:101-214 | packing, operation codes and the simulator's unpacking agree: it runs what the client meant, for every request |
| Bridge.LongLineDesynchronises | src/pydebug/c_bridge/uvm_bridge.c:288-313 | after a line past the buffer no reply to a later call is ever accepted |
| Bridge.TextReadIsRaceFree | src/pydebug/c_bridge/uvm_bridge.c:324-340 | while a taken request is unanswered the text and the slots are its own, as read from its line, and no server step writes them |
| Bridge.TextReadIsTheCalls | src/pydebug/c_bridge/uvm_bridge.c:259-277 | with every line within the buffer the text printed is the text of the log call being answered, each character as the scanner makes it |
| Bridge.EveryStepAdvances | src/pydebug/c_bridge/uvm_bridge.c:178-284 | every server or simulator step but three idle ones brings the reply nearer |
| Bridge.HelpfulStep | src/pydebug/c_bridge/uvm_bridge.c:240-242 | with a request in hand some step is enabled and brings the reply nearer: no deadlock, no lost wake-up |
| Bridge.NeverStuck | src/pydebug/c_bridge/uvm_bridge.c:345-361 | from every reachable state with a request in hand its reply can be reached |
| Requests.JtagScanCarries | src/pydebug/c_bridge/uvm_bridge.c:229-232 | the simulator unpacks exactly the register, length and pause the client asked for; other lengths are refused |
| Requests.TmsWalkCarries | src/pydebug/api/uvm_transport.py:241-250 | every TMS value arrives, in order, with the count |
| Bridge.ReadReturnsKnownData | src/pydebug/api/uvm_transport.py:156-169 | read returns the simulator's value only if no bit of it was unknown |
| Json.Strstr | src/pydebug/c_bridge/uvm_bridge.c:97-103 | the first occurrence, or none |
| Json.JsonGetInt | src/pydebug/c_bridge/uvm_bridge.c:97-107 | the saturated number after the key's first occurrence, 0 if there is none, untouched without the key |
| Json.JsonGetStr | src/pydebug/c_bridge/uvm_bridge.c:110-125 | the characters up to the closing quote, cut to the buffer |
| Json.JsonGetStrEsc | src/pydebug/c_bridge/uvm_bridge.c:129-160 | the unescaped characters up to the closing quote, cut to the buffer |
| LineProtocol.RestAfterJoined | src/pydebug/c_bridge/uvm_bridge.c:97-103 | the scanner stops at the first stretch between quotes that is the key itself |
| LineProtocol.NumberRead | src/pydebug/c_bridge/uvm_bridge.c:104-106 | a printed number is read back whole up to the 64-bit limits |
| LineProtocol.TextRead | src/pydebug/c_bridge/uvm_bridge.c:139-159 | unescaping a printed text gives each character as the scanner makes it |
| LineProtocol.TextSurvives | src/pydebug/c_bridge/uvm_bridge.c:139-159 | a text of safe characters comes back as it was, and only safe characters ever come back |
| BridgeLines.ReadRequest | src/pydebug/c_bridge/uvm_bridge.c:178-194 | the request a received line stands for |
| BridgeLines.LogLineUnderstood | src/pydebug/api/uvm_transport.py:143-152 | a log line's operation, text, identifier and verbosity come back, with the exact exceptions |
| BridgeLines.LogIdentified | src/pydebug/api/uvm_transport.py:262-281 | the reply is taken for the line's own exactly if the text does not fake the identifier |
| BridgeLines.CommandUnderstood | src/pydebug/c_bridge/uvm_bridge.c:178-239 | every printed command reaches the simulator as the request it was |
| BridgeLines.CommandTexts | src/pydebug/api/uvm_transport.py:156-265 | each command line as it goes over the wire, key by key |
| BridgeLines.ShutdownUnderstood | src/pydebug/api/uvm_transport.py:109-115 | the shutdown line, identifier first, comes back with the number of failed steps |
| BridgeLines.LineUnderstood | src/pydebug/c_bridge/uvm_bridge.c:178-277 | what the server makes of any line the client can print within the buffer |
| ReceivedLines.LineRead | src/pydebug/c_bridge/uvm_bridge.c:306-313 | fgets reads a line as its pieces of at most 1023 characters, an empty one after a line of exactly 1023 included |
| ReceivedLines.CommandIsShort | src/pydebug/api/uvm_transport.py:156-251 | only a log line can be past the receive buffer |
| ReceivedLines.PieceIdentifier | src/pydebug/c_bridge/uvm_bridge.c:97-107 | no stretch cut out of a printed line is read with a larger identifier than the line's own |
| CommandPrograms.Gen | mk/dm_abstract_cmd_bits.py:49-86 | the patched list is, half word by half word, the program of the command |
| ProgramRuns.MovesInteger | mk/dm_abstract_cmd_bits.py:22-86 | executed by a RISC-V hart, the program of a command on an integer register moves exactly that register, x10 and s0 included, to or from the data words, and ends where the command says |
| ProgramRuns.MovesFloat | mk/dm_abstract_cmd_bits.py:24-86 | the same for a floating-point register |
| ProgramRuns.MovesCsr | mk/dm_abstract_cmd_bits.py:26-86 | the same for every CSR but the two scratch registers |
| ProgramRuns.ScratchMisses | mk/dm_abstract_cmd_bits.py:57-80 | a command on dscratch0 or dscratch1 reads, or overwrites, s0 or x10 instead |
| ProgramRuns.RefusedOrEmpty | mk/dm_abstract_cmd_bits.py:71-86 | every other command stops or faults at the first instruction with the hart untouched |
| ProgramRuns.UnusedSlots | mk/dm_abstract_cmd_bits.py:49-86 | also where it is never executed: the middle is empty if nothing moves, and the program goes on exactly for a supported register access with postexec |
| ConstantBits.SampleIsExact | mk/dm_abstract_cmd_bits.py:32-48 | a bit is constant over the sample exactly if it is constant over every shape there is |
| ConstantBits.ConstantPositions | mk/dm_abstract_cmd_bits.py:87-100 | the computed masks mark exactly the positions no command at all can change |
| Masks.ConstantMasks | mk/dm_abstract_cmd_bits.py:93-99 | the AND-masks hold exactly the bits common to all words |
| NativeTriggers.NativeTriggerModel.Configure | src/pydebug/model/native_trigger.py:130-132 | the trigger is replaced and its pending bit cleared |
| NativeTriggers.NativeTriggerModel.One | src/pydebug/model/native_trigger.py:176-230 | whether one trigger fires on an event, what the handler sees, and its state afterwards |
| NativeTriggers.NativeTriggerModel.Happens | src/pydebug/model/native_trigger.py:148-174 | the lowest trigger that fires is returned, and exactly the triggers up to it have seen the event |
| TriggerLaws.FiringExact | src/pydebug/model/native_trigger.py:98-230 | a trigger fires exactly if the bits of its registers say so, no lower one does, and the hart is not protected |
| TriggerLaws.HandlerSees | src/pydebug/model/native_trigger.py:176-230 | what epc and tval a firing leaves, type by type |
| TriggerLaws.CountsDown | src/pydebug/model/native_trigger.py:195-210 | one event takes one from the count of an icount trigger it reaches and enables, and changes nothing else |
| NativeTriggers.IcountState | src/pydebug/model/native_trigger.py:195-217 | over every stream the count is what is left, no other bit changed, and pending is clear between events |
| NativeTriggers.IcountFiresOnce | src/pydebug/model/native_trigger.py:195-217 | it fires at the n-th event it counts and at no other |

## Left out

- Checker.CheckAll: the order and number of reports, their severities and texts are not modelled; a report is a member of the list.
- Checker.TransitionRules: as for CheckAll, messages and order are left out.
- Agreement.CheckerAgreesWithModel: needs at least one implemented hart; with none declared the predictor still keeps one hart record, flagged nonexistent by the first dmcontrol write.
- Predictor.DMPredictor.Predict: an over-wide declared field (haltsum excepted) is masked as the original masks it, but authdata and predict_mask, which only select bits to compare, are not modelled.
- Predictor.DMPredictor.OnWrite: harts are records in a sequence rather than objects shared by reference, so aliasing of a hart record is not captured; hasel never selects more than one hart in the original either.
- Coverage.SamplingTotal: keys are structured values; that the original's dotted strings are distinct for distinct keys is not modelled.
- Observer.DebugCoverageModel.SliceComplete: the sets are modelled, not the sorted report, its percentage or the exception text.
- AbstractShadow.ShadowIsSound: assumes commands succeed (no cmderr), that a CSR other than the trigger CSRs reads back as written, one halted hart addressed throughout, 32- or 64-bit transfers, and no reset; ndmreset is judged by itself in NdmresetExact.
- SystemBus.StreamRoundTrip: the memory shadow is keyed by sbaddress0 alone, as in the original, so addresses that differ only in sbaddress1 are one place.
- Driver.RISCVDebug.PollUntil: the deadline is a limit on the number of polls; sleeping and the clock are left out.
- Driver.RISCVDebug.WaitAbstractcs: a command error is a false result rather than an exception.
- Bridge.RepliesInOrder: assumes what the bridge assumes: the simulator polls on, and answers each taken request once; one connection, on which no byte is lost.
- ProgramRuns.MovesInteger: what a sized load or store makes of a value (sign extension, NaN boxing, bytes kept) is a parameter; CSR side effects, other harts and the debug ROM that enters the program are left out.
- HartHistory.DmstatusHistory: needs an implemented hart selected; with none declared the one hart record is covered by HartLaws.DmstatusHartBits alone.
- ConstantBits.ConstantPositions: the comparison with a coverage report is left out, and words seen twice are kept twice, which the masks do not notice.
- NativeTriggers.NativeTriggerModel.Happens: the explanation text of a firing is left out; its cause is always the breakpoint exception.
- sync_observed_hart_signals, which injects arbitrary signal values and breaks the run invariants by design.
- Logging, sockets and accept loops, OpenOCD, the command line and interactive shell, scenario scripts and reports: input, output and stimulus.
- The SystemVerilog sequences behind the dispatch of the bridge (modelled as `Requests.Dispatch`), and the simulator itself.
- The memory helpers of the debugger (read_mem32, write_mem32) and its one-line accessors: easy members beside the ones modelled.
