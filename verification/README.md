# Verified model of the marine control kernels

This project models the parts of the control stack that carry real arguments, and proves
what they are there for:

- **Signal processing** (`NotchFilter`, `NotchGain`, `ClampedFilter`, `WaveProcessor`,
  `BankSuction`, `BridgeEngine`, `EngineAnswers`): the second-order steering notch filter with its stability,
  tracking, wave-rejection and gain theory, also with its clamped output written back as the
  engine runs it; the two-dimensional bank-suction interpolation; the engine cycle with its
  ramp, conditional integrator and saturations, and how it answers each of its inputs.
- **Audit ledger** (`BootVerifier`, `ShoreLogger`): the boot-time hash-chain check and the
  asynchronous logger that writes the chain, as one transition system over the atomic steps
  of the capturing thread and the disk worker.
- **Wire formats** (`NmeaFrame`, `ActuatorSerializer`, `NmeaParser`, `NmeaSentences`,
  `ActuatorReceiver`, `GrayCode`, `TcpListener`, with `Text`, `Utf8`, `Bits` and `Common` below them): checksummed
  sentences, the Gray-code shaft decoder and newline reassembly of a chunked byte stream.
- **Supervision** (`Watchdog`, the jam timer of `ActuatorReceiver`, `Halyard`).

Objects whose methods update fields are classes; every such method is proved equal to a step
function, and the theorems are about all sequences of steps. Floating-point numbers are exact
reals. SHA-256 is an arbitrary function to 64-character digests, `json.loads`, `float()` and
`int(s, 16)` are arbitrary parse functions; the values of `tan` and `exp`, clock readings and
telemetry are parameters; the sine is any function that rises on a quarter turn from 0 to 1
(`WaveProcessor.Rises`), and for numbers also lies between the first two sums of its series
(`WaveProcessor.SineLike`). `dafny verify dfyconfig.toml` checks everything.

Where a promise of the code fails, the code is modelled as it is and the exact condition is
proved:

- The notch filter is called removing; at its centre frequency it settles to 1/14 of the
  wave (`NotchFilter.RejectsWave`). Its energy never grows exactly when the tangent
  coefficient is non-negative; a sampling interval long enough to turn the tangent negative
  makes it gain energy (`NotchFilter.NeverGrowsIff`) and amplify commands
  (`NotchGain.GainAtMostOneIff`).
- The engine writes the clamped rudder back into the filter. With a constant cap the filter
  still settles at the limited command, from any state (`ClampedFilter.ClampedTracks`,
  `BridgeEngine.RudderTracks`). The cap shrinks with the shaft speed, and that can feed energy
  in: one step gains energy exactly when it overshoots a limit that the older output is beyond
  as well (`ClampedFilter.ClampedGrowsIff`), and with tangent t the energy falls through every
  run exactly when no cap falls short of |1 - t^2|/(1 + t^2) of the one before
  (`ClampedFilter.DesignedCapsIff`, `BridgeEngine.RudderEnergyIff`). At 50 Hz a cap that falls
  from 35 to 34.98 degrees in one cycle is enough, in a five-cycle run of the engine
  (`BridgeEngine.FedByShrinkingCap`).
- The roll damping is commanded through the notch filter. Rolling at the notch frequency, which
  is what the damping is for, the rudder converges to a fourteenth of the damping demanded
  (`EngineAnswers.RollDampingNotched`).
- The wave forecast gives its greatest weight, 0.842, to the oldest of its five readings and its
  least, 0.009, to the newest (`WaveProcessor.ForecastByAge`).
- The reported shaft angle, after rounding to two decimals, stays below 360 exactly up to 16
  bits of resolution (`GrayCode.ReportedAngleBelowFullTurn`).
- The text received does not depend on how the command stream is cut exactly when no cut goes
  through a multi-byte character; a character cut in two is dropped, as the two bytes of
  U+00E9 show (`Utf8.ChunkingIrrelevantIff`, `Utf8.SplitCharacterLost`). Replies and setpoints
  depend on it, over all parsers, exactly when the dropped characters change the complete lines
  that are not blank (`TcpListener.ServedAsWholeIff`). For streams cut between characters they
  depend on it exactly when a reply that can be attempted times out, which drops the complete
  lines that arrived with it (`TcpListener.ChunkingIrrelevantTimelyIff`).
- A sentence damaged in one character is ignored unless the damage is harmless, or it turns
  the leading `$` into white space, or leading white space into `$`, so that after stripping
  another checksum-valid sentence is left; what is then read is what the undamaged line says
  (`NmeaParser.DamageDetected`, `NmeaParser.DamagedLine`, `NmeaParser.MaskedSentence`). The
  feedback receiver compares the whole header instead of its ending: such damage turns feedback
  into a foreign line or a foreign line into feedback, which then drives the jam timer
  (`ActuatorReceiver.DamagedFeedback`, `ActuatorReceiver.MaskedFeedback`); on lines with a single
  `$` damage is harmless or leaves the timer alone (`ActuatorReceiver.DamageKeepsTimer`).
- A logger session appended to an existing ledger keeps it verifiable exactly when it wrote
  nothing or started from the ledger's last hash; a restarted process starts from the genesis
  hash, so its ledger of the same day fails the boot check unless a genesis preimage is known
  (`ShoreLogger.SessionAccepted`, `ShoreLogger.NewProcessBreaksLedger`). A logger stopped and
  started again on a later day keeps its hash, and its first row then breaks the new file
  (`ShoreLogger.FreshSessionAccepted`); a disk fault while the header is written makes the
  file fail as soon as a row follows, unless snapshot fields pose as a ledger, and at once if
  it leaves an empty file, which no later session mends (`ShoreLogger.HeaderFaultRejected`,
  `ShoreLogger.EmptyFileRejected`).
- The row hash covers the comma-joined text, so it fixes the separate fields exactly when
  there is one field or none contains a comma (`BootVerifier.BodyDeterminesFields`).
- A stop issued from another thread can strand one capture in the queue; the number left
  after the worker exits is exactly the number of captures caught between test and enqueue
  (`ShoreLogger.ExitReachable`, `ShoreLogger.StrandedCapture`).
- Propeller shear protection holds exactly when the shaft turns ahead faster than 0.1 rad/s or
  the request was harmless; astern it is absent, and 200 rpm astern with the largest yaw rate
  the listener accepts gives more than 25 times the permitted moment
  (`BridgeEngine.ShearProtection`, `BridgeEngine.AsternUnprotected`).
- The ramp promises no steps; it keeps that promise in every cycle that does not find its
  register at exactly zero. A cycle that does re-seeds the register from telemetry, and jumps
  exactly when the measured speed, one step on, is more than the permitted move away from the
  last profiled speed (`BridgeEngine.ConsecutiveProfiles`, `BridgeEngine.ReseedBreaksIff`,
  `BridgeEngine.ReseedSafeIff`, `BridgeEngine.ReseedJump`).
- The ventilation index is documented to lie in 0.05 to 1. It is below the floor exactly while
  the immersed part of the diameter is above zero and below a fraction that lies between 0.142
  and 0.144: there a partly immersed propeller is rated worse than a fully exposed one
  (`WaveProcessor.VentilationFloorIff`, `WaveProcessor.FloorAngleLocated`,
  `WaveProcessor.BarelyImmersed`).
- The watchdog detects a stalled ledger only if the depth recorded at its last write was
  positive (`Watchdog.DetectionIff`).

## Model

| member | source | states |
|---|---|---|
| NotchFilter.RunLinear | src/hydrodynamics/wave_matrix_processor.py:104-110 | superposition over whole runs: weighted sums of states and command sequences give weighted sums of all four registers at every step |
| NotchFilter.EnergyBalance | src/hydrodynamics/wave_matrix_processor.py:103-110 | over any drained zero-command run, remaining energy plus (1-d2) times the sum of squared two-step differences equals the initial energy |
| NotchFilter.EnergyBounds | src/hydrodynamics/wave_matrix_processor.py:99-104 | the energy lies between two multiples of the squared output amplitude, so it is positive definite inside the stability triangle |
| NotchFilter.FreeRunBounds | src/hydrodynamics/wave_matrix_processor.py:103-110 | in every stable free run the energy never exceeds its start, every output obeys y^2 <= V0/(1+d2-abs(d1)), and the dissipation sum is at most V0/(1-d2) |
| NotchFilter.TwoStepDecay | src/hydrodynamics/wave_matrix_processor.py:103-110 | a free run loses at least a fixed positive fraction of its energy every two steps |
| NotchFilter.FreeRunSettles | src/hydrodynamics/wave_matrix_processor.py:103-110 | asymptotic stability: a drained filter with zero command comes and stays within any eps of zero |
| NotchFilter.FadingMemory | src/hydrodynamics/wave_matrix_processor.py:103-110 | under any command sequence, outputs from any two starting states come and stay within any eps of each other |
| NotchFilter.StableIffPositive | src/hydrodynamics/wave_matrix_processor.py:91-101 | the designed coefficients are in the stability triangle if and only if the tangent coefficient is positive |
| NotchFilter.NeverGrowsIff | src/hydrodynamics/wave_matrix_processor.py:91-104 | the drained energy never grows, for every state, if and only if the tangent coefficient is non-negative |
| NotchFilter.UnitGain | src/hydrodynamics/wave_matrix_processor.py:95-110 | unit gain at zero frequency, for every tangent coefficient and any number of steps |
| NotchFilter.TracksConstant | src/hydrodynamics/wave_matrix_processor.py:95-110 | from any state, under a constant command the output converges to the command |
| NotchFilter.ErrorEnergyFalls | src/hydrodynamics/wave_matrix_processor.py:95-110 | once a constant command fills the input registers, the energy of output minus command is non-increasing in time |
| NotchFilter.WaveGain | src/hydrodynamics/wave_matrix_processor.py:83-110 | a filter that has always seen a wave at the notch frequency gives exactly the wave over 14 |
| NotchFilter.RejectsWave | src/hydrodynamics/wave_matrix_processor.py:83-110 | from any state, under a wave at the notch frequency the output converges to the wave over 14 |
| NotchGain.GainBalance | src/hydrodynamics/wave_matrix_processor.py:91-110 | for any commands from rest, A0^2 times the energy of the commands less that of the outputs is 2.6t times a stored energy plus 1.95 times a sum of squares, exactly |
| NotchGain.GainAtMostOneIff | src/hydrodynamics/wave_matrix_processor.py:91-110 | the outputs never carry more energy than the commands, for every command sequence and length, if and only if the tangent coefficient is non-negative |
| ClampedFilter.ClampedEnergyStep | src/control_core/bridge_execution_engine.py:123-145 | a clamped step from inside any limits loses at least (1-d2) times the squared two-step difference |
| ClampedFilter.ClampedGrowsIff | src/control_core/bridge_execution_engine.py:123-145 | one clamped step from any drained state, for any limits, gains energy if and only if the free output and the older output exceed the same limit and twice the excess of the first is above (1-d2) times that of the second |
| ClampedFilter.CappedEnergyIff | src/control_core/bridge_execution_engine.py:284-291 | the step after an output y gains no energy, whatever the older output, if and only if abs(d1*y) is at most (1+d2) times the cap |
| ClampedFilter.CapPairIff | src/control_core/bridge_execution_engine.py:284-291 | after any step clamped to one cap the step clamped to the next gains no energy, from any state, if and only if abs(d1) times the first cap is at most (1+d2) times the second |
| ClampedFilter.CapsKeepEnergyIff | src/control_core/bridge_execution_engine.py:284-291 | with a cap for every cycle, the energy falls through every run if and only if that ratio holds between all neighbouring caps |
| ClampedFilter.DesignedCapsIff | src/control_core/bridge_execution_engine.py:123-145 | for the designed filter the ratio is abs(1-t^2)/(1+t^2) |
| ClampedFilter.ShrinkingCap | src/control_core/bridge_execution_engine.py:123-145 | from rest at the tangent of a 50 Hz loop, one large command and three of zero reach a state from which every next cap up to 34.98 of 35 degrees makes the step gain energy |
| ClampedFilter.ClampedSettles | src/control_core/bridge_execution_engine.py:123-145 | a stable drained filter between any two limits settles at zero, or at the limit nearest to it, however often it is clamped on the way |
| ClampedFilter.ClampedTracks | src/control_core/bridge_execution_engine.py:284-291 | from any state, under any constant command and cap, the clamped output converges to the clamped command |
| WaveProcessor.ForecastForgets | src/hydrodynamics/wave_matrix_processor.py:43-49 | the forecast after five readings depends on those five alone, whatever the buffer and earlier readings were |
| WaveProcessor.ForecastBound | src/hydrodynamics/wave_matrix_processor.py:28-49 | readings bounded by m give forecasts bounded by 1.538 m, and the bound is attained |
| WaveProcessor.ForecastByAge | src/hydrodynamics/wave_matrix_processor.py:28-49 | the weight of a reading at each age, from 0.009 for the newest to 0.842 for the fifth, and none after that |
| WaveProcessor.ForecastLinear | src/hydrodynamics/wave_matrix_processor.py:43-49 | the forecast of a weighted sum of two histories is the weighted sum of their forecasts |
| WaveProcessor.ModelSineIsSineLike | src/hydrodynamics/wave_matrix_processor.py:64-65 | the properties asked of the sine can be met: a computable function has them |
| WaveProcessor.VentilationFloorIff | src/hydrodynamics/wave_matrix_processor.py:51-65 | per submergence, the documented floor of 0.05 holds if and only if the propeller is exposed or the immersed fraction of the diameter reaches the angle where the squared sine is 0.05 |
| WaveProcessor.FloorAngleLocated | src/hydrodynamics/wave_matrix_processor.py:64-65 | that fraction of the diameter lies between 0.142 and 0.144 |
| WaveProcessor.BarelyImmersed | src/hydrodynamics/wave_matrix_processor.py:60-65 | a 3.4 m propeller with 0.34 m under water is rated below 0.05, worse than an exposed one |
| WaveProcessor.VentilationRange | src/hydrodynamics/wave_matrix_processor.py:51-65 | the index of an immersed propeller is in (0, 1] and never falls with depth |
| WaveProcessor.AttenuationSafe | src/hydrodynamics/wave_matrix_processor.py:67-79 | attenuation never strengthens or reverses a torque and keeps it within the limit |
| WaveProcessor.AttenuationExact | src/hydrodynamics/wave_matrix_processor.py:67-79 | a demand within the limit is left as it is if and only if the index is at least 0.9, and otherwise cut by the square of the index |
| WaveProcessor.WaveTorqueSafe | src/hydrodynamics/wave_matrix_processor.py:36-79 | end to end, after any readings the index is in (0, 1] and the torque is within its limit, at most the demand and of its sign |
| WaveProcessor.HigherSeaKeepsTorque | src/hydrodynamics/wave_matrix_processor.py:36-79 | of two sea states with the propeller immersed, the one with the higher forecast never yields the weaker torque |
| WaveProcessor.AutoregressiveWaveMatrixProcessor.ExecuteFeature43NotchFilter | src/hydrodynamics/wave_matrix_processor.py:81-112 | the register updates are one step of the filter the theory is about |
| WaveProcessor.AutoregressiveWaveMatrixProcessor.ProcessWaveMatrix | src/hydrodynamics/wave_matrix_processor.py:114-134 | the routing: forecast, ventilation of nominal depth plus forecast, attenuation by that index, and the filter on the unattenuated rudder |
| BankSuction.BilinearIsNested | src/hydrodynamics/bank_suction_lookup.py:50-80 | the clamped four-corner formula equals interpolating every row at the depth ratio and then along the resulting column |
| BankSuction.EdgesAgree | src/hydrodynamics/bank_suction_lookup.py:57-80 | every cell touching the clamped point gives the interpolated value, so search ties do not matter |
| BankSuction.KnotExact | src/hydrodynamics/bank_suction_lookup.py:50-80 | at every knot the value is the table entry |
| BankSuction.BetweenCorners | src/hydrodynamics/bank_suction_lookup.py:67-80 | the value lies between the least and greatest of the four surrounding entries |
| BankSuction.GlobalMonotone | src/hydrodynamics/bank_suction_lookup.py:50-80 | for a table descending along both axes, increasing either ratio by any amount, across any cells and the clamps, never raises the coefficient |
| BankSuction.ShippedTables | src/hydrodynamics/bank_suction_lookup.py:24-48 | both shipped tables fit the shipped axes and descend along both |
| BankSuction.CoefficientRange | src/hydrodynamics/bank_suction_lookup.py:29-80 | the two coefficients stay in [0, 0.18] and [0, 0.045] for all inputs |
| BankSuction.ApproachTightens | src/hydrodynamics/bank_suction_lookup.py:82-136 | at fixed speed, a nearer wall or shallower water never weakens force or moment and never releases the lockout |
| BankSuction.BankLaw | src/hydrodynamics/bank_suction_lookup.py:95-122 | the force and moment laws on either side, port mirroring starboard, and the lockout if and only if the force coefficient exceeds 0.06 |
| BootVerifier.CheckRowsMeaning | src/config/boot_verification_suite.py:86-107 | from any accepted prefix, the row loop accepts exactly the rows whose non-blank part continues the chain |
| BootVerifier.TamperedIsFirst | src/config/boot_verification_suite.py:88-104 | the reported row is the first, blanks counted, that breaks the chain |
| BootVerifier.TamperEvidence | src/config/boot_verification_suite.py:86-107 | two accepted ledgers ending in one hash hold the same records, or the comparison yields a hash collision or a genesis preimage |
| BootVerifier.TruncationAccepted | src/config/boot_verification_suite.py:88-107 | every prefix of an accepted ledger is accepted: cut-off rows are not detected |
| BootVerifier.BodyDeterminesFields | src/config/boot_verification_suite.py:92-96 | the hashed body determines the fields if and only if there is one field or none holds a comma |
| BootVerifier.SecureMeaning | src/config/boot_verification_suite.py:72-111 | a file is secure if and only if it reads to the end, names both hash columns and its non-blank rows chain from genesis |
| BootVerifier.MatchesIs | src/config/boot_verification_suite.py:61-73 | the files of a class are those that begin with its name and end in .csv |
| BootVerifier.LessIs | src/config/boot_verification_suite.py:61-73 | names are ordered at their first difference, and a name before all that go on from it |
| BootVerifier.Latest | src/config/boot_verification_suite.py:61-70 | the file inspected is a matching one that no other matching name follows in sorted order, and none is chosen only if none matches |
| BootVerifier.VerdictExact | src/config/boot_verification_suite.py:84-107 | by position: corruption is reported at a row if and only if the rows before it chain, blanks skipped, and it is non-blank, long enough and breaks the chain; the file is unreadable if and only if such a row is too short |
| BootVerifier.FileVerdict | src/config/boot_verification_suite.py:68-111 | exactly which files are reported corrupt at which row, without hash columns, or inaccessible |
| BootVerifier.VerifyFile | src/config/boot_verification_suite.py:68-111 | the loop with early exits reports, for each kind of fault and each row, exactly the fault the file has, and never more than one |
| BootVerifier.GenesisIsZeros | src/config/boot_verification_suite.py:86 | the chain starts from 64 zeros |
| BootVerifier.SealedIsJoin | src/config/boot_verification_suite.py:91-95 | the text hashed for a row is its fields and the previous hash joined by commas |
| BootVerifier.SuiteReportIs | src/config/boot_verification_suite.py:52-114 | the report of the suite names a fault of a file if and only if the file is the latest of a class and has that fault, at that row |
| BootVerifier.VerifyCryptographicLedgerIntegrity | src/config/boot_verification_suite.py:42-114 | the report is the exact one, in class order, and the stage passes if and only if the latest file of every class present is secure |
| ShoreLogger.FileReachable | src/network_layer/shore_audit_logger.py:41-154 | under every interleaving the file is the starting file followed by the chained rows of the written snapshots, and the cached hash is the last row's except between append and caching |
| ShoreLogger.FreshSessionAccepted | src/network_layer/shore_audit_logger.py:91-154 | in every reachable state of a session on a day without a file, with any kept hash and the header written, the boot check accepts the file if and only if nothing was written or the hash kept at start was genesis |
| ShoreLogger.ContinuedChain | src/network_layer/shore_audit_logger.py:102-122 | rows written from hash p extend an accepted chain to an accepted chain if and only if there are none or p is its end hash |
| ShoreLogger.SessionAccepted | src/network_layer/shore_audit_logger.py:31-122 | restart law: appending to an accepted file stays accepted if and only if nothing was written or the session started from the last recorded hash |
| ShoreLogger.NewProcessBreaksLedger | src/network_layer/shore_audit_logger.py:31-122 | a new process writing to a non-empty ledger is accepted only if some text hashes to the genesis value |
| ShoreLogger.HeaderFaultRejected | src/network_layer/shore_audit_logger.py:52-60 | when writing the header failed, for any kept hash: with rows written the boot check accepts the file if and only if the first snapshot names both hash columns and the later ones chain in them; with none written, if and only if there is no file, and a write that was cut off leaves an empty one |
| ShoreLogger.EmptyFileRejected | src/network_layer/shore_audit_logger.py:52-60 | a session on an empty file writes no header either; the file is rejected until rows are written, and then unless they pose as a ledger |
| ShoreLogger.ConservedReachable | src/network_layer/shore_audit_logger.py:62-154 | in every reachable state each accepted capture is written, in flight, queued, pending, lost or dropped, once, and what is written or under way is an in-order subsequence |
| ShoreLogger.DroppedIff | src/network_layer/shore_audit_logger.py:87-89 | a capture is dropped if and only if 1000 snapshots are queued, and joins the queue otherwise |
| ShoreLogger.ExitReachable | src/network_layer/shore_audit_logger.py:62-171 | what remains after the worker exits is exactly the capture that was between its test and its enqueue |
| ShoreLogger.OrderlyStop | src/network_layer/shore_audit_logger.py:95-171 | a stop with no capture half done leaves nothing queued: every capture is written, lost or dropped |
| ShoreLogger.StrandedCapture | src/network_layer/shore_audit_logger.py:67-171 | a run in which a stop from another thread strands a capture |
| ShoreLogger.ShoreFacilityAuditLogger.CaptureFacilityStateSnapshot | src/network_layer/shore_audit_logger.py:62-89 | an uninterrupted capture is its two atomic steps |
| ShoreLogger.ShoreFacilityAuditLogger.WriteNext | src/network_layer/shore_audit_logger.py:97-148 | one pass of the worker loop, with or without a disk fault, is its atomic steps |
| ShoreLogger.ShoreFacilityAuditLogger.DrainQueue | src/network_layer/shore_audit_logger.py:95-154 | after stop the loop is a run of the atomic steps that empties the queue and exits; without faults all queued snapshots are written in order |
| GrayCode.DecodedBitIsParity | src/network_layer/cray_gray_code_parser.py:29-34 | each decoded bit is the parity of the code bits at and above it |
| GrayCode.DecodeEncode | src/network_layer/cray_gray_code_parser.py:29-34 | decoding the Gray code of a position gives the position |
| GrayCode.DecodeBijection | src/network_layer/cray_gray_code_parser.py:25-34 | for every width decoding is injective, stays in range, and every position is reached |
| GrayCode.CyclicUnitDistance | src/network_layer/cray_gray_code_parser.py:25-34 | stepping to the next position, wrap-around included, changes exactly one code bit |
| GrayCode.SingleBitFault | src/network_layer/cray_gray_code_parser.py:29-34 | one wrong code bit k inverts exactly the decoded bits 0 to k |
| GrayCode.ReportedAngleBelowFullTurn | src/network_layer/cray_gray_code_parser.py:37-44 | the reported rounded angle is below 360 for every word if and only if the resolution is at most 16 bits |
| GrayCode.AngleInRange | src/network_layer/cray_gray_code_parser.py:37-39 | the unrounded angle lies in [0, 360) and falls short of a full turn in proportion to the counts below the top |
| GrayCode.RoundsToNearest | src/network_layer/cray_gray_code_parser.py:44 | the reported angle is the nearest with two decimals, an even last digit deciding ties |
| GrayCode.CrayGrayCodeParser.DecodeCrayGrayWord | src/network_layer/cray_gray_code_parser.py:20-47 | the shift-and-XOR loop stores the unique position whose Gray code is the truncated word; a negative width stores nothing; the first timestamp key is never refreshed |
| Utf8.DecodeEncode | src/network_layer/tcp_command_listener.py:85 | decoding gives back every text from its UTF-8 form |
| Utf8.SequenceIsEncoding | src/network_layer/tcp_command_listener.py:85 | every byte sequence accepted is the UTF-8 form of the character read: no overlong forms, no surrogates |
| Utf8.StraysSkipped | src/network_layer/tcp_command_listener.py:85 | a byte that opens no well-formed sequence is skipped, wherever it stands between texts |
| Utf8.DecodeConcat | src/network_layer/tcp_command_listener.py:85 | decoding two pieces apart loses exactly the character across the cut, if there is one |
| Utf8.ChunkingIrrelevantIff | src/network_layer/tcp_command_listener.py:81-85 | the received text is independent of the chunking if and only if no cut goes through a character |
| Utf8.SplitCharacterLost | src/network_layer/tcp_command_listener.py:85 | the two bytes of one character received apart decode to nothing |
| TcpListener.Judge | src/network_layer/tcp_command_listener.py:42-65 | each of the five replies to a packet if and only if its condition holds, over numbers, missing values, infinities, not-a-number and other types |
| TcpListener.AcceptedRange | src/network_layer/tcp_command_listener.py:49-55 | two numbers are accepted if and only if they are in the design range, its ends included |
| TcpListener.ReadUntilEnd | src/network_layer/tcp_command_listener.py:79-83 | exactly the payloads received before the client closes or the socket fails are read, timeouts passed over |
| TcpListener.SendOutcome | src/network_layer/tcp_command_listener.py:93-114 | a delivered reply joins those sent; a timeout drops the rest of the lines in hand; any other failure leaves a connection on which nothing happens |
| TcpListener.Reassembly | src/network_layer/tcp_command_listener.py:77-91 | the complete lines of a longer text are the old ones, then those of the retained remainder with the new text; the remainder never holds a newline |
| TcpListener.ChunkIndependence | src/network_layer/tcp_command_listener.py:77-113 | while no send times out, replies and setpoints are those of the whole stream for every cutting that splits no character |
| TcpListener.AsciiChunkIndependence | src/network_layer/tcp_command_listener.py:77-113 | for an ASCII stream and sends that do not time out, any two cuttings give the same replies and setpoints |
| TcpListener.ServeWhole | src/network_layer/tcp_command_listener.py:77-113 | while no send times out, serving any chunks is processing the complete lines of the received text |
| TcpListener.ChunkingIrrelevantTimelyIff | src/network_layer/tcp_command_listener.py:77-113 | over all streams and parsers the cutting is irrelevant if and only if no reply that can be attempted times out |
| TcpListener.ServedAsWholeIff | src/network_layer/tcp_command_listener.py:77-113 | over all parsers and sends that do not time out, a cut stream is served as the whole one if and only if the non-blank complete lines of the received texts are equal; cuts between characters suffice |
| TcpListener.ServeSafe | src/network_layer/tcp_command_listener.py:49-113 | however a stream is cut and its replies fare, the setpoints stay in the design range |
| TcpListener.TargetsSafe | src/network_layer/tcp_command_listener.py:49-60 | whatever lines arrive, the setpoints stay in the design range |
| TcpListener.LastAcceptedWins | src/network_layer/tcp_command_listener.py:57-108 | the final setpoints are those of the last accepted packet |
| TcpListener.JsonTcpCommandListener.ValidateAndUpdateTargets | src/network_layer/tcp_command_listener.py:36-65 | both setpoints change together on acceptance and neither changes otherwise |
| TcpListener.JsonTcpCommandListener.HandleClientStream | src/network_layer/tcp_command_listener.py:72-119 | the receive loop, over any receipts and any outcome of each send, gives the replies and setpoints of the chunk-by-chunk service and keeps a newline-free buffer |
| NmeaFrame.ValidIff | src/network_layer/nmea_serial_parser.py:33-47 | a sentence `$body*tail` is valid if and only if neither part holds a star and the stripped upper-cased tail is the body's checksum |
| NmeaFrame.SingleSubstitution | src/network_layer/nmea_serial_parser.py:33-47 | any one-character substitution in any valid sentence goes unnoticed if and only if it comes after the star and changes only the case of a letter or one white space character into another |
| NmeaFrame.BodyReplaced | src/network_layer/actuator_telemetry_receiver.py:31-43 | replacing the body is undetected if and only if the new one is star-free with the same checksum |
| NmeaFrame.TranspositionAccepted | src/network_layer/actuator_telemetry_receiver.py:37-41 | exchanging two neighbouring body characters is never detected |
| NmeaFrame.ComputeChecksum | src/network_layer/actuator_serial_serializer.py:16-24 | the accumulator loop computes the exclusive or that the detection theorems are about |
| NmeaFrame.ValidateChecksum | src/network_layer/actuator_telemetry_receiver.py:29-43 | the validator with its early rejections decides validity |
| ActuatorSerializer.WrittenIsValid | src/network_layer/actuator_serial_serializer.py:44-51 | a written sentence passes the validators after stripping if and only if the payload has no star; its checksum has two digits |
| ActuatorSerializer.FieldsRoundTrip | src/network_layer/actuator_serial_serializer.py:44-51 | a receiver's comma split returns exactly the written header and fields if and only if no field holds a comma |
| ActuatorSerializer.HeaderIs | src/network_layer/actuator_serial_serializer.py:10-45 | a header is P, the first four letters of the manufacturer code and the message type, in capitals |
| ActuatorSerializer.RudderRoundTrip | src/network_layer/actuator_serial_serializer.py:33-51 | for every rudder command the sentence validates and the received fields carry the exact signed command, with two decimals, and the rate 15.0 |
| ActuatorSerializer.RudderInjective | src/network_layer/actuator_serial_serializer.py:33-51 | distinct rudder commands never share a sentence |
| ActuatorSerializer.PropulsionRoundTrip | src/network_layer/actuator_serial_serializer.py:60-73 | for every torque, speed cap and fatigue load, negative ones included, the sentence validates and the received fields carry the exact numbers |
| NmeaParser.WrapRecoversTurn | src/network_layer/nmea_serial_parser.py:70-77 | the computed turn is the true one, however many full turns the reported heading wraps, if and only if it is in [-180, 180) degrees |
| NmeaParser.DamagedSentenceIgnored | src/network_layer/nmea_serial_parser.py:49-59 | a sentence with a single `$`, damaged in one character other than harmlessly, leaves the whole cache unchanged, for every position and character |
| NmeaParser.DamageDetected | src/network_layer/nmea_serial_parser.py:33-59 | exactly which lines damaged in one character are still accepted, for every accepted line, surrounding white space included |
| NmeaParser.DamagedLine | src/network_layer/nmea_serial_parser.py:49-106 | a line damaged in one character is read exactly as the undamaged one if the damage survives, and otherwise leaves the cache unchanged; no wrong value is ever stored |
| NmeaParser.MaskedSentence | src/network_layer/nmea_serial_parser.py:51-56 | a valid line that is accepted with its first `$` replaced by a space |
| NmeaParser.NmeaSerialDataParser.ParseSentence | src/network_layer/nmea_serial_parser.py:49-106 | the in-place cache updates are the dispatch function, missing and unreadable fields included |
| NmeaSentences.DepthBelowTransducer | src/network_layer/nmea_serial_parser.py:82-86 | of the feet, metres and fathoms on the wire the metres are stored as the depth, and nothing else changes |
| NmeaSentences.DepthSounder | src/network_layer/nmea_serial_parser.py:88-91 | the first number is stored as the depth, and nothing else changes |
| NmeaSentences.MinimumData | src/network_layer/nmea_serial_parser.py:94-101 | 0.514444 times the speed field is stored as the speed if and only if the status is A and the field is readable, and nothing else changes |
| NmeaSentences.TrueHeading | src/network_layer/nmea_serial_parser.py:61-80 | the heading is stored in radians with its time, depth and speed are left alone, and the yaw rate is the true rate of any turn under half a revolution since an earlier heading |
| NmeaSentences.UnreadableHeading | src/network_layer/nmea_serial_parser.py:61-64 | a heading that is empty or unreadable changes nothing |
| NmeaSentences.OtherTalker | src/network_layer/nmea_serial_parser.py:61-101 | a sentence of any other type changes nothing |
| NmeaSentences.CutShort | src/network_layer/nmea_serial_parser.py:103-105 | a sentence cut short before the field it is read for changes nothing |
| ActuatorReceiver.StatusFlagsMeaning | src/network_layer/actuator_telemetry_receiver.py:53-65 | the flag list names exactly the set bits, each once, and is empty exactly when the low four bits are clear |
| ActuatorReceiver.JamExact | src/network_layer/actuator_telemetry_receiver.py:96-110 | in any history split after its last in-tolerance frame, the timer is the total time of the out-of-tolerance frames since, and the jam is reported exactly when it reaches 1.5 s |
| ActuatorReceiver.WireRead | src/network_layer/actuator_telemetry_receiver.py:79-91 | a framed sentence behind the expected header is feedback with its first field as the angle, its second as the mask and its third as the temperature, or unparsable if either number is |
| ActuatorReceiver.WireIgnored | src/network_layer/actuator_telemetry_receiver.py:83-91 | a framed sentence with another header is foreign; one with fewer than four fields cannot be parsed |
| ActuatorReceiver.PrefixIsHeader | src/network_layer/actuator_telemetry_receiver.py:8-13 | the header expected is the one the serializer puts on messages of type AK |
| ActuatorReceiver.FeedbackStored | src/network_layer/actuator_telemetry_receiver.py:89-119 | one sentence on the wire: angle and temperature are reported from their own fields, the flags are exactly the set bits, the malformed mask and the jam, and the timer runs on if and only if the angle is more than 2.5 degrees off the order |
| ActuatorReceiver.OddReadings | src/network_layer/actuator_telemetry_receiver.py:97-110 | a reading that is not a number resets the timer, an infinite one runs it on |
| ActuatorReceiver.JamOnTheWire | src/network_layer/actuator_telemetry_receiver.py:67-125 | after any sentences on the wire, the last within 2.5 degrees of the order, a streak of sentences further off runs the timer for its total time, and the jam is reported if and only if that reaches 1.5 s |
| ActuatorReceiver.NoiseInvisible | src/network_layer/actuator_telemetry_receiver.py:74-125 | corrupt, foreign and unparsable lines neither advance nor reset the timer nor change any reported value but the flag list |
| ActuatorReceiver.DamagedFeedback | src/network_layer/actuator_telemetry_receiver.py:72-88 | for every accepted line, position and character: damage the checksum finds is line noise, harmless damage changes nothing, and otherwise the line turns foreign or a foreign line turns into what follows its first `$` |
| ActuatorReceiver.DamageKeepsTimer | src/network_layer/actuator_telemetry_receiver.py:72-110 | one-character damage to a line with a single `$` is read as the undamaged line or leaves everything but the flag list as it was |
| ActuatorReceiver.MaskedFeedback | src/network_layer/actuator_telemetry_receiver.py:72-85 | any sentence behind a `$` and cancelling white space is foreign, and is read as that sentence once the first `$` turns into white space |
| ActuatorReceiver.ConsistentReachable | src/network_layer/actuator_telemetry_receiver.py:76-125 | in every reachable state flags are distinct, the jam flag is listed exactly when jammed, and faults are active exactly when a hardware flag is listed |
| ActuatorReceiver.ActuatorTelemetryReceiverNode.ProcessHardwareFeedback | src/network_layer/actuator_telemetry_receiver.py:67-125 | one call is one step of the timer on the classified line |
| Watchdog.TrippedExactly | src/network_layer/multi_ledger_watchdog.py:58-66 | the tripped list of a snapshot holds exactly the ledgers that stall with data or exceed the depth limit |
| Watchdog.WriteSetsExactly | src/network_layer/multi_ledger_watchdog.py:39-48 | a write under any text that spells a ledger's name, up to letter case and white space around it, sets that record and nothing else; any other text changes nothing |
| Watchdog.DetectionIff | src/network_layer/multi_ledger_watchdog.py:39-75 | after a write at h, under any such text, with recorded depth d, and until the record is next rewritten, redundant starts and stops included, a check at c names the ledger if and only if d > 500, or d > 0 and c - h exceeds the timeout |
| Watchdog.OverloadTrips | src/network_layer/multi_ledger_watchdog.py:14-75 | a supervisor just started and told of 600 queued rows at the mission ledger, in any letter case, trips that ledger alone at its next check and takes the torque to zero |
| Watchdog.SilentUntilFirstWrite | src/network_layer/multi_ledger_watchdog.py:99-110 | after a start that takes effect no ledger is named until its record is next rewritten |
| Watchdog.InterlockExact | src/main.py:597-599 | over whole histories, from a check until the next one the dispatched torque is zero if some ledger tripped in that snapshot, and the commanded one otherwise |
| Watchdog.StallSecuresPropulsion | src/main.py:597-599 | after a write that left data waiting, under any text that spells the ledger's name, and no further write, any check later than the timeout brings the dispatched torque to zero, and it stays so until the next check |
| Watchdog.MultiLedgerHardwareWatchdog.Check | src/network_layer/multi_ledger_watchdog.py:54-75 | one checker pass sets the fault and tripped list for the locked snapshot and changes no record |
| Watchdog.MultiLedgerHardwareWatchdog.LogWriteSuccess | src/network_layer/multi_ledger_watchdog.py:39-48 | a write refreshes exactly the named ledger's record; unknown names change nothing |
| Halyard.StaysOnMast | src/control_core/flag_changer_subroutine.py:59-65 | for every sequence of targets the position stays in [0, 100] |
| Halyard.ErrorAfter | src/control_core/flag_changer_subroutine.py:59-62 | while the motor moves the error is the starting error times 0.9 to the number of calls |
| Halyard.SettledIff | src/control_core/flag_changer_subroutine.py:59-65 | after k calls the halyard is at its target if and only if the starting error times 0.9^(k-1) is within 0.1 |
| Halyard.SettlesIn67 | src/control_core/flag_changer_subroutine.py:40-65 | from anywhere to any target, the 67th and every later consecutive call finds the motor at rest at the target |
| Halyard.NotIn66 | src/control_core/flag_changer_subroutine.py:40-65 | the bound is tight: hoisting from the foot still moves at call 66 |
| Halyard.FlagPriority | src/control_core/flag_changer_subroutine.py:27-53 | over all inputs weapons outrank a confined channel, which outranks cruising; the three stand at 100, 50 and 0 per cent |
| Halyard.AutomaticFlagChangerSubroutine.EvaluateFlagLogicMatrix | src/control_core/flag_changer_subroutine.py:21-73 | target priority, transition time only on change, one servo move, and exactly one of relay and lock pin |
| BridgeEngine.SmoothRamp | src/control_core/bridge_execution_engine.py:91-106 | one cycle moves the profiled speed by at most 50*dt + 0.2 from what the register stood for, and keeps acceleration and speed in range |
| EngineAnswers.JerkLimited | src/control_core/bridge_execution_engine.py:91-106 | away from the target the acceleration moves towards it by 5*dt, less only where 50 rpm/s stops it; within 0.1 rpm the ramp rests |
| BridgeEngine.ConsecutiveProfiles | src/control_core/bridge_execution_engine.py:91-106 | between consecutive cycles the profiled speed moves by at most 50*dt + 0.2 from the last one, or, when the register ended at zero, from the measured speed |
| BridgeEngine.ReseedBreaksIff | src/control_core/bridge_execution_engine.py:91-106 | with the register at zero the profile moves by more than 50*dt + 0.2 if and only if the measured speed, one step on, is that far away inside the limits; always when the limited measured speed exceeds twice that and 0.1 |
| BridgeEngine.ReseedSafeIff | src/control_core/bridge_execution_engine.py:91-106 | a re-seed keeps to 50*dt + 0.2 for all targets and accelerations, for cycles of any length, if and only if the reach of the register from the measured speed does or the limits of the profile hide it; for cycles of up to 3 s if and only if the measured speed is within 0.2, and within 50*dt + 0.1, of the last profiled speed |
| BridgeEngine.ReseedJump | src/control_core/bridge_execution_engine.py:91-106 | a two-cycle run from the initial state, within all input ranges, whose profiled speed jumps from 0 to at least 500 rpm in a tenth of a second |
| BridgeEngine.ShearProtection | src/control_core/bridge_execution_engine.py:147-156 | for the moment of any vessel and shaft speed: never enlarges or reverses a request, leaves harmless ones alone, and keeps the moment within its limit if and only if the shaft turns ahead above 0.1 rad/s or the request was within it |
| BridgeEngine.ShearScales | src/control_core/bridge_execution_engine.py:149 | the moment grows with the square of the shaft speed and the fifth power of the diameter, from 15.375 at one metre and one radian per second |
| BridgeEngine.AsternUnprotected | src/control_core/bridge_execution_engine.py:147-156 | 200 rpm astern the largest accepted yaw rate passes with over 25 times the permitted moment; ahead it is cut to the limit |
| BridgeEngine.TorqueLaw | src/control_core/bridge_execution_engine.py:245-260 | torque rises with demand, never exceeds or reverses it while nothing is shed, and shedding never raises it |
| EngineAnswers.TorqueIsPI | src/control_core/bridge_execution_engine.py:239-260 | from outside, one cycle is a PI controller on the lag of the shaft behind the profile, with conditional integration, ventilation scaling and bank shedding |
| EngineAnswers.TorqueTowardsProfile | src/control_core/bridge_execution_engine.py:239-260 | from an empty integrator the torque has the sign of the lag of the shaft behind the profile, and is zero without one |
| EngineAnswers.ShallowSlowdown | src/control_core/bridge_execution_engine.py:203-213 | with q the square root of 9.81 times the depth, at least half a metre, the slowdown is on if and only if the speed exceeds 0.85 q, and cuts the order to 250 rpm |
| EngineAnswers.ShallowOrder | src/control_core/bridge_execution_engine.py:203-213 | under the slowdown a cycle with an order above 250 rpm is the cycle with an order of 250 |
| EngineAnswers.StaysAtRest | src/control_core/bridge_execution_engine.py:168-303 | at rest, with nothing ordered or measured, the engine commands nothing and stays in its initial state |
| EngineAnswers.MissedReading | src/control_core/bridge_execution_engine.py:173-174 | a cycle without a speed reading is the cycle that reads the last speed again |
| BridgeEngine.TorqueInWaves | src/control_core/bridge_execution_engine.py:108-121 | with the index taken from any wave readings and any reported one, the torque is within its limit, at most the demand and of its sign while no bank force is shed |
| BridgeEngine.RunWithinLimits | src/control_core/bridge_execution_engine.py:91-291 | over every run with accepted setpoints: acceleration, profiled speed, torque, rudder and both stored filter outputs within their limits |
| BridgeEngine.FedByListener | src/control_core/bridge_execution_engine.py:168-303 | end to end over whole runs fed from the listener's stream: all limits hold at every cycle, and the torque after the watchdog interlock is zero while a ledger stands tripped and within its limit otherwise |
| BridgeEngine.RudderTracks | src/control_core/bridge_execution_engine.py:262-291 | over a run of the engine with a steady steering demand and cap the commanded rudder converges to the demand limited to the cap |
| EngineAnswers.SteeringAnswers | src/control_core/bridge_execution_engine.py:266-281 | the demand falls by 2.5 and 1.8 times each added measured roll and yaw rate in degrees, rises by 1.8 times each added request that passes, and takes each trim one for one |
| EngineAnswers.RollIsOpposed | src/control_core/bridge_execution_engine.py:266-281 | with the yaw rate met and no trims the demand is zero on an even keel and otherwise of the sign opposite to the roll rate |
| EngineAnswers.RudderOpposesRoll | src/control_core/bridge_execution_engine.py:262-291 | over a run with a steady roll rate and the yaw rate met the engine's rudder converges to 2.5 times the roll rate against it, limited to the cap, and comes and stays on the side that opposes the roll |
| EngineAnswers.RollDampingNotched | src/control_core/bridge_execution_engine.py:266-291 | over a run in which the ship rolls at the notch frequency, within the cap, the rudder converges to a fourteenth of the damping demanded |
| BridgeEngine.RudderEnergyIff | src/control_core/bridge_execution_engine.py:123-145 | under neutral steering no engine cycle but perhaps the first gains rudder energy, from any cycle and drained state, if and only if no cap falls short of abs(1-t^2)/(1+t^2) of the cap before it |
| BridgeEngine.FedByShrinkingCap | src/control_core/bridge_execution_engine.py:266-291 | a five-cycle run from the initial state, within all input ranges, in which every cap up to 34.98 of 35 degrees feeds energy into the drained filter |
| BridgeEngine.IntegralBounded | src/control_core/bridge_execution_engine.py:244-251 | anti-windup: with speed error at most e and cycles at most h, the integral stays within (max_torque + 220e)/10 + e*h in every reachable state |
| BridgeEngine.UnivacReplacementBridgeEngine.ExecuteSCurveProfile | src/control_core/bridge_execution_engine.py:91-106 | the in-place ramp update, re-seed and snap included, is the profile function |
| BridgeEngine.UnivacReplacementBridgeEngine.ExecuteNotchFilter | src/control_core/bridge_execution_engine.py:123-145 | the register pushes are one step of the filter, before the caller clamps the output |
| BridgeEngine.UnivacReplacementBridgeEngine.ExecuteBridgeLoop | src/control_core/bridge_execution_engine.py:168-303 | one control cycle, whose clamped rudder is written back as a step of the clamped filter, is one step of the run theorems |

## Left out

- Floating-point rounding: arithmetic is over exact reals; the only `round()` modelled is the one on the shaft angle.
- `tan`, `exp`, `sin` and `sqrt`: the notch tangent and the rudder-cap exponential are parameters, the ventilation sine is a function parameter with the properties named above, the Froude test compares squares; the recommended bank speed limit and counter-rudder, which need `sqrt` and unit conversion only (and at a standstill give a counter-rudder that is not a number), are not modelled.
- Engine subsystems: dead reckoning, weapon coupling, trim, bank and Coriolis contributions and the ventilation index enter `BridgeEngine.Cycle` as arbitrary numbers (`BridgeEngine.TorqueInWaves` ties the index to the wave readings); the telemetry dictionary and report fields are not modelled.
- File system, sockets, serial ports, threads' scheduling and console output: a write puts a whole row on disk or nothing of it, and may leave an empty file; a log directory that cannot be created, which ends the disk worker, is not modelled; a lock makes its block one step.
- CSV quoting: the reader returns the fields the writer was given, already printed as text; a field holding None, which the writer prints differently, is not modelled.
- Two disk workers alive at once, which a restart within the five-second join timeout can cause.
- The live-state JSON file: writing it only returns the worker to its loop.
- NmeaFrame.SingleSubstitution: upper-casing maps ASCII letters only, so the claim is about ASCII checksum digits; Unicode ligatures that upper-case to hexadecimal letters are not captured.
- NmeaParser.NmeaSerialDataParser.ParseSentence: number texts that read as NaN or infinity are not modelled (the jam timer does model them).
- ActuatorSerializer.RudderRoundTrip: negative zero is the same number as zero here, and a command is already rounded to hundredths by the engine.
- ActuatorSerializer.PropulsionRoundTrip: a torque of negative zero, which the code prints as `-0.0`, is zero here; the numbers are already rounded to tenths.
- TcpListener.JsonTcpCommandListener.HandleClientStream: a reply whose sending times out counts as not sent, although part of it may have left; the buffer is replaced by its last part also when it holds no newline, where that part is the buffer itself.
- Aliasing of returned dictionaries and lists: `process_hardware_feedback`, `parse_sentence` and `get_watchdog_diagnostics` hand out live objects; the model returns values.
- The watchdog's two assignments after its lock are one step, so a reader between them is not modelled.
- Several clients at once: `TcpListener` treats one connection; setpoint safety is proved for every sequence of lines, hence for every interleaving.
- Bilge, flag and mission loggers, and the weapon, aviation and asymmetric serializers, repeat the chain and the checksum proved here once.
- Anchor, bilge, antenna, ballistics, sonar, jammer and history modules, dashboards and drivers: single formulas, branches or I/O.
