# KostalKore: verified core

KostalKore is a Home Assistant integration for Kostal Plenticore inverters. It polls the inverter
over Modbus TCP and REST, serves other Modbus clients from a cache, controls the battery, watches
health and fire risk, and migrates recorder history. This project models the parts that carry the
integration's promises and proves them for every input, run or reachable state.

| module | what it models |
|---|---|
| `Basics`, `Registers`, `RegisterCodec` | two facts of reals and sets, the register table, the client's decoder and encoder, the proxy's encoder |
| `ProxyImage`, `ProxyServer` | the Modbus proxy: assembling reads from cached values, forwarding, word-level bookkeeping of failures |
| `QualityFilter`, `BatchReader`, `BatchValues`, `ReadOrder`, `BatchStrikes`, `ModbusClient`, `SuppressionRuns` | the Modbus client: guards and last good values, batch reading and what it returns, suppression of unavailable registers |
| `PollCoordinator`, `PollReports`, `LinkReports`, `DeviceFailures`, `PolledCache`, `DisturbedReads`, `ProxyObservations`, `ZeroFilters` | the poll as a state machine with other tasks between its awaits, its reads tied to the client's filter and the device's words, the proxy's observation cache, the zero filters of Modbus and REST |
| `Windows`, `DcShareBaseline`, `StringPowers` | the learned DC-share baseline and its medians, and what it makes of the strings' powers |
| `LeastSquares`, `BatterySoh`, `DegradationTracker` | the two regressions, battery state of health and its projection, daily snapshots |
| `FireAlertLog` | the deduplicated, bounded alert log |
| `CommunicationState` | incident counting across restarts |
| `ConfirmationGuard`, `HistoryMerge` | the three-call confirmation and the recorder history merge |
| `ReadbackVerification`, `SocController` | read-back verification of commands, the state-of-charge controller |

Code that updates state in place is a class whose methods are proved against a function of the old
state; what the source promises is proved about that function, over whole runs. A stretch between
two `await`s is one atomic step.

## What the proofs found

Each of these is a behaviour of the code that its documentation or a natural reading does not
suggest. The code is modelled as it is; a lemma gives the exact condition or a run.

- Cached UINT8 registers (1080, 1082) are served by the proxy as a word the device does not hold
  unless that word is 0, and a BOOL word above 1 is served as 1
  (`RegisterCodec.EncodeInvertsDecode`, `ProxyImage.HitIsTransparent`, `ProxyImage.NarrowWordIsNotServed`).
- A poll tags an observation with the connection on which the client last read the address, and
  consults the client's substitution marks, only when the batch is finished. A read of the same
  address by another task in between can make the proxy serve a value of the previous connection,
  or a remembered value, as a fresh observation (`DisturbedReads.OldConnectionIsServed`,
  `DisturbedReads.SubstituteIsServed`; exact condition in `PollCoordinator.ServedValuesAreSound`).
- Single reads clear the strikes of every register that answers. A batch keeps them for a register
  whose value the guards refuse, if it was cut out of the answer to a group of two or more; read
  alone, or after the group's request failed, such a register loses them too
  (`BatchStrikes.BatchKeepsRefusedStrikes`, `BatchStrikes.StrikeSurvivesOnlyTheBatch`).
- A textual state between zeros keeps the REST hold count, so a later positive reading does not
  restore the two held zeros (`ZeroFilters.TextBetweenZeros`).
- A poll without the discharge counter is sampled as zero throughput; the five-year projection can
  then exceed the present state of health (`BatterySoh.MissingCounterExceeds`,
  `BatterySoh.MissingCounterIsReached`; exact condition in `BatterySoh.ProjectionBounds`).
- After one attempt that could not be read back, a raise the inverter keeps ignoring is reported as
  applied and limited (`ReadbackVerification.LostReadbackHidesIgnoredRaise`).
- A restart goes back to the last announcement that reached the store. What counting loses is
  therefore nothing exactly when no announcement is missing there, and no incident exactly when none
  began since (`CommunicationState.RestartLosesWhatIsMissing`,
  `CommunicationState.RestartLosesOnsets`, `CommunicationState.UnsavedIsForgotten`).
- An empty payload fingerprint satisfies the confirmation guard; the two services never pass one
  (`ConfirmationGuard.AuthorisedByThreeCalls`, `ConfirmationGuard.SamePayload`).
- Turns of the state-of-charge controller that pause or cannot read do not break the row of
  diverging samples; failed writes and missing samples do (`SocController.WarningsAreSpaced`,
  `SocController.TurnWarnsWithEvidence`).

Run `dafny verify dfyconfig.toml` to check the whole project.

## Model

| member | source | states |
|---|---|---|
| RegisterCodec.EncodeInvertsDecode | custom_components/kostal_kore/modbus_proxy.py:76-128 | Re-encoding the client's decoding of a register, whose numbers RegisterCodec.DecodesTheNumber gives, is refused exactly for a non-finite FLOAT32, and otherwise gives back the device words exactly when the register is not a BOOL above 1 or a UINT8 above 0; both byte orders, every numeric type |
| RegisterCodec.DecodesTheNumber | custom_components/kostal_kore/modbus_client.py:880-926 | Which number the bytes of a register are, told in base 256 and without the decoder's own tests: unsigned and signed words, 32-bit numbers in the stated order (the low word first only below address 500 under the little setting), the four bytes of a single in order, flags, and text between white space and closing NULs |
| RegisterCodec.EncodesTheNumber | custom_components/kostal_kore/modbus_proxy.py:76-128 | An integer is refused exactly outside the range of its type, except that the low-word-first form takes any number modulo 2^32; the bytes given are the base-256 digits of that number |
| RegisterCodec.EncodesTheRest | custom_components/kostal_kore/modbus_proxy.py:76-128 | A flag is encoded as 0 or 1, a single as its four bytes in order and refused exactly when not finite, a text as its bytes cut or filled to the register's width |
| RegisterCodec.WriteIsTransparent | custom_components/kostal_kore/modbus_proxy.py:799-818 | The words that reach the device through decode-for-write and the client encoder are the words the external client sent, except that a BOOL is normalised to 0 or 1; refused exactly for SINT32, STRING, UINT8 and non-finite floats |
| RegisterCodec.FlagIsNormalised | custom_components/kostal_kore/modbus_proxy.py:799-818 | What reaches the device for a flag: 0 for the word 0, 1 for every other |
| ProxyImage.BuildRegisterImage | custom_components/kostal_kore/modbus_proxy.py:131-182 | The sorted, early-exit scan answers exactly when the range is not empty and every word has a server in the whole table, and each word is the one its last covering register encodes; overlaps included |
| ProxyImage.CopyRegister | custom_components/kostal_kore/modbus_proxy.py:164-173 | The inner copy loop settles exactly the words of one register that fall into the range, whole words only |
| ProxyImage.ServerOfPrefix | custom_components/kostal_kore/modbus_proxy.py:148-153 | Breaking off at the first register past the range loses no server: registers sorted after it serve none of its words |
| ProxyImage.HitIsTransparent | custom_components/kostal_kore/modbus_proxy.py:131-182 | Cache transparency with its exact condition: an image of observed values equals a direct device read if and only if no word is served by a BOOL or UINT8 register that does not round-trip |
| ProxyImage.HitExactly | custom_components/kostal_kore/modbus_proxy.py:131-182 | With observed values the cache answers exactly when the range is not empty and every word of it is among those filled by an observed register of the table, infinities and NaN aside |
| ProxyImage.LastServes | custom_components/kostal_kore/modbus_proxy.py:154-173 | Of the registers that can serve a word, the last of the table serves it |
| ProxyImage.NarrowWordIsNotServed | custom_components/kostal_kore/modbus_proxy.py:131-182 | Where it fails: any non-zero word of the UINT8 register 1080 is served as its high byte in the low place, for both byte orders |
| ProxyServer.ReadIsTransparent | custom_components/kostal_kore/modbus_proxy.py:500-576 | Whatever mixture of cache and device serves it, a successful answer to a valid read carries exactly the device words, as long as the cache holds observations of them and serves no BOOL or UINT8 word that does not round-trip; otherwise 0x03 for a malformed request and 0x04 exactly where neither source is usable |
| ProxyServer.ReadInBytes | custom_components/kostal_kore/modbus_proxy.py:500-576 | The same byte by byte: address and count are the base-256 numbers of bytes 1-2 and 3-4 of the request, a good answer repeats the function, counts its bytes and carries each word high byte first, and every other answer is the function with its top bit set and 3 or 4 |
| ProxyServer.UsableExactly | custom_components/kostal_kore/modbus_proxy.py:540-576 | A forwarded answer is usable exactly if it has two bytes for every word and no FLOAT32 register wholly inside it has all exponent bits set, wherever the setting puts them |
| ProxyServer.PendingIffLastDecisionFailed | custom_components/kostal_kore/modbus_proxy.py:435-475 | After any history of exchanges a word is pending exactly when the latest decisive response among own-unit writes covering it was Server Device Failure |
| ProxyServer.DecidesExactly | custom_components/kostal_kore/modbus_proxy.py:452-472 | Which exchange decides about which word, in bytes of the request: a write of one word (6) or of 1 to 123 words inside the address space (16) to the own unit, covering it, answered well or with failure 4 |
| ProxyServer.ReadFailuresExactly | custom_components/kostal_kore/modbus_proxy.py:435-452 | A failed read is remembered exactly while there is room for 64, another error forgets it, and no other request is affected |
| ProxyServer.OthersLeaveWrites | custom_components/kostal_kore/modbus_proxy.py:452-472 | Reads and requests of other units never change the pending words |
| ProxyServer.PendingIsBounded | custom_components/kostal_kore/modbus_proxy.py:461-472 | The pending set stays within the 16-bit address space in every run |
| ProxyServer.ProxyServer.HandleRead | custom_components/kostal_kore/modbus_proxy.py:500-538 | The read handler gives exactly the answer the reference allows; it counts a valid read, then either a cache hit, which leaves the read failures alone, or a forwarded read, which counts and settles them only if the device's answer is usable |
| ProxyServer.ProxyServer.ForwardRead | custom_components/kostal_kore/modbus_proxy.py:540-576 | A forwarded answer is relayed exactly when it has the right length and no whole FLOAT32 in it is non-finite; only then are the read failures cleared |
| ProxyServer.ProxyServer.RecordWrite | custom_components/kostal_kore/modbus_proxy.py:461-472 | The write bookkeeping of one exchange is the transition the run theorems speak about |
| ProxyServer.ProxyServer.RecordOutcome | custom_components/kostal_kore/modbus_proxy.py:435-475 | All bookkeeping of one completed request: write failures tied to the whole log by the invariant, read failures bounded, error counters |
| QualityFilter.RememberedValuesPass | custom_components/kostal_kore/modbus_client.py:502-559 | In every run a remembered value is one the device answered with, on the recorded connection, and passes its register's guards; an address is marked retained exactly when its latest read was substituted |
| QualityFilter.ReturnedValuesPass | custom_components/kostal_kore/modbus_client.py:451-464 | Every value a read returns passes the guards; the read fails exactly when the value is rejected and nothing may stand in |
| QualityFilter.GuardsExactly | custom_components/kostal_kore/modbus_client.py:502-559 | Which numbers of which register pass: the work-capacity sentinel of 575, the six registers without limits, and the intervals of all others, energy counters never below zero |
| QualityFilter.FloatDenotes | custom_components/kostal_kore/modbus_client.py:916-920 | The number a finite single stands for, from its sign, exponent and fraction bits, the powers of two being those of QualityFilter.PowersDouble |
| BatchReader.GroupsSplit | custom_components/kostal_kore/modbus_client.py:668-685 | The groups concatenate to the sorted unsuppressed registers, and each can be fetched by one request |
| BatchReader.GroupsAreMinimal | custom_components/kostal_kore/modbus_client.py:668-685 | No split of the sorted list into address-contiguous runs has fewer parts, whether or not registers overlap |
| BatchReader.FewestRequests | custom_components/kostal_kore/modbus_client.py:656-685 | Registers that do not overlap cannot be read by fewer address-contiguous requests, in whatever order and however the registers are put together |
| BatchReader.SortPermutes | custom_components/kostal_kore/modbus_client.py:668 | Sorting by address loses and invents no register |
| BatchReader.SlicesAccept | custom_components/kostal_kore/modbus_client.py:702-721 | The slice of a group answer that falls to a register is that register's own words |
| BatchReader.OneByOneAccepts | custom_components/kostal_kore/modbus_client.py:433-464 | Reading one register at a time accepts the unsuppressed registers' words in order and clears their strikes |
| BatchReader.BatchRefinesOneByOne | custom_components/kostal_kore/modbus_client.py:656-738 | From any client state and for any list, on a device whose words stand still, reading in groups leaves the same values, last good values, connections, marks and suppressions as reading the kept registers one by one; what the values are is BatchValues.StillBatchReturns |
| BatchValues.BatchReturns | custom_components/kostal_kore/modbus_client.py:656-738 | On any device, for each register of a distinct list: a suppressed one is not in the result and keeps its memory; any other is there exactly if it got words of its own, cut from its group's answer or, where that failed, from its own, that decode into a value the guards let through, or a last good value may stand in; which of the two it is, and what is remembered |
| BatchValues.BatchReturnsOnly | custom_components/kostal_kore/modbus_client.py:656-738 | The result holds no name that is not on the list |
| BatchValues.BatchAlive | custom_components/kostal_kore/modbus_client.py:702-738 | The batch runs to its end exactly if the link survives every single read it needs |
| BatchValues.StillBatchReturns | custom_components/kostal_kore/modbus_client.py:656-738 | On a device whose words stand still a name is in the result exactly when its register is not suppressed and its own decoded words pass the guards, or the policy keeps last values and the address has one; and which value that is |
| ReadOrder.OrderIrrelevant | custom_components/kostal_kore/modbus_client.py:656-738 | Accepting distinct registers in any two orders leaves the same values and memory |
| ReadOrder.BatchRefinesCallerOrder | custom_components/kostal_kore/modbus_client.py:656-738 | For distinct registers the batch gives the same values, last good values, connections, marks and suppressions as read_register on each register in the caller's own order |
| BatchStrikes.BatchKeepsRefusedStrikes | custom_components/kostal_kore/modbus_client.py:702-738 | The exact difference in strikes to reading in the caller's order: the batch keeps a strike that single reads clear exactly for a register that is not suppressed, lies in a group of two or more whose request was answered, and whose own words the guards reject with nothing remembered to stand in; kept strikes keep their counts |
| BatchStrikes.StrikeSurvivesOnlyTheBatch | custom_components/kostal_kore/modbus_client.py:702-727 | The adjacent limits 1038 and 1040, the first answering NaN with one strike: the batch leaves the strike, single reads clear it |
| BatchStrikes.BatchStrikesAre | custom_components/kostal_kore/modbus_client.py:656-738 | The strikes a batch leaves: those of before without the addresses its groups clear |
| ModbusClient.KostalModbusClient.ReadRegistersBatch | custom_components/kostal_kore/modbus_client.py:656-738 | The imperative batch read leaves the state and returns the values of the batch BatchValues.BatchReturns describes, register by register |
| ModbusClient.KostalModbusClient.FormGroups | custom_components/kostal_kore/modbus_client.py:668-685 | The one-pass grouping loop, with its expiring suppressions, forms exactly the groups |
| ModbusClient.KostalModbusClient.SliceGroup | custom_components/kostal_kore/modbus_client.py:702-721 | The offset loop gives each register of a group its own slice |
| ModbusClient.KostalModbusClient.ReadEach | custom_components/kostal_kore/modbus_client.py:731-736 | The fallback loop reads each register singly and skips the failing ones |
| ModbusClient.KostalModbusClient.ReadRegister | custom_components/kostal_kore/modbus_client.py:433-500 | A single read: suppression, strikes, decoding, filtering and remembering |
| ModbusClient.KostalModbusClient.IsSuppressed | custom_components/kostal_kore/modbus_client.py:325-335 | The suppression check, with its deletion of an expired entry |
| ModbusClient.KostalModbusClient.RecordUnavailableStrike | custom_components/kostal_kore/modbus_client.py:337-355 | One strike: the counter and, from the third on, the growing suppression |
| ModbusClient.KostalModbusClient.ApplyQualityFilter | custom_components/kostal_kore/modbus_client.py:502-559 | The guard ladder substitutes, refuses or passes exactly as the filter function |
| SuppressionRuns.ReadRegisterSteps | custom_components/kostal_kore/modbus_client.py:442-468 | A single read moves the strike tables as the event sequences of the run theorems do |
| SuppressionRuns.BatchAt | custom_components/kostal_kore/modbus_client.py:656-738 | All that a batch does to one address, whatever the device answers: a suppressed or unnamed address stays as it is; otherwise an expired suppression goes and then it is struck once, cleared or left, and cleared only if some request that covers it is answered |
| SuppressionRuns.SuppressedHasStrikes | custom_components/kostal_kore/modbus_client.py:325-355 | In every sequential run of single reads, batches of distinct registers, resets and restores, a suppressed address has at least its three strikes, although a group answer clears strikes without a look at the suppressions |
| SuppressionRuns.StrikesAreRefusals | custom_components/kostal_kore/modbus_client.py:433-468 | For a register read singly, the strikes it has are the refusals since it was last answered or cleared |
| SuppressionRuns.BackoffIsQuadratic | custom_components/kostal_kore/modbus_client.py:325-355 | For a register no request is ever answered for, whatever else is polled, singly or in batches, the n-th strike comes at least 60 n (n - 1) - 360 seconds after the third |
| SuppressionRuns.SuppressedExactly | custom_components/kostal_kore/modbus_client.py:325-355 | And it is suppressed exactly from its third strike on, each time until 120 s for every strike so far have passed since the last |
| PollCoordinator.EveryRunKeeps | custom_components/kostal_kore/modbus_coordinator.py:342-465 | The invariant of the poll machine holds at every point of every run, between the awaits of a poll included |
| PollCoordinator.ServedValuesAreSound | custom_components/kostal_kore/modbus_coordinator.py:178-206 | A value the proxy may serve was read by a poll from its own register, is a finite number, tagged with the present connection and within its TTL, and is no zero the filter dropped or has yet to judge, which DeviceFailures.ZerosInCache ties to the device failures of its poll; and it is the device's own value read on this connection exactly when no other task's read disturbed the client's marks |
| PollCoordinator.UndisturbedValuesAreGenuine | custom_components/kostal_kore/modbus_coordinator.py:194-206 | Without another task's read in between, a served value is no keep-last substitute and was read on the present connection |
| DeviceFailures.ZerosInCache | custom_components/kostal_kore/modbus_coordinator.py:459-538 | In every run, a zero of a register that cannot be zero stands in the proxy's cache only if the publication of its poll put it there and no Server Device Failure lies between the start of that poll and its publication, or two earlier failing polls of the same streak had held one back |
| DeviceFailures.PublishJudges | custom_components/kostal_kore/modbus_coordinator.py:459-538 | Conversely a zero held back enters the cache at its poll's publication, as read, exactly if no failure lies in that poll, or two failing polls of the streak held one back, and it is no substitute |
| PollCoordinator.ZeroExactly | custom_components/kostal_kore/modbus_coordinator.py:518 | The zeros the filter looks for are the finite numbers that are zero, of either sign |
| PollReports.FinishedBatchIsShown | custom_components/kostal_kore/modbus_coordinator.py:194-206 | What the end of a batch leaves in the proxy's cache for each name: registers of the batch show exactly what was read and counts, or nothing; others stay, unless the link was re-established |
| PollReports.ZerosAreHeldBack | custom_components/kostal_kore/modbus_coordinator.py:467-494 | The zeros that wait for the filter are exactly the suspect ones the batch read, and those already waiting on the same link |
| PollReports.FastMerges | custom_components/kostal_kore/modbus_coordinator.py:365-413 | After the fast batch the poll reports what it read that is no substitute, and the slow values of the last slow batch of this connection |
| PollReports.SlowMerges | custom_components/kostal_kore/modbus_coordinator.py:415-436 | After the slow batch it reports what that read, and keeps what was read before, its slow values only while the link is the same |
| PollReports.FastFails | custom_components/kostal_kore/modbus_coordinator.py:395-404 | The fast batch fails the poll exactly when there are fast registers, none of them suppressed, and every one came back without a value that counts |
| PollReports.SlowBatchIsDue | custom_components/kostal_kore/modbus_coordinator.py:354-418 | Over runs, the slow registers are read exactly when they are wanted, the link was re-established, or five polls in a row have skipped them |
| PollReports.ServedExactly | custom_components/kostal_kore/modbus_coordinator.py:178-192 | An observation is served exactly while the link is up, the last poll succeeded, it carries the present connection, and it is no older than 15 s or three intervals, six times that for slow groups |
| LinkReports.LinkTells | custom_components/kostal_kore/modbus_coordinator.py:342-465 | In every run connections are counted one by one, reconnects and polls that had to connect; the client closes with the first shutdown, the link is up exactly if nothing has taken it down since it was last connected, and the last poll's verdict is that of its ending |
| LinkReports.WritesForget | custom_components/kostal_kore/modbus_coordinator.py:208-213 | A raw write removes from the proxy's cache exactly the observations it shares a word with, a command exactly that of its own register |
| DisturbedReads.OldConnectionIsServed | custom_components/kostal_kore/modbus_coordinator.py:191-206 | A run of answered and filtered reads in which a value of connection 1 is served as an observation of connection 2: the link is renewed and another task reads the address between two groups of the slow batch |
| DisturbedReads.SubstituteIsServed | custom_components/kostal_kore/modbus_coordinator.py:196-199 | A run of answered and filtered reads in which a remembered value that stood in for NaN is served as an observation: another task's good read clears the mark before the batch ends |
| PolledCache.MarksAreTheClients | custom_components/kostal_kore/modbus_client.py:502-559 | In every run of answered reads the connections and substitution marks of the poll machine are those the client's filter leaves |
| PolledCache.CacheObservesDevice | custom_components/kostal_kore/modbus_coordinator.py:178-206 | At every point of every run of polls, other tasks' reads, writes and reconnects against a device whose words stand still, every value the proxy may serve is what the client decodes from that register's words |
| PolledCache.CacheHitCarriesDeviceWords | custom_components/kostal_kore/modbus_proxy.py:131-182 | So a cache hit at any such point carries the words the device holds, if and only if it serves no BOOL or UINT8 word that does not round-trip |
| ProxyObservations.ModbusCoordinator.ObserveForProxy | custom_components/kostal_kore/modbus_coordinator.py:194-206 | The observation loop: every attempted register loses its entry and regains one only for an observable value |
| ProxyObservations.ModbusCoordinator.InvalidateProxyCache | custom_components/kostal_kore/modbus_coordinator.py:208-213 | A raw write removes exactly the observations whose registers overlap it |
| ProxyObservations.ModbusCoordinator.ProxyCacheData | custom_components/kostal_kore/modbus_coordinator.py:178-192 | The loop serves exactly the entries of the present connection within their TTL, and nothing without a live link |
| ProxyObservations.ModbusCoordinator.DropImplausibleZeros | custom_components/kostal_kore/modbus_coordinator.py:501-538 | The loop drops exactly the zeros the filter rejects and counts the streaks, in whatever order the names come |
| ZeroFilters.DropsAtMostTwo | custom_components/kostal_kore/modbus_coordinator.py:501-538 | In every run a reading is dropped exactly when it is a zero in a poll that saw a device failure and no two earlier such polls belong to the same streak |
| ZeroFilters.CacheHoldsReadings | custom_components/kostal_kore/coordinator.py:1119-1173 | In every run the cached text is one the device answered with, never a held or back-filled one, and a non-zero answer is published as it is |
| ZeroFilters.ZerosAfterPositive | custom_components/kostal_kore/coordinator.py:978-997 | After a positive reading, whatever gaps and unparsable answers lie between, the first two zeros (less those carried over) are published as that reading and the rest as zeros |
| ZeroFilters.ExactlyTwoAreHeld | custom_components/kostal_kore/coordinator.py:978-997 | In every run exactly the next two zeros are held if and only if the text cached before the positive reading was a number or absent, or no hold had been counted |
| ZeroFilters.TextBetweenZeros | custom_components/kostal_kore/coordinator.py:978-997 | A run in which a textual state keeps the hold count, so the next zero goes straight through |
| ZeroFilters.ProcessDataCoordinator.HeldSocForZero | custom_components/kostal_kore/coordinator.py:978-997 | Whether the last value stands in, and the count afterwards |
| ZeroFilters.ProcessDataCoordinator.MergeModule | custom_components/kostal_kore/coordinator.py:1114-1173 | Merging one module field by field: the state of charge follows the filter, every other field is published as answered or back-filled and cached only as answered, other modules keep their cache |
| Windows.MajorityHoldsMedian | custom_components/kostal_kore/health_monitor.py:534-541 | A strict majority of a window's entries holds its median inside their interval, for odd and even windows |
| Windows.MedianIsMiddle | custom_components/kostal_kore/health_monitor.py:534-541 | The median is the middle entry of the window in order, or half way between the two middle ones |
| DcShareBaseline.SustainedFaultIsNotLearned | custom_components/kostal_kore/health_monitor.py:483-562 | However long a share stays more than 20 points away from all that was learned, at most 30 of its samples are learned, the learned median stays in its interval, and from the 31st on the deviation exceeds 20 points |
| DcShareBaseline.HealthyRunLearns | custom_components/kostal_kore/health_monitor.py:483-541 | In healthy operation (shares in an interval no wider than 20 points, no collapse) every sample is learned, so the baseline stands from the 31st sample and the least number required |
| DcShareBaseline.CollapsedSharesAreNeverLearned | custom_components/kostal_kore/health_monitor.py:511-541 | In every run no share below the collapse floor is ever in a long window, and both windows keep their bounds |
| StringPowers.SampledIsCounted | custom_components/kostal_kore/health_monitor.py:483-510 | Which poll samples which string, from the string powers: at least two readable strings and 200 W together, and two readable ones that have shown a twentieth of the power this session; the recorded share times the power of all strings is the power of this one |
| StringPowers.SharesAddUp | custom_components/kostal_kore/health_monitor.py:497-499 | When every readable string is sampled the shares add up to 1 |
| StringPowers.FaultAfterHealth | custom_components/kostal_kore/health_monitor.py:483-562 | Over polls of string powers from an empty monitor: after healthy operation that kept a string's part of the power in an interval of at most 20 points, any fault more than 20 points outside leaves the learned median in it for ever, and from its 31st sample on the string is reported to deviate by the distance in points, more than 20 |
| StringPowers.DeadStringIsListed | custom_components/kostal_kore/health_monitor.py:565-584 | A string that has produced and then has less than two per cent of the power, 0 W for one, is listed as collapsed after 31 polls that sample it |
| StringPowers.LiveStringIsNotListed | custom_components/kostal_kore/health_monitor.py:565-584 | A string with at least two per cent of the power, more than half for one, is not |
| DcShareBaseline.DeadStringIsReported | custom_components/kostal_kore/health_monitor.py:565-584 | 31 samples of a share below the floor report a string as collapsed whatever its windows held before; over the powers themselves this is StringPowers.DeadStringIsListed |
| DcShareBaseline.HealthMonitor.RecordDcShares | custom_components/kostal_kore/health_monitor.py:483-541 | The sampling loop leaves exactly the windows and active strings of the transition, whose shares StringPowers.SampledIsCounted ties to the string powers |
| DcShareBaseline.HealthMonitor.DcStringBaselineDeviation | custom_components/kostal_kore/health_monitor.py:544-562 | The reported deviation is the largest among the judged strings, and missing exactly when none is judged |
| DcShareBaseline.HealthMonitor.DcStringCollapsed | custom_components/kostal_kore/health_monitor.py:565-584 | The loop lists exactly the strings with at least five recent samples whose median lies below two per cent |
| LeastSquares.CrossIsPairs | custom_components/kostal_kore/battery_soh_calculator.py:366-375 | n times the sum of products less the product of the sums is the sum over all pairs of the products of their differences |
| LeastSquares.DenominatorVanishes | custom_components/kostal_kore/battery_soh_calculator.py:372-374 | The denominator is never negative, and zero exactly when all x agree |
| LeastSquares.SlopesAgree | custom_components/kostal_kore/degradation_tracker.py:159-180 | The centred regression and the raw-sum regression give the same slope, or both none |
| LeastSquares.SlopeFitsBest | custom_components/kostal_kore/battery_soh_calculator.py:356-375 | The slope is that of the best fit: no other line has a smaller sum of squared distances |
| LeastSquares.OpposedSlopes | custom_components/kostal_kore/battery_soh_calculator.py:356-375 | With x never falling and y never rising the slope is not positive |
| BatterySoh.SlopeMissing | custom_components/kostal_kore/battery_soh_calculator.py:356-384 | The slope is missing exactly when there are too few samples, too short a window, or all counters agree |
| BatterySoh.SlopeIsCentred | custom_components/kostal_kore/battery_soh_calculator.py:356-375 | The calculator's slope is the degradation tracker's formula on the same points |
| BatterySoh.AnnualIsPaced | custom_components/kostal_kore/battery_soh_calculator.py:394-404 | The yearly throughput exists exactly with two samples and time between first and last, and is the window's throughput at the pace of 31557600 seconds |
| BatterySoh.ProjectionExactly | custom_components/kostal_kore/battery_soh_calculator.py:348-423 | When a projection exists and what it is: health while the slope is not negative, otherwise the percentage left after five years at this pace, not below zero |
| BatterySoh.SampledExactly | custom_components/kostal_kore/battery_soh_calculator.py:246-303 | Over runs, a poll is sampled exactly if it counts and three hours have passed since every sampled poll before it; and what the sample holds |
| BatterySoh.BaselineMovesExactly | custom_components/kostal_kore/battery_soh_calculator.py:277-289 | The baseline moves exactly to a reading more than half a per cent above it |
| BatterySoh.SavedExactly | custom_components/kostal_kore/battery_soh_calculator.py:273-303 | An update asks to be saved exactly when it moved the baseline or took a sample |
| BatterySoh.RunsStayCalibrated | custom_components/kostal_kore/battery_soh_calculator.py:246-303 | In every run from any loaded state the current reading stays within half a per cent above the baseline, and at most 500 samples are kept |
| BatterySoh.WindowIsTheLatest | custom_components/kostal_kore/battery_soh_calculator.py:291-299 | The sample window is the last 500 of the loaded and the taken samples, in order |
| BatterySoh.BaselineIsTheMaximum | custom_components/kostal_kore/battery_soh_calculator.py:277-289 | The baseline is the loaded one or an accepted reading, never falls, and no accepted reading exceeds it by more than half a per cent |
| BatterySoh.ProjectionBounds | custom_components/kostal_kore/battery_soh_calculator.py:407-423 | State of health is in (0, 100.5], a projection is never negative, and it stays at or below the state of health exactly when the slope is not negative or the counter rose over the window |
| BatterySoh.WornBatteryProjection | custom_components/kostal_kore/battery_soh_calculator.py:407-423 | With a counter that never falls and a capacity that never rises, 0 <= projection <= state of health <= 100.5 and the slope is not positive |
| BatterySoh.MissingCounterExceeds | custom_components/kostal_kore/battery_soh_calculator.py:261-269 | A last sample whose discharge counter was missing (taken as zero) with a higher capacity makes the projection exceed the present state of health |
| BatterySoh.MissingCounterIsReached | custom_components/kostal_kore/battery_soh_calculator.py:246-303 | From an empty calculator: any 30 to 499 steady polls a good day apart and one poll without the counter reading more capacity reach that state |
| BatterySoh.BatterySohCalculator.UpdateFromModbus | custom_components/kostal_kore/battery_soh_calculator.py:246-303 | One update in place: rejected readings and a stopped calculator change nothing |
| DegradationTracker.SnapshotsAreExact | custom_components/kostal_kore/degradation_tracker.py:70-87 | With days that never go back, every kept snapshot holds the count, sum, minimum and maximum of exactly its day's measurements, one snapshot a day, in order |
| DegradationTracker.NoDayMissing | custom_components/kostal_kore/degradation_tracker.py:70-87 | Every day measured since the oldest kept snapshot has one, and until the list is full the oldest is the first day measured |
| DegradationTracker.RateFromSeventhDay | custom_components/kostal_kore/degradation_tracker.py:158-181 | The monthly rate exists exactly from the seventh day on and is thirty times the raw-sum slope of the daily averages |
| DegradationTracker.AveragesAreDaily | custom_components/kostal_kore/degradation_tracker.py:158-171 | What the regression is over: each kept day's distance from the oldest and the average of the values measured on it |
| DegradationTracker.DayExactly | custom_components/kostal_kore/degradation_tracker.py:74 | Days have 86400 seconds, truncated toward zero |
| DegradationTracker.TrackedParameter.Record | custom_components/kostal_kore/degradation_tracker.py:70-87 | One measurement in place, with the truncation of the snapshot list |
| FireAlertLog.NothingActiveIsLost | custom_components/kostal_kore/fire_safety.py:97-158 | In every run, at every later time, the active alerts and the risk level of the 500-entry log are those of an unbounded log, no two active alerts share category and level, and there are at most forty |
| FireAlertLog.ActiveExactly | custom_components/kostal_kore/fire_safety.py:97-234 | What the bounded monitor shows at any later time, over every run: exactly the alerts some call reported that are less than an hour old and that no clearing since found too old |
| FireAlertLog.DueExactly | custom_components/kostal_kore/fire_safety.py:160-175 | A call runs its checks exactly when five seconds have passed since every earlier call that did |
| FireAlertLog.LetThroughExactly | custom_components/kostal_kore/fire_safety.py:191-215 | What a call lets through: every thermal finding, each grid finding the previous checked call reported too, and panel findings while they produce and the inverter is neither off nor on standby |
| FireAlertLog.ReportedExactly | custom_components/kostal_kore/fire_safety.py:215-234 | An alert is reported exactly if its finding is let through, the first of its category and level in this call, and no active alert has both |
| FireAlertLog.RiskIsHighest | custom_components/kostal_kore/fire_safety.py:140-154 | The risk is the highest level among the active alerts, safe without any |
| FireAlertLog.SameReports | custom_components/kostal_kore/fire_safety.py:160-234 | Every call reports the same new alerts as it would with an unbounded log |
| FireAlertLog.EveryFindingIsActive | custom_components/kostal_kore/fire_safety.py:191-231 | After every call that runs the checks, each finding it let through is spoken for by an active alert of its category and level, in the bounded log too |
| FireAlertLog.FirstHasRunOut | custom_components/kostal_kore/fire_safety.py:97-121 | By pigeonhole over the (category, level) keys, the entry a full log evicts is never active |
| FireAlertLog.ClearingSpares | custom_components/kostal_kore/fire_safety.py:123-138 | Clearing silences exactly the non-thermal alerts of five minutes and more, and only while the panels do not produce |
| FireAlertLog.GridNeedsTwoPolls | custom_components/kostal_kore/fire_safety.py:519-526 | A grid finding passes exactly when the previous call that ran its checks reported the same category and title |
| FireAlertLog.FireSafetyMonitor.Analyze | custom_components/kostal_kore/fire_safety.py:160-234 | One call in place: interval gate, clearing, confirmation, deduplication and the bounded append |
| FireAlertLog.FireSafetyMonitor.ClearStaleAlerts | custom_components/kostal_kore/fire_safety.py:123-138 | Clearing keeps thermal alerts for an hour and others for five minutes, and everything while the panels produce |
| FireAlertLog.FireSafetyMonitor.ConfirmGridAlerts | custom_components/kostal_kore/fire_safety.py:519-526 | The streak table and the confirmed findings of one check |
| FireAlertLog.FireSafetyMonitor.CurrentRiskLevel | custom_components/kostal_kore/fire_safety.py:140-154 | The highest level among the active alerts |
| ConfirmationGuard.AuthorisedByThreeCalls | custom_components/kostal_kore/migration_services.py:195-303 | A call goes ahead exactly as the third of three: one issued the challenge, one gave its code within 300 s, this one repeats it with the final flag within 60 s of that, no fingerprint contradicting, and every other call in between turned away without touching the guard |
| ConfirmationGuard.DryRunIsAsked | custom_components/kostal_kore/migration_services.py:206-208 | Only a call that asks for a dry run is answered as one |
| ConfirmationGuard.GetsThroughExactly | custom_components/kostal_kore/migration_services.py:195-303 | In every run a call gets through if and only if it is a dry run or the third of three calls that confirm the operation |
| ConfirmationGuard.ThreeCallsSuffice | custom_components/kostal_kore/migration_services.py:195-303 | From rest, three calls that fit together let the third, and only the third, go ahead |
| ConfirmationGuard.SamePayload | custom_components/kostal_kore/migration_services.py:195-303 | With the non-empty fingerprints the services compute, all three calls carry the same one |
| ConfirmationGuard.ChallengeAuthorisesOnce | custom_components/kostal_kore/migration_services.py:195-303 | A second authorisation rests on a challenge issued after the first |
| ConfirmationGuard.PhaseTellsHistory | custom_components/kostal_kore/migration_services.py:110-128 | The guard waits for a code, or for the final call, only while such a challenge stands |
| ConfirmationGuard.MigrationGuards.EnsureConfirmed | custom_components/kostal_kore/migration_services.py:195-303 | Over the log of calls on this entry and action: returns true exactly for a dry run or the third of three calls of the log that confirm it; other guards and logs stay |
| ConfirmationGuard.MigrationGuards.Confirm | custom_components/kostal_kore/migration_services.py:206-303 | The ladder of phases and tests in place, one guard at a time |
| HistoryMerge.NormaliseMappingRows | custom_components/kostal_kore/migration_services.py:158-180 | The mapping is refused exactly when two sources claim one target; otherwise it holds exactly the usable rows, once each in order of first appearance, with distinct targets |
| HistoryMerge.StatesKept | custom_components/kostal_kore/migration_services.py:326-364 | One mapping loses and alters no states row; each keeps its entity, except that those of the old entity belong to the new one |
| HistoryMerge.StatesRenamed | custom_components/kostal_kore/migration_services.py:326-364 | After a mapping nothing belongs to the old name, and wherever it had a metadata row, the rows of both names carry the new one |
| HistoryMerge.TableJoined | custom_components/kostal_kore/migration_services.py:367-389 | Merging one pair of series by delete and re-point gives exactly the declared table: the old rows and the new ones whose start the old lacks |
| HistoryMerge.MergedExactly | custom_components/kostal_kore/migration_services.py:392-474 | A merged table holds for the old series exactly its rows plus the new rows whose start_ts is absent from them; nothing refers to the new series any more, it is gone, and the old one bears the new name |
| HistoryMerge.NamesExactly | custom_components/kostal_kore/migration_services.py:392-474 | An old series keeps its name exactly if the target has several series of its source or one in another unit; otherwise it bears the new name, and no other series changes its name |
| HistoryMerge.MergedAwayExactly | custom_components/kostal_kore/migration_services.py:392-474 | A target series disappears exactly if some old series of its source takes its rows over |
| HistoryMerge.BlockedExactly | custom_components/kostal_kore/migration_services.py:430-455 | Which old series must not be merged, told by the units and sources in the table |
| HistoryMerge.BlockedUntouched | custom_components/kostal_kore/migration_services.py:430-455 | With clashing units or duplicate target sources, both series keep their metadata and exactly their rows |
| HistoryMerge.SlotsAreKept | custom_components/kostal_kore/migration_services.py:367-389 | No time slot is lost: each row's time is still covered, by its own series or by the one it was merged into |
| HistoryMerge.StartsStayUnique | custom_components/kostal_kore/migration_services.py:367-389 | (metadata, start_ts) stays unique |
| HistoryMerge.NoNewClash | custom_components/kostal_kore/migration_services.py:392-474 | No two series come to share (statistic_id, source), even with duplicate targets or clashing units |
| HistoryMerge.UnnamedUntouched | custom_components/kostal_kore/migration_services.py:392-474 | A series the mapping does not name keeps its metadata and exactly its rows |
| HistoryMerge.CopyKeepsHistory | custom_components/kostal_kore/migration_services.py:477-523 | Over any mapping list every states row survives under the name its entity ends up with, and both uniqueness constraints hold |
| HistoryMerge.CopyGoesThrough | custom_components/kostal_kore/migration_services.py:477-523 | The copy is refused only for a name with more than one metadata row to begin with; none of its steps makes a later one fail |
| HistoryMerge.CopyKeepsSlots | custom_components/kostal_kore/migration_services.py:477-523 | Over any mapping list no hourly or short-term time slot is lost: some series of the same source, under the same name or one the mappings lead to, still has a row for it |
| HistoryMerge.CopyLeavesOthers | custom_components/kostal_kore/migration_services.py:477-523 | Over any mapping list a series no mapping names is as it was, with exactly its rows |
| HistoryMerge.MergeStatisticsTable | custom_components/kostal_kore/migration_services.py:367-389 | The two table statements give the joined table |
| HistoryMerge.Session.MergeStatesMetadata | custom_components/kostal_kore/migration_services.py:326-364 | The updates and the deletion of one mapping; an ambiguous lookup raises and changes nothing |
| HistoryMerge.Session.MergeStatisticsMetadata | custom_components/kostal_kore/migration_services.py:392-474 | The loop over the old series gives the declared result in whatever order the rows come |
| HistoryMerge.Session.CopyLegacyHistory | custom_components/kostal_kore/migration_services.py:477-523 | All mappings in one transaction: all merged, or everything rolled back |
| CommunicationState.RestoreInvertsSnapshot | custom_components/kostal_kore/communication.py:18-60 | Restoring a snapshot gives back incidents, faults, history and counters |
| CommunicationState.RestoredExactly | custom_components/kostal_kore/communication.py:18-60 | Whatever the store hands back, a negative count is taken as zero, and the current faults are those of the latest readable among the last 32 items, none without one |
| CommunicationState.CountingSurvivesRestarts | custom_components/kostal_kore/communication.py:62-83 | In every run whose restarts come with nothing missing in the store, the incidents are the times the fault list stopped being empty, the faults are the last observed, and the history is the last 32 of all announcements |
| CommunicationState.AnnouncedExactly | custom_components/kostal_kore/communication.py:62-83 | In every run an observation is announced exactly if the faults are others than before, or there are any and the stop confirmation changed or the day's notice is due |
| CommunicationState.SamplesAreCounted | custom_components/kostal_kore/communication.py:62-83 | Without restarts the failed samples are the faulty observations, the time of success that of the latest without fault, the stop confirmation that of the latest |
| CommunicationState.SortedExactly | custom_components/kostal_kore/communication.py:62-66 | The faults kept are the known ones named |
| CommunicationState.SortedInOrder | custom_components/kostal_kore/communication.py:62-66 | Each code is kept once, in alphabetical order |
| CommunicationState.RestartsChangeNoCount | custom_components/kostal_kore/communication.py:18-95 | Such a run counts exactly what it would have counted without its restarts |
| CommunicationState.RestartGoesBack | custom_components/kostal_kore/modbus_coordinator.py:172-176 | In every run, a restart takes incidents, faults and history back to what they were at the last announcement that reached the store |
| CommunicationState.RestartLosesWhatIsMissing | custom_components/kostal_kore/modbus_coordinator.py:172-176 | In a run whose earlier restarts had nothing missing and whose announcement clocks rise, a restart gives back incidents, faults and history exactly when no announcement is missing in the store |
| CommunicationState.RestartLosesOnsets | custom_components/kostal_kore/modbus_coordinator.py:172-176 | In such a run, clocks rising or not, the incident count survives the restart exactly when no incident began since the last stored announcement; otherwise it falls back to the incidents up to there |
| CommunicationState.UnsavedIsForgotten | custom_components/kostal_kore/modbus_coordinator.py:172-176 | An onset whose save failed is missing and forgotten: one incident before the restart, none after |
| CommunicationState.UnsavedMayKeepTheCount | custom_components/kostal_kore/modbus_coordinator.py:172-176 | A missing second announcement of the same incident costs no count |
| CommunicationState.CommunicationState.Observe | custom_components/kostal_kore/communication.py:62-83 | One observation in place; an unknown code raises and changes nothing |
| CommunicationState.CommunicationState.constructor | custom_components/kostal_kore/communication.py:18-60 | What is restored from whatever the store hands back, unreadable entries skipped |
| ReadbackVerification.OneCommandPerReading | custom_components/kostal_kore/modbus_number.py:649-663 | A watt reading never confirms two commands a full step apart |
| ReadbackVerification.AppliedWasShown | custom_components/kostal_kore/modbus_number.py:496-612 | A command is reported as applied only if acknowledged, refreshed on the same connection, and spoken for by a read-back and, where polled back, by the completed poll; cyclic limits only on a match |
| ReadbackVerification.ResultExactly | custom_components/kostal_kore/modbus_number.py:447-612 | What an attempt reports, all eight outcomes each with its exact condition on what was read back and polled |
| ReadbackVerification.JudgeExactly | custom_components/kostal_kore/modbus_number.py:500-569 | The verdict of the three read-backs, exactly |
| ReadbackVerification.ShownIsConfirmed | custom_components/kostal_kore/modbus_number.py:447-612 | A command acknowledged, read back and polled back as given is confirmed |
| ReadbackVerification.MatchesExactly | custom_components/kostal_kore/modbus_number.py:649-663 | When a reading confirms a command, as distances: a millionth, or in watts 5 W or half a per cent and always less than half a step; zero only zero |
| ReadbackVerification.IgnoredRaiseIsReported | custom_components/kostal_kore/modbus_number.py:487-569 | While 1038 or 1040 keeps showing the earlier command, an acknowledged and fully read-back attempt with at least one step more is reported as applied exactly when an earlier attempt could not be read back and the refresh goes through |
| ReadbackVerification.RememberedUntilUnseen | custom_components/kostal_kore/modbus_number.py:487-491 | The command in effect before an ignored raise is remembered across attempts exactly until one cannot be read back |
| ReadbackVerification.NotedExactly | custom_components/kostal_kore/modbus_number.py:476-618 | What an attempt leaves: nothing when refused or not acknowledged; otherwise one command more, its outcome, and for the next comparison the command given, none after a reconnect, or still the old one after an ignored raise |
| ReadbackVerification.LastIsLatest | custom_components/kostal_kore/modbus_number.py:614-618 | In every run the outcome remembered is that of the latest acknowledged attempt |
| ReadbackVerification.LostReadbackHidesIgnoredRaise | custom_components/kostal_kore/modbus_number.py:553-569 | A run in which a lost read-back makes the next ignored raise count as applied |
| ReadbackVerification.ModbusNumberEntity.ReadBack | custom_components/kostal_kore/modbus_number.py:500-539 | The loop over the three read-backs gives the verdict |
| ReadbackVerification.ModbusNumberEntity.SetNativeValue | custom_components/kostal_kore/modbus_number.py:447-612 | One attempt in place: refusals, the comparison base, the verdict, the refresh and what is remembered |
| SocController.OneDirectionPerSession | custom_components/kostal_kore/battery_soc_controller.py:243-359 | One session never commands both charging and discharging, however the target changes and the state of charge jumps |
| SocController.CommandsTowardTarget | custom_components/kostal_kore/battery_soc_controller.py:285-343 | A command is given only by a running session, with the state of charge read and off the target, the battery not too hot and the inverter not off; it drives toward the target in the session's direction |
| SocController.CommandsWheneverItMay | custom_components/kostal_kore/battery_soc_controller.py:285-343 | And it is given whenever that holds: a running turn off the target that nothing pauses commands the battery toward the target |
| SocController.ReachedInDirection | custom_components/kostal_kore/battery_soc_controller.py:287-305 | The session ends as reached exactly when the reading stands at the target, or at or beyond it in the direction the session was driving |
| SocController.GivesUpAtFifthUnread | custom_components/kostal_kore/battery_soc_controller.py:264-287 | The session gives up reading exactly at the fifth unreadable turn in a row |
| SocController.GivesUpAtFifthFailure | custom_components/kostal_kore/battery_soc_controller.py:344-376 | The session gives up writing exactly with the fifth failed write in a row |
| SocController.WarningsAreSpaced | custom_components/kostal_kore/battery_soc_controller.py:513-577 | A warning comes exactly with the fourth diverging sample in a row, if after every earlier warning four clean samples came in a row; gaps and failed writes break both |
| SocController.EvidenceExactly | custom_components/kostal_kore/battery_soc_controller.py:495-577 | What a command says about divergence: more than 200 W against its direction diverges, less does not, a failed write or missing sample breaks |
| SocController.TurnWarnsWithEvidence | custom_components/kostal_kore/battery_soc_controller.py:361-376 | A turn of the loop warns exactly when its evidence does; turns without a command leave no trace |
| SocController.BatterySocController.RunLoop | custom_components/kostal_kore/battery_soc_controller.py:243-406 | The loop gives exactly the deeds and the ending of the session function, and clears the latch |
| SocController.BatterySocController.CheckSetpointDivergence | custom_components/kostal_kore/battery_soc_controller.py:513-577 | One check of the divergence counters and latch |

## Left out

- Sockets, pymodbus, aiohttp, SQLAlchemy and Home Assistant: a device is a word map and a reply to each request, a database is maps of rows, the store is the last saved snapshot. Logging, notifications and entity classes are not modelled.
- MODBUS framing: the MBAP header, connections of external clients and malformed streams; the proxy model starts at a non-empty PDU.
- IEEE-754 arithmetic: FLOAT32 registers are byte patterns with a finiteness test, decoded numbers and all sums, medians, slopes and tolerances are exact reals; rounding is not modelled.
- STRING registers: decoded and encoded by the model, but outside the round-trip theorems; a value whose type does not fit its register is not encoded.
- SuppressionRuns.SuppressedHasStrikes: lists that name one register twice are left out; the registers of the map are distinct.
- BatchStrikes.BatchKeepsRefusedStrikes: as in BatchReader, each register on its own is answered; what a batch does to one address on any device is in SuppressionRuns.BatchAt.
- Retries inside the client: one reply stands for a request with all its retries, and the connection does not change inside one batch of `BatchReader`; reconnects inside a batch are events of `PollCoordinator`. The abort of a batch while the client shuts down is not modelled.
- A write's first attempt relative to other tasks, and ownership of register 1038: only retries re-check their precondition, so the code decides neither.
- The proxy's write handlers beyond decoding, encoding and bookkeeping: which registers may be written, installer gates and partial forwarding.
- PollCoordinator.ServedValuesAreSound: one poll is in flight at a time, connecting and clearing the cache at the start of a poll is one step, and the all-suppressed case of an empty fast batch is not told apart.
- ProxyServer.ReadIsTransparent: the device's words are taken to stand still between observation and read; freshness is the subject of the TTL in the poll machine.
- FireAlertLog.NothingActiveIsLost: what the checks find is an input; thresholds, rates of change and the ratio history are not modelled. The bound of forty keys counts every pair of category and level, the checks use thirteen of them.
- ReadbackVerification.IgnoredRaiseIsReported: no other write path commands the register during the run; the curtailment attributes, the log throttle and the G3 keepalive task are not modelled.
- BatterySoh.ProjectionBounds: saving, debouncing and migration of stored samples are not modelled; the charge counter and cycle count are informative only.
- HistoryMerge.Session.MergeStatisticsMetadata: the old series of one mapping are taken to have different sources, which the recorder's unique constraint on statistic_id guarantees; the row counts of the summary are not modelled.
- HistoryMerge.NormaliseMappingRows: names are taken as already stripped of white space.
- CommunicationState.CountingSurvivesRestarts: the count of failed samples, a stop confirmation that changes while healthy and the repeat notice after a restart are not preserved by the code and are not claimed; what a restart after a failed save loses is in CommunicationState.RestartLosesWhatIsMissing and RestartLosesOnsets.
- ConfirmationGuard.AuthorisedByThreeCalls: the generated code is an input; stripping and upper-casing of the entered code are taken as done.
- ZeroFilters.CacheHoldsReadings: texts are numbers or words; the freshness flags, stale-data age and partial-response flag of the REST coordinator are not modelled.
- DcShareBaseline.SustainedFaultIsNotLearned: the powers of a poll are already parsed; the minimum number of samples is at least one.
- Refcounted fetch registration, event history, write arming, device metadata and settings coordinators of coordinator.py: bookkeeping whose properties a reading of one body settles.
- Seasonal and seven-day averages, trends and dictionary forms of degradation_tracker.py: single expressions.
- Discovery, configuration flow, logins, translations, diagnostics text, legacy device transfer and scripts: I/O or user interface.
