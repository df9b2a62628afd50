# Verification of node-disk-sentinel

A Dafny model of the part of node-disk-sentinel that decides what it reports about the disks of a
node, with proofs of what that part keeps, reaches and leaves alone. `dafny verify dfyconfig.toml`
checks the whole project.

The model has three layers.

**From a hardware change to a scan.** `InventoryProtocol` is a labelled step system made of udev,
the netlink socket with its bounded queue, the listener, the capacity-1 channel `dirty`, the ticker
and the scan loop with its fixed debounce window. All nondeterminism is in the labels, so a
statement about every label sequence is a statement about every interleaving. `Uevents` holds the
byte decoder, the event filter and the receive loop that feed it.

**From a scan to the API objects, the metrics and the events.** `ReconcileSpec`, `Api` and
`Reconciler` model one pass: `DiskMonitor` is a class over an API server whose every call may fail
(a fault function decides, and the statements hold for every fault function), a gauge registry and
an event recorder. `DiskStatus` holds the status and its conditions, `Metrics` the gauges.
`ReconcileTheorems` states what a pass without API errors establishes. `StatusPatch` encodes the
status as a JSON document and proves, over the merge patch of RFC 7396 (section 2) in `MergePatch`,
what a patch computed from a stale base stores. `StatusRuns` is the life of one object: collections
in flight, conflict-retried missing marks, writes of others and deletion in any order;
`StatusOverlaps` is about more than one collection in flight, and `GaugeRuns` adds the disk's gauges
to that life: readings are published before the status is patched and dropped before the mark is
written, so the two can cross.

**The parsers, filters and rules in between.** `CmdArgs` with `CmdGrammar`, `ExcludeRules`, `Naming`, `Discovery`,
`Assessment` and `Telemetry`; `Smart` is smartctl's output with 64-bit arithmetic, `Text` the string
functions of the standard library that these use.

Loops and field updates of the program are methods and classes here, each proved equal to a
specification function or predicate; the properties are lemmas about those.

Where the code does not do what is documented, the model follows the code:

- `health == conditions[Degraded].reason`, the memory of the latest success, the memory of having
  been assessed and the one-to-one events hold in every run with at most one collection of a disk in
  flight. The program does not prevent two (a scan and a changed spec), and then each of the four can
  fail: `StatusOverlaps.OverlapBreaksContract`, `OverlapHidesLatestSuccess`,
  `OverlapForgetsAssessment` and `OverlapRepeatsEvent` are such runs from the very beginning, and
  `ContractIffAllSafe`, `RemembersIffAllRecent`, `AssessedIffNeverForgets` and
  `AccountedIffAllQuiet` say for any number in flight exactly which runs keep them.
- A missing mark written during a successful collection can stay visible although
  `lastDataCollectedTime` moves on: `StatusOverlaps.SuccessShownIff`, `StatusOverlaps.SuccessCanBeMasked`.
- SectorErrors is documented for either of two counters being positive; the code tests a 64-bit sum:
  `Assessment.DocumentedSectorErrors`, `DocumentedScsiErrors` and, with concrete inputs,
  `OverlookedErrors`.
- A disk marked as missing can export readings, published by a collection that was in flight or that
  began between the two halves of the mark: `GaugeRuns.CleanIffAllOrderly` is the condition,
  `GaugeRuns.CrossingExports` and `GaugeRuns.OvertakingExports` are such runs.
- The health gauge is published before the status is patched, so a failed patch leaves it ahead of the
  stored health unless that is the same anyway: `Reconciler.DiskMonitor.ReconcileDisk`.
- Which of several entries with one sector ID counts depends on the order of the table:
  `Assessment.TableOrderIrrelevantIff`, `Assessment.TableOrderCanMatter`.
- Generated names are not RFC 1123 subdomains for every identifier: `Naming.CRNameSubdomainIff` gives
  the condition for names of any length, `Naming.InvalidNameExample` a disk that fails it.
- An object whose stored description matches a rule is deleted and created again if its disk is
  still monitored, and loses its smartctl arguments: `ReconcileTheorems.ArgumentsKept` and, with a
  concrete object and rule, `ReconcileTheorems.ArgumentsLostExample`.
- A gauge whose reading disappears from smartctl's output keeps its last value:
  `Metrics.TelemetryGaugesMatchStatus`.

Assumptions: the goroutines of the protocol run as soon as they can, so time passes only while both
wait; the kernel reports a full socket buffer to the reader; a change is covered by a scan that
begins after udev recorded it, whether or not the API calls of that scan succeed.

## Model

| member | source | states |
|---|---|---|
| InventoryProtocol.NoLostWakeup | pkg/controller/physicaldisk_controller.go:171-226 | In every reachable state a disk change that no scan has covered still has a pending cause: an unsent or queued event, a loss not yet reported, a listener about to trigger or to bind, a token, or a loop on its way to a scan |
| InventoryProtocol.DrainLosesNothing | pkg/controller/physicaldisk_controller.go:215-222 | Discarding the hints of the window loses no change: the loop is committed to a scan that covers everything recorded before the drain |
| InventoryProtocol.HintCoveredInTime | pkg/controller/physicaldisk_controller.go:200-226 | After a trigger at time t, a scan begins by max(t, end of the running scan) + EventDebounce, however many more triggers arrive |
| InventoryProtocol.ChangeCoveredInTime | pkg/discovery/uevent.go:96-149 | The same bound end to end, from the broadcast of a change to a scan that covers it, over full queues, truncated datagrams, and closed and failing sockets, where the last bind counts |
| InventoryProtocol.RankFalls | pkg/controller/physicaldisk_controller.go:200-226 | While a hint waits, every step of the loop lowers a rank and no other step raises it |
| InventoryProtocol.ScanReachable | pkg/controller/physicaldisk_controller.go:200-226 | No state with a waiting hint is stuck: the goroutines alone reach a scan that covers every recorded change |
| InventoryProtocol.UncoveredLeadsToScan | pkg/controller/physicaldisk_controller.go:171-226 | In every reachable state an uncovered change is, whatever its pending cause, a sequence of own steps of udev, listener and loop away from a scan that covers it, without the ticker and without a further change |
| InventoryProtocol.CauseLeadsToScan | pkg/controller/physicaldisk_controller.go:171-226 | The same for each cause: unsent, queued or lost event, closed socket, listener about to trigger, token, window |
| InventoryProtocol.NothingDroppedWithRoom | pkg/discovery/uevent.go:128-132 | No loss is reported as long as the socket buffer could hold everything sent |
| InventoryProtocol.Conservation | pkg/controller/physicaldisk_controller.go:171-227 | Over every run, accepted triggers are tokens taken, drained or still pending, and scans are windows completed or ticks taken |
| InventoryProtocol.ScansBounded | pkg/controller/physicaldisk_controller.go:171-227 | Scans cost at most one accepted trigger or one tick each |
| InventoryProtocol.ScansComplete | pkg/controller/physicaldisk_controller.go:200-227 | Scans do not overlap and are not cut short: in every run each scan but the running one has ended, even if the monitor is stopped |
| InventoryProtocol.BurstCostsOneScan | pkg/controller/physicaldisk_controller.go:205-220 | All triggers between taking a token and the drain of its window cost one scan, which covers their changes; the drain is at least EventDebounce after the token, and at most one of the triggers is accepted |
| InventoryProtocol.NoScanBeforeWindowEnds | pkg/controller/physicaldisk_controller.go:205-214 | After a token was taken at time t no scan begins before t + EventDebounce, in any run: disks that announce themselves within the window share its scan |
| InventoryProtocol.WindowsTakeTime | pkg/controller/physicaldisk_controller.go:205-220 | Over every run segment the completed windows take at least EventDebounce each |
| InventoryProtocol.ScanRateBounded | pkg/controller/physicaldisk_controller.go:171-227 | From the start of every run, all scans but those of the ticker together take at least EventDebounce each, however many triggers arrive |
| InventoryProtocol.ReadyIff | pkg/controller/physicaldisk_controller.go:222-225 | The monitor is ready exactly from the end of its first scan until it stops |
| Uevents.ParseMessage | pkg/discovery/uevent.go:152-171 | The decoder's loop yields the environment the header and the NUL-separated fields define, or the same error |
| Uevents.OffsetInBounds | pkg/discovery/uevent.go:153-162 | Every accepted properties offset lies behind the header and inside the message, on either byte order |
| Uevents.WireFormat | pkg/discovery/uevent.go:152-162 | A header is accepted exactly when there are 40 bytes, "libudev" and NUL, the bytes fe ed ca fe at 8, and at 16 an offset in native byte order from 40 to below the length |
| Uevents.ParsedFields | pkg/discovery/uevent.go:164-170 | In every accepted message a key is present exactly if it is not empty and some NUL-separated field starts with it and "=", and its value is what follows in the last such field |
| Uevents.MessageRoundTrip | pkg/discovery/uevent.go:152-171 | Every non-empty environment with non-empty keys free of '=' and NUL and values free of NUL survives encoding and parsing |
| Uevents.FiltersAgree | pkg/discovery/uevent.go:178-187 | For add and remove events of whole disks the listener reacts exactly when the scan's filter keeps a record with the same name and ID values |
| Uevents.Listen | pkg/discovery/uevent.go:96-149 | The receive loop triggers once for the bound socket and once for every lost, truncated or relevant datagram until it ends, and fails exactly when the socket fails first |
| Uevents.MessageAlarmsIff | pkg/discovery/uevent.go:139-147 | From bytes to filter: the message encoding an add or remove event of a whole disk makes the listener trigger exactly when a scan would not ignore the disk on the strength of its udev record |
| Uevents.EventAlarmsIff | pkg/discovery/uevent.go:173-187 | For every encoded message: it triggers exactly when it adds or removes a block device of type disk that a scan would not ignore; a change event or a partition never does |
| Uevents.OutcomeCounts | pkg/discovery/uevent.go:128-147 | What each outcome of a receive contributes: a full buffer and a truncated datagram trigger, an interrupted call is repeated, a failure and a closed socket end the loop |
| Uevents.ReceiveRefines | pkg/discovery/uevent.go:128-147 | The protocol's listener, on a datagram that announces a change exactly when the scan's filter keeps the disk, and the receive loop, on the encoded bytes, agree on calling trigger |
| MergePatch.ThreeWay | pkg/controller/physicaldisk_controller.go:391-393 | Member by member, a patch computed from a base and applied to another document keeps what the client did not change, merges objects and replaces everything else |
| MergePatch.RoundTrip | pkg/controller/physicaldisk_controller.go:391-393 | Applied to its own base, the patch yields the modified document |
| StatusPatch.MergedIsPatched | pkg/controller/physicaldisk_controller.go:372-393 | On the JSON encoding of the status, patching from a stale base stores the field-wise merge, with the conditions replaced as a whole |
| StatusPatch.MergeKeepsContractIff | pkg/apis/node-disk-sentinel.org/v1alpha1/physicaldisk_types.go:172-175 | For statuses that meet the health contract, the patched status meets it exactly when the conditions were left alone, the health is in the patch too, or the stored health is still the base's |
| StatusRuns.ContractAlwaysHolds | pkg/apis/node-disk-sentinel.org/v1alpha1/physicaldisk_types.go:172-175 | Health equals the reason of the Degraded condition after every step of every run with at most one collection in flight |
| StatusOverlaps.OverlapBreaksContract | pkg/controller/physicaldisk_controller.go:372-393 | A concrete run from the beginning in which two collections in flight separate health from the condition |
| StatusOverlaps.ContractIffAllSafe | pkg/controller/physicaldisk_controller.go:372-393 | With any number in flight, the contract holds throughout a run exactly when every patch in it is safe, which can be told before the patch is sent |
| StatusRuns.LatestSuccessRemembered | pkg/controller/physicaldisk_controller.go:449-475 | After every run with at most one collection in flight, health, findings, telemetry and collection time are those of the latest successful collection, and health is Unknown if there were only failures |
| StatusOverlaps.RemembersIffAllRecent | pkg/controller/physicaldisk_controller.go:372-393 | With any number in flight, the status reports the latest success throughout a run exactly when every patch has a base recent enough: whatever it leaves out because the base had it is still stored |
| StatusOverlaps.OverlapHidesLatestSuccess | pkg/controller/physicaldisk_controller.go:372-393 | A concrete run with two collections in flight: the latest success says Good and the status SelfAssessmentFailed |
| StatusRuns.NeverUnknownAgain | pkg/controller/physicaldisk_controller.go:449-454 | With at most one collection in flight, once a disk was assessed its health never returns to Unknown during its life |
| StatusOverlaps.AssessedIffNeverForgets | pkg/controller/physicaldisk_controller.go:449-454 | With any number in flight, an assessed disk stays assessed throughout its life exactly when no failed collection ends whose base had no health yet |
| StatusOverlaps.OverlapForgetsAssessment | pkg/controller/physicaldisk_controller.go:449-454 | A concrete run with two collections in flight that goes from Good to Unknown |
| StatusOverlaps.SuccessShownIff | pkg/controller/physicaldisk_controller.go:464-469 | With any number in flight, a success shows in DataCollected exactly when its base did not show the same conditions already or the stored condition still says success |
| StatusOverlaps.SuccessCanBeMasked | pkg/controller/physicaldisk_controller.go:464-469 | A concrete run from the beginning, with one collection in flight, in which a success leaves DataCollected at DiskMissing |
| StatusRuns.EventsAccounted | pkg/controller/physicaldisk_controller.go:439-447 | With at most one collection in flight and writes that succeed at the first attempt, deletions included, the recorded events are exactly those the changes of the stored status call for, in order |
| StatusOverlaps.AccountedIffAllQuiet | pkg/controller/physicaldisk_controller.go:551-568 | With any number in flight and with failed writes, every step records exactly the events its change of the stored status calls for exactly when every step is quiet: what is news to a base is news to the store |
| StatusOverlaps.OverlapRepeatsEvent | pkg/controller/physicaldisk_controller.go:551-568 | A concrete run with two collections in flight that reports one transition twice |
| StatusOverlaps.FromTheStart | pkg/controller/physicaldisk_controller.go:372-393 | The three conditions for every run from the very beginning |
| StatusOverlaps.ConflictsIff | pkg/controller/physicaldisk_controller.go:234-254 | A missing mark whose object was read meets a conflict in the end exactly if somebody has changed or deleted the object since, so no update is lost to it |
| DiskStatus.DiskCopy.SetStatusCondition | pkg/controller/physicaldisk_controller.go:439-444 | Upserts by type and reports whether the type was absent or status, reason or message changed |
| DiskStatus.DiskCopy.SetHealth | pkg/controller/physicaldisk_controller.go:538-569 | Writes health and the Degraded condition together and records one event for a transition to anything but Unknown |
| DiskStatus.DiskCopy.ApplyCollectionFailure | pkg/controller/physicaldisk_controller.go:419-455 | A failure changes only DataCollected, and health only if the disk was never assessed; each of the four kinds of error has its own reason and message |
| DiskStatus.DiskCopy.ApplyCollectionSuccess | pkg/controller/physicaldisk_controller.go:457-475 | A success replaces time, telemetry, findings, health and both conditions, and says Succeeded |
| DiskStatus.ContractMeaning | pkg/apis/node-disk-sentinel.org/v1alpha1/physicaldisk_types.go:172-175 | The health contract in the documentation's words: health is the reason of the Degraded condition, which is absent only while health is empty, and the condition's status follows from it |
| DiskStatus.CollectedKeepsContract | pkg/controller/physicaldisk_controller.go:419-475 | Every collection re-establishes the contract and leaves a health |
| DiskStatus.CollectedReports | pkg/controller/physicaldisk_controller.go:419-475 | After a collection DataCollected is False with SkippedStandby, DiskMissing, SmartUnsupported or Failed exactly for standby, not found, unsupported and other errors, and True with Succeeded exactly for data, each with its message |
| DiskStatus.CollectedRecords | pkg/controller/physicaldisk_controller.go:439-447 | A failure records one warning with the reason and message of the new condition exactly when that condition is new; a success reports the health exactly when Degraded changes, as a warning unless the disk is good |
| DiskStatus.CollectedTwice | pkg/controller/physicaldisk_controller.go:419-475 | Collecting the same answer again changes at most the time and records no event |
| Reconciler.DiskMonitor.ReconcileDisk | pkg/controller/physicaldisk_controller.go:332-398 | If its own calls work, one disk is reconciled as specified; under any errors its object is as before, created, labelled or has the collected status, no other object changes, and contract and sound health gauges are kept. Once collected, gauges and events are those of the answer whether or not the patch works, and the gauge of the device shows the stored health exactly when the patch worked or the health was the assessed one before; a failed collection leaves the health gauges |
| ReconcileTheorems.DiskOutcome | pkg/controller/physicaldisk_controller.go:339-391 | What ReconcileDisk may leave under any API errors: a new object belongs to this node, carries its label and no arguments and is blank or reports the collection; an existing one keeps owner and arguments |
| Reconciler.DiskMonitor.TryMark | pkg/controller/physicaldisk_controller.go:235-253 | What one attempt does for each answer of the API server: a failed read records nothing; otherwise the warning is recorded, and the write decides between the mark being stored, a conflict and another error, which leave the object |
| Reconciler.DiskMonitor.MarkDiskMissing | pkg/controller/physicaldisk_controller.go:229-259 | Drops the readings and makes up to five attempts: the first one that meets no conflict decides, with the mark stored exactly if its write works and no further call otherwise; five conflicts end with an error. Every attempt that writes repeats the warning |
| Reconciler.DiskMonitor.DeleteIfExcluded | pkg/controller/physicaldisk_controller.go:318-330 | Deletes object and gauges together exactly when a rule matches and the call succeeds; an object already gone is no error |
| Reconciler.DiskMonitor.MarkAbsentDisks | pkg/controller/physicaldisk_controller.go:283-314 | Under any API errors an excluded object is deleted or left and an absent one marked or left; an object whose spec.nodeName is another node is neither changed nor asked for, and no series of its name moves, even if the label selects it; without errors all listed objects are handled |
| Reconciler.DiskMonitor.ReconcileAll | pkg/controller/physicaldisk_controller.go:263-279 | If the inventory cannot be read nothing changes; if the calls of the pass work the result is a complete pass; under any errors the contract and sound health gauges are kept, an object of another node without a disk here keeps object and series, an object without a disk is left alone or, as its state demands, deleted or marked, every disk that is the last with its name is reported if the pass returns no error, and otherwise each such disk if all calls about its name worked |
| Reconciler.DiskMonitor.Reconcile | pkg/controller/physicaldisk_controller.go:117-158 | Touches this object only, nothing at all for another node's object or an unreadable inventory; under any API errors the object is left, or updated by its first disk, or deleted if excluded, or marked; without errors exactly that is done |
| ReconcileTheorems.ReconcileOutcome | pkg/controller/physicaldisk_controller.go:139-157 | Under any API errors: an object with a discovered disk of its name is neither deleted nor marked and at most reports the first such disk; one without is deleted only if a rule matches it and marked only if none does |
| ReconcileTheorems.ReconciledOutcome | pkg/controller/physicaldisk_controller.go:139-157 | Without errors exactly that happens, with what becomes of every series of the disk |
| ReconcileSpec.FirstNamedFound | pkg/controller/physicaldisk_controller.go:139-147 | A disk is found exactly when one with the name was discovered, and it is the first |
| ReconcileSpec.ListingHandled | pkg/controller/physicaldisk_controller.go:296-312 | Handling the listed objects one after the other deletes, marks or leaves each by its own state before the loop, in the objects, the gauges and the events |
| ReconcileTheorems.DiscoveredDisksReported | pkg/controller/physicaldisk_controller.go:332-398 | After a pass every discovered disk has an object with this node's name and label, fresh description, the condition of its answer in words and, after a successful collection, health, findings and telemetry |
| ReconcileTheorems.OtherObjects | pkg/controller/physicaldisk_controller.go:283-314 | An object without a disk whose nodeName or label is not this node's stays the same; one of this node is deleted if a rule matches and marked DiskMissing otherwise; no other name appears |
| ReconcileTheorems.ForeignObjectIrrelevant | pkg/controller/physicaldisk_controller.go:296-301 | An object of another node, or without the label, has no part in a pass: with it and without it the pass does the same to every other object, gauge and event, and it is itself unchanged even if the label selects it |
| ReconcileTheorems.NoExcludedSurvives | pkg/controller/physicaldisk_controller.go:316-330 | After a pass over disks that no rule excludes, no labelled object of this node matches a rule |
| ReconcileTheorems.InventoryNotExcluded | pkg/discovery/udev.go:147-149 | Whatever discovery reports is such a list of disks |
| ReconcileTheorems.PassesOverHost | pkg/controller/physicaldisk_controller.go:263-279 | For every host whose disks can be discovered: after a pass no labelled object of this node matches a rule, and with distinct names a second pass changes only collection times |
| ReconcileTheorems.ArgumentsKept | pkg/controller/physicaldisk_controller.go:340-378 | A pass keeps the user's smartctl arguments except where an excluded object was deleted |
| ReconcileTheorems.ArgumentsLostExample | pkg/controller/physicaldisk_controller.go:316-378 | A concrete object whose disk was sda and is sdb now, under a rule for sda: the pass makes it anew and its arguments are gone |
| ReconcileTheorems.OtherGauges | pkg/controller/physicaldisk_controller.go:229-232 | For a name without a disk: an object of this node that a rule matches keeps no series, one that is missing keeps no reading and a failed CollectionSuccess, and every other name keeps all of its series |
| ReconcileTheorems.DiscoveredDisksShowHealth | pkg/controller/physicaldisk_controller.go:610-619 | After a pass CollectionSuccess of every discovered disk is 1 or 0 as its collection went, and exactly one of the seven status gauges of a collected device is 1, the one equal to its stored health |
| ReconcileTheorems.SecondPassChangesNothing | pkg/controller/physicaldisk_controller.go:263-279 | With distinct names and the same inventory, rules and answers a second pass changes only collection times |
| GaugeRuns.ReadingsIff | pkg/controller/physicaldisk_controller.go:571-682 | After every run a disk exports readings exactly when a successful collection has ended since they were last dropped, whatever became of its status patch |
| GaugeRuns.SeriesIff | pkg/controller/physicaldisk_controller.go:316-330 | After every run a disk has any series at all exactly when a collection has ended or a missing mark has begun since it was excluded for the last time |
| GaugeRuns.CleanIffAllOrderly | pkg/controller/physicaldisk_controller.go:229-259 | With any number of collections in flight, a disk that is marked as missing exports no readings throughout a run exactly when no step publishes while the mark stays and no mark is written after a publication |
| GaugeRuns.CrossingExports | pkg/controller/physicaldisk_controller.go:389-393 | A concrete run with one collection in flight: a disk is marked during its collection, stays marked and exports readings again |
| GaugeRuns.OvertakingExports | pkg/controller/physicaldisk_controller.go:229-259 | The same with a whole collection between dropping the readings and writing the mark |
| Metrics.Registry.DeleteDeviceHealthMetrics | pkg/metrics/metrics.go:213-228 | Removes every reading of the disk and nothing else |
| Metrics.Registry.DeleteAllDiskMetrics | pkg/metrics/metrics.go:232-235 | Removes the readings and CollectionSuccess of the disk and nothing else |
| Metrics.Registry.PublishHealthMetrics | pkg/controller/physicaldisk_controller.go:571-682 | Leaves exactly the specified writes in the gauges, in their order |
| Metrics.PublishSound | pkg/controller/physicaldisk_controller.go:610-619 | Publishing makes the assessed status hot and keeps, for every device, either no health series or all seven with one at 1 |
| Metrics.WithoutSound | pkg/metrics/metrics.go:213-228 | Deleting a disk's readings removes health series only as whole groups |
| Metrics.TelemetryGaugesMatchStatus | pkg/controller/physicaldisk_controller.go:621-640 | The temperature, hours and cycle gauges equal the telemetry stored in the status; a reading that is absent keeps its old value |
| Metrics.PublishedReadings | pkg/controller/physicaldisk_controller.go:581-608 | After a publication the static gauges and the self-assessment are set, and each of the six NVMe gauges shows the reading of its own name; without a health log the six keep what they showed |
| Metrics.PublishedAttributes | pkg/controller/physicaldisk_controller.go:664-681 | The four gauges of an ATA attribute show raw value, value, worst and threshold of the last entry with its name and ID |
| Metrics.SettledIff | pkg/controller/physicaldisk_controller.go:571-682 | Writing a list of gauges changes nothing exactly when each already has its final value |
| CmdArgs.SplitCommandArgs | pkg/utils/cmd_args.go:14-57 | The mutable loop yields the arguments, or the error, of the recursive automaton |
| CmdArgs.NoEmptyArgument | pkg/utils/cmd_args.go:20-25 | No argument is ever empty |
| CmdArgs.SplitConcat | pkg/utils/cmd_args.go:14-57 | Splitting two strings joined by a space concatenates their arguments |
| CmdArgs.FailureMeansUnfinished | pkg/utils/cmd_args.go:49-54 | A trailing-escape error needs a final backslash, and an unterminated quote is repaired by appending that quote |
| CmdGrammar.SplitIffDerivable | pkg/utils/cmd_args.go:14-57 | An input is accepted exactly when a grammar of blanks, plain, escaped and quoted pieces derives it, and the arguments are what the pieces mean |
| CmdArgs.EscapeRoundTrip | pkg/utils/cmd_args.go:14-57 | Every list of non-empty arguments survives escaping each character and splitting |
| CmdArgs.QuoteRoundTrip | pkg/utils/cmd_args.go:14-57 | Every list of non-empty arguments survives single-quoting and splitting |
| ExcludeRules.ParseExcludeRule | pkg/discovery/filter.go:73-99 | The loop over the parts yields the rule or the error of the recursive parser |
| ExcludeRules.PrintExcludeRule | pkg/discovery/filter.go:49-57 | The loop over the fields prints the non-empty ones in their order |
| ExcludeRules.FirstMatchFound | pkg/discovery/filter.go:101-116 | A rule is found exactly when one matches, and then it is the first |
| ExcludeRules.OneCriterion | pkg/discovery/filter.go:59-71 | For each of the seven fields a rule with that one criterion matches exactly the disks with that value, the WWN in any case |
| ExcludeRules.AllCriteria | pkg/discovery/filter.go:59-71 | A rule matches exactly where each of its criteria does alone, and the empty rule nowhere |
| ExcludeRules.ParsedIsPrintable | pkg/discovery/filter.go:73-99 | Parsing never yields an empty rule, nor a value with a comma or blanks at its ends |
| ExcludeRules.FieldsParsed | pkg/discovery/filter.go:34-46 | Each of the seven flag names sets its own field |
| ExcludeRules.Spelling | pkg/discovery/filter.go:48-57 | A full rule is printed as its seven key=value pairs in their fixed order |
| ExcludeRules.PrintParseRoundTrip | pkg/discovery/filter.go:49-99 | A rule survives printing and parsing exactly when it is non-empty and its values are trimmed and free of commas |
| ExcludeRules.ParsePrintParse | pkg/discovery/filter.go:49-99 | For every accepted text, printing and parsing again gives the same rule |
| ExcludeRules.PartOrderIrrelevant | pkg/discovery/filter.go:82-97 | The order of the comma-separated parts does not matter |
| Naming.SanitizeShape | pkg/discovery/naming.go:62-65 | A sanitised string is empty or starts and ends alphanumeric, uses [a-z0-9.-] only and has no two hyphens in a row |
| Naming.SanitizeIdempotent | pkg/discovery/naming.go:62-65 | Sanitising twice is sanitising once |
| Naming.SanitizeInAnyCase | pkg/discovery/naming.go:62-65 | The case of ASCII letters makes no difference, and of a well-shaped string in capitals the small letters remain |
| Naming.NamedAfter | pkg/discovery/naming.go:67-111 | A disk is named after its node and the first of WWN, short serial, serial, last path element and kernel name; up to 253 characters that is the whole name, else at most 244 of them, less the separators at the cut, and the hash |
| Naming.CRNameShape | pkg/discovery/naming.go:67-111 | Every generated name has at most 253 characters and that shape |
| Naming.NodeStaysSubdomain | pkg/discovery/naming.go:72-75 | A node name that matches the pattern of spec.nodeName stays a subdomain |
| Naming.CRNameSubdomainIff | pkg/discovery/naming.go:67-111 | On a node whose name matches the pattern, a generated name of any length is an RFC 1123 subdomain exactly when every period of the identifier that it keeps stands between alphanumerics |
| Naming.InvalidName | pkg/discovery/naming.go:57-65 | On such a node the identifier a._b gives a name that is no subdomain exactly when the full name has at most 253 characters; of a longer one nothing of the identifier is kept |
| Naming.InvalidNameExample | pkg/discovery/naming.go:57-65 | The same for one disk and one node |
| Naming.MostStableLinkChosen | pkg/discovery/naming.go:42-55 | The resolved path is the first link of the most stable family any link belongs to; only without such a link it is the kernel's path, or empty |
| Naming.FamilyOrder | pkg/discovery/naming.go:29-55 | The order of the families spelled out: wwn, nvme-eui, ata, nvme, scsi, by-path, kernel name |
| Discovery.ParseUdevData | pkg/discovery/udev.go:42-58 | The loop over the lines fills the record line by line |
| Discovery.RecordRoundTrip | pkg/discovery/udev.go:42-58 | Links and properties written as record lines are read back, the last value of a repeated key winning |
| Discovery.DiscoverDisks | pkg/discovery/udev.go:74-161 | The loop with its two counters yields exactly the monitored entries in directory order, and fails for the database exactly when there are whole disks and none has a readable record |
| Discovery.MonitoredMeaning | pkg/discovery/udev.go:94-150 | A disk is reported exactly when some entry is whole, recorded, not ignored, not excluded and described that way |
| Discovery.MonitoredNotExcluded | pkg/discovery/udev.go:147-149 | No reported disk matches a rule |
| Discovery.IgnoredIff | pkg/discovery/filter.go:118-151 | A device is ignored exactly for one of ten kernel-name prefixes, an iSCSI bus, an iSCSI or Longhorn path, or the virtual disk of an IET or LIO-ORG target |
| Discovery.RemoteInAnyCase | pkg/discovery/filter.go:137-144 | Bus and path decide alike in any case of their letters |
| Discovery.NoVirtualDiskReported | pkg/discovery/udev.go:94-150 | No disk that discovery reports is any of these or a partition |
| Discovery.LocalDiskReported | pkg/discovery/udev.go:94-161 | A whole disk with a record that is none of these makes discovery succeed, and it is reported exactly when no rule excludes it |
| Discovery.DescribedAs | pkg/discovery/udev.go:123-146 | Every field of the description by its source, with "!" of the kernel name read as "/" |
| Assessment.ScanTable | pkg/assessment/assessment.go:63-98 | The table loop's flags and counters have their quantified meaning |
| Assessment.Evaluate | pkg/assessment/assessment.go:24-153 | The code meets the first-match cascade, whose verdicts and findings the next rows spell out protocol by protocol |
| Assessment.AtaVerdicts | pkg/assessment/assessment.go:41-152 | ATA and unknown protocols: each of the six verdicts holds exactly under its own condition on exit bits, attributes and the 64-bit sector sum, if no more severe one does |
| Assessment.AtaFindingsMeaning | pkg/assessment/assessment.go:63-152 | On that path the findings are the failing and the formerly failing attributes, behind the sector sum for the two sector verdicts, and nothing else |
| Assessment.NvmeVerdicts | pkg/assessment/assessment.go:158-228 | NVMe: the exact condition of each verdict on self-test, critical warning, spare capacity, wear and media errors, and the reading its finding carries |
| Assessment.ScsiVerdicts | pkg/assessment/assessment.go:230-272 | SCSI: the exact condition of each verdict on self-test and the 64-bit sum of uncorrected errors, and its finding |
| Assessment.FallbackVerdicts | pkg/assessment/assessment.go:274-290 | NVMe without a health log: the self-assessment decides alone |
| Smart.AttributeStates | pkg/assessment/assessment.go:293-319 | An attribute is failing, or has failed, exactly if the drive says so or a normalized value from 1 has reached a threshold from 1 to 253 |
| Assessment.NvmeWorseNeverLowersSeverity | pkg/assessment/assessment.go:159-228 | A higher critical warning, wear or media error count, or less spare capacity, never lowers the severity |
| Assessment.ScsiWorseNeverLowersSeverity | pkg/assessment/assessment.go:231-272 | More uncorrected read or write errors never lower the severity, as long as the sums fit |
| Assessment.SelfTestDecides | pkg/assessment/assessment.go:24-291 | A failed self-assessment outranks everything else and is the only finding, in every protocol |
| Assessment.NeverUnknown | pkg/assessment/assessment.go:24-153 | Readable data always yields a verdict other than Unknown |
| Assessment.GoodMeansNoFindings | pkg/assessment/assessment.go:24-291 | A good disk has no findings, in every protocol |
| Assessment.DocumentedSectorErrors | pkg/assessment/doc.go:45-47 | Below the higher levels and for all 64-bit counts, negative ones included, the verdict is the documented one exactly when the sign of the 64-bit sum tells whether a count is positive |
| Assessment.DocumentedScsiErrors | pkg/assessment/doc.go:82-82 | The same for the two uncorrected error counters of SCSI |
| Assessment.DocumentedNvmeSpare | pkg/assessment/doc.go:67-70 | The code compares the spare capacity only with a positive threshold; its level AttributeFailingNow is the documented one for every spare capacity that is not negative, and otherwise exactly when the threshold is positive, the capacity reaches it, or the endurance is exhausted |
| Assessment.OverlookedErrors | pkg/assessment/assessment.go:124-138 | Concrete inputs with bad sectors or uncorrected errors that are assessed as Good, by overflow and by a negative count |
| Assessment.MoreAttributesNeverLowerSeverity | pkg/assessment/assessment.go:63-152 | One more attribute with a fresh ID and a non-negative raw value never lowers the severity, if the sum of the two sector counts is at least -2^63 without it and below 2^63 with it |
| Assessment.MoreAttributesIff | pkg/assessment/assessment.go:63-152 | For every attribute and every table, without bounds: one more attribute lowers the severity exactly when the verdict was SectorErrors, the 64-bit sum is no longer positive, and the attribute itself is not failing |
| Assessment.TableOrderIrrelevantIff | pkg/assessment/assessment.go:63-152 | Permuting the table keeps the status and the multiset of findings exactly when the latest sector counts add up to the same, or the self-assessment failed, or no sector attribute fails and either a higher level decides or neither sum is positive |
| Assessment.TableOrderIrrelevant | pkg/assessment/assessment.go:63-152 | So it does for every table with at most one entry each for the IDs 5 and 197 |
| Assessment.TableOrderCanMatter | pkg/assessment/assessment.go:63-97 | Two orders of the same two entries for ID 5: one disk has SectorErrors, the other is Good |
| Telemetry.ExtractTelemetry | pkg/controller/physicaldisk_controller.go:478-534 | The field updates yield the snapshot with its preferred sources and fallbacks |
| Telemetry.SnapshotSources | pkg/controller/physicaldisk_controller.go:484-531 | Every field of the snapshot by its source: preferred readings, the first positive table entry as fallback, the last entries with IDs 5 and 197, and the NVMe log |
| Telemetry.SectorFindingMatchesTelemetry | pkg/assessment/assessment.go:100-138 | Every sector finding carries the sum of the two counts in the telemetry, and the status SectorErrors on the ATA path means that this sum is positive |

## Left out

- HTTP server, flags, manager wiring, Helm charts and CRD generation: plumbing without a hard invariant.
- Running smartctl and reading its JSON: a collection is any data or any of the four kinds of error.
- Sockets, file reads and symlinks of sysfs: replaced by receive outcomes and an abstract directory with an abstract udev database.
- The Kubernetes client: kept are get, list, create, delete, merge patch and status update; within one call of the reconciler other writers appear only as the failures they cause, while `StatusRuns` interleaves them with resource versions.
- The goroutines of Start and the reconnect loop as executable code: they are the steps of `InventoryProtocol`; the receive loop is also a method.
- SHA-256 and the label value of a node name: any function to 8 hex digits, and any fixed label.
- The fields sysPath, type, capacity and rotational of a disk, owner references, and the transition times of conditions.
- Message texts and reasons are tokens that are equal exactly when the texts are.
- The wide label list of smartctl_device: one list of texts.
- Strings are sequences of characters; invalid UTF-8 is not modelled, and upper and lower case are exact only where the result is ASCII.
- A metrics scrape in the middle of a publication, and the rounding of gauge values above 2^53 to floating point.
- StatusRuns.ContractAlwaysHolds: requires at most one collection of a disk in flight, because the property fails with two; StatusOverlaps.ContractIffAllSafe is the exact condition for any number.
- StatusRuns.LatestSuccessRemembered: requires at most one collection in flight; StatusOverlaps.RemembersIffAllRecent is the exact condition for any number.
- StatusRuns.NeverUnknownAgain: requires at most one collection in flight; StatusOverlaps.AssessedIffNeverForgets is the exact condition for any number.
- StatusRuns.EventsAccounted: requires at most one collection in flight and writes that succeed at the first attempt, because a failed write leaves its event recorded; StatusOverlaps.AccountedIffAllQuiet is the exact condition without both.
- Assessment.MoreAttributesNeverLowerSeverity: requires sums that fit 64 bits and a fresh ID; Assessment.MoreAttributesIff is the exact condition without both.
- Assessment.TableOrderIrrelevant: requires at most one entry for each sector ID; Assessment.TableOrderIrrelevantIff is the exact condition without.
- InventoryProtocol.ChangeCoveredInTime: says nothing while the socket is closed, because how long a new bind takes is not modelled.
- Assessment.ScsiWorseNeverLowersSeverity: requires sums that fit 64 bits, because Assessment.OverlookedErrors shows that an overflow lowers the severity.
- ReconcileTheorems.SecondPassChangesNothing: assumes distinct generated names, because two disks with one name overwrite each other's object in every pass.
- CmdArgs.FailureMeansUnfinished: says what a failing input looks like; CmdGrammar.SplitIffDerivable says which inputs fail.
