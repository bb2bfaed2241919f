# k3sm.io/apis, verified

A Dafny model of the logic-bearing parts of the k3sm API repository, with proofs over every input, every run or every reachable state.

**The budget page** (`budget/v1alpha1/page.go`) is 4096 bytes that one writer shares with lock-free readers.
The protocol is a transition system whose steps are single 8-byte stores (`PageProtocol`): any number of resumes by writers of any minor, any publications, and a crash between any two stores. Loads are moments of a run, so every interleaving of readers is covered; the operations are `sync/atomic`, hence sequentially consistent. The body size of a minor is a parameter.
On it stand header validity (`HeaderValidity`), the seqlock (`SeqlockSafety`, `SeqlockExactness`) and the wake-up condition (`Wakeup`, `WakeupExactness`). `LiveReader` joins the seqlock to the decoder.
`PageWriting.PageWriter` is the writer as a class over an array of words; its `Resume` and `Publish` are proved to make exactly the stores of the protocol.
The layout table, the encoder and a decoder written from the same tables are in `PageLayout`, `PageFields`, `PageCodec` and `PageDecode`. Three modules say what these do without their tables: `PageAbi` which number stands at which byte, `PageCarry` which snapshots encode, `Readback` what a reader gets back, field by field.
The observation validator is in `Observation` and `ObjectNames`, with the named values of `Vocabulary`; `Publishable` joins it to the page.

**The annotation decoder** contributes the duplicate-key walk (`DuplicateKeys`) and the merge of unknown windows (`UnknownWindows`).

**The quarantine gate** (`hack/lib/testresults.go`) is modelled from stream lines to exit status: the event collector as a class (`TestStream`, `Collecting`), the evaluator with its two loops and open report places (`Quarantine`), the prefix-tree argument behind the exit decision (`Verdict`), and what the exit status promises about the stream (`Gate`, `GatePromises`). `GateMeaning` states the verdict over the results, the registry entries and the edited packages alone. The registry lexer is `ShellSplit`.

**Smaller refinements**: artifact path sets (`Paths`, `PathSets`, `PathOrder`), policy selection (`SelectPolicy`), chip labels (`ChipSlug`).

Findings, each stated with its exact condition:

- A seqlock read is safe on every run that starts from a recognised page, or from one whose sequence word is 0 or odd at the start (`SeqlockSafety.SeqStart`). From every other page some run tears a stable read of a reader whose header check passes (`SeqlockExactness.TornOtherwise`): `Resume` restarts its counter at 0 on an unrecognised page and never stores the sequence word.
- A reader that waits on notifyEpoch loses no wake-up on every run that starts from a recognised page, from one whose notifyEpoch is 0 (`Wakeup.NoLostWakeup`), or from one with an odd sequence word and notifyEpoch 1 (`WakeupExactness.OddStartKeepsWakeups`). From every other start that is safe for the seqlock some run loses one (`WakeupExactness.LostOtherwise`).
- An eviction deadline at the sentinel second is accepted by the encoder and read back as no deadline; every other encodable snapshot survives (`PageCodec.PageRoundTrip`, `PageCodec.SentinelDeadlineLost`).
- A header read reports too small a body in a rollback with one particular placement of the two version loads, and over no other page and at no other moment (`HeaderValidity.TruncatedOnlyInRollback`).
- A negative unknown count can be hidden by the merge that runs before validation. `UnknownWindows.HidesExactly` says when, while no running sum falls below the int64 minimum; a step below it wraps to a count that is not negative (`UnknownWindows.WrapHides`).
- A package or build failure outside any test can be excused exactly in the paths below which a registry id can be filed (`GatePromises.CoverableExactly`, `TestIDs.FileableExactly`). A race report outside any test is never excused, in any path.
- The documentation of `ValidatePathSet` says that order does not matter. That holds of acceptance (`PathSets.OrderDoesNotMatter`). The fault reported is the same in every order if and only if there is one candidate (`PathOrder.SameFaultExactly`); `PathOrder.TwoOrdersTwoFaults` has two.
- `ChipSlug` is documented as empty when the raw fact holds no `[a-z0-9]` character. The code looks after case folding, so "M" gives "m" (`ChipSlug.FoldingComesFirst`); `ChipSlug.SlugEmpty` states the code's condition.

`dafny verify dfyconfig.toml` checks the project.

## Model

| member | source | states |
|---|---|---|
| `HeaderValidity.HeaderAlwaysValid` | budget/v1alpha1/page.go:804-845 | in every run, with writers of any minors resuming in any order and dying after any store, a recognised header never names a body smaller than its minor needs, given that the first header was unrecognised or valid |
| `HeaderValidity.MidResumeWords` | budget/v1alpha1/page.go:821-842 | after k of a resume's eight stores, header word i is the new one exactly when its place in the store order has passed, and nothing outside the header changed |
| `HeaderValidity.MidResumeValid` | budget/v1alpha1/page.go:821-842 | the store order alone keeps every intermediate header unrecognised or valid |
| `HeaderValidity.StaysRecognised` | budget/v1alpha1/page.go:799-845 | once recognised, a page stays recognised through every crash and resume |
| `HeaderValidity.StableHeaderRead` | budget/v1alpha1/page.go:799-845 | two identical consecutive (abiMinor, bodySize) reads during a resume are a pair the page held between them: old, intermediate or new |
| `HeaderValidity.TruncatedOnlyInRollback` | budget/v1alpha1/doc.go:191-229 | over any page whose header is unrecognised or valid, a reader that loads the magic, abiMinor and bodySize words in turn takes the header as this ABI with too small a body if and only if the page was recognised, its body shrinks below what the old minor needs, and the last two loads straddle both version stores |
| `HeaderValidity.ReadPairInRun` | budget/v1alpha1/page.go:804-845 | the header words at two moments of one resume in a run are those the two-load read is defined over |
| `SeqlockSafety.SeqInvAt` | budget/v1alpha1/page.go:804-878 | the seqlock invariant holds at every state of every run: parity, the writer's counter, and which body words are settled |
| `SeqlockSafety.SinceAt` | budget/v1alpha1/page.go:856-878 | between any two states of a run the sequence word has advanced by the publications started, and an unmoved even sequence leaves the body unmoved |
| `SeqlockSafety.SeqlockSafety` | budget/v1alpha1/page.go:804-878 | every stable read (even sequence, copy at any moments, same sequence, fewer than 2^63 publications meanwhile) holds exactly the last published body, or the initial one, over that writer's body words |
| `SeqlockSafety.LogAnnounced` | budget/v1alpha1/page.go:856-878 | every body in the log is the initial one or one that a writer was given to publish |
| `SeqlockExactness.TornOtherwise` | budget/v1alpha1/page.go:809-820 | from every page outside the start condition a run exists in which a reader that begins on a recognised page takes a stable read that matches no published body |
| `LiveReader.ReaderDecodes` | budget/v1alpha1/page_decode_test.go:43-237 | end to end: the words of a stable read, under any header line that passes the checks, decode to the snapshot last published |
| `LiveReader.ReaderGetsSnapshot` | budget/v1alpha1/page.go:856-878 | in a run whose publications are encoded snapshots, a stable read past the initial body decodes to a snapshot some writer was given |
| `LiveReader.BytesOfWords` | budget/v1alpha1/page.go:867-869 | words loaded one by one and written out little-endian are the page's bytes |
| `Wakeup.EpochCounts` | budget/v1alpha1/page.go:864-876 | between any two states notifyEpoch moves by exactly the number of its stores, across crashes and resumes |
| `Wakeup.KeyKeptAt` | budget/v1alpha1/page.go:843-876 | in every run, since any state with a published snapshot: a bump happened, or one is owed, or the current key is the same |
| `Wakeup.StandsStillMeansNoBump` | budget/v1alpha1/doc.go:191-229 | an unmoved epoch, as a whole word or as its low 32-bit half, means no bump within that word's range |
| `Wakeup.NoLostWakeup` | budget/v1alpha1/page.go:711-742 | a reader that loads the epoch, takes a stable read and later finds the epoch unmoved with no publication in hand or cut short is looking at a snapshot with the same notify key |
| `WakeupExactness.LostOtherwise` | budget/v1alpha1/page.go:809-820 | from every page of another ABI with a nonzero notifyEpoch, except seq odd with notifyEpoch 1, some run leaves a reader asleep on a changed key |
| `WakeupExactness.OddStartKeepsWakeups` | budget/v1alpha1/page.go:809-876 | in the excepted start no wake-up is lost, so the start condition is exact |
| `PageWords.PublishBytes` | budget/v1alpha1/page.go:856-878 | publish stores seq + 1 at byte 64, body word i at byte 192 + 8i, seq + 2 at byte 64 and, when due, notifyEpoch + 1 at byte 128, each modulo 2^64 and in that order |
| `PageWords.PackedFields` | budget/v1alpha1/page.go:321-326 | the version word packs abiMajor, abiMinor and headerSize without overlap |
| `PageWriting.PageWriter.constructor` | budget/v1alpha1/page.go:766-778 | a new writer has made no store and is not resumed |
| `PageWriting.PageWriter.LoadHeader` | budget/v1alpha1/page.go:804-820 | the sequence and epoch a resume continues with: those of a recognised page, the sequence rounded up to even, else 0 |
| `PageWriting.PageWriter.FormatHeader` | budget/v1alpha1/page.go:848-852 | the header line taken from an encoded page is the version header of this minor, and encoding it never fails |
| `PageWriting.PageWriter.HeaderOrder` | budget/v1alpha1/page.go:821-842 | the store order built by the loop is the protocol's order, version words swapped when the body shrinks, magic last |
| `PageWriting.PageWriter.Resume` | budget/v1alpha1/page.go:804-845 | never fails, makes exactly the protocol's header stores in order and never touches the sequence word, and forgets the cached key |
| `PageWriting.PageWriter.Publish` | budget/v1alpha1/page.go:856-878 | succeeds if and only if resumed and the page can carry the snapshot; then makes exactly the protocol's stores in order, the epoch store exactly when PageNotifyDue holds of the previously accepted snapshot; else stores nothing |
| `PageWriting.PageWriter.StoreBody` | budget/v1alpha1/page.go:867-869 | the loop stores each body word once, and no header, sequence or epoch word |
| `PageWriting.HeaderWordsAre` | budget/v1alpha1/page.go:848-852 | every encoded page opens with the words of the version header |
| `PageWriting.UninterruptedStores` | budget/v1alpha1/page.go:804-878 | the protocol's steps of an uninterrupted call are that call's stores applied in order, which ties the class to the transition system |
| `Snapshot.ComputeNotifyKey` | budget/v1alpha1/page.go:711-729 | the key holds the level, admission and generation, and for each of the eight slots the five rungs from warn to evictHard then the five releases, the int64 minimum for an unset threshold and for an empty slot |
| `Snapshot.NotifyDueExactly` | budget/v1alpha1/page.go:737-742 | a notification is due between any two snapshots exactly when the level, admission, the generation or one of the ten thresholds of one of the eight slots differs, a threshold of the int64 minimum counting as unset; the first publication is always due |
| `Vocabulary.CodeRoundTrip` | budget/v1alpha1/page_codes.go:48-58 | a value's code reads back as the value, the unknown value of an open table as unset |
| `Vocabulary.SignalCodeRoundTrip` | budget/v1alpha1/vocab.go:108-124 | a signal's page code reads back as the signal, and what is no signal reads back as none |
| `Vocabulary.SignalByName` | budget/v1alpha1/vocab.go:125-152 | memory.available, swapfs.available, nodefs.available, imagefs.available and pid.available fall as pressure rises, memory.compressor and memory.swap rise; memory.compressor is in permille, pid.available in count, the rest in bytes |
| `Vocabulary.SignalNames` | budget/v1alpha1/vocab.go:84-105 | the known signals are the seven names, no others |
| `PageLayout.BuildPageLayout` | budget/v1alpha1/page.go:260-280 | the loop places every field at its offset and returns the end of the last |
| `PageLayout.RoundingIsAlignUp` | budget/v1alpha1/page.go:263-275 | the rounding expression is the least multiple of the alignment at or above the offset |
| `PageLayout.FieldsDisjoint` | budget/v1alpha1/page.go:260-280 | for any field list, every offset is aligned, a later field starts at or after the end of an earlier one, and none passes the end |
| `PageLayout.AppendKeepsOffsets` | budget/v1alpha1/page.go:55-86 | appending fields never moves an earlier one |
| `PageLayout.ShippedLayout` | budget/v1alpha1/page.go:302-596 | the shipped table ends at 2344 within the body limit, every body field is whole words beyond the header, and minor 0's layout is a prefix |
| `PageLayout.RankIsPosition` | budget/v1alpha1/page.go:302-596 | every field has one row of the table and every row one field |
| `PageFields.SignedRoundTrip` | budget/v1alpha1/page.go:286-291 | a signed value survives its two's-complement word |
| `PageCodec.LittleEndianRoundTrip` | budget/v1alpha1/page.go:663-670 | little-endian bytes read back as the number |
| `PageCodec.EncodePage` | budget/v1alpha1/page.go:639-674 | succeeds if and only if the buffer is long enough, the snapshot passes its checks and every field carries its value (the snapshots of `PageCarry.EncodableExactly`); writes the page then (the bytes of `PageAbi.BytesAreAbi`) and nothing otherwise; a refused field is the first of the table that cannot carry its value |
| `PageCodec.EncodeRows` | budget/v1alpha1/page.go:647-671 | the loop over the table writes each field's bytes at its offset and stops at the first field that cannot carry its value |
| `PageCodec.RowKept` | budget/v1alpha1/page.go:647-671 | no later field overwrites an earlier field's bytes |
| `PageCodec.FieldRecovered` | budget/v1alpha1/page.go:639-674 | every field's value can be read back from the encoded page |
| `PageCodec.HeaderBytes` | budget/v1alpha1/page.go:321-329 | the encoded header holds the magic, the version fields and the body size |
| `PageCodec.PageRoundTrip` | budget/v1alpha1/page_decode_test.go:43-237 | decoding an encoded page gives the normalised snapshot if and only if the eviction deadline is not the sentinel second |
| `PageCodec.BodyDecodes` | budget/v1alpha1/page_decode_test.go:43-237 | any page image that passes the header checks and holds an encoded body decodes to that snapshot |
| `PageCodec.SentinelDeadlineLost` | budget/v1alpha1/page.go:286-298 | every encodable snapshot stays encodable with a deadline at the sentinel second and loses it on the way |
| `PageAbi.U64Means` | budget/v1alpha1/page.go:663-670 | a number on the page is its eight bytes, least significant first |
| `PageAbi.RecognisedBytes` | budget/v1alpha1/page.go:804-820 | the words a resume looks at name this ABI exactly when bytes 0 to 7 are "K3SMBDGT", abiMajor is 1 and headerSize is 192 |
| `PageAbi.AcceptedHeader` | budget/v1alpha1/page_decode_test.go:43-237 | the page images whose header a reader accepts: magic, abiMajor 1, headerSize 192, a bodySize of at least 2152 within the image, an even seq |
| `PageAbi.BytesAreAbi` | budget/v1alpha1/testdata/page/layout.v1.1.txt:1-258 | every encoded page holds, at the literal byte offset of each field of the frozen layout, that field of the snapshot: magic and versions, name, capacity, platform blocks, the eight signal slots, the actions, the three counter slots, cores and GPU; unused slots and every byte between the fields are 0 |
| `PageAbi.IdentityBytes` | budget/v1alpha1/page_codes.go:31-45 | byte 552 holds 1, 2, 3 or 4 exactly for ok, warn, critical, evicting, byte 216 holds 1 or 2 exactly for darwin, linux; generation, period, time and name at 192 to 487 |
| `PageAbi.SlotBytes` | budget/v1alpha1/vocab.go:84-95 | signal slot i at 792 + 160 i: the id's number 1 to 7, the unit's 1 to 3, value, rungs, releases and timings in order, the trend's, limiting resource's and shared signal's number |
| `PageAbi.ActionBytes` | budget/v1alpha1/page_codes.go:31-45 | admit, its reason, the deadline, kill mode number 0 to 3, armed, episodes, kill reason number 0 to 5, safe bytes and basis at 2072 to 2143 |
| `PageAbi.CounterBytes` | budget/v1alpha1/page_codes.go:31-45 | counter slot i at 2144 + 56 i: the band's number 1 to 3 and the six totals in order |
| `PageCarry.EncodableExactly` | budget/v1alpha1/page.go:639-700 | the snapshots that encode, over their own fields: name of 1 to 253 bytes, period above 0, nonzero times, a named level, darwin with its block or linux with its block and no darwin one, at most 8 signals and 3 counters, every value of the vocabulary known, each signal in its unit, no optional value at the int64 minimum, no negative total |
| `Readback.PageRead` | budget/v1alpha1/page_decode_test.go:43-237 | every encodable snapshot is read back with each field as it was given, but for sub-seconds, "unknown" read as unset, blocks that set nothing read as missing, and a deadline at the sentinel second |
| `PageDecode.BodyShown` | budget/v1alpha1/page_decode_test.go:43-237 | any words that show a snapshot's fields decode to its recovered form |
| `PageDecode.SignalsShown` | budget/v1alpha1/page_decode_test.go:43-237 | the filled signal slots decode to the normalised signals, in order and number |
| `PageDecode.LinuxShown` | budget/v1alpha1/page_decode_test.go:43-237 | the pressure and memory-event fields decode to the normalised sub-blocks, empty ones folded into absent |
| `Observation.CheckLadder` | budget/v1alpha1/nodebudgetpolicy.go:196-236 | the pairwise loops accept exactly the ladders without a negative value whose set rungs fall for a signal named "*.available" and rise for any other, whose releases are calmer than their rungs, and without a fourth rung on memory.swap |
| `Observation.LadderByName` | budget/v1alpha1/nodebudgetpolicy.go:190-236 | for each signal by name, over the signal's own ten fields: warn > admitStop > critical > evictSoft > evictHard where set and every release above its rung for the five that fall, all reversed for memory.compressor and memory.swap, and no evictSoft on memory.swap |
| `Observation.CheckSignal` | budget/v1alpha1/nodebudget.go:607-641 | accepts exactly the signals with one of the seven names, in that signal's unit, without a negative value, on the ladder of that name, with trend, limiting resource and shared signal unset or known |
| `Observation.CheckSignals` | budget/v1alpha1/nodebudget.go:468-578 | the seen map accepts exactly the lists within size of valid signals with pairwise distinct ids |
| `Observation.CheckWindows` | budget/v1alpha1/nodebudget.go:681-694 | the seen map accepts exactly the valid windowed counts with pairwise distinct window and reason |
| `Observation.CheckCounters` | budget/v1alpha1/nodebudget.go:659-696 | accepts exactly the valid band counters |
| `Observation.CheckBands` | budget/v1alpha1/nodebudget.go:468-578 | accepts exactly the lists of valid counters with distinct bands |
| `Observation.CheckCapacity` | budget/v1alpha1/nodebudget.go:580-605 | accepts exactly the capacities without a negative value whose gpuCount agrees with gpuPresent |
| `Observation.CheckKillMode` | budget/v1alpha1/nodebudget.go:643-657 | accepts exactly the empty kill mode and the known ones |
| `Observation.CheckPolicy` | budget/v1alpha1/nodebudget.go:698-722 | accepts exactly the valid applied policies |
| `Observation.CheckClamped` | budget/v1alpha1/nodebudget.go:711-720 | the seen map accepts exactly the lists of known policy fields without a repeat |
| `Observation.CheckDarwin` | budget/v1alpha1/nodebudget.go:724-750 | accepts exactly the valid Darwin signals |
| `Observation.CheckPressure` | budget/v1alpha1/nodebudget.go:752-785 | the nested loops accept exactly the resources whose set lines are in range |
| `Observation.CheckLinux` | budget/v1alpha1/nodebudget.go:752-797 | accepts exactly the valid Linux signals |
| `ObjectNames.ObjectNameExactly` | budget/v1alpha1/validate.go:24-30 | the object-name pattern accepts exactly at most 253 bytes of labels joined by dots, each of small letters, digits and inner dashes |
| `Observation.Validate` | budget/v1alpha1/nodebudget.go:468-578 | accepts exactly the valid observations, each rule stated over the fields with the names and bounds written out |
| `Publishable.FieldCarried` | budget/v1alpha1/page.go:302-596 | for a valid observation no field getter refuses its value |
| `Publishable.ValidIsEncodable` | budget/v1alpha1/page.go:639-700 | a valid observation with a node name of 1 to 253 bytes and a period of at least 1 is always encodable |
| `Publishable.ValidReachesReader` | budget/v1alpha1/page.go:178-204 | what a reader decodes from the page of a valid observation, over the observation's own fields: generation, name, period, level, admission and its reason, capacity, recommendation equal; each signal, the kill mode, the deadline and the platform block as read back; each counter its totals |
| `Publishable.EncodeObservation` | budget/v1alpha1/page.go:178-204 | building the snapshot and encoding it never fails on a valid observation, a fitting name and a period of at least 1, and the bytes written decode to those fields |
| `UnknownWindows.MergeUnknownWindows` | budget/v1alpha1/annotationpayload.go:195-216 | the in-place merge with its index map computes the recursive merge, for any counts |
| `UnknownWindows.NamedKept` | budget/v1alpha1/annotationpayload.go:195-216 | every entry with a named reason is kept, in order |
| `UnknownWindows.MergedUnknownOnce` | budget/v1alpha1/annotationpayload.go:195-216 | at most one unknown entry per window remains |
| `UnknownWindows.UnknownCounts` | budget/v1alpha1/annotationpayload.go:195-216 | on non-negative counts it holds the smaller of the true sum and the int64 maximum |
| `UnknownWindows.UnknownWindowKept` | budget/v1alpha1/annotationpayload.go:195-216 | a window with an unknown entry keeps one |
| `UnknownWindows.TotalAnyOrder` | budget/v1alpha1/annotationpayload.go:195-216 | the sum of a window's unknown counts is the same for every order of the entries |
| `UnknownWindows.MergeIdempotent` | budget/v1alpha1/annotationpayload.go:195-216 | merging twice is merging once |
| `UnknownWindows.MergeUncollides` | budget/v1alpha1/nodebudget.go:681-694 | a list the validator would accept but for repeated unknown pairs is accepted once merged |
| `UnknownWindows.NegativeCountMasked` | budget/v1alpha1/annotationpayload.go:195-216 | a witness: an entry the validator refuses is accepted once merged |
| `UnknownWindows.MergedCount` | budget/v1alpha1/annotationpayload.go:195-216 | for any counts a merged unknown entry holds the machine sum of its window |
| `UnknownWindows.SumIsCapped` | budget/v1alpha1/annotationpayload.go:209-213 | while no running sum falls below the int64 minimum the machine sum is the integer sum capped at the maximum after each step |
| `UnknownWindows.CappedIsTotal` | budget/v1alpha1/annotationpayload.go:209-213 | while none rises above the maximum either, it is the true sum |
| `UnknownWindows.HidesExactly` | budget/v1alpha1/annotationpayload.go:195-216 | while no running sum falls below the minimum, the merge hides a negative count from the sign check if and only if there is one, no named count is negative and every window's capped sum is not |
| `UnknownWindows.WrapHides` | budget/v1alpha1/annotationpayload.go:209-213 | a step below the int64 minimum wraps: from any list it leaves a count that is not negative, and as the window's last step that is the merged count |
| `DuplicateKeys.CheckDuplicateKeys` | budget/v1alpha1/annotationpayload.go:283-336 | on the tokens of any JSON value the stack loop reports an error if and only if some object of the tree names a key twice, the key it reports is named twice by an object, and it never pops an empty stack |
| `DuplicateKeys.WalkExact` | budget/v1alpha1/annotationpayload.go:283-336 | the same of the walk as a function, for values of any depth |
| `DuplicateKeys.WalkValue` | budget/v1alpha1/annotationpayload.go:283-336 | within any enclosing stack the walk over a value either stops on its duplicate or goes on as if the value were one finished token |
| `Splitting.JoinOfSplit` | artifact/v1/path.go:108-113 | splitting at a separator loses nothing, leaves no separator in a piece and gives one piece more than there are separators |
| `Splitting.SplitOfJoin` | artifact/v1/path.go:108-113 | pieces without separators survive joining and splitting |
| `Paths.ValidatePath` | artifact/v1/path.go:93-131 | accepts exactly the paths that break no rule (2048 bytes, 8 components of 255, closed charset, ten code extensions), and otherwise reports the first broken rule in the order of the checks, for components the first component's |
| `Paths.FoldsCapitals` | artifact/v1/path.go:124-151 | folding turns each of the 26 capitals into its small letter and leaves every other byte |
| `PathSets.ValidatePathSet` | artifact/v1/path.go:137-172 | the map-based check accepts if and only if the set is within size, every path is valid, no two entries share a folded name and none is a directory of another; otherwise it blames the first offender of the list, or a clash among paths that are each good |
| `PathSets.DirectoryPrefix` | artifact/v1/path.go:157-170 | being a proper prefix by folded components is being a folded prefix that ends at a "/" |
| `PathSets.OrderDoesNotMatter` | artifact/v1/path.go:133-136 | acceptance is the same for every order of the paths |
| `PathOrder.FaultsOverOrders` | artifact/v1/path.go:133-172 | within the size limit, the faults reported over all orders of a list are exactly: the first broken rule of each invalid path, Duplicate if a valid path repeats, CaseCollision if two distinct valid paths fold alike, FileAndDirectory if all are good and two clash |
| `PathOrder.SameFaultExactly` | artifact/v1/path.go:133-172 | every order gets the same verdict if and only if there is at most one such fault |
| `PathOrder.TwoOrdersTwoFaults` | artifact/v1/path.go:133-172 | one set whose two orders are refused for different faults |
| `SelectPolicy.Selects` | budget/v1alpha1/nodebudgetpolicy.go:349-356 | true exactly when every selector label is present with the same value |
| `SelectPolicy.SelectPolicy` | budget/v1alpha1/nodebudgetpolicy.go:364-385 | the winner is a selecting policy such that no other has a higher priority, or the same one and a name that is smaller at the first differing byte or a proper prefix; winner and losers are the selecting policies, each as often as listed, in precedence order; none exactly when no policy selects |
| `SelectPolicy.LessIsBefore` | budget/v1alpha1/nodebudgetpolicy.go:374-379 | the name order is that of the first differing byte |
| `SelectPolicy.SortArranges` | budget/v1alpha1/nodebudgetpolicy.go:374-379 | the sort by precedence is a permutation in which nothing stands behind what it precedes |
| `SelectPolicy.ListingDoesNotMatter` | budget/v1alpha1/nodebudgetpolicy.go:358-385 | with distinct names the result is the same for every order of the policies |
| `ChipSlug.ComputeSlug` | runtime/v1/labels.go:166-190 | the one-pass loop with a pending dash equals the four documented steps |
| `ChipSlug.SlugIsLabelValue` | runtime/v1/labels.go:155-165 | the result is at most 63 letters, digits and single inner dashes |
| `ChipSlug.SlugKeeps` | runtime/v1/labels.go:155-165 | the letters and digits of the folded fact are kept in order: all of them within the limit, those of the first 63 characters past it |
| `ChipSlug.SlugEmpty` | runtime/v1/labels.go:155-165 | the result is empty if and only if folding leaves no letter or digit |
| `ChipSlug.FoldingComesFirst` | runtime/v1/labels.go:155-172 | for every folding of 'M' to 'm' the fact "M" gives "m" though it holds no character of [a-z0-9] |
| `ChipSlug.SlugIdempotent` | runtime/v1/labels.go:155-190 | a slug is its own slug |
| `ShellSplit.ComputeSplit` | hack/lib/testresults.go:258-312 | the scanning loops compute the lexer function, errors included |
| `ShellSplit.SplitRoundTrip` | hack/lib/testresults.go:255-312 | words over any characters, written in any mix of bare, escaped, single-quoted and double-quoted pieces with any blanks around them, are read back, empty words included |
| `ShellSplit.FirstWord` | hack/lib/testresults.go:323-334 | a line that does not start with a blank has a first word, so taking it is safe |
| `TestStream.CutShape` | hack/lib/testresults.go:650-671 | cutting a test's events after each result event loses none, and a run that ended holds exactly one result event, its last |
| `TestStream.StateStep` | hack/lib/testresults.go:650-671 | event by event the record is what the runs say: failed runs in order, one failure for good, open exactly when something started after the last result |
| `Collecting.Collector.constructor` | hack/lib/testresults.go:598-600 | a new collector holds the records of the empty stream |
| `Collecting.Collector.Take` | hack/lib/testresults.go:602-672 | one more line takes the records of the lines so far to those of the longer stream |
| `Collecting.Collector.Results` | hack/lib/testresults.go:674-701 | one result per test id in order, then package race reports, packages that failed outside any test, failed builds |
| `Collecting.RecordIsRuns` | hack/lib/testresults.go:643-671 | for every stream each test's record is what its runs say |
| `Collecting.OrderListed` | hack/lib/testresults.go:643-649 | test ids are listed by first appearance, each once, and exactly those with a record |
| `Collecting.PackagesListed` | hack/lib/testresults.go:624-642 | packages with output and failed packages are listed by first appearance, each once |
| `Gate.FailEventFails` | hack/lib/testresults.go:658-670 | a test counts as failed if and only if it has a fail event, whatever other results it has |
| `Gate.FailedOutputsMean` | hack/lib/testresults.go:653-670 | the recorded failed runs are the outputs of the runs that ended in a fail: each stands after as many as failed before it, and their number is that of the failed runs |
| `TestOutput.RaceMarker` | hack/lib/testresults.go:197-204 | returns a marker if and only if the text carries one |
| `TestOutput.CarriedByEveryRun` | hack/lib/testresults.go:167-174 | true exactly when there is a failed run and each holds the signature |
| `TestOutput.FramedName` | hack/lib/testresults.go:97-100 | the name the framing pattern captures is the only one it can |
| `TestOutput.FramesExactly` | hack/lib/testresults.go:97-100 | a line frames a name exactly when it is blanks, one of the seven frame words, at least one blank, and the name up to the next blank or the end |
| `TestOutput.OwnFailure` | hack/lib/testresults.go:126-146 | empty if and only if every line of the parent is blank, a subtest's line, or framing for it or a subtest; else the first line that is none of these |
| `TestIDs.FileableExactly` | hack/lib/testresults.go:94-95 | some registry id lies below a path's failure outside any test if and only if the path is an import path, "::", a test name, "/" and no blank after |
| `TestIDs.OnlyFileable` | hack/lib/testresults.go:184-195 | only such a path can be continued by "::(" to a registry id |
| `Quarantine.JudgeListed` | hack/lib/testresults.go:482-500 | a listed failure is quarantined exactly when it is excused by its entry, and each other case has its red line |
| `Quarantine.JudgeUnlisted` | hack/lib/testresults.go:513-568 | the kid, cover and own-output loops decide an unlisted failure as the covering rule says |
| `Quarantine.FilledIsLines` | hack/lib/testresults.go:447-568 | writing the open places in the second loop gives every result its line in the order of the results |
| `Quarantine.Evaluate` | hack/lib/testresults.go:430-570 | the lines are the registry's, then one per result that has one; red if and only if some line is red; the number of excused failures (both said of the entries and results by `GateMeaning.ReportExactly` and `GateMeaning.ExcusedCounted`) |
| `Verdict.ScanMeans` | hack/lib/testresults.go:447-501 | which ids the scan holds as failing, quarantined and unlisted |
| `Verdict.CountsExcused` | hack/lib/testresults.go:495-500 | the excused counter counts the failures excused by their entries |
| `Verdict.LinesRed` | hack/lib/testresults.go:460-568 | the run is red through a result if and only if some result is unfinished, or fails and is neither excused nor a covered parent |
| `Verdict.CoveredBelow` | hack/lib/testresults.go:502-545 | under a covered parent every failing subtest is quarantined or has a quarantined one below it |
| `Verdict.FailuresNeedAnExcuse` | hack/lib/testresults.go:795-807 | with a failure and no red line something was excused, so the last red branch of the exit decision is dead |
| `Verdict.FullTierReds` | hack/lib/testresults.go:482-500 | in the full tier any failing result reds the run, whatever the registry and the subtest tree |
| `Verdict.NoEntryNoExcuse` | hack/lib/testresults.go:502-568 | a failure with no entry of its own and none below it reds the run |
| `Verdict.ExitExact` | hack/lib/testresults.go:794-808 | exit 1 exactly when red, 3 exactly when not red with a failure, 0 exactly when not red without one |
| `Gate.Collect` | hack/lib/testresults.go:743-754 | the scanning loop gives the results and the bad lines of the whole stream |
| `Gate.RunGate` | hack/lib/testresults.go:743-808 | exit 1 exactly when the run is red, 3 exactly when it is not red and something failed, 0 exactly when it is not red and nothing did; `GateMeaning.NotRedExactly` says which runs are red |
| `Gate.GoodIsClean` | hack/lib/testresults.go:602-701 | every result is pass or skip if and only if no line reports a failure of a test, a package or a build, every test finished its last run, and no package printed a race report |
| `GatePromises.NotRedMeans` | hack/lib/testresults.go:430-570 | a run is not red if and only if it was read without a bad line, has a result, its registry is clean, and every result is good or a failure accounted for |
| `GatePromises.GreenExact` | hack/lib/testresults.go:754-808 | exit 0 if and only if the stream is clean, holds a test, and the registry has no error and no expired entry |
| `GatePromises.ExcusedCarriesSignature` | hack/lib/testresults.go:158-174 | a failure excused by its entry is a finished test whose every failed run carries the signature in its own output, never borrowed from a passing run |
| `GatePromises.FullTierPromise` | hack/lib/testresults.go:430-570 | in the full tier any failure line of the stream makes the run red |
| `GatePromises.BuildFailureReds` | hack/lib/testresults.go:697-699 | a build failure of a path below which no id can be filed is never excused |
| `GatePromises.PackageFailureReds` | hack/lib/testresults.go:692-696 | a package failure outside any test, of a path below which no id can be filed, is never excused |
| `GatePromises.RaceReportReds` | hack/lib/testresults.go:683-691 | a race report outside any test reds the run for every path, whatever the registry lists |
| `GatePromises.OutsideNeverExcused` | hack/lib/testresults.go:502-568 | no failing result outside any test of such a path is excused, by an entry or as a parent |
| `GatePromises.FileableLetsThrough` | hack/lib/testresults.go:502-568 | for every path below which an id can be filed, a stream in which its package or build fails and a registry with one well-named entry under which the run is not red |
| `GatePromises.CoverableExactly` | hack/lib/testresults.go:502-568 | a package or build failure outside any test can be excused by a well-named registry if and only if an id can be filed below its path |
| `GateMeaning.ReportExactly` | hack/lib/testresults.go:430-570 | a report has no red line if and only if the registry has no error and no expired entry and every result passes: it passed or was skipped; or its entry excuses it (fast tier, package not edited, no race text, the signature in every failed run); or it has no entry and its failing subtests excuse it (each excused by its entry, or without one and with a failing subtest of its own; no race text; no line that is neither blank, framing nor a subtest's) |
| `GateMeaning.ExcusedCounted` | hack/lib/testresults.go:495-500 | the excused count is the number of results their own entry excuses |
| `GateMeaning.NotRedExactly` | hack/lib/testresults.go:743-808 | a run is not red if and only if it was read, no line is broken, there is a result, and its report has no red line in that sense |
| `GateMeaning.OwnExcuseCarries` | hack/lib/testresults.go:158-174 | a result its entry excuses is a finished test of the stream that failed, and the output of every run that failed holds that entry's signature |
| `GateMeaning.EditedReds` | hack/lib/testresults.go:444-500 | with one entry per test, a failure whose entry is in an edited package reds the run |
| `GateMeaning.UneditedSame` | hack/lib/testresults.go:444-500 | edited packages of no entry leave the exit status what it is without any |
| `GateMeaning.LineMeans` | hack/lib/testresults.go:602-649 | what each line of the stream is to the collector, by its own fields |
| `GateMeaning.LinesDecide` | hack/lib/testresults.go:602-808 | a line that is no event exits 1; a line that reports a failure of a test, package or build never exits 0, and exits 1 in the full tier |
| `GateMeaning.NameFollowsColons` | hack/lib/testresults.go:513-568 | the name of a test is what follows the first "::" of its id |

## Left out

- Weak memory, futex delivery, `unsafe` casts, mapping, alignment and endianness probes of `NewPageWriter`: the page is an array of 64-bit words under sequential consistency.
- JSON itself, reflection (`checkExactKeys`, `collectJSONFields`), base64 and size limits around the annotation: the duplicate-key walk starts from the token stream of one value, as the decoder has already refused trailing data.
- `parseRegistry`, `stripComment`, `harnessReason`, `protectedReason` and date parsing: the evaluator takes the parsed entries and the list of registry errors as inputs; a chain of independent refusals.
- GatePromises.OutsideNeverExcused: takes as given that every entry's id matches the patterns of `splitTestID`, which `parseRegistry` checks before it keeps an entry.
- GatePromises.BuildFailureReds: the same premise about the entries' ids.
- GatePromises.PackageFailureReds: the same premise about the entries' ids.
- GatePromises.CoverableExactly: the same premise about the entries' ids; whether the trust-surface and harness rules of `parseRegistry` would refuse the entry is not part of it.
- Quarantine.Evaluate: takes the registry parsed, with its errors as input, because `parseRegistry` is not modelled.
- Gate.RunGate: takes the registry parsed, with its errors as input, for the same reason.
- `run`'s flag parsing, file reading, echoing and summary printing; a failed read of the stream is a parameter of `Gate.RunGate`.
- Error texts: errors are constructors; report lines carry the verdict and the test id, not their wording. `CheckLadder` and the validators report acceptance, not which rule failed.
- Sub-second parts of times, and time zones: a time is its Unix second and nanoseconds.
- `strings.ToLower` beyond ASCII: a parameter of `ChipSlug`, and only applied to ASCII in the path rules.
- `sort.SliceStable`: a stable insertion sort stands for it in `SelectPolicy`; `DeepCopy` of the winner is identity on values.
- `ApplyFloors`, the policy spec validator, DeepCopy methods, DNS, helm, mlx and updates types, label constants: field-by-field or single-branch facts.
- Generated protobuf and gRPC code, `PageLayout()`'s descriptor text, `k3smtest`, `LinkIP`, `InterconnectSlotAddress`: no state or finite domains.
