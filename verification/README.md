# Verified models of Klever Bridge

Klever Bridge stores the reports of software verification runs, lets experts attach *marks* to them, and
shows, exports and imports the results. This project models the parts of it whose correctness depends on
many operations working together, and proves what they keep over every input, every run or every reachable
state.

The marks are the main part. A mark is attached to a report by an association row, which has a type
(Dissimilar, Unconfirmed, Automatic, Confirmed) and a flag that says whether the row counts. Every report
also has a cache (verdict, tags or problems, three counters) that three different pieces of code maintain,
and some operations read that cache to decide how to write rows. Rows and caches are therefore proved
together, by induction over runs.

| files | what they model |
|---|---|
| `Verdicts`, `Associations`, `Links`, `Machine` | marks, reports, what a comparison says, rows, caches, and every operation on them as a step of a state machine; safe, unsafe and unknown marks are one type |
| `Invariants`, `Insertion`, `Changes`, `Runs`, `Witnesses` | the association invariants and the coherence of caches, operation by operation and over whole runs; runs on which they fail |
| `Contents`, `Outcomes` | what a cache contains and what every operation does to each row, said in terms of rows, marks and links alone |
| `Tracking` | rows always say what a comparison made now would say; consequences for threshold changes and arrival order |
| `CacheLoops`, `Store` | the tables as fields that methods and loops update in place, proved equal to the state machine |
| `Statuses` | bug statuses of unsafe reports and the three ways they are computed |
| `Forests`, `ForestTheorems`, `ForestMeaning` | the two converters from error traces to call forests |
| `Bytes`, `Zip`, `ZipReader`, `ZipEntries`, `ZipLayout`, `ZipWitness` | the streaming ZIP writer, and a reader of directories, local headers and data descriptors written from the format alone (sections 4.3.7, 4.3.9, 4.3.12, 4.3.14 to 4.3.16 and 4.5.3 of the PKWARE APPNOTE.TXT) |
| `FileTree`, `FileTreeTheorems`, `TreeOrder`, `FilePlaces` | conversion between lists of files and the tree shown to users |
| `Visibility`, `VisibilityTheorems`, `PageMeaning` | the page of an error trace, and which parts of it are unfolded at first |
| `Coverage`, `CoverageListing`, `CoverageTheorems` | coverage sums over directories and their recursive listing |
| `TopLines`, `MostCovered` | the thirty most covered lines, found with bounded buffers |
| `Upload` | chunked upload of report trees and its progress |
| `TagTable`, `TagMatrix` | the table in which the forest of tags is drawn |
| `Options`, `Sequences` | optional values, sequences without repetition, sorting |

`dafny verify dfyconfig.toml` checks everything.

## What turned out not to hold

Some properties one would expect are false of the code. The code is modelled as it is; each of these has a
lemma that says for all inputs exactly when the property holds, and a lemma with an input on which it fails.

- Creating a mark from a report it does not recognise switches off that report's automatic rows although
  nothing is confirmed there (`CreateExact`), and leaves the report's cache behind when the report is not even
  linked (`CreateCoherent`, `ForgettingRun`). Caches are right throughout a run if and only if this does not
  happen (`CoherentRuns`), and at any time exactly those left behind and not refreshed since are wrong
  (`EveryRunIsSteady`).
- An edit that rebuilds the rows of a mark can leave automatic rows switched off on a report whose only
  confirmation it removed (`RebuildExact`, `OrphaningRun`). The exact form of the association invariant holds
  throughout a run if and only if no creation or edit does so (`ExactRuns`). Its one-sided form, that nothing is
  counted that should not be, survives every operation (`EveryRunIsSteady`).
- An empty problem description is skipped when a mark is connected but matched when a report is connected
  (`SidesAgree`, `SidesDiffer`), so the order in which the two arrive matters exactly then (`TwoOrders`).
- The collected bug status depends on the order of rows (`OrderMatters`, `BothOutcomes`), and the incremental
  status on population differs from a recalculation (`IncrementAgrees`, `IncrementDiffers`).
- An archive with exactly 65535 entries and no other reason to use ZIP64 cannot be told from an escaped one
  (`EscapeAgrees`, `AmbiguousFails`, `FullArchiveFails`).
- A reader that looks for the ZIP64 extra field of the local header cannot read wide data descriptors
  (`HeaderGuided`, `WideDescriptor`); one that looks at the directory cannot read those of streams that grew past
  the limit (`DirectoryGuidedStream`, `GrownStream`).
- The per-thread converter fails on relevant actions outside every thread (`FailsOutsideThreads`, `ActionAtRoot`).
- A file list with an empty path component cannot be read back (`RoundTrip`, `DoubledSeparator`).
- A coverage file listed before a file below it hides that file from the listing (`ListingTheorem`,
  `ShadowingExample`).
- The progress of uploading an empty list of reports stays at 0 (`UploadReports`).

`bridge/reports/etv.py:155-158` has a comment about moving notes into the declarations block; the assignment
below it leaves them where they are, and the model follows the assignment.

## Model

| member | source | states |
|---|---|---|
| `Verdicts.Sum` | bridge/reports/verdicts.py:70-103 | the loop over verdicts computes their consensus: no marks when nothing is assessed, the common verdict when all agree, incompatible otherwise; order and repetition do not matter |
| `Verdicts.ConsensusGrows` | bridge/reports/verdicts.py:70-103 | adding one verdict to a sum is the consensus of one more verdict, which is what makes incremental and full computations comparable |
| `Associations.JaccardMeaning` | bridge/marks/UnsafeUtils.py:110-115 | the similarity of two sets of forests is symmetric, between 0 and 1, is 1 exactly for equal sets and 0 exactly for disjoint sets that are not both empty |
| `Associations.LinksAreLegible` | bridge/marks/UnknownUtils.py:154-176 | neither side ever links a mark to a report whose problem description cannot be read |
| `Links.JaccardShare` | bridge/marks/UnsafeUtils.py:110-115 | the similarity times the number of all forests is the number of common ones; two empty traces have similarity 1 |
| `Links.SafeLinks` | bridge/marks/SafeUtils.py:120-147 | a safe mark links to a safe report exactly when each of its attributes is an attribute of the report with the same value; the link is similar with result 1 |
| `Links.UnsafeLinks` | bridge/marks/UnsafeUtils.py:427-540 | an unsafe mark links to an unsafe report exactly when the attributes fit, and the mark side and the report side agree |
| `Links.RegexpLinks` | bridge/marks/UnsafeUtils.py:446-458 | a regular expression that is found gives result 1, similar when the threshold is at most 1; one that is not found, or a trace that cannot be read, gives a dissimilar result 0 |
| `Links.ForestLinks` | bridge/marks/UnsafeUtils.py:427-461 | forests give the share of common ones, from the per-thread or the relevant conversion as the mark asks; similar exactly when some are common and they reach the threshold times all; a failed conversion gives a dissimilar 0 |
| `Links.UnknownLinks` | bridge/marks/UnknownUtils.py:107-139 | a mark of unknown reports links exactly when component and attributes fit and something that is not empty is found in the readable description; the problem is what was found, or a note when it is longer than 20 characters; the mark side skips empty descriptions |
| `Invariants.DigestAdds` | bridge/caches/utils.py:88-105 | one more contributing row changes a cache exactly as the loops change it: counters, verdict sum and tag numbers |
| `Invariants.TallyAdds` | bridge/caches/utils.py:146-149 | one more row adds one to each of its labels, so the loops keep the numbers of contributing rows per label |
| `Invariants.AlgorithmsAgree` | bridge/caches/utils.py:495-526 | under the one-sided invariant the update that filters on the association flag and the recalculation that filters on the type first give the same cache |
| `Invariants.RefreshRestores` | bridge/caches/utils.py:207-239 | refreshing the caches of every touched report, by either algorithm, leaves exactly those stale that were stale and were not refreshed |
| `Invariants.SoundSteady` | bridge/caches/utils.py:495-526 | whatever caches are stale, the one-sided invariant and the numbers of confirmed and automatic rows in every cache are right |
| `Invariants.StaleExactly` | bridge/caches/utils.py:495-526 | the caches called stale are exactly those a recalculation would change |
| `Invariants.CachedConfirmed` | bridge/marks/UnsafeUtils.py:228-236 | the cached number of confirmed marks, which the connection code reads, is zero exactly when the report has no confirmed row, even where other parts of the cache are stale |
| `Invariants.RecalculateSound` | bridge/caches/utils.py:537-575 | replacing rows of some reports and recalculating those reports leaves no other cache stale than before |
| `Contents.RecalculatedSays` | bridge/caches/utils.py:583-611 | a recalculated cache says: how many associated automatic and confirmed rows there are, how many of them are confirmed, how many rows are automatic, how many of the counted rows carry each problem or have a mark with each tag, and the verdict the marks share |
| `Contents.UpdatedSays` | bridge/caches/utils.py:207-239 | the same for an updated cache and all associated rows |
| `Contents.SummaryDetermines` | bridge/caches/utils.py:598-611 | nothing is left open: two caches that say this of the same rows of one family are equal |
| `Insertion.ConnectKeepsOneSided` | bridge/marks/UnsafeUtils.py:208-248 | connecting a mark keeps the one-sided invariant even though the cached numbers it reads still count the dropped rows |
| `Insertion.CreateExact` | bridge/marks/UnsafeUtils.py:43-61 | creation from a report keeps the exact invariant if and only if the mark recognises the report, or the report had a confirmed mark, or it had no automatic rows |
| `Insertion.CreateCoherent` | bridge/marks/SafeUtils.py:30-35 | creation from a report keeps all caches coherent if and only if that report is linked to the mark or none of its automatic rows was counted |
| `Insertion.CreateForgets` | bridge/marks/SafeUtils.py:120-147 | the failing family: the prime report is not linked, so its cache goes on counting rows that were just switched off, while its two counters of row types stay right |
| `Insertion.CreateSound` | bridge/marks/UnknownUtils.py:34-39 | after any creation exactly these caches are stale: those that were and were not refreshed, and the forgotten one |
| `Insertion.IncrementCorrect` | bridge/caches/utils.py:428-484 | the incremental step turns a coherent cache into the one a recalculation gives after the new automatic row |
| `Insertion.IncrementStale` | bridge/caches/utils.py:428-484 | the incremental step keeps a stale cache stale in the same way: it still counts too much |
| `Insertion.DissimilarIdle` | bridge/caches/utils.py:428-440 | a dissimilar row changes no cache |
| `Insertion.PopulateSound` | bridge/marks/Download.py:330-387 | population keeps right caches right and both invariants, also in the presence of stale caches |
| `Insertion.RelinkSound` | bridge/tools/utils.py:62-78 | linking reports again makes the caches of those that can be read right whatever they were, restores the exact invariant there, and leaves other caches as they are; the connection of an unreadable one ends before its recalculation |
| `Insertion.AddReportSound` | bridge/marks/tasks.py:32-70 | arrival of a report, readable or not, keeps right caches right and both invariants |
| `Changes.ConfirmSound` | bridge/marks/utils.py:259-279 | confirming keeps both invariants and makes the cache of its report right |
| `Changes.UnconfirmSound` | bridge/marks/utils.py:294-313 | rejecting keeps both invariants and makes the cache of its report right |
| `Changes.DestroyFlags` | bridge/marks/SafeUtils.py:76-91 | removing one mark keeps both invariants and changes no report it was not attached to |
| `Changes.DestroyAllFlags` | bridge/marks/UnknownUtils.py:75-90 | removing any batch of marks keeps both invariants; reports outside the collected set are unchanged |
| `Changes.DeleteSound` | bridge/marks/api.py:322-355 | after a batch of removals with one recalculation at the end both invariants hold and the caches of all touched reports are right |
| `Changes.RebuildSound` | bridge/marks/UnsafeUtils.py:64-107 | a rebuilding edit keeps the one-sided invariant and makes the caches of all old and new links right |
| `Changes.RebuildExact` | bridge/marks/UnknownUtils.py:42-67 | a rebuilding edit keeps the exact invariant if and only if no report loses its only confirmation while an automatic row stays there |
| `Changes.ThresholdFlags` | bridge/marks/UnsafeUtils.py:549-577 | a new threshold keeps both invariants and touches only reports of the mark |
| `Changes.ThresholdSound` | bridge/marks/UnsafeUtils.py:64-107 | an edit of the threshold keeps both invariants and makes the caches of the mark's reports right |
| `Changes.RelabelledCache` | bridge/caches/utils.py:107-129 | with the same rows a new verdict or new tags move only the matching field of a cache |
| `Changes.RelabelSound` | bridge/marks/SafeUtils.py:38-68 | an edit of verdict or tags refreshes only these fields, and that keeps right caches right |
| `Runs.StepSound` | bridge/marks/UnsafeUtils.py:43-107 | every operation changes the set of stale caches exactly as predicted, and keeps the exact invariant if and only if it does not orphan a report |
| `Runs.EveryRunIsSound` | bridge/caches/utils.py:81-105 | in every state of every run of creations from any report, uploads, edits, confirmations, rejections, batch removals, arrivals and re-links, the one-sided invariant holds and exactly the predicted caches differ from a recalculation |
| `Runs.EveryRunIsSteady` | bridge/caches/utils.py:495-526 | from a sound state on, whatever happens: every cache has the right numbers of confirmed and automatic rows, and a cache differs from a recalculation if and only if a creation left it behind and nothing refreshed it since |
| `Runs.StepCoherent` | bridge/marks/UnsafeUtils.py:43-61 | a step from a sound state ends in a sound state if and only if it leaves no cache behind |
| `Runs.CoherentRuns` | bridge/caches/utils.py:411-526 | all caches are coherent in all states of a run if and only if no creation of the run leaves one behind |
| `Runs.ExactRuns` | bridge/marks/utils.py:259-313 | a run keeps the exact invariant in all its states if and only if none of its creations and edits orphans a report |
| `Runs.EmptyIsSound` | bridge/caches/utils.py:487-526 | the empty database, where runs start, is sound and exact |
| `Outcomes.Creating` | bridge/marks/UnsafeUtils.py:208-248 | rows after a creation, one by one: confirmed on the report of origin if similar there, otherwise automatic or dissimilar as the comparison says and counted unless a row of the report is confirmed; automatic rows of other marks on the report of origin stop counting |
| `Outcomes.Uploading` | bridge/marks/Download.py:330-387 | rows after an upload or population: undecided everywhere, other rows untouched |
| `Outcomes.Arriving` | bridge/marks/tasks.py:32-70 | rows after a report arrives: one undecided row for every mark that links to it, other rows untouched |
| `Outcomes.Rebuilding` | bridge/marks/UnknownUtils.py:42-67 | a change of attributes, of what is compared, or of the function or pattern of an unknown mark makes the mark undecided everywhere and touches no other mark |
| `Outcomes.Relabelling` | bridge/marks/SafeUtils.py:38-68 | an edit of verdict and tags changes no row |
| `Outcomes.Rethresholding` | bridge/marks/UnsafeUtils.py:549-577 | a new threshold makes rows below it dissimilar and dissimilar rows that reach it automatic; every other type stays, decisions included |
| `Outcomes.Confirming` | bridge/marks/utils.py:259-279 | a dissimilar or confirmed row is left alone; any other, rejected ones included, becomes confirmed and counted, and the automatic rows of the report stop counting |
| `Outcomes.Rejecting` | bridge/marks/utils.py:294-313 | a dissimilar or rejected row is left alone; any other becomes rejected and uncounted, and when it was the only confirmed one all automatic rows of the report count again |
| `Outcomes.RejectUndoesConfirm` | bridge/marks/utils.py:247-313 | under the exact invariant rejecting a row that was just confirmed leaves nothing changed but that row |
| `Outcomes.Deleting` | bridge/marks/api.py:322-355 | a batch of removals removes exactly the rows of these marks; other rows keep type and result, and only automatic rows of reports that lose a row may start counting |
| `Outcomes.EveryRunSays` | bridge/caches/utils.py:487-613 | at any moment of any run from the empty database the cache of every report that was not left behind sums up exactly the rows that count: the confirmed ones if there are any, otherwise switched-on automatic ones; with problems for unknown reports, tags and the shared verdict for others |
| `Witnesses.ForgettingRun` | bridge/marks/UnknownUtils.py:34-39 | a run of three steps from the empty database after which the exact invariant fails and a cache is wrong |
| `Witnesses.OrphaningRun` | bridge/marks/UnsafeUtils.py:64-107 | a run of four steps from the empty database after which all caches are right but the exact invariant fails |
| `Tracking.SidesAgree` | bridge/marks/UnknownUtils.py:154-197 | connecting from the mark side and from the report side give the same link, if and only if it is not an unknown mark matching an empty description |
| `Tracking.SidesDiffer` | bridge/marks/tasks.py:55-70 | an input on which the two sides differ |
| `Tracking.StepTracks` | bridge/marks/UnsafeUtils.py:427-462 | every operation keeps rows equal to what a comparison made now would say |
| `Tracking.EveryRunTracks` | bridge/marks/UnsafeUtils.py:501-540 | in every state of every run each row says what a comparison made now says, and each row that connecting its mark would make is there |
| `Tracking.TrackedMeaning` | bridge/marks/UnsafeUtils.py:427-462 | unless the description is blank, this means that a row exists exactly when mark and report link, and is dissimilar exactly when they are |
| `Tracking.FastPathIsSlowPath` | bridge/marks/UnsafeUtils.py:543-577 | re-reading stored results against a new threshold gives the very table that dropping and rebuilding the mark's rows would give, for marks without decisions of users |
| `Tracking.TableDetermined` | bridge/marks/tasks.py:32-51 | without decisions of users and with compatible marks and reports the association table is a function of what is stored |
| `Tracking.ArrivalsStored` | bridge/marks/Download.py:330-387 | marks and reports stored at the end of a run of arrivals are those that were there and those that arrived, and all caches are right |
| `Tracking.ArrivalsGrow` | bridge/marks/tasks.py:32-70 | arrivals keep every row and decision they find, and the new rows are a function of the state before and of what is stored |
| `Tracking.ArrivalOrderIrrelevant` | bridge/marks/tasks.py:32-70 | from any sound state any two interleavings of the same arrivals of marks and reports end in the same state, rows and caches, when arriving pairs link alike from both sides |
| `Tracking.TwoOrders` | bridge/marks/tasks.py:55-70 | a mark and a report that arrive in either order end in the same state if and only if they link alike from both sides |
| `Store.MarkStore.constructor` | bridge/marks/tasks.py:32-40 | the store starts as the empty database |
| `Store.MarkStore.CollectCounted` | bridge/caches/utils.py:495-517 | one pass over automatic and confirmed rows computes exactly the recalculated caches of the given reports; what they say of rows and marks is stated too, problem by problem and tag by tag |
| `Store.MarkStore.Recalculate` | bridge/caches/utils.py:487-612 | writes exactly these caches and no other |
| `Store.MarkStore.CountAutomatic` | bridge/caches/utils.py:81-90 | counts every automatic row, associated or not |
| `Store.MarkStore.CollectAll` | bridge/caches/utils.py:207-239 | one pass over associated rows of any type computes exactly the updated caches of the affected reports, with what they say of rows and marks |
| `Store.MarkStore.UpdateAll` | bridge/caches/utils.py:207-239 | writes exactly these caches and no other |
| `Store.MarkStore.CollectVerdicts` | bridge/caches/utils.py:241-251 | the verdict of each affected report is the one the marks of its associated rows share |
| `Store.MarkStore.UpdateVerdicts` | bridge/caches/utils.py:241-251 | writes only verdicts |
| `Store.MarkStore.CollectLabels` | bridge/caches/utils.py:267-277 | the number of each tag is the number of associated rows whose mark has it |
| `Store.MarkStore.UpdateLabels` | bridge/caches/utils.py:267-277 | writes only tags |
| `Store.MarkStore.NewAssociations` | bridge/marks/UnsafeUtils.py:220-241 | one row per linked report, with type, result and flag decided by similarity, prime report and cached confirmations |
| `Store.MarkStore.Connect` | bridge/marks/UnsafeUtils.py:208-248 | old rows out, new rows in, automatic rows of the prime report off; old and new links are returned |
| `Store.MarkStore.CreateMark` | bridge/marks/UnsafeUtils.py:43-61 | the creation step of the state machine |
| `Store.MarkStore.RefreshOnPopulate` | bridge/caches/utils.py:411-484 | the incremental cache step for every report that got an automatic row |
| `Store.MarkStore.PopulateMark` | bridge/marks/Download.py:330-336 | the population step of the state machine |
| `Store.MarkStore.EditMark` | bridge/marks/UnsafeUtils.py:64-107 | the edit step of the state machine, through the same decisions about what to rebuild and what to refresh |
| `Store.MarkStore.Confirm` | bridge/marks/utils.py:259-279 | the confirmation step; refused exactly for dissimilar rows |
| `Store.MarkStore.Unconfirm` | bridge/marks/utils.py:294-313 | the rejection step; refused exactly for dissimilar rows |
| `Store.MarkStore.Destroy` | bridge/marks/UnsafeUtils.py:171-191 | removes one mark and its rows, touches no cache, and returns the reports it was attached to |
| `Store.MarkStore.DeleteMarks` | bridge/marks/api.py:322-355 | the batch removal step |
| `Store.MarkStore.ReportAssociations` | bridge/marks/tasks.py:32-70 | the rows the report-side connection inserts |
| `Store.MarkStore.ConnectReport` | bridge/marks/tasks.py:32-70 | rows of one report are inserted and its cache is recalculated, unless its description cannot be read |
| `Store.MarkStore.RelinkReports` | bridge/tools/utils.py:62-78 | dropping all rows and connecting the reports one by one, in any order, is the re-link step |
| `Store.MarkStore.AddReport` | bridge/marks/tasks.py:32-70 | the arrival step: default cache, then connection |
| `Statuses.BugStatusCollector.Add` | bridge/reports/verdicts.py:111-122 | one more mark moves the status of its report as specified and of no other report |
| `Statuses.CollectMeaning` | bridge/reports/verdicts.py:106-133 | the collected status is empty exactly without bugs, and is a common status exactly when all bugs agree and no other mark follows a bug |
| `Statuses.OrderMatters` | bridge/reports/verdicts.py:106-133 | the collected status is the same for every order of rows if and only if the marks are not agreeing bugs mixed with other marks |
| `Statuses.BothOutcomes` | bridge/reports/verdicts.py:111-122 | for every such mixture there are two orders with different statuses |
| `Statuses.IncrementAgrees` | bridge/reports/verdicts.py:134-152 | the incremental status equals the recalculated one if and only if the new mark is not the first bug on a report with other marks |
| `Statuses.IncrementDiffers` | bridge/reports/verdicts.py:134-152 | an input on which the two statuses differ |
| `Forests.RelevantCallForests.constructor` | bridge/marks/UnsafeUtils.py:319-322 | the forests collected in place are exactly the emitted ones, in order |
| `Forests.RelevantCallForests.ParseChild` | bridge/marks/UnsafeUtils.py:324-353 | parsing a node returns its call trees and appends exactly what it emits |
| `Forests.ThreadCallForests.constructor` | bridge/marks/UnsafeUtils.py:252-259 | fails exactly when a key is missing, otherwise gives the nonempty lists of the dictionary |
| `Forests.ThreadCallForests.ParseChild` | bridge/marks/UnsafeUtils.py:261-296 | parsing a node returns its call trees and updates the dictionary as specified, or fails |
| `ForestTheorems.ActionsAreTransparent` | bridge/marks/UnsafeUtils.py:257-372 | for every trace, replacing any set of non-relevant actions by their children, at any depth, changes the output of neither converter |
| `ForestTheorems.CallKept` | bridge/marks/UnsafeUtils.py:261-315 | a call is kept if and only if a relevant note is at the call or can be reached below it without entering a relevant action or a thread |
| `ForestTheorems.VisibleByPath` | bridge/marks/UnsafeUtils.py:324-372 | any node shows something to its parent if and only if such a path to a note exists |
| `ForestTheorems.TreesFromCalls` | bridge/marks/UnsafeUtils.py:324-353 | every call tree has the name of some call of the trace and is its tree, leaves are justified by notes, and no emitted forest is empty |
| `ForestTheorems.RelevantWithinThreads` | bridge/marks/UnsafeUtils.py:251-353 | for every trace rooted at a thread the per-thread converter succeeds and its forests include those of the other one, with multiplicity |
| `ForestTheorems.ThreadsAreRelevantPlusResidual` | bridge/marks/UnsafeUtils.py:257-296 | with distinct thread identifiers the excess is exactly one residual forest per thread that has call trees but emitted none |
| `ForestTheorems.FailsOutsideThreads` | bridge/marks/UnsafeUtils.py:261-296 | without an enclosing thread the per-thread converter fails if and only if a relevant action emits a forest there |
| `ForestTheorems.ActionAtRoot` | bridge/marks/UnsafeUtils.py:261-296 | a trace on which the per-thread converter fails |
| `ForestMeaning.TreesBelong` | bridge/marks/UnsafeUtils.py:333-343 | a call from which no relevant note can be reached gives nothing; any other gives one tree with its own name, whose branches belong one to one, in order, to the noted calls reached from it without passing another call, a relevant action, a thread or declarations |
| `ForestMeaning.BelongsUnique` | bridge/marks/UnsafeUtils.py:333-343 | a call has only one such tree |
| `ForestMeaning.EmittedShown` | bridge/marks/UnsafeUtils.py:345-353 | the relevant-forest converter yields one forest for each relevant action that shows a call, in the order in which they end, made of the trees of the calls it shows |
| `ForestMeaning.ThreadsHold` | bridge/marks/UnsafeUtils.py:257-296 | for every trace, repeated thread identifiers included: the per-thread converter fails if and only if a relevant action that shows a call ends outside all threads; otherwise threads are listed in order of their first beginning, each with the forests of its relevant actions and, if it ends before any of them, its own |
| `ForestMeaning.ThreadForestsListed` | bridge/marks/UnsafeUtils.py:257-259 | the result lists exactly the threads that have forests, in that order |
| `Bytes.NumberRoundTrip` | bridge/bridge/ZipGenerator.py:195-258 | a number packed into enough little-endian bytes is read back |
| `Bytes.RecordRoundTrip` | bridge/bridge/ZipGenerator.py:195-258 | a packed record is read back field by field wherever it lies |
| `Zip.FormatSizes` | bridge/bridge/ZipGenerator.py:29-44 | the formats have the sizes the specification gives: 30, 46, 22, 56 and 20 bytes |
| `Zip.Joined` | bridge/bridge/ZipGenerator.py:47-54 | adding an entry keeps what the writer remembers equal to what lies in the output: offsets, sizes, and sizes that fit the descriptor |
| `Zip.DirectoryGrows` | bridge/bridge/ZipGenerator.py:195-239 | the directory is the concatenation of its entries |
| `Zip.ChunksMeasured` | bridge/bridge/ZipGenerator.py:71-84 | however the input is cut into chunks, size and checksum are those of the whole input and the data is all the compressor returned, for checksums that can be taken piece by piece |
| `Zip.StreamedLocal` | bridge/bridge/ZipGenerator.py:56-93 | the header sent before the data is the header of the measured entry |
| `Zip.ZipStream.constructor` | bridge/bridge/ZipGenerator.py:48-50 | nothing is written and nothing remembered |
| `Zip.ZipStream.GetData` | bridge/bridge/ZipGenerator.py:52-54 | the position advances by exactly what is sent |
| `Zip.ZipStream.SendChunks` | bridge/bridge/ZipGenerator.py:71-84 | the loop sends the packed chunks, and counts, checksums and sums exactly what it sends |
| `Zip.ZipStream.CompressChunks` | bridge/bridge/ZipGenerator.py:56-134 | an entry with a data descriptor is appended and remembered with its true offset and sizes |
| `Zip.ZipStream.CompressFile` | bridge/bridge/ZipGenerator.py:56-134 | files and buffers: the descriptor is wide when either size is large |
| `Zip.ZipStream.CompressStream` | bridge/bridge/ZipGenerator.py:157-193 | streams: the descriptor is wide when the raw size is large |
| `Zip.ZipStream.CompressString` | bridge/bridge/ZipGenerator.py:136-155 | strings: sizes and checksum are in the local header and there is no descriptor |
| `Zip.ZipStream.CloseStream` | bridge/bridge/ZipGenerator.py:195-258 | the directory, the ZIP64 records when needed, and the end record follow the entries without a gap |
| `ZipReader.EntryReadBack` | bridge/bridge/ZipGenerator.py:198-239 | one directory entry is read back with name, flags, method, time, date, checksum, attributes, true sizes and offset, through the ZIP64 extra field when fields are saturated |
| `ZipReader.DirectoryReadBack` | bridge/bridge/ZipGenerator.py:198-239 | the whole directory is read back in order and ends where it should |
| `ZipReader.EscapeAgrees` | bridge/bridge/ZipGenerator.py:241-258 | the reader follows the record the writer filled, if and only if the archive is not one of exactly 65535 entries without another reason to escape |
| `ZipReader.Layout` | bridge/bridge/ZipGenerator.py:195-258 | local entries, directory and end records tile the output with no gap or overlap |
| `ZipReader.EndReadBack` | bridge/bridge/ZipGenerator.py:241-258 | number of entries, size and offset of the directory are recovered from the last 22 bytes |
| `ZipReader.ArchiveReadBack` | bridge/bridge/ZipGenerator.py:47-258 | the reader recovers everything the directory says of every entry, in order |
| `ZipReader.AmbiguousFails` | bridge/bridge/ZipGenerator.py:241-258 | on an ambiguous archive the reader fails unless the bytes before the end record look like a locator |
| `ZipEntries.LocalAt` | bridge/bridge/ZipGenerator.py:56-155 | every entry lies at the offset the writer remembers and the next one follows at once |
| `ZipEntries.LocalReadBack` | bridge/bridge/ZipGenerator.py:136-155 | a local header gives name, flags, method, time and date and, unless the entry is streamed, checksum and both sizes, through the ZIP64 extra field when they are large |
| `ZipEntries.DescriptorReadBack` | bridge/bridge/ZipGenerator.py:87-92 | a data descriptor gives checksum, both sizes and its end, if and only if it is read with the width it was written with |
| `ZipEntries.EntryExtracted` | bridge/bridge/ZipGenerator.py:56-155 | name, data, checksum, sizes and end of an entry are recovered from where it lies, if and only if a descriptor is taken to be of the width it has |
| `ZipEntries.HeaderGuided` | bridge/bridge/ZipGenerator.py:61-92 | a reader that takes the width from the local ZIP64 extra field reads an entry if and only if it has no wide descriptor |
| `ZipEntries.DirectoryGuidedFile` | bridge/bridge/ZipGenerator.py:56-134 | a reader that takes the width from the directory reads every file and buffer |
| `ZipEntries.DirectoryGuidedStream` | bridge/bridge/ZipGenerator.py:157-193 | it reads a stream if and only if the stream is not one that was small before compression and large after it |
| `ZipEntries.WideDescriptor` | bridge/bridge/ZipGenerator.py:87-92 | an entry that one kind of reader cannot read and the other can |
| `ZipEntries.GrownStream` | bridge/bridge/ZipGenerator.py:187-193 | a stream that a reader guided by the directory cannot read |
| `ZipEntries.ArchiveExtracted` | bridge/bridge/ZipGenerator.py:47-258 | for every sequence of entries the closed archive is read back completely: the directory, and for each entry its data, checksum, sizes and end |
| `ZipEntries.CloseAndRead` | bridge/bridge/ZipGenerator.py:195-258 | closing any stream leaves an output from which the reader recovers the list the writer kept and every entry in it |
| `ZipReader.FlagBits` | bridge/bridge/ZipGenerator.py:226-231 | bit 3 of the flags announces a descriptor and bit 11 a name in UTF-8 |
| `ZipLayout.LocalBytesLaidOut` | bridge/bridge/ZipGenerator.py:152-153 | every byte of a local header at its literal position: signature, version, flags, method 8, time, date, checksum, sizes, lengths, name and extra field |
| `ZipLayout.DescriptorBytesLaidOut` | bridge/bridge/ZipGenerator.py:90-93 | every byte of a data descriptor at its literal position, in both widths |
| `ZipLayout.CentralBytesLaidOut` | bridge/bridge/ZipGenerator.py:198-239 | every byte of a directory entry at its literal position, with saturated fields and up to three 8-byte values |
| `ZipLayout.ClosingLaidOut` | bridge/bridge/ZipGenerator.py:241-258 | every byte of the end records at its literal position, clipped where the ZIP64 records take over |
| `ZipLayout.ArchiveLaidOut` | bridge/bridge/ZipGenerator.py:195-258 | in every closed archive each entry lies where its directory entry says, with its data and descriptor, directory entries follow each other without gaps, and the end records close it, byte by byte |
| `ZipWitness.AmbiguousUnnamed` | bridge/bridge/ZipGenerator.py:241-258 | an ambiguous archive whose last entry has an empty name cannot be read, whatever else is in it |
| `ZipWitness.FullArchiveFails` | bridge/bridge/ZipGenerator.py:241-258 | 65535 empty entries written like any others cannot be read back, 65534 can |
| `FileTree.Split` | bridge/jobs/utils.py:394-396 | splitting a path gives at least one component and none contains the separator |
| `FileTree.JoinSplit` | bridge/jobs/utils.py:452-466 | joining the components of a path gives the path back |
| `FileTree.MakeTree` | bridge/jobs/utils.py:386-413 | the loop inserts every file in turn and sorts every level |
| `FileTreeTheorems.InsertListing` | bridge/jobs/utils.py:394-408 | inserting a file adds exactly that file and loses none |
| `FileTreeTheorems.SortKeepsFiles` | bridge/jobs/utils.py:445-450 | sorting keeps the multiset of files |
| `FileTreeTheorems.ParseMeaning` | bridge/jobs/utils.py:452-466 | parsing succeeds exactly when no name is empty and then returns the files with their full paths |
| `FileTreeTheorems.MadeTreeTidy` | bridge/jobs/utils.py:386-413 | each level of a made tree has at most one folder per name, and no folder is empty |
| `FileTreeTheorems.RoundTrip` | bridge/jobs/utils.py:386-466 | parsing a made tree fails if and only if some path has an empty component, and otherwise returns the same multiset of files |
| `FileTreeTheorems.DoubledSeparator` | bridge/jobs/utils.py:452-455 | a path on which the round trip fails |
| `FileTreeTheorems.CanonicalDetermined` | bridge/jobs/utils.py:445-450 | a tree in shown form is determined by the multiset of its files |
| `FileTreeTheorems.MadeTreeCanonical` | bridge/jobs/utils.py:386-450 | without repeated paths the made tree is in shown form and holds exactly the listed files |
| `FileTreeTheorems.OrderIrrelevant` | bridge/jobs/utils.py:386-450 | for distinct paths every permutation of the list gives the identical tree |
| `TreeOrder.TreeInOrder` | bridge/jobs/utils.py:445-450 | at every level of a sorted tree no folder comes after a file, and within folders and within files no name comes after a later one; names compare at their first difference |
| `TreeOrder.SortStable` | bridge/jobs/utils.py:448-448 | entries of one level with the same name and type keep their order |
| `FilePlaces.InsertHashes` | bridge/jobs/utils.py:394-408 | inserting a file adds its hash at its path, after those that are there, and at no other path |
| `FilePlaces.MadeTreeHashes` | bridge/jobs/utils.py:386-450 | for every list, repeated paths included, the tree has at every path exactly the files listed for it, in the order of the list |
| `Visibility.ErrorTrace.constructor` | bridge/reports/etv.py:29-36 | no scope is taken and none is shown |
| `Visibility.ErrorTrace.NewScope` | bridge/reports/etv.py:84-87 | scopes are numbered from 1 on |
| `Visibility.ErrorTrace.ParseNotes` | bridge/reports/etv.py:310-353 | notes above the user's level are dropped, the last one carries the hide flag, and the scope is shown exactly when a kept note is relevant |
| `Visibility.ErrorTrace.ParseDeclaration` | bridge/reports/etv.py:140-171 | notes stand outside the block; the declaration stays in it unless its last note is relevant |
| `Visibility.ErrorTrace.ParseDeclarations` | bridge/reports/etv.py:245-276 | a small block is dissolved, a large or global one gets a header; only the enclosing scope may be shown |
| `Visibility.BuriedLines` | bridge/reports/etv.py:261-265 | the number compared with the user's limit is the number of declarations that stay in the block |
| `Visibility.MovedLines` | bridge/reports/etv.py:268-271 | moving the lines of a block out is the same as never having had the block |
| `Visibility.ErrorTrace.ParseNode` | bridge/reports/etv.py:89-117 | lines, scopes taken and scopes shown are those of a definition without any mutable state |
| `Visibility.ErrorTrace.ParseStatement` | bridge/reports/etv.py:119-138 | the same for statements |
| `Visibility.ErrorTrace.ParseThread` | bridge/reports/etv.py:95-105 | a thread takes a scope that is always shown |
| `Visibility.ErrorTrace.ParseCall` | bridge/reports/etv.py:173-210 | the same for calls: a call is unfolded exactly when something relevant is below it in the same thread |
| `Visibility.ErrorTrace.ParseAction` | bridge/reports/etv.py:212-243 | the same for actions; a relevant action shows the scope it stands in |
| `Visibility.ErrorTrace.ParseBody` | bridge/reports/etv.py:186-195 | testing the shown set right after the body decides exactly whether something relevant is below |
| `Visibility.Render` | bridge/reports/etv.py:29-46 | the whole page: global declarations, then the trace |
| `VisibilityTheorems.MarkedNotes` | bridge/reports/etv.py:310-353 | a node shows its scope for a note exactly when it puts a relevant note on the page |
| `VisibilityTheorems.LinesAgree` | bridge/reports/etv.py:173-243 | every header is unfolded exactly when its scope is in the final shown set, although the flag is fixed before later siblings are parsed |
| `VisibilityTheorems.LinesExposed` | bridge/reports/etv.py:186-195 | relevant notes and unfolded headers stand in shown scopes: the shown set is closed towards enclosing scopes |
| `VisibilityTheorems.LinesAscending` | bridge/reports/etv.py:84-87 | headers of a page take their scopes in increasing order |
| `VisibilityTheorems.HeadersDistinct` | bridge/reports/etv.py:84-87 | two headers never lead to the same scope |
| `VisibilityTheorems.PageConsistent` | bridge/reports/etv.py:29-46 | for every page headers, closing triangles and folded declaration blocks agree with the final shown set |
| `VisibilityTheorems.PageWellNested` | bridge/reports/etv.py:89-276 | on every page each line stands at a root or under an earlier header, and only declarations stand in declaration blocks |
| `VisibilityTheorems.RelevantNotesVisible` | bridge/reports/etv.py:89-353 | every relevant note on a page is visible at once: all headers from its thread's root down to it are unfolded |
| `PageMeaning.RelevantByPath` | bridge/reports/etv.py:173-243 | a call or action is unfolded exactly when a path through calls and actions leads below it to a visible note of level 0 or 1, a relevant action, or a declaration with such a note |
| `PageMeaning.BlockPartIs` | bridge/reports/etv.py:245-276 | the lines of a block, declaration by declaration: notes outside, then the declaration in the block or outside; a header exactly when the block is global or hides more declarations than tolerated |
| `PageMeaning.PageIsWalk` | bridge/reports/etv.py:29-276 | the page is exactly what is due along one walk around the trace: each statement, call, action and declaration has one line of its own right after its visible notes, in the scope of the nearest enclosing body; calls and actions are closed where they end; scopes are numbered in order of entry |
| `PageMeaning.NotesComplete` | bridge/reports/etv.py:310-353 | the note lines of a trace are all its notes up to the chosen level, in the order of the trace |
| `PageMeaning.ShownIsWalk` | bridge/reports/etv.py:72-243 | the scopes shown at first are those of the global declarations, of all threads, of the calls and actions that open, and the outermost one if anything outside threads is worth showing; no others |
| `Coverage.CoverageStatistics.constructor` | bridge/reports/coverage.py:245-249 | the table is empty |
| `Coverage.CoverageStatistics.Visit` | bridge/reports/coverage.py:259-281 | one prefix of one file: the record is made when missing, linked to its parent, and the counters grow |
| `Coverage.CoverageStatistics.AddFile` | bridge/reports/coverage.py:250-281 | one more file keeps the table exact |
| `Coverage.CoverageStatistics.Fill` | bridge/reports/coverage.py:245-281 | the table has exactly the directories and files met; each record has the sums over files at or below it, is a leaf exactly when first met as a file, and parents have smaller identifiers; the extra flag says whether some file was not measured |
| `Coverage.VisitStep` | bridge/reports/coverage.py:259-281 | the inner loop's invariant: all earlier files and the first prefixes of the current one are counted |
| `Coverage.TotalMeaning` | bridge/reports/coverage.py:271-281 | which number goes into which counter: covered lines and functions of measured files into both covered counters, totals of measured files into the plain totals, totals of all files into the extra ones |
| `CoverageListing.ArrangedGood` | bridge/reports/coverage.py:283 | the sorted list holds every record once, in key order |
| `CoverageListing.AllChildren` | bridge/reports/coverage.py:285-293 | the recursive collection terminates and equals its definition |
| `CoverageListing.ListStatistics` | bridge/reports/coverage.py:295-303 | the known roots in their order, each with all its children |
| `CoverageTheorems.BelowMembers` | bridge/reports/coverage.py:285-293 | below a record are listed exactly the records with a way down that passes no leaf |
| `CoverageTheorems.BelowAscends` | bridge/reports/coverage.py:283-293 | they are listed in strict pre-order, directories before files, then by name |
| `CoverageTheorems.OrderedOnce` | bridge/reports/coverage.py:283-303 | pre-order means nothing is listed twice and everything below a record follows it without a gap |
| `CoverageTheorems.ListedTotal` | bridge/reports/coverage.py:315-322 | the depth-one records add up to exactly the files below the known roots |
| `CoverageTheorems.DepthOneTotal` | bridge/reports/coverage.py:315-322 | the loop sums the depth-one records |
| `CoverageTheorems.MetAsFileMeaning` | bridge/reports/coverage.py:261-270 | a record is a leaf exactly when some file is that path and no earlier file lies at or below it |
| `CoverageTheorems.ListingTheorem` | bridge/reports/coverage.py:283-303 | under the known roots exactly the records reachable without passing a leaf are listed, once, in contiguous pre-order, with the right totals; nothing is left out if and only if no file shadows another |
| `CoverageTheorems.ShadowingExample` | bridge/reports/coverage.py:261-293 | two files that are listed completely in one order and not in the other |
| `TopLines.TopUnique` | bridge/reports/coverage.py:393-397 | the n largest elements of a multiset are determined |
| `TopLines.TopMerge` | bridge/reports/coverage.py:393-424 | dropping elements that are not among the n largest of a part never changes the n largest of the whole |
| `TopLines.BufferInserts` | bridge/reports/coverage.py:413-423 | inserting a line keeps the buffer ascending and the largest counts at its end |
| `TopLines.ParseLines` | bridge/reports/coverage.py:408-424 | the bounded buffer ends with exactly the 30 largest nonzero counts of the file, and only lines of the file |
| `TopLines.FindPlace` | bridge/reports/coverage.py:416-421 | the place before the first count that is not smaller |
| `MostCovered.KeyInjective` | bridge/reports/coverage.py:393-397 | names of lines are not ambiguous |
| `MostCovered.AllCountsMeaning` | bridge/reports/coverage.py:382-390 | the counts that compete are the nonzero ones of files with covered lines and recorded coverage, as often as they occur |
| `MostCovered.MergeAll` | bridge/reports/coverage.py:393-397 | the largest of the per-file largest counts are the largest of all counts |
| `MostCovered.MostCoveredLines.constructor` | bridge/reports/coverage.py:377-380 | nothing is collected |
| `MostCovered.MostCoveredLines.ParseFile` | bridge/reports/coverage.py:399-424 | one more file's largest counts are kept and the maximum is updated |
| `MostCovered.MostCoveredLines.Collect` | bridge/reports/coverage.py:382-397 | the returned lines come from the parsed files, larger counts first and equal counts by name, and their counts are exactly the 30 largest nonzero counts of all parsed files |
| `Upload.SucceedsExactly` | bridge/jobs/Upload.py:232-255 | the upload succeeds if and only if decisions are known, identifiers are proper and unique per decision and parents precede children; then each report is saved once, in order, linked to its own parent |
| `Upload.FailsAtFirst` | bridge/jobs/Upload.py:232-255 | a failing upload fails at the first report that does not fit, with its reason: unknown decision, missing parent, improper identifier, repeated identifier, in this order |
| `Upload.UploadLogger.constructor` | bridge/jobs/Upload.py:557-563 | nothing is tracked |
| `Upload.UploadLogger.Start` | bridge/jobs/Upload.py:565-574 | progress starts at 0 and is tracked only for a nonempty total |
| `Upload.UploadLogger.Update` | bridge/jobs/Upload.py:576-585 | counts add up, and a percentage is written only when it changes; written percentages never decrease |
| `Upload.ExactRounding` | bridge/jobs/Upload.py:576-585 | truncated exact percentages meet what is asked of the rounding |
| `Upload.JobArchiveUploader.constructor` | bridge/jobs/Upload.py:55-69 | nothing is saved or pending |
| `Upload.JobArchiveUploader.UploadChunk` | bridge/jobs/Upload.py:294-311 | all pending reports are saved in order and can be found |
| `Upload.JobArchiveUploader.TakeIdentifier` | bridge/jobs/Upload.py:511-516 | improper and repeated identifiers are refused, others are taken |
| `Upload.JobArchiveUploader.Append` | bridge/jobs/Upload.py:264-292 | a report whose parent is saved becomes pending with the link that one-by-one saving would give it, or fails with the same error |
| `Upload.JobArchiveUploader.MakeRoom` | bridge/jobs/Upload.py:239-248 | after it the parent is saved if it was met at all, and at most 500 reports are pending |
| `Upload.JobArchiveUploader.UploadReports` | bridge/jobs/Upload.py:232-255 | for every list the chunked upload has the same outcome as saving one by one, the same error or the same rows; never more than 501 reports are pending; progress never decreases and ends at 100, or at 0 for the empty list |
| `TagTable.Offset` | bridge/marks/tags.py:134-146 | siblings take at least two rows |
| `TagTable.SpotsWithin` | bridge/marks/tags.py:134-146 | a subtree keeps to the rows from its own to the returned last row, and tags stand in every other column |
| `TagTable.LastRowTaken` | bridge/marks/tags.py:134-146 | some tag of the subtree stands in its last row, so the interval is exact |
| `TagTable.SpotsApart` | bridge/marks/tags.py:134-146 | no two tags and no two tags' connectors meet |
| `TagTable.LayoutTheorem` | bridge/marks/tags.py:102-146 | in the drawing of every forest a cell shows a tag or connector exactly when one tag puts it there, never two; connectors show exactly the lines their one parent needs |
| `TagTable.LinesMeaning` | bridge/marks/tags.py:122-132 | a connector has a line left in the row of the parent, right in rows of children, up below the first and down above the last, and no line twice |
| `TagTable.ChildPlacement` | bridge/marks/tags.py:134-146 | children stand two columns to the right, the first in the row of its parent, every other two rows below the last tag of the subtree before it |
| `TagTable.AllSpotIds` | bridge/marks/tags.py:102-146 | the drawn tags are the tags of the forest in pre-order, each once |
| `TagTable.AllConnectorsLead` | bridge/marks/tags.py:122-146 | every connector that goes right ends at a child's tag |
| `TagMatrix.LinesGrow` | bridge/marks/tags.py:112-132 | merging the lines for one more child gives exactly the lines needed for all children so far |
| `TagMatrix.TagsMatrix.constructor` | bridge/marks/tags.py:43-47 | nothing is drawn |
| `TagMatrix.TagsMatrix.AddLines` | bridge/marks/tags.py:112-120 | lines missing in a connector are appended, a missing connector is made |
| `TagMatrix.TagsMatrix.LinkRows` | bridge/marks/tags.py:122-132 | exactly the cells between two rows of a column get the lines of the connection |
| `TagMatrix.TagsMatrix.AddTag` | bridge/marks/tags.py:134-146 | draws exactly the layout of the subtree over what was there and returns its last row |
| `TagMatrix.TagsMatrix.FillMatrix` | bridge/marks/tags.py:102-111 | draws exactly the layout of the forest |
| `TagMatrix.MaxRow` | bridge/marks/tags.py:49-55 | the last row in use |
| `TagMatrix.Table` | bridge/marks/tags.py:49-63 | a rectangle with the drawn cells in their places and holes elsewhere |
| `TagMatrix.NothingBeyond` | bridge/marks/tags.py:49-63 | no drawn cell is beyond the last tag column, so the table loses nothing |
| `TagMatrix.RowsTaken` | bridge/marks/tags.py:49-63 | the table ends with the last row of the last root's subtree |

## Left out

- Store.MarkStore.UpdateAll: the cache has no bug status; bug statuses are modelled on their own in `Statuses`.
- Store.MarkStore.RelinkReports: the background jobs that connect the reports run one after another, in any order, with no other operation between them.
- Insertion.RelinkSound: whether a problem description can be read does not change over time.
- Statuses.IncrementAgrees: verdicts other than incompatible and without marks are opaque codes, one of which means a bug.
- Tracking.FastPathIsSlowPath: only for marks no user has confirmed or rejected anywhere; a rebuild forgets such decisions, a new threshold does not.
- FileTree.MakeTree: works on values; the moving reference into nested lists and the in-place sort of the original are not modelled, nor is the lookup of stored files by hash.
- Visibility.Render: line numbers, HTML text and the numbering of assumptions are not modelled; node types other than the five are not part of the input type.
- Coverage.CoverageStatistics.Fill: reading archives and JSON is not modelled, nor are the width of counters, the percentages rounded from the totals, and data statistics.
- MostCovered.MostCoveredLines.Collect: line numbers are assumed to have no colon; the counts of the returned lines are returned beside them.
- Upload.JobArchiveUploader.UploadReports: validation of other fields, computers, sources and files is not modelled, nor are leaf reports, attributes and coverage; the percentage is any rounding that keeps the order and gives 0 and 100 at the ends, as floating-point division, multiplication and truncation do.
- TagTable.LayoutTheorem: the forest is given as trees; building it from parent links in the database, where a tag with a missing parent is only logged, is not modelled.
- Zip.ZipStream.CompressFile: compressed data, checksums and time stamps are opaque values (how a date is packed into 16 bits is not modelled); a size or name that does not fit its field, which raises an error in the original, is excluded by the precondition.
- Zip.ZipStream.CompressStream: the same, and a stream whose raw size is small must not pack to 4 GiB or more, because its descriptor is narrow then.
- ZipReader.AmbiguousFails: only one direction, since file names may contain bytes that look like end records; ZipWitness.AmbiguousUnnamed gives a family where nothing is asked of the bytes.
- Regular expressions, MD5 sums and JSON are opaque or absent; thresholds and similarities are real numbers, not floating-point ones.
- Database transactions, locks and background jobs: every operation is one atomic step.
- Change history of marks, mark versions, access rights, likes and comments.
- Report upload from the verification tool, decision life cycle, job configuration, views and tables.
