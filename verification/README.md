# Danbyte: verified model of its core algorithms

Danbyte is an IPAM and DCIM application on Django. Between its database plumbing sit a number of self-contained
algorithms and small state machines. This project models those in Dafny and proves what they are for: that a cabinet's
rails and devices stay in order over every run of requests, deleted types included, that a simplified boundary stays close
to the original, that a memoised count of a drawing is over its cap exactly when the drawing is, when exactly a bounded
cache of renders loses a live file or leaves one behind, that a streamed scan sees what a whole-file scan sees, that a split is optimal, that binary
walkers read what encoders write, that locks exclude, and that exports read back.

`dafny verify dfyconfig.toml` checks everything.

## How it is laid out

| files | what they model |
|---|---|
| `Din`, `DinGaps`, `DinSweep`, `DinRailSets`, `DinMoves`, `DinReplace`, `Cabinets` | DIN rails on plates and devices on rails; `Cabinets.Database` holds the stored rows and the operations on them |
| `Polyline`, `RingShape`, `Boundary`, `RingOrder` | Ramer-Douglas-Peucker with a stack, ring rules, the search for a tolerance, which ring is stored first |
| `BlockExpansion`, `SvgPaths`, `SvgWriter`, `Sums`, `SvgDocument`, `SvgLadder` | counting a drawing's entities; chunking paths; what each simplification keeps; the elements written and the climb to a document that fits; what each step shows |
| `RenderCache` | requests, background jobs, uploads and deletions around one drawing's cached renders |
| `XlsxScan` | the chunked tag counter |
| `Capacity` | the optimal A/B split |
| `ByteStrings`, `GifBlocks`, `WebpChunks` | walking GIF blocks and RIFF chunks |
| `RenderLocks` | the expiring locks around a PDF render |
| `Sorting`, `Matching`, `RowReferences`, `Texts`, `TagCells` | naming objects in cells and reading them back |
| `ConfigContext`, `ContextRender`, `BusinessHours`, `Aggregates` | deep merge and whose data shows for a device, weekly schedules, canonicalising prefixes |
| `Basics` | `Option` and `Result` |

## How the model relates to the code

- Code that updates rows, lists or sets in place is a class or a method with loops, proved against a specification;
  code that computes is functions and lemmas. A database transaction that locks what it reads is one step. In `RenderCache`
  a job that reads the drawing's row without a lock and writes it later is two, with anything in between; in `RenderLocks`
  every single cache call is a step of its own.
- DIN lengths are whole tenths of a millimetre, as stored. `place` does not reject a negative offset and `rail_errors`
  does not look at the left edge; the field validators in front of them do, and are preconditions here (`FieldsOk`,
  `Validated`, `0 <= offset`). Spare labels (`~` and the rail's id) are assumed not to be in use.
- Boundary coordinates are reals and distances are compared by their squares. `simplify` hands back the very list it got
  at tolerance 0 and `_simplify_ring` then appends to it, so the first pass closes the document's own rings;
  `Boundary.SimplifyRing` says so on the heap, and `ClosedTwice` and `ClosingFirst` that nothing is stored differently for
  it. A position is two coordinates and whatever came behind them; measuring unpacks exactly two.
- Drawing costs that are floats in the code are unbounded integers with an infinity.
- A render's cache key stands for the hash of its parts; file names come from a storage that never hands out a name in
  use. Uploads and renders get random names, never drawn again and told apart by their endings; a variant's name is that of
  its key and can come again.
- A lock's random token is the number of the render that drew it.
- A drawing's text limit counts every text until texts are dropped as a kind, including texts that went with an earlier
  step; `SvgWriter.Chars` follows the code.

## What turned out false, and when it holds

- Merging contexts is not associative. `ConfigContext.MergeRegroups` gives the exact condition, `GroupingMatters` an
  input where it fails, and `AlikeRegroups` shows that it is enough for the last two contexts not to conflict.
- That a device on a rail has a type that mounts there is kept by every request but deleting a type, which breaks it
  exactly when one of the type's devices is on a rail (`Cabinets.Database.DeleteKind`). All else about the order survives
  that too, and every later request (`Cabinets.Database.Run`).
- `check_rail_devices` does not refuse every set of rails that strands a device: on a device without a type it fails with
  an error nobody handles, and the request is lost. `Cabinets.Database.CheckRailDevices` says exactly when: every rail of the
  cabinet that carries devices is kept, and one of those kept carries a device without a type; `ReplaceRails` and
  `SyncFromType` say it for whole requests. `Cabinets.DeletedKindLosesRequests`: once a type with a device on one of a
  cabinet's rails is deleted, sending all of the cabinet's rails as they are is lost.
- A lock's release can delete the next holder's lock, and the limits on renders can be passed, when a render is late.
  `RenderLocks.SafeExactlyOnTime` says exactly when: as long as no tick of the clock carries a release that is about to
  delete to the end of the lock it deletes, releases delete only their own locks however the run goes on; the limits also
  need that no tick carries a render at work, or one still trying the slots, to the end of its user's lock. Any such tick
  can be followed by a run that breaks the promise. A release that has yet to read its token back does no harm however
  late it is. `LateReleaseDeletesAnothers` is one such run.
- The files of a drawing's renders are not always safe. `run_render` and `_queue_down` write back what they read without a
  lock: with an upload in between the row names the old source again, which is about to be deleted, and nobody the new one
  (`UploadInBetween`); with a variant's end in between its file is left behind (`VariantInBetween`); with an eviction in
  between an entry names a file about to be deleted (`EvictionInBetween`). Without any of that, a file is left behind when a
  variant's job ends twice (`TwiceLeavesOrphan`), and when a render whose entry failed but still names a file is asked for
  again (`RetryLeavesOrphan`; `RetryRun` is a run from an upload that gets there). `RenderCache.RunIsSound` gives the exact
  condition on a run's writes for every file the row names to be there and to stay, `RunIsWhole` the one for no file to be
  left behind besides; `UploadSinceRead` and `NothingSavedSince` say what it takes in terms of what happened since the row
  was read.
- After an upload, a job for the old file can still put it back: `RenderCache.OldJobsStop` says exactly when.
- A context on a region is meant to reach every site below it; the climb stops after 50 levels. `ContextRender.ChainIsWhole`
  gives the exact condition for every region above to be found.
- The comment at `CHUNK_CHARS` says that one path holds at most that much data; a single stroke may exceed it
  (`SvgPaths.LongPartPasses`). `PathsFitExactly` shows that the comment holds exactly when no single stroke does.
- A polygon's outer ring can collapse while a hole in it does not, and the hole is stored first, as the outer ring:
  `RingOrder.HoleBecomesOuter` is a document of which nothing else is stored. `CollapsesExactly` and `OuterStaysOuter` give
  the exact condition: a ring collapses when all of it lies within the tolerance of the segment from its start to the
  position farthest from there.
- A boundary whose positions carry an altitude is stored only if it fits as it is. `Boundary.Fit` says exactly when it fails
  instead, with an error that is no refusal: the result at tolerance 0 has an area and does not fit, and a ring of four
  positions or more has one that is no pair.

## Model

| member | source | states |
|---|---|---|
| `Din.DevicesOn` | api/din.py:252-257 | lists exactly the devices on a rail, each once, by offset |
| `DinGaps.FreeGaps` | api/din.py:260-269 | for spans in any order and ending anywhere: the gaps are free, disjoint and in order, and every free stretch up to the rail's end, or to a span that starts beyond it, lies in one of them |
| `DinGaps.ExtentOnRail` | api/din.py:260-269 | on spans that lie on the rail that is the rail's end |
| `DinGaps.GapsAreTheMaximalStretches` | api/din.py:260-269 | a stretch is among the gaps exactly when it is a maximal uncovered one |
| `DinGaps.FirstWideIsLeast` | api/din.py:345-349 | where a width fits at all, the first wide gap exists and starts no later |
| `DinRailSets.RailErrors` | api/din.py:46-74 | which fault each rail has, the first rail it overlaps included, and: all faultless exactly when every rail is inside the plate, labels are unique and no two rails clash |
| `DinRailSets.ClashIsShared` | api/din.py:28-43 | two rails clash exactly when their bands, of the height their profiles have, share some square of the plate |
| `DinRailSets.WithinIsAllOfIt` | api/din.py:60-70 | a rail is within its plate exactly when every square of its band is |
| `DinSweep.Sweep` | api/din.py:517-547 | comparing each device with the furthest-reaching earlier one finds a fault exactly when a moved device does not fit or overlaps another that mounts on the rail, whatever the unmoved ones are; each fault it names is real |
| `DinSweep.ClearOn` | api/din.py:538-547 | had a moved device come as far as the next one, it would overlap the one that reaches furthest, so that one comparison is enough |
| `DinSweep.RealMeansWrong` | api/din.py:526-545 | a named fault means the arrangement is wrong |
| `DinMoves.MovedStep` | api/din.py:551-558 | writing placements one by one reaches the arrangement they describe |
| `DinMoves.PictureDecides` | api/din.py:517-547 | on any floor, what the sweep asks of a rail is that the listed devices fit and keep clear of every other that mounts there |
| `DinMoves.AcceptsIsOrder` | api/din.py:508-549 | on a floor in order the arrangement is accepted exactly when it leaves the floor in order and puts only devices with a type on rails |
| `DinMoves.OnlyThisCabinetMatters` | api/din.py:508-549 | checking this cabinet's rails decides whether the whole floor is in order |
| `DinMoves.ReportsAll` | api/din.py:554-559 | the list that the writes report names each listed device at most once, in list order, and exactly those whose place changed or that were taken down with an offset sent along |
| `DinMoves.MovedAsSent` | api/din.py:551-558 | afterwards every listed device is where it was sent |
| `DinReplace.ReplacedRails` | api/din.py:46-74 | after a replacement the rails are in order exactly when the sent set passes the check |
| `DinReplace.ReplacedDevices` | api/din.py:363-393 | after a replacement the devices are in order exactly when the sent set strands none |
| `DinReplace.TwoNames` | api/din.py:123-131 | rails that go by their own or their spare label are told apart |
| `DinReplace.SyncStrandsNone` | api/din.py:143-192 | a sync never strands a device: moves its devices would not survive are skipped |
| `DinReplace.ReplacedIsSynced` | api/din.py:195-239 | saving the built set is the sync: rails with a template's label equal it in every field wherever their devices allow, all others stay as they are, missing ones are added, none removed |
| `DinReplace.SyncedTakes` | api/din.py:195-239 | a rail whose label a template carries equals that template in every field if all its devices fit and mount there, and is otherwise as it was, like every rail no template names |
| `DinReplace.SyncedIsReplaced` | api/din.py:195-239 | whatever counts as a sync is a replacement by the built set, so its check decides for all of them |
| `Cabinets.RoomIsOrder` | api/din.py:331-355 | storing a device, new or known, where it has room, and only there, keeps the floor in order and it clear of devices that lost their type |
| `Cabinets.FirstWideDecides` | api/din.py:345-349 | the first wide gap is the least offset with room, and without one there is room nowhere |
| `Cabinets.KindDecides` | api/din.py:396-440 | each mounted device of a redefined type still has its place exactly when the floor is still in order and they are clear of those that lost theirs |
| `Cabinets.PlacedBySpans` | api/din.py:430-440 | the spans read with the new width decide whether a device keeps its place |
| `Cabinets.DeletedKindOrder` | api/models.py:2095-2097 | deleting a type leaves the floor in order, and every device on a rail typed exactly when none of the type was on one |
| `Cabinets.DeletedKindLosesRequests` | api/din.py:387-388 | after that, sending all rails of a cabinet with such a device on them meets the device, whatever they are to become; sent as they are they pass every check before that, so the request is lost |
| `Cabinets.Database.Place` | api/din.py:331-355 | with an offset: accepted exactly when there is room there; with none: the least offset with room, refused exactly when there is none; every refusal has the reason it names; devices that lost their type included |
| `Cabinets.Database.PlaceFirst` | api/din.py:344-349 | the least offset with room, or none anywhere |
| `Cabinets.Database.PlaceAt` | api/din.py:350-355 | the offset asked for exactly when there is room |
| `Cabinets.Database.SaveOnRail` | api/serializers.py:3390-3396 | a device saved with a type on a rail takes the offset asked for, or the least one with room; refused and unchanged exactly when there is none |
| `Cabinets.Database.ReadPlacements` | api/din.py:470-496 | which fault each placement has; no fault exactly when every placement names a device once and a place on the cabinet's rails |
| `Cabinets.Database.FinalMounts` | api/din.py:507-516 | the final arrangement of the cabinet's rails: unlisted devices stay, listed ones move |
| `Cabinets.Database.SweepRails` | api/din.py:517-549 | on any floor no rail has a fault exactly when every rail accepts its listed devices |
| `Cabinets.Database.Arrange` | api/din.py:448-559 | all or nothing; on any floor accepted exactly when the list is well formed and every moved device fits and keeps clear, and then every listed device is where it was sent and every other where it was, and the answer names, in list order, exactly the listed devices whose place changed or that were taken down with an offset sent along; on a floor in order, exactly when the new floor is in order and every device put on a rail has a type |
| `Cabinets.Database.CheckKind` | api/din.py:396-440 | accepts a width and profiles exactly when the floor with them is in order and the type's devices are clear of those that lost theirs; with all typed, exactly when it is in order |
| `Cabinets.Database.ChangeKind` | api/serializers.py:2676-2681 | the changed type is stored exactly when its devices survive it |
| `Cabinets.Database.DeleteKind` | api/viewsets.py:3488-3499 | a deleted type's devices stay where they are without a type and the floor stays in order; all devices on rails stay typed exactly when none of the type is mounted |
| `Cabinets.Database.SaveRails` | api/din.py:111-138 | ends with exactly the requested rails, updated under their own ids and new under ids nobody had; after every single write labels are unique |
| `Cabinets.Database.StepAside` | api/din.py:123-127 | every rail that changes its label goes by its spare one, labels unique throughout |
| `Cabinets.Database.WriteKept` | api/din.py:128-131 | every kept rail takes its own values, labels unique throughout |
| `Cabinets.Database.CheckRailDevices` | api/din.py:363-393 | accepts exactly the sets that drop no rail with devices and keep every other long enough and of a fitting profile; fails exactly when every rail with devices is kept and one of them carries a device without a type |
| `Cabinets.Database.KeepsDevices` | api/din.py:378-391 | one rail kept: long enough and mountable for all its devices, or a failure exactly when one has no type |
| `Cabinets.Database.ReplaceRails` | api/serializers.py:6643-6677 | a plate size and a rail set sent together are accepted exactly when the ids are right and the result is in order, and then the result is stored; lost exactly when the ids are right, the rails fit, and the devices' check fails |
| `Cabinets.Database.CreateCabinet` | api/serializers.py:6877-6885 | a new cabinet is stored with its rails exactly when they fit its plate and each other |
| `Cabinets.Database.BuildSync` | api/din.py:209-223 | each own rail as its template has it where its devices fit and mount there, else as it is, and the templates it lacks; fails exactly when a rail that would change carries a device without a type |
| `Cabinets.Database.SyncFromType` | api/din.py:195-239 | when it passes: every rail whose label a template carries equals the template if every device on it fits and mounts there and is unchanged otherwise, as is every rail no template names, missing rails are added, the plate is the type's and the floor is in order; or refused and unchanged; refused only when every such sync is out of order; lost exactly when a rail that would change carries a device without a type |
| `Cabinets.Database.Run` | api/din.py:111-559 | every run of requests that save, remove and arrange devices, define and delete types, and create, resize, sync and rerail cabinets keeps every rail on its plate and every device in its place; every device on a rail has a type as long as no type is deleted |
| `Polyline.NearestOnSegment` | api/geojson_import.py:37-46 | the computed distance is the least over the whole segment, and some point of it attains it |
| `Polyline.DroppedIsNear` | api/geojson_import.py:49-70 | every dropped point is within tolerance of the segment joining its two nearest kept neighbours |
| `Polyline.SimplifiedStaysClose` | api/geojson_import.py:49-70 | the same for a whole line |
| `Polyline.EndsStay` | api/geojson_import.py:55-70 | the first and last point stay |
| `Polyline.PositionsComplete` | api/geojson_import.py:70 | the result is exactly the kept points, in order |
| `Polyline.Split` | api/geojson_import.py:58-69 | one popped stretch: what is marked and what is still pending together stay the same, and the work left shrinks |
| `Polyline.Mark` | api/geojson_import.py:54-69 | the stack terminates with exactly the points the recursive algorithm keeps |
| `Polyline.Simplify` | api/geojson_import.py:49-70 | the points the recursive algorithm keeps, in order; the line itself at tolerance 0; nothing exactly when measuring meets a position that is no pair |
| `Boundary.SimplifyRing` | api/geojson_import.py:73-85 | what is stored for a ring; at tolerance 0 the very list, closed in place, otherwise a new one; a failure exactly above tolerance 0 on a position that is no pair |
| `Boundary.RingComesTo` | api/geojson_import.py:49-85 | a stored ring lists positions of the closed ring in order; each one left out is within the tolerance of the segment between its stored neighbours; no stretch within the tolerance of its chord keeps anything inside |
| `Boundary.RingIsStored` | api/geojson_import.py:73-85 | on a closed document ring: it is dropped exactly when it is too short or collapses, and otherwise stored as such a list |
| `Boundary.CandidateIsStored` | api/geojson_import.py:88-101 | the same for every ring of every polygon, in order, at one tolerance |
| `Boundary.SimplifyRings` | api/geojson_import.py:91-93 | each ring of a polygon in turn, collapsed ones dropped, and what became of the lists that came in; a failure exactly when one of them fails |
| `Boundary.StoredIsLinear` | api/geojson_import.py:73-101 | whatever is stored is closed and has four positions or more |
| `Boundary.ClosedTwice` | api/geojson_import.py:82-85 | after the first pass another one at tolerance 0 changes nothing |
| `Boundary.ClosingFirst` | api/geojson_import.py:228-235 | closing the rings first does not change what is stored |
| `Boundary.ClosedNeedsNoClosing` | api/geojson_import.py:82-84 | once closed, a ring needs no closing at any tolerance |
| `Boundary.PassRaises` | api/geojson_import.py:37-46 | a pass fails exactly above tolerance 0 and on a document with a ring of four positions or more of which one is no pair |
| `RingOrder.FirstStored` | api/geojson_import.py:91-99 | what is stored first is the first ring that does not collapse |
| `RingOrder.CollapsesExactly` | api/geojson_import.py:49-85 | a closed ring collapses exactly when all of it lies within the tolerance of the segment from its start to the position farthest from there |
| `RingShape.RdpEmpty` | api/geojson_import.py:58-69 | a stretch keeps nothing inside it exactly when all of it is within the tolerance of its chord |
| `RingShape.SegmentEnds` | api/geojson_import.py:37-46 | the distance to a segment does not depend on its direction and is no more than to either end |
| `RingShape.NarrowKeepsFew` | api/geojson_import.py:49-85 | a closed ring within the tolerance of the segment from its start to its farthest position keeps fewer than four positions |
| `RingShape.KeptHasReason` | api/geojson_import.py:58-69 | a kept position is an end, or the farthest of a stretch between kept positions, and further from its chord than the tolerance |
| `RingOrder.OuterStaysOuter` | api/geojson_import.py:80-93 | on the closed lists the passes work on, a polygon's outer ring stays first exactly when it has four positions and, unless the tolerance is 0, does not lie within it of the segment from its start to its farthest position |
| `RingOrder.SmallRingCollapses` | api/geojson_import.py:80-85 | a closed ring whose every position lies within the tolerance of its start collapses |
| `RingOrder.HoleBecomesOuter` | api/geojson_import.py:91-101 | a document too large at every finer tolerance, of which at the coarsest the hole of a polygon is stored and nothing else |
| `Boundary.Merge` | api/geojson_import.py:170-185 | every part of every feature, in file order |
| `Boundary.Fit` | api/geojson_import.py:228-250 | the first listed tolerance whose result has an area and fits, and that each ring of it is the document's thinned: positions in order, those left out near, no near stretch kept; which of the three errors exactly when |
| `BlockExpansion.Deeper` | api/cad_engine.py:419-454 | following references deeper only adds entities, and none once they nest no deeper |
| `BlockExpansion.NestedHasNoCycle` | api/cad_engine.py:419-422 | blocks that nest to a known depth have no cycle |
| `BlockExpansion.UnrolledCounts` | api/cad_engine.py:419-454 | what is counted to a depth is the number of trails of positions, rows and columns through the references, attributes included |
| `BlockExpansion.TooManyAreDrawn` | api/cad_engine.py:430-434 | past the cap at some depth means that there is a set of more trails than that |
| `BlockExpansion.BackToBusy` | api/cad_engine.py:444-445 | a reference to a block under way closes a reachable cycle |
| `BlockExpansion.BadSpreads` | api/cad_engine.py:426-437 | a block past the cap or with a cycle makes everything that refers to it so |
| `BlockExpansion.Expander.CostOf` | api/cad_engine.py:426-439 | over only with reason, exact otherwise, memo kept true, busy set restored, terminating on every block graph |
| `BlockExpansion.Expander.Block` | api/cad_engine.py:441-452 | the same for one block, whether memoised, busy, missing or new |
| `BlockExpansion.Expansion` | api/cad_engine.py:419-454 | over the cap exactly when a set of more than 3,000,000 trails leads to entities of the drawing, each reference taken once per row and column, or a cycle is reachable; otherwise the number of all trails |
| `SvgPaths.GreedyIsAhead` | api/cad_engine.py:590-595 | after as many paths no packing has placed more parts than the greedy one |
| `SvgPaths.GreedyIsLeast` | api/cad_engine.py:590-595 | no order-preserving packing uses fewer paths |
| `SvgPaths.FewerPartsFewerPaths` | api/cad_engine.py:571-596 | leaving strokes out never takes more paths |
| `SvgPaths.PathsJoin` | api/cad_engine.py:582-596 | the paths' data is the parts' data in order |
| `SvgPaths.Chunk` | api/cad_engine.py:577-596 | each path fits or is a single part, none is lost or moved, and the packing is greedy |
| `SvgPaths.PathsFitExactly` | api/cad_engine.py:71-73 | no path is longer than CHUNK_CHARS exactly when no single part is |
| `SvgPaths.LongPartPasses` | api/cad_engine.py:590-596 | a part longer than that goes out whole, in a path longer than that |
| `SvgWriter.Merge` | api/cad_engine.py:570-575 | for every style the data of its kept strokes in drawing order, and for every layer and kind their number |
| `SvgWriter.StrokePaths` | api/cad_engine.py:570-596 | for every style paths that hold exactly its strokes, in as few as can be |
| `SvgWriter.LaterKeepsLess` | api/cad_engine.py:65-67 | each step keeps part of what every earlier one kept |
| `SvgWriter.LaterNeedsNoMorePaths` | api/cad_engine.py:655-679 | a later step never needs more paths for a style |
| `SvgDocument.WriteSvg` | api/cad_engine.py:556-652 | the paths of every style, the counts per layer and kind, and the number of elements: the outermost, a group per layer with anything kept, a group per further kind, and every path, fill and text |
| `SvgDocument.LaterHasNoMoreElements` | api/cad_engine.py:626-651 | a later step of the ladder never has more elements |
| `SvgDocument.Write` | api/cad_engine.py:655-679 | the first step of the ladder within all three limits, or none |
| `SvgDocument.OneDecides` | api/cad_engine.py:668-671 | every document of a step has the same number of elements, so the one written decides |
| `SvgLadder.StepCounts` | api/cad_engine.py:65-67 | the counts of a step's document are those of the strokes, fills and texts it shows: hatches until the first step, dimensions until the second, texts until the third, geometry no shorter than a 2000th or 400th of the diagonal in the last two |
| `SvgLadder.StepDraws` | api/cad_engine.py:570-596 | each style's paths, joined, are the data of exactly the strokes shown, in drawing order |
| `SvgLadder.GoneIsAbsent` | api/cad_engine.py:570-573 | of a kind that is gone nothing is drawn and nothing is counted |
| `SvgLadder.OthersAreAllThere` | api/cad_engine.py:572-573 | every stroke of a kind that is not gone is shown, apart from geometry in the last two steps |
| `SvgLadder.StepChars` | api/cad_engine.py:670 | the text limit counts the characters of every text of the drawing until the third step, and none from then on |
| `SvgLadder.MarkupCounts` | api/cad_engine.py:622-652 | in whatever order the layers come, the document's markup is well nested and has as many elements as it says |
| `RenderCache.RunIsBounded` | api/cad_render.py:566-667 | in every run, whatever was read before it is written: at most 12 variants, at most 3 in flight, and time goes on |
| `RenderCache.Drawing.constructor` | api/viewsets.py:10027-10072 | a drawing just uploaded keeps the bounds, names only a stored file and leaves none behind |
| `RenderCache.StepSound` | api/cad_render.py:382-667 | a step keeps every file the row names stored and not scheduled for deletion exactly when its write is intact, and loses sight of no stored file exactly when it is thorough |
| `RenderCache.RunIsSound` | api/cad_render.py:382-667 | along a run no live file is ever gone or about to go exactly when no render is saved over a newer upload, no entry comes back without its file, and no variant's file takes a name about to be deleted |
| `RenderCache.RunIsWhole` | api/cad_render.py:382-667 | along a run no file is ever left behind besides exactly when no entry's file is overwritten and every row written back names what the row names by then |
| `RenderCache.UploadSinceRead` | api/cad_render.py:399-410 | a row read earlier still has the drawing's source exactly when nobody uploaded since |
| `RenderCache.NothingSavedSince` | api/cad_render.py:515-535 | with nothing uploaded, rendered or saved for a variant since its row was read, a render's end leaves no file behind |
| `RenderCache.UploadInBetween` | api/cad_render.py:515-535 | an upload between a render's read and its save: the old source is named again and about to go, the new one left behind |
| `RenderCache.VariantInBetween` | api/cad_render.py:515-535 | a variant's first file between the two is left behind |
| `RenderCache.EvictionInBetween` | api/cad_render.py:382-392 | an eviction between the queue-down's read and its write brings back an entry whose file is about to go |
| `RenderCache.TwiceLeavesOrphan` | api/cad_render.py:660-667 | a variant's job that ends twice leaves its first file behind |
| `RenderCache.RetryLeavesOrphan` | api/cad_render.py:614-620 | a failed entry that names a file and is asked for again leaves that file behind |
| `RenderCache.RetryRun` | api/cad_render.py:566-667 | a run from an upload to such an entry, thorough until then, and on to the file left behind |
| `RenderCache.RepeatQueuesNothing` | api/cad_render.py:597-601 | a repeated request for a ready or in-flight render queues nothing and changes nothing |
| `RenderCache.OneJobAtATime` | api/cad_render.py:566-625 | in every run two jobs for one key are queued at least JOB_TIMEOUT apart, unless the first one's entry failed, was evicted or cleared, or was rolled back by a late write before the second |
| `RenderCache.OldJobsStop` | api/cad_render.py:399-410 | once the file is replaced no job for the old one gets past its look at the row exactly as long as none that had looked before saves its render |
| `RenderCache.SavedIsServed` | api/cad_render.py:597-601 | after a variant's job saved a file, a request for it is answered with that file and queues nothing along every run that does not evict, clear, save or write down the entry |
| `RenderCache.FailedIsAskedAgain` | api/cad_render.py:602-620 | after a variant's job ended without a file, a request with room queues it again, along the same runs |
| `RenderCache.OutcomeStays` | api/cad_render.py:515-546 | the drawing's status is the outcome of its last render, along every run in which none ends and nothing is uploaded |
| `RenderCache.EveryEntryHasJob` | api/cad_render.py:614-625 | along every run a job was queued for every entry of the map and for the source |
| `RenderCache.RequestBounded` | api/cad_render.py:602-615 | room is made for the new entry and only as many as allowed are in flight |
| `RenderCache.QueueFiles` | api/cad_render.py:608-618 | the files named afterwards are those named before but for the evicted entries' and the replaced one's |
| `RenderCache.GoneIsOldest` | api/cad_render.py:608-613 | an entry goes only when there is no room and it is the oldest, and then it alone |
| `RenderCache.FlyingShrinks` | api/cad_render.py:566-576 | as time goes on renders only leave the air |
| `RenderCache.Drawing.ReadCurrent` | api/cad_render.py:399-410 | the row, if it still has the source a job was queued for and sits in its tenant |
| `RenderCache.Drawing.MakeRoom` | api/cad_render.py:608-613 | the oldest entries go, no more than needed, and exactly their files are stale |
| `RenderCache.Drawing.Request` | api/cad_render.py:592-625 | served from the cache, refused, or queued with room made, and nothing else changes |
| `RenderCache.Drawing.FinishVariant` | api/cad_render.py:653-667 | a variant's outcome lands on its entry while there is one, ready with its file or failed without; exactly when its file's name is not about to be deleted the drawing stays sound |
| `RenderCache.Drawing.FinishRender` | api/cad_render.py:515-535 | every field is written as it was read but for the new render, and exactly the renders read are scheduled for deletion; the drawing stays sound exactly when its source is the one read |
| `RenderCache.Drawing.Fail` | api/cad_render.py:538-546 | marks the drawing failed and nothing else |
| `RenderCache.Drawing.QueueDown` | api/cad_render.py:382-392 | writes the whole map back as it was read with that entry failed; the drawing stays sound exactly when the files it names are still there |
| `RenderCache.Drawing.Upload` | api/viewsets.py:10020-10071 | a new upload replaces the source, clears the render and every variant, and schedules exactly their files for deletion |
| `RenderCache.Drawing.DeleteFile` | api/cad_render.py:677-686 | a scheduled deletion takes no file the row names |
| `XlsxScan.TagAtMatches` | api/io_views.py:462 | the search at a position finds exactly the matches of the pattern |
| `XlsxScan.MatchHasOneStart` | api/io_views.py:462 | no match starts inside another |
| `XlsxScan.TagInSuffix` | api/io_views.py:492-497 | a match does not depend on the text before it |
| `XlsxScan.TagInPrefix` | api/io_views.py:492-497 | a match is decided by the 22 bytes from its start, so the 32-byte tail is enough |
| `XlsxScan.ScanBuffer` | api/io_views.py:493-513 | one buffer adds exactly the tags that start before the cut |
| `XlsxScan.CountMeans` | api/io_views.py:486-513 | a member passes exactly when it has no more texts than are left and no row more cells than allowed, a row's cells being those between two row tags |
| `XlsxScan.MembersMean` | api/io_views.py:465-516 | so do all members together |
| `XlsxScan.CheckMember` | api/io_views.py:486-516 | for every way of cutting a member into chunks, the counts and the refusal of a whole-file scan |
| `XlsxScan.CheckWorkbook` | api/io_views.py:465-516 | for every way of cutting every member, the verdict of scanning them whole: accepted exactly when the members are few and small enough, the texts of all together few enough, and no row has too many cells |
| `Capacity.OneMorePdu` | api/capacity.py:100-101 | the pruned set is always exactly the subset sums of the prefix up to half the total |
| `Capacity.BestSumIsBestSplit` | api/capacity.py:92-102 | the largest kept sum is what the best split leaves its smaller side |
| `Capacity.SmallerSide` | api/capacity.py:92-102 | the maximum over all splits of the smaller side's total: some split attains it and none beats it |
| `GifBlocks.ReadNext` | api/images.py:84-105 | one block is read as specified and the position strictly advances |
| `GifBlocks.GifExtensions` | api/images.py:79-105 | the walk over the whole file |
| `GifBlocks.BlockRead` | api/images.py:91-103 | reading an encoded block yields its extension and ends right behind it |
| `GifBlocks.WalkReadsEncoding` | api/images.py:79-105 | for every well-formed GIF exactly its extensions with their first sub-block, in order (sections 15, 18, 20 and 26 of the GIF89a specification) |
| `GifBlocks.WalkAcceptsEncodings` | api/images.py:79-105 | the files the walker gets through from a start inside them are exactly the encodings of well-formed GIFs |
| `GifBlocks.CarriesMetadata` | api/images.py:61-66 | true exactly when an extension is not plain or the walk fails |
| `GifBlocks.MetadataIsInBlocks` | api/images.py:61-76 | a well-formed GIF is judged by its extension blocks alone |
| `GifBlocks.MetadataByLabel` | api/images.py:70-76 | a well-formed GIF carries metadata exactly when it holds a comment, a plain text, a block of unknown label or an application block other than the two that hold the loop count |
| `GifBlocks.TableIsColours` | api/images.py:80-98 | a flag byte's colour table is as long as its top bit and its last three bits say |
| `WebpChunks.WebpIsLossless` | api/images.py:108-129 | the walk over the chunks and each frame's chunks |
| `WebpChunks.DigitsRead` | api/images.py:118 | a little-endian size reads back |
| `WebpChunks.ChunkRead` | api/images.py:115-120 | name, size and body of an encoded chunk are found, and the next chunk behind its padding |
| `WebpChunks.FrameRead` | api/images.py:126-128 | the walk over a frame's chunks is true exactly when one is a VP8L |
| `WebpChunks.WalkReadsEncoding` | api/images.py:108-129 | for every well-formed WebP, whatever follows it, true exactly when a VP8L chunk stands at top level or inside a frame (section 2.3 of RFC 9649) |
| `RenderLocks.RunOwned` | api/drawing_pdf.py:478-538 | in every run, whatever the clock does, an entry that has not run out is that of the render that took it |
| `RenderLocks.SoundKeeps` | api/drawing_pdf.py:478-538 | renders that hold the locks they need keep the promises |
| `RenderLocks.LateHarms` | api/drawing_pdf.py:488-538 | after any late tick the promise can be broken, without a further late tick |
| `RenderLocks.SafeExactlyOnTime` | api/drawing_pdf.py:478-538 | releases delete only their own locks, however the run goes on, exactly when no tick carries a render that is about to delete to the end of that lock; the limits hold exactly when none carries one at work or trying the slots there either |
| `RenderLocks.EveryRunIsLimited` | api/drawing_pdf.py:83-87 | on time, at most RENDER_SLOTS drawings are rendered at once and one of a user's, and no release deletes another's lock |
| `RenderLocks.RefusedForAnother` | api/drawing_pdf.py:521-524 | a user is refused only while another of their renders holds the lock, or was killed holding it |
| `RenderLocks.AllGivenBack` | api/drawing_pdf.py:535-538 | whatever the clock does, when no render is under way and none was killed, no lock is left |
| `RenderLocks.KilledLocksRunOut` | api/drawing_pdf.py:83-87 | a killed render's locks are gone once their time is over |
| `RenderLocks.LateReleaseDeletesAnothers` | api/drawing_pdf.py:488-495 | without timely release, a run in which a release deletes another's lock and one user has two renders at work |
| `Sorting.SortedKeeps` | api/bulk_import.py:224 | sorting orders the entries and keeps them all |
| `Matching.Candidates` | api/bulk_import.py:149-159 | the matches of the first lookup that has any |
| `Matching.IdNamesItsObject` | api/bulk_import.py:29-32 | an id names its own object, whatever others are called |
| `Matching.AgreesScoresZero` | api/bulk_import.py:187-222 | the exact filter keeps exactly the candidates without a mismatch |
| `Matching.ScoreCounts` | api/bulk_import.py:206-222 | a score is twice the number of fields that name something else and once the number of those that are left open |
| `Matching.OpenBeatsOther` | api/bulk_import.py:213-222 | of two objects of the same name that are alike elsewhere, the one that leaves a field open is chosen over the one that names something else |
| `Matching.FirstIsBest` | api/bulk_import.py:224-227 | the first of the sorted candidates is strictly best unless it ties with the second, and then none is |
| `Matching.Rank` | api/bulk_import.py:206-227 | the strictly best of at most 100 candidates, or none |
| `Matching.ResolveFk` | api/bulk_import.py:167-203 | one rule across all branches: the candidate with the strictly smallest mismatch score, beyond 100 candidates only an exact one, else an error |
| `Matching.ChoiceIgnoresOrder` | api/bulk_import.py:167-227 | the order of the candidates does not matter |
| `RowReferences.Resolver.Resolve` | api/io.py:349-368 | terminates on every scope graph, cyclic ones too; without cycles the result is what the cell means |
| `RowReferences.Resolver.CollectScope` | api/io.py:360-366 | the scope the row's other columns give, columns under way left out |
| `RowReferences.Resolver.ResolveAll` | api/io.py:329-372 | every column asked for is resolved to what its cell means, in any order; a problem is one some cell has |
| `RowReferences.RefCell` | api/io.py:385-414 | the readable key where it finds the object again in the row's scope, else the id |
| `RowReferences.CellFindsIt` | api/io.py:393-414 | a written cell is never "no link" and resolves to its own object |
| `RowReferences.ScopeReadsBack` | api/io.py:360-404 | the scope read from the file is the one the cell was written in |
| `RowReferences.ExportReadsBack` | api/io.py:329-414 | every cell of an exported row means the object it was written for, and an empty one none |
| `TagCells.FormatReadsBack` | api/io.py:114-119 | whatever the names hold, the written cell reads back as them (rules 5 to 7 in section 2 of RFC 4180) |
| `TagCells.ParseTagCell` | api/io.py:122-133 | the fields of the cell, cleaned |
| `TagCells.CleanedHolds` | api/io.py:128-132 | every name that is not blank is kept once, trimmed, and none is added |
| `TagCells.CleanedLeavesTidy` | api/io.py:128-132 | exactly the lists of distinct, trimmed, non-empty names are left as they are |
| `TagCells.CellReadsBack` | api/io.py:114-133 | every list comes back cleaned, and a tidy one itself |
| `ConfigContext.DeepMerge` | api/config_context.py:42-49 | the merge, in whatever order the overlay's keys come |
| `ConfigContext.MergeSays` | api/config_context.py:42-49 | the overlay's opinion on a path stands, else the base's |
| `ConfigContext.RenderedSaysTheLast` | api/config_context.py:67-80 | what is rendered at a path is the last opinion on it |
| `ConfigContext.RenderedLeaves` | api/config_context.py:67-80 | a leaf is rendered at a path exactly when it is the last opinion there |
| `ConfigContext.MergeTwice` | api/config_context.py:42-49 | merging a context again changes nothing |
| `ConfigContext.CoveredVanishes` | api/config_context.py:42-49 | a merge gives just the overlay exactly when the overlay covers the base |
| `ConfigContext.MergeRegroups` | api/config_context.py:42-49 | the grouping of three merges makes no difference exactly where no scalar in the middle clears a mapping that is refilled only in part |
| `ConfigContext.AlikeRegroups` | api/config_context.py:42-49 | it makes none when no key is a mapping in one and a scalar in the other |
| `ConfigContext.GroupingMatters` | api/config_context.py:42-49 | an input for which the grouping makes a difference |
| `ContextRender.Render` | api/config_context.py:26-80 | what shows at a path is what the heaviest context for the device that says anything there says; one that is inactive, of another tenant or shut out by its sites, roles, platforms or regions leaves no trace; the names are theirs in order |
| `ContextRender.RegionChain` | api/config_context.py:13-23 | a region and what is above it, to 50 levels |
| `ContextRender.ChainIsWhole` | api/config_context.py:13-23 | every region above is found exactly when they end within 50 levels or come round again within them |
| `ContextRender.MatchesMeans` | api/config_context.py:26-39 | a context matches exactly when no dimension it names values in shuts the device out |
| `BusinessHours.SpansOf` | api/business_hours.py:57-88 | accepts a day exactly when its spans go forward and no two overlap, and returns them sorted |
| `BusinessHours.NeighboursAreEnough` | api/business_hours.py:82-87 | once sorted, comparing neighbours decides for all pairs |
| `BusinessHours.CleanMeansFine` | api/business_hours.py:81-87 | the order in which the spans come does not matter |
| `BusinessHours.SameMinutes` | api/business_hours.py:57-88 | the stored spans have the same open minutes as the ones sent |
| `BusinessHours.Validate` | api/business_hours.py:91-114 | accepts a week exactly when every key is a weekday and every day is accepted |
| `BusinessHours.ValidatedIsStored` | api/business_hours.py:91-114 | an accepted week has sorted, disjoint, non-empty days |
| `BusinessHours.ValidateAgain` | api/business_hours.py:91-114 | a stored week is accepted and comes out as it is |
| `BusinessHours.IsOpenAt` | api/business_hours.py:117-136 | unanswerable exactly without schedule or zone or on a day that would not be accepted, else open exactly within one of the day's spans |
| `BusinessHours.Describe` | api/business_hours.py:143-179 | the runs expand to the schedule and no two of them could be one |
| `Aggregates.MakePlan` | api/aggregate_normalise.py:27-47 | exactly the rows alone in their block and not canonical are rewritten; exactly the blocks stored more than once are reported with their rows |
| `Aggregates.NoNewDuplicates` | api/aggregate_normalise.py:6-10 | a plan makes no two rows of a tenant alike that were not before |
| `Aggregates.PlanSettles` | api/aggregate_normalise.py:27-47 | once carried out, the next plan rewrites nothing and reports the same collisions |

## Left out

- Messages of validation errors, change logs, audit entries and audit summaries: presentation.
- Row locks and the network: a transaction that locks what it reads is a single step. In `RenderCache` the row is that of one
  drawing that is never deleted.
- Cabinets.Database.Run: deleting a whole cabinet is left out.
- The report of `diff_cabinet_from_type` as such: what it blocks is part of `Cabinets.Database.BuildSync`.
- JSON parsing, coordinate system and WGS84 checks of an uploaded boundary; the length of the encoded geometry is a parameter.
- Boundary.Fit: works on rings as values, with the closing in place of the first pass written out; `Boundary.SimplifyRings` models the lists themselves for one polygon.
- Rendering, sanitising and number formatting of drawings.
- SvgDocument.Write: the length of the encoded markup is a parameter, because the text of tags, fills and labels is not part
  of the model.
- Processing an uploaded drawing again: it queues the job that an upload queues.
- Time stamps that cannot be parsed, and the details kept beside a render's status.
- Reading the zip directory; a member is its declared size and the chunks its stream hands out.
- Feeds, draws and used units of a rack: floating point or easy sums.
- The branches taken when the cache is down: a render then goes ahead unguarded.
- Refusals over slots in `RenderLocks`: the slots are tried one after the other, so a refusal means only that each was held when it was tried.
- Matching.ResolveFk: keys match as equal texts; how a database compares or converts them is not part of the model.
- RowReferences.ExportReadsBack: assumes that import and export see the same objects and that keys carry no spaces around them; fields that are blank but not null and the cache of resolved cells are left out.
- Field size limits and strict mode of the csv module.
- How a database orders names: the order of config contexts of one weight is a parameter.
- Character-level clock parsing and the text of a summary: times are minutes and a summary is its runs.
- `ipaddress`: the canonical form of a prefix is a parameter that settles after one application.
- Name ranges, fiber colours, link capacity, bulk edit and delete, permissions, forms and layouts.
