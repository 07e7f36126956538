# Inflater annotation-processor session, in Dafny

This project models the session of the `inflater` annotation processor.
The session is the state the processor keeps across compiler rounds:

- **Discovery.** Every element annotated with `@CreateInflater` is searched for a resource class: a class whose simple name is `R`. Each one not seen before is added to the set of pending units.
- **A round.** When something was annotated and the Android resource directory is unknown, the round stops with an error on the first annotated element. Otherwise every pending unit goes through the layout processor, and the result decides what happens to the unit:
  - COMPLETE moves it to the completed set;
  - ERROR reports the result's error;
  - PARTIAL leaves it pending.
- **The resource directory.** It comes from the `resourceDir` processor option. When the option is missing, a mandatory warning is given and a guess is made; the guess is not implemented and finds nothing. The directory is cached, and an unknown directory is looked up again on the next request.
- **Manifest-finder strategies.** Four strategies locate `AndroidManifest.xml` from a source folder:
  - Gradle, Maven and Eclipse recognise the build tool's generated-sources folder by a regular expression. Each then tries fixed locations under the folder's prefix.
  - Blind applies to every source folder. It searches the folder and its parents, walking at most four levels down in each, for at most ten folders. After those ten walks it still checks the tenth parent's own `AndroidManifest.xml`.
- **The probe URI.** The URI of a probe file is normalised to a `file://` URI.

Files and modules:

- `wrappers.dfy`: `Option`.
- `elements.dfy`: the compiler's program elements and the resource-class unit `Resources`.
- `round.dfy`: `Round.java`. This is the result of processing one unit; the layout processor always reports ERROR.
- `session.dfy`: `Session.java` without the strategies.
  - Pure functions state what discovery and a round do to the two sets.
  - The class `Session` does the same step by step and is proved against them.
  - Every diagnostic the session sends is recorded in a ghost log.
- `manifest_finder.dfy`: the Gradle, Maven and Eclipse strategies. The regular expressions are written out as string functions.
- `blind_finder.dfy`: the Blind strategy, as a class over an abstract, finite filesystem. The library's bounded tree walk is written out as the functions `VisitAt` and `VisitEntries`.

Modelling choices:

- **Units are compared by canonical name.** A resource class unit is identified by its class's canonical name.
- **The layout processor is a parameter.** Rounds are proved for any processor. The processor as it stands is `Round.ProcessLayouts`, which always answers ERROR with neither message nor element.
- **Pending units are processed in an unfixed order.** The hash set does not fix the order, so the model picks units one at a time from a snapshot of the set. A ghost sequence records the order taken.
- **Three places in `Session.java` are defective as written.** Each is modelled as its evident intent:
  - The constructor calls `getConfiguredResourceDir(environment)`, but the method takes no argument, so this does not compile. The model calls the method as declared.
  - `painfullyGuessManifestPath` has no return statement, so it does not compile either. It is not modelled (see below).
  - The Blind strategy passes a null pattern to its superclass. That compiles, but the superclass constructor calls `matcher` on it and throws a `NullPointerException` at run time. The model's Blind strategy has no pattern and overrides everything that would use one.

## Model

| member | source | states |
|---|---|---|
| Round.ResultOf | processor/src/main/java/net/sf/inflater/processor/internal/Round.java:24-28 | A result built from a state alone keeps that state and has neither error element nor error message. |
| Round.ResultWith | processor/src/main/java/net/sf/inflater/processor/internal/Round.java:30-34 | A result built from a state, an element and a message keeps all three. |
| Round.ProcessLayouts | processor/src/main/java/net/sf/inflater/processor/internal/Round.java:14-16 | Processing any unit reports ERROR with neither element nor message. |
| Sessions.ClassNameTest | processor/src/main/java/net/sf/inflater/processor/internal/Session.java:116-128 | A unit is returned exactly when the type is a class named R and its unit is neither pending nor completed. A returned unit is the type's own and is added to pending. Otherwise the sets do not change. |
| Sessions.QualifyingUnitsSnoc | processor/src/main/java/net/sf/inflater/processor/internal/Session.java:112-140 | One more type adds its unit to the qualifying units exactly when it is a resource class. |
| Sessions.Scan | processor/src/main/java/net/sf/inflater/processor/internal/Session.java:131-139 | Each of an element's types is tested in order, with the sets carried from one test to the next. The unit handed to every visit is none, as the scanner passes on the search's own null argument. Pending grows by exactly the resource classes among the types that are not completed, and completed does not change. A unit is returned exactly when the last type is a resource class that is not tracked and does not occur earlier in the types; it is then the last type's unit, newly pending. |
| Sessions.ScanOfTrackedIsNoOp | processor/src/main/java/net/sf/inflater/processor/internal/Session.java:116-128 | When every resource class among the types is already tracked, the search changes nothing and returns nothing. |
| Sessions.RescanIsIdempotent | processor/src/main/java/net/sf/inflater/processor/internal/Session.java:112-140 | Searching the same types a second time changes nothing and finds nothing. |
| Sessions.Discover | processor/src/main/java/net/sf/inflater/processor/internal/Session.java:76-81 | After discovery on the annotated elements, a unit is pending iff it was pending, or is a resource class of an annotated element and not completed. Completed does not change. |
| Sessions.DiscoverSnoc | processor/src/main/java/net/sf/inflater/processor/internal/Session.java:77-81 | Discovery on one more annotated element is the search over that element's types, starting from the sets discovery left. |
| Sessions.CompletedByAdd | processor/src/main/java/net/sf/inflater/processor/internal/Session.java:98-100 | One more processed unit adds itself to the completed ones exactly when its result is COMPLETE. |
| Sessions.Reclassify | processor/src/main/java/net/sf/inflater/processor/internal/Session.java:91-104 | After a round, a unit is pending iff it was pending and did not complete. It is completed iff it was completed, or was pending and completed. |
| Sessions.FailFastIteration | processor/src/main/java/net/sf/inflater/processor/internal/Session.java:91-104 | The loop as written either processes every unit in iteration order or throws part-way. It processes them all iff no unit but the last one iterated completes. |
| Sessions.FailFastIterationCounterexample | processor/src/main/java/net/sf/inflater/processor/internal/Session.java:91-104 | With two pending units where the first one iterated completes, the loop as written throws before processing the second. |
| Sessions.RoundErrorsSnoc | processor/src/main/java/net/sf/inflater/processor/internal/Session.java:94-97 | Processing one more unit appends exactly that unit's error report, if its result is ERROR. |
| Sessions.RoundSpec | processor/src/main/java/net/sf/inflater/processor/internal/Session.java:73-105 | A round stops iff something was annotated and the resource directory is unknown. A stopped round gives the exception's reason and keeps exactly what discovery found. A round that is not stopped adds to completed only units whose result is COMPLETE. |
| Sessions.RoundKeepsPartition | processor/src/main/java/net/sf/inflater/processor/internal/Session.java:73-105 | A round, stopped or not, keeps pending and completed disjoint and never removes a completed unit. Every unit pending before the round is pending or completed after it. |
| Sessions.RoundsKeepPartition | processor/src/main/java/net/sf/inflater/processor/internal/Session.java:45-46 | Over any sequence of rounds, the two sets stay disjoint and completed units stay completed. |
| Sessions.StubRoundCompletesNothing | processor/src/main/java/net/sf/inflater/processor/internal/Round.java:14-16 | With the layout processor as it stands, the reclassification step of a round changes neither set. |
| Sessions.StubRoundReportsEveryUnit | processor/src/main/java/net/sf/inflater/processor/internal/Session.java:94-97 | With the layout processor as it stands, each unit processed yields exactly one ERROR report, with neither message nor element. |
| Sessions.PainfullyGuessResourceDir | processor/src/main/java/net/sf/inflater/processor/internal/Session.java:167-169 | The guess of the resource directory finds nothing. |
| Sessions.ConfiguredResourceDir | processor/src/main/java/net/sf/inflater/processor/internal/Session.java:154-169 | A directory is found exactly when the options exist and give a value for `resourceDir`. It is then that value. |
| Sessions.NormaliseProbeUri | processor/src/main/java/net/sf/inflater/processor/internal/Session.java:205-212 | The result always starts with `file://`. A URI that already does is unchanged. A `file:` URI without the slashes gets them. Any other URI is kept whole after the new prefix. |
| Sessions.NormaliseProbeUriIdempotent | processor/src/main/java/net/sf/inflater/processor/internal/Session.java:205-212 | Normalising twice gives the same URI as normalising once. |
| Sessions.Session.constructor | processor/src/main/java/net/sf/inflater/processor/internal/Session.java:51-55 | A new session has both sets empty and the configured resource directory. It has sent the guessing notice iff the option is missing. |
| Sessions.Session.Notice | processor/src/main/java/net/sf/inflater/processor/internal/Session.java:57-59 | Sends exactly one mandatory warning with the message. |
| Sessions.Session.ErrorOut | processor/src/main/java/net/sf/inflater/processor/internal/Session.java:69-71 | Sends exactly one error with the message and the element. |
| Sessions.Session.VisitTypeAsClass | processor/src/main/java/net/sf/inflater/processor/internal/Session.java:116-128 | Changes pending and returns the unit exactly as `ClassNameTest` does. |
| Sessions.Session.FindSomeNewResourceClass | processor/src/main/java/net/sf/inflater/processor/internal/Session.java:112-140 | Leaves pending and returns the unit exactly as `Scan` says. Pending grows by exactly the element's resource classes that are not completed. The unit returned is the last top-level type's own, when that type is a new resource class. |
| Sessions.Session.ProcessRoundTargets | processor/src/main/java/net/sf/inflater/processor/internal/Session.java:73-105 | Leaves the sets and the outcome as `RoundSpec` says, keeping them disjoint. A stopped round sends exactly one error, on the first annotated element. Otherwise each unit pending after discovery is processed exactly once, and its ERROR results are reported in that order. |
| Sessions.Session.ReclassifyPending | processor/src/main/java/net/sf/inflater/processor/internal/Session.java:91-104 | Processes each pending unit exactly once, in some order. Leaves the sets as `Reclassify` says and reports each ERROR result in the order processed. |
| Sessions.Session.ReclassifyUnit | processor/src/main/java/net/sf/inflater/processor/internal/Session.java:92-103 | One unit: a COMPLETE result moves it from pending to completed, any other result leaves both sets alone, and only an ERROR result is reported, with its message and element. |
| Sessions.Session.GetConfiguredResourceDir | processor/src/main/java/net/sf/inflater/processor/internal/Session.java:154-165 | Returns the configured directory. Sends the guessing notice exactly when the option is missing. |
| Sessions.Session.GetResourceDir | processor/src/main/java/net/sf/inflater/processor/internal/Session.java:146-152 | A known directory is returned unchanged and nothing is sent. An unknown one is looked up again, and the result is both cached and returned. |
| ManifestFinders.FirstMarker | processor/src/main/java/net/sf/inflater/processor/internal/Session.java:340 | Finds the first position from which the marker occurs (the reluctant `(.*?)`), or reports that none exists. |
| ManifestFinders.MatchPath | processor/src/main/java/net/sf/inflater/processor/internal/Session.java:340-370 | A strategy's pattern matches exactly when the path has no line terminator and contains the marker, with either separator where the marker has a `/`. The match splits the path at the first occurrence of the marker. |
| ManifestFinders.Applies | processor/src/main/java/net/sf/inflater/processor/internal/Session.java:248-250 | A strategy applies iff the source folder has no line terminator and contains the strategy's marker. |
| ManifestFinders.MatchPathSplitsAtMarker | processor/src/main/java/net/sf/inflater/processor/internal/Session.java:340-370 | Joining an anchor, the marker and a tail gives back exactly that anchor and tail, when the marker does not occur earlier in the joined path. |
| ManifestFinders.PossibleLocations | processor/src/main/java/net/sf/inflater/processor/internal/Session.java:346-379 | Gradle tries two locations, each ending in the variant. Maven and Eclipse try the anchor itself last; Eclipse tries only the anchor itself. |
| ManifestFinders.FirstExisting | processor/src/main/java/net/sf/inflater/processor/internal/Session.java:238-246 | A file is found exactly when some location's manifest exists. It is the manifest of the first such location. |
| ManifestFinders.FindAndroidManifestFile | processor/src/main/java/net/sf/inflater/processor/internal/Session.java:238-246 | Returns the first existing manifest among the strategy's locations under the matched anchor, or none. |
| ManifestFinders.GradlePrefersIntermediateManifest | processor/src/main/java/net/sf/inflater/processor/internal/Session.java:346-351 | A Gradle generated-sources folder applies. When the intermediate manifest of its variant exists, that manifest is returned, whatever else exists. |
| BlindFinder.VisitAt | processor/src/main/java/net/sf/inflater/processor/internal/Session.java:304-320 | A file the walk of an entry stops at exists, has the manifest's name ignoring case, and lies under the entry, no deeper than the depth left. |
| BlindFinder.VisitEntries | processor/src/main/java/net/sf/inflater/processor/internal/Session.java:304-320 | A file the walk of a folder's entries stops at exists, has the manifest's name, lies under one of those entries, and is no deeper than the depth left. |
| BlindFinder.TestedIsWithinDepth | processor/src/main/java/net/sf/inflater/processor/internal/Session.java:304-320 | Every file the walk tests exists and lies under the start, at most four levels below it. |
| BlindFinder.WalkFindsTestedMatch | processor/src/main/java/net/sf/inflater/processor/internal/Session.java:304-314 | A file the walk stops at was tested and is named `AndroidManifest.xml`, ignoring case. |
| BlindFinder.EntriesFindTestedMatch | processor/src/main/java/net/sf/inflater/processor/internal/Session.java:304-320 | A file the walk of a folder's entries stops at lies under one of those entries, was tested and has the manifest's name. |
| BlindFinder.WalkMissesNothing | processor/src/main/java/net/sf/inflater/processor/internal/Session.java:304-320 | A walk that ends normally has tested no file with the manifest's name. |
| BlindFinder.EntriesAllContinue | processor/src/main/java/net/sf/inflater/processor/internal/Session.java:304-320 | A walk of a folder's entries that ends normally has walked every entry, each ending normally. |
| BlindFinder.WalkCharacterised | processor/src/main/java/net/sf/inflater/processor/internal/Session.java:304-320 | A walk that does not fail finds a file iff some tested file has the manifest's name. What it finds exists, has that name, and lies at most four levels below the start. |
| BlindFinder.AscendSound | processor/src/main/java/net/sf/inflater/processor/internal/Session.java:270-299 | From a fresh strategy, an existing result has the manifest's name. It lies at most four levels below the source folder or one of its first ten ancestors. From the tenth ancestor only that folder's own manifest is taken. |
| BlindFinder.SearchStep | processor/src/main/java/net/sf/inflater/processor/internal/Session.java:303-325 | The search inside a folder fails iff its walk fails, and a failed search changes nothing. Otherwise the folder counts as searched and the result is the found file. A found file that differs from the earlier one is a hit of this walk: it exists, has the manifest's name, and lies at most four levels below the folder. |
| BlindFinder.Ascend | processor/src/main/java/net/sf/inflater/processor/internal/Session.java:273-297 | Searched folders stay searched and a found file stays found. A candidate has the manifest's name, unless it is the file found by an earlier search. |
| BlindFinder.BlindSearch | processor/src/main/java/net/sf/inflater/processor/internal/Session.java:270-299 | What the search returns exists and has the manifest's name, unless it is the file found by an earlier search. Searched folders stay searched and a found file stays found. Which file a fresh search returns is `BlindSearchReturnsDecided`. |
| BlindFinder.AncestorShift | processor/src/main/java/net/sf/inflater/processor/internal/Session.java:282-285 | Going up one folder renumbers the ancestors and adds the folder just left to the searched ones. |
| BlindFinder.AscendReturnsFirstHit | processor/src/main/java/net/sf/inflater/processor/internal/Session.java:278-298 | From a fresh strategy, an existing result comes from the first folder on the way up that is not passed over. It is that folder's own manifest or its walk's hit, and every folder below it had no manifest of its own and a walk that ended normally. So a failed walk or a hit ends the search at that folder. |
| BlindFinder.AscendNoneMeansNothingThere | processor/src/main/java/net/sf/inflater/processor/internal/Session.java:278-298 | A search that returns nothing at all has reached the filesystem root within its ten folders. None of those folders has a manifest of its own, and no file their walks tested has the manifest's name. |
| BlindFinder.AscendReturnsDecided | processor/src/main/java/net/sf/inflater/processor/internal/Session.java:278-298 | The converse of `AscendReturnsFirstHit`. From a fresh strategy, once every folder below is passed over, the next folder decides. Its own manifest is returned when it exists or no folder is left to walk. Otherwise a failed walk returns that manifest, a hit is returned, and a hitless walk of the root returns nothing. |
| BlindFinder.FirstNotPassedOver | processor/src/main/java/net/sf/inflater/processor/internal/Session.java:278-288 | Every search has a deciding folder: the first one, within ten and at most the root, that is not passed over. Every folder below it is passed over. |
| BlindFinder.BlindSearchReturnsDecided | processor/src/main/java/net/sf/inflater/processor/internal/Session.java:278-298 | From a fresh strategy, the deciding folder fixes the result. Its own manifest is returned when it exists, including the tenth parent's. Otherwise the result is nothing when it is the tenth parent or its walk fails. It is the walk's hit when there is one, and nothing when it is the root and the walk finds nothing. |
| BlindFinder.FailedWalkGivesNone | processor/src/main/java/net/sf/inflater/processor/internal/Session.java:289-298 | When the source folder has no manifest of its own and its walk fails with an I/O error, the search returns nothing and changes no state. |
| BlindFinder.FirstWalkHitReturned | processor/src/main/java/net/sf/inflater/processor/internal/Session.java:279-280 | When the source folder has no manifest of its own and its walk hits a file, that file is returned, becomes the found file, and the folder counts as searched. |
| BlindFinder.DirectManifestWins | processor/src/main/java/net/sf/inflater/processor/internal/Session.java:273-280 | When the source folder's own manifest exists, the search returns it and changes nothing. |
| BlindFinder.BlindManifestFinderStrategy.constructor | processor/src/main/java/net/sf/inflater/processor/internal/Session.java:263-267 | A new strategy is named Blind, remembers the source folder, has searched nothing and found nothing. |
| BlindFinder.BlindManifestFinderStrategy.SearchInside | processor/src/main/java/net/sf/inflater/processor/internal/Session.java:303-325 | Walks one folder as `SearchStep` says. A failed walk changes nothing. Otherwise a hit becomes the found file, the folder counts as searched, and the found file is returned. |
| BlindFinder.BlindManifestFinderStrategy.FindAndroidManifestFile | processor/src/main/java/net/sf/inflater/processor/internal/Session.java:270-299 | Returns, and leaves the strategy's state, as `BlindSearch` says: `Ascend` from the source folder for ten folders, then a final existence check. |

## Left out

- `InflaterProcessor`, `CreateInflater`, `StubbornSearcher`, `StubbornTypeTester` and `Utils` are not part of this model. `Candidates` stands for the searcher's dispatch: it tests a package's top-level types, or a type itself. Other element kinds are not represented, because they are never annotated: `@CreateInflater` targets packages only.
- `painfullyGuessManifestPath` and `painfullyGuessSourcesDir` are not modelled. The first does not compile. The second probes the compiler's `Filer` with a random file name, which is I/O and randomness. This includes its inverted delete check, which warns when deleting the probe succeeds. Only the URI normalisation inside it is modelled, as `NormaliseProbeUri`.
- `provideFiler`, `log` and `warn` are not modelled. They forward to the compiler and are used only by the code left out above.
- The compiler's message sink is the ghost `diagnostics` log. Nothing is printed.
- `Round` keeps a reference to its session, which it never uses; the model has no such reference.
- `IllegalArgumentException` when the resource directory is unknown is the outcome `Aborted`, with the exception's message.
- Sessions.Session.ReclassifyPending: iterates a snapshot of the pending set, so it does not reproduce the `ConcurrentModificationException` of the loop as written (see Findings).
- Paths in the pattern strategies are strings, and `File(parent, child)` is kept as the pair it is built from. File existence is a parameter. Path normalisation by `java.io.File` is not modelled.
- The regular-expression match is stated for the three fixed patterns only. A `Matcher`'s internal state is not modelled; a strategy that does not apply is never asked for its locations.
- BlindFinder.WalkCharacterised: the filesystem is a finite tree of absolute paths, so symbolic links, cycle detection under `FOLLOW_LINKS`, and relative source folders are not modelled. An entry listed but missing makes the walk fail with an I/O error, as the library reports it. So does a folder that cannot be listed, when it lies above the depth bound; at the bound it is tested by its name, like a file.
- BlindFinder.AscendSound: stated for a strategy that has found nothing yet, like `AscendReturnsFirstHit`. A later search may return the file an earlier search found; `Ascend` and `BlindSearch` state only that the found file persists and may be returned again.
- Case-insensitive name comparison covers ASCII case folding plus the four non-ASCII letters that fold to ASCII letters. Other Unicode case rules are irrelevant to the ASCII name searched for.
- No chain of strategies is written, since the source never composes them.

## Findings

| source | as written | input that shows it | evidently intended | confidence | as-written member | corrected member |
|---|---|---|---|---|---|---|
| processor/src/main/java/net/sf/inflater/processor/internal/Session.java:91-100 | The loop iterates the pending `HashSet` itself and removes each COMPLETE unit from it, so the fail-fast iterator throws `ConcurrentModificationException` on the next step. | Two pending units, where the first one iterated yields COMPLETE. Latent today, because `processLayouts` always yields ERROR. | Every pending unit is processed once and reclassified by its result. | not executed; high for the iterator's documented fail-fast behaviour | Sessions.FailFastIterationCounterexample | Sessions.Session.ReclassifyPending |
