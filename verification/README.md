# Verified models of the release and CI tooling

A Dafny model of the parts of the release and CI scripts on which other things rest: the ustar codec with a canonical
form, immutable evidence files, the publication plan and the publication run, registry evidence, the affected-path
planner with its plan file and evidence protocol, and four smaller cores (chunked search, edit-script prefixes,
interval merging, workflow permissions). `dafny verify dfyconfig.toml` checks all of it.

The model follows the code. Loops and in-place updates are methods (or classes) proved against a specification
function or a stated property; the laws are lemmas about those functions, over all inputs, all runs and all reachable
states. What comes from libraries or from outside the process is a parameter: file-system and registry answers, the
order in which writers are scheduled, digests, base64url text, JSON text, environment variables and the predicates on
changed paths. A digest is assumed injective, and base64url injective and colon-free, only in the lemmas that say so.

| file | models |
|---|---|
| `TarText.dfy`, `TarFormat.dfy`, `TarReader.dfy`, `TarWriter.dfy`, `TarCanonical.dfy`, `TarForms.dfy`, `TarInspection.dfy` | the ustar reader and writer (octal fields, checksum, PAX and GNU paths, prefix/name split), the laws of the canonical form, archives in every path form, and inspection |
| `ImmutableWrite.dfy` | write-temporary-then-link with any number of interleaved writers, down to hard links and inodes |
| `VersionOrder.dfy`, `ReleaseEvidence.dfy` | version comparison; expected evidence, registry observations and final evidence |
| `PublicationOrder.dfy`, `PublicationPlan.dfy` | the priority-driven topological sort and what characterises its result |
| `RetainedTarball.dfy`, `PublishPackage.dfy`, `PublicationRun.dfy` | the check of a retained tarball; one publishing call as a state machine; whole runs, cut off and restarted |
| `DependentExpansion.dfy` | the reverse-dependency closures over workspace packages and over Cargo units |
| `PlanPath.dfy`, `AffectedTask.dfy`, `AffectedPlan.dfy`, `TargetedPlan.dfy`, `PlanKeys.dfy`, `BuildTasks.dfy`, `BuildPlan.dfy` | tasks, the plan file, the targeted planner, what each planned key stands for, build selection and the appended plan |
| `AffectedEvidence.dfy` | the manifest and detached receipt, their writer and their validator |
| `ChunkedSearch.dfy`, `IntervalMerge.dfy`, `EditGrammar.dfy`, `EditBoundary.dfy`, `EditScript.dfy` | the smaller loops; edit scripts as data and their renderer |
| `WorkflowPermissions.dfy`, `PermissionPolicy.dfy` | the permission checker, and the policy it enforces |

## Where a promise needed a condition

- A tar path longer than 100 bytes is split, and the name part is decoded on its own. The text decoder drops a leading
  byte-order mark, so a split name that begins with U+FEFF does not read back. `RoundTrip` and
  `CanonicalizeIdempotent` hold if and only if no split name begins so; `BomBreaksRoundTrip` is such an archive.
- Canonicalization keeps what inspection reports if and only if dropping one such mark from every split name leaves
  safe paths, no two of them equal (`InspectionConserved`); `InspectionCanBeLost` is an archive that loses it.
- The registry holds only bytes with their record's digest as long as a retained file does not change between its
  check and its upload, which is the assumption `StableDisk` of the run theorems; `ChangedFileIsPublished` shows that
  nothing else would stop other bytes.
- Serialising a deserialised plan gives the same records if and only if every record names its directory in canonical
  form (`SerializeAfterDeserialize`). Serialised plans always do; "./a", "a/.." and a missing directory are admitted by
  the reader and come back changed (`AdmittedRecordsChange`).
- The matrix emitted for a plan equals the receipt list demanded later if and only if no native build task lacks
  declared capabilities (`MatrixMatchesReceipts`). Appended plans always meet this; a documentation-only plan meets it
  if and only if the embedded-docs gate is not in it (`DocOnlyPlanDisagrees`, and `DocsPageDisagrees` for one page).
- Evidence just written is accepted if and only if the source revision is forty hexadecimal digits and no shard has an
  empty key: the reader checks these, the writer does not (`WrittenIsAccepted`, `BranchNameIsRejected`).
- A failed evidence write leaves evidence that validates if and only if the receipt was out in full when its write
  failed and the manifest could not be removed afterwards (`FailedWriteValidates`).
- Merged intervals have no negative length, and `covered_lines` is the number of lines read, if and only if every
  reversed interval is absorbed by an earlier one (`MergeIntervals`, `CoveredLinesMeaning`); the selector ":10-5" alone
  is not (`ReversedSelectorMiscounts`).
- An empty needle is never found by the chunked search, although it occurs in every file; for non-empty needles the
  search is exact when every read before the end delivers at least one byte.

## Model

| member | source | states |
|---|---|---|
| `TarCanonical.RoundTrip` | scripts/release-evidence.ts:401-539 | For every list of well-formed entries (safe distinct paths, permitted modes, empty directory data, within limits) that can be printed, parsing the printed archive returns exactly those entries in path order, if and only if no split name begins with a byte-order mark |
| `TarInspection.BomBreaksRoundTrip` | scripts/release-evidence.ts:324-332 | A concrete well-formed, printable archive that does not read back, because its split name begins with U+FEFF |
| `TarCanonical.ReadCanonicalMember` | scripts/release-evidence.ts:401-474 | Reading one printed member, whatever follows it, yields the entry with its path as the decoder sees it, and the exact number of bytes consumed; or the unsafe-path error when that path is not safe |
| `TarCanonical.CanonicalizeIdempotent` | scripts/release-evidence.ts:541-544 | Canonicalizing a canonical archive gives the same bytes, if and only if no split name of the archive begins with a byte-order mark |
| `TarCanonical.CanonicalFormIsUnique` | scripts/release-evidence.ts:524-544 | Two accepted archives have the same canonical bytes if and only if they hold the same entries, in any order and with any path form (ustar, PAX, GNU long name) |
| `TarCanonical.PrintOrderedInjective` | scripts/release-evidence.ts:501-539 | Different lists of well-formed entries never print to the same bytes |
| `TarCanonical.CanonicalIsNoLonger` | scripts/release-evidence.ts:524-544 | The canonical archive is never longer than the archive it came from, so the same unpacked limit admits it |
| `TarInspection.PrintedParses` | scripts/release-evidence.ts:401-539 | A printed archive parses if and only if its paths, each without the byte-order mark its split name may lose, are safe and distinct, and then to the sorted entries under those paths |
| `TarInspection.InspectionConserved` | scripts/release-evidence.ts:546-562 | Canonicalization keeps what inspection reports (manifest bytes, unpacked size and file count, or the missing manifest) if and only if the archive's paths stay safe and distinct without those marks |
| `TarInspection.ReportCounts` | scripts/release-evidence.ts:546-562 | A successful inspection reports the length of all file contents put together and the number of entries that are files |
| `TarInspection.BomFreeStaysReadable` | scripts/release-evidence.ts:324-332 | Paths whose split names begin with no byte-order mark always stay so |
| `TarInspection.InspectionCanBeLost` | scripts/release-evidence.ts:542-562 | An accepted archive with a canonical form whose canonical form is rejected, so that its inspection is lost |
| `TarCanonical.DamagedHeaderRejected` | scripts/release-evidence.ts:334-339 | Changing any one byte of an accepted header outside the checksum field gives the checksum error |
| `TarReader.ParseTarEntries` | scripts/release-evidence.ts:401-474 | The one-pass loop with offset, pending path, seen paths and running totals computes the recursive reading of the stream, errors included |
| `TarForms.FormsRead` | scripts/release-evidence.ts:401-474 | An archive in which every member is laid out in any path form (ustar fields; any stack of PAX, path-free global PAX and GNU long-path extensions over any header name, the last announced path counting) is accepted with exactly those members, if and only if they are well formed and no announced path is left over at the end |
| `TarForms.RecordsRead` | scripts/release-evidence.ts:363-388 | Printed PAX records, whose lengths count themselves, read as the value of the last one that names a path |
| `TarForms.LongPathReads` | scripts/release-evidence.ts:390-398 | A GNU long-path payload reads as its path, whether a newline ends it or not and whatever follows the first NUL |
| `TarForms.GlobalPathRefused` | scripts/release-evidence.ts:441-443 | A global PAX header with a path among its records is refused |
| `TarReader.ParseSound` | scripts/release-evidence.ts:401-474 | Whatever is accepted is well formed, within limits, and has a canonical form no longer than the input |
| `TarReader.CalculateChecksum` | scripts/release-evidence.ts:334-339 | The checksum loop computes the sum of the header with the checksum field read as spaces |
| `TarFormat.ParsePaxAttributes` | scripts/release-evidence.ts:363-388 | The record loop returns the last path attribute, or the first malformed record's error |
| `TarFormat.ChecksumFits` | scripts/release-evidence.ts:501-522 | The checksum of every printable header fits in six octal digits |
| `TarText.ParseOctalOfDigits` | scripts/release-evidence.ts:315-322 | Octal digits followed by any padding of NULs and spaces read back as their value |
| `TarText.ParsedOctalIsSafe` | scripts/release-evidence.ts:315-322 | No field of at most twelve bytes can leave the safe-integer range, so that check never fires |
| `TarText.OctalTextLength` | scripts/release-evidence.ts:482-488 | A number prints in at most k octal digits if and only if it is below 8^k |
| `TarText.AsciiSplitsUtf8` | scripts/release-evidence.ts:324-332 | Text is valid UTF-8 if and only if its parts on both sides of an ASCII byte are, which is why a path cut at a slash still decodes |
| `TarWriter.SortEntriesSorts` | scripts/release-evidence.ts:524-539 | Sorting permutes the entries into byte order of their paths |
| `TarWriter.SplitPath` | scripts/release-evidence.ts:490-499 | The backward scan returns the last cut that fits both fields, and fails exactly when there is none |
| `TarWriter.WriteTarString` | scripts/release-evidence.ts:476-480 | Writes the bytes at the offset and nothing else, and fails, leaving the buffer unchanged, exactly when they are too long |
| `TarWriter.WriteTarOctal` | scripts/release-evidence.ts:482-488 | Writes a zero-padded, NUL-terminated octal field and nothing else, and fails, leaving the buffer unchanged, exactly when the value does not fit |
| `TarWriter.CanonicalTarHeader` | scripts/release-evidence.ts:501-522 | Filling a zeroed block field by field, summing it and patching in the checksum gives the header laid out as a concatenation of fields, or the error of the first field that does not fit |
| `TarWriter.CreateCanonicalTarball` | scripts/release-evidence.ts:524-539 | The writing loop produces the sorted entries' headers and padded payloads and the two terminating blocks |
| `ImmutableWrite.NeverPartial` | scripts/release-evidence.ts:876-901 | In every state of every interleaving with faults, the destination, if it exists, holds an earlier destination's bytes or the whole contents of one writer |
| `ImmutableWrite.NeverChanges` | scripts/release-evidence.ts:876-901 | Once the destination exists it keeps its bytes in every later state |
| `ImmutableWrite.OutcomesAreTrue` | scripts/release-evidence.ts:876-901 | After a writer returns success the destination holds its contents for good; after it reports a conflict the destination holds other bytes |
| `ImmutableWrite.FaultFreeWriterPublishes` | scripts/release-evidence.ts:876-901 | In every interleaving, a writer that meets no fault and whose temporary name was free ends in success or conflict: the destination exists from then on, and it is success exactly when the destination holds the writer's contents |
| `ImmutableWrite.WriterCanFinish` | scripts/release-evidence.ts:876-901 | From every reachable state every writer reaches its end by steps of its own, none of them a fault: no other writer can block it |
| `ImmutableWrite.SuccessfulWritersAgree` | scripts/release-evidence.ts:876-901 | Any two successful writers had equal contents |
| `ImmutableWrite.NoTemporaryLeft` | scripts/release-evidence.ts:898-901 | A finished writer leaves no temporary file it created, unless the removal itself failed |
| `ImmutableWrite.RunInvariant` | scripts/release-evidence.ts:876-901 | The inductive invariant that ties every name, inode and writer phase together holds in every reachable state |
| `VersionOrder.IdentifierOrder` | scripts/release-evidence.ts:164-167 | Comparing numerals by length and then by characters is comparing the integers they denote, with ties only between equal numerals |
| `VersionOrder.CompareStableVersions` | scripts/release-evidence.ts:170-181 | The component loop computes the comparison of the two versions, or the error for an unstable one |
| `VersionOrder.StableVersionsAreTotallyOrdered` | scripts/release-evidence.ts:170-181 | On stable versions the comparison is antisymmetric, transitive and zero only for equal strings |
| `ReleaseEvidence.CreateFinalEvidenceMeaning` | scripts/release-evidence.ts:769-801 | Final evidence is created if and only if the expected evidence and the digest are valid, every package was observed as expected and no other name was observed, and it is then the extension of the expected evidence |
| `ReleaseEvidence.VerifyFinalEvidence` | scripts/release-evidence.ts:803-840 | Verification accepts exactly the extension of valid expected evidence under the demanded digest |
| `ReleaseEvidence.FinalEvidenceIsDetermined` | scripts/release-evidence.ts:769-840 | Whatever creation returns is accepted by verification, is the only final evidence that is, and extends each expected record with registry fields equal to its own |
| `PublicationOrder.LexicographicallyLeast` | scripts/ci-release-publish.ts:887-921 | Any other topological order of the records leaves the computed one at a position where it takes a record declared later |
| `PublicationOrder.OrderIsPermutation` | scripts/ci-release-publish.ts:887-921 | A complete order holds exactly the declared records, each once |
| `PublicationOrder.CycleNeverPlaced` | scripts/ci-release-publish.ts:887-921 | No member of a dependency cycle is ever placed |
| `PublicationOrder.WalkFindsCycle` | scripts/ci-release-publish.ts:913-919 | A set of packages that all depend inside the set contains a cycle |
| `PublicationPlan.BuildGraph` | scripts/ci-release-publish.ts:887-899 | The in-degree map counts each record's dependencies, and the dependents map lists exactly its direct dependents |
| `PublicationPlan.ReleaseDependents` | scripts/ci-release-publish.ts:907-911 | Releasing a record's dependents keeps the counts equal to the dependencies still missing, and readies exactly those with none missing |
| `PublicationPlan.OrderRecords` | scripts/ci-release-publish.ts:901-912 | The ready-queue loop takes the available record declared first at every position, and stops only when none is available |
| `PublicationPlan.PlanExpectedEvidencePublication` | scripts/ci-release-publish.ts:847-921 | A plan is returned if and only if the records match the declarations and have no dependency cycle; the cycle error is raised exactly when they match and have one, and names exactly the packages that occur in no topological order of the records |
| `PublicationPlan.PlanIsLeastTopologicalOrder` | scripts/ci-release-publish.ts:887-921 | A plan is a permutation of the records with every dependency before its dependents, and any other such order takes a later-declared package at the first difference |
| `PublicationPlan.PlanIgnoresInputOrder` | scripts/ci-release-publish.ts:847-921 | The plan does not depend on the order in which the records are given |
| `PublishPackage.WaitUntilVisible` | scripts/ci-release-publish.ts:813-845 | The re-observation loop has the result and the events of the bounded poll |
| `PublishPackage.PublishRetainedPackage` | scripts/ci-release-publish.ts:781-845 | The retrying call has the result and the events of its specification, for every registry behaviour |
| `PublishPackage.CallAnswers` | scripts/ci-release-publish.ts:781-845 | A call returns an observation if and only if the tarball matches its record, the observation is exact at a stable version, and it is what the first look saw, what the second look saw after a failed publish, or what the first definite look within the retries saw after a publish that went through |
| `PublishPackage.ExactnessCheck` | scripts/ci-release-publish.ts:756-765 | An observation passes if and only if its bytes match the record, its latest version is the record's, and that version is stable |
| `PublishPackage.CallCounts` | scripts/ci-release-publish.ts:781-845 | For every behaviour one call publishes at most once, observes at most retries + 2 times and sleeps at most retries times |
| `PublishPackage.CallRules` | scripts/ci-release-publish.ts:781-845 | For every behaviour a publish follows a tarball that matches its record field for field and a first observation that found nothing; a result is the last observation and exact; a non-transient error ends the call at once |
| `PublishPackage.WaitsOutLag` | scripts/ci-release-publish.ts:813-845 | A package that was published and becomes visible within the retries is accepted when it is exact |
| `PublicationRun.PublishExpectedEvidencePackages` | scripts/ci-release-publish.ts:923-932 | The run is the calls for the planned packages in order, ending at the first error |
| `PublicationRun.RunReturns` | scripts/ci-release-publish.ts:923-932 | A run returns if and only if every planned call succeeds, and then one observation for each planned name and no other: the one its call accepted |
| `PublicationRun.AnsweredRunReturns` | scripts/ci-release-publish.ts:923-932 | When every planned package has an answer in the sense of `CallAnswers`, the run returns exactly these answers |
| `PublicationRun.CallIsGenuine` | scripts/ci-release-publish.ts:793-803 | When the retained file does not change between check and upload, every publish of a call sends bytes with the record's digest |
| `PublicationRun.AllRunsAreSafe` | scripts/ci-release-publish.ts:781-932 | When only this publisher writes the version and retained files do not change between check and upload, at every point of every attempt, cut off anywhere and restarted any number of times, the published packages are recorded ones, closed under internal dependencies, each with the digest of its record |
| `PublicationRun.PlannedRunsAreSafe` | scripts/ci-release-publish.ts:847-932 | The same from an empty registry for the plan that the planner returned, in terms of the expected records |
| `PublicationRun.PublishedBytesAreRetained` | scripts/ci-release-publish.ts:781-932 | With a digest free of collisions, every package in the registry holds the retained bytes, at every point of every such run |
| `PublicationRun.ChangedFileIsPublished` | scripts/ci-release-publish.ts:793-803 | If the file npm uploads has another digest than the one checked, the publish can put it into the registry: the assumption of a stable file is needed |
| `PublicationRun.CompleteRunPublishesAll` | scripts/ci-release-publish.ts:923-932 | A run that returns has published every planned package, each with the digest of its record |
| `PublicationRun.ReobserveExpectedEvidencePackages` | scripts/ci-release-publish.ts:935-947 | The final sweep succeeds if and only if every package is seen exactly as recorded, and returns those observations |
| `PublicationRun.SweepFinalizes` | scripts/ci-release-publish.ts:935-947 | Observations of a successful sweep always lead to the one final evidence that the expected evidence fixes |
| `DependentExpansion.DependsOnWorkspace` | scripts/ci-dev-affected.ts:1110-1120 | A manifest depends on a name if and only if one of the four scopes gives it a non-empty version that uses the workspace protocol or names a workspace package |
| `DependentExpansion.ExpandWithDependents` | scripts/ci-dev-affected.ts:1092-1108 | The queue loop terminates and selects exactly the names with a chain of dependencies into the touched packages; every selected package is one that was given |
| `DependentExpansion.ExpansionIsExact` | scripts/ci-dev-affected.ts:1092-1108 | With distinct names and touched packages from the workspace, the result is exactly the set of packages that reach a touched one |
| `CargoExpansion.BuildReverse` | scripts/ci-dev-affected.ts:1421-1429 | The reverse map lists for each unit exactly the ids of the packages with a path dependency on it |
| `CargoExpansion.ExpandCargoDependents` | scripts/ci-dev-affected.ts:1421-1437 | The queue loop terminates and selects exactly the units with a chain of path dependencies into the initial ones |
| `AffectedPlan.TaskMap.Add` | scripts/ci-dev-affected.ts:1056-1068 | A task is appended when its key is new, and otherwise nothing changes; the plan's invariants are kept |
| `AffectedPlan.TaskMap.EnsureNativeBuild` | scripts/ci-dev-affected.ts:1019-1024 | The native build is added exactly when some key needs the addon and no key builds it |
| `AffectedPlan.PlanTargetedTasks` | scripts/ci-dev-affected.ts:808-938 | The plan has distinct keys, and holds exactly the keys its paths ask for, each path on its own, plus a producer when one is needed |
| `PlanKeys.PlanKeysExactly` | scripts/ci-dev-affected.ts:808-938 | A key is in a targeted plan if and only if some changed path asks for it (a table of keys against properties of the path), the whole workspace does, it is the gate of changed embedded docs, or it is the native build and a wanted key needs the addon |
| `PlanKeys.SinglePathPlanned` | scripts/ci-dev-affected.ts:835-933 | A key with a fixed text outside the whole-workspace set is planned if and only if some changed path asks for it |
| `PlanKeys.RustPlanned` | scripts/ci-dev-affected.ts:835-855 | Rust checks and tests are planned if and only if a Rust path changed that is no documentation, full-workspace, workflow or CI-harness path |
| `PlanKeys.CheckPlanned` | scripts/ci-dev-affected.ts:870-905 | The check of a package is planned if and only if a source path it owns changed that has no test of its own or belongs to the bridge client |
| `PlanKeys.TestPlanned` | scripts/ci-dev-affected.ts:808-938 | A test is planned if and only if a path maps to it, the whole workspace changed and it is a package's test or one of its shards, or it is the docs gate and embedded docs changed |
| `PlanKeys.RootPlanned` | scripts/ci-dev-affected.ts:808-938 | The root check is planned if and only if the whole workspace changed or code without an owner and a test did; the release tests if and only if the whole workspace changed |
| `PlanKeys.NativePlanned` | scripts/ci-dev-affected.ts:829-935 | The native build is planned if and only if the whole workspace changed or a planned key needs the addon |
| `TargetedPlan.ProducerIffConsumer` | scripts/ci-dev-affected.ts:808-938 | A targeted plan contains a native producer if and only if it contains a native consumer |
| `TargetedPlan.PlanGrows` | scripts/ci-dev-affected.ts:808-938 | Touching more paths, in any order, never drops a task from the targeted plan |
| `AffectedTask.PlanRoundTrip` | scripts/ci-dev-affected.ts:1493-1516 | A plan loads from its own file if and only if its resolved directories are admitted, its identities are not empty and neither keys nor identities repeat; it then re-serialises to the same records |
| `PlanPath.CanonicalIff` | scripts/ci-dev-affected.ts:1495 | Resolving a directory text against the root and writing it relative to the root gives a canonical text, and changes a text exactly when it was not canonical |
| `AffectedTask.SerializeAfterDeserialize` | scripts/ci-dev-affected.ts:1909-1933 | Serialising what was deserialised gives back the same records if and only if every record names its directory in canonical form |
| `AffectedTask.AdmittedRecordsChange` | scripts/ci-dev-affected.ts:1909-1933 | Records with the directory "./a", "a/.." or none are admitted and come back as "a", "." and "." |
| `AffectedTask.MatrixMatchesReceipts` | scripts/ci-dev-affected.ts:479-484 | For a plan that loads, the emitted matrix is entry for entry the receipt list demanded from the loaded plan, if and only if no native build task lacks declared capabilities |
| `BuildPlan.AppendedShards` | scripts/ci-dev-affected.ts:479-484 | The tasks of an appended plan that run as shards are exactly the planner tasks that are neither native builds nor Python tasks, the TypeScript units that produce no addon, and all Cargo tasks |
| `AffectedTask.FlagsAgree` | scripts/ci-dev-affected.ts:1604-1610 | has_native and has_python always equal what validation derives from the loaded plan; has_tasks does up to native build tasks without declared capabilities |
| `BuildTasks.SelectTsBuildUnits` | scripts/ci-dev-affected.ts:1321-1327 | The units built are exactly those whose package reaches a touched one, or those of all workspace packages on fallback |
| `BuildTasks.SelectCargoUnits` | scripts/ci-dev-affected.ts:1342-1358 | The crates built are none without a Rust change, all on fallback, and otherwise exactly those that reach a changed one; only drifted metadata fails |
| `BuildTasks.RequiresCargoWorkspaceEmergency` | scripts/ci-dev-affected.ts:1375-1382 | The counting loop answers whether a selected crate's name occurs more than once among the supported ones |
| `BuildTasks.SelectCargoBuildTasks` | scripts/ci-dev-affected.ts:1342-1373 | The tasks stand for exactly the selected crates, or for the whole workspace when a name is ambiguous; for a valid inventory the missing-emergency error never occurs |
| `BuildPlan.AppendedPlanIsCovered` | scripts/ci-dev-affected.ts:1308-1320 | An appended plan has a producer exactly when one was found necessary, and whenever it has a consumer |
| `BuildPlan.AddonSourceBringsProducer` | scripts/ci-dev-affected.ts:1314-1317 | Building the crate behind the addon, or the whole Cargo workspace, brings the native producer into the plan |
| `BuildPlan.AppendedPlanIsDistinct` | scripts/ci-dev-affected.ts:1308-1340 | No key and no identity repeats in an appended plan, so it has at most one native-linux-x64 task |
| `BuildPlan.AppendedPlanAgrees` | scripts/ci-dev-affected.ts:1308-1320 | Every appended plan loads from its own file, re-serialises to the same records, demands exactly the shards it emitted, and agrees with validation on all three flags |
| `BuildPlan.ResolvePlannedTasks` | scripts/ci-dev-affected.ts:274-285 | The pull-request plan from end to end: whatever the paths, packages, inventory and metadata, a native consumer comes with a producer, no task asked for is dropped, and a plan that is not documentation-only agrees with the plan file, the demanded shards and the flags |
| `BuildPlan.DocOnlyPlanDisagrees` | scripts/ci-dev-affected.ts:273-285 | A documentation-only plan demands the shards it emitted if and only if the embedded-docs gate is not in it |
| `BuildPlan.DocsPageDisagrees` | scripts/ci-dev-affected.ts:273-285 | The plan for one changed docs page loads, and demands other shards than it emitted |
| `AffectedEvidence.Staging.CollectChildEvidence` | scripts/ci-dev-affected.ts:1785-1807 | Succeeds if and only if the shard directory matches the plan, and returns the digests of the plan and of every receipt in order |
| `AffectedEvidence.Staging.WriteAffectedEvidence` | scripts/ci-dev-affected.ts:1808-1830 | Writes exactly the manifest and the receipt that bind the plan, the receipts and the environment; changes nothing when it may not write; after a failed write, read or removal leaves exactly what those steps left |
| `AffectedEvidence.WritersSawSuccess` | scripts/ci-dev-affected.ts:1538-1556 | Evidence can be written only when the planner succeeded, native build, shards and Python jobs succeeded or were skipped exactly as the plan's tasks demand, and every required platform job succeeded while every other was skipped |
| `AffectedEvidence.FailedWriteValidates` | scripts/ci-dev-affected.ts:1821-1830 | What a failed write leaves validates if and only if the receipt was out in full and the manifest could not be removed, and then only as the evidence of that same well-formed run |
| `AffectedEvidence.Staging.ValidateAffectedEvidence` | scripts/ci-dev-affected.ts:1831-1852 | Accepts exactly when manifest and receipt parse, the digest matches, and every field agrees with the plan, the receipts and the environment |
| `AffectedEvidence.AcceptsIffRewritten` | scripts/ci-dev-affected.ts:1808-1852 | Evidence is accepted if and only if both files are byte for byte what would be written now, and are well formed |
| `AffectedEvidence.WrittenIsAccepted` | scripts/ci-dev-affected.ts:1808-1852 | Evidence just written is accepted in the same environment if and only if the source revision is forty hexadecimal digits and no shard key is empty |
| `AffectedEvidence.BranchNameIsRejected` | scripts/ci-dev-affected.ts:1808-1852 | Any run that can write still can with a branch name for its source revision, and what it then writes is accepted in no environment |
| `AffectedEvidence.AnyChangeIsRejected` | scripts/ci-dev-affected.ts:1831-1852 | While the receipt is the written one, evidence is accepted if and only if manifest, plan, shard receipts, replay scope, source, digest, mode and aggregate are all unchanged |
| `ChunkedSearch.FileContainsBytes` | scripts/dev-link.ts:167-192 | For every chunk size and every sequence of short reads the search with carried-over bytes finds a non-empty needle if and only if it occurs in the file |
| `ChunkedSearch.SearchChunk` | scripts/dev-link.ts:177-185 | One turn decides every occurrence inside the window and carries exactly the last needle-minus-one bytes over |
| `ChunkedSearch.WindowDecides` | scripts/dev-link.ts:177-185 | A window that reaches needle-minus-one bytes back decides every occurrence that ends inside it |
| `EditBoundary.ParseEditBoundary` | scripts/session-stats/harmony_backtest.py:422-523 | The line loop computes the fold of the line steps over the lines of the text |
| `EditScript.RenderParses` | scripts/session-stats/harmony_backtest.py:422-523 | Every rendered script parses to its very end, and each section comes back with its target, its number of operations, its number of payload lines and the sum of the lengths of its ranges |
| `EditBoundary.PrefixStability` | scripts/session-stats/harmony_backtest.py:422-523 | Re-parsing the accepted prefix accepts it with the same end, sections, payload and deleted-line counts, and with one operation less exactly when an insert had no payload |
| `EditGrammar.SpansPrefix` | scripts/session-stats/harmony_backtest.py:292-304 | Cutting a text at the end of a line leaves exactly the lines before the cut |
| `EditGrammar.RangeOfAnchors` | scripts/session-stats/harmony_backtest.py:408-419 | A single anchor deletes one line, and a range of two anchors the lines from one to the other, never fewer than one |
| `IntervalMerge.MergeIntervals` | scripts/session-stats/analyze_selector_reads.py:111-123 | The merged list covers exactly the same lines with a gap between neighbours, for all inputs; it has no negative length if and only if every reversed input is absorbed by an earlier one |
| `IntervalMerge.CoveredLinesMeaning` | scripts/session-stats/analyze_selector_reads.py:206-207 | The summed length is the number of distinct lines read, if and only if every reversed input is absorbed |
| `IntervalMerge.CoverageStatistics` | scripts/session-stats/analyze_selector_reads.py:206-214 | Whenever reversed intervals are absorbed, the gap count is the number of unread lines of the bounding box, and the extra count the number of lines read outside the initial interval, raised by the swapped span of a reversed initial interval |
| `IntervalMerge.ReversedSelectorMiscounts` | scripts/session-stats/analyze_selector_reads.py:53-80 | The single interval of the selector ":10-5" reads no line, and its covered count is negative |
| `WorkflowPermissions.EvaluateWorkflowPermissions` | scripts/check-workflow-permissions.ts:212-220 | The evaluation loop over a shared list of violations reports what the checks of each workflow report, in order |
| `WorkflowPermissions.Report.EvaluateScopeMapping` | scripts/check-workflow-permissions.ts:102-138 | Appends exactly one diagnostic for each scope that fails its check |
| `WorkflowPermissions.Report.EvaluateWorkflowDefault` | scripts/check-workflow-permissions.ts:140-178 | Appends the diagnostics of the workflow default, the exact-contents pass seeing everything reported before it |
| `WorkflowPermissions.Report.EvaluateJobPermissions` | scripts/check-workflow-permissions.ts:180-210 | Appends the diagnostics of the jobs |
| `PermissionPolicy.ReportsExactlyTheBreaches` | scripts/check-workflow-permissions.ts:102-220 | The checker reports a place of a workflow if and only if that workflow breaks the policy at that place |
| `PermissionPolicy.NoViolationsMeansPolicy` | scripts/check-workflow-permissions.ts:212-220 | There is nothing to report if and only if every workflow and every job meets the policy |
| `PermissionPolicy.OnlyPublishWrites` | scripts/check-workflow-permissions.ts:23-25 | Where nothing is reported under the repository's own policy, every job runs with permissions that are written down, and they grant write access, by a scope, by write-all or inherited from the workflow, only to the publish job of ci.yml for contents |
| `PermissionPolicy.RequiredDefaultIsExact` | scripts/check-workflow-permissions.ts:27-31 | On a required workflow the only default that breaks nothing is the single entry contents: read |
| `PermissionPolicy.OneDiagnosticPerPath` | scripts/check-workflow-permissions.ts:98-100 | For distinct workflow files and dot-free job names no two diagnostics share a workflow and a rendered path |

## Left out

- gzip and the compressed-size limit: the tar stream is modelled with gzip as the identity.
- SHA-256, SHA-512, base64url and JSON text: parameters, injective only where a lemma says so.
- Symbolic links, directories in place of files and path escapes in the evidence staging root: every name is a regular file or absent.
- Order by `localeCompare` of selected packages and build units: build tasks keep the inventory's order; no stated property depends on it.
- Directory texts in a plan that leave the repository and come back into it by its own name: the plan reader refuses "../".
- The path predicates of the affected planner, the test index and owning-package lookup: fields of `PathInfo`.
- `planTasks`, the planner for pushes, and `planFullTasks`: they build their plans only through `TaskMap.Add`, and the laws of the appended plan hold for every plan built so. On its own the push planner can plan a root check with no producer, so the native invariant is not stated for its bare output.
- The check of one matrix shard's environment against the loaded plan, and the canonical-path check of the plan file: part of reading the plan.
- Building the Cargo package-id map and its drift errors: the metadata is unusable, drifted or usable.
- The legacy unified-diff form accepted by the edit parser: prefix stability is about the current grammar.
- Texts of permission diagnostics: a violation carries the value found and the kind of value expected.
- Integer-like keys of JavaScript objects, which enumerate first: mappings keep their given order, on which no stated property depends.
- `AffectedPlan.TaskMap.AddShard` and the other `Add…` helpers: descriptions and commands are set as in the source, and nothing is stated about them.
- The command line, network, git, npm and cargo calls of all scripts.
