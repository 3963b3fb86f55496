# SAIPEN tooling, modelled and verified

SAIPEN is a project protocol whose tools decide when work is fresh, install and remove files in
places that belong to other people, and keep inventories honest. This project models the parts of
those tools that are algorithms with state, and proves what they are for.

| component | source | modules |
|---|---|---|
| source identity: parse, frame, capture, revalidate | `tools/freshness.py` | Framing, GitDelta, GitListing, GitMeaning, Capture, Identity, NestedBinding, Revalidation |
| its frozen oracle | `tools/freshness_golden_v1.py` | GoldenDelta, GoldenMeaning, NoGitWalk (`Visit`) |
| the walk and identity without Git | `tools/freshness.py` | NoGitWalk, NoGitOrder, NoGitMeaning, NoGitDigest, NoGitIdentity |
| install ownership ledger | `bootstrap/install_ownership.py` | Ownership, OwnershipRuns, OwnershipBytes, OwnershipStore |
| shared hook configuration | `tools/install_host_guard.py` | HookMerge, HookLaws, HookMeaning, HookRoundTrip |
| staged activation and rollback | `tools/install_host_guard.py` | Activation |
| `cat-file --batch` parser | `tools/audit_tags.py` | TagBatch, TagMeaning |
| activation block matcher | `tools/autoinject.py` | ActivationTemplate |
| fail-site inventory | `tools/fail_site_inventory.py` | FailSites, FailMeaning, FailSignatures, FailWalk, FailLedger |
| mutation sweep | `tools/audit_checks.py` | MutationCase, MutationSweep, MutationSandbox, MutationProbe, MutationMeaning |

`Outcome`, `ByteStrings`, `Numerals` and `Dicts` hold what they share: results, lexicographic order, stable
sorting, numbers as Python reads and prints them, and a Python dict as its items in insertion order.

Each function a method is proved against is itself characterised by lemmas that do not mention its helpers: by
texts (`.saipen`, `.saipen_runtime.json`, `{{SAIPEN_HOME}}`), by first components, chains of names, field
layouts and the facts under which something happens. The modules called `...Meaning` hold most of these.

## How things are modelled

- Hashes are ideal: a digest is a datatype constructor around the exact bytes hashed, so two
  digests are equal only if the bytes are. Theorems about fingerprints are theorems about byte
  streams.
- Git and the file system are an environment with a clock. A world (HEAD, the two halves of the
  listing, what stands at each path, the nested binding) is given for every instant, and the clock
  may move between any two reads. Each read is one atomic look that may fail.
- Code that updates something in place is a class with `modifies` clauses (`DigestSink`,
  `Environment`, `Directory`, `BackupStore`, `SharedConfig`, `Host`, `Worker`, `Pool`) or a method with loop
  invariants, proved against a function; the lemmas are about the function.
- Order the program does not fix (directory enumeration, completion of workers, the items of a
  JSON object) is an arbitrary choice in the method or a parameter of the lemma.
- Every error a modelled operation can raise is a value of its result.

## What the proofs found

- **Capture needs a proviso.** An accepted Git identity is the identity of one instant provided nothing
  it looked at (HEAD, the untracked listing, the listed places) returns to an earlier value. Without the
  proviso it need not be: `ReturningValuesDefeatTheCapture` shows two files whose contents swap at every
  tick, accepted although no instant ever looked so.
- **Revalidation is blind to nested repositories.** It compares the fingerprint before binding
  (`tools/freshness.py:1185`, `tools/freshness.py:1206`). A fresh capture equals the accepted
  identity exactly when the tree binds nothing (`RevalidationIsBlindToNested`), and an identity that
  binds something is refused on every tree (`BoundNeverRevalidates`).
- **The walk without Git is not in the oracle's order.** `_iter_no_git` says that it preserves the
  recursive order (`tools/freshness.py:651-656`); it emits a directory's files first and then its
  subdirectories in descending order. The records are a permutation of the oracle's; the hashed
  bytes agree exactly on the trees called tidy (`FingerprintAgreesIffTidy`).
- **A contested backup name loses bytes.** `SKILL.md` is backed up as `SKILL.md.user-backup`. If a
  generation also displaces a file of that name, because it ships or declares it, one of the two is in
  neither stage nor backup afterwards (`ContestedNameLosesBytes`). A generation that does neither, like
  the manifest the repository has, contests nothing, whatever the destination holds
  (`UndeclaredInertNameTravels`). `ConservationIff` is the exact condition, for any backup there is.
- **A merge can leave a group that uninstall no longer removes.** A group that held only duplicated
  owned entries is emptied by the merge and then survives the removal (`RemovalForgetsMergeIff`).
- **Re-installing does not repair a wrong matcher.** The first owned entry is replaced in its own
  group; the next run finds the matcher right exactly when that group had it (`InstallTwice`).
- **A rolled back activation has still replaced the kept generation** (`KeptGenerationLostIff`), so the
  operator is not left exactly where they were (`tools/install_host_guard.py:1358-1360`).
- **A negative blob size is accepted** by the batch parser as an empty blob (`NegativeSizeIsAccepted`).
- **A fail site's identity ignores computed data**, although its documentation counts the same message
  over different data as two checks: any change confined to computed data leaves the whole inventory as
  it was (`ComputedDataIsInvisible`). `SameSignatureIff` says which calls share a signature.
- **The gate lets the BASELINE set grow.** Only regeneration is shrink-only. A record written by hand as
  BASELINE passes exactly when it completes the live ids and the count (`HandWrittenBaselineIff`), and a
  new site regenerated as UNADJUDICATED passes once it is rewritten to BASELINE
  (`NewSiteBecomesBaseline`).
- **Workers of the mutation sweep share the file a link points to** (`tools/audit_checks.py:4908`). Two
  workers that link differing files can be interleaved so that a validator sees a tree no fresh copy
  shows, and only then (`DisturbedIffLinksDiffer`). With a single such case, as in the present table, the
  sweep is the fresh one (`SameLinksAgree`).

## Model

| member | source | states |
|---|---|---|
| Framing.BigEndianRoundTrip | tools/freshness.py:187-199 | a length field decodes to the length that was packed, for every length in the field's range |
| Framing.DecodeOfFrame | tools/freshness.py:187-199 | a frame followed by anything decodes to its own record and leaves exactly what followed |
| Framing.FrameOfDecode | tools/freshness.py:187-199 | whatever decodes as a frame is the frame of the decoded record: no two encodings of one record |
| Framing.UniqueDecodability | tools/freshness.py:202-214 | a byte stream is the pre-image of a model and a record list if and only if it decodes to exactly them |
| Framing.DigestForgetsOrder | tools/freshness.py:202-214 | records with distinct paths give the same pre-image in any order |
| Framing.DigestSeparates | tools/freshness.py:202-214 | equal pre-images mean equal models and equal record collections, repeats counted |
| Framing.DigestSink.constructor | tools/freshness.py:563-574 | a new sink has been fed the magic and the framed model, nothing else |
| Framing.DigestSink.Observe | tools/freshness.py:571-574 | one record adds exactly its frame, and an unframable record adds nothing |
| Framing.DigestRecords | tools/freshness.py:202-214 | the loop of `_digest` hashes magic, model and the frames of the records sorted by path, or raises on the first that does not fit its fields |
| Framing.FrameLayout | tools/freshness.py:187-199 | a record is framed exactly if its kind is one byte and its fields fit, as the one string with kind, path length, path, mode, content length and content in that order; which error otherwise |
| Framing.BigEndianDigits | tools/freshness.py:193-197 | the most significant byte of a length or a mode comes first |
| Framing.FramesFailFirst | tools/freshness.py:187-199 | a list of records fails with its first unframable record |
| Framing.EmptyDigests | tools/freshness.py:202-214 | the exact bytes hashed without records, for both models |
| ByteStrings.SortIsStable | tools/freshness.py:210 | the sort keeps the order of records with one path |
| ByteStrings.BelowIff | tools/freshness.py:210 | paths are ordered by their first difference, a proper prefix first |
| GitDelta.ParseListing | tools/freshness.py:447-490 | the index loop over both listings yields the changed paths once each in sorted order with the last plan given for them, or the error of the first bad record |
| GitListing.HeaderRoundTrip | tools/freshness.py:459-484 | a header as Git prints it, any modes, blob names and status, is read back with its modes, deleted if its status is D or its new mode zero, unless it is refused |
| GitListing.HeaderRefusedIff | tools/freshness.py:474-482 | and refused exactly for a conflict, another status than A, D, M, T, or a submodule that is not deleted, each with its own error |
| GitMeaning.HeaderErrors | tools/freshness.py:463-473 | any header at all is unparseable unless it is five words behind a colon, and its modes invalid unless both are octal numbers |
| GitMeaning.WordsMeaning | tools/freshness.py:463 | white space separates words, any amount of any kind |
| Numerals.OctalMeaning | tools/freshness.py:467-469 | the modes are read as exactly: a sign, a prefix `0o`, digits in groups joined by underscores |
| GitListing.ListingMeaning | tools/freshness.py:447-490 | the printed listing of any changes and untracked paths is refused if and only if some change whose first component is not `.saipen` is; otherwise it is parsed to exactly the paths with another first component, ascending, an untracked path overriding the delta and the last change overriding earlier ones |
| GitListing.ListingRefusedAt | tools/freshness.py:447-490 | the error is that of the first such change |
| GitDelta.SaipenIsFirstComponent | tools/freshness.py:165-166 | a path is excluded if and only if its first component is `.saipen` |
| GitListing.FilteredListing | tools/freshness.py:784-814 | the projection keeps header and path of every delta record outside `.saipen` and every such untracked path, in order, and raises on a cut record |
| GitListing.KeptFields | tools/freshness.py:795-808 | the index loop over the delta half of the projection |
| GitListing.KeptPaths | tools/freshness.py:809-814 | the loop over the untracked half of the projection |
| GitMeaning.ProjectionMeaning | tools/freshness.py:784-814 | of a listing with any headers the projection keeps exactly the entries and untracked paths whose first component is not `.saipen`, in order, and refuses one cut behind a header |
| GitListing.SaipenNoninterference | tools/freshness.py:165-166 | listings with equal projections parse to equal plans or the same error, whatever `.saipen` paths they carry |
| GitListing.FilterErrorIsParseError | tools/freshness.py:795-808 | a listing the projection refuses is refused by the parser too |
| GitListing.ProjectionIsFixed | tools/freshness.py:784-814 | a projection written back as a listing projects to itself and parses like the listing it came from |
| GitMeaning.LocateIff | tools/freshness.py:217-239 | a listed path names a place exactly if it is that place, of parts that are not empty, `.` or `..`, and then slashes; which paths are invalid |
| GitMeaning.NodeRecordIff | tools/freshness.py:380-435 | the record of each kind of node under each declared mode, and each refusal, both ways |
| GitMeaning.PlanRecordIff | tools/freshness.py:492-518 | a deletion is recorded without a read, anything else as what stands at its place |
| GitMeaning.ModeTexts | tools/freshness.py:380-435 | the modes are those of the octal texts Git prints |
| GoldenDelta.ReadRefines | tools/freshness_golden_v1.py:203-228 | whatever record the oracle reads at a path, for any declared mode, the live reader reads the same |
| GoldenDelta.DeltaRefines | tools/freshness_golden_v1.py:247-283 | the live plans realise the oracle's records field by field, deletions and repeated paths included |
| GoldenDelta.UntrackedRefines | tools/freshness_golden_v1.py:284-288 | so do the untracked paths, overriding the delta in both |
| GoldenDelta.LiveRefinesGolden | tools/freshness_golden_v1.py:125-133 | wherever parse, then sort, then frame succeeds in the oracle, the live sorted streaming parse succeeds with the same records and the identical byte stream |
| GoldenMeaning.OracleAcceptsIff | tools/freshness_golden_v1.py:231-288 | the oracle accepts a printed listing if and only if, outside `.saipen`, no change is refused and every path that is not deleted names its place as it stands and holds a link or file of a declared mode |
| Capture.ReadPlan | tools/freshness.py:380-435 | one atomic look gives the record of a path, through the path cache or without it |
| Capture.EvidenceMeaning | tools/freshness.py:380-435 | a file is held by the hash of its content, anything else by the content |
| Capture.SequentialPass | tools/freshness.py:492-518 | the one-at-a-time loop returns the evidence of one record for each plan in sorted order, feeds exactly their frames, and fails only where some read or frame fails |
| Capture.BuildSlots | tools/freshness.py:523-534 | deletions get their evidence at once, every other path a placeholder whose position is remembered |
| Capture.FillCache | tools/freshness.py:543-545 | the path cache is filled with valid locations for every pending path, and refused only where one has none |
| Capture.ReadInAnyOrder | tools/freshness.py:546-557 | every pending read happens once, at some instant, in any order of completion |
| Capture.Collect | tools/freshness.py:552 | all results in submission order, or the first failure in that order |
| Capture.FillSlots | tools/freshness.py:558-560 | each remembered position receives its own result, no placeholder is left, other slots keep theirs |
| Capture.SlotPass | tools/freshness.py:520-560 | the slot path succeeds with the evidence of one record for each plan in the same sorted order as the loop, and fails only where some read fails |
| Identity.ParsePass | tools/freshness.py:438-560 | either path of the evidence parser satisfies the same contract |
| Identity.RecordSettles | tools/freshness.py:886-894 | a path recorded alike before and after is recorded alike in between, permission bit included, when what stands at its own place does not return |
| Identity.AtomicSnapshot | tools/freshness.py:861-934 | an accepting run of reads is exactly the static capture of the world at the middle listing (HEAD, listing, and every listed path's kind, mode and content) when HEAD, the untracked listing and the listed places do not return; unlisted and `.saipen` paths may |
| Identity.ReturningValuesDefeatTheCapture | tools/freshness.py:886-925 | without the proviso it fails: a concrete run that is accepted though no instant matches |
| Identity.StillReads | tools/freshness.py:492-560 | on an unmoving tree any successful pass, in either form, read the static records |
| Identity.StillFails | tools/freshness.py:492-560 | and any failing pass fails there because the static capture fails |
| Identity.Sample | tools/freshness.py:888-896 | a listing and the evidence read under it, with the instants of both |
| Identity.SampleTwice | tools/freshness.py:887-901 | two heads, three listings and two samples that agree, or a refusal that an unmoving tree would justify |
| Identity.Confirm | tools/freshness.py:904-921 | the confirming pass frames what it reads into the fingerprint, in sorted order |
| Identity.CaptureGit | tools/freshness.py:886-934 | acceptance comes with a trace of reads that satisfies every comparison made, both readings of the nested binding around the confirming pass included, and refusal only when the tree moved or its static capture fails |
| Identity.ExplainedIsSnapshot | tools/freshness.py:861-884 | such a trace names one instant whose bound static identity is the answer |
| Identity.ExplainedWhenStill | tools/freshness.py:931-934 | on an unmoving tree the answer is the static identity bound to that tree's own nested binding |
| Identity.GitIdentity | tools/freshness.py:861-934 | in every interleaving an accepted identity is that of one instant if nothing listed returned, bound to what the nested repositories were at every instant of a stretch in which the confirming pass read every path, if they did not return either; an unmoving tree is accepted exactly when its static capture and its binding exist |
| Identity.ExplainedIsBound | tools/freshness.py:901-934 | an accepted capture is bound to what the nested repositories were throughout its confirming pass |
| Identity.BindIsInjective | tools/freshness.py:1041-1051 | unbound fingerprints bound to bindings are equal if and only if both are, and only an empty binding changes nothing |
| Identity.CaptureIs | tools/freshness.py:922-934 | the identity and token of a still tree: HEAD, the hash of its framed records under the model, the listing, the evidence |
| Identity.SameIdentityIff | tools/freshness.py:861-934 | two still trees have one identity if and only if HEAD, records and nested binding agree |
| Identity.SameExplainedIff | tools/freshness.py:861-934 | so have any two accepted captures, however their trees moved |
| NestedBinding.BindNested | tools/freshness.py:955-1038 | the loop over the declared nested repositories, each once and ascending, computes the binding or fails |
| NestedBinding.CanonicalIff | tools/freshness.py:975-983 | reordering or repeating a declaration changes nothing, adding or removing one does |
| NestedBinding.BindingFailsIff | tools/freshness.py:984-1027 | it fails if and only if a declared repository does, and is empty if and only if none is declared |
| NestedBinding.BindingIff | tools/freshness.py:975-1038 | two bindings are equal if and only if the same repositories are declared and each has the same head and listing |
| NestedBinding.IdentityKnowsNested | tools/freshness.py:1041-1051 | so a bound identity changes if and only if one of these does |
| NestedBinding.ListingTextSeparates | tools/freshness.py:1030-1037 | the two halves of a printed listing are hashed with one zero byte between them without loss |
| NestedBinding.BindingText | tools/freshness.py:975-983 | the bytes of a binding: its name, the canonical list, the parts |
| NestedBinding.MorePlaces | tools/freshness.py:1028-1038 | the bytes of one more part |
| Revalidation.IdentityRefinesGolden | tools/freshness_golden_v1.py:291-308 | every identity the oracle issues is the identity issued when no nested repository is declared |
| Revalidation.Reread | tools/freshness.py:595-612 | a held file is read again at one instant and refused unless its digest is the held one |
| Revalidation.StreamDigest | tools/freshness.py:577-618 | the re-reading digest frames, in path order, records that match the evidence, and fails only where a file no longer does |
| Revalidation.StreamEqualsDigest | tools/freshness.py:577-586 | whatever it accepts it hashed exactly the bytes `_digest` hashes for the confirmed records |
| Revalidation.TakeAgain | tools/freshness.py:1177-1188 | the heads, listings and records of a revalidation with the instants they were read at, or an error that an unmoving tree's static capture would have too |
| Revalidation.Revalidate | tools/freshness.py:1151-1208 | acceptance means every comparison held over values read in the run, whatever moved; on an unmoving tree it is exactly the static predicate |
| Revalidation.UnchangedThroughout | tools/freshness.py:1151-1163 | if nothing compared returned since the capture began, acceptance means that a still capture at every instant between capture and revalidation gives the accepted identity |
| Revalidation.RevalidationMeansFresh | tools/freshness.py:1174-1208 | an accepted tree, captured afresh before binding, has the accepted identity |
| Revalidation.RevalidationIsBlindToNested | tools/freshness.py:1041-1051 | a full fresh capture equals the accepted identity if and only if the tree binds no nested repository |
| Revalidation.StaleAcceptance | tools/freshness.py:1206-1207 | a concrete tree accepted although a fresh capture names another identity |
| Revalidation.BoundNeverRevalidates | tools/freshness.py:931-934 | an identity bound to a nested repository is refused on every tree |
| Revalidation.UnchangedTreeRevalidates | tools/freshness.py:1165-1208 | with an empty binding an unchanged tree is always accepted, however its `.saipen` paths and listing entries moved |
| NoGitWalk.WalkFolder | tools/freshness.py:660-705 | one directory's entries in name order add its files' records and push its subdirectories ascending |
| NoGitWalk.Walk | tools/freshness.py:644-707 | the explicit-stack loop ends on every finite tree with exactly the specified sequence, fed to the observer, and fails only where it is undefined or unframable |
| NoGitOrder.SameWalk | tools/freshness_golden_v1.py:311-349 | it emits a permutation of the recursion's records and fails exactly where the recursion does, for any exclusion set |
| NoGitOrder.EnumerationIndependence | tools/freshness.py:663-667 | trees that differ only in the order their directories are enumerated give the same sequence |
| NoGitMeaning.TreatIff | tools/freshness.py:670-705 | what is left out, entered, recorded and refused, by the kind and the name of an entry |
| NoGitMeaning.WalksFind | tools/freshness.py:644-707 | both walks record exactly what a chain of entered directories leads to, and fail exactly if one leads to something that fails |
| NoGitMeaning.PathOfChain | tools/freshness.py:668-669 | a path is the names that lead to it, with slashes between |
| NoGitDigest.WalkedDistinct | tools/freshness.py:644-707 | no path is emitted twice |
| NoGitDigest.BusyIffEmits | tools/freshness.py:668-705 | something is emitted below a visited directory exactly when there is a file or link to emit somewhere beneath |
| NoGitDigest.TidyIffSorted | tools/freshness.py:651-656 | the emitted sequence is in path order if and only if the tree is tidy, a condition at each directory on the names of its files and of its subdirectories that hold something |
| NoGitDigest.FingerprintAgreesIffTidy | tools/freshness_golden_v1.py:125-133 | the hashed bytes equal the oracle's if and only if the tree is tidy |
| NoGitDigest.UntidyTree | tools/freshness.py:689-705 | a directory beside a later file is not tidy |
| NoGitIdentity.IdentifyNoGit | tools/freshness.py:1098-1106 | two walks of a tree that may change between them are accepted exactly when both trees have the same capture, and that capture is the answer |
| NoGitIdentity.CaptureKnowsWalk | tools/freshness.py:1098-1106 | equal identities, and equal tokens, mean the same records in the same order |
| NoGitIdentity.NoGitCaptureIs | tools/freshness.py:1098-1106 | identity and token of a still tree: the word no-git, the hash of its framed records under the model, the evidence |
| NoGitIdentity.RevalidateNoGit | tools/freshness.py:1197-1202 | the walk with its digest accepts exactly what the static predicate says |
| NoGitIdentity.NoGitRevalidatesIffFresh | tools/freshness.py:1151-1163 | without Git a captured identity is accepted on a later tree if and only if a full capture of that tree is the same again |
| NoGitIdentity.NoGitIdentityIsGoldenIffTidy | tools/freshness_golden_v1.py:387-392 | the identity is the oracle's if and only if the tree is tidy |
| Ownership.StageAfter | bootstrap/install_ownership.py:137-161 | after the loop, in any enumeration, the stage holds the shipped files and the carried extras with their old bytes and nothing else |
| Ownership.NoResurrection | bootstrap/install_ownership.py:112-150 | at or below a managed directory, or a copy tree or file whatever slashes follow it, the stage holds exactly what the new generation ships |
| Ownership.SurfaceMeaning | bootstrap/install_ownership.py:112-128 | the shipped surface is what the manifest declares, by the texts of its three lists |
| Ownership.RouteMeaning | bootstrap/install_ownership.py:130-155 | a file that is neither the provenance marker nor owned and unchanged goes to the backup if and only if the generation ships or declares it, and along if not; any other stays behind |
| Ownership.StageMeaning | bootstrap/install_ownership.py:130-155 | the whole stage path by path, in those terms |
| Ownership.BackupPathIs | bootstrap/install_ownership.py:37-38 | `SKILL.md` is kept as `SKILL.md.user-backup`, anything else under its own path |
| Ownership.SafeIff | bootstrap/install_ownership.py:52-67 | which texts of paths are safe |
| Ownership.StepMeaning | bootstrap/install_ownership.py:137-155 | one turn of the loop: where the file goes, when its place is taken, and when something stands in the way |
| Ownership.RecordingSucceedsIff | bootstrap/install_ownership.py:129-155 | into a backup of this state a recording succeeds if and only if no foreign file that the generation neither ships nor declares stands above or below a file it ships |
| Ownership.ConservationIff | bootstrap/install_ownership.py:137-161 | into any backup there already is, every old file but the provenance marker is owned and unchanged, or in the stage, or in the backup with its bytes, if and only if no file finds its backup place taken |
| Ownership.NothingContested | bootstrap/install_ownership.py:144-150 | no place is taken when nothing named like, or below, `SKILL.md.user-backup` is displaced and the backup comes from earlier recordings of the same state |
| Ownership.UndeclaredInertNameTravels | bootstrap/install_ownership.py:124-143 | that holds of any destination when the generation neither ships nor declares the name |
| Ownership.ReachedKeepsBackup | bootstrap/install_ownership.py:146-150 | a recording, finished or refused on the way, keeps a backup a backup of its state and loses no entry |
| Ownership.DisplacedIsBackedUp | bootstrap/install_ownership.py:144-150 | in a finished recording every file is conserved, and a displaced one is in the backup with its bytes |
| Ownership.ContestedNameLosesBytes | bootstrap/install_ownership.py:37-38 | under a manifest that declares both names a recording succeeds in either order and the file met second is in neither stage nor backup |
| OwnershipRuns.UserFileSurvives | bootstrap/install_ownership.py:97-210 | over any run of upgrades, stamps and edits elsewhere, a user's file outside every shipped surface keeps its bytes, never enters a ledger, and survives a final removal |
| OwnershipRuns.EventMeaning | bootstrap/install_ownership.py:97-210 | what each event of a run does to the installation and to the backups |
| OwnershipBytes.StoresGrow | bootstrap/install_ownership.py:102-109 | over any quiet run no backup loses an entry and each stays a backup of the state it is named for |
| OwnershipBytes.DisplacedBytesStay | bootstrap/install_ownership.py:144-150 | what an upgrade of a run displaced is still in its backup, with its bytes, when the run ends |
| OwnershipBytes.UserBytesAreNeverLost | bootstrap/install_ownership.py:97-210 | over any quiet run of upgrades (repeated, refused half way, shipping over the path or retiring it), stamps and edits elsewhere, bytes that are the user's stay in place unowned or in a backup, and a final removal keeps them |
| OwnershipRuns.UpgradeReplacesSurface | bootstrap/install_ownership.py:97-161 | after an upgrade the destination's surface is the new generation's, retired files gone |
| OwnershipRuns.AcceptedIff | bootstrap/install_ownership.py:97-112 | a recording starts if and only if every path read is safe, the ledger is not damaged and there is a manifest |
| OwnershipRuns.UpgradeMeaning | bootstrap/install_ownership.py:97-161 | an upgraded installation and its ledger, path by path |
| OwnershipRuns.StampMeaning | bootstrap/install_ownership.py:164-181 | what a stamp refuses and what it leaves, path by path |
| OwnershipRuns.RemoveMeaning | bootstrap/install_ownership.py:184-210 | what a removal refuses and what it leaves, path by path |
| OwnershipRuns.KeptOfUpgrade | bootstrap/install_ownership.py:184-199 | what a removal would leave after an upgrade is exactly the extras carried into it |
| OwnershipRuns.RemoveUndoesUpgrade | bootstrap/install_ownership.py:164-210 | upgrading, marking provenance, stamping and removing leaves exactly those extras |
| OwnershipStore.Directory.Digests | bootstrap/install_ownership.py:87-94 | the digest of every file, refused when anything below has an unsafe path |
| OwnershipStore.RecordFiles | bootstrap/install_ownership.py:130-155 | the loop over the old files, in whatever order they are met: stage and backup are those of the specified loop, and a refusal leaves the backup as far as it got |
| OwnershipStore.Record | bootstrap/install_ownership.py:97-161 | the method's new stage, backups and error are those of the specified loop for some enumeration of all old files, what is refused before the loop touches nothing, and an error leaves the ledger unwritten |
| OwnershipStore.UpgradeInPlace | bootstrap/inject.sh:372-386 | installation and backups become exactly what the upgrade event of a run makes them; a refusal leaves the destination as it was |
| OwnershipStore.RecordFirst | bootstrap/install_ownership.py:97-107 | a first installation records its own files as the ledger |
| OwnershipStore.StampLedger | bootstrap/install_ownership.py:164-181 | the marker's digest enters an existing ledger and nothing else changes |
| OwnershipStore.UnlinkOwned | bootstrap/install_ownership.py:192-199 | exactly the files whose path and digest are in the ledger go, and they are counted |
| OwnershipStore.PruneFolders | bootstrap/install_ownership.py:201-206 | the single deepest-first pass keeps exactly the directories with a file somewhere beneath |
| OwnershipStore.Remove | bootstrap/install_ownership.py:184-210 | what is left is what did not match the ledger, removed and preserved add up to the files before, and an error touches nothing |
| HookMerge.OwnItems | tools/install_host_guard.py:413-423 | the loop over one group's entries, as the specified merge |
| HookMerge.OwnGroups | tools/install_host_guard.py:410-424 | the loop over the groups, with the groups already rewritten when it raises |
| HookMerge.SharedConfig.OwnEvent | tools/install_host_guard.py:393-429 | one event's merge changes that event of the hooks object and nothing else of the configuration |
| HookMerge.SharedConfig.Install | tools/install_host_guard.py:1039-1068 | the loop over the event table composes the merges, creating the hooks object if it is absent |
| HookMerge.CleanGroups | tools/install_host_guard.py:1529-1542 | the groups that stay with their kept entries, and how many entries went; refused for a malformed group |
| HookMerge.CleanEvents | tools/install_host_guard.py:1526-1546 | the events that stay, whatever order they are listed in, and the total removed |
| HookMerge.SharedConfig.Uninstall | tools/install_host_guard.py:1503-1548 | the configuration becomes the specified one with the number of entries removed, or is refused unchanged |
| HookLaws.GroupsMeaning | tools/install_host_guard.py:408-424 | the merge raises exactly for a malformed group or entry; otherwise foreign entries and other keys of every group stay in order, at most one owned entry is left, and every owned one is returned marked |
| HookLaws.FirstGroupInPlace | tools/install_host_guard.py:418-421 | nothing before the first owned entry moves, and the wanted entry stands where it stood |
| HookLaws.OneOwnedEntry | tools/install_host_guard.py:393-429 | after a successful merge exactly one owned entry remains, the wanted one; with none before, only a new last group is added |
| HookLaws.MergeRefusedIff | tools/install_host_guard.py:405-416 | a merge is refused if and only if the event is no array or holds a malformed group or entry |
| HookLaws.SecondInstallChangesNothing | tools/install_host_guard.py:398-402 | merging again changes nothing and finds one entry, whose matcher mark is that of the group first holding an owned entry |
| HookMeaning.MergeStopsAt | tools/install_host_guard.py:409-423 | over which group a merge is refused, with which error, and that it and all behind it are left as they were |
| HookMeaning.NotAnArrayIff | tools/install_host_guard.py:404-406 | an event that is no array is refused and nothing changes |
| HookMeaning.MatcherIff | tools/install_host_guard.py:417 | when a group carries the matcher: by its text, or by none or null where none is wanted |
| HookMeaning.MarkedMeaning | tools/install_host_guard.py:417 | a returned entry is the found one with the mark `_matcher_ok` and nothing else changed |
| HookMeaning.NewGroupIs | tools/install_host_guard.py:424-427 | which keys a new group has |
| HookMeaning.GroupGoesIff | tools/install_host_guard.py:1532-1541 | a group goes if and only if it has entries, all ours, and no key but matcher and hooks |
| HookMeaning.KeepGroupsMeaning | tools/install_host_guard.py:1527-1542 | the removal group by group, and how many entries it counts |
| HookMeaning.UninstallMeaning | tools/install_host_guard.py:1520-1548 | who is refused and what becomes of every key and event |
| HookRoundTrip.InstallIsSideBySide | tools/install_host_guard.py:1044-1068 | for distinct events a whole install is the separate merges of the original configuration, side by side |
| HookRoundTrip.InstallTwice | tools/install_host_guard.py:1044-1068 | a second whole install changes nothing and reports each row once, under its matcher exactly when that row converges |
| HookRoundTrip.UninstallUndoesInstall | tools/install_host_guard.py:1526-1548 | for a configuration without owned entries, uninstall after install removes one entry a row and gives the configuration back up to containers that were empty |
| HookRoundTrip.RestoredExactlyIff | tools/install_host_guard.py:1543-1548 | it comes back exactly if and only if its hooks object was not an empty one and no event of the table had an empty list |
| HookRoundTrip.RemovalLeavesOthers | tools/install_host_guard.py:1532-1542 | any removal leaves no owned entry and every other entry in its order |
| HookRoundTrip.RemovalForgetsMergeIff | tools/install_host_guard.py:1539-1542 | with owned entries present, removing after a merge equals removing before it if and only if no later group held owned entries alone |
| Activation.Host.BackupConfig | tools/install_host_guard.py:1332-1341 | a differing configuration is backed up under its own content, never over an earlier backup |
| Activation.Host.SwitchOver | tools/install_host_guard.py:1384-1398 | the guarded block's files, verdict and views, whichever write fails |
| Activation.Host.SwitchOrRestore | tools/install_host_guard.py:1384-1419 | the block and the restoration after it |
| Activation.Host.ActivateVerified | tools/install_host_guard.py:1344-1419 | files, outcome and every view of the host are the specified ones under any fault schedule |
| Activation.Host.Rollback | tools/install_host_guard.py:1422-1447 | the kept and the active generation change places after a passed self-test, with each write able to fail |
| Activation.NotActivatedLeavesHost | tools/install_host_guard.py:1355-1360 | whatever fails, an activation not made leaves the artifact, and the configuration if and only if it was still the one read; no stage is left by a refusal |
| Activation.KeptGenerationLostIff | tools/install_host_guard.py:1385-1391 | a refused activation has overwritten the kept generation if and only if it got to keeping, and the replaced artifact existed, read differently, was not retired and was not the kept one |
| Activation.ViewsAreSafe | tools/install_host_guard.py:1353-1360 | at every intermediate step the active artifact is the prior one or bytes whose staged copy passed |
| Activation.ActivatedIff | tools/install_host_guard.py:1362-1402 | when an activation succeeds, by the faults and facts; what is active then, and every view on the way |
| Activation.ActivationKeeps | tools/install_host_guard.py:1381-1391 | a successful activation keeps the replaced artifact if it existed, read differently and was not retired, and otherwise the generation kept before; which backups it leaves |
| Activation.OutcomeIff | tools/install_host_guard.py:1362-1419 | which report is given, by the step that fails |
| Activation.RolledBackIff | tools/install_host_guard.py:1422-1447 | when a rollback succeeds, what it leaves otherwise, and which report it gives |
| Activation.RollbackUndoesActivation | tools/install_host_guard.py:1422-1447 | rollback restores the replaced artifact if and only if it read differently and was not retired, or was the kept one already; rolling back twice restores every file |
| Activation.EveryViewIsTrusted | tools/install_host_guard.py:1344-1447 | over any run of installs and rollbacks under any faults the host never reads an artifact that was neither there at first nor passed as staged |
| Activation.ViewsAreTrusted | tools/install_host_guard.py:1344-1447 | so from any files every artifact read in a run is one of the first two, or was shipped by an install of the run whose staged copy passed |
| Activation.OneMoreCommand | tools/install_host_guard.py:1344-1447 | a run goes command by command, each on what the last one left, its views after theirs |
| Activation.ConfigurationsAreKept | tools/install_host_guard.py:1332-1341 | over any such run in which installs read the configuration they find, the first configuration is still there or backed up |
| TagBatch.ParseBatchVersions | tools/audit_tags.py:110-145 | the cursor loop over the buffer with Python's index arithmetic, errors and partial results included |
| TagBatch.ParseReads | tools/audit_tags.py:110-145 | responses for all tags parse to their contents, newlines included, and extra bytes are reported by number |
| TagBatch.ParseRefusesPrefix | tools/audit_tags.py:118-141 | every strict prefix is refused |
| TagBatch.AcceptsExactlyResponses | tools/audit_tags.py:110-145 | for every buffer: it is a sequence of responses to the tags if and only if it is accepted and no header met on the way has a negative size |
| TagBatch.BatchRoundTrip | tools/audit_tags.py:110-145 | Git's rendering of any answers parses back exactly, cut anywhere it is refused, extended it is refused |
| TagBatch.RecordedAt | tools/audit_tags.py:110-145 | for distinct tags each version is the answer to its own tag |
| TagBatch.NegativeSizeIsAccepted | tools/audit_tags.py:127-141 | a header with size -1 is accepted as an empty blob, outside that condition |
| TagMeaning.HeaderIff | tools/audit_tags.py:121-137 | which header lines are the missing line, announce a blob and of what size, are malformed, or have an invalid size |
| TagMeaning.StepErrors | tools/audit_tags.py:116-141 | why a response is refused |
| TagMeaning.FindMeaning | tools/audit_tags.py:116 | the first newline from a position, or -1 |
| TagMeaning.SliceMeaning | tools/audit_tags.py:138-141 | slices with negative and excessive indices |
| Numerals.DecimalMeaning | tools/audit_tags.py:134-136 | a size is read as exactly: white space, a sign, digits in groups joined by underscores, white space |
| ActivationTemplate.SplitThenFill | tools/autoinject.py:528 | splitting a template at its placeholder loses nothing |
| ActivationTemplate.SegmentsMeaning | tools/autoinject.py:528 | the segments give the template around `{{SAIPEN_HOME}}` and none of them holds it |
| ActivationTemplate.PlainTemplate | tools/autoinject.py:529-530 | a template without it is matched by itself alone, with no home |
| ActivationTemplate.ActivationHome | tools/autoinject.py:516-553 | the loop over the segments computes the specified match |
| ActivationTemplate.MatchIsSound | tools/autoinject.py:519-527 | a returned home renders to exactly the installed block |
| ActivationTemplate.HomeIsUnique | tools/autoinject.py:519-527 | and it is the only home that does, for a template with a gap |
| ActivationTemplate.RecognisedIffClear | tools/autoinject.py:543-552 | a block rendered with a home is matched, to that home, if and only if each middle segment first occurs in home and segment at the end of the home; otherwise it is refused |
| FailSites.NumberedMeaning | tools/fail_site_inventory.py:174-176 | the keys of a list of pairs are exactly those with ordinal below the pair's count, each once |
| FailSites.SiteIdIsInjective | tools/fail_site_inventory.py:131-134 | equal ids mean equal qualified name, signature and ordinal, zero bytes in signatures included |
| FailSites.InventoryForgetsOrder | tools/fail_site_inventory.py:186-188 | the inventory depends only on how often each qualified name and signature occurs |
| FailSites.SourceOrderIsForgotten | tools/fail_site_inventory.py:155-188 | trees that differ in the order of siblings at any depth have the same inventory |
| FailMeaning.PairsMeaning | tools/fail_site_inventory.py:92-105 | the sites of a tree are exactly its calls, each named by the dotted functions and classes around it, or `<module>` |
| FailMeaning.PlainNamesIff | tools/fail_site_inventory.py:92-105 | the assumption on names, no zero byte in any scope of the tree |
| FailMeaning.OneSiteACall | tools/fail_site_inventory.py:155-188 | as many sites as calls |
| FailMeaning.TextOfLiterals | tools/fail_site_inventory.py:108-122 | the literal text of an argument is its string literals in order, however nested |
| FailMeaning.SignatureIsJoin | tools/fail_site_inventory.py:152 | a signature is the arguments' texts joined by zero bytes |
| FailMeaning.PreimageMeaning | tools/fail_site_inventory.py:131-134 | what is hashed for a site, the ordinal in decimal |
| FailWalk.QualnameMap | tools/fail_site_inventory.py:92-105 | the stack loop names every node of the tree and nothing else, each by its enclosing scopes |
| FailWalk.Sites | tools/fail_site_inventory.py:155-188 | the breadth-first loop with its counter returns the inventory of the tree as written |
| FailLedger.SortedSet | tools/fail_site_inventory.py:265-273 | a set as its members in ascending order |
| FailLedger.InventoryErrors | tools/fail_site_inventory.py:238-308 | which report is given for which damage; exactly the live ids not recorded and the recorded ids not live; one complaint for each record that does not pass, of its kind and in order, and the wrong count; nothing to report if and only if the ids agree, every record is COVERED with a case, without mutation case for a reason, or BASELINE, and a declared count is right |
| FailLedger.SameSurfaceIff | tools/fail_site_inventory.py:259-278 | two surfaces have the same ids if and only if they have the same sites, repeats counted |
| FailLedger.SwapIsSeenTwice | tools/fail_site_inventory.py:238-243 | a change that keeps the number of sites is reported both as added and as removed; in general the two differ by the change in number |
| FailSignatures.SameSignatureIff | tools/fail_site_inventory.py:137-152 | two calls have one signature if and only if their literal texts, cut at zero bytes, are the same list |
| FailSignatures.SameTextsIff | tools/fail_site_inventory.py:137-152 | with arguments and no zero byte in a literal: if and only if the literal texts agree argument by argument |
| FailSignatures.ZeroByteIsABoundary | tools/fail_site_inventory.py:152 | a zero byte in a literal reads as the boundary between two arguments |
| FailSignatures.ComputedDataIsInvisible | tools/fail_site_inventory.py:137-152 | sources that differ only in computed parts of `fail` arguments, anywhere in the tree, have the same inventory |
| FailSignatures.SameMessageOtherData | tools/fail_site_inventory.py:149-151 | there are such sources for every message and any two data |
| FailLedger.Regenerate | tools/fail_site_inventory.py:318-344 | the loops build the specified ledger |
| FailLedger.RegeneratedRows | tools/fail_site_inventory.py:318-344 | a regenerated ledger holds exactly the live sites, each with the verdict of its last record or none |
| FailLedger.RegeneratedMeaning | tools/fail_site_inventory.py:318-344 | record by record: the live sites in inventory order and counted, each with disposition, case and reason of the last record of its id, or UNADJUDICATED with neither |
| FailLedger.GateSeesIdentity | tools/fail_site_inventory.py:238-243 | against a regenerated ledger a later source agrees if and only if it has the same sites |
| FailLedger.RegeneratedBaseline | tools/fail_site_inventory.py:311-344 | a regenerated BASELINE id is exactly a live one whose last record was BASELINE |
| FailLedger.BaselineOnlyShrinks | tools/fail_site_inventory.py:36-40 | over any run of edits, regenerations, adjudications and damage the BASELINE set never gains an id |
| FailLedger.EventMeaning | tools/fail_site_inventory.py:311-344 | what each event of such a run does, an adjudication included |
| FailLedger.NewSiteStaysRed | tools/fail_site_inventory.py:325-334 | a site the ledger has not seen is still a problem after regeneration |
| FailLedger.HandWrittenBaselineIff | tools/fail_site_inventory.py:259-308 | with a BASELINE record added by hand the whole gate is clean if and only if the other records are, it completes the live ids, and a declared count counts it |
| FailLedger.NewSiteBecomesBaseline | tools/fail_site_inventory.py:325-344 | a site never seen, regenerated and then rewritten to BASELINE, enters the BASELINE set, and the gate is clean if and only if every other record is |
| MutationCase.Worker.WriteBytes | tools/audit_checks.py:1813-1816 | the data is what is read back, a link stays a link, and no other path changes |
| MutationCase.Worker.RestoreCaseFiles | tools/audit_checks.py:1801-1816 | the loop removes links, deletes what was absent and writes what was saved |
| MutationCase.Worker.DemoteAmnesties | tools/audit_checks.py:4870-4889 | the loop over the history files, stopped by a missing one |
| MutationCase.Worker.ChangeAll | tools/audit_checks.py:4945-4966 | the loop over the members of a mutation of several files |
| MutationCase.Worker.ApplyCase | tools/audit_checks.py:4892-4977 | the new tree and the verdict of every kind of mutation |
| MutationCase.ApplyTouchesOnlyItsFiles | tools/audit_checks.py:1790-1798 | no mutation changes a file it did not declare, whether or not it could be set up |
| MutationCase.RestoreUndoesApply | tools/audit_checks.py:1801-1816 | on a tree without links, save, apply and restore give back the very same tree for every kind of mutation |
| MutationCase.RestoredIffNoLink | tools/audit_checks.py:1801-1816 | on any tree it comes back if and only if no declared file was a link |
| MutationMeaning.ApplyMeaning | tools/audit_checks.py:4892-4977 | for each mutation of one file, the verdict and the content left, everything else unchanged |
| MutationMeaning.DemotedMeaning | tools/audit_checks.py:4870-4889 | every history file is rewritten, the verdict says whether one changed, a missing one is an error |
| MutationMeaning.ChangedAllMeaning | tools/audit_checks.py:4945-4966 | every member over different files is done, and the verdict says whether one changed anything |
| MutationMeaning.TargetIff | tools/audit_checks.py:1767-1787 | which file is edited |
| MutationSweep.StridedMore | tools/audit_checks.py:5510 | one more case goes to the end of the chunk of its position |
| MutationSweep.ChunksPartition | tools/audit_checks.py:5509-5510 | for any number of workers the chunks together hold exactly the runnable cases |
| MutationSweep.RunCase | tools/audit_checks.py:5529-5547 | a case on a shared copy, undisturbed, is worth what it is on a fresh one, and leaves the copy pristine |
| MutationSweep.RunChunk | tools/audit_checks.py:5518-5553 | a chunk on one copy, undisturbed, reports what fresh copies would, with no drift, and fails exactly if some case raises |
| MutationSweep.Selected | tools/audit_checks.py:5491-5505 | the selection loop with its cached gate controls |
| MutationSweep.CountedOnce | tools/audit_checks.py:5605-5607 | live, dead, skipped, always and not exercised add up to all cases |
| MutationMeaning.ClassifiedIff | tools/audit_checks.py:5491-5547 | in which of the lists a case belongs, by what the validator prints |
| MutationMeaning.WorkerCountIs | tools/audit_checks.py:5507 | the number of workers |
| MutationSandbox.LinksComeFromExports | tools/audit_checks.py:4904-4922 | only a case that writes the shared file, on a host that makes links, leaves a link |
| MutationSandbox.NextKeeps | tools/audit_checks.py:5529-5547 | each step of a worker, whatever the others have done to the shared file, keeps its copy and its lists; its verdicts are fresh while the file is as it left it |
| MutationSandbox.Pool.Advance | tools/audit_checks.py:5529-5547 | one step of one worker on its copy and on the shared file |
| MutationSandbox.Pool.RunChunks | tools/audit_checks.py:5561-5575 | interleaved in any way the workers end, each with its copy pristine, failed exactly if a case of its chunk raises, its skips the fresh ones, and its dead too where the linked files agree |
| MutationSandbox.AgreedIsUndisturbed | tools/audit_checks.py:4908 | where linked files agree no interleaving shows a validator a tree that a fresh copy does not show |
| MutationSandbox.DisturbedIffLinksDiffer | tools/audit_checks.py:4908 | when no case raises, some interleaving does if and only if two workers link files that differ |
| MutationProbe.Gather | tools/audit_checks.py:5561-5575 | workers are taken in any order of finishing, each once; a crash or a drifted copy fails the gate |
| MutationProbe.SameLinksAgree | tools/audit_checks.py:5509-5510 | one linked content in the whole table suffices, for any number of workers |
| MutationProbe.MutationSweepProbe | tools/audit_checks.py:5465-5607 | the sweep fails exactly if some case raises; otherwise skipped, always and not exercised are those of one fresh copy a case and the five numbers add up, and the dead and live cases are the fresh ones too if the workers link no two files that differ |

## Left out

- SHA-256 itself, and the truncation of a digest in a file or backup name: hashes are ideal.
- Text decoding (UTF-8, UTF-16, Python's non-ASCII digits and spaces) and JSON text: bytes, ASCII and values stand for them; the order of keys in a JSON object is not modelled.
- Links, reparse points and races inside one read: a read is one atomic look that may fail.
- `tools/freshness.py` `compute_role_revision`, `normalize_version_strings`, how a project's model is chosen, timeouts, the root a token is bound to, and the test hook that replaces `_digest`.
- The single instant of `Identity.GitIdentity` covers HEAD, listing and content; the nested binding is read after the last HEAD, so it belongs to the stretch of the confirming pass, which may be another.
- NestedBinding.BindNested: what stands at a declared path, and the JSON text of the declaration with its schema version, are parameters; a path that escapes the root, a missing or linked directory and a directory of another work tree are all a repository that fails.
- GoldenDelta.LiveRefinesGolden: goes one way; the live code also accepts untracked directories' trailing slashes, which the oracle refuses.
- GitDelta.ParseListing: a path is mapped to a place by its parts; drive letters and the current directory are not part of the model.
- NoGitIdentity.IdentifyNoGit: each walk sees one tree; a tree that changes in the middle of a walk is modelled only on the Git side.
- OwnershipBytes.UserBytesAreNeverLost: quiet runs are those in which the destination is a tree and nothing named like, or below, `SKILL.md.user-backup` is displaced; Ownership.ContestedNameLosesBytes is what happens otherwise.
- The oracle is modelled as functions because it serves as the specification.
- OwnershipStore.Remove: the removal of an emptied destination directory itself is not modelled, nor are the artifact and launcher commands beside it.
- OwnershipStore.UpgradeInPlace: the shell's own renames are one step; a rename that fails half way is not modelled.
- HookMerge.SharedConfig.Install: which entry is ours is a parameter that holds of the wanted entry, for the merge and for the removal separately; splitting command lines is not modelled, nor are the other hosts' configuration shapes.
- HookMerge.SharedConfig.Uninstall: the file's exact original bytes are not restored from a backup here; the value is.
- Activation.Host.ActivateVerified: the writes of a restoration and the removal of the stage are assumed to succeed, and no other process writes meanwhile.
- TagBatch.BatchRoundTrip: `_decode_version`, which turns a blob into text, is not modelled.
- FailWalk.Sites: line numbers and message text, which are report metadata, are not part of a site.
- MutationProbe.MutationSweepProbe: anchors counted for the report, sorting of the lists, and directories left by a created file are not modelled; the validator is a function of the tree as read and the gate, and reads it at one instant; the write of the shared file is one step.
- `run_probes` and the table of cases: data and a fold over independent probes.
- Everything else in the repository: the validator, journal, board and operation engine, launchers, broker and platform plumbing.
