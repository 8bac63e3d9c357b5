# Podplane: verified models of its stateful core

A Dafny model of five parts of the Podplane CLI, and proofs of what they promise. Every claim below is
stated for all inputs, all runs or all reachable states. Verify with `dafny verify dfyconfig.toml`.

1. **OCI image cache** (`internal/deps`). A cache is a map from repositories to directories; a directory is
   an optional `index.json` and a map from digests to blob files. `Oci` has descriptors and the two in-place
   index updates, `ImageStore` the reads, the cache check and the list of file operations that store one
   image, `TagListings`, `ImageWrites` and `RepoHistory` what these operations leave, one operation at a
   time. `CacheAnswers` says what the check's answers mean in terms of files, `StoreOutcome` when a store
   succeeds, and `RecordedEntries` which entries store and copy leave. `RepoDirectory` has the imperative
   code and ties it to that list. `DownloadRun` is the concurrent download as a step relation (host
   semaphore, global semaphore, repository lock, one file operation at a time, failures and cancellation
   anywhere), `DownloadProgress` has its limits, end and errors, and `DownloadResult` what any run leaves.
   `BundleImport`, `ImportCrash`, `ImportOutcome`, `ImportedImages` and `CacheDirectory` are import,
   `BundleExport`, `CopyOutcome` and `ExportDirectory` export. `NeatCaches` is what download and export
   leave in a cache, and `BundleRoundTrip` the way from a download over an export to an import elsewhere.
   `CacheCorners` has the inputs for which a stored or imported image is not found.
2. **Local vault** (`internal/fakevault`) and its clients. `SecretStore` is the file store as a class over
   encrypted files, a keyring and a key cache, refined to a map from places to version, values and mark;
   `SecretPaths` says which place a cluster ID and a path are; `SecretHistory` covers all histories of that
   map and shows that every sequence of calls has one, and `SecretAgreement` the clients that agree on one
   value, as a step machine and as calls on the store.
3. **Components** (`internal/components`, install and uninstall). `ComponentGraph` is the dependency
   closure, `MergePatch` the JSON merge patch, `HelmValues` the merged values that are read,
   `ComponentValues` what reading and the commands mean on documents, `InstallRuns` sequences of patches
   planned from readings that may be out of date, and `InstallCommands` the two commands, which read the
   deployed release and patch the release object.
4. **Arithmetic**. `ServiceNetworks` has the two-word address arithmetic and range checks,
   `ProviderVersions` the order-preserving map of versions.
5. **Workflow and text**. `ClusterDelete` is the delete workflow against arbitrary answers, `ShellPrompt`
   the tokenizer, `ClusterIds` the slug loop; `Texts` and `SortedNames` serve several of them.

Code that changes state is modelled as classes and methods with loops, and each is proved against a
specification on values; the lemmas are about those specifications. File and network accesses can go wrong
at any time: a `disturbance` tells for each access whether it does, and contracts say what is left then. The
files of a repository that the code writes in place may then hold anything.

## Corners of the image cache

The cache check ignores the variant of a platform that the index update looks at, an empty variant matches
every variant, and an untagged reference pinned to another digest only has that other digest recorded.
Storing an image therefore does not always make it pass the check. `ImageWrites.WrittenIsCached` gives the
exact condition and `RepoHistory.StoredIsCached` restates it for a tag as a test on the image index before
the store. `CacheCorners` has an input for each way it fails: an untagged pin, a tag that lists another
variant, and a tag whose pinned index lists another variant first.

Import has the same corner where it joins two image indexes, and the export records no platform for a text
of three parts such as linux/arm64/v8, so an upgrade of such an image is not found when the cache has
another one under the tag (`CacheCorners.UpgradeNotFound`). `ImportedImages.ImportedIsCached` says exactly
when an image is found, for any two indexes that do not contradict each other about the platform of a
digest.

The results about several images assume (`RepoHistory.Compatible`, `RepoHistory.Open`) that images under one
tag pin the same separate index, which lists each of them first, or none does and no two compete for an OS
and architecture; that tag blobs at the start are intact; and that an untagged reference with a separate pin
has its own digest recorded already. `DownloadResult.FreshIsPrepared` derives what concerns the cache from
an empty cache. What export and import ask of a cache follows from the download that filled it and from
`NeatCaches.Portable`, which is about the images alone; `BundleRoundTrip.FreshRoundTrip` puts the three
together.

Replacing the first matching entry does not always keep a tag's image index free of matching entries:
`Oci.WildcardLeavesMatchingPair` is an input for which it does not, and `Oci.UpsertManifestKeepsApart` says
exactly when it does.

## Model

| member | source | states |
|---|---|---|
| Oci.ImageIndex.UpsertIndexDescriptor | internal/deps/components_zot.go:696-714 | the in-place loop over an index's entries makes exactly the update `Upsert`: the first entry with the same tag, or for an untagged entry the first untagged one with the same digest, is replaced, otherwise the entry is appended |
| Oci.ImageIndex.UpsertManifestDescriptor | internal/deps/components_zot.go:717-725 | the same for an image index: the first entry of the same digest or a matching platform is replaced |
| Oci.UpsertIsMapUpdate | internal/deps/components_zot.go:696-714 | the index update is a finite-map update: its own tag (or digest, when untagged) resolves to the new entry, every other key resolves as before, and keys stay unique |
| Oci.UpsertManifestKeepsApart | internal/deps/components_zot.go:717-733 | an image index without matching pairs stays so if and only if the new entry matches at most one old entry |
| Oci.TransitiveMatchKeepsApart | internal/deps/components_zot.go:717-733 | a match relation that is transitive through the new entry gives that condition |
| Oci.WildcardLeavesMatchingPair | internal/deps/components_zot.go:728-733 | the relation is not transitive: an entry without a variant put into an index with two variants leaves a matching pair |
| TagListings.UpsertListsExactly | internal/deps/components_zot.go:271-280 | after its own update an image is the first entry the cache check meets if and only if no entry of its OS and architecture stands before the place the update takes |
| TagListings.UpsertKeepsListings | internal/deps/components_zot.go:717-733 | recording one image leaves every other image of the tag found first, as long as no two images of the tag compete for an OS and architecture |
| ImageWrites.FetchedImage | internal/deps/components_zot.go:351-426 | when all fetches of an image succeed, its manifest, config and layers, and the upstream index it pins, are present with the promised content; the index file and all earlier blobs are untouched |
| ImageWrites.FetchedTree | internal/deps/components_zot.go:351-426 | for an index, whatever its media type of the two, every child it lists is there with its content, and so are the children of a child that is an index, at any depth, and the config and layers of one that is not |
| ImageWrites.WrittenIsCached | internal/deps/components_zot.go:141-212 | after a successful store the cache check accepts the image if and only if the index its tag will name has no earlier entry of its OS and architecture; for an untagged reference pinned to another digest, if and only if the image's own digest was recorded before |
| RepoHistory.StoredIsCached | internal/deps/components_zot.go:141-280 | for a tagged reference without a separate pin, over an intact tag, that condition is a test on the image index the tag names before the store |
| CacheCorners.UntaggedPinNotFound | internal/deps/components_zot.go:192-197 | an untagged reference pinned to another digest is stored in an empty repository without an error and not found |
| CacheCorners.SecondVariantNotFound | internal/deps/components_zot.go:236 | an image for linux/arm/v7 is stored under a tag that lists linux/arm/v6 without an error and not found |
| CacheCorners.PinnedVariantNotFound | internal/deps/components_zot.go:186-190 | an image for linux/arm/v7 whose tag pins an upstream index that lists linux/arm/v6 first is stored in an empty repository without an error and not found |
| CacheCorners.UpgradeNotFound | internal/deps/export.go:157-160 | a cache lists one image for linux/arm64/v8 under a tag, a bundle brings another one as the export writes it, without a platform: the import succeeds and the image is not found |
| RepoHistory.SettledIsCached | internal/deps/components_zot.go:215-267 | what every later store keeps implies that the cache check holds |
| RepoHistory.StoringKeeps | internal/deps/components_zot.go:141-212 | after every single file operation of storing an image, all compatible images stored before stay cached and the remaining ones can still be stored; at the end the image is cached too |
| RepoDirectory.RepoDir.FindTag | internal/deps/components_zot.go:598-630 | reading the image index of a tag, with its fallbacks for a missing entry, a missing blob and a plain manifest |
| RepoDirectory.RepoDir.WriteBlob | internal/deps/components_zot.go:529-535 | a blob is written in place: when the write goes wrong its file is as it was or holds anything, and no other file changes |
| RepoDirectory.RepoDir.WriteIndexFile | internal/deps/components_zot.go:687-693 | so is the index file |
| RepoDirectory.RepoDir.UpsertRepoIndexDescriptor | internal/deps/components_zot.go:677-684 | one index read and one index write, each of which can go wrong: the index has the new entry, is as it was, or is what the broken write left; without a disturbance it fails only on an unreadable index |
| RepoDirectory.RepoDir.UpsertTaggedImageIndex | internal/deps/components_zot.go:633-660 | reads the tag, writes the rebuilt image index as a blob, reads the repository index and writes it with both entries; stopped at any of these accesses it leaves what the operations before it leave, and what a broken write left in its own file |
| RepoDirectory.RepoDir.FetchConfig | internal/deps/components_zot.go:382-392 | the config blob is checked and written in place |
| RepoDirectory.RepoDir.FetchLayer | internal/deps/components_zot.go:398-424 | a layer blob ends up with the promised content and size, or all files are as they were; a whole one is not fetched again |
| RepoDirectory.RepoDir.WriteDescriptorBlobs | internal/deps/components_zot.go:351-426 | the recursive walk over an index and its children performs exactly the fetches of the flat operation list, in order, or stops at one of them that goes wrong or meets unsupported content |
| RepoDirectory.RepoDir.WriteChildren | internal/deps/components_zot.go:367-375 | the loop over an index's children |
| RepoDirectory.RepoDir.WriteParts | internal/deps/components_zot.go:382-424 | the config and the loop over the layers |
| RepoDirectory.RepoDir.WriteComponentImage | internal/deps/components_zot.go:141-212 | the whole store of an image performs the operation list that the concurrency and history results are about, or stops at one operation with what that one left; without a disturbance it stops only where it must |
| RepoDirectory.RepoDir.ComponentImageCached | internal/deps/components_zot.go:215-267 | the loops of the cache check decide `CheckCached`, errors included; `CacheAnswers` says what its answers mean |
| CacheAnswers.CachedMeans | internal/deps/components_zot.go:215-267 | the check answers yes if and only if both indexes can be read, the repository index has the image's digest, for a tag the first entry of that digest or of the image's OS and architecture carries the digest, the manifest, config and layers are there with content and sizes, and so is another index that a tagged reference pins |
| CacheAnswers.CheckFails | internal/deps/components_zot.go:215-267 | and it gives an error if and only if an index cannot be read, or what is recorded cannot be judged: an unsupported digest, or a manifest that is no document |
| CacheAnswers.CompleteMeans | internal/deps/components_zot.go:480-522 | a manifest is complete if and only if it, its config and all layers are there with their promised content and sizes, and is judged by an error exactly when an unsupported digest comes before any missing part |
| CacheAnswers.RepoIndexMeans | internal/deps/components_zot.go:573-595 | no index file reads as an empty index of schema version two; a file is refused exactly when it does not decode or names an unsupported digest |
| CacheAnswers.TagMeans | internal/deps/components_zot.go:598-630 | the index of a tag is what the blob of its first entry lists; none for a missing entry or blob, the entry itself for a plain manifest, an error for a blob that is no document |
| RecordedEntries.StoreRecords | internal/deps/components_zot.go:141-212 | after a store the image's own entry has its digest, size, media type and the platform of one, two or three parts written out; the entry of the tag carries only its reference name; a tag without another pinned index lists the image with that platform |
| StoreOutcome.FetchesExactly | internal/deps/components_zot.go:351-426 | the fetches of an image succeed if and only if the registry can serve it: every digest on the way is a SHA-256 digest, a document is there at each index and manifest, config and layers have their recorded sizes, and a pinned index has such a digest |
| StoreOutcome.StoresExactly | internal/deps/components_zot.go:141-212 | an undisturbed store succeeds if and only if the image can be served and the index that it reads, the tag's or the repository's, can be read |
| ImageNames.SplitUndoesJoin | internal/deps/components_zot.go:336-348 | splitting a reference undoes joining repository, tag and digest, for all plain parts, a repository with a port or further colons included |
| ImageNames.JoinUndoesSplit | internal/deps/components_zot.go:336-348 | and every image text is the text of its plain parts, up to a last colon or at sign with nothing after it |
| ImageNames.MirrorPlace | internal/deps/components_zot.go:299-318 | an image is kept under `mirror/` and its full name, docker.io and library added where Docker Hub adds them, and its registry is the first segment of that name |
| ImageNames.SamePlaceSameName | internal/deps/components_zot.go:299-318 | two images share a place exactly when they share their full name |
| ImageNames.OfficialImages | internal/deps/components_zot.go:299-318 | an official image may be named with or without docker.io and library and has one place |
| ImageNames.HostOfSourceRepo | internal/deps/components_zot.go:299-318 | the cache path of an image starts with its registry host |
| ImageNames.SameRepoSameHost | internal/deps/download.go:678-689 | two images that share a cache repository, and so its lock, share the registry host, and so its semaphore |
| DownloadProgress.LimitsRespected | internal/deps/download.go:566-626 | in every reachable state at most `concurrency` jobs work, or four when it is not positive, at most each positive registry limit of its images, and at most one image job per repository |
| DownloadProgress.LimitsReached | internal/deps/download.go:551-566 | these limits are reached: for file downloads there is a reachable state in which as many work as requested, or four, or all if they are fewer |
| DownloadProgress.RegistryLimitReached | internal/deps/download.go:608-626 | and for images of one registry in repositories of their own one in which as many work as its limit, the requested number and the number of jobs allow |
| DownloadProgress.MoveLowersMeasure | internal/deps/download.go:608-669 | every enabled move lowers a measure of what is left to do |
| DownloadProgress.RunsEnd | internal/deps/download.go:550-675 | so no run is longer than the measure of its start |
| DownloadProgress.NoDeadlock | internal/deps/download.go:590-635 | until all jobs have ended and the call can return, the loop or some job can go on, whatever the interleaving and limits; a failure counts as going on only for an operation that cannot succeed, a cancellation never |
| DownloadProgress.CanFinish | internal/deps/download.go:608-675 | so every run can be continued to its end |
| DownloadProgress.FirstErrorStays | internal/deps/download.go:569-578 | the recorded error is set once and never replaced |
| DownloadProgress.ErrorStopsLaunches | internal/deps/download.go:608-613 | after it at most the one job that the loop had just let pass is still started |
| DownloadProgress.SlotsAreNotCancelled | internal/deps/download.go:590-626 | cancellation takes only jobs that still wait for a semaphore: one that got a slot of the global limit goes on until it completes or one of its accesses fails |
| DownloadProgress.NilMeansAllCompleted | internal/deps/download.go:669-675 | nil is returned if and only if every job completed; otherwise the error of a job that failed |
| DownloadResult.ImageLimits | internal/deps/download.go:579-606 | in terms of the images: of those whose full name starts with a registry at most its limit are being stored at once, and never two with one full name |
| DownloadResult.EveryRunIsSerial | internal/deps/download.go:579-589 | with index reads and writes as separate steps, every reachable cache equals what the logged jobs leave when run one after another, each up to the point it got to and with what its last write left in its file |
| DownloadResult.CompletedIsCached | internal/deps/download.go:630-645 | at every point of every run the image of every completed job passes the cache check, whatever other jobs do, in every repository in which no write broke and left a spoiled file |
| DownloadResult.CutIndexUncaches | internal/deps/components_zot.go:687-693 | that exception is needed: whenever a job is about to write the index of a repository it can leave a cut file there, and then no image of the repository is cached, those of completed jobs included |
| DownloadResult.NilMeansAllCached | internal/deps/download.go:608-675 | no lost updates: a nil return means every image job's image is cached, without that exception |
| DownloadResult.FreshIsPrepared | internal/deps/download.go:608-675 | an empty cache meets every hypothesis on the cache, for images that are tagged or carry no separate pin |
| DownloadResult.FreshDownloadIsCached | internal/deps/download.go:608-675 | into an empty cache this holds without hypotheses on the cache, for images that do not conflict and are tagged or carry no separate pin |
| DownloadResult.LostWithoutLock | internal/deps/download.go:630-632 | without the repository lock two recordings with both reads before both writes lose the first one |
| BundleImport.MergedListHas | internal/deps/import.go:125-164 | after a merge every incoming tag resolves to the incoming entry joined with what the tag named before |
| BundleImport.JoinsOnlyIndexes | internal/deps/import.go:127-156 | it is joined exactly when the digests differ and both media types end in index.v1+json, and then names an index of both sides' children; otherwise it is taken over as it is |
| BundleImport.MergeKeepsTags | internal/deps/import.go:125-164 | the merged index has exactly the tags of either side |
| BundleImport.MergedChildren | internal/deps/import.go:149-151 | a joined image index holds every incoming child and every earlier child that matches none of them |
| BundleImport.MergedChildrenOnly | internal/deps/import.go:149-151 | and nothing else |
| BundleImport.MergingTwice | internal/deps/import.go:149-151 | joining the same pairwise non-matching children twice equals joining them once |
| BundleImport.MergeTwice | internal/deps/import.go:105-170 | merging the same index twice equals merging it once |
| ImportCrash.AbsorbOnce | internal/deps/import.go:127-162 | tag uniqueness makes the inner loop, which updates the entry it compares with, join at most once |
| ImportCrash.ImportEnds | internal/deps/import.go:25-92 | an import of a whole bundle into a whole cache succeeds and leaves exactly the files that are stated without running it |
| ImportCrash.StoppedIsWhole | internal/deps/import.go:50-89 | after any number of publications every entry of every index names a present blob, and every tag that resolved before still does |
| ImportCrash.ManifestsComeLast | internal/deps/import.go:81-89 | a cached manifest differs from before only when all blobs and indexes have reached their final content |
| ImportCrash.RepeatedImportCompletes | internal/deps/import.go:20-92 | importing again from wherever an import stopped ends with the same files as an uninterrupted run |
| ImportCrash.CopiedAsPromised | internal/filecache/copy.go:122-152 | whatever bundle and cache hold and wherever the import stops, a file other than an index is as it was, as the inventory promises it, or a blob that fits its digest |
| ImportOutcome.FilesSucceed | internal/deps/import.go:66-92 | whatever cache and bundle hold, a round of immutable files or of manifests succeeds if and only if the bundle holds each of them as the inventory promises |
| ImportOutcome.MergeSucceeds | internal/deps/import.go:105-170 | one index merge, of indexes with distinct keys: it succeeds when both indexes and every blob that it joins can be read, and only then, earlier blobs still being readable at the end; the published index keeps the cache's head, and for a new repository has schema version two and the bundle's media type |
| ImportOutcome.ImportNeeds | internal/deps/import.go:25-92 | a successful import found every inventory file in the bundle, indexes readable and all else as promised; without indexes it succeeds exactly then |
| ImportedImages.JoinListsExactly | internal/deps/import.go:149-151 | after two image indexes were joined an image is the first entry the cache check meets if and only if nothing of its OS and architecture stands before the place its entry takes in the old one, under the same assumptions |
| ImportedImages.ImportedIsCached | internal/deps/import.go:25-92 | an image recorded and cached in the bundle is cached after the import if and only if its tag is not joined or nothing in the cache's index of the tag is in its way; for a joined tag this assumes that the bundle's index lists the image and has no two matching entries, that both indexes list the image under its own OS and architecture or without a platform, and that they agree on whether any other digest they share is of that OS and architecture |
| ImportedImages.NewTagIsCached | internal/deps/import.go:25-92 | in particular whenever the cache did not know the tag |
| CacheDirectory.CacheDir.CopyFile | internal/filecache/copy.go:95-152 | a file is published whole, and only when its content is what its inventory entry promises by size and digest; otherwise nothing is published |
| CacheDirectory.CacheDir.JoinEntry | internal/deps/import.go:127-162 | the inner loop with its early `continue`, its reads and its publication refines the specification of absorbing old entries |
| CacheDirectory.CacheDir.MergeAll | internal/deps/import.go:125-164 | the outer loop over incoming entries |
| CacheDirectory.CacheDir.MergeIndex | internal/deps/import.go:105-170 | one index merge, with the start from an absent index and every error return |
| CacheDirectory.CacheDir.InstallImmutable | internal/deps/import.go:51-71 | the first loop publishes the immutable files and sorts out indexes and manifests for later; stopped early, its publications are a beginning of those of the specification |
| CacheDirectory.CacheDir.InstallCollected | internal/deps/import.go:72-89 | the two later loops, likewise |
| CacheDirectory.CacheDir.Import | internal/deps/import.go:25-92 | verification, three loops with a cancellation test before every file, and verification again: success means the publications the crash results are about, any other exit a beginning of them |
| BundleExport.CopyPinnedExported | internal/deps/export.go:132-184 | copying all entries of a pinned index, aliases included, gives each of them in the copy, leaves other keys alone and un-caches nothing |
| BundleExport.ImageExported | internal/deps/export.go:132-184 | copying one image succeeds, makes it cached and un-caches none copied before |
| BundleExport.ExportedAreCached | internal/deps/export.go:112-116 | exporting any selection of cached images succeeds; every image is cached in the fresh cache from its own copy on |
| ExportDirectory.CopyImage | internal/deps/export.go:132-184 | the copy loops over repository directories compute the specification, or an access went wrong or the specification fails; `CopyOutcome` and `RecordedEntries` say what that is |
| CopyOutcome.CopySucceeds | internal/deps/export.go:132-184 | for any two directories: the copy succeeds if and only if manifest, config, layers and a pinned index are in the source, the manifest decodes, and the indexes that are read can be read |
| CopyOutcome.CopyLeaves | internal/deps/export.go:132-184 | it then leaves each of these files as the source has it and every other blob as it was, but for the image index it rebuilds for a tag |
| RecordedEntries.CopyRecords | internal/deps/export.go:155-184 | and the image's own entry, in the index and in the image index of a tag without another pinned index, with digest, size, media type and os and arch exactly when the platform's text has these two parts |
| ExportDirectory.Export | internal/deps/export.go:112-116 | the loop over the images does too |
| NeatCaches.StoringNeat | internal/deps/components_zot.go:141-212 | storing a portable image keeps, after every operation, a repository in which every index entry is rightful (its blob is there, its size true, its tag names what the tag's images want), keys are unique and no image index has matching entries |
| NeatCaches.CopyNeat | internal/deps/export.go:132-184 | so does exporting one |
| NeatCaches.NeatIsExportable | internal/deps/export.go:132-184 | such a repository with some of its images cached meets every hypothesis that the export results make about their source |
| BundleRoundTrip.DownloadedIsNeat | internal/deps/download.go:608-675 | a download that returns nil leaves such repositories, with every image cached, over every interleaving |
| BundleRoundTrip.DownloadedIsExportable | internal/deps/export.go:112-116 | so any selection of the downloaded images can be exported |
| BundleRoundTrip.NeatIsWhole | internal/deps/import.go:25-49 | and the files of such a cache, a fresh export in particular, are whole, and with a true inventory a whole bundle, as the import results assume |
| BundleRoundTrip.RoundTrip | internal/deps/export.go:112-116 | download, export, import elsewhere: when the download returned nil, the import of the exported selection into any whole cache that does not know the image's tag succeeds, leaves that cache whole, and the image is cached there |
| BundleRoundTrip.FreshRoundTrip | internal/deps/download.go:608-675 | starting from an empty cache nothing is assumed about any cache but the receiving one |
| SecretStore.FileStore.VaultKeyFor | internal/fakevault/store.go:321-365 | the key handed out is the one in the keyring and in memory; it is created only when the keyring has none; other clusters' keys are unchanged |
| SecretStore.FileStore.SetSecret | internal/fakevault/store.go:95-185 | a write succeeds exactly at the expected version, raises the version by one, clears the archive mark and touches no other place; refused and failed calls change nothing except a write whose directory sync fails; `SecretPaths` says which place a path is |
| SecretStore.FileStore.WriteAt | internal/fakevault/store.go:122-185 | the write itself, after the path checks |
| SecretStore.FileStore.CreateSecret | internal/fakevault/store.go:104-109 | creating is a write at version zero: it never overwrites, archived secrets included |
| SecretStore.FileStore.GetSecret | internal/fakevault/store.go:188-207 | a read returns the values last written at its place unless archived or absent, and always decrypts; with a usable key and no failing access it gives no error |
| SecretStore.FileStore.ReadAt | internal/fakevault/store.go:188-207 | the read itself, with decryption |
| SecretStore.FileStore.SetArchived | internal/fakevault/store.go:404-418 | archiving and restoring keep values and version |
| SecretStore.FileStore.DeleteSecret | internal/fakevault/store.go:220-235 | removes one secret and nothing else |
| SecretStore.FileStore.DeleteCluster | internal/fakevault/store.go:239-254 | removes all secrets of one cluster and its key; stopped in between it leaves no secret without its key; secrets, keyring entries and keys in memory of other clusters stay as they are |
| SecretStore.FileStore.ListSecrets | internal/fakevault/store.go:266-309 | lists exactly the stored paths of the cluster in order, with value names, version and mark |
| SecretStore.FileMeans | internal/fakevault/store.go:143-185 | a stored file of the first format counts as version one, others as theirs; the seal is aes-256-gcm |
| SecretPaths.CleanedPath | internal/fakevault/store.go:312-317 | a path without blanks or slashes at its ends and without `v1/` in front names its place also with blanks around, with `/`, `v1/` or `/v1/` in front, and with slashes before and after, but for `v1` with a slash after it |
| SecretPaths.PlainNamesItself | internal/fakevault/store.go:312-317 | in particular it is its own place, alone and after `/`, `v1/` and `/v1/` |
| SecretPaths.CleanedTwice | internal/fakevault/store.go:312-317 | cleaning twice is not cleaning once: `/v1/v1/p` names the place `v1/p`, whose own text names the place `p` |
| SecretPaths.CleanedCluster | internal/fakevault/store.go:518-527 | a cluster ID is taken without its outer blanks, and refused exactly when it is a dot or two dots or has a slash or backslash |
| SecretPaths.CleanedPlace | internal/fakevault/store.go:500-515 | a path of segments is its own place under its cluster, and refused exactly when the cluster ID is bad or a segment is empty, a dot, two dots or has a backslash |
| SecretPaths.EmptyPlace | internal/fakevault/store.go:500-515 | a path of blanks, a prefix and slashes only is refused |
| SecretPaths.WriteBetweenReads | internal/fakevault/store.go:95-207 | on the store, with any failures: a write at one accepted path is read back there, and reads that succeed before and after it at any other path or cluster give the same |
| SecretHistory.HistoryDecides | internal/fakevault/store.go:95-235 | over every history of writes, marks and removals: a secret is there exactly when written since its last removal, its version counts those writes, its values are the last written, its mark is the last since that write |
| SecretHistory.Serve | internal/fakevault/store.go:95-309 | every sequence of calls on an empty store, with any failures, has such a history: the store ends as it says, each call's effects are those its answer tells, and each read and listing is read off the history before it |
| SecretHistory.Perform | internal/fakevault/store.go:95-309 | the same for one call; a cluster removal that stops half-way is a sequence of single removals |
| SecretHistory.ReadsLastWrite | internal/fakevault/store.go:188-207 | a read returns the last write since the last removal unless archived since |
| SecretHistory.ArchiveThenRestore | internal/fakevault/store.go:210-217 | archiving hides a secret and restoring brings back exactly what was there |
| SecretHistory.WriteThenRead | internal/fakevault/store.go:122-207 | a write is read back at once, and no other read changes |
| SecretAgreement.OneValue | internal/local/component_secrets.go:47-70 | for any number of clients of both kinds, any interleaving and failures: at most one create succeeds and all clients that succeed, whenever, hold the same value |
| SecretAgreement.UndisturbedSucceed | internal/local/workload_ca.go:20-59 | without failing calls and archiving a client fails only on an unacceptable stored value or because it may not create |
| SecretAgreement.DeletionBreaksAgreement | internal/local/component_secrets.go:47-70 | the assumption is needed: a deletion in between lets two clients succeed with two values |
| SecretAgreement.CreateIsMove | internal/fakevault/store.go:104-109 | every outcome of a create call is the machine's create, or an interruption that may have written |
| SecretAgreement.NextCall | internal/local/workload_ca.go:20-59 | every call a client makes on the store is a move of the machine, in the order of the code |
| SecretAgreement.Schedule | internal/local/component_secrets.go:47-70 | any schedule of clients' calls, others' archiving and writes elsewhere, with any failures, is a run of the machine, so all clients that succeed agree and at most one wrote; without failures no call of a client is an interruption |
| SecretAgreement.EnsureComponentSecret | internal/local/component_secrets.go:47-70 | create once, else read and validate: success means the store holds the returned value in its field `value`, and an existing secret is never changed; without failures it returns the value just created, or the stored one exactly when that is acceptable |
| SecretAgreement.EnsureWorkloadCAKey | internal/local/workload_ca.go:20-59 | read, create when allowed, re-read after a lost race: the same guarantees, no write at all without permission to create, and the exact result when nothing fails |
| ComponentGraph.Walker.Walk | internal/components/resolve.go:43-63 | the recursive closure over a possibly cyclic graph terminates, marks only reachable known names and closes over dependencies, or meets a reachable unknown name |
| ComponentGraph.ResolveEnable | internal/components/resolve.go:35-75 | fails exactly when a reachable name is unknown; otherwise the sorted lists hold exactly the reachable names not yet enabled, split as `Get` finds them |
| ComponentGraph.PlanUnique | internal/components/resolve.go:35-75 | this determines the result |
| ComponentGraph.EnabledDependents | internal/components/resolve.go:80-101 | exactly the enabled entries of either kind that list the name, in order |
| MergePatch.MergeKeeps | internal/components/patch.go:20-46 | a JSON merge patch (section 2 of RFC 7396) leaves unchanged every path at which the patch does not speak |
| MergePatch.MergeSets | internal/components/patch.go:20-46 | and sets what it holds, over any old value |
| MergePatch.MergeMakesObjects | internal/components/patch.go:20-46 | with objects above it |
| MergePatch.MergeRemoves | internal/components/patch.go:20-46 | and removes what it holds null for |
| MergePatch.BuildEnabledPatch | internal/components/patch.go:50-75 | the loops that fill nested maps build the patch |
| MergePatch.PatchFlips | internal/components/patch.go:50-75 | after the patch every listed app and CRD has the flag at its place, whatever the document was |
| MergePatch.PatchKeepsOthers | internal/components/patch.go:50-75 | and every path neither above nor below one of these flags is as it was |
| MergePatch.PatchThenRead | internal/components/config.go:99-166 | so reading the components of any document after the patch gives those before with the listed ones flipped; `ComponentValues` says what reading is |
| ComponentValues.ReadComponents | internal/components/config.go:99-166 | reading, on documents: the apps and CRDs are exactly the keys of the two objects at their literal paths, `enabled` and `core` hold exactly where the field is true, and `dependsOn` is the array's texts in order, with an empty text for null, and empty when absent or null |
| ComponentValues.DecodesExactly | internal/components/config.go:99-166 | values decode exactly when every field on the way has the type that the reader declares, or is null or absent |
| MergePatch.PatchBelow | internal/components/config.go:43-68 | patching the release and laying it over the chart's defaults is laying it over and patching then, when the release overrides no object on the patch's way by something else |
| MergePatch.PatchThenReadOverDefaults | internal/components/config.go:43-68 | so under that condition the same holds for the merged values that are read |
| HelmValues.ReadableCarries | internal/components/config.go:99-166 | the condition holds whenever the merged values decode and the components to flip were found in them |
| HelmValues.FlippedThroughDefaults | internal/components/patch.go:20-46 | so patching the overrides flips, in the merged values, exactly the listed components that were read, and these values decode again |
| InstallRuns.PatchClosesExactly | internal/cmd/install.go:72-139 | however old the reading a patch was planned from, the patch keeps the enabled components closed under dependsOn if and only if it is fresh: all that the plan counts on as enabled still is, or for an uninstall no enabled component depends on the name |
| InstallRuns.PlanEnables | internal/components/resolve.go:35-75 | an old plan enables all that the component reaches if and only if everything reached that it saw enabled still is |
| InstallRuns.RunsStayClosed | internal/cmd/install.go:72-139 | over every sequence of patches, of any commands and planned from any readings, from a closed start: all states are closed if and only if every patch was fresh when it arrived |
| InstallRuns.UndisturbedRunsClose | internal/cmd/install.go:72-139 | in particular when only installs, or only uninstalls, came between each reading and its patch: any interleaving of installs, and commands one after another, stay closed |
| InstallRuns.StaleInstallBreaks | internal/cmd/uninstall.go:82-86 | that is needed: an uninstall of b and then an install of a, which needs b, planned from the configuration before, leave a enabled and b disabled |
| InstallRuns.CoreStays | internal/cmd/uninstall.go:63-68 | no sequence of patches, however old their readings, disables a core app or a CRD chart |
| InstallCommands.CommandCloses | internal/cmd/install.go:72-139 | what one command sends is such a sequence, and closed throughout when its reading is up to date |
| InstallCommands.Cluster.SetEnabled | internal/components/patch.go:20-46 | the patch command on the release object flips exactly the listed components in what the object asks for over the chart's defaults, whatever is deployed, and sends nothing for empty lists |
| InstallCommands.Cluster.EnableOperator | internal/cmd/install.go:107-139 | the operator-first phase, planned from the state read at the start: it succeeds exactly when the cluster is known, the operator's dependencies are, its patch goes through if one is needed, and the secrets API comes up |
| InstallCommands.Cluster.Install | internal/cmd/install.go:43-157 | reads the deployed release over the defaults and patches the object: every exit has sent nothing, the operator patch, the final patch, or both; the exact condition of success, answers and failures included; no patch before a needed yes, the podplane-operator's first when secrets are required; success enables all that the component reaches if and only if nothing of it that was read as enabled was disabled since; unreadable values and unknown dependencies send nothing |
| InstallCommands.Cluster.Uninstall | internal/cmd/uninstall.go:42-88 | the guards of uninstall in order, on what is deployed; CRD charts, core apps and needed apps are refused without a patch; it succeeds exactly when no guard refuses and an enabled app's patch was confirmed and sent, and then the app is disabled |
| ComponentValues.InstallFromCurrent | internal/cmd/install.go:43-157 | on documents, from an up-to-date reading: after a successful install the component, and every name that a chain of dependsOn arrays leads to from it, is enabled at its path |
| ComponentValues.UninstallFromCurrent | internal/cmd/uninstall.go:42-88 | and a successful uninstall of an enabled app found no enabled component that lists it, and leaves it not enabled at its path |
| ServiceNetworks.TwoWordsAdd | internal/clusterconfig/service_network.go:63-84 | adding to the low word and carrying into the high one is addition modulo 2^128 |
| ServiceNetworks.CoreDNSAddr | internal/clusterconfig/service_network.go:63-84 | the reserved DNS address of every prefix: the last but one address of a canonical IPv4 range, offset 65535 into an IPv6 range modulo 2^128, none for an IPv4 range of fewer than four addresses |
| ServiceNetworks.CapacityCheck | internal/clusterconfig/service_network.go:51-54 | the check on the DNS address passes if and only if the IPv4 length is at most 30 or the IPv6 length at most 112 |
| ServiceNetworks.ServiceNetworkFromCIDRs | internal/clusterconfig/service_network.go:26-60 | accepts exactly the canonical, IPv4-first, one-per-family lists with room, and reserves inside each range an API address and a higher DNS address |
| ServiceNetworks.DefaultNetwork | internal/clusterconfig/service_network.go:14-40 | without ranges the network is 198.18.0.0/15 and fdc6::/108 with their reserved addresses |
| ServiceNetworks.InsideMeansAllInside | internal/clusterconfig/validate.go:560-598 | a canonical IPv4 subnet passes the VPC check if and only if all its addresses lie in the VPC |
| ProviderVersions.ProviderVersionFor | internal/buildvars/provider.go:29-65 | the code with its array of parsed numbers computes the map, and fails exactly outside the accepted releases |
| ProviderVersions.ParseFormat | internal/buildvars/provider.go:65 | a printed canonical version reads back as itself |
| ProviderVersions.FormatParse | internal/buildvars/provider.go:15-54 | a release text is its version printed, up to the optional v |
| ProviderVersions.AcceptedTexts | internal/buildvars/provider.go:15-54 | a text denotes a version exactly when it is that version's text, with or without a v, and its prerelease identifiers follow the grammar of section 9 of Semantic Versioning 2.0.0 |
| ProviderVersions.ProvidedNumbers | internal/buildvars/provider.go:29-65 | and is provided as 1.(100 + m) for 0.m below 900, as 1.(1000 + m) for 1.m within 64 bits, as it is from 2 on, with patch and prerelease kept; all else is refused |
| ProviderVersions.MapKeepsOrder | internal/buildvars/provider.go:55-64 | on versions the map keeps precedence (section 11 of Semantic Versioning 2.0.0) in both directions, is injective, and its numbers stay below 2^64 |
| ProviderVersions.OutputIsCanonical | internal/buildvars/provider.go:29-65 | the output is again the text of a canonical version, the image of the input's |
| ProviderVersions.StrictlyMonotone | internal/buildvars/provider.go:29-65 | over all accepted releases the map keeps precedence in both directions |
| ProviderVersions.Injective | internal/buildvars/provider.go:29-65 | two releases share a provider version exactly when they are the same text up to the v |
| ProviderVersions.DevPrecedesAll | internal/buildvars/provider.go:30-32 | the development version precedes the provider version of every release |
| ClusterDelete.ZeroShardConfig | internal/clusterdelete/delete.go:216-241 | the nested loops set every group size to zero; change is reported if and only if some group object had another size, and a document that is neither object nor null is refused |
| ClusterDelete.ZeroOneTenant | internal/clusterdelete/delete.go:224-233 | the inner loop over one tenant's groups |
| ClusterDelete.ZeroedGroup | internal/clusterdelete/delete.go:216-241 | afterwards every group that is an object has size zero, and no group appears or disappears |
| ClusterDelete.ZeroKeepsOthers | internal/clusterdelete/delete.go:216-241 | every path that is not a group's size, nor above or below one, is unchanged |
| ClusterDelete.ZeroTwice | internal/clusterdelete/delete.go:216-241 | a second run finds nothing to change |
| ClusterDelete.ScaleShards | internal/clusterdelete/delete.go:120-125 | shards are scaled in order of name and the first failure ends the run; afterwards no shard config asks for an instance and no other object changed |
| ClusterDelete.WaitForManagedInstances | internal/clusterdelete/delete.go:247-275 | the wait in full: it goes on polling while instances are left and nothing stops it, retries failed listings, and ends with what the last good listing left, empty only from an empty listing |
| ClusterDelete.TerminateFirst | internal/clusterdelete/delete.go:135-156 | termination follows a yes and names exactly the instances listed last; success means a later listing was empty |
| ClusterDelete.DestroyAndSweep | internal/clusterdelete/delete.go:158-178 | destroy follows an empty listing and a yes directly; then the sweep |
| ClusterDelete.Delete | internal/clusterdelete/delete.go:86-179 | for all answers, failures and deadlines: nothing follows a failure or refusal, destroy comes only after every shard was scaled to zero, an empty listing and a yes; the run succeeds exactly when the cluster was destroyed and the sweep finished, and fails only when something stopped it |
| ClusterDelete.DestroyedOnce | internal/clusterdelete/delete.go:158-168 | destroy happens at most once in such a run |
| ShellPrompt.Split | internal/deploy/shell_prompt.go:188-227 | the tokenizer loop yields the words between blanks after backslashes and quotes have done their work, none of them empty, and fails exactly on unbalanced quotes |
| ShellPrompt.FailsWhenLeftOpen | internal/deploy/shell_prompt.go:216-221 | that is exactly when, after a closed part, an unescaped quote character opens that no unescaped one closes |
| ShellPrompt.SplitUndoesSpelling | internal/deploy/shell_prompt.go:188-227 | every spelling of non-empty words, by escapes, quotes or both, with any blanks between, is read back as these words |
| ShellPrompt.SplitUndoesEscape | internal/deploy/shell_prompt.go:188-227 | in particular escaped words joined by spaces |
| ShellPrompt.EscapedSpells | internal/deploy/shell_prompt.go:196-212 | any mixture of plain and escaped characters in which the special ones are escaped spells the word |
| ShellPrompt.QuotedSpells | internal/deploy/shell_prompt.go:201-208 | a quoted text spells its word: inside a quote a backslash takes the next character as it is, and any other character stands for itself |
| ShellPrompt.PlainInQuotes | internal/deploy/shell_prompt.go:201-208 | in particular any word without that quote and without backslashes, blanks included |
| ShellPrompt.TrailingBackslash | internal/deploy/shell_prompt.go:216-218 | a backslash at the end of the line stands for itself |
| ShellPrompt.SpellsTogether | internal/deploy/shell_prompt.go:188-227 | spellings side by side, quoted or not, spell the words side by side |
| ShellPrompt.LeadingBlanks | internal/deploy/shell_prompt.go:208-212 | blanks in front change nothing |
| ClusterIds.ClusterIDFromName | internal/clustercreate/tui.go:595-614 | the loop with its builder and flag yields the name's words of letters and digits with one hyphen between them, cut to 32 characters |
| ClusterIds.LettersAndDigits | internal/clustercreate/tui.go:595-614 | the characters that a word keeps are exactly the 26 small letters and the ten digits, each written out |
| ClusterIds.CaseDoesNotMatter | internal/clustercreate/tui.go:595-614 | names that differ only in capital and small letters have the same ID |
| ClusterIds.CutAfter32 | internal/clustercreate/tui.go:609-613 | a slug longer than 32 characters is cut there, and a hyphen at the cut is dropped |
| ClusterIds.DerivedIsValid | internal/clusterconfig/validate.go:63-79 | a derived ID is empty exactly for names without a letter or digit; otherwise it passes validation unless it is a reserved name |
| ClusterIds.DerivedIsIdentity | internal/clustercreate/tui.go:595-614 | every string that already meets the grammar and the length limit is its own ID |
| ClusterIds.DerivedTwice | internal/clustercreate/tui.go:595-614 | deriving twice is deriving once |
| SortedNames.SortNames | internal/fakevault/store.go:535-542 | names in ascending order, each once |
| SortedNames.SortedUnique | internal/fakevault/store.go:535-542 | there is only one such list |
| SortedNames.LessMeans | internal/fakevault/store.go:535-542 | the order: at the first place where two texts differ the smaller character decides, and a proper prefix comes first |

## Left out

- The download is a step machine on values, not threads: a move is one action of one goroutine, and setting the first error and cancelling are one move, as are a lock's creation and its acquisition.
- Jobs that download plain files are opaque, and so are events, progress and HTTP; the choice of pending jobs and the marking of cached images in `Download` only add easy members.
- SHA-256 is ideal: a digest is its content. Encryption is an ideal seal that opens only with its key, nonce and path.
- JSON is abstract: a document is its decoded fields, and the length of a written index stands for a function of that index; a digest text that is not SHA-256 makes a document unreadable.
- The registry client is taken to check fetched content against the digest asked for and, for config and layers, the recorded size; a platform override of the client is not part of this model.
- A file is read or written in one step, which may fail; a failing write in place leaves any content in the whole file. Directory creation, permissions, symbolic links and temporary files are not part of this model, only the publish by rename.
- DownloadResult.CompletedIsCached: promises nothing for a repository in which a broken write left a spoiled file, not even for images completed later; `CutIndexUncaches` shows why it cannot for the earlier ones.
- The step machine also lets a layer write leave a spoiled file, which the code does not; `RepoDirectory` has it exactly.
- Import takes the inventory already sorted into blobs, indexes, manifests and others; what `VerifyOffline` checks is not part of this model, only that it may fail.
- BundleRoundTrip.RoundTrip: the packing of the exported files into an archive and their unpacking are not part of this model; the bundle holds the exported repositories and any other files.
- ImportCrash.ImportEnds: assumes a bundle that is what its inventory promises, whose sizes are true and whose image indexes hold no matching pairs, and a cache whose indexes are readable and name only present blobs.
- Export is modelled for the images; artifacts, git snapshots, charts and manifest files are copied by other code.
- SecretStore.FileStore.DeleteCluster: a removal that fails half-way removes an arbitrary subset of the files.
- Timestamps in secret files, the check that values are valid text, and file locking between processes are not part of this model; the mutex makes each call one step.
- SecretAgreement.OneValue: holds without deletion of the secret; `DeletionBreaksAgreement` shows why.
- InstallCommands.Cluster.Install: required secrets are an answer from outside, and so is the operator's own configuration inside the values; key names are matched exactly, where the decoder ignores case.
- The deployed release is the last state of the release object that was carried over (`Reconcile`) or the first one; edits of the object by others are not part of this model.
- MergePatch.PatchThenReadOverDefaults: takes Helm's merging of defaults and overrides to be a JSON merge patch.
- CIDR texts are parsed by the standard library; a text that does not parse is an absent value.
- ShellPrompt.Split: lines are sequences of characters, so bytes that are not valid UTF-8 do not occur.
- ClusterIds.ClusterIDFromName: lower-casing is modelled as far as it can produce the letters a to z.
- Deadlines and cancellation in `ClusterDelete` are answers of the outside world, with a bound on the polls of one wait that is part of that world; output parsing starts from decoded outputs.
- The checks for missing options in `Delete`, and a provider whose object updates are not one read-modify-write step, are not part of this model.
- The form, printing, command wiring, HTTP routes, tokens and TLS, VM readiness, keychain calls and OIDC flows.
- Most validators of the cluster configuration: long lists of independent checks.
