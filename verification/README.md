# A verified model of the CI actions

This project models the parts of the CI actions repository that other systems rely on: the texts that are hashed, the
admission client, path confinement, the deterministic tree walks, the stateful writer and cache, the ranged download and
the scope decision. Every claim is proved for all inputs, all runs or all reachable states. `dafny verify dfyconfig.toml`
checks the whole project.

Source code that computes a value by expressions and recursion is a function here. Source code that changes state is a
method or a class with the source's fields, proved equal to a function of the old state, and the properties are lemmas
about that function. A thrown error is a `None`, an `Err` or a named outcome. Hashes, clocks, collation, URL parsing and
secret-value patterns are parameters, so no property rests on their details and every claim about a hash is a claim about
the text that is hashed.

## How the files fit together

- `Options`, `Text`, `Sorting`, `Chunks`, `Utf8`, `Utf8Repair`, `Utf16`: strings as UTF-16 code units, the `<` order on
  them, `split` and `join`, the stable sort, UTF-8 and its replacing decoder.
- `JsonValue`, `JsonText`, `Canonical`, `CanonicalText`, `CanonicalOrder`: JSON values in own-property order (section
  10.1.11 of ECMA-262), `JSON.stringify` and `JSON.parse` (section 25.5 of ECMA-262, section 7 of RFC 8259), the three
  canonicalisers.
- `PackageSource`, `RecordIdentity`, `RecordContent`: package-source records, their identity and payload preimages.
- `BoundedReader`, `CloudAdmission`, `CloudReceipt`, `Lease`, `LeaseReplies`, `PackageDispatch`, `PackagePayload`,
  `CommandEscape`: the admission client.
- `Paths`, `ResolveInside`, `InstallTarget`: path confinement.
- `ReleaseWalk`, `ReleaseListing`, `LockWalk`, `LockOrder`, `LockEvidence`, `LockAmbiguity`: the tree walks.
- `TelemetryWriter`, `TelemetryRuns`, `JobContext`, `JobCache`: the writer and the cache, one call and whole runs.
- `RangedDownload`, `CiScope`, `Redact`, `RedactBounds`: download, scope and redaction.

## Where the code does less than its comments or its reader may expect

- The comment at ci-admission/index.mjs:660-661 says the saved marker keeps a failed acquire from being taken for a
  second main run. The marker is lost when its write fails, and silently when GITHUB_STATE is unset, because
  `appendKeyValue` returns on an empty path. A post run that starts then acts as a main run.
  `Lease.PostReleasesExactlyTheGrant` says what post sends in every case.
  - Acquire is sent at most once in every run exactly when GITHUB_STATE is set or the inputs call for no acquire
    (`Lease.AcquireIsSentAtMostOnce`). Two are sent exactly when it is unset and both processes accept the inputs, each
    checking DEADLINE-AT by its own clock (`Lease.AcquireIsSentTwice`).
  - `Lease.PostAcquiresIff` states when post acquires, and `Lease.PostCanAcquire` gives a run with a state file.
  - `Lease.ReleasesUngrantedIff` states when post releases a lease the run was not granted: the marker is lost and the
    operation is an acceptable explicit release, which post then repeats.
- Sorting with `localeCompare` forgets the input order exactly when collation tells the strings apart
  (`RecordIdentity.SortedUniqueIff`). Two different names that collate as equal keep their input order in the record, and
  two lock files whose paths do keep their enumeration order in the digest (`LockOrder.OneSortedListIff`,
  `LockEvidence.OneEvidenceIff`).
- The lock-file walk tests its cap only on entering a directory, so it can return more than 1024 files
  (`LockWalk.BoundIsReached`), and whether it succeeds can depend on the enumeration order
  (`LockWalk.SuccessDependsOnOrder`). `LockOrder.SucceedsInEveryOrderIff` states exactly when it does not.
- The lock digest's framing is injective on files without NUL bytes. With NUL bytes in a file, another tree with other
  lock files hashes the same bytes exactly when some NUL-delimited field of the preimage, after the first two and before
  the last two, spells a lock file that can stand beside the first one and does not collate before it
  (`LockAmbiguity.AmbiguousIff`). With two lock files or more that is always so: one file can hold the rest. With one
  file it means that its content holds such a path between NUL bytes (`LockAmbiguity.OneFileAmbiguousIff`).
  `LockAmbiguity.TwoTreesOneEvidence` gives two trees.
- The message at ci-admission/index.mjs:317 says an API path must bind the producer. It binds the commit and the segments
  below the producer. It fails to bind the producer exactly when one of two producers is the other followed by
  `/contents`, alone or with further safe segments (`PackagePayload.PathBindsProducer`); `a` and `a/contents/x` are such
  a pair (`PackagePayload.PathNeedNotBindProducer`), and producers without a slash never are
  (`PackagePayload.PathBindsPlainProducer`).
- `normalizePath` strips one leading `./` only (`CiScope.NormalizeTwice`, `CiScope.NormalizeIsStableIff`).
- From an empty set of changes `full` can be lost by adding a path, because an empty diff is a fallback. It is lost
  exactly to a set within the limit that no trigger matches (`CiScope.EmptyLosesFullIff`, `CiScope.FullIsLost`).
- A redacted string can exceed `maxStringBytes`: exactly when it is cut and the characters that fit leave one or two
  bytes of the limit unused (`RedactBounds.TruncateExceedsIff`). The excess is at most two bytes
  (`RedactBounds.TruncateBoundIsReached`), and the placeholder itself is not cut.
- The comment at lib/telemetry-fallback.mjs:92-93 says the files of one directory never split. They do exactly when a
  call after the first successful one is refused there for permission and succeeds in another directory
  (`TelemetryRuns.DirectorySplitsIff`); `TelemetryRuns.SplitWhenPermissionChanges` is such a run.
- The second size check of the bounded reader fires only for bodies that are not valid UTF-8
  (`BoundedReader.SecondCheckNeverFires`, `BoundedReader.SecondCheckCanFire`).
- The manifest's files are ordered segment by segment, not as texts (`ReleaseListing.SegmentOrderIsNotTextOrder`).

## Model

| member | source | states |
|---|---|---|
| Sorting.SortIsStable | package-source-v2/index.mjs:56 | elements the comparison calls equal keep their input order |
| Sorting.ForgetsOrderIff | package-source-v2/index.mjs:56 | a stable sort of distinct elements gives one list for every input order if and only if the comparison separates them |
| Text.StrLessIsTotal | lib/contract.mjs:82 | the order of `sort()` without a comparator is a strict total order on strings: where two texts first differ, the smaller has ended or has the smaller code unit |
| Text.SpacesAre | detect-ci-scope/detect-ci-scope.mjs:9 | the 25 units that `trim` removes (sections 12.2 and 12.3 of ECMA-262) |
| Utf8.DecodeRoundTrip | ci-admission/index.mjs:203 | decoding valid UTF-8 yields the text it encodes |
| Utf8Repair.CutShort | lib/contract.mjs:113-117 | a character cut short, before the end or before a byte that cannot go on, is decoded as one U+FFFD and reading goes on with that byte |
| Utf8Repair.StrayByte | ci-admission/index.mjs:203 | a byte that begins no character is decoded as one U+FFFD |
| Utf8Repair.MarkIsDropped | ci-admission/index.mjs:203 | the text decoder drops one leading byte order mark and nothing else |
| Utf16.BytesCounted | release-manifest/release-manifest.mjs:45 | the byte length of a string, counted over surrogate pairs and lone surrogates, is the length of its UTF-8 buffer |
| Utf16.UnitsOfScalars | lib/contract.mjs:113-115 | a string is recovered from its code points exactly when it has no lone surrogate |
| Utf16.ToBytesInjective | setup-dotnet-nuget/cache-evidence.mjs:62 | well-formed strings with equal UTF-8 bytes are equal |
| JsonText.PrintRoundTrip | lib/contract.mjs:73-75 | every printed value, at any indentation and before any following text, is parsed back to what printing keeps of it |
| Canonical.CanonTreeIffSame | lib/contract.mjs:77-87 | canonical trees are equal exactly when the values agree up to member order at every depth |
| Canonical.CanonTreeSame | lib/contract.mjs:77-87 | canonicalising loses nothing but member order and is idempotent |
| Canonical.SortValueIdempotent | lib/contract.mjs:77-87 | sorting a sorted value changes nothing |
| Canonical.SortValueIffReordered | lib/contract.mjs:77-87 | two values sort to one exactly when one is the other with the members of its objects in another order, at any depth |
| Canonical.PrintedSortValue | lib/contract.mjs:73-87 | what is printed of a sorted value is its canonical tree |
| Canonical.CanonicalValueIs | package-source-v2/index.mjs:27-41 | the canonical value exists exactly for values with finite numbers, and then prints as the canonical tree |
| CanonicalOrder.SortedIsAscending | lib/contract.mjs:77-87 | in every object of a sorted value and of a canonical tree, at every depth, array indices come first in ascending order and the other keys follow by code unit at their first difference |
| CanonicalOrder.ArrayIndexIff | lib/contract.mjs:81-85 | an array index is the decimal text of an integer below 2^32 - 1 |
| CanonicalOrder.StableTextOfPair | lib/contract.mjs:73-87 | one stable text letter by letter, with its indentation, escapes and key order |
| CanonicalText.StableStringifyIff | lib/contract.mjs:73-87 | two stable texts are equal exactly when the values agree up to member order |
| CanonicalText.StableStringifyRoundTrip | lib/contract.mjs:73-87 | parsing a stable text gives the canonical tree, which agrees with the value and has the same stable text |
| CanonicalText.CanonicalJsonIff | package-source-v2/index.mjs:27-45 | `canonicalJson` succeeds exactly on finite values, and its texts are equal exactly when the values agree |
| CanonicalText.TransformsAgree | package-source-v2/index.mjs:27-41 | on JSON values `sortValue` and `canonicalValue` give the same tree |
| CanonicalText.ReplacerIsSort | ci-admission/index.mjs:534-538 | printing with the sorting replacer is sorting first and printing then |
| CanonicalText.ConfigurationTextIsCanonical | ci-admission/index.mjs:530-539 | print, parse, print hashes the compact canonical text, the one `canonicalJson` hashes, and never fails |
| CanonicalText.ConfigurationTextIff | ci-admission/index.mjs:530-539 | equal configuration preimages mean configurations that agree up to member order |
| PackageSource.BuildTable | package-source-v2/index.mjs:98-102 | the loop fills a map from each name to its package and stops exactly at a repeated name |
| PackageSource.SelectWithTable | package-source-v2/index.mjs:94-107 | selecting through the map is selecting by search in the sorted, duplicate-free names |
| RecordIdentity.SortedUniqueIff | package-source-v2/index.mjs:51-59 | the accepted list does not depend on input order if and only if collation separates its strings |
| RecordIdentity.SelectPermuted | package-source-v2/index.mjs:94-107 | permuting the catalog's packages changes neither success nor the selection |
| RecordIdentity.RecordForgetsOrder | package-source-v2/index.mjs:131-185 | permuted names, packages, checks and consumers and members reordered at any depth give a record for both sources or for neither, alike up to member order |
| RecordIdentity.PreimagesForgetOrder | package-source-v2/index.mjs:157-203 | such sources have equal preimages of `recordId` and of the digest |
| RecordIdentity.RecordLegal | package-source-v2/index.mjs:131-180 | a created record is a JavaScript value with distinct keys in own-property order |
| RecordIdentity.IdentityDeterminesPayload | package-source-v2/index.mjs:157-203 | equal identity preimages force equal fields, agreeing packages and evidence, and equal payload preimages |
| RecordIdentity.SelectionIsExact | package-source-v2/index.mjs:94-107 | the selection holds each requested package exactly once, in collation order, with metadata taken from the catalog |
| RecordIdentity.EvidenceIsComplete | package-source-v2/index.mjs:109-129 | normalised evidence has exactly the five kinds in their fixed order, each verified and with a SHA-256 digest |
| RecordContent.RecordHolds | package-source-v2/index.mjs:61-180 | what a created record holds under which key, read from the source's own JSON: the requested packages in collation order with each field of their catalog entries, the five descriptors, and every member of the two hashed objects |
| RecordContent.RecordExistsIff | package-source-v2/index.mjs:61-156 | exactly when there is a record: provenance, times, every catalog entry, the requested names and all five descriptors |
| RecordContent.CoercedTexts | package-source-v2/index.mjs:81-118 | what `String` makes of the values that the patterns are matched against |
| BoundedReader.Reader.Read | ci-admission/index.mjs:173-210 | the loop computes the reference outcome for every stream and abort; errors cancel once, success never, the lock is released once, and the reads issued are counted exactly, none after the limit is passed |
| BoundedReader.ReaderRefinesWhole | ci-admission/index.mjs:162-210 | an unaborted stream gives the outcome of its concatenated bytes, whatever the chunk boundaries and whatever follows |
| BoundedReader.AbortIsSeen | ci-admission/index.mjs:173-210 | an abort at any await is the outcome unless the limit was passed first |
| BoundedReader.SecondCheckNeverFires | ci-admission/index.mjs:162-171 | for valid UTF-8 a body is too large exactly when its bytes are |
| BoundedReader.SecondCheckCanFire | ci-admission/index.mjs:162-171 | a body within the limit that is not UTF-8 is refused by the second check |
| CloudAdmission.ValidateReadonly | ci-admission/index.mjs:592-603 | the worklist loop terminates and accepts exactly when no object at any depth has `start_permitted` other than false |
| CloudAdmission.CloudOperation | ci-admission/index.mjs:640-654 | a reply's body is returned exactly when the checks of its operation accept it |
| CloudAdmission.PermissionIsConfined | ci-admission/index.mjs:555-603 | a returned body permits no start at any depth, unless it is a claim receipt with exactly the receipt and configuration keys, permitting at its top level only |
| CloudAdmission.PermittedRunEndsInTime | ci-admission/index.mjs:580-589 | a run started before `start_before` ends more than 30 seconds before the execution deadline |
| CloudReceipt.ReturnedIff | ci-admission/index.mjs:555-654 | exactly which bodies are returned: a claim's body that permits a start for this intent, with every field of the receipt and its configuration spelled out, or that denies one; any other body that says false and holds no permission |
| CloudReceipt.PermitsOneIntent | ci-admission/index.mjs:561-568 | no body permits a start for two intent hashes |
| CloudReceipt.IntentTextIff | ci-admission/index.mjs:629-630 | the hashed intent names the job and nothing else: intents that differ in their lease alone have one hash |
| Lease.Process.SaveState | ci-admission/index.mjs:31-46 | without a state file a save does nothing and succeeds; with one it adds its line or fails |
| Lease.Process.AcquireLease | ci-admission/index.mjs:435-482 | requests sent, state saved and outcome for every reply, with or without a state file and for every failing write |
| Lease.Process.SaveLease | ci-admission/index.mjs:478-480 | the three saves in order, up to the first that fails, or none of them without a state file |
| Lease.Process.RunAction | ci-admission/index.mjs:657-671 | a process sends and saves what its marker, operation, reply and faults determine |
| Lease.MainSaves | ci-admission/index.mjs:435-482 | which values main leaves for post: nothing without the marker, the lease only after a grant, the release flag only after all three saves |
| Lease.MainSends | ci-admission/index.mjs:657-671 | main sends the one request its inputs call for, whatever the reply and the faults, unless saving the marker throws |
| Lease.PostReleasesExactlyTheGrant | ci-admission/index.mjs:484-506 | for every fault: with the marker saved, post releases exactly the granted lease, exactly when all of it was saved and release-on-post resolved to true; with the marker lost it sends what main would |
| Lease.PostReleasesWhereAcquired | ci-admission/index.mjs:479-506 | with the marker saved, post sends its release to the endpoint main acquired from |
| Lease.PostReleasesAsAsked | ci-admission/index.mjs:60-66 | a granted lease that was saved whole is released by post exactly when the raw input says true, or is `auto` or empty for heavy validation; a word that is not understood sends nothing |
| Lease.ReleasesUngrantedIff | ci-admission/index.mjs:657-671 | post releases a lease this run was not granted exactly when the marker is lost, post's own save does not throw, and the inputs make an acceptable explicit release |
| Lease.PostAcquiresIff | ci-admission/index.mjs:657-671 | post acquires exactly when the marker is lost, post's own save does not throw, and the inputs ask for an acquire that is valid at post's time |
| Lease.AcquiresSentIs | ci-admission/index.mjs:657-671 | how many acquires main and post send together, for every combination of faults and clocks |
| Lease.AcquireIsSentAtMostOnce | ci-admission/index.mjs:657-671 | no run sends acquire twice if and only if GITHUB_STATE is set or the inputs call for no acquire |
| Lease.AcquireIsSentTwice | ci-admission/index.mjs:31-46 | main and post both send acquire exactly when GITHUB_STATE is unset for main, post's own save does not throw, and both accept the inputs, DEADLINE-AT included, by their own clocks |
| Lease.PostCanAcquire | ci-admission/index.mjs:657-662 | a run with a state file in which post acquires because the marker could not be written |
| LeaseReplies.RequestIs | ci-admission/index.mjs:243-288 | the request each operation sends, from its raw inputs: token, endpoint, deadline, release-on-post and lease id |
| LeaseReplies.MainEnds | ci-admission/index.mjs:397-482 | a main run finishes exactly when its reply is the awaited one, spelled out for every operation, and all was written; it is deferred exactly on a denial that may be deferred |
| LeaseReplies.PostReads | ci-admission/index.mjs:500-506 | what post does with the values the runner hands over, by their names |
| PackageDispatch.PathAcceptedIff | ci-admission/index.mjs:310-318 | an API path is accepted exactly when it prints as prefix, safe segments and the commit's query, and the segments are unique |
| PackageDispatch.AcceptedPathPrints | ci-admission/index.mjs:310-318 | an accepted path is the print of the segments read from it |
| PackageDispatch.PrintedPathIsAccepted | ci-admission/index.mjs:310-318 | printed segments are accepted and read back |
| PackageDispatch.PathBindsCommit | ci-admission/index.mjs:344-352 | no path is accepted for two commits |
| PackageDispatch.VersionsMatchIff | ci-admission/index.mjs:328-332 | the size and membership checks hold exactly when the packages are distinct and the version keys are a permutation of them |
| PackagePayload.Payload.FillSource | ci-admission/index.mjs:308-324 | the source fields are filled one by one, all of them exactly when every check accepts |
| PackagePayload.Payload.FillRecord | ci-admission/index.mjs:342-356 | the five record fields are added to the payload exactly when every check accepts |
| PackagePayload.Payload.Fill | ci-admission/index.mjs:307-357 | the branch succeeds exactly on acceptable inputs, and the payload then holds their fields |
| PackagePayload.PayloadBinds | ci-admission/index.mjs:307-357 | an accepted payload's paths print as prefix, safe segments and lower-case commit; its version keys are a permutation of its distinct packages; its digests agree; the record fields are there together or not at all |
| PackagePayload.AcceptedIff | ci-admission/index.mjs:307-357 | exactly which inputs are accepted, in terms of their texts and of the parsed list and table |
| PackagePayload.FieldsAre | ci-admission/index.mjs:308-356 | what an accepted payload holds under which name |
| PackagePayload.PathBindsProducer | ci-admission/index.mjs:311-318 | some path is accepted for two producers exactly when they are equal or one continues the other through `/contents`, with one commit and no question mark |
| PackagePayload.PathBindsPlainProducer | ci-admission/index.mjs:311-318 | among producers without a slash a path is accepted for one producer only |
| PackagePayload.PathNeedNotBindProducer | ci-admission/index.mjs:311-318 | two identifiers for which one path is accepted |
| CommandEscape.EscapeIsOnePass | ci-admission/index.mjs:23-25 | the three replacement passes equal one left-to-right pass that writes `%25`, `%0D` and `%0A` |
| CommandEscape.EscapeIsInvertible | lib/telemetry-fallback.mjs:26-28 | an escaped message has no CR or LF and a decoder recovers the message |
| CommandEscape.CommandIsInjective | ci-admission/index.mjs:27-29 | different messages never render as the same command |
| ResolveInside.SafeRelativePathIff | lib/contract.mjs:38-56 | exactly which inputs are safe relative paths; the final test never fires |
| ResolveInside.SafeTextIff | lib/contract.mjs:38-56 | the same, said of the input's text alone |
| ResolveInside.ResolvedIs | lib/contract.mjs:58-67 | the result is the root followed by the input's names, and among safe inputs exactly those whose first name begins with `..` are refused |
| ResolveInside.ResolvedStaysInside | lib/contract.mjs:58-67 | no result leaves the root, and it is the root only for dots and slashes ending in a slash |
| InstallTarget.ResolveReal | wrangler-pinned/wrangler-pinned.mjs:91-102 | the loop over `current` and `missing` terminates and computes the recursive definition |
| InstallTarget.RealOfIsDeepest | wrangler-pinned/wrangler-pinned.mjs:91-102 | the deepest existing ancestor is made real and the missing suffix kept |
| InstallTarget.IsInsideIff | wrangler-pinned/wrangler-pinned.mjs:109-113 | `isInside` holds exactly when the parent's segments are a proper prefix of the child's |
| InstallTarget.IsInsideIsStrictOrder | wrangler-pinned/wrangler-pinned.mjs:109-113 | `isInside` is a strict partial order |
| InstallTarget.TargetIsDisjointFromWorkspace | wrangler-pinned/wrangler-pinned.mjs:120-140 | a returned target is strictly below RUNNER_TEMP and no path lies at or below both it and the workspace |
| InstallTarget.TargetIff | wrangler-pinned/wrangler-pinned.mjs:120-140 | among admissible settings the target is refused exactly when one of the two fails |
| InstallTarget.TargetExistsIff | wrangler-pinned/wrangler-pinned.mjs:120-140 | exactly when there is a target and which one, over all settings |
| InstallTarget.Disk.ClearTarget | wrangler-pinned/wrangler-pinned.mjs:333-334 | clearing removes exactly what lies at or below the target, never a workspace entry or RUNNER_TEMP, and nothing when refused |
| RangedDownload.BuildRanges | download-ranged-artifact/download-ranged-artifact.mjs:73-82 | the counting loop computes the recursive list of ranges |
| RangedDownload.RangesPartition | download-ranged-artifact/download-ranged-artifact.mjs:73-82 | for every size and count the ranges are non-empty, adjacent, cover exactly the archive and number at most the count |
| RangedDownload.EveryByteOnce | download-ranged-artifact/download-ranged-artifact.mjs:73-82 | every byte lies in exactly one range |
| RangedDownload.AcceptedIff | download-ranged-artifact/download-ranged-artifact.mjs:90-95 | a reply is accepted exactly with status 206, a body that ends well, and the length asked for |
| RangedDownload.TempDirectory.Advance | download-ranged-artifact/download-ranged-artifact.mjs:90-95 | one step of a part request, from await to await: its file holds the chunks written so far, it settles exactly at the right status and length, and no other request or file changes |
| RangedDownload.TempDirectory.AppendBinary | download-ranged-artifact/download-ranged-artifact.mjs:97-99 | chunk-wise copying appends exactly the part |
| RangedDownload.TempDirectory.FetchParts | download-ranged-artifact/download-ranged-artifact.mjs:158-163 | for every interleaving of the requests, fulfilled only with every reply accepted and every part whole, rejected only with a refused reply, and decided whenever each request gets its steps |
| RangedDownload.TempDirectory.Download | download-ranged-artifact/download-ranged-artifact.mjs:157-188 | for every interleaving the archive is the bodies in index order exactly when all are accepted and the digest matches; otherwise the directory is removed, whatever requests in flight did meanwhile |
| RangedDownload.TempDirectory.Drain | download-ranged-artifact/download-ranged-artifact.mjs:158-188 | after the removal no step of a request still in flight brings a file back |
| RangedDownload.Reassembles | download-ranged-artifact/download-ranged-artifact.mjs:157-170 | replies that serve the requested slices are accepted and join to the archive byte for byte |
| RangedDownload.DownloadServed | download-ranged-artifact/download-ranged-artifact.mjs:156-173 | ranges, requests in any interleaving that lets them settle and assembly together yield the archive |
| ReleaseWalk.HashFile | release-manifest/release-manifest.mjs:21-29 | the stream loop hashes and counts the whole content, or fails when reading does |
| ReleaseWalk.Walker.WalkFiles | release-manifest/release-manifest.mjs:31-53 | the recursive walk over shared accumulators computes the recursive definition, failing `readdir`, `lstat` and reads included |
| ReleaseListing.WalkIsProcess | release-manifest/release-manifest.mjs:31-53 | walking a subtree is handling its listed leaves one by one |
| ReleaseListing.ProcessIff | release-manifest/release-manifest.mjs:41-51 | a list of leaves is accepted exactly when all are admissible readable files with new lower-case paths and not too many |
| ReleaseListing.WalkIsExact | release-manifest/release-manifest.mjs:31-53 | the walk succeeds exactly on readable, admissible, collision-free, small enough releases, and records every released file once in increasing path order |
| ReleaseListing.WalkForgetsEnumeration | release-manifest/release-manifest.mjs:32-33 | neither the list nor the failure depends on `readdir` order |
| ReleaseListing.ReportedPathSplits | release-manifest/release-manifest.mjs:36 | the reported path spells the walked segments uniquely |
| ReleaseListing.SegmentOrderIsNotTextOrder | release-manifest/release-manifest.mjs:33 | `a/b` precedes `a.txt` in the list but follows it as text |
| ReleaseListing.CountFiles | release-manifest/release-manifest.mjs:106-115 | `file_count` is the number of listed files and `total_bytes` the sum of their contents |
| LockWalk.Collector.CollectLockFiles | setup-dotnet-nuget/cache-evidence.mjs:23-39 | the recursive walk over the shared result computes the recursive definition, failures included |
| LockWalk.CollectsLocks | setup-dotnet-nuget/cache-evidence.mjs:23-39 | a successful walk read every directory it entered and appended exactly the lock files; up to the cap it always succeeds |
| LockWalk.LocksIff | setup-dotnet-nuget/cache-evidence.mjs:32-37 | those are the regular files of that name with no excluded directory above them |
| LockWalk.LocksDistinct | setup-dotnet-nuget/cache-evidence.mjs:32-37 | none is collected twice |
| LockWalk.CollectBound | setup-dotnet-nuget/cache-evidence.mjs:23-39 | a successful walk collects at most 1024 plus the number of directory levels |
| LockWalk.BoundIsReached | setup-dotnet-nuget/cache-evidence.mjs:23-39 | for every number of levels from two up some tree reaches that bound |
| LockWalk.SuccessDependsOnOrder | setup-dotnet-nuget/cache-evidence.mjs:24-38 | one directory, two enumeration orders, one success and one failure |
| LockOrder.SucceedsInEveryOrderIff | setup-dotnet-nuget/cache-evidence.mjs:23-39 | the walk succeeds in every enumeration order exactly when every entered directory is readable and holds all but at most 1024 of the lock files |
| LockOrder.UpToTheCapAlwaysSucceeds | setup-dotnet-nuget/cache-evidence.mjs:23-39 | readable trees with at most 1024 lock files succeed in every order |
| LockOrder.SortedListForgetsEnumeration | setup-dotnet-nuget/cache-evidence.mjs:55 | two successful walks of one tree sort to one list when collation separates the paths |
| LockOrder.OneSortedListIff | setup-dotnet-nuget/cache-evidence.mjs:55 | where every enumeration order succeeds, all of them sort to one list if and only if collation separates the lock files |
| LockEvidence.PreimageInjective | setup-dotnet-nuget/cache-evidence.mjs:56-66 | lists of NUL-free paths and contents with equal preimages are equal |
| LockEvidence.NeverTheSentinel | setup-dotnet-nuget/cache-evidence.mjs:57-66 | only the empty list has the no-lock-file preimage, whatever the files hold |
| LockEvidence.DigestLockFiles | setup-dotnet-nuget/cache-evidence.mjs:56-66 | the digest loop feeds exactly the framed list, and fails exactly when a file cannot be read |
| LockEvidence.ResolveLockEvidence | setup-dotnet-nuget/cache-evidence.mjs:55-67 | walk, sort and digest together, with the number of files |
| LockEvidence.EvidenceForgetsEnumeration | setup-dotnet-nuget/cache-evidence.mjs:55-66 | successful runs over one tree hash the same bytes in every enumeration order |
| LockEvidence.OneEvidenceIff | setup-dotnet-nuget/cache-evidence.mjs:55-66 | where every enumeration order succeeds, all of them hash the same bytes if and only if collation separates the lock files |
| LockEvidence.EvidenceIdentifiesLocks | setup-dotnet-nuget/cache-evidence.mjs:55-66 | equal preimages mean the same lock files with the same contents |
| LockAmbiguity.AmbiguousIff | setup-dotnet-nuget/cache-evidence.mjs:55-66 | another tree with other lock files or contents hashes the same bytes exactly when a field of the preimage, after the first two and before the last two, spells a lock file that one tree can hold beside the first and one walk can return after it; with two files or more it always does |
| LockAmbiguity.OneFileAmbiguousIff | setup-dotnet-nuget/cache-evidence.mjs:55-66 | a tree with one lock file shares its bytes with another exactly when the content holds such a path between NUL bytes |
| LockAmbiguity.TwoTreesOneEvidence | setup-dotnet-nuget/cache-evidence.mjs:55-66 | one file that holds the path of a second between NUL bytes, and two empty files, hash the same bytes |
| TelemetryWriter.Disk.AtomicWriteFile | lib/telemetry-fallback.mjs:72-82 | which files hold what, and the error, after a write that may fail at mkdir, write, rename or unlink |
| TelemetryWriter.Disk.AppendLine | lib/telemetry-fallback.mjs:84-87 | which files hold what, and the error, after an append that may fail at mkdir or midway |
| TelemetryWriter.Writer.WithFallback | lib/telemetry-fallback.mjs:102-132 | one call, with every combination of refusals, failures and fallback directories, changes files, redirects and warnings as the step function says |
| TelemetryWriter.WrittenIs | lib/telemetry-fallback.mjs:72-87 | a write touches only its target and temporary file; an atomic write replaces the target whole or leaves it; an append only extends it |
| TelemetryWriter.SuccessHolds | lib/telemetry-fallback.mjs:102-132 | a successful call returns a path with the given base name that holds the written value, for an append after what the file held before the call |
| TelemetryWriter.FailureIsClean | lib/telemetry-fallback.mjs:102-132 | a failed call changes no writer state, and a failed atomic write changes no file but temporary ones |
| TelemetryRuns.WarnedOnce | lib/telemetry-fallback.mjs:124-129 | over every run each redirected directory is warned about exactly once, with the fallback in use |
| TelemetryRuns.DirectorySplitsIff | lib/telemetry-fallback.mjs:89-132 | over every run two successful calls on one directory land in different places exactly when a call after the first, up to the second, was refused for permission and succeeded in another directory |
| TelemetryRuns.DirectoryNeverSplits | lib/telemetry-fallback.mjs:89-94 | while a directory's permission stays fixed all its files land in one directory, whatever happens elsewhere |
| TelemetryRuns.FairIsFixed | lib/telemetry-fallback.mjs:89-94 | a run under fixed permissions keeps the permission of each directory fixed, so none splits |
| TelemetryRuns.SplitWhenPermissionChanges | lib/telemetry-fallback.mjs:102-132 | two calls, the second refused for permission, whose files land in two directories |
| TelemetryRuns.RunKeepsEveryWrite | lib/telemetry-fallback.mjs:102-132 | under fixed permissions each file ends up with exactly its own successful writes in order, redirected or not, whatever other calls do |
| JobContext.IdentityInjective | resolve-job-context/resolve-job-context.mjs:28-39 | validated contexts with one identity text are one context |
| JobContext.ValidContextIff | resolve-job-context/resolve-job-context.mjs:28-33 | exactly which contexts are valid |
| JobContext.TextsAre | resolve-job-context/resolve-job-context.mjs:14-39 | the texts that are hashed, and the trace id as the first 32 units of its hash |
| JobContext.FetchJobs | resolve-job-context/resolve-job-context.mjs:69-91 | the page loop computes the recursive definition, errors included |
| JobContext.FetchIs | resolve-job-context/resolve-job-context.mjs:69-91 | it yields the jobs of the pages up to the first short one or page ten, provided each can be read |
| JobContext.OneCandidateIff | resolve-job-context/resolve-job-context.mjs:110-122 | the filter leaves one job exactly when one position of the list holds a candidate |
| JobContext.ApiExactIff | resolve-job-context/resolve-job-context.mjs:103-130 | `api_exact` means exactly one candidate in the pages read |
| JobContext.ExactJobIs | resolve-job-context/resolve-job-context.mjs:110-129 | the job behind an `api_exact` id is in progress on this runner, has that numeric id, and is the only such job in the pages read |
| JobContext.ApiErrorIs | resolve-job-context/resolve-job-context.mjs:71-108 | the reason after the first page that fails is the code of its error |
| JobContext.NothingFoundIs | resolve-job-context/resolve-job-context.mjs:99-122 | when no id is found, and with which reason; nothing is stored then |
| JobContext.CacheFile.ResolveCurrentJobContext | resolve-job-context/resolve-job-context.mjs:93-131 | outcome and cache file after one call, for every cached text, parser, reply and token, and for failing reads and writes |
| JobCache.CacheRoundTrip | resolve-job-context/resolve-job-context.mjs:41-62 | the stored file answers for the identity it was stored under, with its id, and for no other |
| JobCache.CacheFileHolds | resolve-job-context/resolve-job-context.mjs:57-62 | the stored file is JSON with exactly the schema version, the identity and the job id, and two line feeds |
| JobCache.RunRefines | resolve-job-context/resolve-job-context.mjs:93-131 | over every run, and for every hash, the cache file behaves as a store of the last resolved id under the hash of its identity |
| JobCache.RunRefinesContexts | resolve-job-context/resolve-job-context.mjs:93-131 | where the hash tells the contexts of the run apart, it behaves as a store of the last resolved context |
| JobCache.CacheHitIsEarlier | resolve-job-context/resolve-job-context.mjs:41-55 | for every hash and over any calls on a file that starts absent, a `cache_exact` id was resolved by an earlier `api_exact` call whose identity has the same hash |
| JobCache.CacheExactIsEarlierApiExact | resolve-job-context/resolve-job-context.mjs:41-55 | where the hash tells the contexts apart, that earlier call was for the same context |
| JobCache.SecondCallHits | resolve-job-context/resolve-job-context.mjs:93-131 | whatever the cache file held, after an `api_exact` call the next call for the same context that can read it answers from it with the same id |
| CiScope.LinesIgnoreCr | detect-ci-scope/detect-ci-scope.mjs:8-10 | CRLF and LF texts list the same lines |
| CiScope.NormalizeIsStableIff | detect-ci-scope/detect-ci-scope.mjs:12-18 | normalising again changes nothing exactly when no `./` is left in front |
| CiScope.NormalizeTwice | detect-ci-scope/detect-ci-scope.mjs:12-18 | `././a` needs two passes |
| CiScope.NormalizeIff | detect-ci-scope/detect-ci-scope.mjs:12-18 | exactly what a path normalises to |
| CiScope.PathsAre | detect-ci-scope/detect-ci-scope.mjs:8-18 | the paths of a text are what its lines normalise to, and there are none when a line is unsafe |
| CiScope.LinesAre | detect-ci-scope/detect-ci-scope.mjs:8-10 | the lines are the trimmed, non-empty parts between line feeds |
| CiScope.MatchesIff | detect-ci-scope/detect-ci-scope.mjs:20-25 | a rule for a directory, ending in a slash or in a slash and two stars, matches exactly what lies below it; any other rule matches the path it spells |
| CiScope.ScopeDependsOnSet | detect-ci-scope/detect-ci-scope.mjs:66-83 | texts with the same set of normalised lines have the same scope |
| CiScope.ScopeIs | detect-ci-scope/detect-ci-scope.mjs:20-84 | paths, `full`, `docsOnly` and components of a scope, each characterised on the set of normalised lines and the texts of the rules |
| CiScope.ScopeGrows | detect-ci-scope/detect-ci-scope.mjs:66-83 | from a non-empty set, adding paths keeps `full` even past the limit, and within it only adds components and only revokes `docsOnly` |
| CiScope.EmptyDiffIsFull | detect-ci-scope/detect-ci-scope.mjs:67-69 | no paths at all is a full scope |
| CiScope.EmptyLosesFullIff | detect-ci-scope/detect-ci-scope.mjs:66-83 | from the empty set `full` is lost exactly to non-empty sets within the limit that no trigger matches |
| CiScope.FullIsLost | detect-ci-scope/detect-ci-scope.mjs:66-83 | a blank line is a full scope and one path without triggers is not |
| CiScope.NarrowedIff | detect-ci-scope/detect-ci-scope.mjs:45-84 | a run is narrowed exactly when the changed paths are known, not empty, within the limit, and no trigger matches any; everything else is a full run |
| CiScope.FallbackIff | detect-ci-scope/detect-ci-scope.mjs:54-74 | which of the four fallbacks a run takes, and that each is a full scope without paths |
| CiScope.RefusedIff | detect-ci-scope/detect-ci-scope.mjs:12-25 | with safe rules and root a text is refused exactly when one of its lines is unsafe |
| Redact.Redactor.VisitValue | lib/contract.mjs:99-140 | one visit computes the recursive definition and updates both counters |
| Redact.Redactor.VisitArray | lib/contract.mjs:123-126 | the entries are visited in order with one depth more |
| Redact.Redactor.VisitObject | lib/contract.mjs:127-138 | the loop over the entries counts, checks and visits each, and stops at the first failure |
| Redact.RedactBounded | lib/contract.mjs:89-143 | returns the visited value with the number of replacements, or the first failure |
| RedactBounds.SecretIff | lib/contract.mjs:5 | a key is secret exactly when it spells one of the twelve words, in any case |
| RedactBounds.KeyIff | lib/contract.mjs:131-132 | a key is valid exactly when it is a letter and at most 63 letters, digits, underscores, dots and hyphens |
| RedactBounds.VisitOkIff | lib/contract.mjs:99-140 | a visit succeeds exactly when the value fits its limits and its members do not run out of keys |
| RedactBounds.TruncateBound | lib/contract.mjs:113-117 | a short string is kept; a cut one takes exactly the bytes of the characters that fit, plus three if those do not fill the limit |
| RedactBounds.TruncateExceedsIff | lib/contract.mjs:113-117 | the result exceeds the limit exactly when the string was cut and the characters that fit leave one or two bytes unused |
| RedactBounds.TruncateBoundIsReached | lib/contract.mjs:113-117 | a string whose cut form takes two bytes more than the limit |
| RedactBounds.RedactionIsBounded | lib/contract.mjs:89-143 | success exactly within the limits, and then shape and keys kept, no value under a secret key, members, nesting, array lengths and string bytes bounded at once, and the count equal to the replacements |

## Left out

- Platform: paths are POSIX; the win32 branches of `node:path` are not modelled beyond the absolute-path test that `assertSafeRelativePath` makes everywhere.
- Hashes, dates and clocks: SHA-256 is a parameter, a date is its canonical text and its milliseconds, and the current time is a parameter.
- Collation and case folding: `localeCompare` is any strict weak order and `toLowerCase` any function.
- Numbers: a JSON number is an integer below 10^21, the text of any other finite double, -0, NaN or an infinity; reading a number text that JavaScript would not print is outside `JsonText.Parse`. The cache file is read by any parser that agrees with it on printed texts.
- Values outside JSON: `undefined` appears only as an absent property; functions, symbols, dates and prototypes do not appear.
- Secret-value patterns: the four replacements are one function that returns a text and a count; the secret key names are modelled exactly.
- Network and processes: replies, `git` output and file contents are arbitrary values; `requestJson` appears as its outcome, its timer as an abort event.
- Archive extraction, npm and pnpm runs, environment tables, output files other than saved state, `action.yml` wiring and the shell scripts.
- Lane, phase, version and priority validators: each is one branch, true on reading; the inputs of `acquire` arrive as a validity flag, apart from the endpoint, release-on-post and the deadline.
- Record fields that are constants or copies of identity fields; only the hashed identity and payload are modelled.
- `prequeueInput`: only its package branch; the other branches and the envelope around the payload are single-branch checks. `JSON.parse` and `Number` are parameters there.
- Links and races: `existsSync` and `realpathSync` are two functions of a path that do not change during a call, and directory trees do not change during a walk; a directory that vanishes before it is read is ENOENT.
- Lease.Process.SaveState: a save adds its whole line or nothing.
- Lease.PostReleasesWhereAcquired: endpoint validation is a parameter, taken to leave a validated endpoint alone.
- Saved state: the runner is taken to hand the values main saved to post, and to nothing else; a lease that is never released is left to expiry.
- InstallTarget.Disk.ClearTarget: the directories created after the delete are not modelled.
- TelemetryRuns.RunKeepsEveryWrite: a failed append may leave a part of its line, so the statement is about runs whose appends to that file succeed; the temporary name of one target is assumed not to be the name of another.
- TelemetryWriter.Writer.WithFallback: the texts of warnings and errors, the owner lookup and file modes are not modelled; directories exist implicitly.
- JobCache.RunRefines: one process uses the cache file at a time.
- RangedDownload.TempDirectory.Download: removing the directory is one step; requests in flight act before or after it, not during it. `Math.ceil` is taken as exact, as it is for sizes below 2^53.
- LockEvidence.EvidenceIdentifiesLocks: file names are taken as valid Unicode without NUL or slash.
- LockAmbiguity.AmbiguousIff: the same, and no entry is named with the empty text, `.` or `..`; case-insensitive file systems are not modelled.
- Nothing was executed.
