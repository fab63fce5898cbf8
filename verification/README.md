# libtftest, modelled and proved in Dafny

libtftest runs Terraform modules against a LocalStack container from Go tests. This project
models the parts of it whose correctness is not visible from any single function, and proves
what their documentation and tests promise. The main statements are for all inputs, all runs or all
reachable states; beside them stand single inputs that show where a promise fails. `dafny verify dfyconfig.toml` checks the whole project.

## What is modelled

**Canonical JSON and snapshots** (`JsonSyntax`, `JsonParser`, `JsonComplete`, `JsonMeaning`, `Canonical`,
`Printed`, `Utf8`, `Snapshot`, `Extract`, `ExtractClaims`, `Addresses`). `JsonSyntax` is the grammar of RFC 8259
(white space, objects, arrays, numbers and strings: sections 2, 4, 5, 6 and 7) as syntax trees in which every
choice an author has is a field, with the value a tree denotes. `JsonParser` reads a text into its tree, and its
postconditions say that what it accepts is in the grammar; `JsonComplete` shows that every text of the grammar
is accepted with exactly its own tree. `JsonMeaning` says what is denoted without the functions that compute it:
the last of several members of one name, the character of each escape, the integer of a literal. `Canonical` is
`marshalSorted` and `NormalizeJSON`, the map iteration order being arbitrary, against a pure printer; the
printed text is the text of a tree that denotes the printed value, and `Printed` says what its characters are.
On that rests the snapshot protocol: `Snapshot` is `compareSnapshot` over a store of files some of which cannot
be read or written, first one call at a time and then over any list of calls. `Extract` is the policy extractor,
and `Addresses` the form in which Terraform writes resource addresses.

**The object store** (`MapStore`, `MapStoreThreads`, `MapStoreClaims`). `MapStore` is the class with its
two-level map, each method proved against a flat map keyed by kind and id. `MapStoreThreads` runs any number of
calls as threads under the reader-writer lock: invoke, acquire, several steps in the critical section over a
heap of bucket maps, release, return. The trace records invocations, effects and responses, and `MapStoreClaims`
is about every such trace.

**Copying a module** (`WorkspaceFiles`, `Workspace`, `WorkspaceClaims`). A file system of directories, files and links; `copyTree`,
`copySymlink` and `copyFile` write into it through the walk of `filepath.WalkDir`. `Unfolding` is what a copy
must hold, defined on the source alone.

**The life of a test** (`Harness`, `Lifecycle`, `LifecycleRuns`, `LifecycleClaims`, `LifecycleCleanup`).
`Harness.Run` with its sidecars, the cleanup stack of a `TestCase` with fixtures on it, and a transition system
in which any number of tests run beside each other, each with a container of its own or on the one the harness
shares, with every choice of failing calls. Its steps are the specification functions the class methods are
proved against.

**docgen** (`Patterns`, `Markers`, `DocgenSource`, `StableSorting`, `Docgen`, `DocgenClaims`, `Render`,
`RenderTable`). A backtracking matcher proved to return the cut that leftmost-first matching prefers, the marker
pattern on it, the early-exit syntax-tree search, `check` and `scan` and their agreement, and the Markdown table
with a reader that gets the markers back out.

**Tag propagation** (`Tags`). `indexByARN`, `diffTags` and the assertion around them.

`Sorting`, `Strings`, `Concatenation` and `Options` hold what the others share: `sort.Strings`, `strings.Split`,
`strings.Join`, `strings.TrimSpace`, regrouping of sequences and optional values.

Strings are sequences of Unicode scalar values. `Utf8` is their encoding in bytes (section 3 of RFC 3629), in
which the diff hint of a mismatch counts; Go's order of strings by bytes is `Sorting.Less` on them
(`Utf8.ByteOrder`). The results of foreign calls (Docker, AWS, Terraform, the file system) are parameters of the
methods.

## What the proofs brought to light

Each is a lemma, and where a promise fails the lemma says exactly when.

- Update mode does not overwrite every mismatched snapshot. A stored file that is not JSON, an empty one for
  instance, makes `JSONStructural` fail in update mode too, so it is never repaired
  (`Snapshot.UpdatePassesIff`, `Snapshot.CorruptSnapshotNotRepaired`).
- After an update run, a check run passes exactly when calls that share a path want compatible contents
  (`Snapshot.UpdateThenCheck`). Two strict calls with different payloads on one path pass in update mode and
  fail on the rerun (`Snapshot.RerunCanFail`).
- `copyTree` says links are followed once and then rejected to avoid cycles. The table of targets is kept per
  walk, so it drops the second of two harmless links to one file (`Workspace.LinkCopiedIff`,
  `Workspace.SecondLinkDropped`) and does not stop a link that leads back: its nested calls return, unless
  something fails first, exactly when no directory link leads back to a directory being expanded
  (`Workspace.CopyEndsIff`), and for a directory holding a link to itself no number of them is enough
  (`Workspace.SelfLinkNeverEnds`).
- On the normal path `harness.Run` hands `stopAll` the context it cancelled before the suite
  (`Harness.NormalStopsAreCancelled`); only after a failed sidecar do the stops get a live one.
- The marker pattern accepts a line without a reason when two white-space characters follow the tags
  (`Markers.EmptyReasonIff`, `Markers.ReasonCanBeEmpty`), and a tag list with an empty tag in it
  (`Markers.EmptyTagIff`, `Markers.TagCanBeEmpty`).
- `ExtractIAMPolicies` has one entry for each resource that carries a policy exactly when no resource's name
  reaches into the address of another and every inline policy has a name (`Extract.OneEntryPerPolicyIff`). An
  inline policy whose name the provider will choose has no entry (`Extract.UnnamedLeftOut`). The addresses
  Terraform writes never clash (`Extract.PlansNeverClash`), so nothing is overwritten in a real plan; two
  resources that share one entry (`Extract.ColonsCollide`) need addresses written by hand.
- `check` and `scan` can disagree about a function that has no marker while another of its name and receiver in
  the file has one, two `init` functions for instance, and only then (`Docgen.AgreeIff`,
  `Docgen.NamesakesDiffer`).
- The summary of the feature matrix promises functions per tag and counts tags: it is right about a tag exactly
  when no marker names it twice and no function has two markers naming it (`RenderTable.SummaryRightIff`,
  `RenderTable.RepeatedTag`, `RenderTable.TwoMarkers`).

## Model

| member | source | states |
|---|---|---|
| `JsonParser.ParseDocument` | assert/snapshot/snapshot.go:112-116 | what decoding accepts is an RFC 8259 text: the tree it read is well formed and spells every character of the input |
| `JsonComplete.CompleteDocument` | assert/snapshot/snapshot.go:112-116 | every RFC 8259 text is accepted and read as its own tree, so the grammar is unambiguous |
| `JsonComplete.UnmarshalIsDenotation` | assert/snapshot/snapshot.go:113-116 | decoding yields a value if and only if the text denotes it; the rows on JsonMeaning say what texts denote |
| `JsonComplete.MalformedIsNotJson` | assert/snapshot/snapshot.go:114-116 | decoding reports a syntax error exactly on the texts outside the grammar |
| `JsonMeaning.ObjectReads` | assert/snapshot/snapshot.go:113-114 | an object text is decoded to the map whose names are those some member has, each with the value of the last member of that name, if and only if every member's value is decoded |
| `JsonMeaning.LastMemberWins` | assert/snapshot/snapshot.go:113-114 | among members of one name, whatever their spelling, the last decides, position by position |
| `JsonMeaning.DuplicateName` | assert/snapshot/snapshot.go:113-114 | a text with two members of one name, true and then false, is decoded to false |
| `JsonMeaning.ArrayReads` | assert/snapshot/snapshot.go:113-114 | an array text is decoded to the values of its elements in order |
| `JsonMeaning.NumberReads` | assert/snapshot/snapshot.go:113-114 | a number text is decoded to v if and only if v is the value of its digits, fraction and exponent multiplied out, with its sign |
| `JsonMeaning.StringReads` | assert/snapshot/snapshot.go:113-114 | a string text is decoded to what its pieces read as |
| `JsonMeaning.ShortEscapes` | assert/snapshot/snapshot.go:113-114 | the eight two-character escapes of section 7 of RFC 8259 and their characters, and no others |
| `JsonMeaning.EscapedShort` | assert/snapshot/snapshot.go:113-114 | a two-character escape in a string reads as its character, whatever follows |
| `JsonMeaning.EscapedCharacter` | assert/snapshot/snapshot.go:113-114 | the \u escape of a character, its four digits in either case, reads as that character |
| `JsonMeaning.EscapedPair` | assert/snapshot/snapshot.go:113-114 | the two \u escapes of the UTF-16 form of a character beyond the basic plane read as that character |
| `JsonMeaning.StraySurrogate` | assert/snapshot/snapshot.go:113-114 | a surrogate escape without its other half reads as U+FFFD |
| `Canonical.MarshalSorted` | assert/snapshot/snapshot.go:120-169 | the buffer-writing printer gives the canonical text of the value whatever order maps iterate in; the rows on Printed say what characters that text is made of |
| `Canonical.MarshalObject` | assert/snapshot/snapshot.go:122-148 | the object branch, gathering keys in any order, sorting and writing them with commas between, prints the canonical text |
| `Canonical.MarshalArray` | assert/snapshot/snapshot.go:150-164 | the array branch prints the canonical text |
| `Canonical.CanonicalIsText` | assert/snapshot/snapshot.go:120-169 | the printed text is a text of the RFC 8259 grammar |
| `Canonical.RoundTrip` | assert/snapshot/snapshot.go:113-169 | decoding the printed text consumes all of it and returns exactly the printed value |
| `Canonical.CanonicalInjective` | assert/snapshot/snapshot.go:120-169 | different values are never printed alike |
| `Canonical.NormalizeJSON` | assert/snapshot/snapshot.go:112-118 | NormalizeJSON prints the canonical text of what the input denotes, and errs on exactly the malformed inputs |
| `Canonical.NormalFormIdempotent` | assert/snapshot/snapshot.go:108-118 | normalising a normal form changes nothing |
| `Canonical.NormalFormDecides` | assert/snapshot/snapshot.go:29-34 | two texts have one normal form if and only if they denote the same value: key order and white space never matter, a difference always does |
| `Canonical.NormalFormTight` | assert/snapshot/snapshot.go:108-111 | a normal form has no insignificant white space, and the keys of each of its objects are strictly increasing |
| `Printed.QuoteWritten` | assert/snapshot/snapshot.go:135 | a string is printed between quotes as its characters are written one after the other, by the table of escapes of json.Marshal with HTML escaping, in lower-case hexadecimal |
| `Printed.PlainQuoted` | assert/snapshot/snapshot.go:135 | a string without control, quote, backslash, HTML or separator characters is printed as itself |
| `Printed.CanonicalClean` | assert/snapshot/snapshot.go:120-169 | no control character, none of `<`, `>` and `&`, and neither U+2028 nor U+2029 occurs anywhere in a printed document |
| `Printed.NumberPrinted` | assert/snapshot/snapshot.go:167 | an integer is printed as its decimal digits without leading zeros, after a minus sign if it is negative |
| `Snapshot.ShortDiffHint` | assert/snapshot/snapshot.go:175-190 | the scan over the bytes computes the hint that their agreement determines, every slice in bounds |
| `Snapshot.HintIsFaithful` | assert/snapshot/snapshot.go:171-190 | the hint names the least differing byte and shows exactly up to twenty bytes around it of each side, or the two lengths; the fallback appears exactly on equal bytes |
| `Snapshot.FallbackUnreachable` | assert/snapshot/snapshot.go:81-94 | no call, in either mode, ever reports the fallback hint |
| `Snapshot.MismatchTells` | assert/snapshot/snapshot.go:91-93 | the hint of a failing call is about the form of the stored file as wanted and that of the actual payload as got: least differing byte, excerpts and lengths |
| `Snapshot.FailuresTold` | assert/snapshot/snapshot.go:45-94 | each failure of a call, malformed payload, unreadable, missing or malformed file, mismatch, directory and write, occurs exactly on its own condition |
| `Snapshot.WriteSnapshot` | assert/snapshot/snapshot.go:96-106 | a write either succeeds and changes that one file, or fails the test and changes nothing |
| `Snapshot.CompareSnapshot` | assert/snapshot/snapshot.go:40-94 | the whole effect of one call on the files and the test is the protocol step the lemmas below are about |
| `Snapshot.CheckPassesIff` | assert/snapshot/snapshot.go:55-94 | without update mode a call passes if and only if the file is readable, present and of the same form, and it never changes a file |
| `Snapshot.StructuralDecides` | assert/snapshot/snapshot.go:29-34 | on two documents the structural check passes if and only if they denote the same value, and otherwise reports a real difference |
| `Snapshot.UpdatePassesIff` | assert/snapshot/snapshot.go:14-17 | exactly when an update call passes, and that it writes exactly when the file did not already satisfy it, to that path alone, leaving a file that does |
| `Snapshot.CorruptSnapshotNotRepaired` | assert/snapshot/snapshot.go:72-79 | a stored snapshot that is not JSON, of which an empty file is one, fails a structural call in both modes and stays as it is |
| `Snapshot.CheckRun` | assert/snapshot/snapshot.go:40-94 | a run without update mode writes nothing and passes exactly when every call is satisfied by the files |
| `Snapshot.UpdateThenCheck` | assert/snapshot/snapshot.go:40-94 | after a passing update run, of any mix of strict and structural calls, the rerun without update mode writes nothing and passes if and only if calls on one path are compatible |
| `Snapshot.RerunCanFail` | assert/snapshot/snapshot.go:40-94 | two strict calls with different payloads on a new path pass in update mode and fail on the rerun |
| `Snapshot.SharedActualThenCheck` | assert/snapshot/snapshot.go:40-94 | if calls sharing a path share their payload, everything that passed in update mode passes on the rerun |
| `Snapshot.Convergence` | assert/snapshot/snapshot.go:55-94 | any sequence of update calls with one payload on one path writes at most twice, at most once in one mode |
| `Snapshot.EveryWriteChanges` | assert/snapshot/snapshot.go:57-88 | an update call changes the files exactly when it writes, so Convergence counts writes |
| `Snapshot.TwoWritesHappen` | assert/snapshot/snapshot.go:55-94 | the bound two is reached by every payload that is not its own normal form |
| `Snapshot.PaddedWritesTwice` | assert/snapshot/snapshot.go:55-94 | every value has such a payload: its normal form with a space before it |
| `Extract.ExtractIAMPolicies` | assert/snapshot/extract.go:29-43 | the loop over the plan equals adding the slots in order, stopping at the first malformed document |
| `Extract.SharedKeyIff` | assert/snapshot/extract.go:15-18 | two policy-bearing resources share a key if and only if they are one slot of one address, or the name in one's key reaches over the rest of the other's address and all of its ending |
| `Extract.LastResourceWins` | assert/snapshot/extract.go:45-77 | in any plan an entry is that of the last resource filed under its key, holding that resource's ARN or normalised document, and there are no other entries |
| `Extract.KeptIff` | assert/snapshot/extract.go:45-77 | a resource keeps its own entry if and only if no later one clashes with it |
| `Extract.OneEntryEachIff` | assert/snapshot/extract.go:45-77 | there are as many entries as resources the extractor does not skip if and only if no two of them clash |
| `Extract.OneEntryPerPolicyIff` | assert/snapshot/extract.go:10-18 | there are as many entries as resources that carry a policy, by their kind and policy field alone, if and only if no two clash and every inline policy with a document has a non-empty name |
| `Extract.UnnamedLeftOut` | assert/snapshot/extract.go:50-53 | a plan whose one resource is an inline policy without a known name gives an empty map |
| `Extract.NothingOverwritten` | assert/snapshot/extract.go:29-77 | without a clash every policy-bearing resource has an entry of its own holding its own policy, and there are no other entries |
| `ExtractClaims.EntriesFiled` | assert/snapshot/extract.go:45-77 | the map holds a text under a key if and only if the last resource to file anything there files that text: role, inline policy, attachment and policy each under its own suffix and from its own field |
| `Extract.ApartNeverClash` | assert/snapshot/extract.go:15-18 | distinct addresses, none of them another one followed by `.inline:` or `.managed:`, never clash, whatever colons they hold |
| `Extract.ColonFreeApart` | assert/snapshot/extract.go:15-18 | distinct colon-free addresses are of that kind |
| `Addresses.NeverExtended` | assert/snapshot/extract.go:10-11 | no address Terraform gives a resource of the root module is another one followed by `.inline:` or `.managed:` and anything, whatever its keys hold |
| `Extract.PlansNeverClash` | assert/snapshot/extract.go:10-18 | distinct addresses of that form never clash, so no plan Terraform writes has an entry overwritten |
| `Extract.PlanEntriesIff` | assert/snapshot/extract.go:10-18 | in such a plan each resource that carries a policy has its own entry if and only if every inline policy has a name |
| `Extract.DocumentsAreNormal` | assert/snapshot/extract.go:66-77 | in any plan, the document of a resource that has its entry is there as a fixed point of NormalizeJSON |
| `Extract.OneBadDocument` | assert/snapshot/extract.go:35-43 | there is a result exactly when every document is well formed; one bad document gives no map at all |
| `Extract.ColonsCollide` | assert/snapshot/extract.go:54 | for any address and names, an inline policy and one of a resource addressed inside its key share one entry and the first is lost |
| `Extract.ExtractResourceAttribute` | assert/snapshot/extract.go:85-128 | the first resource with the address decides, and the answer is where the dotted path leads in its values, with each error case |
| `Extract.AttributeAt` | assert/snapshot/extract.go:109-127 | the loop over the path segments follows them one object at a time and tells a non-object, a missing name and a malformed embedded document apart |
| `Extract.AttributeIsNormal` | assert/snapshot/extract.go:122-127 | whatever the path leads to, the bytes returned are a fixed point of NormalizeJSON |
| `ExtractClaims.FoundIff` | assert/snapshot/extract.go:109-127 | there is an answer exactly if each segment names a member of the object before it, and it is the value reached, or the normal form of the document a string holds |
| `ExtractClaims.PathErrors` | assert/snapshot/extract.go:111-118 | a missing attribute and a segment applied to a non-object are reported exactly where the path first breaks off |
| `ExtractClaims.BadJsonIff` | assert/snapshot/extract.go:124-126 | a malformed embedded document is reported exactly if the path leads to a string that opens as JSON and is not |
| `MapStore.MapStore.Put` | sneakystack/store.go:41-52 | the nested maps change as one entry of a flat map keyed by kind and id does, and the kind becomes known |
| `MapStore.MapStore.Get` | sneakystack/store.go:55-70 | the object of the flat map or not found, nothing changed |
| `MapStore.MapStore.List` | sneakystack/store.go:73-88 | every object of the kind once, in some order, and nil exactly for a kind never put |
| `MapStore.MapStore.Delete` | sneakystack/store.go:91-107 | removes that entry alone and keeps the kind, or answers not found and changes nothing |
| `MapStoreThreads.KeepRun` | sneakystack/store.go:28-107 | in every interleaving the lock is held by exactly the calls in their critical sections, buckets are not shared between kinds, locals read under the lock stay true, and the heap is the flat map the effects so far produce |
| `MapStoreClaims.Linearizable` | sneakystack/store.go:41-107 | in every run the effects are a legal sequence of atomic calls on the flat map, and each call has exactly one, between its invocation and its response, with the answer it returns |
| `MapStoreClaims.ReadsLastWrite` | sneakystack/store.go:41-107 | in every run a get answers the object last put under its key and not deleted since, or not found; a list holds those of its kind, each once; a delete finds exactly what a get would |
| `MapStoreClaims.EffectUnderLock` | sneakystack/store.go:42-105 | a call takes effect inside its critical section, a writer with no other call in one |
| `MapStoreClaims.RealTimeOrder` | sneakystack/store.go:41-107 | a call that returned before another was invoked takes effect before it |
| `MapStoreClaims.Progress` | sneakystack/store.go:41-107 | a call inside its critical section always has a next step |
| `MapStoreClaims.ListStaysNonNil` | sneakystack/store.go:45-49 | once a put of a kind has taken effect every later list of that kind is non-nil, whatever is deleted |
| `WorkspaceFiles.WalkVisits` | tf/workspace.go:39 | a walk reaches exactly the paths at or below its root |
| `WorkspaceFiles.WalkInOrder` | tf/workspace.go:39 | a walk goes through the paths in strictly increasing lexical order |
| `Workspace.Expand` | tf/workspace.go:80-82 | the termination measure: following a directory link strictly lowers the number of directories not being expanded |
| `Workspace.FollowsIff` | tf/workspace.go:70-82 | of the links to one directory that a walk meets it follows one, so copyTree calls itself on every directory a link leads to |
| `Workspace.CopyEndsIff` | tf/workspace.go:36-37 | a copy in which nothing fails returns within some number of nested calls if and only if no directory link leads back to a directory being expanded |
| `Workspace.SelfLinkNeverEnds` | tf/workspace.go:80-82 | for a directory holding a link to itself no number of nested calls is enough |
| `Workspace.FileSystem.CopyFile` | tf/workspace.go:87-114 | one file is copied whole, or an unreadable source fails the copy and nothing changes |
| `Workspace.FileSystem.CopySymlink` | tf/workspace.go:64-85 | a link becomes what its image says, or nothing if its target was seen in this walk, and records the target |
| `Workspace.FileSystem.CopyTree` | tf/workspace.go:36-62 | copying a tree ends, writes only below the destination, succeeds exactly when all it opens can be read and resolved, and then holds the image of the source at every relative path |
| `Workspace.FileSystem.CopyModule` | tf/workspace.go:19-31 | a module without links leading back is copied to its recursive unfolding, nothing outside the destination changes, and it fails exactly when something cannot be read or resolved |
| `WorkspaceClaims.CopyableIff` | tf/workspace.go:64-103 | what can be read and resolved: a module is copied if and only if no node of it, nor of any directory its links lead to at any depth, is a dangling link, unreadable, or a link to an unreadable file, skipped or not |
| `Workspace.NodesCopied` | tf/workspace.go:51-60 | every directory and regular file of a copied tree is in its copy, byte for byte |
| `Workspace.LinkCopiedIff` | tf/workspace.go:33-35 | a link of a copied tree is materialised if and only if no lexically earlier link of the walk has the same target, and then stands for that target; otherwise nothing is at its place |
| `Workspace.LinkUnfolds` | tf/workspace.go:80-82 | at the place of a followed directory link stands the copy of its target as a tree of its own, so the two rows above hold at every depth |
| `Workspace.SecondLinkDropped` | tf/workspace.go:70-73 | of two links to one file the first is copied and the second is missing, without any cycle |
| `Workspace.CopyHasNoLinks` | tf/workspace.go:33-35 | a copy holds no links, and each of its entries is some source entry |
| `Harness.Harness.StopAll` | harness/testmain.go:116-127 | the sidecars from last to first, then the container, each exactly once whatever fails |
| `Harness.Harness.Run` | harness/testmain.go:51-114 | everything a run does, for any failing start, is the log the lemmas below are about; the exit code is the suite's exactly if it ran |
| `Harness.StopsWhatItStarted` | harness/testmain.go:79-127 | exactly the started sidecars are stopped, once each, in reverse order, and the suite runs if and only if all of them started |
| `Harness.RunPositions` | harness/testmain.go:58-127 | the container starts first and stops last, once, and every stop comes after the suite or the failed start |
| `Harness.NormalStopsAreCancelled` | harness/testmain.go:99-106 | a stop gets a live context if and only if a sidecar failed to start |
| `Harness.SuiteGetsLastURL` | harness/testmain.go:70-93 | the suite runs with the URL the last sidecar answered, or the container's if there is none |
| `Lifecycle.TestCase.constructor` | libtftest.go:314-346 | a test is given the container to reuse, else the shared one, else a new one, and owns it exactly in the last case |
| `Lifecycle.TestCase.RegisterCleanup` | libtftest.go:349-386 | pushes stop, destroy and dump in the order that makes them run in reverse, the stop only for an owned container |
| `Lifecycle.TestCase.SeedObject` | fixtures/s3/s3.go:31-40 | a seeded object leaves its deletion on top of the stack, a failed seed ends the test |
| `Lifecycle.TestCase.RunCleanups` | libtftest.go:349-386 | running the stack down is the function Drain, whose exact events are in LifecycleCleanup.DrainCompletes and whose invariant is in DrainKeeps |
| `Lifecycle.DrainKeeps` | libtftest.go:349-386 | for every choice of failing calls the cleanup keeps the invariant on counts of destroys and stops, the failed flag and what precedes an owned stop, and leaves nothing registered |
| `LifecycleCleanup.DrainCompletes` | libtftest.go:349-386 | a cleanup does exactly this, in this order: one deletion for each seeded object, the dump if the test had failed, destroy unless it had failed and persists, the owned stop unless it had failed by then and persists |
| `LifecycleCleanup.CallNoted` | libtftest.go:358-377 | a callback that makes a call notes whether it succeeded and fails the test if it did not; dumping does not |
| `LifecycleRuns.KeepRun` | libtftest.go:314-386 | the invariant of the whole system: who owns, shares, uses and has retired each container, in every interleaving |
| `LifecycleClaims.NothingAfterStop` | libtftest.go:348-386 | in every run no fixture delete, terraform destroy or second stop happens on a container after its stop, owned or shared |
| `LifecycleClaims.StopsOwnOnly` | libtftest.go:349-363 | a TestCase never stops a container it did not itself start |
| `LifecycleClaims.CleanupContract` | libtftest.go:349-386 | under PersistOnFailure an owned stop implies no failure, a successful destroy and no dump before it; without it destroy and the owned stop are attempted exactly once; a test is failed exactly if it failed by itself or a delete, a destroy or a stop of it did |
| `LifecycleCleanup.CleanupIsExact` | libtftest.go:349-386 | every finished test of every run has done exactly that, with as many deletions as its seeds that succeeded |
| `LifecycleCleanup.KeptAfterFailure` | libtftest.go:351-369 | at every moment of every run, under PersistOnFailure nothing is destroyed or stopped after a failure |
| `LifecycleClaims.HarnessStepsAreRun` | harness/testmain.go:51-127 | interleaved with any tests, a finished harness has done exactly what Harness.Run does |
| `LifecycleClaims.StopsHappen` | libtftest.go:349-386 | a run exists in which a test deletes, destroys and stops on its own container, in that order |
| `Patterns.MatchRight` | tools/docgen/scan.go:39 | backtracking is sound and complete for the ways a text can be cut, and returns the cut leftmost-first matching prefers |
| `Markers.ParseMarker` | tools/docgen/scan.go:123-133 | trimming the tags one by one changes none of them; the result is the matcher's groups |
| `Markers.MarkerLanguage` | tools/docgen/scan.go:34-39 | every line of the marker grammar is accepted; the tags are the pieces of its tag list and the reason is all that follows it, trimmed |
| `Markers.AcceptedIsRead` | tools/docgen/scan.go:34-39 | every accepted line is of the marker grammar |
| `Markers.ReadsUnique` | tools/docgen/scan.go:34-39 | a line can be cut before its reason in one way only, so its tag list is unique |
| `Markers.PrintThenParse` | tools/docgen/doc.go:25-29 | parsing inverts printing for the legal markers and for no others |
| `Markers.EmptyReasonIff` | tools/docgen/scan.go:37-39 | exactly when a line is accepted and exactly when it is accepted with an empty reason |
| `Markers.ReasonCanBeEmpty` | tools/docgen/scan.go:39 | a concrete line accepted without a reason |
| `Markers.Alphabets` | tools/docgen/scan.go:39 | the characters each class of the pattern accepts, letter by letter |
| `Strings.WhiteSpace` | tools/docgen/scan.go:130-132 | the characters that trimming takes away are the white space of Unicode, one by one |
| `Markers.PlainMarker` | tools/docgen/doc.go:25-29 | a plain marker line parses to its tag and reason |
| `Markers.EmptyTagIff` | tools/docgen/doc.go:27-28 | an accepted tag list yields an empty tag if and only if it has a doubled or final comma |
| `Markers.TagCanBeEmpty` | tools/docgen/scan.go:39 | a concrete accepted line with an empty tag |
| `DocgenSource.Visitor.Inspect` | tools/docgen/check.go:110-133 | with its early exit the visitor finds a call if and only if some node anywhere in the tree is one |
| `DocgenSource.CallsRequirePro` | tools/docgen/check.go:106-135 | true exactly when the body holds a matching call anywhere |
| `DocgenSource.HasMarker` | tools/docgen/check.go:139-149 | true exactly when some doc line parses as a marker |
| `StableSorting.SortedStably` | tools/docgen/scan.go:72-80 | the sort is ordered by package, file and line and keeps the order of equal places |
| `StableSorting.StableSortOnly` | tools/docgen/check.go:61-66 | order and stability determine the sorted list |
| `Docgen.Check` | tools/docgen/check.go:33-68 | the walk and sort of check compute the sorted list of reports of the non-test Go files |
| `Docgen.Scan` | tools/docgen/scan.go:44-83 | the walk and sort of scan compute the sorted list of entries of the Go files |
| `Docgen.CheckIsExact` | tools/docgen/check.go:25-31 | there is exactly one violation for each function of a non-test file that calls RequirePro without a marker, and no other |
| `Docgen.ScanIsExact` | tools/docgen/scan.go:41-43 | an entry is in the scan if and only if it comes from a doc line that parses as a marker |
| `Docgen.ReportedIff` | tools/docgen/check.go:25-31 | a violation is in the result of check if and only if some faulty function has it |
| `DocgenClaims.ViolationFields` | tools/docgen/check.go:85-98 | field by field, a violation is reported if and only if a function of a non-test Go file that calls RequirePro without a marker has that name, package, path and line, and its receiver is the type T of a method on T or *T and empty otherwise |
| `DocgenClaims.EntryFields` | tools/docgen/scan.go:98-118 | field by field, an entry is listed if and only if a doc comment of a function of a Go file parses to those tags and that reason on that line, under the function's name, receiver, package and path |
| `DocgenClaims.OneEntryPerMarker` | tools/docgen/scan.go:98-118 | there is exactly one entry for each such comment |
| `DocgenClaims.CheckInOrder` | tools/docgen/check.go:61-66 | violations are ordered by file and line |
| `DocgenClaims.ScanInOrder` | tools/docgen/scan.go:72-80 | entries are ordered by package, file and line |
| `Docgen.AgreeIff` | tools/docgen/check.go:72-102 | for a function that calls RequirePro, being in the result of check and having no entry of its file, package, receiver and name in the result of scan agree if and only if it has a marker or no function of its name and receiver in the file has one |
| `Docgen.NoNamesakeAgrees` | tools/docgen/check.go:72-102 | a function alone of its name and receiver in its file is reported exactly when the scan has no entry for it |
| `Docgen.NamesakesDiffer` | tools/docgen/check.go:72-102 | with two functions of one name, such as `init`, the unmarked one is reported while the scan holds an entry of that name |
| `Docgen.CleanCheckIsScanned` | tools/docgen/check.go:25-31 | after an empty check every such function appears in the scan with its own file, package, receiver and name |
| `Render.UnescapeEscape` | tools/docgen/render.go:105-107 | undoing escapePipes gives the text back |
| `Render.FormatTags` | tools/docgen/render.go:95-103 | the loop over the sorted copy fills the tags cell |
| `Render.TagsRoundTrip` | tools/docgen/render.go:95-103 | space-free tags are read back from their cell, sorted |
| `Render.FiveCellsIff` | tools/docgen/render.go:45-56 | whatever the reason, cutting a row at its bare pipes gives five cells if and only if no other field holds a bare pipe |
| `Render.RowRoundTrip` | tools/docgen/render.go:48-57 | a row gives back the symbol, package, sorted tags, reason, file and line |
| `Render.SymbolReads` | tools/docgen/render.go:49-52 | a symbol read at its full stop is the receiver, if any, and the function |
| `RenderTable.RenderTable` | tools/docgen/render.go:43-59 | the buffer loop writes the heading and one line per marker |
| `RenderTable.TableRoundTrip` | tools/docgen/render.go:43-59 | below the heading, line i of the table is read back as marker i |
| `RenderTable.CollectTags` | tools/docgen/render.go:80-93 | the sorted listing of the tags in use, whatever order the map of seen tags iterates in |
| `RenderTable.CountTags` | tools/docgen/render.go:63-68 | the counting loop gives each tag's number of occurrences |
| `RenderTable.MarkersRightIff` | tools/docgen/render.go:75 | the count of a tag is the number of markers naming it if and only if none names it twice |
| `RenderTable.SummaryRightIff` | tools/docgen/render.go:60-61 | the count of a tag is the number of functions gating on it if and only if no marker names it twice and no function has two markers naming it |
| `RenderTable.TwoMarkers` | tools/docgen/render.go:63-68 | two marker lines of one function are counted as two |
| `RenderTable.RepeatedTag` | tools/docgen/render.go:63-68 | one marker tagged pro twice is counted as two |
| `Tags.IndexByARN` | assert/tags/tags.go:101-122 | the loops compute the index that LastTagWins and LastMappingWins characterise |
| `Tags.LastTagWins` | assert/tags/tags.go:107-119 | a key is present exactly if some tag has it, and the last such tag decides its value, a nil one being empty |
| `Tags.LastMappingWins` | assert/tags/tags.go:103-121 | a resource is present exactly if some mapping names it, and the last such mapping decides all its tags |
| `Tags.DiffTags` | assert/tags/tags.go:68-88 | one fixed sorted list whatever order the baseline is iterated in |
| `Tags.FaultsExact` | assert/tags/tags.go:72-85 | the faults found for one listed resource are its absence, or each missing key and differing value once, and nothing else |
| `Tags.ReportExact` | assert/tags/tags.go:16-29 | in the whole report each fault of a resource stands as often as the resource is listed, and nothing else stands in it |
| `Tags.LinesTell` | assert/tags/tags.go:72-85 | a line is in the report if and only if a listed resource lacks a key, differs in a value or was not returned, and it says so in the words of the assertion, what was got before what was wanted |
| `Tags.CleanIff` | assert/tags/tags.go:16-29 | the list is empty if and only if every listed resource carries the whole baseline |
| `Tags.PropagatesFromRoot` | assert/tags/tags.go:33-63 | the assertion passes if and only if the baseline is empty or the call answers and every listed resource carries it; each failure case is told apart |
| `Utf8.ByteOrder` | assert/snapshot/snapshot.go:127 | comparing strings byte by byte, as sort.Strings does, is comparing them character by character |
| `Utf8.EncodeInjective` | assert/snapshot/snapshot.go:81 | two texts have the same bytes if and only if they are the same |
| `Utf8.EncodingTable` | assert/snapshot/snapshot.go:175-182 | the bytes of a character are those of the table of section 3 of RFC 3629 |
| `Sorting.OrderedUnique` | assert/snapshot/snapshot.go:127 | a bag of strings has one ordered arrangement, so sorting forgets iteration order |
| `Sorting.SortingAnyListing` | assert/snapshot/snapshot.go:123-127 | sorting the keys of a map in whatever order they were gathered gives the sorted listing of its key set |

## Left out

- Canonical.NormalizeJSON: a document with a number that is not an integer of magnitude at most 2^53, or with `-0`, is answered as outside the model, because the code decodes numbers to float64 and prints them back by rules that belong to the standard library. Spellings such as `1e2` or `10.0` of modelled integers are in.
- JsonComplete.UnmarshalIsDenotation: strings are scalar values, so invalid UTF-8 is not modelled, nor is the decoder's nesting limit.
- The error returns of `json.Marshal` in `marshalSorted`: they cannot occur on decoded values.
- Snapshot.WriteSnapshot: which paths cannot be read, created or written is fixed during a run, and a failed write leaves the old contents; file modes and log lines are not modelled.
- Extract.ExtractIAMPolicies: starts from the decoded resources; decoding a whole plan into Go structs is not modelled.
- MapStore.MapStore.List: takes no filter, because the code ignores its filter argument.
- MapStoreClaims.Progress: says a call in its critical section can move, not that the lock is fair.
- Workspace.FileSystem.CopyFile: the destination can always be created and written, and the umask is not modelled.
- Workspace.FileSystem.CopyTree: the walk is listed before the callbacks run, which is the same because the destination lies apart from the source; writes to the destination succeed; file modes and special files are not modelled.
- Workspace.LinkCopiedIff: link targets are compared as the places they lead to; the code compares the strings of `EvalSymlinks`, which for a relative module directory can differ between a relative and an absolute link to one place, so that both are followed.
- Workspace.FileSystem.CopyModule: requires that no followed directory link leads back to a directory being expanded, without which nested walks have no bound, and a destination apart from the source.
- Harness.Harness.Run: contexts are reduced to whether they are live, stops cannot fail differently because their errors are only logged, and the two mutexes that guard `edgeURL` are not modelled.
- LifecycleClaims.NothingAfterStop: containers passed through `Reuse` and containers of tests whose `New` aborted before cleanup was registered are outside the claim, and a fixture is on the same `testing.TB` as its test case.
- Lifecycle.TestCase.constructor: variables, prefixes, workspaces and AWS configuration of `New` are not modelled; a container that fails to start is a move of `LifecycleRuns`.
- Lifecycle.TestCase.RegisterCleanup: each `testing.TB` has one TestCase; two `New` calls on one, with their callbacks and failed flag shared, are not in the runs of `LifecycleRuns`.
- Docgen.AgreeIff: asks for different paths, which a directory walk gives, and for functions of one file to start on different lines, as gofmt leaves them.
- Docgen.Scan: takes the same list of parsed files as `Docgen.Check`.
- Docgen.Check: the directory walk, file reading and `go/parser` are replaced by a list of parsed files; a file that does not parse is not modelled.
- RenderTable.RenderTable: the page heading and the wording of the summary are not modelled.
- Tags.DiffTags: `%q` is an arbitrary function on strings.
- The rest of the repository: container start-up, the reverse proxy, fixtures other than by their cleanup, assertions that wrap one AWS call, Terraform option building, plan counting and idempotence checks. They are foreign effects or single-branch functions.
