# Verified model of the memory store

The repository keeps memories (features, issues and plain notes) as markdown files in one git
repository per group. This project models four of its components and proves what they are for:

1. the **tracker store**: any number of concurrent create, update, rename and delete calls over a
   Process > Group > Memory lock hierarchy, with a ticket counter and supersede chains;
2. the **section editor**, which edits a markdown body by heading path, byte offset and seam rules;
3. the **AsciiDoc importer**'s line rewriting before and after the converter;
4. **addressing and allocation**: resolving memories by slug or id through batched reads, and choosing
   an account handle for a first OAuth login.

## How the files fit together

| file | contents |
|---|---|
| `Basics.dfy`, `Whitespace.dfy`, `Refs.dfy`, `Conventions.dfy` | shared types, trimming, reference lists and their composition, slugs and repository paths as text |
| `Locks.dfy` | scopes and chains, the pruning registry (a class), the lock table as a step system |
| `Tracker.dfy`, `Records.dfy`, `Tickets.dfy`, `ShownTickets.dfy`, `Rename.dfy`, `Supersede.dfy` | a group's tree, what each operation does to one tree, what it writes field by field and when it succeeds, and what it keeps |
| `Sessions.dfy`, `SessionCommits.dfy` | every entry point as a program over locks, reads and commits; what it commits given what it read |
| `System.dfy`, `SystemInvariant.dfy`, `SystemProgress.dfy`, `Completion.dfy` | all of it together: any number of calls interleaved, the invariant, deadlock freedom and termination, and what a finished or failed call has done |
| `SystemSafety.dfy`, `SystemTickets.dfy`, `SystemChains.dfy` | ticket numbers and supersede chains over whole runs |
| `CommitWindow.dfy`, `SystemOverlap.dfy` | when treating a commit as one step makes a difference, and that two calls can get there |
| `Markdown.dfy`, `Outline.dfy`, `SectionNames.dfy`, `SectionEdits.dfy`, `SectionOps.dfy` | lines and offsets, ATX headings, section paths and slugs, the splice and the operations |
| `SectionTexts.dfy` | what each operation puts into a body and takes out of it, in terms of the caller's text and the body's lines |
| `SectionShape.dfy`, `SectionRanges.dfy`, `SectionMoves.dfy`, `Renumbering.dfy`, `SectionAnchors.dfy` | what splices keep, laminar ranges, a move as a block permutation, what lifting a section does to the paths behind it, where the anchor is found afterwards |
| `SectionInverse.dfy`, `SectionUpsert.dfy`, `SectionWitnesses.dfy` | moving back, repeated upserts, concrete bodies on which stronger claims fail |
| `AdocPre.dfy`, `AdocPreFacts.dfy`, `AdocPost.dfy`, `AdocPostFacts.dfy` | the importer's passes as loops, their specifications, conservation and idempotence |
| `AdocListings.dfy`, `AdocItems.dfy`, `AdocCleaning.dfy` | the same passes told from the source lines alone: listings, description-list items, the cleaned text |
| `Addressing.dfy`, `Lookups.dfy`, `Handles.dfy` | batched reads against one-by-one reading, the slug and id resolvers, UTF-8 truncation and the handle retry loop |

Code that changes things step by step (the registry, the counter's fold, `compose_refs`, the rename
planner, the diagnostics pass, `parse_sections`, `apply_ops`, every importer loop, the batched readers,
the handle retry) is written as methods with loops over a class, a map or sequences, each proved equal to
a specification function or to the property it promises; the theorems are about those specifications.
The tracker entry points are asynchronous: each is a function from the events it has seen (a granted
lock, one read of the head, one commit) to its next action, so that one call's reads may see different
trees.

## Where the code and its documentation differ

* `lock.rs` says guards are dropped deepest first; a `Vec` of guards is dropped front to back. The model
  lets a finished call drop its guards in any order.
* `read_feature` always returns an empty commit id, so the automatic reference pins no commit. Statements
  about supersede references are about their targets only.
* Moving a section: distinct paths do not make the second anchor lookup safe. Lifting a section takes one off
  the suffix of each later section with the same parent and slug, its twins, and so off every path that leads
  through a twin. An anchor with such a path can be missed (`SectionWitnesses.MovePastTwinFails`) or the next
  twin taken for it, and the section lands too far down (`SectionWitnesses.MovePastTwinGoesTooFar`).
  `SectionAnchors.AnchorFoundIff` gives the exact condition on one move's anchor, `SectionAnchors.MoveMissesAnchor`
  what the move does when it fails. An anchor in front of the section is always found.
* Moving a section behind its sibling and back: bodies are stored without a trailing newline, and every splice
  ends its last line, so such a body comes back with a newline more
  (`SectionWitnesses.MoveAndBackAddsNewline`). `SectionInverse.MoveAndBackIff` gives the exact condition.
* Repeating an upsert at the existing section's level or deeper is not always a fixed point: a quoted
  heading owns only its own lines, and the section written over it can take in what follows
  (`SectionWitnesses.QuotedUpsertDoesNotSettle`). `SectionUpsert.UpsertFixpointIff` gives the exact condition.
* A superseding create commits twice. Under the very slug it supersedes, or over a file that is not valid
  UTF-8, the first commit stands and the second fails (`Completion.BackLinkSucceedsIff`).
* The importer leaves the blank line behind a description-list item out of the item, but does not write it
  either: unless two blank lines follow, the text behind continues the item's last paragraph
  (`ImportItems.ItemRunsOnIff`).
* `provision_oauth_handle` documents that the reserve keeps retries from collapsing onto the base handle;
  one suffixed candidate can still be the base (`Handles.CandidateCanBeTheBase`), exactly when
  `Handles.CandidateIsTheBaseIff` says, and never more than one.
* The counter and the id scan parse only valid UTF-8, while record reads replace invalid sequences; the
  model keeps both readings apart (`Memories.Strict`, `Memories.Lossy`). So the counter can mint a number
  that a listed record which is not valid UTF-8 already shows (`ShownTickets.CounterMissesGarbled`);
  `ShownTickets.MintedIsNewToReadersIff` gives the exact condition.
* A file may carry both a `[feature]` and an `[issue]` block. An issue update of such a file drops the feature
  block, and with it the target of any supersede link to it; `Supersede.UpdateKeepsChainsIff` covers this case.
* `lock.rs` lets writers of different memories of a group run side by side. With the native backend two of
  them can build their commits on the same head, and the second then drops the first one's change
  (`SystemOverlap.OverlapLosesTheFirst`).

## Model

| member | source | states |
|---|---|---|
| `Registry.KeyedLockRegistry.Obtain` | crates/mmcp-core/src/lock_registry/registry.rs:51-75 | after a lookup the key names the lock object returned; whatever is in use keeps its name, no other key is added or renamed, no two keys name one object, and the object is new only if the key had none or an idle one |
| `LockTables.SweepKeepsUsedEntries` | crates/mmcp-store/src/lock.rs:98-127 | dropping idle registry entries never renames a scope that some task holds or awaits |
| `LockTables.ExclusionSurvivesPruning` | crates/mmcp-store/src/lock.rs:98-127 | in every run, two different holds of one scope are both shared, however often registry entries were dropped and recreated |
| `LockTables.ParkedTasksAreNeverStuck` | crates/mmcp-store/src/lock.rs:121-142 | when every holder is itself waiting, some waiter can be granted its lock at once, and it is the earliest arrival on that lock, so first-come locks cannot be stuck either |
| `Sessions.RequestsDescend` | crates/mmcp-store/src/lock.rs:136-191 | every lock a call asks for lies strictly below all it holds, whatever it has read |
| `Sessions.ChainsAreDocumented` | crates/mmcp-store/src/lock.rs:148-191 | the locks a call has been granted spell one of the documented chains; the leaf is the id its slug resolved to under the shared group lock |
| `Sessions.LocksOnlyInChain` | crates/mmcp-store/src/features.rs:592-620 | behind its chain no entry point asks for a lock, the second half of a superseding create included |
| `SessionCommits.AddFirstCommit` | crates/mmcp-store/src/features.rs:306-410 | a create that read one and the same tree throughout commits what the one-tree create computes on it |
| `SessionCommits.UpdateCommit` | crates/mmcp-store/src/features.rs:585-716 | an update whose slug only lost ids and whose locked file stayed the same commits the one-tree update of the current tree, whose fields `Records.UpdateWrites` gives |
| `SessionCommits.DeleteCommit` | crates/mmcp-store/src/features.rs:827-885 | likewise for a delete |
| `Completion.AddActs` | crates/mmcp-store/src/features.rs:306-410 | conversely a create whose reads see one tree reads on and then commits what the one-tree create gives, or stops with its error |
| `Completion.LeafCommits` | crates/mmcp-store/src/features.rs:592-885 | an update or delete reads on and then commits whenever its operation succeeds on the tree it commits to |
| `SystemInvariant.SystemStepKeepsInv` | crates/mmcp-store/src/features.rs:306-885 | the invariant tying locks, logs and current trees together is kept by every step of every call, cancellation included |
| `SystemInvariant.EveryCommitIsSequential` | crates/mmcp-store/src/features.rs:592-632 | no lost update, as long as a commit reads its parent and lands in one step: in every run, whatever a call commits equals its operation computed on the very tree the commit replaces |
| `Completion.SupersedingCreateLinks` | crates/mmcp-store/src/features.rs:411-443 | in every run a superseding create that finishes without an error has committed twice, and right after the last commit the file its superseded slug names is superseded and links to the new id |
| `Completion.DoneMeansCommitted` | crates/mmcp-store/src/features.rs:306-885 | in every run a call that finishes without an error has made every commit it stands for |
| `Completion.EveryErrorIsSequential` | crates/mmcp-store/src/features.rs:306-885 | in every run an error reported past the chain is the error of the operation on the tree read last: no call gives up where its operation would succeed |
| `Completion.BackLinkSucceedsIff` | crates/mmcp-store/src/features.rs:411-443 | the second commit of a superseding create succeeds exactly when the new memory stands under another slug and the old file is valid UTF-8 |
| `SystemOverlap.OverlapLosesTheFirst` | crates/mmcp-git/src/native/repo_ops.rs:1338-1390 | of two calls of one group about to commit, building both commits on one head gives what one after the other gives exactly when the first changes nothing |
| `SystemOverlap.OverlapIsReachable` | crates/mmcp-store/src/lock.rs:148-186 | whatever two updates or deletes of different memories each succeed on a tree, some run brings both to their commits on it |
| `SystemInvariant.WriterIsAlone` | crates/mmcp-store/src/lock.rs:163-186 | while a create or rename is past its group lock, nobody else holds that group's lock in any mode |
| `SystemOverlap.WriterLandsOnItsParent` | crates/mmcp-git/src/native/repo_ops.rs:1338-1390 | so from a create's or rename's last event to its commit no step changes its group's tree: a commit that reads its parent first and lands later lands on what it read |
| `SystemInvariant.TogetherOnLeaf` | crates/mmcp-store/src/lock.rs:148-186 | calls past the lock of one group at the same time are updates and deletes only |
| `SystemProgress.NeverStuck` | crates/mmcp-store/src/lock.rs:136-191 | deadlock freedom: every reachable state with a running call, a guard or a waiter has a step that cancels nobody and grants a lock, if at all, to its earliest waiter |
| `SystemProgress.EveryStepShortens` | crates/mmcp-store/src/features.rs:411-443 | each step of each call uses up one unit of a natural-number supply |
| `SystemProgress.RunsAreBounded` | crates/mmcp-store/src/features.rs:411-443 | a run of n calls has at most 45 n steps |
| `SystemSafety.CommitKeepsTicketsIff` | crates/mmcp-store/src/tracker.rs:43-110 | a commit keeps the ticket numbers the counter reads in its group distinct exactly when it does not pin one of them |
| `SystemSafety.TicketsStayDistinct` | crates/mmcp-store/src/tracker.rs:43-110 | in every run whose creates pin no number in use, distinct memories of a group carry distinct numbers in every state, files that are not valid UTF-8 left out as by the counter |
| `SystemSafety.MintedTicketsStayDistinct` | crates/mmcp-store/src/issues.rs:204-320 | so these numbers stay distinct in every run whose creates leave numbering to the counter, on both surfaces |
| `SystemTickets.CommitKeepsShownIff` | crates/mmcp-store/src/tracker.rs:331-405 | a commit keeps the numbers that readers see distinct exactly when it creates no memory under a number shown, or minted while a file that is not valid UTF-8 shows it |
| `SystemTickets.ShownStayDistinct` | crates/mmcp-store/src/tracker.rs:331-405 | in every run of such commits no two memories of a group ever show one number |
| `SystemTickets.MintedTicketsStayShownDistinct` | crates/mmcp-store/src/tracker.rs:43-110 | in particular in every run without pinned numbers from a state whose numbered files are valid UTF-8, which they then stay |
| `SystemSafety.ChainsStayIntact` | crates/mmcp-store/src/features.rs:328-443 | in every run of calls of any kind whose commits are safe in the sense of `CommitKeepsChainsIff`, stopped wherever, supersede links ascend in creation order, have targets that refer back, and give each feature at most one predecessor; the integrity pass reports nothing |
| `SystemSafety.CommitKeepsChainsIff` | crates/mmcp-store/src/features.rs:622-716 | a commit keeps its group's chains exactly when it leaves every reference that backs a link, sets a link only to a younger feature that refers back and has no predecessor, and removes no feature another one links to |
| `SystemChains.OrderlyChainsStayIntact` | crates/mmcp-store/src/features.rs:328-443 | creates with or without `supersedes`, renames, updates that set no link and remove no reference, and all calls on issues keep the chains with no further condition, in groups where no file carries both blocks |
| `SystemSafety.CommitKeepsChainInv` | crates/mmcp-store/src/features.rs:411-443 | also between the two commits of a superseding create its memory is the group's youngest and nobody links to it; that the second one comes is in `Completion.SupersedingCreateLinks` |
| `CommitWindow.OverlapLosesExactly` | crates/mmcp-git/src/native/repo_ops.rs:1338-1390 | two commits built on one parent equal one after the other exactly when the second rewrites every path the first one changed |
| `TrackerOps.MaxTicketNumberOver` | crates/mmcp-store/src/tracker.rs:80-110 | the fold returns an upper bound of all numbers in the batch that is zero or one of them; unreadable entries count for nothing |
| `Records.CreateWrites` | crates/mmcp-store/src/features.rs:306-410 | a create adds one file on a free path, under the slug given or derived, with every field the caller gave, the pinned or next number, no link yet, and a reference to what it supersedes unless the caller listed one |
| `Records.CreateSucceedsIff` | crates/mmcp-store/src/features.rs:306-410 | it succeeds exactly with a title or slug, a valid slug, a supersedable target if one is named, a number left or pinned, and a free path |
| `Records.UpdateWrites` | crates/mmcp-store/src/features.rs:641-672 | an update rewrites the one file its slug names: each field the change names reads back as given, the milestone set, cleared or kept, every other one as before, and the block of the other surface is gone |
| `Records.UpdateSucceedsIff` | crates/mmcp-store/src/features.rs:622-716 | it succeeds exactly when the slug is valid and names one canonical file of the surface in valid UTF-8 that is left superseded and linked, or neither |
| `Records.DeleteRemoves` | crates/mmcp-store/src/features.rs:827-885 | a delete takes out the one file its slug names and nothing else |
| `Records.DeleteSucceedsIff` | crates/mmcp-store/src/features.rs:827-885 | it succeeds exactly when the slug is valid and names one canonical file that reads as a record of the surface |
| `Records.RenameSucceedsIff` | crates/mmcp-store/src/tracker.rs:233-288 | a rename succeeds exactly when both slugs are valid and, unless they are equal, the old one has files and all of them read as records of the surface |
| `Records.ResolveIff` | crates/mmcp-store/src/memory.rs:479-514 | a slug resolves to an id exactly when one UUID-named file of that id stands under it, is missing exactly when none does, ambiguous exactly when two do |
| `Records.MintedNumberIs` | crates/mmcp-store/src/tracker.rs:43-110 | the minted number is the least one above all in use, and there is none exactly when the largest 32-bit number is in use |
| `Tickets.MintedNumberIsNew` | crates/mmcp-store/src/tracker.rs:43-73 | a minted number is larger than every number the counter reads, that is, in any memory file that is valid UTF-8 |
| `ShownTickets.MintedIsNewToReadersIff` | crates/mmcp-store/src/tracker.rs:43-110 | a minted number is new to every reader exactly when no file that is not valid UTF-8 shows it, and larger than all numbers shown exactly when none shows one that large |
| `ShownTickets.CounterMissesGarbled` | crates/mmcp-store/src/tracker.rs:80-110 | a record that is not valid UTF-8 is read with its number 1, and the counter mints 1 again |
| `ShownTickets.AddKeepsShownIff` | crates/mmcp-store/src/features.rs:316-342 | the exact condition for one create |
| `Tickets.CounterStopsAtTheCeiling` | crates/mmcp-store/src/tracker.rs:43-73 | at the largest 32-bit number the counter fails instead of wrapping |
| `Tickets.AddKeepsTicketsIff` | crates/mmcp-store/src/features.rs:316-342 | a create keeps numbers distinct if and only if the number it pins is nobody's |
| `Tickets.UpdateKeepsTickets` | crates/mmcp-store/src/features.rs:622-716 | an update keeps numbers distinct although it rebuilds the file |
| `Tickets.UpdatedMemory` | crates/mmcp-store/src/features.rs:622-716 | an update rewrites one existing file of its surface and never gives it a number it did not have; its fields are in `Records.UpdateWrites` |
| `Rename.PlanSlugRename` | crates/mmcp-store/src/tracker.rs:233-288 | the planning loop yields exactly the moves of the UUID-named entries in listing order, or the error of the first bad one |
| `Rename.ListingOrderIsImmaterial` | crates/mmcp-store/src/tracker.rs:233-288 | on any listing of the old slug's files the planner succeeds exactly when the rename does, and its commit leaves the same tree |
| `Rename.RenameConserves` | crates/mmcp-store/src/features.rs:752-801 | with unique ids a rename moves exactly the UUID-named files of the old slug, bytes unchanged, each onto a path that held nothing, and leaves every other path alone |
| `Rename.RenameKeepsIds` | crates/mmcp-store/src/features.rs:752-801 | no id appears or disappears and each still names one file |
| `Rename.RenameWritesAndDeletesApart` | crates/mmcp-store/src/tracker.rs:233-288 | no path of a planned rename is both written and deleted |
| `Rename.ForeignFileRejectsPlan` | crates/mmcp-store/src/tracker.rs:233-288 | one file that cannot be read, parsed or is not of the surface rejects the whole rename |
| `Supersede.AddKeepsChains` | crates/mmcp-store/src/features.rs:328-410 | a create under a new id keeps every chain and is linked by nobody |
| `Supersede.BackLinkKeepsChains` | crates/mmcp-store/src/features.rs:411-443 | linking the old feature, a middle one of a longer chain too, to the youngest one that refers back keeps every chain |
| `Supersede.UpdateKeepsChainsIff` | crates/mmcp-store/src/features.rs:622-716 | an update keeps every chain exactly when the file keeps the references that back links to it, a link it sets fits, and an issue update drops no feature somebody links to |
| `Supersede.DeleteKeepsChainsIff` | crates/mmcp-store/src/features.rs:827-885 | a delete keeps every chain exactly when no other feature links to the file it removes |
| `Supersede.NoSupersedeCycle` | crates/mmcp-store/src/diagnostics.rs:494-528 | following supersede links never returns to its start |
| `Supersede.CollectLinks` | crates/mmcp-store/src/diagnostics.rs:264-465 | the per-file pass collects each feature's references by id, the last one listed winning, and every link in listing order |
| `Supersede.DiagnoseSupersede` | crates/mmcp-store/src/diagnostics.rs:494-528 | on every listing the pass reports, in order, exactly the links whose target is not listed as a feature, or whose target as last listed does not refer back |
| `Supersede.LastIsTheOne` | crates/mmcp-store/src/diagnostics.rs:494-528 | with each id in one file these are the links whose target is missing from the tree or does not refer back |
| `Supersede.IntactChainsAreSilent` | crates/mmcp-store/src/diagnostics.rs:494-528 | it reports nothing on intact chains |
| `Refs.ComposeRefs` | crates/mmcp-store/src/tracker.rs:115-131 | for all lists the loop yields the current references to neither a removed nor an added target, then the last occurrence of each added target |
| `Refs.ComposeIsIdempotent` | crates/mmcp-store/src/tracker.rs:115-131 | composing again with the same lists changes nothing |
| `Refs.ComposeKeepsUniqueTargets` | crates/mmcp-store/src/tracker.rs:115-131 | one reference per target stays one per target |
| `Refs.ComposeTargets` | crates/mmcp-store/src/tracker.rs:115-131 | exactly the current targets not removed and the added ones remain |
| `Refs.ComposeHolds` | crates/mmcp-store/src/tracker.rs:115-131 | a reference is in the result exactly when it was there and its target is neither removed nor added, or it is the last one added for its target |
| `Conventions.ValidSlugIff` | crates/mmcp-store/src/memory.rs:1140-1181 | a slug is valid exactly when it has at most 256 characters and seven slashes and is spelled in lower-case letters and digits with single hyphens or slashes between them |
| `Conventions.PathRoundTrip` | crates/mmcp-store/src/memory.rs:389-408 | a memory's path gives back its slug, nested or not, and its canonical file name |
| `Conventions.MemoryPathInjective` | crates/mmcp-core/src/conventions.rs:57-60 | different slugs or ids have different paths |
| `TextLines.LinesOfText` | crates/mmcp-store/src/memory_ops.rs:584-586 | splitting after newlines loses nothing |
| `TextLines.OffsetCuts` | crates/mmcp-store/src/memory_ops.rs:584-586 | the byte offset of a line cuts the text exactly before that line |
| `Outlines.ParseSections` | crates/mmcp-core/src/memory/body.rs:136-282 | the stack-and-counter loop yields the outline: one section per heading behind the preamble, named along its heading trail |
| `SectionNames.PathIs` | crates/mmcp-core/src/memory/body.rs:216-273 | the path of a section is that of the nearest heading above that can hold it, and its slug, numbered by the headings above with the same slug under that path |
| `SectionNames.OutlineLineIff` | crates/mmcp-core/src/memory/body.rs:136-215 | a line opens a section of the outline exactly when it is up to three spaces, one to six hashes and a gap or the end |
| `SectionNames.SlugOfWord` | crates/mmcp-core/src/memory/body.rs:313-326 | the slug of a single word, whatever else stands around it, is the word in lower case |
| `SectionNames.SlugOfOneMore` | crates/mmcp-core/src/memory/body.rs:313-326 | a further word adds a hyphen and itself in lower case, so these two and the next give every slug |
| `SectionNames.SlugOfNothing` | crates/mmcp-core/src/memory/body.rs:313-326 | without a letter or digit the slug is `section` |
| `Outlines.RemovalKeepsTrailsIff` | crates/mmcp-core/src/memory/body.rs:216-273 | taking a section out keeps the path of every later one exactly when none of them is counted under a parent and slug the block was counted under |
| `Splices.SpliceOnLines` | crates/mmcp-core/src/memory/splice.rs:91-136 | on line boundaries the byte splice never fails and equals the line splice |
| `SectionShape.AssembleKeeps` | crates/mmcp-core/src/memory/splice.rs:91-136 | however its seams fall, a splice keeps all non-blank lines and all headings of its three parts in order |
| `SectionTexts.SeamsSetHeadingsOff` | crates/mmcp-core/src/memory/splice.rs:91-136 | a splice puts a blank line between two parts exactly when a heading meets the other part and no blank line stands there |
| `SectionRanges.PartsStandVerbatim` | crates/mmcp-core/src/memory/splice.rs:179-204 | a splice adds at most one blank line per seam and closes lines; prefix, fragment and tail stand in the result line by line |
| `SectionRanges.RangesAreLaminar` | crates/mmcp-store/src/memory_ops.rs:523-560 | the byte ranges of two sections are nested or disjoint and lie inside the body |
| `SectionTexts.RangeIsSpan` | crates/mmcp-store/src/memory_ops.rs:523-560 | a section reaches from its heading to the next outline heading at its level or above; the preamble and a quoted heading to the next heading of any kind |
| `SectionRanges.LonersOwnNothing` | crates/mmcp-store/src/memory_ops.rs:543-551 | the preamble and quoted headings own no other section |
| `SectionRanges.OwnBodyHoldsNoOutline` | crates/mmcp-store/src/memory_ops.rs:414-453 | the lines a body replacement takes out hold no outline heading |
| `SectionRanges.ReplaceBodyKeepsTheRest` | crates/mmcp-store/src/memory_ops.rs:414-453 | replacing a section's body keeps every line up to its heading and from its first child on; what it puts in is in `SectionTexts.ReplacementSays` |
| `SectionTexts.ReplacementSays` | crates/mmcp-store/src/memory_ops.rs:414-453 | it fails exactly when no section has the path; otherwise the non-blank lines of the given text, in order, replace the section's own body and nothing else |
| `SectionTexts.TrimBreaksCuts` | crates/mmcp-store/src/memory_ops.rs:446-452 | the text put in is the caller's with newlines cut off at both ends, none left there, and nothing else |
| `SectionTexts.DeleteTakesSpan` | crates/mmcp-store/src/memory_ops.rs:315-326 | a deletion fails exactly when no section has the path; otherwise the lines of the first one that has it go and all others stay |
| `SectionTexts.DeleteRenumbers` | crates/mmcp-core/src/memory/body.rs:216-273 | with distinct paths a deletion takes the section and its subtree out of the outline and one off the number of its later twins, wherever a path leads through one; every other path stays |
| `SectionTexts.InsertLandsAtAnchor` | crates/mmcp-store/src/memory_ops.rs:328-348 | an insertion fails exactly on a bad level or a missing anchor; otherwise the rendered section stands right in front of the anchor's lines or right behind them |
| `SectionTexts.LineEditsPut` | crates/mmcp-store/src/memory_ops.rs:455-487 | a line edit is accepted exactly for a range inside the body, counted in 32 bits, and replaces those lines |
| `SectionOps.ApplyOps` | crates/mmcp-store/src/memory_ops.rs:189-195 | a batch runs every operation on the result of the one before, or stops with the error of the first that fails |
| `SectionMoves.MoveRelocates` | crates/mmcp-store/src/memory_ops.rs:350-412 | in every body a move past the loop check puts the target's lines, together and unchanged, at the section the second lookup finds; the non-blank lines are the original ones with that block relocated |
| `SectionMoves.MissedAnchor` | crates/mmcp-store/src/memory_ops.rs:399-407 | when the second lookup finds nothing the move fails with the anchor not found |
| `SectionAnchors.LiftedRenumbered` | crates/mmcp-core/src/memory/body.rs:216-273 | in a body with distinct paths, lifting a section takes one off the number of each of its later twins wherever a path leads through one, and leaves every other path outside the section as it was |
| `SectionAnchors.AnchorFoundIff` | crates/mmcp-store/src/memory_ops.rs:399-409 | with distinct paths the second lookup finds the anchor where it slid to if and only if neither the anchor nor a section its path leads through stands behind the target under a parent and slug of the target's block |
| `SectionAnchors.MoveReachesAnchor` | crates/mmcp-store/src/memory_ops.rs:350-412 | under that condition, or in any body when no section up to the anchor shares a parent and slug with the block, the move puts the block at the anchor |
| `SectionAnchors.MoveFailsIff` | crates/mmcp-store/src/memory_ops.rs:350-412 | under the same condition a move fails exactly when the target is the anchor or contains it |
| `SectionAnchors.MoveMissesAnchor` | crates/mmcp-store/src/memory_ops.rs:399-412 | otherwise, with distinct paths, the block goes to the same place one twin further on, and exactly when there is no such place the move fails with the anchor not found |
| `SectionMoves.LiftedOutline` | crates/mmcp-store/src/memory_ops.rs:387-404 | after lifting, the outline is the old one without the block, and all paths are kept exactly when no later section shares a parent and slug with it |
| `SectionMoves.AnchorsFoundIff` | crates/mmcp-store/src/memory_ops.rs:399-409 | with distinct paths, the second lookup finds every section up to a given one and outside the block, all of them, where they slid to if and only if none of them behind the block shares a parent and slug with it |
| `SectionMoves.LiftedKeeps` | crates/mmcp-store/src/memory_ops.rs:387-397 | lifting a span, dropped trailing blank included, keeps all other non-blank lines and headings |
| `SectionMoves.DroppedText` | crates/mmcp-store/src/memory_ops.rs:569-580 | dropping one trailing blank line removes a last empty line and nothing else |
| `SectionWitnesses.MovePastTwinFails` | crates/mmcp-store/src/memory_ops.rs:399-407 | two sections with one heading have distinct paths, yet moving the first behind the second reports the anchor missing |
| `SectionWitnesses.MovePastTwinGoesTooFar` | crates/mmcp-store/src/memory_ops.rs:399-412 | of three sections with one heading, moving the first behind the second succeeds and puts it behind the third |
| `SectionWitnesses.TwinInBetweenDoesNoHarm` | crates/mmcp-store/src/memory_ops.rs:399-409 | a twin between the target and an anchor of another name does no harm: of sections `n`, `n-2` and `a`, the condition holds of the anchor `a` and fails of `n-2` |
| `SectionInverse.MoveAndBack` | crates/mmcp-store/src/memory_ops.rs:387-412 | moving a section behind its next sibling with another slug and in front of it again gives back the body with its last line ended, also at the end of the body |
| `SectionInverse.MoveAndBackIff` | crates/mmcp-core/src/memory/splice.rs:91-136 | so it restores the body byte for byte exactly when that ends in a newline |
| `SectionWitnesses.MoveAndBackAddsNewline` | crates/mmcp-core/src/memory/splice.rs:10-12 | a body stored without its trailing newline comes back with one |
| `SectionInverse.SiblingFoundIff` | crates/mmcp-store/src/memory_ops.rs:399-409 | with the first sibling lifted, the second is found under its path if and only if their slugs differ |
| `SectionUpsert.UpsertFixpointIff` | crates/mmcp-store/src/memory_ops.rs:241-313 | after a successful upsert the same upsert changes nothing exactly when the text behind the section ended or goes on with an outline heading at the requested level or above |
| `SectionUpsert.NewPathSettles` | crates/mmcp-store/src/memory_ops.rs:241-313 | an upsert to a new path is a fixed point at once |
| `SectionUpsert.OutlineSectionSettles` | crates/mmcp-store/src/memory_ops.rs:241-313 | so is one over an outline section at its own level or deeper |
| `SectionUpsert.UpsertedSectionIsWhole` | crates/mmcp-store/src/memory_ops.rs:277-313 | after a successful upsert the path finds a section that holds every rendered line; what these say is in `SectionTexts.UpsertSays` |
| `SectionTexts.UpsertSays` | crates/mmcp-store/src/memory_ops.rs:241-313 | its non-blank lines are the hashes of its level with the trimmed heading, then the non-blank lines of the caller's text in order; all other non-blank lines of the body stay |
| `SectionTexts.RenderedSays` | crates/mmcp-store/src/memory_ops.rs:504-520 | a rendered section says its title and the non-blank lines of the text, nothing else |
| `SectionUpsert.CheckAccepts` | crates/mmcp-store/src/memory_ops.rs:273-311 | the closing check accepts exactly a section that comes back under its path and whose body holds no outline heading at its level or above |
| `SectionUpsert.RenderedOpens` | crates/mmcp-store/src/memory_ops.rs:504-520 | whatever heading and body are given, the first rendered line is an outline heading of the requested level |
| `SectionWitnesses.QuotedUpsertDoesNotSettle` | crates/mmcp-store/src/memory_ops.rs:241-313 | an upsert over a quoted heading succeeds, and repeating it changes the body |
| `ImportPre.FindDlistMarker` | crates/mmcp-store/src/import_adoc.rs:331-356 | the scan finds the first two colons with an even number of backticks before them and the run they open, cut off after four, and nothing if there are none or they open the line |
| `ImportPre.DescriptionListRewrite` | crates/mmcp-store/src/import_adoc.rs:211-320 | the absorbing loop yields the specified item and the number of lines it consumed |
| `ImportPre.PreprocessAdoc` | crates/mmcp-store/src/import_adoc.rs:121-171 | the whole pass yields the specified lines, which the rows of `ImportListings` and `ImportItems` determine from the source lines |
| `ImportPreFacts.PreConserves` | crates/mmcp-store/src/import_adoc.rs:121-320 | every source line is consumed once and kept, split at its marker, trimmed, or dropped when blank or a lone `+`; the non-blank output says exactly that, in source order |
| `ImportPreFacts.ListingIsVerbatim` | crates/mmcp-store/src/import_adoc.rs:130-143 | everything from inside a listing to its closing delimiter comes out as it stands |
| `ImportListings.ListingPassesThrough` | crates/mmcp-store/src/import_adoc.rs:121-207 | outside a listing a run of four or more of `-`, `.`, `/` or `+` at the start, below a blank line or below a `[..]` line passes through with everything up to the next run of its character, and the text in front is rewritten as if it stood alone |
| `ImportListings.RunOpensNothing` | crates/mmcp-store/src/import_adoc.rs:182-207 | below any other line such a run is copied and opens nothing |
| `ImportItems.LabelIff` | crates/mmcp-store/src/import_adoc.rs:211-222 | a line is a label exactly when its first pair of colons outside backticks stands behind a term that is neither blank nor a block attribute; it splits there |
| `ImportItems.LabelIsRewritten` | crates/mmcp-store/src/import_adoc.rs:211-320 | outside a listing a label and the lines its item takes come out as the bold term, a blank line and the body: blank lines, a `+` below text as a blank line, other lines shifted left by a tab or two to four spaces |
| `ImportItems.OtherLineStands` | crates/mmcp-store/src/import_adoc.rs:160-171 | any other line outside a listing is copied |
| `ImportItems.ItemRunsOnIff` | crates/mmcp-store/src/import_adoc.rs:225-320 | behind an item's last line of text the output has a blank line exactly when the source has two |
| `ImportPreFacts.UnmarkedIsVerbatim` | crates/mmcp-store/src/import_adoc.rs:121-171 | text without a marker outside listings comes out verbatim |
| `ImportPreFacts.OutdentKeeps` | crates/mmcp-store/src/import_adoc.rs:290-299 | an absorbed line keeps its trimmed content and is never blank |
| `ImportPost.TryRenderLinkgit` | crates/mmcp-store/src/import_adoc.rs:417-455 | the matcher appends the rendering and reports the consumed length exactly when a well-formed macro starts there |
| `ImportPost.StripLinkgitMacros` | crates/mmcp-store/src/import_adoc.rs:391-415 | the index loop yields the specified stripped line |
| `ImportPost.PostprocessMarkdown` | crates/mmcp-store/src/import_adoc.rs:373-389 | the whole pass, splitting its own output again to collapse blanks, yields the specified text |
| `ImportPostFacts.NoMacroLeft` | crates/mmcp-store/src/import_adoc.rs:391-455 | no well-formed macro starts anywhere in a stripped line |
| `ImportCleaning.MacroIsRendered` | crates/mmcp-store/src/import_adoc.rs:391-455 | wherever a macro is spelled, its brackets both bare or both escaped, it comes out as name and volume in backticks |
| `ImportCleaning.CharIsCopied` | crates/mmcp-store/src/import_adoc.rs:391-415 | any other character comes out as it stands |
| `ImportCleaning.PostSelects` | crates/mmcp-store/src/import_adoc.rs:373-470 | exactly the lines stay, in order, that are neither a warning comment nor a blank line below another with at most warnings between |
| `ImportCleaning.LinesAreTheText` | crates/mmcp-store/src/import_adoc.rs:373-389 | splitting a text cuts at its newlines and nowhere else |
| `ImportPostFacts.StripIsIdempotent` | crates/mmcp-store/src/import_adoc.rs:391-455 | stripping a stripped line changes nothing |
| `ImportPostFacts.NoNewWarning` | crates/mmcp-store/src/import_adoc.rs:373-384 | stripping never turns a line into a warning line |
| `ImportPostFacts.PostCleans` | crates/mmcp-store/src/import_adoc.rs:373-470 | no warning line, macro or pair of blank lines is left; the other non-blank lines stay in order |
| `ImportPostFacts.PostprocessIsIdempotent` | crates/mmcp-store/src/import_adoc.rs:373-470 | running the pass on its own output changes nothing |
| `Addressing.ReadAllSlugFiles` | crates/mmcp-store/src/tracker.rs:331-405 | a failed batch is the only error; otherwise each slug has its own answer: invalid slug, not found without a UUID-named file, ambiguous with all candidates in listing order from two on, and for the only one its missing file, failed read, unparsable content or memory |
| `Addressing.SlugResolution` | crates/mmcp-store/src/memory.rs:479-514 | a slug resolves to an id exactly when one position of its listing is UUID-named, with that id; it is not found without one and ambiguous with two or more, all named in listing order |
| `Lookups.ListingAgrees` | crates/mmcp-store/src/memory.rs:479-514 | on a listing of a tree's directory that is how the slug resolves on the tree |
| `Addressing.ScanCandidatesForId` | crates/mmcp-store/src/memory.rs:621-651 | the batched scan returns what a sequential scan returns; only a failed batch is an error |
| `Addressing.ResolveById` | crates/mmcp-store/src/memory.rs:516-612 | the three-step search agrees with the one-by-one reading whenever its batch calls succeed, and whenever it answers at all |
| `Addressing.SplitIntoBuckets` | crates/mmcp-store/src/memory.rs:527-560 | the splitting loop fills the three buckets in listing order |
| `Addressing.BucketsPartition` | crates/mmcp-store/src/memory.rs:527-560 | each listed markdown file is in exactly the bucket its name calls for |
| `Addressing.ResolverIsCompleteAndOrdered` | crates/mmcp-store/src/memory.rs:516-612 | not-found means no listed readable file carries the id; a file named after the id wins over hand-named ones, those over files named after another id |
| `Lookups.FirstListedWins` | crates/mmcp-store/src/memory.rs:516-612 | among files of equal precedence that carry the id the first one listed is found |
| `Utf8.CutIsValid` | crates/mmcp-auth/src/backend.rs:354-364 | cutting well-formed UTF-8 at a character boundary leaves well-formed UTF-8 on both sides |
| `Handles.TruncateToByteLength` | crates/mmcp-auth/src/backend.rs:354-364 | the loop returns the longest prefix within the bound that ends on a character boundary |
| `Handles.DecimalDigitCount` | crates/mmcp-auth/src/defaults.rs:16-23 | the loop counts the digits of the printed numeral |
| `Handles.CandidatesApartIff` | crates/mmcp-auth/src/backend.rs:326-336 | the suffixed candidates are pairwise different exactly when the bound has room for the reserve |
| `Handles.HandlesAreSound` | crates/mmcp-auth/src/backend.rs:302-351 | every handle tried is within the bound and well-formed UTF-8 |
| `Handles.TriedAre` | crates/mmcp-auth/src/backend.rs:302-351 | the handles tried are provider, underscore and user cut to the bound, then the same cut three bytes shorter with a hyphen and a number from 2 to 20 |
| `Handles.ProvisionOauthHandle` | crates/mmcp-auth/src/backend.rs:302-351 | the first handle that is not taken decides; a returned handle is free; giving up means every handle tried is taken |
| `Handles.ExhaustionNeedsTwenty` | crates/mmcp-auth/src/backend.rs:302-351 | giving up requires at least twenty taken handles, or nineteen when a candidate is the base |
| `Handles.ExhaustionIsTight` | crates/mmcp-auth/src/backend.rs:302-351 | with exactly the handles tried taken the login gives up |
| `Handles.TriedCount` | crates/mmcp-auth/src/backend.rs:302-351 | the handles tried are twenty, or nineteen exactly when a candidate is the base |
| `Handles.CandidateIsTheBaseIff` | crates/mmcp-auth/src/backend.rs:297-336 | a suffixed candidate is the base exactly when the base goes on with that suffix behind its part kept for suffixes |
| `Handles.OneCandidateIsTheBase` | crates/mmcp-auth/src/backend.rs:326-336 | at most one candidate is the base |
| `Handles.CandidateCanBeTheBase` | crates/mmcp-auth/src/backend.rs:297-301 | a suffixed candidate can be the preferred handle itself |

## Left out

- `SystemInvariant.EveryCommitIsSequential`: does not model the window inside a commit; a commit is one step of the combined system. The native backend reads the parent and moves the branch later without a lock of its own; `SystemOverlap` states exactly what two overlapping commits of a run lose, and that a create's or rename's commit is exact all the same (`SystemOverlap.WriterLandsOnItsParent`).
- Rename reads its n files one after the other; under the exclusive group lock these reads see one tree, and the model makes them one read. The listing it returns afterwards, which fails for two or more entries, is not modelled.
- Fairness of the locks: any grantable waiter may be granted. Deadlock freedom is shown for every choice and for first-come locks.
- `SystemSafety.TicketsStayDistinct`: counts numbers as the counter does, in valid UTF-8 only; `SystemTickets.ShownStayDistinct` states what holds for readers.
- `SystemSafety.MintedTicketsStayDistinct`: likewise; see `SystemTickets.MintedTicketsStayShownDistinct`.
- `Tickets.MintedNumberIsNew`: likewise; see `ShownTickets.MintedIsNewToReadersIff`.
- `Outlines.ParseSections`: does not model setext headings, fences, list containers and heading attributes, which the CommonMark parser decides.
- TOML frontmatter, `slug::slugify` beyond ASCII, UUID parsing and the AsciiDoc converter: foreign code. File content is a rendered memory or stored bytes with their parse results; file names are canonical, respelled, hand-made or not markdown.
- Length limits on rendered content, commit messages and authors, cache triggers, and `write_file_at_path`'s idempotence checks.
- `move_memory_path`, `import_memory`, milestones, archives and the edit tools that take no lock of this hierarchy.
- The CommonMark parser: headings are ATX lines behind block quote markers, one line at a time. Setext headings, fences, list containers, heading attributes and text with carriage returns are not modelled, so the check against an open fence is not either.
- Section paths are sequences of segments; the source joins them with dots, which no ASCII slug contains.
- Whitespace is ASCII whitespace in the importer and in heading trimming; strings of the section editor and the importer stand for bytes.
- The importer's converter between the two passes.
- `Addressing.ResolveById`: does not model that the three steps read the head at different times; all reads see one store.
- `Handles.ProvisionOauthHandle`: does not model accounts created between two lookups; the account table is fixed for one call.
- Password policy, sessions, network, database, synchronisation and the user interface.
