# Proofs about the build and CI engines

The scripts under `ci/` decide whether a change may land and what goes into a package. This project models the
ones that hold an algorithm, and proves what they are relied on for. It is plain Dafny 4.11 and needs nothing else:
`dafny verify dfyconfig.toml` checks all of it.

- **The module-cycle ratchet** (`Graph`, `Sorting`, `Tarjan`, `CycleGate`). Tarjan's algorithm with its mutable
  tables, and on it the comparison of a tree's module cycles with a recorded baseline. A module is a number; a graph
  maps a module to the set of modules it names. The result of the search is unique, so the order of iteration does not
  matter.
- **What that gate reads** (`RustMask`, `RustTokens`, `CfgTest`, `CfgBlank`, `CfgItems`, `CrateGroup`). The Rust lexer that blanks comments
  and literals without moving anything, the blanking of `cfg(test)` items, line numbers, and the names in a
  `crate::{..}` group.
- **Layers** (`Layers`, `Readiness`, `Allowlist`). Placement of modules in layers, the references each layer may make,
  the list of exceptions as a text file, its pruning, and which layers can become a crate of their own.
- **Concurrent fetching** (`Deps`, `DepsRuns`). Any number of processes run `fetch_asset`, `publish` and `stage` over one file
  system; a step of a run is one file operation of one process, and a process that is not scheduled again has stopped
  where it was.
- **The macOS bundle** (`MacBundle`). The walk that copies a dylib graph into a bundle and rewrites it on the way.
- **Ownership of heap** (`StaticsHeap`). The worklist that follows type definitions.
- **Writers, readers and translators** (`Ar`, `ArRoundTrip`, `CiPaths`, `Localization`, `PlaceholderLex`,
  `PlaceholderTokens`, `PlaceholderScan`, `NoticesData`, `NoticesRender`, `NoticesVersion`).

`Options` and `Text` hold what several modules share: an optional value, and the parts of Python's `str` and `int` that
the scripts use.

What an exception ends is an explicit outcome here (`None`, `Err`, `Refused`, a failure in a set), never a
precondition. Unicode classes (`\w`, `str.isspace`, `str.isalnum`) are parameters, restricted only where a proof
needs it, for instance to "a digit is no space".

## Where the code does not do what it says

Each of these is a lemma, with the exact condition under which the promise holds.

- `mask` keeps offsets only when an unclosed literal, if there is one, leaves room for the delimiter that is made up
  for it (`RustMask.MaskBShape`, `RustMask.LoneQuoteGrows`).
- A `cfg` predicate can be off in every production build without being recognised as test-only
  (`CfgTest.OffButNotAccepted`); what is recognised is exactly `test` and `all(..)` around it (`CfgTest.ParsesTestOnly`).
- With overlapping baseline groups the gate may fail although every pair of modules on a cycle shares a group, and
  its message then names no reference (`CycleGate.OverlapBreaksPairs`). The pairwise reading is right for every tree
  exactly when each set of modules that the groups cover pair by pair lies in one group (`CycleGate.GreenPairwise`);
  every merge names a reference exactly when two groups with a common member always lie together inside one
  (`CycleGate.MergesName`). Disjoint groups meet both (`CycleGate.DisjointGroups`).
- "named by its digest, so two pins never collide" holds up to a shared file name and the first 16 digits of the
  digest (`Deps.SharedPathCollides`).
- The expression for a path filter does not let `**` match a newline (`CiPaths.NewlineMissed`). A pattern's expression
  and its filter agree on every path exactly when the pattern holds no `**` (`CiPaths.AgreesEverywhere`), and a path is
  judged the same under every pattern exactly when it holds no newline (`CiPaths.AgreesOn`).
- A layer can be reported ready although one of its modules names a layer it may not use, because an entry is charged
  to the layer of its first reference only (`Readiness.SharedFileHidesDebt`). Ready means what it says exactly when the
  layer of every reference to a layer that may not be used is itself held up (`Readiness.ReadyNamesNothingAbove`).
- `lex` loses a line when a newline stands alone between two single quotes (`PlaceholderLex.LexBeside`,
  `PlaceholderLex.LostNewline`).
- At module level a spinner's own counter can be refused because another spinner, far away, has used its own
  (`PlaceholderScan.ModuleLevelShares`). Every such spinner with a counter is satisfied exactly when at each the window
  holds more counters, or more exemptions, than were taken before it (`PlaceholderScan.WhenCountersServe`); without
  exemptions, when the window of the k-th holds at least k (`PlaceholderScan.CountersServeByRank`).

## Model

| member | source | states |
|---|---|---|
| `Tarjan.Sccs` | ci/check-module-cycle.py:436-469 | Terminates on every graph and lists exactly the mutual-reachability classes of the names and of what they reach, each once and ascending, largest first |
| `Tarjan.Search.Strong` | ci/check-module-cycle.py:445-464 | One call of `strong`: the tables keep their invariant, and the node ends emitted with its whole class or on the stack below an older node it reaches |
| `Tarjan.Search.Visit` | ci/check-module-cycle.py:450-455 | One turn of its loop keeps every edge back into the stack at or above `low` |
| `Tarjan.Search.PopComponent` | ci/check-module-cycle.py:456-464 | At a root, what is popped is one whole class |
| `Tarjan.Search.Push` | ci/check-module-cycle.py:446-449 | Numbering a node that every open call reaches keeps the invariant |
| `Tarjan.SegmentIsClass` | ci/check-module-cycle.py:456-464 | The part of the stack above a root is closed under mutual reachability, and connected |
| `Tarjan.SccListUnique` | ci/check-module-cycle.py:436-469 | There is one such list, whatever order nodes and edges are visited in |
| `CycleGate.Cycles` | ci/check-module-cycle.py:472-474 | Exactly the classes that hold a module on a cycle |
| `CycleGate.Check` | ci/check-module-cycle.py:523-559 | No failure exactly when every cycle lies inside one baseline group; every failure is true of the tree and says where; a member is reported gone exactly when it left every cycle |
| `CycleGate.GreenMeansWithin` | ci/check-module-cycle.py:527-529 | Every component is a subset of a group exactly when each module's class is |
| `CycleGate.GreenPairwise` | ci/check-module-cycle.py:525-529 | For every tree, green means that any two mutually reachable modules share a group: exactly when the groups cover each set of modules that they cover pair by pair |
| `CycleGate.OverlapBreaksPairs` | ci/check-module-cycle.py:525-542 | Groups that meet neither condition: three of them cover a triangle pair by pair, yet the gate fails and its merge lists nothing |
| `CycleGate.VerdictsJustified` | ci/check-module-cycle.py:527-542 | Each failure describes a cycle outside every group, and names exactly the edges that close, enter or cross it and the groups it touches |
| `CycleGate.ExplainWitness` | ci/check-module-cycle.py:496-520 | The explanation lists a closing edge always, and an entry edge exactly when part of the cycle was recorded |
| `CycleGate.MergeWitness` | ci/check-module-cycle.py:535-542 | A merge names only references between modules of different groups, and at least one when overlapping groups lie together inside one |
| `CycleGate.MergesName` | ci/check-module-cycle.py:535-542 | That condition on the groups is exact: only then does every merge of every tree name a reference |
| `CycleGate.DisjointGroups` | ci/check-module-cycle.py:477-485 | Disjoint groups, as a snapshot records them, meet both conditions |
| `CycleGate.NoticesTrue` | ci/check-module-cycle.py:543-558 | The notices name exactly the recorded members that are on no cycle; a changed count is reported exactly when none left, the tree is green, its largest cycle is the recorded one and the counts differ |
| `CycleGate.Snapshot` | ci/check-module-cycle.py:477-485 | The recorded groups are the tree's cycles, the largest first, with the number of modules outside that one |
| `CycleGate.SnapshotRecords` | ci/check-module-cycle.py:477-485 | A baseline is a snapshot exactly when it records just that |
| `CycleGate.CycleListUnique` | ci/check-module-cycle.py:472-474 | There is one such list of cycles |
| `CycleGate.OwnSnapshotGreen` | ci/check-module-cycle.py:477-485 | A tree is green against its own snapshot |
| `CycleGate.SnapshotNarrower` | ci/check-module-cycle.py:477-485 | The snapshot of a green tree allows nothing its baseline did not |
| `CycleGate.Ratchet` | ci/check-module-cycle.py:477-559 | Over any history of green trees, with snapshots taken at will, no tree has a cycle outside the first baseline's groups |
| `RustMask.Mask` | ci/check-module-cycle.py:82-147 | The first text shadows the source; the second keeps its length and newlines exactly when an unclosed literal leaves room |
| `RustTokens.MaskRead` | ci/check-module-cycle.py:82-147 | For every source, by its comments and literals: the first text blanks exactly the comments; the second also what literals quote, up to one that never closes, which comes with its delimiter made up |
| `RustTokens.LexedSome` | ci/check-module-cycle.py:82-147 | Every source is a sequence of comments and literals with nothing that begins one in between |
| `RustTokens.LexedOnce` | ci/check-module-cycle.py:82-147 | And of only one |
| `RustTokens.PieceIs` | ci/check-module-cycle.py:71-73 | What the token expression takes at an offset is what the text has there: a line comment to its newline, a nested block comment, a string to its first unescaped quote, a raw string to the first quote with its own hashes, a character literal of one of four forms |
| `RustTokens.BlockEndIs` | ci/check-module-cycle.py:111-119 | A block comment ends just past the first closer at which the openers and closers since its start, read without overlap, are equal, or with the text |
| `RustMask.MaskAShadows` | ci/check-module-cycle.py:82-147 | For every source the first text has the same length, and each character is the original or a space that replaces no newline |
| `RustMask.MaskBShape` | ci/check-module-cycle.py:134-147 | The condition for the second text, for every source |
| `RustMask.MaskedAt` | ci/check-module-cycle.py:82-147 | With every literal closed, an offset is blanked in the first text exactly inside a comment, in the second also between a literal's quotes |
| `RustMask.LoneQuoteGrows` | ci/check-module-cycle.py:134-143 | A quote at the end of a file makes the second text longer than the source |
| `CfgTest.TopLevelArgs` | ci/check-module-cycle.py:173-186 | The loop yields the pieces between depth-zero commas, stripped, without the empty ones |
| `CfgTest.ArgsOfList` | ci/check-module-cycle.py:173-186 | Splitting a printed argument list gives back the printed arguments |
| `CfgTest.ParsesTestOnly` | ci/check-module-cycle.py:189-194 | A printed predicate is accepted exactly when it is `test` or an `all` with such a part |
| `CfgTest.AcceptedIsOff` | ci/check-module-cycle.py:189-194 | What is accepted is false in every configuration with `test` off |
| `CfgTest.OffButNotAccepted` | ci/check-module-cycle.py:189-194 | The converse fails |
| `CfgBlank.Balanced` | ci/check-module-cycle.py:159-170 | The loop finds the bracket that brings the depth back to zero |
| `CfgBlank.BalancedIsFirst` | ci/check-module-cycle.py:159-170 | For any two brackets: just past the first closing one that makes both counts equal, or the end of the text when none does |
| `CfgBlank.FindItemEnd` | ci/check-module-cycle.py:197-252 | Both loops of `_item_end` compute the end that `CfgItems.ItemIs` reads off the text |
| `CfgItems.ItemIs` | ci/check-module-cycle.py:197-252 | Behind its attributes an item ends at its first depth-zero semicolon or before the bracket that closes what it is in; at its last brace, unless its word asks for a semicolon; at a depth-zero comma, when it begins with none of the words |
| `CfgItems.BodyEndsItem` | ci/check-module-cycle.py:233-247 | An item with a body ends just past the brace that closes its first depth-zero one; no comma ends it |
| `CfgItems.ModeRead` | ci/check-module-cycle.py:215-227 | Which of the three it is depends on the word behind the visibility, and for `const` on `fn` in its first line |
| `CfgItems.AttributesEnd` | ci/check-module-cycle.py:200-214 | The first loop stops behind all further attributes, wherever space stands in them |
| `CfgBlank.EndIsFirstStop` | ci/check-module-cycle.py:225-252 | That end is at the first character that can end the item by bracket depth, or the end of the text |
| `CfgBlank.CutIsTestItem` | ci/check-module-cycle.py:259-274 | What the loop decides to blank is an item under an outer `cfg` attribute with an accepted predicate, up to that item's end |
| `CfgBlank.BlankedIsOff` | ci/check-module-cycle.py:189-275 | An item blanked under a printed predicate is off in every configuration without `test` |
| `CfgBlank.TestOnlyIsCut` | ci/check-module-cycle.py:189-275 | An outer `cfg` with a printed predicate is blanked exactly when the predicate is test-only and no blanked item is around it |
| `CfgBlank.SpansOrdered` | ci/check-module-cycle.py:257-275 | The items to blank are disjoint and in order |
| `CfgBlank.SpansAreTestItems` | ci/check-module-cycle.py:259-275 | Each is an item under an outer `cfg` attribute whose predicate is accepted as test-only, from the attribute to its end |
| `CfgItems.SpansRead` | ci/check-module-cycle.py:255-275 | Read off the text: each blanked item goes from an accepted outer `cfg` to its end, every accepted `cfg` lies in a blanked item, and a file is all test code only because of an accepted inner one |
| `CfgItems.CfgAtIs` | ci/check-module-cycle.py:152 | The search finds a `cfg` attribute exactly where the text has one |
| `CfgBlank.BlankedAt` | ci/check-module-cycle.py:276-287 | Exactly those items are blanked; every other character and every newline stays |
| `CfgBlank.BlankCfgTest` | ci/check-module-cycle.py:255-287 | The method does that to both texts, which keep their length and newlines |
| `CfgBlank.Source.constructor` | ci/check-module-cycle.py:303-306 | The table holds the offset of every newline of the text |
| `CfgBlank.Source.Line` | ci/check-module-cycle.py:308-309 | The binary search returns one more than the number of newlines before the offset |
| `CfgBlank.Rank` | ci/check-module-cycle.py:308-309 | The place where an offset sorts into the table is the number of newlines before it |
| `CfgBlank.Load` | ci/check-module-cycle.py:312-318 | Masking and blanking in turn: the line of every offset is the line in the file, under the condition of `mask` |
| `CrateGroup.Heads` | ci/check-module-cycle.py:397-421 | The loop over a `crate::{..}` group finds exactly the first name of every item at depth one, in order |
| `CrateGroup.HeadsFound` | ci/check-module-cycle.py:403-421 | From any point of the loop on, exactly the heads that are left |
| `Deps.StepInv` | ci/deps.py:76-91 | Every step of every process keeps the invariant: bytes are renamed only when they hash to the pin, and candidates are private |
| `Deps.RunInv` | ci/deps.py:149-223 | So it holds at every moment of every interleaving |
| `Deps.RenamesArePinned` | ci/deps.py:76-91 | Everything ever renamed onto a path hashes to that path's pin |
| `Deps.MatchesForever` | ci/deps.py:152-159 | A path that matches its pin matches it for ever after |
| `Deps.ReturnedMatches` | ci/deps.py:149-183 | A path that `fetch_asset` has returned holds the asset's bytes, then and later |
| `Deps.FinishedInPlace` | ci/deps.py:197-223 | A process that ends well has everything it was asked for in place, and it stays |
| `Deps.UnlinksOwn` | ci/deps.py:88-89 | No process unlinks a candidate that another one made |
| `Deps.LeavesNoCandidate` | ci/deps.py:182-183 | A process that ended, well or not, left no candidate behind |
| `Deps.MismatchEnds` | ci/deps.py:172-175 | From the moment a source has answered with bytes of another digest, whatever other processes do, the fetch can only remove them and fail: it comes to no later source, no rename and no return |
| `Deps.SharedPathCollides` | ci/deps.py:70-73 | Two assets share a place in the store exactly when name and first 16 digits agree |
| `DepsRuns.FetchEnds` | ci/deps.py:149-183 | A fetch that has ended failed exactly because a candidate could not be made or renamed, a source gave other bytes, or every source refused; else it has returned its path, and what it downloaded is in the store too unless that copy failed |
| `DepsRuns.FetchSucceeds` | ci/deps.py:165-180 | When some sources refuse and the next gives the pinned bytes, the fetch returns, whatever other processes do |
| `DepsRuns.AllSourcesTried` | ci/deps.py:165-181 | Without a failing operation or other bytes it fails only after the URL and every mirror, in that order, have refused |
| `DepsRuns.StoreServes` | ci/deps.py:155-159 | When the store holds the asset and the copy works, no source is asked and the fetch does not fail |
| `DepsRuns.TargetServes` | ci/deps.py:152-153 | When the target holds the asset, nothing is fetched, made or copied |
| `DepsRuns.StagedAlready` | ci/deps.py:203-209 | `stage` fetches and copies nothing when every file is in place |
| `DepsRuns.PlacedLeft` | ci/deps.py:213-215 | It leaves a single file alone that is right already |
| `DepsRuns.FailsForReason` | ci/deps.py:149-223 | Every process that fails has one of these reasons, or a copy of `stage` that failed |
| `DepsRuns.RunStories` | ci/deps.py:149-223 | What a process remembers of its sources and operations is true at every moment of every interleaving |
| `DepsRuns.TurnsBounded` | ci/deps.py:149-223 | In every run a process makes at most so many steps as its work allows, however others are scheduled |
| `DepsRuns.NotStuck` | ci/deps.py:149-223 | And until it has ended there is a step it can make |
| `DepsRuns.CanEnd` | ci/deps.py:149-223 | So from every moment of every run it can come to its end |
| `MacBundle.Bundle.constructor` | ci/mkmacapp.py:188-191 | An empty Frameworks directory and an untouched executable |
| `MacBundle.NamesCover` | ci/mkmacapp.py:57-64 | The names `deps` yields for a file not yet rewritten hold every external reference of the original, and no other external name |
| `MacBundle.NamesShown` | ci/mkmacapp.py:57-64 | A name is passed over exactly when it is `@rpath` and the file's own last part; so every name of the build machine is there |
| `MacBundle.Bundle.CopyIn` | ci/mkmacapp.py:205-207 | A copy under its leaf with its `@rpath` id; every other file stays |
| `MacBundle.Bundle.Repoint` | ci/mkmacapp.py:210 | Exactly the one reference of the one file changes |
| `MacBundle.Bundle.Process` | ci/mkmacapp.py:194-210 | One file of the walk: its references settle, what it loads comes in and is queued, the other settled files stay settled |
| `MacBundle.Bundle.BundleLibraries` | ci/mkmacapp.py:188-210 | Terminates on every finite graph, cyclic or not; ends with every file settled, or names a wanted library that is missing |
| `MacBundle.Bundle.BundleDlopenedSdl3` | ci/mkmacapp.py:213-236 | Nothing changes unless the bundled SDL2 asks for SDL3; then the first candidate on the machine is copied in with what it wants, a settled bundle stays settled, and every other library stays the copy of what it was; or there is no candidate, or a library it wants is missing |
| `MacBundle.SettledReferences` | ci/mkmacapp.py:194-210 | A settled file names only the system, relative paths, and bundled libraries through `@rpath` |
| `MacBundle.CopiesAreWanted` | ci/mkmacapp.py:202-208 | From an empty directory, every copy is a transitive external dependency of the program |
| `MacBundle.WantedAreCopied` | ci/mkmacapp.py:202-210 | When a leaf names one library, every transitive external dependency is copied, with its references repointed |
| `MacBundle.LeaksOf` | ci/mkmacapp.py:242-250 | Exactly the pairs of a file and an external name of it |
| `MacBundle.Bundle.VerifySelfContained` | ci/mkmacapp.py:239-251 | Over the program, Frameworks and the resources: exactly the external names of any of them |
| `MacBundle.SelfContained` | ci/mkmacapp.py:239-251 | In a settled bundle the leaks are those of the resources |
| `MacBundle.Assemble` | ci/mkmacapp.py:299-304 | Both passes from an empty directory, then the check, without regard to how names are taken apart: a reference with one of the five prefixes stays; every other one now is `@rpath/` and its own last part, and that library is there; each library is a needed file of the machine with its own name, id and references; wanted libraries with different last parts are all there; the only possible leaks are those of the resources; or what was missing |
| `Localization.Matching` | ci/check-localization.py:130-140 | The stack machine's result, and its two errors |
| `Localization.MatchingIsGroup` | ci/check-localization.py:130-140 | It returns an index exactly when the group opened there closes at that index as a well-nested word |
| `Localization.Arguments` | ci/check-localization.py:173-182 | The loop's ranges; inside a group it never fails |
| `Localization.ArgumentsOfGroup` | ci/check-localization.py:173-182 | The ranges are ordered and disjoint, cut at exactly the depth-zero commas |
| `Localization.SplitRejoins` | ci/check-localization.py:173-182 | With the commas put back they are the interior, up to one trailing comma |
| `CiPaths.OneReading` | ci/ci_paths.py:50-67 | A pattern can be read as operators in exactly one way when every operator is as long as it can be |
| `CiPaths.Regex` | ci/ci_paths.py:50-68 | The loop's expression matches a newline-free path exactly when the documented filter selects it |
| `CiPaths.ExpressionMeans` | ci/ci_paths.py:50-68 | For every text: it matches exactly when the text divides into one piece per operator with no `**` past a newline |
| `CiPaths.MatchesSelects` | ci/ci_paths.py:12-15 | It never matches more than the documentation says, and as much on newline-free paths |
| `CiPaths.AgreesEverywhere` | ci/ci_paths.py:50-68 | Expression and filter agree on every path exactly when the pattern holds no `**` |
| `CiPaths.AgreesOn` | ci/ci_paths.py:50-68 | On a given path they agree for every pattern exactly when the path holds no newline |
| `CiPaths.NewlineMissed` | ci/ci_paths.py:58 | `**` selects every path and matches those without a newline |
| `CiPaths.IncludedStep` | ci/ci_paths.py:12-15 | A later pattern overrules the earlier ones where it selects, and only there |
| `CiPaths.Triggers` | ci/ci_paths.py:71-78 | The loop's verdict is that of the last pattern that selects the path, false if none does |
| `CiPaths.Gated` | ci/ci_paths.py:81-84 | True exactly when no path is left or some path triggers |
| `Layers.Register` | ci/check-module-layers.py:90-94 | A member maps to the last section that lists it; an error exactly when one is listed twice |
| `Layers.KeyErrors` | ci/check-module-layers.py:76-88 | An error exactly for each section with a key it may not have, naming those keys |
| `Layers.UsesErrors` | ci/check-module-layers.py:95-98 | No error exactly when every used layer is known and another one |
| `Layers.CycleErrors` | ci/check-module-layers.py:99-101 | No error exactly when the layer graph has no cycle |
| `Layers.Layers.constructor` | ci/check-module-layers.py:62-101 | The tables are those of the file, and there is no error exactly when it is well formed |
| `Layers.Layers.MemberOf` | ci/check-module-layers.py:103-108 | The loop finds the owner |
| `Layers.OwnerIsLongest` | ci/check-module-layers.py:103-108 | The owner is the longest listed prefix, and the root owns only itself |
| `Layers.Layers.PortMemberOf` | ci/check-module-layers.py:110-114 | The loop finds the innermost port member |
| `Layers.Layers.Violations` | ci/check-module-layers.py:121-130 | Exactly the references to a layer that may not be used, grouped by file and member, in order |
| `Layers.Layers.PortViolations` | ci/check-module-layers.py:133-142 | The same for references into a port from outside it |
| `Layers.UpKeyMeans` | ci/check-module-layers.py:121-130 | A reference is one upward exactly when the owners of its ends are in different layers and the first may not use the second |
| `Layers.PortKeyMeans` | ci/check-module-layers.py:133-142 | And one into a port exactly when the innermost port members of its ends differ in their port, or its source has none |
| `Layers.NamesDiffer` | ci/check-module-layers.py:117-118 | Members have different names, but for the root and a module called `crate` |
| `Layers.NoFailure` | ci/check-module-layers.py:410-429 | When a run reports nothing |
| `Layers.Gate` | ci/check-module-layers.py:410-437 | Green exactly when the file is well formed, every module is placed, and the list holds exactly the keys in use with the right count; every key and module that is reported, and under which heading, by owners, layers and ports |
| `Layers.UnlistedGoesDown` | ci/check-module-layers.py:121-130 | Under a green gate a reference without an entry stays in its layer or follows `uses` |
| `Layers.CyclesStayInside` | ci/check-module-layers.py:412-417 | Without the listed references, modules that reach each other are in one layer |
| `Layers.CrossingCycleIsListed` | ci/check-module-layers.py:412-417 | Every cycle of references that visits two layers goes through one with an entry |
| `Layers.EmptyListNoCrossing` | ci/check-module-layers.py:412-417 | With an empty list every strongly connected component is inside one layer |
| `Layers.PortsHold` | ci/check-module-layers.py:418-423 | No walk of references without an entry enters a port |
| `Readiness.Below` | ci/check-module-layers.py:346-350 | The worklist finds exactly the layers below one, on cyclic graphs too; it fails exactly when an unknown name is reached |
| `Readiness.Blocked` | ci/check-module-layers.py:343 | A layer is charged exactly when it is that of some entry's first reference |
| `Readiness.Ready` | ci/check-module-layers.py:346-358 | Ready exactly when nothing is charged to the layer or to any layer below it |
| `Readiness.ExtractableBelow` | ci/check-module-layers.py:346-358 | Whatever is below a ready layer is ready |
| `Readiness.ReadyNamesNothingAbove` | ci/check-module-layers.py:341-358 | No module of a ready layer or below names a layer it may not use: exactly when every reference that does is in a layer that is held up |
| `Readiness.OneLayerCharged` | ci/check-module-layers.py:341-343 | So it is when no file's references span two layers |
| `Readiness.SharedFileHidesDebt` | ci/check-module-layers.py:343 | When they do, a ready layer can name upward |
| `Allowlist.Read` | ci/check-module-layers.py:271-285 | Count, entries and bad lines of a list, line by line |
| `Allowlist.SkippedMeans` | ci/check-module-layers.py:278-279 | A line is passed over exactly when it is all space or its first other character is `#` |
| `Allowlist.FieldsJoin` | ci/check-module-layers.py:280 | Splitting a line loses nothing, and no field holds a tab |
| `Allowlist.EveryLineCounts` | ci/check-module-layers.py:276-285 | Entries and bad lines together are the lines that are neither blank nor comments |
| `Allowlist.Write` | ci/check-module-layers.py:288-292 | The text is the header and one row per entry |
| `Allowlist.RoundTrip` | ci/check-module-layers.py:271-292 | Writing and reading is the identity, with the count right, exactly for the maps reading can give |
| `Allowlist.ReadWritable` | ci/check-module-layers.py:279-284 | Reading gives no other maps |
| `Allowlist.Prune` | ci/check-module-layers.py:404-408 | The pruned file reads back as the entries in use, with the count right |
| `Allowlist.PrunedListHolds` | ci/check-module-layers.py:404-429 | After pruning the list holds up the gate exactly when every key in use had an entry |
| `StaticsHeap.Owner` | ci/check-statics-heap.py:297-312 | Terminates on every table of definitions, and says heap exactly when a heap type or an unresolved CamelCase name is reached; the name it gives is such a one |
| `StaticsHeap.OwnersStillOwn` | ci/check-statics-heap.py:297-312 | With further bodies every owner of heap stays one, exactly when every name that was held against a type as unknown owns heap now |
| `StaticsHeap.MoreBodiesStillOwn` | ci/check-statics-heap.py:297-312 | Under that condition no declared type turns from an owner into plain data |
| `StaticsHeap.AddBody` | ci/check-statics-heap.py:288-289 | In particular another body of a defined name does not |
| `StaticsHeap.DefiningCanClear` | ci/check-statics-heap.py:307-311 | Defining an unknown name as plain data clears it: what the condition of `OwnersStillOwn` keeps out |
| `Text.IntDecimal` | ci/gen-release-audit.py:101 | A decimal number is read back whatever space is around it |
| `Text.DecimalWidth` | ci/mkipk.py:296 | It takes at most k columns exactly when it is below the k-th power of ten |
| `Ar.WriteAr` | ci/mkipk.py:287-300 | The members one after the other, each with its header and filled to an even length; refused exactly when a name is too long |
| `Ar.ArMembers` | ci/gen-release-audit.py:94-104 | The lenient walk: all rows, or how it ends early |
| `Ar.Check` | ci/check-packaged-elf.py:14-31 | The strict walk gives a payload exactly when the file is well formed and one member has the data archive's name |
| `ArRoundTrip.EntryFits` | ci/mkipk.py:292-300 | The columns of a header, for a size that fits |
| `ArRoundTrip.IdentityColumns` | ci/mkipk.py:296 | Time, owner, group and mode are the same in every header |
| `ArRoundTrip.EntryWide` | ci/mkipk.py:296 | A size of more than ten digits overruns the magic |
| `ArRoundTrip.LenientRoundTrip` | ci/gen-release-audit.py:94-104 | The lenient reader gives back names, sizes and payloads exactly when no name ends in space and each size fits |
| `ArRoundTrip.StrictRoundTrip` | ci/check-packaged-elf.py:14-31 | The strict one exactly when, besides, no name starts with space or ends in a slash |
| `ArRoundTrip.DataIsFound` | ci/check-packaged-elf.py:27-31 | The one data archive that was written is found, with its own payload |
| `ArRoundTrip.StrictThenLenient` | ci/check-packaged-elf.py:19-30 | Whatever file the strict walk accepts, the lenient reader lists the same payloads in order |
| `PlaceholderLex.Lex` | ci/check-placeholders.py:104-170 | The loop's two texts |
| `PlaceholderTokens.LexRead` | ci/check-placeholders.py:104-170 | For every source, by its comments and literals: comments show in the comments without the marks of block comments, strings and character literals nowhere, the rest in the code; newlines in both, but for one inside a character literal |
| `PlaceholderTokens.LexedSome` | ci/check-placeholders.py:104-170 | Every source is a sequence of such pieces |
| `PlaceholderLex.LexBeside` | ci/check-placeholders.py:104-170 | For every text both outputs have its length; a character shows in the code or in the comments, never in both; no newline is lost exactly when no character literal is a bare newline |
| `PlaceholderLex.LostNewline` | ci/check-placeholders.py:158-162 | Such a literal |
| `PlaceholderLex.SameLines` | ci/check-placeholders.py:170 | The code and the comments have the same lines, of the same lengths |
| `PlaceholderLex.LineOf` | ci/check-placeholders.py:192-204 | The binary search returns the one line that holds the offset |
| `PlaceholderLex.HeldCharacter` | ci/check-placeholders.py:191-194 | The character at an offset is that of the line that holds it |
| `PlaceholderScan.RegionIsInnermost` | ci/check-placeholders.py:238-241 | The region is a function around the line, and none around it is shorter |
| `PlaceholderScan.Scan` | ci/check-placeholders.py:258-291 | Of a function's N spinner lines with C counters and E reasoned exemptions, exactly max(0, N - C - E) are unsatisfied |
| `PlaceholderScan.SpentSoFar` | ci/check-placeholders.py:272-284 | At every line the counters are used up first and the exemptions next, and no other line touches them |
| `PlaceholderScan.PlainLine` | ci/check-placeholders.py:283-291 | A watched line that is no spinner takes nothing; an absence must be excused in its window, anything else counted or excused there |
| `PlaceholderScan.RefusedSpinner` | ci/check-placeholders.py:281-282 | A refused spinner is told apart by a mark without a reason in its window |
| `PlaceholderScan.WindowLines` | ci/check-placeholders.py:264 | At module level the window is the line and the three above it |
| `PlaceholderScan.SpentAtModuleLevel` | ci/check-placeholders.py:271-284 | What is spent at module level is the number of counted and of exempted spinners reported there, whatever function regions lie between |
| `PlaceholderScan.ModuleVerdict` | ci/check-placeholders.py:271-287 | A module-level spinner is counted exactly when its own window has more counters than were counted before it, and exempt by the matching rule |
| `PlaceholderScan.WhenCountersServe` | ci/check-placeholders.py:263-284 | When every module-level spinner with a counter in its window is satisfied |
| `PlaceholderScan.CountersServeByRank` | ci/check-placeholders.py:263-284 | Without exemptions: exactly when the window of the k-th of them has at least k counters |
| `PlaceholderScan.ModuleLevelShares` | ci/check-placeholders.py:263-277 | Six lines on which one is not |
| `NoticesData.ParseLock` | ci/gen-third-party-notices.py:81-95 | The packages and versions of a lock; every package has a version |
| `NoticesData.LockMeans` | ci/gen-third-party-notices.py:81-95 | Off the lines: exactly the versions of the packages of the registry and of those wanted anyway; an exit exactly when one of them lacks its name or its version |
| `NoticesData.NoProblem` | ci/gen-third-party-notices.py:171-208 | No problem is reported exactly when every lock package is a row or not shipped and never both, rows are unique and in a lock, and hidden versions are real and hide no row |
| `NoticesData.EveryRowHasVersions` | ci/gen-third-party-notices.py:102-106 | Then each row shows a version, and shows or hides each version of the locks, never both |
| `NoticesData.RenderGroup` | ci/gen-third-party-notices.py:121-140 | The rows of a table, or the exit |
| `NoticesData.GroupRenders` | ci/gen-third-party-notices.py:130-132 | A consistent tree never reaches the exit |
| `NoticesRender.StepKeeps` | ci/gen-third-party-notices.py:151-157 | Rewriting one region gives it its table, leaves the text of every other, and keeps them apart |
| `NoticesRender.RegionFound` | ci/gen-third-party-notices.py:153-155 | The search finds exactly the region the text has |
| `NoticesRender.RenderSettles` | ci/gen-third-party-notices.py:149-157 | All regions end with their tables |
| `NoticesRender.OutlineKept` | ci/gen-third-party-notices.py:155-157 | Nothing outside the regions changes: with every region emptied, the text is the same as before |
| `NoticesRender.Commute` | ci/gen-third-party-notices.py:151-157 | It does not matter which of two regions is rewritten first |
| `NoticesVersion.SubAgain` | ci/gen-third-party-notices.py:158-161 | Writing the same version again changes nothing |
| `NoticesVersion.VersionMeans` | ci/gen-third-party-notices.py:159 | A match is the name, the longest version without space, and stars |
| `NoticesVersion.SubMeans` | ci/gen-third-party-notices.py:159-161 | The text is rewritten exactly when it has one match |
| `NoticesVersion.Render` | ci/gen-third-party-notices.py:149-162 | The loop and the substitution, with their exits |
| `NoticesVersion.RenderTwice` | ci/gen-third-party-notices.py:149-162 | Rendering twice is rendering once, also when a table names the version |
| `NoticesVersion.RenderChanges` | ci/gen-third-party-notices.py:149-162 | Nothing but the regions and the one version is changed |

## Left out

- Running other programs: curl, otool, install_name_tool, cargo and rustup are inputs, or steps that may end in any way.
- `tarfile`, `gzip`, JSON, INI and TOML parsing; the ELF checks behind the strict `ar` walk; `cargo_edge_errors`.
- Reading a source tree: `collect`, `_children`, the regular-expression hits of `build_graph`, and all of
  `module_graph.py`. The layer check's `module_graph.sccs` is taken as any routine with the contract proved for the
  recursive search.
- Message texts: what a message names is modelled, its wording and its limits (six references, eight entries) are not.
- The recursive `literals` resolver, the scope tables and `strip_tests` of ci/check-localization.py.
- The scanners of ci/check-statics-heap.py that find declarations, definitions and `fn` types: the names of a fragment
  are a parameter.
- The line patterns, `test_mod_lines`, the body search of `fn_spans` and the hook rules of ci/check-placeholders.py.
- NoticesData.RenderGroup: takes the crates in the order given, where the source sorts them by name; the formats of the
  cells, the order of versions in one, and the toolchain half of the script are left out.
- Layers.Layers.constructor: layer names are numbers, port names strings; the order of the errors is left open.
- `add_tree`, `write_targz` and the manifest of ci/mkipk.py.
- `patterns` of ci/ci_paths.py, which finds the list in the workflow file, and Python's regular-expression engine: an
  expression is its language.
- Deps.Run: `mkstemp` never reuses a name, candidates are never pinned paths, and one path has one pin, as the script relies on.
- CfgItems.ItemIs: letters, and the characters that the expressions spell out, are no space.
- Deps.StepInv: the digest is any function; nothing is said about two contents with one digest.
- Ar.ArMembers: stops at a negative size, where the source loops for ever or reads backwards.
- ArRoundTrip.StrictRoundTrip: names are ASCII of at most 16 characters; other names depend on the coding.
- MacBundle.NamesCover: install names do not end in a slash, so a leaf is what follows the last one.
- MacBundle.Bundle.VerifySelfContained: the order of the list, which the source sorts by path.
- CycleGate.Check: an absent key of the baseline reads as empty, and `outside_count` as absent.
- CiPaths.Gated: states its verdict for paths without a newline, as the lines of standard input are.
- Allowlist.Write: any order of the entries, sorted or not.
- Text.Int: ASCII digits only; Python's `int` also reads other decimal digits.
