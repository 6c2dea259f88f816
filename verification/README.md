# A model of the schema compiler's algorithms

The program turns declarations of a PostgreSQL schema into migrations. This project models the algorithms
of it that are hardest to get right, in Dafny, and proves what they compute. Source paths below are
relative to the repository's root.

* **Dependency order** (`Digraph`, `Kahn`, `CycleFinder`, `ForeignKeyText`, `Dependencies`,
  `DeferralRounds`, `Deferral`, `Resolver`, `ResolverGuarantees`, `CyclesResolved`). The resolver reads every object's
  references, orders the objects so that each comes after what it needs, and breaks a cycle by taking its
  deferrable foreign keys off copies of the tables, sorting again, and putting the keys back. `Sort` is
  modelled over tables on the heap, as the source has them. Its ghost result, a `Plan`, records the order,
  the cycles broken round by round, the objects whose edges the order respects, and whether the unsorted
  input was returned.
* **LIKE clauses** (`Like`, `LikeChains`, `LikeExpansion`, `LikeProgress`, `LikeTables`, `LikeResolver`).
  Tables copy the columns and constraints of other tables, in place and with memoised recursion over shared
  tables. The specification is an expansion: an equation for every table at once, with one solution.
* **Partition entries** (`Scanner`, `ScannerFacts`, `BlockCursor`, `PartitionGrammar`, `PartitionPrinter`,
  `PartitionWriter`, `PartitionParser`, `ConstraintRoundTrip`, `ClauseRoundTrip`, `ServerRoundTrip`,
  `EntryRoundTrip`, `BlockRoundTrip`, `NamesReadBack`). The dump prints them and the block parser, a cursor
  over characters, reads them. The grammar is a set of functions from the text that is left to what is read
  and the text after it; the cursor's methods are proved against it.
* **Index columns** (`IndexColumns`, `IndexColumnParser`, `IndexColumnRoundTrip`): another printer and
  another parser, which splits text instead of moving a cursor.
* **The formatter** (`FormatLexer`, `Tokenizer`, `LexLocality`, `KeywordCase`, `FaithfulTokens`,
  `StableSort`, `BlockSort`, `BlockSortText`, `BlockSorter`, `SortFixed`, `SortTwice`): a lossless lexer, re-casing of
  keywords, and sorting of a block's directives, with what lexing the result again gives.
* **The formatter's diff** (`UnifiedDiff`): edits, hunks, headers, and a patch that applies them.
* **Widening of type modifiers** (`TypmodWidening`, `NumericValues`, `WideningKeepsValues`): the accepted
  changes against the values a column can hold.
* **Applying a migration** (`Migrations`, `Executor`, `ApplyRun`): the gates of a run, the transaction and
  the steps after it over a connection on which any call may fail, and what is recorded.

`Text` holds the string functions shared by all of them.

## Assumptions

* The server rolls a transaction back when its commit fails (`Executor.Connection.Commit`). That a failed
  transaction applies nothing rests on this.
* Iteration over Go maps is modelled as iteration over a set or a map in an arbitrary order.
* The library's stable sort is taken to be a stable sort; `StableSort.StableSortUnique` shows that there is
  only one result it can give.
* Text is a sequence of ASCII characters; upper and lower case are those of the ASCII letters.
* The tables of reserved words and of the formatter's keywords are parameters.
* In `ApplyRun`, what the rest of the program and the operator answer are parameters (`Surroundings`).

## Where the code keeps less than its comments promise

Each is proved of the model, with the exact condition under which the promise is kept.

* A cycle of deferrable keys is not always broken. The edges resolve a bare table name in the owner's
  schema, but the decision to defer and the taking off look it up as it is written
  (`core/internal/graph/graph.go:756-758` and `core/internal/graph/graph.go:967-971`). Two tables of one
  schema that name each other without it are refused: `ResolverGuarantees.UnqualifiedCycleIsRefused`. The
  two lookups agree exactly on keys that are not such bare names (`Dependencies.DeferralLookupAgrees`). Call
  a key stuck if it is such a name or is not deferrable. When no key that is not deferrable runs inside a
  cycle, however the targets are written, the input is sorted without the fallback if and only if nothing
  is unresolved and the objects, with no constraints but their stuck keys, have no cycle
  (`CyclesResolved.DeferrableCyclesResolveIff`); on any input the latter is necessary
  (`CyclesResolved.StuckCycleIsNotResolved`). When the objects cannot be ordered after a round, their input
  order is returned without an error: `ResolverGuarantees.FallbackIffUnorderable`.
* The target of a foreign key is looked for after the first mention of the keyword in the key's text, so a
  column such as `references_id` hides it (`ForeignKeyText.ColumnNameTakenForKeyword`). Otherwise it is read
  back exactly when schema and table hold no blank, parenthesis, dot or quote
  (`ForeignKeyText.KeyReadsIff`).
* A printed partition entry that is fit apart from its names (`NamesReadBack.Fit`) is read back exactly when
  no bare name holds a dollar sign and no partition is called attached (`NamesReadBack.EntryBackIff`): the
  printer takes `$` for safe
  (`core/cmd/dpg/dump.go:2408-2421`) and the parser does not count it as part of a word. A PARTITION BY
  clause is recognised exactly when its columns hold no closing parenthesis
  (`ClauseRoundTrip.SubClauseReadsIff`).
* An index column's name is printed as it stands and is read back exactly when it is one word without
  quotes at its ends; a collation's name exactly when it holds no quote
  (`IndexColumnRoundTrip.EntryReadsIff`).
* Sorting a block's directives comes apart into the sorted directives exactly when the last one is ended or
  none ranks after it (`BlockSortText.SortedTextResplitsIff`). Sorting leaves a block as it is
  exactly when its directives stand in order (`SortFixed.FixedIff`), so sorting twice is sorting once exactly
  when those of the sorted text do (`SortFixed.IdempotentIff`). Otherwise it is not:
  `SortTwice.SortedTwiceDiffers`.
* A change of a numeric type that is accepted keeps every number exactly when precision minus scale does
  not shrink (`WideningKeepsValues.NumericKeepsIff`); (5,0) to (6,4) is accepted and loses numbers.

## Model

| member | source | states |
|---|---|---|
| Resolver.Sort | core/internal/graph/graph.go:30-812 | unresolved references are reported iff there are any; a circular error comes only with a cycle that cannot be deferred; otherwise the order lists every object once and respects every edge that is left after the cycles broken, in rounds, or is the input order because what is left still cannot be ordered; cycles are broken iff there are any; and when tables have distinct schema and name, every constraint is conserved and no table of the caller is changed |
| Kahn.KahnCompleteIffAcyclic | core/internal/graph/graph.go:697-731 | the reference order lists all n nodes if and only if the graph is acyclic, and then respects every edge |
| Kahn.TopologicalOrder | core/internal/graph/graph.go:697-729 | the loop with its counters and its queue gives the reference order, which depends on the graph alone and not on the order in which the successor sets are iterated |
| Kahn.CountInDegrees | core/internal/graph/graph.go:699-704 | every count is the number of predecessors, in whatever order the sets are iterated |
| Kahn.InitialQueue | core/internal/graph/graph.go:706-711 | the nodes without predecessors, ascending |
| Kahn.Release | core/internal/graph/graph.go:713-729 | taking a node off lowers the counts of its successors, and reports exactly those that have no other predecessor left |
| Kahn.SortInts | core/internal/graph/graph.go:727 | the ready positions come out strictly ascending and none is lost |
| Digraph.StuckHasCycle | core/internal/graph/graph.go:731-733 | nodes that each wait for another of them contain a cycle, so an incomplete Kahn run always leaves one to find |
| CycleFinder.FindCycle | core/internal/graph/graph.go:897-929 | the result is empty exactly when the graph is acyclic, and otherwise distinct nodes that form a closed path |
| CycleFinder.Search.Dfs | core/internal/graph/graph.go:902-920 | one visit keeps colours, stack and stack positions coherent, and ends with a cycle or with the node finished after all it leads to |
| CycleFinder.AllClosedIsAcyclic | core/internal/graph/graph.go:922-929 | a finishing order of all nodes rules out every cycle |
| ResolverGuarantees.DependenciesComeFirst | core/internal/graph/graph.go:697-800 | without the fallback an object comes after everything it depends on, unless it depends on it through keys that were taken off in some round, each deferrable and closing the cycle of that round, and through nothing else |
| ResolverGuarantees.FixedDependenciesComeFirst | core/internal/graph/graph.go:338-415 | schemas, types and parents always come first when the fallback is not taken |
| ResolverGuarantees.KeptTargetsComeFirst | core/internal/graph/graph.go:740-800 | without the fallback the target of a foreign key comes first unless some round took the key off for closing its cycle |
| ResolverGuarantees.NonDeferrableTargetsComeFirst | core/internal/graph/graph.go:754-767 | without the fallback the target of every key that is not deferrable comes first |
| ResolverGuarantees.FallbackIffUnorderable | core/internal/graph/graph.go:787-790 | the unsorted fallback is taken exactly when no order of the remaining edges exists |
| DeferralRounds.RoundsSplit | core/internal/graph/graph.go:745-790 | over all rounds a table loses only keys that are deferrable and close the cycle of the round that took them, and keeps everything else, counted with repetitions |
| DeferralRounds.MissingClosedRound | core/internal/graph/graph.go:754-767 | a constraint that closes no round's cycle is still there after all rounds |
| CyclesResolved.DeferrableCyclesResolveIff | core/internal/graph/graph.go:26-29 | when no cycle runs through a key that is not deferrable, the sort succeeds without the fallback if and only if nothing is unresolved and the objects have no cycle once every foreign key is left out but those that are never taken off |
| CyclesResolved.AllDeferrableResolveIff | core/internal/graph/graph.go:26-29 | in particular when every foreign key is deferrable, however its target is written: the exact extent of what the comment promises |
| CyclesResolved.StuckCycleIsNotResolved | core/internal/graph/graph.go:734-800 | on any input, a cycle that the keys never taken off close, those not deferrable and those that mean a table of the owner's schema by a bare name, is never resolved |
| CyclesResolved.RoundsKeepStuck | core/internal/graph/graph.go:754-767 | no round of deferral takes such a key off |
| ResolverGuarantees.NothingDeferrableIsRefused | core/internal/graph/graph.go:731-739 | if no cycle can be deferred, a circular error is given exactly when there is a cycle |
| ResolverGuarantees.UnspelledIsRefused | core/internal/graph/graph.go:756-758 | if no key spells its target as the index does, no cycle is deferred: a circular error is given exactly when there is a cycle, which is less than the comment promises |
| ResolverGuarantees.UnqualifiedCycleIsRefused | core/internal/graph/graph.go:756-758 | two tables of one schema whose deferrable keys name each other without the schema are refused as circular |
| ResolverGuarantees.BareTarget | core/internal/graph/graph.go:850-867 | a bare name is an edge to the table of that name in the owner's schema, and is not reported as unresolved |
| Dependencies.EdgeMeaning | core/internal/graph/graph.go:338-449 | an edge is there exactly when one object refers to the key of the other as its schema, the type of a column, a parent, the target of a foreign key, or another recorded reference, and is not that other itself |
| Dependencies.DeferralLookupAgrees | core/internal/graph/graph.go:756-758 | the deferral looks a target up as the edges do, unless it is a bare name that means a table of the owner's schema |
| Resolver.BuildEdges | core/internal/graph/graph.go:338-695 | the loops over objects, columns, parents and constraints build exactly those edges, and report a bad reference exactly when one does not resolve inside a schema of the source |
| Dependencies.ResidualResolved | core/internal/graph/graph.go:787-790 | taking keys off leaves no reference unresolved, so the recursion cannot fail for that |
| Dependencies.KeptSubsequence | core/internal/graph/graph.go:754-767 | the constraints kept are the original ones in order |
| Dependencies.StripSplits | core/internal/graph/graph.go:754-767 | kept and moved constraints together are the original ones, counted with repetitions |
| Dependencies.MovedMembers | core/internal/graph/graph.go:755-763 | what moves is exactly the deferrable foreign keys whose target, as written, is in the cycle |
| Dependencies.DeferralMakesProgress | core/internal/graph/graph.go:734-787 | when deferral is allowed at least one key is removed, so the recursion ends and the guard against removing nothing is never taken |
| Resolver.DecideDeferral | core/internal/graph/graph.go:949-982 | true exactly when some cycle table has a deferrable key inside the cycle and none has one that is not deferrable |
| Resolver.StripCycle | core/internal/graph/graph.go:745-770 | the cycle's tables are replaced by fresh copies without the moved keys, the keys are recorded with their owners, and the given tables do not change |
| Deferral.GetsOwnBack | core/internal/graph/graph.go:792-799 | with unique names a stripped table gets exactly its own moved keys back |
| Deferral.ReattachConserves | core/internal/graph/graph.go:740-800 | after re-attaching, every table has the same multiset of constraints, in order but for deferrable keys at the end |
| Resolver.ReattachOne | core/internal/graph/graph.go:792-799 | the first table of the owner's name, and no other, gains the key |
| Resolver.RestoreKeys | core/internal/graph/graph.go:787-800 | after the recursion and the re-attaching, nothing is lost and the caller's tables are as they were |
| Resolver.SortStripped | core/internal/graph/graph.go:734-800 | with a deferrable cycle a list always comes back, ordered for what is left or in input order |
| ForeignKeyText.KeyReadsIff | core/internal/graph/graph.go:816-844 | a key's text as the builder writes it gives back schema and table if and only if the names hold no blank, tab, line break, parenthesis, dot or quote, given that the columns do not mention the keyword |
| ForeignKeyText.TargetReadsIff | core/internal/graph/graph.go:830-844 | the printed target alone is read back under exactly that condition |
| ForeignKeyText.OnlyFirstMentionCounts | core/internal/graph/graph.go:816-825 | only what follows the first mention of the keyword is read |
| ForeignKeyText.SilentColumns | core/internal/ir/builder.go:763-804 | columns that do not mention the keyword leave the keyword itself as the first mention |
| ForeignKeyText.ColumnsDecide | core/internal/graph/graph.go:816-825 | a mention among the columns, in any case, decides what is read instead |
| ForeignKeyText.ColumnNameTakenForKeyword | core/internal/graph/graph.go:816-844 | every column whose name starts with the keyword hides the real target |
| ForeignKeyText.UnquoteDropsAllQuotes | core/internal/graph/graph.go:882-886 | every quote is dropped, doubled or not, and not only an outer pair |
| LikeResolver.ResolveLikeClauses | core/internal/ir/like.go:22-83 | for any visiting order the run succeeds if and only if every source is declared and no table is its own source through others, and then every table is its expansion with no clause left |
| LikeExpansion.ExpansionUnique | core/internal/ir/like.go:22-83 | without a circle there is only one expansion, so the visiting order cannot matter |
| LikeExpansion.ResolvedIsWoven | core/internal/ir/like.go:56-82 | a resolved table is its own columns with each source's expanded columns woven in at its place, and its constraints followed by the clones in clause order |
| Like.SpliceAllIsWeave | core/internal/ir/like.go:56-94 | splicing with a running offset equals inserting every source at its original place at once |
| Like.BuilderIsWellPlaced | core/internal/ir/builder.go:235-258 | the places the builder records are in range and never decrease |
| Like.SplicedInSourceOrder | core/internal/ir/like.go:56-94 | the columns end up in the order in which columns and LIKE clauses were written |
| LikeChains.ColumnArrives | core/internal/ir/like.go:68-77 | in any expansion, a declared column arrives at the end of every chain of clauses that begins at its table, as what the hops make of it |
| LikeChains.ColumnsOriginate | core/internal/ir/like.go:68-77 | and nothing else does: every column of a resolved table is a declared column that came through some chain |
| Like.ChainCopies | core/internal/ir/like.go:101-135 | through a chain of any length an attribute arrives exactly when every hop includes it; name, type, not-null and the serial marker always do |
| LikeChains.ConstraintArrives | core/internal/ir/like.go:68-77 | a declared constraint whose kind every hop includes arrives at the end of the chain |
| Like.ChainConstraintCopies | core/internal/ir/like.go:153-185 | it keeps kind, expression, columns and exclusion, loses its name at the first hop, and its comment when a hop leaves comments out |
| Like.CloneMembers | core/internal/ir/like.go:153-185 | the constraints copied are exactly those whose kind is included, each in its cloned form |
| LikeTables.CopyColumns | core/internal/ir/like.go:101-135 | the loop copies every column as the options say, in order |
| LikeTables.CopyConstraints | core/internal/ir/like.go:153-185 | the loop copies exactly the included constraints, in order |
| LikeTables.Table.Copy | core/internal/ir/like.go:72-77 | one clause splices the source's columns at its place plus the offset, appends the cloned constraints, and touches nothing else |
| LikeResolver.Resolution.ResolveTable | core/internal/ir/like.go:39-83 | the memoised recursion ends; it leaves the tables already resolved or on the path as they were, and fails only for a circle or an undeclared source |
| LikeResolver.Resolution.TakeClauses | core/internal/ir/like.go:56-78 | all clauses of a table are taken in order with the running offset |
| BlockCursor.MovedMeans | core/internal/blockparser/parser.go:86-99 | the line is the number of line breaks passed and the column the length of the last line |
| BlockCursor.BlockParser.Advance | core/internal/blockparser/parser.go:86-99 | one character is taken, and line and column stay those of the text consumed |
| BlockCursor.BlockParser.Restore | core/internal/blockparser/parser.go:63-68 | going back to a saved place restores its line and column |
| BlockCursor.BlockParser.SkipWS | core/internal/blockparser/parser.go:118-150 | white space and both kinds of comments are skipped, and the loop ends |
| BlockCursor.BlockParser.ReadQuoted | core/internal/blockparser/parser.go:169-213 | a quoted text with doubled quotes is read, or the end is reported |
| BlockCursor.BlockParser.ReadIdentifier | core/internal/blockparser/parser.go:269-301 | a name of one or two parts, quoted or bare |
| BlockCursor.BlockParser.ReadRawUntil | core/internal/blockparser/parser.go:305-365 | raw text up to a stop character outside parentheses, braces, quotes and comments |
| BlockRoundTrip.EntryBack | core/cmd/dpg/dump.go:2592-2643 | a well-formed partition tree of any depth is read back as the same tree: names, bounds, strategy, columns, sub-partitions, server, options, and constraints with their flags |
| NamesReadBack.EntryBackIff | core/internal/blockparser/parser.go:269-301 | a tree that is fit apart from its names is read back if and only if no bare name at any depth, be it of a partition, a server or a constraint, holds a dollar sign, and no partition's bare name is attached |
| EntryRoundTrip.UnmentionedIsFit | core/internal/blockparser/parser.go:2804-2821 | for an entry that is not foreign it is enough for being fit that closed and trimmed bounds nowhere say PARTITION or RENAMED |
| PartitionWriter.RenderPartitionEntry | core/cmd/dpg/dump.go:2592-2643 | the recursive printer writes the entry's text in front of whatever follows |
| PartitionParser.ParseOnePartitionBound | core/internal/blockparser/parser.go:2947-3080 | the cursor method reads one entry of any depth as the grammar does and stops where it stops |
| PartitionParser.ParsePartitionsBlock | core/internal/blockparser/parser.go:2719-2741 | entries up to the closing brace; the mutual recursion ends on every text |
| PartitionParser.ParsePartitionBlockBody | core/internal/blockparser/parser.go:2754-2798 | the directives in any order up to the brace, sub-partitions only when allowed |
| PartitionParser.ParseBound | core/internal/blockparser/parser.go:3020-3057 | sub-partitioning, renaming and server suffixes are taken off in the code's order |
| PartitionParser.ParseForeignServerClause | core/internal/blockparser/parser.go:2846-2904 | bounds, server and options of a foreign partition, with a cursor of its own |
| PartitionParser.FindTopLevelWord | core/internal/blockparser/parser.go:2911-2938 | the first place of the word outside parentheses and quotes |
| PartitionParser.SplitAtTopLevel | core/internal/blockparser/parser.go:1481-1502 | the pieces between separators at parenthesis depth 0 |
| PartitionParser.ParseConstraint | core/internal/blockparser/parser.go:1936-1991 | the cursor method reads what the grammar gives and leaves the rest |
| PartitionParser.ParseConstraintsBlock | core/internal/blockparser/parser.go:1998-2021 | constraints up to the closing brace |
| ConstraintRoundTrip.NameReadsIff | core/cmd/dpg/dump.go:2408-2432 | a printed name is read back exactly when it holds no dollar sign or is printed in quotes |
| ConstraintRoundTrip.ConstraintSplitsIff | core/internal/blockparser/parser.go:1936-1991 | expression and both flags come apart again exactly when the expression itself does not end in such a clause |
| ConstraintRoundTrip.ConstraintReads | core/internal/blockparser/parser.go:1936-1991 | a printed constraint is read back as itself |
| ClauseRoundTrip.SubClauseReadsIff | core/internal/blockparser/parser.go:2804 | a printed PARTITION BY clause is recognised with its columns exactly when they hold no closing parenthesis |
| ClauseRoundTrip.ColumnsBack | core/internal/blockparser/parser.go:3020-3035 | the joined columns split into the same columns |
| ServerRoundTrip.OptionsRead | core/internal/blockparser/parser.go:2865-2902 | a printed option list is read back, with quotes doubled and undone |
| ServerRoundTrip.ServerReads | core/internal/blockparser/parser.go:2846-2904 | bounds, server and options of a foreign partition come apart again |
| EntryRoundTrip.RawReads | core/internal/blockparser/parser.go:3002-3010 | the raw text of an entry ends exactly where its block or semicolon begins |
| EntryRoundTrip.BoundReads | core/internal/blockparser/parser.go:3002-3057 | what was printed between name and block gives back bounds, clause, server and options |
| IndexColumnRoundTrip.ColumnsReadIff | core/internal/blockparser/parser.go:1467-1477 | a printed list is read back if and only if each of its columns is |
| IndexColumnRoundTrip.EntryReadsIff | core/internal/blockparser/parser.go:1571-1657 | a printed column is read back if and only if its name is one word without quotes at its ends, an expression has no collation or operator class, parameters have an operator class, and no collation name holds a quote |
| IndexColumnRoundTrip.InQuotesReadsIff | core/internal/blockparser/parser.go:1620-1625 | trimming quotes undoes quoting exactly when the name holds no quote |
| IndexColumnParser.SplitIndexIdentToken | core/internal/blockparser/parser.go:1510-1532 | one token, quoted or bare, and the rest |
| IndexColumnParser.SplitIndexParenGroup | core/internal/blockparser/parser.go:1538-1552 | the first balanced group, or nothing |
| IndexColumnParser.ParseStorageParams | core/internal/blockparser/parser.go:1673-1685 | keys and values of the pieces that have an equals sign |
| IndexColumnParser.ParseIndexColumnEntry | core/internal/blockparser/parser.go:1571-1657 | column or expression, then collation, operator class, order and nulls from left to right |
| IndexColumnParser.ParseIndexColumns | core/internal/blockparser/parser.go:1467-1477 | all columns of the list |
| IndexColumnParser.RenderIndexColumns | core/cmd/dpg/dump.go:2773-2817 | the columns are written clause by clause with commas between them |
| FormatLexer.LexIsLossless | core/internal/format/lexer.go:167-271 | the texts of the tokens put together are the input, and no token is empty |
| Tokenizer.Lexer.Tokenize | core/internal/format/lexer.go:167-271 | the loop gives the specified tokens, each with its line and column |
| Tokenizer.PlacesAreRight | core/internal/format/lexer.go:157-165 | every token carries the position that the text before it leads to |
| Tokenizer.Lexer.ReadToken | core/internal/format/lexer.go:167-271 | one token is read and the position moves past it |
| Tokenizer.SkipSingleQuoted | core/internal/scanutil/scanutil.go:22-37 | the end of a quoted text |
| Tokenizer.PeekDollarTag | core/internal/scanutil/scanutil.go:41-62 | the dollar tag at a place, if there is one |
| Tokenizer.SkipDollarQuoted | core/internal/scanutil/scanutil.go:66-77 | the end of a dollar-quoted text |
| Tokenizer.SkipLineComment | core/internal/scanutil/scanutil.go:81-88 | the end of a line comment |
| Tokenizer.SkipBlockComment | core/internal/scanutil/scanutil.go:92-112 | the end of a nested block comment |
| LexLocality.FirstLocal | core/internal/format/lexer.go:167-271 | the first token depends on what follows it only through the next character, up to case, and through whether a dollar sign before it would open a quote |
| FaithfulTokens.FaithfulPrefix | core/internal/format/lexer.go:167-271 | a list that reads as its own tokens can be cut after a semicolon or closing brace |
| FaithfulTokens.FaithfulJoin | core/internal/format/lexer.go:167-271 | after such a token any such list may follow, so re-ordered text gives the same tokens |
| KeywordCase.RekeywordKeepsTokens | core/internal/format/render.go:233-253 | boundaries and types stay, and every token but a keyword not next to a dot is unchanged |
| KeywordCase.RekeywordIdempotent | core/internal/format/render.go:233-253 | re-casing twice is re-casing once |
| KeywordCase.Rewrite | core/internal/format/render.go:233-253 | the loop writes every token, re-cased when it is a keyword not next to a dot |
| BlockSort.SplitIsLossless | core/internal/format/sort.go:143-201 | no token is lost, every directive but the last is ended, and an unended one has nothing after it |
| BlockSort.SplitOfClosed | core/internal/format/sort.go:143-201 | ended directives put together come apart into the same directives, whatever follows |
| BlockSorter.SplitBlockDirectives | core/internal/format/sort.go:143-201 | the loop over tokens with its depth and flag computes the split |
| BlockSorter.SortBlock | core/internal/format/sort.go:207-238 | the result is the text of the stably sorted directives, or the input when there is nothing to sort |
| BlockSortText.SortTextRearranges | core/internal/format/sort.go:207-238 | the text is its directives and what trails, re-arranged: none lost, in order of rank, those of equal rank in their own order |
| BlockSort.ResplitsIff | core/internal/format/sort.go:207-238 | sorted tokens come apart into the sorted directives if and only if the last directive is ended or none ranks after it |
| BlockSortText.SortedTextResplitsIff | core/internal/format/sort.go:207-238 | the sorted text, lexed anew, comes apart into the sorted directives under the same condition |
| BlockSortText.SortTextIdempotent | core/internal/format/sort.go:207-238 | then sorting again changes nothing |
| SortFixed.FixedIff | core/internal/format/sort.go:207-238 | sorting leaves a block as it is if and only if its directives stand in order of rank, ended or not |
| SortFixed.IdempotentIff | core/internal/format/sort.go:207-238 | so sorting twice is sorting once if and only if the directives of the sorted text stand in order |
| SortTwice.SortedTwiceDiffers | core/internal/format/sort.go:207-238 | for every two directive words of different rank there is a block, its last directive not ended, that sorting twice changes twice |
| SortTwice.UnsafeButSettled | core/internal/format/sort.go:207-238 | and one, its last directive a word and a space, that is not safe either and that sorting once settles |
| StableSort.SortByIsStable | core/internal/format/sort.go:225-230 | a permutation in key order that keeps the order of equal keys |
| StableSort.StableSortUnique | core/internal/format/sort.go:225-230 | there is only one such arrangement |
| UnifiedDiff.PrintUnifiedDiff | core/cmd/dpg/fmt.go:206-300 | the edits project exactly to the old and the new lines; the hunks hold exactly the edits within three of a change; nothing is printed exactly when the texts are equal; every hunk lies on both sides where its header says, counts at least one line on either, and comes after the one before; applying the hunks to the old lines gives the new ones |
| UnifiedDiff.BuildEdits | core/cmd/dpg/fmt.go:219-239 | the edits project exactly to the old and the new lines and are numbered by their lines, and equal texts give no change |
| UnifiedDiff.ChangedEdits | core/cmd/dpg/fmt.go:241-250 | the changed edits, all of them, ascending |
| UnifiedDiff.GroupHunks | core/cmd/dpg/fmt.go:255-269 | the hunks are ordered and disjoint, and hold exactly the edits within three of a change |
| UnifiedDiff.PrintHunk | core/cmd/dpg/fmt.go:271-299 | the header gives where the lines start and how many there are on either side |
| UnifiedDiff.HeadersCountLines | core/cmd/dpg/fmt.go:273-294 | every header counts at least one line on both sides |
| UnifiedDiff.PatchGivesNew | core/cmd/dpg/fmt.go:206-300 | applying the printed hunks to the old lines gives the new lines |
| UnifiedDiff.UnlinesOfLines | core/cmd/dpg/fmt.go:207-208 | a text is its lines with line breaks between them |
| WideningKeepsValues.NumericKeepsIff | core/internal/diff/typmod_widening.go:70-85 | every lossless change is accepted, and an accepted one is lossless exactly when precision minus scale does not shrink |
| WideningKeepsValues.AcceptedButLossy | core/internal/diff/typmod_widening.go:199 | (5,0) to (6,4) is accepted and loses numbers |
| NumericValues.NumbersKeptIff | core/internal/diff/typmod_widening.go:176-200 | every number of one numeric type is one of another exactly when neither the digits before nor those after the point get fewer |
| WideningKeepsValues.NumericUnbounded | core/internal/diff/typmod_widening.go:70-85 | taking the bound away is accepted, putting one on is not |
| WideningKeepsValues.VaryingAcceptedIff | core/internal/diff/typmod_widening.go:36-45 | a change of a varying length is accepted if and only if every value still fits |
| WideningKeepsValues.CharacterAcceptedIff | core/internal/diff/typmod_widening.go:46-61 | a change of a fixed length is accepted if and only if both are written and every value fits |
| WideningKeepsValues.MomentAcceptedIff | core/internal/diff/typmod_widening.go:86-101 | a change of precision is accepted if and only if no digit is lost, but for writing out the default |
| TypmodWidening.SafeIsTransitive | core/internal/diff/typmod_widening.go:26-105 | two accepted changes in a row are one accepted change, for any three texts |
| TypmodWidening.SplitOfRendered | core/internal/diff/typmod_widening.go:112-124 | splitting takes a modifier out again, wherever in the name it stands |
| TypmodWidening.ParseModInts | core/internal/diff/typmod_widening.go:130-144 | the loop gives all integers or nothing |
| TypmodWidening.TwoModsRead | core/internal/diff/typmod_widening.go:130-144 | precision and scale are read from their rendered text |
| ApplyRun.RunApply | core/cmd/dpg/apply.go:151-339 | a run that stops at a gate leaves database and records alone; otherwise what was sent and what was committed are first parts of the plan, as far as the connection let it get; nothing sent is an instruction, or destructive without leave; the snapshot is saved exactly for an applied run that may save it, and then the whole plan is committed |
| Executor.Apply | core/internal/executor/executor.go:25-82 | a run succeeds if and only if every text resolves and no call fails, and then everything is done in run order; a failed transaction changes nothing and nothing is tried after it; a later failure leaves what was done before it |
| Executor.RunTransaction | core/internal/executor/executor.go:46-69 | all steps of the transaction take effect or none does, over every pattern of failing calls |
| Executor.RunAll | core/internal/executor/executor.go:71-80 | the steps before the failing one are done, it may have been sent, and nothing after it has |
| Executor.SecretAccess.ExecText | core/internal/executor/executor.go:31-44 | the resolver is looked up at most once, when the first secret is met |
| Migrations.Emit | core/internal/emit/emitter.go:23-33 | the two lists are the selected steps in order |
| Migrations.EmittedIsStable | core/internal/emit/emitter.go:23-33 | the run order is the one stable sort by phase: a permutation that keeps the order within each phase |
| Migrations.ExecutedIsPlanned | core/cmd/dpg/apply.go:299-310 | what is executed is what was planned without the instructions |
| ApplyRun.PlanIsStable | core/cmd/dpg/apply.go:217-310 | the steps executed are the executable ones stably sorted by phase, and the archived plan without its instructions |
| ApplyRun.SentMayRun | core/cmd/dpg/apply.go:205-228 | a statement that is sent is no instruction, and is destructive only when that is allowed |
| ApplyRun.PromoteDiagnostics | core/cmd/dpg/apply.go:170-185 | the run is blocked exactly by an error or, under strict, by any finding |
| ApplyRun.CheckSteps | core/cmd/dpg/apply.go:205-228 | destructive and manual steps each need their option |
| ApplyRun.Record | core/cmd/dpg/apply.go:313-326 | the plan is archived if that works, and the snapshot is saved unless it is not to be or fails |

## Left out

- Resolver.Sort: the diagnostics about the case of virtual types (`core/internal/graph/graph.go:176-195`) also make the source's sort fail and are not modelled, nor are the texts and positions of errors and the names listed in a circular error.
- Dependencies.AnyUnresolved: it covers references by type, parent and foreign key, and not those diagnostics about virtual types, so "unresolved" here means an unresolved reference only.
- Dependencies.EdgeMeaning: edges that the source finds in function bodies, view definitions and other object kinds stand as an uninterpreted set of keys of each object (`others`).
- CyclesResolved.DeferrableCyclesResolveIff: when a cycle does run through a key that is not deferrable, whether the input is sorted depends on which cycle the search meets first, which the source does not fix; then only the necessary condition is stated.
- Deferral.ReattachConserves: conservation is stated for tables with distinct schema and name, as the merger guarantees (`core/internal/ir/merger.go:27-56`); with duplicates only the claims about order stand, because the source then gives every key to the first of them.
- Like.ChainCopies: fields of a column or constraint that no LIKE option copies are one field `other`, and source positions are not modelled.
- LikeResolver.ResolveLikeClauses: the texts of the two errors are not modelled, only that one is given.
- NamesReadBack.EntryBackIff: stated for entries whose bounds are trimmed and closed, whose other text holds no clause of its own, and whose constraints do not end in what looks like a flag; these parts are raw text to both sides. The dump never prints RENAMED FROM, ATTACHED FROM or comments of a partition entry; the grammar reads them, but no round trip is stated.
- ClauseRoundTrip.SubClauseReadsIff: the two regular expressions for suffixes are modelled by what they match, as functions over the text.
- IndexColumnRoundTrip.ColumnsReadIff: stated for names without white space at their ends, texts without unbalanced parentheses or commas outside them, and operator classes that are one plain word; the rest of an index (method, predicate, storage) is not modelled.
- BlockCursor.BlockParser.ReadRawUntil: the reader of whole brace blocks (`core/internal/blockparser/parser.go:369-418`) and the other directives of the block parser are not modelled.
- BlockSorter.SortBlock: sorting a table's columns and splitting a column's name (`core/internal/format/sort.go:20-93`, `core/internal/format/render.go:295-312`) are not modelled; a column called checksum is taken for a constraint there, so column order is no claim here.
- KeywordCase.Rewrite: the formatter's rendering of whole files needs the file scanner, which is not part of this model.
- UnifiedDiff.PrintUnifiedDiff: the printed lines are values; colour and the file names in the header are not modelled.
- TypmodWidening.SafeIsTransitive: of array types only that they are refused is modelled.
- ApplyRun.RunApply: the run over a whole cluster, which passes the same gates, and the printing of plans are not modelled.
- Executor.Apply: what a statement does to the database is not modelled, only which statements are sent and take effect, in which order.
- Catalog queries, drivers, secret backends, configuration files, commands, the documentation server and everything that goes through the foreign SQL parser are input and output around these algorithms.
- The table of implicit casts, the registry, configuration checks and the grammar for editors would add only easy members.
