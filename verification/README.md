# CrustyDB, modelled and proved in Dafny

CrustyDB is a small relational engine written in Rust. This project models the parts of it whose
correctness is hardest to see by reading, each in the form its source has, and proves what those parts
promise together.

* **The B+tree index.** `TreeModel` to `TreeRuns` hold the tree as a value: nodes with separators, and beside
  it the chain of leaf pages that searches walk. They prove what every insert and delete keeps, and what a
  search returns after any run of them. `TreeTies` and `TreeGaps` are runs after which a search goes wrong.
  `NodePages`, `PageOps`, `PageSplits` and `TreeStore` are the pages: slots, room, draining and refilling,
  sibling links. `TreeIndex` is the index itself, a class whose methods rewrite pages in place, and each of
  them is proved to do what the value-level function does.
* **From SQL to rows.** `Scopes`, `FromClause` and `WhereClause` resolve names, process a FROM and a WHERE,
  and hand equalities to `IndexRewrite`, which turns a filtered scan into an index scan. `Queries` takes a
  query on one table from its names to the rows of its operators, over `QueryRuns`; `WholeQueries` says of any
  FROM with one item when its queries are right, and `DerivedTables` has queries that are not.
  `QueryMeaning` gives logical and physical plans their rows, as bags of named rows over `Bags`, and proves
  that every physical form of a plan has the rows of the plan.
  `MemoModel` and `MemoTable` are the optimizer's memo: groups, reconstruction, winners, cost. `Exprs`,
  `Bytecode` and the `Plan*` modules compile expressions to a stack machine and physical plans to operator
  trees with maps from column ids to offsets; `PlanAnswers` says which plans run without an operator aborting,
  and `PlanSwap`, `JoinConjunctions` and `IndexScans` have the plans that translate to something else.
  `Pipeline` joins the two: the operator tree of whatever plan is chosen runs, and its rows, read through the
  returned map, are the bag that the logical plan means.
* **The operators.** `SortMergeJoin`, `HashJoin`, `NestedLoopJoin` and `Aggregate` are cursor machines, each
  proved against a list of rows still to come; `JoinSpec`, `MergeSpec`, `AggSpec` and `Joins` say what these
  lists are and that the three joins agree; `Sums`, `AggSafe` and `AggOrder` say when an aggregation has a
  result, and show that the order of rows does not show in it.
* **Statements, indexes and storage.** `IndexUpkeep` and `Statements` run CREATE INDEX, INSERT, UPDATE and
  DELETE; `IndexRuns` follows a run of statements into the B+tree and proves what a lookup then fetches.
  `HeapFiles` is the heap page and the heap file, `StoredTables` the statements on a table in one.
* **Concurrency and representation.** `RwLatch` interleaves loads and compare-and-swaps of the latch;
  `SmallStrings` and `StringManager` pack strings; `Decimals` prints, parses and adds decimals; `ValueIds`
  encodes record ids and sample maps.

`dafny verify dfyconfig.toml` checks everything.

## How it is modelled

* Failures are values: an `Option` where the source returns an error or panics. A 64-bit overflow is a failure.
* A `Format` gives the tree its key order, the order of record ids, the room of a page and the size of each
  entry. It is a parameter, so the theorems hold for any total order; `Base.KeyTotal` shows that the order of
  index keys is one.
* An insert keeps everything if and only if the halves of the pages it splits fit (`InsertFits`). `Roomy` is a
  relation between the sizes of entries and the room of a page under which they always do: sizes lie in
  `[m, b]`, and `m * (room - b) >= b * b`. With 4072 bytes of room and entries of at least 80 bytes, that
  allows entries of up to 530 bytes.
* A `World` holds what a query runs on: the rows of each table, the key columns of each index, what a probe of
  an index returns, and the rounded operations. `ProbesFind` says that a probe returns the rows with the key;
  `IndexRuns` is where that is proved of the tree.
* An operator's children are the lists of rows they deliver.
* Floating-point results (decimal products and quotients, averages) are functions that a `Rounded` parameter
  supplies, so no theorem depends on rounding. Costs are non-negative reals.
* The index lock serialises writers against readers, so the tree is modelled sequentially.

## Where the code does less than its text says

Each of these has a lemma with a concrete failing input and a lemma that says exactly when the code is right.

* The tree's introduction calls a search correct however a run of equal keys was split. A new separator that
  ties with the separator after it is sorted behind it, and the chain and the separators then disagree:
  `TreeTies.LostKey` loses a live key, `TreeRuns.PutAgreesIff` gives the exact condition on an insert.
* A leaf emptied inside a run of equal keys stops the walk to the left: `TreeGaps.HiddenKey` hides live
  entries, `TreeRuns.SearchIff` and `TreeRuns.TargetIff` give the exact condition for a search and a delete.
* A split by count may leave a half that does not fit its page, and what does not fit is dropped:
  `PageSplits.LossySplit` and `PageSplits.LossyInnerSplit` on pages of 4096 bytes; `PageSplits.RefilledIff` and
  `PageSplits.InnerRefilledIff` for one page, `TreeIndex.Index.Insert` for an insert.
* A sort-merge join of sides sorted in different directions misses pairs: `MergeSpec.OtherFlagsFail`,
  `MergeSpec.FlagsIff`.
* A nested-loop join whose predicate names the right side first has its operands swapped, not its operator:
  `PlanSwap.OrderedWrong`, `PlanSwap.SwappedIff`.
* Two predicates of one join are combined into a conjunction, and its conjuncts are taken for the two sides;
  each is then evaluated on a row that lacks a column it reads, and the query aborts unless an input is empty:
  `JoinConjunctions.ConjunctionAborts`, `JoinConjunctions.ConjunctionIff`.
* A derived table that shadows a column by an alias leads the index rewrite to the wrong column:
  `DerivedTables.ShadowedName`, `WhereClause.ClearIff`.
* An index scan over a derived table that has dropped a column takes its rows to have only the columns left:
  `DerivedTables.DroppedColumn` reads the wrong column, `DerivedTables.DroppedLast` has every column to its right in a
  join read one position off; `IndexScans.IndexScanIff` has the exact condition on an index scan, and
  `WholeQueries.QueryIff` on the queries over a FROM, shadowed names included.
* AVG is offered for decimals and its sum is computed, but the quotient is not, and the query aborts:
  `AggSafe.DecimalAverage`, `AggSafe.AverageIff`, `AggSafe.FinishesIff`.
* An INSERT whose rows do not all fit a page leaves rows that no index has: `StoredTables.SecondRowTooLong`,
  `Statements.PartialInsertIff`.
* An UPDATE to a row that fits no page deletes the row and leaves its index entries:
  `StoredTables.LongUpdateLost`, `Statements.LostRowIff`.
* A hash join is called always cheaper than a nested-loop join: `MemoModel.HashDoesNotWin`,
  `MemoModel.HashWinsIff`.
* The latch is said to take 2^15 readers; it takes one less: `RwLatch.TooMany`, `RwLatch.SafeIff`.
* Decimals strictly between minus one and zero, and decimals of scale zero, do not parse back from their
  printed form: `Decimals.SmallNegative`, `Decimals.RoundTripIff`.

## Model

| member | source | states |
|---|---|---|
| `Base.KeyTotal` | src/common/src/datatypes.rs:117-129 | Index keys, lists of fields of any types, are totally ordered by the derived order: reflexive, transitive, antisymmetric, total. |
| `TreeInserts.InsertShape` | src/index/src/tree.rs:357-519 | Every insert into a tree of uniform depth leaves both parts of the result at that same depth. |
| `TreeInserts.InsertBag` | src/index/src/tree.rs:384-519 | The entries after an insert are those before plus exactly the new one, through every leaf, inner and root split. |
| `TreeInserts.InsertPages` | src/index/src/tree.rs:384-519 | An insert keeps all pages, numbers each new one once from the next free number, and never shares one between two nodes. |
| `TreeOrder.InsertOrdered` | src/index/src/tree.rs:384-519 | Separators and entries stay inside their fences: strictly for a fresh key in a strict tree, loosely for an insert that ties with no later separator. |
| `TreeOrder.StrictClear` | src/index/src/tree.rs:471-474 | With distinct live keys no new separator can tie with an old one. |
| `TreeChain.ClearChained` | src/index/src/tree.rs:404-474 | Where no separator ties, the tree puts the new leaf exactly where the chain has it. |
| `TreeChain.ChainAgreesIff` | src/index/src/tree.rs:404-474 | For every ordered tree and every insert, separator order and chain order of the leaves agree afterwards if and only if no new separator ties with the one after it. |
| `TreeSearch.LandsInOrder` | src/index/src/tree.rs:241-268 | The descent lands on a leaf with only smaller or equal keys to its left and only larger ones to its right, in every ordered tree. |
| `TreeSearch.SearchCompleteIff` | src/index/src/tree.rs:270-323 | Left walk and right scan return every entry of the key, in chain order, if and only if no empty leaf lies between two leaves of its run. |
| `TreeSearch.StrictNoGap` | src/index/src/tree.rs:270-323 | With distinct keys no empty leaf matters: one leaf holds all matches. |
| `TreeRuns.PutAgreesIff` | src/index/src/tree.rs:326-519 | After an insert into any well-formed state, the chain lists the leaves in tree order if and only if the insert ties with no later separator. |
| `TreeRuns.PutGood` | src/index/src/tree.rs:326-519 | Inserts keep the whole invariant (depth, fences, distinct pages, chain equal to the in-order leaves) and add exactly their entry. |
| `TreeRuns.SearchIff` | src/index/src/tree.rs:300-323 | In every well-formed state with duplicates, a search returns each record id as often as the tree holds it if and only if the run of the key is unbroken. |
| `TreeRuns.SearchSound` | src/index/src/tree.rs:300-323 | Whatever leaves are empty, a search returns no record id more often than the tree holds it under the key. |
| `TreeRuns.TargetIff` | src/index/src/tree.rs:572-604 | A delete finds a leaf with its entry if and only if some leaf holds it with no empty leaf between that one and where a search lands. |
| `TreeRuns.SearchStrict` | src/index/src/tree.rs:300-323 | With distinct live keys a search returns exactly the one record id of its key, or nothing, whatever leaves deletes have emptied. |
| `TreeRuns.TakeGood` | src/index/src/tree.rs:572-604 | A delete keeps the invariant in every state; it takes out exactly one copy of its entry if it can reach one, and otherwise changes no entry. |
| `TreeRuns.FreshRunGood` | src/index/src/tree.rs:326-604 | After any run of inserts of keys not live and of deletes, the state is well formed and holds exactly the entries of the run. |
| `TreeRuns.FreshRunSearch` | src/index/src/tree.rs:300-604 | After any such run, a search returns exactly what an abstract map would. |
| `TreeRuns.ClearRunGood` | src/index/src/tree.rs:326-604 | The same invariant after any run with duplicate keys whose inserts tie with no later separator, whatever its deletes; the entries are those of the run, less what deletes could reach. |
| `TreeRuns.ClearRunSearch` | src/index/src/tree.rs:270-604 | After any such run, a search returns the multiset of the record ids held under its key if and only if that key's run is unbroken. |
| `TreeRuns.LiveIsIdeal` | src/index/src/tree.rs:572-604 | If no delete of a live entry misses it, the index holds exactly what an ideal one would. |
| `TreeRuns.MissedDelete` | src/index/src/tree.rs:572-604 | After such a run one more delete keeps the two equal if and only if its entry is not live or can be reached. |
| `TreeTies.TiedState` | src/index/src/tree.rs:404-474 | The exact tree and chain that seven inserts leave when a leaf splits at a key equal to the next separator. |
| `TreeTies.LostKey` | src/index/src/tree.rs:19-29 | For any three increasing keys there is a run of inserts after which a search misses a live key. |
| `TreeTies.LostKeyExample` | src/index/src/tree.rs:19-29 | Such a run exists with the order of real index keys. |
| `TreeGaps.GapState` | src/index/src/tree.rs:270-604 | The exact tree and chain after six inserts of one key and two deletes from the middle leaf. |
| `TreeGaps.HiddenKey` | src/index/src/tree.rs:270-323 | For any six entries of one key: after these operations a search returns the last two only, though the first two are live. |
| `TreeGaps.HiddenKeyExample` | src/index/src/tree.rs:270-323 | Such a run exists with the orders of real index keys and record ids. |
| `NodePages.SortIsPlace` | src/index/src/tree.rs:404-406 | Sorting a drained leaf together with the new entry puts it where the tree does. |
| `NodePages.PlaceIsAddSep` | src/index/src/tree.rs:471-473 | The stable sort of an inner page's entries puts a new separator where the tree does: after every separator at most it. |
| `NodePages.FindChild` | src/index/src/tree.rs:240-251 | The loop over sorted inner entries follows the last one whose key is at most the search key. |
| `PageOps.ReadIsLeaf` | src/index/src/tree.rs:161-168 | The flag of a page's Meta entry; an error exactly when there is none. |
| `PageOps.ReadLeaf` | src/index/src/tree.rs:184-208 | Both siblings and the sorted entries of a leaf page, whatever slots they are in. |
| `PageOps.ReadInner` | src/index/src/tree.rs:170-182 | The entries of an inner page under the stable sort by key. |
| `PageOps.SetLeft` | src/index/src/tree.rs:211-235 | A new left sibling, with the right one and all entries unchanged. |
| `PageOps.KeptAllIff` | src/index/src/tree.rs:421-440 | Refilling a page ignores refusals: nothing is lost if and only if everything fits, for leaf and inner entries alike. |
| `PageOps.FillLeaf` | src/index/src/tree.rs:421-440 | The refill loop keeps exactly the entries that find room, and leaves the links alone. |
| `PageOps.FillInner` | src/index/src/tree.rs:493-516 | The refill loop keeps exactly the inner entries that find room, in order. |
| `PageOps.Drain` | src/index/src/tree.rs:523-567 | After draining, every slot of the page is free. |
| `PageOps.FindEntry` | src/index/src/tree.rs:580-588 | A slot that holds the entry, found if and only if there is one. |
| `PageSplits.HalvesFit` | src/index/src/tree.rs:407-440 | Splitting an overfull list in the middle by count leaves two halves that fit, for entry sizes in `[m, b]` and room with `m * (room - b) >= b * b`. |
| `PageSplits.LeafSplitFits` | src/index/src/tree.rs:407-440 | Both halves of every leaf split fit their pages, for sizes and room related by `Roomy`. |
| `PageSplits.InnerSplitFits` | src/index/src/tree.rs:474-516 | Both halves of every inner split fit, the upper one with its first key taken out, for sizes and room related by `Roomy`. |
| `PageSplits.GrowLeafPage` | src/index/src/tree.rs:384-451 | For all entry sizes: the page operations turn a leaf page into one page or two that hold the leaves of the value-level insert, or what of each half fits its page, with the links of the split. |
| `PageSplits.RefilledIff` | src/index/src/tree.rs:421-440 | A half of a split keeps all its entries if and only if their bytes fit a page. |
| `PageSplits.SomeEncoding` | src/storage/heapstore/src/heap_page.rs:333-370 | There is an encoding of the kind that the two lossy splits are about. |
| `PageSplits.LossySplit` | src/index/src/tree.rs:407-440 | On a page of 4096 bytes, under any encoding of an entry that takes its text and at most 128 bytes more: inserting keys of 1, 2500 and 2500 bytes splits the leaf and drops one of the long ones. |
| `PageSplits.SplitInnerPage` | src/index/src/tree.rs:468-519 | For all entry sizes: draining, sorting and refilling give the two inner pages of the middle cut, or what of each fits its page, and its separator; the key pushed up is never the absent first one. |
| `PageSplits.GrowInnerPage` | src/index/src/tree.rs:453-519 | An inner page takes up a separator in place exactly when it fits, and is split as above otherwise. |
| `PageSplits.InnerRefilledIff` | src/index/src/tree.rs:493-516 | A half of an inner split keeps all its children if and only if their bytes fit a page. |
| `PageSplits.LossyInnerSplit` | src/index/src/tree.rs:474-516 | On a page of 4096 bytes: a fifth child, after separators of 1, 1 and 2500 bytes and with one of 2500, splits the page and drops a child. |
| `PageSplits.NewRoot` | src/index/src/tree.rs:330-351 | A page over the two halves of the old root, whole if both entries fit. |
| `TreeStore.LeafSplitStored` | src/index/src/tree.rs:411-450 | Threading a new page in re-links three pages and keeps left and right links inverse along the whole chain, disturbing no other node. |
| `TreeStore.WriteInner` | src/index/src/tree.rs:453-519 | Writing an inner page and at most one new page leaves every other node and every leaf link as it was; the pages hold the value-level result if its parts fit. |
| `TreeStore.InsertHeld` | src/index/src/tree.rs:357-382 | Once its pages are in place, an insert keeps depth, page numbers, layout and threading together. |
| `TreeStore.HeldFits` | src/index/src/tree.rs:326-519 | No pages at all can hold the result of an insert unless the halves of every split on its path fit, and a new root does. |
| `TreeStore.RoomyInsert` | src/index/src/tree.rs:326-519 | For sizes and room related by `Roomy` every insert into an index held in pages fits. |
| `TreeStore.RootHeld` | src/index/src/tree.rs:329-352 | A new root makes the split tree one stored tree, one level deeper. |
| `TreeStore.EntryOutHeld` | src/index/src/tree.rs:572-604 | Freeing one slot of a leaf takes its entry out of the stored tree and changes nothing else. |
| `TreeIndex.Index.constructor` | src/index/src/tree.rs:103-134 | A new index is laid out in pages and is the empty state. |
| `TreeIndex.Index.FindLeaf` | src/index/src/tree.rs:253-268 | Reads pages down to the page of the leaf that the tree reaches. |
| `TreeIndex.Index.StoreSplit` | src/index/src/tree.rs:427-450 | Stores both halves and repairs the right neighbour's left link; the chain stays threaded. |
| `TreeIndex.Index.InsertIntoLeaf` | src/index/src/tree.rs:384-451 | Rewrites one leaf page, or splits it, as the value-level leaf insert, each half with exactly the entries that fit. |
| `TreeIndex.Index.InsertIntoInternal` | src/index/src/tree.rs:453-519 | Rewrites one inner page, or splits it, as the value-level inner insert if its halves fit. |
| `TreeIndex.Index.InsertRecursive` | src/index/src/tree.rs:357-382 | The recursion over pages touches only pages of its subtree and the split's right neighbour, and stores the tree that the value-level insert returns if the halves of every split fit. |
| `TreeIndex.Index.Insert` | src/index/src/tree.rs:326-354 | In every valid index, for all entry sizes and without any condition on ties: afterwards the pages hold the value-level insert of the old state if and only if the halves of every page split, and a new root, fit their pages. |
| `TreeIndex.Index.LeftmostRunLeaf` | src/index/src/tree.rs:270-296 | The walk loop ends at the leaf the specification's walk ends at. |
| `TreeIndex.Index.Search` | src/index/src/tree.rs:300-323 | Returns exactly the value-level search of the state, in order. |
| `TreeIndex.Index.Delete` | src/index/src/tree.rs:572-604 | The new state is the value-level delete of the old one, and the pages still lay it out. |
| `MergeSpec.CompareKeys` | src/queryexe/src/opiterator/sort_merge_join.rs:10-26 | The comparison loop decides as the lexicographic order by the flags does. |
| `MergeSpec.SortKeyedSorted` | src/queryexe/src/opiterator/sort_merge_join.rs:103-163 | Each side is sorted by its own flags. |
| `MergeSpec.SortKeyedStable` | src/queryexe/src/opiterator/sort_merge_join.rs:103-163 | Rows with equal keys keep their order. |
| `MergeSpec.MergeIsNested` | src/queryexe/src/opiterator/sort_merge_join.rs:165-276 | Merging two sides sorted by the same flags gives the nested-loop join row for row, in key order. |
| `MergeSpec.OtherFlagsFail` | src/queryexe/src/opiterator/sort_merge_join.rs:54-93 | For any two different flag lists there are inputs whose merge misses a pair. |
| `MergeSpec.FlagsIff` | src/queryexe/src/opiterator/sort_merge_join.rs:103-276 | The merge is the join on all inputs if and only if both sides have the same flags. |
| `JoinSpec.SidesAgree` | src/queryexe/src/opiterator/hash_join.rs:82-99 | Left rows outermost or right rows outermost: the same bag of joined rows. |
| `JoinSpec.JoinPermuted` | src/queryexe/src/opiterator/sort_merge_join.rs:103-163 | A join's rows depend on its inputs as bags only, so sorting them first is harmless. |
| `SortMergeJoin.New` | src/queryexe/src/opiterator/sort_merge_join.rs:54-93 | The constructor refuses exactly empty keys and keys of different lengths. |
| `SortMergeJoin.RunEnd` | src/queryexe/src/opiterator/sort_merge_join.rs:165-276 | The inner loop stops at the end of the run of equal keys. |
| `SortMergeJoin.ScanRuns` | src/queryexe/src/opiterator/sort_merge_join.rs:165-276 | The scan loops terminate, and skip only rows without a partner: the merge from here is the two runs' pairs, then the merge from behind them. |
| `SortMergeJoin.SortMergeJoin.Open` | src/queryexe/src/opiterator/sort_merge_join.rs:103-163 | Opening reads and sorts both sides; what is to come is their merge. |
| `SortMergeJoin.SortMergeJoin.FinishRange` | src/queryexe/src/opiterator/sort_merge_join.rs:165-276 | Dropping the used rows, or keeping them for a rewind, leaves what is to come unchanged. |
| `SortMergeJoin.SortMergeJoin.FindRange` | src/queryexe/src/opiterator/sort_merge_join.rs:165-276 | Moving the cursors to the next two runs leaves what is to come unchanged, and finds none only if nothing is. |
| `SortMergeJoin.SortMergeJoin.Next` | src/queryexe/src/opiterator/sort_merge_join.rs:165-276 | Takes the first row off what is to come; nothing exactly when none is left, and then forever. |
| `SortMergeJoin.SortMergeJoin.Rewind` | src/queryexe/src/opiterator/sort_merge_join.rs:288-299 | With rewinding asked for, the whole merge is to come again. |
| `SortMergeJoin.Execute` | src/queryexe/src/opiterator/sort_merge_join.rs:95-299 | Open, drain, rewind, drain: with equal flags, in either mode, every pair of rows with equal keys once, in key order; the replay is identical. |
| `HashJoin.RightRowIsBucket` | src/queryexe/src/opiterator/hash_join.rs:82-99 | A right row's matches are the bucket of its key, in order. |
| `HashJoin.Build` | src/queryexe/src/opiterator/hash_join.rs:67-80 | The build loop makes exactly the buckets of the left rows. |
| `HashJoin.HashEqJoin.Open` | src/queryexe/src/opiterator/hash_join.rs:67-80 | What is to come is the join with right rows outermost. |
| `HashJoin.HashEqJoin.Next` | src/queryexe/src/opiterator/hash_join.rs:82-99 | Takes the first row off what is to come. |
| `HashJoin.HashEqJoin.Rewind` | src/queryexe/src/opiterator/hash_join.rs:111-119 | The same sequence is to come again. |
| `NestedLoopJoin.NestedLoopJoin.Open` | src/queryexe/src/opiterator/nested_loop_join.rs:60-70 | What is to come is the join with left rows outermost. |
| `NestedLoopJoin.NestedLoopJoin.Next` | src/queryexe/src/opiterator/nested_loop_join.rs:72-89 | Takes the first row off what is to come, across rewinds of the right child. |
| `NestedLoopJoin.NestedLoopJoin.Rewind` | src/queryexe/src/opiterator/nested_loop_join.rs:98-106 | The same sequence is to come again. |
| `Joins.OperatorsAgree` | src/queryexe/src/opiterator/hash_join.rs:67-119 | For an equality, hash join, nested-loop join and single-key sort-merge join give the same multiset of rows on all inputs. |
| `Bags.FlatSwap` | src/queryexe/src/opiterator/hash_join.rs:82-99 | Two nested loops in either order give the same bag, for any body. |
| `Exprs.CompareIsApply` | src/common/src/datatypes.rs:619-631 | A join's comparison of two fields holds exactly when the expression operator gives true. |
| `Exprs.ReplaceValue` | src/common/src/query/expr.rs:131-167 | An expression after column substitution has the value it had under the substituted columns. |
| `Exprs.SplitHolds` | src/common/src/query/expr.rs:97-112 | A predicate holds if and only if all its split conjuncts do, also where evaluation fails. |
| `Exprs.CombineHolds` | src/common/src/query/expr.rs:114-127 | The combination of any list of predicates holds if and only if all of them do. |
| `Bytecode.Execute` | src/common/src/query/bytecode_expr.rs:94-110 | The evaluation loop with its program counter and stack computes what the recursive machine does, panics included. |
| `Bytecode.ByteCodeExpr.Append` | src/queryexe/src/query/planner.rs:62-107 | The recursive emitter appends exactly an expression's code and literals, and fails exactly on the unsupported forms. |
| `Bytecode.Convert` | src/queryexe/src/query/planner.rs:34-60 | A program exactly for supported expressions, with column ids replaced by offsets first. |
| `Bytecode.RunsCode` | src/common/src/query/bytecode_expr.rs:94-260 | Code placed anywhere in a program pushes its expression's value on any stack and goes on behind it, or panics exactly when there is no value. |
| `Bytecode.CompileCorrect` | src/queryexe/src/query/planner.rs:34-107 | Compiling and running any supported expression gives its value under the substituted columns; the stack ends with exactly one value. |
| `AggSpec.FoldCount` | src/queryexe/src/opiterator/aggregate.rs:85-116 | COUNT of a group is its number of rows. |
| `AggSpec.FoldMax` | src/queryexe/src/opiterator/aggregate.rs:85-116 | MAX is a value of the group that no other exceeds. |
| `AggSpec.FoldMin` | src/queryexe/src/opiterator/aggregate.rs:85-116 | MIN is a value of the group that exceeds no other. |
| `AggSpec.FoldSum` | src/queryexe/src/opiterator/aggregate.rs:85-116 | SUM of integers is their total if and only if no running total overflows. |
| `Sums.SumIff` | src/queryexe/src/opiterator/aggregate.rs:85-116 | SUM over any mix of integers and decimals of any scales has a value if and only if every running total, at the scale it has by then, fits 64 bits. |
| `Sums.SumPermuted` | src/queryexe/src/opiterator/aggregate.rs:85-116 | Two orders of the same rows that both have a sum have the same one, scale included. |
| `AggSpec.FoldsAt` | src/queryexe/src/opiterator/aggregate.rs:118-146 | Each aggregate of a group is the fold of its own column, independent of the other aggregates. |
| `AggSpec.AbsorbStep` | src/queryexe/src/opiterator/aggregate.rs:118-146 | One more row keeps the accumulator equal to the folds of all groups; it fails only if an aggregate does. |
| `AggSpec.KeysOfAre` | src/queryexe/src/opiterator/aggregate.rs:155-194 | The result keys are ascending and are exactly the keys that occur. |
| `AggSpec.AscendingUnique` | src/queryexe/src/opiterator/aggregate.rs:155-194 | Ascending keys are determined as a list by which keys they are: hash-map order cannot show. |
| `AggSpec.SizesTotal` | src/queryexe/src/opiterator/aggregate.rs:118-194 | Group sizes add up to the number of input rows. |
| `Aggregate.MergeFields` | src/queryexe/src/opiterator/aggregate.rs:85-146 | The loop over the aggregates merges each value into its own place. |
| `Aggregate.Aggregate.MergeTupleIntoGroup` | src/queryexe/src/opiterator/aggregate.rs:118-146 | The hash map stays the accumulator of all rows so far; failure only where an aggregate has no value. |
| `Aggregate.SortedKeys` | src/queryexe/src/opiterator/aggregate.rs:155-194 | The map's keys, taken in any order, come out ascending and complete. |
| `Aggregate.Aggregate.Open` | src/queryexe/src/opiterator/aggregate.rs:155-194 | One row per distinct group key, in key order, each aggregate the fold over its group; fails exactly when some fold does or a sum to be averaged is not an integer. |
| `Aggregate.Aggregate.Next` | src/queryexe/src/opiterator/aggregate.rs:196-207 | Hands out the result rows one by one, then nothing. |
| `Aggregate.Aggregate.Rewind` | src/queryexe/src/opiterator/aggregate.rs:218-227 | All result rows are to come again. |
| `AggSafe.AverageIff` | src/queryexe/src/opiterator/aggregate.rs:155-194 | A sum can be averaged if and only if every value of its column is an integer of some width. |
| `AggSafe.FinishesIff` | src/queryexe/src/opiterator/aggregate.rs:118-194 | An aggregation has a result if and only if in each group every column has its fold, which `Sums.SumIff` decides for sums, and every averaged column has integers only. |
| `AggSafe.DecimalAverage` | src/queryexe/src/opiterator/aggregate.rs:155-194 | AVG of one decimal: the sum is there, the result is not. |
| `AggSafe.SafeAnyOrder` | src/queryexe/src/opiterator/aggregate.rs:118-194 | Where the absolute values of each summed column, in units of its largest scale, add up to a number of 64 bits, and averaged columns have integers only, the aggregation has a result in every order of its rows. |
| `AggOrder.AggRowsPermuted` | src/queryexe/src/opiterator/aggregate.rs:118-194 | Two orders of the same rows that both have values for all groups give the same result rows, in the same order. |
| `PlanRows.ValueAgrees` | src/queryexe/src/query/planner.rs:34-107 | A compiled expression on a positional row has the value of the expression on the row read through the offset map. |
| `PlanRows.FiltersRead` | src/queryexe/src/query/planner.rs:320-341 | A stack of filters keeps exactly the rows on which all predicates hold. |
| `PlanJoins.ProductReads` | src/queryexe/src/query/planner.rs:342-389 | A cross join's rows, read through the shifted offsets, are all pairs of named rows. |
| `PlanJoins.LoopReads` | src/queryexe/src/query/planner.rs:390-441 | A nested-loop join reads as the pairs on which its predicate holds. |
| `PlanJoins.HashReads` | src/queryexe/src/query/planner.rs:442-493 | A hash join reads as the pairs on which its equality holds, right rows outermost. |
| `PlanJoins.TurnedFilter` | src/queryexe/src/query/planner.rs:425-429 | Turning a predicate's operands to the sides of the join keeps its rows where they stand in that order or the operator is symmetric. |
| `PlanTheorem.TranslationCorrect` | src/queryexe/src/query/planner.rs:158-590 | For every well-formed plan over Scan, IndexScan, Rename, Project, Select, CrossJoin, HashJoin, NestedLoopJoin, HashAggregate and Map, of any depth and on all table contents: translation succeeds and the operator tree's rows, read through the offset map, are the plan's meaning. |
| `PlanAnswers.AnswersIff` | src/queryexe/src/query/planner.rs:158-590 | For every well-formed plan: no operator of its tree aborts on any row if and only if every expression of the plan has a value where it is evaluated, predicates are decided, compared values are comparable and aggregations have results; and then the rows are the plan's meaning. |
| `PlanSwap.OrderedWrong` | src/queryexe/src/query/planner.rs:425-429 | With swapped sides and any ordering operator the translation is wrong on two one-row tables. |
| `PlanSwap.SwappedIff` | src/queryexe/src/query/planner.rs:425-429 | For any two inputs and any predicate with one operand on each: the translation is right if and only if the operands stand in the order of the inputs, or the operator is symmetric, or on every pair of rows they are equal. |
| `JoinConjunctions.ConjunctionIff` | src/queryexe/src/query/planner.rs:390-441 | A join whose predicate leaves one side an operand that reads a column this side lacks: for any two inputs that run, it translates, and runs if and only if an input has no rows; it then has the right rows, none. |
| `JoinConjunctions.ConjunctionAborts` | src/queryexe/src/opiterator/nested_loop_join.rs:72-89 | `a.x = b.x AND a.y = b.y` on any two tables of one row each: the run aborts. |
| `MemoModel.StripAnnotate` | src/optimizer/src/memo.rs:171-212 | Entering a plan with a catalog changes nothing but the alternatives noted on index scans. |
| `MemoModel.SameTables` | src/optimizer/src/cost/cardinality_cost_model.rs:126-137 | All physical forms of a plan read the same tables, so row estimates do not depend on the form. |
| `MemoModel.JoinMonotone` | src/optimizer/src/cost/cardinality_cost_model.rs:233-262 | The cost of a join does not fall when its inputs get dearer. |
| `MemoModel.BestIsCandidate` | src/optimizer/src/memo.rs:392-612 | What a group resolves to is one of the plan's physical forms, and its cost is that form's. |
| `MemoModel.BestIsCheapest` | src/optimizer/src/memo.rs:392-612 | No combination of per-node choices is cheaper than what resolving bottom-up picks. |
| `MemoModel.HashWinsIff` | src/optimizer/src/cost/cardinality_cost_model.rs:233-262 | A hash join is strictly cheaper than a nested-loop join if and only if both inputs have at least two rows and not both exactly two. |
| `MemoModel.HashDoesNotWin` | src/optimizer/src/cost/cardinality_cost_model.rs:233-262 | Two tables of two rows each: both forms cost the same and the hash join does not win. |
| `QueryMeaning.CandidateMeans` | src/optimizer/src/memo.rs:392-612 | Every combination of physical forms of a plan, correlated subqueries included, yields the plan's bag of named rows on all tables, where aggregations have a result in every order of their rows and index scans list all the table's columns in order. |
| `QueryMeaning.JoinMeans` | src/optimizer/src/memo.rs:485-524 | Nested-loop and hash form of a join, of any join type the form is made for, over the combined predicates, yield the bag of the logical join over all of them. |
| `QueryMeaning.SafeNoneFails` | src/queryexe/src/opiterator/aggregate.rs:118-194 | Where the absolute values of every summed column add up to a number of 64 bits, no aggregation of the plan, at any depth and whatever form is chosen below it, can fail. |
| `QueryMeaning.FlatMapMeans` | src/optimizer/src/memo.rs:392-612 | A correlated subquery evaluated per outer row yields the same bag when its own forms do for every outer row. |
| `IndexScans.IndexScanIff` | src/queryexe/src/opiterator/index_scan.rs:58-74 | All forms of an index scan, with and without the noted alternative, run and yield its rows, alone and as the left side of a join, on all tables and keys, if and only if it lists all columns of the table, in order. |
| `MemoTable.ReconstructStrips` | src/optimizer/src/memo.rs:285-361 | Reconstruction gives the plan a group stands for, without the noted alternatives. |
| `MemoTable.UnfoldLocal` | src/optimizer/src/memo.rs:135-143 | What a group stands for depends only on groups up to it: not on later ones, nor on winners. |
| `MemoTable.RoundTrip` | src/optimizer/src/memo.rs:160-361 | Reconstructing an entered plan gives it back, also after any further groups. |
| `MemoTable.Score` | src/optimizer/src/memo.rs:598-609 | The scoring loop picks the first cheapest candidate. |
| `MemoTable.Memo.NewGroup` | src/optimizer/src/memo.rs:135-143 | Appends one group whose inputs have smaller ids, and returns its id. |
| `MemoTable.Memo.AddGroup` | src/optimizer/src/memo.rs:160-283 | The new group stands for the plan, inputs come before it, and no earlier group changes. |
| `MemoTable.Memo.ResolveCosted` | src/optimizer/src/memo.rs:392-612 | The memoised resolution returns what the unmemoised recursion gives, for every state of the winner cells, and changes no plan. |
| `MemoTable.Optimize` | src/optimizer/src/memo.rs:148-612 | From an empty memo: a physical form of the plan, of least cost among all its forms, with the plan's bag of rows where no aggregation of the plan can fail and index scans list all columns in order. |
| `Pipeline.PhysicalIsMeaning` | src/queryexe/src/query/planner.rs:158-590 | The rows of a physical plan as the optimizer means them are those the translator means, for every well-formed plan. |
| `Pipeline.CandidateFormed` | src/optimizer/src/memo.rs:392-612 | Every form of a plan whose columns resolve is a well-formed physical plan with the same columns. |
| `Pipeline.CandidateAnswers` | src/queryexe/src/query/planner.rs:158-590 | If every expression of a logical plan has its value on the rows the logical plan gives it, no operator of any of its forms aborts. |
| `Pipeline.CandidateRuns` | src/queryexe/src/query/planner.rs:158-590 | From a logical plan to rows, with conditions on the plan and the tables only: whatever form is chosen translates, its operators run without aborting, and their rows, read through the offset map, are the bag that the logical plan means. |
| `Scopes.GetNames` | src/queryexe/src/query/translate_and_validate.rs:182-192 | The loop collects exactly the names bound to an id. |
| `Scopes.GetOrigin` | src/queryexe/src/query/translate_and_validate.rs:194-224 | The recursion over origins, names and outer scopes, with names taken in hash-map order, ends in a base column or a panic to which the specification leads. |
| `Scopes.UnknownPanics` | src/queryexe/src/query/translate_and_validate.rs:194-224 | An id that no scope knows leads to a panic and to nothing else. |
| `IndexRewrite.Resolve` | src/queryexe/src/query/translate_and_validate.rs:678-702 | The loop over the conjuncts keeps, for each base column of the scanned table, the last conjunct that equates it with a constant; it fails only where an origin does. |
| `IndexRewrite.BuildKey` | src/queryexe/src/query/translate_and_validate.rs:707-715 | The key in index-column order, and the conjuncts it uses up. |
| `IndexRewrite.TryIndexRewrite` | src/queryexe/src/query/translate_and_validate.rs:668-727 | The loops pick the first covered index, replace the scan under any chain of renames, and return the unused conjuncts; answers are those of the origin lookup. |
| `IndexRewrite.RewriteRow` | src/queryexe/src/query/translate_and_validate.rs:72-107 | Row by row, the index key and the residual together decide as all conjuncts do, where each equated column of the query is the position it was resolved to. |
| `IndexRewrite.RewritePreserves` | src/queryexe/src/query/translate_and_validate.rs:668-727 | The rewritten plan yields the rows of the filtered one on all tables, for composite indexes, repeated equalities and renames, where each equality is resolved to the position of its own column. |
| `WhereClause.WhereRight` | src/queryexe/src/query/translate_and_validate.rs:729-792 | A WHERE over a scope whose names are clear selects the rows on which its expression holds, index or not, and no origin lookup panics. |
| `WhereClause.MappedSelects` | src/queryexe/src/query/translate_and_validate.rs:729-792 | A predicate on an outer column or with a subquery, mapped to a new column and then filtered, selects the rows on which it holds, with that column added. |
| `WhereClause.ProcessWhere` | src/queryexe/src/query/translate_and_validate.rs:729-792 | The method: with clear names exactly the selected rows, by a filter over the rewritten scan; a predicate on an outer column, or with a subquery, or that is a bare subquery, gives the mapped form, and one with a name that no scope has an error. |
| `WhereClause.ClearIff` | src/queryexe/src/query/translate_and_validate.rs:668-727 | A scope is right for every query, table and index if and only if every two-part name of each of its columns leads to that column's own position. |
| `WhereClause.RewriteSound` | src/queryexe/src/query/translate_and_validate.rs:668-727 | Rewriting a scan that lists all its table's columns in order gives index scans all of whose physical forms are right. |
| `FromClause.Environment.BindTable` | src/queryexe/src/query/translate_and_validate.rs:574-617 | The loops over a table's columns bind each under its name, behind the table's name and behind the alias, and note its origin; every name leads to a column that has it. |
| `FromClause.Environment.BringIn` | src/queryexe/src/query/translate_and_validate.rs:618-652 | The loops over a derived table's columns, in hash-map order, bind each under all its inner names, qualified by the alias. |
| `FromClause.Environment.PickItems` | src/queryexe/src/query/translate_and_validate.rs:794-1010 | The loop over plain select items yields their ids and the aliases they bind, or fails on an unknown name. |
| `FromClause.BoundNames` | src/queryexe/src/query/translate_and_validate.rs:574-617 | The names of a base table each have an origin, so its scope is clear. |
| `FromClause.BroughtNames` | src/queryexe/src/query/translate_and_validate.rs:618-652 | Every name of a derived table's scope is a column of its plan. |
| `FromClause.ProcessFrom` | src/queryexe/src/query/translate_and_validate.rs:566-652 | For FROM items nested to any depth: the plan is a renamed scan with the scope's columns. Over a base table it exists exactly for a known table and a valid alias, names are clear and lead to their own columns, and columns are in order. |
| `Queries.SelectWhere` | src/queryexe/src/query/translate_and_validate.rs:466-792 | `SELECT * FROM table AS alias WHERE x`, from names to rows: for every known table, valid alias and clause on its columns there is a plan, and whatever the table holds and whichever indexes there are, its operators run and yield the bag of rows that meet the clause, if the clause is true or false on each row. |
| `QueryRuns.ClausePrepared` | src/queryexe/src/query/translate_and_validate.rs:668-792 | A clause over a whole table that is decided on every row, rewritten to use any index or left alone, is a logical plan that meets all conditions of `Pipeline.CandidateRuns`. |
| `WholeQueries.QueryIff` | src/queryexe/src/query/translate_and_validate.rs:566-792 | For any FROM with one item and the scope it leaves: all its queries are right, alone and joined with a column of another table, whatever the tables hold and for every clause decided on every row, every index and every chosen plan, if and only if its names are clear and, where an index can be used at all, the scan lists all columns of its table in order. |
| `DerivedTables.ShadowedName` | src/queryexe/src/query/translate_and_validate.rs:194-224 | `SELECT * FROM (SELECT b AS a, * FROM t) AS t WHERE b = 1`: there is a table on which the rewritten query loses a row. |
| `DerivedTables.DroppedColumn` | src/common/src/query/logical_expr/project.rs:119-147 | `SELECT * FROM (SELECT b FROM t) AS x WHERE b = 1` with an index on b: the projection is pushed into the scan, the clause becomes an index scan, and there is a table for which the plan, without a catalog the only one, yields other rows. |
| `DerivedTables.DroppedLast` | src/common/src/query/logical_expr/project.rs:119-147 | `SELECT a` instead: the rows are right alone, and joined with a column of any other table that column is read from the dropped one. |
| `IndexUpkeep.StepKeeps` | src/queryexe/src/opiterator/update.rs:81-153 | Each enabled CREATE INDEX, INSERT, UPDATE (the record may move) and DELETE keeps every index equal to the projection of its table. |
| `IndexUpkeep.RunAgrees` | src/queryexe/src/mutator/mod.rs:21-52 | After every run of such statements each index is the multiset of (key columns, record id) over the live rows. |
| `IndexUpkeep.SearchIsFilter` | src/index/src/index_manager.rs:83-86 | Whatever returns the entries of an index that agrees returns each live row with the key once, and no other; `IndexRuns` proves that of the tree. |
| `IndexRuns.LogEntries` | src/queryexe/src/mutator/mod.rs:21-52 | After any run of statements, the tree operations they performed on an index leave an ideal index with the entries of that index. |
| `IndexRuns.LogFresh` | src/queryexe/src/mutator/mod.rs:21-52 | Statements that never leave two rows with the same key only insert keys that are not live, CREATE INDEX on a filled table included. |
| `IndexRuns.UniqueLookup` | src/index/src/index_manager.rs:55-86 | After any run of statements that never leaves two rows with the same key, a lookup through the B+tree fetches exactly the rows of a full scan with the equality filter. |
| `IndexRuns.LookupIff` | src/index/src/index_manager.rs:55-86 | With equal keys, clear inserts and no missed delete: it does so if and only if no empty leaf interrupts the run of the key. |
| `Statements.Exchange` | src/queryexe/src/opiterator/update.rs:130-137 | The loop over a table's indexes, in any order, takes the old entry out of each and puts the new one in. |
| `Statements.Scan` | src/index/src/index_manager.rs:55-73 | The build loop, over the table in any order, makes the projection of the table. |
| `Statements.Database.CreateIndex` | src/index/src/index_manager.rs:55-73 | The new index agrees with the table from the start; the others are untouched. |
| `Statements.Database.UpdateRow` | src/queryexe/src/opiterator/update.rs:81-153 | One updated row, kept or moved, in the table and in every index. |
| `Statements.Database.DeleteRow` | src/queryexe/src/opiterator/delete.rs:70-89 | One deleted row, out of every index and the table. |
| `Statements.Database.InsertTuples` | src/queryexe/src/mutator/mod.rs:21-52 | All rows stored and indexed; or, where the storage gave out, the rows stored so far and no index entry. The indexes agree afterwards if and only if all rows were stored, or none, or there is no index. |
| `Statements.IndexRows` | src/queryexe/src/mutator/mod.rs:21-52 | The loop over the stored rows enters each into every index, row by row as single INSERTs would. |
| `Statements.InsertedKeeps` | src/queryexe/src/mutator/mod.rs:21-52 | After any number of its rows an INSERT keeps agreement. |
| `Statements.PartialInsertIff` | src/queryexe/src/mutator/mod.rs:21-52 | After an INSERT the indexes agree if and only if every row fits a page, or the first does not, or there is no index. |
| `Statements.LostRowIff` | src/storage/heapstore/src/heap_file.rs:99-122 | A row that is gone from the table only leaves the indexes in agreement if and only if there are none. |
| `HeapFiles.AddValue` | src/storage/heapstore/src/heap_page.rs:333-370 | A value goes to the first free slot, or a new one, exactly when the page has room; free space stays what the header and the live values leave. |
| `HeapFiles.DeleteValue` | src/storage/heapstore/src/heap_page.rs:404-451 | Frees exactly a live slot and gives its bytes back. |
| `HeapFiles.UpdateValue` | src/storage/heapstore/src/heap_page.rs:453-523 | Replaces a value in its slot exactly when the slot is live and the new one fits where the old one lay or in the page without it. |
| `HeapFiles.HeapFile.AddVal` | src/storage/heapstore/src/heap_file.rs:126-149 | The value is stored under an id that was free, on the first page that takes it, and no other changes; refused exactly if it fits no page. |
| `HeapFiles.HeapFile.AddVals` | src/storage/heapstore/src/heap_file.rs:151-162 | Stores the rows up to the first that fits no page, under new and different ids, and nothing else changes. |
| `HeapFiles.HeapFile.DeleteVal` | src/storage/heapstore/src/heap_file.rs:90-97 | Takes out exactly one value, if it is there. |
| `HeapFiles.HeapFile.UpdateVal` | src/storage/heapstore/src/heap_file.rs:99-122 | Under its old id exactly as long as its page has room, else under a free one, and no other value changes; a value that fits no page is refused after the old one is deleted. |
| `StoredTables.StoredTable.InsertRows` | src/queryexe/src/mutator/mod.rs:21-52 | File and table stay in step; the indexes still agree if and only if every row fits a page, or the first does not, or there is no index. |
| `StoredTables.StoredTable.UpdateRow` | src/queryexe/src/opiterator/update.rs:81-153 | The update of the model where the row fits a page; otherwise the row is gone, and the indexes agree if and only if there are none. |
| `StoredTables.StoredTable.DeleteRow` | src/queryexe/src/opiterator/delete.rs:70-89 | File, table and indexes lose exactly the row. |
| `StoredTables.SecondRowTooLong` | src/storage/heapstore/src/storage_manager.rs:110-120 | INSERT of a short row and one longer than a page: the first is stored and in no index. |
| `StoredTables.LongUpdateLost` | src/storage/heapstore/src/heap_file.rs:99-122 | UPDATE of a short row to one longer than a page: the row is gone and its index entry is not. |
| `Statements.UpdateOp.Step` | src/queryexe/src/opiterator/update.rs:81-153 | Each call updates exactly the next drained row, reports a row without record id as an error, and stops at the end. |
| `Statements.DeleteOp.Step` | src/queryexe/src/opiterator/delete.rs:70-89 | Each call deletes exactly the next drained row. |
| `Statements.SearchIsScan` | src/queryexe/src/opiterator/index_scan.rs:33-74 | What a search found, fetched, is the bag of rows that a scan of the table, in any order, with the equality filter yields. |
| `Statements.IndexScanOp.constructor` | src/queryexe/src/opiterator/index_scan.rs:33-56 | Once opened, what is to come is, as a bag, the full scan with the equality filter, for every order of the scan. |
| `Statements.IndexScanOp.Step` | src/queryexe/src/opiterator/index_scan.rs:58-74 | Takes the first row off what is to come. |
| `Statements.IndexScanOp.Rewind` | src/queryexe/src/opiterator/index_scan.rs:83-89 | Every row of the lookup is to come again. |
| `Statements.IndexScanOp.Drain` | src/queryexe/src/opiterator/index_scan.rs:58-74 | Calling until nothing comes hands out exactly what was to come. |
| `RwLatch.StepSafe` | src/common/src/rwlatch.rs:48-174 | With at most 32767 threads every load, compare-and-swap and release, also inside an upgrade or downgrade, keeps the counter honest: -1 exactly for one writer and no reader, else the number of readers. |
| `RwLatch.RunSafe` | src/common/src/rwlatch.rs:48-174 | So after every interleaving. |
| `RwLatch.TooMany` | src/common/src/rwlatch.rs:8-12 | With more threads there is a run of readers that wraps the counter. |
| `RwLatch.SafeIff` | src/common/src/rwlatch.rs:8-174 | All interleavings are safe if and only if there are at most 32767 threads. |
| `SmallStrings.LeRoundTrip` | src/common/src/physical/small_string.rs:294-306 | A length survives its four bytes. |
| `SmallStrings.ReversedIsLe` | src/common/src/physical/small_string.rs:402-411 | Reversing the stored offset bytes and reading them most significant first gives the offset. |
| `SmallStrings.ShortDecodes` | src/common/src/physical/small_string.rs:362-442 | Strings of up to 31 bytes decode to their bytes and length, whatever the buffer holds. |
| `SmallStrings.LongDecodes` | src/common/src/physical/small_string.rs:362-442 | Longer strings decode from prefix, offset and the block at that offset. |
| `StringManager.BlocksDisjoint` | src/common/src/physical/small_string.rs:137-217 | Blocks of different strings, and the free room, are disjoint. |
| `StringManager.IntactKept` | src/common/src/physical/small_string.rs:137-217 | Writing behind the blocks leaves every one of them intact. |
| `StringManager.Manager.GetFreeSpace` | src/common/src/physical/small_string.rs:333-336 | Free space and the room of all long strings made add up to the capacity. |
| `StringManager.Manager.FindRegion` | src/common/src/physical/small_string.rs:137-217 | The binary search finds room exactly when there is any. |
| `StringManager.Manager.Shrink` | src/common/src/physical/small_string.rs:137-217 | What is left of the region stays the one free region: it is never reinserted elsewhere in the list. |
| `StringManager.Manager.Allocate` | src/common/src/physical/small_string.rs:137-217 | A block behind all others exactly when it fits; refused strings change nothing. |
| `StringManager.Manager.MakeString` | src/common/src/physical/small_string.rs:362-389 | Fails exactly for a long string without room; every string made before is still made. |
| `StringManager.MadeDecodes` | src/common/src/physical/small_string.rs:398-442 | In every reachable state each string made decodes to its original bytes and length. |
| `Decimals.RoundTripIff` | src/common/src/datatypes.rs:478-611 | For every decimal of `p` digits within 64 bits: parsing its printed form returns it if and only if its scale is at least one and it is not strictly between minus one and zero. |
| `Decimals.SmallNegative` | src/common/src/datatypes.rs:590-611 | Between minus one and zero the minus is padded behind the point, or stands alone before it, and parsing fails. |
| `Decimals.AddSubUnits` | src/common/src/datatypes.rs:154-204 | A sum or difference has a value if and only if every number on the way fits 64 bits, and then at the larger scale. |
| `Decimals.AddSubExact` | src/common/src/datatypes.rs:154-204 | Sums and differences of integers and decimals of any two scales are exact as numbers. |
| `Decimals.SumExact` | src/queryexe/src/opiterator/aggregate.rs:85-116 | SUM over any mix of integers and decimals of any scales is the exact total, unless a running total overflows. |
| `ValueIds.BytesRoundTrip` | src/common/src/ids.rs:181-255 | Every identifier decodes from its bytes, whatever follows them. |
| `ValueIds.PrefixFree` | src/common/src/ids.rs:229-255 | No encoding is a prefix of another, so the encoding is injective. |
| `ValueIds.ToFixedBytes` | src/common/src/ids.rs:150-178 | Refused exactly with a segment; otherwise ten bytes that decode to the identifier. |
| `ValueIds.CpBytesDecode` | src/common/src/ids.rs:214-226 | The container-and-page form decodes to just those, and to the identifier if and only if it has no segment and no slot. |
| `ValueIds.DecodedValid` | src/common/src/ids.rs:181-210 | Whatever bytes decode to is in range. |
| `ValueIds.HexRoundTrip` | src/queryexe/src/stats/container_samples.rs:140-147 | Hexadecimal text decodes to the bytes it was made from. |
| `ValueIds.Serialize` | src/queryexe/src/stats/container_samples.rs:115-137 | Every sample is stored under its own key: no two identifiers share one. |
| `ValueIds.Deserialize` | src/queryexe/src/stats/container_samples.rs:149-168 | Fails exactly on a key that does not decode; otherwise the map read is made of the decoded keys. |
| `ValueIds.SamplesRoundTrip` | src/queryexe/src/stats/container_samples.rs:115-168 | A sample map of any size comes back as it was. |

## Left out

- Pages of the index: a page is a list of slots whose room is what its live entries leave; header bytes of freed slots, and the room of the Meta entry, are not counted. `HeapFiles` counts them for heap pages.
- Bytes of heap pages: a value has a size; where it lies, the moves of a compaction and values of no bytes are not modelled, nor is the buffer pool.
- Segment ids inside the index: record ids in the tree have container, page and slot, the parts its order uses; `ValueIds` has segments.
- Index errors from storage (a page that cannot be read or written), CBOR encoding and decoding, loading an existing index, and page types.
- Concurrency of the index: its lock serialises writers against readers, so only sequential runs are modelled.
- TreeIndex.Index.Insert: after an insert whose halves do not fit, the pages are no longer those of an index; what later operations do on them is not modelled.
- Closing and reopening operators: the read flags that survive a close are not modelled.
- PlanTheorem.TranslationCorrect: joins need one comparison whose left operand is on the left side, or a symmetric operator, and operands that have values on all rows, or an empty input (`JoinsDefined`); `PlanSwap` and `JoinConjunctions` have the others. Index scans list as many columns as the table has; `IndexScans.IndexScanIff` has the others. A value that fails to evaluate elsewhere reads as a predicate that does not hold; `PlanAnswers.AnswersIff` says when none fails. Sort, Delete, Update and FlatMap plans are not in this theorem.
- QueryMeaning.CandidateMeans: an aggregate of the plan has to have a value in every order of its rows, since a running total may overflow in one order only (`QueryMeaning.SafeNoneFails` has a condition that can be checked); index scans list all columns of the table in order, which `IndexScans.IndexScanIff` shows is needed; the order a sort gives is not part of a bag, and a statement that changes data is one form of itself.
- PlanAnswers.AnswersIff: an input counts as read to its end; a nested-loop join without left rows does not ask its right input, so it may run where that input would abort.
- Pipeline.CandidateRuns: inner joins with one comparison; outer joins, correlated subqueries, sorts and statements that change data are covered up to the physical plan by `QueryMeaning.CandidateMeans`.
- Queries.SelectWhere: clauses without CASE and subqueries, and decided on every row; on others it states that there is a plan.
- FromClause.ProcessFrom: one item in FROM, derived tables without a WHERE, select items that are plain columns, and projection pushdown switched on; joins in FROM, grouping and expressions in the select list are not modelled.
- WhereClause.ProcessWhere: a subquery in a clause stands for its value; the panic for one with more than one column is not modelled.
- MemoTable.RoundTrip: for plans without noted alternatives on index scans, which reconstruction drops; `MemoTable.ReconstructStrips` covers all plans.
- AggSpec.FoldSum: states when a sum overflows for integers; `Sums.SumIff` states it for decimals of any scales.
- Averages, decimal products and quotients, selectivity estimates, sampling and every other use of floating point.
- Statements: an index is taken at its multiset of entries; `IndexRuns` ties it to the tree, for inserts that tie with no separator or for unique keys.
- Row validation on INSERT, the table timestamps and the registered-query cache.
- SQL parsing, logical rewrite rules and the direct translation from logical to physical plans.
- String deallocation and merging of free regions, comparing a short with a long string, and UTF-8: strings are bytes.
- RwLatch: the wait between retries, and memory orderings; each load and each compare-and-swap is one step.
- Server, client, files, catalogs on disk and configuration.
