# Casys: verified models of the graph engine and of its recovery and job protocols

This project models the embedded graph engine (the Rust crates) and the snapshot, log and job protocol of
the Python backend, and proves what they compute. It is organised by component:

- **Queries.** `Lexer`, `Grammar` and `Parser` read query text; `Planner` compiles a query into scans,
  filters, expansions and products; `Semantics` says what a plan returns and `Executor` computes it loop by
  loop over the store. `Matching` defines what the executor finds of a pattern on the plain graph, `Compilation`
  proves that compiled patterns return exactly that and `Occurrences` how often, `Answers` extends this to whole
  queries and `ParsedPatterns` connects it to the parser. `RowContents` says what a row holds of its match,
  `QueryMeaning` what WHERE keeps of it and RETURN shows, on the laws of values in `ValueLaws`. `FullSense` defines what a pattern means, independently
  of the executor, and `Intended` says exactly when the two agree, with the stores of `PathStores` and
  `LoopStores` as witnesses. `Aggregates` says what aggregate rows are, `Grouping` computes them loop by loop,
  `AggregateTheorems` and `AggregateAnswers` prove what they count.
  `Distances` proves the breadth-first expansion exact, `Correlation` the correlated EXISTS, `Creation` and
  `MatchCreation` the CREATE clause, `Created` what it stores and `CreatedChains` when MATCH finds that again,
  `Ordering`, `StableSort` and `SortedResults` ORDER BY with LIMIT.
- **Query text.** `QueryPrinter` writes queries as tokens in several styles and `TokenText` tokens as text;
  `PatternReading`, `PatternLists` and `QueryReading` prove that the parser reads them back, `QueryRoundTrip` that
  whole queries survive, and `WritableQueries` that these are all the queries there are.
- **Store.** `GraphStore` holds the node and edge maps with their three indexes, `Persistence` the log records
  and segments, `Reload` and `TwinQueries` what a reloaded store has in common with the original.
- **SDK printer.** `SdkPrinter`, `PrintParse` and `PrintExact` follow an SDK expression through its text and
  back.
- **Log and branches.** `Wal`, `WalWriter` and `NameOrder` cover bytes, segments and file names,
  `WalDirectory` commits one after the other, `CommitProtocol` and `CommitOrder` interleaved ones, `Branches`
  the manifests.
- **Recovery and jobs.** `Recovery` models snapshot choice and log replay in its three copies,
  `RecoveryTheorems` says what they recover; `JobStores` and `Jobs` model the interleaved submitters, workers
  and cancellers, `JobRecords` says what records and stream hold in every run, `JobOutcomes` which outcomes are
  final, `StatusCommands` looks inside a status update.

Objects that change in place are classes whose methods are proved against functions of their state; the
theorems are about those functions. Times, hash-map iteration orders and file listings are parameters or
arbitrary choices, so every theorem holds for all of them.

## What the proofs found

- Rows too many: the labels and properties of the node a chain ends in, the labels of middle nodes and all edge
  properties are never compiled, nor are second labels of the first and of standalone nodes, which the parser
  never produces (it reads at most one label per node, parser.rs:583-589) and only a pattern built by hand has.
  Every row is a match in the full sense, on every store, exactly when the pattern has none of these, or when
  nothing can match at all (`Intended.IntendedOnlyExactly`).
- Rows too few: a variable-length edge finds a node only at its shortest distance and never the node it starts
  from. So `(a)-[*2..3]->(b)` misses a walk of two edges beside a direct edge (`Intended.ShortcutHides`), and any
  range misses walks that return. On a given store a match is found exactly when each of its variable-length
  edges leads to another node that no walk shorter than the range reaches (`FullSense.FoundExactlyWhen`). Over all
  stores no match is missing exactly when the pattern cannot be met with such an edge
  (`Intended.FoundExactly`): without properties, when it has no variable-length edge or an empty range
  (`Intended.PlainMisses`); and if walks that return do not count, when no range starts behind 1
  (`Intended.FoundApartExactly`).
- Together: MATCH over one chain with standalone nodes finds exactly the matches in the full sense, on every
  store, exactly under both conditions (`Intended.IntendedExactly`). Patterns that reuse a variable and chains
  behind another pattern are outside this statement.
- EXISTS over a subquery that returns COUNT or another aggregate without group keys is true even when nothing
  matches, because that row is always there (`AggregateAnswers.ExistsOverAggregate`). Groups do not tell a node
  from the integer that is its id (`AggregateTheorems.GroupsMix`), and one group key that fails to evaluate makes
  the whole query fail, while failing arguments of aggregates are passed over, except that COUNT counts them.
- A node that lists a label twice is found twice by that label: a match stands behind as many rows as the
  product of these numbers over its start and its standalone nodes (`Occurrences.RowOccurrences`).
- MATCH .. CREATE creates for every match, whatever WHERE says behind it
  (`MatchCreation.WhereDoesNotRestrictCreation`); written after WHERE, the CREATE clause is dropped without an
  error (`EdgeTypes.LateCreateIsDropped`).
- Log segments are ordered by file name. From the twelfth commit on, every commit whose batch fits in a segment
  empties segment 10 again, so only the first ten batches and the latest one remain readable
  (`WalDirectory.CommitsAreLost`), also in every interleaving of concurrent commits
  (`CommitOrder.BatchesAreLost`). Opening is safe exactly when the newest number has one digit or only nines
  before its last digit.
- The same order decides the log position that a commit records: it is that of the segment written last
  exactly when that segment's number has one digit or only nines before its last digit
  (`Branches.RecordedTailIsExact`). Commits through the file backend record none.
- The latest manifest by name is the newest one exactly when every timestamp is at most the leading digits of
  the newest, as many as it has itself; 9 and 10 are already out of order.
- Restore's early return and the other two copies' per-file breaks always agree, because only the file of the
  target's own second can hold late lines. Recovery itself is exact unless a mutation shares the snapshot's
  second on the wrong side.
- A cancelled job can still end as COMPLETED, exactly when a message for it is still to be sent or delivered
  or a worker is still to run it, and a canceller that looked in time turns a COMPLETED job into FAILED; runs
  from the start show both. A terminal status is final exactly when no message is to come, no worker may
  still write the record and, unless it is FAILED already, no canceller is on its way
  (`JobOutcomes.TerminalIsFinalExactly`).
- Below the granularity of operations, record and running index are consistent exactly when the update that
  writes the record last and the one that writes the index last agree on whether the transaction runs
  (`StatusCommands.ConsistentExactly`).
- CREATE ignores the direction of an edge pattern: `CREATE (a)<-[:T]-(b)` stores an edge from a to b, which the same
  pattern in MATCH does not find. What CREATE of a chain makes is a match of that chain exactly when no edge points
  left or names several types, every depth range includes 1, and its compiled properties neither clash nor are null
  (`CreatedChains.CreatedIsMatched`).
- OR holds only when both sides evaluate to a truth value, and NOT only of one: `a.age < 30 OR a.name = 'x'` drops a
  node without a name, however young (`QueryMeaning.ConditionsCombine`). IS NULL keeps the nodes that store a null; a
  property that is not there makes the condition fail (`QueryMeaning.WhereTestsNodes`).
- WITH passes on values only: behind `WITH a AS x` the properties of the node are gone
  (`QueryMeaning.WithPassesOn`).
- A query can be read from some text exactly when its names are names, its strings hold no quote, its numbers can be
  written without a sign, and so on for every clause (`WritableQueries.ReadExactly`); written in any style, it reads
  back as itself (`QueryRoundTrip.WrittenQueryIsRead`).
- An aggregate below IS NULL, in an argument or in EXISTS does not make a query grouped
  (`AggregateTheorems.AggregateIsSeen`): it is projected row by row, and that column stays empty.
- The per-file copies of replay part where a log holds lines without a query, which the worker never writes: a late one
  stops preview but not branch creation (`RecoveryTheorems.FileCopiesAgree`).
- An SDK expression survives printing and parsing exactly when its names are no keywords, its strings hold no
  quote, its integers are non-negative 64-bit numbers, it holds no `None`, no attribute of an attribute, and its
  operators respect precedence without parentheses.
- CREATE is not atomic: when a later pattern fails, what earlier patterns made stays. A lone node behind a chain
  in CREATE is dropped by the parser.

## Model

| member | source | states |
|---|---|---|
| Compilation.MatchRowsAreMatches | crates/casys_engine/src/exec/planner.rs:196-572 | over any well-formed store, planning then executing any chain of one-hop and variable-length edges, with standalone nodes behind it, returns one row per match of the pattern on the plain graph and per occurrence of its labels: none missing, none twice; what each row holds is `RowContents.RowsHoldMatches` |
| RowContents.RowsHoldMatches | crates/casys_engine/src/exec/executor.rs:405-524 | each of these rows holds, under the variables of the pattern, the nodes and edges of the store that its match goes through: a node variable the node and its properties, an edge variable the id of the stored edge, its type and its properties, with each edge between its two nodes in the direction of its arrow, and nothing that the pattern does not name |
| Occurrences.RowOccurrences | crates/casys_engine/src/index/mod.rs:74-82 | told apart by nodes and edges alone, a match stands behind as many rows as the product of the numbers of times its start and its standalone nodes list their labels |
| Answers.QueryAnswersMatches | crates/casys_engine/src/exec/planner.rs:77-171 | MATCH .. WITH .. WHERE .. RETURN over a chain, when RETURN holds no aggregate, answers with exactly one row per match whose bindings, as WITH projects them, satisfy the condition; which these are and what the row shows is `QueryMeaning.WhereTestsNodes`, `QueryMeaning.ConditionsCombine` and `QueryMeaning.AnswersShowMatches`; with aggregates the answer is that of `AggregateAnswers.CountIsMatches` and `AggregateAnswers.GroupsAreMatches` |
| QueryMeaning.WhereTestsNodes | crates/casys_engine/src/exec/executor.rs:288-302 | WHERE over a property of a chain's node keeps exactly the matches whose node stores a value there that passes: a number in the stated relation, told by real numbers, a string or truth value equal or not, a null or none |
| QueryMeaning.WhereTestsIds | crates/casys_engine/src/exec/executor.rs:665-682 | WHERE over ID(a) keeps exactly the matches whose node has an id in the stated relation to the number |
| QueryMeaning.ConditionsCombine | crates/casys_engine/src/exec/executor.rs:640-654 | AND holds exactly when both sides do, OR when one does and the other evaluates to a truth value, NOT when its operand evaluates to false |
| QueryMeaning.ParameterIsLiteral | crates/casys_engine/src/exec/executor.rs:655-663 | a parameter can be replaced by the literal of its value in any operator, and is an error when it was not given |
| QueryMeaning.ColumnsShow | crates/casys_engine/src/exec/executor.rs:303-319 | an answer row has a column for an item exactly when one of that name evaluates, and it shows the last of them |
| QueryMeaning.AnswersShowMatches | crates/casys_engine/src/exec/executor.rs:303-319 | each row of the answer shows, for every returned node, edge and property of either, what the store holds of its match, and no column where a node or edge has no such property |
| QueryMeaning.WithPassesOn | crates/casys_engine/src/exec/planner.rs:105-119 | behind WITH a row holds, under each alias, the value of its last item that evaluates, and nothing else |
| ValueLaws.NumbersCompare | crates/casys_engine/src/exec/executor.rs:755-865 | one number is below another exactly when a positive number added to it gives the other; at most, above, at least and unequal follow from that and from equality, also between integers and floats |
| ValueLaws.SameKindCompares | crates/casys_engine/src/exec/executor.rs:755-865 | values of one kind are equal exactly when they are the same, and unequal when not |
| ValueLaws.NumbersAdd | crates/casys_engine/src/exec/executor.rs:755-865 | addition and multiplication are those of the numbers, subtraction undoes addition, and the result is an integer exactly when both operands are |
| ValueLaws.NumbersDivide | crates/casys_engine/src/exec/executor.rs:755-865 | division by zero is an error; the integer quotient is the one of least error towards zero, every other quotient times the divisor gives the dividend back |
| ValueLaws.TruthTables | crates/casys_engine/src/exec/executor.rs:755-865 | AND and OR on truth values are those of logic |
| ValueLaws.FailsExactly | crates/casys_engine/src/exec/executor.rs:755-865 | an operator fails exactly on operands of kinds it does not take, or on a division by zero |
| Answers.QueryFinishesMatches | crates/casys_engine/src/exec/planner.rs:77-195 | any query that begins with a chain MATCH and does not create answers with what its other clauses, aggregates included, make of one row per match |
| ParsedPatterns.ParsedMatchIsChain | crates/casys_engine/src/exec/parser.rs:384-398 | every parsed MATCH clause is a list of linked paths; with only lone nodes behind the first it is a chain as the query theorems expect |
| Chains.PlanOfChain | crates/casys_engine/src/exec/planner.rs:260-566 | the plan of a chain is the scan, expansions, filters and products of its parts in pattern order, under one filter over the inline properties of node patterns |
| Planner.PlanMatchClause | crates/casys_engine/src/exec/planner.rs:196-572 | the planning loop computes the plan that the specification function defines, including its errors |
| FullSense.FoundExactlyWhen | crates/casys_engine/src/exec/executor.rs:529-620 | on any store, a match in the full sense, of walks within the ranges, is found exactly when every variable-length edge leads to another node that no walk shorter than its range reaches |
| Intended.IntendedRows | crates/casys_engine/src/exec/planner.rs:384-405 | for a pattern that is all compiled and cannot be met with an edge the search does not answer, the rows are exactly the matches in the full sense, each node, edge and walk meeting its own pattern |
| Intended.IntendedExactly | crates/casys_engine/src/exec/planner.rs:384-567 | a chain's matches are found if and only if they are matches in the full sense, on every store, exactly when all of it is compiled or cannot be met at all, and it cannot be met with an edge the search does not answer |
| Intended.IntendedOnlyExactly | crates/casys_engine/src/exec/planner.rs:384-567 | every match found is one in the full sense, on every store, exactly when all of the pattern is compiled, or what is compiled cannot be met at all |
| Intended.FoundExactly | crates/casys_engine/src/exec/executor.rs:591-608 | every match in the full sense is found, on every store, exactly when the pattern cannot be met, without clashing properties or empty ranges, with a variable-length edge that returns to its origin or has a range behind 1 |
| Intended.FoundApartExactly | crates/casys_engine/src/exec/executor.rs:591-608 | matches whose variable-length edges all lead to another node are all found, on every store, exactly when no range starts behind 1 or the pattern cannot be met like that at all |
| Intended.PlainMisses | crates/casys_engine/src/exec/executor.rs:447 | a pattern without properties misses matches on some store exactly when it has a variable-length edge and no empty range |
| Intended.MissingRow | crates/casys_engine/src/exec/executor.rs:591-608 | for every pattern that misses matches, executing its plan on its loop store does not return the row of a match in the full sense |
| Intended.ShortcutHides | crates/casys_engine/src/exec/executor.rs:591-608 | the pattern (a)-[*2..3]->(b) misses the walk 1, 3, 2 beside a direct edge from 1 to 2 |
| Intended.UncompiledRow | crates/casys_engine/src/exec/planner.rs:384-567 | for any other chain its path store answers with the row of a match that some node or edge does not meet its pattern in |
| PathStores.MeetableExactly | crates/casys_engine/src/exec/planner.rs:384-567 | some store has a match exactly when no compiled properties clash or are null and no depth range is empty |
| Intended.CompiledIsIntended | crates/casys_engine/src/exec/planner.rs:530-567 | what is found of a pattern that is all compiled is a match in the full sense |
| Intended.LastNodeIsUnchecked | crates/casys_engine/src/exec/planner.rs:384-405 | in particular, whatever label or property the last node of a one-hop pattern asks for, a node without it is matched |
| Intended.ScanRepeatsLabels | crates/casys_engine/src/index/mod.rs:74-82 | a label scan yields every node once exactly when no node lists that label twice |
| MatchTheorem.ChainRows | crates/casys_engine/src/exec/executor.rs:405-524 | after any number of edges the rows are exactly the partial matches, each once |
| Expansions.ExpandRowIsExact | crates/casys_engine/src/exec/executor.rs:405-524 | expanding the row of a partial match yields exactly its one-edge extensions, over one hop or over a depth range |
| Matching.ScanIsExact | crates/casys_engine/src/exec/executor.rs:208-302 | a scan yields its candidates, each as often as it lists the label, only the bound node and once when the outer row holds the variable |
| Executor.ExpandAll | crates/casys_engine/src/exec/executor.rs:405-524 | the expansion loops over rows and neighbours compute the specified rows |
| Executor.Read | crates/casys_engine/src/exec/executor.rs:160-420 | executing a reading plan over the store object returns what the semantics says of the store's state, aggregates included |
| Executor.Write | crates/casys_engine/src/exec/executor.rs:162-188 | executing a plan with CREATE leaves the store and returns the rows that the semantics says, also below an aggregate |
| Grouping.EvaluateAggregate | crates/casys_engine/src/exec/executor.rs:871-925 | the loops of COUNT, SUM, AVG, MIN and MAX compute the specified values over Int and Float arguments, passing over all others |
| Grouping.AggregateAll | crates/casys_engine/src/exec/executor.rs:320-378 | the loops that evaluate keys, collect groups and compute their columns return the specified rows or the first failing key's error, in whatever order the groups are visited |
| AggregateTheorems.GroupsPartition | crates/casys_engine/src/exec/executor.rs:335-349 | in whatever order the groups are visited, put one behind the other they hold each row exactly as often as the input |
| AggregateTheorems.CountsAddUp | crates/casys_engine/src/exec/executor.rs:335-372 | the counts of all groups add up to the number of rows |
| AggregateTheorems.AnyArrangement | crates/casys_engine/src/exec/executor.rs:351-353 | the groups can be visited in any order: each one is the arrangement of some picks |
| AggregateTheorems.ExtremesAre | crates/casys_engine/src/exec/executor.rs:902-921 | MIN is one of the numbers and none is smaller, MAX likewise |
| AggregateTheorems.ComputedIs | crates/casys_engine/src/exec/executor.rs:871-925 | COUNT counts rows; SUM starts at nothing and grows by every number; AVG times the number of numbers is SUM; MIN is a number of the rows that none is below and MAX one that none is above; without numbers AVG, MIN and MAX are null |
| AggregateTheorems.AggregateIsSeen | crates/casys_engine/src/exec/planner.rs:584-591 | a returned expression counts as an aggregate exactly when one is an operand in it through operators and NOT |
| AggregateTheorems.GroupedExactly | crates/casys_engine/src/exec/planner.rs:136-171 | a query is grouped exactly when some returned expression is one, and projected otherwise |
| AggregateTheorems.ItemsSplit | crates/casys_engine/src/exec/planner.rs:139-158 | the items without an aggregate become the group keys and the others the aggregates, in order, each under its alias or the small-letter name of its aggregate |
| AggregateTheorems.KeyColumnsAre | crates/casys_engine/src/exec/executor.rs:354-366 | each group key has its column, named by its text or else by its position, the last one when several share a name, and there are no others |
| AggregateTheorems.ComputedAlike | crates/casys_engine/src/exec/executor.rs:871-925 | no aggregate depends on the order of the rows |
| AggregateTheorems.GroupsMix | crates/casys_engine/src/exec/executor.rs:341-344 | two key values fall into one group exactly when they are equal, or one is a node and the other the integer that is its id |
| AggregateTheorems.GroupsIgnoreOrder | crates/casys_engine/src/exec/executor.rs:335-376 | unless a key column holds both nodes and other values, rows in another order and groups visited in another order give the same result rows up to their order |
| AggregateTheorems.FailsExactly | crates/casys_engine/src/exec/executor.rs:320-378 | aggregation fails exactly when some group key fails on some row, or an aggregate column is no plain aggregate and there is a row or no group key |
| AggregateAnswers.CountIsMatches | crates/casys_engine/src/exec/executor.rs:323-330 | a chain query that returns aggregates without group keys answers with one row, also when nothing matches; COUNT is the number of matches that satisfy the condition, and every column is its aggregate over them |
| AggregateAnswers.GroupsAreMatches | crates/casys_engine/src/exec/executor.rs:331-377 | with group keys the answer has one row per group of the matches that satisfy the condition, every such match is in exactly one group, and the query fails exactly when a key fails on one of them |
| AggregateAnswers.AggregatesOverMatches | crates/casys_engine/src/exec/executor.rs:323-330 | without group keys each column holds its aggregate of its own argument over the matches that satisfy the condition |
| AggregateAnswers.GroupRowShows | crates/casys_engine/src/exec/executor.rs:354-372 | the row of a group shows the keys of its first row, except where an aggregate takes their column, and each aggregate over the arguments of all its rows, and nothing else |
| AggregateAnswers.ExistsOverAggregate | crates/casys_engine/src/exec/executor.rs:687-750 | EXISTS over a subquery that returns aggregates without group keys, and that the shortcut for bare edge patterns does not answer, is true whether or not anything matches, unless its LIMIT is 0 |
| Traversal.TraverseVariableLength | crates/casys_engine/src/exec/executor.rs:529-620 | the queue and visited-set loops terminate and compute the specified search, whatever the depth bound and the cycles |
| Distances.TraverseIsExact | crates/casys_engine/src/exec/executor.rs:529-620 | the search returns exactly the nodes whose shortest distance over allowed edges lies between max(1, min) and max, nearest first, each once |
| Correlation.ExistsMeansMatch | crates/casys_engine/src/exec/executor.rs:687-750 | EXISTS over a chain subquery is true exactly when some match from the correlated node satisfies the WHERE clause, and never fails |
| Correlation.ShortcutExactly | crates/casys_engine/src/exec/executor.rs:687-693 | the shortcut is taken exactly for a subquery without WHERE whose patterns begin with an edge from a node that the row holds |
| Correlation.ShortcutMeans | crates/casys_engine/src/exec/executor.rs:694-739 | it then tells whether a stored edge in that direction and of that whole type, or a walk within the depth range, leads from there to a node with one of the labels |
| Correlation.CorrelationIsExact | crates/casys_engine/src/exec/executor.rs:208-291 | the sub-plan under the outer row finds something exactly when the uncorrelated sub-plan has a row with the same node |
| Correlation.BoundTargetOnGraph | crates/casys_engine/src/exec/executor.rs:405-524 | an expansion towards a variable that already holds a node, over one hop or a depth range, finds something exactly when the edge pattern leads to some other node |
| Creation.CreateSucceeds | crates/casys_engine/src/exec/executor.rs:927-1005 | CREATE on a row succeeds exactly when every edge end is created before it or bound outside |
| Creation.FailureLeavesStore | crates/casys_engine/src/exec/executor.rs:927-1005 | a failed CREATE leaves the store unchanged exactly when its first pattern is the one that fails |
| Creation.CreateRowsGrows | crates/casys_engine/src/exec/executor.rs:162-188 | creation keeps the store well formed and everything old unchanged, and on success adds one node per node pattern and row and one edge per edge pattern and row, namely those of `Created.CreateRowsMake` |
| Created.CreateRowMakes | crates/casys_engine/src/exec/executor.rs:927-1005 | after a successful row every node pattern has a new node with its labels and properties, bound to its variable; every edge pattern has a new edge of its type and properties from the node that its first variable names at that point to the one that its second names, bound to its variable; the row holds nothing else new |
| Created.CreateRowsMake | crates/casys_engine/src/exec/executor.rs:162-188 | the same for every row in turn, in the store after all rows, with ids that follow one another |
| CreatedChains.CreatedIsMatched | crates/casys_engine/src/exec/executor.rs:971-995 | what CREATE of a chain makes is a match of the same chain in the new store exactly when no edge points left or names several types, every depth range includes one hop, and the compiled properties neither clash nor are null |
| MatchCreation.MatchCreateReadsOldStore | crates/casys_engine/src/exec/executor.rs:162-188 | MATCH .. CREATE with any clauses behind it creates for the matches of the old store only, for each of them the nodes and edges of `Created.CreateRowsMake`, grows the store by the counts of its patterns per match, adds no dangling edge, and answers with what the other clauses, aggregates included, make of the created rows |
| MatchCreation.WhereDoesNotRestrictCreation | crates/casys_engine/src/exec/planner.rs:86-126 | a query with CREATE leaves the same store as without its WITH, WHERE, RETURN, ORDER BY and LIMIT |
| MatchCreation.ExecuteFinishes | crates/casys_engine/src/exec/planner.rs:100-195 | the clauses above a writing plan change no store and make of its rows what their functions say, aggregates included |
| Executor.CreateForAll | crates/casys_engine/src/exec/executor.rs:162-188 | the creation loop over matched rows leaves the specified store and rows, also on failure; what they hold is `Created.CreateRowsMake` |
| Ordering.ColumnIsSortable | crates/casys_engine/src/exec/executor.rs:379-404 | the comparator is transitive on a column exactly when no two keys of one ordered kind differ beside a key of another kind |
| Ordering.ColumnsAreRankable | crates/casys_engine/src/exec/executor.rs:379-404 | when every column can be sorted, the lexicographic ASC/DESC comparator is a total preorder |
| Ordering.OneKeyIsRankable | crates/casys_engine/src/exec/executor.rs:379-404 | with one sort item it is a total preorder exactly when the column can be sorted |
| Ordering.SingleKindIsRankable | crates/casys_engine/src/exec/executor.rs:379-404 | with one kind per column the lexicographic ASC/DESC comparator is a total preorder |
| StableSort.SortIsTheStableSort | crates/casys_engine/src/exec/executor.rs:379-404 | under a total preorder there is exactly one stable sort of a list, and the model computes it |
| SortedResults.OrderByLimitIsExact | crates/casys_engine/src/exec/executor.rs:379-404 | ORDER BY then LIMIT k returns the first k rows of the input stably sorted by the comparator, whenever every sort column can be sorted over the rows; which order that is, `SortedResults.OrderByAscends` says |
| SortedResults.OrderByAscends | crates/casys_engine/src/exec/executor.rs:379-404 | the sorted rows are the input rows, each as often; of any two, the first sort item whose values differ within a kind decides: the earlier row has the smaller number or the string that comes first, the larger one for a descending item; LIMIT takes the first of them |
| SortedResults.OneItemIsExact | crates/casys_engine/src/exec/executor.rs:379-404 | with one sort item the comparator ranks the rows consistently exactly when its column can be sorted over them |
| GraphStore.ReachableStores | crates/casys_engine/src/index/mod.rs:131-166 | in every store reached by adding nodes and edges the ids are dense, each index lists each id exactly as often as the maps say, in ascending order |
| GraphStore.ReadsAreFilters | crates/casys_engine/src/index/mod.rs:69-128 | label scans and both neighbour reads equal filters over the plain maps |
| GraphStore.InMemoryGraphStore.AddNode | crates/casys_engine/src/index/mod.rs:132-145 | adding a node updates map, label index and counter as specified and returns the next id |
| GraphStore.InMemoryGraphStore.AddEdge | crates/casys_engine/src/index/mod.rs:147-166 | adding an edge updates map, both adjacency indexes and the counter as specified |
| GraphStore.InMemoryGraphStore.GetNeighbours | crates/casys_engine/src/index/mod.rs:88-107 | the loop over the index list returns the specified hops |
| Persistence.RecordRoundTrip | crates/casys_engine/src/index/persistence.rs:31-82 | a log record decodes to itself exactly when its property values survive JSON |
| Persistence.ReplayWal | crates/casys_engine/src/index/persistence.rs:269-310 | the replay loop leaves the store in the specified state |
| Persistence.ReplayRebuilds | crates/casys_engine/src/index/persistence.rs:268-310 | replaying the log of any run rebuilds the live store, index order and counters included |
| Persistence.ReplayComposes | crates/casys_engine/src/index/persistence.rs:268-310 | replaying a concatenation is replaying one part after the other |
| Persistence.EdgeReplayIsExact | crates/casys_engine/src/index/persistence.rs:292-306 | replaying an edge record keeps the store well formed exactly when it is the next in line |
| Persistence.NodeReplayIsExact | crates/casys_engine/src/index/persistence.rs:272-290 | replaying a node record keeps the store well formed exactly when it is the next in line or overwrites a node without labels |
| Persistence.LoadFromSegments | crates/casys_engine/src/index/persistence.rs:178-266 | loading builds the store that adding the decoded elements one by one builds |
| Reload.ReloadIsTwin | crates/casys_engine/src/index/persistence.rs:104-266 | load after flush gives a store with the same contents and counters and agreeing indexes exactly when every property value survives JSON, whatever the iteration orders |
| Reload.TwinsReadAlike | crates/casys_engine/src/index/mod.rs:69-128 | all reads answer the same on such stores up to order |
| Reload.TwinsRunAlike | crates/casys_engine/src/index/mod.rs:131-166 | any later run of updates keeps them alike and gives out the same ids |
| TwinQueries.TwinsAnswerAlike | crates/casys_engine/src/index/persistence.rs:178-266 | chain MATCH queries answer with the same rows, each as often, on a store and its reloaded twin |
| Lexer.Tokenize | crates/casys_engine/src/exec/parser.rs:277-289 | the tokenising loop over the lexer object terminates and yields the specified tokens or error |
| Lexer.Scan | crates/casys_engine/src/exec/parser.rs:167-268 | every token before the end consumes a character, and the end token comes only when nothing but blanks is left |
| Lexer.Lex | crates/casys_engine/src/exec/parser.rs:277-289 | a token list holds exactly one end token, the last |
| Lexer.Lexer.NextToken | crates/casys_engine/src/exec/parser.rs:167-268 | the lexer object advances by exactly the characters of the token it returns |
| Grammar.ParseExpr | crates/casys_engine/src/exec/parser.rs:668-850 | expression parsing terminates through all nesting, consumes a token and never passes the end |
| Grammar.ParseQuery | crates/casys_engine/src/exec/parser.rs:312-369 | the same for queries, through EXISTS subqueries |
| Parser.Parser.ParseQuery | crates/casys_engine/src/exec/parser.rs:312-369 | the parser object reads what the grammar function says and stands behind it; what that function reads is `QueryRoundTrip.WrittenQueryIsRead` and `WritableQueries.ReadExactly` |
| Parser.Parser.ParsePrimary | crates/casys_engine/src/exec/parser.rs:759-850 | the same for primaries: literals, names, calls, parameters, NOT, EXISTS and parentheses |
| Parser.Parse | crates/casys_engine/src/exec/parser.rs:890-893 | lexing and parsing a text as two objects gives the specified query or error, for written queries that of `QueryRoundTrip.WrittenQueryIsRead` |
| QueryRoundTrip.WrittenQueryIsRead | crates/casys_engine/src/exec/parser.rs:312-850 | the text of every query that can be written parses to that query: its patterns with directions, types, all forms of depth range and properties, its expressions with their precedence, WITH, WHERE, RETURN, ORDER BY and LIMIT, in each of the styles that the parser accepts |
| WritableQueries.ReadExactly | crates/casys_engine/src/exec/parser.rs:312-850 | a query is read from some text exactly when it can be written |
| WritableQueries.RereadIsSame | crates/casys_engine/src/exec/parser.rs:312-850 | whatever text a query was read from, writing it in any style and reading that gives the same query |
| PatternReading.LastValueIsRead | crates/casys_engine/src/exec/parser.rs:600-624 | a property list with repeated keys is read with every key once and the value written last |
| TokenText.LexSpelled | crates/casys_engine/src/exec/parser.rs:167-268 | every list of tokens written with blanks between them is read back as that list |
| TokenText.AnyCaseIsRead | crates/casys_engine/src/exec/parser.rs:238-266 | keywords are read in any capitalisation |
| TokenText.NamesAre | crates/casys_engine/src/exec/parser.rs:104-115 | a word is read as a name exactly when it has letters, digits and underscores only, no digit first, and is no keyword in any capitalisation |
| TokenText.BlanksAreSkipped | crates/casys_engine/src/exec/parser.rs:94-102 | spaces, tabs and line breaks in front of a token do not matter |
| PrintParse.PrintedTextParses | sdk/python/python/casys_db/query.py:1007-1034 | the text of a faithful SDK expression, with any text behind it that continues neither a word nor the expression, parses to that expression and leaves exactly the rest |
| PrintExact.RoundTripIsExact | sdk/python/python/casys_db/query.py:975-1045 | an expression the SDK can build comes back from its text exactly when its leaves read back as themselves and its operators respect precedence |
| PrintExact.GroupingIsUnique | crates/casys_engine/src/exec/parser.rs:668-850 | tokens have at most one grouping into a given tree |
| SdkPrinter.Flatten | sdk/python/python/casys_db/query.py:1010-1020 | collecting attribute names outwards-in and reversing them prints the dotted path |
| EdgeTypes.UnionReachesExecutor | crates/casys_engine/src/exec/parser.rs:438-464 | alternatives of an edge type, joined by the parser and split by the executor, arrive as written |
| EdgeTypes.AlternativesAre | crates/casys_engine/src/exec/executor.rs:416-468 | of any edge type text one hop takes every alternative between bars with the blanks around it removed, a walk all but the empty ones |
| EdgeTypes.LeftEdgeTakesNoDash | crates/casys_engine/src/exec/parser.rs:498-507 | a dash behind a left-pointing edge is an error |
| EdgeTypes.LoneNodeInCreate | crates/casys_engine/src/exec/parser.rs:400-415 | a lone node in CREATE is kept exactly when it does not stand behind a chain |
| EdgeTypes.LateCreateIsDropped | crates/casys_engine/src/exec/parser.rs:312-369 | a CREATE clause behind WHERE, and all after it, is dropped without an error |
| Wal.ReadRecords | crates/casys_storage_fs/src/wal.rs:101-122 | the reading loop returns the specified records, or an error for a payload cut short |
| Wal.PrefixSpellsLength | crates/casys_storage_fs/src/wal.rs:85-97 | the four bytes before a record are the ones that spell its length, least significant byte first |
| Wal.SegmentRoundTrip | crates/casys_storage_fs/src/wal.rs:82-122 | a segment reads back as written exactly when every record is shorter than 2^32 bytes |
| Wal.TornSegment | crates/casys_storage_fs/src/wal.rs:101-122 | a segment cut anywhere yields exactly its whole records, or an error when the cut is inside a payload |
| WalWriter.WalWriter.Open | crates/casys_storage_fs/src/wal.rs:57-74 | opening empties or creates the file one past the last by name and nothing else |
| WalWriter.WalWriter.WriteRecord | crates/casys_storage_fs/src/wal.rs:84-97 | writing a record rotates first when it does not fit and appends its frame, touching no other file |
| WalWriter.AppendRecords | crates/casys_storage_fs/src/backend.rs:141-148 | the commit loop leaves the directory as the writing function says |
| WalWriter.WrittenReadsBack | crates/casys_storage_fs/src/wal.rs:76-122 | records written into a fresh segment, under any size limit, read back in order over the segments used |
| WalWriter.PackRespectsLimit | crates/casys_storage_fs/src/wal.rs:76-97 | every segment is within the size limit or holds a single record |
| WalWriter.PackFillsSegments | crates/casys_storage_fs/src/wal.rs:76-97 | a segment is left only when the next record would not fit into it |
| WalWriter.WritesPack | crates/casys_storage_fs/src/wal.rs:76-97 | writing stores the packed segments under consecutive numbers and changes no other file |
| NameOrder.NewestIsLastByName | crates/casys_storage_fs/src/wal.rs:27-46 | the newest of consecutive segments has the last name exactly when its number has one digit or only nines before its last digit |
| NameOrder.WalNameRoundTrip | crates/casys_storage_fs/src/wal.rs:13-25 | epoch and number are read back from a segment's name |
| WalDirectory.OpeningIsExact | crates/casys_storage_fs/src/wal.rs:57-74 | on consecutively numbered segments the writer opens exactly one past the last by name |
| WalDirectory.OpeningOverwrites | crates/casys_storage_fs/src/wal.rs:57-74 | opening leaves all segments alone exactly under the condition on the newest number, and otherwise empties one |
| WalDirectory.CommitsAreLost | crates/casys_storage_fs/src/backend.rs:141-148 | after any number of small commits beyond eleven, what reads back is the first ten batches and the latest |
| WalDirectory.TailIsExact | crates/casys_storage_fs/src/backend.rs:175-189 | after appending, the position found by name is that of the segment written last exactly when its number has one digit or only nines before its last digit |
| WalDirectory.TenIsFoundAsNine | crates/casys_storage_fs/src/backend.rs:175-189 | with ten or eleven segments a small batch goes into segment 10 and segment 9 is reported |
| CommitProtocol.CommitsAreSerial | crates/casys_engine/src/lib.rs:119-128 | in every interleaving, while openings go behind the last segment, a branch reads as its batches, whole, in lock order, the last as far as written |
| CommitProtocol.OneWriter | crates/casys_engine/src/lib.rs:190-195 | no two threads write one branch at the same time |
| CommitProtocol.NothingIsOverwritten | crates/casys_storage_fs/src/wal.rs:76-97 | no step of such a run changes a record already written |
| CommitProtocol.WhenOpeningIsSafe | crates/casys_storage_fs/src/wal.rs:57-74 | opening past the highest number is always safe, opening by name exactly under the condition on the newest number |
| CommitOrder.CommitsAreSequential | crates/casys_engine/src/lib.rs:119-128 | in every interleaving with opening by name, safe or not, a branch whose lock is free holds exactly what committing its batches one after the other in lock order leaves |
| CommitOrder.BatchesAreLost | crates/casys_storage_fs/src/backend.rs:141-148 | so in every interleaving of commits that fit in a segment a free branch reads as its first ten batches and the latest one |
| CommitOrder.LosingRun | crates/casys_storage_fs/src/backend.rs:141-148 | for any twelve or more small batches there is a run of the interleaved protocol that grants them in order and loses all but these |
| Branches.FsBackend.PitrManifest | crates/casys_storage_fs/src/manifest.rs:96-112 | the loop finds the newest manifest not younger than the time asked for |
| Branches.FsBackend.LatestManifest | crates/casys_storage_fs/src/manifest.rs:87-94 | the latest manifest is the one whose file name comes last |
| Branches.FsBackend.CommitTx | crates/casys_storage_fs/src/backend.rs:141-148 | a commit through the file backend writes the records into the branch's log and adds the version the step function says |
| Branches.FsBackend.AppendRecords | crates/casys_storage_fs/src/backend.rs:175-189 | appending writes the branch's log and reports the position in the last file name |
| Branches.CompositeBackend.CommitTx | crates/casys_core/src/lib.rs:120-137 | the same through the composite backend, with the reported log position recorded |
| Branches.PastIsImmutable | crates/casys_storage_fs/src/backend.rs:112-148 | with a clock that never goes back, no run of steps from now on changes any branch as of an earlier time |
| Branches.VersionStays | crates/casys_storage_fs/src/backend.rs:112-148 | as of the time of a step, its branch shows the version that the step wrote, after any later steps none of which is about that branch in the same millisecond |
| Branches.BranchStartsAtSource | crates/casys_storage_fs/src/backend.rs:112-126 | a branch created at a time carries the segments and log position that its source's version of that time lists, after any later steps, also of the same millisecond while they are about other branches; one about the new branch replaces the version |
| Branches.WrittenVersionIs | crates/casys_storage_fs/src/backend.rs:112-148 | a new version has the segments and log position of the version it is based on, none when there is none: for a branch that of its source as of the time or the latest, for a snapshot or commit the latest of its branch; a commit through the composite backend has the reported log position instead |
| Branches.CommitReadsBack | crates/casys_storage_fs/src/backend.rs:141-148 | the records of a commit read back from the segments it opened up to the last one it wrote; every other file of the branch and the logs of all other branches are unchanged |
| Branches.BackendsAgree | crates/casys_core/src/lib.rs:96-142 | runs on the two backends leave the same logs, and the same versions with the same segments |
| Branches.FileBackendHasNoTails | crates/casys_storage_fs/src/backend.rs:112-148 | runs on the file backend never record a log position |
| Branches.LogsAreConsecutive | crates/casys_storage_fs/src/wal.rs:57-97 | in every run on either backend the segments of every branch's log are numbered without gaps |
| Branches.RecordedTailIsExact | crates/casys_storage_fs/src/backend.rs:175-189 | after any run, a commit through the composite backend records the position of the segment it wrote last exactly when that number has one digit or only nines before its last digit |
| Branches.LatestIsNewest | crates/casys_storage_fs/src/manifest.rs:62-112 | with timestamps of equally many digits the latest by name is the latest by time |
| Branches.NewestHasLastName | crates/casys_storage_fs/src/manifest.rs:83-94 | the newest manifest has the last name exactly when every timestamp is at most the newest's leading digits, as many as it has itself |
| Branches.LatestIsNewestExactly | crates/casys_storage_fs/src/manifest.rs:62-112 | the latest by name is the newest by time exactly under that condition on the timestamps |
| Branches.NameOrderMisleads | crates/casys_storage_fs/src/manifest.rs:83-94 | with versions 9 and 10 the latest by name is 9 |
| Recovery.WalStore.LogQuery | backend/src/infrastructure/workers/query_worker.py:153-202 | a mutating query is appended to the file of its second, any other leaves the log alone |
| Recovery.FindNearestSnapshot | backend/src/application/usecases/restore_database_pitr.py:218-240 | filtering and taking the maximum finds the first of the newest snapshots not younger than the target |
| Recovery.FindNearestBySorting | backend/src/application/usecases/preview_database_pitr.py:243-264 | sorting newest first and taking the head finds the same snapshot |
| Recovery.NearestIsNewest | backend/src/application/usecases/branching/create_branch.py:144-154 | that snapshot is in time, and no other one in time is newer |
| Recovery.FindWalFiles | backend/src/application/usecases/restore_database_pitr.py:316-361 | the selected files are exactly those whose second lies between snapshot and target, in order |
| Recovery.Restore | backend/src/application/usecases/restore_database_pitr.py:363-420 | the replay loops with the early return apply the specified mutations |
| Recovery.PreviewFile | backend/src/application/usecases/preview_database_pitr.py:161-192 | the per-file loop with its break applies the specified mutations |
| Recovery.Branch | backend/src/application/usecases/branching/create_branch.py:214-280 | the third copy of the loops applies the specified mutations |
| RecoveryTheorems.CopiesAgree | backend/src/application/usecases/preview_database_pitr.py:161-192 | the three copies replay the same mutations for every log the worker wrote, in whatever order its clock ran |
| RecoveryTheorems.FileCopiesAgree | backend/src/application/usecases/branching/create_branch.py:244-268 | for any file, preview and branch creation replay the same exactly when no late line without a query comes before a query that is in time |
| RecoveryTheorems.QueriesAre | backend/src/application/usecases/restore_database_pitr.py:392-405 | replay passes over lines without a query and over nothing else |
| RecoveryTheorems.MutatingExactly | backend/src/infrastructure/workers/query_worker.py:135-151 | a query is logged exactly when, after blanks and in any capitalisation, it begins with one of eight verbs |
| RecoveryTheorems.RecoveryIsExact | backend/src/application/usecases/restore_database_pitr.py:316-420 | replay onto the snapshot gives the history as of the target exactly when no mutation shares the snapshot's second on the wrong side |
| RecoveryTheorems.NearestSnapshotIsExact | backend/src/application/usecases/restore_database_pitr.py:218-240 | restoring from the nearest snapshot yields the database of the mutations up to the target, for every effect of mutations on databases, exactly when no mutation shares the snapshot's second on the wrong side |
| JobStores.RedisTransactionRepository.UpdateStatus | backend/src/infrastructure/transactions/redis_transaction_repository.py:98-127 | an update changes record and running index as specified, and nothing for unknown ids |
| JobStores.RedisMessageQueueService.DequeueTransaction | backend/src/infrastructure/queue/redis_queue_service.py:56-79 | the first undelivered message is delivered and marked as not acknowledged |
| JobStores.RedisMessageQueueService.AcknowledgeTransaction | backend/src/infrastructure/queue/redis_queue_service.py:81-86 | an acknowledged message is no longer pending and gone from the stream |
| Jobs.RunningSetIsExact | backend/src/infrastructure/transactions/redis_transaction_repository.py:40-127 | in every interleaving of operations the running index holds exactly the transactions with status RUNNING |
| Jobs.AckNeedsTerminal | backend/src/infrastructure/workers/query_worker.py:204-334 | a message is acknowledged only when its transaction exists with a terminal status |
| Jobs.AckIsFinal | backend/src/infrastructure/workers/query_worker.py:204-334 | after acknowledgement a transaction stays terminal and out of the running index in every continuation |
| JobRecords.StepWrites | backend/src/infrastructure/transactions/redis_transaction_repository.py:98-127 | a step leaves every record as it was, except that a start, completion, failure or cancellation writes status, count and error into the one of its transaction, for the same tenant and query, and a submission adds a pending one |
| JobRecords.RecordsAreSubmissions | backend/src/infrastructure/transactions/redis_transaction_repository.py:40-66 | in every run the records are those of the submitted transactions, with the tenant and query submitted, and each tenant's index lists exactly its transactions |
| JobRecords.SendKeepsNewest | backend/src/infrastructure/queue/redis_queue_service.py:30-43 | a message goes to the end of the stream, and a full stream loses its oldest entries, delivered or not |
| JobRecords.OldestFirst | backend/src/infrastructure/queue/redis_queue_service.py:56-79 | in every run a worker is given the oldest message not delivered yet, and none only when all have been |
| JobRecords.PendingIsExact | backend/src/infrastructure/queue/redis_queue_service.py:56-86 | in every run the pending messages are exactly those handed out and not acknowledged, and no acknowledged message is in the stream |
| JobRecords.CancelStops | backend/src/application/usecases/cancel_query.py:37-62 | a canceller gets through exactly when the transaction exists, has not ended and is not locked; its record then is FAILED as cancelled by the user |
| JobOutcomes.TerminalIsFinalExactly | backend/src/application/usecases/cancel_query.py:37-75 | in every reachable state a terminal status stays in every continuation exactly when no message is to come, no worker may still write the record and, unless it is FAILED, no canceller has looked and is yet to write |
| JobOutcomes.CancelIsFinalExactly | backend/src/application/usecases/cancel_query.py:54-62 | cancelling writes FAILED, and it stays exactly when no message is to come and no worker may still write the record |
| JobOutcomes.CompletesExactly | backend/src/infrastructure/workers/query_worker.py:204-334 | a transaction that is not COMPLETED, cancelled or not, can still end so exactly when a message is to come or a worker is still to run it |
| JobOutcomes.CancelledCompletes | backend/src/infrastructure/workers/query_worker.py:204-334 | a run from the start in which a transaction is cancelled while a worker has it and ends as COMPLETED |
| JobOutcomes.CancelledWhileWaiting | backend/src/infrastructure/workers/query_worker.py:204-334 | the same for one cancelled before its message is sent |
| JobOutcomes.CompletedIsCancelled | backend/src/application/usecases/cancel_query.py:44-62 | a run from the start in which a COMPLETED transaction turns FAILED |
| StatusCommands.ConsistentExactly | backend/src/infrastructure/transactions/redis_transaction_repository.py:98-127 | however the commands of any number of updates interleave, record and index are consistent at the end exactly when the update that writes the record last and the one that writes the index last agree on being RUNNING |
| StatusCommands.TwoUpdates | backend/src/infrastructure/transactions/redis_transaction_repository.py:98-127 | two updates leave them consistent exactly when both start or neither does, or neither runs entirely between the two commands of the other |
| StatusCommands.UpdatesMustNotInterleave | backend/src/infrastructure/transactions/redis_transaction_repository.py:98-127 | updates run one after the other leave record and index consistent, a terminal update between the two commands of a start does not |

## Left out

- Patterns that reuse a variable, and a chain behind another pattern in one MATCH, whose first scan the planner drops; the theorems cover one chain followed by standalone nodes with distinct names.
- Overflow of 64-bit integers in expressions, ids and sequence numbers; rounding of floating-point numbers, which are modelled as reals.
- AggregateTheorems.ComputedAlike: sums and averages are of reals; those of floating-point numbers can depend on the order of the rows in their last digits, and so can rows in `AggregateTheorems.GroupsIgnoreOrder`.
- Characters beyond ASCII in the lexer's character classes and in upper-casing.
- Float and other literal kinds in SDK expressions; lambda source inspection and query assembly in the SDK.
- JSON and file formats as text: JSON values are modelled, their text is taken to be exact.
- Conversion of result rows to columns, counters and timings in query results.
- Parameters of logged mutations, which replay does not pass on: the model replays query texts.
- Mutations whose execution fails during replay, and log appends that fail or lose their lock.
- Message redelivery: a crashed worker's message stays pending, as nothing claims it.
- Lock expiry, authorisation, caches, events and every network client of the backend.
- The wording of parser and lexer errors, which quote the offending token.
