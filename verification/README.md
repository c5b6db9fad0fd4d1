# SKVS, verified

SKVS is an in-memory SQL engine. This project models its core and proves
properties of it: undo-journal transactions, trigger cascades, secondary and
full-text indexes, constraints, the query fast paths, the placeholder counter,
the value order, the raw store and the JSON path functions.

## How it is built

One abstract state (`Store.State`: tables, schemas, row-id counters, index trees,
full-text indexes, triggers, undo journals) is shared by everything that writes.

* **Functions.** `Interpreter` executes INSERT, UPDATE and DELETE with their
  trigger cascades as functions from state to state. A statement that fails part
  way returns its error together with the state it leaves behind, because writes
  go live at once.
* **Objects.** `Engine.Kvs`, `Evaluation.Evaluator`, `FullText.FtsIndex` and
  `RawStore.Store` are classes whose methods change fields in loops, as the engine
  does. Each method is proved to compute the function of the same step, so the
  lemmas about the functions hold of the objects. The joins, ORDER BY and the JSON
  walks are methods with loops, proved the same way.
* **Runs.** `Runs.ExecRuns` turns every execution, with any cascade and any error,
  into a list of single steps, each of which is legal in the state it meets. The
  theorems about transactions, indexes and uniqueness are about all such lists.
* **Histories.** `Reachability` carries them to every state an engine gets into: from
  empty, by any requests of any transactions in any order, CREATE TABLE, CREATE
  INDEX, CREATE TRIGGER, and restarts from a snapshot.
* **The rest of the world.** Float arithmetic, the scalar function library, case
  folding, tokenising, float printing and the order in which a hash map is
  iterated are functions in `Externals.World`. The theorems hold for all of them;
  where one needs something of them (a scan visits each row once; different doubles
  print differently, which is asked only of floats that a 64-bit float can be) it says
  so in a `requires`, and `Externals.SomeWorld` shows that both can be had.

`dafny verify dfyconfig.toml` checks the whole project.

## What was found

Where the code does not do what its comments or documentation say, there is a
concrete input that fails, and the condition under which it does hold.

* README.md:68-71 and src/sql/select.rs:137-143 say a fast path never changes a
  result. An equality plan, whatever condition led to it, gives the scan's rows
  exactly when every selected row stores the column with a value Equal to the
  planned one: so `col = c` differs exactly when `c` is NULL and some row lacks the
  column, and `a = -b` looks up NULL. An inequality differs exactly when NULL would
  be in range and some row lacks the column; `col BETWEEN ? AND ?` looks between the
  first parameter and itself; a range that runs backwards panics on a tree that has
  ever held an entry; and an entry that a BEFORE trigger left behind makes a range
  return a row twice.
* The hash join differs from the nested loop exactly when some pair of rows is
  treated differently: two join values that are both NaN or are the two zeros, or a
  row without its join column, for which the nested loop reads the other table's
  column of that name. (For LEFT, exactly as far as right rows can be told from
  padding.)
* src/sql/select.rs:403-404 says that USING matches equal values. It never looks at
  them: it holds exactly when every column is a name that one of the two rows brings.
  NATURAL JOIN is CROSS JOIN.
* The padding of LEFT and FULL joins overwrites the left table's bare columns of
  the same name.
* Placeholders: a skipped `?` shifts the ones after it, and so does one that the
  evaluator never looks at, in `fts_match(t, ?)` or `CAST(? AS INTEGER)`; the static
  analysis that rules this out is exact for AND, OR, NOT and parentheses over
  comparisons of different columns, and sufficient otherwise. Every tuple of a
  multi-row VALUES starts over at the first parameter.
* UNIQUE is broken in two ways. A row is validated before its BEFORE triggers run:
  the write keeps the table unique exactly when no row that is there after them
  clashes with the new one. And a rollback validates nothing: it keeps the table
  unique exactly when no row it puts back clashes with another that it leaves, which
  fails when another transaction has taken a value that this one had freed.
* Rolling a transaction back takes other transactions' later writes to its rows with
  it: the tables are those of the schedule without it exactly when the others left
  each of its rows as it had found it.
* A stale captured row leaves index entries and full-text tokens behind, and wraps
  the full-text document counter (in a release build; a debug build panics).
* An indexed UNIQUE column is stricter than an unindexed one: 5 and 5.0 clash.
* DOCUMENTATION.md:191-203 says that indexes live in the raw store, that UPDATE and
  DELETE use them, and that range predicates fall back to a scan. In the code they
  are ordered maps in memory, only SELECT and the uniqueness check use them, and
  ranges do too. The model follows the code.
* An INSERT ... SELECT that finds nothing inserts one row of defaults.
* `json_set` does not strip the `$` that `json_extract` strips.
* A transaction id handed out again after 2^32 BEGINs replaces the journal of the
  transaction that still holds it.

## Model

| member | source | states |
|---|---|---|
| Values.CompareFlips | src/schema.rs:87-105 | swapping the operands of `compare` reverses its answer |
| Values.CompareEqualExactly | src/schema.rs:87-114 | two values compare Equal exactly when they are `==`, or one is NaN among numbers, or an integer rounds to the float |
| Values.RoundMonotone | src/schema.rs:94-100 | the conversion of i64 to f64 (nearest, ties to even) never reverses an order |
| Values.CompareTransitiveExactly | src/schema.rs:87-105 | `compare` is transitive on a triple exactly when NaN is not in the middle and no float sits between two integers that round to it the wrong way |
| Values.LawfulExactly | src/index.rs:24-36 | which sets of values are lawful BTreeMap keys and sort keys, in terms of such triples |
| Values.OrdinaryIsLawful | src/index.rs:24-36 | non-NaN values with integers up to 2^53 are lawful keys |
| Values.FloatFreeIsLawful | src/schema.rs:87-105 | values without floats are lawful keys whatever their integers |
| Values.IntransitiveWitness | src/schema.rs:94-100 | 2^53 + 1, 2^53 as a float and 2^53 break transitivity |
| ValueOrder.KindsInOrder | src/schema.rs:87-114 | NULL comes before numbers, numbers before texts, texts before blobs |
| ValueOrder.NumbersInOrder | src/schema.rs:93-100 | integers compare exactly, with floats after rounding, floats by their place on the extended real line; NaN is neither below nor above |
| ValueOrder.TextsInOrder | src/schema.rs:101-102 | texts and blobs compare lexicographically, a beginning before what it begins |
| ValueOrder.SameExactly | src/schema.rs:16-23 | `==` on floats is having the same place; other values are `==` only to themselves |
| ValueOrder.RoundExactly | src/schema.rs:94-100 | `i as f64` is the nearest multiple of the gap between doubles, ties to the even one, whatever the sign |
| OrderedIndex.AddWellFormed | src/index.rs:60-69 | adding keeps keys strictly ascending and id lists non-empty and duplicate-free |
| OrderedIndex.AddIds | src/index.rs:60-69 | after adding, a lookup sees the id exactly under the values Equal to its own |
| OrderedIndex.RemoveWellFormed | src/index.rs:71-85 | removing keeps the same, dropping a key whose list became empty |
| OrderedIndex.RemoveIds | src/index.rs:71-85 | after removing, a lookup misses the id exactly under the values Equal to its own |
| OrderedIndex.RangeMember | src/index.rs:162-187 | a range lists exactly the ids filed under keys in the range |
| OrderedIndex.RangeInOrder | src/index.rs:180-187 | and lists them entry after entry in key order, each with its ids in their order |
| OrderedIndex.BackwardsExactly | src/index.rs:180-187 | a range panics exactly when its lower bound lies above the upper one, or on it if both are excluded |
| Like.MatchesExactly | src/expr.rs:218-231 | a text matches a pattern exactly when it splits into one piece per pattern character, `%` any run, `_` one character (section 8.5 of ISO/IEC 9075:1992, no ESCAPE) |
| Placeholders.Consumes | src/expr.rs:53-88 | an expression found to be steady consumes exactly the placeholders of its text; one found full on an outcome does so on that outcome |
| PlaceholderMeaning.Meaning | src/expr.rs:93-177 | an aligned expression, with the counter at its slice, has the value of its text with every `?` replaced by its own parameter; placeholders in parts that are never evaluated are in the text and make it unaligned where others follow |
| PlaceholderMeaning.WhereConsumes | src/sql/select.rs:841-887 | the same count for a WHERE, whose AND and OR both stop early and whose fts_match reads nothing |
| PlaceholderMeaning.WhereMeaning | src/sql/select.rs:841-887 | an aligned WHERE, fts_match included, selects the rows that its textual substitution selects |
| PlaceholderMeaning.MisalignedWitness | src/sql/select.rs:843-850 | `(0 AND ?) OR ?` reads the wrong parameter |
| PlaceholderMeaning.FtsPlaceholderWitness | src/sql/select.rs:855-865 | `fts_match(docs, ?)` finds nothing where its text finds the row, and does not move the counter that counts one |
| PlaceholderMeaning.FtsShiftsWitness | src/sql/select.rs:849-865 | in `fts_match(docs, ?) OR a = ?` the second placeholder reads the query text |
| PlaceholderMeaning.CastShiftsWitness | src/expr.rs:86-175 | a placeholder in a CAST is neither counted nor read, and the next one reads its parameter |
| Alignment.AlignedExactly | src/sql/select.rs:841-887 | for AND, OR, NOT and parentheses over `c = ?` and `c = v` with different columns: the condition is aligned exactly when it selects as its text does on all rows and parameters |
| Alignment.Differ | src/sql/select.rs:843-850 | a row on which a refused condition and its text differ, with parameters 0, 1, 2, ... |
| Evaluation.Evaluator.Value | src/expr.rs:93-177 | the recursive evaluator that advances one counter computes value and counter of the function whose every case the Operators rows fix |
| Evaluation.Evaluator.AnyEqual | src/expr.rs:132-136 | the IN loop stops at the first equal item, leaving the counter there |
| Evaluation.Evaluator.FirstMatch | src/expr.rs:155-172 | the CASE loop evaluates the operand again for each WHEN and stops at the first match |
| Evaluation.Evaluator.Condition | src/sql/select.rs:841-887 | the WHERE walker, with its own AND, OR, NOT and fts_match |
| Operators.TruthyExactly | src/expr.rs:34-42 | false are exactly NULL, the zeros, the empty text and the empty blob |
| Operators.UnaryExactly | src/expr.rs:109-121 | NOT negates truth; minus turns the sign of a number, of zero too, and like plus leaves other values |
| Operators.MinusReverses | src/expr.rs:111-116 | minus reverses every comparison of numbers, integers and floats mixed |
| Operators.ComparisonsExactly | src/expr.rs:282-297 | each comparison evaluates left, then right, and states the fact about `==` or `compare` of the two values |
| Operators.ComparisonLaws | src/expr.rs:285-291 | `<>` negates `=`, `<=` negates `>`, `>=` negates `<`; of `<`, `=`, `>` at most one holds, and none exactly for values that compare Equal without being `==` |
| Operators.SidesSwap | src/expr.rs:285-291 | sides without placeholders may be swapped with the comparison |
| Operators.BetweenExactly | src/expr.rs:125-131 | three parts in turn, both bounds included, and its negation |
| Operators.BetweenIsConjunction | src/expr.rs:125-131 | without placeholders BETWEEN is the conjunction of two comparisons |
| Operators.ConnectivesExactly | src/expr.rs:261-280 | AND reads its right side only if the left is true, OR always |
| Operators.NullTestsExactly | src/expr.rs:123-124 | IS NULL tells NULL from every other value |
| Operators.LikeExactly | src/expr.rs:137-154 | LIKE and ILIKE hold exactly of texts that split along the pattern, in lower case for ILIKE |
| Operators.ColumnsExactly | src/expr.rs:95-106 | a column is looked up in the row, a qualified one by its whole name and then by its last part, and NULL otherwise |
| Operators.JoinDotsExactly | src/expr.rs:101 | the whole name is the parts joined with dots |
| Operators.LeavesExactly | src/expr.rs:197-202 | a placeholder reads the parameter at the counter, or NULL beyond the last, and moves the counter by one |
| Operators.CallExactly | src/expr.rs:346-355 | arguments are evaluated from left to right before the function is applied |
| Operators.InListExactly | src/expr.rs:132-136 | IN finds the first item that is `==`, and reads no item after it |
| Operators.CaseExactly | src/expr.rs:155-172 | simple and searched CASE have the result of the first WHEN that applies, else ELSE, else NULL |
| Operators.WhereExactly | src/sql/select.rs:841-854 | the WHERE walker skips the right side of AND and OR when the left one decides, and hands the rest to the evaluator |
| Operators.WhereIsTruth | src/sql/select.rs:841-887 | without placeholders and full-text search a WHERE selects exactly the rows of which its expression is true |
| Operators.FtsMatchExactly | src/sql/select.rs:855-882 | `fts_match` holds exactly when the row id is among what the search of the named table finds; other arguments find nothing |
| Operators.CastExactly | src/sql/select.rs:870 | the row id is compared as an unsigned number |
| Counting.CountExactly | src/expr.rs:53-88 | the engine counts every placeholder of the text but those in parts that it never looks at |
| Counting.SetCountExactly | src/sql/dml.rs:147-149 | so the WHERE of an UPDATE starts where its text does exactly when no SET expression hides one |
| Prepared.UpdateMeaning | src/sql/dml.rs:147-182 | SET and WHERE of an UPDATE read exactly their own slices of the flat list: state, outcome and cascade are those of the UPDATE with literals |
| Prepared.DeleteMeaning | src/sql/dml.rs:228-239 | the same for DELETE |
| Prepared.InsertMeaning | src/sql/dml.rs:46-58 | VALUES means each tuple with its placeholders read from the first parameter on |
| Prepared.MultiRowExactly | src/sql/dml.rs:47-57 | tuples of placeholders store the rows of their text exactly when every group of parameters repeats the first |
| Prepared.MultiRowWitness | src/sql/dml.rs:48 | `VALUES (?), (?)` with 1 and 2 inserts 1 twice |
| RowBuilding.DefaultsExactly | src/sql/dml.rs:84-94 | a supplied column keeps its value; a missing one gets the row id if it is an INTEGER PRIMARY KEY, else its default, else NULL; other columns stay as given |
| RowBuilding.AssignExactly | src/sql/dml.rs:164-181 | each column gets its last assignment, computed on the row as it was before the statement; the others keep theirs |
| RowBuilding.ConditionSeesRows | src/trigger.rs:27-38 | `OLD.c` and `NEW.c` in a trigger condition are the columns of the two rows |
| Offers.CandidatesExactly | src/sql/dml.rs:33-74 | the rows an INSERT offers: the i-th value of a tuple or answer under the i-th name of the list, or of the schema without one, the last for a name listed twice; one empty row if there is none |
| Offers.TupleExactly | src/sql/dml.rs:47-57 | a VALUES tuple is evaluated in order, without a row, from the first parameter on |
| Offers.ColumnsInOrder | src/sql/dml.rs:50-94 | columns stand in the order of the statement, the missing ones after them in that of the schema |
| Firing.ContextExactly | src/trigger.rs:26-37 | a trigger condition sees exactly the columns of the two rows, under `OLD.` and `NEW.` |
| Firing.FireExactly | src/trigger.rs:19-66 | a trigger fires exactly when event and timing fit and its condition holds on OLD and NEW; triggers in order, each in the state the one before left; unreadable ones end the statement |
| Firing.BodyExactly | src/trigger.rs:57-62 | a body runs statement by statement in the transaction of the firing statement, up to the first error, which is its own |
| Firing.InsertInOrder | src/sql/dml.rs:77-106 | validation, BEFORE triggers on a table without the row, the write, AFTER triggers on a table with it |
| Firing.UpdateInOrder | src/sql/dml.rs:164-195 | the same for UPDATE, with the captured row as OLD |
| Firing.DeleteInOrder | src/sql/dml.rs:241-251 | the same for DELETE, which validates nothing |
| Statements.CapturesExactly | src/sql/dml.rs:151-162 | a scan captures exactly the stored rows on which the WHERE evaluates to true, or all rows without one |
| Statements.DeleteExactly | src/sql/dml.rs:203-255 | without triggers a DELETE removes exactly the rows on which its WHERE evaluates to true, all without one, and reports how many |
| Statements.UpdateExactly | src/sql/dml.rs:117-201 | without triggers an UPDATE applies SET to the rows on which its WHERE evaluates to true, up to the first that fails validation in the state it meets; it succeeds exactly when none does, and otherwise reports that error |
| Statements.InsertExactly | src/sql/dml.rs:19-115 | without triggers an INSERT stores the offered rows under the next ids, up to the first that fails validation in the state it meets; it succeeds exactly when none does; the counter passes the failing row too |
| Statements.NothingSelectedInsertsDefaults | src/sql/dml.rs:59-74 | an INSERT ... SELECT that finds nothing stores one row of defaults under the next id exactly when that row passes validation |
| Statements.RefusedAtOnce | src/sql/dml.rs:28-31 | without the table, its schema, or rows to offer a statement changes nothing and says so |
| Validation.ValidateExactly | src/constraint.rs:13-111 | a row is accepted exactly when it fills its NOT NULL columns, takes no unique value or group that another row has, has its parent rows and makes its CHECKs true; otherwise the first of these in that order is reported |
| Validation.TakenInRows | src/constraint.rs:121-146 | on exact indexes a value is taken exactly when another row has it: compared with `==`, or by `compare` if the column has an index of its own |
| Commands.ControlExactly | src/sql/mod.rs:67-87 | BEGIN answers with a fresh active id, COMMIT ends an active one and touches nothing else, any other COMMIT or ROLLBACK is refused |
| Commands.NewTableExactly | src/sql/ddl.rs:14-120 | CREATE TABLE makes an empty table whose ids start at 1, or changes nothing if there is such a schema |
| Commands.FirstIds | src/state.rs:112-120 | so the first rows stored in it have the ids 1, 2, 3 and so on |
| Commands.NewIndexExactly | src/sql/ddl.rs:335-379 | when CREATE INDEX is refused, when it does nothing, and where the index joins the schema |
| Commands.NewTriggerExactly | src/state.rs:218-223 | a new trigger is the last of its table |
| Commands.RestoredCounter | src/wal.rs:307-341 | after a restart a table goes on right after its greatest id |
| FullText.AddAgrees | src/fts.rs:22-29 | indexing a new document keeps the index exact: postings, lengths, counter |
| FullText.RemoveAgrees | src/fts.rs:31-43 | removing an indexed document keeps it exact and does not run the counter below zero |
| FullText.MoveAgreesExactly | src/fts.rs:22-43 | replacing a document's entry by another keeps it exact exactly when an entry is taken out just if there is one and none of its tokens stays behind |
| FullText.SearchExactly | src/fts.rs:45-63 | a search finds exactly the documents with every query token, and nothing for an empty query |
| FullText.DoubleRemoveWraps | src/fts.rs:42 | removing a document twice wraps the counter |
| FullText.FtsIndex.AddDocument | src/fts.rs:22-29 | the loop over tokens computes the whole addition |
| FullText.FtsIndex.RemoveDocument | src/fts.rs:31-43 | the loop over tokens computes the whole removal, dropping empty sets |
| FullText.FtsIndex.Find | src/fts.rs:45-63 | the intersecting loop with its early exits computes the search |
| Runs.ExecRuns | src/sql/dml.rs:19-251 | every execution of a statement, with any cascade and any error, is a run of legal steps: each journaled row is the stored one or its id is journaled already, each insert uses an id the run has taken, each written row satisfies NOT NULL and CHECK, and where no cascade of a BEFORE trigger writes to the table it fires for, each passes in the state it meets the uniqueness checks and the foreign keys whose tables those cascades leave alone |
| Runs.RunKeeps | src/state.rs:112-120 | a run keeps all row ids, stored and journaled, below their counters, and leaves rows it has not journaled alone |
| Runs.RunKeepsFree | src/state.rs:112-120 | an id that is free and below the counters of a run's start stays free |
| Runs.NewIdIsFree | src/sql/dml.rs:78-100 | the id an INSERT took is still free after its BEFORE triggers |
| Reach.ExecLeaves | src/trigger.rs:9-66 | a statement changes no table and no index outside a set of tables that has its target and is closed under triggers |
| Reach.BeforeKeeps | src/trigger.rs:9-66 | BEFORE triggers none of whose cascades reaches the table leave its rows and indexes as they were |
| JournalBlind.ExecBlind | src/transaction.rs:64-68 | what a statement does to everything but the journals depends neither on them nor on the id it runs under, and an id that is not active records nothing |
| Cascades.DeeperIsTheSame | src/trigger.rs:52-60 | a statement whose cascade ends within a depth has the same result under every larger depth |
| Rollbacks.FirstEntryDecides | src/transaction.rs:100-132 | undoing a journal backwards leaves at each row id what its first entry says, and nothing else changed |
| Rollbacks.LegalRunRollsBack | src/transaction.rs:80-132 | any legal run followed by its rollback restores all row maps |
| Rollbacks.RollbackExact | src/transaction.rs:80-132 | BEGIN, any statements with any cascades and errors, ROLLBACK: every table has exactly its rows at BEGIN, the other journals are untouched |
| Rollbacks.AutocommitAtomic | src/sql/mod.rs:96-113 | a statement without a transaction id leaves all row maps as they were on an error and keeps all effects on success; after a write the active set is as before exactly when the id it took was not in use |
| Rollbacks.OnlyOwnJournal | src/transaction.rs:64-68 | a run writes to no journal but its own |
| Reachability.ServeSound | src/sql/mod.rs:44-114 | every request of anybody (BEGIN, COMMIT, ROLLBACK, a statement under an active id, under one that is not, or under none) keeps row ids in tables and journals below their counters and journals on existing tables |
| Reachability.SoundEverywhere | src/sql/ddl.rs:15-118 | so every state reached from empty by requests, data definition and restarts is in that order |
| Reachability.RollbackExactEverywhere | src/transaction.rs:80-132 | rollback is exact in each of them |
| Reachability.AutocommitAtomicEverywhere | src/sql/mod.rs:96-113 | and a statement on its own atomic |
| Reachability.CreateIndexComplete | src/sql/ddl.rs:335-379 | CREATE INDEX keeps all indexes complete and fills the new one |
| Reachability.CompleteEverywhere | src/index.rs:113-156 | while values are lawful, every index of every such state is complete |
| Interleaving.InterleavedRollback | src/transaction.rs:58-132 | for every interleaving of writes on disjoint rows, rolling one transaction back leaves the rows and journals of the schedule without it |
| Interleaving.InterleavedRollbackExactly | src/transaction.rs:58-132 | for every interleaving on any rows: the journals are always those of the schedule without it, the tables exactly when, for each row it wrote, the last later write of another transaction (if any) left the row that stood before its first write |
| Interleaving.RolledBackRow | src/transaction.rs:80-132 | what a rollback leaves at each row, owned or not, among other transactions' writes |
| Interleaving.UndisturbedIsFaithful | src/sql/dml.rs:151-188 | statements that take turns are faithful when nobody else writes a captured row between its capture and its own write |
| Interleaving.OthersKeepFaithful | src/sql/dml.rs:151-188 | a captured row stays the stored one through other transactions' writes to other rows |
| Interleaving.OverlapWitness | src/transaction.rs:100-132 | on a shared row, rolling one back takes the other's write with it |
| TransactionIds.EachEndsOnce | src/transaction.rs:58-88 | over any sequence of requests, while ids do not wrap, every id that has begun is active or has ended, none ends twice, and no ended id is active again |
| TransactionIds.ReusedIdForgets | src/transaction.rs:58-62 | BEGIN with an id still active forgets its journal: rolling back undoes nothing |
| Indexing.ChangeKeepsComplete | src/index.rs:113-148 | whichever row is taken out of an index, it still lists every live row |
| Indexing.ChangeKeepsExact | src/index.rs:113-148 | taking out the stored row keeps an index exact |
| Indexing.ChangeKeepsExactExactly | src/index.rs:113-148 | taking out a captured value keeps it exact exactly when the stored value is not left behind or is put back |
| Indexing.UndoKeepsComplete | src/transaction.rs:101-129 | every undo step keeps all indexes complete |
| Indexing.CompleteThroughout | src/transaction.rs:80-132 | after any run with stale captures, and after its rollback, all indexes are complete |
| Indexing.LookupNeverMisses | src/index.rs:152-156 | on a complete index an equality lookup finds every row whose first indexed column is `==` and lists none twice |
| Exactness.ConsistentThroughout | src/sql/dml.rs:187-192 | runs whose captured rows are the stored ones, and their rollbacks, keep secondary and full-text indexes exact |
| Exactness.ChangeKeepsFtsExactly | src/sql/dml.rs:298-305 | moving a row's full-text entry from a captured row to a new one keeps the index exact exactly when the captured text leaves no stored token behind |
| Exactness.SearchAgreesWithRows | src/fts.rs:45-63 | `fts_match` finds exactly the rows whose indexed column is a text with every token of the query, and nothing in other tables |
| Freshness.TameStatementIsFresh | src/sql/dml.rs:76-251 | a statement whose cascades never write to a table that a statement above them is working through is such a run, wherever it stops |
| Freshness.PlainStatementIsFresh | src/sql/dml.rs:76-251 | in particular one on a table without triggers |
| Uniqueness.IndexNotWeaker | src/constraint.rs:121-146 | the index branch of the uniqueness check finds whatever the scan branch finds |
| Uniqueness.IndexAsksForEqual | src/constraint.rs:134-139 | on an exact index it finds exactly the other rows whose value compares Equal |
| Uniqueness.CheckedColumn | src/constraint.rs:45-60 | a column that passes agrees with no other row |
| Uniqueness.CheckedGroup | src/constraint.rs:63-84 | a group that passes agrees with no other row |
| Uniqueness.UniqueThroughout | src/constraint.rs:33-84 | a transaction of any statements, with any cascades and errors, keeps every UNIQUE and PRIMARY KEY column and group unique, and so does its rollback, while nobody else writes and no BEFORE cascade writes to the table it fires for |
| UniqueHistory.UniqueEverywhere | src/constraint.rs:33-84 | every UNIQUE and PRIMARY KEY column and group is unique in every state reached from empty by any requests of any transactions, data definition and restarts, as long as BEFORE cascades leave their tables alone, values are lawful, and no transaction is rolled back after somebody else has written |
| UniqueHistory.AloneBase | src/transaction.rs:80-132 | while nobody else has written since its BEGIN, a transaction's rollback leads to tables that are unique |
| UniqueRollback.RollbackUniqueExactly | src/transaction.rs:100-132 | among other transactions, the rollback leaves a unique table exactly when no row it puts back clashes with another that it leaves |
| UniqueRollback.DisjointRollbackUniqueExactly | src/transaction.rs:100-132 | on disjoint rows: exactly when no row it has written, as it was at BEGIN, clashes with a row of the schedule without it |
| UniqueRollback.FreedValueWitness | src/transaction.rs:108-117 | one deletes a value, another inserts it validly, the first is rolled back: a UNIQUE column holds it twice |
| RowConstraints.RowConstraintsThroughout | src/constraint.rs:22-31 | a transaction of any statements, with BEFORE triggers that write as well, keeps every NOT NULL column of every stored row filled and every CHECK true when it is evaluated on that row, and so does its rollback |
| Guarantees.RowsGoodEverywhere | src/constraint.rs:22-31 | in every state reached from empty, every stored row fills its NOT NULL columns and makes its CHECKs true when evaluated on it, and so does every row that some rollback would put back |
| Guarantees.PlayGood | src/constraint.rs:22-31 | so they do after single writes of any transactions that take turns in any order |
| BeforeTriggers.BeforeTriggerWitness | src/sql/dml.rs:183-187 | one BEFORE trigger and one UPDATE put the same value into a UNIQUE column twice |
| BeforeTriggers.InsertUniqueExactly | src/sql/dml.rs:96-101 | with BEFORE triggers of any kind, the write of an INSERT keeps the table unique exactly when no other row that is there after them clashes with the new one |
| BeforeTriggers.UpdateUniqueExactly | src/sql/dml.rs:183-188 | the same for UPDATE |
| BeforeTriggers.OnlyTriggersClash | src/constraint.rs:33-84 | a row that clashes then is one the triggers have written since the check |
| Rebuilding.BuildExact | src/index.rs:98-111 | an index built by visiting rows is exact for the rows visited |
| Rebuilding.RebuildExact | src/index.rs:98-111 | rebuilding an index makes it exact and leaves the others alone |
| Rebuilding.CreateIndexExact | src/sql/ddl.rs:335-379 | CREATE INDEX covers existing rows at once, keeps the other indexes exact, and changes no row |
| Rebuilding.BuildFtsExact | src/wal.rs:391-406 | the full-text index built from restored rows is exact |
| Rebuilding.SnapshotRoundTrip | src/wal.rs:307-406 | loading a snapshot into an empty engine restores every table with its schema and full-text index, with exact indexes of both kinds and counters beyond every restored id |
| Rebuilding.SnapshotCopies | src/wal.rs:307-406 | whatever the values: tables, schemas, exact full-text indexes and counters |
| FastPath.FastEqualsScanExactly | src/sql/select.rs:144-196 | an indexed SELECT returns the rows of the scan, as a multiset, exactly when the index lists every selected row once |
| FastPath.ScanExactly | src/sql/select.rs:170-180 | a scan returns exactly the stored rows on which the WHERE evaluates to true, each once, with its id under `_rowid_` |
| FastPath.PlannedExactly | src/sql/select.rs:205-277 | an index is used exactly for `=`, the four inequalities and BETWEEN of a column that has an index of its own |
| FastPath.EqualityPlanExactly | src/sql/select.rs:150-161 | an equality plan, whatever condition led to it, gives the scan's rows exactly when every selected row stores the column with a value that compares Equal to the planned one |
| FastPath.RowBlind | src/sql/select.rs:205-277 | an expression without columns has the same value with any row as with none |
| FastPath.EqualityFastPath | src/sql/select.rs:260-277 | `col = c` in either orientation: the index path gives the scan's rows on any complete index, unless `c` is NULL and some row lacks the column |
| FastPath.EqualityFastPathExactly | src/sql/select.rs:150-161 | on an exact index that is the only exception |
| FastPath.RangeLists | src/index.rs:162-187 | a range of an exact index lists each row in it once |
| FastPath.RangePlanExactly | src/sql/select.rs:162-170 | a range plan that does not run backwards gives the scan's rows exactly when every selected row stores the column with a value in the planned range |
| FastPath.ComparisonFastPath | src/sql/select.rs:205-238 | the four inequalities in either orientation: exactly when NULL is not in the range or every row stores the column; their ranges never run backwards |
| FastPath.BetweenFastPathExactly | src/sql/select.rs:239-251 | BETWEEN with any bounds: its range runs backwards exactly when low exceeds the planned high; if it does not, the answers agree exactly when no row between the real bounds lies above the planned one or lacks the column |
| FastPath.BetweenFastPath | src/sql/select.rs:239-251 | with placeholders in at most one bound only rows that lack the column can differ |
| FastPath.TwoPlaceholdersWitness | src/sql/select.rs:242-245 | `BETWEEN ? AND ?` with 1 and 3 loses a row with 2 |
| FastPath.OtherColumnWitness | src/sql/select.rs:263-272 | `a = -b` is planned as a lookup of NULL and loses a row |
| FastPath.StaleRangeWitness | src/index.rs:180-187 | on an index that is only complete a range can list a row twice |
| StaleEntries.LeavesStaleEntry | src/sql/dml.rs:183-192 | one BEFORE UPDATE trigger and one UPDATE leave a row filed under a value it no longer has |
| StaleEntries.StaleRangeReached | src/index.rs:180-187 | after which `SELECT ... WHERE a > 0` returns that row twice |
| KeyStrings.KeyStringInjective | src/index.rs:40-48 | two values whose floats are doubles have the same key string exactly when they are identical |
| KeyStrings.KeyAgreesExactly | src/index.rs:40-48 | of such values key strings agree with `==` except on two NaNs and on the two zeros |
| KeyStrings.HexTextInjective | src/index.rs:46 | different byte strings have different hex texts |
| Joins.QualifiedNamesDiffer | src/sql/select.rs:346-348 | with dot-free table names a qualified name determines table and column |
| Joins.CombinedValues | src/sql/select.rs:363-368 | a combined row shows each join column under its qualified name exactly when its own row has it, whatever bare names the tables share |
| JoinedRows.MergeExactly | src/sql/select.rs:363-368 | what a combined row shows under every name |
| JoinedRows.PaddedExactly | src/sql/select.rs:379-393 | a left row without a partner shows NULL under every name the right table brings, and otherwise what it did |
| JoinedRows.RightOnlyExactly | src/sql/select.rs:608-615 | what a right row without a partner shows under every name |
| Joins.EquiJoinTests | src/sql/select.rs:432-460 | on a combined row the recognised condition is `==` of the two columns it reads, the qualified one or else the bare one |
| Joins.PairTest | src/sql/select.rs:363-388 | on two joined rows: `==` of each row's own column, or else the other row's column of that name, or else NULL |
| Joins.HashJoinIsNestedLoop | src/sql/select.rs:519-595 | if it treats all pairs of rows alike, for INNER and for LEFT with its padding the hash join returns the nested loop's sequence of rows |
| Joins.HashJoinExactly | src/sql/select.rs:519-595 | of all rows, with or without the join columns: INNER exactly when for every pair what the condition reads is `==` just when both have their column with identical values; LEFT if so, and only if so for the right rows that can be told from padding |
| Joins.CarriedExactly | src/sql/select.rs:519-595 | when all rows have the join columns, INNER and LEFT exactly when no two join values are both NaN or the two zeros |
| Joins.MissingColumnWitness | src/sql/select.rs:466-474 | a right row without the join column is lost by the hash join but matched by the nested loop |
| JoinChains.ChainIgnoresHashing | src/sql/select.rs:476-669 | a whole FROM chain gives the same sequence with and without hashing, if its first hop treats all pairs alike |
| JoinChains.HopAnswers | src/sql/select.rs:519-665 | each operator returns one row per owed origin, in loop order: INNER the pairs that satisfy the ON, LEFT, RIGHT and FULL also each unmatched row of the sides they keep, CROSS every pair |
| JoinChains.AnswersDecide | src/sql/select.rs:519-665 | which decides the rows, their order and how many there are |
| JoinChains.ChainExactly | src/sql/select.rs:476-669 | a whole FROM clause: each JOIN answers the rows before it, hashing included, and a missing table or unknown operator is an error |
| JoinChains.FromClauseDecides | src/sql/select.rs:476-669 | so a FROM clause has one result only |
| JoinChains.UsingExactly | src/sql/select.rs:401-409 | USING holds exactly when every column is a name that one of the two rows brings, whatever the values |
| JoinChains.UsingWitness | src/sql/select.rs:403-404 | rows with `x = 1` and `x = 2` are joined by USING (x) |
| JoinChains.NaturalIsCross | src/sql/select.rs:410 | NATURAL JOIN returns what CROSS JOIN does |
| JoinExecution.ExecuteHop | src/sql/select.rs:519-665 | one JOIN: by hashing where it may be, otherwise by nested loops |
| JoinExecution.HashByColumn | src/sql/select.rs:466-474 | each bucket holds the rows with that key string, in their order |
| JoinExecution.HashInner | src/sql/select.rs:521-539 | the probing loop of INNER |
| JoinExecution.HashLeft | src/sql/select.rs:552-575 | the probing loop of LEFT, with padding |
| JoinExecution.NestedLeft | src/sql/select.rs:576-594 | the nested loop of LEFT with its matched flag |
| JoinExecution.NestedRight | src/sql/select.rs:596-618 | the nested loop of RIGHT, right rows outside |
| JoinExecution.NestedFull | src/sql/select.rs:619-652 | FULL in one pass with a flag per right row is LEFT followed by one row per unmatched right row |
| JoinExecution.ExecuteJoins | src/sql/select.rs:476-669 | the loop over joins, hashing only the first, returns what its operators owe on the condition as evaluated |
| OuterJoins.RightIsInnerAndRest | src/sql/select.rs:596-618 | RIGHT is a permutation of INNER and one row per unmatched right row |
| OuterJoins.Sizes | src/sql/select.rs:540-652 | sizes are matching pairs, plus unmatched left rows for LEFT and FULL, plus unmatched right rows for RIGHT and FULL |
| OuterJoins.PaddingKeepsLeft | src/sql/select.rs:586-592 | a padded row keeps its left columns exactly when the padding has none of their names except where they are NULL |
| OuterJoins.RightOnlyShows | src/sql/select.rs:608-615 | an unmatched right row shows its columns under their qualified names and NULL under every left name |
| OuterJoins.SharedColumnWitness | src/sql/select.rs:379-393 | an unmatched row loses its bare column when both tables have it |
| OrderBy.SortRefines | src/sql/select.rs:791-801 | one stable sort refines whatever order the rows were in |
| OrderBy.OrderByExactly | src/sql/select.rs:788-803 | the sorts from last key to first permute the rows so that of any two the earlier has the smaller value under the first key on which they differ, the greater one if it is descending, and full ties keep their order |
| OrderBy.ApplyOrderBy | src/sql/select.rs:788-803 | the loop over the keys in reverse returns such an arrangement |
| RawStore.AnswersAsOneMap | src/state.rs:152-215 | for every sequence of put, get and remove, every choice of evicted keys and every failing write, `get_raw` answers as one map would |
| RawStore.PutSize | src/state.rs:152-179 | after a put memory exceeds the limit by exactly the writes that failed in it, so by nothing when none failed; without a limit nothing is evicted |
| RawStore.PutPlaces | src/state.rs:152-179 | after a put the new entry is in memory without a file, evicted ones in their files or, after a failed write, in memory still, and no other entry has moved |
| RawStore.Store.Put | src/state.rs:152-163 | the object's one map is updated; it stores, drops the stale file and evicts as many keys as there are too many |
| RawStore.Store.EvictToDisk | src/state.rs:165-179 | the eviction loop, for any keys it picks, leaves that map alone |
| RawStore.Store.Get | src/state.rs:198-206 | answers from that map |
| RawStore.Store.Remove | src/state.rs:208-215 | both tiers, and so that map, forget the key |
| JsonPaths.PathsAgreeExactly | src/json.rs:10-19 | `json_set` and `json_extract` read a path alike exactly when it is not empty and starts with neither `$` nor a dot |
| JsonTexts.SplitExactly | src/json.rs:19 | a path is split at all of its dots |
| JsonTexts.PathsRead | src/json.rs:10-19 | `json_extract` drops a leading `$` and a dot after it, `json_set` nothing |
| JsonTexts.PartsExactly | src/json.rs:22-24 | a 64-bit number in brackets is an index, other text in brackets an error, the rest a key |
| JsonTexts.ReadExactly | src/json.rs:124-137 | what each kind of JSON value is read as |
| JsonTexts.WrittenExactly | src/json.rs:139-159 | what is stored for each kind of SQL value |
| JsonTexts.SetFailsExactly | src/json.rs:78-120 | `json_set` fails at the first part that does not fit the node it meets, with the error for that part, and succeeds exactly when every part fits |
| JsonPaths.SetThenGet | src/json.rs:70-122 | after a successful set the value is at its path |
| JsonPaths.SetTwice | src/json.rs:70-122 | a second set gives the tree that it alone would have given |
| JsonPaths.SetElsewhereExactly | src/json.rs:78-101 | a path that diverges from the one set reads as before, except exactly a malformed index right where an object was created |
| JsonPaths.RoundTripsExactly | src/json.rs:124-159 | which values survive being stored as JSON |
| JsonPaths.JsonSetThenExtract | src/json.rs:6-47 | the same at the level of path text and SQL values |
| JsonPaths.JsonSetElsewhere | src/json.rs:6-47 | so is reading a diverging path |
| JsonPaths.DollarWitness | src/json.rs:12-13 | `$.a` is set under a key `$` and then read as NULL |
| JsonPaths.Extract | src/json.rs:19-46 | the loop that moves one pointer down |
| JsonPaths.Set | src/json.rs:77-120 | the walk that creates objects on its way down gives the recursive set's tree or error |
| Engine.Kvs.GetNextRowid | src/state.rs:112-120 | returns the counter and bumps it; counters start at 1 |
| Engine.Kvs.SetMinNextRowid | src/state.rs:125-129 | raises a counter, never lowers it |
| Engine.Kvs.BeginTransaction | src/transaction.rs:58-62 | a new id with an empty journal; ids wrap at 2^32 |
| Engine.Kvs.Journal | src/sql/dml.rs:13-17 | an entry is appended only under an active id |
| Engine.Kvs.CommitTransaction | src/transaction.rs:72-77 | drops the journal, or refuses an id that is not active |
| Engine.Kvs.SyncIndexes | src/index.rs:113-148 | the loops over a table's indexes update each one |
| Engine.Kvs.RangeLookup | src/index.rs:162-187 | the loop collects ids in key order |
| Engine.Kvs.SyncFullText | src/sql/dml.rs:298-305 | old content out, then new content in |
| Engine.Kvs.UndoOne | src/transaction.rs:101-129 | undoing one entry, with both kinds of index |
| Engine.Kvs.RollbackTransaction | src/transaction.rs:80-132 | ends the id and undoes its journal from the last entry to the first |
| Engine.Kvs.FireTriggers | src/trigger.rs:9-66 | fires a table's triggers in order and stops at the first error |
| Engine.Kvs.CaptureRows | src/sql/dml.rs:151-162 | copies the rows that the WHERE selects, and only those, before anything changes |
| Engine.Kvs.ExecuteInsert | src/sql/dml.rs:19-115 | the whole INSERT, row by row |
| Engine.Kvs.ExecuteUpdate | src/sql/dml.rs:117-201 | the whole UPDATE over the captured rows |
| Engine.Kvs.ExecuteDelete | src/sql/dml.rs:203-255 | the whole DELETE over the captured rows |
| Engine.Kvs.Execute | src/sql/mod.rs:44-114 | transaction control, and a transaction of its own around a write without one |
| Engine.Kvs.ClearAndRebuild | src/index.rs:98-111 | the loop that refills a cleared index |
| Engine.Kvs.LoadTable | src/wal.rs:307-341 | schema, rows, greatest id, counter and indexes of one restored table |
| Engine.Kvs.RefillFullText | src/wal.rs:391-406 | the full-text index of one restored table, row by row |
| Engine.Kvs.Load | src/wal.rs:307-406 | a whole snapshot: all tables, then the full-text indexes |

## Left out

- SQL text: statements, expressions and trigger conditions start from syntax trees; CHECK texts are expressions.
- Trigger bodies: textual substitution of OLD and NEW is any function from the two rows to statements.
- Cascade depth: the code has no bound; the model stops at a given depth with an error, and Cascades.DeeperIsTheSame shows that a finished cascade does not depend on it.
- DDL: CREATE TABLE, CREATE INDEX and CREATE TRIGGER are modelled; ALTER, DROP and views are not, nor is a trigger body that contains DDL. (DROP TABLE under an open transaction leaves its journal entries behind, and a table created anew counts from 1.)
- Restarts: from a snapshot of tables, schemas, triggers and full-text tables; the log that is replayed after it is not modelled.
- Statements that take turns: a turn says at which moment its row was captured; their interleaving inside a statement is any sequence of such turns.
- One database: journals carry no database id; a transaction begun in one database and used in another is not modelled.
- FOREIGN KEY: Validation.ValidateExactly says what is checked on write; no theorem about stored rows, since deleting a parent is not checked.
- Integer width: `i64` overflow (unary minus of the smallest integer) and `u64` row ids are not bounded in the model; transaction ids wrap as in the code, and the full-text counter as release-build arithmetic does (a debug build panics).
- Floats: a float is a real number, an infinity, negative zero or NaN; arithmetic on floats is not interpreted. Where it matters (texts of floats) only doubles are spoken of; all NaNs are one.
- SELECT: GROUP BY, aggregates, DISTINCT, LIMIT, projection, views and comma-separated FROM lists are not modelled; a SELECT inside a cascade or an INSERT is any function of its parameters and of the data (tables, schemas, indexes, full-text indexes, scan order), but not of views.
- ORDER BY with an unlawful order: `sort_by` leaves it unspecified, so OrderBy.OrderByExactly requires key values from a lawful set.
- BTreeMap and `sort_by`: library code, modelled as functions with the behaviour their documentation gives; a range that runs backwards panics only on a map that has ever held an entry, which the model does not track.
- Joins: rows without a join column are covered where no column is named like its qualified name (`t.c`); table names have no dots.
- Alignment.AlignedExactly: comparisons of different columns with `=`; for other expressions the analysis is sufficient and not shown to be necessary.
- JSON text: parsing and printing of documents, and base64, are not interpreted; the laws are about trees.
- JsonPaths.Set: the mutable pointer into the tree is a path with the node it leads to, since a tree is a value here.
- Overflow files: deleting one that exists is assumed to succeed; file names are keys, their hex texts being injective (KeyStrings.HexTextInjective).
- Full-text ranking (`search_with_rank`) is not modelled.
- Threads: whole row writes interleave; races inside a write are not modelled.
- Replication, the WAL writer, configuration, the native interface and the HTTP server are not modelled.
