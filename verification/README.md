# A verified model of the mini DBMS SQL API server

This project models the in-memory SQL engine and the concurrent HTTP server in front of it, and proves what
they promise: the B+ tree stays a B+ tree and is a map; index queries agree with row scans; the lock chosen
from the query text is enough for what the query does; concurrent execution is serialisable; no wakeup is lost
and no connection is lost; JSON strings survive the trip.

Run `dafny verify dfyconfig.toml` to check everything.

## How it is organised

- **B+ tree** (`src/core/bptree.c`). `BPTree.dfy` is the tree as code: a class over an arena of nodes (a node is
  named by its index, NULL is -1, allocation appends), each node with fixed key, value and child buffers that are
  shifted and overwritten, parent links, a leaf chain, splits and root growth. `TreeShape.dfy` states the invariant
  on what the nodes show. Each node carries a ghost *span*: its height and the key interval it answers for. The
  invariant is then local (node to span, node to children, node to parent, leaf to next leaf). Between a split and
  the parent's update the tree is *pending*: the left half still answers to the parent for both halves.
  `TreeSteps.dfy` proves that filling a leaf, splitting a leaf, filling an inner node, splitting an inner node and
  growing a root each lead from one such state to the next; the height of the tree above the split node is the
  termination measure of the cascade. `TreeOrder.dfy` draws the global conclusions, and `TreeGrowth.dfy` shows that
  every insertion has an outcome.
- **Table** (`src/core/table.c`). `Table.dfy` is the row array, the record heap and the index; `LeafWalk.dfy` follows
  the leaf chain slot by slot; `Records.dfy` holds the row-by-row meaning of a condition, which is the row scan of
  `benchmarks/cond10.c`.
- **SQL** (`src/core/sql.c`). `SqlText.dfy` has the cursor helpers, `Sql.dfy` the statements, their meaning (`Effect`,
  `Answer`) and the executor. Leading blanks make INSERT and SELECT syntax errors, and a failed end-of-statement test
  keeps its cursor, so a `;` before WHERE is accepted; both are in the model as they are in the code. `SqlGrammar.dfy`
  writes the language down as a grammar, independently of the parser, and proves that the parser accepts exactly it;
  `SqlTokens.dfy` does the same word by word. `SqlKinds.dfy` adds the languages of EXIT and of queries about unknown
  columns, so that every text is accounted for, and `SqlMeaning.dfy` says in plain comparisons which rows a text returns.
- **Classifier** (`src/server/db_server.c`). `Classifier.dfy` reads the same text for lock kind and index use.
- **Concurrent execution.** `ServerModel.dfy` is a transition system over any number of workers. An INSERT takes seven
  steps and leaves the node arena of the index arbitrary while the tree is being updated; a SELECT reads one row, or one
  node or slot of that arena, per step; nothing but the lock kind computed from the text keeps them apart.
  `IndexRead.dfy` is the reader of the arena: descent, leaf scan, walk along the chain, early stop. `Serial.dfy` proves
  serialisability; `Progress.dfy` that nobody gets stuck and every query can be answered; `Counters.dfy` that the metrics
  are conserved and count what they are named after. `DbServer.dfy` is one call and one HTTP request as code.
- **Request queue and worker pool** (`src/server/http_server.c`). `RequestQueue.dfy` is the ring buffer as code,
  `WorkerPool.dfy` the accept loop, condition variable and workers as a transition system, and `PoolRuns.dfy` what becomes
  of each connection and of a stop request, with the ring buffer tied to the system's queue. Try-lock and condition-wait
  behave as in POSIX.1-2017: a signal wakes at least one waiter if there is any, and waiters may wake spuriously.
- **JSON** (`src/server/api.c`). `Json.dfy` has the string escaper and parser, `JsonRows.dfy` the rendering of rows, and
  `JsonRead.dfy` a JSON reader of its own that recovers every row from what is sent.

Where documentation and code differ, the model follows the code: README.md:96 of the repository describes a "phase
gate" that keeps new readers from overtaking a waiting writer; the lock loop (src/server/db_server.c:135-160) has no
such mechanism, so none is modelled and no fairness is claimed.

## Results that needed a condition

- The JSON parser is not a full inverse of the escaper: control characters below 0x20 other than newline, carriage
  return and tab are written as `\u00XX`, which the parser refuses. `Json.RoundTrip` gives the exact condition,
  `Json.ControlCharacterIsRefused` a concrete string, and `Json.StandardReaderRecovers` shows that the escaper is not at
  fault.
- The index guess is exact for every SELECT that is answered with rows (`Classifier.GuessIsExact`). For refused queries
  it can say "index used" although nothing was executed (`Classifier.GuessWrongOnRefusedQuery`).

## Model

| member | source | states |
|---|---|---|
| TreeSteps.LeafFillKeeps | src/core/bptree.c:70-82 | putting an absent key into its place in a leaf with room keeps the whole tree invariant, including "first key of a non-leftmost leaf is its separator" |
| TreeSteps.LeafSplitPends | src/core/bptree.c:147-198 | splitting a full leaf leaves a tree that satisfies the invariant except for the one pending separator, with the chain already relinked |
| TreeSteps.PendingSlot | src/core/bptree.c:134-136 | a pending separator lies strictly between its neighbours at the slot of its left half |
| TreeSteps.DistinctKids | src/core/bptree.c:134-136 | no node occurs twice among the children of one node, so the slot search is unambiguous |
| TreeSteps.InnerFillKeeps | src/core/bptree.c:105-120 | a parent with room that absorbs the pending separator and right half gives back the full invariant |
| TreeSteps.InnerSplitPends | src/core/bptree.c:202-269 | splitting a full inner node turns a pending separator one level down into a pending separator at this level, all children re-parented to the half that holds them |
| TreeSteps.RootGrowKeeps | src/core/bptree.c:85-102 | a new root above the two halves of the old one gives back the full invariant, one level higher |
| TreeOrder.StoresFilled | src/core/bptree.c:70-82 | filling a leaf adds exactly the new pair to the stored map |
| TreeOrder.StoresSplit | src/core/bptree.c:160-192 | splitting a leaf adds exactly the new pair to the stored map and loses none |
| TreeOrder.StoresSameLeaves | src/core/bptree.c:202-269 | steps on inner nodes leave the stored map alone |
| TreeOrder.OneHome | src/core/bptree.c:29-50 | at every height at most one node is responsible for a key, in any settled tree |
| TreeOrder.LeafDecides | src/core/bptree.c:310-314 | the leaf responsible for a key alone decides whether the key is stored and with which value |
| TreeOrder.NodesWellFormed | src/core/bptree.c:126-270 | strictly sorted keys, 2-3 keys per non-root leaf, 1-3 per inner node, and parent links inverse to child links in both directions |
| TreeOrder.LeavesEquallyDeep | src/core/bptree.c:85-144 | any two leaves have the same number of parent links above them |
| TreeOrder.SeparatorIsLeast | src/core/bptree.c:187-198 | each separator equals the least key of the subtree on its right and exceeds every key on its left |
| TreeOrder.LeafChainComplete | src/core/bptree.c:194-196 | the next links run through the in-order leaves of the tree, every leaf exactly once, ending in NULL |
| TreeOrder.ChainListsMap | src/core/table.c:143-166 | walking the chain lists exactly the stored pairs in strictly increasing key order |
| TreeOrder.SubtreeSize | src/core/bptree.c:29-50 | a subtree of height h below the root holds at least 2^(h+1) keys |
| TreeOrder.HeightIsLogarithmic | src/core/bptree.c:29-50 | a tree with h >= 1 inner levels stores at least 2^(h+1) pairs |
| BPlusTree.FindInsertIndex | src/core/bptree.c:18-26 | the first position whose key is not below the given one |
| BPlusTree.ShiftIn | src/core/bptree.c:74-80 | shifting the tail of a buffer right and writing into the gap is insertion at that position, the rest of the buffer untouched |
| BPlusTree.MergeEntries | src/core/bptree.c:160-176 | the one-pass merge into the temporary array is insertion at the given position |
| BPlusTree.MergeInternal | src/core/bptree.c:214-233 | the temporary key and child arrays are the parent's with the new key and child inserted |
| BPlusTree.HalveInternal | src/core/bptree.c:235-267 | the halves take keys 0-1 and 3 with children 0-2 and 3-4; the new node inherits the parent link |
| BPlusTree.ScanLeaf | src/core/bptree.c:310-314 | finds the key among the live keys of a leaf, or reports that it is not there |
| BPlusTree.Tree.constructor | src/core/bptree.c:272-275 | an empty tree satisfies the invariant and stores nothing |
| BPlusTree.Tree.FindLeaf | src/core/bptree.c:29-50 | descent ends in the leaf responsible for the key, which decides membership and value; NULL only for the empty tree |
| BPlusTree.Tree.InsertIntoLeaf | src/core/bptree.c:70-82 | only the leaf changes, to the leaf with the pair inserted in key order |
| BPlusTree.Tree.CreateNewRoot | src/core/bptree.c:85-102 | the arena grows by a root with one key and two children, whose parent links are set |
| BPlusTree.Tree.InsertIntoInternal | src/core/bptree.c:105-120 | only the parent and the right child's parent link change, by insertion at the given slot |
| BPlusTree.Tree.FindChildSlot | src/core/bptree.c:134-136 | the scan stops at the slot of the left child |
| BPlusTree.Tree.Reparent | src/core/bptree.c:240-267 | exactly the listed children get the new parent link |
| BPlusTree.Tree.DistributeInternal | src/core/bptree.c:235-267 | the old node keeps the left half, a new node gets the right half, its children point to it, all else is unchanged |
| BPlusTree.Tree.SplitInternal | src/core/bptree.c:202-267 | the node arena after the split is the specified one and the promoted key is the middle one |
| BPlusTree.Tree.DistributeLeaf | src/core/bptree.c:178-196 | two keys stay, two move to a new leaf that is linked in right after the old one |
| BPlusTree.Tree.SplitLeaf | src/core/bptree.c:147-196 | the leaf and its new right sibling hold the merged pairs two and two; the separator is the sibling's first key |
| BPlusTree.Tree.InsertIntoParent | src/core/bptree.c:126-144 | from any pending tree the cascade terminates in a settled tree that stores the same map |
| BPlusTree.Tree.SplitInternalAndInsert | src/core/bptree.c:202-270 | from a pending separator at a full parent the cascade terminates in a settled tree that stores the same map |
| BPlusTree.Tree.SplitLeafAndInsert | src/core/bptree.c:147-199 | the tree is settled again and stores exactly one pair more |
| BPlusTree.Tree.FillLeaf | src/core/bptree.c:316-319 | the tree stays settled and stores exactly one pair more |
| BPlusTree.Tree.PlantRoot | src/core/bptree.c:296-306 | the first pair makes a settled one-leaf tree |
| BPlusTree.Tree.Insert | src/core/bptree.c:288-322 | an absent key is added and reported; a present key is refused and nothing changes; the invariant always holds |
| BPlusTree.Tree.Search | src/core/bptree.c:325-340 | the value the map holds for the key, or NULL |
| Records.SelectRange | benchmarks/cond10.c:93-132 | a row scan whose matches form one block of rows returns that block in order |
| Records.FirstWithId | src/core/table.c:248-262 | the first row with the id: no earlier row has it; -1 exactly when no row has it |
| LeafWalk.TreeWalk | src/core/table.c:143-166 | the chain of a settled tree can be walked slot by slot and lists the stored map |
| LeafWalk.LeftmostIsFirst | src/core/table.c:105-118 | the leaf reached through first children is the head of the chain |
| LeafWalk.LeafCut | src/core/table.c:357-362 | the slot found in the responsible leaf separates all smaller keys of the whole chain from all others |
| LeafWalk.SkipUpTo | src/core/table.c:364-376 | skipping stops at the first entry of the chain above the bound, or past the end |
| LeafWalk.SkipEmpty | src/core/table.c:377-382 | stepping over the end of a leaf keeps the position in the chain |
| Users.ResultBuffer.Append | src/core/table.c:29-51 | the contents grow by the new reference at the end, across array doublings |
| Users.CollectLeafChain | src/core/table.c:144-166 | returns all values of the chain from the given slot on, in order |
| Users.CollectWhile | src/core/table.c:391-409 | returns the longest prefix of the chain whose keys satisfy the comparison |
| Users.ListsRange | src/core/table.c:205-236 | a sorted listing of a map on the ids 1..n is 1, 2, ..., n with their values |
| Users.IndexAgrees | src/core/table.c:239-262 | index lookup and row scan give the same answer for every id |
| Users.Table.constructor | src/core/table.c:169-185 | the empty table is consistent |
| Users.Table.EnsureCapacity | src/core/table.c:8-26 | there is room for one more row and the rows are what they were |
| Users.Table.Insert | src/core/table.c:205-236 | the record gets the next id, the name (its first 63 characters if it is longer) and the age, and is appended to heap and rows; older records are untouched; the index never refuses; row i keeps id i+1, next_id stays size+1 and the index maps exactly those ids |
| Records.StoredName | src/core/table.c:223-224 | names shorter than 64 characters are kept, longer ones cut to 63 |
| Users.Table.FindById | src/core/table.c:239-245 | the first row with that id, found through the index |
| Users.Table.ScanById | src/core/table.c:248-262 | the first row with that id, found by scanning |
| Users.Table.CollectAll | src/core/table.c:299-305 | a fresh copy of all rows in order |
| Users.Table.ScanWhere | src/core/table.c:307-331 | the rows that satisfy the condition, in row order, in a fresh array |
| Users.Table.FindLeftmostLeaf | src/core/table.c:105-118 | the leaf without a lower bound; NULL only for the empty index |
| Users.Table.SeekFrom | src/core/table.c:356-382 | the position of the first entry above (or at least) the bound |
| Users.Table.FindFromId | src/core/table.c:356-389 | for > and >= the index returns exactly what a row scan returns, in the same order |
| Users.Table.CollectFrom | src/core/table.c:361-388 | from the leaf responsible for the bound on, the chain holds exactly what a row scan returns |
| Users.Table.FindToId | src/core/table.c:391-409 | for < and <= the index returns exactly what a row scan returns, in the same order |
| Users.Table.FindEqualId | src/core/table.c:346-354 | for = the index returns exactly what a row scan returns |
| Users.Table.FindByIdCondition | src/core/table.c:334-410 | for all five comparisons and every bound the index returns exactly the records, in the same order, of a linear filter of the rows; `SqlMeaning.IdConditionsMean` says which those are |
| SqlText.ToIntIsCast | src/core/sql.c:204-210 | every number that fits an int is kept, one that fits a long is kept modulo 2^32, one beyond becomes -1 or 0 |
| Decimals.DigitsOfDecimal | src/core/sql.c:204-204 | the digit loop reads back every printed number |
| SqlText.SkipSpaces | src/core/sql.c:93-97 | the cursor after the maximal run of blanks |
| SqlText.MatchKeyword | src/core/sql.c:100-118 | succeeds exactly when the word stands there up to letter case and ends at a token boundary |
| SqlText.ParseIdentifier | src/core/sql.c:133-162 | the maximal word at the cursor, refused when it does not fit the buffer |
| SqlText.ParseString | src/core/sql.c:165-191 | the text up to the next quote, refused when unterminated or too long |
| SqlText.ParseInt | src/core/sql.c:194-213 | the signed decimal at the cursor with its end position |
| Sql.ReadInsert | src/core/sql.c:277-297 | reads exactly the statement that the rest of an INSERT denotes |
| Sql.ReadValues | src/core/sql.c:299-327 | reads exactly the value list and the end of an INSERT |
| Sql.ReadSelect | src/core/sql.c:361-392 | reads exactly the statement that the rest of a SELECT denotes, unknown columns told apart from syntax errors |
| Sql.ReadFilter | src/core/sql.c:394-410 | the end of the statement or the WHERE after the table name, with the kept cursor after a `;` |
| Sql.ReadWhere | src/core/sql.c:412-421 | reads exactly the column and comparison after WHERE |
| Sql.ReadCondition | src/core/sql.c:423-461 | reads exactly the value that the column calls for, and the end of the statement |
| Sql.InsertRecord | src/core/sql.c:329-341 | the table gets the one new row and the answer names its id |
| Sql.SelectRows | src/core/sql.c:395-466 | the answer holds the matching rows in row order, NOT_FOUND exactly for an empty filtered result |
| Sql.ExecuteInsert | src/core/sql.c:265-342 | a text that starts with INSERT is answered and takes effect as its statement says; any other text does nothing |
| Sql.ExecuteSelect | src/core/sql.c:345-467 | a text that starts with SELECT is answered as its statement says; the table is never modified |
| Sql.Execute | src/core/sql.c:470-501 | result and new table are those of the statement the text denotes, for every text |
| Sql.Effect | src/core/sql.c:329-341 | only an INSERT changes the table, records and rows only ever get appended, and ids stay in step |
| SqlGrammar.InsertLanguage | src/core/sql.c:265-342 | a text is read as a given INSERT if and only if it is one of the spellings of that INSERT: any blanks, any letter case, any numeral for the age, an optional semicolon |
| SqlGrammar.SelectLanguage | src/core/sql.c:345-467 | a text is read as a given SELECT if and only if it is one of its spellings, a semicolon before WHERE included |
| SqlGrammar.InsertReads | src/core/sql.c:277-327 | every spelling of an INSERT is read as that INSERT, with its name and its age |
| SqlGrammar.SelectReads | src/core/sql.c:361-461 | every spelling of a SELECT is read as that SELECT, with its column, comparison and value |
| SqlGrammar.InsertBack | src/core/sql.c:277-327 | whatever is read as an INSERT can be taken apart into the words of the grammar |
| SqlGrammar.SelectBack | src/core/sql.c:361-461 | whatever is read as a SELECT can be taken apart into the words of the grammar |
| SqlGrammar.PlainSelectReads | src/core/sql.c:253-262 | blanks with a semicolon among them are accepted between table name and WHERE |
| SqlGrammar.ExpressibleExactly | src/core/sql.c:165-213 | the statements that some text denotes are exactly those with names of fewer than 64 characters without quotes and with numbers that fit an int |
| SqlTokens.IntRead | src/core/sql.c:194-213 | a numeral after blanks is read as its value, up to its end |
| SqlTokens.CloseRead | src/core/sql.c:253-262 | the end-of-statement test passes blanks and one semicolon, and stays behind them even when it fails |
| SqlKinds.CharacterClasses | src/core/sql.c:93-97 | blanks, digits, letters and word characters by their codes |
| SqlKinds.SameWordMeans | src/core/sql.c:100-118 | words are the same when they differ in letter case only |
| SqlKinds.BufferLimits | src/core/sql.c:133-191 | identifiers of up to 31 and string literals of up to 63 characters fit |
| SqlKinds.ExitLanguage | src/core/sql.c:470-485 | a text is EXIT if and only if it spells EXIT or QUIT, with blanks around and an optional semicolon |
| SqlKinds.UnknownLanguage | src/core/sql.c:365-432 | a text is refused as a query error if and only if it spells a SELECT that names an unknown column in its list or in its condition |
| SqlKinds.FiveKinds | src/core/sql.c:470-501 | every other text is a syntax error |
| SqlMeaning.IdConditionsMean | src/core/table.c:76-90 | WHERE id with each comparison returns exactly the rows whose number, counted from one, compares so, in row order, each once |
| SqlMeaning.AgeConditionsMean | src/core/table.c:307-331 | WHERE age with each comparison returns exactly the rows whose stored age compares so, in row order, each once |
| SqlMeaning.NameConditionMeans | src/core/table.c:307-331 | WHERE name returns exactly the rows with that stored name, in row order, each once |
| SqlMeaning.NoConditionMeansAll | src/core/table.c:299-305 | without WHERE all rows are returned in order |
| SqlMeaning.IdQueriesMean | src/core/sql.c:412-466 | the text `SELECT * FROM users WHERE id` with =, <, <=, > or >= and a number returns the rows that the symbol says |
| SqlMeaning.AgeQueriesMean | src/core/sql.c:412-466 | the same for a text about the age |
| SqlMeaning.NameQueryMeans | src/core/sql.c:423-466 | the text `SELECT * FROM users WHERE name =` with a quoted name returns the rows with that name |
| SqlMeaning.InsertQueryMeans | src/core/sql.c:265-342 | the text `INSERT INTO users VALUES` with a quoted name and a number stores exactly these under the reported id |
| SqlMeaning.ReportsMean | src/core/sql.c:329-466 | status, action, id and row count that go with each statement |
| SqlMeaning.SpelledInsertIsFound | src/core/sql.c:329-341 | whatever spells an INSERT of a name and an age stores exactly these, to be found again, and alone, under the reported id |
| Sql.InsertedIsFound | src/core/sql.c:329-341 | what an INSERT stores is found again, and alone, under the id it reported |
| Classifier.ClassifyQuery | src/server/db_server.c:87-106 | READ, WRITE or NONE by the first word after blanks |
| Classifier.GuessIndexUse | src/server/db_server.c:108-133 | the textual scan for WHERE and the identifier after it |
| Classifier.LockSuffices | src/server/db_server.c:87-106 | for every text: an executed INSERT was classified WRITE and an executed SELECT READ, so NONE never touches the table |
| SqlKinds.ClassifyMeans | src/server/db_server.c:87-106 | WRITE if and only if the first word after blanks spells INSERT, READ if and only if it spells SELECT, otherwise NONE |
| SqlKinds.GuessMeans | src/server/db_server.c:108-133 | the guess is 1 if and only if the first word spells SELECT and `id` follows the first WHERE after it |
| Classifier.LeadingBlanksRefused | src/core/sql.c:479-496 | a statement with leading blanks neither inserts nor selects, whatever lock it was given |
| Classifier.GuessIsExact | src/server/db_server.c:108-133 | for every SELECT answered with rows the guess is 1 exactly when the id index branch is taken |
| Classifier.GuessWrongOnRefusedQuery | src/server/db_server.c:121-132 | a concrete refused query for which the guess claims index use |
| IndexRead.ReadStarts | src/core/table.c:105-142 | a query by id may start on any index at rest |
| IndexRead.ReadAdvances | src/core/table.c:346-409 | on an index at rest no step of a query by id, slot by slot through descent, leaf and chain, leaves the arena or departs from the rows |
| IndexRead.ReadEnds | src/core/table.c:334-410 | what a query by id has collected when it stops is what a scan of the rows selects, for all five comparisons |
| IndexRead.HoldsOne | src/core/bptree.c:325-340 | an arena at rest stores one map only |
| IndexRead.OutcomeIndexes | src/core/table.c:226-233 | an insertion under the next id is never refused and keeps the index in step with the rows |
| IndexRead.ReadTerminates | src/core/table.c:346-409 | every query by id on an index at rest ends after finitely many steps |
| TreeGrowth.CascadeEnds | src/core/bptree.c:126-144 | from every pending separator the cascade ends in a tree at rest that stores the same map |
| TreeGrowth.GrowsByOne | src/core/bptree.c:288-322 | for every tree at rest and every absent key there is a tree at rest with one pair more |
| TreeGrowth.InsertionHasOutcome | src/core/bptree.c:288-322 | every insertion into an index at rest has an outcome |
| IndexRead.InsertInto | src/core/bptree.c:288-322 | the tree's own insertion has the outcome that the concurrent model assumes of it |
| Serial.InsertAdvances | src/core/table.c:212-234 | each of the seven stages of an INSERT leads to the next and the last one to the new table |
| Serial.SelectAdvances | src/core/table.c:307-410 | each step of a SELECT on a table at rest, by row scan or through the node arena, reads inside the table and sees that table only |
| Serial.ReleaseAnswer | src/server/db_server.c:304-309 | what a worker publishes is the sequential answer at its place in the lock order |
| Serial.AdvanceSelf | src/server/db_server.c:304-306 | an executor step touches the table only in the worker that holds the write lock |
| Serial.RecordsStay | src/core/table.c:205-236 | the records of an answered query are still in memory unchanged, at every stage of any later INSERT |
| Serial.StepKeepsInv | src/server/db_server.c:281-312 | every step of every worker keeps the serialisability invariant |
| Serial.Serialisable | src/server/db_server.c:281-312 | in every state of every run: no read outside the table or the index; each query that has given its lock back has the answer of a one-at-a-time run of such queries in lock order; the unlocked table is what that run leaves; and every response sent, with or without a lock, is the sequential answer |
| Serial.AnsweredOnce | src/server/http_server.c:372-389 | a query that took a lock has at most one response in every state, and exactly one when all workers are idle |
| Serial.OrderIsRealTime | src/server/db_server.c:295-306 | a query answered before another took its lock comes before it in the sequential order |
| Progress.NoWorkerStuck | src/server/db_server.c:281-312 | in every reachable state an idle worker can take any query; a running one can advance or release; a finished one can be counted, rendered and answered; a waiting one gets the lock whenever nobody is in the way, and can give up exactly when there is a timeout and a lock to wait for |
| Progress.EveryQueryCanBeAnswered | src/server/db_server.c:295-311 | from every reachable state some continuation without new queries makes all workers idle, with one response for each query in progress that had not timed out |
| Progress.ExecEnds | src/core/table.c:205-236 | every running executor, of an INSERT or a SELECT, can run to its end by its own steps |
| Progress.AnyServerCanStart | src/server/db_server.c:237-264 | a server can start with any workers and any timeout |
| Progress.ArenaMayBeAnything | src/core/bptree.c:147-270 | while the tree is being updated the model lets the arena hold anything |
| Progress.RequestsMayCome | src/server/db_server.c:333-365 | health, metrics and overflow requests may come at any time |
| Serial.TableChangesUnderWriteLock | src/server/db_server.c:135-168 | in every run the table changes only by steps of the write-lock holder |
| Serial.ResponsesAreSnapshots | src/server/api.c:443-462 | every response, of an INSERT, a SELECT with or without rows, or a refused query, carries the sequential answer to its text and shows the records as they stood under its lock; without a lock the answer is the same on every table |
| Serial.TimeoutTouchesNothing | src/server/db_server.c:295-302 | from the arrival of a query to the end of its timed-out call its worker only waits and holds no lock, and every change to table, lock, order and answers is another worker's |
| Counters.StepBalanced | src/server/db_server.c:170-210 | every step keeps the counter equations, and a decrement of `active` never meets zero |
| Counters.CountersBalance | src/server/db_server.c:333-365 | in every reachable state requests and errors add up by kind and `active` is the number of executions in flight |
| Counters.CountersCountEvents | src/server/db_server.c:170-210 | each of the eleven counters is the number of the events it stands for, in every reachable state |
| Counters.QueriesAccounted | src/server/db_server.c:281-312 | queries received = responses sent + timeouts + queries still with a worker, in every reachable state |
| DbServer.TryAcquireLock | src/server/db_server.c:135-160 | a query without a lock kind never waits; the loop ends in the first round whose try is granted or at whose end the elapsed time has reached a non-zero timeout, with the lock exactly when that try was granted |
| DbServer.CallIsCovered | src/server/db_server.c:289-291 | a call that changes the table was classified WRITE, and a row answer was classified READ with the right index flag |
| DbServer.CallSums | src/server/db_server.c:170-210 | one call, whatever its outcome, keeps the counter equations, counts one query and at most one error, and leaves nothing in flight |
| DbServer.Db.Execute | src/server/db_server.c:281-312 | times out exactly when the lock loop gives up, and then leaves the table alone; otherwise table and answer are those of the statement; the counters still add up and nothing stays in flight |
| DbServer.Context.NoteResponseComplete | src/server/http_server.c:296-304 | one more completed response, and a stop request exactly at the limit |
| DbServer.RoutesMean | src/server/http_server.c:340-407 | which method and path lead where, and the status of every route that runs no query |
| DbServer.StatusMeans | src/server/api.c:380-470 | an executed text is answered 200 if it is an INSERT or SELECT, found rows or not, and 400 otherwise |
| DbServer.Context.HandleQuery | src/server/http_server.c:372-389 | 503 exactly when the lock loop gave up, with the table unchanged; otherwise the statement's effect, and 200 exactly for an INSERT or SELECT, else 400 |
| DbServer.Context.HandleClient | src/server/http_server.c:330-408 | on every route exactly one response is counted, the counters still add up, only the three endpoints count as requests, and only a query can change the table |
| DbServer.Context.RefuseClient | src/server/http_server.c:602-606 | a connection that finds the queue full is answered 503, counted once as a response, a request and an error, and leaves the table alone |
| RequestQueue.Queue.Init | src/server/http_server.c:216-242 | a queue without room is refused, any other starts empty and open |
| RequestQueue.Queue.Push | src/server/http_server.c:262-276 | appends exactly when open and not full; otherwise the queue is unchanged |
| RequestQueue.Queue.Take | src/server/http_server.c:278-294 | removes the oldest socket, or reports none when closing and empty |
| RequestQueue.Queue.Shutdown | src/server/http_server.c:255-260 | closes the queue and keeps its contents |
| WorkerPool.SignalWakes | src/server/http_server.c:271-271 | a push signal leaves at least one more worker awake unless nobody slept |
| WorkerPool.StepKeepsInv | src/server/http_server.c:255-294 | every step of accept loop and workers keeps the pool invariant |
| WorkerPool.AwakeCanAct | src/server/http_server.c:410-428 | a worker that is neither asleep nor gone has a step to take, in every state that keeps the invariant |
| WorkerPool.NoWakeupLost | src/server/http_server.c:278-294 | in every reachable state, if anyone sleeps unsignalled then every queued connection has an awake worker of its own; a non-empty queue has a worker with an enabled step; after shutdown nobody sleeps |
| WorkerPool.PoppedInOrder | src/server/http_server.c:262-294 | pushed connections are popped in order, each exactly once |
| PoolRuns.PushDecides | src/server/http_server.c:262-276 | in every run a connection pushed while the queue has room is appended to it, one pushed while it is full is refused, and no other step adds to the queue |
| PoolRuns.RefusedOnlyWhenFull | src/server/http_server.c:600-607 | in every reachable state an accepted connection is absent from the queue's history if and only if it found the queue full |
| PoolRuns.PushClient | src/server/http_server.c:262-276 | the ring buffer's push is the push of the pool: same queue, same decision |
| PoolRuns.PopClient | src/server/http_server.c:278-294 | the ring buffer's take is the pop of the pool: same queue, same connection, same exit |
| PoolRuns.CloseToClients | src/server/http_server.c:255-260 | closing the ring buffer is leaving the accept loop |
| PoolRuns.StopMeans | src/server/http_server.c:296-304 | the stop flag is set if and only if enough responses were completed or a signal arrived |
| PoolRuns.ClosedOnlyAfterStop | src/server/http_server.c:584-610 | the queue is closed if and only if the loop has seen the stop flag or its wait failed |
| PoolRuns.StopEndsAccepting | src/server/http_server.c:584-596 | after a stop request at most one more connection is accepted |
| PoolRuns.PoolNeverHangs | src/server/http_server.c:584-613 | in every reachable state before the end someone has a step to take, and an orderly end can be reached |
| PoolRuns.AnyPoolCanStart | src/server/http_server.c:216-242 | a pool can start with any number of workers, room and limit |
| PoolRuns.AnythingMayHappen | src/server/http_server.c:278-294 | the model lets sleepers wake by themselves, stop requests come at any time and the wait for connections end in any way |
| WorkerPool.ConnectionsConserved | src/server/http_server.c:584-608 | accepted = completed + queued + being handled + in the accept loop's hand, in every reachable state |
| WorkerPool.CountedOnce | src/server/http_server.c:296-304 | a counted connection stays counted, and each counting step counts a connection not counted before |
| WorkerPool.ShutdownDrains | src/server/http_server.c:610-613 | after a normal shutdown the queue is empty and every accepted connection has been completed |
| WorkerPool.DrainIsBounded | src/server/http_server.c:410-428 | once shutdown is announced the workers have at most as many steps as there is work left, in any order |
| WorkerPool.DrainCanEnd | src/server/http_server.c:610-613 | from every state in which the accept loop joins, steps of the workers lead to the end |
| WorkerPool.DrainTerminates | src/server/http_server.c:410-428 | in every continuation of every run that has reached the join: worker steps are bounded, each worker that has not exited has an enabled step, and the end can still be reached |
| Json.EscapedLength | src/server/api.c:152-154 | the escape is at least as long as the input and at most six times as long |
| Json.EscapeAlloc | src/server/api.c:152-187 | the escape is written and terminated within the allocated buffer |
| Json.ReadString | src/server/api.c:44-93 | the parser's loop with its buffer limit computes the specified reading |
| Json.RoundTrip | src/server/api.c:44-93 | reading back an escaped string gives the string exactly when it fits and has no control character besides \n, \r, \t; otherwise it is refused |
| Json.ControlCharacterIsRefused | src/server/api.c:178-179 | the string with the one character 1 is escaped to a text that the parser refuses |
| Json.StandardReaderRecovers | src/server/api.c:152-187 | a reader following section 7 of RFC 8259 recovers every string from its escape, control characters included |
| Json.ParserAgrees | src/server/api.c:44-93 | on strings with the escapes it knows and without raw control characters the server's parser reads what section 7 of RFC 8259 says, as far as the buffer goes |
| Json.ParserAccepts | src/server/api.c:44-93 | the server's parser accepts no other escapes |
| JsonRows.BodyFits | src/server/api.c:422-464 | for any rows and names body and terminator fit the precomputed capacity |
| JsonRows.Print | src/server/api.c:451-459 | bounded printing: complete and terminated whenever it fits, earlier text untouched |
| JsonRows.ComputeCapacity | src/server/api.c:422-428 | the capacity is 160 plus six name lengths and 96 per row |
| JsonRead.RenderRows | src/server/api.c:435-468 | the body is complete and terminated, and a JSON reader finds in it, by name, the row count, the index flag and, for every row in order, its id, name and age |
| JsonRead.BodyReadsBack | src/server/api.c:435-464 | the body of any row set is read back as exactly that row set |
| JsonRead.RenderInsert | src/server/api.c:409-419 | the answer to an INSERT always fits its 256 bytes and is read back as the inserted id |

## Left out

- Allocation failure, and with it the half-changed leaf when a parent node cannot be allocated (src/core/bptree.c:179-198).
- Overflow of `next_id` and of the 64-bit counters: integers are unbounded except where an int is parsed or printed.
- BPlusTree.ShiftIn: node buffers are values inside the arena, so the in-place shift is proved on the buffer as a value; aliasing between nodes is excluded by the arena.
- BPlusTree.Tree.DistributeLeaf: the copy loops of the two halves run one after the other per buffer instead of interleaved; the final arena is the same.
- SqlText.ParseIdentifier: the executor's and the server's identifier scanners differ only in a length check that cannot fire, so one model serves both.
- SqlText.ParseInt: `strtol` is modelled with a 64-bit long, and the cast to int keeps the low 32 bits as GCC does.
- Serial.TimeoutTouchesNothing: clock and polling interval are abstracted to a free choice between polling on and giving up; `DbServer.TryAcquireLock` has the clock.
- DbServer.Db.Execute: speaks of calls whose lock loop ends; with timeout 0 a call may wait for ever, and nothing in the code prevents it.
- Error texts and codes, printing, and the `record` shortcut of a result: easy members.
- Linear scans for a single row by name or age (src/core/table.c:265-296), and the destroy functions: easy members.
- Sockets, `select`, signals, raw request reading, HTTP header parsing and the JSON object around the query string.
- Fairness and writer starvation: nothing in the code bounds waiting except the timeout, so what is proved is that an end can always be reached, not that every schedule reaches it.
- The thread-creation failure path, which sets the shutdown flag without a broadcast (src/server/http_server.c:544-560).
- Blanks between the tokens of a JSON text and surrogate pairs: the reader in `JsonRead.dfy` is for what this server writes.
- The command line program, server option parsing and benchmarks.
