# A verified model of ddbsh's query compiler and write loops

ddbsh takes SQL statements and talks to DynamoDB. This project models, in Dafny,
how it compiles a WHERE clause and what its executors do with the result, and
proves that the compiled requests mean what the clause means.

* A WHERE clause is a mutable tree of AND, OR and predicate nodes with `negate` and
  `paren` flags (`LogicalExpression.dfy`, a class tied to the values of
  `Expressions.dfy`), built by flattening factories (`Clauses.dfy`).
* `Where.dfy` chooses between GetItem, Query and Scan; `Access.dfy` states the rule it
  implements and `SingleItem.dfy` what the one-item statements are worth.
* The tree is cut into a key condition and a filter, or into the condition of a
  per-item write. `Splitting.dfy` proves when the parts mean the whole, `Enforcing.dfy`
  when the condition of a write alone still enforces it, `Reader.dfy`
  that the printed text is read back to the same meaning under the service's
  precedence (NOT over AND over OR), and `SymbolTable.dfy` that aliasing loses nothing.
  Text is a sequence of lexical pieces; the spelled characters appear where the
  in-memory client splits them again.
* `Updates.dfy` follows SET and REMOVE lists from the statement to how the service reads
  them. `Requests.dfy` and `Planner.dfy` build the requests through one symbol table each,
  and `Reads.dfy` says exactly when the service accepts a planned read.
* `Service.dfy` is the service: a keyed store other writers share, which evaluates the
  request texts, pages its reads arbitrarily and may fail. `BulkWrites.dfy`,
  `BulkExact.dfy`, `Explain.dfy`, `Executors.dfy`, `Insert.dfy`, `Select.dfy`,
  `Sending.dfy` and `Statements.dfy` are the UPDATE, DELETE, INSERT, SELECT and EXPLAIN
  loops over it.
* `RateLimiter.dfy` is the token bucket of WITH RATELIMIT; `Results.dfy` the result-set
  walker; `Prepared.dfy` placeholder expansion, `Lexer.dfy` the scanner and
  `Literals.dfy` what is read where a value was filled in; `KeyConditionParser.dfy` and
  `MemoryClient.dfy` the in-memory client, which parses key conditions back from text.

Predicates are uninterpreted: the results hold whatever the leaves mean, as long as
a leaf depends on the value of its own attribute only. "Spine" is the part of the tree
with only conjunctions above it.

## What the code does not do

Proving the results showed where the code falls short of its comments. The code is
modelled as it is. With each shortfall below come the lemma that says exactly when it
does not happen and a lemma on a small clause, as the parser builds it, on which it does.
The small clauses named without a module are in `Shortfalls.dfy`.

* A Query is planned that the service rejects: a key condition takes one test for each key
  attribute, no NOT and no `<>`. The planner lets through `p = a AND s <> b`
  (`UnequalSortKey`; only the lexeme `!=` is turned into a negated `=`,
  src/expressions/logical_comparison.hpp:31-37), `p = a AND NOT s < b`
  (`NegatedSortKey`, :97-102) and `p = a AND s > b AND s < c` (`SortKeyTwice`). A planned
  read is accepted exactly when `Reads.QueryReady` holds (`Reads.AcceptedExactly`), and
  then selects exactly what the clause says (`Reads.AcceptedMeans`).
* A negated conjunction with only conjunctions above it is cut in two like any other
  (src/expressions/logical_and.hpp:155-172), and the two texts then mean something else
  (`Splitting.SplitExact`, `CutNegation`). In a Query that is rejected. The condition of a
  per-item write is cut as well (:123-141), and then rows may be read and left alone
  (`CutMissesItems`). A run that nobody disturbs affects exactly the rows it read that pass
  the condition (`BulkExactness.BulkWriteExact`, `Statements.StatementExact`). Those are all
  the clause selects, in every store and whatever the predicates mean, exactly when the
  condition follows from the clause (`Enforcing.KeptExactly`,
  `BulkExactness.KeptHitsExactly`), and for a Query of the table always.
* Where cuts are nested, a bulk write can go to a row that the clause no longer holds of
  (`CutTwiceIsUnsafe`). On a row that was read because the clause held of it, whatever
  becomes of it, the condition enforces the clause exactly when nothing slips
  (`Enforcing.EnforcedExactly`, `BulkWrites.SeenVouchesExactly`): no conjunction under an
  odd number of NOTs has a child that can hold while its part fails, beside another that
  is about more than the key. A Query of the table never slips.
* A parenthesised AND with nothing on one side prints `()` there
  (src/expressions/logical_and.hpp:137, :168), which the service rejects
  (`Splitting.SolidExactly`). `DELETE ... WHERE (p = a AND s = b)` is one such (`GroupedKey`).
* `NOT a IS NOT NULL AND NOT b IS NOT NULL` splices two negated conjunctions into one
  (src/expressions/logical_and.hpp:47) and means something else (`Clauses.BuildExact`,
  `Clauses.SpliceExample`).
* `SELECT ... WHERE NOT (p = a AND s = b)` is sent as a GetItem, for exactly the item that
  the clause excludes (`NegatedGetItem`): the probe does not look at a NOT around the
  conjunction (src/expressions/where.hpp:50-59). A GetItem returns what the clause selects
  exactly when there is none (`SingleItem.GetItemMeaning`).
* UPDATE prefixes an unparenthesised OR with `attribute_exists(pk) AND `
  (src/execute/update_executor.cpp:84); it can then create an item
  (`BulkWrites.UpdateCreatesExactly`, and for a whole run `UpdateCreates`).
* The condition of a per-item write drops every top-level comparison, BETWEEN and
  begins_with on a key, not only the equalities the comment names
  (src/expressions/logical_comparison.hpp:81-85). After an enumerating read those hold
  already. A write addressed by the clause's own key can go to an item the clause does not
  hold of (`DroppedRangeWrites`); key and condition enforce the clause exactly as
  `Enforcing.SingleWriteSafe` says, and are equivalent to it exactly when only equalities
  were dropped, none of them under a NOT (`SingleItem.SingleWriteExact`).
* The in-memory client stores under the schema's key order and looks up in name order:
  an item just put is found exactly when the hash name comes first
  (`MemoryClients.PutThenGet`).
* It plans a Query with `<>` like the real one, and then finds nothing at all
  (include/ddbsh/testing/memory_client.hpp:570-585); with one
  test for each key attribute it finds what it should exactly when none is a `<>`, or one
  of them passes no value (`MemoryClients.PlannedQueryExact`, `UnequalFindsNothing`).
* A bound string next to another string, bound or of the statement, runs into it
  (`PreparedStatements.Rescan`, `PreparedStatements.TouchingMerge`).
* A bound value is to be read back from its literal (src/connection/connection.cpp:42-44).
  But the parser leaves a doubled quote doubled (src/parser/ast.hpp:40-42), so that a
  string with a quote arrives with two (`Literals.QuoteDoubled`); a string that looks like
  a time stamp is a token of its own, which is no value (`Literals.StampRefused`); and a
  number that is no number lexeme is read as something else. It is read back exactly when
  it has none of these (`Literals.ReadsBack`). A minus before a placeholder and a negative
  number make a comment (`Literals.MinusComments`); placeholders that stand alone are read
  as their values (`Literals.ExpansionReads`).
* `SET a = if_not_exists("", 1)` prints nothing after the `=`, since the empty name is taken
  for none (src/execute/update_executor.cpp:26), and is rejected. The update expression is
  read as what the statement says exactly when there is no such default
  (`Updates.UpdateReads`, `Updates.DefaultFails`).

## Model

| member | source | states |
|---|---|---|
| Clauses.MakeMeans | src/expressions/logical_and.hpp:45-62 | after a splice, an append or a wrap the tree evaluates to the conjunction (disjunction) of the two, unless both are negated, unparenthesised lists of the same kind |
| Clauses.NegatedSpliceShows | src/expressions/logical_or.hpp:50-60 | for any two such trees without a common predicate there is a valuation on which the spliced tree is wrong |
| Clauses.MakeOccs | src/expressions/logical_and.hpp:45-62 | the factories keep every predicate, in order, and whether an OR stands above it |
| Clauses.MakeCounts | src/expressions/logical_and.hpp:64-86 | leaf counts and key counts add up under AND; nothing under an OR counts as a key equality |
| Clauses.MakeKeepsShape | src/expressions/logical_or.hpp:50-67 | the factories keep lists of two or more, keep ORs under ANDs grouped when given bare-OR-free operands, and keep "every negated list is a paren group" |
| Clauses.BuildShape | src/parser/grammar.yy:1900-1968 | every tree the parser's actions build has the shape the other results ask for |
| Clauses.BuildMeans | src/parser/grammar.yy:1900-1968 | the tree means the clause, unless two negated IS NOT NULL stand side by side in an AND |
| Clauses.BuildExact | src/parser/grammar.yy:1900-1968 | for clauses that write no predicate twice it means the clause exactly when there is no such pair |
| Clauses.SpliceExample | src/expressions/logical_and.hpp:47-55 | the smallest such clause, with the item it gets wrong |
| LogicalExpressions.LogicalExpression.Make | src/expressions/logical_and.hpp:45-62 | the in-place factories, on owned nodes, give the tree of MakeAnd or MakeOr and take over both operands |
| LogicalExpressions.LogicalExpression.Splice | src/expressions/logical_and.hpp:49-53 | moves all children of another list to the end, in order, keeping ownership disjoint |
| LogicalExpressions.LogicalExpression.Negate | src/expressions/logical_expression.hpp:108 | toggles the flag of this node only |
| LogicalExpressions.LogicalExpression.SetParenGroup | src/expressions/logical_expression.hpp:109 | marks this node, and nothing else, as a paren group |
| LogicalExpressions.BuildTree | src/parser/grammar.yy:1900-1968 | the parser's actions on the heap give, for any clause, one new owned tree that is the built one |
| LogicalExpressions.LogicalExpression.Count | src/expressions/logical_and.hpp:64-70 | the number of predicate occurrences |
| LogicalExpressions.LogicalExpression.CountLhs | src/expressions/logical_or.hpp:77-83 | the number of occurrences with this left-hand side |
| LogicalExpressions.LogicalExpression.CountGudKey | src/expressions/logical_and.hpp:80-86 | the number of non-negated equalities on it with no OR above |
| LogicalExpressions.LogicalExpression.GetGudKey | src/expressions/logical_and.hpp:88-95 | the first such equality of each key attribute, as a key |
| LogicalExpressions.LogicalExpression.QuerySafe | src/expressions/logical_or.hpp:133-152 | true exactly when every occurrence is legal for the plan's keys, none of them under an OR |
| LogicalExpressions.LogicalExpression.Serialize | src/expressions/logical_expression.hpp:76-78 | prints and mints in one pass what printing and then aliasing left to right gives |
| LogicalExpressions.LogicalExpression.PartText | src/expressions/logical_expression.hpp:80-103 | the same for the part of the tree on one side, empty exactly when there is none |
| LogicalExpressions.LogicalExpression.JoinParts | src/expressions/logical_and.hpp:155-172 | the join loop prints the kept children with separators between them and mints only for those |
| Splitting.SplitMeaning | src/expressions/logical_and.hpp:155-172 | the two parts together mean the tree when no negated conjunction has something on both sides |
| Splitting.SplitExact | src/expressions/logical_and.hpp:155-172 | and, for a tree without repeated predicates, only then |
| Splitting.SolidExactly | src/expressions/logical_and.hpp:137-139 | a generated text has no empty group exactly when every paren group with only conjunctions above it has something on its side: for key condition, filter and per-item condition alike |
| Enforcing.NothingSlips | src/expressions/logical_and.hpp:123-141 | where nothing slips, what is left for the condition enforces the tree on any item with the same key as one the tree was seen to hold of; the same for a tree seen to fail; predicates may be repeated |
| Enforcing.EnforcedExactly | src/expressions/logical_and.hpp:123-141 | and, for a tree without repeated predicates, only there: the condition enforces a tree that was seen to hold under the same key exactly when nothing slips |
| Enforcing.KeptExactly | src/expressions/logical_and.hpp:123-141 | every item the tree holds of passes the condition, whatever the predicates mean, exactly when nothing is dropped under an odd number of NOTs from a conjunction of which something is kept |
| Enforcing.AvoidingKeeps | src/expressions/logical_and.hpp:123-141 | where no negated conjunction holds anything dropped, the condition follows from the tree and nothing slips |
| Splitting.HeldExactly | src/expressions/logical_and.hpp:123-141 | the condition alone stands for the tree, wherever the tree was seen to hold with the same dropped predicates, exactly when no negated conjunction is cut |
| Access.OnceByCounts | src/expressions/where.hpp:72-76 | the two counts are 1 exactly when the attribute is mentioned once, by a key equality |
| Wheres.Where.PlanQuery | src/expressions/where.hpp:69-102 | a plan is returned exactly when the declarative rule holds for some number of sort keys, and it is the plan with that number |
| Access.PlannedIs | src/expressions/where.hpp:77-101 | the rule fixes the number of sort keys: the returned prefix is the set of all that are mentioned |
| Access.PlannableExactly | src/expressions/where.hpp:69-102 | a Query is planned exactly when each partition key is mentioned once and by an equality, as is every sort key before another mentioned one, and every mention of a key attribute is a comparison that is no negated `=`, or on a sort key a BETWEEN or begins_with without a NOT, with no OR above it |
| Access.SingleKeyReduction | src/expressions/where.hpp:61-68 | for one partition key and at most one sort key the rule is the original scalar test, whether the tree mentions the sort key or not |
| Access.LeafConservation | src/expressions/where.hpp:77-101 | on any plan each predicate lands in exactly one of key condition and filter, in order; the first mentions only plan keys, the second no attribute of the whole schema |
| Access.QueryMeaning | src/expressions/where.hpp:131-139 | on any plan without empty groups, key condition and filter together select what the clause selects exactly when no negated conjunction is cut |
| Wheres.Where.CanGetItem | src/expressions/where.hpp:50-59 | the probe, on the occurrences of the tree |
| Wheres.Where.CanUpdateItem | src/expressions/where.hpp:106-120 | the probe of the single write, on the occurrences of the tree |
| SingleItem.GetItemExactly | src/expressions/where.hpp:50-59 | a clause is a GetItem exactly when it is an equality on the key, or two on its two attributes, in either order, in one AND, negated or not |
| SingleItem.SingleWriteExactly | src/expressions/where.hpp:106-120 | a write goes to one key exactly when the clause gives each key attribute once by an equality with no NOT of its own and no OR above it |
| SingleItem.GetItemIsFullKey | src/expressions/where.hpp:50-59 | a GetItem clause could also be planned as a Query, and its key has exactly the full key's attributes |
| SingleItem.GetItemMeaning | src/expressions/where.hpp:122-129 | it holds of an item exactly when the item has that key (no negated conjunction on the spine) |
| SingleItem.GudTrueIsKeyMatch | src/expressions/logical_and.hpp:88-95 | all key equalities hold of an item exactly when it matches the key they give |
| SingleItem.ConditionConserves | src/expressions/logical_comparison.hpp:76-87 | the condition of a per-item write has all predicates of the tree in order, but the comparisons, BETWEENs and begins_withs on a key attribute that have no NOT of their own and no OR above |
| SingleItem.SingleWriteMeaning | src/expressions/logical_and.hpp:123-141 | key and condition of a single write together mean the clause, when only equalities were dropped and no negated conjunction holds one |
| SingleItem.SingleWriteExact | src/expressions/logical_comparison.hpp:76-87 | and, for a tree without repeated predicates, only then |
| Enforcing.SingleWriteSound | src/expressions/logical_and.hpp:123-141 | they imply the clause whenever no choice of values for its dropped and kept predicates makes it false beside true key equalities and a true condition, negated conjunctions cut or not |
| Enforcing.SingleWriteSafe | src/expressions/logical_comparison.hpp:76-87 | and, for a tree without repeated predicates, only then |
| Reader.ReadBack | src/expressions/logical_expression.hpp:76-78 | the printed text, read with NOT over AND over OR and BETWEEN's own AND, means what the tree means, when every OR directly under an AND is grouped or negated |
| Reader.ReadableExactly | src/expressions/logical_and.hpp:98-112 | a pruned tree's text is read at all exactly when it has no empty group, and then means the tree |
| Symbols.SymbolTable.NewAttribute | src/expressions/symbol_table.cpp:10-32 | the split loop aliases a path segment by segment, as the recursive specification does |
| Symbols.SymbolTable.NewSegment | src/expressions/symbol_table.cpp:34-42 | a segment keeps its subscript verbatim |
| Symbols.SymbolTable.NewBare | src/expressions/symbol_table.cpp:44-53 | a repeated name keeps its first token, a new one takes the next number |
| Symbols.SymbolTable.NewValue | src/expressions/symbol_table.cpp:55-59 | every value takes a new token |
| Symbols.SymbolTable.GetNames | src/expressions/symbol_table.cpp:61-67 | the inverted table, which loses nothing |
| Symbols.EncodeDecodes | src/expressions/symbol_table.cpp:10-59 | a text aliased while the table was growing is decoded by any later state of the table to the original paths and values |
| Symbols.EncodeKeys | src/expressions/symbol_table.cpp:44-67 | the tables define exactly the tokens used, and what was there before |
| Symbols.DecimalInjective | src/expressions/symbol_table.cpp:45-56 | different counters give different token numbers |
| Planner.PlanSelect | src/planner/select_planner.cpp:180-252 | GetItem before Query before Scan, and the request whose texts were minted projection first, then key condition, then filter |
| Planner.BuildWriteRead | src/execute/write_common.hpp:118-165 | the enumeration read projects the base-table key whatever index it runs on, and is the Query or Scan of the plan |
| Planner.SerializePaths | src/execute/write_common.hpp:97-106 | the projection text, minted in order |
| Planner.SerializeUpdate | src/execute/update_executor.cpp:21-75 | the SET or REMOVE expression, minted in order as it is printed; Updates.UpdateReads says what it means |
| Planner.MakeWriteRequest | src/execute/update_executor.cpp:51-97 | the per-item template: update, then guard, then residual condition, through one table; Statements.TemplateMeans says what it asks for |
| Updates.UpdateReads | src/execute/update_executor.cpp:21-75 | from the assignments and paths of a statement, through what the parser keeps of them and what is printed, the service reads back just these: target, operand, operator and value, or the paths, in order; exactly when no default is for the attribute called "" |
| Updates.DefaultFails | src/execute/update_executor.cpp:26-30 | and an assignment with such a default is not read at all |
| Requests.ReadRequestDecodes | src/planner/select_planner.cpp:210-251 | every token of a planned Query or Scan is defined, every definition used, and each text decodes to the projection and the clause's two parts; it goes to the table and index, with the consistency and capacity, asked for |
| Requests.GetRequestDecodes | src/planner/select_planner.cpp:190-205 | the projection of a GetItem decodes with its names, all of which are used |
| Requests.WriteRequestDecodes | src/execute/update_executor.cpp:51-97 | the same for update expression and condition of a write |
| Requests.UpdateIsMeant | src/execute/update_executor.cpp:51-97 | the aliased update expression means to the service what the statement says |
| Requests.PutRequestDecodes | src/execute/insert_executor.cpp:38-60 | the condition of an INSERT is that the partition key is not there |
| Requests.JudgePart | src/expressions/logical_and.hpp:155-172 | the service takes a part for what it means, or rejects it when it prints an empty group |
| Reads.KeyPartLegal | src/expressions/logical_comparison.hpp:61-67 | the printed key part is a legal key condition exactly when, in the clause, each key attribute is tested once, without `<>`, no NOT reaches a key predicate, and each group has something for the key |
| Reads.AcceptedExactly | src/expressions/where.hpp:131-141 | a planned read is accepted exactly when that holds and each group has something for the filter; a Scan always |
| Reads.AcceptedMeans | src/expressions/where.hpp:131-141 | an accepted read selects exactly what the clause says, with or without negated conjunctions |
| Reads.QueryTextsExact | src/expressions/where.hpp:131-139 | the decoded and re-read texts of a Query are accepted and select what the clause selects exactly when the clause is ready for it |
| BulkWrites.GraftMeans | src/execute/update_executor.cpp:77-86 | what `attribute_exists(pk) AND ` in front of the printed condition means: it binds to the first alternative only |
| BulkWrites.ConditionJudged | src/execute/update_executor.cpp:77-89 | what the service makes of the condition text of any per-item write |
| BulkWrites.SameKeyAgrees | src/expressions/logical_comparison.hpp:81-85 | items with the same key agree on every predicate on a key attribute, and all that is dropped from the condition is one |
| BulkWrites.SeenVouches | src/execute/update_executor.cpp:243-260 | where nothing slips, an item the clause was seen to want vouches for its key: whatever becomes of it, if it passes the condition the clause wants it |
| BulkWrites.SeenVouchesExactly | src/execute/update_executor.cpp:243-260 | and, for a clause without repeated predicates, only there: for all items with one key and every meaning of the predicates |
| BulkWrites.CoveredIsKept | src/expressions/where.hpp:131-141 | a Query that the service accepts and whose keys cover the key of the table has a condition that follows from the clause and enforces it |
| BulkWrites.WriteVerdict | src/execute/update_executor.cpp:77-89 | a per-item write of an existing item is rejected exactly when a group is empty, else goes through exactly when the item passes the condition; with a key that vouches and a condition that follows from the clause, exactly when the full clause holds of it |
| BulkWrites.UpdateCreatesExactly | src/execute/update_executor.cpp:77-86 | UPDATE creates an item exactly when the clause is an unparenthesised OR of which a later alternative holds of nothing |
| BulkWrites.BulkWriteIsSafe | src/execute/update_executor.cpp:194-285 | where nothing slips, or the read covers the key of the table, or read or condition is rejected: whatever other writers do between page reads and item writes, each item changed or removed satisfies the full clause at that moment, and UPDATE creates none unless the clause is a bare OR |
| BulkExactness.BulkRunBalanced | src/execute/update_executor.cpp:243-274 | every successful bulk run reports read = modified + ccf, and one returned item per modification when items were asked for |
| BulkExactness.BulkRunAccounts | src/execute/update_executor.cpp:243-274 | and its report is the account of its writes: their number, those that went through with what each gave back in order, and those that failed their condition |
| BulkExactness.BulkWriteExact | src/execute/update_executor.cpp:194-285 | undisturbed, on the table or through an index, and given turns enough for its pages and writes, a run ends and removes (DELETE) or updates once, from what it was (UPDATE, UPSERT), exactly the items the clause selects, of those the index shows, that pass the condition, for every paging and for Query and Scan; it reports the selected as read, these as modified, the others as ccf, which is 0 exactly when there are none |
| BulkExactness.KeptHitsExactly | src/expressions/logical_and.hpp:123-141 | in every store and whatever the predicates mean all selected items pass, exactly when the condition follows from the clause |
| BulkExactness.BulkWriteRejected | src/expressions/logical_and.hpp:137-139 | with an empty group in its condition, or an unreadable update, a run changes nothing, and fails at its first write if the clause selects anything |
| Explains.ExplainIsFaithful | src/execute/update_executor.cpp:194-293 | given the same pages, the requests shown by EXPLAIN are those a successful run sends, in order: all for UPDATE, the first read and the writes for a DELETE that scans |
| Explains.ExplainOnlyReads | src/execute/delete_executor.cpp:134-201 | EXPLAIN sends nothing but reads and writes nothing |
| Explains.QueryDeleteExplained | src/execute/delete_executor.cpp:118-131 | EXPLAIN DELETE of a Query shows that Query and sends nothing |
| Explains.RunIssues | src/execute/delete_executor.cpp:160-236 | a successful run reads on to the page that carries no last key, and no further; it sends one read per page with the cursor of the page before, and one write per row |
| Executors.PrefixSource.Next | src/session.cpp:47 | hands out the prefix of the counter and advances it by one |
| Executors.PrefixRepeats | src/expressions/prefix.hpp:36-45 | two prefixes are equal exactly when their counters differ by a multiple of 52 cubed |
| Executors.WriteMetered | src/execute/update_executor.cpp:255-273 | limit, write, charge on success: the write itself, no request sent in debt, and each charged once for what it cost |
| Executors.RunBulk | src/execute/update_executor.cpp:194-285 | the paged loop with its cursor, counters and limiter does what the run over the world specifies, and ends |
| Executors.ExplainBulk | src/execute/update_executor.cpp:194-254 | the explaining loop does what its specification says |
| Executors.ExplainMany | src/execute/delete_executor.cpp:134-158 | a DELETE shows its Query and does not run it, or its Scan once |
| Executors.Execute | src/execute/delete_executor.cpp:64-244 | a whole UPDATE, UPSERT or DELETE: template from the first prefix, single write or bulk read from the second, the outcome or the explain blocks; the limiter has the rates of the statement, and between any two writes, and any two reads, the units charged are at most the rate times (time + 1 second) |
| Sending.StatementRequests | src/execute/write_common.hpp:118-165 | whatever happens, every request a statement sends or explains goes to its table, reads through its index and not consistently, asks for capacity exactly when metered, is an UpdateItem or a DeleteItem, a Query or a Scan as planned, and has tokens of its own prefix |
| Inserts.ExecuteInsert | src/execute/insert_executor.cpp:62-113 | a whole INSERT or REPLACE: rows of a wrong length stop it before anything is sent; rows are put and reported one by one up to the first failure, with charge and limit after each; rates and pace as for Execute |
| Inserts.RowIs | src/execute/insert_executor.cpp:36-40 | the item of a row has the columns for attributes, each with the value in its place |
| Inserts.InsertExact | src/execute/insert_executor.cpp:87-112 | undisturbed, a REPLACE puts all its rows, and an INSERT puts its rows in order up to the first whose key is taken, in the table or by a row before it, and fails there; one line comes out for each row put, with its verb and, if asked for, the item that the row replaced, and nothing else changes |
| Inserts.LandingAt | src/execute/insert_executor.cpp:87-112 | under each key is then the last of these rows with it, or what was there |
| Inserts.ExplainInsert | src/execute/insert_executor.cpp:115-145 | EXPLAIN INSERT shows the request of every row |
| Inserts.InsertExplained | src/execute/insert_executor.cpp:115-145 | these are the requests, with the same prefixes, of a run that puts every row; nothing is sent |
| Sending.InsertRequests | src/execute/insert_executor.cpp:38-60 | whatever happens, one request is sent for each row that is put, in order, and one for the row that fails: the item of that row, to the table, asking for capacity exactly when metered, for an INSERT with the condition that the partition key is not there, by a token of a prefix of its own |
| Statements.StatementIsSafe | src/execute/update_executor.cpp:99-293 | safety of whole statements as compiled and aliased, by key or in bulk, with conditions on the clause alone |
| Statements.QueryIsSafe | src/execute/write_common.hpp:118-165 | nothing is asked of a bulk statement whose read is a Query of the table |
| Statements.QueryIsKept | src/execute/write_common.hpp:118-165 | and, when it is accepted, what its clause selects passes the condition |
| Statements.StatementExact | src/execute/delete_executor.cpp:115-243 | an undisturbed statement without a full key, on the table or through an index, is rejected and changes nothing exactly when its clause is not ready for its Query or its condition, or its update is unreadable; else it ends, changes as it says, or removes, exactly the items its clause selects, of those the index shows, that pass the condition, and reports read, modified and ccf; none fails when the condition follows from the clause, nor for a Query that covers the key |
| Statements.TemplateMeans | src/execute/update_executor.cpp:51-97 | the writes of a statement ask for the change it says, and are taken exactly when that and the condition can be read |
| Statements.QueryCovers | src/expressions/where.hpp:77-101 | a Query of the table covers its key |
| Statements.WantedHasKey | src/expressions/where.hpp:104-115 | an item satisfies a clause that gives a full key exactly when it has that key and passes the condition |
| Statements.SingleStatementExact | src/execute/update_executor.cpp:128-166 | a DELETE, UPDATE or UPSERT with the full key is rejected and changes nothing when a group is empty or its update unreadable; else it goes through exactly when the item under that key passes the condition or, without an item, when it is no UPDATE and nothing at all passes; then the item is removed, changed or made as it says and modified = 1 reported, with the item if asked for, else ccf = 1 and nothing changes; an item that is there is changed exactly when the clause selects it, where the key stands for what was dropped |
| Statements.StatementExplained | src/execute/delete_executor.cpp:134-243 | EXPLAIN of a whole statement consumes the same prefixes as the run, writes nothing, and shows its requests |
| Statements.ReadIsAccepted | src/execute/write_common.hpp:118-165 | the read a statement plans is accepted exactly when its clause is ready for it |
| SelectRuns.SelectItems | src/execute/select_executor.cpp:108-159 | the page loop collects items and capacity as specified, and no request is sent in debt |
| SelectRuns.ExecuteReads | src/execute/select_executor.cpp:92-159 | at the rates of the statement, and paced by them |
| SelectRuns.SelectReports | src/execute/select_executor.cpp:22-55 | a SELECT that ends has read to the page without a last key, from the cursor of the page before each, and returns the rows of its pages in order and the sum of the units of those that carry any |
| SelectRuns.SelectExact | src/execute/select_executor.cpp:108-159 | undisturbed, and given turns enough for its pages, an accepted SELECT ends and returns each selected item once, in key order, and no other, for every paging and on an index too |
| SelectRuns.SelectStatementExact | src/planner/select_planner.cpp:206-252 | a Query or Scan as planned is rejected exactly when the clause is not ready for its Query, else returns exactly the items the clause selects |
| SelectRuns.GetItemFinds | src/expressions/where.hpp:50-59 | the item under the key of a GetItem is all that its clause selects from any table, unless the clause is a negated conjunction: then it is the only item that it does not select |
| RateLimiters.SpentIsCovered | src/execute/rate_limiter.cpp:47-55 | units consumed never exceed rate times elapsed plus initial minus remaining tokens |
| RateLimiters.WindowBound | src/execute/rate_limiter.cpp:47-83 | between two requests at most rate times (time + 1 second) is spent, and up to any later moment the cost since the second more |
| RateLimiters.RateIsKept | src/execute/rate_limiter.cpp:47-83 | the same in terms of what each request was charged |
| RateLimiters.RateLimiter.ReadLimit | src/execute/rate_limiter.cpp:57-70 | ends, having only refreshed, with a bucket that is not in debt unless its rate is zero, and sleeps no longer than the rate takes to repay the debt |
| RateLimiters.RateLimiter.WriteLimit | src/execute/rate_limiter.cpp:72-83 | the same for writes |
| RateLimiters.RateLimiter.RefreshBuckets | src/execute/rate_limiter.cpp:47-55 | refills both buckets by the elapsed time, capped at one second of credit |
| KeyConditionParser.ParseKeyCondition | include/ddbsh/testing/memory_client.hpp:465-539 | the index loops split and parse as the specification over fields does |
| KeyConditionParser.SplitFields | include/ddbsh/testing/memory_client.hpp:469-487 | normalising and splitting gives the runs between separators |
| KeyConditionParser.SpelledFields | include/ddbsh/testing/memory_client.hpp:469-487 | a text whose pieces are kept apart is split into the fields of its pieces |
| KeyConditionParser.KeyConditionParses | include/ddbsh/testing/memory_client.hpp:462-539 | parsing a planned key condition recovers the clause's predicates on plan keys, each once, in order, with real names and values |
| MemoryClients.PlannedQueryFinds | include/ddbsh/testing/memory_client.hpp:81-96 | from the clause to the items: the in-memory Query returns exactly the items that pass all key predicates, in table order, or none if a `<>` is among them |
| MemoryClients.PlannedQueryExact | include/ddbsh/testing/memory_client.hpp:81-96 | where each key attribute is tested once, it returns the items that pass in every table, by any order of values, exactly when no key test is a `<>` or some key test passes no value at all |
| MemoryClients.QueryRows | include/ddbsh/testing/memory_client.hpp:81-96 | the selection loop over the stored items |
| MemoryClients.Table.Find | include/ddbsh/testing/memory_client.hpp:285-292 | the parallel vectors are a map; find is lookup |
| MemoryClients.Table.Put | include/ddbsh/testing/memory_client.hpp:293-302 | put is update; an old key keeps its place, a new one goes last |
| MemoryClients.Table.Erase | include/ddbsh/testing/memory_client.hpp:303-311 | erase is removal, and moves nothing else |
| MemoryClients.KeyStringInjective | include/ddbsh/testing/memory_client.hpp:373-382 | keys of one schema with different S, N or B values free of the separator have different strings |
| MemoryClients.GetIsLastPut | include/ddbsh/testing/memory_client.hpp:354-382 | after any run of puts and deletes, a get by full key finds the item last put under it and not deleted since, with key names in name order |
| MemoryClients.PutThenGet | include/ddbsh/testing/memory_client.hpp:354-382 | an item just put is found by its key exactly when the hash name comes before the range name |
| ResultSets.FlattenInto | src/connection/connection.cpp:359-439 | the pushing recursion appends the flattened outcome |
| ResultSets.FlattenRenders | src/render/renderer.cpp:271-342 | the result sets of an outcome, nested or not, render one after the other to what the outcome renders to, on both streams |
| ResultSets.DiagnosticsShown | src/render/renderer.cpp:313-341 | the error stream has each diagnostic of an outcome and of its parts, in order, on a line of its own |
| ResultSets.FlattenIsFlat | src/connection/connection.cpp:388-438 | no set holds a nested outcome or more than one written row |
| ResultSets.FlattenItems | src/connection/connection.cpp:359-439 | the rows of the sets of an outcome are the items it holds, for select, transact-read and vector search, its parts' in order |
| ResultSets.FlattenKinds | src/connection/connection.cpp:359-439 | each set is of the kind of what it came from |
| ResultSets.UpToFailure | src/connection/connection.cpp:473-505 | the sets and items of a batch are those of the statements before the first that fails, and its error is that failure, or else the parse error |
| ResultSets.Results.AdvanceStatement | src/connection/connection.cpp:473-505 | runs statements until one has a set, or ends with the first failure or else the parse error |
| ResultSets.Results.NextResult | src/connection/connection.cpp:521-531 | moves to the next of the sets still to come, skipping and repeating none |
| ResultSets.Results.NextRow | src/connection/connection.cpp:533-545 | moves to the next row of the current set, when that is a row set |
| ResultSets.Results.VisitItems | src/connection/connection.cpp:521-545 | walking the rows of every set visits every item still to come, once and in order |
| ResultSets.Results.RenderAll | src/connection/connection.cpp:644-662 | walks to the end: every set from the current one on, once and in order |
| PreparedStatements.PreparedStatement.Bind | src/connection/connection.cpp:213-231 | positions count from 1, skipped ones are null, a bad index is remembered |
| PreparedStatements.PreparedStatement.BindNamed | src/connection/connection.cpp:233-242 | a name is bound once; binding it again replaces the value |
| PreparedStatements.PreparedStatement.Substitute | src/connection/connection.cpp:244-310 | the character loop fills the pieces of the statement |
| PreparedStatements.PreparedStatement.Expand | src/connection/connection.cpp:244-326 | the whole expansion, with its errors |
| PreparedStatements.PiecesAreSource | src/connection/connection.cpp:254-309 | the pieces are the statement, cut up |
| PreparedStatements.OthersUnchanged | src/connection/connection.cpp:256-309 | string literals and text that is no placeholder stay as they are |
| PreparedStatements.NamesAreWhole | src/connection/connection.cpp:280-305 | a named placeholder is a whole name that was bound, starting with no digit |
| PreparedStatements.ExpandsExactly | src/connection/connection.cpp:244-326 | expansion succeeds exactly when placeholders outside strings and bindings match and each value has a literal form |
| PreparedStatements.ExpansionFails | src/connection/connection.cpp:244-326 | each error names what it is about: the first placeholder without a value, or the first value, by position or by name, without a placeholder |
| PreparedStatements.LiteralClosed | src/connection/connection.cpp:45-104 | the literal of any value leaves the quote automaton outside every string, at any nesting |
| PreparedStatements.LexMerges | src/connection/connection.cpp:254-268 | texts that meet quote to quote are never scanned as each on its own |
| PreparedStatements.Rescan | src/connection/connection.cpp:244-326 | scanned again, the expansion is the statement with each placeholder's literal scanned on its own, exactly when no string, bound or of the statement, stands next to another |
| PreparedStatements.TouchingMerge | src/connection/connection.cpp:49-58 | two bound strings side by side are read as one |
| Lexers.TokensConcat | src/parser/lexer.l:80-137 | by longest match, the tokens of two texts are those of each, when strings and comments end and the characters that meet join no token |
| Literals.LiteralReads | src/parser/grammar.yy:1717-1770 | the literal of a value, nested or not, scanned and read by the grammar of values, is the value with its quotes doubled, and what follows is left |
| Literals.ReadsBack | src/connection/connection.cpp:42-104 | it is the value itself exactly when its numbers are lexemes, no string or key holds a quote, and none looks like a time stamp |
| Literals.ExpansionReads | src/connection/connection.cpp:244-326 | in the tokens of an expanded statement each placeholder that stands alone is read as the value bound to it, and all else is scanned as in the statement |
| Literals.QuoteDoubled | src/parser/ast.hpp:38-48 | a bound string with a quote arrives with two |
| Literals.StampRefused | src/parser/lexer.l:87-90 | a bound string that looks like a time stamp is no value |
| Literals.MinusComments | src/parser/lexer.l:83 | a minus before a bound negative number makes a comment |
| Shortfalls.UnequalSortKey | src/expressions/logical_comparison.hpp:97-102 | `p = a AND s <> b` is planned as a Query and rejected |
| Shortfalls.UnequalFindsNothing | include/ddbsh/testing/memory_client.hpp:81-96 | the in-memory client takes that Query and finds nothing by it in any table, by any order of values, though it should find an item with the partition key and any other sort key |
| Shortfalls.NegatedSortKey | src/expressions/logical_comparison.hpp:97-102 | so is `p = a AND NOT s < b` |
| Shortfalls.SortKeyTwice | src/expressions/where.hpp:90-95 | so is `p = a AND s > b AND s < c` |
| Shortfalls.CutNegation | src/expressions/logical_and.hpp:155-172 | so is `p = a AND NOT (s = b AND v = c)`, whose two texts mean something else |
| Shortfalls.NegatedGetItem | src/expressions/where.hpp:50-59 | a SELECT where `NOT (p = a AND s = b)` is a GetItem for the one item the clause excludes |
| Shortfalls.GroupedKey | src/expressions/logical_and.hpp:137-139 | a DELETE where `(p = a AND s = b)` has the condition `()` |
| Shortfalls.DroppedRangeWrites | src/expressions/logical_comparison.hpp:81-85 | a write where `p = a AND s = b AND s > c` goes to an item the clause does not hold of |
| Shortfalls.CutMissesItems | src/expressions/logical_and.hpp:123-141 | where `NOT (s = b AND v = c)`, nothing slips, but the condition does not follow, and an item wanted for its key does not pass it |
| Shortfalls.CutTwiceIsUnsafe | src/expressions/logical_and.hpp:123-141 | where `NOT (x = u AND NOT (s > b AND y = w))`, the condition follows, so that a run left alone is exact, but something slips: an item once wanted can pass when it is wanted no more |
| Shortfalls.UpdateCreates | src/execute/update_executor.cpp:77-86 | a bulk UPDATE where `a = 1 OR NOT b = 2`, whose row is removed between page and write, creates an item |

## Left out

- Statements.StatementIsSafe: is not true of every clause. It asks nothing where the service rejects the read or the condition, nor of a Query of the table, if no attribute is called ""; of another bulk write that nothing slips (exact by BulkWrites.SeenVouchesExactly; Shortfalls.CutTwiceIsUnsafe), of a single write that the clause cannot be false beside its key and condition (exact by Enforcing.SingleWriteSafe; Shortfalls.DroppedRangeWrites). These are exact over all meanings of the predicates: a clause that writes a predicate twice, or whose predicates exclude one another by their values, may be safe without.
- Statements.StatementExact: enumerates an index in a fixed order of table keys; what an update does to that order is not modelled.
- BulkWrites.UpdateCreatesExactly: is about UPDATE; Statements.SingleStatementExact says when DELETE and UPSERT go through on a missing key.
- Executors.Execute: takes the key schemas as arguments, so DescribeTable and its errors are not part of it. The return-value mode is reduced to whether items are wanted.
- Inserts.InsertExact: a column written twice takes its last value here; the source hands both to the SDK.
- RateLimiters.WindowBound: time, rates and units are real numbers; rounding of doubles is not modelled.
- MemoryClients.QueryRows: projection, update expressions and conditions of the in-memory client are not modelled, and the order of two values is a parameter.
- MemoryClients.PlannedQueryFinds: key names are simple; dotted and subscripted paths are not resolved by this client at all. No NOT is around a key predicate: this client does not see it.
- MemoryClients.PlannedQueryExact: asks for one test per key attribute; with more, a `<>` beside tests that nothing passes does no harm.
- ResultSets.FlattenKinds: status, counts, scores, capacity and diagnostics of a result set are copies of its source's; only kind and rows are modelled.
- ResultSets.FlattenRenders: how items, written rows, reports and explain blocks are formatted is a parameter.
- Reader.ReadBack: the service's precedence is the documented one; how it evaluates a leaf is a parameter.
- Attribute names that hold a dot: a projected path is an attribute name of the model's service, where DynamoDB reads a nested path.
- Negative rates, with which the bucket is in debt after any number of refreshes and the limit loops never end (RateLimiters.NegativeRate); the limiter is made with rates that are not negative.
- Printing without a symbol table, with literal values in place of tokens.
- The rest of the grammar: clauses, change lists and values are trees of their productions; a map key without quotes is not read here.
- Literals.ExpansionReads: asks that placeholders stand alone; where one touches a word, a number or an operator, what is read is not said.
- The service's checks of updates beyond their syntax: paths that overlap, and updates of key attributes.
- `size(d) > 3`: the parser makes it a comparison on a path literally called `size(d)`, which is aliased as an attribute of that name (src/parser/grammar.yy:1973-1979). Such an element is a predicate like any other here, so "means what the clause means" does not cover it.
- The one-argument constructors of AND and OR, which nothing calls.
- The sending of a GetItem, vector search, transactions, and the table and backup commands: request copying and report building.
- Updates through an index read that move the item within that index, and counts for deletes of items already gone.
- The native width of counters: the token numbers, counts and accounting are unbounded here.
- A run that is cut off: it is safe like any other, but no more is said of what it did.
- Concurrency inside a process, the command line, credentials and the SDK adapter.
