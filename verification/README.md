# PostGraph's query compiler and update clauses, verified

PostGraph stores a property graph in tables, compiles Cypher patterns to joins over them, and runs
CREATE, MERGE, SET and DELETE as executor nodes that pull rows from each other. This project models
that machinery in Dafny and proves what it is relied on for.

**Store and updates** (`PropertyGraph`, `GraphStore`, `PathWriter`, `PathWritten`, `PathChecks`, `PathAccepted`,
`PathExecution`, `CreateClause`, `CreateTheorems`, `CreateAccepted`, `MergeClause`, `SetClause`, `SetTheorems`,
`DeleteClause`, `CommandIds`, `DeleteCommands`, `Runs`, `Pipelines`, `DanglingRuns`). The store is a map of vertices and a map of edges,
together with the log of all physical writes, each stamped with the id of its command, and the last value of
each label's id sequence. A scan reads through a command id and sees the writes with a lower stamp; a tuple
can be locked if nothing was written over it since, and if the current command has not written it.
`Store.Safe` says that after no write so far was there a dangling edge, that no id was ever used twice, and
that no edge ever changed its endpoints.

Whether a run stays safe depends on the command ids, because each clause reads through a fixed one while the
clauses below it go on writing. `Runs.NeverDanglesExactly` says exactly when a run of rows from any mix of
clauses never has a dangling edge: a CREATE or MERGE must give no edge to a vertex deleted since its check's
command id, and with every vertex that a DELETE removes all its edges must go. `CommandIds.DeleteSafeAt` and
`CreateTheorems.PatternSafeExactly` are the conditions for one clause, `Pipelines` has them for two clauses
that pull from each other, and `DanglingRuns` has whole runs that break them. A DELETE that stands alone is
always safe (`DeleteCommands.LoneReadsAreHonest`).

**MATCH** (`MatchPattern`, `MatchQuals`, `MatchLinks`, `MatchCorrect`, `MatchTheorems`, `MatchCompile`,
`MatchConverse`, `MergeFinds`, `MergeBehind`). A path becomes a list of entities; a vertex that nothing mentions is left out of the
join, and the edges around it are joined to each other. The reference meaning of a path is an
embedding: a walk that matches at every position and uses no edge twice. Compilation is complete without
a guard. It is sound for every pattern exactly on graphs without parallel edges, because two undirected
edges that meet at a vertex outside the join choose their directions separately
(`MatchTheorems.ParallelEdgesMislead` has the graph and the pattern); for a given pattern it is enough
that no two undirected edges meet at such a vertex. That guard is needed: every pattern in which such a
meeting leads to no unscanned end of the path has a graph that misleads it (`MatchConverse.MeetingMisleads`).
Edges are compared inside one path only (`MatchConverse.PathsShareEdges`).
What MERGE creates is found by the query compiled
from its own pattern exactly when no variable occurs twice in it. Behind another clause, where that query is joined
laterally, MERGE creates exactly for the rows without an embedding (`MergeBehind.CreatesExactlyWithoutPattern`).

**Query shape** (`SetOperations`, `GroupingSets`, `Expressions`, `AggLevels`, `UngroupedColumns`,
`UngroupedDiffers`). Set
operations compile to a range table and a tree of indices; results are sequences, so ORDER BY, SKIP and
LIMIT at any depth are kept with all the freedom they leave. GROUP BY lists are flattened and keep their
grouping sets. Aggregates get their levels. The check for ungrouped columns refuses exactly
the ungrouped occurrences, is sound on frames of rows and groups, through any depth of sub-selects, and is exact
where GROUP BY lists plain variables.

**Small pieces** (`Udeescape`, `LabelIds`, `Decimals`, `NodeIO`, `NodeStreams`): Unicode escapes, the
cyclic search for a label id, and printing and reading plan nodes.

Code that works step by step is modelled as classes and methods with loops, each proved against a
function, and the properties are proved about that function. Errors are values (`Results.Error` names
the message each stands for). `dafny verify dfyconfig.toml` checks the whole project.

## Where the code departs from what one would expect

- SET: an item whose entity is null does not advance the loop index, so from then on no last item is
  recognised. `SetTheorems.SetRowIs` says exactly which targets are written, `NullEntityHidesUpdate`
  shows an update that is lost.
- SET: the same entity in two attributes, or in two rows of a terminal SET, has two copies, and nothing
  advances the command counter between them. The second write of the tuple is an error, or is skipped
  when the command id is the output command id; it never overwrites the first (`SetTheorems.SharedTuple`,
  `RowAcceptedExactly`, `RowsWriteOnce`).
- MERGE: the collected path values are never reset, so the traversal of a second created path begins with
  the first one (`MergeClause.TraversalIsOwnPathOnlyFirst`).
- MERGE: a vertex variable that occurs twice in the pattern is written as two vertices
  (`MergeFinds.CreatedPathMatches`).
- DELETE without DETACH depends on the order of its items: `DELETE e, v` is accepted and `DELETE v, e`
  refused (`DeleteCommands.OrderMatters`; regress/expected/cypher_delete.out:206-230 records both).
- DELETE: every deletion is a command of its own (src/backend/executor/cypher_delete.c:304), but the edge
  scan's command id stays two above the first one's (lines 121 and 414). So an edge that the third or a
  later deletion of a lone DELETE has removed is still shown, and makes the clause refuse the vertex
  (`DeleteCommands.EdgesThenVertexExactly`, `ThirdEdgeStillShown`).
- CREATE or MERGE above DELETE: the existence check reads through its own command id. In
  `MATCH (n)-[e]->() DETACH DELETE n CREATE (n)-[:e]->(:v)` it is two above the first deletion's: with one edge
  at n the CREATE is refused, as regress/expected/cypher_delete.out:269-277 records, but with two edges it still
  finds n and gives an edge to a vertex that is gone (`Pipelines.CreateAfterDetachDelete`,
  `DanglingRuns.OneEdgeIsRefused`, `TwoEdgesDangle`).
- DETACH DELETE above SET: an edge that the SET below has written is shown in its old version, which cannot be
  locked, if the SET's command comes after the id through which the vertex is looked up. Then the vertex goes
  and the edge stays: in `MATCH (v)-[e]->() SET e.x = 1 DETACH DELETE v` that happens to the second of two
  disjoint rows (`Pipelines.DetachDeleteAfterSet`, `DanglingRuns.SetEdgeDangles`).
- DETACH DELETE above CREATE: CREATE does not end its command, so an edge it has just made cannot be locked; in
  `MATCH (v) CREATE (v)-[:e]->(:v) DETACH DELETE v` it stays (`Pipelines.DetachDeleteAfterCreate`,
  `DanglingRuns.NewEdgeDangles`).

## Model
| member | source | states |
|---|---|---|
| MatchCompile.CypherParseState.TransformMatchEntities | src/backend/parser/cypher_clause.c:3754-3818 | Succeeds exactly when the path's variables fit those already known; the entities then correspond to the path position by position, with exactly the unmentioned vertices away from variable-length edges left out of the join, and are added to the parse state. |
| MatchCompile.AcceptedExactly | src/backend/parser/cypher_clause.c:3754-3818 | Element by element: a path is accepted exactly when every repeated variable, of this path or of what was compiled before, is mentioned again as the same kind, without label, properties or variable length. |
| MatchCompile.ParsedIsClear | src/backend/parser/cypher_clause.c:3754-3818 | A path fresh from the parser meets what the compiler asks of its generated names, behind whatever was compiled before. |
| MatchCompile.CypherParseState.HandleVertex | src/backend/parser/cypher_clause.c:3091-3120 | Which vertices stay out of the join, and which get a generated name. |
| MatchCompile.CypherParseState.TransformVleEdge | src/backend/parser/cypher_clause.c:3729-3749 | A variable-length edge becomes its own kind of entity with a fresh name if it has none. |
| MatchCompile.MakePathJoinQuals | src/backend/parser/cypher_clause.c:3826-3877 | The walk with its remembered neighbours emits the quals of every edge from the entities around it, in order. |
| MatchCompile.MakePreventDuplicateEdges | src/backend/parser/cypher_clause.c:3345-3408 | The nested loops compare every pair of edges once, or call the uniqueness function when a variable-length edge occurs. |
| MatchCompile.TransformMatchPath | src/backend/parser/cypher_clause.c:3677-3705 | The path's entities with join quals, uniqueness qual and property constraints; never ends in the error of an unknown entity type. |
| MatchLinks.VleNeighboursAreScanned | src/backend/parser/cypher_clause.c:3097-3101 | The vertices next to a variable-length edge are always in the join. |
| MatchLinks.DirectedEdgeQuals | src/backend/parser/cypher_clause.c:3416-3440 | The quals of a directed edge hold of a row exactly when its start and end agree with its neighbours, labels included. |
| MatchLinks.UndirectedEdgeQuals | src/backend/parser/cypher_clause.c:3463-3494 | The disjunction for an undirected edge holds exactly when one of its two readings agrees with the neighbours. |
| MatchLinks.JoinMeaning | src/backend/parser/cypher_clause.c:3552-3614 | Joining a column to a vertex or to the edge beyond an unscanned vertex means that the ids meet on the side asked for. |
| MatchLinks.QualsMeanLinked | src/backend/parser/cypher_clause.c:3452-3546 | All emitted quals together hold exactly when every edge is linked to its neighbours. |
| MatchCorrect.UniquenessMeans | src/backend/parser/cypher_clause.c:3345-3408 | Either form of the uniqueness qual says that the path uses no edge twice. |
| MatchCorrect.EveryEmbeddingHasItsRow | src/backend/parser/cypher_clause.c:3416-3614 | Completeness: every matching walk of any path, whichever vertices are left out, satisfies the compiled quals; for a vertex left out with a label this speaks of the comparison the code emits, which the recorded outputs show to fail at run time. |
| MatchCorrect.EveryRowHasAnEmbedding | src/backend/parser/cypher_clause.c:3416-3614 | Soundness under the guard: with no dangling edge, a row extends to a matching walk. |
| MatchCorrect.AtMostOneEmbedding | src/backend/parser/cypher_clause.c:3463-3494 | Under the guard, the vertices left out are determined by the row. |
| MatchTheorems.GuardsSuffice | src/backend/parser/cypher_clause.c:3452-3546 | The guard follows from the pattern (no two undirected edges meet at an unscanned vertex) or from the graph (no parallel edges). |
| MatchTheorems.GuardedRowIsExact | src/backend/parser/cypher_clause.c:3826-3877 | Under the guard a row comes from exactly one embedding. |
| MatchTheorems.ParallelEdgesMislead | src/backend/parser/cypher_clause.c:3484-3530 | On any graph with two parallel edges, the quals of `(a)-[]-()-[]-(b)` accept the row that goes from one end to the other, which no walk gives. |
| MatchTheorems.SoundExactlyWithoutParallelEdges | src/backend/parser/cypher_clause.c:3416-3614 | On a graph without dangling edges, compilation is sound for every pattern if and only if no two edges are parallel. |
| MatchConverse.MeetingMisleads | src/backend/parser/cypher_clause.c:3463-3494 | Every pattern in which two undirected edges meet at an unscanned vertex and neither leads to an unscanned end of the path, so every meeting between the nearest scanned vertices on both sides, has a graph without dangling edges and an accepted row that no walk gives, if its variables occur once and the labels of the vertex at the meeting and the one before it are compatible. |
| MatchConverse.PathsShareEdges | src/backend/parser/cypher_clause.c:3695-3702 | Edges are compared inside one path only: in `MATCH (a)-[r]->(b), (c)-[s]->(d)`, for every edge of every graph there is a row that binds r and s to it. |
| MatchTheorems.ElisionKeepsRowCount | src/backend/parser/cypher_clause.c:3091-3159 | Leaving vertices out keeps the number of rows: rows and embeddings are in bijection under the guard. |
| MatchTheorems.PathQualsWellFormed | src/backend/parser/cypher_clause.c:3552-3579 | For every path the error branch is unreachable and no conjunction or disjunction is empty. |
| GraphStore.DoKeepsSafe | src/backend/executor/cypher_utils.c:234-262 | A lawful physical write that leaves no dangling edge keeps the whole history safe: no dangling edge, no reused id, no moved edge. |
| GraphStore.SeenUnlessDeleted | src/backend/executor/cypher_utils.c:169-205 | A vertex that a scan through a command id sees is live if and only if no command with that id or a later one has deleted it. |
| GraphStore.CurrentCommandIs | src/backend/executor/cypher_set.c:100-184 | A scan of the current command sees what every earlier command has written, and a tuple counts as written now exactly if a write of it bears the current command's id. |
| PathWritten.RunIsSafe | src/backend/executor/cypher_create.c:332-571 | If no existence check shows a vertex that is gone, creating a path keeps the store safe at every single insert, touches nothing old, and inserts one entity per inserting target. |
| PathChecks.RunSafeExactly | src/backend/executor/cypher_create.c:536-557 | Whatever the checks show, an accepted path is created without a dangling edge if and only if none of them shows a vertex that is gone, or the path has no edge. |
| PathChecks.RunDangles | src/backend/executor/cypher_create.c:332-571 | A vertex that is gone, mentioned anywhere in an accepted path with an edge, gets an edge. |
| PathAccepted.RunAcceptedExactly | src/backend/executor/cypher_create.c:332-571 | A path is created, and not refused, exactly when every mention finds a live-looking vertex, every entity its properties, every edge of CREATE a direction, and every label's sequence has ids for all its targets. |
| PathAccepted.RunCommands | src/backend/executor/cypher_merge.c:700-727 | The command counter advances once in a path, for the first vertex that MERGE inserts under the command id at which it began, and never for CREATE. |
| PathWritten.RunMakesPath | src/backend/executor/cypher_create.c:345-404 | Every target's entity is in the final graph under its label, a new one with the properties its target describes, and each edge lies as the arrow of the pattern points: rightward from the vertex before it to the one behind it, leftward the other way round, and MERGE's undirected ones rightward. |
| PathChecks.RunJoins | src/backend/executor/cypher_create.c:345-404 | Every edge of an accepted path of CREATE or MERGE, whatever the existence checks show, is stored between its two neighbours in the direction of the pattern. |
| PathWritten.RunIsNew | src/backend/executor/cypher_create.c:381-404 | An inserted entity has an id that nothing ever had, at no moment of the history. |
| PathWritten.RunDeclares | src/backend/executor/cypher_create.c:409-436 | After the recursion the attribute of each new variable holds its entity. |
| PathWritten.RunResolves | src/backend/executor/cypher_create.c:525-564 | A later mention of a variable made in the same path is the vertex made for it in the same run. |
| PathWritten.RunFinds | src/backend/executor/cypher_create.c:525-564 | A mention of a variable from outside is the vertex that the tuple holds; that vertex is live if no check shows one that is gone. |
| PathWritten.RunListsPath | src/backend/executor/cypher_create.c:345-436 | Though edges are inserted in reverse, the path values end as v0, e0, v1 and so on to the last vertex. |
| PathExecution.PathExecutor.CreateVertex | src/backend/executor/cypher_create.c:442-571 | The recursive method on the executor's fields, its existence check reading what its own command id shows, does what the specification function says, errors included. |
| PathExecution.PathExecutor.CreateEdge | src/backend/executor/cypher_create.c:332-436 | The same for edges, with the path values swapped out during the recursion. |
| CreateClause.RunPattern | src/backend/executor/cypher_create.c:170-208 | All paths of the pattern in turn, with the path values stored and emptied after each. |
| CreateClause.ExecTerminal | src/backend/executor/cypher_create.c:210-261 | A terminal CREATE handles every row of its subtree. |
| CreateTheorems.PatternIsSafe | src/backend/executor/cypher_create.c:170-208 | If no check shows a vertex that is gone, a whole pattern keeps the store safe and inserts each flagged entity once. |
| CreateTheorems.PatternSafeExactly | src/backend/executor/cypher_create.c:170-208 | Whatever the checks show, an accepted pattern never has a dangling edge, at any of its writes, if and only if no check of a path with an edge shows a vertex that is gone. |
| CreateTheorems.PatternResolves | src/backend/executor/cypher_create.c:525-564 | Across the paths of a pattern, a mention is the vertex its declaration made for this same row. |
| CreateTheorems.PatternFinds | src/backend/executor/cypher_create.c:525-564 | A variable from an earlier clause is resolved to the vertex in the row, through all paths; if no check shows a vertex that is gone, it is live when the pattern is done. |
| CreateTheorems.PatternVertexLives | src/backend/executor/cypher_create.c:442-571 | If no check shows a vertex that is gone, every vertex of every path, made or mentioned, is live when the whole pattern is done. |
| CreateTheorems.PatternListsPaths | src/backend/executor/cypher_create.c:186-207 | After the whole pattern each path variable's attribute holds v0, e0, v1 and so on, each with its stored contents, whatever the later paths did. |
| CreateTheorems.PatternMakes | src/backend/executor/cypher_create.c:170-208 | Once a whole pattern is done, every target of every path is still as RunMakesPath says, whatever the later paths did. |
| CreateAccepted.PatternAcceptedExactly | src/backend/executor/cypher_create.c:170-208 | A row is accepted exactly when every target of every path is supplied by the row as it came, and no label's sequence runs out. |
| CreateTheorems.RowsAreSafe | src/backend/executor/cypher_create.c:210-261 | Over all input rows, if no check shows a vertex that is gone when the row's turn comes: safe throughout, old entities untouched, and exactly one new entity per inserting target and row. |
| CreateTheorems.RowsMake | src/backend/executor/cypher_create.c:210-261 | For every input row, every target of every path has been made from that row, and stays so after all rows. |
| CreateAccepted.RowsAcceptedExactly | src/backend/executor/cypher_create.c:210-261 | All rows are accepted exactly when each of them is supplied, and the sequences last for all of them together. |
| MergeClause.PullsMatchOrCreate | src/backend/executor/cypher_merge.c:410-550 | For every number of pulls: either exactly the matched rows and no write, or one created path and one row; afterwards only null; the two flags are never both set. |
| MergeClause.MergeExecutor.Pull | src/backend/executor/cypher_merge.c:410-550 | One pull on the executor's fields, whose assertions about the flags never fail. |
| MergeClause.CreatedRowIs | src/backend/executor/cypher_merge.c:410-550 | The row that a leading MERGE emits for a created path: each variable with its new entity, the path variable with the traversal, and nulls. |
| MergeClause.CheckPath | src/backend/executor/cypher_merge.c:202-231 | The loop over the targets finds whether one of them has no value in the row. |
| MergeClause.OneRowCreatesExactly | src/backend/executor/cypher_merge.c:202-231 | A row with a value for every target leaves store and path values as they were; a row with a null for some target, when accepted, makes one write for each target that inserts. |
| MergeClause.MissingPathIsMade | src/backend/executor/cypher_merge.c:341-396 | What a row with a null makes: every target's entity, from that row, with each edge in the direction of the pattern. |
| MergeClause.JoinedMergeExecutor.Pull | src/backend/executor/cypher_merge.c:341-396 | One pull behind another clause: all remaining rows and then null in a terminal clause, otherwise one row, which is passed on with what was created for it. |
| MergeClause.MergeRowsAreSafe | src/backend/executor/cypher_merge.c:341-396 | Behind another clause, if no check shows a vertex that is gone when the row's turn comes, the path is created once for each row in which some target's attribute is null and for no other, nothing old is touched, and no write leaves a dangling edge. |
| MergeClause.ProcessPathIsSafe | src/backend/executor/cypher_merge.c:236-265 | If no check shows a vertex that is gone, one created path is safe and makes one write per inserting target. |
| MergeClause.PathSafeExactly | src/backend/executor/cypher_merge.c:767-792 | Whatever the checks show, a created path never has a dangling edge if and only if none of them shows a vertex that is gone, or it has no edge. |
| MergeClause.ProcessPathAccepted | src/backend/executor/cypher_merge.c:236-265 | A path is created exactly when every target finds what it needs and no label's sequence runs out. |
| MergeClause.TraversalIsOwnPathOnlyFirst | src/backend/executor/cypher_merge.c:236-265 | The stored traversal is the created path alone exactly when nothing was collected before. |
| MergeFinds.InsertedDiffer | src/backend/executor/cypher_merge.c:639-927 | Two entities of one kind that MERGE inserts are different. |
| MergeFinds.CreatedPathMatches | src/backend/executor/cypher_merge.c:639-927 | The created path is an embedding of the pattern, undirected edges stored as rightward, if and only if no variable occurs twice. |
| MergeFinds.CompileMerge | src/backend/parser/cypher_clause.c:5518-5734 | The MATCH that a leading MERGE becomes, every element named, is never refused when the variables are distinct, and leaves no vertex out of the join. |
| MergeFinds.RepeatedMergeCreatesNothing | src/backend/parser/cypher_clause.c:5518-5734 | With distinct variables the created path satisfies that compiled query, so a repeated MERGE writes nothing however often it is pulled. |
| MergeBehind.JoinsExactly | src/backend/parser/cypher_clause.c:5365-5465 | The subquery that the lateral left join runs for a row of the earlier clause has a result exactly when the graph has the pattern with that row's vertices in their places. |
| MergeBehind.CreatesExactlyWithoutPattern | src/backend/executor/cypher_merge.c:202-231 | One row through the left join: MERGE writes nothing if the graph that the join reads has the pattern for it, and otherwise, when accepted, makes one write for each inserting target. |
| MergeBehind.RowsCreateExactlyWithoutPattern | src/backend/executor/cypher_merge.c:341-396 | Over all rows of the earlier clause the path is created exactly as often as there are rows without an embedding of their pattern. |
| MergeBehind.CreatedIsThere | src/backend/executor/cypher_merge.c:639-927 | After a row's path has been created the graph has the pattern for that row, if no variable occurs twice, so that the same row would create nothing. |
| SetClause.AfterAccepted | src/backend/executor/cypher_set.c:100-184 | The first n items are accepted exactly when none is for something else than a null, a vertex or an edge, and none that looks for its tuple finds one this command has written already, unless the command id is the output command id. |
| SetClause.FoldIsLastItem | src/backend/executor/cypher_set.c:459-477 | The fold of an attribute's items, key by key: the last item for a key removes it, sets the plain value, or nests a map with exactly its fields; a key that no item names keeps what it had. |
| SetClause.AfterIs | src/backend/executor/cypher_set.c:419-549 | After n items every attribute holds the fold of its items (`FoldIsLastItem`), the loop index lags by the null entities, and the writes are those of last items reached without one. |
| SetTheorems.TupleStored | src/backend/executor/cypher_set.c:512-539 | For any tuple: the one item that writes it leaves in one write the fold of its attribute's items, in which the last item for each key wins (`FoldIsLastItem`), and a tuple no item writes stays as it was. |
| SetTheorems.RowAcceptedExactly | src/backend/executor/cypher_set.c:163-172 | One row is accepted exactly when each item is for a null, a vertex or an edge and, unless the command id is the output command id, no reached live target has been written by this command or shares its tuple with another reached target. |
| SetTheorems.SetRowIs | src/backend/executor/cypher_set.c:394-549 | One accepted row, whatever its targets share: a written tuple is written once, and there and in the row passed on the last item decides each key (absent after REMOVE or null, the plain value, or a map with exactly its fields) while all other keys stay; no other tuple is written or changed, no entity appears, vanishes or moves. |
| SetTheorems.EachWrittenOnceExactly | src/backend/executor/cypher_set.c:440-445 | Every live target gets its own fold written, at its last item, if and only if no item with a null entity precedes the last item of one, the command has written none of them before, and no two are the same tuple. |
| SetTheorems.NullEntityHidesUpdate | src/backend/executor/cypher_set.c:444-445 | A null entity first, and the second entity's update is lost. |
| SetTheorems.SharedTuple | src/backend/executor/cypher_set.c:163-172 | Of two reached targets that are the same tuple the later one never writes; the row is an error unless the command id is the output command id. |
| SetTheorems.RowsAcceptedExactly | src/backend/executor/cypher_set.c:190-203 | All rows of one command are accepted exactly when no item of any row fails, the tuples that earlier rows wrote counting as written. |
| SetTheorems.RowsWriteOnce | src/backend/executor/cypher_set.c:190-203 | Over all rows of one command a tuple is written at most once, not at all if the command had written it before, and is unchanged if it is not written. |
| SetTheorems.RowsStoreLastItems | src/backend/executor/cypher_set.c:190-203 | Over all rows of one command, a tuple that was written holds what the last items of one of the rows say, key by key. |
| SetTheorems.SetRowsAreSafe | src/backend/executor/cypher_set.c:190-203 | Over all rows no entity appears or vanishes, no edge moves and no write leaves a dangling edge. |
| SetTheorems.SetExecutor.LastIndices | src/backend/executor/cypher_set.c:394-417 | The array ends with the index of each attribute's last item, and 0 where there is none. |
| SetTheorems.SetExecutor.UpdateEntityTuple | src/backend/executor/cypher_set.c:100-184 | A tuple that the scan finds is written, unless this command has written it already: then it is an error, or left alone when the command id is the output command id. |
| SetTheorems.SetExecutor.ProcessUpdateList | src/backend/executor/cypher_set.c:384-550 | The two loops over the items do what the specification says to row and store. |
| SetTheorems.SetExecutor.ExecRow | src/backend/executor/cypher_set.c:552-597 | A SET that passes rows on ends its command after each row. |
| SetTheorems.SetExecutor.ProcessAllTuples | src/backend/executor/cypher_set.c:190-203 | A terminal SET handles all rows as one command. |
| DeleteClause.DeleteRemovesNamed | src/backend/executor/cypher_delete.c:323-483 | Whatever the rows, items and repetitions, and each scan being as old as it may, an accepted DELETE leaves the graph minus the named entities and all edges at named vertices, safe at every write, if no scan misses a live tuple. |
| DeleteClause.DeleteAccepted | src/backend/executor/cypher_delete.c:323-483 | It is accepted exactly when no item is something else than an entity and, without DETACH, no named vertex that its scan finds is shown with an edge by its own edge scan. |
| DeleteClause.DeleteOrderIrrelevant | src/backend/executor/cypher_delete.c:323-399 | With DETACH two lists that name the same entities, in any order and any number of times, are both accepted and leave the same graph, if no scan of either misses a live tuple. |
| DeleteClause.DropEdgeKeepsSafe | src/backend/executor/cypher_delete.c:246-317 | Deleting a tuple that is no longer live does nothing. |
| DeleteClause.FindConnectedEdgesDrops | src/backend/executor/cypher_delete.c:405-483 | The scan of all edge tables removes exactly the edges at the vertex that it shows and that can be locked. |
| DeleteClause.VertexDeletionDangles | src/backend/executor/cypher_delete.c:323-483 | Deleting a vertex leaves no dangling edge if and only if its edge scan shows every live edge at it and all of them can be locked. |
| DeleteClause.DeleteSafeExactly | src/backend/executor/cypher_delete.c:323-483 | Whatever its scans show, an accepted DELETE never has a dangling edge, at any of its writes, if and only if the edge scan of each vertex it removes shows all live edges at it, and all can be locked. |
| CommandIds.LocksAre | src/backend/executor/cypher_delete.c:246-317 | A tuple of the edge scan is locked exactly if nothing has written it since the scan's command id, and it or a tuple before it could be locked at once. |
| CommandIds.DeleteSafeAt | src/backend/executor/cypher_delete.c:323-483 | Through command ids, over whatever was written before: an accepted DELETE never has a dangling edge if and only if no vertex goes while a live edge at it was written since the edge scan's command id, or by the current command with no edge before it that can be locked. |
| DeleteCommands.LoneReadsAreHonest | src/backend/executor/cypher_delete.c:405-414 | With only deletions since its start, a DELETE's scans miss no live tuple and lock all of them, so it removes what it names and is safe. |
| DeleteCommands.EdgesThenVertexExactly | src/backend/executor/cypher_delete.c:246-317 | `DELETE e1, ..., en, v` without DETACH, from the start of a command, is accepted exactly when every edge at v is among the first of the list, as many as the edge scan's command id is ahead. |
| DeleteCommands.OrderMatters | regress/expected/cypher_delete.out:206-230 | With e the only edge at v, `DELETE e, v` is accepted and `DELETE v, e` is refused. |
| DeleteCommands.ThirdEdgeStillShown | src/backend/executor/cypher_delete.c:405-414 | A lone DELETE of three edges and then a vertex of the third is refused, though all three are gone. |
| DeleteClause.DeleteExecutor.ProcessDeleteList | src/backend/executor/cypher_delete.c:323-399 | The loop over a row's items. |
| DeleteClause.DeleteExecutor.ConnectedEdges | src/backend/executor/cypher_delete.c:405-483 | The nested loops over labels and tuples. |
| DeleteClause.DeleteExecutor.ExecTerminal | src/backend/executor/cypher_delete.c:129-185 | A terminal DELETE handles all rows. |
| Runs.WasEdgeIsCurrent | src/backend/executor/cypher_set.c:493-510 | An edge seen at any earlier time of the run still has those endpoints if it is live. |
| Runs.ActSafeExactly | src/backend/executor/cypher_merge.c:324-551 | One row of any clause, out of date as it may be, never has a dangling edge, at any of its writes, if and only if a CREATE or MERGE gives no edge to a vertex deleted since its check's command id, and a DELETE takes with every vertex all its edges. |
| Runs.NeverDanglesExactly | src/backend/executor/cypher_create.c:332-571 | A run of CREATE, MERGE, SET and DELETE rows, in any mix and with the command counter advancing in between, never has a dangling edge, not even between two inserts of one pattern, if and only if every step meets that condition when its turn comes; then no edge changes its endpoints either. |
| Pipelines.CreateAfterDetachDelete | src/backend/executor/cypher_create.c:536-557 | `DETACH DELETE ... CREATE (v)-[...]-...` from the start of a command: with fewer than two deletions before v's own the CREATE is refused, with two or more it gives an edge to a vertex that is gone. |
| Pipelines.DetachDeleteAfterSet | src/backend/executor/cypher_delete.c:246-317 | `SET ... DETACH DELETE v` where the SET wrote an edge at v: the edge is left dangling if and only if the SET's command is later than the command id through which v is looked up. |
| Pipelines.DetachDeleteAfterCreate | src/backend/executor/cypher_delete.c:246-317 | `CREATE (v)-[...]-... DETACH DELETE v` where v had no edge before: the new edges are left dangling, if there is any. |
| DanglingRuns.TwoEdgesDangle | src/backend/executor/cypher_delete.c:304 | A possible run of DETACH DELETE and CREATE, from a whole graph with two edges at n, that ends with a dangling edge. |
| DanglingRuns.OneEdgeIsRefused | regress/expected/cypher_delete.out:269-277 | The same run with one edge at n is refused. |
| DanglingRuns.SetEdgeDangles | src/backend/executor/cypher_set.c:552-597 | A possible run of SET and DETACH DELETE over two disjoint rows that ends with a dangling edge. |
| DanglingRuns.NewEdgeDangles | src/backend/executor/cypher_create.c:210-261 | A possible run of CREATE and DETACH DELETE over one row that ends with a dangling edge. |
| SetOperations.OperatorCounts | src/backend/parser/cypher_clause.c:654-942 | Every result of a compiled UNION, INTERSECT or EXCEPT, with and without ALL, has each row as often as section 7.13 of SQL:2008, part 2, says, over some results of its arguments. |
| SetOperations.ClauseMeans | src/backend/parser/cypher_clause.c:482-635 | The compiled query has exactly the statement's possible results, with ORDER BY, SKIP and LIMIT at any node, and the leftmost RETURN's column names. |
| SetOperations.TreeMeans | src/backend/parser/cypher_clause.c:654-942 | A tree over the range table yields exactly the statement's bags, whatever the table held before and however it grows after. |
| SetOperations.TransformTree | src/backend/parser/cypher_clause.c:741-752 | The indices of the tree's leaves, from left to right, are exactly the entries it has added. |
| SetOperations.SameEntriesSameRows | src/backend/parser/cypher_clause.c:741-752 | Leaf indices keep their meaning when the table grows. |
| SetOperations.RefusedExactlyWhenNotAligned | src/backend/parser/cypher_clause.c:791-799 | A statement is refused exactly when some operator's arguments differ in their number of columns. |
| SetOperations.ParseState.TransformUnionTree | src/backend/parser/cypher_clause.c:654-942 | The recursion that appends leaf queries to the parse state's range table. |
| SetOperations.ParseState.TransformStatement | src/backend/parser/cypher_clause.c:482-635 | Takes the modifiers off before and puts them on after, and finds the leftmost query by its loop. |
| GroupingSets.PrefixesAre | src/backend/parser/cypher_clause.c:2060-2065 | ROLLUP stands for all prefixes of its elements, longest first, each with exactly the columns of its elements (section 7.9 of SQL:2008, part 2). |
| GroupingSets.SubsetsAre | src/backend/parser/cypher_clause.c:2060-2065 | CUBE stands for the unions of exactly all choices among its elements. |
| GroupingSets.ProductIs | src/backend/parser/cypher_clause.c:2060-2065 | Two items of the list stand for all unions of a set of the one with a set of the other, in order. |
| GroupingSets.FlattenKeepsSets | src/backend/parser/cypher_clause.c:1721-1801 | Flattening keeps the sequence of grouping sets (SETS a sum, ROLLUP the prefixes, CUBE the subsets, the list a product) and the columns, and reaches the normal form. |
| GroupingSets.FlattenGroupContent | src/backend/parser/cypher_clause.c:1753-1763 | Nested GROUPING SETS dissolve into the outer list without changing the sum. |
| GroupingSets.FlattenTwice | src/backend/parser/cypher_clause.c:1721-1801 | Flattening a flattened list changes nothing. |
| GroupingSets.CanonicalKeepsSets | src/backend/parser/cypher_clause.c:2032-2041 | With () put back when only empty sets were there, a list with grouping sets never becomes empty, and the sets stay the same. |
| GroupingSets.CanonicalKeepsCubes | src/backend/parser/cypher_clause.c:2005-2012 | A CUBE is too big after flattening exactly when one of more than twelve elements stands in the list as written, however deep in GROUPING SETS. |
| GroupingSets.TransformGroupClause | src/backend/parser/cypher_clause.c:2017-2088 | The entries are the list's columns, each once; the query's grouping sets are those of the list as written; refused exactly for a CUBE of more than 12. |
| GroupingSets.TransformGroupingSet | src/backend/parser/cypher_clause.c:1971-2015 | A grouping set and its content stand for the same sets of columns after the transformation. |
| GroupingSets.TransformList | src/backend/parser/cypher_clause.c:1930-1949 | Duplicates are dropped inside one list only. |
| AggLevels.AggWalker.Walk | src/backend/parser/cypher_expr.c:667-756 | The walker's counters hold the least free levels of variables and of aggregates, levels bound in sub-selects ignored; fails exactly at a set-returning or window function outside sub-selects. |
| Expressions.LevelsAre | src/backend/parser/cypher_expr.c:667-756 | The free levels of an expression are exactly those of the variables, or the aggregates, that occur at some path and belong outside the sub-selects around them. |
| Expressions.ForbiddenIs | src/backend/parser/cypher_expr.c:718-735 | What may not stand in an aggregate is exactly a set-returning or window function that occurs outside sub-selects. |
| AggLevels.CheckAggArguments | src/backend/parser/cypher_expr.c:586-664 | Accepts exactly when some level is acceptable, and that level is the least free level of arguments and filter. |
| AggLevels.AcceptableExactly | src/backend/parser/cypher_expr.c:586-664 | When an aggregate has a level and is in order, by what occurs in its parts: the least level among arguments and filter, no set-returning or window function outside sub-selects, no aggregate of its own level, and direct arguments not below it. |
| AggLevels.NothingBelow | src/backend/parser/cypher_expr.c:619-662 | In an accepted aggregate no variable belongs below its level and every nested aggregate above it. |
| AggLevels.ParseLevel.CheckAggLevels | src/backend/parser/cypher_expr.c:288-298 | The climb marks exactly the parse state of the aggregate's level, and refuses where that query has no place for aggregates. |
| UngroupedColumns.AcceptedIsConstant | src/backend/parser/cypher_parse_agg.c:240-403 | An accepted expression has the same value on any two rows of a group that agree on the GROUP BY expressions, through any depth of sub-selects. |
| UngroupedColumns.AcceptsExactly | src/backend/parser/cypher_parse_agg.c:240-403 | An expression is refused exactly when a variable of the grouped query occurs in it, at some path, that is not grouped, outside the arguments and filters of the query's own aggregates and outside every part that is itself grouped, or when an argument of its GROUPING is not grouped. |
| UngroupedDiffers.RefusedDiffers | src/backend/parser/cypher_parse_agg.c:240-403 | With plain variables in GROUP BY, a refused expression has different values on two rows of one group, for functions that add up. |
| UngroupedDiffers.PlainGroupsExactly | src/backend/parser/cypher_parse_agg.c:240-403 | So the check is exact there: an expression without GROUPING is accepted if and only if, whatever its functions mean, it is the same on any two rows of a group. |
| UngroupedColumns.OnlyFreeLevelsMatter | src/backend/parser/cypher_parse_agg.c:274-282 | Aggregates of outer queries may be skipped, since their values depend on outer frames only. |
| UngroupedColumns.ColumnWalker.Walk | src/backend/parser/cypher_parse_agg.c:240-403 | The walker accepts exactly what the check admits, its assertion about direct arguments never fails, and an error names an ungrouped variable that occurs or a GROUPING argument that is not grouped. |
| UngroupedColumns.CheckUngroupedColumns | src/backend/parser/cypher_parse_agg.c:145-161 | A list passes if and only if no ungrouped variable occurs in it; what passes is constant on every group. |
| UngroupedColumns.TransformItemList | src/backend/parser/cypher_item.c:168-237 | The items without aggregates become the GROUP BY list, in order, if some item has one. |
| UngroupedColumns.HasAggIs | src/backend/parser/cypher_item.c:217-234 | An item counts as aggregated exactly when an aggregate occurs in it outside sub-selects. |
| UngroupedColumns.OnlyAggregatesRefused | src/backend/parser/cypher_item.c:217-234 | Items that automatic grouping adds always pass: a list is accepted exactly when its aggregate items are. |
| Udeescape.DecodeInvertsEscape | src/backend/parser/cypher_parser.c:100-256 | Any mix of plain, doubled, four-digit, six-digit and surrogate-pair spellings of any scalar values, their digits written in either case, decodes to their encoding, for every legal escape character. |
| Udeescape.HexReadBack | src/backend/parser/cypher_parser.c:56-64 | Reading hexadecimal digits undoes writing them by repeated division, for every number and every choice of case. |
| Udeescape.EscapesAreRead | src/backend/parser/cypher_parser.c:140-205 | The four-digit and six-digit escapes that are recognised are exactly those that can be written for the number. |
| Udeescape.TokensExactly | src/backend/parser/cypher_parser.c:140-205 | A text has exactly the tokens of which it is written, piece by piece. |
| Udeescape.EscapeCharactersAre | src/backend/parser/cypher_parser.c:67-85 | Which characters may serve as the escape character, by the alphabets of the digits. |
| Udeescape.AcceptedExactlyWhenPaired | src/backend/parser/cypher_parser.c:132-240 | A text is accepted exactly when its escapes are complete, its numbers are code points, and each half of a pair is next to the other; no half is ever emitted. |
| Udeescape.HalvesOf | src/backend/parser/cypher_parser.c:159-170 | Joining the halves of a code point gives it back (section 2 of RFC 2781). |
| Udeescape.StrUdeescape | src/backend/parser/cypher_parser.c:100-256 | The loop over a growing buffer computes the decoding; every read and write is in bounds, the final zero included, and one doubling per turn suffices. |
| Udeescape.ReadToken | src/backend/parser/cypher_parser.c:140-205 | No read goes past the input's zero. |
| Udeescape.Utf8FitsGuess | src/backend/parser/cypher_parser.c:111-116 | With UTF-8 the first guess at the size is already enough. |
| Udeescape.Utf8RoundTrip | src/backend/parser/cypher_parser.c:213-217 | The UTF-8 bytes of a scalar value give it back (section 3 of RFC 3629). |
| Udeescape.EscapedTextReadsBack | src/backend/parser/cypher_parser.c:100-256 | With UTF-8 the decoded bytes read as the scalar values that were written, in whatever mix of spellings. |
| Udeescape.StrUdeescapeUtf8 | src/backend/parser/cypher_parser.c:111-116 | With UTF-8 the decoded string is never longer than the token it came from. |
| LabelIds.LabelIdSequence.GetNewLabelId | src/backend/commands/label_commands.c:944-974 | The first unused id the cyclic sequence meets within one cycle; an error exactly when all ids are taken. |
| LabelIds.CycleMeets | src/backend/commands/graph_commands.c:254-259 | One full cycle of the sequence meets every id. |
| LabelIds.GraphidRoundTrip | src/backend/utils/adt/graphid.c:165-193 | A packed id gives back its label id and its entry number, in signed 64 bits. |
| LabelIds.Execute | src/backend/commands/label_commands.c:541-591 | Creating and dropping labels and inserting and deleting rows keep ids and names unique, and each command has its effect or the error that fits. |
| LabelIds.PackedIdsNeverCollide | src/backend/commands/label_commands.c:716-738 | Two live rows with the same packed id are the same row. |
| LabelIds.ExecuteAll | src/backend/commands/label_commands.c:541-591 | So it is after any run of commands on an empty graph, with label ids used again. |
| NodeIO.ReadNodeBack | src/backend/nodes/cypher_readfuncs.c:184-301 | Whatever follows, a printed plan node is read back with all fields, null strings as empty ones, and the cursor at what follows. |
| NodeIO.ListsAgree | src/backend/nodes/cypher_outfuncs.c:341-437 | For each of the eight nodes the printer and the reader list the same fields in the same order, with macros that fit each field's C type. |
| NodeIO.NumberReadBack | src/backend/nodes/cypher_readfuncs.c:56-72 | A number survives printing and reading in its C type; a 32-bit flag or oid printed as a signed decimal is read back unsigned. |
| NodeIO.TokenReadBack | src/backend/nodes/cypher_readfuncs.c:56-127 | Each macro reads back what the macro that fits it prints, null strings as empty ones. |
| Decimals.DecimalRoundTrip | src/backend/nodes/cypher_readfuncs.c:56-60 | `strtol` undoes `%d`. |
| NodeStreams.StringInfo.WriteNode | src/backend/nodes/cypher_outfuncs.c:341-437 | The macros append, field by field, the text of the specification. |
| NodeStreams.TokenReader.Node | src/backend/nodes/cypher_readfuncs.c:56-127 | The macros move the cursor and assign the fields as the specification reads them. |
| NodeStreams.PrintAndRead | src/backend/nodes/cypher_outfuncs.c:341-437 | Printing a node into a buffer and reading from it gives the node back. |

## Left out
- Tuple locks, indexes, slots, memory contexts and transactions: the store is the current contents and its history; an error ends the run.
- Command ids: which id a clause reads through is a parameter of each step, as is whether `es_output_cid` equals the current one; that the ids follow from a clause's place in the query is used in `Pipelines` and `DanglingRuns` only. A vertex that is looked up twice in one pattern is checked through one id.
- MatchConverse.MeetingMisleads: says nothing of meetings one of whose edges leads to an unscanned end of the path, of repeated variables, or of labels that exclude each other at the meeting.
- The label filter on an unscanned vertex is modelled as the comparison it emits. The recorded outputs show that the comparison has no operator, so that such queries fail at run time (`operator does not exist: label_id postgraph.= integer`, regress/expected/cypher_set.out:149-150 and regress/expected/cypher_match.out:693-695).
- A concurrent update between scan and write: `update_entity_tuple` and `delete_entity` then raise errors of Postgres' own.
- Catalogs: labels are numbers, and every label's table inherits from the default label's only.
- The quirk that an edge of the default label is looked up by name in `create_entity_result_rel_info`.
- Several paths in one MATCH clause are compiled one after another in the same parse state; the theorems about rows speak of one path.
- The alias columns that connect a MATCH to an earlier clause.
- MatchCorrect.EveryEmbeddingHasItsRow: the `vle` function is an oracle whose rows are trails, and property containment is on flat maps, because neither is in the modelled files.
- Parse nodes are values: that `transform_cypher_union` clears the modifiers in the node itself, and that naming an element changes the node, is modelled as a new value.
- The scan tuple and the tuple that CREATE projects from are one slot here.
- CREATE reads the id of an existing variable without a null test; here a null is reported as an error, as MERGE does.
- A leading MERGE's property expressions are constants.
- MergeBehind.JoinsExactly: which graph the lateral join reads is a parameter of the row, vertices of the earlier clause are taken from its row and not scanned again, and their mentions carry no label, since the compiler does not look at it.
- UngroupedDiffers.PlainGroupsExactly: GROUP BY lists plain variables, and the expression has no GROUPING; for other lists the exact statement is `UngroupedColumns.AcceptsExactly`, about occurrences.
- SetTheorems.SetRowIs: property values are scalars, lists excluded, or flat maps, since `alter_property_value` is not part of this model.
- SetOperations.ClauseMeans: types, coercion and collation of columns, and the rejection of sort keys that are not output columns, are not modelled; sort keys are column numbers.
- UngroupedColumns.AcceptedIsConstant: functional dependencies, join aliases and GROUPING's own argument check are not modelled; functions are deterministic.
- GroupingSets.TransformGroupClause: sort and hash operators of the entries are not modelled.
- Udeescape.StrUdeescape: an encoding that cannot represent a character raises an error of Postgres' own; here the encoding is total.
- LabelIds.Execute: inheritance between label tables, which forbids dropping the default labels, is not modelled.
- NodeIO.ReadNodeBack: splitting text into tokens and quoting inside a token are Postgres'; texts that no printer makes are only required to be refused.
- A leading MERGE that ends the query decides once, as the first pull of the other form does, and has no model of its own.
- Rescans, planner wrappers, hooks, DDL statement building, COPY and CSV: plumbing.
- The union over label trees, which nothing calls.
