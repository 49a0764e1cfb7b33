# Boolean decompositions and path queries, modelled in Dafny

This project models the formal-language core of a course repository written in Python. The core has four parts.

- **Boolean decompositions.** An automaton's states are numbered, and each symbol gets one n x n boolean matrix. There are three copies of this class: `project/re/boolean_decomposition.py`, its csr twin `project/boolean_decomposition.py` and the early draft `project/BooleanDecomposition.py`. A fourth class works on tagged recursive-state-machine states: `project/cfg/cf_bd.py`.
  - Conversion back to an automaton.
  - Intersection by Kronecker product.
  - Transitive closure by repeated squaring until the entry count stops changing.
  - The block-diagonal direct sum.
  - A breadth-first search over the direct sum of a constraint automaton and a graph (`constraint_bfs`), in a pooled and a separated form.
- **Regular path queries** (`project/rpq.py`). One query works by intersection and closure. The other works by the constrained search.
- **Context-free path queries.**
  - The Hellings worklist algorithm (`project/hellings.py` and `_hellings`).
  - The matrix algorithm (`project/cf_matrix_prod.py` and `_cf_closure`).
  - The tensor algorithm over a recursive state machine (`_tensor_prod`).
  - The front-ends that filter the result by start and final nodes (`project/cfpq.py` and `project/cfg/cfpq.py`).
  - CYK membership (`project/cyk.py`).
- **Extended context-free grammars** (`project/cfg/ecfg.py` and `project/ecfg.py`). An ECFG is built from a CFG, or read from text line by line.

The classes whose methods build or update state are Dafny classes:
- `Decomposition.BooleanDecomposition`;
- `GrammarDecomposition.BooleanDecomposition`;
- `EarlyDecomposition.BooleanDecomposition`;
- `Ecfg.EcfgReader`.

Their loops are methods with invariants. Each method is proved against a specification function. The properties the code promises are proved as lemmas about those functions:
- the matrices of an automaton have exactly its transitions;
- the product automaton accepts exactly the words both factors accept;
- the closure holds exactly the pairs joined by a non-empty walk;
- the search visits exactly the reachable entries;
- Hellings and the matrix algorithm return the least set of facts closed under the grammar's binary rules; the tensor algorithm returns the least matrix family closed under the box rule of the recursive state machine;
- CYK answers exactly the words the grammar generates.

Supporting modules:
- `Pairing`: the index i * m + j and its inverse;
- `BoolMatrix`: matrices as sets of true entries;
- `Walks`: labelled walks and connectivity;
- `Automata`: automata, paths and index maps;
- `Frontier`, `Fronts`, `Bfs`, `Answers` and `Reports`: the search;
- `Grammars`: productions, seeds and least closed sets;
- `Outcome`: the Python exceptions the code can raise, as a `Result`.

## Model

| member | source | states |
|---|---|---|
| Pairing.UnpairPair | project/re/boolean_decomposition.py:103 | The pair index i * m + j gives back i by `// m` and j by `% m`. |
| Pairing.PairUnpair | project/re/boolean_decomposition.py:103 | Every index below n * m is the pair index of its quotient and its remainder. |
| Pairing.PairInjective | project/re/boolean_decomposition.py:103 | Distinct pairs get distinct pair indices. |
| Pairing.PairBound | project/re/boolean_decomposition.py:103 | The pair index of i < n and j < m is below n * m. |
| BoolMatrix.KronEntryPair | project/re/boolean_decomposition.py:90-97 | The Kronecker product has the entry at pair positions iff both factors have their entries. |
| BoolMatrix.KronEntry | project/re/boolean_decomposition.py:90-97 | Every entry of the Kronecker product decodes, by `//` and `%`, to entries of both factors, and conversely. |
| BoolMatrix.StackEntry | project/re/boolean_decomposition.py:275-279 | The vertical stack of copies of a matrix has entry (p, q) iff p is inside the copies and entry (p mod rows, q) is in the matrix. |
| BoolMatrix.SameCountNoGrowth | project/re/boolean_decomposition.py:133-138 | A set of entries that only grows and keeps its count is unchanged. This is why stopping on an unchanged `nnz` is sound. |
| BoolMatrix.NnzBound | project/re/boolean_decomposition.py:132-138 | The number of true entries is at most rows x cols. This bounds the squaring loop. |
| BoolMatrix.MulElim | project/re/boolean_decomposition.py:136 | Every entry of a boolean product has a middle index joining its ends. |
| Walks.ClosedContainsWalks | project/re/boolean_decomposition.py:130-138 | A matrix that contains every symbol's matrix and its own square has every pair joined by a non-empty walk. |
| Walks.KronWalk | project/re/boolean_decomposition.py:90-97 | A walk in the Kronecker family between pair indices is exactly a pair of walks with the same word in both factors. |
| Automata.TransitionWalks | project/re/boolean_decomposition.py:36-60 | A walk in the matrices between two states' indices is exactly a path of the automaton between those states. |
| Automata.EntryPathIsWalk | project/re/boolean_decomposition.py:69-71 | A path over the transitions read back from the entries is exactly a walk in the matrices. |
| Decomposition.BooleanDecomposition.FromNfa | project/re/boolean_decomposition.py:16-34 | States are numbered in enumeration order. The matrices are the transition family of the automaton. Start and final states are copied. |
| Decomposition.BooleanDecomposition.GetBooleanMatrices | project/re/boolean_decomposition.py:36-60 | For each transition p -s-> q, entry (index p, index q) is set in the matrix of s. The result is exactly the transition family. |
| Decomposition.BooleanDecomposition.ToNfa | project/re/boolean_decomposition.py:62-79 | `to_nfa` as written: one transition per true entry between row and column indices; start and final states copied unchanged. |
| Decomposition.BooleanDecomposition.ToNfaByState | project/re/boolean_decomposition.py:62-79 | The corrected `to_nfa`: each index is turned back into the state it numbers. |
| Decomposition.BooleanDecomposition.Intersection | project/re/boolean_decomposition.py:81-118 | Kronecker products of the common symbols. Pair indices are numbered by themselves. A pair is a start (final) state iff both components are. |
| Decomposition.BooleanDecomposition.TransitiveClosure | project/re/boolean_decomposition.py:120-140 | With no matrices, the 0 x 0 matrix. Otherwise an n x n matrix whose entries are exactly the pairs joined by a non-empty walk. |
| Decomposition.BooleanDecomposition.DirectMatrixSum | project/re/boolean_decomposition.py:142-185 | Block-diagonal matrices of the common symbols. The other automaton's states, starts and finals are shifted past this one's. The index map is filled with pair indices, as line 172 writes it. |
| Decomposition.KronMatrices | project/re/boolean_decomposition.py:88-97 | The loop over common symbols builds exactly the Kronecker family. |
| Decomposition.BlockMatrices | project/re/boolean_decomposition.py:149-161 | The loop over common symbols builds exactly the block-diagonal family. |
| Decomposition.UnionShifted | project/re/boolean_decomposition.py:145-147 | The states of the sum are this one's plus the other's shifted by n. |
| Decomposition.PairStates | project/re/boolean_decomposition.py:101-116 | The nested loop yields the identity index over all pair indices, and the start and final pairs. |
| Decomposition.ConstructFront | project/re/boolean_decomposition.py:249-263 | The pooled front: diagonal entry (i, i) for every constraint index i, with the start vertices written right of column k. |
| Decomposition.SepCopies | project/re/boolean_decomposition.py:269-275 | The number of front copies is the number of start indices. A vertex index missing from the index map is a KeyError, iff one exists. |
| Decomposition.ConstructSepFront | project/re/boolean_decomposition.py:266-287 | A KeyError passes through. With no start vertex the front is a k x (k + n) zero matrix. Otherwise it is the pooled front stacked once per start vertex. |
| Bfs.TransformRows | project/re/boolean_decomposition.py:290-304 | `_transform_rows` equals `Transform`: each entry (i, j) with j < k and a non-empty right part moves to row `i // k * k + j` with that right part. |
| Bfs.TransformShaped | project/re/boolean_decomposition.py:298-302 | A transformed matrix keeps every entry's left column inside its own block. |
| Bfs.Pass | project/re/boolean_decomposition.py:221-231 | One pass only adds reachable entries. The first pass closes the front under one step; a pass that adds nothing closes the visited matrix. |
| Bfs.Search | project/re/boolean_decomposition.py:218-234 | The loop ends with a visited matrix whose entries are exactly the entries reachable from the front. |
| Frontier.VisitedExact | project/re/boolean_decomposition.py:220-234 | A matrix of reachable entries that is closed under one step from the front and from itself holds every reachable entry. |
| Frontier.HitsVisited | project/re/boolean_decomposition.py:220-234 | Every vertex a non-empty witness walk reaches is a visited entry of the right row, as is its diagonal anchor. |
| Frontier.TransformElim | project/re/boolean_decomposition.py:293-302 | Each entry of a transformed row comes from an anchor entry of the source with either the anchor column or a right-part column. |
| Frontier.TransformIntro | project/re/boolean_decomposition.py:293-302 | Each anchor entry with a right-part column puts the anchor and that column into the transformed matrix. |
| Fronts.PooledHit | project/re/boolean_decomposition.py:249-263 | Under the pooled front, row r reaches vertex v iff a word leads from constraint state r and from some start vertex to v. |
| Fronts.SepHit | project/re/boolean_decomposition.py:266-287 | Under the stacked front, row r reaches v iff such a word leads from constraint state r mod k. |
| Fronts.FixedHit | project/re/boolean_decomposition.py:266-287 | Under the corrected front, row r reaches v iff a word leads from a constraint start state and from start vertex r // k to v. |
| Fronts.PooledGood | project/re/boolean_decomposition.py:249-263 | The pooled front is a well-formed search start: every row has its diagonal anchor. |
| Fronts.SepGood | project/re/boolean_decomposition.py:266-287 | The stacked front is a well-formed search start. |
| Answers.Collect | project/boolean_decomposition.py:217-227 | The loop over entries succeeds iff every entry's answer does, and then returns their union; otherwise it returns the error of the first failing entry in row-major order, the order of `visited.nonzero()`. |
| Answers.FirstFailingUnique | project/boolean_decomposition.py:217-227 | At most one entry is the first failing one, so the error the loop raises is determined. |
| Answers.CollectByIndex | project/re/boolean_decomposition.py:236-246 | The read-off loop equals `ByIndex`, the answer defined entry by entry. |
| Answers.ByIndexFailure | project/re/boolean_decomposition.py:238-243 | A failing entry fails with ZeroDivisionError when k or n is 0, and with IndexError otherwise. |
| Reports.PooledAnswers | project/re/boolean_decomposition.py:236-246 | Pooled read-off over exactly the reachable entries gives the vertices v reached in an accepting constraint row with v final. |
| Reports.SepAnswers | project/re/boolean_decomposition.py:236-246 | Separated read-off fails with IndexError (ZeroDivisionError when n = 0) iff a counted row's `i // n` is past the start list. Otherwise it gives the labelled pairs. |
| Reports.FixedAnswers | project/re/boolean_decomposition.py:236-246 | Corrected read-off gives the pairs (start vertex, v) joined by an accepted word. |
| Reports.NoConstraintPooled | project/re/boolean_decomposition.py:195-246 | A constraint with no states yields the empty pooled answer. |
| Reports.NoRowsSeparated | project/re/boolean_decomposition.py:276-287 | With no start vertex, or no constraint state, the separated answer is empty. |
| Reports.NoConstraintFixed | project/re/boolean_decomposition.py:195-246 | A constraint with no states yields the empty corrected answer. |
| Reports.NoAnswers | project/re/boolean_decomposition.py:236-246 | Nothing visited means the empty answer, whatever the mode. |
| Reports.ZeroGood | project/re/boolean_decomposition.py:280-287 | The all-false front is a well-formed search start. |
| Decomposition.BooleanDecomposition.SearchFrom | project/re/boolean_decomposition.py:210-234 | The separated front's KeyError passes through. Otherwise the visited matrix holds exactly the entries reachable from the chosen front. |
| Decomposition.BooleanDecomposition.ConstraintBfs | project/re/boolean_decomposition.py:187-246 | `constraint_bfs` returns `BfsOutcome`: the pooled report, or the separated report or its error. |
| Decomposition.ReadOff | project/re/boolean_decomposition.py:236-246 | Read-off over exactly the reachable entries equals `BfsOutcome`. |
| Decomposition.BooleanDecomposition.ConstraintBfsLookup | project/boolean_decomposition.py:183-227 | The csr copy fails iff some reachable entry's lookups fail, and then with the error of the first such entry in row-major order. Otherwise it returns the union of the entry answers. On automata numbered 0..n-1 it agrees with the other copy. |
| Decomposition.LookupOutcome | project/boolean_decomposition.py:217-227 | On automata numbered 0..n-1, the lookup read-off equals the index read-off. |
| Decomposition.BooleanDecomposition.ConstraintBfsFixed | project/re/boolean_decomposition.py:187-246 | Corrected search: the pooled report seeded from the constraint's start states, or the separated report with one k-row block per start vertex labelled by `i // k`. |
| Conversions.MatrixEntry | project/re/boolean_decomposition.py:36-60 | A symbol has a matrix iff some transition carries it. Entry (index p, index q) is set iff p -s-> q is a transition. |
| Conversions.ByStateRoundTrip | project/re/boolean_decomposition.py:62-79 | Reading the matrices back through the state numbering recovers exactly the transitions. |
| Conversions.NumberedRoundTrip | project/re/boolean_decomposition.py:62-79 | When the states are 0..n-1 in order, reading back by index also recovers exactly the transitions. |
| Conversions.ProductMember | project/re/boolean_decomposition.py:101-116 | A pair index is a product start (final) state iff both components are start (final) states. |
| Conversions.ProductPath | project/re/boolean_decomposition.py:81-118 | A path of the product between pair indices is exactly a pair of paths with the same word. |
| Conversions.IntersectionAccepts | project/re/boolean_decomposition.py:81-118 | The product automaton accepts w iff both automata accept w. |
| Conversions.SampleOneAccepts | tests/test_boolean_decomposition.py:68-80 | The first test automaton accepts a, ab and abb and rejects c. |
| Conversions.SampleOneToNfa | tests/test_boolean_decomposition.py:68-80 | Read back through `to_nfa`, the first test automaton (states 0..2) still accepts a, ab and abb and rejects c. |
| Conversions.SampleIntersection | tests/test_boolean_decomposition.py:83-91 | The intersection of the two test automata accepts ab. |
| EarlyDecomposition.BooleanDecomposition.GetBooleanMatrices | project/BooleanDecomposition.py:36-49 | One matrix per symbol of the automaton, holding exactly the transitions of that symbol. |
| EarlyDecomposition.FillMatrices | project/BooleanDecomposition.py:38-47 | The loops create a matrix for every symbol and set exactly the labelled entries. |
| EarlyDecomposition.BooleanDecomposition.Intersection | project/BooleanDecomposition.py:51-82 | The draft: Kronecker products, with pairs numbered by state times m plus state rather than by index. |
| GrammarDecomposition.BooleanDecomposition.FromRsm | project/cfg/cf_bd.py:16-46 | Box states are tagged by their nonterminal and numbered in the given order. Start and final tags are kept. The matrices have exactly the box transitions. |
| GrammarDecomposition.TagStates | project/cfg/cf_bd.py:18-29 | The loop collects exactly the tagged states, start states and final states of all boxes. |
| GrammarDecomposition.RsmMatrices | project/cfg/cf_bd.py:32-44 | The loops build exactly the family of box transitions between tagged indices. |
| GrammarDecomposition.RsmEntry | project/cfg/cf_bd.py:36-44 | Entry (i, j) of symbol s is set iff both tagged states lie in the same box with the transition i -s-> j there. |
| GrammarDecomposition.BooleanDecomposition.FromAutomata | project/cfg/cf_bd.py:48-73 | States are numbered by enumeration. Start and final states are copied. The matrices are the symbol family. |
| GrammarDecomposition.SymbolMatrices | project/cfg/cf_bd.py:52-67 | The loops build exactly the symbol family. |
| GrammarDecomposition.SymbolEntry | project/cfg/cf_bd.py:56-67 | Entry (i, j) of s is set iff s is a symbol and state i -s-> state j is a transition. |
| GrammarDecomposition.BooleanDecomposition.Intersect | project/cfg/cf_bd.py:76-104 | Kronecker products of the common labels. Each state pair gets index self_idx * |other| + other_idx. Start (final) pairs are pairs of start (final) states. |
| GrammarDecomposition.PairAll | project/cfg/cf_bd.py:86-100 | The nested loop yields exactly the pair index map and the start and final pairs. |
| GrammarDecomposition.PairDecode | project/cfg/cf_bd.py:86-90 | A pair's index decodes by `//` and `%` into its two components' indices. |
| GrammarDecomposition.BooleanDecomposition.TransitiveClosure | project/cfg/cf_bd.py:106-120 | An n x n matrix whose entries are exactly the pairs joined by a non-empty walk, including when it starts empty. |
| Grammars.SplitProductions | project/cfg/cfpq_algo.py:28-34 | The loop splits the productions into exactly the nullable heads, the terminal rules and the binary rules. |
| Grammars.LeastUnique | project/hellings.py:8-54 | Two least closed sets over the same seeds and rules are equal, so every algorithm's answer is determined. |
| Hellings.Saturate | project/hellings.py:33-52 | The worklist loop ends with the least set that contains the seeds and is closed under the binary rules. |
| Hellings.Solve | project/hellings.py:17-52 | The split, the seeds of nullable variables and terminal edges, and the worklist yield the least closed set over those seeds. |
| Hellings.HellingsVij | project/hellings.py:8-54 | `hellings` returns the least closed set as (v, i, j) triples. |
| Hellings.HellingsIvj | project/cfg/cfpq_algo.py:15-65 | `_hellings` returns the least closed set as (i, v, j) triples. |
| MatrixClosure.SeedMatrices | project/cf_matrix_prod.py:30-39 | One n x n matrix per variable, whose entries are exactly the seeds. |
| MatrixClosure.SumProducts | project/cf_matrix_prod.py:45-47 | The sum over a head's bodies holds every product of those bodies and nothing else. |
| MatrixClosure.Pass | project/cf_matrix_prod.py:42-48 | A pass only adds facts that every closed superset has. It grows strictly when it reports a change; otherwise the facts are closed. |
| MatrixClosure.Fixpoint | project/cf_matrix_prod.py:41-51 | The passes end with the least closed set over the seeds. |
| MatrixClosure.CfClosure | project/cf_matrix_prod.py:10-57 | `cf_closure` and `_cf_closure` return the least closed set as (i, v, j) triples. |
| Tensor.SeedNullable | project/cfg/cfpq_algo.py:135-137 | The graph matrices gain a self-loop on every vertex for each nullable nonterminal. |
| Tensor.Decode | project/cfg/cfpq_algo.py:149-157 | A closure entry decodes into machine and graph indices. It fires iff it runs from a box start state to a box final state; its label is the box's nonterminal. |
| Tensor.RecordAll | project/cfg/cfpq_algo.py:149-162 | Writing the fired entries keeps the graph matrices below every family closed under the box rule. |
| Tensor.Round | project/cfg/cfpq_algo.py:139-162 | A round either stops with the least closed family or makes progress: new facts, or one more synchronised round. |
| Tensor.Saturate | project/cfg/cfpq_algo.py:139-162 | The rounds leave the graph decomposition's matrices as the least family closed under the box rule. |
| Tensor.TensorProd | project/cfg/cfpq_algo.py:121-168 | `_tensor_prod` returns the triples of the least family that contains the graph edges and nullable loops and is closed under the box rule. |
| Cfpq.Defaulted | project/cfpq.py:18-22 | A missing or empty node set stands for every vertex; a non-empty one is kept. |
| Cfpq.LeastDerivable | project/cfpq.py:8-29 | The least closed set is exactly the set of facts every closed superset of the seeds holds. |
| Cfpq.FilterVij | project/cfpq.py:24-29 | The filter keeps exactly the pairs of start-symbol facts from a start node to a final node. |
| Cfpq.FilterIvj | project/cfg/cfpq.py:28-33 | The same filter over (i, v, j) triples. |
| Cfpq.Cfpq | project/cfpq.py:8-29 | (i, j) is reported iff i and j are in the defaulted node sets and the start symbol derives from i to j. |
| Cfpq.CfpqMatrix | project/cfpq.py:32-54 | The matrix front-end reports exactly the same pairs. |
| Cfpq.CfgCfpq | project/cfg/cfpq.py:10-33 | With Hellings or the matrix algorithm, exactly the derivable pairs. With the tensor algorithm, exactly the start-symbol entries of the least box-closed family. |
| Rpq.DecodeEntries | project/rpq.py:30-38 | The loop keeps exactly the closure entries from a product start state to a product final state, decoded to graph vertices by `// k`. |
| Rpq.Decoding | project/rpq.py:20-38 | Decoding a closure of the product gives exactly the vertex pairs joined by a word the regex accepts. |
| Rpq.EntryJoined | project/rpq.py:30-38 | Every decoded closure entry is a pair of vertices joined by an accepted word. |
| Rpq.JoinedEntry | project/rpq.py:30-38 | Every such pair of vertices has a closure entry that decodes to it. |
| Rpq.RequestPathQuery | project/rpq.py:11-40 | (a, b) is reported iff a non-empty word the regex accepts labels a graph path from the state at index a (a start state) to the state at index b (a final state). The empty word never counts, because closure by squaring holds only non-empty walks. |
| Rpq.RpqBfs | project/rpq.py:43-68 | A separated search over a graph with a missing index fails with KeyError. Otherwise the result is the union of the reachable entries' answers, or the error of the first failing reachable entry in row-major order. On automata numbered 0..n-1 the result is `BfsOutcome` of the search. |
| Cyk.CykSplit | project/cyk.py:14-18 | Productions split into exactly those with one body symbol and the rest. |
| Cyk.BaseCase | project/cyk.py:23-26 | After the base loop, every diagonal cell holds exactly the variables with a terminal rule for that letter. |
| Cyk.BaseRow | project/cyk.py:24-26 | One step of the base loop fills one more diagonal cell correctly. |
| Cyk.FillSplit | project/cyk.py:34-37 | One split point adds exactly the variables derivable by splitting at it. |
| Cyk.FillCell | project/cyk.py:32-37 | A cell of span m is filled with exactly the variables deriving that substring. |
| Cyk.FillSpan | project/cyk.py:29-37 | After span m, every cell of span up to m + 1 holds exactly the variables deriving it. |
| Cyk.Cyk | project/cyk.py:4-39 | The empty query answers `generate_epsilon`. A non-empty query is accepted iff the grammar generates it. |
| Cyk.GenGenerates | project/cyk.py:4-39 | The CYK recurrence for the whole query holds iff the grammar generates the query. |
| Cyk.GenSound | project/cyk.py:28-39 | The recurrence implies generation. |
| Cyk.GenComplete | project/cyk.py:28-39 | Generation implies the recurrence. |
| Cyk.GenClosed | project/cyk.py:28-37 | Every span the recurrence gives is in every closed set of facts over the line graph of the query. |
| Cyk.SpansClosed | project/cyk.py:28-37 | The spans the recurrence gives contain the seeds and are closed under the binary rules. |
| Ecfg.EcfgFromCfg | project/cfg/ecfg.py:22-41 | Variables, terminals and start symbol are kept. Heads are exactly the production heads. Each head's alternatives are exactly its bodies, joined by "." or "$" when empty. |
| Ecfg.SampleBodies | tests/test_ecfg.py:10-37 | For S -> a C b and C -> $, the heads are S and C, with the bodies a.C.b and $. |
| Ecfg.BodyTextSplits | project/cfg/ecfg.py:30-32 | A body whose names contain no "." splits back into its names. |
| Ecfg.SplitJoin | project/cfg/ecfg.py:30-32 | Joining by a one-character separator absent from the parts, then splitting, gives back the parts. |
| Ecfg.LStripSpaces | project/cfg/ecfg.py:61 | `lstrip` returns a suffix that starts with a non-space, after a prefix made of spaces only. |
| Ecfg.RStripSpaces | project/cfg/ecfg.py:72 | `rstrip` returns a prefix that ends with a non-space, before a suffix made of spaces only. |
| Ecfg.StripClean | project/cfg/ecfg.py:70 | `strip` leaves a string unchanged iff it is empty or starts and ends with a non-space. |
| Ecfg.FindFirst | project/cfg/ecfg.py:70 | `Find` returns the first occurrence of the separator: none occurs before it. |
| Ecfg.FindIs | project/cfg/ecfg.py:70 | A position with the separator and none before it, or the end with none at all, is what `Find` returns. |
| Ecfg.LowerChars | project/cfg/ecfg.py:76-78 | The terminals of a body are exactly its one-character lower-case letters. |
| Ecfg.ParseRender | project/cfg/ecfg.py:70-72 | A line written as head "->" body, with no arrow in either part and no outer whitespace, reads back as the right-stripped head and the body. |
| Ecfg.EcfgReader.ReadLine | project/cfg/ecfg.py:68-80 | A line without exactly one arrow raises ValueError and changes nothing. Otherwise the head is added to the variables, the body's letters to the terminals, and the body becomes the head's production. |
| Ecfg.EcfgReader.AddTerminals | project/cfg/ecfg.py:76-78 | The loop adds exactly the body's lower-case letters to the terminals and changes nothing else. |
| Ecfg.EcfgFromText | project/cfg/ecfg.py:52-66 | Reading the text equals `ReadAll` of its stripped lines, starting from the empty ECFG with the given start symbol. |
| Ecfg.ReadAllSucceeds | project/cfg/ecfg.py:61-64 | Reading succeeds iff every non-empty line parses. |
| Ecfg.ReadAllKeys | project/cfg/ecfg.py:74-80 | Reading keeps the production heads equal to the variables. |
| Ecfg.ReadAllSnoc | project/cfg/ecfg.py:61-64 | Reading lines then one more line is reading the last line from the result of the first ones. |
| Ecfg.LastLineWins | project/cfg/ecfg.py:80 | A later line for a head replaces that head's production with its body. |
| BfsFindings.VertexCountBlocks | project/re/boolean_decomposition.py:243 | As written: the separated search on a one-vertex loop graph with a two-state constraint fails with IndexError. |
| BfsFindings.ConstraintSizeBlocks | project/re/boolean_decomposition.py:243 | Corrected: the same input reports the loop vertex for its start vertex. |
| BfsFindings.IdenticalCopies | project/re/boolean_decomposition.py:275 | As written: with two start vertices, the block of start vertex 1 reports vertex 1, although no walk leaves vertex 1. |
| BfsFindings.SeparateCopies | project/re/boolean_decomposition.py:275 | Corrected: the same input pairs vertex 1 only with start vertex 0. |
| BfsFindings.EveryStateSeeded | project/re/boolean_decomposition.py:259-261 | As written: seeding every constraint state reports a vertex reached by a word the constraint does not accept. |
| BfsFindings.StartStatesSeeded | project/re/boolean_decomposition.py:259-261 | Corrected: seeding only the start state reports nothing on the same input. |
| Conversions.ToNfaLosesWords | project/re/boolean_decomposition.py:69-77 | As written: a one-state automaton named 5 accepts "a", but its `to_nfa` does not. |
| EarlyDecomposition.DraftLosesWords | project/BooleanDecomposition.py:67 | As written, with states read as their numbers: the draft pairs states 5 and 0 into index 5, outside the 1 x 1 matrices, so the product of two automata accepting "a" accepts nothing. |

## Left out

- Building automata from regular expressions, graphs and recursive state machines is left out; it is done by the automaton library. The automata arrive as values (`Nfa`, boxes, `order`), and epsilon transitions are not modelled.
- Graph input (networkx graphs, `graph_to_epsilon_nfa`) is not modelled. A graph is a set of labelled edges over vertices 0..n-1.
- scipy's sparse formats (csr, lil, dok), `matrix_converter` and the `matrix_type` argument are left out. Every matrix is a set of true entries with a shape.
- Grammar normalisation is left out. Hellings, the matrix algorithm and CYK take the grammar already in weak or Chomsky normal form, as `WeakNormal` and `ChomskyNormal` require. CYK gets `generate_epsilon` as the parameter `generatesEpsilon`.
- `Algo`'s tensor case gets the grammar's recursive state machine, its state order, the graph automaton and the nullable nonterminals as data, because building them is library work.
- `ecfg_from_file` is not modelled; it reads a file and then calls `ecfg_from_text`, which is modelled.
- Ecfg: body text is kept as text (`Pattern.Text`), and `union` is a `Pattern.Union` node. Regular-expression parsing is not modelled.
- Ecfg.LowerChars: `str.islower` is modelled for ASCII letters only.
- Ecfg.EcfgFromCfg: the CFG's terminal set is passed as a parameter, because `Grammar` keeps terminals only inside productions.
- `project/ecfg.py` (`ecfg_from_cfg`, lines 18-33) is line for line the same as `project/cfg/ecfg.py`; `Ecfg.EcfgFromCfg` models both.
- The debug `print` of the draft's constructor (`project/BooleanDecomposition.py:26`) is left out.
- Set and dictionary iteration order is modelled only where it changes the result. The answer loop takes the visited entries in row-major order, as `nonzero()` lists them, because the first failing entry decides which error is raised. The Hellings queue order and the order of pair numbering are arbitrary in the model and are shown not to change the result.
- Decomposition.BooleanDecomposition.DirectMatrixSum: the pair-indexed `indexed_states` it writes is stated, but nothing downstream reads it.
- Python's `State` equality with integers, and the `State(x.value + n)` wrapping, are modelled by plain natural numbers.
- EarlyDecomposition.BooleanDecomposition: states are read as their numbers, so line 67 of `project/BooleanDecomposition.py` becomes arithmetic on those numbers. With the automaton library's `State` objects, `left_state * other.num_of_states + right_state` most likely raises TypeError for any two non-empty automata; that error is not modelled. Transition targets are always sets in the model, so the TypeError raised at lines 43-44 when a deterministic automaton gives a bare target `State` (no singleton wrapping, unlike the later copies) is not modelled either.
- EarlyDecomposition.DraftLosesWords: it exhibits the draft's pair numbering only under the reading of states as numbers. It does not capture that, with real `State` objects, line 67 most likely raises TypeError before any pair is numbered.
- Tensor.TensorProd and Cfpq.CfgCfpq: the tensor result is proved to be the least family closed under the box rule. Its equality with the derivable facts of the grammar is not proved, because the recursive state machine and the nullable set arrive as data that the model does not connect to the `Grammar`, so derivability cannot be stated about them.
- Cfpq: `cfg._start_symbol` is overwritten in place in the source. The model passes the start symbol as a parameter.

## Findings

| source | as written | input that shows it | evidently intended | confidence | as-written member | corrected member |
|---|---|---|---|---|---|---|
| project/re/boolean_decomposition.py:243 (also project/boolean_decomposition.py:224) | The separated answer labels row i by `start_states_indices[i // n]`, but each start vertex's block is k rows tall. | Constraint 0 -a-> 1 (k = 2), graph of one vertex with an a-loop (n = 1), one start vertex: row 1 is counted and `1 // 1` is past the one-element list, so IndexError is raised. | Label row i by `i // k`. | not executed | BfsFindings.VertexCountBlocks | BfsFindings.ConstraintSizeBlocks |
| project/re/boolean_decomposition.py:275 (also project/boolean_decomposition.py:256) | Every stacked copy of the separated front is the pooled front, carrying all start vertices. | Constraint 0 -a-> 1, graph 0 -a-> 1, both vertices start and final: the block of start vertex 1 reports (1, 1) although no walk leaves vertex 1. | Copy b carries only start vertex b. | not executed | BfsFindings.IdenticalCopies | BfsFindings.SeparateCopies |
| project/re/boolean_decomposition.py:259-261 (also project/boolean_decomposition.py:240-242) | The front seeds a diagonal entry for every constraint state, not only the start states. | Constraint 1 -a-> 2, 0 -b-> 2, with start 0 and final 2; graph 0 -a-> 1: vertex 1 is reported, yet "a" is not accepted from state 0. | Seed only the constraint's start states. | not executed | BfsFindings.EveryStateSeeded | BfsFindings.StartStatesSeeded |
| project/re/boolean_decomposition.py:69-77 (also project/boolean_decomposition.py:66-74) | `to_nfa` writes transitions between matrix indices but copies start and final states unchanged. | The one-state automaton 5 -a-> 5, with 5 start and final: `to_nfa` gives 0 -a-> 0 with start and final 5, and "a" is no longer accepted. | Turn each index back into its state. | not executed | Conversions.ToNfaLosesWords | Decomposition.BooleanDecomposition.ToNfaByState |
| project/BooleanDecomposition.py:67 | The draft numbers a pair by `left_state * m + right_state`, using states rather than indices. Read with states as numbers, the pair is numbered 5 in the input shown; with the library's `State` objects the expression most likely raises TypeError instead. | Automata 5 -a-> 5 and 0 -a-> 0, each with its state start and final: the pair is numbered 5, outside the 1 x 1 product matrices, and the product accepts nothing. | Number the pair `left_index * m + right_index`, as the later copies do. | not executed | EarlyDecomposition.DraftLosesWords | Decomposition.BooleanDecomposition.Intersection |
