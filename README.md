# Control-flow graphs from Java methods: a Dafny model

The system turns Java methods into control-flow graphs for program-analysis and learning experiments. It does this along two paths:

- **The flow-graph builder.** A Java visitor grows a graph of statement and condition vertices directly from one method's syntax tree.
- **The tagged control-tree path.** A Java tagger first builds a tagged control tree for each method. A Rust processor then lowers that tree to a control-flow graph.

Both paths rely on helpers, and this project models those as well:

- a ternary flattener that rewrites every `?:` into `if`/`else` before the graph is built;
- canonicalizers that replace variable names and literals by placeholders in the texts the tagger records;
- the byte-level encoders and decoders that carry messages between the parts;
- the Python helpers that split work among workers.

Trees, graphs and messages are Dafny values. Objects the source updates in place are classes: the tagger, the graph builder's visitor, the ternary flattener's shared method count, a flow-graph vertex's metadata, the Rust processor and the stream decoder. The following are inputs of the model, passed as parameters:

- symbol resolution of types;
- JSON serialization;
- the parser, which reads back texts the tagger assembles (modelled by the tree it yields).

| file | module | models |
|---|---|---|
| `wrappers.dfy` | `Wrappers` | Option and Result |
| `bytes.dfy` | `Bytes` | bytes, big- and little-endian encodings, two's complement, UTF-8 |
| `java_ast.dfy` | `JavaAst` | the Java syntax tree and its one-line rendering |
| `flow_node.dfy` | `FlowNodes` | `FlowNode`: identity, hash, metadata, rendering |
| `flow_graph.dfy` | `FlowGraph` | the simple directed graph the builder grows |
| `graph_builder_support.dfy` | `GraphBuilderSupport` | vertex keys, jump-target searches, for-each rewriting texts |
| `ast_to_graph.dfy` | `AstToGraph` | the graph surgery of each `visit` of `AstToGraphConverter` |
| `converter.dfy` | `AstToGraphConverter` | the visitor itself, as a class with its graph and counters |
| `cond_expr_to_if.dfy`, `cond_expr_to_if_proofs.dfy` | `CondExprToIf`, `CondExprToIfProofs` | `CondExprToIfConverter` and its properties |
| `variable_canonicalizer.dfy`, `literal_canonicalizer.dfy`, `canonicalizer.dfy` | `VariableCanonicalizer`, `LiteralCanonicalizer`, `Canonicalizer` | the two visitors and the four canonicalizers built from them |
| `control_tree.dfy` | `ControlTree` | the tagged control tree |
| `ast_tagger.dfy` | `AstTagger` | `AstTagger`, which builds the control tree |
| `cfg_graph.dfy` | `CfgGraph` | the petgraph multigraph the Rust processor builds |
| `ast_processor.dfy` | `AstProcessor` | `ast_processor.rs`, which lowers the tree to a graph |
| `codec.dfy` | `Codec` | the length-prefixed stream decoder of `codec/mod.rs` |
| `graph_tool_attrs.dfy` | `GraphToolAttrs` | graph-tool attribute encodings of `attr_types/mod.rs` |
| `capnp_message.dfy` | `MessageFraming` | `Message::encode` framing |
| `server_connection.dfy` | `ServerConnection` | `calculateMessageLength`, the Cap'n Proto stream-framing length |
| `ge_utils.dfy` | `GeUtils` | `utils.py`: node numbering and partitioning |

All `.dfy` files form one program. They are verified together:

```
dafny verify --resource-limit 2000000 --verification-time-limit 0 --warn-contradictory-assumptions *.dfy
```

## Model

Each row names a member and the source lines it models, and says what its contract states.

| member | source | states |
|---|---|---|
| FlowNodes.FlowNode.OfNode | GraphGenerator/app/src/main/java/edu/ncsu/edm/graphgenerator/FlowNode.java:22-31 | a node-backed vertex: the node and the optional label set, no name, empty metadata |
| FlowNodes.FlowNode.OfName | GraphGenerator/app/src/main/java/edu/ncsu/edm/graphgenerator/FlowNode.java:33-38 | a name-backed vertex: the name set, no node, no label, empty metadata |
| FlowNodes.FlowNode.AddMetadata | GraphGenerator/app/src/main/java/edu/ncsu/edm/graphgenerator/FlowNode.java:48-50 | the key now maps to the value, every other key keeps its value, node, label and name are unchanged |
| FlowNodes.FlowNode.GetMetadata | GraphGenerator/app/src/main/java/edu/ncsu/edm/graphgenerator/FlowNode.java:52-54 | a value exactly when the key is stored, and then the stored one (null otherwise) |
| FlowNodes.MetadataRoundTrip | GraphGenerator/app/src/main/java/edu/ncsu/edm/graphgenerator/FlowNode.java:48-54 | after two `addMetadata` calls on one key, `getMetadata` returns the later value |
| FlowNodes.FlowNode.Equals | GraphGenerator/app/src/main/java/edu/ncsu/edm/graphgenerator/FlowNode.java:310-321 | equal vertices are non-null and share their node or their name |
| FlowNodes.NodeBackedEquality | GraphGenerator/app/src/main/java/edu/ncsu/edm/graphgenerator/FlowNode.java:316-318 | node-backed vertices are equal exactly when they wrap the same node instance |
| FlowNodes.NameBackedEquality | GraphGenerator/app/src/main/java/edu/ncsu/edm/graphgenerator/FlowNode.java:320 | name-backed vertices are equal exactly when their names are equal |
| FlowNodes.NodeNeverEqualsName | GraphGenerator/app/src/main/java/edu/ncsu/edm/graphgenerator/FlowNode.java:310-321 | a node-backed vertex never equals a name-backed one, in either direction |
| FlowNodes.NullNeverEqual | GraphGenerator/app/src/main/java/edu/ncsu/edm/graphgenerator/FlowNode.java:311-313 | no vertex equals null |
| FlowNodes.FlowNode.KeyOf | GraphGenerator/app/src/main/java/edu/ncsu/edm/graphgenerator/FlowNode.java:316-320 | the identity of a vertex is its node if it has one, its name otherwise |
| FlowNodes.EqualsIsKeyEquality | GraphGenerator/app/src/main/java/edu/ncsu/edm/graphgenerator/FlowNode.java:310-321 | on constructed vertices `equals` is equality of identities, hence reflexive, symmetric and transitive |
| FlowNodes.LabelIgnored | GraphGenerator/app/src/main/java/edu/ncsu/edm/graphgenerator/FlowNode.java:310-321 | two vertices for the same node are equal whatever their labels |
| FlowNodes.FlowNode.HashCode | GraphGenerator/app/src/main/java/edu/ncsu/edm/graphgenerator/FlowNode.java:324-332 | the node's hash when there is a node, else the name's Java string hash, and an error exactly when there is neither |
| FlowNodes.HashConsistentWithEquals | GraphGenerator/app/src/main/java/edu/ncsu/edm/graphgenerator/FlowNode.java:310-332 | equal vertices have equal hashes, whatever hash the nodes have |
| FlowNodes.ValidHashes | GraphGenerator/app/src/main/java/edu/ncsu/edm/graphgenerator/FlowNode.java:324-332 | a constructed vertex never throws from `hashCode` |
| FlowNodes.WrapInt | GraphGenerator/app/src/main/java/edu/ncsu/edm/graphgenerator/FlowNode.java:328 | the result is a Java `int` congruent to the input modulo 2^32, and an input already in range is unchanged |
| FlowNodes.Utf16Units | GraphGenerator/app/src/main/java/edu/ncsu/edm/graphgenerator/FlowNode.java:328 | a character below U+10000 is one code unit; any other is a high and a low surrogate that decode back to it |
| FlowNodes.HashUnits | GraphGenerator/app/src/main/java/edu/ncsu/edm/graphgenerator/FlowNode.java:328 | the `31 * h + u` hash over code units stays in the `int` range and leaves `h` as it is over no units |
| FlowNodes.StringHash | GraphGenerator/app/src/main/java/edu/ncsu/edm/graphgenerator/FlowNode.java:328 | `String.hashCode`, taken over the string's UTF-16 units, always lies in the `int` range |
| FlowNodes.ShortStringHashes | GraphGenerator/app/src/main/java/edu/ncsu/edm/graphgenerator/FlowNode.java:328 | the empty string hashes to 0; a one-character string hashes to its code below U+10000, and to `31 * high + low` over its surrogates above |
| FlowNodes.FlowNode.ToString | GraphGenerator/app/src/main/java/edu/ncsu/edm/graphgenerator/FlowNode.java:282-307 | a name-backed vertex renders as its name, and rendering fails exactly when there is neither node nor name |
| FlowNodes.NamedRendering | GraphGenerator/app/src/main/java/edu/ncsu/edm/graphgenerator/FlowNode.java:303-304 | the synthetic "before" vertex renders as "before" |
| GraphBuilderSupport.ScaffoldEdge | GraphGenerator/app/src/main/java/edu/ncsu/edm/graphgenerator/AstToGraphConverter.java:25-37 | the edge a statement's visit rewrites exists exactly when the statement's vertex has one outgoing edge, and then it is that edge; a missing vertex is `NoSuchVertex`, any other out-degree `OutDegreeNotOne` carrying the degree |
| GraphBuilderSupport.FirstWithTag | GraphGenerator/app/src/main/java/edu/ncsu/edm/graphgenerator/AstToGraphConverter.java:269-272 | finds an edge with the given flow condition exactly when one exists, and it is the first such edge in order |
| GraphBuilderSupport.FirstNotInto | GraphGenerator/app/src/main/java/edu/ncsu/edm/graphgenerator/AstToGraphConverter.java:515-517 | finds an edge whose target is not the given vertex exactly when one exists |
| GraphBuilderSupport.Chain | GraphGenerator/app/src/main/java/edu/ncsu/edm/graphgenerator/AstToGraphConverter.java:314-324 | links consecutive vertices of a list, one edge per adjacent pair, each carrying the same flow condition |
| GraphBuilderSupport.NearestBreakable | GraphGenerator/app/src/main/java/edu/ncsu/edm/graphgenerator/AstToGraphConverter.java:388 | finds a vertex exactly when some enclosing loop or switch still has its vertex in the graph |
| GraphBuilderSupport.NearestContinuable | GraphGenerator/app/src/main/java/edu/ncsu/edm/graphgenerator/AstToGraphConverter.java:411 | finds a vertex exactly when some enclosing loop still has its vertex in the graph |
| GraphBuilderSupport.LabeledAncestor | GraphGenerator/app/src/main/java/edu/ncsu/edm/graphgenerator/AstToGraphConverter.java:386 | finds an enclosing statement exactly when one whose vertex is in the graph carries the label, and that statement carries it |
| GraphBuilderSupport.BreakTarget | GraphGenerator/app/src/main/java/edu/ncsu/edm/graphgenerator/AstToGraphConverter.java:384-392 | a missing labelled or breakable ancestor is `AncestorNotFound`; otherwise the target is the end of the ancestor's first false-tagged outgoing edge |
| GraphBuilderSupport.ContinueTarget | GraphGenerator/app/src/main/java/edu/ncsu/edm/graphgenerator/AstToGraphConverter.java:404-415 | a missing ancestor is `AncestorNotFound`; a label on an if statement is `ContinueToLabeledIf`; otherwise the target is the end of the ancestor's first true-tagged outgoing edge |
| GraphBuilderSupport.ChooseDesugaring | GraphGenerator/app/src/main/java/edu/ncsu/edm/graphgenerator/AstToGraphConverter.java:112-166 | arrays and strings are rewritten over an index (with `get`/`length()` exactly over strings), other reference types over an iterator named after the qualified name of their single type argument; an unresolved type, a primitive type, a type-argument count other than one, and a single argument that is not a reference type (a type variable, a wildcard, an array) are errors |
| GraphBuilderSupport.NatToStringInjective | GraphGenerator/app/src/main/java/edu/ncsu/edm/graphgenerator/AstToGraphConverter.java:127 | two counter values give the same decimal text exactly when they are equal |
| GraphBuilderSupport.LoopVariablesDistinct | GraphGenerator/app/src/main/java/edu/ncsu/edm/graphgenerator/AstToGraphConverter.java:127-188 | every rewritten for-each loop gets its own `indexN` or `iteratorN` variable: two counter values name the same variable exactly when they are equal |
| GraphBuilderSupport.SingleCaseTest | GraphGenerator/app/src/main/java/edu/ncsu/edm/graphgenerator/AstToGraphConverter.java:438-449 | a case with one label is decided on one equality between the selector text and the label |
| GraphBuilderSupport.ChildrenAreDistinct | GraphGenerator/app/src/main/java/edu/ncsu/edm/graphgenerator/AstToGraphConverter.java:314-323 | the vertices made for the children of one statement are pairwise distinct |
| FlowGraph.RerouteIncomingValid | GraphGenerator/app/src/main/java/edu/ncsu/edm/graphgenerator/AstToGraphConverter.java:64-71 | copying the edges into one vertex onto another keeps the graph simple and well formed, keeps its vertices and keeps every existing edge in order |
| FlowGraph.RerouteIncomingMeaning | GraphGenerator/app/src/main/java/edu/ncsu/edm/graphgenerator/AstToGraphConverter.java:64-71 | after rerouting, every predecessor of the source is linked to the target, with the incoming edge's flow condition when it was not linked before, and every new edge goes into the target from a predecessor with that predecessor's condition |
| FlowGraph.RerouteOutgoingValid | GraphGenerator/app/src/main/java/edu/ncsu/edm/graphgenerator/AstToGraphConverter.java:73-80 | copying the edges out of one vertex onto another keeps the graph simple and well formed, keeps its vertices and keeps every existing edge in order |
| FlowGraph.RerouteOutgoingMeaning | GraphGenerator/app/src/main/java/edu/ncsu/edm/graphgenerator/AstToGraphConverter.java:73-80 | after rerouting, the target is linked to every successor of the source, with the outgoing edge's flow condition when it was not linked before, and every new edge leaves the target towards a successor with that successor's condition |
| AstToGraph.RerouteIncomingEdges | GraphGenerator/app/src/main/java/edu/ncsu/edm/graphgenerator/AstToGraphConverter.java:64-71 | the loop over the incoming edges builds exactly the rerouted graph |
| AstToGraph.RerouteOutgoingEdges | GraphGenerator/app/src/main/java/edu/ncsu/edm/graphgenerator/AstToGraphConverter.java:73-80 | the loop over the outgoing edges builds exactly the rerouted graph |
| AstToGraph.Replace | GraphGenerator/app/src/main/java/edu/ncsu/edm/graphgenerator/AstToGraphConverter.java:311-312 | rerouting a vertex's incoming edges and removing it leaves every other vertex in place and that vertex gone |
| AstToGraph.AddDecisionNode | GraphGenerator/app/src/main/java/edu/ncsu/edm/graphgenerator/AstToGraphConverter.java:52-56 | a new decision vertex gets exactly a true edge to the true target and a false edge to the false target; an existing vertex keeps the vertex set |
| AstToGraph.MarkExit | GraphGenerator/app/src/main/java/edu/ncsu/edm/graphgenerator/AstToGraphConverter.java:299-300 | the scaffold edge is replaced by a false-tagged edge to the same target, every other edge kept in order |
| AstToGraph.ExpandMethod | GraphGenerator/app/src/main/java/edu/ncsu/edm/graphgenerator/AstToGraphConverter.java:83-97 | a method without a body is `MissingMethodBody`; otherwise the entry, method, body and exit vertices are added and chained in that order |
| AstToGraph.FinishMethod | GraphGenerator/app/src/main/java/edu/ncsu/edm/graphgenerator/AstToGraphConverter.java:99-100 | the method vertex's predecessors are rerouted to the end of its first outgoing edge and the vertex removed; a missing vertex or a vertex without outgoing edges is an error |
| AstToGraph.ExpandIf | GraphGenerator/app/src/main/java/edu/ncsu/edm/graphgenerator/AstToGraphConverter.java:280-300 | the if's vertex links to a decision vertex whose true edge goes to the then-branch and false edge to the else-branch or, without one, to the follower; both branches link to the follower and the scaffold edge becomes a false-tagged one |
| AstToGraph.IfShape | GraphGenerator/app/src/main/java/edu/ncsu/edm/graphgenerator/AstToGraphConverter.java:280-300 | the if statement's rewrite steps compose to the graph `ExpandIf` promises |
| AstToGraph.ExpandBlock | GraphGenerator/app/src/main/java/edu/ncsu/edm/graphgenerator/AstToGraphConverter.java:307-327 | an empty block is bypassed and removed; otherwise its statements are added, chained in order to the follower, and the block's predecessors rerouted to the first statement |
| AstToGraph.BlockShape | GraphGenerator/app/src/main/java/edu/ncsu/edm/graphgenerator/AstToGraphConverter.java:314-324 | chaining the statements and then linking the last one to the follower gives one chain ending at the follower |
| AstToGraph.ExpandWhile | GraphGenerator/app/src/main/java/edu/ncsu/edm/graphgenerator/AstToGraphConverter.java:332-342 | the loop's vertex gets a false edge to the follower and a true edge to a decision vertex, which branches to the body or the follower; the body links back to the loop's vertex |
| AstToGraph.WhileShape | GraphGenerator/app/src/main/java/edu/ncsu/edm/graphgenerator/AstToGraphConverter.java:332-342 | the while statement's rewrite steps compose to the graph `ExpandWhile` promises |
| AstToGraph.ExpandLabeled | GraphGenerator/app/src/main/java/edu/ncsu/edm/graphgenerator/AstToGraphConverter.java:349-355 | fails, with `NoSuchVertex`, exactly on a labelled statement whose scaffold edge is a self-loop; otherwise a vertex carrying the label replaces the statement's vertex and links to the follower |
| AstToGraph.ExpandDo | GraphGenerator/app/src/main/java/edu/ncsu/edm/graphgenerator/AstToGraphConverter.java:360-368 | adds the body and a decision vertex that branches back to the body or to the follower; the body links to the decision and the loop's vertex links to both, keeping its scaffold edge |
| AstToGraph.DoShape | GraphGenerator/app/src/main/java/edu/ncsu/edm/graphgenerator/AstToGraphConverter.java:360-368 | the do statement's rewrite steps compose to the graph `ExpandDo` promises |
| AstToGraph.FinishDo | GraphGenerator/app/src/main/java/edu/ncsu/edm/graphgenerator/AstToGraphConverter.java:370-372 | the loop's predecessors are rerouted to the target of its first untagged outgoing edge, and the loop's vertex is kept; no such edge is `NoSuchElement` |
| AstToGraph.JumpTo | GraphGenerator/app/src/main/java/edu/ncsu/edm/graphgenerator/AstToGraphConverter.java:390-397 | a break or continue drops its outgoing edges, hands its predecessors to the jump target and disappears |
| AstToGraph.ReturnTo | GraphGenerator/app/src/main/java/edu/ncsu/edm/graphgenerator/AstToGraphConverter.java:427-429 | fails exactly when the method's exit vertex is absent; otherwise the return's only outgoing edge goes to the exit and every other edge is kept |
| AstToGraph.ForEachParts | GraphGenerator/app/src/main/java/edu/ncsu/edm/graphgenerator/AstToGraphConverter.java:122-173 | an index rewriting makes five vertices, an iterator rewriting four |
| AstToGraph.ForEachPartsDistinct | GraphGenerator/app/src/main/java/edu/ncsu/edm/graphgenerator/AstToGraphConverter.java:122-173 | the vertices of one for-each rewriting are pairwise distinct |
| AstToGraph.IndexLoopParts | GraphGenerator/app/src/main/java/edu/ncsu/edm/graphgenerator/AstToGraphConverter.java:122-151 | adds the declaration, index initialisation, element assignment, index update and test vertices, with the test branching to the assignment or the follower and the loop edges declaration→init→test, assignment→body→update→test |
| AstToGraph.IteratorLoopParts | GraphGenerator/app/src/main/java/edu/ncsu/edm/graphgenerator/AstToGraphConverter.java:161-186 | adds the iterator, declaration, assignment and test vertices, with the test branching to the assignment or the follower and the loop edges declaration→iterator→test, assignment→body→test |
| AstToGraph.LoopEntry | GraphGenerator/app/src/main/java/edu/ncsu/edm/graphgenerator/AstToGraphConverter.java:191-194 | the loop's vertex links to the rewriting's first vertex, its scaffold edge becomes false-tagged and it links to the test with a true tag |
| AstToGraph.ExpandForEach | GraphGenerator/app/src/main/java/edu/ncsu/edm/graphgenerator/AstToGraphConverter.java:107-194 | the whole for-each rewrite: body and rewriting vertices added, the rewriting's edges, the entry edge, the false edge to the follower and the true edge to the test |
| AstToGraph.ExpandSwitch | GraphGenerator/app/src/main/java/edu/ncsu/edm/graphgenerator/AstToGraphConverter.java:500-513 | the switch's vertex keeps a false edge to the follower and heads a false-tagged chain through one vertex per entry, each carrying the selector text, to the follower |
| AstToGraph.SwitchShape | GraphGenerator/app/src/main/java/edu/ncsu/edm/graphgenerator/AstToGraphConverter.java:505-513 | the entry chain followed by the last link to the follower is one chain from the switch to the follower |
| AstToGraph.FinishSwitch | GraphGenerator/app/src/main/java/edu/ncsu/edm/graphgenerator/AstToGraphConverter.java:515-519 | the switch's predecessors are rerouted to the first successor that is not the follower and the switch removed; no such successor is `NoSuchElement` |
| AstToGraph.EntryCondition | GraphGenerator/app/src/main/java/edu/ncsu/edm/graphgenerator/AstToGraphConverter.java:435-455 | a missing entry vertex or one without predecessors is an error; a default entry is left alone; a labelled entry is replaced by a new condition vertex that takes over its incoming and outgoing edges |
| AstToGraph.TrueIncoming | GraphGenerator/app/src/main/java/edu/ncsu/edm/graphgenerator/AstToGraphConverter.java:476-477 | lists exactly the true-tagged edges into a vertex |
| AstToGraph.RemappedMeaning | GraphGenerator/app/src/main/java/edu/ncsu/edm/graphgenerator/AstToGraphConverter.java:478-484 | every predecessor feeding a true-tagged edge is linked to the new target, a remapped edge that survives points at it, and every new edge is true-tagged into it |
| AstToGraph.RemapEdges | GraphGenerator/app/src/main/java/edu/ncsu/edm/graphgenerator/AstToGraphConverter.java:478-484 | the loop over the true-tagged edges builds exactly the remapped graph |
| AstToGraph.ExpandEntry | GraphGenerator/app/src/main/java/edu/ncsu/edm/graphgenerator/AstToGraphConverter.java:457-489 | fails exactly when the entry's scaffold edge is missing; an empty entry links straight to its follower, otherwise its statements are chained with a true edge from the last one to the follower; true edges into the entry are remapped to the first statement and the entry links to it, true-tagged exactly when it has labels |
| AstToGraph.FinishDefault | GraphGenerator/app/src/main/java/edu/ncsu/edm/graphgenerator/AstToGraphConverter.java:491-495 | a default entry's predecessors are rerouted to the target of its first untagged edge and the entry removed; no such edge is `NoSuchElement` |
| AstToGraph.ForHeader | GraphGenerator/app/src/main/java/edu/ncsu/edm/graphgenerator/AstToGraphConverter.java:209-245 | adds the initialisers chained in order, then the test when there is one, then the body, with the test branching to the body or the follower |
| AstToGraph.ForHeaderShape | GraphGenerator/app/src/main/java/edu/ncsu/edm/graphgenerator/AstToGraphConverter.java:209-245 | the header's steps compose to the graph `ForHeader` promises |
| AstToGraph.ForTail | GraphGenerator/app/src/main/java/edu/ncsu/edm/graphgenerator/AstToGraphConverter.java:248-266 | chains the updates after the body, links the last one back to the loop's vertex, the loop's vertex to the start and, true-tagged, to the first update or test, and turns the scaffold edge into a false edge |
| AstToGraph.ForTailShape | GraphGenerator/app/src/main/java/edu/ncsu/edm/graphgenerator/AstToGraphConverter.java:248-264 | the tail's steps compose to the edge list `ForTail` promises |
| AstToGraph.ExpandFor | GraphGenerator/app/src/main/java/edu/ncsu/edm/graphgenerator/AstToGraphConverter.java:202-266 | the whole for rewrite: header and tail together, on every combination of initialisers, test and updates |
| AstToGraph.ForShape | GraphGenerator/app/src/main/java/edu/ncsu/edm/graphgenerator/AstToGraphConverter.java:202-266 | header and tail compose to the graph `ExpandFor` promises |
| AstToGraph.FinishFor | GraphGenerator/app/src/main/java/edu/ncsu/edm/graphgenerator/AstToGraphConverter.java:269-276 | reroutes the loop's predecessors to the target of its first untagged edge and removes the loop's vertex; with no such edge the graph is unchanged |
| AstToGraph.ReplaceChecked | GraphGenerator/app/src/main/java/edu/ncsu/edm/graphgenerator/AstToGraphConverter.java:311-312 | the checked reroute-and-remove: a missing source is `NoSuchVertex`, a missing target is tolerated only when nothing points at the source |
| AstToGraph.AddChain | GraphGenerator/app/src/main/java/edu/ncsu/edm/graphgenerator/AstToGraphConverter.java:215-220 | adds fresh vertices chained after an optional start vertex, one edge per adjacent pair |
| AstToGraphConverter.Converter.constructor | GraphGenerator/app/src/main/java/edu/ncsu/edm/graphgenerator/AstToGraphConverter.java:103-104 | a converter starts from the empty graph with the given for-each counters |
| AstToGraphConverter.Converter.VisitMethod | GraphGenerator/app/src/main/java/edu/ncsu/edm/graphgenerator/AstToGraphConverter.java:83-101 | a method without a body is `MissingMethodBody`; a successful visit removes the method vertex and advances the counters by the index and iterator loops rewritten inside |
| AstToGraphConverter.Converter.VisitStmt | GraphGenerator/app/src/main/java/edu/ncsu/edm/graphgenerator/AstToGraphConverter.java:279-531 | a statement whose scaffold edge is missing fails with that error and changes nothing; try and throw are `Unsupported`; expression statements touch the graph only to fail on a statement lambda; the counters advance by the loops rewritten |
| AstToGraphConverter.Converter.VisitCompound | GraphGenerator/app/src/main/java/edu/ncsu/edm/graphgenerator/AstToGraphConverter.java:279-520 | dispatches each compound statement to its visit, failing unchanged when the scaffold edge is missing |
| AstToGraphConverter.Converter.VisitStmts | GraphGenerator/app/src/main/java/edu/ncsu/edm/graphgenerator/AstToGraphConverter.java:318-328 | visits a statement list in order, advancing the counters by the loops rewritten in it |
| AstToGraphConverter.Converter.VisitBlock | GraphGenerator/app/src/main/java/edu/ncsu/edm/graphgenerator/AstToGraphConverter.java:307-329 | rewrites a block and then visits its statements |
| AstToGraphConverter.Converter.VisitIf | GraphGenerator/app/src/main/java/edu/ncsu/edm/graphgenerator/AstToGraphConverter.java:280-304 | rewrites an if, visits condition and branches, and removes the if's vertex |
| AstToGraphConverter.Converter.VisitWhile | GraphGenerator/app/src/main/java/edu/ncsu/edm/graphgenerator/AstToGraphConverter.java:332-346 | rewrites a while loop, visits it, and removes the loop's vertex |
| AstToGraphConverter.Converter.VisitDo | GraphGenerator/app/src/main/java/edu/ncsu/edm/graphgenerator/AstToGraphConverter.java:360-373 | rewrites a do loop, visits it, and keeps the loop's vertex |
| AstToGraphConverter.Converter.VisitFor | GraphGenerator/app/src/main/java/edu/ncsu/edm/graphgenerator/AstToGraphConverter.java:202-277 | rewrites a for loop, visits it, and removes the loop's vertex when it has an untagged edge |
| AstToGraphConverter.Converter.VisitForEach | GraphGenerator/app/src/main/java/edu/ncsu/edm/graphgenerator/AstToGraphConverter.java:107-199 | an iterable type that cannot be rewritten fails unchanged; otherwise rewrites the loop, visits it and removes the loop's vertex |
| AstToGraphConverter.Converter.EnterForEach | GraphGenerator/app/src/main/java/edu/ncsu/edm/graphgenerator/AstToGraphConverter.java:107-194 | the rewriting step alone: bumps exactly one of the two counters, the index counter for index loops |
| AstToGraphConverter.Converter.VisitSwitch | GraphGenerator/app/src/main/java/edu/ncsu/edm/graphgenerator/AstToGraphConverter.java:500-520 | rewrites a switch, visits its entries in order and removes the switch's vertex |
| AstToGraphConverter.Converter.VisitEntry | GraphGenerator/app/src/main/java/edu/ncsu/edm/graphgenerator/AstToGraphConverter.java:434-497 | a missing entry vertex or one without predecessors is an error; a visited default entry is removed |
| AstToGraphConverter.Converter.EnterEntry | GraphGenerator/app/src/main/java/edu/ncsu/edm/graphgenerator/AstToGraphConverter.java:434-455 | takes one fresh serial for a labelled entry's condition vertex and none for a default one |
| AstToGraphConverter.Converter.VisitLabeled | GraphGenerator/app/src/main/java/edu/ncsu/edm/graphgenerator/AstToGraphConverter.java:349-357 | rewrites a labelled statement and visits the statement inside |
| AstToGraphConverter.Converter.VisitBreak | GraphGenerator/app/src/main/java/edu/ncsu/edm/graphgenerator/AstToGraphConverter.java:382-399 | a missing target fails unchanged; otherwise the break is replaced by a jump to the end of its loop or switch |
| AstToGraphConverter.Converter.VisitContinue | GraphGenerator/app/src/main/java/edu/ncsu/edm/graphgenerator/AstToGraphConverter.java:402-422 | a missing target or a label on an if fails unchanged; otherwise the continue is replaced by a jump to its loop's true successor |
| AstToGraphConverter.Converter.VisitReturn | GraphGenerator/app/src/main/java/edu/ncsu/edm/graphgenerator/AstToGraphConverter.java:425-431 | with the exit present, the return keeps its vertex and its only outgoing edge goes to the exit; an absent exit is `NoSuchVertex` |
| VariableCanonicalizer.RenameName | node_gen_java/app/src/main/java/edu/ncsu/lab/ast_tagger/VariableCanonicalizerVisitor.java:24-35 | a name whose nearest statement-or-call-like ancestor is a statement becomes `VAR`; any other name keeps its identifier |
| VariableCanonicalizer.RenameExpr | node_gen_java/app/src/main/java/edu/ncsu/lab/ast_tagger/VariableCanonicalizerVisitor.java:16-35 | after the visitor every name it would rename is `VAR`: the result is a fixed point of the renaming |
| VariableCanonicalizer.RenameDecl | node_gen_java/app/src/main/java/edu/ncsu/lab/ast_tagger/VariableCanonicalizerVisitor.java:16-22 | a declarator is renamed to `VAR`, keeps its type and keeps exactly as many initializers, which are visited |
| VariableCanonicalizer.RenameParam | node_gen_java/app/src/main/java/edu/ncsu/lab/ast_tagger/VariableCanonicalizerVisitor.java:24-35 | a lambda parameter whose nearest statement-or-call-like ancestor is a statement has its name and every identifier of its type renamed, leaving a type that renaming again does not change; under a call or field access it is kept whole |
| VariableCanonicalizer.RenameCatch | node_gen_java/app/src/main/java/edu/ncsu/lab/ast_tagger/VariableCanonicalizerVisitor.java:24-35 | a catch clause has the try statement as nearest ancestor, so it comes out canonical: its parameter is named `VAR`, its caught types have no identifier left but `VAR` and keywords, and its handler statements are canonical |
| VariableCanonicalizer.WordLength | node_gen_java/app/src/main/java/edu/ncsu/lab/ast_tagger/VariableCanonicalizerVisitor.java:24-35 | the run of identifier characters opening a type text: every character in it is one, and the next is not |
| VariableCanonicalizer.RenameTypeWord | node_gen_java/app/src/main/java/edu/ncsu/lab/ast_tagger/VariableCanonicalizerVisitor.java:24-35 | a type text opening with a whole word renames that word to `VAR` unless it is a keyword (a primitive type, `void`, `var`, `extends`, `super`), and renames the rest on its own |
| VariableCanonicalizer.RenameTypePunctuation | node_gen_java/app/src/main/java/edu/ncsu/lab/ast_tagger/VariableCanonicalizerVisitor.java:24-35 | punctuation in a type text (dots, brackets, commas, `?`) is kept |
| VariableCanonicalizer.RenameTypeIdempotent | node_gen_java/app/src/main/java/edu/ncsu/lab/ast_tagger/VariableCanonicalizerVisitor.java:24-35 | renaming a renamed type changes nothing |
| VariableCanonicalizer.WordLengthOfWord | node_gen_java/app/src/main/java/edu/ncsu/lab/ast_tagger/VariableCanonicalizerVisitor.java:24-35 | a word followed by a non-identifier character is read as exactly that word |
| VariableCanonicalizer.RenameStmt | node_gen_java/app/src/main/java/edu/ncsu/lab/ast_tagger/VariableCanonicalizerVisitor.java:14-36 | after the visitor every name the statement holds at a renamed position is `VAR` |
| VariableCanonicalizer.RenameCanonical | node_gen_java/app/src/main/java/edu/ncsu/lab/ast_tagger/VariableCanonicalizerVisitor.java:14-36 | on an expression already canonical the visitor changes nothing |
| VariableCanonicalizer.RenameStmtCanonical | node_gen_java/app/src/main/java/edu/ncsu/lab/ast_tagger/VariableCanonicalizerVisitor.java:14-36 | on a statement already canonical the visitor changes nothing |
| VariableCanonicalizer.RenameIdempotent | node_gen_java/app/src/main/java/edu/ncsu/lab/ast_tagger/VariableCanonicalizerVisitor.java:14-36 | renaming an expression twice gives what renaming once gives |
| VariableCanonicalizer.RenameStmtIdempotent | node_gen_java/app/src/main/java/edu/ncsu/lab/ast_tagger/VariableCanonicalizerVisitor.java:14-36 | renaming a statement twice gives what renaming once gives |
| VariableCanonicalizer.BinderFreeCanonical | node_gen_java/app/src/main/java/edu/ncsu/lab/ast_tagger/VariableCanonicalizerVisitor.java:26-33 | outside any statement, an expression without declarators or lambdas has no name to rename |
| VariableCanonicalizer.StandaloneKept | node_gen_java/app/src/main/java/edu/ncsu/lab/ast_tagger/VariableCanonicalizerVisitor.java:26-33 | an expression canonicalized on its own, with no declarator or lambda in it, comes back unchanged |
| VariableCanonicalizer.UnderCallKept | node_gen_java/app/src/main/java/edu/ncsu/lab/ast_tagger/VariableCanonicalizerVisitor.java:26-31 | inside a statement, names under a method call keep their identifiers |
| VariableCanonicalizer.UnderFieldAccessKept | node_gen_java/app/src/main/java/edu/ncsu/lab/ast_tagger/VariableCanonicalizerVisitor.java:26-31 | inside a statement, names under a field access keep their identifiers |
| VariableCanonicalizer.StatementNameRenamed | node_gen_java/app/src/main/java/edu/ncsu/lab/ast_tagger/VariableCanonicalizerVisitor.java:31-33 | a name directly under an expression statement or a return is renamed to `VAR` |
| LiteralCanonicalizer.Placeholder | node_gen_java/app/src/main/java/edu/ncsu/lab/ast_tagger/LiteralCanonicalizerVisitor.java:9-63 | every literal kind but `null` has a placeholder name, each ending in `_LIT` |
| LiteralCanonicalizer.PlaceholdersDistinct | node_gen_java/app/src/main/java/edu/ncsu/lab/ast_tagger/LiteralCanonicalizerVisitor.java:9-63 | different literal kinds get different placeholders, so the kind stays recoverable |
| LiteralCanonicalizer.ReplaceExpr | node_gen_java/app/src/main/java/edu/ncsu/lab/ast_tagger/LiteralCanonicalizerVisitor.java:8-64 | after the visitor no replaceable literal remains anywhere in the expression, lambda bodies included |
| LiteralCanonicalizer.ReplaceDecl | node_gen_java/app/src/main/java/edu/ncsu/lab/ast_tagger/LiteralCanonicalizerVisitor.java:8-64 | a declarator keeps its type, its name and whether it has an initializer, and loses every replaceable literal |
| LiteralCanonicalizer.ReplaceStmt | node_gen_java/app/src/main/java/edu/ncsu/lab/ast_tagger/LiteralCanonicalizerVisitor.java:8-64 | after the visitor no replaceable literal remains anywhere in the statement |
| LiteralCanonicalizer.CanonicalizeRoot | node_gen_java/app/src/main/java/edu/ncsu/lab/ast_tagger/LiteralCanonicalizerVisitor.java:11-14 | a literal at the root of the visited tree has no parent to be replaced in and is kept; any other tree loses every replaceable literal |
| LiteralCanonicalizer.ReplacedLiteral | node_gen_java/app/src/main/java/edu/ncsu/lab/ast_tagger/LiteralCanonicalizerVisitor.java:11-63 | a nested literal of a kind other than `null` is replaced by its kind's placeholder; `null` is kept |
| LiteralCanonicalizer.ReplaceLitFree | node_gen_java/app/src/main/java/edu/ncsu/lab/ast_tagger/LiteralCanonicalizerVisitor.java:8-64 | on an expression without replaceable literals the visitor changes nothing |
| LiteralCanonicalizer.ReplaceStmtLitFree | node_gen_java/app/src/main/java/edu/ncsu/lab/ast_tagger/LiteralCanonicalizerVisitor.java:8-64 | on a statement without replaceable literals the visitor changes nothing |
| LiteralCanonicalizer.ReplaceIdempotent | node_gen_java/app/src/main/java/edu/ncsu/lab/ast_tagger/LiteralCanonicalizerVisitor.java:8-64 | replacing literals twice gives what replacing once gives |
| LiteralCanonicalizer.CanonicalizeRootIdempotent | node_gen_java/app/src/main/java/edu/ncsu/lab/ast_tagger/LiteralCanonicalizerVisitor.java:11-14 | the literal pass on a detached tree is idempotent |
| Canonicalizer.TransformExpr | node_gen_java/app/src/main/java/edu/ncsu/lab/ast_tagger/Canonicalizer.java:18-94 | None changes nothing; Variable leaves a fixed point of the renaming; Literal and Full leave no replaceable literal under a root that is not itself a literal |
| Canonicalizer.TransformStmt | node_gen_java/app/src/main/java/edu/ncsu/lab/ast_tagger/Canonicalizer.java:18-106 | None changes nothing; Variable leaves a statement canonical for the renaming; Literal and Full leave no replaceable literal |
| Canonicalizer.StripSemicolon | node_gen_java/app/src/main/java/edu/ncsu/lab/ast_tagger/Canonicalizer.java:26-30 | a text ending in `;` loses exactly that character; any other text is kept |
| Canonicalizer.ParamKeepsName | node_gen_java/app/src/main/java/edu/ncsu/lab/ast_tagger/Canonicalizer.java:13-16 | a parameter's name is canonicalized detached from any statement, so every kind renders it as type, space, name |
| Canonicalizer.StatementLosesSemicolon | node_gen_java/app/src/main/java/edu/ncsu/lab/ast_tagger/Canonicalizer.java:45-54 | a statement rendering that ends with `;` loses exactly that `;` |
| Canonicalizer.ExprIdempotent | node_gen_java/app/src/main/java/edu/ncsu/lab/ast_tagger/Canonicalizer.java:18-94 | canonicalizing an expression twice with the same kind gives what once gives (for Full, when the expression has no literal or no binder) |
| Canonicalizer.FullIsVariableThenLiteral | node_gen_java/app/src/main/java/edu/ncsu/lab/ast_tagger/Canonicalizer.java:96-100 | Full on a statement is the literal pass applied after the variable pass |
| Canonicalizer.FullOrderMatters | node_gen_java/app/src/main/java/edu/ncsu/lab/ast_tagger/Canonicalizer.java:96-106 | on `x = 1;` Full gives `VAR = INT_LIT`, whereas the opposite order would give `VAR = VAR` |
| Canonicalizer.FullAssignOne | node_gen_java/app/src/main/java/edu/ncsu/lab/ast_tagger/Canonicalizer.java:96-100 | Full turns `x = 1;` into `VAR = INT_LIT;` |
| Canonicalizer.FullStmtNotIdempotent | node_gen_java/app/src/main/java/edu/ncsu/lab/ast_tagger/Canonicalizer.java:96-100 | Full is not idempotent on statements: a second pass renames the placeholder |
| Canonicalizer.TrueLiteral | node_gen_java/app/src/main/java/edu/ncsu/lab/ast_tagger/Canonicalizer.java:38-42 | the detached literal `true` renders as `true` under every kind |
| CondExprToIf.FirstMatch | GraphGenerator/app/src/main/java/edu/ncsu/edm/graphgenerator/CondExprToIfConverter.java:17 | finds a ternary exactly when the expression holds one the matcher accepts, and what it finds is accepted |
| CondExprToIf.FirstMatchStmt | GraphGenerator/app/src/main/java/edu/ncsu/edm/graphgenerator/CondExprToIfConverter.java:17 | finds a ternary exactly when the statement holds one the matcher accepts, and what it finds is accepted |
| CondExprToIf.FirstMatchStmts | GraphGenerator/app/src/main/java/edu/ncsu/edm/graphgenerator/CondExprToIfConverter.java:17 | finds a ternary exactly when some statement of the list holds one the matcher accepts |
| CondExprToIf.FirstDeclIndex | GraphGenerator/app/src/main/java/edu/ncsu/edm/graphgenerator/CondExprToIfConverter.java:100 | picks the first declarator whose initializer holds a ternary: no earlier declarator has one |
| CondExprToIf.CoDeclared | GraphGenerator/app/src/main/java/edu/ncsu/edm/graphgenerator/CondExprToIfConverter.java:101-106 | the other declarators of the statement, in order, each without its initializer |
| CondExprToIf.ExtractConditionalDeclaration | GraphGenerator/app/src/main/java/edu/ncsu/edm/graphgenerator/CondExprToIfConverter.java:94-139 | a declaration is split into the other declarators (only when there are any), a bare declaration of the ternary's variable and its assignment, rewritten as an if/else |
| CondExprToIf.RewriteSwitchOrLambda | GraphGenerator/app/src/main/java/edu/ncsu/edm/graphgenerator/CondExprToIfConverter.java:143-158 | a ternary that is a whole switch-entry statement replaces the entry's body by one statement; in a lambda body it becomes a single statement |
| CondExprToIf.OwnedStep | GraphGenerator/app/src/main/java/edu/ncsu/edm/graphgenerator/CondExprToIfConverter.java:24-65 | rewriting the statement that owns the ternary replaces the whole entry body only inside a switch entry, and yields one statement unless a block can take several |
| CondExprToIf.StepStmt | GraphGenerator/app/src/main/java/edu/ncsu/edm/graphgenerator/CondExprToIfConverter.java:24-65 | one rewrite of a statement's first ternary keeps the shapes `OwnedStep` promises, wherever the ternary sits |
| CondExprToIf.StepNested | GraphGenerator/app/src/main/java/edu/ncsu/edm/graphgenerator/CondExprToIfConverter.java:25 | a ternary inside a nested statement is rewritten at its nearest enclosing statement, which becomes one statement |
| CondExprToIf.FirstStmtIndex | GraphGenerator/app/src/main/java/edu/ncsu/edm/graphgenerator/CondExprToIfConverter.java:17 | the first statement of a list that holds a ternary: no earlier one does |
| CondExprToIf.StepStmts | GraphGenerator/app/src/main/java/edu/ncsu/edm/graphgenerator/CondExprToIfConverter.java:129-137 | rewriting inside a statement list keeps every statement before and after the rewritten one, in order |
| CondExprToIf.StepMethod | GraphGenerator/app/src/main/java/edu/ncsu/edm/graphgenerator/CondExprToIfConverter.java:20 | one rewrite keeps the method's name and parameters and its body |
| CondExprToIf.RewriteAll | GraphGenerator/app/src/main/java/edu/ncsu/edm/graphgenerator/CondExprToIfConverter.java:16-23 | on success no ternary is left and the method keeps its name and parameters; a method without a ternary comes back unchanged |
| CondExprToIf.RewriteLoop | GraphGenerator/app/src/main/java/edu/ncsu/edm/graphgenerator/CondExprToIfConverter.java:19-22 | the rewriting loop computes exactly `RewriteAll` |
| CondExprToIf.CondExprToIfConverter.RewriteAllCondExprsToIf | GraphGenerator/app/src/main/java/edu/ncsu/edm/graphgenerator/CondExprToIfConverter.java:15-23 | the shared count of methods with a ternary rises by one exactly when the method holds one, and the result is that of the rewriting loop |
| CondExprToIf.MethodCounter.constructor | GraphGenerator/app/src/main/java/edu/ncsu/edm/graphgenerator/CondExprToIfConverter.java:15 | the static count is created once, at zero |
| CondExprToIf.CondExprToIfConverter.constructor | GraphGenerator/app/src/main/java/edu/ncsu/edm/graphgenerator/CondExprToIfConverter.java:14-15 | a new converter shares the one static count and leaves its value alone |
| CondExprToIfProofs.MatchMonotone | GraphGenerator/app/src/main/java/edu/ncsu/edm/graphgenerator/CondExprToIfConverter.java:79-80 | a ternary found by its text is a ternary |
| CondExprToIfProofs.TextualMatchIsFirst | GraphGenerator/app/src/main/java/edu/ncsu/edm/graphgenerator/CondExprToIfConverter.java:79-83 | in an expression, the first ternary with the rendering of its first ternary is that ternary, so replacing by text replaces the first ternary |
| CondExprToIfProofs.TextualMatchIsFirstStmt | GraphGenerator/app/src/main/java/edu/ncsu/edm/graphgenerator/CondExprToIfConverter.java:76-83 | in each copy of a statement, the first ternary with the rendering of the statement's first ternary is that ternary, so the true and false copies replace exactly it |
| CondExprToIfProofs.GeneralRewrite | GraphGenerator/app/src/main/java/edu/ncsu/edm/graphgenerator/CondExprToIfConverter.java:67-91 | a statement that owns its ternary, other than a declaration or a bare switch/lambda ternary, becomes `if (cond) S1 else S2` with S1 and S2 the copies with the then and else branches in place of the ternary |
| CondExprToIfProofs.FirstMatchInDeclarator | GraphGenerator/app/src/main/java/edu/ncsu/edm/graphgenerator/CondExprToIfConverter.java:100 | the first ternary of a declaration is the first ternary of its first declarator holding one |
| CondExprToIfProofs.DeclarationSplit | GraphGenerator/app/src/main/java/edu/ncsu/edm/graphgenerator/CondExprToIfConverter.java:94-141 | outside a block a declaration fails with a null pointer; in a block it becomes the other declarators, a bare declaration and the assignment rewritten as if/else |
| CondExprToIfProofs.SwitchEntryRewrite | GraphGenerator/app/src/main/java/edu/ncsu/edm/graphgenerator/CondExprToIfConverter.java:150-153 | a bare ternary in a switch entry becomes a block holding `if (c) yield a; else yield b;` as the entry's only statement |
| CondExprToIfProofs.LambdaBodyRewrite | GraphGenerator/app/src/main/java/edu/ncsu/edm/graphgenerator/CondExprToIfConverter.java:154-157 | a ternary lambda body becomes a block holding `if (c) return a; else return b;` |
| CondExprToIfProofs.RewriteAllResult | GraphGenerator/app/src/main/java/edu/ncsu/edm/graphgenerator/CondExprToIfConverter.java:19-22 | a finished rewrite leaves no ternary; a method with a ternary and no fuel is `FuelExhausted` |
| AstTagger.FlattenHasNoBlocks | node_gen_java/app/src/main/java/edu/ncsu/lab/ast_tagger/AstTagger.java:656-663 | the opened list holds no block statement |
| AstTagger.FlattenKeepsBlockFree | node_gen_java/app/src/main/java/edu/ncsu/lab/ast_tagger/AstTagger.java:656-663 | a list without blocks is kept as it is |
| AstTagger.FlattenIdempotent | node_gen_java/app/src/main/java/edu/ncsu/lab/ast_tagger/AstTagger.java:656-663 | opening an opened list changes nothing |
| AstTagger.FlattenAppend | node_gen_java/app/src/main/java/edu/ncsu/lab/ast_tagger/AstTagger.java:656-663 | opening a concatenation is the concatenation of the opened parts |
| AstTagger.FlattenBlock | node_gen_java/app/src/main/java/edu/ncsu/lab/ast_tagger/AstTagger.java:652-667 | the stack-and-reverse loop computes exactly the in-order opening of nested blocks |
| AstTagger.Reversed | node_gen_java/app/src/main/java/edu/ncsu/lab/ast_tagger/AstTagger.java:667 | reversing keeps the length and puts element i at position length-1-i |
| AstTagger.BuildCondition | node_gen_java/app/src/main/java/edu/ncsu/lab/ast_tagger/AstTagger.java:690-733 | a top-level `&&` becomes And, a top-level `\|\|` becomes Or, anything else a Unit holding the canonical text; no Empty appears |
| AstTagger.ConditionTests | node_gen_java/app/src/main/java/edu/ncsu/lab/ast_tagger/AstTagger.java:690-733 | the atomic tests of the built condition are, in order, the canonical texts of the operands left after splitting at every `&&` and `\|\|`, one per atom |
| AstTagger.ConditionRoundTrip | node_gen_java/app/src/main/java/edu/ncsu/lab/ast_tagger/AstTagger.java:690-733 | with the identity canonicalizer, rendering the built condition gives back the printed expression |
| AstTagger.RenderJunction | node_gen_java/app/src/main/java/edu/ncsu/lab/ast_tagger/AstTagger.java:716-733 | a junction renders as its two rendered sides around the operator |
| AstTagger.CaseConditionText | node_gen_java/app/src/main/java/edu/ncsu/lab/ast_tagger/AstTagger.java:395-409 | the string builder loop computes the `v == l1 \|\| v == l2 ...` text over the canonical label texts |
| AstTagger.CaseExprPrints | node_gen_java/app/src/main/java/edu/ncsu/lab/ast_tagger/AstTagger.java:395-414 | the case expression prints exactly as the text the tagger builds and parses |
| AstTagger.AnyHoldsExists | node_gen_java/app/src/main/java/edu/ncsu/lab/ast_tagger/AstTagger.java:402-408 | a disjunction of tests holds exactly when one of them does |
| AstTagger.EvalCaseCondition | node_gen_java/app/src/main/java/edu/ncsu/lab/ast_tagger/AstTagger.java:395-415 | a case condition holds exactly when one of its label comparisons does, and has one atom per label |
| AstTagger.CaseConditionHolds | node_gen_java/app/src/main/java/edu/ncsu/lab/ast_tagger/AstTagger.java:395-415 | a case is taken exactly when the selector equals one of its labels, with one test per label |
| AstTagger.Chain | node_gen_java/app/src/main/java/edu/ncsu/lab/ast_tagger/AstTagger.java:438-461 | the cases are chained as SwitchCase nodes, unlabelled and breakable |
| AstTagger.ChainLinks | node_gen_java/app/src/main/java/edu/ncsu/lab/ast_tagger/AstTagger.java:447-459 | following the else links i times from the chain's head reaches the chain of the remaining cases; a labelled case is a decision with that case's condition and body whose else is the next case (none for the last); a default case can only be last and is a plain block |
| AstTagger.ChainSelects | node_gen_java/app/src/main/java/edu/ncsu/lab/ast_tagger/AstTagger.java:438-461 | walking the chain under an environment runs the body of the first case whose condition holds, or the default, as a switch does |
| AstTagger.LoopVarDeclText | node_gen_java/app/src/main/java/edu/ncsu/lab/ast_tagger/AstTagger.java:266 | the loop variable's declaration prints as `T v;` |
| AstTagger.IndexInitText | node_gen_java/app/src/main/java/edu/ncsu/lab/ast_tagger/AstTagger.java:268 | the index initialisation prints as `int indexN = 0;` |
| AstTagger.IndexSetText | node_gen_java/app/src/main/java/edu/ncsu/lab/ast_tagger/AstTagger.java:270-274 | the element assignment prints as `v = (it)[indexN];`, or `v = (it).get(indexN);` over a string |
| AstTagger.IndexUpdateText | node_gen_java/app/src/main/java/edu/ncsu/lab/ast_tagger/AstTagger.java:276 | the update prints as `indexN++` |
| AstTagger.IndexTestText | node_gen_java/app/src/main/java/edu/ncsu/lab/ast_tagger/AstTagger.java:278-280 | the test prints as `indexN < (it).length`, or `.length()` over a string |
| AstTagger.IteratorInitText | node_gen_java/app/src/main/java/edu/ncsu/lab/ast_tagger/AstTagger.java:302-304 | the iterator declaration prints as `Iterator<T> iteratorN = it.iterator();` |
| AstTagger.IteratorSetText | node_gen_java/app/src/main/java/edu/ncsu/lab/ast_tagger/AstTagger.java:307-308 | the element assignment prints as `v = iteratorN.next();` |
| AstTagger.IteratorTestText | node_gen_java/app/src/main/java/edu/ncsu/lab/ast_tagger/AstTagger.java:309 | the test prints as `iteratorN.hasNext()` |
| AstTagger.AddVarSetToBlock | node_gen_java/app/src/main/java/edu/ncsu/lab/ast_tagger/AstTagger.java:320-333 | fails with `NoParent` exactly when the body is not a block and the loop has no parent; otherwise the body becomes a block whose first statement is the assignment followed by the original statements |
| AstTagger.NodeTypeName | node_gen_java/app/src/main/java/edu/ncsu/lab/ast_tagger/AstTagger.java:603 | only a block statement is named `BlockStmt` |
| AstTagger.CountedFlatten | node_gen_java/app/src/main/java/edu/ncsu/lab/ast_tagger/AstTagger.java:652-663 | opening blocks does not change how many for-each loops a list holds |
| AstTagger.CountedAfterVarSet | node_gen_java/app/src/main/java/edu/ncsu/lab/ast_tagger/AstTagger.java:283-311 | prepending the element assignment does not change how many for-each loops the body holds |
| AstTagger.Pieces | node_gen_java/app/src/main/java/edu/ncsu/lab/ast_tagger/AstTagger.java:124 | splitting always yields at least one piece |
| AstTagger.DropTrailingEmpty | node_gen_java/app/src/main/java/edu/ncsu/lab/ast_tagger/AstTagger.java:124 | drops only trailing empty pieces, leaving a prefix that ends in a non-empty one |
| AstTagger.SplitJoin | node_gen_java/app/src/main/java/edu/ncsu/lab/ast_tagger/AstTagger.java:124 | splitting a dotted name at dots gives back its parts; the empty name gives one empty part and a name of dots none, as Java's `split` does |
| AstTagger.ExprNodes | node_gen_java/app/src/main/java/edu/ncsu/lab/ast_tagger/AstTagger.java:335-340 | one text node per expression, in order |
| AstTagger.ClassMethods | node_gen_java/app/src/main/java/edu/ncsu/lab/ast_tagger/AstTagger.java:74-78 | every method of a class is paired with the class's namespace, in order |
| AstTagger.CollectLast | node_gen_java/app/src/main/java/edu/ncsu/lab/ast_tagger/AstTagger.java:68-79 | an interface contributes no method; a class contributes its methods in order under its qualified name, or the empty name when it has none |
| AstTagger.Tagger.constructor | node_gen_java/app/src/main/java/edu/ncsu/lab/ast_tagger/AstTagger.java:42-52 | a tagger is configured with its canonicalizer and starts both for-each counters at zero |
| AstTagger.Tagger.CanonicalizePrints | node_gen_java/app/src/main/java/edu/ncsu/lab/ast_tagger/Canonicalizer.java:18-94 | the tagger's expression text is the printing of the canonicalized copy |
| AstTagger.Tagger.DefaultCaseCondition | node_gen_java/app/src/main/java/edu/ncsu/lab/ast_tagger/AstTagger.java:410-412 | a default case that is not last is decided on the always-true atom `true` under every canonicalizer |
| AstTagger.Tagger.ParamKept | node_gen_java/app/src/main/java/edu/ncsu/lab/ast_tagger/AstTagger.java:138-144 | every parameter text is its type and its unchanged name |
| AstTagger.Tagger.CaseTextParses | node_gen_java/app/src/main/java/edu/ncsu/lab/ast_tagger/AstTagger.java:395-414 | the case text the tagger reparses is the printing of the case expression the model builds |
| AstTagger.Tagger.ThrownTypes | node_gen_java/app/src/main/java/edu/ncsu/lab/ast_tagger/AstTagger.java:531-549 | at least one type; a thrown expression whose type does not resolve is described by its own text |
| AstTagger.Tagger.CaughtTypes | node_gen_java/app/src/main/java/edu/ncsu/lab/ast_tagger/AstTagger.java:491-513 | at least one text per caught type; unresolved types are kept as written |
| AstTagger.Tagger.BuildTextList | node_gen_java/app/src/main/java/edu/ncsu/lab/ast_tagger/AstTagger.java:735-750 | one canonical text per initialisation or update node, in order |
| AstTagger.Tagger.CanonicalizeParams | node_gen_java/app/src/main/java/edu/ncsu/lab/ast_tagger/AstTagger.java:138-144 | one text per parameter, its type then its canonical name |
| AstTagger.Tagger.BuildTaggedAstMessage | node_gen_java/app/src/main/java/edu/ncsu/lab/ast_tagger/AstTagger.java:62-99 | the message carries the program id, the unit's text exactly in debug mode, and one function block per method of every non-interface class, in order, named after the method under its class's dotted namespace |
| AstTagger.Tagger.BuildMethod | node_gen_java/app/src/main/java/edu/ncsu/lab/ast_tagger/AstTagger.java:110-145 | a MethodDeclaration node, unlabelled and not breakable, whose function block carries the method's name, its namespace split at dots, one canonical text per parameter and the opened body; a method without a body gets an empty block |
| AstTagger.Tagger.BuildBlock | node_gen_java/app/src/main/java/edu/ncsu/lab/ast_tagger/AstTagger.java:650-682 | a missing block gives no node; a block gives one node per statement of its opening, in order; a single statement gives one node; the counters rise by the loops rewritten |
| AstTagger.Tagger.BuildStatements | node_gen_java/app/src/main/java/edu/ncsu/lab/ast_tagger/AstTagger.java:671-675 | one fitting node per statement, in order |
| AstTagger.Tagger.BuildStatement | node_gen_java/app/src/main/java/edu/ncsu/lab/ast_tagger/AstTagger.java:592-640 | a block (also a labelled one) is `BlockInStatement`; otherwise the node carries the statement's label, type name and not-breakable flag, and contents that fit the statement kind |
| AstTagger.Tagger.BuildNested | node_gen_java/app/src/main/java/edu/ncsu/lab/ast_tagger/AstTagger.java:610-623 | loops, ifs and tries get the contents their builders promise |
| AstTagger.Tagger.BuildLoop | node_gen_java/app/src/main/java/edu/ncsu/lab/ast_tagger/AstTagger.java:190-220 | a loop block with the given first-iteration check, its body built as a block, its condition split (Empty when there is none) and its texts in order |
| AstTagger.Tagger.BuildForEach | node_gen_java/app/src/main/java/edu/ncsu/lab/ast_tagger/AstTagger.java:238-318 | over arrays, strings and unresolved or non-reference types an index loop numbered by the index counter, otherwise an iterator loop numbered by the iterator counter (a type-argument count other than one is an error, and so is a single argument that is not a reference type); the element assignment heads the body and exactly the used counter rises |
| AstTagger.Tagger.BuildIf | node_gen_java/app/src/main/java/edu/ncsu/lab/ast_tagger/AstTagger.java:351-377 | a decision with the split condition and the then-branch as block; an else block becomes an unlabelled ElseBlock node, any other else the node of its statement; no else exactly when there is none |
| AstTagger.Tagger.BuildSwitchCase | node_gen_java/app/src/main/java/edu/ncsu/lab/ast_tagger/AstTagger.java:381-420 | a last default case is a plain block; any other case a decision on its label comparisons (or `true`) over its statements |
| AstTagger.Tagger.BuildCases | node_gen_java/app/src/main/java/edu/ncsu/lab/ast_tagger/AstTagger.java:438-461 | one fitting case node per entry, in order |
| AstTagger.Tagger.BuildSwitch | node_gen_java/app/src/main/java/edu/ncsu/lab/ast_tagger/AstTagger.java:438-461 | a switch without entries is an empty block; otherwise the node is the chain of its case nodes |
| AstTagger.Tagger.BuildTry | node_gen_java/app/src/main/java/edu/ncsu/lab/ast_tagger/AstTagger.java:464-485 | a try block with its opened body, a finally block exactly when there is one, and one catch block per clause |
| AstTagger.Tagger.BuildCatches | node_gen_java/app/src/main/java/edu/ncsu/lab/ast_tagger/AstTagger.java:479-484 | one catch block per clause, in order |
| AstTagger.Tagger.BuildCatch | node_gen_java/app/src/main/java/edu/ncsu/lab/ast_tagger/AstTagger.java:487-525 | the caught type texts and the opened handler |
| AstProcessor.AstProcessor.ProcessMethod | cfg_generator/cfg_generator/src/cfg/ast_processor.rs:42-68 | a tree that is not a function block is `NotAMethod`, an anonymous one `TopLevelAnonMethod`; on success the graph is well formed, with the function's source at node 0 and its sink at node 1 |
| AstProcessor.AstProcessor.ProcessFunction | cfg_generator/cfg_generator/src/cfg/ast_processor.rs:494-538 | adds a source and a sink named after the function, lowers the body with the sink as the node that follows, links source to the body's start and runs the label pass; yields no node of its own |
| AstProcessor.AstProcessor.ProcessCondition | cfg_generator/cfg_generator/src/cfg/ast_processor.rs:464-490 | an Empty condition adds nothing; a Unit adds one decision node with a true edge to the true target and a false edge to the false target; it succeeds exactly when no right operand of `&&`/`\|\|` is empty, gives one decision node per atomic test, all new, and walking the chain from the first one by the tests' truth values reaches the true target exactly when the condition holds under short-circuit evaluation |
| AstProcessor.AstProcessor.ProcessBinaryCondition | cfg_generator/cfg_generator/src/cfg/ast_processor.rs:436-459 | the same for `&&` and `\|\|`: right side first, left side aimed at the right's first node on the short-circuit side, left's nodes then right's |
| AstProcessor.UnitDecisionSpec | cfg_generator/cfg_generator/src/cfg/ast_processor.rs:482-487 | one atomic test is one new decision node, and the walk from it ends at the true target exactly when the test holds |
| AstProcessor.NoEmptyLowerable | cfg_generator/cfg_generator/src/cfg/ast_processor.rs:443-453 | a condition without Empty can always be lowered and has at least one decision node, so `right.first().unwrap()` cannot fail on it |
| AstProcessor.Classify | cfg_generator/cfg_generator/src/cfg/ast_processor.rs:406-413 | no nodes give an empty block, one node a single-statement block and more the block's first and last nodes; the block starts at the first node |
| AstProcessor.AstProcessor.ProcessBlock | cfg_generator/cfg_generator/src/cfg/ast_processor.rs:370-422 | the statements' nodes, in source order, are new non-sink nodes; the block is `Classify` of them; the only edges added after lowering the statements are `BlockLinks` |
| AstProcessor.AstProcessor.ProcessStatements | cfg_generator/cfg_generator/src/cfg/ast_processor.rs:376-394 | lowering the statements last to first gives, for each statement that yields a node, that new node with whether its statement exits |
| AstProcessor.AstProcessor.LinkBlock | cfg_generator/cfg_generator/src/cfg/ast_processor.rs:396-419 | adds exactly the fall-through edges `BlockLinks` and no node |
| AstProcessor.PairLinksSpec | cfg_generator/cfg_generator/src/cfg/ast_processor.rs:396-404 | an edge joins two consecutive children exactly when the first of them does not exit |
| AstProcessor.BlockLinksSpec | cfg_generator/cfg_generator/src/cfg/ast_processor.rs:396-419 | a block adds exactly the fall-through edges between consecutive non-exiting children, plus an edge from its last child to the node that follows when that child does not exit and there is such a node |
| AstProcessor.AstProcessor.ProcessNode | cfg_generator/cfg_generator/src/cfg/ast_processor.rs:175-256 | an empty label is `EmptySomeLabel`; a node yielded is new and not a sink |
| AstProcessor.AstProcessor.OpenNode | cfg_generator/cfg_generator/src/cfg/ast_processor.rs:180-211 | adds the "Dummy If Break Node" sink and, for a labelled node, a label node right after it; an empty label is refused only once the dummy exists |
| AstProcessor.AstProcessor.CloseNode | cfg_generator/cfg_generator/src/cfg/ast_processor.rs:236-255 | the dummy break node is gone and nothing else is removed; the edges are exactly the old ones with every edge into the dummy moved to the next node, plus, for a labelled node with contents, the label node's `LabelNext` edge to the contents and its `LabelBreak` edge to the next node; such a node is entered at its label node, any other at its contents |
| AstProcessor.AstProcessor.Retarget | cfg_generator/cfg_generator/src/cfg/ast_processor.rs:237-241 | the sink is removed and nothing else is; the edges are exactly the old ones that do not touch the sink, plus every edge that entered it now entering the target with the same source and weight |
| AstProcessor.AstProcessor.RedirectIncoming | cfg_generator/cfg_generator/src/cfg/ast_processor.rs:830-835 | the target gains one copy of each edge into the source node, same source and weight, newest first; nothing else changes |
| AstProcessor.AstProcessor.ProcessContents | cfg_generator/cfg_generator/src/cfg/ast_processor.rs:217-234 | a yield is `NotImplemented`; a node yielded is new and not a sink |
| AstProcessor.AstProcessor.ProcessStatement | cfg_generator/cfg_generator/src/cfg/ast_processor.rs:925-933 | one new statement node carrying the code, and no edge |
| AstProcessor.AstProcessor.ProcessBreak | cfg_generator/cfg_generator/src/cfg/ast_processor.rs:945-962 | one new Break control node with its label; an edge to the nearest breakable dummy exactly when it is unlabeled and there is one |
| AstProcessor.AstProcessor.ProcessContinue | cfg_generator/cfg_generator/src/cfg/ast_processor.rs:964-981 | one new Continue control node with its label; an edge to the nearest continuable dummy exactly when it is unlabeled and there is one |
| AstProcessor.AstProcessor.ProcessReturn | cfg_generator/cfg_generator/src/cfg/ast_processor.rs:983-1000 | one new Return control node labelled with the expression; an edge to the function's sink when there is one |
| AstProcessor.AstProcessor.ProcessThrow | cfg_generator/cfg_generator/src/cfg/ast_processor.rs:894-923 | no exception type is `NotSupported`; no sink is a panic, even when a handler exists (`unwrap_or` evaluates its argument first); otherwise one new exception node with one exception edge, to the handler of the first handled type, else to the sink tagged with the first type |
| AstProcessor.FirstHandled | cfg_generator/cfg_generator/src/cfg/ast_processor.rs:905-911 | the handler found belongs to a listed type that has one, and none is found only when no listed type has one |
| AstProcessor.AstProcessor.ProcessDecisionBlock | cfg_generator/cfg_generator/src/cfg/ast_processor.rs:1002-1045 | when the condition has no Empty, the block is entered at its first decision node and walking the decisions reaches the then branch's start (or the next node) exactly when the condition holds, the else branch's start (or the next node) otherwise |
| AstProcessor.AstProcessor.ProcessElse | cfg_generator/cfg_generator/src/cfg/ast_processor.rs:1010-1018 | no else branch gives no start node; an else branch's start is new |
| AstProcessor.AstProcessor.ProcessLoop | cfg_generator/cfg_generator/src/cfg/ast_processor.rs:548-738 | a loop without a first check that has initialization or update is `TriedToCreateDoForLoop`; a loop lowered is entered at `LoopRoot`, a new non-sink node, with one chain node per initialization and update statement; both loop dummies are gone, and the edges are exactly `LoopJoinedEdge`: the edges the loop's parts were built with plus the chain links, with the dummies' incoming edges moved to the continue target, plus the labelled-continue edge |
| AstProcessor.AstProcessor.LoopChains | cfg_generator/cfg_generator/src/cfg/ast_processor.rs:561-565 | one new, chained statement node per initialization and per update statement |
| AstProcessor.AstProcessor.AddLoopDummies | cfg_generator/cfg_generator/src/cfg/ast_processor.rs:572-582 | adds the continue sink and the "Dummy Target Sink", in that order, and no edge |
| AstProcessor.AstProcessor.LoopRest | cfg_generator/cfg_generator/src/cfg/ast_processor.rs:584-737 | the loop's own dummies are the only old nodes that may go, and on success they are gone; the entry is `LoopRoot` and a node of this loop that is not a sink; the edges are exactly `LoopJoinedEdge` over the graph the parts were built in |
| AstProcessor.AstProcessor.LoopBodyAndCondition | cfg_generator/cfg_generator/src/cfg/ast_processor.rs:584-613 | the body's start is new; the condition's decision nodes are new |
| AstProcessor.AstProcessor.ProcessLoopCondition | cfg_generator/cfg_generator/src/cfg/ast_processor.rs:594-613 | succeeds exactly when the condition can be lowered; one new decision node per atomic test |
| AstProcessor.AstProcessor.LoopFinish | cfg_generator/cfg_generator/src/cfg/ast_processor.rs:616-737 | a loop with no update, no condition and an empty body panics at the continue target after the chain links are added, and keeps its dummies; otherwise both dummies are removed and nothing else, the loop is entered at `LoopRoot`, and the edges are exactly `LoopJoinedEdge` |
| AstProcessor.AstProcessor.JoinLoop | cfg_generator/cfg_generator/src/cfg/ast_processor.rs:616-737 | with a continue target: links the chains, removes exactly the two dummies with their incoming edges moved to that target, enters at `LoopRoot` or panics without one, and leaves exactly the `LoopJoinedEdge` edges |
| AstProcessor.LoopJoinedEdges | cfg_generator/cfg_generator/src/cfg/ast_processor.rs:616-737 | the three edge steps of a loop (chain links, dummy redirection, labelled continue) compose to exactly `LoopJoinedEdge` when the loop has an entry |
| AstProcessor.AstProcessor.LoopEntry | cfg_generator/cfg_generator/src/cfg/ast_processor.rs:703-737 | the entry is `LoopRoot`, a node of the loop that is not a sink, and a do-while loop with an empty body panics; the only edge added is the label node's `LabelContinue` edge to the first decision or the body's start, and only for a labelled loop that has an entry |
| AstProcessor.AstProcessor.LinkLoopChains | cfg_generator/cfg_generator/src/cfg/ast_processor.rs:616-628 | adds exactly the edge from the last initialization statement to `LoopInitTarget` and from the last update statement to `LoopUpdateTarget` |
| AstProcessor.AstProcessor.RedirectLoopDummies | cfg_generator/cfg_generator/src/cfg/ast_processor.rs:639-669 | both loop dummies are removed and no other node changes; the edges are exactly the old ones that touch neither dummy, plus each edge that entered either dummy now entering the target with the same source and weight |
| AstProcessor.RetargetedTwice | cfg_generator/cfg_generator/src/cfg/ast_processor.rs:639-669 | moving the continue dummy's edges and then the target dummy's edges to the same node is one move of the edges of both |
| AstProcessor.LoopShapes | cfg_generator/cfg_generator/src/cfg/ast_processor.rs:748-815 | the targets of every loop shape the processor documents: for, while, do-while, and loops lacking initialization, condition, body or update |
| AstProcessor.LoopPanics | cfg_generator/cfg_generator/src/cfg/ast_processor.rs:631-637 | the continue target is missing exactly when the loop has no update, no condition and an empty body; the entry is missing exactly when there is also no initialization and no first check of a condition |
| AstProcessor.AstProcessor.AddAndLinkStatementNodes | cfg_generator/cfg_generator/src/cfg/ast_processor.rs:278-289 | one new statement node per statement, at consecutive fresh indices, chained in order by statement edges |
| AstProcessor.AstProcessor.ProcessLabels | cfg_generator/cfg_generator/src/cfg/ast_processor.rs:71-97 | on success exactly the collected nodes are gone, each a label node, and every other node is unchanged; the label pass adds only statement edges from control nodes; deleting the collected labels one by one from that graph gives the result, which keeps every edge not touching a deleted label and has only edges of that graph or edges moved from a deleted label; a failure is a label error or a label without a next edge |
| AstProcessor.AstProcessor.ProcessLabelsRecurse | cfg_generator/cfg_generator/src/cfg/ast_processor.rs:99-165 | a visited node is not entered again; a labeled return (or yield) whose label is in scope is `ReturnToLabel`; a labeled break or continue in scope gains an edge to the label's break or continue target; the only edges added are statement edges from control nodes; the label nodes collected are distinct and new to this visit |
| AstProcessor.AstProcessor.LabelStep | cfg_generator/cfg_generator/src/cfg/ast_processor.rs:114-153 | at one node: the jump edge of a labeled break or continue, and a label node brings its label into scope and is collected |
| AstProcessor.AstProcessor.VisitNeighbors | cfg_generator/cfg_generator/src/cfg/ast_processor.rs:155-164 | the label pass from each neighbour in turn appends what it collects and keeps the collected nodes distinct |
| AstProcessor.AstProcessor.DeleteLabel | cfg_generator/cfg_generator/src/cfg/ast_processor.rs:76-93 | a label node with a `LabelNext` edge is removed and nothing else is; the edges are exactly the old ones not touching it plus its incoming edges moved to that edge's target; without such an edge nothing changes, and the caller reports the source's panic |
| AstProcessor.AstProcessor.DeleteLabelNodes | cfg_generator/cfg_generator/src/cfg/ast_processor.rs:76-93 | deletes the collected labels in order and succeeds exactly when `DeleteLabels` does, leaving its result |
| AstProcessor.DeleteLabelStep | cfg_generator/cfg_generator/src/cfg/ast_processor.rs:77-92 | one label deletion succeeds exactly when the node has a `LabelNext` edge; it removes only that node and moves its incoming edges to that edge's target |
| AstProcessor.DeleteLabels | cfg_generator/cfg_generator/src/cfg/ast_processor.rs:76-93 | deleting a list of labels removes exactly the listed nodes and keeps every other node as it was and the graph well formed |
| AstProcessor.DeleteLabelsEdges | cfg_generator/cfg_generator/src/cfg/ast_processor.rs:76-93 | after deleting labels, every edge that touched none of them is kept, and every edge left was there before or was moved from an edge into a deleted label |
| AstProcessor.DeleteLabelsKeeps | cfg_generator/cfg_generator/src/cfg/ast_processor.rs:76-93 | an edge touching none of the deleted labels survives their deletion |
| AstProcessor.DeleteLabelsOrigin | cfg_generator/cfg_generator/src/cfg/ast_processor.rs:76-93 | an edge left after deleting labels touches none of them and was there before or was moved from an edge into one of them |
| AstProcessor.DeleteLabelsAvoid | cfg_generator/cfg_generator/src/cfg/ast_processor.rs:76-93 | deleting labels never adds an edge at a node that no edge touched |
| AstProcessor.AstProcessor.constructor | cfg_generator/cfg_generator/src/cfg/ast_processor.rs:47-49 | the processor starts from an empty graph |
| MessageFraming.Encode | cfg_generator/cfg_generator/src/capnp/message.rs:35-47 | a serializer failure is `Serde`; a payload longer than `u32::MAX` is `Overflow(len, u32::MAX)`; otherwise the frame is 4 + len bytes, its 4-byte big-endian prefix reads back as len and the rest is the payload |
| MessageFraming.DecodeEncode | cfg_generator/cfg_generator/src/capnp/message.rs:43-45 | reading the length prefix back off an encoded frame gives exactly the payload |
| MessageFraming.EncodeDecode | cfg_generator/cfg_generator/src/capnp/message.rs:43-45 | every well-formed frame is the encoding of its own payload: the framing is a bijection onto well-formed frames |
| Bytes.BeValueOfBytes | cfg_generator/cfg_generator/src/capnp/message.rs:43 | `from_be_bytes` inverts `to_be_bytes` for every value that fits the width |
| Bytes.BeBytesOfValue | cfg_generator/src/codec/mod.rs:85 | `to_be_bytes` inverts `from_be_bytes` for every byte string |
| Bytes.SignedLeRoundTrip | cfg_generator/petgraph-graph-tool/src/attr_types/mod.rs:57 | the little-endian two's complement bytes of a signed value read back as that value |
| Bytes.Utf8Append | cfg_generator/petgraph-graph-tool/src/attr_types/mod.rs:143 | the UTF-8 bytes of a concatenation are the concatenation of the UTF-8 bytes |
| Bytes.Utf8CharRoundTrip | cfg_generator/petgraph-graph-tool/src/attr_types/mod.rs:143 | each character's UTF-8 sequence decodes back to the character |
| GraphToolAttrs.TypeByte | cfg_generator/petgraph-graph-tool/src/attr_types/mod.rs:22-285 | the type bytes lie in 0x00..0x0e and skip the floating-point codes 0x04, 0x05, 0x0b and 0x0c |
| GraphToolAttrs.TypeByteIdentifies | cfg_generator/petgraph-graph-tool/src/attr_types/mod.rs:22-285 | each type's byte identifies the type again |
| GraphToolAttrs.TypeBytesDistinct | cfg_generator/petgraph-graph-tool/src/attr_types/mod.rs:22-285 | no two modelled types share a type byte |
| GraphToolAttrs.GetLength | cfg_generator/petgraph-graph-tool/src/attr_types/mod.rs:28-266 | the length field is absent exactly for the scalar types Bool, Int16, Int32 and Int64 |
| GraphToolAttrs.BoolBytes | cfg_generator/petgraph-graph-tool/src/attr_types/mod.rs:164-167 | a vector of booleans is one 0/1 byte per element, in order |
| GraphToolAttrs.ValueBytesAgreeWithNumBytes | cfg_generator/petgraph-graph-tool/src/attr_types/mod.rs:31-297 | `num_bytes` counts the value bytes for a scalar, the value bytes plus the 8-byte length for a vector or string, and for a vector of strings also 8 bytes per string |
| GraphToolAttrs.BoolEncoding | cfg_generator/petgraph-graph-tool/src/attr_types/mod.rs:22-38 | a Bool is the single byte 1 or 0, counts one byte and has no length |
| GraphToolAttrs.ScalarIntRoundTrip | cfg_generator/petgraph-graph-tool/src/attr_types/mod.rs:43-101 | an Int16/32/64 takes 2/4/8 bytes, as `num_bytes` says, and those little-endian bytes read back as the signed value |
| GraphToolAttrs.VecInt16Element | cfg_generator/petgraph-graph-tool/src/attr_types/mod.rs:174-190 | element i of a VecInt16 sits at bytes 2i..2i+2 and reads back as the element |
| GraphToolAttrs.VecInt32Element | cfg_generator/petgraph-graph-tool/src/attr_types/mod.rs:195-211 | element i of a VecInt32 sits at bytes 4i..4i+4 and reads back as the element |
| GraphToolAttrs.VecInt64Element | cfg_generator/petgraph-graph-tool/src/attr_types/mod.rs:216-232 | element i of a VecInt64 sits at bytes 8i..8i+8 and reads back as the element |
| GraphToolAttrs.ConcatStringsLength | cfg_generator/petgraph-graph-tool/src/attr_types/mod.rs:269-275 | the concatenated strings of a VecString take the sum of the strings' UTF-8 lengths |
| GraphToolAttrs.ConcatStringsAppend | cfg_generator/petgraph-graph-tool/src/attr_types/mod.rs:275 | concatenating the strings distributes over splitting the vector |
| Codec.SizedDataCodec.constructor | cfg_generator/src/codec/mod.rs:51-56 | a new decoder has index 0 and no stored length |
| Codec.ReadSizeStep | cfg_generator/src/codec/mod.rs:75-90 | never yields an item; with fewer than 8 bytes nothing changes; otherwise the stored length is the big-endian value of the first 8 bytes, the index is reset and exactly those 8 bytes are consumed |
| Codec.SizedDataCodec.ReadSize | cfg_generator/src/codec/mod.rs:75-90 | the decoder's new state, the remaining buffer and the result are those of `ReadSizeStep` on the old state |
| Codec.ReadInDataStep | cfg_generator/src/codec/mod.rs:92-105 | with fewer bytes than the stored length nothing changes; otherwise the item is exactly the first length bytes, with its length recorded, the rest stays buffered and the stored length is cleared |
| Codec.SizedDataCodec.ReadInData | cfg_generator/src/codec/mod.rs:92-105 | the decoder's new state, the remaining buffer and the result are those of `ReadInDataStep` on the old state |
| Codec.DecodeStep | cfg_generator/src/codec/mod.rs:118-123 | never fails, and yields an item only when a length was stored, clearing it |
| Codec.SizedDataCodec.Decode | cfg_generator/src/codec/mod.rs:118-123 | the decoder's new state, the remaining buffer and the result are those of `DecodeStep`; the result is never an error |
| Codec.FeedFrame | cfg_generator/fuzz/fuzz_targets/fuzz_sized_data_codec.rs:33-71 | a length-prefixed frame cut into non-empty chunks, one `decode` per chunk: nothing comes out before the last chunk, and the last call yields exactly the data when the header was complete before it, nothing otherwise |
| Codec.WholeFrameTakesTwoCalls | cfg_generator/fuzz/fuzz_targets/fuzz_sized_data_codec.rs:36-46 | a whole frame in one buffer: the first call only reads the length and leaves the data; the second returns the data and empties the buffer |
| Codec.FeedData | cfg_generator/src/codec/mod.rs:92-105 | once the length is stored, feeding the remaining data in chunks yields nothing until the chunk that completes it, which yields exactly the data |
| Codec.FeedHeader | cfg_generator/src/codec/mod.rs:75-90 | from a partly read header, the chunks yield nothing before the last one, and the last yields the data exactly when the header was complete before it |
| ServerConnection.ClearLowBit | node_gen_java/app/src/main/java/edu/ncsu/lab/ast_tagger/ServerConnection.java:26 | `x & ~1` is the even number at or just below x |
| ServerConnection.TableSizeIsPaddedWordCount | node_gen_java/app/src/main/java/edu/ncsu/lab/ast_tagger/ServerConnection.java:26 | the segment table size is the least even word count of at least segments + 1 (a count word plus one size word per segment) |
| ServerConnection.OneSegmentTable | node_gen_java/app/src/main/java/edu/ncsu/lab/ast_tagger/ServerConnection.java:26-28 | a one-segment message has a two-word, 8-byte table |
| ServerConnection.CalculateMessageLength | node_gen_java/app/src/main/java/edu/ncsu/lab/ast_tagger/ServerConnection.java:21-36 | the loop's result is the table bytes plus every segment's remaining bytes, in Java `int` arithmetic |
| ServerConnection.WrapAdd | node_gen_java/app/src/main/java/edu/ncsu/lab/ast_tagger/ServerConnection.java:28-33 | wrapping after each `+=` equals wrapping once at the end |
| ServerConnection.MessageLengthMonotone | node_gen_java/app/src/main/java/edu/ncsu/lab/ast_tagger/ServerConnection.java:21-36 | when no overflow occurs the length is exactly table bytes plus segment bytes, and it grows with the segments |
| GeUtils.PositiveDivisor | embed/embed_methods/ge/utils.py:13 | for a positive divisor Python's floor division and modulo agree with the Euclidean ones |
| GeUtils.PreprocessNxgraph | embed/embed_methods/ge/utils.py:1-9 | `idx2node` is the node order; `node2idx` has exactly the nodes as keys and maps each to a position holding it, never earlier than any of its occurrences |
| GeUtils.NumberingInverse | embed/embed_methods/ge/utils.py:1-9 | on distinct nodes `node2idx` inverts `idx2node` |
| GeUtils.ChunksProperties | embed/embed_methods/ge/utils.py:17-24 | the parts concatenate to the input, none is empty or longer than the batch, all but the last have exactly the batch size, and their number is the ceiling of length over batch |
| GeUtils.BatchSizeIsCeiling | embed/embed_methods/ge/utils.py:13 | for positive workers `(n - 1) // workers + 1` is the ceiling of n / workers, and 0 for no items |
| GeUtils.CollectParts | embed/embed_methods/ge/utils.py:17-24 | the accumulate-and-flush loop yields the consecutive parts of the batch size's magnitude, the last one possibly shorter |
| GeUtils.PartitionDict | embed/embed_methods/ge/utils.py:12-25 | zero workers or a zero batch size raise `ZeroDivisionError`; no items give no parts; otherwise the parts are the consecutive chunks of the items |
| GeUtils.PartitionDictParts | embed/embed_methods/ge/utils.py:12-25 | with positive workers the batch size is positive, the parts keep the items in order, all but the last have exactly the batch size and the last is non-empty and no longer |
| GeUtils.PartitionList | embed/embed_methods/ge/utils.py:28-39 | zero workers raise `ZeroDivisionError`; a zero batch size (an empty list) raises `ValueError` from `range`; a negative batch size gives no parts; otherwise the slices are the consecutive chunks |
| GeUtils.PartitionListParts | embed/embed_methods/ge/utils.py:28-39 | with positive workers the slices keep the order, cover the list and number at most `workers` |
| GeUtils.PartitionListEmpty | embed/embed_methods/ge/utils.py:30-33 | an empty list with positive workers gives a zero step, so `range` raises |
| GeUtils.PartitionNumParts | embed/embed_methods/ge/utils.py:42-46 | with positive workers the parts sum to `num`, and there are `workers` of them exactly when `workers` divides `num`, one more otherwise |

## Left out

**Outside the model**
- I/O of every kind is left out: `ServerConnection.send` and `connect`, the CLI, files, sockets and databases. Only the computations they feed are modelled.
- Double and VecDouble attributes in `attr_types/mod.rs` are left out because they are floating point. Their type bytes (0x04, 0x05, 0x0b, 0x0c) are only stated to be skipped.
- JSON serialization of messages (serde) and the graph-tool writer that assembles attributes into a file are inputs or left out. `Message::encode` takes the serialized bytes, or the serializer's failure, as a parameter.
- JavaParser's pretty printer is replaced by a one-line rendering (`JavaAst.PrintExpr`, `PrintStmt`). Spacing, line breaks, comments and generics therefore differ from the real output. Everything the model states about rendered text is relative to that rendering.
- The parser (`parseStatement`, `parseExpression`) is not modelled. Texts the tagger and the builder assemble and parse back are written as the trees the parser would read them as. `AstTagger.Tagger.CaseTextParses` and the text lemmas show that those trees print as the assembled texts.
- Symbol resolution (`calculateResolvedType`, resolving caught and thrown types with their ancestors) is a parameter of the tagger and the builder.
- Lambdas are left out in two places:
  - The tagger's `buildAnonymousFunction`, with the lambda branches of `buildStatement`, is not modelled: lambdas are not statements of the modelled tree.
  - The processor's function blocks nested in a block and its try blocks are not lowered. They end in `Unmodelled`, because the Rust code's handling of them depends on structures not modelled here.
- The dictionary-based `FlowNode` expression and statement rendering (`addExpressionToStringBuilder`) is a parameter of `FlowNodes.FlowNode.ToString`. So is the node's identity hash in `HashCode`.
- The ancestor searches of `NodeUtils` (`getLabeled`, `getNearestBreakable`, `getNearestContinuable`, `getReturnableAncestor`) are called by the builder, but NodeUtils.java does not define them. The model stands them in:
  - `GraphBuilderSupport.NearestBreakable`, `NearestContinuable` and `LabeledAncestor` find the innermost enclosing statement of that kind whose vertex is still in the graph.
  - A return goes to the method's exit vertex ("after").
- The JGraphT and petgraph libraries are modelled by the operations the code uses: `FlowGraph` is a simple directed graph; `CfgGraph` is a stable multigraph with newest-first edge order.
- CfgGraph.AddNode hands out node indices in increasing order and never reuses one. petgraph's `StableDiGraph` gives a new node the slot of the node removed last, so after a removal the model numbers later nodes differently. Edges, node kinds and the shape of the graph are unaffected; only the index values differ.
- The syntax tree covers a subset of Java, `JavaAst.Expr` and `JavaAst.Stmt`. The following are not in it:
  - the expressions `new` (with anonymous class bodies), casts, `instanceof`, `this` and `super`, array creation and array initializers, class literals and switch expressions;
  - the statements `synchronized`, `assert`, local class and record declarations, explicit constructor calls and try-with-resources.
- The subset loses some behaviours:
  - the variable canonicalizer renames the type names in `new Foo()` and `(Foo) x` under a statement, which the model cannot express;
  - the flow-graph builder's default visit descends into a `synchronized` body and into the methods of an anonymous class, and the model has neither;
  - the tagger's handling of these statements (its fall-through to a plain statement node) is not modelled.
- Java custom exceptions and runtime exceptions become `Err` values. A Rust `unwrap` on `None` becomes `AstProcessor`'s `Panicked`.

**Modelled differently**
- In-place mutation of syntax trees is modelled on values: the tagger's insertion into a loop body, the ternary flattener's `replace`/`addStatement`/`remove`, and the canonicalizers' visitors that edit a clone. Aliasing between tree nodes is not modelled. A node's identity is its position in the tree (a path), and a parsed node holds a serial number.
- `CondExprToIf.RewriteAll` and `RewriteAllCondExprsToIf` carry a step bound `fuel`. The source loops without a bound, and running out of the bound is `FuelExhausted`. It is not shown that every method reaches the fixpoint for a large enough bound.
- A ternary with no enclosing statement, which `rewriteCondExprToIf` skips and would then find again forever, is not modelled. It cannot occur inside a method body, which is where the model looks.
- `CondExprToIf.OwnedStep` gives `NullPointer` for a declaration statement outside a block. There the declaration split yields no statement, and the rewrite that follows dereferences it.
- `AstTagger.AddVarSetToBlock` covers the error for a for-each statement without a parent whose body is not a block. Every for-each inside a method body has a parent, so `NoParent` never arises from `BuildForEach`.
- AstTagger.Tagger.BuildSwitch: a switch without entries leaves the node's contents unset in the source. The model gives that node an empty block.
- The tagger's argument-less constructor is not modelled. It differs only in taking the default canonicalizer, which `AstTagger.Tagger.constructor` takes as a parameter.

**Source behaviours kept as written**
- The flow-graph builder:
  - a do loop keeps its own vertex;
  - `continue` in a for loop goes to the last update statement;
  - an empty switch reaches `NoSuchElement`;
  - a statement labelled onto itself reaches `NoSuchVertex`.
- An empty label in the processor is refused only after its dummy node is added, as in the source.
- `Codec.SizedDataCodec.Decode` reads only the length when a whole frame is buffered, so a frame needs two calls. The fuzz driver calls `decode` once per chunk, and the model's `Codec.Feed` does the same.
- `GraphToolAttrs.VecString`'s `num_bytes` counts 8 bytes per string beyond the value bytes and the length field. The model states this rather than equating the two.
- `ServerConnection.CalculateMessageLength` wraps every step at 32 bits, as Java `int` does.

**Contracts stated weaker than the source's promise**
- Canonicalizer.ExprIdempotent: for `Full`, idempotence is proved only for an expression with no literal or with no binder. `Canonicalizer.FullStmtNotIdempotent` shows that `Full` is not idempotent on statements in general.
- CondExprToIf.RewriteAll: "no ternary remains" holds on every successful result. Termination within a given bound is not promised.
- CondExprToIf.FirstMatch, `FirstMatchStmt`, `FirstMatchStmts` and `FirstStmtIndex` search a tree in the order of its fields. JavaParser's `findFirst` walks a node's child list, and `replace` moves the new node to the end of that list. So after one rewrite the source's walk can reach a different ternary first than the model's, on an input such as `foo(a ? (b ? 1 : 2) : 3, c ? 4 : 5);`. The generated statements can then come out in a different order.
- CondExprToIf.RewriteAll: inherits that order, so its result is the source's only up to the order in which ternaries are rewritten.
- AstProcessor.AstProcessor.ProcessMethod: promises a well-formed graph and its error cases, not the full shape of the graph. The edges each step leaves are stated by the contracts of `CloseNode`, `ProcessLoop`, `LoopRest`, `DeleteLabel` and `ProcessLabels`. Those contracts are not composed into one statement about the whole method.
- VariableCanonicalizer.RenameType: works on the text of a type. A type-use annotation inside a type (`List<@NonNull String>`) would have its name renamed, while JavaParser keeps annotation names.
