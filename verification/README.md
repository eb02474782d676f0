# Lumilake: the workflow compiler and the batch pipeline, modelled and proved

Lumilake takes workflows written in YAML or n8n, compiles each into a graph of operators, lowers that graph into
runtime nodes, cuts the rows of the inputs into slices, runs many slices together in batches on shared workers, and
puts the results of a request together again while batches finish in any order. This project models those parts of
the server in Dafny and proves what they promise. `dafny verify dfyconfig.toml` checks all of it.

The modules, one per file:

- **Sorting and lowering.** `TopologicalSort` is the layered sort both graph layers use. `Ops`, `Lowering` and
  `Tracer` are the trace that flattens an operator DAG into columns, steps and messages: `Lowering` says what one
  trace returns, without memo or accumulators, `StepOrder` in which order it finishes its steps, and `Tracer` is the
  imperative recursion, proved to do exactly that. `LoweringMeaning` gives both sides a meaning and proves when they
  are equal, `LoweringCheck` tells it from the graph alone, and `LoweringText` spells out roles, labels and paths.
- **Runtime graphs.** `TemplateDependencies`, `NodeBuilding` and `GraphBuilding` go from a lowered program to a node
  with its data and dependencies, and to the nodes of a whole graph; `NodeReading` reads that data key by key and proves
  that it means what the call means. `RuntimeGraphs`, `RenamedReads`, `ExecutionOrder`, `GraphMerge` and
  `GraphComponents` are renaming, ordering, merging and what they keep; `Delays` is what ids without a node do to
  the order. `RoundRobin` is the example scheduler and when it cannot block.
- **Operators and documents.** `OpSerialization` and `GraphSerialization` are the JSON round trip. `Worklists` is the
  parsers' emission loop, `YamlEmission` and `YamlDocuments` what it emits for a YAML document, `YamlLoading` and
  `YamlReading` which documents can be loaded afterwards, `YamlMeaning` what is loaded, and `TemplateFilling` what the
  implicit templates render.
- **Slices.** `Slicing`, `Coalescing`, `LiteralRewrite`, `GroupRuns`, `Reassembly`, `RequestRuns` and `Pipeline` follow
  rows from the job to the response; `FailureReports` is which failures it carries. `ColumnRuns` is a runtime that meets their hypothesis, and a job that breaks it.
- **The batch protocol.** `Scheduling` is a state machine with one step per section of code between two awaits and any
  number of batches in flight. `SchedulingInvariants`, `SchedulingBooks` and `SchedulingRuns` prove safety over every
  run, and `Dispatcher` proves that the server's methods are those steps. `Apportionment` shares nodes among requests.
- **Jobs.** `JobLifecycle` is the status of a job under every interleaving, `JobIndex` the two job indexes.
- `Collections` is shared vocabulary.

## Conventions

- Python dictionaries are maps, with a sequence of keys where the order shows. Sets are iterated with `:|`, so every
  proof covers every iteration order.
- Ids are opaque strings. Hypotheses on names are stated where they are needed: labels of different operators differ
  (`Lowering.DistinctLabels`), emitted ids differ (`YamlDocuments.DistinctIds`), new node ids do not meet ids that are
  only dependencies (`ExecutionOrder.FreshNames`, `RuntimeGraphs.Unambiguous`).
- The runtime is an abstract function of a graph's list literals and of what its input operators read. A job is
  row-wise when this function gives each row of any inputs its own value (`GroupRuns.Job.RowWise`). Text formatting,
  lambdas and generation are an arbitrary interpretation.
- Moments are integers, of which the seconds of the index keep the order.
- A class of the model has the fields of the source's object and methods that update them; its `Value()` is the state
  as a value, and each method's new state is a function of the old one.

## What turned out different

Where the code does not do what its callers would expect, the exact condition is proved.

- Lowering drops the positional arguments of a format operator, and takes a literal that is a label for that label;
  meaning is kept exactly when no visited format operator has a positional argument, no literal that a step reads is a
  column or an earlier step, and no literal among the messages is a label at all (`LoweringMeaning.MeaningKeptIff`,
  and before lowering `LoweringCheck.MeaningKeptBeforehandIff`; an example is `LiteralCapturedByColumn`).
- A row-wise model call does not depend on nodes that occur only inside the data its columns carry
  (`NodeBuilding.ReadsCoveredIff`), and exactly the row-wise and aggregate calls lose their run condition,
  so that they need not wait for the node it looks at (`GraphBuilding.CallWaitsIff`); a graph that runs such a call before what it reads is
  `GraphBuilding.CarriedReadCanDangle`.
- Ids that never became runtime nodes delay some nodes by one layer, and change the execution order exactly when a
  delayed node falls behind one that is not (`Delays.LayerWithOthers`, `OthersHarmlessIff`, `OthersCanReorder`); the
  exported dependencies stay the same.
- The exported dependencies include the node of a run condition, which the execution order ignores, so a round-robin
  schedule can block (`RoundRobin.RoundRobinNeverBlocksIff`, `ConditionCanBlock`).
- A user message equal to the id of an earlier operator comes back from JSON as a reference to it
  (`GraphSerialization.RoundTripIff`).
- The literal rewrite is a parse of the merged inputs exactly when no label is shared by different bindings
  (`LiteralRewrite.RewritingIsParsing`); a static list equal to an input's first slice is overwritten, and the response
  then holds other rows than the job's, without an error (`ColumnRuns.ClashMisleads`).
- A batch is refused for an ambiguous list, for a varying input that nothing reads, or for a result of another length.
  The response has no error exactly when no batch is refused (`Pipeline.ErrorFreeIff`). Where no label clashes, no list
  is ambiguous, and that is when each batch has one slice or the workflow reads every varying input; the response then
  is the computation over all rows (`Pipeline.SlicingIsTransparent`).
- Apportionment loses nodes exactly when no request has raw nodes and there are more nodes than requests
  (`Apportionment.Apportion`).
- A commit that fails after a claim, and a task that ends before its `try` block (runtime/server.py:1627), keep their
  workers for good, and the latter also leaves its request unanswered (`SchedulingRuns.NothingLeaks`,
  `QuiescentIsSettled`).
- A job without rows is accepted by the route's slicing and refused when its slice is collected
  (`Pipeline.NoRowsNeverClean`).
- The two indexes differ on an empty set of statuses in `iter_summaries` (`JobIndex.IterAgreesIff`), and on a query
  exactly when a row it asks for was pruned since its last save (`JobIndex.IndexesAgreeIff`).
- A field of a YAML operator may name an operator that is not among its `inputs` and is emitted later. The compiler
  accepts such a document; it can be loaded exactly when every field that loading looks up names a document input or
  an operator earlier in the order (`YamlReading.DocumentLoadsIff`, `UndeclaredCanDangle`). A message that names a
  later operator does load, but holds that operator's internal id as a text (`YamlReading.MessageReferenceKeptIff`).

## Model

| member | source | states |
|---|---|---|
| TopologicalSort.TopologicalSort | src/lumilake_server/utils/graph.py:5-33 | the layered Kahn loop raises exactly when the graph has a cycle, and otherwise returns the complete layers in order, each without repetition and sorted by the key, whatever the iteration order of the sets |
| TopologicalSort.SortIsTopological | src/lumilake_server/utils/graph.py:12-33 | every key and neighbour occurs exactly once, and each edge points forward |
| TopologicalSort.LayerIsLongestPath | src/lumilake_server/utils/graph.py:17-28 | layer k holds exactly the nodes whose longest incoming path has k edges |
| TopologicalSort.SortIsDeterministic | src/lumilake_server/utils/graph.py:19-20 | with an injective secondary key only one result is possible |
| Lowering.ReachTraces | src/lumilake_server/runtime/runtime_graph.py:1563-1689 | a trace that succeeds has traced every op it reaches |
| Tracer.Tracer.TraceAncestors | src/lumilake_server/runtime/runtime_graph.py:1563-1689 | the memoised recursion returns what the memo-free trace returns, errors included, adds exactly the ops it reaches to the accumulators, and leaves the entries of ops in progress alone |
| Tracer.InferStructuralMessages | src/lumilake_server/runtime/runtime_graph.py:1540-1724 | the trace fails exactly when the memo-free one does, with its error; else the program holds exactly the columns and steps of the ops reached, each step once and after all it is computed from, in the depth-first post-order of first visits; the visited ops are those reachable before another generator, and the upstream ids exactly that frontier |
| LoweringMeaning.TraceOrigins | src/lumilake_server/runtime/runtime_graph.py:1563-1689 | every text of a trace is a label of an op it reaches, or a literal of the message ops it runs through |
| LoweringMeaning.LoweringPreservesMeaning | src/lumilake_server/runtime/runtime_graph.py:1540-1724 | for every interpretation of templates, lambdas and upstream nodes, running the columns, the steps in list order and the messages gives what recursive evaluation of the DAG gives, roles as they were written included, under the exact condition of the next row |
| LoweringMeaning.MeaningKeptIff | src/lumilake_server/runtime/runtime_graph.py:1606-1689 | for every lowering, meaning is kept under every interpretation if and only if no visited format op has positional arguments, no literal read by a step is a column or the label of an earlier step, and no literal among the messages is a label |
| LoweringMeaning.CleanLiteralsAreKept | src/lumilake_server/runtime/runtime_graph.py:1606-1689 | literals that are no labels at all meet the literal half of that condition |
| LoweringCheck.MeaningKeptBeforehandIff | src/lumilake_server/runtime/runtime_graph.py:1540-1724 | the same for the program of the trace, with the steps told by the graph: no literal read by a step is a column of a reached op or the label of a step that the post-order finishes before it |
| LoweringText.MessagesAsWritten | src/lumilake_server/runtime/runtime_graph.py:1573-1640 | the lowered messages render with the role names they were written with, also those that a message takes over; a model call speaks as the assistant, with its history without a role, other sources as the user |
| LoweringText.ColumnsAsWritten | src/lumilake_server/runtime/runtime_graph.py:1573-1618 | each reached source has its columns under its own names, with its list, or its node and the path of its kind |
| LoweringText.ColumnsNamed | src/lumilake_server/runtime/runtime_graph.py:1573-1618 | there is no other column |
| LoweringText.StepsAsWritten | src/lumilake_server/runtime/runtime_graph.py:1642-1683 | each reached format operator has a step with its template and its keyword arguments, each reached lambda one with its code and its arguments, single messages by their text |
| LoweringMeaning.LiteralCapturedByColumn | src/lumilake_server/runtime/runtime_graph.py:1620-1623 | a lowering whose literal equals a column label has another meaning than its DAG |
| TemplateDependencies.RefsOfColumns | src/lumilake_server/runtime/runtime_graph.py:1519-1534 | the node references of template columns are the scanned ones and those in data the scan does not look into |
| TemplateDependencies.CollectDependencies | src/lumilake_server/runtime/runtime_graph.py:1508-1538 | the scan lists exactly the nodes that columns, dataframes and nested templates name, each once |
| NodeBuilding.ProgramReads | src/lumilake_server/runtime/runtime_graph.py:1540-1724 | a lowered program reads exactly the LLM and retrieval ops its root reaches, and the scan finds them all |
| NodeBuilding.BuildNode | src/lumilake_server/runtime/runtime_graph.py:1314-1506 | the node of a chat call has the data of its branch, whose reading the next rows state, and exactly the dependencies of its branch, each once; a row-wise call without columns is refused |
| NodeReading.NodeMeansIff | src/lumilake_server/runtime/runtime_graph.py:1486-1506 | evaluating the data of a plain call's node, read key by key, gives the meaning of the call's operators under every interpretation, if and only if no visited format op has positional arguments and no literal is taken for a label |
| NodeReading.AggregateNodeRuns | src/lumilake_server/runtime/runtime_graph.py:1358-1477 | evaluating the data of an aggregate call's node runs the program over its columns and the table, each template step seeing also the columns that its placeholders name and that it does not bind, with the same messages |
| NodeReading.RowwiseNodeReads | src/lumilake_server/runtime/runtime_graph.py:1314-1356 | the data of a row-wise call's node holds a column for each row with a name and data or a node and a path, in order, and the system messages before the user template |
| NodeReading.TemplatesTyped | src/lumilake_server/runtime/runtime_graph.py:1477-1506 | plain and aggregate data are graph templates named format |
| NodeBuilding.ReadsOfCall | src/lumilake_server/runtime/runtime_graph.py:1314-1506 | in the default and aggregate branches the nodes that the data refers to are exactly the dependencies; a row-wise call refers to the nodes of its columns and to those inside carried data |
| NodeBuilding.ReadsCoveredIff | src/lumilake_server/runtime/runtime_graph.py:1314-1506 | every node in the data is a dependency, for a row-wise call exactly when carried data refers only to upstream calls and column nodes |
| NodeBuilding.NoDanglingRead | src/lumilake_server/runtime/runtime_graph.py:205-230 | when reads are dependencies, every execution order has each read node before its reader |
| NodeBuilding.Build | src/lumilake_server/runtime/runtime_graph.py:425-478 | building the chat calls succeeds exactly when each can be lowered and every op was visited before or is reachable from a call without passing another one; the unvisited error names exactly the others |
| NodeBuilding.BuiltReadsInOrder | src/lumilake_server/runtime/runtime_graph.py:425-488 | in every execution order of a built graph all reads come after the node they read |
| GraphBuilding.Mark | src/lumilake_server/runtime/runtime_graph.py:354-389 | before the first chat node exactly the model calls, the retrievals, the outputs and what retrievals name are visited; an output that shows no node, or a graph that runs nothing, is refused |
| GraphBuilding.RunningAreFrontier | src/lumilake_server/runtime/runtime_graph.py:358-364 | what counts as running is what a program can read |
| GraphBuilding.BuildGraph | src/lumilake_server/runtime/runtime_graph.py:345-478 | the build succeeds exactly when outputs show nodes, something runs, every call can be lowered, and every op runs, is an output, is named by a retrieval or is reached from a call |
| GraphBuilding.CallWaitsIff | src/lumilake_server/runtime/runtime_graph.py:1342-1506 | the exported node of a call waits for the node of its run condition exactly when the call is neither row-wise nor aggregate, or depends on that node anyway |
| GraphBuilding.CarriedReadCanDangle | src/lumilake_server/runtime/runtime_graph.py:1314-1356 | a concrete graph that meets all that the build demands, whose execution order runs a row-wise call before the node that its carried table reads and its condition waits for |
| NodeBuilding.BuildVision | src/lumilake_server/runtime/runtime_graph.py:696-741 | the dependencies of a vision call are the upstream calls, the scanned nodes with the batch column, and its embedding node, each once |
| NodeBuilding.EmbeddingReads | src/lumilake_server/runtime/runtime_graph.py:789-840 | the embedding node depends on exactly what its data reads |
| NodeBuilding.VisionCoveredIff | src/lumilake_server/runtime/runtime_graph.py:650-769 | the reads of a vision call are dependencies exactly when references in unscanned column data are |
| NodeReading.VisionReads | src/lumilake_server/runtime/runtime_graph.py:720-741 | the data of a vision node holds its columns, its format and the embedding node with its file |
| NodeReading.BatchReads | src/lumilake_server/runtime/runtime_graph.py:789-840 | the batch column has one empty text for each given image, or reads the images of the source node |
| NodeReading.EmbeddingHolds | src/lumilake_server/runtime/runtime_graph.py:789-840 | the embedding node holds the given images, or reads those of the source node |
| RuntimeGraphs.RemapRefs | src/lumilake_server/runtime/runtime_graph.py:232-262 | the references of a renamed value are the renamed references |
| RuntimeGraphs.RemapBack | src/lumilake_server/runtime/runtime_graph.py:232-262 | renaming an arbitrary value is undone by the inverse renaming |
| RuntimeGraphs.RenameBack | src/lumilake_server/runtime/runtime_graph.py:232-285 | renaming a graph is an isomorphism: embedded references, dependencies, conditions, outputs and the operator map all come back under the inverse |
| RuntimeGraphs.PrefixesInjective | src/lumilake_server/runtime/runtime_graph.py:232-236 | prefixing never maps two nodes to one |
| RuntimeGraphs.PrefixBack | src/lumilake_server/runtime/runtime_graph.py:232-290 | prefixing a graph gives every node its prefixed id in the same order, and renaming by the inverse gives the graph back |
| RenamedReads.NodesRenamed | src/lumilake_server/runtime/runtime_graph.py:252-276 | a renamed graph has exactly the renamed nodes, and each field of each node, data, specifications, output, condition and dependencies, refers to exactly the new ids of what it referred to |
| RenamedReads.MapsRenamed | src/lumilake_server/runtime/runtime_graph.py:277-290 | outputs, paths, node order and each operator's list follow |
| RenamedReads.PrefixedReads | src/lumilake_server/runtime/runtime_graph.py:232-290 | prefixing prefixes every node reference of every field, and a node depends on all it reads exactly when it did |
| RenamedReads.PrefixedOrderReads | src/lumilake_server/runtime/runtime_graph.py:232-290 | in the prefixed order every read comes after the node it reads exactly when it did |
| ExecutionOrder.TopologicalOrder | src/lumilake_server/runtime/runtime_graph.py:205-230 | the order exists exactly when dependencies have no cycle, and is the layered sort without ids that are no nodes |
| ExecutionOrder.OrderIsTopological | src/lumilake_server/runtime/runtime_graph.py:205-230 | every node occurs once, after all nodes it depends on |
| ExecutionOrder.OrderIsUnique | src/lumilake_server/runtime/runtime_graph.py:223-229 | a graph has one order although ids that are no nodes tie in the sort |
| ExecutionOrder.OrderExistsIff | src/lumilake_server/runtime/runtime_graph.py:205-230 | some order exists exactly when the dependencies have no cycle |
| ExecutionOrder.RenamingKeepsOrder | src/lumilake_server/runtime/runtime_graph.py:205-285 | prefixing commutes with ordering |
| ExecutionOrder.PrefixKeepsOrder | src/lumilake_server/runtime/runtime_graph.py:205-290 | the execution order of a prefixed graph is the prefixed order |
| GraphMerge.MergeRuntimeGraphs | src/lumilake_server/runtime/runtime_graph.py:293-332 | merging fails exactly when a node id occurs twice; else it is the disjoint union, nodes in the order of the graphs, with each output mapped to its graph's name and each operator to its nodes, those not yet listed behind the listed ones |
| GraphMerge.ListsAreConcatenated | src/lumilake_server/runtime/runtime_graph.py:309-316 | when graphs list their own nodes, an operator's merged list is the concatenation of its lists in the order of the graphs |
| GraphMerge.OutputsTagged | src/lumilake_server/runtime/runtime_graph.py:317-319 | the output mapping holds exactly the output nodes, each with the name of the graph that holds it and its output name there |
| GraphComponents.ComponentKeepsOrder | src/lumilake_server/runtime/runtime_graph.py:205-230 | a set of nodes closed under dependencies runs in the order of the whole graph |
| GraphComponents.MergingKeepsOrders | src/lumilake_server/runtime/runtime_graph.py:205-332 | the order of a merged graph keeps the order of each of its graphs |
| GraphComponents.MergedOrderExistsIff | src/lumilake_server/runtime/runtime_graph.py:205-332 | a merged graph has an order exactly when each of its graphs has one: merging makes no cycle |
| GraphComponents.ExportIgnoresOthers | src/lumilake_server/runtime/runtime_graph.py:182-203 | ids that never became nodes do not show in exported dependencies |
| Delays.LayerWithOthers | src/lumilake_server/runtime/runtime_graph.py:205-221 | a node's layer is its layer without such ids, plus one exactly when it is delayed: it waits for such an id and no node, or for a delayed node of the layer before |
| Delays.OthersHarmlessIff | src/lumilake_server/runtime/runtime_graph.py:205-230 | such ids leave the order alone exactly when no delayed node falls behind one that is not, of its layer and placed after it or of the next layer and placed before it |
| Delays.UniformDelay | src/lumilake_server/runtime/runtime_graph.py:205-221 | when they delay every node, all layers shift by one |
| Delays.UniformDelayKeepsEarlier | src/lumilake_server/runtime/runtime_graph.py:205-230 | when they delay every node, no two nodes change the order of their layers |
| Delays.OthersCanReorder | src/lumilake_server/runtime/runtime_graph.py:205-230 | a graph of two nodes whose order is the reverse of its order without such ids |
| RoundRobin.GenerateSchedule | examples/plugins/simple_plugin/simple_optimizer.py:8-22 | without workers it fails; else position i of the order goes to worker i modulo their number, in order |
| RoundRobin.ValidateSchedule | src/lumilake_server/runtime/server.py:1261-1290 | accepts exactly the schedules whose workers and nodes are the given ones and whose queues repeat no node |
| RoundRobin.RoundRobinIsAccepted | examples/plugins/simple_plugin/simple_optimizer.py:16-22 | every round-robin schedule passes the validation |
| RoundRobin.EachNodeOnce | examples/plugins/simple_plugin/simple_optimizer.py:18-20 | no node is in two queues |
| RoundRobin.LoadsAreEven | examples/plugins/simple_plugin/simple_optimizer.py:18-20 | loads are the quotient, plus one for the first remainder workers |
| RoundRobin.LoadsWithinOne | examples/plugins/simple_plugin/simple_optimizer.py:18-20 | the loads of any two workers differ by at most one |
| RoundRobin.CompleteFinishesAll | examples/plugins/simple_plugin/simple_optimizer.py:16-22 | when all queues are done every node has run |
| RoundRobin.NeverBlocksIff | examples/plugins/simple_plugin/simple_optimizer.py:16-22 | over every interleaving of workers that wait for dependencies, some queue head is ready until all are done, for every number of workers, if and only if the order respects the dependencies |
| RoundRobin.RoundRobinNeverBlocksIff | src/lumilake_server/runtime/runtime_ops.py:94-101 | on the topological order of a runtime graph this holds if and only if run conditions look at earlier nodes |
| RoundRobin.ConditionCanBlock | src/lumilake_server/runtime/runtime_ops.py:94-101 | a graph of two nodes whose execution order, scheduled on one worker, blocks |
| OpSerialization.NewMessage | src/lumilake_server/ops/data_ops.py:50-66 | the constructor's loop finds the inputs at first mention and the index of each content |
| OpSerialization.NewFormat | src/lumilake_server/ops/util_ops.py:20-48 | the constructor's two loops share one list of inputs and index all arguments into it |
| OpSerialization.MessageReadsBack | src/lumilake_server/ops/data_ops.py:50-74 | the messages property gives back the messages the operator was made from |
| OpSerialization.FormatReadsBack | src/lumilake_server/ops/util_ops.py:20-56 | the argument properties give back the arguments the operator was made from |
| OpSerialization.ReadBackIff | src/lumilake_server/ops/ops.py:108-122 | an operator whose inputs are loaded can be read back, unchanged exactly when no literal of it is a loaded id and a vision call's image source is an input iff it is loaded |
| GraphSerialization.NewGraph | src/lumilake_server/graphs/graph.py:48-66 | the constructor fails exactly on a duplicate input or output name or a cycle, and else keeps the linked operators in sorted order |
| GraphSerialization.GraphInOrder | src/lumilake_server/graphs/graph.py:161-167 | a graph holds exactly the operators with an input or a user, each after its inputs: isolated ones are dropped |
| GraphSerialization.LoadedAcyclic | src/lumilake_server/graphs/graph.py:131-139 | what is loaded has no cycle |
| GraphSerialization.FromJson | src/lumilake_server/graphs/graph.py:131-139 | loading succeeds exactly when every operator can be read with those before it and names are unique |
| GraphSerialization.SerializedIsReadable | src/lumilake_server/graphs/graph.py:121-139 | a serialized graph can always be loaded |
| GraphSerialization.RoundTripIff | src/lumilake_server/graphs/graph.py:121-139 | loading what was serialized gives the same operators up to order, ids, ordered inputs, references and loop bounds included, if and only if every operator is kept |
| GraphSerialization.TextCanBecomeReference | src/lumilake_server/ops/data_ops.py:91-101 | a graph whose message text is an earlier operator's id does not come back |
| Worklists.ResolveNodes | src/lumilake_server/parser/n8n.py:166-257 | in any visiting order the loop resolves exactly the least fixpoint of the dependencies, fails exactly when something stays unresolved, and lists each name after its dependencies |
| Worklists.OrderEntries | src/lumilake_server/parser/yaml_parser.py:226-284 | a document compiles exactly when names are distinct and known and all can be resolved; a cycle error names operators that all wait for each other, and the rest was resolvable |
| Worklists.ResolvableUnique | src/lumilake_server/parser/yaml_parser.py:251-284 | there is one least fixpoint, so the visiting order cannot show |
| YamlEmission.WrapContents | src/lumilake_server/parser/yaml_parser.py:893-970 | exactly the user contents that name an operator which is no format operator are redirected to the implicit format operator |
| TemplateFilling.WrappedRenders | src/lumilake_server/parser/yaml_parser.py:893-970 | that operator's template is its own keyword arguments in braces, one behind the other; its keys are distinct, and filling it gives the values of the named operators in the order of the messages |
| YamlEmission.EmitInline | src/lumilake_server/parser/yaml_parser.py:811-892 | messages written out become perhaps a format operator, then a message operator listing those inputs and that format operator which its contents mention; it fails exactly without messages or on an unknown name in the prompt |
| YamlEmission.EmitModel | src/lumilake_server/parser/yaml_parser.py:634-784 | emission of a model call fails exactly on its checks, and else emits the implicit operators and the call itself |
| YamlEmission.EmitImage | src/lumilake_server/parser/yaml_parser.py:547-601 | the same for an image call and its implicit format operator |
| TemplateFilling.ImageRenders | src/lumilake_server/parser/yaml_parser.py:570-590 | content that is no format operator goes through an implicit one that renders its value |
| TemplateFilling.KeyReads | src/lumilake_server/parser/yaml_parser.py:943-961 | the key of argument k is ref and the numeral of k |
| YamlDocuments.EmitWorkflow | src/lumilake_server/parser/yaml_parser.py:234-304 | compiling fails exactly when an operator fails its checks, or an output names nothing or takes an id in use, and else emits the inputs, the operators in the order of the worklist, and the outputs |
| YamlDocuments.EntriesAgree | src/lumilake_server/parser/yaml_parser.py:226-284 | the order of the worklist is the order the emission needs |
| YamlDocuments.EmittedIff | src/lumilake_server/parser/yaml_parser.py:251-284 | the id of a name is emitted before an operator exactly when it is an input or comes earlier in the order |
| YamlReading.CheckedIff | src/lumilake_server/parser/yaml_parser.py:634-784 | an operator passes the checks of its emission exactly when the names they look at are in the document, and a message operator it refers to comes earlier |
| YamlLoading.ReadableIff | src/lumilake_server/graphs/graph.py:131-139 | loading meets no unknown id exactly when each id that an operator's class looks up was emitted before it; message contents and image sources are kept as texts instead |
| YamlLoading.OpLoadsIff | src/lumilake_server/parser/yaml_parser.py:372-410 | the operators emitted for one entry load exactly when its fields name loaded operators: the implicit ones find each other |
| YamlReading.DocumentLoadsIff | src/lumilake_server/graphs/graph.py:131-139 | a compiled document holds each id once, and can be loaded exactly when each field that loading looks up names a document input or an operator earlier in the order |
| YamlReading.DeclaredLoads | src/lumilake_server/parser/yaml_parser.py:251-284 | a compiled document whose fields are among the declared inputs can be loaded |
| YamlMeaning.DocumentHeld | src/lumilake_server/parser/yaml_parser.py:372-1006 | every operator of a document that loads is loaded with its own fields, bound to the operators that the fields name |
| YamlMeaning.InlineHeld | src/lumilake_server/parser/yaml_parser.py:811-892 | the implicit message operator is loaded with the call's messages, user messages redirected to the implicit format operator with a prompt always and else when they name an operator which is no format operator |
| YamlMeaning.PromptHeld | src/lumilake_server/parser/yaml_parser.py:811-892 | a prompt becomes the implicit format operator with its template and bindings |
| YamlMeaning.InputsHeld | src/lumilake_server/parser/yaml_parser.py:238-249 | the inputs of the document are loaded first, by name |
| YamlMeaning.OutputsHeld | src/lumilake_server/parser/yaml_parser.py:286-302 | the outputs are loaded last, each bound to the operator it names, with its path |
| YamlMeaning.InputsListed | src/lumilake_server/parser/yaml_parser.py:634-784 | each emitted operator lists its declared inputs, what it reads, or its message before the nodes of its tables, each once |
| YamlMeaning.ImplicitInputs | src/lumilake_server/parser/yaml_parser.py:811-892 | the implicit message operator lists exactly the declared inputs and the implicit format operator that its messages name |
| YamlReading.UndeclaredCanDangle | src/lumilake_server/parser/yaml_parser.py:971-994 | a concrete document that compiles and cannot be loaded |
| YamlReading.MessageReferenceKeptIff | src/lumilake_server/ops/data_ops.py:91-101 | a message that names an operator is loaded as a reference exactly when that operator is known before it, and otherwise as the text of its internal id |
| YamlReading.InlineReferenceKeptIff | src/lumilake_server/parser/yaml_parser.py:811-892 | the same for messages of a model call that are not the user's |
| Slicing.ChunkInputs | src/lumilake_server/routes/jobs.py:93-115 | fails exactly when lists have different lengths other than one; else the windows are consecutive, full except the last, with single values repeated |
| Slicing.InputShape | src/lumilake_server/routes/jobs.py:118-127 | the row count and the names of longer lists, or an error when there is none |
| Slicing.MakeSlices | src/lumilake_server/routes/jobs.py:2071-2106 | slicing succeeds exactly on even inputs and a positive batch size, and the slices tile the rows: no gap, no overlap, whole in order |
| Coalescing.MergeGroup | src/lumilake_server/runtime/server.py:1373-1434 | a group is accepted exactly when its slices, sorted by index, fit together, and the merge joins varying lists in slice order and keeps the rest |
| Coalescing.SelectionMergeable | src/lumilake_server/runtime/server.py:1515-1591 | any selection of a job's slices is accepted |
| Coalescing.MergedRowAt | src/lumilake_server/runtime/server.py:1554-1588 | row i of slice j is row offset(j) + i of the merge, single values broadcast |
| Coalescing.MergeRestoresInputs | src/lumilake_server/runtime/server.py:1515-1591 | merging all slices of a job gives back its inputs |
| Coalescing.Demux | src/lumilake_server/runtime/server.py:2604-2648 | a flat output of the total length is cut into the parts of the slices, any other length is an error |
| Coalescing.DemuxRestores | src/lumilake_server/runtime/server.py:2604-2648 | merging, running row by row and cutting apart gives each slice what the unsliced run has for its rows |
| LiteralRewrite.InferAliases | src/lumilake_server/runtime/server.py:1447-1465 | the first loop fails exactly when a list matches two varying inputs, and else maps each label to the input of its last match |
| LiteralRewrite.AliasIff | src/lumilake_server/runtime/server.py:1447-1465 | a label that names no varying input becomes an alias of an input exactly when the last slot of that label whose list is the first slice of some varying input holds the first slice of this one |
| LiteralRewrite.ReplaceItems | src/lumilake_server/runtime/server.py:1467-1477 | the second loop writes the merged lists into exactly the chosen slots, in place, and counts them |
| LiteralRewrite.RewriteLiterals | src/lumilake_server/runtime/server.py:1437-1513 | the rewrite fails exactly on an ambiguous list or an input without a hit, and else changes exactly the chosen literals |
| LiteralRewrite.RewritingIsParsing | src/lumilake_server/runtime/server.py:1437-1513 | rewriting slice 0's literals equals parsing the template with the merged inputs, for every merge, if and only if no label is shared by different bindings |
| LiteralRewrite.NoClashIsUnambiguous | src/lumilake_server/runtime/server.py:1447-1465 | where no label clashes, no list matches two varying inputs |
| LiteralRewrite.HitsIff | src/lumilake_server/runtime/server.py:1479-1490 | without a clash every varying input finds a rewrite target exactly when a literal is bound to it or an input operator reads it |
| LiteralRewrite.MergeExtends | src/lumilake_server/runtime/server.py:1515-1591 | merges of slices are the extensions that theorem speaks of |
| LiteralRewrite.StaticListIsCaptured | src/lumilake_server/runtime/server.py:1455-1476 | a static list equal to an input's first slice is overwritten |
| LiteralRewrite.EqualSlicesAreAmbiguous | src/lumilake_server/runtime/server.py:1455-1463 | two inputs with equal first slices are refused |
| Reassembly.MergeSlicePayload | src/lumilake_server/runtime/server.py:1905-1982 | a payload writes its rows into the buffer, or is reported for a wrong range, length, buffer size or overlap |
| Reassembly.FinishBuffers | src/lumilake_server/runtime/server.py:1984-2018 | buffers keep their length, holes become blanks, and each buffer with a hole is reported |
| Reassembly.RequestState.HandleBatch | src/lumilake_server/runtime/server.py:1874-2114 | a handled batch has the effect of its workflows in order, and responds exactly when nothing of the request is pending |
| Reassembly.BufferHoldsLastWrite | src/lumilake_server/runtime/server.py:1905-1982 | after any run a buffer position holds the last value a payload wrote there, or nothing |
| RequestRuns.NoErrorIffAllClean | src/lumilake_server/runtime/server.py:1888-2087 | a run leaves no error exactly when every workflow finished and filled empty rows of its buffers |
| RequestRuns.ResponseIsFaithful | src/lumilake_server/runtime/server.py:1984-2114 | the response shows every fed buffer at full length, each row as last written and blank where nothing was, and carries no error if and only if every workflow was clean and every row was written |
| FailureReports.RunReports | src/lumilake_server/runtime/server.py:1888-2087 | over every run a failure is among the errors exactly when some event gave its reason: a cancellation, a failed batch, a missing output, a buffer without rows, a slice that does not fit, an entry of the wrong length, or exactly the rows that were already filled |
| FailureReports.ResponseReports | src/lumilake_server/runtime/server.py:1984-2087 | the errors of a response are those, and one for each buffer with a row that nothing was written to |
| FailureReports.KindsReported | src/lumilake_server/runtime/server.py:2020-2087 | a batch error is reported for exactly the workflows that failed without being cancelled, a cancellation for the cancelled ones, a missing output for those that finished without one |
| RequestRuns.PendingIsUnhandled | src/lumilake_server/runtime/server.py:2020-2087 | a request waits for exactly the workflows not handled yet |
| RequestRuns.CompletedCountsOnce | src/lumilake_server/runtime/server.py:1888-1895 | the completed count is the rows of the successful workflows, each counted once even when handled twice |
| RequestRuns.CompletedWithinTotal | src/lumilake_server/runtime/server.py:1888-1895 | the completed count never exceeds the total, and reaches it in a clean run of all workflows |
| GroupRuns.GroupSlotsParsed | src/lumilake_server/runtime/server.py:1515-1591 | the literals a group runs with, rewritten or those of its one slice, are the ones the merged inputs would compile to |
| GroupRuns.GroupOutcome | src/lumilake_server/runtime/server.py:1515-1591 | whatever slices share a batch, its workflows report a value for each of their rows, or the merge or the demux refuses and all of them fail |
| GroupRuns.GroupIsFaithful | src/lumilake_server/runtime/server.py:2604-2648 | a group that passes the rewrite without a clash also passes the demux, and gives each slice the rows of the unsliced computation, outputs and histories |
| GroupRuns.PassesIff | src/lumilake_server/runtime/server.py:1437-1513 | without a clash a group passes exactly when it has one slice or the workflow reads every varying input |
| ColumnRuns.ColumnsAreRowWise | src/lumilake_server/runtime/server.py:1336-1370 | a runtime that takes one cell per row from each list is row-wise when the workflow reads every varying input and its own lists are single values |
| ColumnRuns.ClashMisleads | src/lumilake_server/runtime/server.py:1447-1477 | a concrete job and batch whose merge is accepted with a clash, and whose response has no error and other rows than the job's |
| Pipeline.RefusalShows | src/lumilake_server/runtime/server.py:1745-1761 | a batch that the merge or the demux refuses leaves an error in the response, whatever labels clash |
| Pipeline.ErrorFreeIff | src/lumilake_server/runtime/server.py:1905-2018 | for every cut of the rows, every partition of the slices into batches and every order of completion, the response has no error exactly when no batch is refused, and then it shows each row as its workflow reported it, outputs and histories |
| Pipeline.SlicingIsTransparent | src/lumilake_server/runtime/server.py:1905-2018 | if in addition no label clashes, the response has no error exactly when each batch has one slice or the workflow reads every varying input, and then it is the computation over all rows with single values broadcast, outputs and histories |
| Pipeline.NoRowsNeverClean | src/lumilake_server/runtime/server.py:1905-1937 | a job without rows always ends with an error |
| Apportionment.Apportion | src/lumilake_server/runtime/server.py:2288-2306 | each request gets the floor of its share, the first of the order one more, never more than the total in all, and exactly the total if and only if some request has raw nodes or there are no more nodes than requests |
| Apportionment.FloorBounds | src/lumilake_server/runtime/server.py:2295-2300 | the whole share is the greatest whole number of nodes within the request's part |
| Dispatcher.SelectGroup | src/lumilake_server/runtime/server.py:830-862 | one pass finds a group exactly when enough free, profiled workers of each kind have the required cores, memory, devices and device memory wherever these are known, and returns the first of them in the order of the list, those with devices before the others |
| Dispatcher.Server.ClaimWorkers | src/lumilake_server/runtime/server.py:859-862 | a group is claimed exactly when none of it was claimed meanwhile |
| Dispatcher.Server.StartBatch | src/lumilake_server/runtime/server.py:1628-1676 | the section is the start step of the protocol, underflow error included |
| Dispatcher.Server.RecordShares | src/lumilake_server/runtime/server.py:2282-2322 | the section records the apportioned nodes of every request |
| Dispatcher.Server.HandleResults | src/lumilake_server/runtime/server.py:2020-2114 | the section ends the wait for the batch's workflows and answers the requests left with none |
| Dispatcher.Server.FinishBatch | src/lumilake_server/runtime/server.py:1764-1799 | the finally section is the finish step, underflow errors included |
| SchedulingRuns.SoundKept | src/lumilake_server/runtime/server.py:1593-1798 | every step of every task keeps all invariants and raises none of the three underflow errors |
| SchedulingRuns.RunsAreSound | src/lumilake_server/runtime/server.py:734-1798 | every reachable state is sound, for all interleavings, cancellations and failures |
| SchedulingRuns.NodesAreConserved | src/lumilake_server/runtime/server.py:1661-1676 | pending, processing and processed nodes of a request always add up to its plan, the processing counters are the sums of the live batch counts, and no counter is negative |
| SchedulingRuns.AnsweredAtLastHandle | src/lumilake_server/runtime/server.py:2103-2114 | a request is answered at most once, exactly at the step that empties its pending set |
| SchedulingRuns.QuiescentIsSettled | src/lumilake_server/runtime/server.py:1764-1799 | when everything has run, a request was answered exactly if no task took its workflows with it, nothing is counted as running, and only leaked workers are busy |
| SchedulingRuns.WorkersAreExclusive | src/lumilake_server/runtime/server.py:854-862 | no two live batches share a worker, and the busy workers are the disjoint union of live batches, the open claim and the leaked ones |
| SchedulingRuns.NothingLeaks | src/lumilake_server/runtime/server.py:754-790 | without a failing commit or a task that ends before its try block no worker leaks |
| SchedulingRuns.LeakIsForever | src/lumilake_server/runtime/server.py:1795-1796 | what leaked stays busy for good, and both of those failures leak their workers |
| JobLifecycle.RunsAreSound | src/lumilake_server/routes/jobs.py:1298-1487 | over every interleaving of run, cancel and shutdown a stored result means completed or failed, and usage is emitted at most once and for a finished job only |
| JobLifecycle.UsageIff | src/lumilake_server/routes/jobs.py:1466-1487 | from the end of its background run on a job has usage 1 exactly if it was cancelled before its start, or was saved and is finished; before that it has none |
| JobLifecycle.CancelledForever | src/lumilake_server/routes/jobs.py:2305-2318 | a cancelled job stays cancelled, with the same error and time and no result |
| JobLifecycle.FinishedStatusLeft | src/lumilake_server/routes/jobs.py:1314-1487 | the only ways out of a finished status: a start or a result after a shutdown failure, and an error after the result was stored |
| JobLifecycle.FailedCanRestart | src/lumilake_server/routes/jobs.py:793-806 | a run in which a shutdown failure is overwritten |
| JobLifecycle.FailedCanComplete | src/lumilake_server/routes/jobs.py:1401-1426 | a run in which a result completes a job after a shutdown failure |
| JobLifecycle.CompletedCanFail | src/lumilake_server/routes/jobs.py:1427-1487 | a run in which an error after the stored result makes a completed job failed |
| JobLifecycle.JobRecord.CancelJob | src/lumilake_server/routes/jobs.py:2305-2318 | cancelling is refused exactly for a finished job, and else makes it cancelled |
| JobLifecycle.JobRecord.StoreResult | src/lumilake_server/routes/jobs.py:1401-1426 | a result is stored unless the job was cancelled meanwhile |
| JobIndex.Where | src/lumilake_server/utils/job_storage.py:601-624 | the SQL conditions select exactly the rows the blob's filter keeps |
| JobIndex.BlobIndex.ListSummaries | src/lumilake_server/utils/job_storage.py:398-424 | the page of the matching jobs, newest first, and their number |
| JobIndex.SqliteIndex.ListSummaries | src/lumilake_server/utils/job_storage.py:626-648 | the same answer from the table |
| JobIndex.AnswersNewestFirst | src/lumilake_server/utils/job_storage.py:398-648 | along a page moments never rise, and jobs of one moment go by falling id; each row is one that the query asks for |
| JobIndex.SqliteIndex.Prune | src/lumilake_server/utils/job_storage.py:714-743 | removes exactly the finished jobs submitted before the cutoff |
| JobIndex.TableRefinesBlob | src/lumilake_server/utils/job_storage.py:555-599 | after any saves and prunes the table holds the blob's rows except finished jobs older than a later prune |
| JobIndex.IndexesAgreeIff | src/lumilake_server/utils/job_storage.py:398-743 | after any saves and prunes both indexes answer a query with the same page and total exactly when no row it asks for was pruned since its last save |
| JobIndex.PagesAreTheListing | src/lumilake_server/utils/job_storage.py:410-424 | the pages put together are the listing, without loss or repetition |
| JobIndex.IterAgreesIff | src/lumilake_server/utils/job_storage.py:426-663 | the two iterations agree unless asked for an empty set of statuses over some rows |

## Left out

- FlowMesh, storage backends, HTTP, streaming, plugins' own process and authentication: input and output around the core.
- The job and runtime managers: assumed to reserve each workflow once; enqueueing and registering a request is one step.
- The optimizer subprocess, timeouts, polling, logging, progress display, cost estimates and sampling.
- The text of templates, SQL and lambdas: opaque; the labels a template mentions are a parameter.
- `make_id` and node prefixes: ids are assumed distinct where a theorem says so, since the 16-bit suffix alone is not injective.
- Data retrieval, embedding and image generation nodes: built by direct copies of one reference and its dependency.
- The data-profile graphs and the `workflow_id__` branch for direct outputs (runtime/server.py:2555-2566).
- Type checks of YAML and n8n fields, and the n8n operator builders behind the worklist.
- `Graph.copy`, `Graph.from_ops` and `_traverse_graph`; `Graph` is modelled by the list of its operators and operators by values, so aliasing between a graph and its operators is not shown.
- Job records on disk: the lifecycle is that of the record in memory, since saves happen outside the lock.
- Invalid entries of the blob index, pages below 1, and output-location reservations.
- ExecutionOrder.RenamingKeepsOrder: assumes that ids which are only dependencies never equal a new node id.
- LiteralRewrite.RewritingIsParsing: speaks of graphs whose lists are unambiguous, since others are refused.
- Coalescing.MergeRestoresInputs: needs at least one row, since a job without rows is refused later.
- GraphBuilding.BuildGraph: builds the chat calls of a graph; the nodes of embedding, image and vision calls and what they visit are not part of it.
- YamlReading.DocumentLoadsIff: assumes that the ids given to names and to implicit operators differ, as `make_id` is opaque.
- Pipeline.SlicingIsTransparent: takes the runs of accepted groups as successful, since a failing worker is outside the server, and a batch as one group.
- SchedulingRuns.RunsAreSound: the section that handles results never raises; if it did, the `except` branch (runtime/server.py:1750-1763) would run it a second time.
- NodeBuilding.NoDanglingRead: takes the nodes' own dependencies as given; the branches that build them are BuildNode and BuildVision.
