# Virus genealogy

A model of `VirusGenealogy<Virus>`, a container for a family tree of viruses. A
genealogy has one fixed *stem* virus. Every other virus is created under one
or more existing parents. Further parent-child edges can be added with
`connect`. `remove` deletes a virus together with every descendant that, as a
result, loses its last parent; the stem can never be removed. The container
reports three errors: `VirusNotFound`, `VirusAlreadyCreated` and
`TriedToRemoveStemVirus`. A call that reports an error leaves the genealogy
unchanged.

Layout:

- `lineage.dfy` (module `Lineage`) models the genealogy as a value, a map from
  identifier to node. A node holds the virus and the sets of its parents and
  children. The module defines the invariant (`WellFormed`) and gives each
  mutation as a function on graphs: `Created`, `Connected` and `Removed`. Its
  lemmas state what those functions promise. `Removed` computes the cascade
  as a least fixpoint (`Doomed`). Reference counting gives this set: a virus
  dies when its last parent dies. There is no reachability condition.
- `virus_genealogy.dfy` (module `Genealogy`) models the class itself. It has
  a `const stem` and a `nodes` map field that its methods update in place.
  Each method is proved against the matching `Lineage` function. `remove`
  runs a worklist loop that detaches one node at a time.
- `scenarios.dfy` (module `Scenarios`) replays or adapts the repository's
  test programs against the method contracts. Where a scenario departs from
  the test it follows, "## Left out" says how. `assert` and exceptions become boolean and
  `Outcome` results.

The header `virus_genealogy.h` only declares the class and holds no member
bodies. The behaviour modelled here comes from the declarations and from the
two test programs `tests/better_test.cpp` and `tests/another_test.cpp`. Each
case where the model had to pick a behaviour is listed under "## Left out".

## Model

| member | source | states |
|---|---|---|
| Genealogy.VirusGenealogy.constructor | virus_genealogy.h:31-34 | The new genealogy holds the stem alone and has no edges. The invariant holds and the stem is a root. |
| Lineage.WellFormed | virus_genealogy.h:29-57 | The invariant of a genealogy: the stem is present, every node stores the virus with its own id, every edge is recorded at both ends between live nodes, and every node except the stem has at least one parent. |
| Lineage.Initial | virus_genealogy.h:34 | The initial graph is well formed, its only key is the stem, and the stem has no parents and no children. |
| Genealogy.VirusGenealogy.GetStemId | virus_genealogy.h:40 | Returns the identifier the genealogy was constructed with. |
| Genealogy.VirusGenealogy.GetChildren | virus_genealogy.h:42 | A missing id gives VirusNotFound. Otherwise the result lists every direct child exactly once. |
| Genealogy.VirusGenealogy.GetParents | virus_genealogy.h:44 | A missing id gives VirusNotFound. Otherwise the result lists every direct parent exactly once. |
| Genealogy.Enumerate | virus_genealogy.h:42-44 | Turns a set into a sequence with the same elements, each once, of the same size. |
| Genealogy.VirusGenealogy.Exists | virus_genealogy.h:46 | True exactly when the id is a live virus. |
| Genealogy.VirusGenealogy.Lookup | virus_genealogy.h:48 | Gives VirusNotFound exactly when the id is absent. Otherwise gives the stored virus, and in a valid genealogy that virus's get_id() is the id looked up. |
| Genealogy.VirusGenealogy.Create | virus_genealogy.h:50 | The error checks in order: an existing id gives VirusAlreadyCreated, then a missing parent gives VirusNotFound, and both leave the genealogy unchanged. Otherwise the new leaf sits under that one parent and the invariant is kept. |
| Genealogy.VirusGenealogy.CreateMany | virus_genealogy.h:52 | An existing id gives VirusAlreadyCreated. An empty list or any missing parent gives VirusNotFound. Both leave the genealogy unchanged. Otherwise the new leaf sits under every listed parent and the invariant is kept. |
| Genealogy.VirusGenealogy.AllExist | virus_genealogy.h:52 | The check made before anything changes: true exactly when every listed parent is present. |
| Genealogy.VirusGenealogy.Publish | virus_genealogy.h:52 | Linking the new node under each parent in turn gives the graph `Created` describes, and keeps the invariant. |
| Lineage.Created | virus_genealogy.h:50-52 | The graph after create: a new node `id` holding the virus built from `id`, with the listed parents and no children, and `id` added to the children of each listed parent. Every other node is unchanged. |
| Lineage.CreatedLinks | virus_genealogy.h:50-52 | After create: the new node has exactly the listed parents and no children, and stores a virus with its own id. Every old node gains the new child exactly when it was listed, and nothing else changes. |
| Lineage.CreatedWellFormed | virus_genealogy.h:50-52 | Creating under a nonempty set of existing parents keeps the invariant and keeps the stem a root. |
| Lineage.CreatedExtend | virus_genealogy.h:52 | Linking one more parent under the node being created gives the graph created under the larger parent set. |
| Genealogy.VirusGenealogy.Connect | virus_genealogy.h:54 | If either id is missing: VirusNotFound and no change. Otherwise the edge is added at both ends and the invariant is kept. |
| Lineage.Connected | virus_genealogy.h:54 | The graph after connect: `parent` added to the child's parents and `child` added to the parent's children. Every other node is unchanged. |
| Lineage.ConnectedWellFormed | virus_genealogy.h:54 | Connect keeps the invariant and records the edge at both of its ends. The stem stays a root unless the stem itself is the child. |
| Lineage.ConnectedIdempotent | virus_genealogy.h:54 | Connecting an edge that already exists changes nothing. |
| Genealogy.VirusGenealogy.Remove | virus_genealogy.h:56 | A missing id gives VirusNotFound and a stem id gives TriedToRemoveStemVirus, with no change in either case. Otherwise the result is exactly `Removed`, the cascade, and the invariant is kept. |
| Genealogy.VirusGenealogy.Detach | virus_genealogy.h:56 | One node taken out and removed from the edge sets of all its neighbours. |
| Lineage.Without | virus_genealogy.h:56 | The graph with the nodes of `d` taken out and `d` struck from the parent and child sets of every remaining node. |
| Lineage.WithoutWithout | virus_genealogy.h:56 | Taking out two sets of nodes one after the other is the same as taking out their union. |
| Lineage.WithoutSymmetric | virus_genealogy.h:56 | Taking nodes out keeps the edges mutual and each virus under its own key. |
| Lineage.ParentlessWithout | virus_genealogy.h:56 | After taking out `d`, a node has no parents exactly when it was outside `d` and all its parents were in `d`. |
| Lineage.Orphans | virus_genealogy.h:56 | The nodes found in one cascade round are nodes of the graph that are not yet doomed. |
| Lineage.Cascade | virus_genealogy.h:56 | The cascade only grows the starting set and stays within the graph. |
| Lineage.CascadeClosed | virus_genealogy.h:56 | Once the cascade stops, no node outside it other than the stem has all its parents inside it. |
| Lineage.CascadeLeast | virus_genealogy.h:56 | The cascade lies inside every closed set that contains its start. |
| Lineage.CascadeForced | virus_genealogy.h:56 | Every node the cascade adds is not the stem and has all its parents in the cascade. |
| Lineage.Doomed | virus_genealogy.h:56 | The nodes remove(t) discards: `t`, plus every non-stem node whose parents are all doomed, computed round by round by `Cascade`. |
| Lineage.Removed | virus_genealogy.h:56 | The graph after remove(t): the doomed nodes taken out with `Without`. |
| Lineage.DoomedSpares | virus_genealogy.h:56 | remove(t) takes out t and only nodes of the graph, and never the stem. |
| Lineage.DoomedIsLeastClosed | virus_genealogy.h:56 | The doomed set is the least set that holds t and every non-stem node whose parents are all in it, so remove discards nothing the rule does not force. Every doomed node except t lost all its parents to the set. |
| Lineage.RemovedWellFormed | virus_genealogy.h:56 | Removing a non-stem node keeps the invariant, drops that node, adds no node, and keeps the stem a root. |
| Lineage.RemovedSurvivesIff | virus_genealogy.h:56 | A node other than the target and the stem survives exactly when at least one of its parents survives. |
| Lineage.RemovedEdges | virus_genealogy.h:56 | A survivor keeps its virus. Its edges are exactly its old edges to other survivors, so the removed node appears in no edge set. |
| Lineage.RemoveUndoesCreate | virus_genealogy.h:50-56 | Removing a leaf that was just created gives back the graph from before the create. |
| Lineage.WorklistStart | virus_genealogy.h:56 | The worklist invariant holds with nothing deleted and only the target pending. |
| Lineage.WorklistStep | virus_genealogy.h:56 | Deleting a pending node and queueing the children it leaves parentless keeps the worklist invariant. |
| Lineage.WorklistDone | virus_genealogy.h:56 | When nothing is pending, the deleted set is exactly the doomed set. |
| Scenarios.SecondParentKeepsChild | tests/better_test.cpp:34-43 | After remove("1"), "2" survives through its second parent, the stem, and "1" is gone from the stem's children. |
| Scenarios.TwoPaths | tests/better_test.cpp:45-47 | Builds the state test_1 reaches: "3" under "2" and "1", which both sit under the stem. |
| Scenarios.LastParentTakesChild | tests/better_test.cpp:49-61 | "3" survives remove("1") and goes with remove("2"). After that, connect("root","3") gives VirusNotFound. |
| Scenarios.ConnectTwice | tests/better_test.cpp:64-70 | Connecting an existing edge again leaves the stem with exactly two children. |
| Scenarios.Failures | tests/better_test.cpp:72-98 | The three errors in their order, and the genealogy is still the initial one afterwards. |
| Scenarios.ShortChain | tests/better_test.cpp:101-105 | Builds the chain root, 1, 2, 3, with each node's parents. |
| Scenarios.Chain | tests/better_test.cpp:106-107 | Extends the chain down to 5. |
| Scenarios.CascadeThroughChain | tests/better_test.cpp:100-125 | remove("1") takes 1 to 5 out in one call, even though 5 has a second parent inside the chain. It keeps 6, and connect("5","6") then gives VirusNotFound. |
| Scenarios.TwoParents | tests/another_test.cpp:47-54 | Builds the upper half of the test's diagram with its create calls: "1b" under the stem, "2a" and "2b" under "1b", and "3" created with a vector of both, so its parents are exactly {"2a", "2b"}. |
| Scenarios.SurvivesUntilLastParent | tests/another_test.cpp:52-54 | On that half, "3" survives the removal of one of its two parents and goes with the other. |
| Scenarios.DiamondLineage | tests/another_test.cpp:47-80 | In any genealogy shaped like the test's diagram: remove("1b") takes out 2a through 5 and keeps 1a, 6, 7a and 7b. A following remove("1a") takes out 6, 7a and 7b. |
| Scenarios.DiamondFirstRemoval | tests/another_test.cpp:66-75 | The first removal of the diagram. It also keeps the invariant and leaves "1a" as the only parent of "6". |
| Scenarios.DiamondSecondRemoval | tests/another_test.cpp:77-80 | The second removal of the diagram. |

## Left out

- The header declares the class but gives no member bodies. The model follows the declarations at virus_genealogy.h:34-56 and the behaviour the two test programs check.
- The header does not compile as written: the three error classes lack the semicolon after their bodies, and `connect` writes `virus::id_type` in lower case. The model assumes the evident intent of each.
- The test `tests/another_test.cpp` does not compile as written either: line 31 reads `counter==)`. Its fault-injection branch is left out anyway, as the line on exceptions below says.
- `what()` strings and the `std::exception` hierarchy: the errors are the datatype `VirusError`, whose constructors carry the same names.
- Exceptions thrown from inside a mutation, that is allocation failure and the throwing `operator<` of `tests/another_test.cpp:29-34` together with the catch branch at lines 83-110. In the model no mutation fails after it has started changing state, so the strong guarantee reduces to "an error leaves the genealogy unchanged", and every method states that.
- The deleted copy constructor and copy assignment (virus_genealogy.h:36-38): Dafny references cannot be copied by value anyway.
- `operator[]` returns a mutable `Virus&`. `Lookup` returns the stored virus by value, so the model does not capture changes made through the reference. The virus type used by the tests holds nothing but its id.
- The order of `get_children` and `get_parents`: the header does not fix it. The model returns each element exactly once in an unspecified order. `tests/another_test.cpp:93` compares two such vectors and relies on the order being stable; the model does not promise that.
- Cycles and reachability: `connect` may add a self-loop or a back edge, including one into the stem (`tests/better_test.cpp:137` connects "1" under itself). The cascade follows reference counting, so a group of nodes that only hold each other survives even when it is cut off from the stem.
- `create` with an empty parent vector: the header says nothing about it. The model reports VirusNotFound and leaves the genealogy unchanged.
- test_5 (`tests/better_test.cpp:127-145`), with its 1000 nodes, is not replayed as a scenario. What it checks (a node with a second live parent survives, and goes once that parent goes) is the general statement `Lineage.RemovedSurvivesIff`.
- `Scenarios.TwoParents` builds only the upper half of the diagram. It leaves out "1a" and everything from "4a" down.
- `Scenarios.SurvivesUntilLastParent` is an adaptation, not a replay. The test never removes "2a" or "2b" one at a time; it removes their common parent "1b" (`tests/another_test.cpp:66`). The scenario removes "2a" and then "2b" to show that "3", created with two parents, lives until the last of them goes.
- `Scenarios.DiamondLineage`, `Scenarios.DiamondFirstRemoval` and `Scenarios.DiamondSecondRemoval` do not run the test's create and connect calls (`tests/another_test.cpp:47-62`). They take any well-formed graph with the diagram's parent sets (`DiamondShape`) as given and state the test's existence assertions about it. Building the full 11-node genealogy through the methods is not part of this model, because its proof ran over the verifier's resource limit.
- `Scenarios.TwoPaths` builds the state between `tests/better_test.cpp:45` and `:49` from a fresh genealogy, not by continuing from the earlier removal. Both routes reach the same nodes and edges.
- Output (`cout`) and `main`'s control flow in the test programs are not modelled.
