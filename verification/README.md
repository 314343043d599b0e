# A verified model of the CAD editor's core

This project models the data core of a small C++ CAD editor in Dafny and
proves properties of it. The core has these parts:

- **The entity store** (`SparseSet<T>` and `DirtySparseSet<T>`). It is a slot map.
  - It hands out stable integer handles.
  - It keeps the values packed in a dense array.
  - It reuses freed handles last-in first-out.
  - It removes by swapping with the last element.
  - The dirty variant raises its owner's flag on every insertion and removal.
- **The primitives.** Vertices, edges, faces and volumes. Edges compare equal as unordered pairs.
- **The topology tools.**
  - `ExtractVertices` walks a face's edges into a vertex loop, and a volume's faces into the set of their vertices.
  - `IsValidFace` and `IsValidVolume` check vertex degrees and edge usage.
- **The `Model`.**
  - It has four dirty stores (vertices, edges, faces, volumes).
  - Creation is gated. No self-loop and no duplicate edge is allowed; a face must be a valid coplanar loop; a volume must be a closed set of faces.
  - It also supports removal, lookups, the dense views and the dirty flags.
- **The editing commands.**
  - There are create and remove commands for each entity kind, plus a face extrusion.
  - Each is a value with an optional capture slot. `Execute` fills the slot and `Undo` uses it.
- **The `CommandStack`.** It holds the linear undo/redo history.
- **The keyboard half of `Input`.** It derives the keys pressed and released this frame.
- **`ModelViewBuilder`.** It turns the model into index buffers.
  - The line view has one line per edge.
  - The face view has a fan of triangles per face.
  - The volume view has the fans of each volume's faces.

State lives where the source keeps it.

- The store, the model, the command stack, the input and the view builder are classes. Their fields are updated by methods with `modifies` clauses.
- Commands, primitives and views are datatypes.

Each method is proved against a specification.

- For the store, that is its abstract map `Contents()` and the exact new dense, sparse and free-list arrays.
- For the model, it is a `Snapshot` of four maps.
- For commands, it is the relations `Executed` and `Undone` between two snapshots.
- For the builders, it is the pure functions `FaceLoop`, `FaceValid`, `VolumeValid`, `Fan` and `Triangulate`.

The lemmas relate those specifications to each other: the round trips, the invariants kept, and the characterisations of the validity checks.

Files:

- `sparse_set.dfy` — store
- `primitives.dfy` — primitives
- `topology_tools.dfy` and `topology_validation.dfy` — topology
- `model.dfy` — model
- `commands.dfy` and `command_stack.dfy` — commands and history
- `input.dfy` — input
- `model_view_builder.dfy` — views
- `wrappers.dfy` — `Option`

## Model

| member | source | states |
|---|---|---|
| SparseSets.SwapRemove | src/Utilities/SparseSet.h:39-48 | End-swap erase at position i: one element shorter, the last element now at i, every other position unchanged |
| SparseSets.RemoveKeepsOthers | src/Utilities/SparseSet.h:33-52 | Erasing a live id removes exactly that id from the live map; every other id keeps its value although values move between dense slots |
| SparseSets.RemoveKeepsConsistent | src/Utilities/SparseSet.h:33-52 | The erase keeps the store's invariant: dense and sparse point at each other, and the free list holds each dead id exactly once |
| SparseSets.IdsDistinct | src/Utilities/SparseSet.h:110-113 | No id owns two dense slots |
| SparseSets.DistinctCardinality | src/Utilities/SparseSet.h:94 | A list of distinct ids has as many elements as its length (used for the dense count) |
| SparseSets.AllocatedIsDead | src/Utilities/SparseSet.h:99-108 | The allocated id is the top of the free list, or a new id one past the sparse array; it is dead and off the free list, and every other dead id is still on it |
| SparseSets.AppendKeepsConsistent | src/Utilities/SparseSet.h:17-27 | Appending the value at the allocated id keeps the invariant and adds exactly id := value to the live map |
| SparseSets.AppendAddsLive | src/Utilities/SparseSet.h:17-27 | The live map after the append is the old one plus id := value |
| SparseSets.SparseSet.constructor | src/Utilities/SparseSet.h:110-113 | Empty store: no ids and an empty free list |
| SparseSets.SparseSet.NextId | src/Utilities/SparseSet.h:99-108 | The id the next insertion gets is never live |
| SparseSets.SparseSet.Contains | src/Utilities/SparseSet.h:54 | True exactly for the live ids |
| SparseSets.SparseSet.Get | src/Utilities/SparseSet.h:56-74 | The value stored under a live id, which is one of the dense values; an absent id is a precondition, as the source asserts |
| SparseSets.SparseSet.GetMany | src/Utilities/SparseSet.h:76-86 | One value per requested id, in request order, each the id's stored value |
| SparseSets.SparseSet.DenseIndex | src/Utilities/SparseSet.h:89-92 | The dense slot of a live id: in range, holding the id's value and owned by that id |
| SparseSets.SparseSet.DenseCount | src/Utilities/SparseSet.h:94 | The number of live ids |
| SparseSets.SparseSet.Dense | src/Utilities/SparseSet.h:96 | The packed values: slot i holds the value of the id that owns slot i |
| SparseSets.SparseSet.Slots | src/Utilities/SparseSet.h:89-92 | The live ids with their dense slots; each slot holds that id's value |
| SparseSets.SparseSet.LiveCount | src/Utilities/SparseSet.h:94-96 | The store holds exactly as many live ids as dense values |
| SparseSets.SparseSet.AllocateId | src/Utilities/SparseSet.h:99-108 | Pops the most recently freed id (LIFO), else grows the sparse array by one invalid entry |
| SparseSets.SparseSet.Emplace | src/Utilities/SparseSet.h:17-27 | Returns a previously dead id; contents gain id := value; the value is appended to dense and the id to the dense-to-id array; full new sparse and free list |
| SparseSets.SparseSet.Insert | src/Utilities/SparseSet.h:30 | Same as Emplace |
| SparseSets.SparseSet.Remove | src/Utilities/SparseSet.h:33-52 | Contents lose the id; dense arrays are end-swap erased; the moved id is re-pointed; the id is pushed on the free list and is the next to be reused |
| SparseSets.SparseSet.Put | src/Utilities/SparseSet.h:56-74 | Assigning through the reference `Get`/`operator[]` return: the id's value is replaced in place and nothing else changes |
| SparseSets.DirtySparseSet.constructor | src/Utilities/SparseSet.h:119 | An empty store bound to a flag |
| SparseSets.DirtySparseSet.Emplace | src/Utilities/SparseSet.h:122-126 | Raises the flag, then inserts as the store does |
| SparseSets.DirtySparseSet.Insert | src/Utilities/SparseSet.h:129-132 | Raises the flag, then inserts as the store does |
| SparseSets.DirtySparseSet.Remove | src/Utilities/SparseSet.h:135-138 | Raises the flag, then erases as the store does |
| SparseSets.DirtySparseSet.Put | src/Utilities/SparseSet.h:142-148 | A write through the mutable reference replaces the value and does not raise the flag |
| Primitives.EdgeEqualsReversed | src/Core/Primitives.h:23-25 | An edge equals its reversal |
| Primitives.EdgeEqualsIsEquivalence | src/Core/Primitives.h:23-25 | Edge equality is reflexive, symmetric and transitive |
| Primitives.EdgeEqualsIsUnorderedPair | src/Core/Primitives.h:23-25 | Two edges are equal exactly when their endpoint multisets are equal |
| Tools.EdgesOf | src/Topology/Tools.h:25-31 | The face's edges looked up by id, in face order |
| Tools.Next | src/Topology/Tools.h:32-41 | The next vertex exists exactly when the edge touches the last one, and then the two form that edge |
| Tools.Chain | src/Topology/Tools.h:24-42 | A chaining that succeeds yields a walk: it starts with the first edge's endpoints, and each later edge joins consecutive vertices |
| Tools.WalkIsChain | src/Topology/Tools.h:30-42 | Every walk through the edges is the one the chaining finds: the walk is unique and the chaining misses none |
| Tools.ChainBreakPersists | src/Topology/Tools.h:38-41 | Once chaining fails on a prefix it fails on the whole face |
| Tools.FaceLoop | src/Topology/Tools.h:14-49 | Fewer than 3 edges give an empty loop. Otherwise the loop starts with the first edge's a then b, and consecutive vertices are the face's edges in order. Either it closes (length n, last edge back to the start, duplicate dropped) or it is open (length n + 1, distinct ends) |
| Tools.FaceLoopOfChain | src/Topology/Tools.h:24-46 | The loop is the chained walk, with the final vertex dropped when it repeats the first |
| Tools.FaceLoopEmptyIffNoWalk | src/Topology/Tools.h:38-41 | For 3 or more edges the loop is empty exactly when no walk through the edges exists |
| Tools.ExtractVertices | src/Topology/Tools.h:14-49 | The method's loop computes exactly FaceLoop |
| Tools.LoopUnionMembers | src/Topology/Tools.h:60-66 | A vertex is in the volume's union exactly when it is on the loop of one of its faces |
| Tools.LoopUnionHas | src/Topology/Tools.h:62-66 | Every loop vertex of every listed face is in the union |
| Tools.LoopUnionOnly | src/Topology/Tools.h:62-66 | Every vertex of the union comes from some listed face's loop |
| Tools.ExtractVolumeVertices | src/Topology/Tools.h:54-69 | Distinct vertex ids, exactly the union of the face loops (order unspecified, as for the source's unordered set) |
| Tools.Enumerate | src/Topology/Tools.h:68 | Lists a set without repetition and without omission |
| Validation.Endpoints | src/Topology/Validation.h:19-23 | The degree multiset has two entries per edge |
| Validation.TalliesAllTwice | src/Topology/Validation.h:25-28 | The counting map has every count equal to 2 exactly when every vertex occurs twice in the multiset |
| Validation.EveryCountIsTwo | src/Topology/Validation.h:26-28 | The scan returns true exactly when every count is 2 |
| Validation.CountDegrees | src/Topology/Validation.h:17-23 | The degree map is the tally of the endpoints of the face's edges |
| Validation.IsValidFace | src/Topology/Validation.h:12-33 | Returns exactly FaceValid: at least 3 edges, every vertex of degree 2, and a vertex loop of at least 3 |
| Validation.WalkDegree | src/Topology/Validation.h:17-23 | Along a walk, a vertex's degree plus its end hits is twice its occurrences |
| Validation.OpenWalkOddEnd | src/Topology/Validation.h:25-28 | The start of an open walk has odd degree, so an open chain is never valid |
| Validation.ClosedLoopDegree | src/Topology/Validation.h:25-28 | On a closed loop every vertex's degree is twice its occurrences |
| Validation.ValidFaceLoopLength | src/Topology/Validation.h:30-32 | A valid face's loop has one vertex per edge |
| Validation.ValidFaceCloses | src/Topology/Validation.h:30-32 | A valid face's loop, with its first vertex appended, is a walk through all its edges |
| Validation.ValidFaceIsSimpleLoop | src/Topology/Validation.h:12-33 | A valid face's loop is a simple closed loop: one vertex per edge, the last edge back to the start, no repeated vertex, and exactly the edges' endpoints |
| Validation.IsValidVolume | src/Topology/Validation.h:38-57 | Returns exactly VolumeValid: at least 4 faces, and every edge of them used exactly twice (counted with multiplicity over the listed faces) |
| Validation.EdgeUsageConcat | src/Topology/Validation.h:42-49 | Edge usage of two face lists together is the sum of their usages |
| Validation.EdgeUsageIgnoresOrder | src/Topology/Validation.h:42-49 | Edge usage depends only on the multiset of face ids, not their order |
| Validation.ValidVolumeEdgesSharedTwice | src/Topology/Validation.h:51-54 | In a valid volume every edge of every listed face is used by exactly two face slots |
| Models.WellFormedAdd | src/Model/Model.cpp:144-160 | Adding an edge that passes the creation gate keeps "no self-loop, no duplicate unordered pair" |
| Models.WellFormedRemove | src/Model/Model.cpp:51-59 | Removing an edge keeps the edge set well formed |
| Models.AllLive | src/Model/Model.cpp:167-169 | True exactly when every id is live |
| Models.Positions | src/Model/Model.cpp:180-181 | The positions of the listed vertices, in order |
| Models.FaceEndpoints | src/App/Commands/Commands.cpp:101-107 | The set of endpoints of the face's edges |
| Models.DisplaceOne | src/App/Commands/Commands.cpp:117-118 | Displacing one more vertex updates exactly that vertex |
| Models.DisplaceAll | src/App/Commands/Commands.cpp:117-118 | Every moved vertex gets the extrusion of its old position; the others and the store's structure are unchanged |
| Models.HasEqualEdge | src/Model/Model.cpp:152-157 | True exactly when some dense edge equals (a, b) as an unordered pair |
| Models.Model.constructor | src/Model/Model.h:11 | Four empty stores, all flags down |
| Models.Model.IsVerticesDirty | src/Model/Model.h:55 | The vertex store's flag |
| Models.Model.IsEdgesDirty | src/Model/Model.h:56 | The edge store's flag |
| Models.Model.IsFacesDirty | src/Model/Model.h:57 | The face store's flag |
| Models.Model.IsVolumesDirty | src/Model/Model.h:58 | The volume store's flag |
| Models.Model.ShouldRender | src/Model/Model.h:67-69 | True exactly when one of the four flags is up |
| Models.Model.ResetDirtyFlags | src/Model/Model.h:60-65 | All four flags down, nothing to render, stores unchanged |
| Models.Model.ContainsVertex | src/Model/Model.cpp:123 | True exactly for live vertex ids |
| Models.Model.ContainsEdge | src/Model/Model.cpp:124 | True exactly for live edge ids |
| Models.Model.ContainsFace | src/Model/Model.cpp:125 | True exactly for live face ids |
| Models.Model.ContainsVolume | src/Model/Model.cpp:126 | True exactly for live volume ids |
| Models.Model.GetVertex | src/Model/Model.cpp:31-35 | The vertex stored under a live id, which is one of the dense vertices |
| Models.Model.GetEdge | src/Model/Model.cpp:61-65 | The edge stored under a live id, which is one of the dense edges |
| Models.Model.GetFace | src/Model/Model.cpp:89-93 | The face stored under a live id, which is one of the dense faces |
| Models.Model.GetVolume | src/Model/Model.cpp:117-121 | The volume stored under a live id, which is one of the dense volumes |
| Models.Model.Vertices | src/Model/Model.cpp:128-130 | One entry per live vertex, each a stored vertex |
| Models.Model.Edges | src/Model/Model.cpp:132-134 | One entry per live edge, each a stored edge |
| Models.Model.Faces | src/Model/Model.cpp:136-138 | One entry per live face, each a stored face |
| Models.Model.Volumes | src/Model/Model.cpp:140-142 | One entry per live volume, each a stored volume |
| Models.Model.VertexIdToIndex | src/Model/Model.h:52 | The dense index of a live vertex: in range of `Vertices()`, holding that vertex |
| Models.Model.CanCreateEdge | src/Model/Model.cpp:144-160 | True exactly when a != b, both vertices are live, and no live edge equals (a, b) in either direction |
| Models.Model.CanCreateFace | src/Model/Model.cpp:162-187 | True exactly when there are at least 3 live edges forming a valid face whose loop positions are coplanar |
| Models.Model.VertexPositions | src/Model/Model.cpp:180-181 | The positions of the listed live vertices, in order |
| Models.Model.CanCreateVolume | src/Model/Model.cpp:189-205 | True exactly when there are at least 4 live faces forming a valid volume |
| Models.Model.CreateVertex | src/Model/Model.cpp:11-17 | A fresh id now holds the vertex; the vertex flag is up; nothing else changes |
| Models.Model.CreateEdge | src/Model/Model.cpp:38-49 | Returns an id exactly when the gate passes; then a fresh id holds Edge(a, b) and the edge flag is up; otherwise nothing changes |
| Models.Model.CreateFace | src/Model/Model.cpp:67-77 | Returns an id exactly when the gate passes; then a fresh id holds the face; otherwise nothing changes |
| Models.Model.CreateVolume | src/Model/Model.cpp:95-105 | Returns an id exactly when the gate passes; then a fresh id holds the volume; otherwise nothing changes |
| Models.Model.RemoveVertex | src/Model/Model.cpp:19-29 | Returns whether the id was live; the vertex map loses the id; dependent edges are kept |
| Models.Model.RemoveEdge | src/Model/Model.cpp:51-59 | Returns whether the id was live; the edge map loses the id |
| Models.Model.RemoveFace | src/Model/Model.cpp:79-87 | Returns whether the id was live; the face map loses the id |
| Models.Model.RemoveVolume | src/Model/Model.cpp:107-115 | Returns whether the id was live; the volume map loses the id |
| Models.Model.SetVertexPosition | src/App/Commands/Commands.cpp:124-126 | The live vertex gets the position in place and keeps its id and dense slot |
| Models.Model.ExtrudeFace | src/App/Commands/Commands.cpp:117-118 | Every endpoint of the face's edges is displaced by the extrusion step; no id or slot changes |
| Commands.Restore | src/App/Commands/Commands.cpp:121-128 | Writing back the captured positions keeps the set of live vertices |
| Commands.SetHasMinimum | src/App/Commands/Commands.cpp:101-109 | Every non-empty id set has a least element (the iteration order of `std::set`) |
| Commands.SortedElements | src/App/Commands/Commands.cpp:109 | The set's ids in strictly ascending order, all of them |
| Commands.CapturePositions | src/App/Commands/Commands.cpp:110-114 | One captured position per affected vertex, its current position |
| Commands.ExecuteCreateVertex | src/App/Commands/Commands.cpp:11 | Records the fresh id; the vertex is added |
| Commands.ExecuteRemoveVertex | src/App/Commands/Commands.cpp:20-25 | For a live id, records the vertex and removes it; otherwise changes nothing |
| Commands.ExecuteCreateEdge | src/App/Commands/Commands.cpp:39 | Records the new id when the gate passes, an empty slot when it refuses |
| Commands.ExecuteRemoveEdge | src/App/Commands/Commands.cpp:48-53 | For a live id, records the edge and removes it; otherwise changes nothing |
| Commands.ExecuteCreateFace | src/App/Commands/Commands.cpp:66 | Records the new id when the gate passes, an empty slot when it refuses |
| Commands.ExecuteRemoveFace | src/App/Commands/Commands.cpp:75-80 | For a live id, records the face and removes it; otherwise changes nothing |
| Commands.ExecuteCreateVolume | src/App/Commands/Commands.cpp:134 | Records the new id when the gate passes, an empty slot when it refuses |
| Commands.ExecuteRemoveVolume | src/App/Commands/Commands.cpp:143-148 | For a live id, records the volume and removes it; otherwise changes nothing |
| Commands.ExecuteExtrudeFace | src/App/Commands/Commands.cpp:93-119 | Absent face: nothing happens. Otherwise the face's endpoints are displaced, and on the first run only they are captured (ascending) with their old positions |
| Commands.Execute | src/App/Commands/Commands.h:102-109 | Dispatches to the command's Execute; the model stays valid |
| Commands.UndoCreateVertex | src/App/Commands/Commands.cpp:13-18 | Removes the recorded vertex, if any, and clears the slot |
| Commands.UndoRemoveVertex | src/App/Commands/Commands.cpp:27-33 | Re-creates the recorded vertex under whatever id the store hands out, and clears the slot |
| Commands.UndoCreateEdge | src/App/Commands/Commands.cpp:41-46 | Removes the recorded edge, if any, and clears the slot |
| Commands.UndoRemoveEdge | src/App/Commands/Commands.cpp:55-60 | Re-creates the recorded edge through the gate (it may be refused), and clears the slot |
| Commands.UndoCreateFace | src/App/Commands/Commands.cpp:68-73 | Removes the recorded face, if any, and clears the slot |
| Commands.UndoRemoveFace | src/App/Commands/Commands.cpp:82-87 | Re-creates the recorded face through the gate, and clears the slot |
| Commands.UndoCreateVolume | src/App/Commands/Commands.cpp:136-141 | Removes the recorded volume, if any, and clears the slot |
| Commands.UndoRemoveVolume | src/App/Commands/Commands.cpp:150-155 | Re-creates the recorded volume through the gate, and clears the slot |
| Commands.RestorePositions | src/App/Commands/Commands.cpp:123-127 | The loop writes each captured position back into its vertex if that vertex is still live |
| Commands.UndoExtrudeFace | src/App/Commands/Commands.cpp:121-128 | Writes the captured positions back and keeps the capture |
| Commands.Undo | src/App/Commands/Commands.h:111-118 | Dispatches to the command's Undo; the model stays valid |
| Commands.RestoreValues | src/App/Commands/Commands.cpp:121-128 | After the write-back each live captured vertex holds its captured position, and every other vertex is untouched |
| Commands.UndoExtrudeRestores | src/App/Commands/Commands.cpp:93-128 | Writing the first run's capture back over the displaced model gives the original vertex map |
| Commands.CreateThenUndo | src/App/Commands/Commands.cpp:11-18 | Any creation followed by its undo gives back the original model and an empty slot |
| Commands.RemoveVertexThenUndo | src/App/Commands/Commands.cpp:20-33 | Removing a live vertex and undoing keeps the same number of vertices with the same values and leaves the other maps untouched (the vertex's id is not stated) |
| Commands.RemoveEdgeThenUndo | src/App/Commands/Commands.cpp:48-60 | Removing a live edge whose endpoints are live, then undoing, puts the same edge back under some id |
| Commands.UndoTwiceIsNoop | src/App/Commands/Commands.cpp:13-155 | A second undo of a creation or removal changes nothing |
| Commands.RestoreIdempotent | src/App/Commands/Commands.cpp:121-128 | Writing back the same capture twice equals writing it once |
| Commands.ExtrudeThenUndo | src/App/Commands/Commands.cpp:93-128 | A first extrusion followed by its undo gives back the original model |
| Commands.UndoKeepsExecutable | src/App/Commands/CommandStack.cpp:28-48 | After an undo, the command's lookups succeed again, so a redo can follow |
| CommandStacks.Pop | src/App/Commands/CommandStack.cpp:31-32 | One shorter; adding the top back gives the stack |
| CommandStacks.PushPop | src/App/Commands/CommandStack.cpp:35 | A pushed command is the new top, and popping it restores the stack |
| CommandStacks.CommandStack.constructor | src/App/Commands/CommandStack.cpp:10 | Both histories are empty |
| CommandStacks.CommandStack.UndoCount | src/App/Commands/CommandStack.cpp:20 | The undo history's depth |
| CommandStacks.CommandStack.RedoCount | src/App/Commands/CommandStack.cpp:22 | The redo history's depth |
| CommandStacks.CommandStack.CanUndo | src/App/Commands/CommandStack.cpp:16 | True exactly when the undo count is positive |
| CommandStacks.CommandStack.CanRedo | src/App/Commands/CommandStack.cpp:18 | True exactly when the redo count is positive |
| CommandStacks.CommandStack.Do | src/App/Commands/CommandStack.h:41-51 | Returns true. The command runs once, the redo history is emptied, and the executed command is pushed on the old undo history |
| CommandStacks.CommandStack.Undo | src/App/Commands/CommandStack.cpp:28-37 | Returns false and changes nothing on an empty history. Otherwise it pops, undoes and pushes on the redo stack; the total count is preserved |
| CommandStacks.CommandStack.Redo | src/App/Commands/CommandStack.cpp:39-48 | Returns false and changes nothing on an empty redo stack. Otherwise it pops, re-executes and pushes on the undo stack; the total count is preserved |
| CommandStacks.CommandStack.UndoThenRedo | test/test_command_stack.cpp:123-138 | Undo then redo restores the redo history exactly, and the undo history's depth and everything below its top; the new top is the old top undone and then executed again |
| CommandStacks.CommandStack.Clear | src/App/Commands/CommandStack.cpp:54-57 | Both histories are emptied; the model is untouched |
| Inputs.ToInt32 | src/App/Input.h:84-85 | The `int32_t` conversion of a face id: congruent modulo 2^32, in signed range, and negative exactly for ids of 2^31 and above |
| Inputs.KeyEdges | src/App/Input.h:99-119 | Pressed keys are exactly those down now and not before; released keys are exactly those down before and not now |
| Inputs.KeyEdgesConsistent | src/App/Input.h:99-119 | Pressed and released keys are disjoint, pressed keys are down, released keys are not |
| Inputs.KeyEdgesSettle | src/App/Input.h:99-119 | A second update with the same keys reports nothing pressed and nothing released |
| Inputs.Input.constructor | src/App/Input.h:134-143 | No keys, no pending pick (-1, -1), nothing selected (-1) |
| Inputs.Input.IsDown | src/App/Input.h:45 | Whether the key is in the down set |
| Inputs.Input.IsPressed | src/App/Input.h:41 | A pressed key is down and not released |
| Inputs.Input.IsReleased | src/App/Input.h:43 | A released key is not down |
| Inputs.Input.IsCtrlPressed | src/App/Input.h:48 | Ctrl and the key are down and the key is not released |
| Inputs.Input.IsCtrlShiftPressed | src/App/Input.h:50-52 | Exactly ctrl-pressed with shift down; then ctrl, shift and the key are all down |
| Inputs.Input.IsCtrlDown | src/App/Input.h:54 | Implied by ctrl-pressed; neither ctrl nor the key is released |
| Inputs.Input.IsCtrlShiftDown | src/App/Input.h:56-58 | Exactly ctrl-down with shift down; implied by ctrl-shift-pressed |
| Inputs.Input.UpdateKeys | src/App/Input.h:99-119 | The two loops compute KeyEdges of the old down-set and the current keys; the down-set becomes the current keys; the selection and mode are untouched |
| Inputs.Input.Clear | src/App/Input.h:91-96 | All key sets emptied; the selection and mode are untouched |
| Inputs.Input.SetPendingPick | src/App/Input.h:77-80 | The pick array holds (x, y) |
| Inputs.Input.SetSelectedFaceId | src/App/Input.h:84-88 | The selection is the id as `int32_t` and the pick is cancelled; keys, the selected vertex and the interaction mode are untouched |
| ModelViews.Fan | src/ModelView/ModelViewBuilder.cpp:44-50 | Three indices per triangle, and a loop of k vertices gives k - 2 triangles (none below 3) |
| ModelViews.FanTriangles | src/ModelView/ModelViewBuilder.cpp:44-50 | Triangle j is (loop[0], loop[j + 1], loop[j + 2]), so every index drawn is a loop vertex |
| ModelViews.Triangulate | src/ModelView/ModelViewBuilder.cpp:36-53 | Three indices per primitive id |
| ModelViews.TriangulateConcat | src/ModelView/ModelViewBuilder.cpp:66-82 | Triangulating two runs of polygons concatenates their streams |
| ModelViews.TriangulateRanges | src/ModelView/ModelViewBuilder.cpp:44-50 | Every emitted index is a loop vertex, and every id is a polygon's tag, so bounds carry over |
| ModelViews.TriangulateIdsAscending | src/ModelView/ModelViewBuilder.cpp:36-53 | Ascending tags give ascending primitive ids: each face's triangles are contiguous and tagged at most the last tag |
| ModelViews.LoopIndices | src/ModelView/ModelViewBuilder.cpp:45-47 | Each loop vertex mapped to its dense index |
| ModelViews.EmitFan | src/ModelView/ModelViewBuilder.cpp:44-50 | The inner loop appends exactly the fan of the loop's dense indices and one tag per triangle |
| ModelViews.FacePolygons | src/ModelView/ModelViewBuilder.cpp:36-53 | Face i in dense order is tagged i |
| ModelViews.VolumeFacePolygons | src/ModelView/ModelViewBuilder.cpp:67-79 | One polygon per face id of the volume, looked up by id, all tagged with the volume's position |
| ModelViews.VolumePolygons | src/ModelView/ModelViewBuilder.cpp:66-82 | Every tag is the dense position of some volume |
| SparseSets.InsertTwo | src/Utilities/SparseSet.h:17-30 | A fresh store given two insertions holds ids 0 and 1 in dense slots 0 and 1 |
| SparseSets.InsertTwoRemoveFirst | src/Utilities/SparseSet.h:33-52 | Removing id 0 moves the second value into slot 0 and frees id 0 for reuse |
| SparseSets.RemoveReordersDense | src/Utilities/SparseSet.h:17-52 | Insert A, insert B, remove A, insert A: A has id 0 again but sits in dense slot 1, B in slot 0 |
| ModelViews.VolumePolygonsAsWritten | src/ModelView/ModelViewBuilder.cpp:66-82 | The volume view as written, indexing the dense faces by face id: every tag is the dense position of some volume |
| ModelViews.TriangleLoop | src/Topology/Tools.h:14-49 | A triangle face chaining u-v-w-u has loop [u, v, w] |
| ModelViews.AsWrittenDrawsSlotZero | src/ModelView/ModelViewBuilder.cpp:67-69 | The as-written volume view draws a one-face volume with the face in dense slot 0 |
| ModelViews.LookupDrawsFaceZero | src/ModelView/ModelViewBuilder.cpp:67-69 | The lookup by id draws it with face id 0 |
| ModelViews.VolumeViewMisreadsFace | src/ModelView/ModelViewBuilder.cpp:68 | On the store RemoveReordersDense returns, VolumePolygonsAsWritten over its dense faces differs from VolumePolygons over its contents |
| ModelViews.Lines | src/ModelView/ModelViewBuilder.cpp:12-26 | Edge i gives indices 2i and 2i + 1 (its endpoints' dense indices) and primitive id i; the count is the edge count |
| ModelViews.EmitFace | src/ModelView/ModelViewBuilder.cpp:37-50 | One face's turn: the fan of its loop, or nothing when the loop has fewer than 3 vertices |
| ModelViews.FaceFans | src/ModelView/ModelViewBuilder.cpp:29-56 | The loop's streams are the triangulation of FacePolygons; the count is the face count |
| ModelViews.EmitVolume | src/ModelView/ModelViewBuilder.cpp:67-79 | The inner loop appends the triangulation of the volume's face polygons |
| ModelViews.VolumeFans | src/ModelView/ModelViewBuilder.cpp:58-85 | The loop's streams are the triangulation of VolumePolygons; the count is the volume count |
| ModelViews.ModelViewBuilder.VertexSlots | src/Model/Model.h:52 | Every live vertex with its dense index |
| ModelViews.ModelViewBuilder.BuildLineView | src/ModelView/ModelViewBuilder.cpp:7-27 | One line per live edge in dense order: the endpoints' dense vertex indices and primitive id i; the count is the live edge count |
| ModelViews.ModelViewBuilder.BuildFaceView | src/ModelView/ModelViewBuilder.cpp:29-56 | The fans of all faces in dense order, tagged with their dense position; loopless faces are skipped but still counted |
| ModelViews.ModelViewBuilder.BuildVolumeView | src/ModelView/ModelViewBuilder.cpp:58-85 | The fans of every volume's faces (looked up by id), tagged with the volume's dense position; the count is the live volume count |

## Left out

- **Integer width.** Ids, dense indices and counts are unbounded naturals.
  - The `uint32_t` wrap-around after 2^32 ids is not modelled.
  - The `kInvalid` sentinel is a separate constructor `Slot.Invalid`, not the value 2^32 - 1. The source cannot tell id 2^32 - 1 from the sentinel.
  - The one explicit conversion kept is the face id stored as `int32_t` (`Inputs.ToInt32`).
- **Geometry is a parameter of the model.** `Vec3` positions and scalars are abstract types.
  - `Geometry::AreCoplanar` is a parameter of the model: `coplanar`.
  - The geometric step of the extrusion is also a parameter: `extrude`.
  - Floating point is not modelled.
- **Declared but not defined.** The `Model()` constructor (src/Model/Model.h:11) and `Model::VertexIdToIndex` (src/Model/Model.h:52) are declared but defined nowhere. The model gives them what their callers need:
  - four empty stores, each with its own flag down;
  - the store's dense index.
- **Called but not declared.** `Model::ExtrudeFace` and `Model::SetVertexPosition` are called by the extrusion command (src/App/Commands/Commands.cpp:117, 124-125) but no header declares them and no file defines them. Their behaviour in the model is invented from what the command needs:
  - Models.Model.ExtrudeFace displaces every endpoint of the face's edges by `extrude`, and raises the vertex flag;
  - Models.Model.SetVertexPosition overwrites one vertex in place, and raises the vertex flag.
  - Raising the vertex flag is the model's choice, made so the changed positions are re-rendered like every other vertex change; nothing in the source decides it.
- **ExtrudeFaceCommand is declared nowhere.** No header declares an `ExtrudeFaceCommand` type, and src/App/Commands/Commands.h leaves it out of the `Command` variant. Yet src/App/Commands/Commands.cpp:93-128 defines its `Execute` and `Undo`, and src/App/InputHandler.cpp:36 pushes it. The model adds it as a ninth command, with the fields those two members use.
- **Two histories disagree.** src/App/Commands/CommandStack.h declares the histories as `unique_ptr<ICommand>` vectors and a `PushUndo` that is not defined. CommandStack.cpp stores `Command` variants. The model follows the .cpp: values pushed on `seq<Command>`.
- **ExtractVertices is given the span.** `BuildFaceView` and `BuildVolumeView` pass the dense edge span to `ExtractVertices`, which calls `edges.Get(id)`. The model reads this as the intended lookup by id.
- **FaceView vertex indices.** `FaceView::vertexIndices` is used by the builder but is not declared in src/ModelView/ModelViews.h. The model gives `FaceView` that field.
- **Source asserts become preconditions.** The store's and model's asserts on absent ids, and the unchecked lookups in `CanCreateFace` (`vertices_.Get(vertexIds)`) and in the extrusion, are preconditions. This covers `Get`, `FaceLookups`, `ExtrudeLookups`, `Executable` and `Undoable`.
- Commands.UndoRemoveFace: requires the re-created face's loop vertices to be live, as `CanCreateFace` looks them up unchecked.
- Commands.UndoExtrudeFace: requires one captured position per affected vertex, which every capture provides.
- ModelViews.ModelViewBuilder.BuildLineView: requires every vertex it looks up to be live, since removing a vertex keeps its edges ("TODO: remove dependent edges"). BuildFaceView and BuildVolumeView require the same.
- Commands.RemoveVertexThenUndo: restores the vertex values and their count, not the id. In the source the re-created vertex does get the same id back: the store's free list is last-in first-out (src/Utilities/SparseSet.h:99-108), which `SparseSets.SparseSet.Remove` and `Insert` state as `NextId() == id` and `id == old(NextId())`. But `Commands.Executed` and `Commands.Undone` relate model snapshots, which hold the live contents and not the free list, so they state a new id only as "some id not live before". The round trip inherits that.
- CommandStacks.CommandStack.UndoThenRedo: states the model side as "undone into some intermediate state, then executed again from it", not as a return to the state before the undo, for the same reason: `Commands.Executed` and `Commands.Undone` leave new ids existential. Its precondition also asks that the top command be runnable as well as undoable.
- **Input's mouse half.** `Update`, `UpdateMouse`, `MouseState` and the `GetMouse*` getters work on floats and are not modelled. For the same reason, `Clear` does not reset the mouse state in the model.
  - `interactionMode_` has no initialiser in the source; the model starts it at `DEFAULT`.
  - `GetInteractionMode` and `GetSelectedFaceId` are plain field reads.
- **Not part of this model.** Rendering, the application loop, events, the input handler, Geometry.cpp and the `Mapped` helper.

## Findings

| source | as written | input that shows it | evidently intended | confidence | as-written member | corrected member |
|---|---|---|---|---|---|---|
| src/ModelView/ModelViewBuilder.cpp:68 | `faces[fid]` indexes the dense face span by the volume's face id (modelled as ModelViews.VolumePolygonsAsWritten) | Insert face A (id 0), insert face B (id 1), remove A, insert A again (id 0, dense slot 1). A volume of face id 0 is drawn with face B | Look the face up by id (`faces_.Get(fid)`), as `ExtractVertices(Volume, ...)` does | not executed | ModelViews.VolumeViewMisreadsFace | ModelViews.ModelViewBuilder.BuildVolumeView |
