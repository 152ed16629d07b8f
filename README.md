# Parthenon boundary exchange, output helpers and swarm registry in Dafny

This project models four parts of the Parthenon adaptive-mesh-refinement framework:

- **The face-centred boundary variable** (`src/bvals/fc/bvals_fc.cpp`, modules `FcTypes`,
  `FcSizing`, `FcWindows`, `FcWindowLemmas`, `FcArrays`, `FieldCopy`, `FcEdges`, `FcBoundary`).
  - Buffer sizing, for ghost faces and for flux correction.
  - The six routines that pack (`LoadBoundaryBuffer*`) and unpack (`SetBoundary*`) the
    three face-field components across a same-level, coarser or finer neighbour, with
    the running buffer cursor and the replication of x2f/x3f in 1D/2D.
  - The edge scan `CountFineEdges`, `ClearBoundary`, and the choice of send and receive
    message sizes in `SetupPersistentMPI`.
  - Face fields are maps from `(k, j, i)` to values. Every routine is a method on the
    class `FaceCenteredBoundaryVariable` that writes a real `array` buffer or the
    object's fields. Each one is specified by the window set it walks (`FcWindows`).
    The window volumes are proved equal to the buffer sizes the sizing functions
    compute.
- **Cell-centred boundary utilities** (`src/bvals/cc/bvals_utils.hpp`, module `CcBoundary`).
  - The send and receive channel keys with their 27-cube location index.
  - `ForEachBoundary`, with its boundary-type filter and early exit through
    `func_caller`. It is specified by the sequence of boundaries it visits.
  - The buffer cache of one `MeshData`: its build with a shuffled order, the send and
    receive rebuild checks, and the metadata rebuild. All of these live in class
    `BvarsSubCache`.
- **Output helpers** (`src/outputs/output_utils.hpp`, module `OutputUtils`).
  - The `VarInfo` constructor: the component-count check, the component labels,
    `element_matters` and the reversed extents.
  - `SwarmVarInfo` and `GetN`.
  - The seven-deep index walk `PackOrUnpackVar`.
  - `FlattenBlockInfo`.
- **The swarm container** (`src/interface/swarm_container.cpp`, module `Swarms`).
  - Class `SwarmContainer`, with its vector and map of swarms.
  - `Add` of one label and of a list of labels, and `Remove`.
  - The hooks that do nothing, and `ReceiveBoundaryBuffers`, which always reports
    completion.

## Model

| member | source | states |
|---|---|---|
| FcSizing.ComputeVariableBufferSize | src/bvals/fc/bvals_fc.cpp:73-136 | the allocated buffer is at least the same-level message; on a multilevel mesh it is also at least the fine-to-coarse and the coarse-to-fine message; without multilevel it is exactly the three face arrays summed |
| FcSizing.ComputeFluxCorrectionBufferSize | src/bvals/fc/bvals_fc.cpp:138-172 | never negative; zero for a corner; two values across a face of a 1D block; one across an edge of a 2D block; none across an edge of a 1D block |
| FcSizing.FluxCorrectionMatchesReference | src/bvals/fc/bvals_fc.cpp:138-172 | the flux-correction size equals an independent count: on a face, the faces of the two tangential components lying in the face plane; on an edge, the cells along it; at a corner, nothing |
| FcSizing.SizesMirrorSymmetric | src/bvals/fc/bvals_fc.cpp:73-136 | the same-level, fine-to-coarse and coarse-to-fine sizes are equal for a direction and its opposite |
| FcSizing.SelectionSwapsWithLevels | src/bvals/fc/bvals_fc.cpp:872-877 | exchanging the neighbour's and the block's levels exchanges the chosen send and receive sizes: what one side sends toward the other is what the other side expects to receive |
| FcSizing.ChannelSizesAgree | src/bvals/fc/bvals_fc.cpp:826-877 | for two blocks of equal extents facing each other, each block's send size is the size its neighbour posts to receive, in both directions and at any pair of levels |
| FcWindowLemmas.SameLevelPackVolume | src/bvals/fc/bvals_fc.cpp:179-232 | the cells LoadBoundaryBufferSameLevel packs number exactly the same-level message size |
| FcWindowLemmas.SameLevelUnpackVolume | src/bvals/fc/bvals_fc.cpp:431-505 | the cells SetBoundarySameLevel unpacks number exactly the same-level message size |
| FcWindowLemmas.ToCoarserPackVolume | src/bvals/fc/bvals_fc.cpp:240-315 | the coarse cells packed for a coarser neighbour number exactly the fine-to-coarse size |
| FcWindowLemmas.FromFinerUnpackVolume | src/bvals/fc/bvals_fc.cpp:609-737 | the cells unpacked from a finer neighbour number exactly the fine-to-coarse size that neighbour sends |
| FcWindowLemmas.ToFinerPackVolume | src/bvals/fc/bvals_fc.cpp:322-423 | the cells packed for a finer neighbour number exactly the coarse-to-fine size |
| FcWindowLemmas.FromCoarserUnpackVolume | src/bvals/fc/bvals_fc.cpp:512-602 | the cells unpacked from a coarser neighbour number exactly the coarse-to-fine size |
| FcWindowLemmas.SameLevelAlignment | src/bvals/fc/bvals_fc.cpp:179-232 | the receiver's unpack windows (seen from the mirrored direction) are the sender's pack windows moved across the shared boundary |
| FcWindowLemmas.SharedFaceOnlyWhenWidened | src/bvals/fc/bvals_fc.cpp:179-232 | the face on the shared boundary plane is packed if and only if the mesh is multilevel and the neighbour is an edge or a corner |
| FcWindowLemmas.BufferFitsEveryRoutine | src/bvals/fc/bvals_fc.cpp:73-136 | for any cell counts the allocated buffer holds what the two same-level routines move; on a refined mesh (even counts) it also holds what the four coarser/finer routines move |
| FieldCopy.PackData | src/bvals/fc/bvals_fc.cpp:201-229 | one PackData call writes the window's values in k, j, i order at the cursor, advances the cursor by the window's volume and leaves the rest of the buffer alone |
| FieldCopy.UnpackData | src/bvals/fc/bvals_fc.cpp:455-494 | one UnpackData call writes the next window-volume buffer values into the window's cells in k, j, i order and advances the cursor by that volume; given a window the field holds, the field keeps its index set |
| FieldCopy.CoordsFacts | src/bvals/fc/bvals_fc.cpp:201-229 | the k, j, i walk of a window visits exactly the window's cells, each once |
| FieldCopy.ScatterThenGather | src/bvals/fc/bvals_fc.cpp:455-494 | reading back the cells just unpacked gives the buffer values that were unpacked |
| FieldCopy.PackThenUnpack | src/bvals/fc/bvals_fc.cpp:179-232 | what one side packs from a window and the other unpacks into that window moved by an offset lands at the moved cells with the sender's values |
| FieldCopy.CopyAllReplicates | src/bvals/fc/bvals_fc.cpp:496-500 | after a copy whose sources are not among its destinations, each destination holds its source's value and every other cell keeps its value |
| FieldCopy.ReplicateRow | src/bvals/fc/bvals_fc.cpp:285-287 | the 1D loop copying row j of x2f into row j+1 performs exactly that copy |
| FieldCopy.ReplicatePlane | src/bvals/fc/bvals_fc.cpp:306-309 | the 1D/2D loop copying plane k of x3f into plane k+1 performs exactly that copy |
| FieldCopy.RowReplicated | src/bvals/fc/bvals_fc.cpp:474-477 | after the 1D replication, row j+1 equals row j over the window and nothing else changes |
| FieldCopy.PlaneReplicated | src/bvals/fc/bvals_fc.cpp:729-733 | after the 1D/2D replication, plane k+1 equals plane k over the window and nothing else changes |
| FcEdges.ScanEdge | src/bvals/fc/bvals_fc.cpp:746-762 | the loops around one edge return the running finest level and count of the level scan over the neighbours around that edge, in the source's visiting order (ScanCounts says what they mean) |
| FcEdges.ScanCounts | src/bvals/fc/bvals_fc.cpp:746-762 | the finest level is one above this block's level exactly when some neighbour is finer; the count is the number of neighbours at that finest level |
| FcEdges.EdgeFlagMeansNoFinerNeighbour | src/bvals/fc/bvals_fc.cpp:739-803 | an edge is flagged exactly when no neighbour around it is finer; a finer edge counts at least one finer neighbour |
| FcEdges.FamiliesCounted | src/bvals/fc/bvals_fc.cpp:739-803 | the edge numbering writes the four x1-x2 edges when nx2 > 1, then the x1-x3 and x2-x3 edges when nx3 > 1, and every written edge carries its scan's result |
| FcBoundary.Restricted | src/bvals/fc/bvals_fc.cpp:260-310 | restriction fills every cell of the window with the restricted fine value and keeps all other coarse cells |
| FcBoundary.WindowsReplicable | src/bvals/fc/bvals_fc.cpp:431-737 | in 1D and 2D every unpack window has the row or plane the replication copies from |
| FcBoundary.FromFinerFits | src/bvals/fc/bvals_fc.cpp:609-737 | the windows unpacked from a finer neighbour fit any buffer of the allocated size |
| FcArrays.SameLevelPackInArrays | src/bvals/fc/bvals_fc.cpp:179-232 | every window the same-level pack reads lies in the face arrays over the cells with `NGHOST` ghost cells on active axes |
| FcArrays.ToFinerPackInArrays | src/bvals/fc/bvals_fc.cpp:322-423 | when the ghost widths suit the block, every window the to-finer pack reads lies in the face arrays |
| FcArrays.ToCoarserPackFits | src/bvals/fc/bvals_fc.cpp:240-315 | when the ghost widths suit the block, every coarse window the to-coarser routine restricts into and packs, and the row or plane it replicates into, lies in the coarse arrays with `cnghost` ghost cells |
| FcArrays.SameLevelUnpackFits | src/bvals/fc/bvals_fc.cpp:431-505 | every window the same-level unpack writes, and the row or plane it replicates into, lies in the face arrays |
| FcArrays.FromFinerUnpackFits | src/bvals/fc/bvals_fc.cpp:609-737 | every window the from-finer unpack writes, and the row or plane it replicates into, lies in the face arrays |
| FcArrays.FromCoarserUnpackFits | src/bvals/fc/bvals_fc.cpp:512-602 | every window the from-coarser unpack writes, and the row or plane it replicates into, lies in the coarse arrays |
| FcBoundary.FieldCoversPackWindows | src/bvals/fc/bvals_fc.cpp:179-423 | a field holding its ghost-extended arrays has every face the same-level and to-finer packs read |
| FcBoundary.UnpackedKeys | src/bvals/fc/bvals_fc.cpp:455-494 | unpacking into windows that fit the held arrays, with the 1D/2D replication, leaves each component's index set unchanged |
| FcBoundary.RestrictedCoarseKeys | src/bvals/fc/bvals_fc.cpp:264-312 | restricting into coarse windows that fit the held coarse arrays, with the replication, leaves each coarse component's index set unchanged |
| FcBoundary.SameLevelExchange | src/bvals/fc/bvals_fc.cpp:179-505 | end to end, a same-level exchange puts each of the sender's x1f, x2f, x3f values at the receiver's ghost face displaced across the shared boundary |
| FcBoundary.FaceCenteredBoundaryVariable.constructor | src/bvals/fc/bvals_fc.cpp:49-63 | the variable holds the given field and coarse buffer, and every boundary flag starts waiting |
| FcBoundary.FaceCenteredBoundaryVariable.LoadBoundaryBufferSameLevel | src/bvals/fc/bvals_fc.cpp:179-232 | returns the same-level message size, the buffer's prefix holds x1f, x2f, x3f over their windows in order, and the rest of the buffer is untouched |
| FcBoundary.FaceCenteredBoundaryVariable.LoadBoundaryBufferToCoarser | src/bvals/fc/bvals_fc.cpp:240-315 | the coarse buffer becomes the restriction of the field over the coarse windows, with x2f/x3f replicated in 1D/2D, and gains no index outside its arrays; then the message of fine-to-coarse size is that coarse buffer packed; the field and the rest of the buffer are unchanged |
| FcBoundary.FaceCenteredBoundaryVariable.LoadBoundaryBufferToFiner | src/bvals/fc/bvals_fc.cpp:322-423 | returns the coarse-to-fine size with the field's half-block windows packed in the buffer's prefix; the rest is untouched |
| FcBoundary.FaceCenteredBoundaryVariable.SetBoundarySameLevel | src/bvals/fc/bvals_fc.cpp:431-505 | the field becomes the buffer unpacked into the ghost windows, with x2f/x3f replicated in 1D/2D; the coarse buffer is unchanged; every component keeps its index set, so nothing is written past the ghost-extended arrays |
| FcBoundary.FaceCenteredBoundaryVariable.SetBoundaryFromCoarser | src/bvals/fc/bvals_fc.cpp:512-602 | the coarse buffer becomes the message unpacked into the coarse ghost windows; the field is unchanged; every coarse component keeps its index set, so nothing is written past the coarse arrays |
| FcBoundary.FaceCenteredBoundaryVariable.SetBoundaryFromFiner | src/bvals/fc/bvals_fc.cpp:609-737 | the field becomes the restricted message unpacked into the quarter (or half) of the ghost region the finer block covers; the coarse buffer is unchanged; every component keeps its index set, so nothing is written past the ghost-extended arrays |
| FcBoundary.FaceCenteredBoundaryVariable.ScanFamily | src/bvals/fc/bvals_fc.cpp:746-762 | one family of four edges is written with the scans' flags and counts, and no other edge changes |
| FcBoundary.FaceCenteredBoundaryVariable.CountFineEdges | src/bvals/fc/bvals_fc.cpp:739-803 | every edge of the block's dimension carries its flag and finest-level count; edges outside that dimension keep their values |
| FcBoundary.FaceCenteredBoundaryVariable.ClearBoundary | src/bvals/fc/bvals_fc.cpp:1004-1014 | every neighbour's send and receive flags go to waiting; flux-correction flags do too for face and edge neighbours, and only in phase `all`; no other flag changes |
| CcBoundary.LocationIndexRoundTrip | src/bvals/cc/bvals_utils.hpp:111 | the location index of an offset lies in 0..26 and decodes back to that offset |
| CcBoundary.LocationIndexInjective | src/bvals/cc/bvals_utils.hpp:111 | distinct offsets get distinct location indices |
| CcBoundary.ReceiveLocationMirrorsSend | src/bvals/cc/bvals_utils.hpp:106-122 | the receiving side's location index is the sending side's index reflected through the cube centre (26 minus it) |
| CcBoundary.SendAndReceiveKeysMatch | src/bvals/cc/bvals_utils.hpp:106-122 | when block a sends to neighbour b, b's receive key for a (at the opposite offset) equals a's send key |
| CcBoundary.ReceiveKeyDeterminesOffset | src/bvals/cc/bvals_utils.hpp:106-122 | conversely, equal receive and send keys force opposite offsets and matching sender and receiver gids |
| CcBoundary.FluxCorrectionFiltersPair | src/bvals/cc/bvals_utils.hpp:86-97 | a fine block keeps a boundary for sending flux corrections exactly when the coarse neighbour keeps the mirrored one for receiving them; no boundary is both |
| CcBoundary.EveryVisitedBoundaryKept | src/bvals/cc/bvals_utils.hpp:73-104 | every visited boundary belongs to a block of the data, with a ghost-filled variable and a neighbour the filter keeps |
| CcBoundary.EveryKeptBoundaryVisited | src/bvals/cc/bvals_utils.hpp:73-104 | every block, ghost-filled variable and kept neighbour triple is visited |
| CcBoundary.LocalAndNonlocalSplitAll | src/bvals/cc/bvals_utils.hpp:82-85 | the local and the nonlocal traversal together visit as many boundaries as the unfiltered one |
| CcBoundary.FuncCallerVisitsAll | src/bvals/cc/bvals_utils.hpp:59-65 | a callback that returns nothing is wrapped so that it is applied to every boundary in order and never breaks out |
| CcBoundary.BreakOutEndsTraversal | src/bvals/cc/bvals_utils.hpp:99 | once a callback has asked to break out, later boundaries change nothing |
| CcBoundary.VisitNeighbors | src/bvals/cc/bvals_utils.hpp:80-100 | the neighbour loop either breaks out with the traversal's final state or continues with the state after this variable's boundaries |
| CcBoundary.ForEachBoundary | src/bvals/cc/bvals_utils.hpp:73-104 | the final state is the callbacks run over the visited boundaries in block, variable, neighbour order, stopping at the first break-out |
| CcBoundary.KeyOrderListsBoundaries | src/bvals/cc/bvals_utils.hpp:146-157 | after the key-recording traversal, entry b holds the b-th visited boundary's key tagged with b |
| CcBoundary.InversePermutation | src/bvals/cc/bvals_utils.hpp:169-175 | the slot indices assigned through a permutation form a permutation that undoes it |
| CcBoundary.BvarsSubCache.BuildBufferCache | src/bvals/cc/bvals_utils.hpp:138-176 | slot t holds the key of the boundary the shuffle put t-th; each boundary's slot index names the slot holding its own key; the slot indices are a permutation |
| CcBoundary.SendScanOutOfRangeRebuilds | src/bvals/cc/bvals_utils.hpp:198-203 | a slot index past the cached metadata always forces a rebuild |
| CcBoundary.SendScanKeys | src/bvals/cc/bvals_utils.hpp:192-196 | the send check allocates and frees buffers in place and never adds a buffer to the map or drops one from it |
| CcBoundary.SendScanBuffers | src/bvals/cc/bvals_utils.hpp:192-196 | with distinct buffers, each visited buffer ends allocated or freed to match its variable and the others are untouched |
| CcBoundary.SendScanUnfinished | src/bvals/cc/bvals_utils.hpp:190 | with distinct buffers, unfinished communication is reported exactly when some visited buffer was not available for write |
| CcBoundary.SendScanRebuild | src/bvals/cc/bvals_utils.hpp:198-203 | with distinct buffers, a rebuild is requested exactly when some visited slot has no metadata or its buffer now uses other storage |
| CcBoundary.BvarsSubCache.CheckSendBufferCacheForRebuild | src/bvals/cc/bvals_utils.hpp:178-207 | the buffers, rebuild flag, unfinished flag and boundary count are those of the send scan over every boundary of the type |
| CcBoundary.BvarsSubCache.CheckReceiveBufferCacheForRebuild | src/bvals/cc/bvals_utils.hpp:209-237 | the count is the number of flux-correction receive boundaries, and a rebuild is requested exactly when some visited slot lacks metadata, uses other storage, or disagrees with its buffer's received or null state |
| CcBoundary.PermutationWritesAll | src/bvals/cc/bvals_utils.hpp:252-259 | under a permutation each slot is written exactly once, by one boundary, so none is left default |
| CcBoundary.BvarsSubCache.RebuildBufferCache | src/bvals/cc/bvals_utils.hpp:244-261 | the metadata has nbound entries; each slot holds the metadata made from the last boundary pointing at it and its buffer; slots no boundary points at stay default |
| OutputUtils.NatToStringRoundTrip | src/outputs/output_utils.hpp:163 | a component number rendered in decimal reads back as the same number |
| OutputUtils.IntToString | src/outputs/output_utils.hpp:140 | a rendered count is non-empty and starts with a minus sign exactly when it is negative |
| OutputUtils.IntToStringDigits | src/outputs/output_utils.hpp:140 | after the optional minus sign the rendered count is a non-empty string of decimal digits whose value is the count's magnitude, as `std::to_string` gives |
| OutputUtils.NewVarInfo | src/outputs/output_utils.hpp:128-166 | fails, with the constructor's message, exactly when the component count is not positive; otherwise records the fields, one label per component, `element_matters` exactly when there are several topological elements, and the extents reversed |
| OutputUtils.ComponentLabelsStartWithName | src/outputs/output_utils.hpp:153-165 | there is one label per component and each starts with the variable's name |
| OutputUtils.NumberedLabelRoundTrip | src/outputs/output_utils.hpp:161-165 | without a matching set of given labels, removing `name_` from a label gives back its component number |
| OutputUtils.GivenLabelRoundTrip | src/outputs/output_utils.hpp:157-160 | with one given label per component, removing `name_` from a label gives back the given label |
| OutputUtils.ComponentLabelsDistinct | src/outputs/output_utils.hpp:153-165 | two components get different labels (given labels must themselves differ) |
| OutputUtils.GetNReturnsExtents | src/outputs/output_utils.hpp:193-200 | the constructor stores the extents so that GetN(d) gives back the extent handed in for each dimension d from 2 to 6; nvar is the product of those five extents; rank and type are kept as given |
| OutputUtils.SwarmVectorNeedsThreeComponents | src/outputs/output_utils.hpp:193-196 | a vector-flagged rank-one variable is written as a vector exactly when its extents multiply to three; another rank or no flag never is |
| OutputUtils.WalkVolume | src/outputs/output_utils.hpp:318-333 | nested loops over inclusive ranges visit as many points as the box holds |
| OutputUtils.WalkMembers | src/outputs/output_utils.hpp:318-333 | a point is visited if and only if it lies in the box |
| OutputUtils.WalkSorted | src/outputs/output_utils.hpp:318-333 | the points are visited in strictly increasing lexicographic order, so each one once |
| OutputUtils.Sweep | src/outputs/output_utils.hpp:318-333 | the loops from one axis inward make one call per point of the remaining box, in order, and advance the running index by the number of calls |
| OutputUtils.PackOrUnpackVar | src/outputs/output_utils.hpp:300-334 | one callback per point of the seven-loop box, in lexicographic order, each with its running index; as many calls as the box's volume |
| OutputUtils.PackOrUnpackVarAsWritten | src/outputs/output_utils.hpp:310-317 | the same walk with the cell loops of a variable located nowhere running to `shape[n]` inclusive |
| OutputUtils.NoneVariableWalkFillsShape | src/outputs/output_utils.hpp:310-317 | with exclusive extents, a variable located nowhere gets exactly as many calls as its padded shape has elements |
| OutputUtils.NoneVariableWalkOverruns | src/outputs/output_utils.hpp:310-317 | as written, a variable located nowhere with a one-element shape gets eight calls |
| OutputUtils.FlattenBlockInfo | src/outputs/output_utils.hpp:288-296 | the data starts as `shape * blocks` default entries and is threaded through the callback block by block with one shared counter from 0; a callback that keeps lengths leaves `shape * blocks` entries |
| OutputUtils.ThreadSplit | src/outputs/output_utils.hpp:291-294 | the counter is shared across blocks: running over xs then ys is running over ys from where xs left the data and the counter |
| OutputUtils.FlattenWithWriterConcatenates | src/outputs/output_utils.hpp:288-296 | with a callback writing each block's shape values at the counter, the result is the blocks' values laid end to end and the counter ends at the data's length |
| Swarms.AddOneMeaning | src/interface/swarm_container.cpp:38-54 | a label already enrolled is refused with the message `swarm <label> already enrolled during Add()!` and nothing changes; a new label appends the swarm with that label, metadata and block at the end of the vector and maps the label to it, and every other label keeps its swarm |
| Swarms.AddOneKeepsConsistent | src/interface/swarm_container.cpp:38-54 | adding keeps the vector and the map naming the same swarms, each label once |
| Swarms.AddListRefusalIsFinal | src/interface/swarm_container.cpp:24-30 | after the first refusal, the remaining labels of the list change nothing |
| Swarms.AddListAppendsInOrder | src/interface/swarm_container.cpp:24-30 | a list added without refusal appends one swarm per label, in list order |
| Swarms.AddListKeepsConsistent | src/interface/swarm_container.cpp:24-30 | adding a list keeps the vector and the map consistent |
| Swarms.FirstIndex | src/interface/swarm_container.cpp:59-67 | the search finds the first position carrying the label, or none when no swarm carries it |
| Swarms.RemoveOneMeaning | src/interface/swarm_container.cpp:56-82 | refused, with nothing changed, exactly when no swarm carries the label; otherwise the vector loses one entry, the last swarm moves into the freed slot, other positions are unchanged, the removed swarm leaves the multiset, and the label leaves the map |
| Swarms.RemoveOneKeepsConsistent | src/interface/swarm_container.cpp:56-82 | removing keeps the vector and the map consistent |
| Swarms.SwarmContainer.Add | src/interface/swarm_container.cpp:38-54 | the new vector, map and outcome are those of adding one label; consistency is kept |
| Swarms.SwarmContainer.AddAll | src/interface/swarm_container.cpp:24-30 | the new state and outcome are those of adding the labels in order, stopping at the first refusal; consistency is kept |
| Swarms.SwarmContainer.Remove | src/interface/swarm_container.cpp:56-82 | the new state and outcome are those of removing the label by moving the last swarm into its slot; consistency is kept |
| Swarms.SwarmContainer.ReceiveBoundaryBuffers | src/interface/swarm_container.cpp:88 | receiving always reports that it is done |

## Left out

- MPI. `SetupPersistentMPI` is modelled only through its size choice (`SelectMessageSizes`, `ChannelSizes`). Tags, requests, `StartReceiving` and the `MPI_Wait` part of `ClearBoundary` are left out because they are communication, not state.
- The `Restrict` operators called by the to-coarser routine are a function parameter, because the restriction arithmetic is not in these sources. The bodies of `PackData` and `UnpackData` of the buffer utilities are not in these sources. The model specifies them as the k, j, i row-major copy their call sites rely on.
- The coarse cell bounds (`c_cellbounds`) are not in these sources. The model takes the coarse interior as `(nx + 1) / 2` cells per active axis.
- At `src/bvals/fc/bvals_fc.cpp:437`, `cellbounds` is initialised from itself. The model reads the block's own cell bounds there.
- The face field and the coarse buffer are maps from indices to values. The arrays' allocation is stated as a precondition that the maps hold the ghost-extended boxes (`HoldsFine`, `HoldsCoarse`). The mesh code that allocates them is not part of this model.
- The relation between `NGHOST`, `cnghost` and the block size that keeps the to-coarser and to-finer windows inside the arrays is a precondition (`GhostsFit`). The mesh setup that guarantees it is not in these sources.
- FcBoundary.FaceCenteredBoundaryVariable.LoadBoundaryBufferToFiner and FcBoundary.FaceCenteredBoundaryVariable.SetBoundaryFromFiner require an even cell count on every active axis (`ValidRefinedBlock`). The routines themselves compute with any count, and the mesh's refinement check that guarantees even counts is not in these sources.
- `SwarmContainer`'s constructor is not in these sources. The model's constructor gives the empty, consistent registry that `Add` and `Remove` start from.
- Floating-point values are a type parameter `V`, since no arithmetic is done on them.
- The random shuffle of `BuildBufferCache` is a permutation parameter, because a random generator cannot be modelled.
- Kokkos views, host mirrors and `deep_copy` are plain sequences.
- Communication buffers are keyed by their key tuple, not by address. `operator[]` on the communication map is modelled only for keys already present.
- `Allocate`, `Free`, `IsAvailableForWrite` and `UsingSameResource` are function parameters, because their code is not part of this model.
- CcBoundary.SendScanBuffers, CcBoundary.SendScanUnfinished and CcBoundary.SendScanRebuild require the visited boundaries to use distinct buffers. Where two boundaries share a buffer, the general meaning is the fold `SendScan` itself, which the method's contract states.
- CcBoundary.BvarsSubCache.CheckReceiveBufferCacheForRebuild is modelled as written: it always traverses the `flxcor_recv` boundaries, whatever boundary type its cache was built for.
- `GetPaddedShapeReversed` and `GetPaddedBoundsKJI` live in `output_utils.cpp`, which is not part of this model. `PackOrUnpackVar` takes the padded shape and bounds as inputs.
- The effect of the `PackOrUnpackVar` callback on the output is left out. The model records the sequence of calls it receives.
- OutputUtils.FlattenBlockInfo takes `shape` as a natural number and does not model `int` overflow of `shape * num_blocks`. OutputUtils.NewSwarmVarInfo does not model overflow of `nvar`.
- The `cellbounds` member of `VarInfo` is not recorded, because nothing in the core reads it. `FillHostBuffer`, `ComputeCoords` and the MPI sums in `output_utils.hpp` are declarations whose bodies are not in these sources.
- OutputUtils.GetN turns the debug-mode range check `1 < d <= 6` into a precondition instead of a thrown error, since the check is compiled out in release builds.
- The `printf` and `Print` output of the swarm container is left out.
- A swarm is a value (label, metadata, owning block), so `shared_ptr` identity and the reset of the removed handle are not modelled.
- The container's communication hooks (`SendBoundaryBuffers`, `SetupPersistentMPI`, `ReceiveAndSetBoundariesWithWait`, `SetBoundaries`, `StartReceiving`, `ClearBoundary`) have empty bodies and no `modifies` clause, so they provably change nothing; they carry no postcondition.

## Findings

| source | as written | input that shows it | evidently intended | confidence | as-written member | corrected member |
|---|---|---|---|---|---|---|
| src/outputs/output_utils.hpp:310-317 | for a variable located nowhere the cell loops run `k` from 0 to `shape[4]`, `j` to `shape[5]`, `i` to `shape[6]`, all inclusive (`kb.e = shape[4]`) | a variable located nowhere whose padded shape is all ones: the walk makes 2 * 2 * 2 = 8 calls, but the shape holds 1 element | the bounds end at `shape[n] - 1`, so the walk visits each element of the padded shape once | medium, not executed | OutputUtils.PackOrUnpackVarAsWritten, OutputUtils.NoneVariableWalkOverruns | OutputUtils.PackOrUnpackVar, OutputUtils.NoneVariableWalkFillsShape |
