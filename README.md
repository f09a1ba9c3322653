# Tower-Defense-Game: map loading, tile vocabulary, cube placement and renderer bookkeeping

This Dafny project models the core of a tower-defense map editor. The editor is built into a
Vulkan renderer. The model covers these parts:

- **Map files** (`src/map_editor/map.cpp`). `MapLayout::from_path` reads a text grid of
  `' '` (path), `'#'` (wall) and `'O'` (core) characters.
  - It rejects a grid whose rows differ in width, that holds an unknown character, or that
    has no core or more than one.
  - It then runs an explicit-stack depth-first traversal from the core over 4-connected
    path tiles. The traversal fails on a "cycle": a visited neighbour whose recorded depth
    is not the current depth plus or minus one.
  - It also fails on an interior dead end, and on a path tile the traversal never reached.
  - `MapLayout::print` writes the grid back out.
  - `Map::Map` places one cube per tile, 10 units apart, coloured by tile type. `Map::draw`
    visits the cubes row by row.
- **Tile vocabulary** (`src/map_editor/tile_types.h`, `test.h`): the character and colour
  tables, and the test copy of the character table.
- **Assertion and unit helpers** (`src/defs.h`): `M_Assert` and the integer
  `seconds_to_nanoseconds`.
- **Descriptor bookkeeping** (`src/renderer/vk_descriptors.cpp`):
  - the layout builder's binding list;
  - the growable descriptor-pool allocator, with its ready and full pool lists and its pool
    size that grows by 1.5 times up to 4092;
  - the descriptor writer's pending writes.
- **Engine bookkeeping** (`src/renderer/vk_engine.h`): the deletion queue, flushed last-in
  first-out, and the choice of frame slot.
- **Cube mesh** (`src/geometry/cube.cpp`): the 8 vertices, 36 indices, surface and bounding
  box that the `Cube` constructor builds.

The modelling choices are:

- **Errors.** A failed `M_Assert` aborts the process. Its model is an `Err` result carrying
  the failure (`MapError` for the map loader). Only the debug build is modelled, where the
  assertions are active.
- **Tiles and cells.** The grid is a `seq<seq<TileType>>`. A cell is a `(row, column)`
  pair. The traversal's `visited` hash map is a `map<Cell, int>`, and its stack is a
  `seq<(Cell, int)>`.
- **Vulkan.** Handles are abstract ids. Each driver call becomes a record in a call trace,
  or an outcome passed in as a parameter.
- **Proof layout.** Each class method is proved against a function of the class's state.
  The properties are proved as lemmas about those functions:
  - the allocator keeps every pool exactly once;
  - `build` ORs the stage bits into every binding;
  - `flush` runs the callbacks in reverse order;
  - and similar facts for the other classes.
- **Traversal.** The model verifies the loop exactly as written, with no extra fuel or
  bound. Cells can sit on the stack twice, because the push test checks `visited` and not
  the stack. The first recorded depth is kept. Neighbours just pushed count as onward for
  the dead-end test. The dead-end test also applies to the core.
- **What a successful load proves.** On success, the visited cells are exactly the core
  plus the path tiles reachable from it. Their depths form a tree rooted at the core, and
  adjacent visited cells differ in depth by exactly one. Every path tile is reachable, and
  no interior path tile is a dead end.
- **What a failed load means.** The traversal is deterministic. A run is the sequence of
  loop states from the start, each the step of the one before. Every map has exactly one
  run that stops, and "cycle" or "dead end" is returned exactly when that run stops with
  that test firing.
- **What the layout holds.** `MapLayout` holds only `tiles`, and every cube is placed at
  height 0. The cycle test is stricter than "the path graph has no cycle". For example,
  it rejects an open 3 by 3 room of path tiles around a core (`OpenRoomHasCycle`). The
  depth-first order reaches cell (2, 1) at depth 3, and the core above it has depth 0.

## Model

| member | source | states |
|---|---|---|
| `Defs.MAssertCheck` | src/defs.h:22-29 | `__M_Assert` fails exactly when `expr` is false, and then reports the message, the expression text, the file and the line; when `expr` holds it has no effect |
| `Defs.MAssert` | src/defs.h:15-20 | with `NDEBUG` defined, `M_Assert` never fails; otherwise it fails exactly when the expression is false |
| `Defs.SecondsToNanoseconds` | src/defs.h:7-9 | the result is a 32-bit `int` that is an exact multiple of 10^9, and dividing it by 10^9 gives back the seconds |
| `Defs.SecondsToNanosecondsDomain` | src/defs.h:7-9 | the product fits a 32-bit `int` exactly for seconds -2 to 2 |
| `TileTypes.Ordinal` | src/map_editor/tile_types.h:10-15 | the enumerators' values are below 4, and only `Invalid` is 0 |
| `TileTypes.FromOrdinal` | src/map_editor/tile_types.h:10-15 | each of the values 0 to 3 names the enumerator with that value |
| `TileTypes.OrdinalIsBijective` | src/map_editor/tile_types.h:10-15 | enumerator to value to enumerator is the identity, so there are exactly four distinct enumerators |
| `TileTypes.TileTypeToChar` | src/map_editor/tile_types.h:17-34 | gives a character exactly for the three valid tiles, always one of `' '`, `'#'`, `'O'`; `Invalid` fails with "Tile type not supported" |
| `TileTypes.CharToTileType` | src/map_editor/tile_types.h:36-53 | gives a tile exactly for the three tile characters, never `Invalid`; any other character fails with "Char does not match a TileType" |
| `TileTypes.TileTypeToColor` | src/map_editor/tile_types.h:55-74 | gives a colour exactly for the three valid tiles, with components of at most 255; `Invalid` fails |
| `TileTypes.CharRoundTrip` | src/map_editor/tile_types.h:36-53 | reading a tile character and writing the tile back gives the same character |
| `TileTypes.TileRoundTrip` | src/map_editor/tile_types.h:17-34 | writing a valid tile and reading the character back gives the same tile |
| `TileTypes.TileTypeToCharInjective` | src/map_editor/tile_types.h:17-34 | two valid tiles with the same character are the same tile |
| `TileTypes.TileTypeToColorInjective` | src/map_editor/tile_types.h:55-74 | two valid tiles with the same colour are the same tile |
| `TileTest.TileTypeToCharTest` | test.h:8-27 | the test table gives a character exactly for the valid tiles; `Invalid` fails with "Tile type not supported" |
| `TileTest.TestTableAgrees` | test.h:18-20 | the test copy agrees with `tile_type_to_char` on every tile |
| `TileTest.TestTableInjective` | test.h:18-20 | the test copy gives the three valid tiles three different characters |
| `MapParse.RowTiles` | src/map_editor/map.cpp:53-76 | one tile per character of a line, each the tile that `char_to_tile_type` reads from that character |
| `MapParse.TilesOf` | src/map_editor/map.cpp:43-80 | one row of tiles per line of the file, in order |
| `MapParse.TilesOfFaithful` | src/map_editor/map.cpp:43-82 | the grid of a well-formed file with one core is rectangular and as wide as the first line; it holds no `Invalid` tile, and its only `Core` tile is at the core character's cell |
| `MapParse.ParseGrid` | src/map_editor/map.cpp:43-82 | succeeds exactly on files whose lines share one width, with only tile characters and exactly one `'O'`, returning that grid and the core cell; each error it returns is the true one (width, character, a second core, no core), and any error but a missing core is the first fault in scan order |
| `MapParse.ParseRow` | src/map_editor/map.cpp:50-76 | the column loop on one line gives that line's tiles and the core found so far, or fails with the line's first unknown character or second `'O'`, which is the first fault of the file |
| `MapParse.FirstFaultUnique` | src/map_editor/map.cpp:43-82 | a file has one first fault: the positions are ordered line by line, with each line's width check before its characters, and no position holds two faults |
| `MapParse.WellFormedHasNoFault` | src/map_editor/map.cpp:43-82 | a well-formed file with at most one `'O'` has no fault, so the parse loop reports none |
| `MapParse.CleanPrefix` | src/map_editor/map.cpp:43-77 | if the lines and characters before a position are all accepted and hold at most one `'O'`, no earlier position is a fault, and a fault there is the first one |
| `MapTraversal.Record` | src/map_editor/map.cpp:112 | `visited.insert` adds the popped cell and never changes the depth of a cell already recorded |
| `MapTraversal.VisitNeighbour` | src/map_editor/map.cpp:115-125 | one neighbour block reports a cycle exactly when the neighbour is visited at a depth other than the current one plus or minus one; otherwise it pushes the neighbour at depth + 1 exactly when it is an in-bounds, unvisited `Path` tile |
| `MapTraversal.VisitStep` | src/map_editor/map.cpp:106-185 | one pass of the loop: records the popped cell, fails with "cycle" exactly when some visited neighbour has a depth other than the current depth plus or minus one (an equal depth included), with "dead end" exactly when the interior cell has no unvisited `Path` neighbour, and otherwise pushes exactly the neighbours the four push tests accept |
| `MapTraversal.PushesAreSteps` | src/map_editor/map.cpp:123-160 | every pushed entry is a 4-neighbour of the popped cell, passes the push test, and has depth + 1 |
| `MapTraversal.StaleStep` | src/map_editor/map.cpp:106-185 | popping a cell that is already visited changes nothing in `visited` and pushes nothing; if the cell is interior it trips the dead-end test |
| `MapTraversal.FreshStep` | src/map_editor/map.cpp:106-185 | a step that passes both tests on a newly visited cell keeps the traversal invariant and strictly shrinks the set of unvisited cells |
| `MapTraversal.DepthTreeReachable` | src/map_editor/map.cpp:102-124 | a visited cell, reached down a chain of decreasing depths, is reachable from the core over `Path` tiles |
| `MapTraversal.Traverse` | src/map_editor/map.cpp:102-186 | the traversal terminates with success, "cycle" or "dead end". It returns the outcome that its run of loop states stops with: success on an empty stack, "cycle" when the popped entry's cycle test fires, and otherwise "dead end" when the dead-end test fires. It visits only the core and `Path` tiles. On success its final `visited` is the run's last map and satisfies the traversal invariant over an empty stack |
| `MapTraversal.RunExtends` | src/map_editor/map.cpp:106-186 | an iteration that passes both tests extends a run by the state after popping, recording and pushing |
| `MapTraversal.RunsAgree` | src/map_editor/map.cpp:102-186 | the loop is deterministic: two runs from the same core agree state by state |
| `MapTraversal.TraversalEndsUnique` | src/map_editor/map.cpp:102-186 | the traversal stops with exactly one outcome |
| `MapTraversal.OpenRoomHasCycle` | src/map_editor/map.cpp:112-125 | on a core in the middle of a 3 by 3 room of `Path` tiles, the traversal stops with "cycle" |
| `MapTraversal.HasUnvisitedPath` | src/map_editor/map.cpp:189-196 | the connectivity scan finds its target exactly when some `Path` tile is not in `visited` |
| `MapTraversal.UnvisitedIsUnreachable` | src/map_editor/map.cpp:189-196 | after a successful traversal, a `Path` tile left unvisited is unreachable, so the map is disconnected |
| `MapTraversal.TraversalCertifies` | src/map_editor/map.cpp:102-196 | after a successful traversal and scan, the visited cells are exactly the core and the `Path` tiles reachable from it; the depths form a tree rooted at 0 that differs by one between neighbours; every `Path` tile is reachable and no interior tile is a dead end |
| `MapTraversal.ValidateTopology` | src/map_editor/map.cpp:84-196 | traversal and scan give "cycle" or "dead end" exactly when the traversal stops with that outcome. After a traversal that completes, they give "disconnected" exactly when some `Path` tile is unreachable, and success exactly when every one is reachable. Success also certifies the depth tree and the absence of dead ends |
| `MapLayouts.FromLines` | src/map_editor/map.cpp:27-201 | fails with a format error exactly when the lines are not a well-formed grid with one core; on success it returns the file's grid, which is sound (rectangular, valid tiles, one core, every path reachable, no dead end). The format errors are true ones, and any but a missing core is the first fault in scan order. "Cycle" and "dead end" are returned exactly when the file is well formed with one core and the traversal of its grid stops with that outcome. "Disconnected" is returned exactly when that traversal completes but a `Path` tile is unreachable, and success exactly when every `Path` tile is reachable |
| `MapLayouts.ValidateParsed` | src/map_editor/map.cpp:84-201 | on the grid and the single core of a well-formed file, gives no format error. It returns "cycle" or "dead end" exactly when the file's traversal stops with that outcome, "disconnected" exactly when that traversal completes with a `Path` tile unreachable, and otherwise the file's grid, which is sound |
| `MapLayouts.RejectedOutcome` | src/map_editor/map.cpp:43-82 | a parse error is a format error, given exactly when the file is not a well-formed grid with one core; such a file has no traversal, so none of the topology outcomes holds |
| `MapLayouts.AcceptedFormat` | src/map_editor/map.cpp:43-201 | on a well-formed file with one core, a topology outcome is not a format error, and a layout returned is the file's grid, sound for every core the file could have |
| `MapLayouts.RowText` | src/map_editor/map.cpp:203-210 | one character per tile of a row, each the character `tile_type_to_char` gives that tile |
| `MapLayouts.PrintLayout` | src/map_editor/map.cpp:203-210 | printing succeeds exactly when no tile is `Invalid`, and then writes every row's characters followed by a newline; otherwise it fails with "Tile type not supported" after writing every row before the first `Invalid` tile and the characters before it in its row |
| `MapLayouts.FirstInvalidUnique` | src/map_editor/map.cpp:203-210 | a grid has at most one first `Invalid` tile in row-major order, so the text written before the failure is determined |
| `MapLayouts.PrintRoundTrip` | src/map_editor/map.cpp:203-210 | printing the grid read from a file of tile characters gives back the file's lines, each followed by a newline |
| `MapPlacement.CubeColorMatchesTable` | src/map_editor/map.cpp:225-240 | the colour literals of the placement switch are exactly `tile_type_to_color`'s |
| `MapPlacement.CubeAt` | src/map_editor/map.cpp:219-240 | a tile gets no cube exactly when it is `Invalid`, which no case handles; otherwise it gets one cube at (10c, 0, 10r), scaled by 10, in its tile's colour |
| `MapPlacement.Map.constructor` | src/map_editor/map.cpp:213-245 | one cube line per row, in row order; line `r` holds, left to right, a cube for each non-`Invalid` tile among row `r`'s first `width` tiles, where `width` is the first row's length |
| `MapPlacement.Map.Draw` | src/map_editor/map.cpp:247-253 | `draw` visits every cube, line by line, in order |
| `MapPlacement.RowCubesAt` | src/map_editor/map.cpp:216-242 | in a row of valid tiles, cube `c` is the placement of column `c` |
| `MapPlacement.CubesLength` | src/map_editor/map.cpp:216-244 | there is one cube line per row placed, and line `r` is row `r`'s cubes |
| `MapPlacement.FlatCubesLength` | src/map_editor/map.cpp:216-244 | `m` rows of `width` valid tiles give `m * width` cubes |
| `MapPlacement.FlatCubeAt` | src/map_editor/map.cpp:216-252 | the cube of row `r`, column `c` comes `c` places after all the cubes of the earlier rows |
| `MapPlacement.DrawnCount` | src/map_editor/map.cpp:216-253 | drawing a rectangular map of valid tiles visits exactly rows times width cubes |
| `MapPlacement.DrawnPlacementAt` | src/map_editor/map.cpp:216-253 | the `(r * width + c)`-th cube drawn is tile (r, c)'s cube: at (10c, 0, 10r), scaled by 10, in `tile_type_to_color`'s colour for that tile |
| `MapPlacement.SoundLayoutDrawable` | src/map_editor/map.cpp:198-200 | a layout that `from_path` returns is rectangular and holds only valid tiles, so every index that `Map::Map` reads is in range |
| `VkHandles.ToUint32` | src/renderer/vk_descriptors.cpp:30 | the `uint32_t` conversion keeps values already in range and is otherwise congruent modulo 2^32 |
| `DescriptorLayout.WithStagesBits` | src/renderer/vk_descriptors.cpp:22-24 | after `build`, a binding keeps every stage bit it had, has every bit of `shader_stages`, and has no other bit; its number, count and type are unchanged |
| `DescriptorLayout.WithStagesIdempotent` | src/renderer/vk_descriptors.cpp:22-24 | ORing the same stages in twice is the same as once |
| `DescriptorLayout.WithStagesCompose` | src/renderer/vk_descriptors.cpp:22-24 | ORing in `s` and then `t` is ORing in `s` with `t` once |
| `DescriptorLayout.DescriptorLayoutBuilder.AddBinding` | src/renderer/vk_descriptors.cpp:5-13 | appends exactly one binding, with the given number and type, count 1 and no stages, and leaves the earlier ones unchanged |
| `DescriptorLayout.DescriptorLayoutBuilder.Clear` | src/renderer/vk_descriptors.cpp:15-18 | empties the binding list |
| `DescriptorLayout.DescriptorLayoutBuilder.Build` | src/renderer/vk_descriptors.cpp:20-37 | ORs `shader_stages` into every binding in place, passes all bindings with `bindingCount` equal to their number, and returns the driver's answer |
| `DescriptorAllocation.GrowBounds` | src/renderer/vk_descriptors.cpp:120-123 | the grown pool size never passes 4092 and never shrinks a size at or below the cap; it strictly grows from 2 up to the cap, reaches the cap from 2728 on, and stays put at 0 and 1 |
| `DescriptorAllocation.GrowReachesCap` | src/renderer/vk_descriptors.cpp:120-123 | repeated growth from 2 or more reaches 4092 within `4092 - s` steps, and stays put from 0 or 1 |
| `DescriptorAllocation.GetPoolReusesOrCreates` | src/renderer/vk_descriptors.cpp:110-127 | `get_pool` takes the last ready pool off the list when there is one; otherwise it creates a new pool of `sets_per_pool` sets and grows the size; the pool returned is held nowhere else, and no other pool is lost or added |
| `DescriptorAllocation.AllocateOnceKeepsPools` | src/renderer/vk_descriptors.cpp:82-108 | `allocate` without a retry keeps every pool exactly once, adds only new pools, ends with its pool at the back of `ready_pools`, and leaves `full_pools` unchanged |
| `DescriptorAllocation.FiledKeepsPools` | src/renderer/vk_descriptors.cpp:84-98 | filing the exhausted pool at the back of `full_pools` keeps every pool held exactly once and adds only new pools |
| `DescriptorAllocation.AllocateRetryKeepsPools` | src/renderer/vk_descriptors.cpp:96-106 | on a retry the exhausted pool goes to the back of `full_pools` and no pool is held twice; if the retry succeeds, no pool is lost and the second pool is at the back of `ready_pools` |
| `DescriptorAllocation.AllocateKeepsPools` | src/renderer/vk_descriptors.cpp:82-108 | `allocate` in both cases: no pool is held twice, only new pools are added, no pool is lost when it succeeds, the pool used ends at the back of `ready_pools`, and `full_pools` grows only on a retry |
| `DescriptorAllocation.AllocateResult` | src/renderer/vk_descriptors.cpp:93-107 | returns the set the driver wrote on a first success or a retried success; fails exactly when the retry fails; any other first error returns the unwritten handle |
| `DescriptorAllocation.ClearPoolsKeepsPools` | src/renderer/vk_descriptors.cpp:56-67 | `clear_pools` puts every full pool, in order, after the ready ones, empties `full_pools`, keeps every pool exactly once, and resets each pool once |
| `DescriptorAllocation.DestroyPoolsOnce` | src/renderer/vk_descriptors.cpp:69-80 | `destroy_pools` empties both lists and destroys each held pool exactly once, and no other pool |
| `DescriptorAllocation.DescriptorAllocator.NewPool` | src/renderer/vk_descriptors.cpp:129-149 | `create_pool` asks the device for a pool of `set_count` sets and returns the next unused id, which is held on neither list; every pool stays held once |
| `DescriptorAllocation.DescriptorAllocator.Init` | src/renderer/vk_descriptors.cpp:39-54 | copies the ratios, creates exactly one pool and appends it to `ready_pools`, sets `sets_per_pool` to the floor of 1.5 times `initial_sets`, and keeps every pool held once |
| `DescriptorAllocation.DescriptorAllocator.GetPool` | src/renderer/vk_descriptors.cpp:110-127 | the new state and the pool returned are `get_pool`'s, as `GetPoolReusesOrCreates` describes; every pool stays held once, and the pool returned is on neither list |
| `DescriptorAllocation.DescriptorAllocator.Allocate` | src/renderer/vk_descriptors.cpp:82-108 | the new state and the result are `allocate`'s, as `AllocateKeepsPools` and `AllocateResult` describe; every pool stays held once |
| `DescriptorAllocation.DescriptorAllocator.ClearPools` | src/renderer/vk_descriptors.cpp:56-67 | the new state is `clear_pools`' (resets ready pools, then each full pool, which then becomes ready); every pool stays held once |
| `DescriptorAllocation.DescriptorAllocator.DestroyPools` | src/renderer/vk_descriptors.cpp:69-80 | the new state is `destroy_pools`' (destroys the ready pools, then the full ones, and keeps none); the empty lists hold no pool twice |
| `DescriptorWriting.WriteBufferAppends` | src/renderer/vk_descriptors.cpp:151-169 | `write_buffer` adds one write, of count 1 and null `dstSet`, that describes exactly the given buffer range at the given binding; every earlier write still describes what it did |
| `DescriptorWriting.WriteImageAppends` | src/renderer/vk_descriptors.cpp:171-189 | `write_image` adds one write of count 1 and null `dstSet` describing exactly the given image, view and layout; every earlier write is unchanged |
| `DescriptorWriting.BindAllResolves` | src/renderer/vk_descriptors.cpp:199-206 | after `update_set`, every write targets the given set and still describes the same buffer or image at the same binding, count and type |
| `DescriptorWriting.BindAllLastWins` | src/renderer/vk_descriptors.cpp:199-203 | after updating for one set and then another, every write targets the last set |
| `DescriptorWriting.DescriptorWriter.WriteBuffer` | src/renderer/vk_descriptors.cpp:151-169 | the new lists are `write_buffer`'s, as `WriteBufferAppends` describes |
| `DescriptorWriting.DescriptorWriter.WriteImage` | src/renderer/vk_descriptors.cpp:171-189 | the new lists are `write_image`'s, as `WriteImageAppends` describes |
| `DescriptorWriting.DescriptorWriter.Clear` | src/renderer/vk_descriptors.cpp:191-197 | empties all three lists |
| `DescriptorWriting.DescriptorWriter.UpdateSet` | src/renderer/vk_descriptors.cpp:199-206 | sets every write's `dstSet` in place, leaves the info lists alone, and submits all writes with their number as `uint32_t` |
| `Engine.ReverseAt` | src/renderer/vk_engine.h:88-92 | running from the back, the `i`-th callback run is the one pushed `|s| - 1 - i`-th |
| `Engine.ReverseMultiset` | src/renderer/vk_engine.h:88-92 | a flush runs every pushed callback, each as often as it was pushed |
| `Engine.ReversePushed` | src/renderer/vk_engine.h:84-92 | the callback pushed last runs first, before all that were pushed earlier |
| `Engine.FlushLastFirst` | src/renderer/vk_engine.h:88-92 | of two pushed callbacks, the later one runs earlier |
| `Engine.DeletionQueue.constructor` | src/renderer/vk_engine.h:79-82 | a new queue holds nothing and has run nothing |
| `Engine.DeletionQueue.PushFunction` | src/renderer/vk_engine.h:84-86 | appends the callback at the back; earlier entries stay as they are and nothing runs |
| `Engine.DeletionQueue.Flush` | src/renderer/vk_engine.h:88-95 | runs the queued callbacks back to front, each exactly once, so an empty queue runs nothing; the queue is then empty |
| `Engine.FrameIndex` | src/renderer/vk_engine.h:165-167 | the frame slot is 0 or 1, and it is 0 exactly on even frame numbers |
| `Engine.FramesAlternate` | src/renderer/vk_engine.h:183 | successive 64-bit frame numbers alternate between the two slots, across the wrap-around too |
| `CubeMesh.BoxOf` | src/geometry/cube.cpp:170-175 | the min/max fold over the vertices gives the smallest box holding them all: each corner bounds every vertex and is reached by some vertex in each coordinate |
| `CubeMesh.CubeVerticesShape` | src/geometry/cube.cpp:24-115 | 8 vertices: 0-3 at y = 1/2 and 4-7 at y = -1/2, each at x, z = plus or minus 1/2, no two at the same place, all with the given colour, normal (1, 0, 0) and uv (0, 0) |
| `CubeMesh.CubeFacesOnSides` | src/geometry/cube.cpp:77-154 | six groups of six indices, 36 in all, each below 8; each group lies on its own side of the cube and the six sides are distinct; no triangle repeats a corner |
| `CubeMesh.BuildCubeMesh` | src/geometry/cube.cpp:22-177 | the mesh is the eight corners and the six index groups appended in order; the surface starts at 0 and counts all indices; its bounds are centred at the origin with extents 1/2 |
| `CubeMesh.BoxOfCube` | src/geometry/cube.cpp:170-177 | the box around the eight corners runs from -1/2 to 1/2 on every axis |

## Left out

- File I/O: `from_path` opens a file and logs when it cannot, and logs the path. The model
  takes the file's lines as its input. A file that fails to open reads as no lines, which
  the model rejects as having no core.
- The diagnostic `std::print` calls of `from_path`: the "Loaded map" and "Could not open"
  messages, and the values that the dead-end branch computes before it asserts. The
  output of `MapLayout::print` is modelled, as `PrintLayout`'s `out`.
- Release builds, where `M_Assert` expands to nothing and the loader reads out of range on
  a short line. Only the debug build is modelled.
- `RowColPair` hashing: the visited map is a Dafny map keyed by pairs.
- The stale `TileType` enum and `tile_type_to_char` in `src/map_editor/map.h`, which lack
  `Core`. Only `MapLayout`'s shape is taken from that header.
- The `float` overload of `seconds_to_nanoseconds`: it is floating point.
- Defs.SecondsToNanoseconds: its precondition requires the product to fit in an `int`,
  because the source gives signed overflow no defined result.
- Cube objects and GPU work: the buffers, the material, the upload, the transforms, the
  destructor and `Cube::draw`. `Map` holds placement records in place of cubes.
- `Bounds.sphere_radius`: it needs a square root. `src/geometry/cube.h` declares a
  constructor without a colour parameter; the model follows `cube.cpp`.
- `create_pool`'s pool sizes: each is a float ratio times the set count. The model records
  only the requested `maxSets` and the ratios.
- `VK_CHECK` on `vkCreateDescriptorSetLayout` and `vkResetDescriptorPool`: the layout
  result is a parameter, and resetting is assumed to succeed.
- DescriptorAllocation.DescriptorAllocator.NewPool: `create_pool` ignores the result of
  `vkCreateDescriptorPool`, so a failed creation leaves `new_pool` unwritten, and `init`
  and `get_pool` then use that handle. The model assumes the device always creates a
  new pool. Every "each pool held once" promise of `Init`, `GetPool` and `Allocate`
  holds only under that assumption.
- DescriptorAllocation.DescriptorAllocator.constructor: a default-constructed allocator
  leaves `sets_per_pool` indeterminate. The model takes its initial value as a parameter.
- DescriptorAllocation.DescriptorAllocator.GetPool: requires that `sets_per_pool * 1.5`
  fits in `uint32_t` whenever a pool must be created. Out of range, the float-to-integer
  conversion has no defined result in C++.
- DescriptorAllocation.DescriptorAllocator.Init: requires that `initial_sets * 1.5` fits
  in `uint32_t`, for the same reason.
- DescriptorLayout.DescriptorLayoutBuilder.Build: stage masks are modelled as sets of bit
  positions, with OR as set union. The `pNext` chain is not modelled.
- DescriptorWriting.DescriptorWriter.WriteBuffer: `binding` is an `int` whose `uint32_t`
  conversion is stored. `size_t` offsets and ranges are unbounded naturals.
- The descriptor writer's constructor and the layout builder's constructor: default
  construction is not part of the modelled source lines.
- `VkEngine` itself (initialisation, the SDL loop, swapchains, pipelines, the incrementing
  of `_frame_number`), cameras, the scene graph, the glTF loader and the older root-level
  copies of the renderer files.
