# webgpu-practice: packer, links and cube grid in Dafny

This project models three pieces of logic from the webgpu-practice tutorial
site and proves properties about them.

- **The interleaved vertex-buffer packer** `createWebgpuVertexBuffer`
  (`packer.dfy`, module `VertexPacker`). It takes a geometry and a record
  from attribute name to shader location. The geometry has named attributes,
  each with `itemSize` components per vertex in one flat array, plus an
  optional index list. The packer:
  - sorts the record's names by shader location;
  - builds the vertex-buffer layout with a running byte offset and
    `float32x<itemSize>` formats;
  - folds the stride;
  - interleaves every vertex's components in vertex order;
  - passes the index list through.

  `Pack` is the packer as a function. The method `CreateWebgpuVertexBuffer`
  builds the layout with the same running `currentOffset` loop as the source,
  and its contract proves it equal to `Pack`. The lemmas state what `Pack`
  produces. The packer moves floats without computing on them, so their type is a parameter.
- **Site links** `basePath` and `linkTo` (`links.dfy`, module `Links`). The
  base URL comes from the build environment, so it is a parameter here.
- **The multiple-objects page** (`grid.dfy`, module `CubeGrid`, and
  `renderer.dfy`, module `MultipleObjects`).
  - `CubeGrid` holds the grid the 99 extra cubes stand on. It has the row
    length `ceil(sqrt(99))` and each cube's x and y steps, in whole steps
    (the 1.5 scaling is dropped).
  - `MultipleObjects` holds the page state. The `App` constructor creates
    one world-transform buffer and one bind group per cube. `Render` is one
    frame: it writes every cube's transform to that cube's buffer, then
    issues one indexed draw per cube.
  - GPU buffers are handles handed out by a `Device` object. A
    world-transform buffer's contents are modelled as the cube's grid
    placement.

`wrappers.dfy` holds the `Option` and `Result` types.

The packer raises exactly one error, a missing index list. It checks
nothing else: not the item sizes, not that vertex counts agree, not that the
names exist. The model states those requirements as preconditions. They
apply only when an index list is present, because the code throws before it
reads anything else.

## Model

| member | source | states |
|---|---|---|
| VertexPacker.FLOAT_SIZE | src/lib/utils.ts:2 | no contract of its own: the 4 bytes of a `Float32Array` element; OffsetStep and PackStride state the offsets and stride it scales |
| VertexPacker.INDEX_SIZE | src/lib/utils.ts:3 | no contract of its own: the 2 bytes of a `Uint16Array` element; App.constructor sizes the index buffer with it and DrawCubes divides by it to get each draw's index count |
| VertexPacker.Insert | src/lib/utils.ts:8 | inserting into an ascending sequence gives an ascending sequence one longer, holding the old entries plus the new one (as a multiset) |
| VertexPacker.SortByLocation | src/lib/utils.ts:8 | the sorted names are a permutation of the record's entries in ascending shader-location order |
| VertexPacker.InsertStrict | src/lib/utils.ts:8 | inserting an entry with a new location keeps the order strict |
| VertexPacker.SortStrictWhenUnique | src/lib/utils.ts:8 | when the record's locations are unique, the sorted order is strictly ascending |
| VertexPacker.AscendingPermutationUnique | src/lib/utils.ts:8 | two strictly ascending permutations of the same entries are equal, so with unique locations the result does not depend on the sort algorithm |
| VertexPacker.AtLocation | src/lib/utils.ts:8 | the entries of a sequence at one shader location, in their order; none is at another location |
| VertexPacker.InsertKeepsTies | src/lib/utils.ts:8 | insertion puts the new entry ahead of the entries it ties with and leaves their order unchanged |
| VertexPacker.SortStable | src/lib/utils.ts:8 | the sort is stable: at every shader location the sorted entries are the record's entries at that location, in record order, as the stable `Array.prototype.sort` keeps them |
| VertexPacker.Format | src/lib/utils.ts:16 | the format is "float32x" followed by the one digit that names the item size |
| VertexPacker.FormatInjective | src/lib/utils.ts:16 | different item sizes get different format names, in both directions |
| VertexPacker.Offset | src/lib/utils.ts:10-18 | no contract of its own: the value of the running `currentOffset` when attribute k is reached; FirstOffsetZero, OffsetStep and OffsetsIncreasing state it, and BuildLayout proves the loop computes it |
| VertexPacker.Stride | src/lib/utils.ts:21 | no contract of its own: the `reduce` over the item sizes; StrideIsTotal and StrideAfterLast state its value |
| VertexPacker.Layout | src/lib/utils.ts:11-20 | no contract of its own: the `map` over the sorted names; PackLayoutOffsets, PackLayoutFormats and the location lemmas state its entries, and BuildLayout proves the loop equal to it |
| VertexPacker.OffsetStep | src/lib/utils.ts:18 | each attribute's offset is the previous offset plus 4 bytes per component of the previous attribute |
| VertexPacker.FirstOffsetZero | src/lib/utils.ts:10 | the first attribute starts at byte 0 |
| VertexPacker.OffsetsIncreasing | src/lib/utils.ts:10-19 | offsets strictly increase, and each attribute ends at or before every later attribute starts |
| VertexPacker.StrideIsTotal | src/lib/utils.ts:21 | the folded stride equals the offset past all attributes, i.e. 4 times the sum of the item sizes |
| VertexPacker.StrideAfterLast | src/lib/utils.ts:18-21 | the stride is the last offset plus the last attribute's bytes |
| VertexPacker.AttributesFitRecord | src/lib/utils.ts:10-21 | every attribute's bytes lie inside the stride and do not overlap a later attribute |
| VertexPacker.Components | src/lib/utils.ts:27 | a vertex's slice of an attribute has exactly `itemSize` components |
| VertexPacker.Record | src/lib/utils.ts:25-28 | no contract of its own: the inner `flatMap` for one vertex; RecordLength and RecordAt state its length and contents |
| VertexPacker.Flatten | src/lib/utils.ts:24 | no contract of its own: the concatenation the outer `flatMap` performs; FlattenLength and FlattenAt state its length and contents |
| VertexPacker.Records | src/lib/utils.ts:24-30 | no contract of its own: the per-vertex records the outer `flatMap` concatenates; RecordLength, RecordAt and InterleaveAt state what they hold |
| VertexPacker.Interleave | src/lib/utils.ts:24-30 | no contract of its own: the nested `flatMap`; InterleaveLength, InterleaveAt and InterleaveComponentAt state its length and every element |
| VertexPacker.RecordLength | src/lib/utils.ts:25-28 | one vertex's record has one float per component of every attribute |
| VertexPacker.RecordAt | src/lib/utils.ts:25-28 | component j of attribute k sits in the record at the sum of the earlier item sizes plus j, and equals that attribute's value at `i * itemSize + j` |
| VertexPacker.FlattenLength | src/lib/utils.ts:24 | concatenating records of equal length w gives w elements per record |
| VertexPacker.FlattenAt | src/lib/utils.ts:24 | element p of record i lands at position `i * w + p` of the concatenation |
| VertexPacker.InterleaveLength | src/lib/utils.ts:24-30 | the flat data holds one stride-long record per vertex |
| VertexPacker.InterleaveAt | src/lib/utils.ts:24-30 | record i starts at float `i * recordLength`, so vertices keep their order |
| VertexPacker.InterleaveComponentAt | src/lib/utils.ts:24-30 | for any attributes, component j of attribute k for vertex i sits at float `i*(stride/4) + offset_k/4 + j` of the interleaved data and is that attribute's value at `i * itemSize + j` |
| VertexPacker.WellFormed | src/lib/utils.ts:8-27 | no contract of its own: what the code needs of its inputs once an index list is present (a non-empty record, every named attribute present, item sizes in 1..4, equal vertex counts); it is the precondition of the packer's lemmas and, under an index, of CreateWebgpuVertexBuffer |
| VertexPacker.SortedEntriesFromRecord | src/lib/utils.ts:8 | the sorted sequence has the record's length and holds only record entries |
| VertexPacker.SortedAttributes | src/lib/utils.ts:12 | entry k is the geometry attribute named by sorted entry k; all item sizes are in 1..4 and all hold the common vertex count |
| VertexPacker.VertexCount | src/lib/utils.ts:23 | the count of the first sorted attribute is the count every named attribute shares |
| VertexPacker.SortedItemSizes | src/lib/utils.ts:12 | the sorted item sizes are in 1..4 and belong to the sorted attributes in order |
| VertexPacker.PackedLayout | src/lib/utils.ts:11-20 | the layout has one entry per record entry |
| VertexPacker.PackedVertexData | src/lib/utils.ts:23-30 | no contract of its own: the `vertexData` the packer returns; PackVertexDataLength and PackVertexDataAt state its length and every float |
| VertexPacker.Pack | src/lib/utils.ts:5-38 | no contract of its own: the packer as a function of its inputs; PackFailsOnlyWithoutIndex states its error case and result, the PackLayout*, PackStride and PackVertexData* lemmas state the parts, and CreateWebgpuVertexBuffer is proved to return it |
| VertexPacker.PackFailsOnlyWithoutIndex | src/lib/utils.ts:6 | the packer fails exactly when the index list is missing; otherwise it returns the layout, stride and data, and passes the indices through unchanged |
| VertexPacker.PackLayoutAscending | src/lib/utils.ts:8-14 | the layout's shader locations ascend |
| VertexPacker.PackLayoutStrictWhenUnique | src/lib/utils.ts:8-14 | with unique record locations, the layout's locations strictly ascend |
| VertexPacker.PackLayoutCoversRecord | src/lib/utils.ts:11-14 | every record entry's location appears in the layout |
| VertexPacker.PackLayoutFromRecord | src/lib/utils.ts:11-14 | every layout location belongs to a record entry |
| VertexPacker.PackLayoutFormats | src/lib/utils.ts:15-16 | the first offset is 0, and each entry's format names its attribute's item size |
| VertexPacker.PackLayoutOffsets | src/lib/utils.ts:10-19 | entry k's offset is 4 times the sum of the earlier item sizes; each entry starts where the previous ends; offsets strictly increase |
| VertexPacker.PackStride | src/lib/utils.ts:21 | the stride is 4 times the sum of all item sizes, and equals the last offset plus the last attribute's bytes |
| VertexPacker.PackVertexDataLength | src/lib/utils.ts:23-24 | the vertex data holds vertexCount times stride/4 floats |
| VertexPacker.PackVertexDataAt | src/lib/utils.ts:24-29 | for vertex i, sorted attribute k and component j, `vertexData[i*(stride/4) + offset_k/4 + j]` is component j of vertex i of attribute k |
| VertexPacker.CubePageSort | src/lib/animated-multiple-3d-objects/main.ts:71-74 | the cube page's record `{position: 0, uv: 1}` sorts to position, uv, whichever order its keys come in |
| VertexPacker.CubePageLayout | src/lib/utils.ts:10-21 | position (3 components) and uv (2 components) get offsets 0 and 12, formats float32x3 and float32x2, and stride 20 |
| VertexPacker.TwoVec4Layout | src/lib/uniform-rerender/main.ts:46-58 | two 4-component attributes at locations 0 and 1 get the hand-written layout: offsets 0 and 16, float32x4 each, stride 32 |
| VertexPacker.BuildLayout | src/lib/utils.ts:10-20 | the running-offset loop builds exactly the closed-form layout |
| VertexPacker.CreateWebgpuVertexBuffer | src/lib/utils.ts:5-38 | the method returns exactly `Pack` of its inputs |
| Links.BasePath | src/utils.ts:1 | one trailing slash removed if present (the result plus "/" is the URL), otherwise the URL unchanged |
| Links.StripLeadingSlash | src/utils.ts:4 | one leading slash removed if present, otherwise the path unchanged |
| Links.LinkTo | src/utils.ts:3-5 | the link is the base path, one "/", then the path without its leading slash; its length is the sum of the parts |
| Links.BasePathDropsAddedSlash | src/utils.ts:1 | adding a trailing slash to a URL that lacks one and normalising gives the URL back |
| Links.BasePathStripsOnlyOne | src/utils.ts:1 | a URL ending in "//" keeps one trailing slash |
| Links.LinkToIgnoresOneLeadingSlash | src/utils.ts:4 | `linkTo("/" + p) == linkTo(p)` for p without a leading slash |
| Links.LinkToStripsOnlyOne | src/utils.ts:4 | `linkTo("//x")` is the base path followed by "//x" |
| Links.LinkToInjective | src/utils.ts:3-5 | paths that differ after their optional leading slash give different links |
| Links.RootBaseLinks | astro.config.mjs:5 | with base "/", the base path is empty and every link is a slash followed by the path with at most one leading slash removed |
| Links.DeployedBaseLinks | astro.config.mjs:5 | with base "/webgpu-practice", with or without a trailing slash, links are "/webgpu-practice/" plus the stripped path |
| CubeGrid.MORE_CUBE_COUNT | src/lib/animated-multiple-3d-objects/main.ts:34 | no contract of its own: the 99 extra cubes; ExtraCubesInTenRows, App.constructor and DrawCubes state what is built and drawn for them |
| CubeGrid.MORE_CUBE_COUNT_PER_ROW | src/lib/animated-multiple-3d-objects/main.ts:37 | no contract of its own: `Math.ceil(Math.sqrt(MORE_CUBE_COUNT))`; CeilSqrt and PerRowIsTen state its value |
| CubeGrid.CeilSqrtFrom | src/lib/animated-multiple-3d-objects/main.ts:37 | the upward search returns a root whose square reaches n and whose predecessor's square does not |
| CubeGrid.CeilSqrt | src/lib/animated-multiple-3d-objects/main.ts:37 | `ceil(sqrt(n))`: r*r >= n and (r-1)*(r-1) < n |
| CubeGrid.CeilSqrtLeast | src/lib/animated-multiple-3d-objects/main.ts:37 | no root smaller than CeilSqrt(n) squares to n or more |
| CubeGrid.PerRowIsTen | src/lib/animated-multiple-3d-objects/main.ts:34-37 | 99 extra cubes give rows of 10 |
| CubeGrid.GridSteps | src/lib/animated-multiple-3d-objects/main.ts:392-393 | the row times the row length plus the column is i + 1, and the column is less than the row length |
| CubeGrid.GridStepsDivMod | src/lib/animated-multiple-3d-objects/main.ts:392-393 | the y steps are (i+1) div perRow and the x steps are (i+1) mod perRow |
| CubeGrid.CellUnique | src/lib/animated-multiple-3d-objects/main.ts:392-393 | a cell number names exactly one (column, row) pair with the column inside the row |
| CubeGrid.RowInsideSquare | src/lib/animated-multiple-3d-objects/main.ts:391-393 | a cell number below perRow^2 lies in one of the first perRow rows |
| CubeGrid.GridStepsInjective | src/lib/animated-multiple-3d-objects/main.ts:391-393 | distinct cubes get distinct cells |
| CubeGrid.NoExtraCubeAtOrigin | src/lib/animated-multiple-3d-objects/main.ts:391-393 | no extra cube takes cell (0, 0), where the main cube is drawn |
| CubeGrid.ExtraCubesInTenRows | src/lib/animated-multiple-3d-objects/main.ts:391-393 | every one of the 99 cubes has a column in 0..9 and a row of at most 99 div 10 |
| CubeGrid.GridFitsSquare | src/lib/animated-multiple-3d-objects/main.ts:391-393 | for any positive count n, all rows stay below CeilSqrt(n) exactly when n + 1 <= CeilSqrt(n)^2 |
| MultipleObjects.Device.constructor | src/lib/animated-multiple-3d-objects/main.ts:82 | a new device has handed out no buffers and holds no contents |
| MultipleObjects.Device.CreateBuffer | src/lib/animated-multiple-3d-objects/main.ts:155-158 | each new buffer is a handle no earlier call returned |
| MultipleObjects.Device.WriteBuffer | src/lib/animated-multiple-3d-objects/main.ts:406-412 | the written buffer holds the new value and every other buffer is unchanged |
| MultipleObjects.App.constructor | src/lib/animated-multiple-3d-objects/main.ts:144-273 | the index buffer is 2 bytes per index; there are 99 world-transform buffers and 99 bind groups; all uniform buffers are distinct; bind group i binds world-transform buffer i with the shared camera and projection buffers |
| MultipleObjects.App.Valid | src/lib/animated-multiple-3d-objects/main.ts:168-273 | no contract of its own: the buffer and bind-group wiring (99 extra world buffers, bind group i on world buffer i with the shared camera and projection buffers, every uniform buffer a distinct allocated handle); the constructor establishes it and Render keeps it |
| MultipleObjects.App.WorldBuffersDistinct | src/lib/animated-multiple-3d-objects/main.ts:168-178 | every cube's world-transform buffer differs from the main cube's and from every other cube's |
| MultipleObjects.App.WriteTransforms | src/lib/animated-multiple-3d-objects/main.ts:376-412 | the main buffer gets cell (0, 0) and buffer i gets cube i's grid cell; no other buffer changes; no two cubes share a placement |
| MultipleObjects.App.DrawCubes | src/lib/animated-multiple-3d-objects/main.ts:424-432 | exactly 1 + 99 draws: first the main bind group, then bind group i for cube i; each draw's count times 2 bytes is the index buffer size |
| MultipleObjects.App.Render | src/lib/animated-multiple-3d-objects/main.ts:367-437 | one frame does both of the above and keeps the state valid |

## Left out

- All WebGPU calls other than buffer creation, uniform writes, bind-group wiring and indexed draws: adapter and device requests, canvas configuration, shader modules, pipelines, vertex-buffer upload, command encoders and `submit`. These are a foreign API.
- Matrix math (`THREE.Matrix4` translation and rotations, camera inverse, perspective projection, `Math.tan`) and `degToRad`. These are floating point over a library that is not part of this model. A world transform is modelled by the cube's grid cell. The camera and projection buffer writes are not modelled.
- The 1.5 world-unit grid scaling and the scene offset. The grid is in whole steps.
- Keyboard handlers, the per-frame `update` and the `requestAnimationFrame` loop. These are browser input and scheduling.
- Texture and sampler creation and image loading. This is I/O. Bind groups record only their uniform buffers; the sampler and texture view at bindings 3 and 4 are not modelled.
- The hello-webgpu and uniform-rerender pages. Their hand-written layouts appear only as the concrete check `TwoVec4Layout`.
- The build configuration. `astro.config.mjs` chooses the base URL from `process.env.CI`; the base URL is a parameter of `BasePath` and `LinkTo`.
- VertexPacker.CreateWebgpuVertexBuffer: requires, when an index list is present, a non-empty record, every named attribute present, item sizes in 1..4, and all named attributes holding the same vertex count. In the code:
  - an empty record or an unknown name throws a TypeError;
  - item size 0, 1 or above 4 produces a format WebGPU does not define; the model keeps the source's string for 1;
  - an attribute shorter than the first is read through the clamping `slice`, which gives short records.
- Index lists are modelled as 16-bit values (`Uint16`), and the renderer sizes the index buffer at `INDEX_SIZE` = 2 bytes per index. The cube page's geometry has a `Uint16Array` index. A geometry with more than 65535 vertices gets a `Uint32Array` index; the packer would pass it through unchanged, and `size / INDEX_SIZE` at src/lib/animated-multiple-3d-objects/main.ts:427 would then count two per index. That case is not modelled.
- Shader locations are modelled as natural numbers. The source's record accepts any number, and its comparator would also sort negative or fractional values; every page passes 0 and 1, and WebGPU accepts only small non-negative integers.
- The conversion to `float32`. `new Float32Array(...)` at src/lib/utils.ts:24 converts every value to a 32-bit float. The model copies the values unchanged, which matches the source only when the attribute arrays already hold `float32` values, as the `Float32Array` attributes of `BoxGeometry` do.
- CubeGrid.CeilSqrt: `Math.ceil(Math.sqrt(n))` on doubles is modelled as the exact integer ceiling square root. For 99 the two agree.
- MultipleObjects.App.constructor: the first world-transform buffer is created and then replaced (lines 155 and 168). The model allocates and discards a handle for it. The vertex and index buffers are not allocated through the device; the index buffer is modelled only by its byte size. WebGPU's rule that a buffer mapped at creation has a size that is a multiple of 4 is not modelled.
