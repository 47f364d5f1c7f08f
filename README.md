# FBX scene loading and clip cycling: a verified model

This project models the self-contained logic of the FBX SDK sample application
`TestProjectApp`. The application loads one FBX scene through the FBX SDK. It
converts the scene's meshes and materials into the Cinder renderer's
structures, keeping them in two name-keyed tables. A right mouse click cycles
through the scene's animation clips. The SDK objects the application reads
become plain Dafny values: sequences of control points, indices, normals and
UVs, and optional property values.

The model has four parts:

- **Mesh flattening** (`Mesh`, `createMesh`). The polygon-vertex index array is
  expanded into one output vertex per index entry. One triangle
  (i, i+1, i+2) is emitted per step of three. The per-polygon-vertex normals
  follow, then the UVs of the first UV set, if there is one. Positions, normals
  and UVs are the type parameters `P`, `N` and `U`. `Flatten` is the reference
  definition, and `CreateMesh` is the loop version proved equal to it.
- **Material defaulting** (`Materials`, `createMaterial`). Each of ambient,
  diffuse, emissive, specular and shininess keeps its default unless the SDK
  property is valid. The defaults are (0,0,0), (1,1,1), (0,0,0), (0,0,0) and 80.
  The texture is the first file texture attached to the diffuse property.
- **First-wins tables** (`Table`, the two loops in `setup`). The loops insert an
  item only if its name is absent. `InsertAllAbsent` is that fold. `FirstWins`
  is a declarative description of the result, and the two are proved
  equivalent.
- **Clip cycling** (`Animation` and the class `TestProject.TestProjectApp`).
  The clip index starts at 0. A right click advances it modulo the clip count,
  and selecting a clip restarts playback at the clip's start.

## Model

| member | source | states |
|---|---|---|
| `Mesh.CreateMesh` | src/TestProjectApp.cpp:124-186 | The four append loops build exactly `Flatten(mesh)`: the gathered vertices, the triangle list, the normals, and the first UV set's coordinates or none |
| `Mesh.GatherAt` | src/TestProjectApp.cpp:130-140 | The gather has one vertex per polygon-vertex index, and vertex i is the control point at index[i] |
| `Mesh.TriangleCount` | src/TestProjectApp.cpp:142-145 | The loop's number of steps of three: the last step starts below the index count and the next one would not |
| `Mesh.TriangleListAt` | src/TestProjectApp.cpp:142-145 | The list of k triangles has length k, and triangle j is (3j, 3j+1, 3j+2) |
| `Mesh.FlattenContents` | src/TestProjectApp.cpp:130-181 | Vertex count equals the index count and vertex i is cp[index[i]]; triangle k is (3k, 3k+1, 3k+2), one per step of three; normals are the SDK's in order; UVs are the first set's if one exists, else empty |
| `Mesh.FlattenInBounds` | src/TestProjectApp.cpp:142-145 | Every triangle index is below the vertex count if and only if the index count is a multiple of 3 |
| `Mesh.TriangulatedInBounds` | src/TestProjectApp.cpp:413-415 | After triangulation (every polygon has 3 vertices), the index count is a multiple of 3 and every triangle index is in bounds |
| `Mesh.SumOfThrees` | src/TestProjectApp.cpp:413-415 | A sequence of polygon sizes that are all 3 sums to three times the polygon count |
| `Materials.CreateMaterial` | src/TestProjectApp.cpp:189-274 | Overwriting the default locals one valid property at a time gives exactly `Converted(m)` |
| `Materials.DefaultsWhenAllInvalid` | src/TestProjectApp.cpp:193-197 | With no valid property, the material is ambient (0,0,0), diffuse (1,1,1), specular (0,0,0), shininess 80 and emissive (0,0,0), each with alpha 1 |
| `Materials.ValidPropertyReplacesOnlyItsComponent` | src/TestProjectApp.cpp:199-245 | Making one of the five properties valid replaces that component with the property's value and leaves the rest of the material unchanged |
| `Materials.TextureIsFirstAttached` | src/TestProjectApp.cpp:247-271 | A texture is present exactly when a file texture is attached to the diffuse property, and it is the first one |
| `Table.InsertAllAbsentKeys` | src/TestProjectApp.cpp:426-436 | The table's key set is the old key set plus every name in the visited entries |
| `Table.InsertAllAbsentKeeps` | src/TestProjectApp.cpp:431-431 | A name already in the table keeps its item |
| `Table.InsertAllAbsentFirstWins` | src/TestProjectApp.cpp:426-436 | The first entry carrying a new name decides that name's item |
| `Table.InsertAllAbsentFromFirst` | src/TestProjectApp.cpp:426-436 | Conversely, each new name's item comes from the first entry carrying that name |
| `Table.SkipPresent` | src/TestProjectApp.cpp:431-431 | Visiting an entry whose name is already present leaves the table unchanged |
| `Table.InsertAllAbsentIsFirstWins` | src/TestProjectApp.cpp:426-436 | A table equals the insert-if-absent result if and only if it satisfies the declarative first-wins description |
| `TestProject.MeshTableFirstWins` | src/TestProjectApp.cpp:426-436 | Starting empty, the mesh table's keys are exactly the scene mesh names, and the first mesh with a name maps to its flattened mesh |
| `TestProject.MaterialTableFirstWins` | src/TestProjectApp.cpp:444-453 | Starting empty, the material table's keys are exactly the scene material names, and the first material with a name maps to its converted material |
| `TestProject.TestProjectApp.constructor` | src/TestProjectApp.cpp:86-100 | Both tables start empty, the playback time at 0 and the clip index at 0 |
| `TestProject.TestProjectApp.Setup` | src/TestProjectApp.cpp:421-459 | Both tables are the first-wins tables of the scene's meshes and materials; the clip count is the stack count; the current clip is kept; the playback time is that clip's start; the object invariant holds |
| `TestProject.TestProjectApp.LoadMeshes` | src/TestProjectApp.cpp:421-437 | The mesh loop leaves the insert-if-absent table of (name, flattened mesh) pairs, which is first-wins over the old table |
| `TestProject.TestProjectApp.LoadMaterials` | src/TestProjectApp.cpp:439-454 | The material loop leaves the insert-if-absent table of (name, converted material) pairs, which is first-wins over the old table |
| `TestProject.TestProjectApp.SetAnimation` | src/TestProjectApp.cpp:277-289 | The playback span becomes the clip's start and stop, the playback time equals the clip's start, the scene's current stack is the clip, and nothing else changes |
| `TestProject.TestProjectApp.MouseDown` | src/TestProjectApp.cpp:466-478 | A right click sets the clip index to `NextClip` of the old one and restarts playback at that clip's start, keeping the index in range; other buttons change nothing in the model |
| `Animation.NextClip` | src/TestProjectApp.cpp:475-475 | `(current + 1) % count` stays in [0, count), steps up by one below count-1, and wraps from count-1 to 0 |
| `Animation.ClipAfter` | src/TestProjectApp.cpp:100-100 | Starting from clip 0, the clip index after any number of right clicks stays in [0, count) |
| `Animation.ClipAfterIsModulo` | src/TestProjectApp.cpp:473-476 | After k right clicks from clip 0, the clip index is k mod count, so count clicks return to clip 0 |

## Left out

- FBX SDK work has no visible bodies, so it is not modelled: creating the manager, importing the file and triangulating (src/TestProjectApp.cpp:383-415), evaluating global transforms, and the other accessors. The imported, triangulated scene is the `Scene` argument of `Setup`. The triangulation's effect appears only as the `Triangulated` predicate.
- The SDK guarantees that every polygon-vertex index names an existing control point. `CreateMesh` and `Setup` take this as the precondition `IndicesValid`, because `createMesh` does not check it.
- `Mesh.CreateMesh`: the FBX control points, normals and UVs are converted to `Vec3f` or `Vec2f` (dropping w, narrowing double to float). The model abstracts this away with the type parameters `P`, `N` and `U`.
- `Mesh.CreateMesh`: `int` overflow of `i + 2` and `i += 3` near 2^31 polygon vertices is not modelled. Indices are unbounded naturals.
- `Materials.CreateMaterial`: colour channels and shininess are `real`. The narrowing of the SDK's doubles to float is not modelled.
- `Materials.CreateMaterial`: loading the texture image, flipping it vertically and setting its wrap mode (src/TestProjectApp.cpp:259-266) is file I/O and a Cinder call. The model records only which file the texture is loaded from. The SDK's file-name stripping is part of the input, and the null check on the first texture is not modelled.
- `TestProject.TestProjectApp.Setup` requires at least one animation stack, because `setAnimation` asserts that the stack exists. Its precondition that polygon-vertex indices are valid is explained above.
- `TestProject.TestProjectApp.MouseDown`: the left button's arcball update is camera UI and is not modelled, so the model shows no state change for it.
- The per-frame recursive `draw` (src/TestProjectApp.cpp:293-348) is left out. It consists of immediate-mode OpenGL calls with no result to state.
- The per-frame advance and wrap of the playback time (src/TestProjectApp.cpp:492-496) is left out, because it is double arithmetic.
- `getUTF8Path` (src/TestProjectApp.cpp:37-53) is left out. It wraps Windows and SDK path-conversion calls.
- Left out as UI and rendering framework: camera, light, arcball, window settings and GL state setup.
- Console logging is removed throughout.
