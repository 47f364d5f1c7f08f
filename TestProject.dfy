/**
  The application object `TestProjectApp`: the two name-keyed tables filled at
  setup from the imported scene, and the animation-clip state that a right
  click advances.
 */
module TestProject {

  import opened Table
  import opened Mesh
  import Materials
  import opened Animation

  /** What setup reads from the imported and triangulated scene: its meshes and
      materials in SDK order, and its animation stacks. */
  datatype Scene<P, N, U> = Scene(
    meshes: seq<FbxMesh<P, N, U>>,
    materials: seq<Materials.SurfaceMaterial>,
    animStacks: seq<AnimStack>)

  /** The button that initiated a mouse-down event. */
  datatype MouseButton = Left | Middle | Right

  predicate AllIndicesValid<P, N, U>(ms: seq<FbxMesh<P, N, U>>)
  {
    forall i :: 0 <= i < |ms| ==> IndicesValid(ms[i])
  }

  /** The (name, mesh) pairs the mesh loop of setup visits, in scene order. */
  function MeshEntries<P, N, U>(ms: seq<FbxMesh<P, N, U>>): seq<(string, TriMesh<P, N, U>)>
    requires AllIndicesValid(ms)
  {
    seq(|ms|, i requires 0 <= i < |ms| => (ms[i].name, Flatten(ms[i])))
  }

  /** The (name, material) pairs the material loop of setup visits, in scene order. */
  function MaterialEntries(ms: seq<Materials.SurfaceMaterial>): seq<(string, Materials.Material)>
  {
    seq(|ms|, i requires 0 <= i < |ms| => (ms[i].name, Materials.Converted(ms[i])))
  }

  class TestProjectApp<P, N, U> {
    var meshes: map<string, TriMesh<P, N, U>>
    var materials: map<string, Materials.Material>

    /** The scene's animation stacks, which setAnimation looks up by index. */
    var animationStacks: seq<AnimStack>
    /** The stack last handed to the scene as its current animation stack. */
    var sceneCurrentStack: int

    var animationTime: real
    var animationStart: real
    var animationStop: real

    var animationStackCount: int
    var currentAnimationStack: int

    /** After setup: the clip index is within the scene's clips, and the scene and
        the playback span follow the current clip. */
    ghost predicate Valid()
      reads this
    {
      && animationStackCount == |animationStacks|
      && 0 < animationStackCount <= IntMax
      && 0 <= currentAnimationStack < animationStackCount
      && sceneCurrentStack == currentAnimationStack
      && animationStart == animationStacks[currentAnimationStack].localStart
      && animationStop == animationStacks[currentAnimationStack].localStop
    }

    /** The state the field initialisers give before setup runs. */
    constructor ()
      ensures meshes == map[] && materials == map[]
      ensures animationTime == 0.0 && currentAnimationStack == 0
      ensures animationStacks == []
    {
      meshes := map[];
      materials := map[];
      animationStacks := [];
      animationTime := 0.0;
      currentAnimationStack := 0;
    }

    /** Loads the scene's meshes and materials into the two tables, first name
        wins, then records the clip count and selects the current clip. */
    method Setup(scene: Scene<P, N, U>)
      requires AllIndicesValid(scene.meshes)
      requires |scene.animStacks| <= IntMax
      requires 0 <= currentAnimationStack < |scene.animStacks|
      modifies this
      ensures Valid()
      ensures meshes == InsertAllAbsent(old(meshes), MeshEntries(scene.meshes))
      ensures FirstWins(old(meshes), meshes, MeshEntries(scene.meshes))
      ensures materials == InsertAllAbsent(old(materials), MaterialEntries(scene.materials))
      ensures FirstWins(old(materials), materials, MaterialEntries(scene.materials))
      ensures animationStacks == scene.animStacks && animationStackCount == |scene.animStacks|
      ensures currentAnimationStack == old(currentAnimationStack)
      ensures animationTime == scene.animStacks[currentAnimationStack].localStart
    {
      LoadMeshes(scene.meshes);
      LoadMaterials(scene.materials);
      animationStacks := scene.animStacks;
      animationStackCount := |scene.animStacks|;
      SetAnimation(currentAnimationStack);
    }

    /** The mesh loop of setup: a scene mesh whose name is already in the table
        is skipped, any other one is converted and inserted under its name. */
    method LoadMeshes(sceneMeshes: seq<FbxMesh<P, N, U>>)
      requires AllIndicesValid(sceneMeshes)
      modifies this`meshes
      ensures meshes == InsertAllAbsent(old(meshes), MeshEntries(sceneMeshes))
      ensures FirstWins(old(meshes), meshes, MeshEntries(sceneMeshes))
    {
      ghost var entries := MeshEntries(sceneMeshes);
      for i := 0 to |sceneMeshes|
        invariant meshes == InsertAllAbsent(old(meshes), entries[..i])
      {
        assert entries[..i + 1][..i] == entries[..i];
        var mesh := sceneMeshes[i];
        var name := mesh.name;
        if name in meshes {
          continue;
        }
        var triMesh := CreateMesh(mesh);
        meshes := meshes[name := triMesh];
      }
      assert entries[..|sceneMeshes|] == entries;
      InsertAllAbsentIsFirstWins(old(meshes), entries, meshes);
    }

    /** The material loop of setup: a scene material whose name is already in the
        table is skipped, any other one is converted and inserted under its name. */
    method LoadMaterials(sceneMaterials: seq<Materials.SurfaceMaterial>)
      modifies this`materials
      ensures materials == InsertAllAbsent(old(materials), MaterialEntries(sceneMaterials))
      ensures FirstWins(old(materials), materials, MaterialEntries(sceneMaterials))
    {
      ghost var entries := MaterialEntries(sceneMaterials);
      for i := 0 to |sceneMaterials|
        invariant materials == InsertAllAbsent(old(materials), entries[..i])
      {
        assert entries[..i + 1][..i] == entries[..i];
        var material := sceneMaterials[i];
        var name := material.name;
        if name in materials {
          continue;
        }
        var mat := Materials.CreateMaterial(material);
        materials := materials[name := mat];
      }
      assert entries[..|sceneMaterials|] == entries;
      InsertAllAbsentIsFirstWins(old(materials), entries, materials);
    }

    /** Selects clip `index`: the playback span becomes the clip's and the
        playback time restarts at the clip's start. */
    method SetAnimation(index: int)
      requires 0 <= index < |animationStacks|
      modifies this`animationStart, this`animationStop, this`animationTime, this`sceneCurrentStack
      ensures animationStart == animationStacks[index].localStart
      ensures animationStop == animationStacks[index].localStop
      ensures animationTime == animationStart
      ensures sceneCurrentStack == index
    {
      var stack := animationStacks[index];
      animationStart := stack.localStart;
      animationStop := stack.localStop;
      animationTime := animationStart;
      sceneCurrentStack := index;
    }

    /** A right click advances to the next clip, wrapping from the last to the
        first, and restarts playback there; the left button only drives the
        arcball, which is not part of this model. */
    method MouseDown(button: MouseButton)
      requires Valid()
      modifies this`currentAnimationStack, this`animationStart, this`animationStop, this`animationTime, this`sceneCurrentStack
      ensures Valid()
      ensures button == Right ==> currentAnimationStack == NextClip(old(currentAnimationStack), animationStackCount)
      ensures button == Right ==> animationTime == animationStacks[currentAnimationStack].localStart
      ensures button != Right ==> unchanged(this)
    {
      if button == Left {
        // arcball.mouseDown(pos)
      } else if button == Right {
        currentAnimationStack := (currentAnimationStack + 1) % animationStackCount;
        SetAnimation(currentAnimationStack);
      }
    }
  }

  /** Each pair the mesh loop visits carries the scene mesh's name and its
      flattened mesh, so the mesh table maps every mesh name, and only those, to
      the mesh built from the first scene mesh with that name. */
  lemma MeshTableFirstWins<P, N, U>(ms: seq<FbxMesh<P, N, U>>, i: int)
    requires AllIndicesValid(ms)
    requires 0 <= i < |ms| && forall j :: 0 <= j < i ==> ms[j].name != ms[i].name
    ensures ms[i].name in InsertAllAbsent(map[], MeshEntries(ms))
    ensures InsertAllAbsent(map[], MeshEntries(ms))[ms[i].name] == Flatten(ms[i])
    ensures InsertAllAbsent(map[], MeshEntries(ms)).Keys == set j | 0 <= j < |ms| :: ms[j].name
  {
    var e := MeshEntries(ms);
    InsertAllAbsentFirstWins(map[], e, i);
    InsertAllAbsentKeys(map[], e);
    assert Names(e) == set j | 0 <= j < |ms| :: ms[j].name by {
      forall k | k in Names(e) ensures k in set j | 0 <= j < |ms| :: ms[j].name {
        var j :| 0 <= j < |e| && e[j].0 == k;
        assert ms[j].name == k;
      }
      forall j | 0 <= j < |ms| ensures ms[j].name in Names(e) {
        assert e[j].0 == ms[j].name;
      }
    }
  }

  /** The same first-wins, key-set-equals-names property for the material table. */
  lemma MaterialTableFirstWins(ms: seq<Materials.SurfaceMaterial>, i: int)
    requires 0 <= i < |ms| && forall j :: 0 <= j < i ==> ms[j].name != ms[i].name
    ensures ms[i].name in InsertAllAbsent(map[], MaterialEntries(ms))
    ensures InsertAllAbsent(map[], MaterialEntries(ms))[ms[i].name] == Materials.Converted(ms[i])
    ensures InsertAllAbsent(map[], MaterialEntries(ms)).Keys == set j | 0 <= j < |ms| :: ms[j].name
  {
    var e := MaterialEntries(ms);
    InsertAllAbsentFirstWins(map[], e, i);
    InsertAllAbsentKeys(map[], e);
    assert Names(e) == set j | 0 <= j < |ms| :: ms[j].name by {
      forall k | k in Names(e) ensures k in set j | 0 <= j < |ms| :: ms[j].name {
        var j :| 0 <= j < |e| && e[j].0 == k;
        assert ms[j].name == k;
      }
      forall j | 0 <= j < |ms| ensures ms[j].name in Names(e) {
        assert e[j].0 == ms[j].name;
      }
    }
  }
}
