/**
 * Scenes and the scene stack of src/su_scene.c.
 *
 * A Scene is a heap object whose fields scene_init writes. The process-wide
 * SceneManager becomes an object holding the growable array of scene pointers
 * (its length is the C `capacity`) and the `count` of scenes on the stack.
 * Freeing a scene goes through SDL and the ECS library; the model only
 * records, in the ghost field Freed, which scenes were handed to scene_free.
 */
module Scenes {
  import opened SdlTypes
  import Cameras

  /** An EcsWorld handle. */
  datatype World = World(id: nat)

  /** An EcsSequentialSystem*. */
  datatype SystemRef = SystemRef(id: nat)

  /** A Scene struct, as left by su_malloc: its fields are written by Init. */
  class Scene {
    var update: SystemRef
    var draw: SystemRef
    var gui: SystemRef
    var camera: Cameras.Camera?
    var world: World
    var freeSystems: bool
    var freeCamera: bool
    var r: u8
    var g: u8
    var b: u8
    var a: u8

    /** The scene holds exactly these settings and the default background, opaque black. */
    predicate Holds(world: World, camera: Cameras.Camera?, update: SystemRef, draw: SystemRef, gui: SystemRef,
                    freeSystems: bool, freeCamera: bool)
      reads this
    {
      && this.world == world && this.camera == camera
      && this.update == update && this.draw == draw && this.gui == gui
      && this.freeSystems == freeSystems && this.freeCamera == freeCamera
      && r == 0 && g == 0 && b == 0 && a == 255
    }

    /** scene_init: copy every argument into the scene and make the background opaque black. */
    method Init(world: World, camera: Cameras.Camera?, update: SystemRef, draw: SystemRef, gui: SystemRef,
                freeSystems: bool, freeCamera: bool)
      modifies this
      ensures Holds(world, camera, update, draw, gui, freeSystems, freeCamera)
    {
      this.world := world;
      this.camera := camera;
      this.update := update;
      this.draw := draw;
      this.gui := gui;
      this.freeSystems := freeSystems;
      this.freeCamera := freeCamera;
      r := 0;
      g := 0;
      b := 0;
      a := 255;
    }
  }

  /** scene_create: NULL when su_malloc fails, otherwise a fresh scene set up by scene_init. */
  method CreateScene(world: World, camera: Cameras.Camera?, update: SystemRef, draw: SystemRef, gui: SystemRef,
                     freeSystems: bool, freeCamera: bool, allocOk: bool) returns (scene: Scene?)
    ensures allocOk <==> scene != null
    ensures scene != null ==> fresh(scene) && scene.Holds(world, camera, update, draw, gui, freeSystems, freeCamera)
  {
    if !allocOk {
      return null;
    }
    scene := new Scene;
    scene.Init(world, camera, update, draw, gui, freeSystems, freeCamera);
  }

  /** The order in which popping empties a stack: top first. */
  function PopOrder(s: seq<Scene?>): (r: seq<Scene?>)
    ensures |r| == |s|
    ensures forall i :: 0 <= i < |s| ==> r[i] == s[|s| - 1 - i]
  {
    if s == [] then [] else PopOrder(s[1..]) + [s[0]]
  }

  /** The scene stack: scenes[0 .. count) with the top at count - 1. */
  class SceneManager {
    var scenes: array<Scene?>
    var count: nat
    /** The scenes handed to scene_free, in order. */
    ghost var Freed: seq<Scene?>

    ghost predicate Valid()
      reads this
    {
      count <= scenes.Length
    }

    /** The stack, bottom first. */
    ghost function Stack(): seq<Scene?>
      reads this, scenes
      requires Valid()
    {
      scenes[..count]
    }

    /** The static initial value { NULL, 0, 0 }: no storage and an empty stack. */
    constructor ()
      ensures Valid() && Stack() == [] && Freed == [] && scenes.Length == 0
    {
      scenes := new Scene?[0];
      count := 0;
      Freed := [];
    }

    /**
     * ECS_ARRAY_RESIZE: make room for `size` entries, doubling the storage
     * until it is large enough and moving the entries over.
     */
    method Reserve(size: nat)
      requires Valid()
      modifies this
      ensures Valid() && Stack() == old(Stack()) && Freed == old(Freed)
      ensures size <= scenes.Length
      ensures scenes == old(scenes) || fresh(scenes)
    {
      if size <= scenes.Length {
        return;
      }
      var capacity := if scenes.Length == 0 then 1 else scenes.Length;
      while capacity < size
        invariant capacity > 0
        decreases size - capacity
      {
        capacity := capacity * 2;
      }
      var grown := new Scene?[capacity];
      forall i | 0 <= i < count {
        grown[i] := scenes[i];
      }
      scenes := grown;
    }

    /** scene_push: the scene goes on top and nothing below it changes. */
    method Push(scene: Scene?)
      requires Valid()
      modifies this, scenes
      ensures Valid() && Stack() == old(Stack()) + [scene] && Freed == old(Freed)
    {
      Reserve(count + 1);
      scenes[count] := scene;
      count := count + 1;
    }

    /**
     * scene_pop: remove and return the top scene, handing it to scene_free when
     * `freeScene` holds. There is no check for an empty stack in the source.
     */
    method Pop(freeScene: bool) returns (scene: Scene?)
      requires Valid() && count > 0
      modifies this
      ensures Valid() && scenes == old(scenes)
      ensures scene == old(Stack())[old(count) - 1] && Stack() == old(Stack())[..old(count) - 1]
      ensures Freed == old(Freed) + if freeScene then [scene] else []
    {
      count := count - 1;
      scene := scenes[count];
      if freeScene {
        Freed := Freed + [scene];
      }
    }

    /** scene_change: pop and free every scene, top first, then push `scene`. */
    method Change(scene: Scene?)
      requires Valid()
      modifies this, scenes
      ensures Valid() && Stack() == [scene]
      ensures Freed == old(Freed) + PopOrder(old(Stack()))
    {
      ghost var stack := Stack();
      while count > 0
        invariant Valid() && scenes == old(scenes)
        invariant count <= |stack| && Stack() == stack[..count]
        invariant Freed == old(Freed) + PopOrder(stack[count..])
      {
        ghost var c := count;
        var popped := Pop(true);
        assert stack[c - 1..] == [stack[c - 1]] + stack[c..];
      }
      assert stack[0..] == stack;
      Push(scene);
    }

    /** scene_current: NULL on an empty stack, otherwise the top; the stack is left alone. */
    method Current() returns (scene: Scene?)
      requires Valid()
      ensures Stack() == [] ==> scene == null
      ensures Stack() != [] ==> scene == Stack()[|Stack()| - 1]
    {
      if count == 0 {
        return null;
      }
      return scenes[count - 1];
    }
  }

  /** A push followed by scene_pop(false) returns the pushed scene and restores the stack. */
  method PushThenPop(m: SceneManager, scene: Scene?) returns (popped: Scene?)
    requires m.Valid()
    modifies m, m.scenes
    ensures popped == scene
    ensures m.Valid() && m.Stack() == old(m.Stack()) && m.Freed == old(m.Freed)
  {
    m.Push(scene);
    popped := m.Pop(false);
  }
}
