/**
 * `src/entry-final.js`: the `ObjectSet` group builder and the `Space` that owns
 * the scene, the interaction volume and the render loop, which calls every mesh
 * behaviour and drives the shared controller library.
 */
module SpaceModel {
  import opened Wrappers
  import opened SceneGraph
  import opened ButtonCache
  import opened Timer
  import opened Controllers
  import XrLibrary

  /** A `THREE.Vector3`, whose `add` changes the vector it is called on. */
  class Vector3 {
    var x: real
    var y: real
    var z: real

    constructor (x: real, y: real, z: real)
      ensures Value() == Vec(x, y, z)
    {
      this.x, this.y, this.z := x, y, z;
    }

    function Value(): Vec
      reads this
    {
      Vec(x, y, z)
    }

    /** `v.add(w)`: `v` becomes the sum; `w` may be `v` itself. */
    method Add(w: Vector3)
      modifies this
      ensures Value() == Plus(old(Value()), old(w.Value()))
    {
      x, y, z := x + w.x, y + w.y, z + w.z;
    }
  }

  function Plus(a: Vec, b: Vec): Vec {
    Vec(a.x + b.x, a.y + b.y, a.z + b.z)
  }

  /** A group of objects placed relative to a common origin. */
  class ObjectSet {
    const origin: Vector3
    const group: Id

    /** The group starts at the scene origin. */
    constructor (scene: Scene, origin: Vector3, group: Id)
      modifies scene`position
      ensures this.origin == origin && this.group == group
      ensures scene.position == old(scene.position)[group := Vec(0.0, 0.0, 0.0)]
    {
      this.origin, this.group := origin, group;
      scene.position := scene.position[group := Vec(0.0, 0.0, 0.0)];
    }

    /**
     * `add(object, position)`: the given position vector itself is moved by the
     * origin, the object is placed there and goes last among the group's children;
     * three.js refuses to add the group to itself, which leaves the graph as it is.
     */
    method Add(scene: Scene, obj: Id, position: Vector3)
      requires scene.Valid()
      modifies position, scene`position, scene`graph
      ensures scene.Valid()
      ensures position.Value() == Plus(old(position.Value()), old(origin.Value()))
      ensures scene.position == old(scene.position)[obj := position.Value()]
      ensures scene.graph == AddChild(old(scene.graph), group, obj)
      ensures obj == group ==> scene.graph == old(scene.graph)
      ensures obj != group ==> scene.graph.ChildrenOf(group) == Without(old(scene.graph.ChildrenOf(group)), obj) + [obj]
      ensures obj != group ==> scene.graph.parent == old(scene.graph.parent)[obj := group]
    {
      position.Add(origin);
      scene.position := scene.position[obj := position.Value()];
      if obj != group {
        AddChildLinks(scene.graph, group, obj);
      }
      scene.Add(group, obj);
    }

    /** `set()`: the group the set was built with, the same object on every call. */
    method Set() returns (g: Id)
      ensures g == group
    {
      g := group;
    }
  }

  /** An object met by `scene.traverse`: whether it is a `Mesh` and whether it has a `behavior`. */
  datatype SceneObject = SceneObject(id: Id, isMesh: bool, hasBehavior: bool)

  predicate Runs(o: SceneObject) {
    o.isMesh && o.hasBehavior
  }

  /** The behaviours one traversal calls, in traversal order. */
  function BehaviorCalls(objs: seq<SceneObject>): seq<Id>
    decreases |objs|
  {
    if objs == [] then []
    else
      var last := objs[|objs| - 1];
      BehaviorCalls(objs[..|objs| - 1]) + if Runs(last) then [last.id] else []
  }

  /** Every object is met once by the traversal. */
  predicate DistinctIds(objs: seq<SceneObject>) {
    forall i, j :: 0 <= i < j < |objs| ==> objs[i].id != objs[j].id
  }

  /**
   * Each frame calls the behaviour of every mesh that has one exactly once, and
   * nothing else: a non-mesh with a behaviour and a mesh without one are skipped.
   */
  lemma {:induction false} BehaviorCallsOnce(objs: seq<SceneObject>)
    requires DistinctIds(objs)
    ensures forall i :: 0 <= i < |objs| ==> multiset(BehaviorCalls(objs))[objs[i].id] == if Runs(objs[i]) then 1 else 0
    ensures forall x :: x in BehaviorCalls(objs) ==> exists i :: 0 <= i < |objs| && objs[i].id == x && Runs(objs[i])
    decreases |objs|
  {
    if objs != [] {
      var init := objs[..|objs| - 1];
      var last := objs[|objs| - 1];
      BehaviorCallsOnce(init);
      forall i | 0 <= i < |objs|
        ensures multiset(BehaviorCalls(objs))[objs[i].id] == if Runs(objs[i]) then 1 else 0
      {
        if i < |objs| - 1 {
          assert objs[i] == init[i];
          assert objs[i].id != last.id;
        } else {
          forall j | 0 <= j < |init| ensures init[j].id != last.id {
            assert init[j] == objs[j];
          }
          assert last.id !in BehaviorCalls(init);
        }
      }
      forall x | x in BehaviorCalls(objs)
        ensures exists i :: 0 <= i < |objs| && objs[i].id == x && Runs(objs[i])
      {
        if x in BehaviorCalls(init) {
          var j :| 0 <= j < |init| && init[j].id == x && Runs(init[j]);
          assert objs[j] == init[j];
        } else {
          assert objs[|objs| - 1].id == x;
        }
      }
    }
  }

  /** The space: its scene, the controller library's record, the interaction volume and the timer. */
  class Space {
    const scene: Scene
    /** `this.scene` */
    const root: Id
    /** `this.xrControllers`, set by `setupXR(space)` */
    var xr: Option<XrLibrary.XrControllers>
    var interactionVolume: Option<Id>
    var elapsedTime: Option<real>
    /** The behaviours called so far, oldest first. */
    var behaviorLog: seq<Id>

    ghost predicate Valid()
      reads this, scene, if xr.Some? then {xr.value, xr.value.right, xr.value.left} else {}
    {
      && scene.Valid()
      && (xr.Some? ==> xr.value.scene == scene && xr.value.root == root && xr.value.Valid())
    }

    /** The constructor leaves the interaction volume undefined. */
    constructor (scene: Scene, root: Id)
      requires scene.Valid()
      ensures Valid() && this.scene == scene && this.root == root
      ensures xr.None? && interactionVolume.None? && elapsedTime.None? && behaviorLog == []
    {
      this.scene, this.root := scene, root;
      xr, interactionVolume, elapsedTime, behaviorLog := None, None, None, [];
    }

    /** `setupXR(space)` from `main`, with no button passed. */
    method SetupXR(highlight: Id, r: XrLibrary.ControllerIds, l: XrLibrary.ControllerIds)
      requires Valid() && XrLibrary.SetupFresh(scene.graph, root, highlight, r, l)
      modifies this`xr, scene`graph
      ensures Valid() && xr.Some? && fresh(xr.value)
      ensures xr.value.highlight == highlight && xr.value.right.node == r.node && xr.value.left.node == l.node
      ensures xr.value.right.grip == Some(r.grip) && xr.value.left.grip == Some(l.grip)
      ensures XrLibrary.Placed(scene.graph, root, r) && XrLibrary.Placed(scene.graph, root, l)
      ensures scene.graph.ChildrenOf(root) == old(scene.graph.ChildrenOf(root)) + [highlight, r.node, r.grip, l.node, l.grip]
    {
      xr := XrLibrary.SetupXR(scene, root, highlight, r, l, false);
    }

    /** `setInteractionVolume(v)`: record the volume and add it to the scene. */
    method SetInteractionVolume(v: Id)
      requires Valid()
      modifies this`interactionVolume, scene`graph
      ensures Valid() && interactionVolume == Some(v)
      ensures scene.graph == AddChild(old(scene.graph), root, v)
    {
      interactionVolume := Some(v);
      scene.Add(root, v);
    }

    /** `scene.traverse(...)` calling `behavior()` on every mesh that has one. */
    method TraverseBehaviors(objs: seq<SceneObject>)
      modifies this`behaviorLog
      ensures behaviorLog == old(behaviorLog) + BehaviorCalls(objs)
    {
      ghost var log0 := behaviorLog;
      for i := 0 to |objs|
        invariant behaviorLog == log0 + BehaviorCalls(objs[..i])
      {
        assert objs[..i + 1][..i] == objs[..i];
        if objs[i].isMesh && objs[i].hasBehavior {
          behaviorLog := behaviorLog + [objs[i].id];
        }
      }
      assert objs[..|objs|] == objs;
    }

    /** The `forEach` over `controllers`: `handleController` on the right, then the left one; a throw ends it. */
    method HandleControllers(hitsRight: seq<Hit>, hitsLeft: seq<Hit>) returns (threw: bool)
      requires Valid() && xr.Some?
      modifies scene`graph, scene`scaleZ, scene`visible, xr.value.right`selected, xr.value.left`selected
      ensures Valid()
      ensures var b := HandleBoth(View(old(scene.graph), old(scene.scaleZ), old(scene.visible)),
                                  Pad(xr.value.right.node, xr.value.right.selectPressed, old(xr.value.right.selected)),
                                  Pad(xr.value.left.node, xr.value.left.selectPressed, old(xr.value.left.selected)),
                                  xr.value.highlight, hitsRight, hitsLeft);
              && View(scene.graph, scene.scaleZ, scene.visible) == b.view
              && xr.value.right.selected == b.right && xr.value.left.selected == b.left && threw == b.threw
    {
      var x := xr.value;
      threw := x.right.HandleController(scene, x.highlight, hitsRight);
      if threw {
        return;
      }
      threw := x.left.HandleController(scene, x.highlight, hitsLeft);
    }

    /**
     * `render()`: call the behaviours; while presenting, handle both controllers
     * only if the volume is set (a throw ends the frame), then advance the timer,
     * which resets when due whether or not the refresh runs; the refresh needs the volume.
     */
    method Render(objs: seq<SceneObject>, presenting: bool, dt: real, hitsRight: seq<Hit>, hitsLeft: seq<Hit>,
                  sources: seq<InputSource>, round: real -> string) returns (threw: bool)
      requires Valid() && xr.Some?
      modifies this`behaviorLog, this`elapsedTime, scene`graph, scene`scaleZ, scene`visible
      modifies xr.value`buttonStates, xr.value.right`selected, xr.value.left`selected
      ensures Valid()
      ensures behaviorLog == old(behaviorLog) + BehaviorCalls(objs)
      ensures !presenting || interactionVolume.None? ==>
        && !threw && scene.graph == old(scene.graph) && scene.scaleZ == old(scene.scaleZ) && scene.visible == old(scene.visible)
        && xr.value.right.selected == old(xr.value.right.selected) && xr.value.left.selected == old(xr.value.left.selected)
      ensures !presenting ==> elapsedTime == old(elapsedTime) && xr.value.buttonStates == old(xr.value.buttonStates)
      ensures presenting && interactionVolume.Some? ==>
        var b := HandleBoth(View(old(scene.graph), old(scene.scaleZ), old(scene.visible)),
                            Pad(xr.value.right.node, xr.value.right.selectPressed, old(xr.value.right.selected)),
                            Pad(xr.value.left.node, xr.value.left.selectPressed, old(xr.value.left.selected)),
                            xr.value.highlight, hitsRight, hitsLeft);
        && View(scene.graph, scene.scaleZ, scene.visible) == b.view
        && xr.value.right.selected == b.right && xr.value.left.selected == b.left && threw == b.threw
      ensures threw ==> presenting && interactionVolume.Some? && elapsedTime == old(elapsedTime)
      ensures threw ==> xr.value.buttonStates == old(xr.value.buttonStates)
      ensures presenting && !threw ==> elapsedTime == Some(Advance(old(elapsedTime), dt).elapsed)
      ensures presenting && !threw ==> (xr.value.buttonStates ==
        if Advance(old(elapsedTime), dt).refresh && interactionVolume.Some?
        then PolledStates(old(xr.value.buttonStates), xr.value.gamepadIndices, sources, round)
        else old(xr.value.buttonStates))
    {
      TraverseBehaviors(objs);
      if !presenting {
        return false;
      }
      var x := xr.value;
      if interactionVolume.Some? {
        threw := HandleControllers(hitsRight, hitsLeft);
        if threw {
          return;
        }
      }
      var tick := Advance(elapsedTime, dt);
      if tick.refresh && interactionVolume.Some? {
        x.UpdateGamepadState(sources, round);
      }
      elapsedTime := Some(tick.elapsed);
      threw := false;
    }
  }

  /**
   * `main` builds the room set and then adds its group to the scene twice:
   * `scene.add(roomSet.set())` and again inside `setInteractionVolume`. The second
   * add moves nothing, so the group is listed once, last, under the scene root.
   */
  lemma VolumeAddedOnce(g: Graph, root: Id, group: Id)
    requires g.Valid() && root != group
    ensures AddChild(AddChild(g, root, group), root, group) == AddChild(g, root, group)
    ensures AddChild(g, root, group).ChildrenOf(root) == Without(g.ChildrenOf(root), group) + [group]
  {
    AttachTwice(g, root, group);
    AddChildLinks(g, root, group);
  }
}
