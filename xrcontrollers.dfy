/**
 * The shared controller library `src/libs/XRControllers.js`: `setupXR` builds the
 * highlight and both controllers and returns the `xrControllers` record; the
 * connected handler extracts the layouts, seeds the button cache from the right
 * layout and registers the listeners; the disconnect handler strips a controller.
 */
module XrLibrary {
  import opened Wrappers
  import opened JsObject
  import opened SceneGraph
  import opened Layout
  import opened ButtonCache
  import opened Controllers

  /** The fresh objects one controller is built from. */
  datatype ControllerIds = ControllerIds(node: Id, line: Id, grip: Id, model: Id)

  /**
   * `buildController`: the controller starts unpressed with its index, gets a clone
   * of the laser line as its only child and goes into the scene; with a model
   * factory its grip gets the controller model and goes into the scene too.
   */
  method BuildController(scene: Scene, root: Id, index: nat, node: Id, line: Option<Id>, grip: Option<(Id, Id)>)
    returns (c: Controller)
    requires scene.Valid() && New(scene.graph, node) && node != root
    requires line.Some? ==> New(scene.graph, line.value) && line.value !in {node, root}
    requires grip.Some? ==> New(scene.graph, grip.value.0) && New(scene.graph, grip.value.1)
    requires grip.Some? ==> grip.value.0 !in {node, root, grip.value.1} && grip.value.1 !in {node, root}
    requires grip.Some? && line.Some? ==> line.value !in {grip.value.0, grip.value.1}
    modifies scene`graph
    ensures fresh(c) && scene.Valid()
    ensures c.node == node && c.index == index && c.grip == (if grip.Some? then Some(grip.value.0) else None)
    ensures !c.selectPressed && c.selected.None? && c.squeezePressed.None? && c.attachedObject.None? && c.listeners == {}
    ensures node in scene.graph.parent && scene.graph.parent[node] == root
    ensures scene.graph.ChildrenOf(node) == if line.Some? then [line.value] else []
    ensures grip.Some? ==> && grip.value.0 in scene.graph.parent && scene.graph.parent[grip.value.0] == root
                           && scene.graph.ChildrenOf(grip.value.0) == [grip.value.1]
    ensures scene.graph.ChildrenOf(root) == old(scene.graph.ChildrenOf(root)) + [node] + (if grip.Some? then [grip.value.0] else [])
    ensures forall x :: New(old(scene.graph), x) && x != root && x != node && Other(x, line, grip) ==> New(scene.graph, x)
    ensures forall x :: x in old(scene.graph.parent) ==> x in scene.graph.parent && scene.graph.parent[x] == old(scene.graph.parent[x])
    ensures forall q :: q != root && q != node && (grip.Some? ==> q != grip.value.0) ==>
      scene.graph.ChildrenOf(q) == old(scene.graph.ChildrenOf(q))
  {
    c := new Controller(node, index, if grip.Some? then Some(grip.value.0) else None);
    if line.Some? {
      AddNewChild(scene.graph, node, line.value);
      AddChildKeepsNew(scene.graph, node, line.value);
      scene.Add(node, line.value);
    }
    AddNewChild(scene.graph, root, node);
    AddChildKeepsNew(scene.graph, root, node);
    scene.Add(root, node);
    if grip.Some? {
      var (g, model) := grip.value;
      AddNewChild(scene.graph, g, model);
      AddChildKeepsNew(scene.graph, g, model);
      scene.Add(g, model);
      AddNewChild(scene.graph, root, g);
      AddChildKeepsNew(scene.graph, root, g);
      scene.Add(root, g);
    }
  }

  /** `x` is none of the optional line and grip objects. */
  predicate Other(x: Id, line: Option<Id>, grip: Option<(Id, Id)>) {
    (line.Some? ==> x != line.value) && (grip.Some? ==> x != grip.value.0 && x != grip.value.1)
  }

  /** The `xrControllers` record `setupXR` returns and stores on the space. */
  class XrControllers {
    const scene: Scene
    /** `space.scene` */
    const root: Id
    const highlight: Id
    /** `controllers.right`, built from `getController(0)` */
    const right: Controller
    /** `controllers.left`, built from `getController(1)` */
    const left: Controller
    var gamepadIndices: Option<Components>
    var buttonStates: Option<States>
    /** The `volume` the registered squeeze-end handlers drop objects into. */
    var dropTarget: Option<Id>

    ghost predicate Valid()
      reads this, scene, right, left
    {
      && scene.Valid()
      && right != left && right.index == 0 && left.index == 1
      && right.node != left.node && right.node != root && left.node != root
      && (right.grip.Some? ==> right.grip.value != right.node)
      && (left.grip.Some? ==> left.grip.value != left.node)
      && (gamepadIndices.Some? ==> gamepadIndices.value.Valid())
      && (buttonStates.Some? ==> buttonStates.value.Valid() && Shaped(buttonStates.value))
      && (SqueezeEnd in right.listeners || SqueezeEnd in left.listeners ==> dropTarget.Some?)
    }

    /** The record literal: both objects start as `{}`, which is truthy. */
    constructor (scene: Scene, root: Id, highlight: Id, right: Controller, left: Controller)
      requires scene.Valid() && right != left && right.index == 0 && left.index == 1 && right.node != left.node
      requires right.node != root && left.node != root
      requires right.grip.Some? ==> right.grip.value != right.node
      requires left.grip.Some? ==> left.grip.value != left.node
      requires SqueezeEnd !in right.listeners && SqueezeEnd !in left.listeners
      ensures Valid()
      ensures this.scene == scene && this.root == root && this.highlight == highlight
      ensures this.right == right && this.left == left
      ensures gamepadIndices == Some(EmptyDict()) && buttonStates == Some(EmptyDict()) && dropTarget.None?
    {
      this.scene, this.root, this.highlight := scene, root, highlight;
      this.right, this.left := right, left;
      gamepadIndices, buttonStates, dropTarget := Some(EmptyDict()), Some(EmptyDict()), None;
    }

    /**
     * `createButtonStates(components, space)`: the components are stored as the
     * indices first; with no components `Object.keys` throws and the states stay
     * as they were, otherwise they are the fresh cache for the components' keys.
     */
    method CreateButtonStates(components: Option<Components>) returns (threw: bool)
      requires Valid() && (components.Some? ==> components.value.Valid())
      modifies this`gamepadIndices, this`buttonStates
      ensures Valid() && gamepadIndices == components
      ensures threw <==> components.None?
      ensures threw ==> buttonStates == old(buttonStates)
      ensures !threw ==> buttonStates == Some(InitialStates(components.value.keys))
    {
      gamepadIndices := components;
      if components.None? {
        return true;
      }
      var states := BuildInitialStates(components.value);
      buttonStates := Some(states);
      return false;
    }

    /**
     * `updateGamepadState(space)`: nothing happens unless the first input source has
     * a gamepad and both the indices and the states exist; then the cache is refreshed.
     */
    method UpdateGamepadState(sources: seq<InputSource>, round: real -> string)
      requires Valid()
      modifies this`buttonStates
      ensures Valid()
      ensures buttonStates == PolledStates(old(buttonStates), gamepadIndices, sources, round)
    {
      PolledStatesKeepShape(buttonStates, gamepadIndices, sources, round);
      if |sources| > 0 && sources[0].gamepad.Some? && gamepadIndices.Some? && buttonStates.Some? {
        var r := RefreshStates(buttonStates.value, gamepadIndices.value, sources[0].gamepad.value, round);
        buttonStates := Some(r.states);
      }
    }

    /**
     * `updateControllers(info, space, volume)`: each controller whose layout exists
     * gets the listeners its layout's keys call for, and dropped objects go to `volume`.
     */
    method UpdateControllers(info: Dict<Components>, volume: Id)
      requires Valid()
      modifies right`listeners, left`listeners, this`dropTarget
      ensures Valid() && dropTarget == Some(volume)
      ensures right.listeners == old(right.listeners) +
        if "right" in info.at
        then ListenersFor(SomeKeyContains(info.at["right"].keys, "trigger"), SomeKeyContains(info.at["right"].keys, "squeeze"))
        else {}
      ensures left.listeners == old(left.listeners) +
        if "left" in info.at
        then ListenersFor(SomeKeyContains(info.at["left"].keys, "trigger"), SomeKeyContains(info.at["left"].keys, "squeeze"))
        else {}
    {
      dropTarget := Some(volume);
      if "right" in info.at {
        RegisterForLayout(right, info.at["right"].keys);
      }
      if "left" in info.at {
        RegisterForLayout(left, info.at["left"].keys);
      }
    }

    /**
     * The body of the connected handler once the profile has arrived: extract the
     * layouts, seed the cache from the right layout and, unless that threw because
     * there is no right layout, register the listeners with drop target `volume`.
     */
    method Connect(layouts: Dict<seq<Component>>, volume: Id) returns (threw: bool)
      requires Valid() && layouts.Valid()
      modifies this`gamepadIndices, this`buttonStates, right`listeners, left`listeners, this`dropTarget
      ensures Valid()
      ensures threw <==> "right" !in layouts.at
      ensures gamepadIndices == if "right" in layouts.at then Some(ComponentsOf(layouts.at["right"])) else None
      ensures threw ==> && buttonStates == old(buttonStates) && dropTarget == old(dropTarget)
                        && right.listeners == old(right.listeners) && left.listeners == old(left.listeners)
      ensures !threw ==> && buttonStates == Some(InitialStates(ComponentsOf(layouts.at["right"]).keys))
                         && dropTarget == Some(volume)
                         && right.listeners == old(right.listeners) + LayoutListeners(layouts, "right")
                         && left.listeners == old(left.listeners) + LayoutListeners(layouts, "left")
    {
      var info := ExtractInfo(layouts);
      var seed := if "right" in info.at then Some(info.at["right"]) else None;
      if seed.Some? {
        ComponentsOfKeys(layouts.at["right"]);
      }
      threw := CreateButtonStates(seed);
      if !threw {
        UpdateControllers(info, volume);
      }
    }

    /** The connected handler as written: dropped objects go to `space.scene`, the scene root. */
    method OnConnected(layouts: Dict<seq<Component>>) returns (threw: bool)
      requires Valid() && layouts.Valid()
      modifies this`gamepadIndices, this`buttonStates, right`listeners, left`listeners, this`dropTarget
      ensures Valid()
      ensures threw <==> "right" !in layouts.at
      ensures gamepadIndices == if "right" in layouts.at then Some(ComponentsOf(layouts.at["right"])) else None
      ensures threw ==> && buttonStates == old(buttonStates) && dropTarget == old(dropTarget)
                        && right.listeners == old(right.listeners) && left.listeners == old(left.listeners)
      ensures !threw ==> && buttonStates == Some(InitialStates(ComponentsOf(layouts.at["right"]).keys))
                         && dropTarget == Some(root)
                         && right.listeners == old(right.listeners) + LayoutListeners(layouts, "right")
                         && left.listeners == old(left.listeners) + LayoutListeners(layouts, "left")
    {
      threw := Connect(layouts, root);
    }

    /** The connected handler with dropped objects going back into the interaction volume. */
    method OnConnectedToVolume(layouts: Dict<seq<Component>>, volume: Id) returns (threw: bool)
      requires Valid() && layouts.Valid()
      modifies this`gamepadIndices, this`buttonStates, right`listeners, left`listeners, this`dropTarget
      ensures Valid()
      ensures threw <==> "right" !in layouts.at
      ensures gamepadIndices == if "right" in layouts.at then Some(ComponentsOf(layouts.at["right"])) else None
      ensures threw ==> && buttonStates == old(buttonStates) && dropTarget == old(dropTarget)
                        && right.listeners == old(right.listeners) && left.listeners == old(left.listeners)
      ensures !threw ==> && buttonStates == Some(InitialStates(ComponentsOf(layouts.at["right"]).keys))
                         && dropTarget == Some(volume)
                         && right.listeners == old(right.listeners) + LayoutListeners(layouts, "right")
                         && left.listeners == old(left.listeners) + LayoutListeners(layouts, "left")
    {
      threw := Connect(layouts, volume);
    }

    /**
     * `onDisconnected` as written: index 0 picks `controllers.left`, so disconnecting
     * the right controller (index 0) strips the left one. The picked controller loses
     * all its children and its grip leaves the scene; the controller itself stays,
     * and the disconnected controller keeps its children.
     */
    method OnDisconnected(c: Controller)
      requires Valid() && c in {right, left}
      modifies scene`graph
      ensures Valid()
      ensures var gone := if c.index == 0 then left else right;
              && gone != c
              && Released(old(scene.graph), scene.graph, root, gone.node, gone.grip)
      ensures scene.graph.ChildrenOf(c.node) == old(scene.graph.ChildrenOf(c.node))
    {
      var obj := if c.index == 0 then left else right;
      Release(obj);
    }

    /** `onDisconnected` stripping the controller whose event it is (index 0 is `controllers.right`). */
    method OnDisconnectedOwn(c: Controller)
      requires Valid() && c in {right, left}
      modifies scene`graph
      ensures Valid()
      ensures Released(old(scene.graph), scene.graph, root, c.node, c.grip)
    {
      var obj := if c.index == 0 then right else left;
      Release(obj);
    }

    /**
     * A `squeezeend` event on a controller that registered for it: the attached
     * object, if any, is moved into the drop target the listeners were registered with.
     */
    method SqueezeEndEvent(c: Controller)
      requires Valid() && c in {right, left} && SqueezeEnd in c.listeners
      modifies scene`graph, c`squeezePressed, c`attachedObject
      ensures Valid() && dropTarget.Some?
      ensures c.squeezePressed == Some(false) && c.attachedObject.None?
      ensures old(c.attachedObject).None? ==> scene.graph == old(scene.graph)
      ensures old(c.attachedObject).Some? ==> scene.graph == AddChild(old(scene.graph), dropTarget.value, old(c.attachedObject).value)
    {
      c.OnSqueezeEnd(scene, dropTarget.value);
    }

    /** Strip the controller's children and take its grip out of the scene. */
    method Release(obj: Controller)
      requires Valid() && obj in {right, left}
      modifies scene`graph
      ensures Valid()
      ensures Released(old(scene.graph), scene.graph, root, obj.node, obj.grip)
    {
      ghost var g0 := scene.graph;
      StripChildren(scene, obj.node);
      ghost var g1 := scene.graph;
      if obj.grip.Some? {
        var grip := obj.grip.value;
        RemoveChildFacts(scene.graph, root, grip);
        scene.Remove(root, grip);
        if grip in g0.ChildrenOf(root) {
          DropGrip(g0, g1.parent, root, obj.node, grip);
        } else {
          NoGripToDrop(g0, root, obj.node, obj.grip);
        }
      } else {
        NoGripToDrop(g0, root, obj.node, obj.grip);
      }
      if obj.node in g0.parent && g0.parent[obj.node] == root {
        OnlyParentLists(g0, obj.node, obj.node);
      }
    }
  }

  /**
   * What releasing controller `node` does to the scene graph: its children list is
   * empty, the scene root has lost the grip and nothing else, every other list is
   * as it was, exactly the stripped children and the removed grip have lost their
   * parent, and a controller that was in the scene is still there.
   */
  ghost predicate Released(g0: Graph, g: Graph, root: Id, node: Id, grip: Option<Id>) {
    && g.ChildrenOf(node) == []
    && g.ChildrenOf(root) == (if grip.Some? then Without(g0.ChildrenOf(root), grip.value) else g0.ChildrenOf(root))
    && (forall q :: q != node && q != root ==> g.ChildrenOf(q) == g0.ChildrenOf(q))
    && g.parent == g0.parent - (set x | x in g0.ChildrenOf(node)) - (set x | x in g0.ChildrenOf(root) && Some(x) == grip)
    && (node in g0.parent && g0.parent[node] == root ==> node in g.parent && g.parent[node] == root)
  }

  /** Removing the grip from the parent map once the children are gone is removing the grip's part of the root's list. */
  lemma DropGrip(g0: Graph, p1: map<Id, Id>, root: Id, node: Id, grip: Id)
    requires grip in g0.ChildrenOf(root)
    requires p1 == g0.parent - (set x | x in g0.ChildrenOf(node))
    ensures p1 - {grip} == g0.parent - (set x | x in g0.ChildrenOf(node)) - (set x | x in g0.ChildrenOf(root) && Some(x) == Some(grip))
  {
    assert (set x | x in g0.ChildrenOf(root) && Some(x) == Some(grip)) == {grip};
  }

  /** Without a grip in the root's list, the grip removes nothing from the parent map. */
  lemma NoGripToDrop(g0: Graph, root: Id, node: Id, grip: Option<Id>)
    requires grip.None? || grip.value !in g0.ChildrenOf(root)
    ensures g0.parent - (set x | x in g0.ChildrenOf(node)) - (set x | x in g0.ChildrenOf(root) && Some(x) == grip)
         == g0.parent - (set x | x in g0.ChildrenOf(node))
  {
    assert (set x | x in g0.ChildrenOf(root) && Some(x) == grip) == {};
  }

  /**
   * `setupXR(space, button)` as written: with a button passed, `const button = button`
   * reads the new constant before it is initialised and throws, before anything
   * else is built.
   */
  method SetupXR(scene: Scene, root: Id, highlight: Id, r: ControllerIds, l: ControllerIds, button: bool)
    returns (xr: Option<XrControllers>)
    requires scene.Valid() && SetupFresh(scene.graph, root, highlight, r, l)
    modifies scene`graph
    ensures button ==> xr.None? && scene.graph == old(scene.graph)
    ensures !button ==> xr.Some? && fresh(xr.value) && xr.value.Valid() && xr.value.scene == scene && xr.value.root == root
    ensures !button ==> && xr.value.highlight == highlight && xr.value.right.node == r.node && xr.value.left.node == l.node
                        && xr.value.right.grip == Some(r.grip) && xr.value.left.grip == Some(l.grip)
    ensures !button ==> && Placed(scene.graph, root, r) && Placed(scene.graph, root, l)
                        && scene.graph.ChildrenOf(root) == old(scene.graph.ChildrenOf(root)) + [highlight, r.node, r.grip, l.node, l.grip]
    ensures !button ==> forall q :: q != root && q != r.node && q != r.grip && q != l.node && q != l.grip ==>
      scene.graph.ChildrenOf(q) == old(scene.graph.ChildrenOf(q))
  {
    if button {
      return None;
    }
    var built := SetupXRFixed(scene, root, highlight, r, l);
    return Some(built);
  }

  /**
   * `controllers.right = buildController(0, …)` then `controllers.left =
   * buildController(1, …)`: each controller goes under the root, then its grip, so
   * the root's list grows by the four in that order and no other list changes.
   */
  method BuildControllers(scene: Scene, root: Id, r: ControllerIds, l: ControllerIds)
    returns (right: Controller, left: Controller)
    requires scene.Valid() && Distinct(r) && Distinct(l) && Disjoint(r, l) && Apart(root, r) && Apart(root, l)
    requires AllNew(scene.graph, r) && AllNew(scene.graph, l)
    modifies scene`graph
    ensures scene.Valid() && fresh(right) && fresh(left)
    ensures right.index == 0 && right.node == r.node && right.grip == Some(r.grip)
    ensures left.index == 1 && left.node == l.node && left.grip == Some(l.grip)
    ensures !right.selectPressed && right.selected.None? && right.squeezePressed.None? && right.attachedObject.None?
    ensures !left.selectPressed && left.selected.None? && left.squeezePressed.None? && left.attachedObject.None?
    ensures right.listeners == {} && left.listeners == {}
    ensures Placed(scene.graph, root, r) && Placed(scene.graph, root, l)
    ensures scene.graph.ChildrenOf(root) == old(scene.graph.ChildrenOf(root)) + [r.node, r.grip, l.node, l.grip]
    ensures forall q :: q != root && q != r.node && q != r.grip && q != l.node && q != l.grip ==>
      scene.graph.ChildrenOf(q) == old(scene.graph.ChildrenOf(q))
    ensures forall x :: x in old(scene.graph.parent) ==> x in scene.graph.parent && scene.graph.parent[x] == old(scene.graph.parent[x])
  {
    right := BuildController(scene, root, 0, r.node, Some(r.line), Some((r.grip, r.model)));
    ghost var g2 := scene.graph;
    assert Placed(g2, root, r) && g2.ChildrenOf(root) == old(scene.graph.ChildrenOf(root)) + [r.node] + [r.grip];
    assert New(g2, l.node) && New(g2, l.line) && New(g2, l.grip) && New(g2, l.model);
    left := BuildController(scene, root, 1, l.node, Some(l.line), Some((l.grip, l.model)));
    assert scene.graph.ChildrenOf(r.node) == g2.ChildrenOf(r.node) && scene.graph.ChildrenOf(r.grip) == g2.ChildrenOf(r.grip);
    AppendFour(old(scene.graph.ChildrenOf(root)), r.node, r.grip, l.node, l.grip);
  }

  lemma AppendAfter(s: seq<Id>, h: Id, a: Id, b: Id, c: Id, d: Id)
    ensures s + [h] + [a, b, c, d] == s + [h, a, b, c, d]
  {
  }

  lemma AppendFour(s: seq<Id>, a: Id, b: Id, c: Id, d: Id)
    ensures s + [a] + [b] + [c] + [d] == s + [a, b, c, d]
  {
  }

  /** The objects `setupXR` creates are all new and distinct, and none is the scene root. */
  predicate SetupFresh(g: Graph, root: Id, highlight: Id, r: ControllerIds, l: ControllerIds) {
    && Distinct(r) && Distinct(l) && Disjoint(r, l)
    && root != highlight && Apart(root, r) && Apart(root, l) && Apart(highlight, r) && Apart(highlight, l)
    && New(g, highlight) && AllNew(g, r) && AllNew(g, l)
  }

  /** The four objects of one controller are different objects. */
  predicate Distinct(ids: ControllerIds) {
    && ids.node != ids.line && ids.node != ids.grip && ids.node != ids.model
    && ids.line != ids.grip && ids.line != ids.model && ids.grip != ids.model
  }

  /**
   * What `buildController` leaves in the scene for one controller: the controller
   * and its grip both sit under the scene root, the controller holding the laser
   * line and the grip holding the controller model.
   */
  predicate Placed(g: Graph, root: Id, ids: ControllerIds) {
    && ids.node in g.parent && g.parent[ids.node] == root && g.ChildrenOf(ids.node) == [ids.line]
    && ids.grip in g.parent && g.parent[ids.grip] == root && g.ChildrenOf(ids.grip) == [ids.model]
  }

  predicate Apart(x: Id, ids: ControllerIds) {
    x != ids.node && x != ids.line && x != ids.grip && x != ids.model
  }

  predicate Disjoint(a: ControllerIds, b: ControllerIds) {
    Apart(b.node, a) && Apart(b.line, a) && Apart(b.grip, a) && Apart(b.model, a)
  }

  predicate AllNew(g: Graph, ids: ControllerIds) {
    New(g, ids.node) && New(g, ids.line) && New(g, ids.grip) && New(g, ids.model)
  }

  /**
   * `setupXR` with the button used as given: the highlight goes into the scene, the
   * right controller is built from index 0 and the left from index 1, and the record
   * starts with empty indices and states.
   */
  method SetupXRFixed(scene: Scene, root: Id, highlight: Id, r: ControllerIds, l: ControllerIds)
    returns (xr: XrControllers)
    requires scene.Valid() && SetupFresh(scene.graph, root, highlight, r, l)
    modifies scene`graph
    ensures fresh(xr) && xr.Valid() && xr.scene == scene && xr.root == root && xr.highlight == highlight
    ensures fresh(xr.right) && fresh(xr.left)
    ensures xr.right.index == 0 && xr.right.node == r.node && xr.left.index == 1 && xr.left.node == l.node
    ensures xr.gamepadIndices == Some(EmptyDict()) && xr.buttonStates == Some(EmptyDict())
    ensures highlight in scene.graph.parent && scene.graph.parent[highlight] == root
    ensures xr.right.grip == Some(r.grip) && xr.left.grip == Some(l.grip)
    ensures Placed(scene.graph, root, r) && Placed(scene.graph, root, l)
    ensures scene.graph.ChildrenOf(root) == old(scene.graph.ChildrenOf(root)) + [highlight, r.node, r.grip, l.node, l.grip]
    ensures forall q :: q != root && q != r.node && q != r.grip && q != l.node && q != l.grip ==>
      scene.graph.ChildrenOf(q) == old(scene.graph.ChildrenOf(q))
    ensures forall x :: x in old(scene.graph.parent) ==> x in scene.graph.parent && scene.graph.parent[x] == old(scene.graph.parent[x])
  {
    AddNewChild(scene.graph, root, highlight);
    AddChildKeepsNew(scene.graph, root, highlight);
    scene.Add(root, highlight);
    ghost var g1 := scene.graph;
    var right, left := BuildControllers(scene, root, r, l);
    assert g1.ChildrenOf(root) == old(scene.graph.ChildrenOf(root)) + [highlight];
    AppendAfter(old(scene.graph.ChildrenOf(root)), highlight, r.node, r.grip, l.node, l.grip);
    xr := new XrControllers(scene, root, highlight, right, left);
  }
}
