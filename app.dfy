/**
 * The `App` class of the two application copies, `src/entry.js` and
 * `src/lab/entry-latest-working.js`. They share the button cache, the status
 * panel, the controller handlers and the render loop; `copy` says which one
 * an `App` is where they differ (the layout the connected handler seeds the
 * cache from).
 */
module AppModel {
  import opened Wrappers
  import opened JsObject
  import opened SceneGraph
  import opened Layout
  import opened ButtonCache
  import opened StatusPanel
  import opened Timer
  import opened Controllers
  import XrLibrary

  datatype Copy = EntryJs | LatestWorking

  /** The layout key the connected handler passes to `createButtonStates`: `src/entry.js` misspells it. */
  function SeedKey(copy: Copy): (k: string)
    ensures copy == LatestWorking <==> k == "right"
  {
    match copy
    case EntryJs => "riht"
    case LatestWorking => "right"
  }

  class App {
    const copy: Copy
    const scene: Scene
    /** `this.scene` */
    const root: Id
    /** `this.room`, whose children the controllers pick from and drop into */
    const room: Id
    const highlight: Id
    /** `this.controllers.right.controller` */
    const right: Controller
    /** `this.controllers.left.controller` */
    const left: Controller
    var gamepadIndices: Option<Components>
    var buttonStates: Option<States>
    var panel: Panel
    var elapsedTime: Option<real>

    ghost predicate Valid()
      reads this, scene, right, left
    {
      && scene.Valid()
      && right != left && right.index == 0 && left.index == 1 && right.node != left.node
      && right.node != root && left.node != root
      && (gamepadIndices.Some? ==> gamepadIndices.value.Valid())
      && (buttonStates.Some? ==> buttonStates.value.Valid() && Shaped(buttonStates.value))
      && Consistent(panel)
    }

    /** The app once `setupXR` has built both controllers: no cache, no text pushed, no timer yet. */
    constructor (copy: Copy, scene: Scene, root: Id, room: Id, highlight: Id, right: Controller, left: Controller)
      requires scene.Valid() && right != left && right.index == 0 && left.index == 1 && right.node != left.node
      requires right.node != root && left.node != root
      ensures Valid()
      ensures this.copy == copy && this.scene == scene && this.root == root && this.room == room
      ensures this.highlight == highlight && this.right == right && this.left == left
      ensures gamepadIndices.None? && buttonStates.None? && panel == Panel(None, []) && elapsedTime.None?
    {
      this.copy, this.scene, this.root, this.room, this.highlight := copy, scene, root, room, highlight;
      this.right, this.left := right, left;
      gamepadIndices, buttonStates, panel, elapsedTime := None, None, Panel(None, []), None;
    }

    /**
     * `createButtonStates(components)`: the components become the indices first;
     * `Object.keys(undefined)` then throws, otherwise the cache is rebuilt.
     */
    method CreateButtonStates(components: Option<Components>) returns (threw: bool)
      requires Valid() && (components.Some? ==> components.value.Valid())
      modifies this`gamepadIndices, this`buttonStates
      ensures Valid() && gamepadIndices == components
      ensures threw <==> components.None?
      ensures threw ==> buttonStates == old(buttonStates)
      ensures !threw ==> buttonStates == Some(InitialStates(components.value.keys))
    {
      gamepadIndices := components;
      if components.None? {
        return true;
      }
      var states := BuildInitialStates(components.value);
      buttonStates := Some(states);
      return false;
    }

    /** `updateUI()`: push the serialised states when they differ from the last text pushed. */
    method UpdateUI()
      requires buttonStates.Some?
      modifies this`panel
      ensures panel == StatusPanel.UpdateUI(old(panel), buttonStates.value)
    {
      if panel.strStates.None? || buttonStates.value != panel.strStates.value {
        panel := Panel(Some(buttonStates.value), panel.shown + [buttonStates.value]);
      }
    }

    /**
     * `updateGamepadState()`: behind the guard, refresh the cache key by key,
     * calling `updateUI` after each key; a throw ends the loop and is caught.
     */
    method UpdateGamepadState(sources: seq<InputSource>, round: real -> string)
      requires Valid()
      modifies this`buttonStates, this`panel
      ensures Valid()
      ensures buttonStates == PolledStates(old(buttonStates), gamepadIndices, sources, round)
      ensures panel == PanelPolled(old(panel), old(buttonStates), gamepadIndices, sources, round)
    {
      PolledStatesKeepShape(buttonStates, gamepadIndices, sources, round);
      PanelPolledFacts(panel, buttonStates, gamepadIndices, sources, round);
      if |sources| > 0 && sources[0].gamepad.Some? && gamepadIndices.Some? && buttonStates.Some? {
        PollKeys(buttonStates.value, gamepadIndices.value, sources[0].gamepad.value, round);
      }
    }

    /** The `forEach` over the cache's entries inside the `try` of `updateGamepadState`. */
    method PollKeys(s0: States, L: Components, g: Gamepad, round: real -> string)
      requires s0.Valid() && buttonStates == Some(s0)
      modifies this`buttonStates, this`panel
      ensures buttonStates == Some(Refresh(s0, L, g, round).states)
      ensures panel == PanelAfter(old(panel), s0, L, g, round, s0.keys)
    {
      ghost var p0 := panel;
      var keys := s0.keys;
      var i := 0;
      while i < |keys|
        invariant 0 <= i <= |keys|
        invariant buttonStates.Some? && RefreshPrefix(s0, L, g, round, keys[..i]) == Done(buttonStates.value)
        invariant panel == PanelAfter(p0, s0, L, g, round, keys[..i])
      {
        var r := RefreshKey(buttonStates.value, L, g, round, keys[i]);
        PollStep(p0, s0, L, g, round, keys, i);
        buttonStates := Some(r.states);
        if r.Threw? {
          break;
        }
        UpdateUI();
        i := i + 1;
      }
      assert keys[..|keys|] == keys;
    }

    /**
     * The connected handler once the profile has arrived: extract the layouts,
     * seed the cache from the layout under `seedKey` and, unless that threw,
     * register both controllers' listeners.
     */
    method Connect(layouts: Dict<seq<Component>>, seedKey: string) returns (threw: bool)
      requires Valid() && layouts.Valid()
      modifies this`gamepadIndices, this`buttonStates, right`listeners, left`listeners
      ensures Valid()
      ensures threw <==> seedKey !in layouts.at
      ensures gamepadIndices == if seedKey in layouts.at then Some(ComponentsOf(layouts.at[seedKey])) else None
      ensures threw ==> && buttonStates == old(buttonStates)
                        && right.listeners == old(right.listeners) && left.listeners == old(left.listeners)
      ensures !threw ==> buttonStates == Some(InitialStates(ComponentsOf(layouts.at[seedKey]).keys))
      ensures !threw ==> && right.listeners == old(right.listeners) + LayoutListeners(layouts, "right")
                         && left.listeners == old(left.listeners) + LayoutListeners(layouts, "left")
    {
      var info := ExtractInfo(layouts);
      var seed := if seedKey in info.at then Some(info.at[seedKey]) else None;
      if seed.Some? {
        ComponentsOfKeys(layouts.at[seedKey]);
      }
      threw := CreateButtonStates(seed);
      if !threw {
        if "right" in info.at {
          RegisterForLayout(right, info.at["right"].keys);
        }
        if "left" in info.at {
          RegisterForLayout(left, info.at["left"].keys);
        }
      }
    }

    /**
     * The connected handler as written: `src/entry.js` seeds from `info.riht`, which no
     * profile has, so the handler always throws there and registers no listener.
     */
    method OnConnected(layouts: Dict<seq<Component>>) returns (threw: bool)
      requires Valid() && layouts.Valid()
      modifies this`gamepadIndices, this`buttonStates, right`listeners, left`listeners
      ensures Valid()
      ensures threw <==> SeedKey(copy) !in layouts.at
      ensures copy == EntryJs && "riht" !in layouts.at ==>
        && threw && gamepadIndices.None? && buttonStates == old(buttonStates)
        && right.listeners == old(right.listeners) && left.listeners == old(left.listeners)
      ensures copy == LatestWorking && "right" in layouts.at ==>
        !threw && buttonStates == Some(InitialStates(ComponentsOf(layouts.at["right"]).keys))
    {
      threw := Connect(layouts, SeedKey(copy));
    }

    /** The connected handler seeding from the right layout, as the latest copy does. */
    method OnConnectedFixed(layouts: Dict<seq<Component>>) returns (threw: bool)
      requires Valid() && layouts.Valid()
      modifies this`gamepadIndices, this`buttonStates, right`listeners, left`listeners
      ensures Valid()
      ensures threw <==> "right" !in layouts.at
      ensures !threw ==> && gamepadIndices == Some(ComponentsOf(layouts.at["right"]))
                         && buttonStates == Some(InitialStates(ComponentsOf(layouts.at["right"]).keys))
                         && right.listeners == old(right.listeners) + LayoutListeners(layouts, "right")
                         && left.listeners == old(left.listeners) + LayoutListeners(layouts, "left")
    {
      threw := Connect(layouts, "right");
    }

    /** A `squeezeend` event: the attached object, if any, goes back into the room. */
    method SqueezeEndEvent(c: Controller)
      requires Valid() && c in {right, left}
      modifies scene`graph, c`squeezePressed, c`attachedObject
      ensures Valid()
      ensures c.squeezePressed == Some(false) && c.attachedObject.None?
      ensures old(c.attachedObject).None? ==> scene.graph == old(scene.graph)
      ensures old(c.attachedObject).Some? ==> scene.graph == AddChild(old(scene.graph), room, old(c.attachedObject).value)
    {
      c.OnSqueezeEnd(scene, room);
    }

    /**
     * `onDisconnected`: index 0 picks `controllers.right`, the controller whose event
     * it is. It loses all its children, then it and its grip leave the scene root,
     * which keeps its other children in order; no other list changes, and exactly
     * the stripped children and the removed objects lose their parent.
     */
    method OnDisconnected(c: Controller)
      requires Valid() && c in {right, left}
      modifies scene`graph
      ensures Valid()
      ensures (if c.index == 0 then right else left) == c
      ensures scene.graph.ChildrenOf(c.node) == []
      ensures scene.graph.ChildrenOf(root) == (var w := Without(old(scene.graph.ChildrenOf(root)), c.node);
                                               if c.grip.Some? then Without(w, c.grip.value) else w)
      ensures forall q :: q != c.node && q != root ==> scene.graph.ChildrenOf(q) == old(scene.graph.ChildrenOf(q))
      ensures scene.graph.parent == old(scene.graph.parent) - (set x | x in old(scene.graph.ChildrenOf(c.node)))
                                    - (set x | x in old(scene.graph.ChildrenOf(root)) && (x == c.node || Some(x) == c.grip))
    {
      ghost var g0 := scene.graph;
      var obj := if c.index == 0 then right else left;
      StripChildren(scene, obj.node);
      RemoveChildFacts(scene.graph, root, obj.node);
      scene.Remove(root, obj.node);
      ghost var g2 := scene.graph;
      if obj.grip.Some? {
        RemoveChildFacts(scene.graph, root, obj.grip.value);
        scene.Remove(root, obj.grip.value);
      }
      RemovedFromRoot(g0.parent, g0.ChildrenOf(obj.node), g0.ChildrenOf(root), g2.parent, scene.graph.parent, obj.node, obj.grip);
    }

    /**
     * `render()` while presenting (the stats update otherwise): handle the right and
     * then the left controller (a throw ends the frame), then advance the timer and
     * refresh the cache when more than 0.3 s has built up.
     */
    method Render(presenting: bool, dt: real, hitsRight: seq<Hit>, hitsLeft: seq<Hit>,
                  sources: seq<InputSource>, round: real -> string) returns (threw: bool)
      requires Valid()
      modifies scene`graph, scene`scaleZ, scene`visible, right`selected, left`selected
      modifies this`elapsedTime, this`buttonStates, this`panel
      ensures Valid()
      ensures !presenting ==> && !threw && scene.graph == old(scene.graph) && elapsedTime == old(elapsedTime)
                              && buttonStates == old(buttonStates) && panel == old(panel)
                              && scene.scaleZ == old(scene.scaleZ) && scene.visible == old(scene.visible)
                              && right.selected == old(right.selected) && left.selected == old(left.selected)
      ensures presenting ==>
        var b := HandleBoth(View(old(scene.graph), old(scene.scaleZ), old(scene.visible)),
                            Pad(right.node, right.selectPressed, old(right.selected)),
                            Pad(left.node, left.selectPressed, old(left.selected)), highlight, hitsRight, hitsLeft);
        && View(scene.graph, scene.scaleZ, scene.visible) == b.view
        && right.selected == b.right && left.selected == b.left && threw == b.threw
      ensures presenting && right.selectPressed && old(scene.graph.ChildrenOf(right.node)) == [] ==> threw
      ensures presenting && !right.selectPressed && !left.selectPressed ==> !threw
      ensures threw ==> elapsedTime == old(elapsedTime) && buttonStates == old(buttonStates) && panel == old(panel)
      ensures presenting && !threw ==> elapsedTime == Some(Advance(old(elapsedTime), dt).elapsed)
      ensures presenting && !threw ==> (buttonStates ==
        if Advance(old(elapsedTime), dt).refresh then PolledStates(old(buttonStates), gamepadIndices, sources, round)
        else old(buttonStates))
      ensures presenting && !threw ==> (panel ==
        if Advance(old(elapsedTime), dt).refresh then PanelPolled(old(panel), old(buttonStates), gamepadIndices, sources, round)
        else old(panel))
    {
      if !presenting {
        return false;
      }
      threw := right.HandleController(scene, highlight, hitsRight);
      if threw {
        return;
      }
      threw := left.HandleController(scene, highlight, hitsLeft);
      if threw {
        return;
      }
      var tick := Advance(elapsedTime, dt);
      elapsedTime := Some(tick.elapsed);
      if tick.refresh {
        UpdateGamepadState(sources, round);
      }
    }
  }

  /**
   * `setupXR()` of the application copies: both controllers are built from the
   * shared `buildController`, right from index 0 and left from index 1.
   */
  method SetupXR(copy: Copy, scene: Scene, root: Id, room: Id, highlight: Id, r: XrLibrary.ControllerIds, l: XrLibrary.ControllerIds)
    returns (app: App)
    requires scene.Valid()
    requires XrLibrary.Distinct(r) && XrLibrary.Distinct(l) && XrLibrary.Disjoint(r, l)
    requires XrLibrary.Apart(root, r) && XrLibrary.Apart(root, l)
    requires XrLibrary.AllNew(scene.graph, r) && XrLibrary.AllNew(scene.graph, l)
    modifies scene`graph
    ensures fresh(app) && fresh(app.right) && fresh(app.left) && app.Valid()
    ensures app.copy == copy && app.root == root && app.room == room && app.highlight == highlight
    ensures app.right.index == 0 && app.right.node == r.node && app.left.index == 1 && app.left.node == l.node
    ensures app.right.listeners == {} && app.left.listeners == {}
    ensures app.right.grip == Some(r.grip) && app.left.grip == Some(l.grip)
    ensures XrLibrary.Placed(scene.graph, root, r) && XrLibrary.Placed(scene.graph, root, l)
    ensures scene.graph.ChildrenOf(root) == old(scene.graph.ChildrenOf(root)) + [r.node, r.grip, l.node, l.grip]
    ensures forall q :: q != root && q != r.node && q != r.grip && q != l.node && q != l.grip ==>
      scene.graph.ChildrenOf(q) == old(scene.graph.ChildrenOf(q))
    ensures forall x :: x in old(scene.graph.parent) ==> x in scene.graph.parent && scene.graph.parent[x] == old(scene.graph.parent[x])
  {
    var right, left := XrLibrary.BuildControllers(scene, root, r, l);
    app := new App(copy, scene, root, room, highlight, right, left);
  }

  /**
   * The parent map after the strip and the two removals from the root: the root's
   * list loses the controller and its grip, and just those of them that were
   * listed lose their parent.
   */
  lemma RemovedFromRoot(m: map<Id, Id>, kids: seq<Id>, listed: seq<Id>, m2: map<Id, Id>, m3: map<Id, Id>,
                        node: Id, grip: Option<Id>)
    requires m2 == (if node in listed then m - (set x | x in kids) - {node} else m - (set x | x in kids))
    requires grip.None? ==> m3 == m2
    requires grip.Some? ==> m3 == (if grip.value in Without(listed, node) then m2 - {grip.value} else m2)
    ensures m3 == m - (set x | x in kids) - (set x | x in listed && (x == node || Some(x) == grip))
  {
    GoneFromRoot(listed, node, grip);
    var k := set x | x in kids;
    var n: set<Id> := if node in listed then {node} else {};
    if grip.Some? && grip.value in Without(listed, node) {
      DropTwice(m, k, n, {grip.value});
    } else {
      DropTwice(m, k, n, {});
    }
  }

  /** The objects of the root's list that the two removals take out: the controller, then its grip if still listed. */
  lemma GoneFromRoot(s: seq<Id>, node: Id, grip: Option<Id>)
    ensures (set x | x in s && (x == node || Some(x) == grip))
         == (if node in s then {node} else {}) + (if grip.Some? && grip.value in Without(s, node) then {grip.value} else {})
  {
  }

  /** Dropping the keys of `b`, then those of `c`, drops the keys of `b + c`. */
  lemma DropTwice(m: map<Id, Id>, a: set<Id>, b: set<Id>, c: set<Id>)
    ensures m - a - b - c == m - a - (b + c)
  {
  }

  /**
   * One turn of the refresh loop after a prefix that completed: either the key
   * completes and `updateUI` runs, or the throw decides the whole loop's outcome.
   */
  lemma PollStep(p0: Panel, s0: States, L: Components, g: Gamepad, round: real -> string, keys: seq<string>, i: nat)
    requires forall k :: k in keys ==> k in s0.at
    requires i < |keys| && RefreshPrefix(s0, L, g, round, keys[..i]).Done?
    ensures var r := RefreshKey(RefreshPrefix(s0, L, g, round, keys[..i]).states, L, g, round, keys[i]);
      && (r.Done? ==> && RefreshPrefix(s0, L, g, round, keys[..i + 1]) == r
                      && PanelAfter(p0, s0, L, g, round, keys[..i + 1]) == UpdateUI(PanelAfter(p0, s0, L, g, round, keys[..i]), r.states))
      && (r.Threw? ==> && RefreshPrefix(s0, L, g, round, keys) == r
                       && PanelAfter(p0, s0, L, g, round, keys) == PanelAfter(p0, s0, L, g, round, keys[..i]))
  {
    RefreshPrefixNext(s0, L, g, round, keys, i);
    PanelAfterNext(p0, s0, L, g, round, keys, i);
    var r := RefreshKey(RefreshPrefix(s0, L, g, round, keys[..i]).states, L, g, round, keys[i]);
    if r.Threw? {
      ThrewSticks(s0, L, g, round, keys, i + 1);
      PanelAfterSticks(p0, s0, L, g, round, keys, i + 1);
    }
  }
}
