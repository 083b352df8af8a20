/**
 * One XR controller's interaction state (`controller.userData`) and the event
 * handlers every copy of the controller layer registers on it: select starts
 * and ends the laser pick, squeeze attaches the picked object to the controller
 * and drops it again, and each frame the pressed laser picks the nearest hit.
 */
module Controllers {
  import opened Wrappers
  import opened JsObject
  import opened SceneGraph
  import opened Layout

  /** The controller events the layer listens to. */
  datatype XrEvent = SelectStart | SelectEnd | SqueezeStart | SqueezeEnd | Disconnected

  /** One raycast intersection: the object hit and its distance along the ray. */
  datatype Hit = Hit(target: Id, distance: real)

  /**
   * The listeners registered for a layout: select only if some key contains
   * "trigger", squeeze only if some key contains "squeeze", disconnect always.
   */
  function ListenersFor(trigger: bool, squeeze: bool): set<XrEvent> {
    (if trigger then {SelectStart, SelectEnd} else {})
    + (if squeeze then {SqueezeStart, SqueezeEnd} else {})
    + {Disconnected}
  }

  /** The listeners the layout under `side` calls for, none when the profile has no such layout. */
  function LayoutListeners(layouts: Dict<seq<Component>>, side: string): set<XrEvent> {
    if side in layouts.at
    then ListenersFor(SomeKeyContains(ComponentsOf(layouts.at[side]).keys, "trigger"),
                      SomeKeyContains(ComponentsOf(layouts.at[side]).keys, "squeeze"))
    else {}
  }

  /** The part of the scene a frame's controller handling writes: the graph, `scale.z` and `visible`. */
  datatype View = View(graph: Graph, scaleZ: map<Id, real>, visible: map<Id, bool>)

  /** What `handleController` reads of one controller: its object, `selectPressed` and `selected`. */
  datatype Pad = Pad(node: Id, pressed: bool, selected: Option<Id>)

  /** The outcome of `handleController`: the scene part, the new `selected`, and whether it threw. */
  datatype Handled = Handled(view: View, selected: Option<Id>, threw: bool)

  /**
   * `handleController` on values. While select is down the laser (the first child)
   * goes to length 10; on a hit the highlight moves under the nearest object and
   * shows, and the laser, then the first child again, is cut to the hit's
   * distance and the object is selected; on a miss the highlight hides. Reading
   * the first child of a controller without children throws.
   */
  function Handle(v: View, pad: Pad, highlight: Id, hits: seq<Hit>): Handled {
    if !pad.pressed then Handled(v, pad.selected, false)
    else if v.graph.ChildrenOf(pad.node) == [] then Handled(v, pad.selected, true)
    else
      var z := v.scaleZ[v.graph.ChildrenOf(pad.node)[0] := 10.0];
      if hits == [] then Handled(View(v.graph, z, v.visible[highlight := false]), pad.selected, false)
      else
        var g := AddChild(v.graph, hits[0].target, highlight);
        var shown := v.visible[highlight := true];
        if g.ChildrenOf(pad.node) == [] then Handled(View(g, z, shown), pad.selected, true)
        else Handled(View(g, z[g.ChildrenOf(pad.node)[0] := hits[0].distance], shown), Some(hits[0].target), false)
  }

  /**
   * One controller per frame: nothing happens unless select is down; a throw
   * happens exactly when the laser is missing; a hit selects its object and
   * puts the visible highlight under it, a miss hides the highlight and keeps
   * the selection; the laser ends at the hit or at length 10.
   */
  lemma HandleFacts(v: View, pad: Pad, highlight: Id, hits: seq<Hit>)
    requires v.graph.Valid()
    ensures var r := Handle(v, pad, highlight, hits);
      && r.view.graph.Valid()
      && (!pad.pressed ==> r == Handled(v, pad.selected, false))
      && (pad.pressed ==> (r.threw <==> || v.graph.ChildrenOf(pad.node) == []
                                         || (hits != [] && AddChild(v.graph, hits[0].target, highlight).ChildrenOf(pad.node) == [])))
      && (r.threw ==> r.selected == pad.selected && r.view.graph.ChildrenOf(pad.node) == [])
      && (hits == [] ==> r.selected == pad.selected && r.view.graph == v.graph)
      && (pad.pressed && v.graph.ChildrenOf(pad.node) != [] && hits == [] ==>
            r.view.visible == v.visible[highlight := false])
      && (pad.pressed && v.graph.ChildrenOf(pad.node) != [] && hits != [] ==>
            && r.view.graph == AddChild(v.graph, hits[0].target, highlight)
            && r.view.visible == v.visible[highlight := true])
      && (pad.pressed && !r.threw ==>
            && r.view.graph.ChildrenOf(pad.node) != []
            && r.view.scaleZ[r.view.graph.ChildrenOf(pad.node)[0]] == (if hits == [] then 10.0 else hits[0].distance)
            && r.selected == (if hits == [] then pad.selected else Some(hits[0].target)))
  {
    if pad.pressed && v.graph.ChildrenOf(pad.node) != [] && hits != [] {
      AddChildFacts(v.graph, hits[0].target, highlight);
    }
  }

  /** The outcome of handling both controllers: the scene part, both `selected` values, and whether one threw. */
  datatype Both = Both(view: View, right: Option<Id>, left: Option<Id>, threw: bool)

  /** A presenting frame handles the right controller, then the left; a throw from the right ends the frame. */
  function HandleBoth(v: View, right: Pad, left: Pad, highlight: Id, hitsRight: seq<Hit>, hitsLeft: seq<Hit>): Both {
    var r := Handle(v, right, highlight, hitsRight);
    if r.threw then Both(r.view, r.selected, left.selected, true)
    else
      var l := Handle(r.view, left, highlight, hitsLeft);
      Both(l.view, r.selected, l.selected, l.threw)
  }

  /**
   * A frame with both controllers: nothing changes when neither has select down;
   * each controller selects its own hit; and because the left one goes second,
   * the highlight ends where the left controller points when both are pressed.
   */
  lemma HandleBothFacts(v: View, right: Pad, left: Pad, highlight: Id, hitsRight: seq<Hit>, hitsLeft: seq<Hit>)
    requires v.graph.Valid()
    ensures var b := HandleBoth(v, right, left, highlight, hitsRight, hitsLeft);
      && b.view.graph.Valid()
      && (!right.pressed && !left.pressed ==> b == Both(v, right.selected, left.selected, false))
      && (!right.pressed || hitsRight == [] ==> b.right == right.selected)
      && (!left.pressed || hitsLeft == [] ==> b.left == left.selected)
      && (!b.threw && right.pressed && hitsRight != [] ==> b.right == Some(hitsRight[0].target))
      && (!b.threw && left.pressed && hitsLeft != [] ==> b.left == Some(hitsLeft[0].target))
      && (!b.threw && left.pressed && hitsLeft != [] && hitsLeft[0].target != highlight ==>
            && highlight in b.view.graph.parent && b.view.graph.parent[highlight] == hitsLeft[0].target
            && highlight in b.view.visible && b.view.visible[highlight])
      && (!b.threw && left.pressed && hitsLeft == [] ==> highlight in b.view.visible && !b.view.visible[highlight])
  {
    HandleFacts(v, right, highlight, hitsRight);
    var r := Handle(v, right, highlight, hitsRight);
    if !r.threw {
      HandleFacts(r.view, left, highlight, hitsLeft);
      if left.pressed && hitsLeft != [] && hitsLeft[0].target != highlight && r.view.graph.ChildrenOf(left.node) != [] {
        AddChildFacts(r.view.graph, hitsLeft[0].target, highlight);
      }
    }
  }

  /** A controller as `getController(index)` returns it, with its `userData`. */
  class Controller {
    /** The target-ray space object in the scene graph. */
    const node: Id
    /** `userData.index` */
    const index: nat
    /** `getControllerGrip(index)`, when a model factory was given. */
    const grip: Option<Id>
    var selectPressed: bool
    var selected: Option<Id>
    /** Undefined until the first squeeze event. */
    var squeezePressed: Option<bool>
    var attachedObject: Option<Id>
    var listeners: set<XrEvent>

    /** `buildController`'s `userData` set-up: not pressed, nothing selected or attached. */
    constructor (node: Id, index: nat, grip: Option<Id>)
      ensures this.node == node && this.index == index && this.grip == grip
      ensures !selectPressed && selected.None? && squeezePressed.None? && attachedObject.None?
      ensures listeners == {}
    {
      this.node, this.index, this.grip := node, index, grip;
      selectPressed, selected, squeezePressed, attachedObject := false, None, None, None;
      listeners := {};
    }

    /** `addEventListener` for the events a layout calls for. */
    method Register(trigger: bool, squeeze: bool)
      modifies this`listeners
      ensures listeners == old(listeners) + ListenersFor(trigger, squeeze)
    {
      if trigger {
        listeners := listeners + {SelectStart, SelectEnd};
      }
      if squeeze {
        listeners := listeners + {SqueezeStart, SqueezeEnd};
      }
      listeners := listeners + {Disconnected};
    }

    /** `onSelectStart`: the select button is down. */
    method OnSelectStart()
      modifies this`selectPressed
      ensures selectPressed
    {
      selectPressed := true;
    }

    /**
     * `onSelectEnd`: the laser (the first child) goes to length 0, the button is up
     * and nothing is selected. Without any child the first write throws and
     * nothing changes.
     */
    method OnSelectEnd(scene: Scene) returns (threw: bool)
      modifies scene`scaleZ, this`selectPressed, this`selected
      ensures threw <==> scene.graph.ChildrenOf(node) == []
      ensures threw ==> scene.scaleZ == old(scene.scaleZ) && selectPressed == old(selectPressed) && selected == old(selected)
      ensures !threw ==> scene.scaleZ == old(scene.scaleZ)[scene.graph.ChildrenOf(node)[0] := 0.0]
      ensures !threw ==> !selectPressed && selected.None?
    {
      var children := scene.graph.ChildrenOf(node);
      if children == [] {
        return true;
      }
      scene.scaleZ := scene.scaleZ[children[0] := 0.0];
      selectPressed := false;
      selected := None;
      return false;
    }

    /**
     * `onSqueezeStart`: the squeeze button is down and a selected object, if any,
     * is attached to the controller and recorded as attached.
     */
    method OnSqueezeStart(scene: Scene)
      requires scene.Valid()
      modifies scene`graph, this`squeezePressed, this`attachedObject
      ensures scene.Valid() && squeezePressed == Some(true)
      ensures selected.None? ==> scene.graph == old(scene.graph) && attachedObject == old(attachedObject)
      ensures selected.Some? ==> scene.graph == AddChild(old(scene.graph), node, selected.value)
      ensures selected.Some? ==> attachedObject == selected
    {
      squeezePressed := Some(true);
      if selected.Some? {
        scene.Add(node, selected.value);
        attachedObject := selected;
      }
    }

    /**
     * `onSqueezeEnd`: the squeeze button is up and an attached object, if any, is
     * attached to `target` instead and is no longer recorded as attached.
     */
    method OnSqueezeEnd(scene: Scene, target: Id)
      requires scene.Valid()
      modifies scene`graph, this`squeezePressed, this`attachedObject
      ensures scene.Valid() && squeezePressed == Some(false) && attachedObject.None?
      ensures old(attachedObject).None? ==> scene.graph == old(scene.graph)
      ensures old(attachedObject).Some? ==> scene.graph == AddChild(old(scene.graph), target, old(attachedObject).value)
    {
      squeezePressed := Some(false);
      if attachedObject.Some? {
        scene.Add(target, attachedObject.value);
        attachedObject := None;
      }
    }

    /**
     * `handleController`, once per frame. Only while select is down: the laser goes
     * to length 10; on a hit the highlight moves under the nearest object and shows,
     * the laser is cut to the hit's distance and that object is selected; on a miss
     * the highlight only hides. A controller without children throws at the first write.
     */
    method HandleController(scene: Scene, highlight: Id, hits: seq<Hit>) returns (threw: bool)
      requires scene.Valid()
      modifies scene`graph, scene`scaleZ, scene`visible, this`selected
      ensures scene.Valid()
      ensures Handled(View(scene.graph, scene.scaleZ, scene.visible), selected, threw)
           == Handle(View(old(scene.graph), old(scene.scaleZ), old(scene.visible)), Pad(node, selectPressed, old(selected)), highlight, hits)
    {
      if !selectPressed {
        return false;
      }
      var children := scene.graph.ChildrenOf(node);
      if children == [] {
        return true;
      }
      scene.scaleZ := scene.scaleZ[children[0] := 10.0];
      if |hits| > 0 {
        scene.Add(hits[0].target, highlight);
        scene.visible := scene.visible[highlight := true];
        var now := scene.graph.ChildrenOf(node);
        if now == [] {
          return true;
        }
        scene.scaleZ := scene.scaleZ[now[0] := hits[0].distance];
        selected := Some(hits[0].target);
      } else {
        scene.visible := scene.visible[highlight := false];
      }
      return false;
    }
  }

  /** The key scan and the registration of one controller's listeners for a layout. */
  method RegisterForLayout(c: Controller, keys: seq<string>)
    modifies c`listeners
    ensures c.listeners == old(c.listeners) + ListenersFor(SomeKeyContains(keys, "trigger"), SomeKeyContains(keys, "squeeze"))
  {
    var trigger, squeeze := ScanLayoutKeys(keys);
    c.Register(trigger, squeeze);
  }

  /**
   * `while (controller.children.length > 0) controller.remove(controller.children[0])`:
   * every child leaves the controller, in order, and is left without a parent;
   * nothing else moves.
   */
  method StripChildren(scene: Scene, c: Id)
    requires scene.Valid()
    modifies scene`graph
    ensures scene.Valid()
    ensures scene.graph.ChildrenOf(c) == []
    ensures scene.graph.parent == old(scene.graph.parent) - set x | x in old(scene.graph.ChildrenOf(c))
    ensures forall q :: q != c ==> scene.graph.ChildrenOf(q) == old(scene.graph.ChildrenOf(q))
  {
    ghost var g0 := scene.graph;
    ghost var kids := g0.ChildrenOf(c);
    ghost var k := 0;
    while scene.graph.ChildrenOf(c) != []
      invariant scene.Valid()
      invariant 0 <= k <= |kids|
      invariant scene.graph.ChildrenOf(c) == kids[k..]
      invariant scene.graph.parent == Drop(g0.parent, kids[..k])
      invariant forall q :: q != c ==> scene.graph.ChildrenOf(q) == g0.ChildrenOf(q)
      decreases |scene.graph.ChildrenOf(c)|
    {
      var first := scene.graph.ChildrenOf(c)[0];
      StripStep(g0, scene.graph, c, kids, k);
      StripStepParent(g0, scene.graph, c, kids, k);
      scene.Remove(c, first);
      k := k + 1;
    }
    assert kids[..k] == kids;
  }

  /** `m` without the keys listed in `s`. */
  function Drop(m: map<Id, Id>, s: seq<Id>): map<Id, Id> {
    m - set x | x in s
  }

  /** One turn of the strip loop: the first remaining child leaves the controller's list and no other list moves. */
  lemma StripStep(g0: Graph, g: Graph, c: Id, kids: seq<Id>, k: nat)
    requires g.Valid() && k < |kids| && g.ChildrenOf(c) == kids[k..]
    requires forall q :: q != c ==> g.ChildrenOf(q) == g0.ChildrenOf(q)
    ensures RemoveChild(g, c, kids[k]).Valid()
    ensures RemoveChild(g, c, kids[k]).ChildrenOf(c) == kids[k + 1..]
    ensures forall q :: q != c ==> RemoveChild(g, c, kids[k]).ChildrenOf(q) == g0.ChildrenOf(q)
  {
    var rest := kids[k..];
    assert rest[0] == kids[k] && rest[1..] == kids[k + 1..];
    RemoveChildFacts(g, c, kids[k]);
    WithoutFirst(rest);
  }

  /** One turn of the strip loop: the first remaining child leaves the parent map. */
  lemma StripStepParent(g0: Graph, g: Graph, c: Id, kids: seq<Id>, k: nat)
    requires g.Valid() && k < |kids| && g.ChildrenOf(c) == kids[k..]
    requires g.parent == Drop(g0.parent, kids[..k])
    ensures RemoveChild(g, c, kids[k]).parent == Drop(g0.parent, kids[..k + 1])
  {
    assert kids[k] in g.ChildrenOf(c);
    RemoveChildFacts(g, c, kids[k]);
    assert kids[..k + 1] == kids[..k] + [kids[k]];
    DropOneMore(g0.parent, kids[..k], kids[k]);
  }

  /** Dropping the keys of `a`, then `x`, drops the keys of `a + [x]`. */
  lemma DropOneMore(m: map<Id, Id>, a: seq<Id>, x: Id)
    ensures Drop(m, a) - {x} == Drop(m, a + [x])
  {
    assert (set y | y in a + [x]) == (set y | y in a) + {x};
  }

  /** Taking out the first element of a list without repeats leaves the rest. */
  lemma WithoutFirst(s: seq<Id>)
    requires s != [] && NoDups(s)
    ensures Without(s, s[0]) == s[1..]
  {
    assert s[0] !in s[1..];
  }

  /** `s` with `x` appended and taken out again is `s`, when `x` was not in `s`. */
  lemma {:induction false} WithoutAppended(s: seq<Id>, x: Id)
    requires x !in s
    ensures Without(s + [x], x) == s
    decreases |s|
  {
    if s != [] {
      assert (s + [x])[1..] == s[1..] + [x];
      WithoutAppended(s[1..], x);
    }
  }

  /**
   * Attaching an object to the parent it was just attached to changes nothing,
   * so a handler that runs twice (listeners registered again on a reconnect)
   * leaves the same scene as one that runs once.
   */
  lemma AttachTwice(g: Graph, p: Id, c: Id)
    requires g.Valid()
    ensures AddChild(AddChild(g, p, c), p, c) == AddChild(g, p, c)
  {
    if p != c {
      AddChildLinks(g, p, c);
      var h := AddChild(g, p, c);
      AttachAgain(h, p, c, Without(g.ChildrenOf(p), c));
    }
  }

  /** An object that is already the last child of `p` stays where it is when attached to `p`. */
  lemma AttachAgain(h: Graph, p: Id, c: Id, w: seq<Id>)
    requires p != c && c in h.parent && h.parent[c] == p
    requires p in h.children && h.children[p] == w + [c] && c !in w
    ensures AddChild(h, p, c) == h
  {
    WithoutAppended(w, c);
    var d := Detach(h, c);
    assert d.children == h.children[p := w];
    assert AddChild(h, p, c).children == h.children[p := w + [c]];
    UpdateSame(h.children, p, w + [c]);
    ReparentMap(h.parent, c, p);
    UpdateSame(h.parent, c, p);
  }

  /**
   * Squeezing a picked object out of the interaction volume and dropping it back
   * into the volume returns it there: every parent link is as before, the volume
   * has the same children with the object now last, and the controller's
   * children are as before.
   */
  lemma PickThenDrop(g: Graph, ctrl: Id, vol: Id, o: Id)
    requires g.Valid() && o in g.ChildrenOf(vol)
    requires ctrl != o && vol != o && ctrl != vol
    ensures AddChild(AddChild(g, ctrl, o), vol, o).Valid()
    ensures AddChild(AddChild(g, ctrl, o), vol, o).parent == g.parent
    ensures AddChild(AddChild(g, ctrl, o), vol, o).ChildrenOf(vol) == Without(g.ChildrenOf(vol), o) + [o]
    ensures AddChild(AddChild(g, ctrl, o), vol, o).ChildrenOf(ctrl) == g.ChildrenOf(ctrl)
  {
    AddChildValid(g, ctrl, o);
    AddChildLinks(g, ctrl, o);
    var h := AddChild(g, ctrl, o);
    AddChildValid(h, vol, o);
    AddChildLinks(h, vol, o);
    assert o !in g.ChildrenOf(ctrl) by {
      OnlyParentLists(g, o, ctrl);
    }
    WithoutAppended(g.ChildrenOf(ctrl), o);
    TwiceReparented(g.parent, o, ctrl, vol);
  }

  /**
   * Dropping the picked object anywhere other than the volume takes it out of the
   * volume for good: it is no longer among the children the laser is cast at.
   */
  lemma PickThenDropElsewhere(g: Graph, ctrl: Id, vol: Id, target: Id, o: Id)
    requires g.Valid() && o in g.ChildrenOf(vol)
    requires ctrl != o && target != o && ctrl != vol && target != vol
    ensures o !in AddChild(AddChild(g, ctrl, o), target, o).ChildrenOf(vol)
    ensures o in AddChild(AddChild(g, ctrl, o), target, o).ChildrenOf(target)
    ensures AddChild(AddChild(g, ctrl, o), target, o).ChildrenOf(vol) == Without(g.ChildrenOf(vol), o)
  {
    AddChildValid(g, ctrl, o);
    AddChildLinks(g, ctrl, o);
    var h := AddChild(g, ctrl, o);
    AddChildLinks(h, target, o);
  }

  /** Setting a key twice keeps the second value; setting it back to what it held keeps the map. */
  lemma TwiceReparented(m: map<Id, Id>, k: Id, a: Id, b: Id)
    requires k in m && m[k] == b
    ensures m[k := a][k := b] == m
  {
    assert m[k := a][k := b] == m[k := b];
  }

  /** Storing the value a key already holds leaves a map as it is. */
  lemma UpdateSame<K, V>(m: map<K, V>, k: K, v: V)
    requires k in m && m[k] == v
    ensures m[k := v] == m
  {
  }
}
