/**
 * The scene graph the controller layer moves objects around in. Objects are
 * abstract ids; each has at most one parent and an ordered list of children,
 * as three.js keeps them in `Object3D.parent` and `Object3D.children`.
 */
module SceneGraph {
  import opened JsObject

  type Id = nat

  /** Parent links and children lists of the whole scene. */
  datatype Graph = Graph(parent: map<Id, Id>, children: map<Id, seq<Id>>) {

    /** `p.children` (empty for an object that never had one). */
    function ChildrenOf(p: Id): seq<Id> {
      if p in children then children[p] else []
    }

    /** The two views agree: `c.parent == p` exactly when `c` is listed once among `p.children`. */
    ghost predicate Valid() {
      && (forall c :: c in parent ==> c in ChildrenOf(parent[c]))
      && (forall p, c :: c in ChildrenOf(p) ==> c in parent && parent[c] == p)
      && (forall p :: NoDups(ChildrenOf(p)))
    }
  }

  /** `s` with `x` taken out, the rest in order (`children.splice(children.indexOf(x), 1)`). */
  function Without(s: seq<Id>, x: Id): (r: seq<Id>)
    ensures forall y :: y in r <==> y in s && y != x
    ensures NoDups(s) ==> NoDups(r)
    ensures x !in s ==> r == s
  {
    if s == [] then []
    else if s[0] == x then Without(s[1..], x)
    else
      var rest := Without(s[1..], x);
      assert NoDups(s) ==> s[0] !in s[1..];
      [s[0]] + rest
  }

  /** `c.removeFromParent()`: `c` leaves its parent's children and has no parent. */
  function Detach(g: Graph, c: Id): Graph {
    if c in g.parent then
      var p := g.parent[c];
      Graph(g.parent - {c}, g.children[p := Without(g.ChildrenOf(p), c)])
    else g
  }

  /** Under `Valid`, `c` is listed only among its own parent's children. */
  lemma OnlyParentLists(g: Graph, c: Id, q: Id)
    requires g.Valid()
    requires c !in g.parent || q != g.parent[c]
    ensures c !in g.ChildrenOf(q)
  {
  }

  lemma DetachFacts(g: Graph, c: Id)
    requires g.Valid()
    ensures Detach(g, c).Valid()
    ensures Detach(g, c).parent == g.parent - {c}
    ensures forall q :: Detach(g, c).ChildrenOf(q) == Without(g.ChildrenOf(q), c)
  {
    DetachLinks(g, c);
    if c in g.parent {
      DetachValid(g, c);
    }
  }

  /** `c` leaves the parent map and every children list, and nothing else moves. */
  lemma DetachLinks(g: Graph, c: Id)
    requires g.Valid()
    ensures Detach(g, c).parent == g.parent - {c}
    ensures forall q :: Detach(g, c).ChildrenOf(q) == Without(g.ChildrenOf(q), c)
  {
    var r := Detach(g, c);
    forall q ensures r.ChildrenOf(q) == Without(g.ChildrenOf(q), c) {
      if c !in g.parent || q != g.parent[c] {
        OnlyParentLists(g, c, q);
      }
    }
  }

  lemma DetachValid(g: Graph, c: Id)
    requires g.Valid() && c in g.parent
    ensures Detach(g, c).Valid()
  {
    var r := Detach(g, c);
    var p := g.parent[c];
    assert r.parent == g.parent - {c};
    assert forall q :: q != p ==> r.ChildrenOf(q) == g.ChildrenOf(q);
    assert r.ChildrenOf(p) == Without(g.ChildrenOf(p), c);
    forall x | x in r.parent ensures x in r.ChildrenOf(r.parent[x]) {
      assert x in g.ChildrenOf(g.parent[x]);
    }
    forall q, x | x in r.ChildrenOf(q) ensures x in r.parent && r.parent[x] == q {
      assert x in g.ChildrenOf(q);
    }
  }

  /**
   * `p.add(c)`; on the parent links also `p.attach(c)`, which in addition keeps
   * `c`'s world pose. three.js refuses to make an object its own child; otherwise
   * `c` leaves its old parent and goes last among the children of `p`.
   */
  function AddChild(g: Graph, p: Id, c: Id): Graph {
    if p == c then g
    else
      var d := Detach(g, c);
      Graph(d.parent[c := p], d.children[p := d.ChildrenOf(p) + [c]])
  }

  /** An add moves exactly `c`: it gets parent `p`, is last among `p`'s children and is in no other list. */
  lemma AddChildFacts(g: Graph, p: Id, c: Id)
    requires g.Valid()
    ensures AddChild(g, p, c).Valid()
    ensures p != c ==> AddChild(g, p, c).parent == g.parent[c := p]
    ensures p != c ==> AddChild(g, p, c).ChildrenOf(p) == Without(g.ChildrenOf(p), c) + [c]
    ensures p != c ==> forall q :: q != p ==> AddChild(g, p, c).ChildrenOf(q) == Without(g.ChildrenOf(q), c)
  {
    if p != c {
      AddChildValid(g, p, c);
      AddChildLinks(g, p, c);
    }
  }

  lemma AddChildLinks(g: Graph, p: Id, c: Id)
    requires g.Valid() && p != c
    ensures AddChild(g, p, c).parent == g.parent[c := p]
    ensures AddChild(g, p, c).ChildrenOf(p) == Without(g.ChildrenOf(p), c) + [c]
    ensures forall q :: q != p ==> AddChild(g, p, c).ChildrenOf(q) == Without(g.ChildrenOf(q), c)
  {
    DetachLinks(g, c);
    ReparentMap(g.parent, c, p);
  }

  /** Dropping a key and then setting it is the same as setting it. */
  lemma ReparentMap(m: map<Id, Id>, c: Id, p: Id)
    ensures (m - {c})[c := p] == m[c := p]
  {
  }

  lemma AddChildValid(g: Graph, p: Id, c: Id)
    requires g.Valid() && p != c
    ensures AddChild(g, p, c).Valid()
  {
    DetachFacts(g, c);
    var d := Detach(g, c);
    var r := AddChild(g, p, c);
    assert c !in d.parent;
    assert forall q :: c !in d.ChildrenOf(q);
    assert r.parent == d.parent[c := p];
    assert r.ChildrenOf(p) == d.ChildrenOf(p) + [c];
    assert forall q :: q != p ==> r.ChildrenOf(q) == d.ChildrenOf(q);
    forall x | x in r.parent ensures x in r.ChildrenOf(r.parent[x]) {
      if x != c {
        assert x in d.ChildrenOf(d.parent[x]);
      }
    }
    forall q, x | x in r.ChildrenOf(q) ensures x in r.parent && r.parent[x] == q {
      if x != c {
        assert x in d.ChildrenOf(q);
      }
    }
    forall q ensures NoDups(r.ChildrenOf(q)) {
      if q == p {
        NoDupsAppend(d.ChildrenOf(p), c);
      }
    }
  }

  lemma NoDupsAppend(s: seq<Id>, x: Id)
    requires NoDups(s) && x !in s
    ensures NoDups(s + [x])
  {
    var t := s + [x];
    forall i, j | 0 <= i < j < |t| ensures t[i] != t[j] {
      if j == |s| {
        assert t[i] == s[i];
      }
    }
  }

  /** `p.remove(c)`: only a child of `p` is taken out; it is left without a parent. */
  function RemoveChild(g: Graph, p: Id, c: Id): Graph {
    if c in g.ChildrenOf(p) then Detach(g, c) else g
  }

  lemma RemoveChildFacts(g: Graph, p: Id, c: Id)
    requires g.Valid()
    ensures RemoveChild(g, p, c).Valid()
    ensures c !in g.ChildrenOf(p) ==> RemoveChild(g, p, c) == g
    ensures c in g.ChildrenOf(p) ==> RemoveChild(g, p, c).parent == g.parent - {c}
    ensures c in g.ChildrenOf(p) ==> RemoveChild(g, p, c).ChildrenOf(p) == Without(g.ChildrenOf(p), c)
    ensures c in g.ChildrenOf(p) ==> forall q :: q != p ==> RemoveChild(g, p, c).ChildrenOf(q) == g.ChildrenOf(q)
  {
    DetachFacts(g, c);
    if c in g.ChildrenOf(p) {
      forall q | q != p ensures c !in g.ChildrenOf(q) {
        assert g.parent[c] == p;
      }
    }
  }

  /** A freshly created object: it has no parent and no children yet. */
  predicate New(g: Graph, x: Id) {
    x !in g.parent && g.ChildrenOf(x) == []
  }

  /** Adding an object that has no parent yet changes no other children list. */
  lemma AddNewChild(g: Graph, p: Id, c: Id)
    requires g.Valid() && p != c && c !in g.parent
    ensures AddChild(g, p, c).parent == g.parent[c := p]
    ensures AddChild(g, p, c).ChildrenOf(p) == g.ChildrenOf(p) + [c]
    ensures forall q :: q != p ==> AddChild(g, p, c).ChildrenOf(q) == g.ChildrenOf(q)
  {
    AddChildLinks(g, p, c);
    forall q ensures c !in g.ChildrenOf(q) {
      OnlyParentLists(g, c, q);
    }
  }

  /** Adding one object to another leaves every other new object new. */
  lemma AddChildKeepsNew(g: Graph, p: Id, c: Id)
    requires g.Valid() && p != c
    ensures forall x :: New(g, x) && x != p && x != c ==> New(AddChild(g, p, c), x)
  {
    AddChildLinks(g, p, c);
  }

  /** A position as a value (`object.position.copy(v)` copies the three coordinates). */
  datatype Vec = Vec(x: real, y: real, z: real)

  /** The mutable scene: its graph and the per-object properties the controller code writes. */
  class Scene {
    var graph: Graph
    /** `object.scale.z`; the controller's laser line is scaled along z. */
    var scaleZ: map<Id, real>
    /** `object.visible` */
    var visible: map<Id, bool>
    /** `object.position` */
    var position: map<Id, Vec>

    ghost predicate Valid()
      reads this
    {
      graph.Valid()
    }

    constructor (g: Graph)
      requires g.Valid()
      ensures Valid() && graph == g
      ensures scaleZ == map[] && visible == map[] && position == map[]
    {
      graph := g;
      scaleZ, visible, position := map[], map[], map[];
    }

    /** `p.add(c)` or `p.attach(c)` */
    method Add(p: Id, c: Id)
      requires Valid()
      modifies this`graph
      ensures Valid()
      ensures graph == AddChild(old(graph), p, c)
    {
      AddChildFacts(graph, p, c);
      graph := AddChild(graph, p, c);
    }

    /** `p.remove(c)` */
    method Remove(p: Id, c: Id)
      requires Valid()
      modifies this`graph
      ensures Valid()
      ensures graph == RemoveChild(old(graph), p, c)
    {
      RemoveChildFacts(graph, p, c);
      graph := RemoveChild(graph, p, c);
    }
  }
}
