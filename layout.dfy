/**
 * Controller layouts as the WebXR input-profile registry describes them, and
 * what the connected handler extracts from them: for each handedness, an object
 * from a component's `rootNodeName` to its `gamepadIndices`.
 */
module Layout {
  import opened Wrappers
  import opened JsObject

  /** `component.gamepadIndices`; a component may lack any of the three entries. */
  datatype Indices = Indices(button: Option<int>, xAxis: Option<int>, yAxis: Option<int>)

  /** One entry of `layout.components`, as far as the controller layer reads it. */
  datatype Component = Component(rootNodeName: string, gamepadIndices: Indices)

  /** `rootNodeName -> gamepadIndices`, in the order the names were first stored. */
  type Components = Dict<Indices>

  /**
   * The `components` object built for one layout: every component is stored
   * under its root node name in turn, so a later component with the same name
   * overwrites an earlier one.
   */
  function ComponentsOf(cs: seq<Component>): Components
    decreases |cs|
  {
    if cs == [] then EmptyDict()
    else
      var last := cs[|cs| - 1];
      Put(ComponentsOf(cs[..|cs| - 1]), last.rootNodeName, last.gamepadIndices)
  }

  /** Some component of `cs` has root node name `k`. */
  predicate Names(cs: seq<Component>, k: string) {
    exists i :: 0 <= i < |cs| && cs[i].rootNodeName == k
  }

  /** The components object is well formed and has exactly the components' names as keys. */
  lemma {:induction false} ComponentsOfKeys(cs: seq<Component>)
    ensures ComponentsOf(cs).Valid()
    ensures forall k :: k in ComponentsOf(cs).at <==> Names(cs, k)
    decreases |cs|
  {
    if cs != [] {
      var init := cs[..|cs| - 1];
      ComponentsOfKeys(init);
      forall k ensures k in ComponentsOf(cs).at <==> Names(cs, k) {
        if Names(init, k) {
          var i :| 0 <= i < |init| && init[i].rootNodeName == k;
          assert cs[i].rootNodeName == k;
        }
        if Names(cs, k) && k != cs[|cs| - 1].rootNodeName {
          var i :| 0 <= i < |cs| && cs[i].rootNodeName == k;
          assert init[i].rootNodeName == k;
        }
      }
    }
  }

  /** The value stored under a name is the indices of the LAST component with that name. */
  lemma {:induction false} ComponentsOfLastWins(cs: seq<Component>, i: nat)
    requires i < |cs|
    requires forall j :: i < j < |cs| ==> cs[j].rootNodeName != cs[i].rootNodeName
    ensures cs[i].rootNodeName in ComponentsOf(cs).at
    ensures ComponentsOf(cs).at[cs[i].rootNodeName] == cs[i].gamepadIndices
    decreases |cs|
  {
    if i < |cs| - 1 {
      var init := cs[..|cs| - 1];
      ComponentsOfLastWins(init, i);
    }
  }

  /** With distinct names, the keys come out in the components' own order. */
  lemma {:induction false} ComponentsOfOrder(cs: seq<Component>)
    requires forall i, j :: 0 <= i < j < |cs| ==> cs[i].rootNodeName != cs[j].rootNodeName
    ensures ComponentsOf(cs).keys == seq(|cs|, i requires 0 <= i < |cs| => cs[i].rootNodeName)
    decreases |cs|
  {
    if cs != [] {
      var init := cs[..|cs| - 1];
      var name := cs[|cs| - 1].rootNodeName;
      ComponentsOfOrder(init);
      ComponentsOfKeys(init);
      assert !Names(init, name);
      assert ComponentsOf(cs).keys == ComponentsOf(init).keys + [name];
      assert seq(|cs|, i requires 0 <= i < |cs| => cs[i].rootNodeName)
          == seq(|init|, i requires 0 <= i < |init| => init[i].rootNodeName) + [name];
    }
  }

  /** `Object.values(layout.components).forEach(...)`, building the components object. */
  method BuildComponents(cs: seq<Component>) returns (d: Components)
    ensures d == ComponentsOf(cs)
  {
    d := EmptyDict();
    for i := 0 to |cs|
      invariant d == ComponentsOf(cs[..i])
    {
      assert cs[..i + 1][..i] == cs[..i];
      d := Put(d, cs[i].rootNodeName, cs[i].gamepadIndices);
    }
    assert cs[..|cs|] == cs;
  }

  /**
   * The layouts part of `info`: for the given layout keys, in order, the
   * components object of that layout.
   */
  function InfoOf(layouts: Dict<seq<Component>>, keys: seq<string>): Dict<Components>
    requires forall k :: k in keys ==> k in layouts.at
    decreases |keys|
  {
    if keys == [] then EmptyDict()
    else
      var k := keys[|keys| - 1];
      Put(InfoOf(layouts, keys[..|keys| - 1]), k, ComponentsOf(layouts.at[k]))
  }

  /** `info` has one entry per layout, in the layouts' order, holding that layout's components. */
  lemma {:induction false} InfoOfFacts(layouts: Dict<seq<Component>>, keys: seq<string>)
    requires forall k :: k in keys ==> k in layouts.at
    requires NoDups(keys)
    ensures InfoOf(layouts, keys).Valid()
    ensures InfoOf(layouts, keys).keys == keys
    ensures forall k :: k in keys ==> InfoOf(layouts, keys).at[k] == ComponentsOf(layouts.at[k])
    decreases |keys|
  {
    if keys != [] {
      var init := keys[..|keys| - 1];
      InfoOfFacts(layouts, init);
      assert keys[|keys| - 1] !in init;
    }
  }

  /**
   * The connected handler's `Object.entries(profile.layouts).forEach(...)`:
   * `info[key] = components` for every layout.
   */
  method ExtractInfo(layouts: Dict<seq<Component>>) returns (info: Dict<Components>)
    requires layouts.Valid()
    ensures info == InfoOf(layouts, layouts.keys)
    ensures info.Valid() && info.keys == layouts.keys
    ensures forall k :: k in layouts.at ==> k in info.at && info.at[k] == ComponentsOf(layouts.at[k])
  {
    info := EmptyDict();
    for i := 0 to |layouts.keys|
      invariant info == InfoOf(layouts, layouts.keys[..i])
    {
      var key := layouts.keys[i];
      var components := BuildComponents(layouts.at[key]);
      assert layouts.keys[..i + 1][..i] == layouts.keys[..i];
      info := Put(info, key, components);
    }
    assert layouts.keys[..|layouts.keys|] == layouts.keys;
    InfoOfFacts(layouts, layouts.keys);
  }

  /** Some key of a layout contains `sub`. */
  predicate SomeKeyContains(keys: seq<string>, sub: string) {
    exists i :: 0 <= i < |keys| && Contains(keys[i], sub)
  }

  /**
   * The scan of `Object.keys(info.right)` (or `info.left`) that decides which
   * listeners to register: `trigger` is set by a key containing "trigger",
   * `squeeze` by a key containing "squeeze".
   */
  method ScanLayoutKeys(keys: seq<string>) returns (trigger: bool, squeeze: bool)
    ensures trigger <==> SomeKeyContains(keys, "trigger")
    ensures squeeze <==> SomeKeyContains(keys, "squeeze")
  {
    trigger, squeeze := false, false;
    for i := 0 to |keys|
      invariant trigger <==> SomeKeyContains(keys[..i], "trigger")
      invariant squeeze <==> SomeKeyContains(keys[..i], "squeeze")
    {
      assert forall j :: 0 <= j < i ==> keys[..i + 1][j] == keys[..i][j];
      if IndexOf(keys[i], "trigger") != -1 {
        trigger := true;
      }
      if IndexOf(keys[i], "squeeze") != -1 {
        squeeze := true;
      }
    }
    assert keys[..|keys|] == keys;
  }
}
