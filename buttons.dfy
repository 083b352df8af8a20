/**
 * The button/axis state cache: one entry per control of the right-hand layout,
 * a composite `{button, xAxis, yAxis}` for a touchpad or thumbstick and a plain
 * number otherwise, refreshed key by key from a gamepad snapshot.
 *
 * The refresh runs inside a `try`: the first key whose lookup fails throws, the
 * exception is swallowed, and whatever was already written stays written.
 */
module ButtonCache {
  import opened Wrappers
  import opened JsObject
  import opened Layout

  /** An axis field: the initial number 0, or the text `toFixed(2)` produced. */
  datatype Axis = AxisNumber(n: real) | AxisText(text: string)

  /** One entry of `buttonStates`. */
  datatype ButtonState =
    | Scalar(value: real)
    | Composite(button: real, xAxis: Axis, yAxis: Axis)

  type States = Dict<ButtonState>

  /** A gamepad snapshot: `buttons[i].value` and `axes[i]`. */
  datatype Gamepad = Gamepad(buttons: seq<real>, axes: seq<real>)

  /** An entry of `session.inputSources`; its `gamepad` may be missing. */
  datatype InputSource = InputSource(gamepad: Option<Gamepad>)

  /** `key.indexOf('touchpad') != -1 || key.indexOf('thumbstick') != -1` */
  predicate IsAxisKey(key: string) {
    Contains(key, "touchpad") || Contains(key, "thumbstick")
  }

  /** The value `createButtonStates` stores for a key. */
  function InitialState(key: string): ButtonState {
    if IsAxisKey(key) then Composite(0.0, AxisNumber(0.0), AxisNumber(0.0)) else Scalar(0.0)
  }

  /** `buttonStates` after storing the initial value of each key in turn. */
  function InitialStates(keys: seq<string>): States
    decreases |keys|
  {
    if keys == [] then EmptyDict()
    else
      var k := keys[|keys| - 1];
      Put(InitialStates(keys[..|keys| - 1]), k, InitialState(k))
  }

  /** Every axis key holds a composite and every other key a number. */
  ghost predicate Shaped(s: States) {
    forall k :: k in s.at ==> (IsAxisKey(k) <==> s.at[k].Composite?)
  }

  /**
   * The fresh cache has exactly the components' keys, in their order; axis keys
   * hold `{button: 0, xAxis: 0, yAxis: 0}` and every other key holds 0.
   */
  lemma {:induction false} InitialStatesFacts(keys: seq<string>)
    requires NoDups(keys)
    ensures InitialStates(keys).Valid() && Shaped(InitialStates(keys))
    ensures InitialStates(keys).keys == keys
    ensures forall k :: k in keys ==> InitialStates(keys).at[k] == InitialState(k)
    decreases |keys|
  {
    if keys != [] {
      var init := keys[..|keys| - 1];
      InitialStatesFacts(init);
      assert keys[|keys| - 1] !in init;
    }
  }

  /** The `Object.keys(components).forEach(...)` loop of `createButtonStates`. */
  method BuildInitialStates(components: Components) returns (states: States)
    requires components.Valid()
    ensures states == InitialStates(components.keys)
    ensures states.Valid() && Shaped(states) && states.keys == components.keys
    ensures forall k :: k in components.at ==> states.at[k] == InitialState(k)
  {
    var keys := components.keys;
    states := EmptyDict();
    for i := 0 to |keys|
      invariant states == InitialStates(keys[..i])
    {
      var key := keys[i];
      assert keys[..i + 1][..i] == keys[..i];
      if IndexOf(key, "touchpad") != -1 || IndexOf(key, "thumbstick") != -1 {
        states := Put(states, key, Composite(0.0, AxisNumber(0.0), AxisNumber(0.0)));
      } else {
        states := Put(states, key, Scalar(0.0));
      }
    }
    assert keys[..|keys|] == keys;
    InitialStatesFacts(keys);
  }

  /** `gamepad.buttons[index].value`, or None where that read throws (index undefined or out of range). */
  function ButtonAt(g: Gamepad, index: Option<int>): Option<real> {
    if index.Some? && 0 <= index.value < |g.buttons| then Some(g.buttons[index.value]) else None
  }

  /** `gamepad.axes[index]`, or None where `.toFixed(2)` on it throws. */
  function AxisAt(g: Gamepad, index: Option<int>): Option<real> {
    if index.Some? && 0 <= index.value < |g.axes| then Some(g.axes[index.value]) else None
  }

  /**
   * What a completed refresh of `key` stores: the button value and, for an axis
   * key, both axes rounded to text; None when some lookup would throw.
   */
  function Fresh(L: Components, g: Gamepad, round: real -> string, key: string): Option<ButtonState> {
    if key !in L.at then None
    else
      var ix := L.at[key];
      var b := ButtonAt(g, ix.button);
      if IsAxisKey(key) then
        var x := AxisAt(g, ix.xAxis);
        var y := AxisAt(g, ix.yAxis);
        if b.Some? && x.Some? && y.Some? then
          Some(Composite(b.value, AxisText(round(x.value)), AxisText(round(y.value))))
        else None
      else if b.Some? then Some(Scalar(b.value))
      else None
  }

  /** The outcome of refreshing: all keys done, or a throw with the writes made so far. */
  datatype Step = Done(states: States) | Threw(states: States)

  /**
   * One iteration of the refresh loop, write by write. A missing `gamepadIndices[key]`
   * throws before anything is written; for an axis key the button, the x axis and the
   * y axis are written in that order and a failing read stops the rest.
   */
  function RefreshKey(s: States, L: Components, g: Gamepad, round: real -> string, key: string): (r: Step)
    requires key in s.at
    ensures r.states.keys == s.keys && r.states.at.Keys == s.at.Keys
  {
    if key !in L.at then Threw(s)
    else
      var ix := L.at[key];
      if IsAxisKey(key) then
        match s.at[key]
        case Scalar(_) => Threw(s)
        case Composite(_, x0, y0) =>
          match ButtonAt(g, ix.button)
          case None => Threw(s)
          case Some(b) =>
            var s1 := Put(s, key, Composite(b, x0, y0));
            match AxisAt(g, ix.xAxis)
            case None => Threw(s1)
            case Some(x) =>
              var s2 := Put(s1, key, Composite(b, AxisText(round(x)), y0));
              match AxisAt(g, ix.yAxis)
              case None => Threw(s2)
              case Some(y) => Done(Put(s2, key, Composite(b, AxisText(round(x)), AxisText(round(y)))))
      else
        match ButtonAt(g, ix.button)
        case None => Threw(s)
        case Some(b) => Done(Put(s, key, Scalar(b)))
  }

  /** The loop over `keys` in order; after a throw nothing more runs. */
  function RefreshPrefix(s0: States, L: Components, g: Gamepad, round: real -> string, keys: seq<string>): (r: Step)
    requires forall k :: k in keys ==> k in s0.at
    ensures r.states.keys == s0.keys && r.states.at.Keys == s0.at.Keys
    decreases |keys|
  {
    if keys == [] then Done(s0)
    else
      match RefreshPrefix(s0, L, g, round, keys[..|keys| - 1])
      case Threw(s) => Threw(s)
      case Done(s) => RefreshKey(s, L, g, round, keys[|keys| - 1])
  }

  /** `Object.entries(buttonStates).forEach(...)` inside its `try`. */
  function Refresh(s: States, L: Components, g: Gamepad, round: real -> string): Step
    requires s.Valid()
  {
    RefreshPrefix(s, L, g, round, s.keys)
  }

  /**
   * The key a throw interrupted may be half written: its button, or its button
   * and x axis, already hold the polled values while the rest is as before.
   */
  ghost predicate PartlyPolled(was: ButtonState, now: ButtonState, L: Components, g: Gamepad, round: real -> string, key: string) {
    || now == was
    || (&& was.Composite? && key in L.at
        && ButtonAt(g, L.at[key].button).Some?
        && (|| now == was.(button := ButtonAt(g, L.at[key].button).value)
            || (&& AxisAt(g, L.at[key].xAxis).Some?
                && now == was.(button := ButtonAt(g, L.at[key].button).value,
                               xAxis := AxisText(round(AxisAt(g, L.at[key].xAxis).value))))))
  }

  /** One key refreshed: it completes exactly when every lookup succeeds, and touches no other key. */
  lemma RefreshKeyFacts(s: States, L: Components, g: Gamepad, round: real -> string, key: string)
    requires s.Valid() && Shaped(s) && key in s.at
    ensures RefreshKey(s, L, g, round, key).states.Valid()
    ensures Shaped(RefreshKey(s, L, g, round, key).states)
    ensures RefreshKey(s, L, g, round, key).Done? <==> Fresh(L, g, round, key).Some?
    ensures RefreshKey(s, L, g, round, key).Done? ==>
      RefreshKey(s, L, g, round, key).states.at == s.at[key := Fresh(L, g, round, key).value]
    ensures RefreshKey(s, L, g, round, key).Threw? ==>
      && (forall k :: k in s.at && k != key ==> RefreshKey(s, L, g, round, key).states.at[k] == s.at[k])
      && PartlyPolled(s.at[key], RefreshKey(s, L, g, round, key).states.at[key], L, g, round, key)
  {
  }

  /** The position of the first key whose refresh would throw, or `|keys|` when none would. */
  function FirstFailure(L: Components, g: Gamepad, round: real -> string, keys: seq<string>): (j: nat)
    ensures j <= |keys|
    ensures forall i :: 0 <= i < j ==> Fresh(L, g, round, keys[i]).Some?
    ensures j < |keys| ==> Fresh(L, g, round, keys[j]).None?
    decreases |keys|
  {
    if keys == [] then 0
    else
      var init := keys[..|keys| - 1];
      var j := FirstFailure(L, g, round, init);
      if j < |init| then j
      else if Fresh(L, g, round, keys[|keys| - 1]).None? then |init|
      else |keys|
  }

  /**
   * The refresh loop, in full: it completes exactly when no lookup fails; the keys
   * before the first failure hold their polled values, the failing key is at most
   * half written, every later key keeps its old value, and no key is added or removed.
   */
  lemma {:induction false} RefreshPrefixFacts(s0: States, L: Components, g: Gamepad, round: real -> string, keys: seq<string>)
    requires s0.Valid() && Shaped(s0) && NoDups(keys)
    requires forall k :: k in keys ==> k in s0.at
    ensures RefreshPrefix(s0, L, g, round, keys).states.Valid()
    ensures Shaped(RefreshPrefix(s0, L, g, round, keys).states)
    ensures RefreshPrefix(s0, L, g, round, keys).Done? <==> FirstFailure(L, g, round, keys) == |keys|
    ensures forall i :: 0 <= i < FirstFailure(L, g, round, keys) ==>
      RefreshPrefix(s0, L, g, round, keys).states.at[keys[i]] == Fresh(L, g, round, keys[i]).value
    ensures FirstFailure(L, g, round, keys) < |keys| ==>
      PartlyPolled(s0.at[keys[FirstFailure(L, g, round, keys)]],
                   RefreshPrefix(s0, L, g, round, keys).states.at[keys[FirstFailure(L, g, round, keys)]],
                   L, g, round, keys[FirstFailure(L, g, round, keys)])
    ensures forall k :: k in s0.at && k !in keys[..FirstFailure(L, g, round, keys)]
                        && (FirstFailure(L, g, round, keys) < |keys| ==> k != keys[FirstFailure(L, g, round, keys)]) ==>
      RefreshPrefix(s0, L, g, round, keys).states.at[k] == s0.at[k]
    decreases |keys|
  {
    if keys != [] {
      var init := keys[..|keys| - 1];
      var last := keys[|keys| - 1];
      assert forall i :: 0 <= i < |init| ==> init[i] == keys[i];
      RefreshPrefixFacts(s0, L, g, round, init);
      var j := FirstFailure(L, g, round, init);
      if j == |init| {
        var s := RefreshPrefix(s0, L, g, round, init).states;
        RefreshKeyFacts(s, L, g, round, last);
        assert last !in init;
        assert s.at[last] == s0.at[last];
        assert keys[..|init|] == init;
      } else {
        assert keys[..j] == init[..j];
      }
    }
  }

  /**
   * A refresh of the whole cache completes exactly when every key's lookups
   * succeed, and then the cache holds the polled value of every key, in the same key order.
   */
  lemma RefreshDone(s: States, L: Components, g: Gamepad, round: real -> string)
    requires s.Valid() && Shaped(s)
    ensures Refresh(s, L, g, round).Done? <==> forall k :: k in s.at ==> Fresh(L, g, round, k).Some?
    ensures Refresh(s, L, g, round).Done? ==>
      Refresh(s, L, g, round).states == Dict(s.keys, map k | k in s.at :: Fresh(L, g, round, k).value)
  {
    RefreshPrefixFacts(s, L, g, round, s.keys);
    RefreshDoneIff(s, L, g, round);
    if Refresh(s, L, g, round).Done? {
      RefreshDoneStates(s, L, g, round);
    }
  }

  /** The completion half of `RefreshDone`, from the facts about the first failure. */
  lemma RefreshDoneIff(s: States, L: Components, g: Gamepad, round: real -> string)
    requires s.Valid()
    requires RefreshPrefix(s, L, g, round, s.keys).Done? <==> FirstFailure(L, g, round, s.keys) == |s.keys|
    ensures Refresh(s, L, g, round).Done? <==> forall k :: k in s.at ==> Fresh(L, g, round, k).Some?
  {
    var keys := s.keys;
    var j := FirstFailure(L, g, round, keys);
    if j < |keys| {
      assert keys[j] in s.at;
    } else {
      forall k | k in s.at ensures Fresh(L, g, round, k).Some? {
        var i :| 0 <= i < |keys| && keys[i] == k;
      }
    }
  }

  /** The states half of `RefreshDone`: after a completed refresh every key holds its polled value. */
  lemma RefreshDoneStates(s: States, L: Components, g: Gamepad, round: real -> string)
    requires s.Valid() && Refresh(s, L, g, round).Done?
    requires FirstFailure(L, g, round, s.keys) == |s.keys|
    requires forall i :: 0 <= i < FirstFailure(L, g, round, s.keys) ==>
      RefreshPrefix(s, L, g, round, s.keys).states.at[s.keys[i]] == Fresh(L, g, round, s.keys[i]).value
    ensures Refresh(s, L, g, round).states == Dict(s.keys, map k | k in s.at :: Fresh(L, g, round, k).value)
  {
    var keys := s.keys;
    var s1 := Refresh(s, L, g, round).states;
    assert s1.keys == s.keys && s1.at.Keys == s.at.Keys;
    forall k | k in s1.at ensures s1.at[k] == Fresh(L, g, round, k).value {
      var i :| 0 <= i < |keys| && keys[i] == k;
    }
    assert s1.at == map k | k in s.at :: Fresh(L, g, round, k).value;
  }

  /** Refreshing again from an unchanged gamepad snapshot after a completed refresh changes nothing. */
  lemma RefreshIdempotent(s: States, L: Components, g: Gamepad, round: real -> string)
    requires s.Valid() && Shaped(s) && Refresh(s, L, g, round).Done?
    ensures Refresh(s, L, g, round).states.Valid()
    ensures Refresh(Refresh(s, L, g, round).states, L, g, round) == Refresh(s, L, g, round)
  {
    RefreshPrefixFacts(s, L, g, round, s.keys);
    RefreshDone(s, L, g, round);
    var s1 := Refresh(s, L, g, round).states;
    RefreshDone(s1, L, g, round);
  }

  /**
   * The loop of `updateGamepadState` over the cache's keys; it stops at the
   * first throw, which the surrounding `catch` swallows.
   */
  method RefreshStates(s: States, L: Components, g: Gamepad, round: real -> string) returns (r: Step)
    requires s.Valid()
    ensures r == Refresh(s, L, g, round)
  {
    var keys := s.keys;
    r := Done(s);
    var i := 0;
    while i < |keys|
      invariant 0 <= i <= |keys|
      invariant RefreshPrefix(s, L, g, round, keys[..i]) == r && r.Done?
    {
      RefreshPrefixNext(s, L, g, round, keys, i);
      r := RefreshKey(r.states, L, g, round, keys[i]);
      if r.Threw? {
        ThrewSticks(s, L, g, round, keys, i + 1);
        break;
      }
      i := i + 1;
    }
    assert keys[..|keys|] == keys;
  }

  /** One more turn of the loop after a prefix that completed. */
  lemma RefreshPrefixNext(s: States, L: Components, g: Gamepad, round: real -> string, keys: seq<string>, i: nat)
    requires forall k :: k in keys ==> k in s.at
    requires i < |keys| && RefreshPrefix(s, L, g, round, keys[..i]).Done?
    ensures RefreshPrefix(s, L, g, round, keys[..i + 1])
         == RefreshKey(RefreshPrefix(s, L, g, round, keys[..i]).states, L, g, round, keys[i])
  {
    assert keys[..i + 1][..i] == keys[..i];
  }

  /** Once a prefix of the loop has thrown, the whole loop ends with that same throw. */
  lemma {:induction false} ThrewSticks(s: States, L: Components, g: Gamepad, round: real -> string, keys: seq<string>, n: nat)
    requires forall k :: k in keys ==> k in s.at
    requires n <= |keys| && RefreshPrefix(s, L, g, round, keys[..n]).Threw?
    ensures RefreshPrefix(s, L, g, round, keys) == RefreshPrefix(s, L, g, round, keys[..n])
    decreases |keys| - n
  {
    if n < |keys| {
      assert keys[..n + 1][..n] == keys[..n];
      ThrewSticks(s, L, g, round, keys, n + 1);
    } else {
      assert keys[..n] == keys;
    }
  }

  /**
   * The guard of `updateGamepadState`: the first input source, its gamepad, the
   * stored indices and the states must all exist, or nothing happens; otherwise the
   * states become whatever the refresh left, thrown or not.
   */
  function PolledStates(states: Option<States>, indices: Option<Components>, sources: seq<InputSource>, round: real -> string): Option<States>
    requires states.Some? ==> states.value.Valid()
  {
    if |sources| > 0 && sources[0].gamepad.Some? && indices.Some? && states.Some? then
      Some(Refresh(states.value, indices.value, sources[0].gamepad.value, round).states)
    else states
  }

  /** The cache keeps its keys and shape through any number of polls. */
  lemma PolledStatesKeepShape(states: Option<States>, indices: Option<Components>, sources: seq<InputSource>, round: real -> string)
    requires states.Some? ==> states.value.Valid() && Shaped(states.value)
    ensures PolledStates(states, indices, sources, round).Some? == states.Some?
    ensures states.Some? ==> PolledStates(states, indices, sources, round).value.Valid()
    ensures states.Some? ==> Shaped(PolledStates(states, indices, sources, round).value)
    ensures states.Some? ==> PolledStates(states, indices, sources, round).value.keys == states.value.keys
  {
    if |sources| > 0 && sources[0].gamepad.Some? && indices.Some? && states.Some? {
      RefreshPrefixFacts(states.value, indices.value, sources[0].gamepad.value, round, states.value.keys);
    }
  }
}
