/**
 * The status panel of the application copies: `updateUI` serialises the button
 * states and pushes the text to the panel only when it differs from the last
 * text pushed (`strStates`). `JSON.stringify` is injective on button states
 * (same keys in the same order with the same values give the same text, and
 * only then), so the states themselves stand for their text.
 */
module StatusPanel {
  import opened Wrappers
  import opened JsObject
  import opened Layout
  import opened ButtonCache

  /** `strStates`, and every text pushed to the panel body so far, oldest first. */
  datatype Panel = Panel(strStates: Option<States>, shown: seq<States>)

  /** No two texts pushed in a row are the same. */
  predicate NoRepeats(s: seq<States>) {
    forall i :: 0 < i < |s| ==> s[i - 1] != s[i]
  }

  /** `strStates` is the last text pushed, and there are no back-to-back repeats. */
  predicate Consistent(p: Panel) {
    && (p.shown == [] <==> p.strStates.None?)
    && (p.shown != [] ==> p.strStates == Some(p.shown[|p.shown| - 1]))
    && NoRepeats(p.shown)
  }

  function UpdateUI(p: Panel, str: States): Panel {
    if p.strStates.None? || str != p.strStates.value then Panel(Some(str), p.shown + [str]) else p
  }

  /**
   * After `updateUI` the panel shows the current states; it pushed exactly when
   * they differ from the stored text, so a consistent panel stays consistent.
   */
  lemma UpdateUIFacts(p: Panel, str: States)
    requires Consistent(p)
    ensures Consistent(UpdateUI(p, str))
    ensures UpdateUI(p, str).strStates == Some(str)
    ensures UpdateUI(p, str).shown == if p.strStates == Some(str) then p.shown else p.shown + [str]
  {
  }

  /** A second `updateUI` with unchanged states pushes nothing. */
  lemma UpdateUIIdempotent(p: Panel, str: States)
    ensures UpdateUI(UpdateUI(p, str), str) == UpdateUI(p, str)
  {
  }

  /**
   * The panel after the refresh loop of the application copies, which calls
   * `updateUI` after each key it completes; after a throw no key completes.
   */
  function PanelAfter(p: Panel, s0: States, L: Components, g: Gamepad, round: real -> string, keys: seq<string>): Panel
    requires forall k :: k in keys ==> k in s0.at
    decreases |keys|
  {
    if keys == [] then p
    else
      var q := PanelAfter(p, s0, L, g, round, keys[..|keys| - 1]);
      match RefreshPrefix(s0, L, g, round, keys)
      case Done(s) => UpdateUI(q, s)
      case Threw(_) => q
  }

  /**
   * Over a whole refresh the panel stays consistent, only grows, pushes at most
   * once per key, and ends showing the final states when the refresh completed.
   */
  lemma {:induction false} PanelAfterFacts(p: Panel, s0: States, L: Components, g: Gamepad, round: real -> string, keys: seq<string>)
    requires forall k :: k in keys ==> k in s0.at
    requires Consistent(p)
    ensures Consistent(PanelAfter(p, s0, L, g, round, keys))
    ensures p.shown <= PanelAfter(p, s0, L, g, round, keys).shown
    ensures |PanelAfter(p, s0, L, g, round, keys).shown| <= |p.shown| + |keys|
    ensures keys != [] && RefreshPrefix(s0, L, g, round, keys).Done? ==>
      PanelAfter(p, s0, L, g, round, keys).strStates == Some(RefreshPrefix(s0, L, g, round, keys).states)
    decreases |keys|
  {
    if keys != [] {
      var init := keys[..|keys| - 1];
      PanelAfterFacts(p, s0, L, g, round, init);
      var q := PanelAfter(p, s0, L, g, round, init);
      match RefreshPrefix(s0, L, g, round, keys)
      case Done(s) => UpdateUIFacts(q, s);
      case Threw(_) =>
    }
  }

  /** One more turn of the loop after a prefix that completed: `updateUI` runs only if the key completed. */
  lemma PanelAfterNext(p: Panel, s0: States, L: Components, g: Gamepad, round: real -> string, keys: seq<string>, i: nat)
    requires forall k :: k in keys ==> k in s0.at
    requires i < |keys| && RefreshPrefix(s0, L, g, round, keys[..i]).Done?
    ensures PanelAfter(p, s0, L, g, round, keys[..i + 1]) ==
      match RefreshKey(RefreshPrefix(s0, L, g, round, keys[..i]).states, L, g, round, keys[i])
      case Done(s) => UpdateUI(PanelAfter(p, s0, L, g, round, keys[..i]), s)
      case Threw(_) => PanelAfter(p, s0, L, g, round, keys[..i])
  {
    assert keys[..i + 1][..i] == keys[..i];
    RefreshPrefixNext(s0, L, g, round, keys, i);
  }

  /** Once the loop has thrown, no later key reaches `updateUI`. */
  lemma {:induction false} PanelAfterSticks(p: Panel, s0: States, L: Components, g: Gamepad, round: real -> string, keys: seq<string>, n: nat)
    requires forall k :: k in keys ==> k in s0.at
    requires n <= |keys| && RefreshPrefix(s0, L, g, round, keys[..n]).Threw?
    ensures PanelAfter(p, s0, L, g, round, keys) == PanelAfter(p, s0, L, g, round, keys[..n])
    decreases |keys| - n
  {
    if n < |keys| {
      var next := keys[..n + 1];
      assert next[..n] == keys[..n];
      ThrewSticks(s0, L, g, round, next, n);
      assert RefreshPrefix(s0, L, g, round, next).Threw?;
      assert PanelAfter(p, s0, L, g, round, next) == PanelAfter(p, s0, L, g, round, keys[..n]);
      PanelAfterSticks(p, s0, L, g, round, keys, n + 1);
    } else {
      assert keys[..n] == keys;
    }
  }

  /** The panel after `updateGamepadState`: the refresh loop runs only when the guard passes. */
  function PanelPolled(p: Panel, states: Option<States>, indices: Option<Components>, sources: seq<InputSource>, round: real -> string): Panel
    requires states.Some? ==> states.value.Valid()
  {
    if |sources| > 0 && sources[0].gamepad.Some? && indices.Some? && states.Some? then
      PanelAfter(p, states.value, indices.value, sources[0].gamepad.value, round, states.value.keys)
    else p
  }

  /**
   * After a poll the panel is still consistent; when the refresh ran to the end
   * over a non-empty cache, it shows exactly the polled states.
   */
  lemma PanelPolledFacts(p: Panel, states: Option<States>, indices: Option<Components>, sources: seq<InputSource>, round: real -> string)
    requires states.Some? ==> states.value.Valid()
    requires Consistent(p)
    ensures Consistent(PanelPolled(p, states, indices, sources, round))
    ensures p.shown <= PanelPolled(p, states, indices, sources, round).shown
    ensures |sources| > 0 && sources[0].gamepad.Some? && indices.Some? && states.Some? && states.value.keys != [] &&
            Refresh(states.value, indices.value, sources[0].gamepad.value, round).Done? ==>
            PanelPolled(p, states, indices, sources, round).strStates == PolledStates(states, indices, sources, round)
    ensures !(|sources| > 0 && sources[0].gamepad.Some? && indices.Some? && states.Some?) ==>
            PanelPolled(p, states, indices, sources, round) == p
  {
    if |sources| > 0 && sources[0].gamepad.Some? && indices.Some? && states.Some? {
      PanelAfterFacts(p, states.value, indices.value, sources[0].gamepad.value, round, states.value.keys);
    }
  }
}
