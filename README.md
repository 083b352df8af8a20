# XR controller interaction layer — a Dafny model

This project models the WebXR controller layer of a three.js visualiser. The layer is
present in four copies:

- the shared library `src/libs/XRControllers.js`;
- the `App` class of `src/entry.js`;
- the `App` class of `src/lab/entry-latest-working.js`;
- the `Space` class of `src/entry-final.js`, which drives the library.

The layer has three parts.

- **Button/axis state cache.**
  - `createButtonStates` builds a JavaScript object with one entry per control of the right-hand layout. A key containing `touchpad` or `thumbstick` gets `{button: 0, xAxis: 0, yAxis: 0}`; every other key gets `0`.
  - `updateGamepadState` overwrites the entries in place from the first input source's gamepad. A failed lookup throws; the `catch` swallows the throw and the loop stops partway.
  - The application copies push the serialised cache to a status panel after each key, but only when the text changed.
- **Per-controller state machine.**
  - Select and squeeze events move `userData.selectPressed`, `selected`, `squeezePressed` and `attachedObject`.
  - Squeezing attaches the selected object to the controller. Releasing moves it into a drop target.
  - Disconnecting strips a controller.
- **Per-frame driver.**
  - `handleController` records the nearest raycast hit as the selection and places the highlight on it.
  - A 0.3 s timer gates the gamepad refresh.
  - Listeners are registered according to the keys of the controller's layout.

Modules:

| file | module | models |
|---|---|---|
| `wrappers.dfy` | `Wrappers` | `Option` (JavaScript `undefined` as `None`) |
| `jsobject.dfy` | `JsObject` | JavaScript objects as insertion-ordered dictionaries; `String.prototype.indexOf` |
| `scene.dfy` | `SceneGraph` | the scene as a parent map plus ordered children lists; `add`/`attach`/`remove` |
| `layout.dfy` | `Layout` | the profile layouts → `info` extraction; the trigger/squeeze key scan |
| `buttons.dfy` | `ButtonCache` | `createButtonStates` and the refresh loop of `updateGamepadState` |
| `ui.dfy` | `StatusPanel` | `updateUI` and the panel history over a refresh |
| `timer.dfy` | `Timer` | the 0.3 s refresh gate over a run of frames |
| `controller.dfy` | `Controllers` | the controller's `userData`, its event handlers, `handleController`, the disconnect strip loop |
| `xrcontrollers.dfy` | `XrLibrary` | `src/libs/XRControllers.js`: `setupXR`, `buildController`, the `xrControllers` record |
| `app.dfy` | `AppModel` | the `App` class of `src/entry.js` and `src/lab/entry-latest-working.js` (`copy` selects) |
| `space.dfy` | `SpaceModel` | `ObjectSet`, `Space` and the relevant part of `main` in `src/entry-final.js` |

### Modelling choices

- **Scene objects** are abstract ids (`nat`).
  - A `Graph` holds `parent` and the ordered `children` lists, tied together by `Graph.Valid`.
  - `Object3D.add` and `Object3D.attach` are `AddChild`: an object cannot become its own child; otherwise it leaves its old parent and is appended to its new parent.
  - `Object3D.remove` is `RemoveChild`.
  - `scale.z`, `visible` and `position` are maps on the `Scene` object.
- **The gamepad** is two sequences, `buttons` (values) and `axes`.
  - `Number.prototype.toFixed(2)` is the parameter `round: real -> string`, so it is left uninterpreted.
  - Reading an index that is undefined or out of range throws. The model returns `None` for it.
- **A thrown exception** is a `threw: bool` result or the `Step.Threw` outcome. The writes made before the throw are kept.
- **A raycast** is an input sequence of hits `(target, distance)`, nearest first. The code uses only the first hit.
- **`JSON.stringify` of the cache** is injective on the values the cache can hold, so the cache value itself stands for its text.
- **The `fetchProfile` promise.** Its continuation is modelled as a synchronous method taking the fetched `layouts`.

## Model

| member | source | states |
|---|---|---|
| JsObject.Put | src/libs/XRControllers.js:20-33 | assigning `obj[key] = v` keeps the dictionary well formed; afterwards `key` maps to `v`; an existing key keeps its place in the key order and a new key goes last |
| JsObject.PutKeepsOthers | src/libs/XRControllers.js:20-33 | the assignment leaves every other key present or absent as before, with its value |
| JsObject.IndexOf | src/libs/XRControllers.js:20 | `indexOf` is -1 exactly when the text does not occur; otherwise it is the first position where it occurs |
| Layout.ComponentsOfKeys | src/libs/XRControllers.js:250-254 | the components object of a layout has a key exactly for each `rootNodeName` of its components |
| Layout.ComponentsOfLastWins | src/libs/XRControllers.js:250-254 | when two components share a `rootNodeName`, the later one's `gamepadIndices` is the one stored |
| Layout.ComponentsOfOrder | src/libs/XRControllers.js:250-254 | with distinct names, the keys are the component names in the order the components were given |
| Layout.BuildComponents | src/lab/entry-latest-working.js:367-370 | the `forEach` loop over a layout's components produces exactly the components object |
| Layout.InfoOfFacts | src/libs/XRControllers.js:249-256 | `info` has one entry per layout, in layout order, holding that layout's components object |
| Layout.ExtractInfo | src/lab/entry-latest-working.js:366-372 | the `forEach` over `profile.layouts` produces `info`; it has the same keys as `layouts`, each mapped to its components object |
| Layout.ScanLayoutKeys | src/libs/XRControllers.js:119-124 | `trigger` is true iff some key contains "trigger"; `squeeze` is true iff some key contains "squeeze" |
| ButtonCache.InitialStatesFacts | src/libs/XRControllers.js:16-37 | the fresh cache has exactly the components' keys, in order; touchpad/thumbstick keys hold the zero triple and all other keys hold 0 |
| ButtonCache.BuildInitialStates | src/entry.js:129-143 | the `Object.keys(components).forEach` loop yields that cache: same keys, and each value follows the touchpad/thumbstick classification |
| ButtonCache.RefreshKey | src/libs/XRControllers.js:48-59 | one iteration, write by write, never adds or removes a key |
| ButtonCache.RefreshKeyFacts | src/libs/XRControllers.js:48-59 | one key completes iff all its lookups succeed; it then holds the button value (and both rounded axes); on a throw no other key changes and this key is at most half written |
| ButtonCache.FirstFailure | src/libs/XRControllers.js:47-62 | names the first key whose lookups fail: every earlier key succeeds and that key fails |
| ButtonCache.RefreshPrefixFacts | src/libs/XRControllers.js:47-62 | the loop completes iff no key fails; keys before the first failure hold their polled values; the failing key is at most half written; later keys keep their old values; the key set and shape are unchanged |
| ButtonCache.RefreshDone | src/libs/XRControllers.js:48-59 | a completed refresh leaves every key holding `buttons[gamepadIndices[key].button]`, and for axis keys also its two rounded axes, with the key order unchanged |
| ButtonCache.RefreshIdempotent | src/libs/XRControllers.js:47-62 | a second refresh from the same gamepad snapshot after a completed one changes nothing |
| ButtonCache.ThrewSticks | src/libs/XRControllers.js:47-62 | after a throw no later key is visited |
| ButtonCache.RefreshStates | src/libs/XRControllers.js:47-62 | the loop that stops at the first throw computes exactly the refresh specification |
| ButtonCache.PolledStatesKeepShape | src/libs/XRControllers.js:40-65 | a guarded poll keeps the cache defined or undefined as it was, keeps its key list, and keeps every entry's shape |
| StatusPanel.UpdateUIFacts | src/lab/entry-latest-working.js:262-275 | `updateUI` pushes iff the serialised states differ from `strStates` (or it is undefined); it then stores them; a consistent panel stays consistent |
| StatusPanel.UpdateUIIdempotent | src/entry.js:145-152 | a second `updateUI` with unchanged states pushes nothing |
| StatusPanel.PanelAfterNext | src/lab/entry-latest-working.js:300-331 | after each key that completes, `updateUI` runs with the states as they are then; a key that throws skips it |
| StatusPanel.PanelAfterSticks | src/lab/entry-latest-working.js:300-335 | once the loop has thrown, no later key reaches `updateUI` |
| StatusPanel.PanelAfterFacts | src/lab/entry-latest-working.js:300-335 | over a refresh the panel history only grows, by at most one text per key, with no back-to-back repeats; a completed refresh of a non-empty cache ends with the final states shown |
| StatusPanel.PanelPolledFacts | src/lab/entry-latest-working.js:291-337 | when the guard fails, nothing is pushed; a completed refresh of a non-empty cache leaves the panel showing exactly the polled states |
| Timer.RunBudget | src/lab/entry-latest-working.js:767-772 | over any run of frames, 0.3 × the number of refreshes, plus what is left on the timer, is at most the elapsed time; it is strictly less once a refresh has happened |
| Timer.RunWindow | src/entry.js:364-369 | with non-negative frame times the timer stays within [0, 0.3] |
| Timer.RunRefreshesWhenDue | src/entry-final.js:217-224 | with no refresh, the timer holds all the elapsed time; so once more than 0.3 s has passed, a refresh has run |
| SceneGraph.Without | src/lab/entry-latest-working.js:506-507 | removing a child keeps the other children, in order, and keeps the list duplicate-free |
| SceneGraph.AddChildFacts | src/libs/XRControllers.js:80-94 | `attach` moves only the attached object: it gets the new parent, goes last in the new parent's children, and leaves every other list |
| SceneGraph.RemoveChildFacts | src/lab/entry-latest-working.js:506-512 | `remove` takes a child out of its parent, and does nothing when it is not a child |
| SceneGraph.AddNewChild | src/libs/XRControllers.js:186-208 | adding an object that has no parent changes no other children list |
| Controllers.Controller.constructor | src/libs/XRControllers.js:192-193 | a built controller is not pressed, has nothing selected or attached, and has its index |
| Controllers.Controller.Register | src/libs/XRControllers.js:126-136 | select listeners are added iff trigger is set, squeeze listeners iff squeeze is set, and `disconnected` always |
| Controllers.Controller.OnSelectStart | src/libs/XRControllers.js:69-71 | `onSelectStart` only sets `selectPressed` |
| Controllers.Controller.OnSelectEnd | src/libs/XRControllers.js:73-77 | `onSelectEnd` zeroes the laser's scale, clears `selectPressed` and `selected`; it throws, changing nothing, when the controller has no children |
| Controllers.Controller.OnSqueezeStart | src/libs/XRControllers.js:80-86 | sets `squeezePressed`; only when `selected` is defined does it attach the selection and record it as `attachedObject` |
| Controllers.Controller.OnSqueezeEnd | src/libs/XRControllers.js:88-94 | clears `squeezePressed`; only a defined `attachedObject` is moved into the drop target, and then it is cleared |
| Controllers.HandleFacts | src/libs/XRControllers.js:164-184 | `handleController` does nothing unless `selectPressed`; it throws exactly when the laser (the first child) is missing; on a hit the laser ends at the hit's distance, the highlight is visible under the hit object and `selected` is that object; on a miss the laser is at 10, the highlight is hidden and `selected` is unchanged |
| Controllers.Controller.HandleController | src/libs/XRControllers.js:164-184 | the handler's effect on the graph, `scale.z`, `visible`, `selected` and the throw is exactly `Handle`, whose cases `HandleFacts` states |
| Controllers.HandleBothFacts | src/lab/entry-latest-working.js:756-764 | a frame handles the right controller and then the left: nothing changes when neither has select down; each controller selects its own first hit; when both are pressed the highlight ends under the left controller's hit, and a left miss leaves it hidden |
| Controllers.RegisterForLayout | src/libs/XRControllers.js:116-160 | a controller gets select listeners iff some layout key contains "trigger", squeeze listeners iff some contains "squeeze", plus `disconnected` |
| Controllers.StripChildren | src/lab/entry-latest-working.js:506-507 | the `while` loop removes every child of the controller; those children lose their parent, and no other children list changes |
| Controllers.AttachTwice | src/libs/XRControllers.js:80-86 | attaching the same object to the same controller again moves nothing |
| Controllers.PickThenDrop | src/lab/entry-latest-working.js:473-492 | an object picked from the room and dropped back into the room has its old parent again; it ends last among the room's children, and the controller's children are as before |
| Controllers.PickThenDropElsewhere | src/libs/XRControllers.js:261 | an object picked from the volume and dropped into another parent is no longer among the volume's children, which is where the raycast looks |
| XrLibrary.BuildController | src/libs/XRControllers.js:186-208 | the controller starts unpressed and goes under the scene root with the line clone as its only child; the grip goes under the root holding the model; the root's list grows by the controller then the grip; every other new object stays new and every other list is unchanged |
| XrLibrary.XrControllers.constructor | src/libs/XRControllers.js:218-224 | the record starts with `{}` for both indices and states |
| XrLibrary.XrControllers.CreateButtonStates | src/libs/XRControllers.js:16-37 | the components are stored as `gamepadIndices`; with no components it throws and the states are unchanged; otherwise the states are the fresh cache |
| XrLibrary.XrControllers.UpdateGamepadState | src/libs/XRControllers.js:40-65 | nothing changes unless input source, gamepad, indices and states all exist; then the states are the refresh outcome, partial on a throw |
| XrLibrary.XrControllers.UpdateControllers | src/libs/XRControllers.js:68-161 | each controller whose layout exists gets the listeners its keys call for, and drops go to `volume` |
| XrLibrary.XrControllers.Connect | src/libs/XRControllers.js:243-262 | the connected handler throws iff there is no right layout, changing only the indices; otherwise it seeds the cache from the right layout, registers each controller's listeners from its own layout, and sets the drop target |
| XrLibrary.XrControllers.OnConnected | src/libs/XRControllers.js:243-262 | as written: Connect's outcome (cache, indices, both controllers' listeners) with dropped objects going to `space.scene`, the scene root |
| XrLibrary.XrControllers.OnConnectedToVolume | src/libs/XRControllers.js:243-262 | corrected: Connect's outcome with dropped objects going to the interaction volume |
| XrLibrary.XrControllers.SqueezeEndEvent | src/libs/XRControllers.js:88-94 | a registered `squeezeend` moves the attached object into the registered drop target |
| XrLibrary.XrControllers.Release | src/libs/XRControllers.js:104-110 | the picked controller's children list is emptied; the root loses the grip and nothing else, in order; every other list is unchanged; exactly the stripped children and the removed grip lose their parent; the controller itself stays under the root |
| XrLibrary.XrControllers.OnDisconnected | src/libs/XRControllers.js:97-114 | as written: index 0 releases the left controller and index 1 the right, with Release's full frame; the disconnected controller is never the one released and keeps its children |
| XrLibrary.XrControllers.OnDisconnectedOwn | src/libs/XRControllers.js:97-114 | corrected: the disconnected controller itself is released, with Release's full frame |
| XrLibrary.SetupXR | src/libs/XRControllers.js:210-216 | as written: passing a button throws before anything is built; without one, the record is built with both controllers and grips placed under the root as in the corrected build, the root's list growing by the highlight and the four objects in order and no other list changing |
| XrLibrary.SetupXRFixed | src/libs/XRControllers.js:210-281 | corrected: the highlight goes under the root, then the right controller (index 0) and its grip, then the left (index 1) and its grip; each controller holds the line and each grip the model (`Placed`), the root's list grows by exactly those five in that order, no other list changes, no existing parent changes, and both indices and states start empty |
| XrLibrary.BuildControllers | src/libs/XRControllers.js:273-274 | right from index 0, then left from index 1: both unpressed with no listeners and their grips recorded, both placed under the root with line and model, the root's list grows by controller, grip, controller, grip, and nothing else changes |
| AppModel.SeedKey | src/entry.js:202 | the seeding key is "right" exactly in the latest copy; `src/entry.js` uses "riht" |
| AppModel.App.constructor | src/entry.js:113 | before any connection the cache, indices, panel text and timer are all undefined |
| AppModel.App.CreateButtonStates | src/lab/entry-latest-working.js:236-257 | stores the components as indices first; throws on undefined components leaving the states as they were; otherwise builds the fresh cache |
| AppModel.App.UpdateUI | src/entry.js:145-152 | the panel after the call is the `updateUI` specification applied to the current states |
| AppModel.App.UpdateGamepadState | src/lab/entry-latest-working.js:291-337 | behind the guard the cache becomes the refresh outcome and the panel becomes the per-key `updateUI` history; otherwise nothing changes |
| AppModel.App.PollKeys | src/entry.js:160-178 | the per-key loop with `updateUI` after each key computes exactly the refresh and panel specifications |
| AppModel.App.Connect | src/lab/entry-latest-working.js:355-382 | throws iff the seeding layout is missing; otherwise it seeds from it and registers each controller's listeners from its own layout |
| AppModel.App.OnConnected | src/entry.js:186-205 | as written: in `src/entry.js` the handler throws whenever no layout is named "riht", and it registers no listener |
| AppModel.App.OnConnectedFixed | src/lab/entry-latest-working.js:355-382 | corrected: seeds from the right layout and registers each controller's listeners from its own layout |
| AppModel.App.SqueezeEndEvent | src/lab/entry-latest-working.js:484-492 | releasing the squeeze returns the attached object to `this.room` |
| AppModel.App.OnDisconnected | src/lab/entry-latest-working.js:495-515 | index 0 picks the right controller, the one disconnected; its children list is emptied; the root loses it and its grip and keeps its other children in order; every other list is unchanged; exactly the stripped children and the removed objects lose their parent |
| AppModel.App.Render | src/lab/entry-latest-working.js:744-780 | not presenting: nothing in the model changes, including `scale.z`, `visible` and both selections. Presenting: the graph, `scale.z`, `visible`, both selections and the throw are exactly `HandleBoth` (right, then left); without a throw the timer advances, and the cache and panel refresh exactly when it exceeds 0.3 |
| AppModel.SetupXR | src/entry.js:221-222 | the right controller is built from index 0 and the left from index 1, with no listeners yet; both controllers and their grips go under the root holding line and model, the root's list grows by those four in order and no other list or existing parent changes |
| SpaceModel.Vector3.Add | src/entry-final.js:104 | `position.add(origin)` changes the vector it is called on to the sum |
| SpaceModel.ObjectSet.constructor | src/entry-final.js:97-101 | the group starts at the origin |
| SpaceModel.ObjectSet.Add | src/entry-final.js:103-106 | the passed position vector itself becomes position + origin; the object is placed there and goes last among the group's children; adding the group to itself leaves the graph unchanged |
| SpaceModel.ObjectSet.Set | src/entry-final.js:108-110 | returns the set's one group |
| SpaceModel.BehaviorCallsOnce | src/entry-final.js:201-205 | each mesh with a behaviour has it called exactly once per frame; no other object's is called |
| SpaceModel.Space.constructor | src/entry-final.js:117 | the interaction volume starts undefined |
| SpaceModel.Space.SetupXR | src/entry-final.js:237 | `setupXR(space)` with no button builds the record, with both controllers and grips placed under the scene root after the highlight |
| SpaceModel.Space.SetInteractionVolume | src/entry-final.js:180-183 | records the volume and adds it to the scene |
| SpaceModel.Space.TraverseBehaviors | src/entry-final.js:201-205 | the traversal calls exactly the behaviours of meshes that have one, in traversal order |
| SpaceModel.Space.HandleControllers | src/entry-final.js:209-215 | the `forEach` over both controllers has exactly the effect `HandleBoth` gives (right, then left; a throw ends it) |
| SpaceModel.Space.Render | src/entry-final.js:196-229 | behaviours run every frame. Not presenting, or presenting without a volume: the graph, `scale.z`, `visible` and both selections are unchanged. Presenting with a volume: their new values and the throw are exactly `HandleBoth`. The timer resets whenever it passes 0.3, but the refresh needs the volume |
| SpaceModel.VolumeAddedOnce | src/entry-final.js:778-779 | adding the room group to the scene a second time moves nothing; it is listed once, last |

## Findings

| source | as written | input that shows it | evidently intended | confidence | as-written member | corrected member |
|---|---|---|---|---|---|---|
| src/libs/XRControllers.js:102 | `onDisconnected` maps index 0 to `controllers.left` | disconnecting the right controller (index 0) strips the left one and leaves the right one's children | index 0 is `controllers.right`, as `buildController(0, …)` and the application copies have it | high; not executed | XrLibrary.XrControllers.OnDisconnected | XrLibrary.XrControllers.OnDisconnectedOwn |
| src/entry.js:202 | `createButtonStates(info.riht)` | any profile, e.g. one with layouts "right" and "left": `info.riht` is undefined and `Object.keys` throws | `info.right` | high; not executed | AppModel.App.OnConnected | AppModel.App.OnConnectedFixed |
| src/libs/XRControllers.js:261 | `updateControllers(info, space, space.scene)` | select an object in the room set, squeeze, release: it lands under the scene root and is no longer among `volume.children` | drop back into the interaction volume the raycast picks from | medium; not executed | Controllers.PickThenDropElsewhere | Controllers.PickThenDrop |
| src/libs/XRControllers.js:215 | `const button = button;` | `setupXR(space, someButton)` reads `button` in its own temporal dead zone and throws a ReferenceError | use the button that was passed in | high; not executed | XrLibrary.SetupXR | XrLibrary.SetupXRFixed |

For the third finding, `XrLibrary.XrControllers.OnConnected` (drop target is the root) and
`XrLibrary.XrControllers.OnConnectedToVolume` (drop target is the volume) are the two handlers;
`SpaceModel.Space` is the caller whose volume is the room set.

### Where the code differs from its own description

The model follows the code in each case.

- **A miss does not clear the selection.** `handleController` only hides the highlight, so `selected` keeps the last hit. A later squeeze attaches that object.
- **Disconnecting does not reset the state.** It changes none of `selectPressed`, `selected`, `squeezePressed` or `attachedObject`.
- **The refresh is not atomic.** A throw leaves the keys visited before it updated. It can also leave the interrupted axis key half written.
- **The library stops the controller's rendering only partly.** Its `onDisconnected` strips the controller's children and removes the grip, but leaves the controller in the scene. The application copies also remove the controller.
- **Releasing select does not hide the highlight.** `onSelectEnd` (src/libs/XRControllers.js:73-77) resets the laser and the flags but leaves `highlight.visible` as it was, although the design's Selecting → Idle transition hides it. `OnSelectEnd` does not touch `visible`.
- **The arrow-function handlers of `src/entry.js` bind `this` to the `App`, not to the controller.** Because of `info.riht` they are never registered. The corrected connect gives them the controller, as the other copies do.

## Left out

- three.js rendering, materials, lights, post-processing, the stats panel and the `CanvasUI` drawing; the panel is the sequence of texts pushed to it.
- The raycast geometry, matrix extraction and the world-pose arithmetic of `attach`: hits are an input, attach is a reparenting move.
- The `fetchProfile` network call and its promise. The handler body runs with the fetched layouts as input; `info.name` and `info.targetRayMode` are never read and are not modelled.
- `handleController2` in `src/lab/entry-latest-working.js` (dolly movement against colliders): float vector maths; its blocking is commented out.
- Audio, the visualisers and all mesh `behavior` bodies. A behaviour call is recorded by id in `Space.behaviorLog`.
- `scene.traverse` order: the traversal is an input sequence of objects. Which objects are meshes and which carry a behaviour is part of that input.
- Floating point: frame times and axis values are reals. `toFixed(2)` is an uninterpreted rounding parameter.
- JavaScript key order is modelled as plain insertion order. The language puts integer-like keys ("0", "1", …) first in ascending order, and assigning `__proto__` creates no key; neither kind of key occurs among the profiles' `rootNodeName`s or the layout names.
- SpaceModel.ObjectSet.constructor and SpaceModel.ObjectSet.Add: the default arguments `new THREE.Vector3(0, 0, 0)` for `origin` and `position` are not modelled; callers pass the vectors.
- Listener lists are sets. On a reconnect the program registers fresh copies of the handlers, so each handler then fires twice per event. Every handler gives the same result when run a second time; `Controllers.AttachTwice` proves this for the one that moves an object. So the set loses nothing observable.
- Controllers.Controller.HandleController: hits may be any descendant of the volume's children, because the raycast is recursive; the model takes them as arbitrary ids.
- SpaceModel.Space.Render: requires `xrControllers` to be set. `main` sets it synchronously after constructing the space, before the first animation frame.
- XrLibrary.XrControllers.UpdateGamepadState and AppModel.App.UpdateGamepadState: the session's input sources are an input; a missing session is not modelled.
- AppModel.App: the `ui` guard of `updateGamepadState` is always met, because both copies create the panel before `setupXR`.
