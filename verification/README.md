# pip-polyfill in Dafny

This project models the WebKit branch of the `pip-polyfill` package. The polyfill maps Safari's single-valued `webkitPresentationMode` onto the Picture-in-Picture API. It has three parts, and each is a pure function over an immutable document value:

- **The `document.pictureInPictureElement` register** (`register.dfy`). A single `Option<ElemId>` cell.
  - The setter does nothing when given the value it already holds. Otherwise it moves the register's mode-change observer from the old holder to the new one.
  - The getter repairs an empty register by adopting the first element, in document order, whose mode is picture-in-picture.
  - The observer clears the register when the held element's mode becomes a set value other than picture-in-picture.
- **The actions** `requestPictureInPicture` and `exitPictureInPicture` (`actions.dfy`). The request rejects with a plain `Error` (`NotAllowed`); the exit rejects with a `DOMException` named `InvalidStateError`. A rejection leaves the document as it was.
- **The event translator** (`events.dfy`, `listeners.dfy`).
  - `enterpictureinpicture` and `leavepictureinpicture` are subscriptions to `webkitpresentationmodechanged`. Each element keeps a binding map per kind, keyed by the callback's source text.
  - All other event names go to the native listener list unchanged.

The host is modelled in `dom.dfy`:
- Elements sit in document order. Each has a mode (`Empty` stands for a falsy value), a disable flag, a support flag, and one native listener list.
- The native list follows DOM semantics: adding a listener that is already there does nothing, and removing one drops it.
- The polyfill's own fields live on the element: the two binding maps (absent until first used) and the shared previous mode.

Changing a mode (`SetMode`) and delivering the change (`Deliver`) are separate steps, because the host delivers the event asynchronously. A delivery runs a snapshot of the element's listeners for that event name, in attachment order. A listener detached before its turn is skipped. The delivery returns the subscriptions that invoked their callback.

`machine.dfy` puts every operation into one `Step` function and runs sequences of steps. `scenarios.dfy` proves end-to-end runs that follow the repository's browser tests.

The model follows the code as written, including its quirks:
- All leave subscriptions of an element share one recorded previous mode (pip.js:119, 124, 128). With two leave listeners, only the first one attached fires on a return to inline.
- A leave subscription makes its element the register holder on any mode except inline (pip.js:120-123). That includes fullscreen and an unset mode.
- Registering the same callback twice overwrites the map entry but leaves the first subscription attached (pip.js:105-113, 127-137).
- Map keys are source texts, so two different callbacks with the same text share a binding (pip.js:109, 151).
- The register observer clears only when the mode is set (not `Empty`) and is not picture-in-picture (pip.js:15).

## Model

| member | source | states |
|---|---|---|
| `Register.Set` | pip.js:38-55 | Setting the value already held returns the document unchanged. Any other value moves the observer off the previous holder and onto the new one (onto none for null). When the new holder lacked the observer, it is appended at the end of that element's listeners. Only those two elements change, and only in the observer listener. On every element, the listeners other than the observer stay the same list in the same order. Modes and bindings are untouched. |
| `Register.Release` | pip.js:41-48 | The observer leaves the previous holder and the register empties. No other element changes, and on the previous holder the other listeners keep their order. |
| `Register.Hold` | pip.js:48-54 | The register stores the value, and the observer joins the new holder, at the end of its list when it was absent. No other element changes, and the other listeners keep their order. |
| `Register.AttachKeepsOthers` | pip.js:49-53 | Attaching the observer leaves the element's other listeners as the same list in the same order. |
| `Register.SetPreservesInv` | pip.js:39-54 | In a reachable document, every set keeps this invariant: exactly the held element carries the observer, it carries it once, and no other element carries it. |
| `Register.SetTwice` | pip.js:39-54 | Setting a value twice gives the same document as setting it once. The observer is then attached exactly once to that element and zero times to every other element, so observers never accumulate. |
| `Register.AtMostOneObserver` | pip.js:41-54 | In a reachable document, two elements that carry the observer are the same element, and that element is the holder. |
| `Register.FirstPip` | pip.js:25-32 | The scan returns the least index at or after the start whose mode is picture-in-picture. It returns nothing exactly when no such element exists. |
| `Register.Get` | pip.js:21-36 | A held value is returned with no change. On an empty register, the getter returns nothing and leaves the document unchanged exactly when no element is in picture-in-picture. Otherwise it adopts the first such element through the setter and returns it. The value returned is always the value held afterwards. Only the observer listener may change, and the other listeners keep their order. |
| `Register.GetIdempotent` | pip.js:21-36 | A second read returns the same value and changes nothing. |
| `Register.Observe` | pip.js:14-18 | When the element's mode is set and is not picture-in-picture, the register is cleared. A picture-in-picture or unset mode leaves the document unchanged. Only the observer listener may move, and every element's other listeners stay the same list in the same order. |
| `Actions.Request` | pip.js:62-74 | The request is rejected with a plain `Error` (`NotAllowed`) exactly when the element is disabled or does not support picture-in-picture. Otherwise the element's mode is picture-in-picture, the register holds it, and no other element's mode changes. On every element only the mode and the observer listener may change: flags, binding maps and previous mode are kept, and the other listeners stay the same list in the same order. The invariant is kept. |
| `Actions.Exit` | pip.js:76-87 | The exit is rejected with `InvalidStateError` exactly when the register is empty and no element is in picture-in-picture. Otherwise the element the getter yields is put back inline, the register is emptied, and no element carries the observer afterwards. On every element only the mode and the observer listener may change: flags, binding maps and previous mode are kept, and the other listeners stay the same list in the same order. |
| `Actions.Dismiss` | pip.js:79-80 | The element read from the register is put back inline and the register is cleared. Every other mode and every field except the observer listener stays as it was. The other listeners stay the same list in the same order. |
| `Actions.HostEnterThenRead` | pip.js:22-35 | Suppose the host alone puts an element in picture-in-picture while the register is empty and no other element is in picture-in-picture. The next read then returns that element. |
| `Actions.RequestThenExit` | pip.js:62-87 | Request followed by exit leaves the element inline and the register empty. The next read finds nothing exactly when no other element is in picture-in-picture. |
| `Events.RunEnter` | pip.js:99-103 | An enter subscription fires its callback exactly when the element's mode is picture-in-picture. |
| `Events.Track` | pip.js:120-123 | Under any mode except inline, a leave subscription makes its element the holder. Under inline it leaves the document unchanged. Only the observer listener may move, and the other listeners keep their order. |
| `Events.RunLeave` | pip.js:117-125 | A leave subscription fires exactly when the mode is inline and the recorded previous mode is picture-in-picture. It makes the element the holder under any other mode. In every case it records the current mode as the element's previous mode, with the callback taken to return normally. The other listeners keep their order. |
| `Events.Record` | pip.js:124 | Only the element's recorded previous mode changes. Listeners, in order, and the register are kept. |
| `Events.HandleOrder` | pip.js:99-125 | No single listener run reorders any element's listeners other than the observer. That covers an enter or leave subscription and, through `Register.Observe`, the register's observer. |
| `Events.RunSnapshotOrder` | pip.js:99-125 | Running a snapshot of listeners keeps every element's other listeners as the same list in the same order. |
| `Events.DeliverOrder` | pip.js:99-128 | A delivery moves at most the observer listener. Every element's other listeners stay the same list in the same order, so attachment order, which decides the first leave subscription, survives deliveries. |
| `Events.EnterFiresIffPip` | pip.js:99-105 | On a delivery of the mode change, an enter subscription fires exactly when it is attached and the mode is picture-in-picture, so it never fires on a change to inline. |
| `Events.LeaveOnInline` | pip.js:117-128 | On a delivery in inline mode, a leave subscription fires exactly when the recorded previous mode was picture-in-picture and it is the first attached leave subscription. Afterwards the previous mode is inline. |
| `Events.LeaveOnPipEntry` | pip.js:117-128 | On a delivery in picture-in-picture mode, no leave subscription fires. If one is attached, the element becomes the holder with picture-in-picture recorded as its previous mode. A held element stays held. |
| `Events.ObserverClears` | pip.js:14-18 | The held element's mode changes to a set value other than picture-in-picture, and either the mode is inline or no leave subscription is attached. Delivering that change then empties the register. |
| `Events.InlineKeepsEmpty` | pip.js:117-119 | A delivery in inline mode never fills an empty register. |
| `Events.DetachedNeverFires` | pip.js:148-159 | A subscription that is not attached to an element never fires on any delivery to that element. |
| `Listeners.Bind` | pip.js:108-114 | The map is created on first use. The new entry overwrites any earlier one under the same key, and every other key keeps its entry. |
| `Listeners.ListenElem` | pip.js:97-141 | For a synthetic name, registration appends a fresh subscription under the mode-change event and binds it under the callback's key. Subscriptions that were already attached stay attached. A leave registration records the current mode as the previous mode. Any other name only adds a native listener: appended at the end when it was absent, and nothing changes when it was already there. |
| `Listeners.Listen` | pip.js:94-142 | Only the target element changes. A fresh subscription id is consumed exactly for the synthetic names, and the invariant is kept. |
| `Listeners.UnlistenElem` | pip.js:148-162 | When a binding map exists for a synthetic name, removal detaches the subscription bound under the key, if there is one, and deletes the key. Otherwise the native listener for that name and callback is removed by native removal, which keeps the rest of the list in order. Mode, flags and previous mode do not change. |
| `Listeners.Unlisten` | pip.js:145-163 | Only the target element changes, and the invariant is kept. |
| `Listeners.UnlistenBound` | pip.js:148-159 | Removing a bound synthetic listener detaches exactly the bound subscription and deletes the key. The next delivery does not invoke that subscription. |
| `Listeners.UnlistenUnboundIsNoop` | pip.js:148-162 | Removing a synthetic listener that was never bound, or was already removed, leaves the document unchanged. This holds even when the binding map does not exist yet and the call falls through to the native list. |
| `Listeners.ListenUnlistenNative` | pip.js:138-161 | Adding a pass-through listener that was absent and then removing it restores the document exactly. |
| `Listeners.ListenUnlistenSynthetic` | pip.js:97-159 | Adding a synthetic listener and then removing it restores the element's listener list exactly and leaves the key unbound. |
| `Listeners.ReRegisterLeaks` | pip.js:105-113 | Registering the same callback twice and removing it once leaves the first subscription attached with its key unbound. A later delivery in picture-in-picture still invokes it. |
| `Listeners.KeyCollision` | pip.js:148-153 | Removing a different callback that has the same source text detaches the first callback's subscription. |
| `Machine.Step` | pip.js:5-168 | Every operation keeps the invariant and the element count. A rejected action leaves the document unchanged. |
| `Machine.StepKeepsGone` | pip.js:145-163 | No operation re-attaches a removed subscription, and no delivery to its element invokes it. |
| `Machine.RemovedNeverFiresAgain` | pip.js:148-159 | After a bound synthetic listener is removed, no sequence of operations makes its subscription fire on that element again. |
| `Machine.ReachableInv` | pip.js:5-168 | Every document reached from the freshly loaded polyfill satisfies the invariant. |
| `Scenarios.RequestFiresEnterExitDoesNot` | test/index.test.js:124-147 | An enter listener fires on the delivery after `requestPictureInPicture`. After `exitPictureInPicture`, the next delivery does not fire it. |
| `Scenarios.HostExitFiresLeaveOnce` | test/index.test.js:158-164 | When no other leave listener is attached to the element, a leave listener registered in picture-in-picture fires exactly once when the host returns the element to inline, even with two deliveries. The register is empty after the first delivery. |
| `Scenarios.EntryDoesNotFireLeave` | test/index.test.js:174-180 | Entering picture-in-picture does not fire a leave listener. The delivery makes the element the holder. |
| `Scenarios.OnlyFirstLeaveFires` | pip.js:117-125 | When no other leave listener is attached to the element and two leave listeners are registered in picture-in-picture, the return to inline fires the first one and not the second. |

## Left out

- Feature detection (pip.js:1-8) and the `NotSupportedError` fallback for hosts without the WebKit API (pip.js:169-173). These probe the environment; the model assumes the WebKit branch is active.
- `document.pictureInPictureEnabled = true` (pip.js:168) is a constant flag.
- The Promise wrapping of both actions and the message texts of the thrown objects. A rejected request is `Failure(NotAllowed)`, standing for the plain `Error` thrown at pip.js:68. A rejected exit is `Failure(InvalidStateError)`, standing for the `DOMException` thrown at pip.js:82-85.
- The effects of callers' callbacks. A fired callback is reported in the delivery's result and changes nothing in the document.
- `querySelectorAll('video')` is the fixed element sequence. Elements are never created, detached or removed.
- The DOM listener options (capture, once, passive) and events other than the mode change, beyond their registration and firing as native listeners.
- The distinction between `undefined` and `null` in the register. Both are `None`, and the code treats them alike, since both are falsy.
- index.js, an older wrapper with no register logic or events, is not part of this model.
- `Events.RunLeave`: callbacks are assumed to return normally. A leave callback that throws at pip.js:119 aborts the subscription before pip.js:124 records the mode. The previous mode then stays picture-in-picture, and the next leave subscription or the next delivery fires again. `Scenarios.HostExitFiresLeaveOnce` and `Scenarios.OnlyFirstLeaveFires` rest on the same assumption.
- `Events.ObserverClears`: stated only when the mode is inline or no leave subscription is attached. With fullscreen and a leave subscription, the outcome depends on whether the observer or the leave subscription was attached first.
- `Machine.RemovedNeverFiresAgain`: stated for deliveries to the element the listener was removed from. Subscription ids are not tied to elements in the invariant.
