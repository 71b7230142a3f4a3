# Animated SVG icon: toggle engine

A Dafny model of the toggle engine of `svgIcon` (`js/svgicons.js`). An icon is a
small state machine. A boolean `toggled` flag is flipped by `toggle(motion)`. Each
call walks the configured list of element-animation descriptors in order:

- it resolves each descriptor's active variant (the `mediaMatch` resolver);
- it picks the direction record: `from` when toggled, `to` otherwise;
- it applies the record's `before` attributes at once;
- it then either applies `val` at once (no motion) or leaves a delayed callback.
  That callback animates to `val`, then applies `after`, then starts one more
  animation to `animAfter`.

The model also covers:

- the shallow merge `extend` that gives every instance its own copy of the shared
  default options;
- the hover test `isMouseLeaveOrEnter`;
- the load callback, which toggles a "reverse" icon once without motion. With an
  animation list it ends toggled when every descriptor's iteration completes; with no
  animation list it stays untoggled.

Modules:

- `Types` (`types.dfy`): the configuration and the rendered graphic as datatypes.
  The graphic is a map from selector to attribute map. A pending callback is a `Task`.
- `Resolver` (`resolver.dfy`): `getMediaMatchedProperties`. It has a specification
  function (`SelectedIndex`) and the source's scan as a loop method proved against it.
- `Engine` (`engine.dfy`): one toggle pass (`Step`, `Run`, `Toggle`) and one queued
  callback (`RunTask`) as functions of the state they start from, with the properties
  proved about them.
- `Objects` (`objects.dfy`): script objects with own and inherited properties, and
  the in-place `Extend`.
- `Hover` (`hover.dfy`): the parent walk of `isMouseLeaveOrEnter` over a finite parent map.
- `Icons` (`icon.dfy`): the `Icon` class. Its fields are updated in place by the
  constructor, the load callback, `Toggle`, the trigger handler and the event loop's
  `RunTask`. Each method is proved to follow the `Engine` functions.

Conventions. JavaScript truthiness is written out:

- an empty `condition`, `url` or `svg` string counts as absent;
- a `delayFactor` of 0 counts as absent;
- `before`, `after` and `animAfter` are `Option`s.

A thrown `TypeError` is modelled as `ok == false`. The effects of the descriptors
before the failing one stay, and `toggled` does not flip. These are the throwing cases:

- there is no configuration;
- a `mediaMatch` list is empty, so its entry 0 is `undefined`;
- `before` is applied to a selector that matches nothing;
- `val` is applied, without motion, to a selector that matches nothing.

With motion and no `before`, a missing element is captured as a null handle
(`target == None`). The error then happens later, inside the callback, which then
changes nothing.

The media test (`window.matchMedia(..).matches`) is a parameter `matches: string -> bool`.
It is passed to each call, because it may change between toggles. DOM nodes are
numbered in document order, so every parent has a smaller number than its children.

### Notes on the source

- Line 61 loops with an undeclared `i` under `'use strict'` (line 27). The model takes
  the intended in-order scan over the list, not a `ReferenceError`.
- The code has no per-descriptor recovery from a bad payload: an error stops the loop
  at that descriptor and `toggled` does not flip (js/svgicons.js:157-178). The model
  does the same.
- An empty `mediaMatch` list is truthy in the code. It reaches `mediaMatch[0]`, which
  is `undefined`, and then throws.

## Model

| member | source | states |
|---|---|---|
| `Types.SetAttrs` | js/svgicons.js:174 | `el.attr(map)`: the keys of the map overwrite the element's attributes, other attributes and other elements stay, no element appears or disappears |
| `Resolver.Eligible` | js/svgicons.js:62 | an entry without a condition is never eligible, and an eligible entry's condition matches the media test |
| `Resolver.FirstEligibleFrom` | js/svgicons.js:61-65 | the scan from index `i` returns the first entry whose condition is present and matches, and no earlier entry qualifies; `None` exactly when none from `i` on qualifies |
| `Resolver.SelectedIndex` | js/svgicons.js:60-67 | an entry is selected exactly when the list is non-empty, and it is an index of the list |
| `Resolver.Resolve` | js/svgicons.js:152 | without `mediaMatch` the descriptor's `animProperties` are used unchanged; with it, a property set exists exactly when the list is non-empty |
| `Resolver.GetMediaMatchedProperties` | js/svgicons.js:60-67 | the in-order loop with early return yields the property set of the selected entry (first eligible, else entry 0), which is one of the list's entries |
| `Resolver.FirstEligibleWins` | js/svgicons.js:61-64 | if entry `k` is eligible and no entry before it is, entry `k` is chosen, whatever follows it |
| `Resolver.FallbackToFirst` | js/svgicons.js:66 | with no eligible entry, entry 0 is chosen even when entry 0 has a condition |
| `Resolver.SelectedCharacterised` | js/svgicons.js:60-67 | every choice is either the first eligible entry or the fallback to entry 0 when none is eligible |
| `Resolver.UnconditionedNeverChosen` | js/svgicons.js:62 | an entry after index 0 without a condition is never chosen |
| `Resolver.ScanIgnoresProps` | js/svgicons.js:62 | the scan reads only the conditions: two lists with the same conditions scan alike |
| `Resolver.SelectionIgnoresProps` | js/svgicons.js:60-67 | the selected index depends only on the conditions of the entries |
| `Engine.Chosen` | js/svgicons.js:152-153 | the direction record is `from` of the resolved set when toggled and `to` otherwise; there is none exactly when the resolver yields none |
| `Engine.Delay` | js/svgicons.js:155 | the callback's delay is `delayFactor * speed` for a motion toggle with a non-zero `delayFactor`, and 0 otherwise |
| `Engine.TaskFor` | js/svgicons.js:162-171 | the callback of one motion iteration holds the chosen record, its `val` and its delay, and a handle to the element exactly when the selector matches one |
| `Engine.Step` | js/svgicons.js:150-175 | a completed iteration adds or removes no element; without motion it queues nothing, in motion it appends exactly one callback and keeps the earlier ones |
| `Engine.StepEffect` | js/svgicons.js:150-175 | one iteration throws exactly when nothing resolves, or when `before` (always) or `val` (without motion) meets a missing element; it changes only its own element; without motion the element's new attributes are exactly the old ones overridden by `before` (when present) and then by `val`, and nothing is queued; in motion only `before` is applied and exactly one callback holding this iteration's handle, `val`, record and delay is queued |
| `Engine.Run` | js/svgicons.js:149-177 | the loop keeps the set of elements and the callbacks already pending, and queues at most one callback per descriptor, none without motion |
| `Engine.Toggle` | js/svgicons.js:147-178 | no configuration throws with nothing changed; an absent animation list changes nothing and does not flip; otherwise `toggled` flips exactly once, and exactly when the loop completes |
| `Engine.NonMotionQueuesNothing` | js/svgicons.js:173-175 | a toggle without motion leaves the callback queue as it was |
| `Engine.MotionQueuesOnePerDescriptor` | js/svgicons.js:161-172 | a completed motion toggle appends exactly one callback per descriptor, in descriptor order; callback `k` holds descriptor `k`'s element handle, `val`, direction record and delay |
| `Engine.MotionWithoutBeforeKeepsStore` | js/svgicons.js:157-172 | a motion toggle whose records carry no `before` changes no attribute synchronously |
| `Engine.NonMotionAppliesVal` | js/svgicons.js:173-175 | after a completed toggle without motion, each descriptor's `val` holds on its element unless a later descriptor targets the same element |
| `Engine.MotionBeforeHolds` | js/svgicons.js:157-159 | after a completed motion toggle, each descriptor's `before` holds on its element unless a later descriptor targets the same element |
| `Engine.UntargetedUnchanged` | js/svgicons.js:149-177 | an element that no descriptor targets keeps its attributes |
| `Engine.NonMotionIgnoresAfter` | js/svgicons.js:161-175 | a toggle without motion never applies `after` or `animAfter`: removing them from every record changes nothing in its outcome |
| `Engine.RunTask` | js/svgicons.js:162-171 | running a callback keeps the set of elements, removes that callback and keeps the others in order; a chained `animAfter` animation queues nothing further, and a first-stage callback adds at most the one link it removes; a callback holding a null handle changes no attribute |
| `Engine.DeferredEffect` | js/svgicons.js:162-171 | running a queued callback on a live element leaves it with exactly its old attributes overridden by `val` and then by `after`, touches no other element, removes the callback and queues the `animAfter` animation exactly when there is one |
| `Engine.TwoTogglesRestoreFlag` | js/svgicons.js:178 | two completed toggles bring `toggled` back to its first value; a toggle that throws leaves it alone |
| `Engine.FillRoundTrip` | js/svgicons.js:146-179 | with `to.val` setting `fill` to `#000` and `from.val` setting it to `#fff`, two toggles without motion paint black, then white, and queue nothing |
| `Objects.Extend` | js/svgicons.js:40-47 | every own property of `b` ends up in `a` with `b`'s value, the other properties of `a` are unchanged, inherited properties of `b` are skipped, an absent `b` copies nothing, `b` is not modified, and `a` is returned |
| `Hover.Related` | js/svgicons.js:52-53 | the related target is `relatedTarget` when present, else `toElement` for `mouseout` and `fromElement` for any other type |
| `Hover.Within` | js/svgicons.js:54 | the handler is within its own subtree, and the parent walk only climbs: nothing within the handler's subtree precedes the handler in document order |
| `Hover.IsMouseLeaveOrEnter` | js/svgicons.js:50-56 | false for any event type other than `mouseover`/`mouseout`; otherwise true exactly when the related target (`relatedTarget`, else `toElement`/`fromElement`) is absent or is neither the handler nor one of its descendants |
| `Hover.WithinTransitive` | js/svgicons.js:54 | a descendant of a descendant of the handler is within the handler's subtree |
| `Icons.NewDefaults` | js/svgicons.js:120-127 | the shared defaults: speed 200, linear easing, click trigger, 64 by 64, no-op hooks |
| `Icons.NewIcon` | js/svgicons.js:71-74 | an icon built over the shared defaults has speed 200 unless the caller gives a numeric `speed`, which then wins |
| `Icons.Icon.Speed` | js/svgicons.js:171 | the animation speed is the numeric `speed` option, and 0 when it is absent or not a number |
| `Icons.Icon.constructor` | js/svgicons.js:71-118 | the options are a fresh object equal to the defaults with the caller's options merged over them; the shared defaults and the caller's object are unmodified; `toggled` starts false; the reverse marker is recorded; an external graphic is left loading; an inline graphic is mounted and `onLoad` runs once; a reversed icon with an animation list ends toggled when every descriptor's iteration completes, and with no animation list stays untoggled; either way its queue is empty and `onToggle` is not called |
| `Icons.Icon.Loaded` | js/svgicons.js:92-100 | the load callback mounts the graphic, counts one `onLoad`, never counts `onToggle`, and for a reversed icon performs exactly one toggle without motion, which queues nothing |
| `Icons.Icon.Toggle` | js/svgicons.js:146-179 | the new elements, queue, `ok` and `toggled` are those of `Engine.Toggle` from the old state with the `speed` option; nothing else changes; every handle in the queue stays a live element |
| `Icons.Icon.PlayAll` | js/svgicons.js:149-177 | the in-order loop over the descriptors leaves the elements, the queue and `ok` that `Engine.Run` gives from the old state; every handle in the queue stays a live element |
| `Icons.Icon.Play` | js/svgicons.js:150-175 | one loop iteration does what `Engine.Step` says, and changes nothing when it throws |
| `Icons.Icon.Trigger` | js/svgicons.js:130-134 | a recognised click or hover runs a motion toggle and then counts one `onToggle` call, but not when the toggle throws |
| `Icons.Icon.RunTask` | js/svgicons.js:162-171 | running a pending callback changes the elements and the queue as `Engine.RunTask` says, and leaves `toggled` and the options alone; because every queued handle is live, a first-stage callback with a handle always leaves its element with the old attributes overridden by `val` and then `after`, and a chained one with its goal |

## Left out

- Canvas creation with `Snap(w, h)`, setting the `viewBox`, `appendChild`, `Snap.load`
  (the network fetch), `Snap.parse` and `fragment.select('g')` (lines 75-77, 92-94,
  102-116). These are library and DOM calls. The mounted graphic is a parameter
  (`graphic`) holding the selectable elements and their attributes.
- `JSON.parse` of the payloads. Payloads are already-parsed attribute maps, so a
  malformed payload is not modelled.
- Configurations of the wrong shape (a missing `animProperties`, `from`, `to` or
  `val`). The datatypes rule them out.
- Timing and interpolation. A callback's delay is kept as an integer. The event loop
  chooses which pending callback runs (`RunTask(i)`), so firing order by delay is not
  modelled. An animation is modelled by its end state; intermediate frames, easing and
  duration are not. Numbers are integers, so a fractional `delayFactor` or `speed` is
  not modelled.
- `window.matchMedia` is the parameter `matches`.
- `classReg`, `hasClass` and `classList` (lines 32-38). Whether the host has the class
  `si-icon-reverse` is the boolean `reverseClass`.
- `_initEvents` (lines 129-144): registering listeners and lower-casing event types.
  `Trigger` models what the handler does once it recognises an event. `onLoad` and
  `onToggle` are counted, not run.
- A numeric string for `speed` is treated like any other non-number (`Icons.Icon.Speed`),
  giving delay 0; JavaScript would coerce it.
- Icons.Icon.Loaded: when the reverse toggle of an inline graphic throws, the error
  would leave the constructor. The model returns `ok == false` with the partial effects
  instead.
- Selector aliasing. Two different selectors that match the same DOM element are two
  separate entries of the element map. `Engine.UntargetedUnchanged`,
  `Engine.NonMotionAppliesVal` and `Engine.MotionBeforeHolds` are therefore statements
  about selectors, not about the DOM elements behind them.
- Overlapping animations from repeated toggles while callbacks are still pending.
  These are visual races with no stated contract; pending callbacks simply stay queued.
- The `size` option is one record value, so the shallow merge copies it whole. Sharing
  of the nested object between instances is not modelled.
