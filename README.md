# Slot/fill registries and the Buttons block, in Dafny

This project models three small pieces of bookkeeping from the WordPress block editor (Gutenberg).
It leaves out the React and DOM code around them.

- **The "bubbles virtually" slot/fill registry** (`packages/components/src/slot-fill/bubbles-virtually/slot-fill-provider.js`).
  It holds two maps. `slots` maps a slot name to `{ref, fillProps, key}`. `fills` maps a slot name to the ordered list of fill refs.
  `registerSlot` and `unregisterSlot` upsert and delete slot entries.
  `registerFill` inserts a fill before the first existing fill that it precedes in the document, or appends it. When it inserts, it also flips the slot's change-detection `key`.
  `unregisterFill` filters a ref out of the list.
- **The slot-fill2 registry** (`packages/components/src/slot-fill2/context.js`). It is a single `slots` map. `register` overwrites an entry. `update` merges field by field, falling back to the previous values. `unregister` deletes an entry. `useSlot` looks an entry up.
- **The native Buttons block** (`packages/block-library/src/buttons/edit.native.js`). It covers the `align` to `justifyContent` map and the `shouldDelete` test ("exactly one button"). It also covers the two dispatch handlers: `onAddNextButton` splices a new button in right after the selected one, and `onDelete` removes the whole container.

Each React `setX(updater)` call becomes one synchronous state change. The updaters are pure functions over maps and lists. `BubblesVirtually.SlotRegistry` and `SlotFill2.SlotRegistry` are classes whose map fields the methods reassign. Each method's `ensures` ties the new state to its updater, and lemmas state what the updaters promise.

The module `Js` covers the JavaScript behaviour the code depends on:
- truthiness, where a falsy value is `None`;
- default parameters, which apply only to `undefined` (`Arg`);
- `findIndex`;
- `splice` with its clamped start position;
- `filter`.

DOM access is a parameter, `Dom`: whether `window` exists, each ref's `.current`, and `compareDocumentPosition` as a bitmask. The block-editor store is the class `Buttons.BlockEditor`. It holds each block's ordered inner block ids and the selected block. The id that `createBlock` returns is a parameter.

Behaviour of the code worth noting:
- `unregisterFill` removes every occurrence of the ref, not just the first.
- `registerFill` is not idempotent: registering the same ref twice lists it twice.
- `registerSlot` and `update` throw on an absent name when a falsy argument makes them read the previous entry. They do not create the entry with defaults. The model states this as a precondition (`CanRegisterSlot`, `CanUpdate`).

## Model

| member | source | states |
|---|---|---|
| Js.FindIndex | packages/components/src/slot-fill/bubbles-virtually/slot-fill-provider.js:12-26 | `findIndex` gives the first index whose element satisfies the predicate, or -1 exactly when no element does |
| Js.InsertAt | packages/components/src/slot-fill/bubbles-virtually/slot-fill-provider.js:72-76 | `[...s.slice(0, i), x, ...s.slice(i)]` is one longer, has `x` at `i`, gives back `s` with position `i` removed, and adds exactly one `x` to the multiset |
| Js.SpliceStart | packages/block-library/src/buttons/edit.native.js:115 | `splice` clamps its start into 0..length: a start past the end means the end, and a negative one counts from the end |
| Js.SpliceInsert | packages/block-library/src/buttons/edit.native.js:115 | `splice(start, 0, x)` grows the array by one, puts `x` at the clamped start, and keeps every old element in order |
| Js.Without | packages/components/src/slot-fill/bubbles-virtually/slot-fill-provider.js:86-88 | filtering out a ref removes every occurrence of it and keeps the count of every other element |
| Js.WithoutConcat | packages/components/src/slot-fill/bubbles-virtually/slot-fill-provider.js:86-88 | filtering acts on each part of a split list separately, so the kept elements stay in their relative order |
| Js.WithoutAbsent | packages/components/src/slot-fill/bubbles-virtually/slot-fill-provider.js:86-88 | filtering out a ref that is not in the list returns the list unchanged |
| Js.WithoutIdempotent | packages/components/src/slot-fill/bubbles-virtually/slot-fill-provider.js:86-88 | filtering the same ref twice equals filtering it once |
| BubblesVirtually.Precedes | packages/components/src/slot-fill/bubbles-virtually/slot-fill-provider.js:13-25 | the comparator is false whenever there is no window or either ref's `.current` is unset, and otherwise is true exactly when the PRECEDING bit is set in `existingRef.current.compareDocumentPosition(newRef.current)` |
| BubblesVirtually.IndexBasedOnDomPosition | packages/components/src/slot-fill/bubbles-virtually/slot-fill-provider.js:11-27 | the index is the first existing fill that the new ref precedes, or -1 exactly when it precedes none; it is always -1 without a window or with an unresolved new ref |
| BubblesVirtually.NextKey | packages/components/src/slot-fill/bubbles-virtually/slot-fill-provider.js:64-67 | a truthy key is negated and a falsy or unset key becomes 1, so the new key is nonzero and differs from the old one |
| BubblesVirtually.SlotRegistered | packages/components/src/slot-fill/bubbles-virtually/slot-fill-provider.js:33-41 | `registerSlot` keeps every other slot and the named slot's `key`; `ref` falls back to the previous ref when falsy; `fillProps` is `{}` when omitted, the given bag when truthy, and the previous bag or `{}` when explicitly falsy |
| BubblesVirtually.SlotUnregistered | packages/components/src/slot-fill/bubbles-virtually/slot-fill-provider.js:44-50 | `unregisterSlot` removes exactly the named slot, keeps the others, and changes nothing for an absent name |
| BubblesVirtually.KeyBumped | packages/components/src/slot-fill/bubbles-virtually/slot-fill-provider.js:60-69 | an inserting `registerFill` sets the slot's key to `-key` when it was truthy and to 1 otherwise (so it always changes), keeps the slot's other fields and every other slot, and creates `{key: 1}` for an absent slot |
| BubblesVirtually.FillInserted | packages/components/src/slot-fill/bubbles-virtually/slot-fill-provider.js:54-77 | the list grows by one; with no index the ref is appended, otherwise it sits at the index and the old fills keep their order around it |
| BubblesVirtually.FillRegistered | packages/components/src/slot-fill/bubbles-virtually/slot-fill-provider.js:53-78 | `registerFill` changes only the named list (creating it if missing) and leaves every other name's fills as they were |
| BubblesVirtually.FillUnregistered | packages/components/src/slot-fill/bubbles-virtually/slot-fill-provider.js:82-92 | `unregisterFill` removes every occurrence of the ref from the named list, keeps the count of every other fill, leaves other names alone, and returns the state unchanged when the name has no list |
| BubblesVirtually.SlotRegistry.constructor | packages/components/src/slot-fill/bubbles-virtually/slot-fill-provider.js:30-31 | both maps start empty |
| BubblesVirtually.SlotRegistry.RegisterSlot | packages/components/src/slot-fill/bubbles-virtually/slot-fill-provider.js:33-42 | `slots` becomes the `registerSlot` updater's result, `fills` is untouched, and keys stay 1, -1 or unset |
| BubblesVirtually.SlotRegistry.UnregisterSlot | packages/components/src/slot-fill/bubbles-virtually/slot-fill-provider.js:44-50 | `slots` loses the name, `fills` is untouched |
| BubblesVirtually.SlotRegistry.RegisterFill | packages/components/src/slot-fill/bubbles-virtually/slot-fill-provider.js:52-79 | `fills` gets the ref placed by document position; `slots` is unchanged when the ref is appended and has the key bumped when it is inserted |
| BubblesVirtually.SlotRegistry.UnregisterFill | packages/components/src/slot-fill/bubbles-virtually/slot-fill-provider.js:81-93 | `fills` has the ref filtered out of the named list, `slots` is untouched |
| BubblesVirtually.RegisterFillPlacement | packages/components/src/slot-fill/bubbles-virtually/slot-fill-provider.js:52-79 | after `registerFill` the new ref sits right before the first old fill it precedes (or last); it precedes none of the fills before it, and removing it gives back the old list |
| BubblesVirtually.KeyBumpAlternates | packages/components/src/slot-fill/bubbles-virtually/slot-fill-provider.js:60-69 | two order-changing insertions in a row restore a truthy key: the key alternates in sign |
| BubblesVirtually.UnregisterFillIdempotent | packages/components/src/slot-fill/bubbles-virtually/slot-fill-provider.js:81-93 | a second identical `unregisterFill` changes nothing |
| BubblesVirtually.UnregisterFillKeepsOrder | packages/components/src/slot-fill/bubbles-virtually/slot-fill-provider.js:86-88 | `unregisterFill` keeps the remaining fills in their relative order |
| BubblesVirtually.RegisterSlotIdempotent | packages/components/src/slot-fill/bubbles-virtually/slot-fill-provider.js:33-41 | a second identical `registerSlot` changes nothing, the key included |
| BubblesVirtually.RegisterThenUnregisterSlot | packages/components/src/slot-fill/bubbles-virtually/slot-fill-provider.js:33-50 | registering then unregistering a slot leaves the name absent and every other slot as before |
| BubblesVirtually.TransitionsKeepTokens | packages/components/src/slot-fill/bubbles-virtually/slot-fill-provider.js:33-69 | registering, unregistering and key bumping keep every stored key at 1, -1 or unset |
| BubblesVirtually.RegisterSecondFill | packages/components/src/slot-fill/bubbles-virtually/slot-fill-provider.js:54-77 | a fill registered beside one existing fill goes first exactly when it precedes that fill in the document, and last otherwise |
| BubblesVirtually.TwoFills | packages/components/src/slot-fill/bubbles-virtually/slot-fill-provider.js:52-93 | registering h1 then h2 gives [h2, h1] when h2 precedes h1 and [h1, h2] otherwise; unregistering h1 leaves [h2], and doing it again changes nothing |
| SlotFill2.DefaultProps | packages/components/src/slot-fill2/context.js:22 | the `fillProps = {}` default applies to `undefined` only; another falsy value is stored as given |
| SlotFill2.Registered | packages/components/src/slot-fill2/context.js:22-30 | `register` replaces the named entry with exactly `{ref, fillProps}`, dropping any previous values, and leaves every other entry unchanged |
| SlotFill2.Updated | packages/components/src/slot-fill2/context.js:32-40 | `update` takes a truthy new `ref` or else the previous one, and a truthy new `fillProps` or else the previous one or else `{}`; other entries are unchanged |
| SlotFill2.Unregistered | packages/components/src/slot-fill2/context.js:42-48 | `unregister` removes only the named entry and changes nothing for an absent name |
| SlotFill2.UseSlot | packages/components/src/slot-fill2/context.js:64-90 | `useSlot` is null exactly when the name has no entry, and otherwise returns the stored `ref` and `fillProps` |
| SlotFill2.SlotRegistry.constructor | packages/components/src/slot-fill2/context.js:20 | the map starts empty |
| SlotFill2.SlotRegistry.Register | packages/components/src/slot-fill2/context.js:22-30 | `slots` becomes the `register` updater's result |
| SlotFill2.SlotRegistry.Update | packages/components/src/slot-fill2/context.js:32-40 | `slots` becomes the `update` updater's result; the name must exist when a falsy argument reads the previous entry |
| SlotFill2.SlotRegistry.Unregister | packages/components/src/slot-fill2/context.js:42-48 | `slots` becomes the `unregister` updater's result |
| SlotFill2.RegisterThenUnregister | packages/components/src/slot-fill2/context.js:22-48 | `register` then `unregister` of a name leaves it absent (so `useSlot` gives null) and every other entry as before |
| SlotFill2.RegisterThenUseSlot | packages/components/src/slot-fill2/context.js:22-30 | after `register`, `useSlot` sees exactly the given `ref` and the defaulted `fillProps` |
| SlotFill2.UpdateIdempotent | packages/components/src/slot-fill2/context.js:32-40 | a second identical `update` changes nothing |
| SlotFill2.UpdateKeepsOmittedFields | packages/components/src/slot-fill2/context.js:36-37 | an `update` with a falsy `ref` keeps the stored ref, and one with falsy `fillProps` keeps stored truthy props |
| Buttons.JustifyContent | packages/block-library/src/buttons/edit.native.js:20-24 | `left`, `center` and `right` map to `flex-start`, `center` and `flex-end`; every other `align` gives no `justifyContent` |
| Buttons.JustifyContentInjective | packages/block-library/src/buttons/edit.native.js:20-24 | different alignments never produce the same `justifyContent` |
| Buttons.ShouldDelete | packages/block-library/src/buttons/edit.native.js:87 | `shouldDelete` holds exactly when the container's child list is a single block |
| Buttons.BlockRemoved | packages/block-library/src/buttons/edit.native.js:121 | after `removeBlock` there is no entry for the block or its inner blocks, and every remaining list is the old one filtered of that block, so it loses only that block and keeps its order |
| Buttons.BlockEditor.constructor | packages/block-library/src/buttons/edit.native.js:91-96 | the store starts from the given block order and selection |
| Buttons.BlockEditor.ReplaceInnerBlocks | packages/block-library/src/buttons/edit.native.js:117 | the container's child list becomes the given list; other blocks are untouched |
| Buttons.BlockEditor.SelectBlock | packages/block-library/src/buttons/edit.native.js:118 | the given block becomes the selected one; the block order is untouched |
| Buttons.BlockEditor.RemoveBlock | packages/block-library/src/buttons/edit.native.js:121 | the block order becomes `BlockRemoved`, and a selection inside the removed blocks is cleared |
| Buttons.NextButtonPosition | packages/block-library/src/buttons/edit.native.js:104-111 | the new button goes directly after the first occurrence of the selected id, or at the end when the id is not a child |
| Buttons.WithNextButton | packages/block-library/src/buttons/edit.native.js:115 | the new child list is one longer, holds the new block at that position, and keeps the old children in their order |
| Buttons.OnAddNextButton | packages/block-library/src/buttons/edit.native.js:102-119 | the code's index arithmetic and clamped `splice` give `WithNextButton`: the container's children become that list, and the inserted block ends up selected |
| Buttons.OnDelete | packages/block-library/src/buttons/edit.native.js:120-122 | `onDelete` removes the container itself, with its buttons |
| Buttons.NextButtonAfterSelected | packages/block-library/src/buttons/edit.native.js:104-115 | with the selected button at index `i`, the result is `children[..i+1] + [new] + children[i+1..]` |
| Buttons.NextButtonAppended | packages/block-library/src/buttons/edit.native.js:108-115 | with an id that is not a child, the index past the end is clamped and the new button is appended |
| Buttons.AddNextButtonBetweenTwo | packages/block-library/src/buttons/edit.native.js:102-119 | with children [B1, B2] and B1 selected, adding a button gives [B1, new, B2] with the new one selected |
| Buttons.DeleteSingleButtonContainer | packages/block-library/src/buttons/edit.native.js:84-87 | when `shouldDelete` holds, deleting removes both the container and its one button, and, in a store where each block has at most one parent (`ListedOnce`), neither is listed inside any remaining block |

## Left out

- React mechanics are not modelled: `useState`, `useCallback`, `useMemo`, the context `Provider` and `useContext`, and re-render notification. Each `setX(updater)` is one atomic, synchronous transition.
- The `setSlots` call nested inside `registerFill`'s `setFills` updater is part of the same transition. A React runtime that calls an updater twice (strict mode) would flip the key twice. The model does not cover that.
- Rendering is not modelled: the `SlotFillProvider` components, JSX, `ButtonsEdit`'s body, `InnerBlocks`, `BlockControls`, `AlignmentToolbar`, and `updateAlignment`'s `setAttributes` call.
- `SlotFillContext`'s default value (`packages/components/src/slot-fill2/context.js:12-17`) is only a fallback with no-op callbacks, so it is not modelled.
- The `update` and `unregister` callbacks that `useSlot` returns call the registry with the name already fixed. They are covered by `SlotFill2.SlotRegistry.Update` and `Unregister`, and `SlotFill2.UseSlot` returns only `ref` and `fillProps`.
- The DOM is abstract (`Dom`): `window`, ref `.current` values and `compareDocumentPosition` are inputs, so no actual document positions are modelled.
- JavaScript objects are maps keyed by string. Lookups that reach `Object.prototype` (a slot named `constructor`, or `align` set to `toString`) are not modelled.
- All falsy values (`null`, `false`, `0`, `""`, and `undefined` where no default applies) are `None`. Slot keys are integers, so `NaN` is not modelled.
- `BubblesVirtually.SlotRegistry.RegisterSlot`, `BubblesVirtually.SlotRegistered`, `SlotFill2.SlotRegistry.Update` and `SlotFill2.Updated`: the TypeError thrown when a falsy argument dereferences an absent entry is excluded by a precondition, not modelled as an outcome.
- The block-editor store (`getBlocks`, `getBlockOrder`, `getBlockCount`, `replaceInnerBlocks`, `selectBlock`, `removeBlock`, `createBlock`) is an abstract store. It holds ordered inner block ids and the selected id. Blocks are their client ids, and their attributes are not modelled.
- `getBlocks` (captured when the dispatch props are built) and `getBlockOrder` are assumed to list the same children in the same order.
- Buttons.BlockEditor.ReplaceInnerBlocks: the effect of the `updateSelection` flag on the selection is not modelled. In its only caller, `selectBlock` sets the selection straight afterwards.
- Buttons.BlockEditor.RemoveBlock: the store's choice of a block to select after removal is not modelled (it clears a removed selection instead). Only one level of inner blocks is removed.
- Buttons.BlockEditor: the store's tree shape is not an invariant of the class. `Buttons.DeleteSingleButtonContainer` takes it as `ListedOnce` (each block listed inside at most one parent), which the real store always satisfies.
- Buttons.OnAddNextButton: the source's `splice` updates, in place, the array captured from `getBlocks` when the dispatch props were built, and that array may be shared with the store. The model splices a copy of the current child list, so this in-place update and sharing are not captured.
- The id of the block `createBlock('core/button')` returns is a parameter of `Buttons.OnAddNextButton`. Its freshness is not needed by any property stated here.
