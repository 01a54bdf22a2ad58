# Inventory: a stacking item store and its slot bindings

This project models the item store of a Unity inventory library and proves its
properties. It covers the generic `Inventory<T>`, the slot-binding map of its
`InventoryRenderer`, and the drop rule of `ItemSlot`.

The store holds a fixed array of `maxItems` slots. Each slot is empty or holds a stack:
an item and an amount between 1 and `maxStackSize`.

- **`Add(item, amount)`**
  - Splits an amount above the stack size into batches of a full stack, followed by the
    non-zero remainder. It adds the batches one after the other and stops at the first
    batch that fails.
  - For an amount of at most a stack, it tops up the item's non-full stacks fullest
    first. Among stacks of equal amount, the lower slot goes first.
  - It puts what is left in the lowest empty slot.
  - When no slot is empty it fails. The message is "Inventory is full." when nothing was
    placed, and "Inventory is full, only added N amount." otherwise.
- **`Remove(id, amount)`**
  - Walks the item's stacks in slot order.
  - Empties every stack it can take whole, decrements the first one it cannot, and
    ignores any shortfall.
- **Events:** every change raises `ItemInserted`, `ItemUpdated` or `ItemRemoved` with the
  old and the new amount.
- **Queries:** `Count`, `GetTotalAmount` and `Peek` only read the store. `Peek` gives the items at the time of the call (see "## Left out").

The renderer binds logical slots to visual elements. A slot with no binding is "open".

- Dropping a dragged visual on an open slot moves its binding there.
- Dropping it on a bound slot exchanges the two bindings.
- Either way the store swaps the two slots through its `SwitchListIndex` callback, so
  every visual keeps showing the stack it showed.

Modules:

- `Stacks`: the values (items, stacks, slots, events) and the read-only queries.
- `Decimal`: the decimal text of amounts in messages.
- `Adding`: the value-level specification of `Add` and its lemmas.
- `Removing`: the value-level specification of `Remove` and its lemmas.
- `Bindings`: the binding map as values.
- `ItemManagement`: the two stateful classes.
  - `Inventory` updates an `array<Slot>` in place and keeps a ghost log of the
    notifications.
  - `InventoryRenderer` updates its `map<int, Visual>`.
  - Every method is proved equal to its value-level specification.
- `Scenarios`: the play-mode test scenarios (36 slots of 64), stated over the model.

The failure message of the single-stack branch of `Add` reports everything it placed
("only added N amount", Assets/Inventory/Inventory.cs:165-168). The batch branch instead
returns the message of the pass that failed (Assets/Inventory/Inventory.cs:117-121), which
counts only that pass. The model keeps the code's message, and the second row of Findings
models a corrected one beside it.

## Model

| member | source | states |
|---|---|---|
| Stacks.Count | Assets/Inventory/Inventory.cs:24 | the number of occupied slots is at most the capacity |
| Stacks.Total | Assets/Inventory/Inventory.cs:251-256 | the total of an item is at least the amount of each of its stacks |
| Stacks.Holders | Assets/Inventory/Inventory.cs:241-242 | the slots the `Where` filter keeps: exactly the slots holding the id, in strictly ascending order |
| Stacks.Peek | Assets/Inventory/Inventory.cs:239-244 | one item per slot holding the id, in ascending slot order: the i-th item is the item of the i-th such slot |
| Stacks.Swap | Assets/Inventory/Inventory.cs:64-70 | the two cells are exchanged and every other cell is unchanged |
| Stacks.SumUpdate | Assets/Inventory/Inventory.cs:24 | replacing one slot changes a count or total by the difference of the old and new slot's contribution |
| Stacks.WeightAtMostSum | Assets/Inventory/Inventory.cs:251-256 | one stack's amount never exceeds the item's total |
| Stacks.SumSwap | Assets/Inventory/Inventory.cs:64-70 | exchanging two slots preserves `Count` and every item's total |
| Stacks.SwapWellFormed | Assets/Inventory/Inventory.cs:64-70 | exchanging two slots keeps every stack within 1..maxStackSize |
| Stacks.CountIsOccupiedSlots | Assets/Inventory/Inventory.cs:24 | `Count` is the number of non-empty slots, at most the capacity |
| Stacks.CountFull | Assets/Inventory/Inventory.cs:163 | a store with no empty slot has `Count` equal to its capacity |
| Stacks.CountFrame | Assets/Inventory/Inventory.cs:24 | two stores with the same occupied slots have the same `Count` |
| Stacks.TotalFrame | Assets/Inventory/Inventory.cs:251-256 | stores that agree on every slot holding an item have the same total of it |
| Stacks.TotalZero | Assets/Inventory/Inventory.cs:251-256 | in a well-formed store an item's total is 0 exactly when no slot holds it |
| Stacks.PeekEmptyIffNoTotal | Assets/Inventory/Inventory.cs:239-256 | `Peek` yields nothing exactly when `GetTotalAmount` is 0 |
| Decimal.DigitChar | Assets/Inventory/Inventory.cs:168 | the character is the digit of the given value |
| Decimal.NatString | Assets/Inventory/Inventory.cs:168 | the text is non-empty, all digits, with a leading '0' only for zero |
| Decimal.IntString | Assets/Inventory/InventoryRenderer.cs:34 | the text starts with '-' exactly for negative numbers, and the digits after the sign read back as the magnitude |
| Decimal.NatStringRoundTrip | Assets/Inventory/Inventory.cs:62 | reading the digits of an amount's text back gives the amount |
| Decimal.NatStringInjective | Assets/Inventory/Inventory.cs:168 | different amounts have different texts |
| Adding.Candidates | Assets/Inventory/Inventory.cs:130-131 | lists, in ascending slot order, exactly the non-full stacks of the item |
| Adding.Insert | Assets/Inventory/Inventory.cs:132 | the result lists only slots of the store; what the insertion means is proved by `InsertPermutes` (the multiset gains exactly the inserted slot) and `InsertSorted` (sortedness is kept) |
| Adding.SortFullestFirst | Assets/Inventory/Inventory.cs:132 | the result lists only slots of the store; that it is the stable descending order of its input is proved by `SortPermutes` (a permutation) and `SortSorted` (descending amount, lower slot first among equals) |
| Adding.InsertPermutes | Assets/Inventory/Inventory.cs:132 | inserting adds exactly the inserted slot to the multiset |
| Adding.SortPermutes | Assets/Inventory/Inventory.cs:132 | the sort is a permutation of its input |
| Adding.ConsSorted | Assets/Inventory/Inventory.cs:132 | a slot ordered before the head of a sorted list may be put in front |
| Adding.TailSorted | Assets/Inventory/Inventory.cs:132 | the tail of a sorted list is sorted |
| Adding.InsertSorted | Assets/Inventory/Inventory.cs:132 | inserting a new slot into a sorted list keeps it sorted by descending amount, lower slot first among equals |
| Adding.SortSorted | Assets/Inventory/Inventory.cs:132 | the sort of distinct slots is in descending amount order, the lower slot first among equals (a stable sort) |
| Adding.FullestFirst | Assets/Inventory/Inventory.cs:130-132 | the absorbing order is a rearrangement of the item's non-full stacks (its order is stated by `FullestFirstOrder`) |
| Adding.FullestFirstOrder | Assets/Inventory/Inventory.cs:130-132 | the absorbing order lists every non-full stack of the item exactly once, fullest first, lower slot first among equals |
| Adding.CandidatesOfSorted | Assets/Inventory/Inventory.cs:130-132 | a sorted permutation of the candidates lists each candidate once and nothing else |
| Adding.Absorb | Assets/Inventory/Inventory.cs:136-158 | absorption keeps every stack within 1..maxStackSize and never increases the amount left |
| Adding.AbsorbStep | Assets/Inventory/Inventory.cs:138-157 | one iteration: a stack whose room is covered is filled and the walk goes on; otherwise it takes all that is left and the walk ends |
| Adding.AbsorbFrame | Assets/Inventory/Inventory.cs:136-158 | absorption changes only slots in the order, never empties or fills a slot, and never changes a stack's item |
| Adding.AbsorbAccounting | Assets/Inventory/Inventory.cs:136-158 | the item's total rises by exactly the amount absorbed |
| Adding.AbsorbLog | Assets/Inventory/Inventory.cs:136-158 | the log only grows, by at most one event per stack; something is absorbed whenever a candidate exists; the walk stops early only once nothing is left |
| Adding.AbsorbHead | Assets/Inventory/Inventory.cs:143-153 | the first stack gets the first new event, an `Updated` from its old amount to its strictly larger final amount |
| Adding.AbsorbEvent | Assets/Inventory/Inventory.cs:136-158 | the i-th new event belongs to the i-th stack of the order: `Updated(item, old, new)` with new > old |
| Adding.AbsorbFills | Assets/Inventory/Inventory.cs:140-147 | every touched stack except possibly the last ends full, and all end full when something is left over |
| Adding.AbsorbUntouched | Assets/Inventory/Inventory.cs:157 | stacks after those touched are left unchanged |
| Adding.FirstOpen | Assets/Inventory/Inventory.cs:163-173 | finds the lowest empty slot, or reports that every slot is occupied |
| Adding.MessageText | Assets/Inventory/Inventory.cs:165-168 | the outcome text is empty exactly on success |
| Adding.MessageTextInjective | Assets/Inventory/Inventory.cs:165-168 | distinct outcomes have distinct message texts, so "full" and "only added N" tell the caller how much was placed |
| Adding.Place | Assets/Inventory/Inventory.cs:160-179 | placing the leftover keeps every stack within 1..maxStackSize |
| Adding.AddSingle | Assets/Inventory/Inventory.cs:130-180 | an addition of at most a stack keeps the store well-formed and its size |
| Adding.AddSpec | Assets/Inventory/Inventory.cs:100-181 | `Add` of a positive amount keeps the store well-formed and its size |
| Adding.AddBatches | Assets/Inventory/Inventory.cs:108-128 | the batch branch keeps the store well-formed and its size |
| Adding.BatchLoop | Assets/Inventory/Inventory.cs:113-127 | the batch loop keeps the store well-formed and its size |
| Adding.BatchPass | Assets/Inventory/Inventory.cs:115-122 | one pass keeps the store well-formed and its size |
| Adding.AddSpecSingle | Assets/Inventory/Inventory.cs:108-132 | an amount of at most a stack skips the batch branch |
| Adding.BatchPassSingle | Assets/Inventory/Inventory.cs:115-122 | a pass adds a full stack's worth while that much is left, else the remainder, through the single-stack branch |
| Adding.BatchLoopPass | Assets/Inventory/Inventory.cs:115-126 | with more than a stack left, a pass adds a full stack and continues only if that succeeded |
| Adding.BatchLoopLast | Assets/Inventory/Inventory.cs:119-125 | with at most a stack left, the pass adds the remainder and the loop ends |
| Adding.BatchesLast | Assets/Inventory/Inventory.cs:108-128 | with at most a stack left, the batch branch is one single-stack addition |
| Adding.BatchesFull | Assets/Inventory/Inventory.cs:108-128 | the batch branch is a full-stack addition followed, only on success, by the batch branch for the rest: full batches first, remainder last, stop at the first failure |
| Adding.BatchCount | Assets/Inventory/Inventory.cs:110 | no batch exactly for a zero amount, and never more batches than units |
| Adding.BatchCountCeiling | Assets/Inventory/Inventory.cs:110 | the number of passes is the ceiling of amount / maxStackSize |
| Adding.PlaceCount | Assets/Inventory/Inventory.cs:160-179 | placing fills at most one slot and fails only when every slot is occupied |
| Adding.AddSingleCount | Assets/Inventory/Inventory.cs:130-180 | an addition of at most a stack occupies at most one more slot and succeeds whenever a slot is empty |
| Adding.BatchesSucceed | Assets/Inventory/Inventory.cs:108-128 | an oversized addition succeeds when there are at least as many empty slots as batches |
| Adding.AbsorbOtherTotals | Assets/Inventory/Inventory.cs:130-158 | absorption leaves every other item's total unchanged |
| Adding.PlaceAccounting | Assets/Inventory/Inventory.cs:160-179 | success adds the leftover to the total; failure changes nothing, happens only with every slot occupied, and reports amount − leftover ("full" for 0) |
| Adding.PlaceOtherTotal | Assets/Inventory/Inventory.cs:172-175 | placing never changes another item's total |
| Adding.AddSingleAccounting | Assets/Inventory/Inventory.cs:130-180 | success ⇔ no message; success adds exactly `amount`; failure adds exactly the reported N < amount (no rollback), with every slot occupied |
| Adding.AddSingleOtherTotal | Assets/Inventory/Inventory.cs:130-180 | an addition of at most a stack never changes another item's total |
| Adding.PlaceShape | Assets/Inventory/Inventory.cs:172-175 | placing changes at most one slot: the lowest empty one, which receives a new stack of the item with the leftover |
| Adding.AbsorbShape | Assets/Inventory/Inventory.cs:130-158 | absorption changes only candidate stacks, keeps items and occupancy, fills every candidate when amount is left, and tops up a stack only after those ahead of it are full |
| Adding.AbsorbPlaceShape | Assets/Inventory/Inventory.cs:130-179 | absorbing then placing changes only non-full stacks of the item, plus at most the lowest empty slot, and only once every candidate is full |
| Adding.AddSingleShape | Assets/Inventory/Inventory.cs:130-179 | fullest-first absorption: items kept, only candidates topped up in fullest-first order, a new stack only in the lowest empty slot and only when all candidates are full |
| Adding.AbsorbPlaceEvents | Assets/Inventory/Inventory.cs:136-178 | the log only grows; each new event concerns the item and reports a strict increase; an `Inserted` from 0 comes last |
| Adding.AddSingleEvents | Assets/Inventory/Inventory.cs:136-178 | the kinds of events of an addition of at most a stack: the log only grows, every new event is about the item's id and records a strict increase up to the stack size, and an `Inserted` from 0 of the added item comes last |
| Adding.AbsorbToppedUp | Assets/Inventory/Inventory.cs:136-158 | the top-up raises exactly `ToppedUp` of the slots before and after it: one `Updated(item, old, new)` per stack whose amount rose, in the order the stacks absorb |
| Adding.PlaceFilled | Assets/Inventory/Inventory.cs:172-177 | placing raises exactly `Filled` of the slots before and after it: one `Inserted(item, 0, n)` for the slot that received a new stack of n, none when no slot was filled |
| Adding.AbsorbPlaceLog | Assets/Inventory/Inventory.cs:136-178 | absorbing along any order of the candidates then placing raises the `Updated` events of the stacks topped up, in that order, then the `Inserted` event of the new stack |
| Adding.AddSingleLog | Assets/Inventory/Inventory.cs:130-178 | the whole log of an addition of at most a stack, slot by slot: `Updated(item, old, new)` for each stack topped up, in fullest-first order, then `Inserted(item, 0, n)` for the new stack if any, and nothing else |
| Adding.BatchesMessage | Assets/Inventory/Inventory.cs:108-128 | the batch branch has a message exactly when it fails, and the message reports less than a stack |
| Adding.BatchesAccounting | Assets/Inventory/Inventory.cs:108-128 | success adds exactly the amount; failure keeps the earlier whole batches and adds them plus the failing pass's reported part, less than the amount |
| Adding.BatchesFullAccounting | Assets/Inventory/Inventory.cs:115-118 | the batch accounting when the first pass is a full stack |
| Adding.BatchesPassAccounting | Assets/Inventory/Inventory.cs:115-126 | the batch accounting when the first full pass succeeds |
| Adding.AccountedFailedPass | Assets/Inventory/Inventory.cs:117 | a failing first pass leaves only what it placed |
| Adding.AccountedAfterPass | Assets/Inventory/Inventory.cs:113-126 | a successful full pass followed by an accounted rest accounts for the whole |
| Adding.BatchesOtherTotal | Assets/Inventory/Inventory.cs:108-128 | the batch branch never changes another item's total |
| Adding.AddAccounting | Assets/Inventory/Inventory.cs:100-181 | `Add` succeeds ⇔ empty message; success raises the item's total by exactly `amount`; failure raises it by less (nothing rolled back); other items' totals never change |
| Adding.BatchesReported | Assets/Inventory/Inventory.cs:108-128 | the corrected batch branch keeps the store well-formed and has a message exactly when it fails |
| Adding.BatchesReportedAccounting | Assets/Inventory/Inventory.cs:108-128 | the corrected batch message reports exactly what all passes placed; slots, result and events are those of the code |
| Removing.TakeFrom | Assets/Inventory/Inventory.cs:193-221 | the removal walk keeps every stack within 1..maxStackSize and never increases what is left |
| Removing.RemoveSpec | Assets/Inventory/Inventory.cs:188-222 | `Remove` keeps the store well-formed and its size |
| Removing.TakeFrame | Assets/Inventory/Inventory.cs:193 | the walk changes no slot before its start and no slot not holding the item |
| Removing.TakeShrinks | Assets/Inventory/Inventory.cs:198-219 | a changed stack of the item is emptied or keeps its item with a smaller amount |
| Removing.TakeAccounting | Assets/Inventory/Inventory.cs:196-221 | what the walk takes is exactly what leaves the item's total |
| Removing.TakeExhausts | Assets/Inventory/Inventory.cs:196-221 | the walk ends with something still to take only when no stack of the item remains |
| Removing.RemoveTotal | Assets/Inventory/Inventory.cs:188-222 | the item's new total is max(0, total − amount), with no error for a shortfall |
| Removing.RemoveOtherTotal | Assets/Inventory/Inventory.cs:193 | `Remove` never changes another item's total |
| Removing.TakeOrder | Assets/Inventory/Inventory.cs:193-196 | slot order: a stack is changed only after every earlier stack of the item was emptied |
| Removing.TakeLast | Assets/Inventory/Inventory.cs:212-219 | a stack left smaller but not empty is the last one changed |
| Removing.TakeEvents | Assets/Inventory/Inventory.cs:196-221 | the kinds of events of the walk: the log only grows; every new event concerns the item; a `Removed` event goes from a positive amount to 0; an `Updated` comes last and never reports an increase |
| Removing.TakeLog | Assets/Inventory/Inventory.cs:196-221 | the walk raises exactly `WalkLog` of the slots before and after it: in ascending slot order, `Removed(item, old, 0)` for each stack it emptied, then one `Updated(item, old, new)` for the first stack of the item it left, if any |
| Removing.TakeFromFixed | Assets/Inventory/Inventory.cs:196-221 | the corrected walk keeps every stack within 1..maxStackSize |
| Removing.TakeFixedAgrees | Assets/Inventory/Inventory.cs:196-221 | the corrected walk leaves the same slots; its `Updated` events are strict decreases; the walk as written adds at most one no-change `Updated` |
| Removing.TakeSpurious | Assets/Inventory/Inventory.cs:196-221 | the walk as written raises the corrected walk's events plus at most one trailing `Updated` whose old and new amounts are equal |
| Removing.TakeNothing | Assets/Inventory/Inventory.cs:198-219 | with nothing left, the walk as written changes no slot but may report one no-change `Updated` |
| Removing.SpuriousUpdate | Assets/Inventory/Inventory.cs:196-221 | two stacks of 64 minus 64: the first is emptied, and the second is reported `Updated` 64→64 |
| Bindings.Move | Assets/Inventory/InventoryRenderer.cs:60-62 | the visual of the old slot is bound to the new slot, the old slot becomes open, and other bindings are unchanged |
| Bindings.Exchange | Assets/Inventory/InventoryRenderer.cs:70-73 | the two slots exchange visuals; the key set and other bindings are unchanged |
| Bindings.BindIfAbsent | Assets/Inventory/InventoryRenderer.cs:99-150 | an open slot is bound to the new visual; a bound slot keeps its visual; other bindings are unchanged |
| Bindings.MoveKeepsVisuals | Assets/Inventory/InventoryRenderer.cs:60-62 | a move keeps the set of visuals in use and keeps the map injective |
| Bindings.ExchangeKeepsVisuals | Assets/Inventory/InventoryRenderer.cs:70-73 | an exchange keeps the set of visuals in use and keeps the map injective |
| Bindings.BindKeepsInjective | Assets/Inventory/InventoryRenderer.cs:150 | binding a fresh visual keeps the map injective |
| Bindings.MovePairing | Assets/Inventory/InventoryRenderer.cs:60-64 | a move plus the store swap keeps every visual paired with the same stack |
| Bindings.ExchangePairing | Assets/Inventory/InventoryRenderer.cs:70-75 | an exchange plus the store swap keeps every visual paired with the same stack |
| ItemManagement.ConfigCheck | Assets/Inventory/Inventory.cs:49-52 | construction is allowed ⇔ both sizes are positive; the stack-size check comes first, with each message as in the code |
| ItemManagement.SlotGuard | Assets/Inventory/InventoryRenderer.cs:33-34 | a slot index is accepted ⇔ 0 ≤ index < number of slots |
| ItemManagement.DrawGuard | Assets/Inventory/InventoryRenderer.cs:80-83 | drawing is accepted ⇔ the index is valid and the texture non-null; the index check wins |
| ItemManagement.Inventory.constructor | Assets/Inventory/Inventory.cs:47-71 | a valid configuration gives `maxItems` empty slots, an empty log, and the renderer wired to this store |
| ItemManagement.Inventory.Create | Assets/Inventory/Inventory.cs:47-71 | a bad configuration throws `ConfigCheck`'s message and changes nothing; otherwise a fresh empty store |
| ItemManagement.Inventory.Count | Assets/Inventory/Inventory.cs:24 | the number of non-empty slots, at most the capacity |
| ItemManagement.Inventory.GetTotalAmount | Assets/Inventory/Inventory.cs:251-256 | 0 exactly when no slot holds the item, and at least each of its stacks' amounts |
| ItemManagement.Inventory.Peek | Assets/Inventory/Inventory.cs:239-244 | one item per slot holding the id, in ascending slot order, reading only |
| ItemManagement.Inventory.SlotAmountText | Assets/Inventory/Inventory.cs:60-63 | empty text exactly for an empty slot; otherwise digits that read back as the stack's amount |
| ItemManagement.Inventory.SwitchListIndex | Assets/Inventory/Inventory.cs:64-70 | the array is the swap of the old array, well-formed, with `Count` and every total unchanged |
| ItemManagement.Inventory.Add | Assets/Inventory/Inventory.cs:100-181 | non-positive amount: the exception, nothing changed; otherwise result, message text, slots and events equal `AddSpec` |
| ItemManagement.Inventory.AddInBatches | Assets/Inventory/Inventory.cs:108-128 | the batch loop's result, message, slots and events equal `AddBatches` |
| ItemManagement.Inventory.AddBatch | Assets/Inventory/Inventory.cs:115-125 | one pass, and whether the loop goes on, as `BatchLoop` prescribes |
| ItemManagement.Inventory.AddStack | Assets/Inventory/Inventory.cs:130-180 | the single-stack branch equals `AddSingle`; success ⇔ empty message |
| ItemManagement.Inventory.PlaceLeft | Assets/Inventory/Inventory.cs:160-180 | placing the leftover equals `Place`; success ⇔ empty message |
| ItemManagement.Inventory.TopUp | Assets/Inventory/Inventory.cs:135-158 | the absorbing loop's slots, leftover and events equal `Absorb` over the order |
| ItemManagement.Inventory.TopUpSlot | Assets/Inventory/Inventory.cs:138-155 | one iteration of the absorbing loop is one step of `Absorb` |
| ItemManagement.Inventory.Remove | Assets/Inventory/Inventory.cs:188-222 | non-positive amount: the exception, nothing changed; otherwise slots and events equal `RemoveSpec` |
| ItemManagement.Inventory.RemoveItem | Assets/Inventory/Inventory.cs:229-232 | removal by item is removal by its id |
| ItemManagement.InventoryRenderer.constructor | Assets/Inventory/InventoryRenderer.cs:15 | a renderer starts with no bindings |
| ItemManagement.InventoryRenderer.IsSlotOpen | Assets/Inventory/InventoryRenderer.cs:51-54 | a slot is open when it has no binding; a slot outside the renderer is always open |
| ItemManagement.InventoryRenderer.UpdateSlot | Assets/Inventory/InventoryRenderer.cs:78-153 | the guards' exception, or binding an open slot to the new visual and reusing an existing binding; injectivity kept |
| ItemManagement.InventoryRenderer.ClearSlot | Assets/Inventory/InventoryRenderer.cs:31-49 | the index guard's exception; the bindings are not touched, so the slot stays not open |
| ItemManagement.InventoryRenderer.MoveSlotIndex | Assets/Inventory/InventoryRenderer.cs:56-66 | onto an open slot: the map becomes `Move`, the store swaps the two slots, one callback call; onto a bound slot: no change and no call; visuals and visual–stack pairing preserved |
| ItemManagement.InventoryRenderer.SwitchSlotIndex | Assets/Inventory/InventoryRenderer.cs:68-76 | the map becomes `Exchange`, the store swaps the two slots, one callback call; visuals and visual–stack pairing preserved |
| ItemManagement.InventoryRenderer.Drop | Assets/Inventory/Rendering/ItemSlot.cs:15-42 | the dragged visual ends bound to the target slot, the store swaps the two slots exactly once, and every visual keeps its stack |
| Scenarios.Empty | Assets/Inventory/Inventory.cs:55 | a new store of n slots is all empty |
| Scenarios.EmptyCounts | Assets/Inventory/Inventory.cs:24 | an empty store has `Count` 0 and every total 0 |
| Scenarios.NoCandidate | Assets/Inventory/Inventory.cs:130-132 | with no non-full stack of the item, nothing absorbs |
| Scenarios.OneCandidate | Assets/Inventory/Inventory.cs:130-132 | with one non-full stack of the item, it alone absorbs |
| Scenarios.FirstOpenZero | Assets/Inventory/Inventory.cs:173 | an empty slot 0 is the first open slot |
| Scenarios.EmptyStoreTakes | Assets/Tests/PlaymodeTests/InventoryTests.cs:26-29 | an empty store of n slots accepts any amount up to n stacks (1 and 163 in 36×64), and the total is then that amount |
| Scenarios.FirstAddition | Assets/Tests/PlaymodeTests/InventoryTests.cs:138-144 | the first addition goes to slot 0 and raises `Inserted(item, 0, amount)` |
| Scenarios.AdditionTopsUp | Assets/Tests/PlaymodeTests/InventoryTests.cs:168-176 | adding to the one non-full stack within its room raises `Updated(old, old + amount)` |
| Scenarios.FullStoreRejects | Assets/Tests/PlaymodeTests/InventoryTests.cs:63-70 | a store of full stacks refuses with "Inventory is full." and changes nothing |
| Scenarios.NearlyFullStoreReports | Assets/Tests/PlaymodeTests/InventoryTests.cs:104-114 | full but for one stack holding a: adding a stack's worth fills it and reports "only added max − a" |
| Scenarios.OnlyAddedText | Assets/Tests/PlaymodeTests/InventoryTests.cs:114 | the message for 32 is "Inventory is full, only added 32 amount." |
| Scenarios.AddRemoveScenario | Assets/Tests/PlaymodeTests/InventoryTests.cs:41-51 | adding 60, 4 and 6 gives totals 60, 64 and 70; removing 60 leaves 10 |
| Scenarios.EventScenario | Assets/Tests/PlaymodeTests/InventoryTests.cs:168-182 | adding 1 raises `Inserted` 0→1, adding 1 more raises `Updated` 1→2, and removing 1 raises `Updated` 2→1 |
| Scenarios.FirstPass | Assets/Inventory/Inventory.cs:115-117 | a whole-stack pass into an empty store succeeds with a new stack in slot 0 and one `Inserted` event |
| Scenarios.BatchesAsWritten | Assets/Inventory/Inventory.cs:108-128 | one slot of 64 given 100: the first pass fills the slot with one `Inserted` event, the second fails with "Inventory is full." |
| Scenarios.OneSlotSecondPass | Assets/Inventory/Inventory.cs:119-121 | the remainder pass into a one-slot store already holding a full stack fails with "Inventory is full." and changes nothing |
| Scenarios.BatchMessageUnderReports | Assets/Inventory/Inventory.cs:108-128 | one slot of 64 given 100: 64 are placed, yet the code's message is "Inventory is full."; the corrected message reports 64 |

## Left out

- **Renderer calls from the store:** the store's `RenderChange` calls into the renderer (Assets/Inventory/Inventory.cs:78-92, 146, 153, 178, 210, 218) are not modelled. This leaves out two effects:
  - `UpdateSlot` throws for a null texture or a slot index of at least the number of slots, and `ClearSlot` throws for such an index (Assets/Inventory/InventoryRenderer.cs:33-34, 80-83). In the code the exception aborts `Add` or `Remove` part-way, with the earlier stacks changed and the later ones not.
  - `UpdateGraphic` binds an open slot to its new visual (Assets/Inventory/InventoryRenderer.cs:150), so in the code the store's insertions also create renderer bindings.
- ItemManagement.Inventory.Add: completes as if the renderer accepted every call. It accepts an item with `NoTexture`, and it never touches the renderer's bindings. The bindings change only through `UpdateSlot` called directly.
- ItemManagement.Inventory.Remove: completes as if the renderer accepted every call, so no renderer exception cuts the walk short.
- Stacks.Peek: returns a snapshot of the matching items taken at the call. The code's `Peek` (Assets/Inventory/Inventory.cs:241-243) returns a deferred `Where`/`Select` query, which is re-read from the store each time it is enumerated, so a caller that enumerates it after a later `Add` or `Remove` sees the later store.
- ItemManagement.Inventory.Peek: the same snapshot over the store's slots; the deferred re-evaluation of the code's query is not modelled.
- **Coroutine:** the `UpdateGraphic` coroutine, its `isRunning` wait and the end-of-frame yield are collapsed to an immediate bind-if-absent. The new visual element is a parameter of `UpdateSlot`, required to be fresh.
- **Unity presentation:** sprites, game objects, transforms, colours, the amount text and its clearing in `ClearSlot` are presentation only.
  - The drag handlers of DragDropHandler.cs are not part of this model.
- **`GetSlotIndex`:** returns -1 for a transform that is not a slot. `Drop` instead requires both indices to be valid slots.
- **Callbacks:** the two delegates the store gives its renderer are modelled as the renderer's `inventory` field. `GetSlotAmount` is `SlotAmountText` and `SwitchListIndex` is the store's method of that name.
- **Lookup exceptions:** the exceptions a missing dictionary key or an out-of-range array index would throw are preconditions.
  - `MoveSlotIndex` onto an open slot requires the old slot to be bound.
  - `SwitchSlotIndex` requires both slots to be bound.
- **Null renderer:** the constructor dereferences the renderer, so a store without one cannot be built. The model therefore requires a renderer, and the null check in `RenderChange` is unreachable.
- **Float ceiling:** `Mathf.CeilToInt` over a float division is modelled as the exact integer ceiling (`BatchCountCeiling`). Float rounding for amounts beyond 2^24 is not modelled.
- **Integer width:** amounts are unbounded integers. The 32-bit overflow of `int` amounts and totals is not modelled.
- **Events:** notifications are a ghost log of (kind, item, old amount, new amount). The sender argument and the subscribers are not modelled.
- **Batch pass:** one pass adds `min(leftOver, maxStackSize)`. In the loop `leftOver` is always positive, so this is the code's two-branch `if`. Each pass is a single-stack addition, which is what the recursive `Add` does for such an amount.
- **Unreachable exception:** the "we shouldn't have gotten here" exception (Assets/Inventory/Inventory.cs:174) cannot happen. The model proves the lowest empty slot exists whenever it is used.
- **Generic item:** the item type `T` is reduced to its `Id` and an opaque texture handle. Object identity of items is not modelled: two items with equal id and texture are equal.
- **Slots as values:** `InventoryItem` objects are modelled as values in their slots, and `Array.IndexOf` as the slot index. Each stack object sits in exactly one slot, so no aliasing is lost.
- AddSingleShape: for an addition of more than a stack, the model proves that every other item's total is unchanged (`AddAccounting`), not slot by slot. The batch branch's shape follows from `BatchesFull` applied pass by pass.
- AddSingleEvents: the event properties are stated for additions of at most a stack. The batch branch's log is the concatenation of its passes' logs (`BatchesFull`).
- **`Remove` as written:** the store's `Remove` keeps the walk as written, spurious event included. `TakeFixedAgrees` shows that the corrected walk leaves the same slots, so every slot and total property of removal holds for both.

## Findings

| source | as written | input that shows it | evidently intended | confidence | as-written member | corrected member |
|---|---|---|---|---|---|---|
| Assets/Inventory/Inventory.cs:196-221 | the removal walk has no stop when the amount runs out exactly on a whole stack, so the next stack of the item is "decremented" by 0 and raises `ItemUpdated` with equal old and new amounts | two stacks of 64 of one item, `Remove(id, 64)`: events `Removed` 64→0, then `Updated` 64→64 | stop once nothing is left, as `Add` does at line 157: only `Removed` 64→0 | not executed | Removing.SpuriousUpdate | Removing.TakeFixedAgrees |
| Assets/Inventory/Inventory.cs:117-121 | the batch branch returns the failing pass's message, which counts only that pass's part, so batches already placed are not reported | a store of one slot with stack size 64, `Add(item, 100)`: 64 are placed, yet the result is false with "Inventory is full." | "Inventory is full, only added 64 amount.", reporting everything placed as the single-stack branch does | not executed | Scenarios.BatchMessageUnderReports | Adding.BatchesReportedAccounting |
