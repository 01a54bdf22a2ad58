/** The two stateful objects of the system: the stacking store `Inventory`, whose slot array
    its methods update in place, and the `InventoryRenderer`, whose slot-to-visual bindings the
    drag-and-drop handlers rearrange. Each method is proved against the value-level
    specification of its operation (`AddSpec`, `RemoveSpec`, `Swap`, `Move`, `Exchange`,
    `BindIfAbsent`). */
module ItemManagement {
  import opened Stacks
  import opened Adding
  import opened Removing
  import opened Bindings
  import Decimal

  /** The constructor's argument checks, in the order it makes them. */
  function ConfigCheck(maxItems: int, maxStackSize: int): (r: Result<()>)
    ensures r.Ok? <==> 0 < maxItems && 0 < maxStackSize
    ensures maxStackSize <= 0 ==>
      r == Exception("[Initialization]: Inventory max stack size cannot be zero or less.")
    ensures 0 < maxStackSize && maxItems <= 0 ==>
      r == Exception("[Initialization]: Max inventory size cannot be zero or less.")
  {
    if maxStackSize <= 0 then Exception("[Initialization]: Inventory max stack size cannot be zero or less.")
    else if maxItems <= 0 then Exception("[Initialization]: Max inventory size cannot be zero or less.")
    else Ok(())
  }

  /** The renderer's slot-index check, shared by drawing and clearing a slot. */
  function SlotGuard(slotCount: nat, slot: int): (r: Result<()>)
    ensures r.Ok? <==> 0 <= slot < slotCount
  {
    if slot >= slotCount || slot < 0 then
      Exception("[Inventory Rendering]: Slot was invalid?: " + Decimal.IntString(slot))
    else Ok(())
  }

  /** The checks before a slot is drawn: the slot index first, then the texture. */
  function DrawGuard(slotCount: nat, slot: int, texture: Texture): (r: Result<()>)
    ensures r.Ok? <==> 0 <= slot < slotCount && texture != NoTexture
    ensures SlotGuard(slotCount, slot).Exception? ==> r == SlotGuard(slotCount, slot)
  {
    if SlotGuard(slotCount, slot).Exception? then SlotGuard(slotCount, slot)
    else if texture == NoTexture then
      Exception("[Inventory Rendering]: Texture is null: " + Decimal.IntString(slot))
    else Ok(())
  }

  /** A store of `maxItems` slots holding stacks of at most `maxStackSize` items each. */
  class Inventory {
    const maxItems: nat
    const maxStackSize: nat
    const items: array<Slot>
    const renderer: InventoryRenderer
    /** The `ItemInserted`, `ItemUpdated` and `ItemRemoved` notifications raised so far. */
    ghost var log: seq<Event>

    ghost predicate Valid()
      reads items
    {
      0 < maxItems && 0 < maxStackSize && items.Length == maxItems &&
      WellFormed(items[..], maxStackSize)
    }

    /** Makes an empty store and hands the renderer its two callbacks (modelled by the
        renderer's `inventory` field). */
    constructor (maxItems: int, maxStackSize: int, renderer: InventoryRenderer)
      requires ConfigCheck(maxItems, maxStackSize).Ok?
      modifies renderer
      ensures Valid() && fresh(items) && log == []
      ensures this.maxItems == maxItems && this.maxStackSize == maxStackSize
      ensures forall k :: 0 <= k < items.Length ==> items[k].None?
      ensures this.renderer == renderer && renderer.inventory == this
      ensures renderer.slotIndexes == old(renderer.slotIndexes)
      ensures renderer.reorders == old(renderer.reorders)
    {
      this.maxItems := maxItems;
      this.maxStackSize := maxStackSize;
      items := new Slot[maxItems](_ => None);
      this.renderer := renderer;
      log := [];
      new;
      renderer.inventory := this;
    }

    /** The constructor with its exceptions as a result: a bad configuration leaves the
        renderer as it was. */
    static method Create(maxItems: int, maxStackSize: int, renderer: InventoryRenderer)
      returns (r: Result<Inventory>)
      modifies renderer
      ensures r.Exception? <==> ConfigCheck(maxItems, maxStackSize).Exception?
      ensures r.Exception? ==>
        r.message == ConfigCheck(maxItems, maxStackSize).message && unchanged(renderer)
      ensures r.Ok? ==>
        fresh(r.value) && fresh(r.value.items) && r.value.Valid() && r.value.log == [] &&
        r.value.maxItems == maxItems && r.value.maxStackSize == maxStackSize &&
        (forall k :: 0 <= k < r.value.items.Length ==> r.value.items[k].None?) &&
        renderer.inventory == r.value && renderer.slotIndexes == old(renderer.slotIndexes)
    {
      var check := ConfigCheck(maxItems, maxStackSize);
      if check.Exception? {
        return Exception(check.message);
      }
      var inv := new Inventory(maxItems, maxStackSize, renderer);
      return Ok(inv);
    }

    /** The number of occupied slots. */
    function Count(): (n: nat)
      reads items
      ensures n == |OccupiedSlots(items[..])| && n <= items.Length
    {
      CountIsOccupiedSlots(items[..]);
      Stacks.Count(items[..])
    }

    /** The quantity of item `itemId` over all its stacks. */
    function GetTotalAmount(itemId: int): (t: nat)
      requires Valid()
      reads items
      ensures t == 0 <==> forall k :: 0 <= k < items.Length ==> !Holds(items[k], itemId)
      ensures forall k :: 0 <= k < items.Length && Holds(items[k], itemId) ==>
                items[k].value.amount <= t
    {
      var s := items[..];
      TotalZero(s, itemId, maxStackSize);
      forall k | 0 <= k < |s| && Holds(s[k], itemId) ensures s[k].value.amount <= Total(s, itemId) {
        WeightAtMostSum(s, k, AmountOf(itemId));
      }
      Total(s, itemId)
    }

    /** The items of the stacks of `itemId`, one per slot in ascending slot order, without
        removing them. */
    function Peek(itemId: int): (r: seq<Item>)
      reads items
      ensures var js := Holders(items[..], itemId);
        |r| == |js| && forall i :: 0 <= i < |r| ==> r[i] == items[js[i]].value.item
    {
      Stacks.Peek(items[..], itemId)
    }

    /** The renderer's `GetSlotAmount` callback: the amount of the slot's stack as decimal
        text, or the empty string for an empty slot. */
    function SlotAmountText(index: int): (r: string)
      requires 0 <= index < items.Length
      reads items
      ensures r == "" <==> items[index].None?
      ensures items[index].Some? ==>
        (forall i :: 0 <= i < |r| ==> Decimal.IsDigit(r[i])) &&
        (r[0] == '0' ==> |r| == 1) &&
        Decimal.ParseNat(r) == items[index].value.amount
    {
      if items[index].Some? then
        Decimal.NatStringRoundTrip(items[index].value.amount);
        Decimal.NatString(items[index].value.amount)
      else ""
    }

    /** The renderer's `SwitchListIndex` callback: exchanges two slots, which changes neither
        the number of occupied slots nor any item's total. */
    method SwitchListIndex(i: int, j: int)
      requires Valid() && 0 <= i < items.Length && 0 <= j < items.Length
      modifies items
      ensures Valid()
      ensures items[..] == Swap(old(items[..]), i, j)
      ensures Count() == old(Count())
      ensures forall id :: Total(items[..], id) == old(Total(items[..], id))
    {
      ghost var s := items[..];
      var tmp, tmp2 := items[i], items[j];
      items[i] := tmp2;
      items[j] := tmp;
      assert items[..] == Swap(s, i, j);
      SumSwap(s, i, j, Occupancy);
      forall id ensures Total(items[..], id) == Total(s, id) {
        SumSwap(s, i, j, AmountOf(id));
      }
    }

    /** `Add(newItem, amount, out message)`: the boolean result and the message, or the
        exception thrown for a non-positive amount. */
    method Add(newItem: Item, amount: int) returns (r: Result<(bool, string)>)
      requires Valid()
      modifies this, items
      ensures Valid()
      ensures amount <= 0 ==>
        r == Exception("[ItemInsert]: Item amount cannot be zero or less.") &&
        items[..] == old(items[..]) && log == old(log)
      ensures amount > 0 ==>
        var spec := AddSpec(old(items[..]), newItem, amount, maxStackSize, old(log));
        r == Ok((spec.ok, MessageText(spec.message))) && items[..] == spec.slots && log == spec.log
    {
      if amount <= 0 {
        return Exception("[ItemInsert]: Item amount cannot be zero or less.");
      }
      var ok, message;
      if amount > maxStackSize {
        ok, message := AddInBatches(newItem, amount);
      } else {
        ok, message := AddStack(newItem, amount);
      }
      return Ok((ok, message));
    }

    /** The batch branch of `Add`: one pass per batch of at most `maxStackSize` (the ceiling
        of `amount / maxStackSize` passes), returning at the first pass that fails. */
    method AddInBatches(newItem: Item, amount: int) returns (ok: bool, message: string)
      requires Valid() && amount > maxStackSize
      modifies this, items
      ensures Valid()
      ensures var spec := AddBatches(old(items[..]), newItem, amount, maxStackSize, old(log));
        ok == spec.ok && message == MessageText(spec.message) &&
        items[..] == spec.slots && log == spec.log
    {
      ok, message := true, "";
      var batches := BatchCount(amount, maxStackSize);
      ghost var target := AddBatches(items[..], newItem, amount, maxStackSize, log);
      var leftOver := amount;
      var i := 0;
      ghost var passes: nat := batches;
      while i < batches
        invariant i <= batches && passes == batches - i
        invariant Valid() && 0 < leftOver && ok && message == ""
        invariant target == BatchLoop(items[..], newItem, passes, leftOver, maxStackSize, log)
      {
        ok, message := AddBatch(newItem, passes, leftOver);
        if !ok {
          return;
        }
        leftOver := leftOver - maxStackSize;
        if leftOver <= 0 {
          break;
        }
        i := i + 1;
        passes := passes - 1;
      }
    }

    /** One pass of the batch loop of `Add`: a call of `Add` for a full stack's worth while at
        least that much is left, else for the remainder. The loop goes on after it exactly
        when it succeeds with more than a stack's worth left. */
    method AddBatch(newItem: Item, ghost passes: nat, leftOver: int) returns (ok: bool, message: string)
      requires Valid() && 0 < leftOver && 0 < passes
      modifies this, items
      ensures Valid()
      ensures ok ==> message == ""
      ensures var spec := BatchLoop(old(items[..]), newItem, passes, leftOver, maxStackSize, old(log));
        if ok && leftOver > maxStackSize then
          spec == BatchLoop(items[..], newItem, passes - 1, leftOver - maxStackSize, maxStackSize, log)
        else
          ok == spec.ok && message == MessageText(spec.message) && items[..] == spec.slots && log == spec.log
    {
      ghost var s, log0 := items[..], log;
      var batch := if leftOver >= maxStackSize then maxStackSize else leftOver;
      if leftOver > maxStackSize {
        BatchLoopPass(s, newItem, passes, leftOver, maxStackSize, log0);
      } else {
        BatchLoopLast(s, newItem, passes, leftOver, maxStackSize, log0);
      }
      ok, message := AddStack(newItem, batch);
      ghost var b := AddSingle(s, newItem, batch, maxStackSize, log0);
      assert items[..] == b.slots && log == b.log && ok == b.ok;
    }

    /** The single-stack branch of `Add`: tops up the item's non-full stacks fullest first,
        then places what is left. */
    method AddStack(newItem: Item, amount: int) returns (ok: bool, message: string)
      requires Valid() && 0 < amount <= maxStackSize
      modifies this, items
      ensures Valid()
      ensures ok <==> message == ""
      ensures var spec := AddSingle(old(items[..]), newItem, amount, maxStackSize, old(log));
        ok == spec.ok && message == MessageText(spec.message) &&
        items[..] == spec.slots && log == spec.log
    {
      // the candidate stacks are ordered before any of them changes
      var order := FullestFirst(items[..], newItem.id, maxStackSize);
      FullestFirstOrder(items[..], newItem.id, maxStackSize);
      var left := TopUp(order, amount);
      ok, message := PlaceLeft(newItem, amount, left);
    }

    /** The end of the single-stack branch of `Add`: what is left becomes a new stack in the
        lowest empty slot (an `ItemInserted`); with no empty slot `Add` fails with a message
        that tells "nothing placed" from "only N placed". */
    method PlaceLeft(newItem: Item, amount: int, left: nat) returns (ok: bool, message: string)
      requires Valid() && left <= amount <= maxStackSize
      modifies this, items
      ensures Valid()
      ensures ok <==> message == ""
      ensures var spec := Place(Progress(old(items[..]), left, old(log)), newItem, amount, maxStackSize);
        ok == spec.ok && message == MessageText(spec.message) &&
        items[..] == spec.slots && log == spec.log
    {
      ok, message := true, "";
      if left > 0 {
        var open := FirstOpen(items[..], 0);
        if open.None? {
          if amount - left == 0 {
            message := "Inventory is full.";
            assert message == MessageText(InventoryFull);
          } else {
            message := "Inventory is full, only added " + Decimal.NatString(amount - left) + " amount.";
            assert message == MessageText(OnlyAdded(amount - left));
          }
          return false, message;
        }
        items[open.value] := Some(Stack(newItem, left));
        log := log + [Event(Inserted, newItem, 0, left)];
      }
    }

    /** The absorbing loop of `Add`: fills the stacks in `order` one after the other, raising
        an `ItemUpdated` for each, until the amount is used up; returns what is left. */
    method TopUp(order: seq<int>, amount: int) returns (left: nat)
      requires Valid() && 0 < amount && Occupies(items[..], order)
      modifies this, items
      ensures Valid()
      ensures Progress(items[..], left, log) ==
        Absorb(order, Progress(old(items[..]), amount, old(log)), maxStackSize)
    {
      ghost var absorbed := Absorb(order, Progress(items[..], amount, log), maxStackSize);
      left := amount;
      var i := 0;
      while i < |order|
        invariant 0 <= i <= |order| && Valid() && 0 < left
        invariant Occupies(items[..], order[i..])
        invariant absorbed == Absorb(order[i..], Progress(items[..], left, log), maxStackSize)
      {
        left := TopUpSlot(order, i, left);
        i := i + 1;
        if left == 0 {
          break;
        }
      }
    }

    /** One stack of the absorbing loop: filled up to `maxStackSize` when what is left covers
        its room, else grown by all that is left. */
    method TopUpSlot(order: seq<int>, i: nat, left: nat) returns (left': nat)
      requires Valid() && i < |order| && Occupies(items[..], order[i..]) && 0 < left
      modifies this, items
      ensures Valid() && Occupies(items[..], order[i + 1..])
      ensures Absorb(order[i..], Progress(old(items[..]), left, old(log)), maxStackSize) ==
        Absorb(order[i + 1..], Progress(items[..], left', log), maxStackSize)
      ensures left' == 0 ==>
        Absorb(order[i..], Progress(old(items[..]), left, old(log)), maxStackSize) == Progress(items[..], left', log)
    {
      AbsorbStep(order, i, Progress(items[..], left, log), maxStackSize);
      var k := order[i];
      var st := items[k].value;
      var room := maxStackSize - st.amount;
      if left >= room {
        left' := left - room;
        items[k] := Some(Stack(st.item, maxStackSize));
        log := log + [Event(Updated, st.item, st.amount, maxStackSize)];
      } else {
        items[k] := Some(Stack(st.item, st.amount + left));
        log := log + [Event(Updated, st.item, st.amount, st.amount + left)];
        left' := 0;
      }
    }

    /** `Remove(itemId, amount)`: walks the item's stacks in slot order, emptying those it can
        take whole and decrementing the first one it cannot; a shortfall is ignored. */
    method Remove(itemId: int, amount: int) returns (r: Result<()>)
      requires Valid()
      modifies this, items
      ensures Valid()
      ensures amount <= 0 ==>
        r == Exception("[ItemRemove]: Item amount cannot be zero or less.") &&
        items[..] == old(items[..]) && log == old(log)
      ensures amount > 0 ==>
        var spec := RemoveSpec(old(items[..]), itemId, amount, maxStackSize, old(log));
        r == Ok(()) && items[..] == spec.slots && log == spec.log
    {
      if amount <= 0 {
        return Exception("[ItemRemove]: Item amount cannot be zero or less.");
      }
      ghost var target := RemoveSpec(items[..], itemId, amount, maxStackSize, log);
      var leftOver := amount;
      var k := 0;
      while k < items.Length
        invariant 0 <= k <= items.Length && Valid() && 0 <= leftOver
        invariant target == TakeFrom(Progress(items[..], leftOver, log), itemId, k, maxStackSize)
      {
        if items[k].Some? && items[k].value.item.id == itemId {
          var st := items[k].value;
          if leftOver >= st.amount {
            leftOver := leftOver - st.amount;
            items[k] := None;
            log := log + [Event(Removed, st.item, st.amount, 0)];
          } else {
            items[k] := Some(Stack(st.item, st.amount - leftOver));
            log := log + [Event(Updated, st.item, st.amount, st.amount - leftOver)];
            leftOver := 0;
            break;
          }
        }
        k := k + 1;
      }
      return Ok(());
    }

    /** `Remove(oldItem, amount)`: removal by the item's id. */
    method RemoveItem(oldItem: Item, amount: int) returns (r: Result<()>)
      requires Valid()
      modifies this, items
      ensures Valid()
      ensures amount <= 0 ==>
        r == Exception("[ItemRemove]: Item amount cannot be zero or less.") &&
        items[..] == old(items[..]) && log == old(log)
      ensures amount > 0 ==>
        var spec := RemoveSpec(old(items[..]), oldItem.id, amount, maxStackSize, old(log));
        r == Ok(()) && items[..] == spec.slots && log == spec.log
    {
      r := Remove(oldItem.id, amount);
    }
  }

  /** The view of a store: `slotCount` visual slot holders, and the binding of logical slots
      to the visual elements drawn in them. A slot is open when it has no binding. */
  class InventoryRenderer {
    const slotCount: nat
    var slotIndexes: map<int, Visual>
    /** The store whose callbacks the renderer holds; null until a store is built on it. */
    var inventory: Inventory?
    /** The calls made to the store's `SwitchListIndex` callback, in order. */
    ghost var reorders: seq<(int, int)>

    ghost predicate Valid()
      reads this
    {
      Injective(slotIndexes) && KeysBelow(slotIndexes, slotCount)
    }

    constructor (slotCount: nat)
      ensures Valid() && this.slotCount == slotCount
      ensures slotIndexes == map[] && inventory == null && reorders == []
    {
      this.slotCount := slotCount;
      slotIndexes := map[];
      inventory := null;
      reorders := [];
    }

    /** A slot is open when nothing is drawn in it; every slot outside the renderer is. */
    predicate IsSlotOpen(slot: int)
      reads this
      ensures Valid() && !(0 <= slot < slotCount) ==> IsSlotOpen(slot)
    {
      slot !in slotIndexes
    }

    /** Drawing a slot: after the guards, a bound slot is redrawn in place and an open slot is
        bound to the newly created `visual`. */
    method UpdateSlot(slot: int, texture: Texture, visual: Visual) returns (r: Result<()>)
      requires Valid() && visual !in Visuals(slotIndexes)
      modifies this
      ensures Valid() && inventory == old(inventory) && reorders == old(reorders)
      ensures r == DrawGuard(slotCount, slot, texture)
      ensures r.Ok? ==> slotIndexes == BindIfAbsent(old(slotIndexes), slot, visual)
      ensures r.Exception? ==> slotIndexes == old(slotIndexes)
    {
      r := DrawGuard(slotCount, slot, texture);
      if r.Exception? {
        return;
      }
      BindKeepsInjective(slotIndexes, slot, visual);
      if slot !in slotIndexes {
        slotIndexes := slotIndexes[slot := visual];
      }
    }

    /** Clearing a slot: after the index guard the visual is destroyed, but the binding stays,
        so the slot is not open afterwards. */
    method ClearSlot(slot: int) returns (r: Result<()>)
      ensures r == SlotGuard(slotCount, slot)
    {
      r := SlotGuard(slotCount, slot);
    }

    /** Moving a visual onto an open slot relabels its binding and swaps the two slots of the
        store; onto a bound slot it does nothing. Either way every visual keeps showing the
        content it showed. */
    method MoveSlotIndex(src: int, dst: int)
      requires Valid() && inventory != null && inventory.Valid()
      requires IsSlotOpen(dst) ==>
        src in slotIndexes && 0 <= dst < slotCount &&
        0 <= src < inventory.items.Length && 0 <= dst < inventory.items.Length
      modifies this, inventory.items
      ensures Valid() && inventory == old(inventory) && inventory.Valid()
      ensures old(IsSlotOpen(dst)) ==>
        slotIndexes == Move(old(slotIndexes), src, dst) &&
        inventory.items[..] == Swap(old(inventory.items[..]), src, dst) &&
        reorders == old(reorders) + [(src, dst)]
      ensures !old(IsSlotOpen(dst)) ==>
        slotIndexes == old(slotIndexes) && inventory.items[..] == old(inventory.items[..]) &&
        reorders == old(reorders)
      ensures Visuals(slotIndexes) == old(Visuals(slotIndexes))
      ensures Pairing(slotIndexes, inventory.items[..]) == old(Pairing(slotIndexes, inventory.items[..]))
    {
      if IsSlotOpen(dst) {
        MoveKeepsVisuals(slotIndexes, src, dst);
        MovePairing(slotIndexes, inventory.items[..], src, dst);
        var v := slotIndexes[src];
        slotIndexes := slotIndexes - {src};
        slotIndexes := slotIndexes[dst := v];
        reorders := reorders + [(src, dst)];
        inventory.SwitchListIndex(src, dst);
      }
    }

    /** Exchanging the visuals of two bound slots exchanges their bindings and swaps the two
        slots of the store, so every visual keeps showing the content it showed. */
    method SwitchSlotIndex(a: int, b: int)
      requires Valid() && inventory != null && inventory.Valid()
      requires a in slotIndexes && b in slotIndexes
      requires a < inventory.items.Length && b < inventory.items.Length
      modifies this, inventory.items
      ensures Valid() && inventory == old(inventory) && inventory.Valid()
      ensures slotIndexes == Exchange(old(slotIndexes), a, b)
      ensures inventory.items[..] == Swap(old(inventory.items[..]), a, b)
      ensures reorders == old(reorders) + [(a, b)]
      ensures Visuals(slotIndexes) == old(Visuals(slotIndexes))
      ensures Pairing(slotIndexes, inventory.items[..]) == old(Pairing(slotIndexes, inventory.items[..]))
    {
      ExchangeKeepsVisuals(slotIndexes, a, b);
      ExchangePairing(slotIndexes, inventory.items[..], a, b);
      var tmp, tmp2 := slotIndexes[a], slotIndexes[b];
      slotIndexes := slotIndexes[a := tmp2];
      slotIndexes := slotIndexes[b := tmp];
      reorders := reorders + [(a, b)];
      inventory.SwitchListIndex(a, b);
    }

    /** A dragged visual dropped on slot `dst` (`ItemSlot.OnDrop`): a move onto an open slot,
        an exchange with a bound one. The dragged visual ends up bound to `dst`, the store's
        two slots are swapped exactly once, and every visual keeps showing its content. */
    method Drop(src: int, dst: int)
      requires Valid() && inventory != null && inventory.Valid()
      requires src in slotIndexes && 0 <= dst < slotCount
      requires src < inventory.items.Length && dst < inventory.items.Length
      modifies this, inventory.items
      ensures Valid() && inventory == old(inventory) && inventory.Valid()
      ensures dst in slotIndexes && slotIndexes[dst] == old(slotIndexes[src])
      ensures slotIndexes.Keys ==
        if old(IsSlotOpen(dst)) then old(slotIndexes.Keys) - {src} + {dst} else old(slotIndexes.Keys)
      ensures inventory.items[..] == Swap(old(inventory.items[..]), src, dst)
      ensures reorders == old(reorders) + [(src, dst)]
      ensures Visuals(slotIndexes) == old(Visuals(slotIndexes))
      ensures Pairing(slotIndexes, inventory.items[..]) == old(Pairing(slotIndexes, inventory.items[..]))
    {
      if IsSlotOpen(dst) {
        MoveSlotIndex(src, dst);
      } else {
        SwitchSlotIndex(src, dst);
      }
    }
  }
}
