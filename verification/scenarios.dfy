/** The store's play-mode scenarios stated over the model: a store of `n` slots that starts
    empty, one that is full of whole stacks, one that is full but for one stack, and the
    events and totals of a short sequence of additions and removals. */
module Scenarios {
  import opened Stacks
  import opened Adding
  import opened Removing

  /** A store of `n` empty slots. */
  function Empty(n: nat): (s: seq<Slot>)
    ensures |s| == n && forall k :: 0 <= k < n ==> s[k] == None
  {
    seq(n, _ => None)
  }

  /** Arithmetic helper for `EmptyStoreTakes`. */
  lemma {:induction false} MulMono(a: nat, b: nat, c: nat)
    requires a <= b
    ensures a * c <= b * c
    decreases b
  {
    if a < b {
      MulMono(a, b - 1, c);
      MulSucc(b - 1, c);
    }
  }

  /** An empty store holds nothing and occupies no slot. */
  lemma EmptyCounts(n: nat, id: int, max: nat)
    ensures Count(Empty(n)) == 0 && Total(Empty(n), id) == 0
  {
    var s := Empty(n);
    CountIsOccupiedSlots(s);
    assert OccupiedSlots(s) == {};
    TotalZero(s, id, max);
  }

  /** With no non-full stack of the item, nothing absorbs. */
  lemma NoCandidate(s: seq<Slot>, id: int, max: nat)
    requires forall k :: !IsCandidate(s, id, max, k)
    ensures FullestFirst(s, id, max) == []
  {
    FullestFirstOrder(s, id, max);
  }

  /** With exactly one non-full stack of the item, that stack alone absorbs. */
  lemma OneCandidate(s: seq<Slot>, id: int, max: nat, j: nat)
    requires IsCandidate(s, id, max, j)
    requires forall k :: k != j ==> !IsCandidate(s, id, max, k)
    ensures FullestFirst(s, id, max) == [j]
  {
    FullestFirstOrder(s, id, max);
    var q := FullestFirst(s, id, max);
    assert j in q;
    assert forall i :: 0 <= i < |q| ==> q[i] == j;
    assert q[0] == q[|q| - 1];
  }

  /** The lowest slot of a store whose slot 0 is empty is slot 0. */
  lemma FirstOpenZero(s: seq<Slot>)
    requires |s| > 0 && s[0] == None
    ensures FirstOpen(s, 0) == Some(0)
  {
  }

  /** An empty store of `n` slots takes any amount up to `n` whole stacks, and then holds
      exactly that amount of the item. */
  lemma EmptyStoreTakes(n: nat, item: Item, amount: nat, max: nat)
    requires 0 < max && 0 < amount <= n * max
    ensures var r := AddSpec(Empty(n), item, amount, max, []);
      r.ok && r.message == NoMessage && Total(r.slots, item.id) == amount
  {
    var s := Empty(n);
    EmptyCounts(n, item.id, max);
    if amount > max {
      var b := BatchCount(amount, max);
      BatchCountCeiling(amount, max);
      if b > n {
        MulMono(n, b - 1, max);
      }
      BatchesSucceed(s, item, amount, max, []);
    } else {
      AddSingleCount(s, item, amount, max, []);
    }
    AddAccounting(s, item, amount, max, []);
  }

  /** The first addition to an empty store makes a new stack in slot 0 and raises one
      `Inserted` event from 0 to the amount. */
  lemma FirstAddition(n: nat, item: Item, amount: nat, max: nat, log: seq<Event>)
    requires 0 < n && 0 < amount <= max
    ensures AddSpec(Empty(n), item, amount, max, log) ==
      AddResult(Empty(n)[0 := Some(Stack(item, amount))], true, NoMessage,
                log + [Event(Inserted, item, 0, amount)])
  {
    var s := Empty(n);
    NoCandidate(s, item.id, max);
    FirstOpenZero(s);
    AddSpecSingle(s, item, amount, max, log);
    assert Absorb([], Progress(s, amount, log), max) == Progress(s, amount, log);
  }

  /** Adding to the one non-full stack of the item, within its room, grows that stack and
      raises one `Updated` event from the old amount to the new. */
  lemma AdditionTopsUp(s: seq<Slot>, item: Item, amount: nat, max: nat, log: seq<Event>, j: nat)
    requires WellFormed(s, max) && 0 < amount && IsCandidate(s, item.id, max, j)
    requires s[j].value.amount + amount < max
    requires forall k :: k != j ==> !IsCandidate(s, item.id, max, k)
    ensures var st := s[j].value;
      AddSpec(s, item, amount, max, log) ==
      AddResult(s[j := Some(Stack(st.item, st.amount + amount))], true, NoMessage,
                log + [Event(Updated, st.item, st.amount, st.amount + amount)])
  {
    OneCandidate(s, item.id, max, j);
  }

  /** A store whose every slot holds a whole stack refuses any addition of at most one stack
      with "Inventory is full." and changes nothing. */
  lemma FullStoreRejects(s: seq<Slot>, item: Item, amount: nat, max: nat, log: seq<Event>)
    requires 0 < amount <= max
    requires forall k :: 0 <= k < |s| ==> s[k].Some? && s[k].value.amount == max
    ensures AddSpec(s, item, amount, max, log) == AddResult(s, false, InventoryFull, log)
    ensures MessageText(InventoryFull) == "Inventory is full."
  {
    NoCandidate(s, item.id, max);
    AddSpecSingle(s, item, amount, max, log);
    assert Absorb([], Progress(s, amount, log), max) == Progress(s, amount, log);
    assert FirstOpen(s, 0).None?;
  }

  /** A store full but for one stack of the item holding `a` fills that stack with a whole-stack
      addition, finds no empty slot for the rest and reports only the room it had. */
  lemma NearlyFullStoreReports(s: seq<Slot>, item: Item, max: nat, log: seq<Event>, j: nat)
    requires 0 < max && j < |s| && s[j].Some? && s[j].value.item == item
    requires 0 < s[j].value.amount < max
    requires forall k :: 0 <= k < |s| && k != j ==> s[k].Some? && s[k].value.amount == max
    ensures var a := s[j].value.amount;
      AddSpec(s, item, max, max, log) ==
      AddResult(s[j := Some(Stack(item, max))], false, OnlyAdded(max - a),
                log + [Event(Updated, item, a, max)])
  {
    OneCandidate(s, item.id, max, j);
    var a := s[j].value.amount;
    var p' := Progress(s[j := Some(Stack(item, max))], a, log + [Event(Updated, item, a, max)]);
    assert Absorb([j], Progress(s, max, log), max) == Absorb([], p', max);
    assert FirstOpen(p'.slots, 0).None?;
  }

  /** The text of the partial-addition message for 32 of a 64 stack. */
  lemma OnlyAddedText()
    ensures MessageText(OnlyAdded(32)) == "Inventory is full, only added 32 amount."
  {
    assert Decimal.NatString(3) == "3";
    assert Decimal.NatString(32) == "32";
  }

  /** Thirty-six slots of 64: adding 60, 4 and 6 of one item succeeds each time with totals
      60, 64 and 70, and removing 60 then leaves 10. */
  lemma AddRemoveScenario(item: Item)
    ensures var r1 := AddSpec(Empty(36), item, 60, 64, []);
      && r1.ok && Total(r1.slots, item.id) == 60
      && var r2 := AddSpec(r1.slots, item, 4, 64, r1.log);
      && r2.ok && Total(r2.slots, item.id) == 64
      && var r3 := AddSpec(r2.slots, item, 6, 64, r2.log);
      && r3.ok && Total(r3.slots, item.id) == 70
      && Total(RemoveSpec(r3.slots, item.id, 60, 64, r3.log).slots, item.id) == 10
  {
    var s := Empty(36);
    EmptyStoreTakes(36, item, 60, 64);
    var r1 := AddSpec(s, item, 60, 64, []);
    EmptyCounts(36, item.id, 64);
    AddSingleCount(s, item, 60, 64, []);
    var r2 := AddSpec(r1.slots, item, 4, 64, r1.log);
    AddSingleCount(r1.slots, item, 4, 64, r1.log);
    AddAccounting(r1.slots, item, 4, 64, r1.log);
    var r3 := AddSpec(r2.slots, item, 6, 64, r2.log);
    AddSingleCount(r2.slots, item, 6, 64, r2.log);
    AddAccounting(r2.slots, item, 6, 64, r2.log);
    RemoveTotal(r3.slots, item.id, 60, 64, r3.log);
  }

  /** The event scenario on an empty store: adding 1 raises `Inserted` 0 to 1, adding 1 more
      raises `Updated` 1 to 2, and removing 1 then raises `Updated` 2 to 1. */
  lemma EventScenario(n: nat, item: Item, max: nat)
    requires 0 < n && 2 < max
    ensures var r1 := AddSpec(Empty(n), item, 1, max, []);
      && r1.log == [Event(Inserted, item, 0, 1)]
      && var r2 := AddSpec(r1.slots, item, 1, max, r1.log);
      && r2.log == r1.log + [Event(Updated, item, 1, 2)]
      && RemoveSpec(r2.slots, item.id, 1, max, r2.log).log == r2.log + [Event(Updated, item, 2, 1)]
  {
    var log1 := [Event(Inserted, item, 0, 1)];
    var t1 := Empty(n)[0 := Some(Stack(item, 1))];
    FirstAddition(n, item, 1, max, []);
    var log2 := log1 + [Event(Updated, item, 1, 2)];
    var t2 := t1[0 := Some(Stack(item, 2))];
    assert t1[0].value == Stack(item, 1);
    AdditionTopsUp(t1, item, 1, max, log1, 0);
    var r2 := AddSpec(t1, item, 1, max, log1);
    assert r2.slots == t2 && r2.log == log2;
    assert RemoveSpec(t2, item.id, 1, max, log2) ==
      Progress(t2[0 := Some(Stack(item, 1))], 0, log2 + [Event(Updated, item, 2, 1)]);
  }

  /** A first pass of a whole stack into an empty store makes a new stack in slot 0. */
  lemma FirstPass(n: nat, item: Item, max: nat)
    requires 0 < n && 0 < max
    ensures AddSingle(Empty(n), item, max, max, []) ==
      AddResult(Empty(n)[0 := Some(Stack(item, max))], true, NoMessage, [Event(Inserted, item, 0, max)])
  {
    var s := Empty(n);
    assert WellFormed(s, max);
    FirstAddition(n, item, max, max, []);
    AddSpecSingle(s, item, max, max, []);
  }

  /** Sequence helper for `BatchesAsWritten`. */
  lemma OneSlotFilled(x: Slot)
    ensures Empty(1)[0 := x] == [x]
  {
  }

  /** The second pass, of the remaining 36, finds the one slot full and places nothing. */
  lemma OneSlotSecondPass(item: Item, log: seq<Event>)
    ensures AddBatches([Some(Stack(item, 64))], item, 36, 64, log) ==
      AddResult([Some(Stack(item, 64))], false, InventoryFull, log)
  {
    var t := [Some(Stack(item, 64))];
    BatchesLast(t, item, 36, 64, log);
    FullStoreRejects(t, item, 36, 64, log);
    AddSpecSingle(t, item, 36, 64, log);
  }

  /** The batch branch's message as written: a store of one slot of 64 given 100 of an item
      places a whole stack of 64 in the first pass, then the second pass finds no room and its
      own message, "Inventory is full.", is the one returned, though 64 were added. The
      corrected message reports the 64. */
  lemma BatchMessageUnderReports(item: Item)
    ensures var r := AddSpec(Empty(1), item, 100, 64, []);
      && !r.ok && r.message == InventoryFull && Total(r.slots, item.id) == 64
      && BatchesReported(Empty(1), item, 100, 64, []).message == OnlyAdded(64)
  {
    var s := Empty(1);
    var t := [Some(Stack(item, 64))];
    BatchesAsWritten(item);
    EmptyCounts(1, item.id, 64);
    assert t[..0] == [];
    assert Total(t, item.id) == 64;
  }

  /** The two passes of 100 into one slot of 64: the first fills the slot, the second fails. */
  lemma BatchesAsWritten(item: Item)
    ensures AddSpec(Empty(1), item, 100, 64, []) ==
      AddResult([Some(Stack(item, 64))], false, InventoryFull, [Event(Inserted, item, 0, 64)])
  {
    var s := Empty(1);
    var t := [Some(Stack(item, 64))];
    var log1 := [Event(Inserted, item, 0, 64)];
    FirstPass(1, item, 64);
    OneSlotFilled(Some(Stack(item, 64)));
    BatchesFull(s, item, 100, 64, []);
    OneSlotSecondPass(item, log1);
    assert AddBatches(s, item, 100, 64, []) == AddResult(t, false, InventoryFull, log1);
  }
}
