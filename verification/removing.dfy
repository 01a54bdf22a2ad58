/** The value-level specification of `Inventory.Remove`: a walk over the slots in index order
    that empties every stack of the item it can take whole and decrements the first one it
    cannot, ignoring any shortfall. `TakeFrom` follows the code as written, including the
    extra `Updated` event it raises when the amount runs out exactly on a whole stack;
    `TakeFromFixed` stops there instead. */
module Removing {
  import opened Stacks

  /** Walks the slots from `k` on, taking `p.left` of item `id`: a stack no larger than what
      is left is emptied (a `Removed` event), the first larger one is decremented (an `Updated`
      event) and the walk stops. Nothing stops the walk when `p.left` reaches 0 on a whole
      stack: the next stack of the item is then "decremented" by 0. */
  function TakeFrom(p: Progress, id: int, k: nat, max: nat): (r: Progress)
    requires k <= |p.slots| && WellFormed(p.slots, max)
    ensures |r.slots| == |p.slots| && WellFormed(r.slots, max) && r.left <= p.left
    decreases |p.slots| - k
  {
    if k == |p.slots| then p
    else if !Holds(p.slots[k], id) then TakeFrom(p, id, k + 1, max)
    else
      var st := p.slots[k].value;
      if p.left >= st.amount then
        TakeFrom(Progress(p.slots[k := None], p.left - st.amount,
                          p.log + [Event(Removed, st.item, st.amount, 0)]), id, k + 1, max)
      else
        Progress(p.slots[k := Some(Stack(st.item, st.amount - p.left))], 0,
                 p.log + [Event(Updated, st.item, st.amount, st.amount - p.left)])
  }

  /** `Remove(itemId, amount)` for a positive amount. */
  function RemoveSpec(s: seq<Slot>, id: int, amount: nat, max: nat, log: seq<Event>): (r: Progress)
    requires WellFormed(s, max)
    ensures |r.slots| == |s| && WellFormed(r.slots, max)
  {
    TakeFrom(Progress(s, amount, log), id, 0, max)
  }

  /** The walk leaves the slots before `k`, and every slot not holding the item, as they were. */
  lemma {:induction false} TakeFrame(p: Progress, id: int, k: nat, max: nat)
    requires k <= |p.slots| && WellFormed(p.slots, max)
    ensures var r := TakeFrom(p, id, k, max);
      forall j :: 0 <= j < |p.slots| && (j < k || !Holds(p.slots[j], id)) ==> r.slots[j] == p.slots[j]
    decreases |p.slots| - k
  {
    if k < |p.slots| {
      var r := TakeFrom(p, id, k, max);
      if !Holds(p.slots[k], id) {
        TakeFrame(p, id, k + 1, max);
        assert r == TakeFrom(p, id, k + 1, max);
      } else {
        var st := p.slots[k].value;
        if p.left >= st.amount {
          var p' := Progress(p.slots[k := None], p.left - st.amount,
                             p.log + [Event(Removed, st.item, st.amount, 0)]);
          TakeFrame(p', id, k + 1, max);
          assert r == TakeFrom(p', id, k + 1, max);
        }
      }
    }
  }

  /** A slot holding the item that the walk changes is emptied or left with a smaller stack of
      the same item. */
  lemma {:induction false} TakeShrinks(p: Progress, id: int, k: nat, max: nat)
    requires k <= |p.slots| && WellFormed(p.slots, max)
    ensures var r := TakeFrom(p, id, k, max);
      forall j :: 0 <= j < |p.slots| && Holds(p.slots[j], id) && r.slots[j] != p.slots[j] ==>
        r.slots[j].None? ||
        (r.slots[j].value.item == p.slots[j].value.item && r.slots[j].value.amount <= p.slots[j].value.amount)
    decreases |p.slots| - k
  {
    if k < |p.slots| {
      var r := TakeFrom(p, id, k, max);
      if !Holds(p.slots[k], id) {
        TakeShrinks(p, id, k + 1, max);
        assert r == TakeFrom(p, id, k + 1, max);
      } else {
        var st := p.slots[k].value;
        if p.left >= st.amount {
          var p' := Progress(p.slots[k := None], p.left - st.amount,
                             p.log + [Event(Removed, st.item, st.amount, 0)]);
          TakeShrinks(p', id, k + 1, max);
          TakeFrame(p', id, k + 1, max);
          assert r == TakeFrom(p', id, k + 1, max);
          assert r.slots[k] == None;
          assert forall j :: 0 <= j < |p.slots| && j != k ==> p'.slots[j] == p.slots[j];
        }
      }
    }
  }

  /** Accounting of the walk: what it takes is what leaves the item's total. */
  lemma {:induction false} TakeAccounting(p: Progress, id: int, k: nat, max: nat)
    requires k <= |p.slots| && WellFormed(p.slots, max)
    ensures var r := TakeFrom(p, id, k, max);
      Total(r.slots, id) + (p.left - r.left) == Total(p.slots, id)
    decreases |p.slots| - k
  {
    if k < |p.slots| {
      if !Holds(p.slots[k], id) {
        TakeAccounting(p, id, k + 1, max);
      } else {
        var st := p.slots[k].value;
        if p.left >= st.amount {
          var p' := Progress(p.slots[k := None], p.left - st.amount,
                             p.log + [Event(Removed, st.item, st.amount, 0)]);
          SumUpdate(p.slots, k, None, AmountOf(id));
          TakeAccounting(p', id, k + 1, max);
        } else {
          SumUpdate(p.slots, k, Some(Stack(st.item, st.amount - p.left)), AmountOf(id));
        }
      }
    }
  }

  /** The walk ends with something still to take only when no stack of the item is left from
      `k` on. */
  lemma {:induction false} TakeExhausts(p: Progress, id: int, k: nat, max: nat)
    requires k <= |p.slots| && WellFormed(p.slots, max)
    ensures var r := TakeFrom(p, id, k, max);
      r.left > 0 ==> forall j :: k <= j < |p.slots| ==> !Holds(r.slots[j], id)
    decreases |p.slots| - k
  {
    if k < |p.slots| {
      var r := TakeFrom(p, id, k, max);
      if !Holds(p.slots[k], id) {
        TakeExhausts(p, id, k + 1, max);
        TakeFrame(p, id, k + 1, max);
        assert r == TakeFrom(p, id, k + 1, max);
        assert r.slots[k] == p.slots[k];
      } else {
        var st := p.slots[k].value;
        if p.left >= st.amount {
          var p' := Progress(p.slots[k := None], p.left - st.amount,
                             p.log + [Event(Removed, st.item, st.amount, 0)]);
          TakeExhausts(p', id, k + 1, max);
          TakeFrame(p', id, k + 1, max);
          assert r == TakeFrom(p', id, k + 1, max);
          assert r.slots[k] == None;
        }
      }
    }
  }

  /** `Remove` takes exactly `amount` when that much is present and everything otherwise: the
      new total is `max(0, total - amount)`, with no error for a shortfall. */
  lemma RemoveTotal(s: seq<Slot>, id: int, amount: nat, max: nat, log: seq<Event>)
    requires WellFormed(s, max)
    ensures Total(RemoveSpec(s, id, amount, max, log).slots, id) ==
              if Total(s, id) >= amount then Total(s, id) - amount else 0
  {
    var r := RemoveSpec(s, id, amount, max, log);
    TakeAccounting(Progress(s, amount, log), id, 0, max);
    TakeExhausts(Progress(s, amount, log), id, 0, max);
    if r.left > 0 {
      TotalZero(r.slots, id, max);
    }
  }

  /** `Remove` changes no stack of another item, so every other total stays. */
  lemma RemoveOtherTotal(s: seq<Slot>, id: int, amount: nat, max: nat, log: seq<Event>, id': int)
    requires WellFormed(s, max) && id' != id
    ensures Total(RemoveSpec(s, id, amount, max, log).slots, id') == Total(s, id')
  {
    var r := RemoveSpec(s, id, amount, max, log);
    TakeFrame(Progress(s, amount, log), id, 0, max);
    TakeShrinks(Progress(s, amount, log), id, 0, max);
    TotalFrame(s, r.slots, id');
  }

  /** The walk goes in slot order: a stack of the item is changed only once every stack of the
      item before it has been emptied. */
  lemma {:induction false} TakeOrder(p: Progress, id: int, k: nat, max: nat)
    requires k <= |p.slots| && WellFormed(p.slots, max)
    ensures var r := TakeFrom(p, id, k, max);
      forall i, j :: k <= i < j < |p.slots| && Holds(p.slots[i], id) && r.slots[j] != p.slots[j] ==> r.slots[i].None?
    decreases |p.slots| - k
  {
    if k < |p.slots| {
      var r := TakeFrom(p, id, k, max);
      if !Holds(p.slots[k], id) {
        TakeOrder(p, id, k + 1, max);
        assert r == TakeFrom(p, id, k + 1, max);
      } else {
        var st := p.slots[k].value;
        if p.left >= st.amount {
          var p' := Progress(p.slots[k := None], p.left - st.amount,
                             p.log + [Event(Removed, st.item, st.amount, 0)]);
          TakeOrder(p', id, k + 1, max);
          TakeFrame(p', id, k + 1, max);
          assert r == TakeFrom(p', id, k + 1, max);
          assert r.slots[k] == None;
        }
      }
    }
  }

  /** A stack the walk leaves smaller but not empty is the last one it changes. */
  lemma {:induction false} TakeLast(p: Progress, id: int, k: nat, max: nat)
    requires k <= |p.slots| && WellFormed(p.slots, max)
    ensures var r := TakeFrom(p, id, k, max);
      forall i, j :: k <= i < j < |p.slots| && r.slots[i].Some? && r.slots[i] != p.slots[i] ==> r.slots[j] == p.slots[j]
    decreases |p.slots| - k
  {
    if k < |p.slots| {
      var r := TakeFrom(p, id, k, max);
      if !Holds(p.slots[k], id) {
        TakeLast(p, id, k + 1, max);
        TakeFrame(p, id, k + 1, max);
        assert r == TakeFrom(p, id, k + 1, max);
        assert r.slots[k] == p.slots[k];
      } else {
        var st := p.slots[k].value;
        if p.left >= st.amount {
          var p' := Progress(p.slots[k := None], p.left - st.amount,
                             p.log + [Event(Removed, st.item, st.amount, 0)]);
          TakeLast(p', id, k + 1, max);
          TakeFrame(p', id, k + 1, max);
          assert r == TakeFrom(p', id, k + 1, max);
          assert r.slots[k] == None;
        }
      }
    }
  }

  /** The kinds of events the walk raises: the log only grows; every new event is about item
      `id`; a `Removed` event reports a stack going from a positive amount to 0; an `Updated`
      event comes last and never reports an increase. `TakeLog` ties each event to its stack. */
  lemma {:induction false} TakeEvents(p: Progress, id: int, k: nat, max: nat)
    requires k <= |p.slots| && WellFormed(p.slots, max)
    ensures var r := TakeFrom(p, id, k, max);
      && |p.log| <= |r.log| && r.log[..|p.log|] == p.log
      && (forall i :: |p.log| <= i < |r.log| ==>
            && r.log[i].item.id == id
            && (r.log[i].kind == Removed ==> 0 < r.log[i].oldAmount && r.log[i].newAmount == 0)
            && (r.log[i].kind == Updated ==> i == |r.log| - 1 && r.log[i].newAmount <= r.log[i].oldAmount)
            && r.log[i].kind != Inserted)
    decreases |p.slots| - k
  {
    if k < |p.slots| {
      if !Holds(p.slots[k], id) {
        TakeEvents(p, id, k + 1, max);
      } else {
        var st := p.slots[k].value;
        if p.left >= st.amount {
          var p' := Progress(p.slots[k := None], p.left - st.amount,
                             p.log + [Event(Removed, st.item, st.amount, 0)]);
          TakeEvents(p', id, k + 1, max);
          var r := TakeFrom(p', id, k + 1, max);
          assert r.log[..|p.log|] == r.log[..|p'.log|][..|p.log|];
          assert r.log[|p.log|] == p'.log[|p.log|];
        }
      }
    }
  }

  /** The events a removal walk from `k` raises, read off the slots before (`s`) and after
      (`t`) it: in ascending slot order, a `Removed(item, amount, 0)` for each stack of item
      `id` that ended empty, up to the first stack of the item that survived, which gets one
      `Updated` from its old to its new amount. */
  function WalkLog(s: seq<Slot>, t: seq<Slot>, id: int, k: nat): seq<Event>
    requires |s| == |t| && k <= |s|
    decreases |s| - k
  {
    if k == |s| then []
    else if !Holds(s[k], id) then WalkLog(s, t, id, k + 1)
    else if t[k].None? then [Event(Removed, s[k].value.item, s[k].value.amount, 0)] + WalkLog(s, t, id, k + 1)
    else [Event(Updated, s[k].value.item, s[k].value.amount, t[k].value.amount)]
  }

  /** `WalkLog` from `k` depends only on the slots from `k` on. */
  lemma {:induction false} WalkLogFrame(s: seq<Slot>, s': seq<Slot>, t: seq<Slot>, id: int, k: nat)
    requires |s| == |t| == |s'| && k <= |s|
    requires forall j :: k <= j < |s| ==> s[j] == s'[j]
    ensures WalkLog(s, t, id, k) == WalkLog(s', t, id, k)
    decreases |s| - k
  {
    if k < |s| {
      WalkLogFrame(s, s', t, id, k + 1);
    }
  }

  /** The events of the walk, slot by slot: the log grows by exactly `WalkLog` of the slots
      before and after it, so the `i`-th `Removed` event belongs to the `i`-th stack emptied
      and carries its amount, and a decremented stack gets its `Updated` last. */
  lemma {:induction false} TakeLog(p: Progress, id: int, k: nat, max: nat)
    requires k <= |p.slots| && WellFormed(p.slots, max)
    ensures var r := TakeFrom(p, id, k, max);
      r.log == p.log + WalkLog(p.slots, r.slots, id, k)
    decreases |p.slots| - k
  {
    if k < |p.slots| {
      var r := TakeFrom(p, id, k, max);
      if !Holds(p.slots[k], id) {
        TakeLog(p, id, k + 1, max);
      } else {
        var st := p.slots[k].value;
        if p.left >= st.amount {
          var p' := Progress(p.slots[k := None], p.left - st.amount,
                             p.log + [Event(Removed, st.item, st.amount, 0)]);
          assert r == TakeFrom(p', id, k + 1, max);
          TakeLog(p', id, k + 1, max);
          TakeFrame(p', id, k + 1, max);
          WalkLogFrame(p.slots, p'.slots, r.slots, id, k + 1);
          assert r.slots[k] == None;
        }
      }
    }
  }

  /** The walk with the stop the code is missing: it ends as soon as nothing is left to take. */
  function TakeFromFixed(p: Progress, id: int, k: nat, max: nat): (r: Progress)
    requires k <= |p.slots| && WellFormed(p.slots, max)
    ensures |r.slots| == |p.slots| && WellFormed(r.slots, max) && r.left <= p.left
    decreases |p.slots| - k
  {
    if k == |p.slots| || p.left == 0 then p
    else if !Holds(p.slots[k], id) then TakeFromFixed(p, id, k + 1, max)
    else
      var st := p.slots[k].value;
      if p.left >= st.amount then
        TakeFromFixed(Progress(p.slots[k := None], p.left - st.amount,
                               p.log + [Event(Removed, st.item, st.amount, 0)]), id, k + 1, max)
      else
        Progress(p.slots[k := Some(Stack(st.item, st.amount - p.left))], 0,
                 p.log + [Event(Updated, st.item, st.amount, st.amount - p.left)])
  }

  /** At most one event beyond `log`: an `Updated` that reports no change. */
  predicate SpuriousTail(log: seq<Event>, full: seq<Event>) {
    full == log ||
    (|full| == |log| + 1 && full[..|log|] == log &&
     full[|log|].kind == Updated && full[|log|].oldAmount == full[|log|].newAmount)
  }

  /** The fixed walk leaves the same slots as the walk as written, and every `Updated` event it
      raises reports a strict decrease; the walk as written raises the same events plus at most
      one spurious `Updated` at the end. */
  lemma {:induction false} TakeFixedAgrees(p: Progress, id: int, k: nat, max: nat)
    requires k <= |p.slots| && WellFormed(p.slots, max)
    ensures var r := TakeFrom(p, id, k, max);
      var f := TakeFromFixed(p, id, k, max);
      && f.slots == r.slots && f.left == r.left
      && |p.log| <= |f.log| && f.log[..|p.log|] == p.log
      && (forall i :: |p.log| <= i < |f.log| && f.log[i].kind == Updated ==> f.log[i].newAmount < f.log[i].oldAmount)
      && SpuriousTail(f.log, r.log)
    decreases |p.slots| - k
  {
    TakeSpurious(p, id, k, max);
    if k < |p.slots| {
      if p.left == 0 {
        TakeNothing(p, id, k, max);
      } else if !Holds(p.slots[k], id) {
        TakeFixedAgrees(p, id, k + 1, max);
      } else {
        var st := p.slots[k].value;
        if p.left >= st.amount {
          var p' := Progress(p.slots[k := None], p.left - st.amount,
                             p.log + [Event(Removed, st.item, st.amount, 0)]);
          TakeFixedAgrees(p', id, k + 1, max);
          var f := TakeFromFixed(p', id, k + 1, max);
          assert f.log[..|p.log|] == f.log[..|p'.log|][..|p.log|];
          assert f.log[|p.log|] == p'.log[|p.log|];
        }
      }
    }
  }

  /** The walk as written raises the events of the fixed walk plus at most one spurious
      `Updated` at the end. */
  lemma {:induction false} TakeSpurious(p: Progress, id: int, k: nat, max: nat)
    requires k <= |p.slots| && WellFormed(p.slots, max)
    ensures SpuriousTail(TakeFromFixed(p, id, k, max).log, TakeFrom(p, id, k, max).log)
    decreases |p.slots| - k
  {
    if k < |p.slots| {
      if p.left == 0 {
        TakeNothing(p, id, k, max);
      } else if !Holds(p.slots[k], id) {
        TakeSpurious(p, id, k + 1, max);
      } else {
        var st := p.slots[k].value;
        if p.left >= st.amount {
          TakeSpurious(Progress(p.slots[k := None], p.left - st.amount,
                                p.log + [Event(Removed, st.item, st.amount, 0)]), id, k + 1, max);
        }
      }
    }
  }

  /** With nothing left to take, the walk as written changes no slot, but it reports the next
      stack of the item as updated from its amount to the same amount. */
  lemma {:induction false} TakeNothing(p: Progress, id: int, k: nat, max: nat)
    requires k <= |p.slots| && WellFormed(p.slots, max) && p.left == 0
    ensures var r := TakeFrom(p, id, k, max);
      r.slots == p.slots && r.left == 0 && SpuriousTail(p.log, r.log)
    decreases |p.slots| - k
  {
    if k < |p.slots| {
      if !Holds(p.slots[k], id) {
        TakeNothing(p, id, k + 1, max);
      } else {
        var st := p.slots[k].value;
        assert p.slots[k := Some(Stack(st.item, st.amount - 0))] == p.slots;
      }
    }
  }

  /** The extra event as written: two full stacks of 64 and a removal of 64 empty the first
      stack and then report the second as "updated" from 64 to 64. */
  lemma SpuriousUpdate(it: Item)
    ensures var s := [Some(Stack(it, 64)), Some(Stack(it, 64))];
      var r := RemoveSpec(s, it.id, 64, 64, []);
      && r.slots == [None, Some(Stack(it, 64))]
      && r.log == [Event(Removed, it, 64, 0), Event(Updated, it, 64, 64)]
  {
    var s := [Some(Stack(it, 64)), Some(Stack(it, 64))];
    var p1 := Progress([None, Some(Stack(it, 64))], 0, [Event(Removed, it, 64, 0)]);
    assert TakeFrom(Progress(s, 64, []), it.id, 0, 64) == TakeFrom(p1, it.id, 1, 64);
    assert p1.slots[1 := Some(Stack(it, 64 - 0))] == p1.slots;
  }
}
