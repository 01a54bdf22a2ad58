/** The values the stacking store is made of (items, stacks, slots, change events) and its
    read-only queries over a slot array: `Count`, `GetTotalAmount` and `Peek`. */
module Stacks {

  datatype Option<T> = None | Some(value: T)

  /** A call that either returns normally or throws an exception with the given message. */
  datatype Result<T> = Ok(value: T) | Exception(message: string)

  /** The opaque display handle of an item; `NoTexture` stands for a null texture reference. */
  datatype Texture = NoTexture | Texture(handle: nat)

  /** An item as the store sees it: the id that decides merging, and a display handle. */
  datatype Item = Item(id: int, texture: Texture)

  /** One slot's contents: an item and how many of it the slot holds. */
  datatype Stack = Stack(item: Item, amount: nat)

  /** A slot of the store: empty (a null entry) or one stack. */
  type Slot = Option<Stack>

  datatype EventKind = Inserted | Updated | Removed

  /** The arguments of an `ItemInserted`, `ItemUpdated` or `ItemRemoved` notification. */
  datatype Event = Event(kind: EventKind, item: Item, oldAmount: nat, newAmount: nat)

  /** A mutating call in progress: the slots, the amount still to place or take, the events
      raised so far. */
  datatype Progress = Progress(slots: seq<Slot>, left: nat, log: seq<Event>)

  /** The slot holds a stack of item `id`. */
  predicate Holds(slot: Slot, id: int) {
    slot.Some? && slot.value.item.id == id
  }

  /** The store invariant: every stack holds between 1 and `max` of its item. */
  predicate WellFormed(s: seq<Slot>, max: int) {
    forall k :: 0 <= k < |s| && s[k].Some? ==> 1 <= s[k].value.amount <= max
  }

  /** What a slot contributes to a sum over the store. */
  datatype Weighing = Occupancy | AmountOf(id: int)

  function Weight(slot: Slot, w: Weighing): nat {
    match w
    case Occupancy => if slot.Some? then 1 else 0
    case AmountOf(id) => if Holds(slot, id) then slot.value.amount else 0
  }

  function SumOf(s: seq<Slot>, w: Weighing): (r: nat)
    ensures w == Occupancy ==> r <= |s|
  {
    if s == [] then 0 else SumOf(s[..|s| - 1], w) + Weight(s[|s| - 1], w)
  }

  /** The number of occupied slots (not the quantity of items): at most the capacity. */
  function Count(s: seq<Slot>): (r: nat)
    ensures r <= |s|
  {
    SumOf(s, Occupancy)
  }

  /** The quantity of item `id` over all its stacks: at least the amount of each of them. */
  function Total(s: seq<Slot>, id: int): (r: nat)
    ensures forall k :: 0 <= k < |s| && Holds(s[k], id) ==> s[k].value.amount <= r
  {
    forall k | 0 <= k < |s| && Holds(s[k], id) ensures s[k].value.amount <= SumOf(s, AmountOf(id)) {
      WeightAtMostSum(s, k, AmountOf(id));
    }
    SumOf(s, AmountOf(id))
  }

  /** The slots holding a stack of item `id`, in ascending order: the `Where` filter of
      `Peek` and `GetTotalAmount`. */
  function Holders(s: seq<Slot>, id: int): (js: seq<int>)
    ensures forall i :: 0 <= i < |js| ==> 0 <= js[i] < |s| && Holds(s[js[i]], id)
    ensures forall i, j :: 0 <= i < j < |js| ==> js[i] < js[j]
    ensures forall k :: 0 <= k < |s| && Holds(s[k], id) ==> k in js
  {
    if s == [] then []
    else
      var n := |s| - 1;
      var js := Holders(s[..n], id);
      assert forall i :: 0 <= i < |js| ==> js[i] < n && s[js[i]] == s[..n][js[i]];
      assert forall k :: 0 <= k < n ==> s[k] == s[..n][k];
      js + if Holds(s[n], id) then [n] else []
  }

  /** The items of the stacks of item `id`: one per slot holding it, in ascending slot order. */
  function Peek(s: seq<Slot>, id: int): (r: seq<Item>)
    ensures |r| == |Holders(s, id)|
    ensures forall i :: 0 <= i < |r| ==> r[i] == s[Holders(s, id)[i]].value.item
    ensures forall x :: x in r ==> x.id == id
  {
    if s == [] then []
    else
      var n := |s| - 1;
      var init := s[..n];
      var r := Peek(init, id) + if Holds(s[n], id) then [s[n].value.item] else [];
      assert forall i :: 0 <= i < |Holders(init, id)| ==> s[Holders(init, id)[i]] == init[Holders(init, id)[i]];
      r
  }

  /** The indices of the occupied slots. */
  ghost function OccupiedSlots(s: seq<Slot>): set<int> {
    set k | 0 <= k < |s| && s[k].Some?
  }

  /** Exchanges two elements of a sequence. */
  function Swap<T>(s: seq<T>, i: int, j: int): (r: seq<T>)
    requires 0 <= i < |s| && 0 <= j < |s|
    ensures |r| == |s| && r[i] == s[j] && r[j] == s[i]
    ensures forall k :: 0 <= k < |s| && k != i && k != j ==> r[k] == s[k]
  {
    s[i := s[j]][j := s[i]]
  }

  /** Replacing one slot changes a sum by the difference of the two slots' weights. */
  lemma {:induction false} SumUpdate(s: seq<Slot>, i: int, x: Slot, w: Weighing)
    requires 0 <= i < |s|
    ensures SumOf(s[i := x], w) == SumOf(s, w) - Weight(s[i], w) + Weight(x, w)
  {
    var n := |s| - 1;
    if i < n {
      assert s[i := x][..n] == s[..n][i := x];
      SumUpdate(s[..n], i, x, w);
    } else {
      assert s[i := x][..n] == s[..n];
    }
  }

  /** A slot's weight never exceeds the sum it is part of. */
  lemma WeightAtMostSum(s: seq<Slot>, i: int, w: Weighing)
    requires 0 <= i < |s|
    ensures Weight(s[i], w) <= SumOf(s, w)
  {
    SumUpdate(s, i, None, w);
  }

  /** Exchanging two slots changes no sum: neither `Count` nor any `Total`. */
  lemma SumSwap(s: seq<Slot>, i: int, j: int, w: Weighing)
    requires 0 <= i < |s| && 0 <= j < |s|
    ensures SumOf(Swap(s, i, j), w) == SumOf(s, w)
  {
    SumUpdate(s, i, s[j], w);
    SumUpdate(s[i := s[j]], j, s[i], w);
  }

  /** Exchanging two slots keeps the store invariant. */
  lemma SwapWellFormed(s: seq<Slot>, i: int, j: int, max: int)
    requires 0 <= i < |s| && 0 <= j < |s|
    requires WellFormed(s, max)
    ensures WellFormed(Swap(s, i, j), max)
  {
  }

  /** `Count` is the number of occupied slots. */
  lemma {:induction false} CountIsOccupiedSlots(s: seq<Slot>)
    ensures Count(s) == |OccupiedSlots(s)| <= |s|
  {
    if s != [] {
      var n := |s| - 1;
      CountIsOccupiedSlots(s[..n]);
      assert OccupiedSlots(s) == OccupiedSlots(s[..n]) + (if s[n].Some? then {n} else {});
    }
  }

  /** A store with no empty slot has `Count` equal to its capacity. */
  lemma {:induction false} CountFull(s: seq<Slot>)
    requires forall k :: 0 <= k < |s| ==> s[k].Some?
    ensures Count(s) == |s|
  {
    if s != [] {
      CountFull(s[..|s| - 1]);
    }
  }

  /** Two stores with the same occupied slots have the same `Count`. */
  lemma {:induction false} CountFrame(s: seq<Slot>, t: seq<Slot>)
    requires |s| == |t|
    requires forall k :: 0 <= k < |s| ==> (s[k].Some? <==> t[k].Some?)
    ensures Count(s) == Count(t)
  {
    if s != [] {
      var n := |s| - 1;
      CountFrame(s[..n], t[..n]);
    }
  }

  /** Two stores that agree on every slot holding item `id` hold the same total of it. */
  lemma {:induction false} TotalFrame(s: seq<Slot>, t: seq<Slot>, id: int)
    requires |s| == |t|
    requires forall k :: 0 <= k < |s| && (Holds(s[k], id) || Holds(t[k], id)) ==> s[k] == t[k]
    ensures Total(s, id) == Total(t, id)
  {
    if s != [] {
      var n := |s| - 1;
      TotalFrame(s[..n], t[..n], id);
    }
  }

  /** In a well-formed store the total of an item is zero exactly when no slot holds it. */
  lemma {:induction false} TotalZero(s: seq<Slot>, id: int, max: int)
    requires WellFormed(s, max)
    ensures Total(s, id) == 0 <==> forall k :: 0 <= k < |s| ==> !Holds(s[k], id)
  {
    if s != [] {
      var n := |s| - 1;
      assert WellFormed(s[..n], max);
      TotalZero(s[..n], id, max);
    }
  }

  /** `Peek` finds nothing exactly when `GetTotalAmount` is zero. */
  lemma PeekEmptyIffNoTotal(s: seq<Slot>, id: int, max: int)
    requires WellFormed(s, max)
    ensures Peek(s, id) == [] <==> Total(s, id) == 0
  {
    TotalZero(s, id, max);
    if k :| 0 <= k < |s| && Holds(s[k], id) {
      assert k in Holders(s, id);
    }
  }
}
