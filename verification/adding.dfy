/** The value-level specification of `Inventory.Add`: the fullest-first order of the stacks
    that absorb an amount, the absorption itself, the insertion of the remainder into the
    lowest empty slot, the capacity messages, and the split of an oversized amount into
    batches. The imperative `Add` of the store is proved equal to `AddSpec`. */
module Adding {
  import opened Stacks
  import Decimal

  /** The amount in slot `k`, 0 for an empty slot. */
  function AmountAt(s: seq<Slot>, k: int): nat
    requires 0 <= k < |s|
  {
    if s[k].Some? then s[k].value.amount else 0
  }

  /** Slot `k` absorbs before slot `j`: the fuller stack first, the lower slot among equals
      (a stable descending sort over slots visited in index order). */
  predicate Before(s: seq<Slot>, k: int, j: int)
    requires 0 <= k < |s| && 0 <= j < |s|
  {
    AmountAt(s, k) > AmountAt(s, j) || (AmountAt(s, k) == AmountAt(s, j) && k < j)
  }

  /** Slot `k` holds a stack of item `id` that is not full. */
  predicate IsCandidate(s: seq<Slot>, id: int, max: int, k: int) {
    0 <= k < |s| && Holds(s[k], id) && s[k].value.amount < max
  }

  predicate InRange(s: seq<Slot>, r: seq<int>) {
    forall i :: 0 <= i < |r| ==> 0 <= r[i] < |s|
  }

  predicate Distinct(r: seq<int>) {
    forall i, j :: 0 <= i < j < |r| ==> r[i] != r[j]
  }

  predicate Sorted(s: seq<Slot>, r: seq<int>)
    requires InRange(s, r)
  {
    forall i, j :: 0 <= i < j < |r| ==> Before(s, r[i], r[j])
  }

  /** The non-full stacks of item `id` at or after slot `from`, in slot order. */
  function Candidates(s: seq<Slot>, id: int, max: int, from: nat): (r: seq<int>)
    requires from <= |s|
    ensures forall i :: 0 <= i < |r| ==> from <= r[i] && IsCandidate(s, id, max, r[i])
    ensures forall k :: from <= k && IsCandidate(s, id, max, k) ==> k in r
    ensures forall i, j :: 0 <= i < j < |r| ==> r[i] < r[j]
    decreases |s| - from
  {
    if from == |s| then []
    else (if IsCandidate(s, id, max, from) then [from] else []) + Candidates(s, id, max, from + 1)
  }

  /** Inserts slot `x` into a list kept in `Before` order. */
  function Insert(s: seq<Slot>, x: int, r: seq<int>): (q: seq<int>)
    requires 0 <= x < |s| && InRange(s, r)
    ensures InRange(s, q)
  {
    if r == [] || Before(s, x, r[0]) then [x] + r
    else
      assert r == [r[0]] + r[1..];
      [r[0]] + Insert(s, x, r[1..])
  }

  /** Insertion sort of slot indices into `Before` order. */
  function SortFullestFirst(s: seq<Slot>, r: seq<int>): (q: seq<int>)
    requires InRange(s, r)
    ensures InRange(s, q)
  {
    if r == [] then []
    else
      assert r == [r[0]] + r[1..];
      Insert(s, r[0], SortFullestFirst(s, r[1..]))
  }

  /** Inserting adds exactly the inserted slot. */
  lemma {:induction false} InsertPermutes(s: seq<Slot>, x: int, r: seq<int>)
    requires 0 <= x < |s| && InRange(s, r)
    ensures multiset(Insert(s, x, r)) == multiset(r) + multiset{x}
  {
    if r != [] && !Before(s, x, r[0]) {
      assert r == [r[0]] + r[1..];
      InsertPermutes(s, x, r[1..]);
    }
  }

  /** The sort is a permutation. */
  lemma {:induction false} SortPermutes(s: seq<Slot>, r: seq<int>)
    requires InRange(s, r)
    ensures multiset(SortFullestFirst(s, r)) == multiset(r)
  {
    if r != [] {
      assert r == [r[0]] + r[1..];
      SortPermutes(s, r[1..]);
      InsertPermutes(s, r[0], SortFullestFirst(s, r[1..]));
    }
  }

  /** A slot that goes before the head of a sorted list can be put in front of it. */
  lemma ConsSorted(s: seq<Slot>, x: int, r: seq<int>)
    requires 0 <= x < |s| && InRange(s, r) && Sorted(s, r)
    requires r != [] ==> Before(s, x, r[0])
    ensures InRange(s, [x] + r) && Sorted(s, [x] + r)
  {
    var q := [x] + r;
    forall i, j | 0 <= i < j < |q| ensures Before(s, q[i], q[j]) {
      if i > 0 {
        assert q[i] == r[i - 1] && q[j] == r[j - 1];
      } else if j > 1 {
        assert q[j] == r[j - 1];
        assert Before(s, r[0], r[j - 1]);
      }
    }
  }

  /** Dropping the head of a sorted list keeps it sorted. */
  lemma TailSorted(s: seq<Slot>, r: seq<int>)
    requires r != [] && InRange(s, r) && Sorted(s, r)
    ensures InRange(s, r[1..]) && Sorted(s, r[1..])
  {
    var t := r[1..];
    forall i, j | 0 <= i < j < |t| ensures Before(s, t[i], t[j]) {
      assert t[i] == r[i + 1] && t[j] == r[j + 1];
    }
  }

  lemma {:induction false} InsertSorted(s: seq<Slot>, x: int, r: seq<int>)
    requires 0 <= x < |s| && InRange(s, r) && Sorted(s, r) && x !in r
    ensures Sorted(s, Insert(s, x, r))
  {
    if r == [] || Before(s, x, r[0]) {
      ConsSorted(s, x, r);
    } else {
      var t := r[1..];
      TailSorted(s, r);
      assert x !in t by { assert forall i :: 0 <= i < |t| ==> t[i] == r[i + 1]; }
      InsertSorted(s, x, t);
      var u := Insert(s, x, t);
      InsertPermutes(s, x, t);
      assert Insert(s, x, r) == [r[0]] + u;
      if u != [] {
        assert Before(s, r[0], u[0]) by {
          assert u[0] in multiset(u);
          if u[0] != x {
            assert u[0] in multiset(t);
            var m :| 0 <= m < |t| && t[m] == u[0];
            assert u[0] == r[m + 1];
          } else {
            assert x != r[0];
          }
        }
      }
      ConsSorted(s, r[0], u);
    }
  }

  lemma {:induction false} SortSorted(s: seq<Slot>, r: seq<int>)
    requires InRange(s, r) && Distinct(r)
    ensures Sorted(s, SortFullestFirst(s, r))
  {
    if r != [] {
      var t := r[1..];
      assert Distinct(t) by {
        forall i, j | 0 <= i < j < |t| ensures t[i] != t[j] {
          assert t[i] == r[i + 1] && t[j] == r[j + 1];
        }
      }
      SortSorted(s, t);
      var q := SortFullestFirst(s, t);
      SortPermutes(s, t);
      assert r[0] !in t by { assert forall i :: 0 <= i < |t| ==> t[i] == r[i + 1]; }
      assert r[0] !in multiset(q);
      InsertSorted(s, r[0], q);
    }
  }

  /** The stacks that absorb an added amount, in the order they absorb it: a rearrangement
      of the candidates (`FullestFirstOrder` gives the order). */
  function FullestFirst(s: seq<Slot>, id: int, max: int): (q: seq<int>)
    ensures multiset(q) == multiset(Candidates(s, id, max, 0))
  {
    SortPermutes(s, Candidates(s, id, max, 0));
    SortFullestFirst(s, Candidates(s, id, max, 0))
  }

  /** `FullestFirst` lists every non-full stack of item `id` exactly once, fullest first,
      the lower slot first among equals. */
  lemma FullestFirstOrder(s: seq<Slot>, id: int, max: int)
    ensures var q := FullestFirst(s, id, max);
      && InRange(s, q) && Sorted(s, q) && Distinct(q)
      && (forall i :: 0 <= i < |q| ==> IsCandidate(s, id, max, q[i]))
      && (forall k :: IsCandidate(s, id, max, k) ==> k in q)
  {
    var c := Candidates(s, id, max, 0);
    SortSorted(s, c);
    SortPermutes(s, c);
    CandidatesOfSorted(s, id, max, c, SortFullestFirst(s, c));
  }

  lemma CandidatesOfSorted(s: seq<Slot>, id: int, max: int, c: seq<int>, q: seq<int>)
    requires c == Candidates(s, id, max, 0)
    requires multiset(q) == multiset(c) && InRange(s, q) && Sorted(s, q)
    ensures Distinct(q)
    ensures forall i :: 0 <= i < |q| ==> IsCandidate(s, id, max, q[i])
    ensures forall k :: IsCandidate(s, id, max, k) ==> k in q
  {
    forall i | 0 <= i < |q| ensures IsCandidate(s, id, max, q[i]) {
      assert q[i] in multiset(c);
    }
    forall k | IsCandidate(s, id, max, k) ensures k in q {
      assert k in multiset(c);
    }
    forall i, j | 0 <= i < j < |q| ensures q[i] != q[j] {
      assert Before(s, q[i], q[j]);
    }
  }

  /** Slots that the absorption may touch all hold a stack. */
  predicate Occupies(s: seq<Slot>, order: seq<int>) {
    forall i :: 0 <= i < |order| ==> 0 <= order[i] < |s| && s[order[i]].Some?
  }

  /** Tops up the stacks in `order` one after the other until nothing is left. */
  function Absorb(order: seq<int>, p: Progress, max: nat): (r: Progress)
    requires Occupies(p.slots, order) && WellFormed(p.slots, max)
    ensures |r.slots| == |p.slots| && WellFormed(r.slots, max) && r.left <= p.left
    decreases |order|
  {
    if order == [] || p.left == 0 then p
    else
      var k := order[0];
      var st := p.slots[k].value;
      var room := max - st.amount;
      if p.left >= room then
        Absorb(order[1..], Progress(p.slots[k := Some(Stack(st.item, max))], p.left - room,
                                    p.log + [Event(Updated, st.item, st.amount, max)]), max)
      else
        Progress(p.slots[k := Some(Stack(st.item, st.amount + p.left))], 0,
                 p.log + [Event(Updated, st.item, st.amount, st.amount + p.left)])
  }

  /** One step of the absorption from position `i` of `order`: the stack there is filled up
      and the walk goes on, or it takes all that is left and the walk ends. */
  lemma AbsorbStep(order: seq<int>, i: nat, p: Progress, max: nat)
    requires i < |order| && Occupies(p.slots, order[i..]) && WellFormed(p.slots, max) && p.left > 0
    ensures var k := order[i];
      var st := p.slots[k].value;
      var room := max - st.amount;
      Absorb(order[i..], p, max) ==
        if p.left >= room then
          Absorb(order[i + 1..], Progress(p.slots[k := Some(Stack(st.item, max))], p.left - room,
                                          p.log + [Event(Updated, st.item, st.amount, max)]), max)
        else
          Progress(p.slots[k := Some(Stack(st.item, st.amount + p.left))], 0,
                   p.log + [Event(Updated, st.item, st.amount, st.amount + p.left)])
  {
    assert order[i..][0] == order[i] && order[i..][1..] == order[i + 1..];
  }

  /** Absorption changes only the amounts of the stacks in `order`: every other slot, and
      every stack's item, stays as it was. */
  lemma {:induction false} AbsorbFrame(order: seq<int>, p: Progress, max: nat)
    requires Occupies(p.slots, order) && WellFormed(p.slots, max)
    ensures var r := Absorb(order, p, max);
      && (forall k :: 0 <= k < |p.slots| && k !in order ==> r.slots[k] == p.slots[k])
      && (forall k :: 0 <= k < |p.slots| ==> (r.slots[k].Some? <==> p.slots[k].Some?))
      && (forall k :: 0 <= k < |p.slots| && p.slots[k].Some? ==> r.slots[k].value.item == p.slots[k].value.item)
    decreases |order|
  {
    if order != [] && p.left != 0 {
      var k := order[0];
      var st := p.slots[k].value;
      var room := max - st.amount;
      if p.left >= room {
        var p' := Progress(p.slots[k := Some(Stack(st.item, max))], p.left - room,
                           p.log + [Event(Updated, st.item, st.amount, max)]);
        var tail := order[1..];
        AbsorbFrame(tail, p', max);
        var r := Absorb(tail, p', max);
        assert Absorb(order, p, max) == r;
        forall j | 0 <= j < |p.slots| && j !in order ensures r.slots[j] == p.slots[j] {
          assert j !in tail;
        }
      }
    }
  }

  lemma {:induction false} AbsorbAccounting(order: seq<int>, p: Progress, max: nat, id: int)
    requires Occupies(p.slots, order) && WellFormed(p.slots, max)
    requires forall i :: 0 <= i < |order| ==> Holds(p.slots[order[i]], id)
    ensures Total(Absorb(order, p, max).slots, id) == Total(p.slots, id) + (p.left - Absorb(order, p, max).left)
    decreases |order|
  {
    if order != [] && p.left != 0 {
      var k := order[0];
      var st := p.slots[k].value;
      var room := max - st.amount;
      assert Holds(p.slots[k], id);
      if p.left >= room {
        var x := Some(Stack(st.item, max));
        var p' := Progress(p.slots[k := x], p.left - room, p.log + [Event(Updated, st.item, st.amount, max)]);
        SumUpdate(p.slots, k, x, AmountOf(id));
        assert Total(p'.slots, id) == Total(p.slots, id) - st.amount + max;
        var tail := order[1..];
        forall i | 0 <= i < |tail| ensures Holds(p'.slots[tail[i]], id) {
          assert tail[i] == order[i + 1];
        }
        AbsorbAccounting(tail, p', max, id);
        assert Absorb(order, p, max) == Absorb(tail, p', max);
      } else {
        SumUpdate(p.slots, k, Some(Stack(st.item, st.amount + p.left)), AmountOf(id));
      }
    }
  }

  /** The events of an absorption extend the log by at most one per stack of `order`; the walk
      touches at least one stack when there is something to absorb, and stops before the end
      of `order` only when everything has been absorbed. */
  lemma {:induction false} AbsorbLog(order: seq<int>, p: Progress, max: nat)
    requires Occupies(p.slots, order) && WellFormed(p.slots, max)
    ensures var r := Absorb(order, p, max);
      && |p.log| <= |r.log| <= |p.log| + |order| && r.log[..|p.log|] == p.log
      && (|r.log| < |p.log| + |order| ==> r.left == 0)
      && (p.left > 0 && order != [] ==> |p.log| < |r.log|)
    decreases |order|
  {
    if order != [] && p.left != 0 {
      var k := order[0];
      var st := p.slots[k].value;
      var room := max - st.amount;
      if p.left >= room {
        var p' := Progress(p.slots[k := Some(Stack(st.item, max))], p.left - room,
                           p.log + [Event(Updated, st.item, st.amount, max)]);
        AbsorbLog(order[1..], p', max);
        var r := Absorb(order[1..], p', max);
        assert r.log[..|p.log|] == r.log[..|p'.log|][..|p.log|];
      }
    }
  }

  /** The first stack of `order` gets the first new event, an `Updated` with its old amount
      and its final, strictly larger amount. */
  lemma AbsorbHead(order: seq<int>, p: Progress, max: nat)
    requires Occupies(p.slots, order) && WellFormed(p.slots, max) && Distinct(order)
    requires order != [] && p.left > 0 && p.slots[order[0]].value.amount < max
    ensures var r := Absorb(order, p, max);
      && |p.log| < |r.log|
      && r.slots[order[0]].Some?
      && r.log[|p.log|] == Event(Updated, p.slots[order[0]].value.item,
                                 AmountAt(p.slots, order[0]), AmountAt(r.slots, order[0]))
      && AmountAt(p.slots, order[0]) < AmountAt(r.slots, order[0])
  {
    var k := order[0];
    var st := p.slots[k].value;
    var room := max - st.amount;
    if p.left >= room {
      var p' := Progress(p.slots[k := Some(Stack(st.item, max))], p.left - room,
                         p.log + [Event(Updated, st.item, st.amount, max)]);
      var tail := order[1..];
      assert k !in tail by {
        forall i | 0 <= i < |tail| ensures tail[i] != k {
          assert tail[i] == order[i + 1];
        }
      }
      AbsorbLog(tail, p', max);
      AbsorbFrame(tail, p', max);
      var r := Absorb(tail, p', max);
      assert r == Absorb(order, p, max);
      assert r.log[|p.log|] == r.log[..|p'.log|][|p.log|];
    }
  }

  /** Fullest-first absorption, events: the `i`-th stack of `order` that is touched gets the
      `i`-th new event, an `Updated` with its old amount and a strictly larger new amount. */
  lemma {:induction false} AbsorbEvent(order: seq<int>, p: Progress, max: nat, i: nat)
    requires Occupies(p.slots, order) && WellFormed(p.slots, max) && Distinct(order)
    requires forall j :: 0 <= j < |order| ==> p.slots[order[j]].value.amount < max
    requires i < |order| && |p.log| + i < |Absorb(order, p, max).log|
    ensures var r := Absorb(order, p, max);
      && r.slots[order[i]].Some?
      && r.log[|p.log| + i] == Event(Updated, p.slots[order[i]].value.item,
                                     AmountAt(p.slots, order[i]), AmountAt(r.slots, order[i]))
      && AmountAt(p.slots, order[i]) < AmountAt(r.slots, order[i])
    decreases |order|
  {
    assert p.left != 0;
    if i == 0 {
      AbsorbHead(order, p, max);
    } else {
      var k := order[0];
      var st := p.slots[k].value;
      var room := max - st.amount;
      var p' := Progress(p.slots[k := Some(Stack(st.item, max))], p.left - room,
                         p.log + [Event(Updated, st.item, st.amount, max)]);
      var tail := order[1..];
      assert order[i] == tail[i - 1] && order[i] != k;
      assert forall j :: 0 <= j < |tail| ==> tail[j] == order[j + 1] && tail[j] != k;
      assert Absorb(order, p, max) == Absorb(tail, p', max);
      AbsorbEvent(tail, p', max, i - 1);
    }
  }

  /** Fullest-first absorption, amounts: of the `n` stacks touched, all but possibly the last
      end full, and all of them when some amount is left over. */
  lemma {:induction false} AbsorbFills(order: seq<int>, p: Progress, max: nat)
    requires Occupies(p.slots, order) && WellFormed(p.slots, max) && Distinct(order)
    ensures var r := Absorb(order, p, max);
      var n := |r.log| - |p.log|;
      && (forall i :: 0 <= i < n - 1 && i < |order| ==> AmountAt(r.slots, order[i]) == max)
      && (r.left > 0 ==> forall i :: 0 <= i < |order| ==> AmountAt(r.slots, order[i]) == max)
    decreases |order|
  {
    if order != [] && p.left != 0 {
      var k := order[0];
      var st := p.slots[k].value;
      var room := max - st.amount;
      var tail := order[1..];
      if p.left >= room {
        var p' := Progress(p.slots[k := Some(Stack(st.item, max))], p.left - room,
                           p.log + [Event(Updated, st.item, st.amount, max)]);
        assert Distinct(tail) && k !in tail by {
          forall i | 0 <= i < |tail| ensures tail[i] == order[i + 1] && tail[i] != k {}
        }
        AbsorbFrame(tail, p', max);
        AbsorbFills(tail, p', max);
        var r := Absorb(tail, p', max);
        assert r == Absorb(order, p, max);
        var n := |r.log| - |p.log|;
        forall i | 0 <= i < |order| && (i < n - 1 || r.left > 0) ensures AmountAt(r.slots, order[i]) == max {
          if i > 0 {
            assert order[i] == tail[i - 1];
          }
        }
      }
    }
  }

  /** Fullest-first absorption stops early: the stacks of `order` after the `n` it touched
      are left as they were. */
  lemma {:induction false} AbsorbUntouched(order: seq<int>, p: Progress, max: nat)
    requires Occupies(p.slots, order) && WellFormed(p.slots, max) && Distinct(order)
    ensures var r := Absorb(order, p, max);
      forall i :: 0 <= i < |order| && |r.log| - |p.log| <= i ==> r.slots[order[i]] == p.slots[order[i]]
    decreases |order|
  {
    AbsorbLog(order, p, max);
    if order != [] && p.left != 0 {
      var k := order[0];
      var st := p.slots[k].value;
      var room := max - st.amount;
      var tail := order[1..];
      assert forall i :: 0 <= i < |tail| ==> tail[i] == order[i + 1] && tail[i] != k;
      if p.left >= room {
        var p' := Progress(p.slots[k := Some(Stack(st.item, max))], p.left - room,
                           p.log + [Event(Updated, st.item, st.amount, max)]);
        AbsorbUntouched(tail, p', max);
        var r := Absorb(tail, p', max);
        assert r == Absorb(order, p, max);
        forall i | 1 <= i < |order| ensures order[i] == tail[i - 1] {}
      }
    }
  }

  /** The lowest-index empty slot at or after `from`, if any. */
  function FirstOpen(s: seq<Slot>, from: nat): (r: Option<nat>)
    requires from <= |s|
    ensures r.Some? ==> from <= r.value < |s| && s[r.value].None? &&
                        forall j :: from <= j < r.value ==> s[j].Some?
    ensures r.None? ==> forall j :: from <= j < |s| ==> s[j].Some?
    decreases |s| - from
  {
    if from == |s| then None
    else if s[from].None? then Some(from)
    else FirstOpen(s, from + 1)
  }

  /** The outcome message of `Add`: empty on success. */
  datatype Message = NoMessage | InventoryFull | OnlyAdded(added: nat)

  /** The text of an outcome: empty exactly on success. */
  function MessageText(m: Message): (r: string)
    ensures r == "" <==> m == NoMessage
  {
    match m
    case NoMessage => ""
    case InventoryFull => "Inventory is full."
    case OnlyAdded(n) => "Inventory is full, only added " + Decimal.NatString(n) + " amount."
  }

  /** The amount a failure message reports as placed. */
  function Reported(m: Message): nat {
    if m.OnlyAdded? then m.added else 0
  }

  /** Distinct messages have distinct texts, so the text tells the caller how much was placed. */
  lemma MessageTextInjective(m: Message, m': Message)
    requires m.OnlyAdded? ==> m.added > 0
    requires m'.OnlyAdded? ==> m'.added > 0
    requires MessageText(m) == MessageText(m')
    ensures m == m'
  {
    var prefix := "Inventory is full, only added ";
    if m.OnlyAdded? && m'.OnlyAdded? {
      var a, b := Decimal.NatString(m.added), Decimal.NatString(m'.added);
      assert |prefix + a + " amount."| == |prefix + b + " amount."|;
      assert a == (prefix + a + " amount.")[|prefix|..|prefix| + |a|];
      assert b == (prefix + b + " amount.")[|prefix|..|prefix| + |b|];
      Decimal.NatStringInjective(m.added, m'.added);
    }
  }

  datatype AddResult = AddResult(slots: seq<Slot>, ok: bool, message: Message, log: seq<Event>)

  /** The second half of an addition: what absorption left over becomes a new stack in the
      lowest empty slot; with no empty slot the addition fails with the capacity message,
      which tells "nothing placed" from "only N placed". */
  function Place(p: Progress, item: Item, amount: nat, max: nat): (r: AddResult)
    requires WellFormed(p.slots, max) && p.left <= amount <= max
    ensures |r.slots| == |p.slots| && WellFormed(r.slots, max)
  {
    if p.left == 0 then AddResult(p.slots, true, NoMessage, p.log)
    else
      match FirstOpen(p.slots, 0)
      case None =>
        AddResult(p.slots, false, if amount - p.left == 0 then InventoryFull else OnlyAdded(amount - p.left), p.log)
      case Some(k) =>
        AddResult(p.slots[k := Some(Stack(item, p.left))], true, NoMessage, p.log + [Event(Inserted, item, 0, p.left)])
  }

  /** `Add` of at most one stack's worth: absorb fullest first, then place the rest. */
  function AddSingle(s: seq<Slot>, item: Item, amount: nat, max: nat, log: seq<Event>): (r: AddResult)
    requires WellFormed(s, max) && 0 < amount <= max
    ensures |r.slots| == |s| && WellFormed(r.slots, max)
  {
    FullestFirstOrder(s, item.id, max);
    Place(Absorb(FullestFirst(s, item.id, max), Progress(s, amount, log), max), item, amount, max)
  }

  /** `Add(item, amount)` for a positive amount: an amount above the stack size goes through
      the batch loop, which calls `Add` again for each batch; any other amount is a
      single-stack addition. */
  function AddSpec(s: seq<Slot>, item: Item, amount: nat, max: nat, log: seq<Event>): (r: AddResult)
    requires WellFormed(s, max) && 0 < amount && 0 < max
    ensures |r.slots| == |s| && WellFormed(r.slots, max)
    decreases if amount > max then 2 else 0, 0
  {
    if amount > max then AddBatches(s, item, amount, max, log) else AddSingle(s, item, amount, max, log)
  }

  /** The batch branch of `Add`: as many passes as `BatchCount` says. */
  function AddBatches(s: seq<Slot>, item: Item, leftOver: nat, max: nat, log: seq<Event>): (r: AddResult)
    requires WellFormed(s, max) && 0 < leftOver && 0 < max
    ensures |r.slots| == |s| && WellFormed(r.slots, max)
    decreases 1, BatchCount(leftOver, max) + 1
  {
    BatchLoop(s, item, BatchCount(leftOver, max), leftOver, max, log)
  }

  /** The batch loop of `Add`, pass by pass: `batches` passes remain and `leftOver` is still
      to add. A pass adds a full stack's worth while at least that much is left, else the
      positive remainder; the loop returns at the first failing pass (earlier passes stay),
      and stops with success once nothing is left or the passes run out. */
  function BatchLoop(s: seq<Slot>, item: Item, batches: nat, leftOver: int, max: nat, log: seq<Event>): (r: AddResult)
    requires WellFormed(s, max) && 0 < max
    ensures |r.slots| == |s| && WellFormed(r.slots, max)
    decreases 1, batches
  {
    if batches == 0 then AddResult(s, true, NoMessage, log)
    else
      var b := BatchPass(s, item, leftOver, max, log);
      if !b.ok || leftOver - max <= 0 then b
      else BatchLoop(b.slots, item, batches - 1, leftOver - max, max, b.log)
  }

  /** One pass of the batch loop: `Add` of a full stack's worth while at least that much is
      left, else of the positive remainder, else nothing. */
  function BatchPass(s: seq<Slot>, item: Item, leftOver: int, max: nat, log: seq<Event>): (r: AddResult)
    requires WellFormed(s, max) && 0 < max
    ensures |r.slots| == |s| && WellFormed(r.slots, max)
    decreases 0, 1
  {
    if leftOver >= max then AddSpec(s, item, max, max, log)
    else if leftOver > 0 then AddSpec(s, item, leftOver, max, log)
    else AddResult(s, true, NoMessage, log)
  }

  /** An amount of at most a stack is a single-stack addition. */
  lemma AddSpecSingle(s: seq<Slot>, item: Item, amount: nat, max: nat, log: seq<Event>)
    requires WellFormed(s, max) && 0 < amount <= max
    ensures AddSpec(s, item, amount, max, log) == AddSingle(s, item, amount, max, log)
  {
  }

  /** A pass with something left is a single-stack addition of at most a stack's worth. */
  lemma BatchPassSingle(s: seq<Slot>, item: Item, leftOver: nat, max: nat, log: seq<Event>)
    requires WellFormed(s, max) && 0 < leftOver && 0 < max
    ensures BatchPass(s, item, leftOver, max, log) ==
      AddSingle(s, item, if leftOver >= max then max else leftOver, max, log)
  {
    AddSpecSingle(s, item, if leftOver >= max then max else leftOver, max, log);
  }

  /** A pass with more than a full stack left adds a full stack and, if that succeeds, goes on
      with the rest. */
  lemma BatchLoopPass(s: seq<Slot>, item: Item, n: nat, leftOver: nat, max: nat, log: seq<Event>)
    requires WellFormed(s, max) && 0 < max < leftOver && 0 < n
    ensures var b := AddSingle(s, item, max, max, log);
      BatchLoop(s, item, n, leftOver, max, log) ==
      if b.ok then BatchLoop(b.slots, item, n - 1, leftOver - max, max, b.log) else b
  {
    BatchPassSingle(s, item, leftOver, max, log);
  }

  /** A pass with at most a full stack left is the loop's last: it adds what is left. */
  lemma BatchLoopLast(s: seq<Slot>, item: Item, n: nat, leftOver: nat, max: nat, log: seq<Event>)
    requires WellFormed(s, max) && 0 < leftOver <= max && 0 < n
    ensures BatchLoop(s, item, n, leftOver, max, log) == AddSingle(s, item, leftOver, max, log)
  {
    BatchPassSingle(s, item, leftOver, max, log);
  }

  /** With at most a full stack left, the batch branch is a single-stack addition. */
  lemma BatchesLast(s: seq<Slot>, item: Item, leftOver: nat, max: nat, log: seq<Event>)
    requires WellFormed(s, max) && 0 < leftOver <= max
    ensures AddBatches(s, item, leftOver, max, log) == AddSingle(s, item, leftOver, max, log)
  {
    AddSpecSingle(s, item, leftOver, max, log);
  }

  /** With more than a full stack left, `BatchCount` passes never run out while something is
      left: the batch branch adds a full stack and goes on with the rest. */
  lemma BatchesFull(s: seq<Slot>, item: Item, leftOver: nat, max: nat, log: seq<Event>)
    requires WellFormed(s, max) && 0 < max < leftOver
    ensures var b := AddSingle(s, item, max, max, log);
      AddBatches(s, item, leftOver, max, log) ==
      if b.ok then AddBatches(b.slots, item, leftOver - max, max, b.log) else b
  {
    BatchLoopPass(s, item, BatchCount(leftOver, max), leftOver, max, log);
  }

  /** The number of batches of an amount: one per whole `max` and one for a non-zero
      remainder (`Mathf.CeilToInt(amount / max)`). */
  function BatchCount(amount: nat, max: nat): (n: nat)
    requires 0 < max
    ensures n == 0 <==> amount == 0
    ensures n <= amount
    decreases amount
  {
    if amount == 0 then 0
    else if amount <= max then 1
    else BatchCount(amount - max, max) + 1
  }

  /** `BatchCount` is the ceiling of `amount / max`: the least `n` with `amount <= n * max`. */
  lemma {:induction false} BatchCountCeiling(amount: nat, max: nat)
    requires 0 < max
    ensures var n := BatchCount(amount, max);
      (n - 1) * max < amount <= n * max || (amount == 0 && n == 0)
    decreases amount
  {
    if amount > max {
      var n := BatchCount(amount - max, max);
      BatchCountCeiling(amount - max, max);
      MulSucc(n - 1, max);
      MulSucc(n, max);
    }
  }

  /** Arithmetic helper for `BatchCountCeiling`. */
  lemma MulSucc(a: nat, b: nat)
    ensures (a + 1) * b == a * b + b && 0 <= a * b
  {
  }

  /** Placing fills at most one slot, and fails only when every slot is occupied. */
  lemma PlaceCount(p: Progress, item: Item, amount: nat, max: nat)
    requires WellFormed(p.slots, max) && p.left <= amount <= max
    ensures var r := Place(p, item, amount, max);
      && Count(p.slots) <= Count(r.slots) <= Count(p.slots) + 1
      && (Count(p.slots) < |p.slots| ==> r.ok)
  {
    if p.left != 0 {
      match FirstOpen(p.slots, 0)
      case None =>
        CountFull(p.slots);
      case Some(k) =>
        SumUpdate(p.slots, k, Some(Stack(item, p.left)), Occupancy);
    }
  }

  /** An addition of at most one stack occupies at most one more slot, and succeeds whenever
      some slot is empty. */
  lemma AddSingleCount(s: seq<Slot>, item: Item, amount: nat, max: nat, log: seq<Event>)
    requires WellFormed(s, max) && 0 < amount <= max
    ensures var r := AddSingle(s, item, amount, max, log);
      && Count(s) <= Count(r.slots) <= Count(s) + 1
      && (Count(s) < |s| ==> r.ok)
  {
    var q := FullestFirst(s, item.id, max);
    FullestFirstOrder(s, item.id, max);
    var p0 := Progress(s, amount, log);
    var p := Absorb(q, p0, max);
    assert Occupies(s, q) by {
      forall i | 0 <= i < |q| ensures 0 <= q[i] < |s| && s[q[i]].Some? {
        assert IsCandidate(s, item.id, max, q[i]);
      }
    }
    AbsorbFrame(q, p0, max);
    CountFrame(s, p.slots);
    PlaceCount(p, item, amount, max);
  }

  /** `Add` of an oversized amount succeeds whenever there are as many empty slots as batches. */
  lemma {:induction false} BatchesSucceed(s: seq<Slot>, item: Item, leftOver: nat, max: nat, log: seq<Event>)
    requires WellFormed(s, max) && 0 < leftOver && 0 < max
    requires BatchCount(leftOver, max) <= |s| - Count(s)
    ensures AddBatches(s, item, leftOver, max, log).ok
    decreases leftOver
  {
    if leftOver > max {
      BatchesFull(s, item, leftOver, max, log);
      var b := AddSingle(s, item, max, max, log);
      AddSingleCount(s, item, max, max, log);
      if b.ok {
        BatchesSucceed(b.slots, item, leftOver - max, max, b.log);
      }
    } else {
      BatchesLast(s, item, leftOver, max, log);
      AddSingleCount(s, item, leftOver, max, log);
    }
  }

  /** Absorption along non-full stacks of item `id` leaves every other item's total
      unchanged. */
  lemma AbsorbOtherTotals(id: int, max: nat, q: seq<int>, p: Progress, id': int)
    requires WellFormed(p.slots, max) && Occupies(p.slots, q) && id' != id
    requires forall i :: 0 <= i < |q| ==> IsCandidate(p.slots, id, max, q[i])
    ensures Total(Absorb(q, p, max).slots, id') == Total(p.slots, id')
  {
    var s := p.slots;
    var r := Absorb(q, p, max);
    AbsorbFrame(q, p, max);
    forall k | 0 <= k < |s| && (Holds(s[k], id') || Holds(r.slots[k], id')) ensures s[k] == r.slots[k] {
      assert k !in q;
    }
    TotalFrame(s, r.slots, id');
  }

  /** Accounting of the placing step: success adds the leftover to the item's total; failure
      changes no slot, reports `amount - p.left` placed (0 as "Inventory is full."), and
      happens only with every slot occupied. */
  lemma PlaceAccounting(p: Progress, item: Item, amount: nat, max: nat)
    requires WellFormed(p.slots, max) && p.left <= amount <= max
    ensures var r := Place(p, item, amount, max);
      && (r.ok <==> r.message == NoMessage)
      && (r.ok ==> Total(r.slots, item.id) == Total(p.slots, item.id) + p.left)
      && (!r.ok ==> && r.slots == p.slots && 0 < p.left
                    && Reported(r.message) == amount - p.left
                    && (r.message == InventoryFull || Reported(r.message) > 0)
                    && (forall k :: 0 <= k < |p.slots| ==> p.slots[k].Some?))
  {
    if p.left != 0 {
      match FirstOpen(p.slots, 0)
      case None =>
      case Some(k) =>
        SumUpdate(p.slots, k, Some(Stack(item, p.left)), AmountOf(item.id));
    }
  }

  /** The placing step never changes the total of another item. */
  lemma PlaceOtherTotal(p: Progress, item: Item, amount: nat, max: nat, id': int)
    requires WellFormed(p.slots, max) && p.left <= amount <= max && id' != item.id
    ensures Total(Place(p, item, amount, max).slots, id') == Total(p.slots, id')
  {
    if p.left != 0 {
      match FirstOpen(p.slots, 0)
      case None =>
      case Some(k) =>
        SumUpdate(p.slots, k, Some(Stack(item, p.left)), AmountOf(id'));
    }
  }

  /** Accounting of an addition of at most one stack: on success the total of the item rises
      by exactly `amount`; on failure it rises by the amount the message reports (0 for
      "Inventory is full."), which is less than `amount`, every slot is occupied, and nothing
      absorbed is rolled back. */
  lemma AddSingleAccounting(s: seq<Slot>, item: Item, amount: nat, max: nat, log: seq<Event>)
    requires WellFormed(s, max) && 0 < amount <= max
    ensures var r := AddSingle(s, item, amount, max, log);
      && (r.ok <==> r.message == NoMessage)
      && (r.ok ==> Total(r.slots, item.id) == Total(s, item.id) + amount)
      && (!r.ok ==> && Total(r.slots, item.id) == Total(s, item.id) + Reported(r.message)
                    && Reported(r.message) < amount
                    && (r.message == InventoryFull || Reported(r.message) > 0)
                    && (forall k :: 0 <= k < |s| ==> r.slots[k].Some?))
  {
    var id := item.id;
    var q := FullestFirst(s, id, max);
    FullestFirstOrder(s, id, max);
    var p0 := Progress(s, amount, log);
    var p := Absorb(q, p0, max);
    AbsorbAccounting(q, p0, max, id);
    PlaceAccounting(p, item, amount, max);
  }

  /** An addition of at most one stack never changes the total of another item. */
  lemma AddSingleOtherTotal(s: seq<Slot>, item: Item, amount: nat, max: nat, log: seq<Event>, id': int)
    requires WellFormed(s, max) && 0 < amount <= max && id' != item.id
    ensures Total(AddSingle(s, item, amount, max, log).slots, id') == Total(s, id')
  {
    var p0 := Progress(s, amount, log);
    var q := FullestFirst(s, item.id, max);
    FullestFirstOrder(s, item.id, max);
    var p := Absorb(q, p0, max);
    AbsorbOtherTotals(item.id, max, q, p0, id');
    PlaceOtherTotal(p, item, amount, max, id');
  }

  /** Where the placing step puts things: at most one slot changes, the lowest empty one,
      which receives a new stack of the added item holding the leftover. */
  lemma PlaceShape(p: Progress, item: Item, amount: nat, max: nat)
    requires WellFormed(p.slots, max) && p.left <= amount <= max
    ensures var r := Place(p, item, amount, max);
      forall k :: 0 <= k < |p.slots| && r.slots[k] != p.slots[k] ==>
        && p.slots[k].None? && 0 < p.left && r.slots[k] == Some(Stack(item, p.left))
        && (forall j :: 0 <= j < k ==> p.slots[j].Some?)
  {
  }

  /** The stacks an addition may top up: exactly the non-full stacks of the item, each once. */
  ghost predicate AbsorbOrder(s: seq<Slot>, id: int, max: nat, q: seq<int>) {
    && Distinct(q)
    && (forall i :: 0 <= i < |q| ==> IsCandidate(s, id, max, q[i]))
    && (forall k :: IsCandidate(s, id, max, k) ==> k in q)
  }

  /** Where the absorbing step puts things: stacks keep their items and stay stacks, only
      candidates change, leftover implies every candidate full, and a stack is topped up
      only when every stack ahead of it in `q` ended full. */
  lemma AbsorbShape(s: seq<Slot>, id: int, max: nat, q: seq<int>, amount: nat, log: seq<Event>)
    requires WellFormed(s, max) && AbsorbOrder(s, id, max, q)
    ensures var p := Absorb(q, Progress(s, amount, log), max);
      && (forall k :: 0 <= k < |s| ==> (p.slots[k].Some? <==> s[k].Some?))
      && (forall k :: 0 <= k < |s| && s[k].Some? ==> p.slots[k].value.item == s[k].value.item)
      && (forall k :: 0 <= k < |s| && p.slots[k] != s[k] ==> IsCandidate(s, id, max, k))
      && (p.left > 0 ==> forall j :: IsCandidate(s, id, max, j) ==> AmountAt(p.slots, j) == max)
      && (forall i, j :: 0 <= i < j < |q| && p.slots[q[j]] != s[q[j]] ==> AmountAt(p.slots, q[i]) == max)
  {
    var p0 := Progress(s, amount, log);
    assert Occupies(s, q) by {
      forall i | 0 <= i < |q| ensures 0 <= q[i] < |s| && s[q[i]].Some? {
        assert IsCandidate(s, id, max, q[i]);
      }
    }
    var p := Absorb(q, p0, max);
    AbsorbFrame(q, p0, max);
    AbsorbFills(q, p0, max);
    AbsorbUntouched(q, p0, max);
    forall k | 0 <= k < |s| && p.slots[k] != s[k] ensures IsCandidate(s, id, max, k) {
      assert k in q;
      var i :| 0 <= i < |q| && q[i] == k;
    }
    if p.left > 0 {
      forall j | IsCandidate(s, id, max, j) ensures AmountAt(p.slots, j) == max {
        var i :| 0 <= i < |q| && q[i] == j;
      }
    }
  }

  /** Absorption along any order of the candidates followed by placing. */
  lemma AbsorbPlaceShape(s: seq<Slot>, item: Item, q: seq<int>, amount: nat, max: nat, log: seq<Event>)
    requires WellFormed(s, max) && 0 < amount <= max && AbsorbOrder(s, item.id, max, q)
    ensures var r := Place(Absorb(q, Progress(s, amount, log), max), item, amount, max);
      && (forall k :: 0 <= k < |s| && s[k].Some? ==> r.slots[k].Some? && r.slots[k].value.item == s[k].value.item)
      && (forall k :: 0 <= k < |s| && s[k].Some? && r.slots[k] != s[k] ==> IsCandidate(s, item.id, max, k))
      && (forall k :: 0 <= k < |s| && s[k].None? && r.slots[k].Some? ==>
            && r.slots[k].value.item == item
            && (forall j :: 0 <= j < k ==> s[j].Some?)
            && (forall j :: IsCandidate(s, item.id, max, j) ==> AmountAt(r.slots, j) == max))
      && (forall i, j :: 0 <= i < j < |q| && r.slots[q[j]] != s[q[j]] ==> AmountAt(r.slots, q[i]) == max)
  {
    var p := Absorb(q, Progress(s, amount, log), max);
    AbsorbShape(s, item.id, max, q, amount, log);
    PlaceShape(p, item, amount, max);
    var r := Place(p, item, amount, max);
    assert forall k :: 0 <= k < |s| && s[k].Some? ==> r.slots[k] == p.slots[k];
    assert forall k :: 0 <= k < |s| && s[k].None? && r.slots[k].Some? ==> p.slots[k].None? && r.slots[k] != p.slots[k];
  }

  /** Where an addition of at most one stack puts things: stacks keep their items and only
      non-full stacks of the added item change; at most one empty slot is filled, the lowest
      one, with a new stack of the added item, and only once every non-full stack of the item
      is full; a stack is topped up only when every stack ahead of it in fullest-first order
      ended full. */
  lemma AddSingleShape(s: seq<Slot>, item: Item, amount: nat, max: nat, log: seq<Event>)
    requires WellFormed(s, max) && 0 < amount <= max
    ensures var r := AddSingle(s, item, amount, max, log);
      var q := FullestFirst(s, item.id, max);
      && (forall k :: 0 <= k < |s| && s[k].Some? ==> r.slots[k].Some? && r.slots[k].value.item == s[k].value.item)
      && (forall k :: 0 <= k < |s| && s[k].Some? && r.slots[k] != s[k] ==> IsCandidate(s, item.id, max, k))
      && (forall k :: 0 <= k < |s| && s[k].None? && r.slots[k].Some? ==>
            && r.slots[k].value.item == item
            && (forall j :: 0 <= j < k ==> s[j].Some?)
            && (forall j :: IsCandidate(s, item.id, max, j) ==> AmountAt(r.slots, j) == max))
      && (forall i, j :: 0 <= i < j < |q| && r.slots[q[j]] != s[q[j]] ==> AmountAt(r.slots, q[i]) == max)
  {
    FullestFirstOrder(s, item.id, max);
    AbsorbPlaceShape(s, item, FullestFirst(s, item.id, max), amount, max, log);
  }

  /** The events of absorbing along any order of the candidates and then placing. */
  lemma AbsorbPlaceEvents(s: seq<Slot>, item: Item, q: seq<int>, amount: nat, max: nat, log: seq<Event>)
    requires WellFormed(s, max) && 0 < amount <= max && AbsorbOrder(s, item.id, max, q)
    ensures var r := Place(Absorb(q, Progress(s, amount, log), max), item, amount, max);
      && |log| <= |r.log| && r.log[..|log|] == log
      && (forall i :: |log| <= i < |r.log| ==>
            && r.log[i].kind != Removed
            && r.log[i].item.id == item.id
            && r.log[i].oldAmount < r.log[i].newAmount <= max
            && (r.log[i].kind == Inserted ==> i == |r.log| - 1 && r.log[i].item == item && r.log[i].oldAmount == 0))
  {
    var id := item.id;
    var p0 := Progress(s, amount, log);
    assert Occupies(s, q) by {
      forall i | 0 <= i < |q| ensures 0 <= q[i] < |s| && s[q[i]].Some? {
        assert IsCandidate(s, id, max, q[i]);
      }
    }
    var p := Absorb(q, p0, max);
    AbsorbLog(q, p0, max);
    forall i | |log| <= i < |p.log|
      ensures p.log[i].kind == Updated && p.log[i].item.id == id && p.log[i].oldAmount < p.log[i].newAmount <= max
    {
      var j := i - |log|;
      AbsorbEvent(q, p0, max, j);
      assert IsCandidate(s, id, max, q[j]);
      assert 0 <= q[j] < |p.slots|;
    }
    var r := Place(p, item, amount, max);
    assert r.log == p.log || r.log == p.log + [Event(Inserted, item, 0, p.left)];
  }

  /** The events of an addition of at most one stack: the log only grows; each new event is
      about the added item's id and records a strict increase; an `Inserted` event comes last,
      carries the added item, and starts from 0. */
  lemma AddSingleEvents(s: seq<Slot>, item: Item, amount: nat, max: nat, log: seq<Event>)
    requires WellFormed(s, max) && 0 < amount <= max
    ensures var r := AddSingle(s, item, amount, max, log);
      && |log| <= |r.log| && r.log[..|log|] == log
      && (forall i :: |log| <= i < |r.log| ==>
            && r.log[i].kind != Removed
            && r.log[i].item.id == item.id
            && r.log[i].oldAmount < r.log[i].newAmount <= max
            && (r.log[i].kind == Inserted ==> i == |r.log| - 1 && r.log[i].item == item && r.log[i].oldAmount == 0))
  {
    FullestFirstOrder(s, item.id, max);
    AbsorbPlaceEvents(s, item, FullestFirst(s, item.id, max), amount, max, log);
  }

  /** The `Updated` events of a top-up read off the slots before (`s`) and after (`t`) it:
      one for each stack listed in `q` that changed, in the order of `q`, from its old amount
      to its new one. */
  function ToppedUp(s: seq<Slot>, t: seq<Slot>, q: seq<int>): seq<Event>
    requires |s| == |t|
    decreases |q|
  {
    if q == [] then []
    else
      var k := q[0];
      (if 0 <= k < |s| && s[k].Some? && t[k] != s[k]
       then [Event(Updated, s[k].value.item, s[k].value.amount, AmountAt(t, k))] else [])
      + ToppedUp(s, t, q[1..])
  }

  /** The `Inserted` events of an addition read off the slots before (`s`) and after (`t`)
      it: one for each slot from `from` on that was empty and now holds a stack, in slot
      order, from 0 to the new stack's amount. */
  function Filled(s: seq<Slot>, t: seq<Slot>, from: nat): seq<Event>
    requires |s| == |t| && from <= |s|
    decreases |s| - from
  {
    if from == |s| then []
    else
      (if s[from].None? && t[from].Some?
       then [Event(Inserted, t[from].value.item, 0, t[from].value.amount)] else [])
      + Filled(s, t, from + 1)
  }

  /** `ToppedUp` depends only on the slots listed in `q`. */
  lemma {:induction false} ToppedUpFrame(s: seq<Slot>, t: seq<Slot>, s': seq<Slot>, t': seq<Slot>, q: seq<int>)
    requires |s| == |t| == |s'| == |t'|
    requires forall i :: 0 <= i < |q| && 0 <= q[i] < |s| ==> s[q[i]] == s'[q[i]] && t[q[i]] == t'[q[i]]
    ensures ToppedUp(s, t, q) == ToppedUp(s', t', q)
    decreases |q|
  {
    if q != [] {
      assert forall i :: 0 <= i < |q[1..]| ==> q[1..][i] == q[i + 1];
      ToppedUpFrame(s, t, s', t', q[1..]);
    }
  }

  /** Nothing listed in `q` changed: no `Updated` event. */
  lemma {:induction false} ToppedUpNone(s: seq<Slot>, t: seq<Slot>, q: seq<int>)
    requires |s| == |t|
    requires forall i :: 0 <= i < |q| && 0 <= q[i] < |s| ==> s[q[i]] == t[q[i]]
    ensures ToppedUp(s, t, q) == []
    decreases |q|
  {
    if q != [] {
      assert forall i :: 0 <= i < |q[1..]| ==> q[1..][i] == q[i + 1];
      ToppedUpNone(s, t, q[1..]);
    }
  }

  /** `Filled` depends on the slots before only through which of them were empty. */
  lemma {:induction false} FilledFrame(s: seq<Slot>, s': seq<Slot>, t: seq<Slot>, from: nat)
    requires |s| == |t| == |s'| && from <= |s|
    requires forall j :: from <= j < |s| ==> (s[j].None? <==> s'[j].None?)
    ensures Filled(s, t, from) == Filled(s', t, from)
    decreases |s| - from
  {
    if from < |s| {
      FilledFrame(s, s', t, from + 1);
    }
  }

  /** Filling the one empty slot `k` gives one `Inserted` event for the new stack; filling
      nothing gives none. */
  lemma {:induction false} FilledOne(s: seq<Slot>, t: seq<Slot>, k: int, from: nat)
    requires |s| == |t| && from <= |s|
    requires forall j :: from <= j < |s| && j != k ==> s[j] == t[j]
    ensures from <= k < |s| && s[k].None? && t[k].Some? ==>
      Filled(s, t, from) == [Event(Inserted, t[k].value.item, 0, t[k].value.amount)]
    ensures !(from <= k < |s|) || s[k] == t[k] ==> Filled(s, t, from) == []
    decreases |s| - from
  {
    if from < |s| {
      FilledOne(s, t, k, from + 1);
    }
  }

  /** Topping up along `order`, events: the log grows by exactly `ToppedUp`, one `Updated` per
      stack whose amount rose, in the order the stacks absorb. */
  lemma AbsorbToppedUp(order: seq<int>, p: Progress, max: nat)
    requires Occupies(p.slots, order) && WellFormed(p.slots, max) && Distinct(order)
    requires forall j :: 0 <= j < |order| ==> p.slots[order[j]].value.amount < max
    ensures var r := Absorb(order, p, max);
      r.log == p.log + ToppedUp(p.slots, r.slots, order)
  {
    var r := Absorb(order, p, max);
    AbsorbLog(order, p, max);
    AbsorbUntouched(order, p, max);
    var e := r.log[|p.log|..];
    forall i | 0 <= i < |e|
      ensures r.slots[order[i]] != p.slots[order[i]]
      ensures e[i] == Event(Updated, p.slots[order[i]].value.item, p.slots[order[i]].value.amount,
                            AmountAt(r.slots, order[i]))
    {
      AbsorbEvent(order, p, max, i);
    }
    ToppedUpPrefix(p.slots, r.slots, order, e);
    assert r.log == p.log + e;
  }

  /** `ToppedUp` of an order whose first `|e|` stacks changed, as `e` records, and whose other
      stacks did not. */
  lemma {:induction false} ToppedUpPrefix(s: seq<Slot>, t: seq<Slot>, q: seq<int>, e: seq<Event>)
    requires |s| == |t| && Occupies(s, q) && |e| <= |q|
    requires forall i :: 0 <= i < |e| ==>
      t[q[i]] != s[q[i]] && e[i] == Event(Updated, s[q[i]].value.item, s[q[i]].value.amount, AmountAt(t, q[i]))
    requires forall i :: |e| <= i < |q| ==> t[q[i]] == s[q[i]]
    ensures ToppedUp(s, t, q) == e
    decreases |q|
  {
    if q != [] {
      var tail := q[1..];
      assert forall i :: 0 <= i < |tail| ==> tail[i] == q[i + 1];
      if e == [] {
        ToppedUpNone(s, t, q);
      } else {
        ToppedUpPrefix(s, t, tail, e[1..]);
      }
    }
  }

  /** Placing, events: the log grows by exactly `Filled`, one `Inserted(item, 0, n)` for the
      slot that receives a new stack of `n`, and nothing when no slot is filled. */
  lemma PlaceFilled(p: Progress, item: Item, amount: nat, max: nat)
    requires WellFormed(p.slots, max) && p.left <= amount <= max
    ensures var r := Place(p, item, amount, max);
      r.log == p.log + Filled(p.slots, r.slots, 0)
  {
    var r := Place(p, item, amount, max);
    match FirstOpen(p.slots, 0)
    case None =>
      FilledOne(p.slots, r.slots, -1, 0);
    case Some(k) =>
      FilledOne(p.slots, r.slots, if p.left == 0 then -1 else k, 0);
  }

  /** Absorbing along any order of the candidates and then placing, events slot by slot. */
  lemma AbsorbPlaceLog(s: seq<Slot>, item: Item, q: seq<int>, amount: nat, max: nat, log: seq<Event>)
    requires WellFormed(s, max) && 0 < amount <= max && AbsorbOrder(s, item.id, max, q)
    ensures var r := Place(Absorb(q, Progress(s, amount, log), max), item, amount, max);
      r.log == log + ToppedUp(s, r.slots, q) + Filled(s, r.slots, 0)
  {
    var id := item.id;
    var p0 := Progress(s, amount, log);
    assert Occupies(s, q) && forall j :: 0 <= j < |q| ==> s[q[j]].value.amount < max by {
      forall i | 0 <= i < |q| ensures 0 <= q[i] < |s| && s[q[i]].Some? && s[q[i]].value.amount < max {
        assert IsCandidate(s, id, max, q[i]);
      }
    }
    var p := Absorb(q, p0, max);
    AbsorbToppedUp(q, p0, max);
    AbsorbFrame(q, p0, max);
    PlaceFilled(p, item, amount, max);
    PlaceShape(p, item, amount, max);
    var r := Place(p, item, amount, max);
    ToppedUpFrame(s, p.slots, s, r.slots, q);
    FilledFrame(p.slots, s, r.slots, 0);
  }

  /** The events of an addition of at most one stack, slot by slot: first an `Updated(item,
      old, new)` for each stack topped up, in fullest-first order, then an `Inserted(item, 0,
      n)` for the slot that received a new stack of `n`, if any; nothing else. */
  lemma AddSingleLog(s: seq<Slot>, item: Item, amount: nat, max: nat, log: seq<Event>)
    requires WellFormed(s, max) && 0 < amount <= max
    ensures var r := AddSingle(s, item, amount, max, log);
      r.log == log + ToppedUp(s, r.slots, FullestFirst(s, item.id, max)) + Filled(s, r.slots, 0)
  {
    FullestFirstOrder(s, item.id, max);
    AbsorbPlaceLog(s, item, FullestFirst(s, item.id, max), amount, max, log);
  }

  /** `n` is a whole number of batches of `max`. */
  predicate WholeBatches(n: nat, max: nat)
    requires 0 < max
    decreases n
  {
    n == 0 || (n >= max && WholeBatches(n - max, max))
  }

  /** The batch loop reports a message exactly when it fails, and the failing pass reports
      less than a full stack. */
  lemma {:induction false} BatchesMessage(s: seq<Slot>, item: Item, leftOver: nat, max: nat, log: seq<Event>)
    requires WellFormed(s, max) && 0 < leftOver && 0 < max
    ensures var r := AddBatches(s, item, leftOver, max, log);
      (r.ok <==> r.message == NoMessage) && Reported(r.message) < max
    decreases leftOver
  {
    if leftOver > max {
      BatchesFull(s, item, leftOver, max, log);
      var b := AddSingle(s, item, max, max, log);
      AddSingleAccounting(s, item, max, max, log);
      if b.ok {
        BatchesMessage(b.slots, item, leftOver - max, max, b.log);
      }
    } else {
      BatchesLast(s, item, leftOver, max, log);
      AddSingleAccounting(s, item, leftOver, max, log);
    }
  }

  /** The accounting the batch loop keeps, with `before` the part placed by the passes that
      came before a failing one. */
  ghost predicate BatchesAccounted(s: seq<Slot>, id: int, leftOver: nat, max: nat, r: AddResult, before: nat)
    requires 0 < max
  {
    && (r.ok ==> Total(r.slots, id) == Total(s, id) + leftOver)
    && (!r.ok ==> && Total(r.slots, id) == Total(s, id) + before + Reported(r.message)
                  && before + Reported(r.message) < leftOver
                  && WholeBatches(before, max))
  }

  /** Accounting of the batch loop: on success the item's total rises by exactly `leftOver`;
      on failure the passes before the failing one stay applied, so the total rises by the
      `before` they placed (whole stacks, less than `leftOver`) plus what the failing pass
      placed, which is all the message reports. */
  lemma {:induction false} BatchesAccounting(s: seq<Slot>, item: Item, leftOver: nat, max: nat, log: seq<Event>)
    returns (before: nat)
    requires WellFormed(s, max) && 0 < leftOver && 0 < max
    ensures BatchesAccounted(s, item.id, leftOver, max, AddBatches(s, item, leftOver, max, log), before)
    decreases leftOver, 2
  {
    if leftOver > max {
      before := BatchesFullAccounting(s, item, leftOver, max, log);
    } else {
      before := 0;
      BatchesLast(s, item, leftOver, max, log);
      AddSingleAccounting(s, item, leftOver, max, log);
    }
  }

  /** The accounting of a batch loop that starts with a full pass. */
  lemma {:induction false} BatchesFullAccounting(s: seq<Slot>, item: Item, leftOver: nat, max: nat, log: seq<Event>)
    returns (before: nat)
    requires WellFormed(s, max) && 0 < max < leftOver
    ensures BatchesAccounted(s, item.id, leftOver, max, AddBatches(s, item, leftOver, max, log), before)
    decreases leftOver, 1
  {
    var b := AddSingle(s, item, max, max, log);
    if b.ok {
      before := BatchesPassAccounting(s, item, leftOver, max, log);
    } else {
      BatchesFull(s, item, leftOver, max, log);
      AddSingleAccounting(s, item, max, max, log);
      AccountedFailedPass(s, b, item.id, leftOver, max);
      before := 0;
    }
  }

  /** The accounting of a batch loop whose first, full pass succeeds. */
  lemma {:induction false} BatchesPassAccounting(s: seq<Slot>, item: Item, leftOver: nat, max: nat, log: seq<Event>)
    returns (before: nat)
    requires WellFormed(s, max) && 0 < max < leftOver && AddSingle(s, item, max, max, log).ok
    ensures BatchesAccounted(s, item.id, leftOver, max, AddBatches(s, item, leftOver, max, log), before)
    decreases leftOver, 0
  {
    var b := AddSingle(s, item, max, max, log);
    BatchesFull(s, item, leftOver, max, log);
    AddSingleAccounting(s, item, max, max, log);
    var r := AddBatches(b.slots, item, leftOver - max, max, b.log);
    var rest := BatchesAccounting(b.slots, item, leftOver - max, max, b.log);
    AccountedAfterPass(s, b.slots, item.id, leftOver, max, r, rest);
    before := rest + max;
  }

  /** A full pass that fails accounts for the whole with nothing placed before it. */
  lemma AccountedFailedPass(s: seq<Slot>, b: AddResult, id: int, leftOver: nat, max: nat)
    requires 0 < max < leftOver && !b.ok
    requires Total(b.slots, id) == Total(s, id) + Reported(b.message) && Reported(b.message) < max
    ensures BatchesAccounted(s, id, leftOver, max, b, 0)
  {
  }

  /** A successful full pass followed by an accounted rest accounts for the whole. */
  lemma AccountedAfterPass(s: seq<Slot>, t: seq<Slot>, id: int, leftOver: nat, max: nat, r: AddResult, rest: nat)
    requires 0 < max < leftOver && Total(t, id) == Total(s, id) + max
    requires BatchesAccounted(t, id, leftOver - max, max, r, rest)
    ensures BatchesAccounted(s, id, leftOver, max, r, rest + max)
  {
    assert WholeBatches(rest + max, max) <== WholeBatches(rest, max);
  }

  /** The batch loop never changes the total of another item. */
  lemma {:induction false} BatchesOtherTotal(s: seq<Slot>, item: Item, leftOver: nat, max: nat, log: seq<Event>, id': int)
    requires WellFormed(s, max) && 0 < leftOver && 0 < max && id' != item.id
    ensures Total(AddBatches(s, item, leftOver, max, log).slots, id') == Total(s, id')
    decreases leftOver
  {
    if leftOver > max {
      BatchesFull(s, item, leftOver, max, log);
      var b := AddSingle(s, item, max, max, log);
      AddSingleOtherTotal(s, item, max, max, log, id');
      if b.ok {
        BatchesOtherTotal(b.slots, item, leftOver - max, max, b.log, id');
      }
    } else {
      BatchesLast(s, item, leftOver, max, log);
      AddSingleOtherTotal(s, item, leftOver, max, log, id');
    }
  }

  /** Accounting of `Add` for a positive amount: success adds exactly `amount` to the item's
      total; failure adds less, with a non-empty message; no other item's total changes. */
  lemma AddAccounting(s: seq<Slot>, item: Item, amount: nat, max: nat, log: seq<Event>)
    requires WellFormed(s, max) && 0 < amount && 0 < max
    ensures var r := AddSpec(s, item, amount, max, log);
      && (r.ok <==> r.message == NoMessage)
      && (r.ok ==> Total(r.slots, item.id) == Total(s, item.id) + amount)
      && (!r.ok ==> Total(s, item.id) <= Total(r.slots, item.id) < Total(s, item.id) + amount)
      && (forall id' :: id' != item.id ==> Total(r.slots, id') == Total(s, id'))
  {
    if amount > max {
      BatchesMessage(s, item, amount, max, log);
      var _ := BatchesAccounting(s, item, amount, max, log);
      forall id' | id' != item.id ensures Total(AddSpec(s, item, amount, max, log).slots, id') == Total(s, id') {
        BatchesOtherTotal(s, item, amount, max, log, id');
      }
    } else {
      AddSingleAccounting(s, item, amount, max, log);
      forall id' | id' != item.id ensures Total(AddSpec(s, item, amount, max, log).slots, id') == Total(s, id') {
        AddSingleOtherTotal(s, item, amount, max, log, id');
      }
    }
  }

  /** The batch branch with the failure message its callers are meant to get: one that reports
      all the batches placed, as the single-stack branch's message does, rather than only the
      part placed by the failing pass. */
  function BatchesReported(s: seq<Slot>, item: Item, leftOver: nat, max: nat, log: seq<Event>): (r: AddResult)
    requires WellFormed(s, max) && 0 < leftOver && 0 < max
    ensures |r.slots| == |s| && WellFormed(r.slots, max)
    ensures r.ok <==> r.message == NoMessage
  {
    BatchesMessage(s, item, leftOver, max, log);
    var b := AddBatches(s, item, leftOver, max, log);
    if b.ok then b
    else
      var placed := Total(b.slots, item.id) - Total(s, item.id);
      b.(message := if placed <= 0 then InventoryFull else OnlyAdded(placed))
  }

  /** The corrected batch branch changes only the message, which now tells exactly how much of
      the item was placed: nothing as "Inventory is full.", else "only added N". */
  lemma BatchesReportedAccounting(s: seq<Slot>, item: Item, leftOver: nat, max: nat, log: seq<Event>)
    requires WellFormed(s, max) && 0 < leftOver && 0 < max
    ensures var b := AddBatches(s, item, leftOver, max, log);
      var r := BatchesReported(s, item, leftOver, max, log);
      && r.slots == b.slots && r.ok == b.ok && r.log == b.log
      && (r.ok <==> r.message == NoMessage)
      && (!r.ok ==> && Total(r.slots, item.id) == Total(s, item.id) + Reported(r.message)
                    && Reported(r.message) < leftOver
                    && (r.message == InventoryFull || Reported(r.message) > 0))
  {
    BatchesMessage(s, item, leftOver, max, log);
    var _ := BatchesAccounting(s, item, leftOver, max, log);
  }
}
