/** The renderer's binding of logical slots to visual slots (`_slotIndexes`), as map values:
    relabelling a binding onto an open slot, exchanging two bindings, and binding a slot the
    first time it is drawn. A slot is "open" when it has no binding. */
module Bindings {
  import opened Stacks

  /** The opaque handle of a visual slot element. */
  datatype Visual = Visual(handle: nat)

  /** No two slots share a visual. */
  ghost predicate Injective<V>(m: map<int, V>) {
    forall a, b :: a in m && b in m && a != b ==> m[a] != m[b]
  }

  /** The visuals in use. */
  ghost function Visuals<V>(m: map<int, V>): set<V> {
    set k | k in m :: m[k]
  }

  /** Every bound slot is a slot of the renderer. */
  ghost predicate KeysBelow<V>(m: map<int, V>, n: int) {
    forall k :: k in m ==> 0 <= k < n
  }

  /** The binding of `src` carried over to the open slot `dst`. */
  function Move<V>(m: map<int, V>, src: int, dst: int): (r: map<int, V>)
    requires src in m && dst !in m
    ensures r.Keys == m.Keys - {src} + {dst}
    ensures r[dst] == m[src]
    ensures forall k :: k in m && k != src ==> r[k] == m[k]
  {
    (m - {src})[dst := m[src]]
  }

  /** The bindings of `a` and `b` exchanged. */
  function Exchange<V>(m: map<int, V>, a: int, b: int): (r: map<int, V>)
    requires a in m && b in m
    ensures r.Keys == m.Keys
    ensures r[a] == m[b] && r[b] == m[a]
    ensures forall k :: k in m && k != a && k != b ==> r[k] == m[k]
  {
    m[a := m[b]][b := m[a]]
  }

  /** The first drawing of a slot binds it to a new visual; a bound slot keeps its visual. */
  function BindIfAbsent<V>(m: map<int, V>, k: int, v: V): (r: map<int, V>)
    ensures r.Keys == m.Keys + {k}
    ensures r[k] == if k in m then m[k] else v
    ensures forall j :: j in m ==> r[j] == m[j]
  {
    if k in m then m else m[k := v]
  }

  /** Moving a binding relabels a slot: the visuals in use are the same, and an injective
      binding stays injective. */
  lemma MoveKeepsVisuals<V>(m: map<int, V>, src: int, dst: int)
    requires src in m && dst !in m
    ensures Visuals(Move(m, src, dst)) == Visuals(m)
    ensures Injective(m) ==> Injective(Move(m, src, dst))
  {
    var r := Move(m, src, dst);
    forall v | v in Visuals(m) ensures v in Visuals(r) {
      var k :| k in m && m[k] == v;
      if k == src {
        assert r[dst] == v;
      } else {
        assert r[k] == v;
      }
    }
  }

  /** Exchanging two bindings permutes the visuals: the same visuals are in use, and an
      injective binding stays injective. */
  lemma ExchangeKeepsVisuals<V>(m: map<int, V>, a: int, b: int)
    requires a in m && b in m
    ensures Visuals(Exchange(m, a, b)) == Visuals(m)
    ensures Injective(m) ==> Injective(Exchange(m, a, b))
  {
    var r := Exchange(m, a, b);
    forall v | v in Visuals(m) ensures v in Visuals(r) {
      var k :| k in m && m[k] == v;
      if k == a {
        assert r[b] == v;
      } else if k == b {
        assert r[a] == v;
      } else {
        assert r[k] == v;
      }
    }
    forall v | v in Visuals(r) ensures v in Visuals(m) {
      var k :| k in r && r[k] == v;
      if k == a {
        assert m[b] == v;
      } else if k == b {
        assert m[a] == v;
      } else {
        assert m[k] == v;
      }
    }
  }

  /** Binding a slot to a visual not yet in use keeps the binding injective. */
  lemma BindKeepsInjective<V>(m: map<int, V>, k: int, v: V)
    requires Injective(m) && v !in Visuals(m)
    ensures Injective(BindIfAbsent(m, k, v))
  {
    var r := BindIfAbsent(m, k, v);
    forall a, b | a in r && b in r && a != b ensures r[a] != r[b] {
      if a != k && b != k {
        assert r[a] == m[a] && r[b] == m[b];
      } else if k !in m {
        if a == k {
          assert m[b] in Visuals(m);
        } else {
          assert m[a] in Visuals(m);
        }
      }
    }
  }

  /** Which visual shows which slot content: the pairs (visual, content) over the bound slots
      that hold a content. */
  ghost function Pairing<V, T>(m: map<int, V>, s: seq<T>): set<(V, T)> {
    set k | k in m && 0 <= k < |s| :: (m[k], s[k])
  }

  /** Moving a binding together with swapping the two slots' contents keeps every visual
      paired with the content it showed before. */
  lemma MovePairing<V, T>(m: map<int, V>, s: seq<T>, src: int, dst: int)
    requires src in m && dst !in m && 0 <= src < |s| && 0 <= dst < |s|
    ensures Pairing(Move(m, src, dst), Swap(s, src, dst)) == Pairing(m, s)
  {
    var r, t := Move(m, src, dst), Swap(s, src, dst);
    forall x | x in Pairing(m, s) ensures x in Pairing(r, t) {
      var k :| k in m && 0 <= k < |s| && x == (m[k], s[k]);
      if k == src {
        assert x == (r[dst], t[dst]);
      } else {
        assert x == (r[k], t[k]);
      }
    }
    forall x | x in Pairing(r, t) ensures x in Pairing(m, s) {
      var k :| k in r && 0 <= k < |t| && x == (r[k], t[k]);
      if k == dst {
        assert x == (m[src], s[src]);
      } else {
        assert x == (m[k], s[k]);
      }
    }
  }

  /** Exchanging two bindings together with swapping the two slots' contents keeps every
      visual paired with the content it showed before. */
  lemma ExchangePairing<V, T>(m: map<int, V>, s: seq<T>, a: int, b: int)
    requires a in m && b in m && 0 <= a < |s| && 0 <= b < |s|
    ensures Pairing(Exchange(m, a, b), Swap(s, a, b)) == Pairing(m, s)
  {
    var r, t := Exchange(m, a, b), Swap(s, a, b);
    forall x | x in Pairing(m, s) ensures x in Pairing(r, t) {
      var k :| k in m && 0 <= k < |s| && x == (m[k], s[k]);
      if k == a {
        assert x == (r[b], t[b]);
      } else if k == b {
        assert x == (r[a], t[a]);
      } else {
        assert x == (r[k], t[k]);
      }
    }
    forall x | x in Pairing(r, t) ensures x in Pairing(m, s) {
      var k :| k in r && 0 <= k < |t| && x == (r[k], t[k]);
      if k == a {
        assert x == (m[b], s[b]);
      } else if k == b {
        assert x == (m[a], s[a]);
      } else {
        assert x == (m[k], s[k]);
      }
    }
  }
}
