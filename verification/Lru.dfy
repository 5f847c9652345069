/** A map of bounded size that forgets the key used longest ago. */
module Lru {
  import opened Wrappers
  import opened Sequences

  lemma DistinctFront<K>(x: K, q: seq<K>)
    ensures Distinct([x] + q) <==> Distinct(q) && x !in q
  {
    var all := [x] + q;
    if Distinct(all) {
      forall i, j | 0 <= i < j < |q| ensures q[i] != q[j] { assert all[i + 1] != all[j + 1]; }
      forall i | 0 <= i < |q| ensures q[i] != x { assert all[0] != all[i + 1]; }
    }
  }

  lemma DistinctBack<K>(q: seq<K>, x: K)
    requires Distinct(q) && x !in q
    ensures Distinct(q + [x]) && Elements(q + [x]) == Elements(q) + {x}
  {
  }

  /** `q` with its first occurrence of `key` removed. */
  function Without<K(==)>(q: seq<K>, key: K): (r: seq<K>)
    ensures Distinct(q) ==> Distinct(r) && key !in r
    ensures forall x | x in r :: x in q
    ensures forall x | x in q && x != key :: x in r
    ensures key !in q ==> r == q
    ensures key in q ==> |r| == |q| - 1
  {
    if q == [] then []
    else
      assert q == [q[0]] + q[1..];
      DistinctFront(q[0], q[1..]);
      if q[0] == key then q[1..]
      else
        var rest := Without(q[1..], key);
        DistinctFront(q[0], rest);
        [q[0]] + rest
  }

  /** The recency list after using `key`, when at most `max` keys are kept. */
  function Used<K(==)>(order: seq<K>, key: K, max: nat): seq<K> {
    if max == 0 then order
    else if key in order then Without(order, key) + [key]
    else if |order| >= max && order != [] then order[1..] + [key]
    else order + [key]
  }

  class LruMap<K(==), V> {
    var entries: map<K, V>
    var order: seq<K>
    const max: nat

    /** `order` lists the keys, least recently used first. */
    ghost predicate Valid()
      reads this
    {
      Distinct(order) && Elements(order) == entries.Keys && |order| <= max
    }

    constructor (max: nat)
      ensures Valid() && entries == map[] && order == [] && this.max == max
    {
      entries, order := map[], [];
      this.max := max;
    }

    /** The position of `key` in the list, or its length. */
    method Position(key: K) returns (pos: nat)
      requires Valid()
      ensures pos <= |order| && (pos < |order| ==> order[pos] == key)
      ensures key !in order[..pos]
      ensures pos < |order| <==> key in order
    {
      pos := 0;
      while pos < |order| && order[pos] != key
        invariant pos <= |order| && key !in order[..pos]
      {
        pos := pos + 1;
      }
    }

    method Promote(key: K)
      requires Valid()
      modifies this`order
      ensures order == if key in old(order) then Without(old(order), key) + [key] else old(order)
      ensures Valid()
    {
      var pos := Position(key);
      if pos < |order| {
        WithoutAt(order, key, pos);
        order := order[..pos] + order[pos + 1..];
        order := order + [key];
      }
    }

    method Insert(key: K, value: V)
      requires Valid()
      modifies this
      ensures Valid()
      ensures order == Used(old(order), key, max)
      ensures max == 0 ==> entries == old(entries)
      ensures max > 0 ==> key in entries && entries[key] == value
      ensures max > 0 ==> forall k | k != key ::
        (k in entries <==> k in old(entries) && k in order) && (k in entries ==> entries[k] == old(entries)[k])
    {
      if max == 0 { return; }
      if key in entries {
        entries := entries[key := value];
        Promote(key);
        return;
      }
      if |entries| >= max {
        SizeIs(order, entries);
        var oldest := order[0];
        assert order == [oldest] + order[1..];
        order := order[1..];
        entries := entries - {oldest};
      } else {
        SizeIs(order, entries);
      }
      entries := entries[key := value];
      order := order + [key];
    }

    method Remove(key: K) returns (removed: Option<V>)
      requires Valid()
      modifies this
      ensures Valid()
      ensures order == Without(old(order), key) && entries == old(entries) - {key}
      ensures removed == if key in old(entries) then Some(old(entries)[key]) else None
    {
      var pos := Position(key);
      if pos < |order| {
        WithoutAt(order, key, pos);
        order := order[..pos] + order[pos + 1..];
      }
      removed := if key in entries then Some(entries[key]) else None;
      entries := entries - {key};
    }

    method EvictOne() returns (key: Option<K>)
      requires Valid()
      modifies this
      ensures Valid()
      ensures old(order) == [] ==> key == None && order == [] && entries == old(entries)
      ensures old(order) != [] ==>
        key == Some(old(order)[0]) && order == old(order)[1..] && entries == old(entries) - {old(order)[0]}
    {
      if order == [] { return None; }
      var oldest := order[0];
      assert order == [oldest] + order[1..];
      order := order[1..];
      entries := entries - {oldest};
      key := Some(oldest);
    }
  }

  lemma {:induction false} WithoutAt<K>(q: seq<K>, key: K, pos: nat)
    requires pos < |q| && q[pos] == key && key !in q[..pos]
    ensures Without(q, key) == q[..pos] + q[pos + 1..]
  {
    if pos > 0 {
      assert q[0] in q[..pos];
      assert q[1..][..pos - 1] == q[..pos][1..];
      WithoutAt(q[1..], key, pos - 1);
    }
  }

  lemma {:induction false} SizeIs<K, V>(q: seq<K>, m: map<K, V>)
    requires Distinct(q) && Elements(q) == m.Keys
    ensures |q| == |m|
  {
    ElementCount(q);
    assert |m| == |m.Keys|;
  }

  lemma {:induction false} ElementCount<K>(q: seq<K>)
    requires Distinct(q)
    ensures |Elements(q)| == |q|
  {
    if q != [] {
      var n := |q| - 1;
      ElementCount(q[..n]);
      assert q == q[..n] + [q[n]];
      assert Elements(q) == Elements(q[..n]) + {q[n]};
    }
  }

  // ---- what the list means after any history of uses

  /** All keys ever used, each once, in the order of their last use. */
  function Recency<K(==)>(uses: seq<K>): (r: seq<K>)
    ensures Distinct(r) && Elements(r) == Elements(uses)
  {
    if uses == [] then []
    else
      var n := |uses| - 1;
      assert uses == uses[..n] + [uses[n]];
      var rest := Without(Recency(uses[..n]), uses[n]);
      DistinctBack(rest, uses[n]);
      assert Elements(rest) + {uses[n]} == Elements(uses[..n]) + {uses[n]};
      assert Elements(uses) == Elements(uses[..n]) + {uses[n]};
      rest + [uses[n]]
  }

  /** The list after inserting `uses` one by one into an empty map of size `max`. */
  function ListAfter<K(==)>(uses: seq<K>, max: nat): seq<K> {
    if uses == [] then [] else Used(ListAfter(uses[..|uses| - 1], max), uses[|uses| - 1], max)
  }

  function Newest<K>(q: seq<K>, n: nat): seq<K> {
    if |q| <= n then q else q[|q| - n..]
  }

  lemma {:induction false} WithoutBack<K>(a: seq<K>, b: seq<K>, key: K)
    ensures key in a ==> Without(a + b, key) == Without(a, key) + b
    ensures key !in a ==> Without(a + b, key) == a + Without(b, key)
  {
    if a == [] {
      assert a + b == b;
    } else {
      assert (a + b)[1..] == a[1..] + b;
      WithoutBack(a[1..], b, key);
    }
  }

  /** However often keys come back after being forgotten, what is kept is exactly the
      `max` most recently used keys, in order of last use. */
  lemma {:induction false} KeepsTheMostRecent<K>(uses: seq<K>, max: nat)
    requires max > 0
    ensures ListAfter(uses, max) == Newest(Recency(uses), max)
  {
    if uses == [] { return; }
    var n := |uses| - 1;
    var key, before := uses[n], Recency(uses[..n]);
    KeepsTheMostRecent(uses[..n], max);
    var kept := Newest(before, max);
    var gone := before[..|before| - |kept|];
    assert before == gone + kept;
    WithoutBack(gone, kept, key);
    UsedIsNewest(gone, kept, key, max);
  }

  lemma DisjointParts<K>(a: seq<K>, b: seq<K>, x: K)
    requires Distinct(a + b) && x in b
    ensures x !in a
  {
    var j :| 0 <= j < |b| && b[j] == x;
    forall i | 0 <= i < |a| ensures a[i] != x { assert (a + b)[i] != (a + b)[|a| + j]; }
  }

  /** One step: `kept` is in the list, `gone` was forgotten earlier. */
  lemma UsedIsNewest<K>(gone: seq<K>, kept: seq<K>, key: K, max: nat)
    requires max > 0 && Distinct(gone + kept) && |kept| <= max && (gone != [] ==> |kept| == max)
    ensures Used(kept, key, max) == Newest(Without(gone + kept, key) + [key], max)
  {
    hide Without, Distinct;
    WithoutBack(gone, kept, key);
    if key in kept {
      DisjointParts(gone, kept, key);
      assert Without(gone + kept, key) + [key] == gone + (Without(kept, key) + [key]);
    } else if key in gone {
      var all := Without(gone, key) + kept + [key];
      assert all[|all| - max..] == kept[1..] + [key];
    } else {
      var all := gone + kept + [key];
      if |kept| == max { assert all[|all| - max..] == kept[1..] + [key]; }
    }
  }
}
