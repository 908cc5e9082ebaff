/** Moving a child forward in place when its priority grows, and its index byte with it. */
module ChildOrder {
  import opened Prelude
  import opened RouteTree
  import opened TreeInsert

  /** Element `i` taken out and put back at `u`; those between move one place up. */
  ghost function Rotated<X>(s: seq<X>, u: nat, i: nat): (r: seq<X>)
    requires u <= i < |s|
    ensures |r| == |s|
    ensures forall k | 0 <= k < |s| :: r[k] == if k == u then s[i] else if u < k <= i then s[k - 1] else s[k]
  {
    s[..u] + [s[i]] + s[u..i] + s[i + 1..]
  }

  lemma {:induction false} RotateFurther<X>(s: seq<X>, u: nat, i: nat)
    requires 0 < u <= i < |s|
    ensures Swap(Rotated(s, u, i), u) == Rotated(s, u - 1, i)
  {
  }

  ghost function Raised<T>(children: seq<Node<T>>, i: nat): (r: seq<Node<T>>)
    requires i < |children|
  {
    children[i := children[i].(priority := children[i].priority + 1)]
  }

  method RotateRight(a: array<byte>, u: nat, i: nat)
    requires u <= i < a.Length
    modifies a
    ensures a[..] == Rotated(old(a[..]), u, i)
  {
    var last, k := a[i], i;
    while k > u
      invariant u <= k <= i
      invariant forall x | 0 <= x < a.Length :: a[x] == if k < x <= i then old(a[x - 1]) else old(a[x])
    {
      a[k] := a[k - 1];
      k := k - 1;
    }
    a[u] := last;
  }

  method UpdateChildPriority<T>(children: array<Node<T>>, indices: array<byte>, i: nat) returns (updated: nat)
    requires i < indices.Length <= children.Length
    modifies children, indices
    ensures Ordered(children[..], indices[..], updated) == Promote(Raised(old(children[..]), i), old(indices[..]), i)
  {
    ghost var goal := Promote(Raised(children[..], i), indices[..], i);
    children[i] := children[i].(priority := children[i].priority + 1);
    assert children[..] == Raised(old(children[..]), i);
    var priority := children[i].priority;
    ghost var bytes := indices[..];
    updated := i;
    assert Rotated(bytes, i, i) == bytes;
    while updated > 0 && children[updated - 1].priority < priority
      invariant updated <= i && indices[..] == bytes
      invariant children[updated].priority == priority
      invariant goal == Promote(children[..], Rotated(bytes, updated, i), updated)
    {
      ghost var before := children[..];
      RotateFurther(bytes, updated, i);
      children[updated - 1], children[updated] := children[updated], children[updated - 1];
      assert children[..] == Swap(before, updated);
      updated := updated - 1;
    }
    if updated != i {
      RotateRight(indices, updated, i);
    }
  }

  /** The children stand in order of falling priority. */
  ghost predicate Falling<T>(children: seq<Node<T>>, n: nat)
    requires n <= |children|
  {
    forall i, j | 0 <= i < j < n :: children[i].priority >= children[j].priority
  }

  /** In order up to child `i`, which may stand too far back. */
  ghost predicate FallingBut<T>(children: seq<Node<T>>, n: nat, i: nat)
    requires i < n <= |children|
  {
    && (forall a, b | 0 <= a < b < n && a != i && b != i :: children[a].priority >= children[b].priority)
    && (forall b | i < b < n :: children[i].priority >= children[b].priority)
  }

  /** Child and index byte that belong together. */
  ghost function Pairs<T>(children: seq<Node<T>>, indices: bytes): seq<(Node<T>, byte)>
    requires |indices| <= |children|
  {
    seq(|indices|, k requires 0 <= k < |indices| => (children[k], indices[k]))
  }

  lemma {:induction false} PairsSwap<T>(children: seq<Node<T>>, indices: bytes, i: nat)
    requires 0 < i < |indices| <= |children|
    ensures multiset(Pairs(Swap(children, i), Swap(indices, i))) == multiset(Pairs(children, indices))
  {
    var p := Pairs(children, indices);
    assert Pairs(Swap(children, i), Swap(indices, i)) == p[i - 1 := p[i]][i := p[i - 1]];
  }

  lemma {:induction false} SwapFalls<T>(children: seq<Node<T>>, n: nat, i: nat)
    requires 0 < i < n <= |children| && FallingBut(children, n, i) && children[i - 1].priority < children[i].priority
    ensures FallingBut(Swap(children, i), n, i - 1)
    ensures Swap(children, i)[n..] == children[n..]
  {
  }

  lemma {:induction false} InPlace<T>(children: seq<Node<T>>, n: nat, i: nat)
    requires i < n <= |children| && FallingBut(children, n, i)
    requires i > 0 ==> children[i - 1].priority >= children[i].priority
    ensures Falling(children, n)
  {
    forall a, b | 0 <= a < b < n ensures children[a].priority >= children[b].priority {
      if b == i && a < i - 1 {
        assert children[a].priority >= children[i - 1].priority;
      }
    }
  }

  /** The move restores the order, keeps every child with its byte, and leaves the rest of the list alone. */
  lemma {:induction false} PromoteSorts<T>(children: seq<Node<T>>, indices: bytes, i: nat)
    requires i < |indices| <= |children| && FallingBut(children, |indices|, i)
    ensures var r := Promote(children, indices, i);
            && Falling(r.children, |indices|)
            && multiset(Pairs(r.children, r.indices)) == multiset(Pairs(children, indices))
            && r.children[r.at] == children[i] && r.indices[r.at] == indices[i]
            && r.children[|indices|..] == children[|indices|..]
    decreases i
  {
    hide Falling, FallingBut, Pairs;
    if i > 0 && children[i - 1].priority < children[i].priority {
      SwapFalls(children, |indices|, i);
      PairsSwap(children, indices, i);
      PromoteSorts(Swap(children, i), Swap(indices, i), i - 1);
    } else {
      InPlace(children, |indices|, i);
    }
  }

  /** Raising one child of an ordered list and moving it forward leaves an ordered list. */
  lemma {:induction false} UpdateKeepsOrder<T>(children: seq<Node<T>>, indices: bytes, i: nat)
    requires i < |indices| <= |children| && Falling(children, |indices|)
    ensures var r := Promote(Raised(children, i), indices, i);
            && Falling(r.children, |indices|)
            && multiset(Pairs(r.children, r.indices)) == multiset(Pairs(Raised(children, i), indices))
  {
    PromoteSorts(Raised(children, i), indices, i);
  }
}
