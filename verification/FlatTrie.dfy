/** A trie kept in one vector, with children found by binary search. */
module FlatTries {
  import opened Prelude

  /** Larger than every rule number. */
  const U32_MAX: nat := 0xFFFF_FFFF

  datatype Rule = Rule(priority: nat, to: bytes)

  type Edge = (byte, nat)

  datatype CompactNode = CompactNode(rule: Option<Rule>, children: seq<Edge>)

  /** A key as it was inserted. */
  datatype Entry = Entry(key: bytes, priority: nat, to: bytes)

  /** What a search answers: the length of the key found, its replacement and its number. */
  datatype Found = Found(len: nat, to: bytes, priority: nat)

  // ----- What was inserted -----

  ghost function FirstOf(history: seq<Entry>, key: bytes): Option<Rule> {
    if history == [] then None
    else if history[0].key == key then Some(Rule(history[0].priority, history[0].to))
    else FirstOf(history[1..], key)
  }

  /** The earliest entry whose key starts the text and is no longer than `n`. */
  ghost function EarliestUpTo(history: seq<Entry>, text: bytes, n: nat): Option<Found> {
    if history == [] then None
    else if history[0].key <= text && |history[0].key| <= n then
      Some(Found(|history[0].key|, history[0].to, history[0].priority))
    else EarliestUpTo(history[1..], text, n)
  }

  ghost function Earliest(history: seq<Entry>, text: bytes): Option<Found> {
    EarliestUpTo(history, text, |text|)
  }

  ghost predicate Increasing(history: seq<Entry>) {
    forall i, j | 0 <= i < j < |history| :: history[i].priority < history[j].priority
  }

  ghost predicate AllAbove(history: seq<Entry>, p: nat) {
    forall i | 0 <= i < |history| :: history[i].priority > p
  }

  lemma {:induction false} FirstOfAppend(history: seq<Entry>, e: Entry, key: bytes)
    ensures FirstOf(history + [e], key) ==
            if FirstOf(history, key).None? && e.key == key then Some(Rule(e.priority, e.to)) else FirstOf(history, key)
  {
    if history == [] {
      assert ([] + [e])[1..] == [];
    } else {
      assert (history + [e])[1..] == history[1..] + [e];
      FirstOfAppend(history[1..], e, key);
    }
  }

  lemma {:induction false} FoundAbove(history: seq<Entry>, text: bytes, n: nat, key: bytes, p: nat)
    requires AllAbove(history, p)
    ensures EarliestUpTo(history, text, n).Some? ==> EarliestUpTo(history, text, n).value.priority > p
    ensures FirstOf(history, key).Some? ==> FirstOf(history, key).value.priority > p
  {
    if history != [] {
      FoundAbove(history[1..], text, n, key, p);
    }
  }

  /** One byte further: the new key competes with the best so far, and the earlier insertion wins. */
  lemma {:induction false} EarliestGrows(history: seq<Entry>, text: bytes, n: nat)
    requires Increasing(history) && n < |text|
    ensures var best, here := EarliestUpTo(history, text, n), FirstOf(history, text[..n + 1]);
            EarliestUpTo(history, text, n + 1) ==
              if here.Some? && (best.None? || here.value.priority < best.value.priority)
              then Some(Found(n + 1, here.value.to, here.value.priority)) else best
  {
    if history != [] {
      var first, rest := history[0], history[1..];
      assert AllAbove(rest, first.priority);
      EarliestGrows(rest, text, n);
      FoundAbove(rest, text, n, text[..n + 1], first.priority);
      assert first.key <= text && |first.key| == n + 1 <==> first.key == text[..n + 1];
    }
  }

  /** No key goes on along the text: nothing more will be found. */
  lemma {:induction false} EarliestStops(history: seq<Entry>, text: bytes, n: nat)
    requires n < |text| && forall i | 0 <= i < |history| :: !(text[..n + 1] <= history[i].key)
    ensures EarliestUpTo(history, text, n) == Earliest(history, text)
  {
    if history != [] {
      assert forall i | 0 < i < |history| :: history[i] == history[1..][i - 1];
      EarliestStops(history[1..], text, n);
    }
  }

  lemma {:induction false} EarliestAtRoot(history: seq<Entry>, text: bytes)
    ensures EarliestUpTo(history, text, 0) ==
            match FirstOf(history, []) case None => None case Some(r) => Some(Found(0, r.to, r.priority))
  {
    if history != [] {
      EarliestAtRoot(history[1..], text);
      assert history[0].key <= text && |history[0].key| <= 0 <==> history[0].key == [];
    }
  }

  // ----- The vector -----

  ghost predicate Sorted(children: seq<Edge>) {
    forall i, j | 0 <= i < j < |children| :: children[i].0 < children[j].0
  }

  ghost predicate Bounded(nodes: seq<CompactNode>) {
    |nodes| > 0 && forall n, i | 0 <= n < |nodes| && 0 <= i < |nodes[n].children| :: nodes[n].children[i].1 < |nodes|
  }

  ghost function Child(children: seq<Edge>, b: byte): (r: Option<nat>)
    ensures r.Some? ==> exists i | 0 <= i < |children| :: children[i] == (b, r.value)
    ensures r.None? ==> forall i | 0 <= i < |children| :: children[i].0 != b
  {
    if children == [] then None
    else if children[0].0 == b then Some(children[0].1)
    else Child(children[1..], b)
  }

  /** The node a key leads to. */
  ghost function Walk(nodes: seq<CompactNode>, key: bytes): (r: Option<nat>)
    requires Bounded(nodes)
    ensures r.Some? ==> r.value < |nodes|
    decreases |key|
  {
    if key == [] then Some(0)
    else
      match Walk(nodes, key[..|key| - 1])
      case None => None
      case Some(n) => Child(nodes[n].children, key[|key| - 1])
  }

  ghost function RuleAt(nodes: seq<CompactNode>, key: bytes): Option<Rule>
    requires Bounded(nodes)
  {
    match Walk(nodes, key) case None => None case Some(n) => nodes[n].rule
  }

  /** Children stand in strict order and point forward, and each node belongs to one key. */
  ghost predicate NodeOk(nodes: seq<CompactNode>, keys: seq<bytes>, n: nat)
    requires |nodes| == |keys| && n < |nodes|
  {
    var children := nodes[n].children;
    && Sorted(children)
    && (forall i | 0 <= i < |children| ::
          n < children[i].1 < |nodes| && keys[children[i].1] == keys[n] + [children[i].0])
  }

  ghost predicate WellFormed(nodes: seq<CompactNode>, keys: seq<bytes>) {
    && |nodes| == |keys| > 0 && keys[0] == []
    && (forall n | 0 <= n < |nodes| :: NodeOk(nodes, keys, n))
  }

  lemma {:induction false} FormIsBounded(nodes: seq<CompactNode>, keys: seq<bytes>)
    requires WellFormed(nodes, keys)
    ensures Bounded(nodes)
  {
    forall n, i | 0 <= n < |nodes| && 0 <= i < |nodes[n].children| ensures nodes[n].children[i].1 < |nodes| {
      assert NodeOk(nodes, keys, n);
    }
  }

  lemma {:induction false} WalkKey(nodes: seq<CompactNode>, keys: seq<bytes>, key: bytes)
    requires WellFormed(nodes, keys) && Bounded(nodes) && Walk(nodes, key).Some?
    ensures keys[Walk(nodes, key).value] == key
    decreases |key|
  {
    if key != [] {
      var init := key[..|key| - 1];
      WalkKey(nodes, keys, init);
      assert NodeOk(nodes, keys, Walk(nodes, init).value);
      assert key == init + [key[|key| - 1]];
    }
  }

  lemma {:induction false} WalkPrefix(nodes: seq<CompactNode>, key: bytes, k: bytes)
    requires Bounded(nodes) && Walk(nodes, key).Some? && k <= key
    ensures Walk(nodes, k).Some?
    decreases |key|
  {
    if k != key {
      WalkPrefix(nodes, key[..|key| - 1], k);
    } else {
      assert k == key;
    }
  }

  /** The place of a byte among sorted children. */
  ghost predicate Splits(children: seq<Edge>, b: byte, at: nat) {
    && at <= |children|
    && (forall i | 0 <= i < at :: children[i].0 < b)
    && (forall i | at <= i < |children| :: children[i].0 >= b)
  }

  method PartitionPoint(children: seq<Edge>, b: byte) returns (at: nat)
    requires Sorted(children)
    ensures Splits(children, b, at)
    ensures Child(children, b) == if at < |children| && children[at].0 == b then Some(children[at].1) else None
  {
    var lo, hi := 0, |children|;
    while lo < hi
      invariant 0 <= lo <= hi <= |children|
      invariant forall i | 0 <= i < lo :: children[i].0 < b
      invariant forall i | hi <= i < |children| :: children[i].0 >= b
    {
      var mid := (lo + hi) / 2;
      if children[mid].0 < b {
        lo := mid + 1;
      } else {
        hi := mid;
      }
    }
    at := lo;
    ChildIsAt(children, b, at);
  }

  lemma {:induction false} ChildIsAt(children: seq<Edge>, b: byte, at: nat)
    requires Sorted(children) && Splits(children, b, at)
    ensures Child(children, b) == if at < |children| && children[at].0 == b then Some(children[at].1) else None
  {
    var r := Child(children, b);
    if r.Some? {
      var i :| 0 <= i < |children| && children[i] == (b, r.value);
      assert i >= at;
      assert at < |children| && children[at].0 == b ==> i == at;
    }
  }

  // ----- Growing -----

  function WithEdge(children: seq<Edge>, at: nat, e: Edge): (r: seq<Edge>)
    requires at <= |children|
  {
    children[..at] + [e] + children[at..]
  }

  /** A new node below `n`. */
  function Grown(nodes: seq<CompactNode>, n: nat, at: nat, b: byte): seq<CompactNode>
    requires n < |nodes| && at <= |nodes[n].children|
  {
    nodes[n := nodes[n].(children := WithEdge(nodes[n].children, at, (b, |nodes|)))] + [CompactNode(None, [])]
  }

  lemma {:induction false} EdgeSorted(children: seq<Edge>, at: nat, e: Edge)
    requires Sorted(children) && Splits(children, e.0, at) && Child(children, e.0).None?
    ensures Sorted(WithEdge(children, at, e))
  {
    var more := WithEdge(children, at, e);
    forall i, j | 0 <= i < j < |more| ensures more[i].0 < more[j].0 {
      assert more[i] == if i < at then children[i] else if i == at then e else children[i - 1];
      assert more[j] == if j < at then children[j] else if j == at then e else children[j - 1];
    }
  }

  lemma {:induction false} EdgeChild(children: seq<Edge>, at: nat, e: Edge, b: byte)
    requires Sorted(children) && Splits(children, e.0, at) && Child(children, e.0).None?
    ensures Sorted(WithEdge(children, at, e))
    ensures Child(WithEdge(children, at, e), b) == if b == e.0 then Some(e.1) else Child(children, b)
  {
    hide Child;
    EdgeSorted(children, at, e);
    var more := WithEdge(children, at, e);
    ChildOnly(more, b);
    ChildOnly(children, b);
    assert forall i | 0 <= i < |more| ::
           more[i] == if i < at then children[i] else if i == at then e else children[i - 1];
    if b == e.0 {
      assert more[at].0 == b;
    } else {
      forall i | 0 <= i < |children| && children[i].0 == b ensures Child(more, b) == Some(children[i].1) {
        assert more[if i < at then i else i + 1] == children[i];
      }
    }
  }

  lemma {:induction false} ChildOnly(children: seq<Edge>, b: byte)
    requires Sorted(children)
    ensures forall i | 0 <= i < |children| && children[i].0 == b :: Child(children, b) == Some(children[i].1)
  {
  }

  lemma {:induction false} GrownRule(nodes: seq<CompactNode>, keys: seq<bytes>, n: nat, at: nat, b: byte, k: bytes)
    requires WellFormed(nodes, keys) && Bounded(nodes) && n < |nodes| && Walk(nodes, keys[n]) == Some(n)
    requires Splits(nodes[n].children, b, at) && Child(nodes[n].children, b).None? && Bounded(Grown(nodes, n, at, b))
    ensures RuleAt(Grown(nodes, n, at, b), k) == RuleAt(nodes, k)
    ensures Walk(Grown(nodes, n, at, b), keys[n] + [b]) == Some(|nodes|)
  {
    GrownWalk(nodes, keys, n, at, b, k);
    GrownWalk(nodes, keys, n, at, b, keys[n] + [b]);
    assert (keys[n] + [b])[..|keys[n]|] == keys[n];
  }

  lemma {:induction false} GrownForm(nodes: seq<CompactNode>, keys: seq<bytes>, n: nat, at: nat, b: byte)
    requires WellFormed(nodes, keys) && n < |nodes| && Splits(nodes[n].children, b, at) &&
             Child(nodes[n].children, b).None?
    ensures WellFormed(Grown(nodes, n, at, b), keys + [keys[n] + [b]])
  {
    var more, all := Grown(nodes, n, at, b), keys + [keys[n] + [b]];
    forall x | 0 <= x < |more| ensures NodeOk(more, all, x) {
      if x < |nodes| {
        assert NodeOk(nodes, keys, x);
        if x == n {
          EdgeChild(nodes[n].children, at, (b, |nodes|), b);
        }
      }
    }
  }

  lemma {:induction false} GrownWalk(nodes: seq<CompactNode>, keys: seq<bytes>, n: nat, at: nat, b: byte, k: bytes)
    requires WellFormed(nodes, keys) && Bounded(nodes) && n < |nodes| && Walk(nodes, keys[n]) == Some(n)
    requires Splits(nodes[n].children, b, at) && Child(nodes[n].children, b).None? && Bounded(Grown(nodes, n, at, b))
    ensures Walk(Grown(nodes, n, at, b), k) == if k == keys[n] + [b] then Some(|nodes|) else Walk(nodes, k)
    decreases |k|
  {
    var more := Grown(nodes, n, at, b);
    if k != [] {
      var init, last := k[..|k| - 1], k[|k| - 1];
      assert k == init + [last];
      GrownWalk(nodes, keys, n, at, b, init);
      assert k == keys[n] + [b] <==> init == keys[n] && last == b;
      if init == keys[n] + [b] {
        assert Walk(nodes, init) == None by { assert init[..|init| - 1] == keys[n]; }
      } else if Walk(nodes, init).Some? {
        var x := Walk(nodes, init).value;
        WalkKey(nodes, keys, init);
        assert NodeOk(nodes, keys, n);
        if x == n {
          EdgeChild(nodes[n].children, at, (b, |nodes|), last);
        }
      }
    }
  }

  // ----- As the source keeps it -----

  class FlatTrie {
    var nodes: seq<CompactNode>
    var minPrio: nat
    ghost var keys: seq<bytes>
    ghost var history: seq<Entry>

    ghost predicate Valid()
      reads this
    {
      && WellFormed(nodes, keys) && Bounded(nodes) && Increasing(history)
      && (forall k :: RuleAt(nodes, k) == FirstOf(history, k))
      && minPrio == if history == [] then U32_MAX else history[0].priority
    }

    constructor ()
      ensures Valid() && history == []
    {
      nodes := [CompactNode(None, [])];
      minPrio := U32_MAX;
      keys := [[]];
      history := [];
      new;
      forall k ensures RuleAt(nodes, k) == None { }
    }

    /** Adds a key; the first rule of a key stays. */
    method Insert(key: bytes, to: bytes, priority: nat)
      requires Valid() && priority < U32_MAX && forall i | 0 <= i < |history| :: history[i].priority < priority
      modifies this
      ensures Valid() && history == old(history) + [Entry(key, priority, to)]
    {
      if priority < minPrio {
        minPrio := priority;
      }
      var current := 0;
      assert key[..0] == [];
      for i := 0 to |key|
        invariant WellFormed(nodes, keys) && Bounded(nodes) && history == old(history)
        invariant Walk(nodes, key[..i]) == Some(current)
        invariant forall k :: RuleAt(nodes, k) == FirstOf(history, k)
        invariant minPrio == if history == [] then priority else history[0].priority
      {
        assert NodeOk(nodes, keys, current);
        assert key[..i + 1][..i] == key[..i];
        var at := PartitionPoint(nodes[current].children, key[i]);
        if at < |nodes[current].children| && nodes[current].children[at].0 == key[i] {
          current := nodes[current].children[at].1;
        } else {
          current := Extend(key, i, current, at);
        }
      }
      assert key[..|key|] == key;
      Settle(key, current, Rule(priority, to));
    }

    /** A new node for the next byte of the key. */
    method Extend(key: bytes, i: nat, current: nat, at: nat) returns (next: nat)
      requires WellFormed(nodes, keys) && Bounded(nodes) && i < |key| && Walk(nodes, key[..i]) == Some(current)
      requires Splits(nodes[current].children, key[i], at) && Child(nodes[current].children, key[i]).None?
      requires forall k :: RuleAt(nodes, k) == FirstOf(history, k)
      modifies this
      ensures WellFormed(nodes, keys) && Bounded(nodes) && history == old(history) && minPrio == old(minPrio)
      ensures Walk(nodes, key[..i + 1]) == Some(next)
      ensures forall k :: RuleAt(nodes, k) == FirstOf(history, k)
    {
      hide WellFormed, Walk, RuleAt, FirstOf, Bounded;
      ghost var was, b := nodes, key[i];
      WalkKey(nodes, keys, key[..i]);
      GrownForm(nodes, keys, current, at, b);
      FormIsBounded(Grown(nodes, current, at, b), keys + [keys[current] + [b]]);
      forall k ensures RuleAt(Grown(was, current, at, b), k) == FirstOf(history, k) {
        GrownRule(was, keys, current, at, b, k);
      }
      GrownRule(was, keys, current, at, b, key);
      assert key[..i + 1] == key[..i] + [b];
      next := |nodes|;
      keys := keys + [keys[current] + [b]];
      nodes := Grown(nodes, current, at, key[i]);
    }

    /** The rule of the last node, unless it has one. */
    method Settle(key: bytes, n: nat, rule: Rule)
      requires WellFormed(nodes, keys) && Bounded(nodes) && Walk(nodes, key) == Some(n) && Increasing(history)
      requires forall k :: RuleAt(nodes, k) == FirstOf(history, k)
      requires forall i | 0 <= i < |history| :: history[i].priority < rule.priority
      requires minPrio == if history == [] then rule.priority else history[0].priority
      modifies this
      ensures Valid() && history == old(history) + [Entry(key, rule.priority, rule.to)]
    {
      ghost var was := nodes;
      if nodes[n].rule.None? {
        nodes := nodes[n := nodes[n].(rule := Some(rule))];
      }
      ghost var e := Entry(key, rule.priority, rule.to);
      ghost var before := history;
      history := history + [e];
      assert Bounded(nodes);
      assert WellFormed(nodes, keys) by {
        forall x | 0 <= x < |nodes| ensures NodeOk(nodes, keys, x) { assert NodeOk(was, keys, x); }
      }
      forall k ensures RuleAt(nodes, k) == FirstOf(history, k) {
        assert RuleAt(was, k) == FirstOf(before, k);
        FirstOfAppend(before, e, k);
        WalkSame(was, nodes, k);
        if Walk(was, k) == Some(n) {
          WalkKey(was, keys, k);
          WalkKey(was, keys, key);
        }
      }
    }

    /** The earliest inserted key the text starts with. */
    method FindBest(text: bytes) returns (r: Option<Found>)
      requires Valid()
      ensures r == Earliest(history, text)
    {
      var current, consumed := 0, 0;
      r := match nodes[0].rule case None => None case Some(rule) => Some(Found(0, rule.to, rule.priority));
      assert RuleAt(nodes, []) == FirstOf(history, []);
      EarliestAtRoot(history, text);
      assert text[..0] == [];
      while consumed < |text|
        invariant consumed <= |text| && Walk(nodes, text[..consumed]) == Some(current)
        invariant r == EarliestUpTo(history, text, consumed)
      {
        var b := text[consumed];
        assert NodeOk(nodes, keys, current);
        var at := PartitionPoint(nodes[current].children, b);
        assert text[..consumed + 1][..consumed] == text[..consumed];
        if at < |nodes[current].children| && nodes[current].children[at].0 == b {
          current := nodes[current].children[at].1;
          assert RuleAt(nodes, text[..consumed + 1]) == FirstOf(history, text[..consumed + 1]);
          EarliestGrows(history, text, consumed);
          consumed := consumed + 1;
          if nodes[current].rule.Some? {
            var rule := nodes[current].rule.value;
            if r.None? || rule.priority < r.value.priority {
              r := Some(Found(consumed, rule.to, rule.priority));
            }
          }
        } else {
          NoneBeyond(text, consumed);
          EarliestStops(history, text, consumed);
          return;
        }
      }
    }

    lemma {:induction false} NoneBeyond(text: bytes, n: nat)
      requires Valid() && n < |text| && Walk(nodes, text[..n + 1]).None?
      ensures forall i | 0 <= i < |history| :: !(text[..n + 1] <= history[i].key)
    {
      forall i | 0 <= i < |history| ensures !(text[..n + 1] <= history[i].key) {
        FirstOfHas(history, i);
        assert RuleAt(nodes, history[i].key) == FirstOf(history, history[i].key);
        if text[..n + 1] <= history[i].key {
          WalkPrefix(nodes, history[i].key, text[..n + 1]);
        }
      }
    }
  }

  lemma {:induction false} FirstOfHas(history: seq<Entry>, i: nat)
    requires i < |history|
    ensures FirstOf(history, history[i].key).Some?
  {
    if i > 0 {
      FirstOfHas(history[1..], i - 1);
    }
  }

  lemma {:induction false} WalkSame(was: seq<CompactNode>, nodes: seq<CompactNode>, k: bytes)
    requires Bounded(was) && Bounded(nodes) && |was| == |nodes|
    requires forall n | 0 <= n < |was| :: was[n].children == nodes[n].children
    ensures Walk(nodes, k) == Walk(was, k)
    decreases |k|
  {
    if k != [] {
      WalkSame(was, nodes, k[..|k| - 1]);
    }
  }
}
