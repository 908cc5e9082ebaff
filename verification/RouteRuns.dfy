/** Whole runs of insertions and removals, and what lookups answer after them. */
module RouteRuns {
  import opened Prelude
  import opened Pattern
  import opened RouteTree
  import opened TreeInsert
  import opened InsertProof
  import opened TreeOutcome
  import opened TreeRemove
  import opened TreeSearch
  import opened BestMatch
  import opened SegmentTree
  import opened Acceptance
  import opened LiveTree
  import opened Params
  import opened PathSearch

  datatype Op<T> = Add(pattern: Tokens, value: T, names: seq<Name>) | Drop(pattern: Tokens, names: seq<Name>)

  ghost function Step<T>(t: Node<T>, op: Op<T>): Node<T>
    requires TreeShape(t)
  {
    match op
    case Add(p, v, names) => Insert(t, p, v, names).node
    case Drop(p, names) => Remove(t, p, names).node
  }

  /** The key an accepted pattern is stored under: behind the text a stale root still carries. */
  ghost function Key<T>(t: Node<T>, p: Tokens): Tokens {
    if Stale(t, p) then t.prefix + p else p
  }

  /** The routes after one step. `stored` is the key of an accepted insertion. */
  ghost function TableStep<T>(m: map<Tokens, Route<T>>, op: Op<T>, stored: Option<Tokens>): map<Tokens, Route<T>> {
    match op
    case Add(_, v, names) => if stored.Some? then m[stored.value := Route(v, names)] else m
    case Drop(p, names) => if p in m && m[p].names == names then m - {p} else m
  }

  ghost function Stored<T>(t: Node<T>, op: Op<T>): Option<Tokens>
    requires TreeShape(t)
  {
    if op.Add? && Insert(t, op.pattern, op.value, op.names).outcome.Ok? then Some(Key(t, op.pattern)) else None
  }

  ghost function Lookup<T>(m: map<Tokens, Route<T>>, p: Tokens): Option<Route<T>> {
    if p in m then Some(m[p]) else None
  }

  /** The tree stands for the table `m`. */
  ghost predicate Denotes<T>(t: Node<T>, m: map<Tokens, Route<T>>) {
    forall p :: Get(t, p) == Lookup(m, p)
  }

  /** A step may try any valid pattern with one name per parameter. */
  ghost predicate Allowed<T>(op: Op<T>) {
    |op.names| == ParamCount(op.pattern) && (op.Add? ==> Valid(op.pattern))
  }

  /** One allowed step, accepted or refused, keeps the shape and moves the table as told. */
  lemma {:induction false} StepDenotes<T>(t: Node<T>, m: map<Tokens, Route<T>>, op: Op<T>)
    requires TreeShape(t) && Denotes(t, m) && Allowed(op)
    ensures TreeShape(Step(t, op))
    ensures Denotes(Step(t, op), TableStep(m, op, Stored(t, op)))
  {
    hide Get, Insert, Remove;
    match op
    case Add(p, v, names) =>
      InsertTree(t, p, v, names);
    case Drop(p, names) =>
      RemoveTree(t, p, names);
      assert Get(t, p) == Lookup(m, p);
  }

  /** A run from the empty tree: every state it passes, the table beside it. */
  ghost predicate Run<T>(trees: seq<Node<T>>, tables: seq<map<Tokens, Route<T>>>, ops: seq<Op<T>>) {
    && |trees| == |ops| + 1 && |tables| == |ops| + 1
    && trees[0] == Empty() && tables[0] == map[]
    && (forall i | 0 <= i < |ops| :: TreeShape(trees[i]) ==>
          && Allowed(ops[i])
          && trees[i + 1] == Step(trees[i], ops[i])
          && tables[i + 1] == TableStep(tables[i], ops[i], Stored(trees[i], ops[i])))
  }

  /** Every tree of every run has its shape and stands for its table. */
  lemma {:induction false} RunDenotes<T>(
    trees: seq<Node<T>>, tables: seq<map<Tokens, Route<T>>>, ops: seq<Op<T>>, i: nat)
    requires Run(trees, tables, ops) && i <= |ops|
    ensures TreeShape(trees[i]) && Denotes(trees[i], tables[i])
  {
    hide Step, TableStep, Stored;
    if i == 0 {
      assert Denotes(Empty<T>(), map[]);
    } else {
      RunDenotes(trees, tables, ops, i - 1);
      StepDenotes(trees[i - 1], tables[i - 1], ops[i - 1]);
    }
  }

  // ----- Lookups -----

  /** A lookup that answers names a route of the tree and reads the path with that route's pattern and names. */
  lemma {:induction false} LookupIsSound<T>(t: Node<T>, path: bytes)
    requires TreeShape(t) && Search(t, path).Some?
    ensures var h := Search(t, path).value;
            && Get(t, h.pattern) == Some(Route(h.value, h.names))
            && Fill(h.pattern, h.values) == path
            && |h.values| == WildCount(h.pattern) == |h.keys|
            && h.keys == h.names + CatchNames(h.pattern) && |h.names| == ParamCount(h.pattern)
            && (forall i | 0 <= i < |h.values| :: h.values[i] != [])
            && (forall i | 0 <= i < |h.names| :: SLASH !in h.values[i])
  {
    hide Get;
    if t == Empty() {
      NothingFoundInEmpty<T>(path);
    } else {
      SearchSound(t, 0, path);
      var h := Search(t, path).value;
      FitsMeansFilled(h.pattern, path, h.values);
      WildsAreParams(h.pattern, path, h.values);
    }
  }

  /**
   What the search hands out: for some route of the tree that reads the path, its value and its names
   bound to what they read, each in its place.
   */
  lemma {:induction false} ReplyIsSound<T>(t: Node<T>, path: bytes) returns (h: Hit<T>)
    requires TreeShape(t) && Answer(Search(t, path), []).Some?
    ensures var reply := Answer(Search(t, path), []).value;
            && Get(t, h.pattern) == Some(Route(reply.value, h.names))
            && Fill(h.pattern, h.values) == path && |h.values| == |reply.params|
            && h.keys == h.names + CatchNames(h.pattern) && |h.keys| == |reply.params|
            && (forall i | 0 <= i < |reply.params| :: reply.params[i] == Binding(h.keys[i], h.values[i]))
            && (forall i | 0 <= i < |reply.params| :: reply.params[i].value != [])
            && (forall i | 0 <= i < |h.names| :: SLASH !in reply.params[i].value)
  {
    hide Get, Search, Fill;
    LookupIsSound(t, path);
    h := Search(t, path).value;
    assert [] + h.values == h.values;
  }

  lemma {:induction false} WildsAreParams(p: Tokens, path: bytes, values: seq<bytes>)
    requires Fits(p, path, values)
    ensures WildCount(p) == ParamCount(p) + |CatchNames(p)|
    decreases |p|
  {
    if p != [] {
      match p[0]
      case Lit(_) =>
        WildsAreParams(p[1..], path[1..], values);
        LastStays(p);
      case Param =>
        WildsAreParams(p[1..], path[|values[0]|..], values[1..]);
        LastStays(p);
      case Catch(_) =>
        assert p[1..] == [];
    }
  }

  lemma {:induction false} LastStays(p: Tokens)
    requires p != [] && !p[0].Catch?
    ensures CatchNames(p) == CatchNames(p[1..])
  {
  }

  /** `h` answers `path` in table `m`: it fits, and every other route that fits is less preferred. */
  ghost predicate Best<T>(m: map<Tokens, Route<T>>, path: bytes, h: Hit<T>) {
    && h.pattern in m && m[h.pattern] == Route(h.value, h.names) && Fits(h.pattern, path, h.values)
    && forall q, values | q in m && Fits(q, path, values) ::
         (q == h.pattern && values == h.values) || Prefers(h.pattern, q)
  }

  /** A route of the table that reads the path, with the suffixes the search commits to. */
  ghost predicate Offered<T>(t: Node<T>, m: map<Tokens, Route<T>>, path: bytes, q: Tokens, values: seq<bytes>) {
    q in m && Fits(q, path, values) && Commits(t, path, q, values)
  }

  /** In any tree, a lookup answers exactly when some route is offered, and with the preferred one of these. */
  lemma {:induction false} LookupIsOffered<T>(t: Node<T>, m: map<Tokens, Route<T>>, path: bytes)
    requires TreeShape(t) && Denotes(t, m)
    ensures Search(t, path).Some? <==> exists q, values :: Offered(t, m, path, q, values)
    ensures Search(t, path).Some? ==>
              var h := Search(t, path).value;
              && Offered(t, m, path, h.pattern, h.values) && m[h.pattern] == Route(h.value, h.names)
              && forall q, values | Offered(t, m, path, q, values) ::
                   (q == h.pattern && values == h.values) || Prefers(h.pattern, q)
  {
    hide Get, Commits;
    forall q, values | Offered(t, m, path, q, values)
      ensures AtLeast(Search(t, path), q, values)
    {
      assert Get(t, q) == Some(m[q]);
      assert t != Empty() by { NothingInEmpty<T>(q); }
      SearchBest(t, 0, path, q, values);
    }
    if q, values :| Offered(t, m, path, q, values) {
      assert AtLeast(Search(t, path), q, values);
    }
    if Search(t, path).Some? {
      NothingFoundInEmpty<T>(path);
      SearchSound(t, 0, path);
      SearchCommits(t, 0, path);
      var h := Search(t, path).value;
      assert Get(t, h.pattern) == Lookup(m, h.pattern);
      assert Offered(t, m, path, h.pattern, h.values);
      forall q, values | Offered(t, m, path, q, values)
        ensures (q == h.pattern && values == h.values) || Prefers(h.pattern, q)
      {
        assert AtLeast(Search(t, path), q, values);
      }
    }
  }

  /** In a tree without static suffixes, a lookup answers exactly when some route fits, and with the best one. */
  lemma {:induction false} LookupIsBest<T>(t: Node<T>, m: map<Tokens, Route<T>>, path: bytes)
    requires TreeShape(t) && SuffixFree(t) && Denotes(t, m)
    ensures Search(t, path).Some? <==> exists q, values :: q in m && Fits(q, path, values)
    ensures Search(t, path).Some? ==> Best(m, path, Search(t, path).value)
  {
    hide Get, SuffixFree, Commits, Search, Denotes, TreeShape, Fits, Prefers;
    LookupIsOffered(t, m, path);
    forall q, values
      ensures Offered(t, m, path, q, values) <==> q in m && Fits(q, path, values)
    {
      SuffixFreeCommits(t, path, q, values);
    }
    hide Offered;
    if Search(t, path).Some? {
      var h := Search(t, path).value;
      assert Offered(t, m, path, h.pattern, h.values);
      assert h.pattern in m && Fits(h.pattern, path, h.values);
      forall q, values | q in m && Fits(q, path, values)
        ensures (q == h.pattern && values == h.values) || Prefers(h.pattern, q)
      {
        assert Offered(t, m, path, q, values);
      }
    }
    if q, values :| q in m && Fits(q, path, values) {
      assert Offered(t, m, path, q, values);
    }
  }

  lemma {:induction false} NothingInEmpty<T>(q: Tokens)
    ensures Get<T>(Empty(), q) == None
  {
  }

  lemma {:induction false} NothingFoundInEmpty<T>(path: bytes)
    ensures Search<T>(Empty(), path) == None
  {
  }

  /** Two trees that stand for the same table answer every path alike, however they were built. */
  lemma {:induction false} OrderIsIrrelevant<T>(t: Node<T>, u: Node<T>, m: map<Tokens, Route<T>>, path: bytes)
    requires TreeShape(t) && SuffixFree(t) && Denotes(t, m)
    requires TreeShape(u) && SuffixFree(u) && Denotes(u, m)
    ensures Search(t, path) == Search(u, path)
  {
    hide Get, SuffixFree, TreeShape, Denotes;
    LookupIsBest(t, m, path);
    LookupIsBest(u, m, path);
    if Search(t, path).Some? {
      var a, b := Search(t, path).value, Search(u, path).value;
      if Prefers(a.pattern, b.pattern) { PrefersAsymmetric(a.pattern, b.pattern); }
      assert a.pattern == b.pattern && a.values == b.values;
      LookupIsSound(t, path);
      LookupIsSound(u, path);
    }
  }

  // ----- Registering whole-segment patterns -----

  datatype Registration<T> = Registration(pattern: Tokens, value: T, names: seq<Name>)

  ghost predicate Registrable<T>(r: Registration<T>) {
    Valid(r.pattern) && WholeSegment(r.pattern) && |r.names| == ParamCount(r.pattern)
  }

  ghost predicate AllRegistrable<T>(regs: seq<Registration<T>>) {
    forall i | 0 <= i < |regs| :: Registrable(regs[i])
  }

  ghost predicate Excluded<T>(m: map<Tokens, Route<T>>, p: Tokens) {
    exists q :: q in m && Clash(p, q)
  }

  /** The table of a list of registrations: each is taken unless an earlier one excludes it. */
  ghost function TableOf<T>(regs: seq<Registration<T>>): map<Tokens, Route<T>> {
    if regs == [] then map[]
    else
      var m, r := TableOf(regs[..|regs| - 1]), regs[|regs| - 1];
      if Excluded(m, r.pattern) then m else m[r.pattern := Route(r.value, r.names)]
  }

  /** A tree only ever inserted into, with whole-segment patterns. */
  ghost predicate Grown<T>(t: Node<T>, m: map<Tokens, Route<T>>) {
    TreeShape(t) && OnlyGrown(t) && Tidy(t, true) && Denotes(t, m)
  }

  lemma {:induction false} AcceptedIffFree<T>(t: Node<T>, m: map<Tokens, Route<T>>, r: Registration<T>)
    requires Grown(t, m) && Registrable(r)
    ensures !Stale(t, r.pattern)
    ensures Insert(t, r.pattern, r.value, r.names).outcome.Ok? <==> !Excluded(m, r.pattern)
  {
    hide Get, Live, Tidy;
    var p := r.pattern;
    NotEmptied(t);
    if t == Empty() {
      InsertTree(t, p, r.value, r.names);
      EmptyAccepts(t, p, r.value, r.names);
      forall q ensures q !in m {
        NothingInEmpty<T>(q);
        assert Get(t, q) == Lookup(m, q);
      }
    } else {
      RootWalks(t, p);
      OpenInsert(t, 0, None, p, r.value, r.names);
      if Open(t, p) {
        forall q | q in m ensures !Clash(p, q) {
          assert Get(t, q) == Lookup(m, q);
          OpenNoClash(t, 0, p, q);
        }
      } else {
        var q := ClosedHasClash(t, 0, p);
        assert Get(t, q) == Lookup(m, q);
      }
    }
  }

  /**
   Whatever was inserted and removed before, a pattern is accepted exactly if no route holds it and no
   node of the tree, with or without a route, excludes it.
   */
  lemma {:induction false} AcceptedIffUnblocked<T>(t: Node<T>, r: Registration<T>)
    requires TreeShape(t) && Tidy(t, true) && Registrable(r)
    ensures Insert(t, r.pattern, r.value, r.names).outcome.Ok? <==> forall q :: !Blocks(t, r.pattern, q)
  {
    hide Get, Tidy, Blocks;
    var p := r.pattern;
    if t.value.None? && t.children == [] {
      FirstShape(t, p, r.value, r.names);
      forall q ensures !Blocks(t, p, q) {
        BareBlocksNothing(t, p, q);
      }
    } else {
      RootWalks(t, p);
      OpenInsert(t, 0, None, p, r.value, r.names);
      OpenIff(t, 0, p);
    }
  }

  lemma {:induction false} BareBlocksNothing<T>(t: Node<T>, p: Tokens, q: Tokens)
    requires TreeShape(t) && t.value.None? && t.children == []
    ensures !Blocks(t, p, q)
  {
    EmptiedTree(t);
    if Spelled(t, q) {
      SpelledBelow(t, q);
      assert AllLit(q);
    }
  }

  lemma {:induction false} NotEmptied<T>(t: Node<T>)
    requires OnlyGrown(t)
    ensures t.value.None? && t.children == [] ==> t == Empty()
  {
  }

  lemma {:induction false} EmptyAccepts<T>(t: Node<T>, p: Tokens, v: T, names: seq<Name>)
    requires t == Empty() && Valid(p) && |names| == ParamCount(p)
    ensures Insert(t, p, v, names).outcome.Ok?
  {
    FirstShape(t, p, v, names);
  }

  lemma {:induction false} RootWalks<T>(t: Node<T>, p: Tokens)
    requires TreeShape(t) && t != Empty() && Tidy(t, true) && Valid(p) && WholeSegment(p)
    ensures Walks(t, 0, p)
  {
  }

  /** One registration: refused exactly when an earlier route excludes it. */
  lemma {:induction false} RegisterGrows<T>(t: Node<T>, m: map<Tokens, Route<T>>, r: Registration<T>)
    requires Grown(t, m) && Registrable(r)
    ensures Grown(Insert(t, r.pattern, r.value, r.names).node,
                  if Excluded(m, r.pattern) then m else m[r.pattern := Route(r.value, r.names)])
  {
    hide Get, Live, Tidy, Excluded, Insert;
    var p := r.pattern;
    AcceptedIffFree(t, m, r);
    InsertTree(t, p, r.value, r.names);
    InsertTidy(t, p, r.value, r.names, true);
    InsertLive(t, p, r.value, r.names);
    StepDenotes(t, m, Add(p, r.value, r.names));
  }

  ghost function Build<T>(regs: seq<Registration<T>>): (t: Node<T>)
    requires AllRegistrable(regs)
    ensures Grown(t, TableOf(regs))
  {
    if regs == [] then
      assert Denotes(Empty<T>(), map[]);
      Empty()
    else
      var init, r := regs[..|regs| - 1], regs[|regs| - 1];
      RegisterGrows(Build(init), TableOf(init), r);
      Insert(Build(init), r.pattern, r.value, r.names).node
  }

  /** The lookup over registered patterns is the best match over their table. */
  lemma {:induction false} RegisteredLookup<T>(regs: seq<Registration<T>>, path: bytes)
    requires AllRegistrable(regs)
    ensures var hit := Search(Build(regs), path);
            && (hit.Some? <==> exists q, values :: q in TableOf(regs) && Fits(q, path, values))
            && (hit.Some? ==> Best(TableOf(regs), path, hit.value))
  {
    hide Get, TableOf, Search, Best;
    var t := Build(regs);
    TidyIsSuffixFree(t, true);
    LookupIsBest(t, TableOf(regs), path);
  }

  // ----- Replacing a value -----

  /**
   Taking a whole-segment pattern out and putting it back always succeeds: the route holds the
   new value and every other route is as before.
   */
  lemma {:induction false} Reinsert<T>(t: Node<T>, p: Tokens, v: T, names: seq<Name>)
    requires TreeShape(t) && Tidy(t, true) && Valid(p) && WholeSegment(p) && |names| == ParamCount(p)
    requires Get(t, p).Some? && Get(t, p).value.names == names
    ensures TreeShape(Remove(t, p, names).node)
    ensures var r := Insert(Remove(t, p, names).node, p, v, names);
            && r.outcome.Ok? && TreeShape(r.node) && Tidy(r.node, true)
            && forall q :: Get(r.node, q) == if q == p then Some(Route(v, names)) else Get(t, q)
  {
    hide Get, Tidy;
    RemoveTree(t, p, names);
    RemoveTidy(t, p, names, true);
    var bare := Remove(t, p, names).node;
    NeverStale(t, p, names);
    InsertTree(bare, p, v, names);
    BareAccepts(t, p, v, names);
    InsertTidy(bare, p, v, names, true);
    var r := Insert(bare, p, v, names);
    forall q ensures Get(r.node, q) == if q == p then Some(Route(v, names)) else Get(t, q) {
      assert q != p ==> Get(bare, q) == Get(t, q);
    }
  }

  /** A pattern of the tree starts with the text of the root. */
  lemma {:induction false} NeverStale<T>(t: Node<T>, p: Tokens, names: seq<Name>)
    requires TreeShape(t) && Get(t, p).Some?
    ensures !Stale(Remove(t, p, names).node, p)
  {
    assert t.prefix <= p;
    assert AllLit(t.prefix);
  }

  lemma {:induction false} BareAccepts<T>(t: Node<T>, p: Tokens, v: T, names: seq<Name>)
    requires TreeShape(t) && Tidy(t, true) && Valid(p) && WholeSegment(p) && |names| == ParamCount(p)
    requires Get(t, p).Some? && Get(t, p).value.names == names
    requires TreeShape(Remove(t, p, names).node) && Tidy(Remove(t, p, names).node, true)
    ensures Insert(Remove(t, p, names).node, p, v, names).outcome.Ok?
  {
    hide Get, Tidy;
    var bare := Remove(t, p, names).node;
    if bare.value.None? && bare.children == [] {
      FirstShape(bare, p, v, names);
    } else {
      NothingInEmpty<T>(p);
      BareOpen(t, p, names);
      RootWalks(bare, p);
      OpenInsert(bare, 0, None, p, v, names);
    }
  }

  lemma {:induction false} BareOpen<T>(t: Node<T>, p: Tokens, names: seq<Name>)
    requires TreeShape(t) && Get(t, p).Some? && Get(t, p).value.names == names
    ensures Open(Remove(t, p, names).node, p)
  {
    hide Get;
    if p != t.prefix {
      NothingInEmpty<T>(p);
      RemovedIsOpen(t, 0, p, names);
    }
  }
}
