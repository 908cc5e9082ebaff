/** The routes of one virtual host: a tree of slots, one slot per pattern. */
module HostRoutes {
  import opened Prelude
  import opened Pattern
  import opened RouteTree
  import opened TreeInsert
  import opened InsertProof
  import opened TreeOutcome
  import opened TreeRemove
  import opened TreeSearch
  import opened BestMatch
  import opened SegmentTree
  import opened Acceptance
  import opened Params
  import opened PathSearch
  import opened MethodSets
  import opened RouteSlots
  import Runs = RouteRuns

  datatype EntryOutcome = Entered | MethodConflict | Refused(error: InsertError)

  datatype Change<T> = Change(tree: Node<Slot<T>>, outcome: EntryOutcome)

  function OfInsert<T>(r: Inserted<Slot<T>>, otherwise: EntryOutcome): Change<T> {
    Change(r.node, match r.outcome case Ok => otherwise case Err(e) => Refused(e))
  }

  /** Takes the slot of the pattern out, pushes the entry and puts the slot back; a new pattern gets a new slot. */
  function Joined<T>(t: Node<Slot<T>>, p: Tokens, names: seq<Name>, e: Entry<T>): Change<T>
    requires TreeShape(t) && |names| == ParamCount(p)
  {
    RemoveTree(t, p, names);
    var gone := Remove(t, p, names);
    match gone.value
    case None => OfInsert(Insert(gone.node, p, Slot(e, []), names), Entered)
    case Some(slot) =>
      match Pushed(slot, e)
      case None => OfInsert(Insert(gone.node, p, slot, names), MethodConflict)
      case Some(slot') => OfInsert(Insert(gone.node, p, slot', names), Entered)
  }

  datatype Response<T> = NotFound | MethodNotAllowed | Served(value: T, params: seq<Binding>)

  /** What a request gets: the slot of the path first, the entry of the method next. */
  function Respond<T>(reply: Option<Reply<Slot<T>>>, r: Request): Response<T> {
    match reply
    case None => NotFound
    case Some(found) =>
      match Find(Entries(found.value), r)
      case None => MethodNotAllowed
      case Some(e) => Served(e.value, found.params)
  }

  class VirtualHost<T> {
    var tree: Node<Slot<T>>

    constructor ()
      ensures tree == Empty()
    {
      tree := Empty();
    }

    method InsertEntry(p: Tokens, names: seq<Name>, e: Entry<T>) returns (outcome: EntryOutcome)
      requires TreeShape(tree) && |names| == ParamCount(p)
      modifies this
      ensures Change(tree, outcome) == Joined(old(tree), p, names, e)
    {
      hide Insert, Remove, Pushed;
      ghost var was := tree;
      var gone := Remove(tree, p, names);
      RemoveTree(tree, p, names);
      tree := gone.node;
      if gone.value.None? {
        var r := Insert(tree, p, Slot(e, []), names);
        tree := r.node;
        return match r.outcome case Ok => Entered case Err(error) => Refused(error);
      }
      var slot := new RouteSlot(gone.value.value.first);
      slot.rest := gone.value.value.rest;
      var refused := slot.Push(e);
      var r := Insert(tree, p, Slot(slot.first, slot.rest), names);
      tree := r.node;
      if r.outcome.Err? {
        return Refused(r.outcome.error);
      }
      return if refused.Some? then MethodConflict else Entered;
    }

    /** A route written with a closing star also stands in at the path before it; that second entry may be refused. */
    method AddPattern(p: Tokens, names: seq<Name>, star: bool, e: Entry<T>) returns (outcome: EntryOutcome)
      requires TreeShape(tree) && |names| == ParamCount(p) && !e.implicit
      modifies this
      ensures var first := Joined(old(tree), p, names, e);
              && outcome == first.outcome
              && if outcome == Entered && star && BaseOf(p).Some?
                 then
                   && TreeShape(first.tree)
                   && tree == Joined(first.tree, BaseOf(p).value, names, e.(implicit := true)).tree
                 else tree == first.tree
    {
      hide Joined;
      JoinedShape(tree, p, names, e);
      outcome := InsertEntry(p, names, e);
      if outcome == Entered && star && BaseOf(p).Some? {
        var _ := InsertEntry(BaseOf(p).value, names, e.(implicit := true));
      }
    }

    method MatchRoute(r: Request, path: bytes) returns (response: Response<T>)
      requires TreeShape(tree)
      ensures response == Respond(Answer(Search(tree, path), []), r)
    {
      var reply := At(tree, path);
      if reply.None? {
        return NotFound;
      }
      var slot := new RouteSlot(reply.value.value.first);
      slot.rest := reply.value.value.rest;
      var e := slot.FindEntry(r);
      return match e case None => MethodNotAllowed case Some(entry) => Served(entry.value, reply.value.params);
    }
  }

  /** An entry that is taken in, or only refused for its method, leaves a tree of the right shape. */
  lemma {:induction false} JoinedShape<T>(t: Node<Slot<T>>, p: Tokens, names: seq<Name>, e: Entry<T>)
    requires TreeShape(t) && |names| == ParamCount(p)
    ensures Joined(t, p, names, e).outcome in {Entered, MethodConflict, Refused(Conflict)} ==>
            TreeShape(Joined(t, p, names, e).tree)
  {
    hide Insert, Remove, Pushed, TreeShape;
    RemoveTree(t, p, names);
    var gone := Remove(t, p, names);
    if gone.value.None? {
      InsertTree(gone.node, p, Slot(e, []), names);
    } else {
      InsertTree(gone.node, p, gone.value.value, names);
      if Pushed(gone.value.value, e).Some? {
        InsertTree(gone.node, p, Pushed(gone.value.value, e).value, names);
      }
    }
  }

  /** What is left of a pattern that closes with a '/' and a catch-all; the root path for the bare catch-all. */
  function BaseOf(p: Tokens): (base: Option<Tokens>)
    ensures base.Some? ==> ParamCount(base.value) == ParamCount(p)
  {
    CatchFree(p);
    if |p| >= 2 && p[|p| - 1].Catch? && p[|p| - 2] == SLASH_TOKEN then Some(if |p| == 2 then p[..1] else p[..|p| - 2])
    else None
  }

  lemma {:induction false} CatchFree(p: Tokens)
    ensures |p| >= 1 && p[|p| - 1].Catch? ==> ParamCount(p[..|p| - 1]) == ParamCount(p)
    ensures |p| >= 2 && p[|p| - 1].Catch? && p[|p| - 2].Lit? ==> ParamCount(p[..|p| - 2]) == ParamCount(p)
  {
    if |p| >= 1 && p[|p| - 1].Catch? {
      var front := p[..|p| - 1];
      assert p == front + [p[|p| - 1]];
      ParamCountConcat(front, [p[|p| - 1]]);
      if |p| >= 2 && p[|p| - 2].Lit? {
        assert front == p[..|p| - 2] + [p[|p| - 2]];
        ParamCountConcat(p[..|p| - 2], [p[|p| - 2]]);
      }
    }
  }

  /**
   The base of a starred pattern fits exactly the paths that the pattern fits once a slash and a rest
   follow; the base of the bare star is the root path.
   */
  lemma {:induction false} BaseFits(p: Tokens, path: bytes, values: seq<bytes>, rest: bytes)
    requires Valid(p) && BaseOf(p).Some? && rest != []
    ensures |p| > 2 ==>
              (Fits(BaseOf(p).value, path, values) <==> Fits(p, path + [SLASH] + rest, values + [rest]))
    ensures |p| == 2 ==> (Fits(BaseOf(p).value, path, values) <==> path == [SLASH] && values == [])
  {
    hide Fits, Valid;
    var base, c := BaseOf(p).value, p[|p| - 1];
    if |p| > 2 {
      assert p == base + [SLASH_TOKEN, c];
      forall i | 0 <= i < |base| ensures !base[i].Catch? {
        if p[i].Catch? { CatchIsLast(p, i); }
      }
      FitsWithRest(base, c, path, values, rest);
    } else {
      assert base == [SLASH_TOKEN];
      FitsSlash(path, values);
    }
  }

  lemma {:induction false} FitsWithRest(base: Tokens, c: Token, path: bytes, values: seq<bytes>, rest: bytes)
    requires c.Catch? && rest != [] && forall i | 0 <= i < |base| :: !base[i].Catch?
    ensures Fits(base, path, values) <==> Fits(base + [SLASH_TOKEN, c], path + [SLASH] + rest, values + [rest])
  {
    hide Fits;
    var full, all := path + [SLASH] + rest, values + [rest];
    if Fits(base, path, values) {
      FitsFurther(base, c, path, values, rest);
    }
    if Fits(base + [SLASH_TOKEN, c], full, all) {
      var front := FitsBefore(base, c, full, all);
      assert |front| == |path|;
      assert front == full[..|path|] == path;
      assert all[..|values|] == values;
    }
  }

  lemma {:induction false} FitsSlash(path: bytes, values: seq<bytes>)
    ensures Fits([SLASH_TOKEN], path, values) <==> path == [SLASH] && values == []
  {
    assert [SLASH_TOKEN][1..] == [];
  }

  lemma {:induction false} FitsFurther(base: Tokens, c: Token, path: bytes, values: seq<bytes>, rest: bytes)
    requires c.Catch? && rest != [] && Fits(base, path, values) && forall i | 0 <= i < |base| :: !base[i].Catch?
    ensures Fits(base + [SLASH_TOKEN, c], path + [SLASH] + rest, values + [rest])
    decreases |base|
  {
    var p, full, all := base + [SLASH_TOKEN, c], path + [SLASH] + rest, values + [rest];
    if base == [] {
      assert p[1..] == [c] && full[1..] == rest && all == [rest];
    } else {
      assert p[0] == base[0] && p[1..] == base[1..] + [SLASH_TOKEN, c];
      if base[0].Lit? {
        FitsFurther(base[1..], c, path[1..], values, rest);
        assert full[1..] == path[1..] + [SLASH] + rest;
      } else {
        var n := |values[0]|;
        FitsFurther(base[1..], c, path[n..], values[1..], rest);
        assert full[n..] == path[n..] + [SLASH] + rest && all[1..] == values[1..] + [rest] && all[0] == values[0];
        assert values[0] <= full;
      }
    }
  }

  lemma {:induction false} FitsBefore(base: Tokens, c: Token, full: bytes, all: seq<bytes>) returns (front: bytes)
    requires c.Catch? && Fits(base + [SLASH_TOKEN, c], full, all) && forall i | 0 <= i < |base| :: !base[i].Catch?
    ensures all != [] && full == front + [SLASH] + all[|all| - 1] && Fits(base, front, all[..|all| - 1])
    decreases |base|
  {
    var p := base + [SLASH_TOKEN, c];
    if base == [] {
      assert p[1..] == [c];
      front := [];
      assert full == [] + [SLASH] + full[1..];
    } else {
      assert p[0] == base[0] && p[1..] == base[1..] + [SLASH_TOKEN, c];
      if base[0].Lit? {
        var more := FitsBefore(base[1..], c, full[1..], all);
        front := [full[0]] + more;
        assert front[1..] == more;
      } else {
        var n := |all[0]|;
        var more := FitsBefore(base[1..], c, full[n..], all[1..]);
        front := all[0] + more;
        assert front[n..] == more && all[1..][..|all| - 2] == all[..|all| - 1][1..];
        assert full == all[0] + full[n..];
      }
    }
  }

  /** The path before the star fills whole segments if the pattern does. */
  lemma {:induction false} BaseIsPlain(p: Tokens, names: seq<Name>)
    requires Plain(p, names) && BaseOf(p).Some?
    ensures Plain(BaseOf(p).value, names)
  {
    var base := BaseOf(p).value;
    var rest := p[|base|..];
    assert p == base + rest;
    FrontIsValid(p, |base|);
    forall i | 0 <= i < |base| && base[i].Param? ensures i + 1 == |base| || base[i + 1] == SLASH_TOKEN {
      assert p[i].Param? && base[i] == p[i];
      if i + 1 < |base| { assert base[i + 1] == p[i + 1]; }
    }
    forall i | 0 < i < |base| && base[i].Param? ensures base[i - 1] == SLASH_TOKEN {
      assert p[i].Param? && base[i] == p[i] && base[i - 1] == p[i - 1];
    }
  }

  /** The front of a whole-segment pattern is valid as it stands. */
  lemma {:induction false} FrontIsValid(p: Tokens, k: nat)
    requires Valid(p) && NoSuffix(p) && k <= |p|
    ensures Valid(p[..k])
    decreases |p|
  {
    if k > 0 {
      var front := p[..k];
      match p[0]
      case Lit(_) =>
        assert NoSuffix(p[1..]) by {
          forall i | 0 <= i < |p[1..]| && p[1..][i].Param? ensures i + 1 == |p[1..]| || p[1..][i + 1] == SLASH_TOKEN {
            assert p[i + 1].Param?;
          }
        }
        FrontIsValid(p[1..], k - 1);
        assert front[1..] == p[1..][..k - 1];
      case Catch(_) =>
      case Param =>
        if k == 1 {
          assert front[1..] == [];
        } else {
          var rest := p[1..];
          assert p[0].Param?;
          assert rest[0] == p[1] == SLASH_TOKEN;
          assert SlashAt(rest) == 0 && Terminator(rest) == 1;
          assert NoSuffix(rest[1..]) by {
            forall i | 0 <= i < |rest[1..]| && rest[1..][i].Param?
              ensures i + 1 == |rest[1..]| || rest[1..][i + 1] == SLASH_TOKEN
            {
              assert p[i + 2].Param?;
            }
          }
          FrontIsValid(rest[1..], k - 2);
          assert front[1..][0] == SLASH_TOKEN;
          assert Terminator(front[1..]) == 1;
          assert front[1..][1..] == rest[1..][..k - 2];
        }
    }
  }

  // ----- One entry -----

  type SlotTable<T> = map<Tokens, Route<Slot<T>>>

  /** A whole-segment tree that stands for `m` and keeps no text of routes long gone. */
  ghost predicate Hosts<T>(t: Node<Slot<T>>, m: SlotTable<T>) {
    && TreeShape(t) && Tidy(t, true) && Runs.Denotes(t, m)
    && (m == map[] ==> t == Empty())
  }

  lemma {:induction false} HostsShape<T>(t: Node<Slot<T>>, m: SlotTable<T>)
    requires Hosts(t, m)
    ensures TreeShape(t) && Tidy(t, true)
  {
  }

  /** A pattern that fills whole segments, with one name per parameter. */
  ghost predicate Plain(p: Tokens, names: seq<Name>) {
    Valid(p) && WholeSegment(p) && |names| == ParamCount(p)
  }

  /** The table after an entry: `accepted` is the answer for a pattern that is not there with these names. */
  ghost function TableAfter<T>(
    m: SlotTable<T>, p: Tokens, names: seq<Name>, e: Entry<T>, accepted: bool): SlotTable<T> {
    if p in m && m[p].names == names then
      match Pushed(m[p].value, e)
      case None => m
      case Some(slot) => m[p := Route(slot, names)]
    else if accepted then m[p := Route(Slot(e, []), names)]
    else m
  }

  /**
   An entry for a known pattern always finds its place again: it joins its slot, or is a method
   conflict that changes no route. Another pattern gets a slot of its own or is refused.
   */
  lemma {:induction false} JoinStep<T>(t: Node<Slot<T>>, m: SlotTable<T>, p: Tokens, names: seq<Name>, e: Entry<T>)
    requires Hosts(t, m) && Plain(p, names)
    ensures var r := Joined(t, p, names, e);
            && Hosts(r.tree, TableAfter(m, p, names, e, r.outcome == Entered))
            && (p in m && m[p].names == names ==>
                  r.outcome == if Pushed(m[p].value, e).Some? then Entered else MethodConflict)
            && (p in m && m[p].names != names ==> r.outcome == Refused(Conflict))
            && (p !in m ==> r.outcome in {Entered, Refused(Conflict)})
  {
    assert Get(t, p) == Runs.Lookup(m, p);
    if p in m && m[p].names == names {
      JoinKnown(t, m, p, names, e);
    } else {
      JoinNew(t, m, p, names, e);
    }
  }

  lemma {:induction false} JoinKnown<T>(t: Node<Slot<T>>, m: SlotTable<T>, p: Tokens, names: seq<Name>, e: Entry<T>)
    requires Hosts(t, m) && Plain(p, names) && p in m && m[p].names == names
    ensures var r := Joined(t, p, names, e);
            && Hosts(r.tree, TableAfter(m, p, names, e, r.outcome == Entered))
            && r.outcome == if Pushed(m[p].value, e).Some? then Entered else MethodConflict
  {
    hide Get, Insert, Remove, Pushed, Tidy;
    var slot := m[p].value;
    assert Get(t, p) == Runs.Lookup(m, p);
    RemoveTree(t, p, names);
    var v := if Pushed(slot, e).Some? then Pushed(slot, e).value else slot;
    Runs.Reinsert(t, p, v, names);
    var r := Insert(Remove(t, p, names).node, p, v, names);
    forall q ensures Get(r.node, q) == Runs.Lookup(m[p := Route(v, names)], q) {
      assert Get(t, q) == Runs.Lookup(m, q);
    }
    assert Pushed(slot, e).None? ==> m[p := Route(v, names)] == m;
  }

  lemma {:induction false} JoinNew<T>(t: Node<Slot<T>>, m: SlotTable<T>, p: Tokens, names: seq<Name>, e: Entry<T>)
    requires Hosts(t, m) && Plain(p, names) && !(p in m && m[p].names == names)
    ensures var r := Joined(t, p, names, e);
            && Hosts(r.tree, TableAfter(m, p, names, e, r.outcome == Entered))
            && (p in m ==> r.outcome == Refused(Conflict))
            && r.outcome in {Entered, Refused(Conflict)}
  {
    hide Get, Insert, Remove, Pushed, Tidy;
    assert Get(t, p) == Runs.Lookup(m, p);
    RemoveTree(t, p, names);
    RemoveTidy(t, p, names, true);
    var bare := Remove(t, p, names);
    assert bare.value.None?;
    assert Runs.Denotes(bare.node, m) by {
      forall q ensures Get(bare.node, q) == Runs.Lookup(m, q) {
        assert Get(t, q) == Runs.Lookup(m, q);
      }
    }
    if m == map[] { EmptyStays<Slot<T>>(p, names); }
    InsertNew(bare.node, m, p, names, Slot(e, []));
  }

  lemma {:induction false} EmptyStays<T>(p: Tokens, names: seq<Name>)
    ensures Remove(Empty<T>(), p, names).node == Empty()
  {
  }

  lemma {:induction false} InsertNew<T>(t: Node<Slot<T>>, m: SlotTable<T>, p: Tokens, names: seq<Name>, v: Slot<T>)
    requires Hosts(t, m) && Plain(p, names)
    ensures var r := Insert(t, p, v, names);
            && r.outcome in {Ok, Err(Conflict)}
            && Hosts(r.node, if r.outcome.Ok? then m[p := Route(v, names)] else m)
            && (p in m ==> r.outcome == Err(Conflict))
  {
    hide Get, Tidy, Insert, Stale;
    var r := Insert(t, p, v, names);
    NeverStale(t, m, p);
    InsertTree(t, p, v, names);
    InsertTidy(t, p, v, names, true);
    Runs.StepDenotes(t, m, Runs.Add(p, v, names));
    if m == map[] {
      Runs.EmptyAccepts(t, p, v, names);
    }
    if p in m {
      TakenIsRefused(t, m, p, names, v);
    }
  }

  lemma {:induction false} NeverStale<T>(t: Node<Slot<T>>, m: SlotTable<T>, p: Tokens)
    requires Hosts(t, m)
    ensures !Stale(t, p)
    ensures m != map[] ==> !(t.value.None? && t.children == [])
  {
    hide Get, Tidy;
    if m != map[] {
      var q :| q in m;
      assert Get(t, q) == Runs.Lookup(m, q);
      if t.value.None? && t.children == [] {
        EmptiedTree(t);
      }
    }
  }

  lemma {:induction false} TakenIsRefused<T>(t: Node<Slot<T>>, m: SlotTable<T>, p: Tokens, names: seq<Name>, v: Slot<T>)
    requires Hosts(t, m) && Plain(p, names) && p in m
    ensures !Insert(t, p, v, names).outcome.Ok?
  {
    hide Get, Tidy;
    assert Get(t, p) == Runs.Lookup(m, p);
    NeverStale(t, m, p);
    Runs.NothingInEmpty<Slot<T>>(p);
    Runs.RootWalks(t, p);
    OpenInsert(t, 0, None, p, v, names);
    if Open(t, p) {
      OpenNoClash(t, 0, p, p);
    }
  }

  // ----- Every run of entries -----

  datatype Attempt<T> = Attempt(pattern: Tokens, names: seq<Name>, entry: Entry<T>)

  ghost predicate Proper<T>(a: Attempt<T>) {
    Plain(a.pattern, a.names) && !a.entry.methods.IsEmpty()
  }

  /** A host, the table it stands for and the attempts it accepted. */
  datatype State<T> = State(tree: Node<Slot<T>>, table: SlotTable<T>, accepted: seq<Attempt<T>>)

  ghost function Attempted<T>(s: State<T>, a: Attempt<T>): (s': State<T>)
    requires Hosts(s.tree, s.table) && Proper(a)
    ensures Hosts(s'.tree, s'.table)
  {
    JoinStep(s.tree, s.table, a.pattern, a.names, a.entry);
    var r := Joined(s.tree, a.pattern, a.names, a.entry);
    State(r.tree, TableAfter(s.table, a.pattern, a.names, a.entry, r.outcome == Entered),
          if r.outcome == Entered then s.accepted + [a] else s.accepted)
  }

  ghost function After<T>(attempts: seq<Attempt<T>>): (s: State<T>)
    requires forall i | 0 <= i < |attempts| :: Proper(attempts[i])
    ensures Hosts(s.tree, s.table)
  {
    if attempts == [] then
      assert Hosts<T>(Empty(), map[]);
      State(Empty(), map[], [])
    else Attempted(After(attempts[..|attempts| - 1]), attempts[|attempts| - 1])
  }

  /** The entries accepted for one pattern, in order. */
  ghost function EntriesFor<T>(accepted: seq<Attempt<T>>, p: Tokens): seq<Entry<T>> {
    if accepted == [] then []
    else
      var before, a := EntriesFor(accepted[..|accepted| - 1], p), accepted[|accepted| - 1];
      if a.pattern == p then before + [a.entry] else before
  }

  /** A slot that serves the rightful owners of its methods and keeps every explicit push. */
  ghost predicate Keeps<T>(s: Slot<T>, pushes: seq<Entry<T>>) {
    Settled(Entries(s)) && RouteSlots.Served(Entries(s), pushes) && SameExplicit(Entries(s), pushes)
  }

  /** Every slot keeps the entries accepted for its pattern, all under the names of the pattern. */
  ghost predicate Owned<T>(m: SlotTable<T>, accepted: seq<Attempt<T>>) {
    && (forall p :: p in m <==> EntriesFor(accepted, p) != [])
    && (forall p | p in m :: Keeps(m[p].value, EntriesFor(accepted, p)))
    && (forall a | a in accepted :: a.pattern in m && m[a.pattern].names == a.names)
  }

  lemma {:induction false} SlotPush<T>(slot: Slot<T>, e: Entry<T>, pushes: seq<Entry<T>>)
    requires Keeps(slot, pushes) && !e.methods.IsEmpty() && Pushed(slot, e).Some?
    ensures Keeps(Pushed(slot, e).value, pushes + [e])
  {
    hide SameExplicit, RouteSlots.Served;
    PushKeepsExplicit(slot, e, pushes);
    if e.implicit {
      PushImplicit(slot, e, pushes);
    } else {
      PushExplicit(slot, e, pushes);
    }
  }

  lemma {:induction false} SlotNew<T>(e: Entry<T>)
    requires !e.methods.IsEmpty()
    ensures Keeps(Slot(e, []), [e])
  {
    SlotSettles(e, []);
    AttemptsKeepExplicit(e, []);
  }

  lemma {:induction false} AppendEntry<T>(accepted: seq<Attempt<T>>, a: Attempt<T>, p: Tokens)
    ensures EntriesFor(accepted + [a], p) ==
            if a.pattern == p then EntriesFor(accepted, p) + [a.entry] else EntriesFor(accepted, p)
  {
    assert (accepted + [a])[..|accepted|] == accepted;
  }

  lemma {:induction false} OwnedStep<T>(m: SlotTable<T>, accepted: seq<Attempt<T>>, a: Attempt<T>, s: Slot<T>)
    requires Owned(m, accepted) && (a.pattern in m ==> m[a.pattern].names == a.names)
    requires Keeps(s, EntriesFor(accepted, a.pattern) + [a.entry])
    ensures Owned(m[a.pattern := Route(s, a.names)], accepted + [a])
  {
    hide EntriesFor, Keeps;
    forall p
      ensures EntriesFor(accepted + [a], p) ==
              if a.pattern == p then EntriesFor(accepted, p) + [a.entry] else EntriesFor(accepted, p)
    {
      AppendEntry(accepted, a, p);
    }
  }

  lemma {:induction false} AfterIsOwned<T>(attempts: seq<Attempt<T>>)
    requires forall i | 0 <= i < |attempts| :: Proper(attempts[i])
    ensures Owned(After(attempts).table, After(attempts).accepted)
  {
    hide Pushed, Keeps, Hosts, Joined;
    if attempts != [] {
      var init, a := attempts[..|attempts| - 1], attempts[|attempts| - 1];
      AfterIsOwned(init);
      var before := After(init);
      var m, p := before.table, a.pattern;
      HostsShape(before.tree, m);
      JoinStep(before.tree, m, p, a.names, a.entry);
      if Joined(before.tree, p, a.names, a.entry).outcome == Entered {
        if p in m {
          SlotPush(m[p].value, a.entry, EntriesFor(before.accepted, p));
          OwnedStep(m, before.accepted, a, Pushed(m[p].value, a.entry).value);
        } else {
          SlotNew(a.entry);
          assert EntriesFor(before.accepted, p) + [a.entry] == [a.entry];
          OwnedStep(m, before.accepted, a, Slot(a.entry, []));
        }
      }
    }
  }

  /**
   `q` is the pattern that answers `path`: it fits, and every other pattern with a route that fits is
   less preferred.
   */
  ghost predicate Answers<T>(accepted: seq<Attempt<T>>, path: bytes, q: Tokens) {
    && EntriesFor(accepted, q) != []
    && (exists values :: Fits(q, path, values))
    && forall p, values | EntriesFor(accepted, p) != [] && Fits(p, path, values) :: p == q || Prefers(q, p)
  }

  /** The owner of `m` among the entries of `q` decides the response. */
  ghost predicate Rules<T>(accepted: seq<Attempt<T>>, q: Tokens, m: Method, response: Response<T>) {
    match Rightful(EntriesFor(accepted, q), m)
    case Nobody => response == MethodNotAllowed
    case By(v, _) => response.Served? && response.value == v
  }

  /**
   After any attempts, a request is answered from the preferred pattern that fits its path, by the
   rightful owner of its method there; it is not found exactly when no accepted pattern fits.
   */
  lemma {:induction false} RequestReachesOwner<T>(attempts: seq<Attempt<T>>, path: bytes, m: Method)
    requires forall i | 0 <= i < |attempts| :: Proper(attempts[i])
    ensures var s := After(attempts);
            var response := Respond(Answer(Search(s.tree, path), []), Standard(m));
            && (response == NotFound <==> forall p, values | EntriesFor(s.accepted, p) != [] :: !Fits(p, path, values))
            && (response != NotFound ==> exists q :: Answers(s.accepted, path, q) && Rules(s.accepted, q, m, response))
  {
    hide Get, Hosts, EntriesFor, Search, Settled, Entries, Rightful, Tidy, TreeShape, Runs.Denotes;
    var s := After(attempts);
    AfterIsOwned(attempts);
    HostsShape(s.tree, s.table);
    assert Runs.Denotes(s.tree, s.table) by { HostsDenotes(s.tree, s.table); }
    TidyIsSuffixFree(s.tree, true);
    Runs.LookupIsBest(s.tree, s.table, path);
    var hit := Search(s.tree, path);
    if hit.Some? {
      var h := hit.value;
      FindIsOwner(Entries(h.value), m);
      assert Answers(s.accepted, path, h.pattern);
    }
  }

  lemma {:induction false} HostsDenotes<T>(t: Node<Slot<T>>, m: SlotTable<T>)
    requires Hosts(t, m)
    ensures Runs.Denotes(t, m)
  {
  }

  // ----- Conflicts of methods -----

  lemma {:induction false} ListsEntries<T>(accepted: seq<Attempt<T>>, p: Tokens, x: Entry<T>)
    ensures x in EntriesFor(accepted, p) <==> exists a | a in accepted :: a.pattern == p && a.entry == x
  {
    if accepted != [] {
      var init, last := accepted[..|accepted| - 1], accepted[|accepted| - 1];
      assert accepted == init + [last];
      ListsEntries(init, p, x);
    }
  }

  /** An explicit attempt at the same pattern that accepts a request the entry of `a` accepts. */
  ghost predicate Rivals<T>(x: Attempt<T>, a: Attempt<T>) {
    x.pattern == a.pattern && x.names == a.names && !x.entry.implicit && Share(x.entry.methods, a.entry.methods)
  }

  /**
   After any attempts, a further one is a method conflict if and only if it is explicit and an explicit
   one that was accepted for its pattern accepts a request that it accepts.
   */
  lemma {:induction false} ConflictIff<T>(attempts: seq<Attempt<T>>, a: Attempt<T>)
    requires Proper(a) && forall i | 0 <= i < |attempts| :: Proper(attempts[i])
    ensures var s := After(attempts);
            Joined(s.tree, a.pattern, a.names, a.entry).outcome == MethodConflict <==>
            !a.entry.implicit && exists x | x in s.accepted :: Rivals(x, a)
  {
    hide Pushed, Hosts, Joined, EntriesFor, RouteSlots.Served, Settled, Share, After, Entries, SameExplicit;
    var s := After(attempts);
    AfterIsOwned(attempts);
    HostsShape(s.tree, s.table);
    JoinStep(s.tree, s.table, a.pattern, a.names, a.entry);
    if a.pattern in s.table && s.table[a.pattern].names == a.names {
      assert Keeps(s.table[a.pattern].value, EntriesFor(s.accepted, a.pattern));
      RefusedByAccepted(s.table[a.pattern].value, s.accepted, a.pattern, a.entry);
    }
  }

  lemma {:induction false} RefusedByAccepted<T>(slot: Slot<T>, accepted: seq<Attempt<T>>, p: Tokens, e: Entry<T>)
    requires SameExplicit(Entries(slot), EntriesFor(accepted, p))
    ensures Pushed(slot, e).None? <==>
            && !e.implicit
            && exists x | x in accepted ::
                 x.pattern == p && !x.entry.implicit && Share(x.entry.methods, e.methods)
  {
    hide Pushed, Share, Entries;
    RefusedIff(slot, e);
    if y :| y in Entries(slot) && !y.implicit && Share(y.methods, e.methods) {
      ListsEntries(accepted, p, y);
    }
    if x :| x in accepted && x.pattern == p && !x.entry.implicit && Share(x.entry.methods, e.methods) {
      ListsEntries(accepted, p, x.entry);
    }
  }
}
