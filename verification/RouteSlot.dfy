/** The routes of one path pattern, each with its own methods. */
module RouteSlots {
  import opened Prelude
  import opened MethodSets

  /**
   A routed value with the methods it accepts. An implicit entry stands in at `/x` for the catch-all
   route below it.
   */
  datatype Entry<T> = Entry(methods: MethodSet, value: T, implicit: bool)

  datatype Slot<T> = Slot(first: Entry<T>, rest: seq<Entry<T>>)

  function Entries<T>(s: Slot<T>): seq<Entry<T>> {
    [s.first] + s.rest
  }

  /** The first entry that accepts a request. */
  function Find<T>(entries: seq<Entry<T>>, r: Request): Option<Entry<T>> {
    if entries == [] then None
    else if entries[0].methods.Accepts(r) then Some(entries[0])
    else Find(entries[1..], r)
  }

  // ----- Pushing an entry -----

  /** What an implicit entry keeps: the methods no entry routes yet. */
  function Leftover<T>(m: MethodSet, entries: seq<Entry<T>>): MethodSet
    decreases |entries|
  {
    if entries == [] then m else Leftover(m.Without(entries[0].methods), entries[1..])
  }

  /** Takes methods away from an implicit entry. */
  function Yield<T>(e: Entry<T>, m: MethodSet): Entry<T> {
    if e.implicit then e.(methods := e.methods.Without(m)) else e
  }

  function YieldAll<T>(entries: seq<Entry<T>>, m: MethodSet): (r: seq<Entry<T>>)
    ensures |r| == |entries| && forall i | 0 <= i < |r| :: r[i] == Yield(entries[i], m)
  {
    seq(|entries|, i requires 0 <= i < |entries| => Yield(entries[i], m))
  }

  function NonEmpty<T>(entries: seq<Entry<T>>): seq<Entry<T>> {
    if entries == [] then []
    else (if entries[0].methods.IsEmpty() then [] else [entries[0]]) + NonEmpty(entries[1..])
  }

  /** An explicit entry already routes one of the methods. */
  predicate Taken<T>(entries: seq<Entry<T>>, e: Entry<T>) {
    exists i | 0 <= i < |entries| :: !entries[i].implicit && entries[i].methods.Intersects(e.methods)
  }

  /** The slot after a push, or nothing when the push is refused. */
  function Pushed<T>(s: Slot<T>, e: Entry<T>): Option<Slot<T>> {
    if e.implicit then
      var left := Leftover(e.methods, Entries(s));
      Some(if left.IsEmpty() then s else s.(rest := s.rest + [e.(methods := left)]))
    else if Taken(Entries(s), e) then None
    else
      var first := Yield(s.first, e.methods);
      var rest := NonEmpty(YieldAll(s.rest, e.methods));
      Some(if first.methods.IsEmpty() then Slot(e, rest) else Slot(first, rest + [e]))
  }

  method Shrink<T>(m: MethodSet, entries: seq<Entry<T>>) returns (methods: MethodSet)
    ensures methods == Leftover(m, entries)
  {
    methods := m;
    assert entries[0..] == entries;
    for i := 0 to |entries|
      invariant Leftover(m, entries) == Leftover(methods, entries[i..])
    {
      assert entries[i..][1..] == entries[i + 1..];
      methods := methods.Without(entries[i].methods);
    }
  }

  method AnyTaken<T>(entries: seq<Entry<T>>, e: Entry<T>) returns (taken: bool)
    ensures taken <==> Taken(entries, e)
  {
    for i := 0 to |entries|
      invariant forall j | 0 <= j < i :: entries[j].implicit || !entries[j].methods.Intersects(e.methods)
    {
      if !entries[i].implicit && entries[i].methods.Intersects(e.methods) {
        return true;
      }
    }
    return false;
  }

  method YieldRest<T>(entries: seq<Entry<T>>, m: MethodSet) returns (kept: seq<Entry<T>>)
    ensures kept == NonEmpty(YieldAll(entries, m))
  {
    ghost var all := YieldAll(entries, m);
    kept := [];
    assert all[0..] == all;
    for i := 0 to |entries|
      invariant kept + NonEmpty(all[i..]) == NonEmpty(all)
    {
      var e := Yield(entries[i], m);
      assert all[i..][0] == e && all[i..][1..] == all[i + 1..];
      if !e.methods.IsEmpty() {
        assert kept + ([e] + NonEmpty(all[i + 1..])) == kept + [e] + NonEmpty(all[i + 1..]);
        kept := kept + [e];
      } else {
        assert [] + NonEmpty(all[i + 1..]) == NonEmpty(all[i + 1..]);
      }
    }
    assert kept + [] == kept;
  }

  /** The slot as the source keeps it: the first entry inline, the others in a list. */
  class RouteSlot<T> {
    var first: Entry<T>
    var rest: seq<Entry<T>>

    function View(): Slot<T>
      reads this
    {
      Slot(first, rest)
    }

    constructor (e: Entry<T>)
      ensures View() == Slot(e, [])
    {
      first := e;
      rest := [];
    }

    method FindEntry(r: Request) returns (e: Option<Entry<T>>)
      ensures e == Find(Entries(View()), r)
    {
      assert Entries(View())[1..] == rest;
      if first.methods.Accepts(r) {
        return Some(first);
      }
      for i := 0 to |rest|
        invariant Find(Entries(View()), r) == Find(rest[i..], r)
      {
        assert rest[i..][1..] == rest[i + 1..];
        if rest[i].methods.Accepts(r) {
          return Some(rest[i]);
        }
      }
      return None;
    }

    /** Adds an entry; a refused entry comes back and nothing changes. */
    method Push(entry: Entry<T>) returns (refused: Option<Entry<T>>)
      modifies this
      ensures match Pushed(old(View()), entry)
              case Some(s) => refused == None && View() == s
              case None => refused == Some(entry) && View() == old(View())
    {
      if entry.implicit {
        var methods := Shrink(entry.methods, [first] + rest);
        if !methods.IsEmpty() {
          rest := rest + [entry.(methods := methods)];
        }
        return None;
      }

      var taken := AnyTaken([first] + rest, entry);
      if taken {
        return Some(entry);
      }

      first := Yield(first, entry.methods);
      rest := YieldRest(rest, entry.methods);
      if first.methods.IsEmpty() {
        first := entry;
      } else {
        rest := rest + [entry];
      }
      return None;
    }
  }

  // ----- Who owns a method -----

  predicate Lists<T>(e: Entry<T>, m: Method) {
    m in e.methods.standard
  }

  /** No entry is empty and no standard method is listed twice. */
  ghost predicate Settled<T>(entries: seq<Entry<T>>) {
    && (forall i | 0 <= i < |entries| :: !entries[i].methods.IsEmpty())
    && (forall i, j | 0 <= i < j < |entries| :: entries[i].methods.standard !! entries[j].methods.standard)
  }

  /** The value that serves `m`, and whether it does so implicitly. */
  datatype Owner<T> = Nobody | By(value: T, implicit: bool)

  function OwnerIn<T>(entries: seq<Entry<T>>, m: Method): Owner<T> {
    if entries == [] then Nobody
    else if Lists(entries[0], m) then By(entries[0].value, entries[0].implicit)
    else OwnerIn(entries[1..], m)
  }

  /** `Find` answers with the owner. */
  lemma {:induction false} FindIsOwner<T>(entries: seq<Entry<T>>, m: Method)
    ensures match Find(entries, Standard(m))
            case None => OwnerIn(entries, m) == Nobody
            case Some(e) => Lists(e, m) && OwnerIn(entries, m) == By(e.value, e.implicit)
  {
    if entries != [] {
      AllMethods(m);
      if !Lists(entries[0], m) {
        FindIsOwner(entries[1..], m);
      }
    }
  }

  /**
   Who should serve `m` after these pushes were accepted: the explicit entry that lists it, or
   else the earliest implicit entry that lists it.
   */
  ghost function Rightful<T>(pushes: seq<Entry<T>>, m: Method): Owner<T> {
    if pushes == [] then Nobody
    else
      var e, before := pushes[|pushes| - 1], Rightful(pushes[..|pushes| - 1], m);
      if Lists(e, m) && (before == Nobody || (before.implicit && !e.implicit)) then By(e.value, e.implicit) else before
  }

  lemma {:induction false} OwnerAt<T>(entries: seq<Entry<T>>, i: nat, m: Method)
    requires Settled(entries) && i < |entries| && Lists(entries[i], m)
    ensures OwnerIn(entries, m) == By(entries[i].value, entries[i].implicit)
  {
    if i > 0 {
      assert !Lists(entries[0], m);
      assert Settled(entries[1..]);
      OwnerAt(entries[1..], i - 1, m);
    }
  }

  lemma {:induction false} OwnerNone<T>(entries: seq<Entry<T>>, m: Method)
    ensures OwnerIn(entries, m) == Nobody <==> forall i | 0 <= i < |entries| :: !Lists(entries[i], m)
  {
    if entries != [] {
      OwnerNone(entries[1..], m);
      assert forall i | 0 < i < |entries| :: entries[i] == entries[1..][i - 1];
    }
  }

  lemma {:induction false} OwnerIndex<T>(entries: seq<Entry<T>>, m: Method) returns (i: nat)
    requires OwnerIn(entries, m) != Nobody
    ensures i < |entries| && Lists(entries[i], m) && OwnerIn(entries, m) == By(entries[i].value, entries[i].implicit)
  {
    if Lists(entries[0], m) {
      i := 0;
    } else {
      var j := OwnerIndex(entries[1..], m);
      i := j + 1;
    }
  }

  // ----- One push -----

  ghost predicate Apart<T>(entries: seq<Entry<T>>) {
    forall i, j | 0 <= i < j < |entries| :: entries[i].methods.standard !! entries[j].methods.standard
  }

  lemma {:induction false} LeftoverLists<T>(m: MethodSet, entries: seq<Entry<T>>, x: Method)
    ensures x in Leftover(m, entries).standard <==>
            x in m.standard && forall i | 0 <= i < |entries| :: !Lists(entries[i], x)
    decreases |entries|
  {
    if entries != [] {
      WithoutIsExact(m, entries[0].methods, x);
      LeftoverLists(m.Without(entries[0].methods), entries[1..], x);
      assert forall i | 0 < i < |entries| :: entries[i] == entries[1..][i - 1];
    }
  }

  lemma {:induction false} YieldLists<T>(e: Entry<T>, m: MethodSet, x: Method)
    ensures Lists(Yield(e, m), x) <==> Lists(e, x) && (e.implicit ==> x !in m.standard)
    ensures Yield(e, m).methods.standard <= e.methods.standard
  {
    WithoutIsExact(e.methods, m, x);
  }

  /** Dropping the empty entries keeps every entry that lists a method, and keeps the others apart. */
  lemma {:induction false} NonEmptyKeeps<T>(entries: seq<Entry<T>>)
    requires Apart(entries)
    ensures Apart(NonEmpty(entries)) && Settled(NonEmpty(entries))
    ensures forall i | 0 <= i < |NonEmpty(entries)| :: NonEmpty(entries)[i] in entries
    ensures forall i | 0 <= i < |entries| && !entries[i].methods.IsEmpty() :: entries[i] in NonEmpty(entries)
  {
    if entries != [] {
      var tail := NonEmpty(entries[1..]);
      assert Apart(entries[1..]);
      NonEmptyKeeps(entries[1..]);
      assert forall i | 0 < i < |entries| :: entries[i] == entries[1..][i - 1];
      forall j | 0 <= j < |tail| ensures entries[0].methods.standard !! tail[j].methods.standard {
        var k :| 0 <= k < |entries[1..]| && entries[1..][k] == tail[j];
        assert entries[k + 1] == tail[j];
      }
      if !entries[0].methods.IsEmpty() {
        var all := [entries[0]] + tail;
        forall i, j | 0 <= i < j < |all| ensures all[i].methods.standard !! all[j].methods.standard {
          if i > 0 { assert all[i] == tail[i - 1] && all[j] == tail[j - 1]; }
        }
      }
    }
  }

  ghost predicate Served<T>(entries: seq<Entry<T>>, pushes: seq<Entry<T>>) {
    forall m :: OwnerIn(entries, m) == Rightful(pushes, m)
  }

  lemma {:induction false} PushImplicit<T>(s: Slot<T>, e: Entry<T>, pushes: seq<Entry<T>>)
    requires Settled(Entries(s)) && Served(Entries(s), pushes) && e.implicit
    ensures Pushed(s, e).Some?
    ensures var s' := Pushed(s, e).value; Settled(Entries(s')) && Served(Entries(s'), pushes + [e])
  {
    var was := Entries(s);
    var left := Leftover(e.methods, was);
    var now := Entries(Pushed(s, e).value);
    forall x ensures x in left.standard <==> x in e.methods.standard && OwnerIn(was, x) == Nobody {
      LeftoverLists(e.methods, was, x);
      OwnerNone(was, x);
    }
    assert left.IsEmpty() ==> now == was;
    assert !left.IsEmpty() ==> now == was + [e.(methods := left)];
    forall i | 0 <= i < |was| ensures was[i].methods.standard !! left.standard {
      forall x | x in left.standard ensures !Lists(was[i], x) { OwnerNone(was, x); }
    }
    assert Settled(now);
    forall m ensures OwnerIn(now, m) == Rightful(pushes + [e], m) {
      assert (pushes + [e])[..|pushes|] == pushes;
      if !left.IsEmpty() {
        if OwnerIn(was, m) != Nobody {
          var i := OwnerIndex(was, m);
          OwnerAt(now, i, m);
        } else if m in left.standard {
          OwnerAt(now, |was|, m);
        } else {
          OwnerNone(was, m);
          OwnerNone(now, m);
        }
      }
    }
  }

  /** An accepted explicit entry shares no method with another explicit entry. */
  lemma {:induction false} NotTaken<T>(entries: seq<Entry<T>>, e: Entry<T>, i: nat, m: Method)
    requires !Taken(entries, e) && i < |entries| && Lists(entries[i], m) && Lists(e, m)
    ensures entries[i].implicit
  {
    assert m in entries[i].methods.standard * e.methods.standard;
  }

  /** The entries after an accepted explicit push: those that still list something, and the new one. */
  lemma {:induction false} ExplicitEntries<T>(s: Slot<T>, e: Entry<T>)
    requires Settled(Entries(s)) && !e.implicit && !e.methods.IsEmpty() && !Taken(Entries(s), e)
    ensures var now := Entries(Pushed(s, e).value);
            && Settled(now) && e in now
            && forall i | 0 <= i < |Entries(s)| ::
                 !Yield(Entries(s)[i], e.methods).methods.IsEmpty() ==> Yield(Entries(s)[i], e.methods) in now
  {
    var was := Entries(s);
    var all := YieldAll(was, e.methods);
    forall i | 0 <= i < |all| ensures all[i].methods.standard !! e.methods.standard {
      forall x | x in e.methods.standard ensures x !in all[i].methods.standard {
        YieldLists(was[i], e.methods, x);
        if Lists(was[i], x) { NotTaken(was, e, i, x); }
      }
    }
    forall i, j | 0 <= i < j < |all| ensures all[i].methods.standard !! all[j].methods.standard {
      forall x | x in all[i].methods.standard ensures x !in all[j].methods.standard {
        YieldLists(was[i], e.methods, x);
        YieldLists(was[j], e.methods, x);
        assert was[i].methods.standard !! was[j].methods.standard;
      }
    }
    ExplicitOrder(s, e, all);
  }

  /** The entries after the first that survive: apart from each other, from the first and from the new one. */
  lemma {:induction false} SurvivorsApart<T>(first: Entry<T>, tail: seq<Entry<T>>, e: Entry<T>)
    requires Apart([first] + tail)
    requires forall i | 0 <= i < |tail| :: tail[i].methods.standard !! e.methods.standard
    ensures var rest := NonEmpty(tail);
            && Settled(rest)
            && (forall j | 0 <= j < |rest| :: rest[j].methods.standard !! e.methods.standard)
            && (forall j | 0 <= j < |rest| :: first.methods.standard !! rest[j].methods.standard)
            && (forall i | 0 <= i < |tail| && !tail[i].methods.IsEmpty() :: tail[i] in rest)
  {
    var all := [first] + tail;
    forall i, j | 0 <= i < j < |tail| ensures tail[i].methods.standard !! tail[j].methods.standard {
      assert tail[i] == all[i + 1] && tail[j] == all[j + 1];
    }
    NonEmptyKeeps(tail);
    var rest := NonEmpty(tail);
    forall j | 0 <= j < |rest|
      ensures rest[j].methods.standard !! e.methods.standard && first.methods.standard !! rest[j].methods.standard
    {
      var k :| 0 <= k < |tail| && tail[k] == rest[j];
      assert all[0] == first && all[k + 1] == rest[j];
    }
  }

  lemma {:induction false} ExplicitOrder<T>(s: Slot<T>, e: Entry<T>, all: seq<Entry<T>>)
    requires !e.implicit && !e.methods.IsEmpty() && !Taken(Entries(s), e)
    requires all == YieldAll(Entries(s), e.methods) && Apart(all)
    requires forall i | 0 <= i < |all| :: all[i].methods.standard !! e.methods.standard
    ensures var now := Entries(Pushed(s, e).value);
            && Settled(now) && e in now
            && forall i | 0 <= i < |all| :: !all[i].methods.IsEmpty() ==> all[i] in now
  {
    hide NonEmpty, Taken, Settled, Apart;
    var first, tail := all[0], YieldAll(s.rest, e.methods);
    assert all == [first] + tail;
    assert forall i | 0 <= i < |tail| :: tail[i] == all[i + 1];
    SurvivorsApart(first, tail, e);
    var rest := NonEmpty(tail);
    var now := Entries(Pushed(s, e).value);
    if first.methods.IsEmpty() {
      assert now == [e] + rest;
      Fronted(e, rest);
    } else {
      assert now == [first] + rest + [e];
      Fronted(first, rest);
      Ended([first] + rest, e);
    }
    forall i | 0 <= i < |all| && !all[i].methods.IsEmpty() ensures all[i] in now {
      if i > 0 {
        assert all[i] == tail[i - 1];
        assert all[i] in rest;
      }
    }
  }

  lemma {:induction false} Fronted<T>(e: Entry<T>, rest: seq<Entry<T>>)
    requires Settled(rest) && !e.methods.IsEmpty()
    requires forall j | 0 <= j < |rest| :: e.methods.standard !! rest[j].methods.standard
    ensures Settled([e] + rest)
  {
    var all := [e] + rest;
    forall i, j | 0 <= i < j < |all| ensures all[i].methods.standard !! all[j].methods.standard {
      if i > 0 { assert all[i] == rest[i - 1] && all[j] == rest[j - 1]; }
    }
  }

  lemma {:induction false} Ended<T>(rest: seq<Entry<T>>, e: Entry<T>)
    requires Settled(rest) && !e.methods.IsEmpty()
    requires forall j | 0 <= j < |rest| :: rest[j].methods.standard !! e.methods.standard
    ensures Settled(rest + [e])
  {
  }

  lemma {:induction false} PushExplicit<T>(s: Slot<T>, e: Entry<T>, pushes: seq<Entry<T>>)
    requires Settled(Entries(s)) && Served(Entries(s), pushes) && !e.implicit && !e.methods.IsEmpty()
    requires Pushed(s, e).Some?
    ensures var s' := Pushed(s, e).value; Settled(Entries(s')) && Served(Entries(s'), pushes + [e])
  {
    var was, now := Entries(s), Entries(Pushed(s, e).value);
    ExplicitEntries(s, e);
    forall m ensures OwnerIn(now, m) == Rightful(pushes + [e], m) {
      assert (pushes + [e])[..|pushes|] == pushes;
      if Lists(e, m) {
        var j :| 0 <= j < |now| && now[j] == e;
        OwnerAt(now, j, m);
        if OwnerIn(was, m) != Nobody {
          var i := OwnerIndex(was, m);
          NotTaken(was, e, i, m);
        }
      } else if OwnerIn(was, m) != Nobody {
        var i := OwnerIndex(was, m);
        var y := Yield(was[i], e.methods);
        YieldLists(was[i], e.methods, m);
        assert y in now;
        var j :| 0 <= j < |now| && now[j] == y;
        OwnerAt(now, j, m);
      } else {
        OwnerNone(was, m);
        NobodyNew(s, e, m);
      }
    }
  }

  lemma {:induction false} NobodyNew<T>(s: Slot<T>, e: Entry<T>, m: Method)
    requires !e.implicit && Pushed(s, e).Some? && !Lists(e, m) &&
             forall i | 0 <= i < |Entries(s)| :: !Lists(Entries(s)[i], m)
    ensures OwnerIn(Entries(Pushed(s, e).value), m) == Nobody
  {
    var now := Entries(Pushed(s, e).value);
    assert Entries(s)[0] == s.first;
    YieldLists(s.first, e.methods, m);
    var tail := YieldAll(s.rest, e.methods);
    forall i | 0 <= i < |tail| ensures !Lists(tail[i], m) {
      assert Entries(s)[i + 1] == s.rest[i];
      YieldLists(s.rest[i], e.methods, m);
    }
    NonEmptySub(tail);
    forall i | 0 <= i < |now| ensures !Lists(now[i], m) {
      assert now[i] == e || now[i] == Yield(s.first, e.methods) || now[i] in NonEmpty(tail);
    }
    OwnerNone(now, m);
  }

  lemma {:induction false} NonEmptySub<T>(entries: seq<Entry<T>>)
    ensures forall e :: e in NonEmpty(entries) ==> e in entries
  {
    if entries != [] {
      NonEmptySub(entries[1..]);
    }
  }

  // ----- Every sequence of pushes -----

  /** The slot and the pushes accepted so far, after these attempts on a slot made for `e`. */
  ghost function Attempts<T>(e: Entry<T>, tries: seq<Entry<T>>): (Slot<T>, seq<Entry<T>>) {
    if tries == [] then (Slot(e, []), [e])
    else
      var (s, pushes) := Attempts(e, tries[..|tries| - 1]);
      var last := tries[|tries| - 1];
      match Pushed(s, last)
      case None => (s, pushes)
      case Some(s') => (s', pushes + [last])
  }

  /**
   After any attempts, no entry is empty, no standard method is listed twice, and `Find` gives
   the entry the method belongs to.
   */
  lemma {:induction false} SlotServesOwners<T>(e: Entry<T>, tries: seq<Entry<T>>)
    requires !e.methods.IsEmpty() && forall i | 0 <= i < |tries| :: !tries[i].methods.IsEmpty()
    ensures var (s, pushes) := Attempts(e, tries);
            && Settled(Entries(s))
            && forall m :: match Find(Entries(s), Standard(m))
                           case None => Rightful(pushes, m) == Nobody
                           case Some(f) => Lists(f, m) && Rightful(pushes, m) == By(f.value, f.implicit)
  {
    SlotSettles(e, tries);
    var (s, pushes) := Attempts(e, tries);
    forall m ensures match Find(Entries(s), Standard(m))
                     case None => Rightful(pushes, m) == Nobody
                     case Some(f) => Lists(f, m) && Rightful(pushes, m) == By(f.value, f.implicit)
    {
      FindIsOwner(Entries(s), m);
    }
  }

  lemma {:induction false} SlotSettles<T>(e: Entry<T>, tries: seq<Entry<T>>)
    requires !e.methods.IsEmpty() && forall i | 0 <= i < |tries| :: !tries[i].methods.IsEmpty()
    ensures Settled(Entries(Attempts(e, tries).0)) && Served(Entries(Attempts(e, tries).0), Attempts(e, tries).1)
  {
    hide Pushed;
    if tries == [] {
      assert [e][..0] == [];
      assert Entries(Slot(e, [])) == [e];
      forall m ensures OwnerIn([e], m) == Rightful([e], m) {
        assert [e][1..] == [];
      }
    } else {
      var init, last := tries[..|tries| - 1], tries[|tries| - 1];
      SlotSettles(e, init);
      var (s, pushes) := Attempts(e, init);
      if Pushed(s, last).Some? {
        if last.implicit {
          PushImplicit(s, last, pushes);
        } else {
          PushExplicit(s, last, pushes);
        }
      }
    }
  }

  // ----- Refused pushes -----

  /** Some request is accepted by both. */
  ghost predicate Share(a: MethodSet, b: MethodSet) {
    exists r :: a.Accepts(r) && b.Accepts(r)
  }

  /** An explicit push is refused exactly if an explicit entry accepts a request that it accepts. */
  lemma {:induction false} RefusedIff<T>(s: Slot<T>, e: Entry<T>)
    ensures Pushed(s, e).None? <==>
            !e.implicit && exists x | x in Entries(s) :: !x.implicit && Share(x.methods, e.methods)
  {
    var entries := Entries(s);
    forall i | 0 <= i < |entries|
      ensures entries[i].methods.Intersects(e.methods) <==> Share(entries[i].methods, e.methods)
    {
      IntersectsIsExact(entries[i].methods, e.methods);
    }
    if i :| 0 <= i < |entries| && !entries[i].implicit && entries[i].methods.Intersects(e.methods) {
      assert entries[i] in entries;
    }
  }

  /** The explicit entries of a slot are the explicit pushes it accepted. */
  ghost predicate SameExplicit<T>(entries: seq<Entry<T>>, pushes: seq<Entry<T>>) {
    && (forall x | x in entries && !x.implicit :: x in pushes)
    && (forall x | x in pushes && !x.implicit :: x in entries)
  }

  lemma {:induction false} PushKeepsExplicit<T>(s: Slot<T>, e: Entry<T>, pushes: seq<Entry<T>>)
    requires Settled(Entries(s)) && SameExplicit(Entries(s), pushes) && !e.methods.IsEmpty() && Pushed(s, e).Some?
    ensures SameExplicit(Entries(Pushed(s, e).value), pushes + [e])
  {
    var was, now := Entries(s), Entries(Pushed(s, e).value);
    if e.implicit {
      var left := Leftover(e.methods, was);
      assert now == if left.IsEmpty() then was else was + [e.(methods := left)];
    } else {
      ExplicitEntries(s, e);
      forall x | x in pushes + [e] && !x.implicit ensures x in now {
        if x in pushes {
          var i :| 0 <= i < |was| && was[i] == x;
          assert Yield(was[i], e.methods) == x;
        }
      }
      forall x | x in now && !x.implicit ensures x in pushes + [e] {
        NothingNew(s, e, x);
      }
    }
  }

  lemma {:induction false} NothingNew<T>(s: Slot<T>, e: Entry<T>, x: Entry<T>)
    requires !e.implicit && Pushed(s, e).Some? && x in Entries(Pushed(s, e).value) && !x.implicit
    ensures x in Entries(s) || x == e
  {
    var tail := YieldAll(s.rest, e.methods);
    NonEmptySub(tail);
    assert Entries(s)[0] == s.first;
    assert x == e || x == Yield(s.first, e.methods) || x in NonEmpty(tail);
    if x in NonEmpty(tail) {
      var i :| 0 <= i < |tail| && tail[i] == x;
      assert x == s.rest[i] && Entries(s)[i + 1] == s.rest[i];
    }
  }

  lemma {:induction false} AttemptsKeepExplicit<T>(e: Entry<T>, tries: seq<Entry<T>>)
    requires !e.methods.IsEmpty() && forall i | 0 <= i < |tries| :: !tries[i].methods.IsEmpty()
    ensures SameExplicit(Entries(Attempts(e, tries).0), Attempts(e, tries).1)
  {
    hide Pushed;
    if tries == [] {
      assert Entries(Slot(e, [])) == [e];
    } else {
      var init, last := tries[..|tries| - 1], tries[|tries| - 1];
      AttemptsKeepExplicit(e, init);
      SlotSettles(e, init);
      var (s, pushes) := Attempts(e, init);
      if Pushed(s, last).Some? {
        PushKeepsExplicit(s, last, pushes);
      }
    }
  }

  /**
   After any attempts, an entry is refused if and only if it is explicit and an explicit entry that was
   accepted before accepts a request that it accepts.
   */
  lemma {:induction false} RefusedByPushes<T>(e: Entry<T>, tries: seq<Entry<T>>, last: Entry<T>)
    requires !e.methods.IsEmpty() && forall i | 0 <= i < |tries| :: !tries[i].methods.IsEmpty()
    ensures var (s, pushes) := Attempts(e, tries);
            Pushed(s, last).None? <==>
            !last.implicit && exists x | x in pushes :: !x.implicit && Share(x.methods, last.methods)
  {
    AttemptsKeepExplicit(e, tries);
    RefusedIff(Attempts(e, tries).0, last);
  }
}
