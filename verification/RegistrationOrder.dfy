/** The order in which compatible patterns are registered does not matter. */
module RegistrationOrder {
  import opened Prelude
  import opened Pattern
  import opened RouteTree
  import opened TreeInsert
  import opened TreeSearch
  import opened SegmentTree
  import opened Acceptance
  import opened RouteRuns

  /** Every registration of the list was accepted when its turn came. */
  ghost predicate AllAccepted<T>(regs: seq<Registration<T>>)
    requires AllRegistrable(regs)
  {
    forall i | 0 <= i < |regs| :: Insert(Build(regs[..i]), regs[i].pattern, regs[i].value, regs[i].names).outcome.Ok?
  }

  ghost predicate AllTaken<T>(regs: seq<Registration<T>>) {
    forall i | 0 <= i < |regs| :: !Excluded(TableOf(regs[..i]), regs[i].pattern)
  }

  /** No two of them exclude each other. */
  ghost predicate Compatible<T>(regs: seq<Registration<T>>) {
    forall i, j | 0 <= i < j < |regs| :: !Clash(regs[i].pattern, regs[j].pattern)
  }

  lemma {:induction false} ClashSymmetric(p: Tokens, q: Tokens)
    ensures Clash(p, q) <==> Clash(q, p)
  {
    if exists k :: ClashAt(p, q, k) {
      var k: nat :| ClashAt(p, q, k);
      assert ClashAt(q, p, k);
    }
    if exists k :: ClashAt(q, p, k) {
      var k: nat :| ClashAt(q, p, k);
      assert ClashAt(p, q, k);
    }
  }

  lemma {:induction false} AcceptedIsTaken<T>(regs: seq<Registration<T>>)
    requires AllRegistrable(regs)
    ensures AllAccepted(regs) <==> AllTaken(regs)
  {
    hide Excluded, Insert, Build, Registrable, Tidy, Get, Live;
    forall i | 0 <= i < |regs|
      ensures Insert(Build(regs[..i]), regs[i].pattern, regs[i].value, regs[i].names).outcome.Ok? <==>
              !Excluded(TableOf(regs[..i]), regs[i].pattern)
    {
      AcceptedIffFree(Build(regs[..i]), TableOf(regs[..i]), regs[i]);
    }
  }

  /** The table holds exactly these registrations. */
  ghost predicate Holds<T>(m: map<Tokens, Route<T>>, regs: seq<Registration<T>>) {
    && (forall i | 0 <= i < |regs| ::
          regs[i].pattern in m && m[regs[i].pattern] == Route(regs[i].value, regs[i].names))
    && forall q | q in m :: exists i | 0 <= i < |regs| :: regs[i].pattern == q
  }

  lemma {:induction false} TakenSplits<T>(init: seq<Registration<T>>, r: Registration<T>)
    ensures AllTaken(init + [r]) <==> AllTaken(init) && !Excluded(TableOf(init), r.pattern)
  {
    hide Excluded, TableOf;
    var regs := init + [r];
    assert regs[..|init|] == init;
    assert forall i | 0 <= i < |init| :: regs[..i] == init[..i];
    assert AllTaken(regs) ==> !Excluded(TableOf(regs[..|init|]), regs[|init|].pattern);
    if AllTaken(regs) {
      forall i | 0 <= i < |init| ensures !Excluded(TableOf(init[..i]), init[i].pattern) {
        assert !Excluded(TableOf(regs[..i]), regs[i].pattern);
      }
    }
  }

  lemma {:induction false} CompatibleSplits<T>(init: seq<Registration<T>>, r: Registration<T>)
    ensures Compatible(init + [r]) <==>
            Compatible(init) && forall i | 0 <= i < |init| :: !Clash(init[i].pattern, r.pattern)
  {
    hide Clash;
    var regs := init + [r];
    assert forall i | 0 <= i < |init| :: regs[i] == init[i];
    if Compatible(regs) {
      forall i | 0 <= i < |init| ensures !Clash(init[i].pattern, r.pattern) {
        assert !Clash(regs[i].pattern, regs[|init|].pattern);
      }
      forall i, j | 0 <= i < j < |init| ensures !Clash(init[i].pattern, init[j].pattern) {
        assert !Clash(regs[i].pattern, regs[j].pattern);
      }
    }
  }

  /** A list is taken as a whole exactly if it is compatible, and then its table holds all of it. */
  lemma {:induction false} TakenIffCompatible<T>(regs: seq<Registration<T>>)
    ensures AllTaken(regs) <==> Compatible(regs)
    ensures AllTaken(regs) ==> Holds(TableOf(regs), regs)
    decreases |regs|
  {
    if regs == [] {
    } else {
      hide AllTaken, Compatible, Holds, TableOf, Excluded, Clash;
      var init, r := regs[..|regs| - 1], regs[|regs| - 1];
      assert regs == init + [r];
      TakenIffCompatible(init);
      TakenSplits(init, r);
      CompatibleSplits(init, r);
      if AllTaken(init) {
        LastIsFree(init, r);
        OneMore(init, r);
      }
    }
  }

  lemma {:induction false} LastIsFree<T>(init: seq<Registration<T>>, r: Registration<T>)
    requires Holds(TableOf(init), init)
    ensures Excluded(TableOf(init), r.pattern) <==>
            exists i | 0 <= i < |init| :: Clash(init[i].pattern, r.pattern)
  {
    hide Clash;
    if Excluded(TableOf(init), r.pattern) {
      var q :| q in TableOf(init) && Clash(r.pattern, q);
      ClashSymmetric(r.pattern, q);
      var i :| 0 <= i < |init| && init[i].pattern == q;
      assert Clash(init[i].pattern, r.pattern);
    }
    if i :| 0 <= i < |init| && Clash(init[i].pattern, r.pattern) {
      ClashSymmetric(init[i].pattern, r.pattern);
      assert init[i].pattern in TableOf(init);
    }
  }

  lemma {:induction false} OneMore<T>(init: seq<Registration<T>>, r: Registration<T>)
    requires Holds(TableOf(init), init)
    ensures !Excluded(TableOf(init), r.pattern) ==> Holds(TableOf(init + [r]), init + [r])
  {
    var regs, m := init + [r], TableOf(init);
    assert regs[..|init|] == init;
    if !Excluded(m, r.pattern) {
      assert r.pattern !in m by { assert r.pattern in m ==> Clash(r.pattern, r.pattern); }
      forall q | q in TableOf(regs) ensures exists i | 0 <= i < |regs| :: regs[i].pattern == q {
        if q in m {
          var i :| 0 <= i < |init| && init[i].pattern == q;
          assert regs[i].pattern == q;
        } else {
          assert regs[|init|].pattern == q;
        }
      }
    }
  }

  lemma {:induction false} TwoOf<X>(s: seq<X>, i: nat, j: nat)
    requires i < j < |s| && s[i] == s[j]
    ensures multiset(s)[s[i]] >= 2
  {
    assert s == s[..j] + s[j..] && s[i] in s[..j] && s[j..][0] == s[j];
    assert multiset(s) == multiset(s[..j]) + multiset(s[j..]);
  }

  lemma {:induction false} FindTwo<X>(s: seq<X>, x: X) returns (i: nat, j: nat)
    requires multiset(s)[x] >= 2
    ensures i < j < |s| && s[i] == s[j] == x
  {
    assert x in multiset(s);
    j :| 0 <= j < |s| && s[j] == x;
    assert s == s[..j] + ([x] + s[j + 1..]);
    assert multiset(s) == multiset(s[..j]) + (multiset{x} + multiset(s[j + 1..]));
    if x in multiset(s[..j]) {
      i :| 0 <= i < j && s[i] == x;
    } else {
      assert x in multiset(s[j + 1..]);
      var k :| 0 <= k < |s[j + 1..]| && s[j + 1..][k] == x;
      i, j := j, j + 1 + k;
    }
  }

  lemma {:induction false} CompatibleInAnyOrder<T>(a: seq<Registration<T>>, b: seq<Registration<T>>)
    requires multiset(a) == multiset(b) && Compatible(a)
    ensures Compatible(b)
  {
    hide Clash;
    forall i, j | 0 <= i < j < |b| ensures !Clash(b[i].pattern, b[j].pattern) {
      if b[i] == b[j] {
        TwoOf(b, i, j);
        var k, l := FindTwo(a, b[i]);
        assert !Clash(a[k].pattern, a[l].pattern);
      } else {
        assert b[i] in multiset(b) && b[j] in multiset(b);
        assert b[i] in multiset(a) && b[j] in multiset(a);
        var k :| 0 <= k < |a| && a[k] == b[i];
        var l :| 0 <= l < |a| && a[l] == b[j];
        ClashSymmetric(a[k].pattern, a[l].pattern);
        assert k < l ==> !Clash(a[k].pattern, a[l].pattern);
        assert l < k ==> !Clash(a[l].pattern, a[k].pattern);
      }
    }
  }

  lemma {:induction false} SameTable<T>(a: seq<Registration<T>>, b: seq<Registration<T>>)
    requires multiset(a) == multiset(b) && Holds(TableOf(a), a) && Holds(TableOf(b), b)
    ensures TableOf(a) == TableOf(b)
  {
    Covered(a, b);
    Covered(b, a);
  }

  lemma {:induction false} Covered<T>(a: seq<Registration<T>>, b: seq<Registration<T>>)
    requires multiset(a) == multiset(b) && Holds(TableOf(a), a) && Holds(TableOf(b), b)
    ensures forall q | q in TableOf(a) :: q in TableOf(b) && TableOf(b)[q] == TableOf(a)[q]
  {
    hide TableOf;
    forall q | q in TableOf(a) ensures q in TableOf(b) && TableOf(b)[q] == TableOf(a)[q] {
      var i :| 0 <= i < |a| && a[i].pattern == q;
      assert a[i] in multiset(a);
      assert a[i] in multiset(b);
      var j :| 0 <= j < |b| && b[j] == a[i];
    }
  }

  lemma {:induction false} RegistrableInAnyOrder<T>(a: seq<Registration<T>>, b: seq<Registration<T>>)
    requires multiset(a) == multiset(b) && AllRegistrable(a)
    ensures AllRegistrable(b)
  {
    forall i | 0 <= i < |b| ensures Registrable(b[i]) {
      assert b[i] in multiset(b);
      assert b[i] in multiset(a);
    }
  }

  /**
   If one order of some registrations is accepted throughout, so is every other, with the same table,
   and every path is answered alike.
   */
  lemma {:induction false} RegisteredInAnyOrder<T>(a: seq<Registration<T>>, b: seq<Registration<T>>, path: bytes)
    requires multiset(a) == multiset(b) && AllRegistrable(a) && AllAccepted(a)
    ensures AllRegistrable(b) && AllAccepted(b) && TableOf(a) == TableOf(b)
    ensures Search(Build(a), path) == Search(Build(b), path)
  {
    hide Get, TableOf, Search, Holds, AllTaken, Compatible, AllAccepted, Grown;
    RegistrableInAnyOrder(a, b);
    AcceptedIsTaken(a);
    AcceptedIsTaken(b);
    TakenIffCompatible(a);
    TakenIffCompatible(b);
    CompatibleInAnyOrder(a, b);
    SameTable(a, b);
    SameTableSameAnswers(a, b, path);
  }

  lemma {:induction false} SameTableSameAnswers<T>(a: seq<Registration<T>>, b: seq<Registration<T>>, path: bytes)
    requires AllRegistrable(a) && AllRegistrable(b) && TableOf(a) == TableOf(b)
    ensures Search(Build(a), path) == Search(Build(b), path)
  {
    hide Get, TableOf, Search;
    TidyIsSuffixFree(Build(a), true);
    TidyIsSuffixFree(Build(b), true);
    OrderIsIrrelevant(Build(a), Build(b), TableOf(a), path);
  }
}
