/** Lists of routes that a tree takes, each in its turn: what decides is the patterns before. */
module AcceptedRoutes {
  import opened Prelude
  import opened Pattern
  import opened RouteTree
  import opened TreeInsert
  import opened RouteBuild
  import opened InsertProof
  import opened TreeOutcome
  import opened Acceptance
  import opened SegmentWilds
  import opened PatternAcceptance
  import opened PatternWalk
  import opened CompactTree
  import opened RouteWays
  import opened RouteRuns

  /** Any valid pattern, with one name per parameter. */
  ghost predicate Proper<T>(r: Registration<T>) {
    Valid(r.pattern) && |r.names| == ParamCount(r.pattern)
  }

  ghost predicate Lists<T>(regs: seq<Registration<T>>, q: Tokens) {
    exists i | 0 <= i < |regs| :: regs[i].pattern == q
  }

  ghost function PatternsOf<T>(regs: seq<Registration<T>>): iset<Tokens> {
    iset q | Lists(regs, q)
  }

  lemma {:induction false} NotStale<T>(t: Node<T>, p: Tokens)
    requires TreeShape(t) && OnlyAccepted(t)
    ensures !Stale(t, p)
  {
  }

  lemma {:induction false} OneMoreRoute<T>(t: Node<T>, r: Registration<T>)
    requires TreeShape(t) && OnlyAccepted(t) && Proper(r)
    requires Insert(t, r.pattern, r.value, r.names).outcome.Ok?
    ensures var m := Insert(t, r.pattern, r.value, r.names).node;
            TreeShape(m) && OnlyAccepted(m) && RoutesOf(m) == RoutesOf(t) + iset{r.pattern}
  {
    hide Get, Compact, Insert, TreeShape;
    InsertTree(t, r.pattern, r.value, r.names);
    NotStale(t, r.pattern);
    InsertCompact(t, r.pattern, r.value, r.names);
    var m := Insert(t, r.pattern, r.value, r.names).node;
    forall q ensures q in RoutesOf(m) <==> q in RoutesOf(t) || q == r.pattern {}
  }

  lemma {:induction false} OneMorePattern<T>(init: seq<Registration<T>>, r: Registration<T>)
    ensures PatternsOf(init + [r]) == PatternsOf(init) + iset{r.pattern}
  {
    var regs := init + [r];
    forall q ensures q in PatternsOf(regs) <==> q in PatternsOf(init) || q == r.pattern {
      if i :| 0 <= i < |init| && init[i].pattern == q { assert regs[i].pattern == q; }
      if i :| 0 <= i < |regs| && regs[i].pattern == q { assert i < |init| ==> init[i].pattern == q; }
      assert regs[|init|].pattern == r.pattern;
    }
  }

  /** The tree after all registrations, if each was accepted in its turn. */
  ghost function TreeOf<T>(regs: seq<Registration<T>>): (t: Option<Node<T>>)
    requires forall i | 0 <= i < |regs| :: Proper(regs[i])
    ensures t.Some? ==> TreeShape(t.value) && OnlyAccepted(t.value) && RoutesOf(t.value) == PatternsOf(regs)
  {
    if regs == [] then
      assert RoutesOf<T>(Empty()) == PatternsOf<T>([]);
      Some(Empty())
    else
      var init, r := regs[..|regs| - 1], regs[|regs| - 1];
      assert regs == init + [r];
      match TreeOf(init)
      case None => None
      case Some(t) =>
        var m := Insert(t, r.pattern, r.value, r.names);
        if m.outcome.Ok? then OneMoreRoute(t, r); OneMorePattern(init, r); Some(m.node) else None
  }

  /**
   After accepted registrations, another one is accepted if and only if nothing in the patterns so far
   stands in its way.
   */
  lemma {:induction false} AcceptedAfter<T>(regs: seq<Registration<T>>, r: Registration<T>)
    requires (forall i | 0 <= i < |regs| :: Proper(regs[i])) && Proper(r) && TreeOf(regs).Some?
    ensures TreeOf(regs + [r]).Some? <==> !Blocked(WaysBy(PatternsOf(regs)), r.pattern)
  {
    hide Blocked, WaysBy, Insert, Get;
    assert (regs + [r])[..|regs|] == regs;
    AcceptedByRoutes(TreeOf(regs).value, r.pattern, r.value, r.names);
  }

  // ----- What this means -----

  /** A pattern without wildcards is refused only by itself. */
  lemma {:induction false} TextIsRefusedByItself<T>(regs: seq<Registration<T>>, r: Registration<T>)
    requires (forall i | 0 <= i < |regs| :: Proper(regs[i])) && Proper(r) && TreeOf(regs).Some?
    requires AllLit(r.pattern)
    ensures TreeOf(regs + [r]).Some? <==> forall i | 0 <= i < |regs| :: regs[i].pattern != r.pattern
  {
    hide WaysBy, OnWay, SuffixedBelow, PrefixedBelow, TreeOf;
    AcceptedAfter(regs, r);
    var p, ways := r.pattern, WaysBy(PatternsOf(regs));
    forall k: nat ensures !BlockAt(ways, p, k) {
      if k < |p| { TextMeetsNothing(ways, p, k); }
    }
    assert ways.routes == PatternsOf(regs) by { RoutesAre(PatternsOf(regs)); }
  }

  lemma {:induction false} RoutesAre(routes: iset<Tokens>)
    ensures WaysBy(routes).routes == routes
  {
  }

  lemma {:induction false} TextMeetsNothing(ways: Ways, p: Tokens, k: nat)
    requires AllLit(p) && k < |p|
    ensures !Meets(ways, p, k)
  {
    var s := SegmentRest(p, k);
    forall i | 0 <= i < |s| ensures s[i].Lit? { assert s[i] == p[k + i]; }
  }

  ghost predicate NoParams(routes: iset<Tokens>) {
    forall q, i | q in routes && 0 <= i < |q| :: q[i] != Param
  }

  /**
   Where no route has a parameter, a pattern is refused exactly by the routes that part from it with
   another wildcard.
   */
  lemma {:induction false} FirstParameters<T>(regs: seq<Registration<T>>, r: Registration<T>)
    requires (forall i | 0 <= i < |regs| :: Proper(regs[i])) && Proper(r) && TreeOf(regs).Some?
    requires NoParams(PatternsOf(regs))
    ensures TreeOf(regs + [r]).Some? <==> forall i | 0 <= i < |regs| :: !Clash(regs[i].pattern, r.pattern)
  {
    hide TreeOf, BlockAt, WaysBy, ClashAt;
    AcceptedAfter(regs, r);
    var p, routes := r.pattern, PatternsOf(regs);
    var ways := WaysBy(routes);
    RoutesAre(routes);
    forall k: nat ensures BlockAt(ways, p, k) <==> exists i | 0 <= i < |regs| :: ClashAt(regs[i].pattern, p, k) {
      BlocksByClash(regs, p, k);
    }
    if k: nat :| BlockAt(ways, p, k) {
      var i :| 0 <= i < |regs| && ClashAt(regs[i].pattern, p, k);
    }
    if i :| 0 <= i < |regs| && Clash(regs[i].pattern, p) && regs[i].pattern != p {
      var k: nat :| ClashAt(regs[i].pattern, p, k);
      assert BlockAt(ways, p, k);
    }
  }

  lemma {:induction false} BlocksByClash<T>(regs: seq<Registration<T>>, p: Tokens, k: nat)
    requires (forall i | 0 <= i < |regs| :: Proper(regs[i])) && NoParams(PatternsOf(regs))
    ensures BlockAt(WaysBy(PatternsOf(regs)), p, k) <==> exists i | 0 <= i < |regs| :: ClashAt(regs[i].pattern, p, k)
  {
    hide NodeEnds, HasSuffixed, BlockAt, Valid;
    var routes := PatternsOf(regs);
    var ways := WaysBy(routes);
    forall x ensures x + [Param] !in ways.ends && x + [Param] !in ways.marks {
      NoParamEnds(routes, x);
    }
    OnlyOtherWild(ways, p, k);
    if k < |p| && OtherWild(ways, p, k) {
      var w: Token :| !w.Lit? && w != p[k] && p[..k] + [w] in ways.ends;
      var i := ClashFrom(regs, p, k, w);
      assert ClashAt(regs[i].pattern, p, k);
    }
    if i :| 0 <= i < |regs| && ClashAt(regs[i].pattern, p, k) {
      var q := regs[i].pattern;
      assert q in routes;
      CatchIsLast(q, k);
      assert q == p[..k] + [q[k]];
      assert NodeEnds(routes, q) by { RouteEnds(routes, q); }
      assert p[..k] + [q[k]] in ways.ends;
    }
  }

  lemma {:induction false} RouteEnds(routes: iset<Tokens>, q: Tokens)
    requires q in routes
    ensures NodeEnds(routes, q)
  {
  }

  lemma {:induction false} OnlyOtherWild(ways: Ways, p: Tokens, k: nat)
    requires forall x :: x + [Param] !in ways.ends && x + [Param] !in ways.marks
    ensures BlockAt(ways, p, k) <==> k < |p| && OtherWild(ways, p, k)
  {
    hide OnWay, FreshSegment, OtherWild, SegmentRest;
  }

  lemma {:induction false} ClashFrom<T>(regs: seq<Registration<T>>, p: Tokens, k: nat, w: Token) returns (i: nat)
    requires k < |p| && !p[k].Lit? && !w.Lit? && w != p[k] && NodeEnds(PatternsOf(regs), p[..k] + [w])
    ensures i < |regs| && ClashAt(regs[i].pattern, p, k)
  {
    hide NodeEnds;
    var x, routes := p[..k] + [w], PatternsOf(regs);
    if !Passed(routes, x) { NothingPassed(routes, x); }
    var q :| q in routes && x <= q;
    i :| 0 <= i < |regs| && regs[i].pattern == q;
    assert q[..k] == x[..k] == p[..k] && q[k] == x[k] == w;
  }

  lemma {:induction false} NoParamEnds(routes: iset<Tokens>, x: Tokens)
    requires NoParams(routes)
    ensures !NodeEnds(routes, x + [Param]) && !HasSuffixed(routes, x + [Param])
  {
    var y := x + [Param];
    assert y[|x|] == Param;
    forall q | q in routes ensures !(y <= q) {
      assert |x| < |q| ==> q[|x|] != Param;
    }
    NothingPassed(routes, y);
  }

  // ----- A parameter in another segment -----

  /** The patterns `/{}b`, `/f/a{}` and `/fb`. */
  const SUFFIXED: Tokens := [SLASH_TOKEN, Param, Lit(98)]
  const FARTHER: Tokens := [SLASH_TOKEN, Lit(102), SLASH_TOKEN, Lit(97), Param]
  const BESIDE: Tokens := [SLASH_TOKEN, Lit(102), Lit(98)]

  const START: Tokens := [SLASH_TOKEN]
  const INNER: Tokens := [SLASH_TOKEN, Lit(102)]
  const SPAN: Tokens := [Lit(102), SLASH_TOKEN, Lit(97)]

  lemma {:induction false} NextIs(x: Tokens, w: Token, q: Tokens)
    requires x + [w] <= q
    ensures |x| < |q| && q[|x|] == w && x <= q
  {
    assert (x + [w])[|x|] == w;
  }

  lemma {:induction false} SuffixedSegment()
    ensures SegmentRest(SUFFIXED, 1) == [Param, Lit(98)] && FirstWild(SegmentRest(SUFFIXED, 1)) == 0
    ensures SUFFIXED[..1] == START && SUFFIXED[2..] == [Lit(98)] && FreshSegment(SUFFIXED, 1)
    ensures !FreshSegment(SUFFIXED, 2)
  {
    var rest, b: Tokens := [Param, Lit(98)], [Lit(98)];
    assert SUFFIXED[1..] == rest && rest[1..] == b && b[1..] == [];
    assert SlashAt(b) == 1 && SlashAt(rest) == 2;
    assert SUFFIXED[1] == Param && SUFFIXED[1..2] == [Param];
  }

  lemma {:induction false} NoNodeInside()
    ensures !NodeEnds(iset{FARTHER}, INNER)
  {
    var routes := iset{FARTHER};
    forall w: Token | Passed(routes, INNER + [w]) ensures w == SLASH_TOKEN {
      NextIs(INNER, w, FARTHER);
    }
  }

  lemma {:induction false} FartherBlocks()
    ensures Blocked(WaysBy(iset{FARTHER}), SUFFIXED)
  {
    hide NodeEnds, FreshSegment, SegmentRest;
    var routes := iset{FARTHER};
    var ways := WaysBy(routes);
    SuffixedSegment();
    assert FARTHER in ways.ends by { RouteEnds(routes, FARTHER); }
    assert START <= FARTHER;
    assert OnWay(ways, START);
    forall w: Token | !w.Lit? ensures START + [w] !in ways.ends {
      if Passed(routes, START + [w]) { NextIs(START, w, FARTHER); }
      NothingPassed(routes, START + [w]);
    }
    assert START + SPAN + [Param] == FARTHER;
    forall k | 0 < k < |SPAN| ensures LastSegmentAt(ways, START, SPAN, k) {
      if k == 1 {
        assert START + SPAN[..1] == INNER;
        NoNodeInside();
      }
    }
    assert Straddles(ways, START, SPAN);
    assert PartsAt(ways, SUFFIXED, 1) && Meets(ways, SUFFIXED, 1);
    assert BlockAt(ways, SUFFIXED, 1);
  }

  lemma {:induction false} ForkedInside()
    ensures NodeEnds(iset{FARTHER, BESIDE}, INNER)
  {
    var routes := iset{FARTHER, BESIDE};
    assert INNER + [Lit(47)] <= FARTHER && INNER + [Lit(98)] <= BESIDE;
    assert FARTHER in routes && BESIDE in routes;
    assert Passed(routes, INNER + [Lit(47)]) && Passed(routes, INNER + [Lit(98)]);
  }

  lemma {:induction false} OneSpan(z: Tokens)
    requires Passed(iset{FARTHER, BESIDE}, START + z + [Param])
    ensures z == SPAN
  {
    var y := START + z + [Param];
    var q :| q in iset{FARTHER, BESIDE} && y <= q;
    assert y[|z| + 1] == Param;
    assert q[|z| + 1] == Param;
    assert q == FARTHER && |z| == 3;
    assert z == y[1..4] == q[1..4];
  }

  lemma {:induction false} BesideFrees()
    ensures !Blocked(WaysBy(iset{FARTHER, BESIDE}), SUFFIXED)
  {
    hide NodeEnds, FreshSegment, SegmentRest, HasSuffixed;
    var routes := iset{FARTHER, BESIDE};
    var ways := WaysBy(routes);
    SuffixedSegment();
    forall w: Token | !w.Lit? ensures START + [w] !in ways.ends {
      if q :| q in routes && START + [w] <= q { NextIs(START, w, q); }
      NothingPassed(routes, START + [w]);
    }
    assert START + [Param] !in ways.marks by { NothingSuffixed(routes); }
    forall z ensures !Straddles(ways, START, z) {
      if START + z + [Param] in ways.ends {
        if !Passed(routes, START + z + [Param]) { NothingPassed(routes, START + z + [Param]); }
        OneSpan(z);
        ForkedInside();
        assert START + z[..1] == INNER;
        assert z[1..][0] == SLASH_TOKEN;
        assert !LastSegmentAt(ways, START, z, 1);
      }
    }
    FreeAtStart(ways);
    forall k: nat ensures !BlockAt(ways, SUFFIXED, k) {}
  }

  lemma {:induction false} NothingSuffixed(routes: iset<Tokens>)
    requires routes == iset{FARTHER, BESIDE}
    ensures !HasSuffixed(routes, START + [Param])
  {
    forall q | q in routes ensures !(START + [Param] <= q) {
      if START + [Param] <= q { NextIs(START, Param, q); }
    }
  }

  lemma {:induction false} FreeAtStart(ways: Ways)
    requires ways == WaysBy(iset{FARTHER, BESIDE})
    ensures !BlockAt(ways, SUFFIXED, 0)
  {
    hide NodeEnds, Meets;
    assert SUFFIXED[..1] == START && START <= FARTHER;
    assert FARTHER in ways.ends by { RouteEnds(ways.routes, FARTHER); }
    assert OnWay(ways, SUFFIXED[..0 + 1]);
  }

  lemma {:induction false} ExamplesAreProper<T>(v: T, a: Name)
    ensures Proper(Registration(FARTHER, v, [a])) && Proper(Registration(BESIDE, v, [])) &&
            Proper(Registration(SUFFIXED, v, [a]))
  {
    hide Valid, ParamCount;
    var end, tail: Tokens := [Param], [Param, Lit(98)];
    ShortTails();
    TextBefore([SLASH_TOKEN, Lit(102), SLASH_TOKEN, Lit(97)], end);
    assert [SLASH_TOKEN, Lit(102), SLASH_TOKEN, Lit(97)] + end == FARTHER;
    TextBefore(BESIDE, []);
    assert BESIDE + [] == BESIDE;
    TextBefore(START, tail);
    assert START + tail == SUFFIXED;
  }

  lemma {:induction false} ShortTails()
    ensures Valid([]) && ParamCount([]) == 0
    ensures Valid([Param]) && ParamCount([Param]) == 1
    ensures Valid([Param, Lit(98)]) && ParamCount([Param, Lit(98)]) == 1
  {
    var end, tail, b: Tokens := [Param], [Param, Lit(98)], [Lit(98)];
    assert end[1..] == [] && tail[1..] == b && b[1..] == [];
    assert SlashAt(b) == 1;
    assert b[..1] == b && tail[1..][1..] == [];
    assert ParamCount(b) == 0;
  }

  lemma {:induction false} TextBefore(x: Tokens, p: Tokens)
    requires AllLit(x) && Valid(p)
    ensures Valid(x + p) && ParamCount(x + p) == ParamCount(p)
  {
    ValidAfterText(x, p);
    ParamCountConcat(x, p);
    ParamCountLit(x);
  }

  /**
   `/f/a{}` alone keeps `/{}b` out, although its parameter stands in another segment. With `/fb`
   registered as well, `/{}b` is accepted: refusal is no matter between two patterns, and more routes
   can undo it.
   */
  lemma {:induction false} FarSegmentExample<T>(v: T, a: Name)
    ensures var farther, beside, suffixed :=
              Registration(FARTHER, v, [a]), Registration(BESIDE, v, []), Registration(SUFFIXED, v, [a]);
            && Proper(farther) && Proper(beside) && Proper(suffixed)
            && TreeOf([farther]).Some? && TreeOf([farther, suffixed]).None?
            && TreeOf([farther, beside]).Some? && TreeOf([farther, beside, suffixed]).Some?
  {
    hide TreeOf, Blocked, WaysBy;
    ExamplesAreProper(v, a);
    var farther, beside, suffixed :=
      Registration(FARTHER, v, [a]), Registration(BESIDE, v, []), Registration(SUFFIXED, v, [a]);
    assert TreeOf<T>([]).Some? by { NothingYet<T>(); }
    FirstParameters([], farther);
    assert [] + [farther] == [farther];
    AcceptedAfter([farther], suffixed);
    assert [farther] + [suffixed] == [farther, suffixed];
    assert PatternsOf([farther]) == iset{FARTHER} by { OneMorePattern([], farther); }
    FartherBlocks();
    TextIsRefusedByItself([farther], beside);
    assert [farther] + [beside] == [farther, beside];
    AcceptedAfter([farther, beside], suffixed);
    assert [farther, beside] + [suffixed] == [farther, beside, suffixed];
    assert PatternsOf([farther, beside]) == iset{FARTHER, BESIDE} by { OneMorePattern([farther], beside); }
    BesideFrees();
  }

  lemma {:induction false} NothingYet<T>()
    ensures TreeOf<T>([]).Some? && NoParams(PatternsOf<T>([]))
  {
  }
}
