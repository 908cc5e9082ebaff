/** A body fed in chunks is judged like the whole body, however it is cut. */
module BodyRuns {
  import opened Prelude
  import opened BodyScan
  import opened BodyMatching

  ghost function Joined(chunks: seq<bytes>): bytes {
    if chunks == [] then [] else Joined(chunks[..|chunks| - 1]) + chunks[|chunks| - 1]
  }

  /** The session after chunks that were not the last. */
  ghost function Streamed<S>(p: Phase<S>, regexes: bool, chunks: seq<bytes>): View<S> {
    if chunks == [] then Fresh()
    else Fed(p, regexes, Streamed(p, regexes, chunks[..|chunks| - 1]), chunks[|chunks| - 1], false).0
  }

  /** The session and its verdict after a whole body in these chunks. */
  ghost function Judged<S>(p: Phase<S>, regexes: bool, chunks: seq<bytes>): (View<S>, BodyAction)
    requires chunks != []
  {
    Fed(p, regexes, Streamed(p, regexes, chunks[..|chunks| - 1]), chunks[|chunks| - 1], true)
  }

  /** What the session knows after `fed`: that it stopped, or the tail and the automaton state of all of it. */
  ghost predicate Tracks<S>(p: Phase<S>, regexes: bool, v: View<S>, fed: bytes) {
    if Stops(p, regexes, fed) then v.state == Matched
    else
      && v.state in {Empty, Scanning}
      && v.overlap == Tail(fed, OverlapLen(p.literals))
      && Standing(p, regexes, v) == Regex(p, regexes, fed)
  }

  lemma {:induction false} RegexGrows<S>(p: Phase<S>, regexes: bool, fed: bytes, chunk: bytes)
    ensures regexes && p.dfa.Some? ==>
            Regex(p, regexes, fed + chunk) == Over(p.dfa.value, Regex(p, regexes, fed), chunk)
    ensures Regex(p, regexes, fed).Hit? ==> Regex(p, regexes, fed + chunk) == Regex(p, regexes, fed)
    ensures Regex(p, regexes, fed) == GaveUp ==> Regex(p, regexes, fed + chunk) == GaveUp
  {
    if regexes && p.dfa.Some? {
      OverConcat(p.dfa.value, StartOf(p.dfa.value), fed, chunk);
    }
  }

  lemma {:induction false} StopsStays<S>(p: Phase<S>, regexes: bool, fed: bytes, chunk: bytes)
    requires Stops(p, regexes, fed)
    ensures Stops(p, regexes, fed + chunk)
  {
    if AnyOccurs(p.literals, fed) {
      OccursStays(p.literals, fed, chunk);
    } else {
      RegexGrows(p, regexes, fed, chunk);
    }
  }

  lemma {:induction false} FeedStep<S>(p: Phase<S>, regexes: bool, v: View<S>, fed: bytes, chunk: bytes)
    requires p.Valid() && Tracks(p, regexes, v, fed)
    ensures var (w, action) := Fed(p, regexes, v, chunk, false);
            && Tracks(p, regexes, w, fed + chunk)
            && action == if Stops(p, regexes, fed + chunk) then Block else Continue
  {
    hide Over, AnyOccurs, Tail;
    if Stops(p, regexes, fed) {
      StopsStays(p, regexes, fed, chunk);
    } else {
      AnyOccursInTail(p.literals, fed, chunk);
      TailOfTail(fed, chunk, OverlapLen(p.literals));
      RegexGrows(p, regexes, fed, chunk);
    }
  }

  lemma {:induction false} EndStep<S>(p: Phase<S>, regexes: bool, v: View<S>, fed: bytes, chunk: bytes)
    requires p.Valid() && Tracks(p, regexes, v, fed)
    ensures Fed(p, regexes, v, chunk, true).1 == if Blocks(p, regexes, fed + chunk) then Block else Allow
  {
    hide Over, AnyOccurs, Tail;
    if Stops(p, regexes, fed) {
      StopsStays(p, regexes, fed, chunk);
    } else {
      AnyOccursInTail(p.literals, fed, chunk);
      RegexGrows(p, regexes, fed, chunk);
    }
  }

  /**
   After any chunks the session has stopped exactly when what it saw stops it; if not, it knows the
   tail and the automaton state.
   */
  lemma {:induction false} StreamTracks<S>(p: Phase<S>, regexes: bool, chunks: seq<bytes>)
    requires p.Valid()
    ensures Tracks(p, regexes, Streamed(p, regexes, chunks), Joined(chunks))
  {
    if chunks == [] {
      NothingStops(p, regexes);
    } else {
      var init := chunks[..|chunks| - 1];
      StreamTracks(p, regexes, init);
      FeedStep(p, regexes, Streamed(p, regexes, init), Joined(init), chunks[|chunks| - 1]);
    }
  }

  lemma {:induction false} NothingStops<S>(p: Phase<S>, regexes: bool)
    requires p.Valid()
    ensures !Stops(p, regexes, [])
  {
    assert forall n | 0 <= n < |p.literals| :: !Occurs(p.literals[n], []);
  }

  lemma {:induction false} JudgedByScan<S>(p: Phase<S>, regexes: bool, chunks: seq<bytes>)
    requires p.Valid() && chunks != []
    ensures Judged(p, regexes, chunks).1 == if Blocks(p, regexes, Joined(chunks)) then Block else Allow
  {
    hide Fed, Blocks, Tracks;
    var init := chunks[..|chunks| - 1];
    StreamTracks(p, regexes, init);
    EndStep(p, regexes, Streamed(p, regexes, init), Joined(init), chunks[|chunks| - 1]);
  }

  /** However a body is cut, the verdict is that of scanning all of it, and that of feeding it in one piece. */
  lemma {:induction false} ChunksDoNotMatter<S>(p: Phase<S>, regexes: bool, chunks: seq<bytes>)
    requires p.Valid() && chunks != []
    ensures Judged(p, regexes, chunks).1 == if Blocks(p, regexes, Joined(chunks)) then Block else Allow
    ensures Judged(p, regexes, chunks).1 == Judged(p, regexes, [Joined(chunks)]).1
  {
    hide Judged, Blocks;
    JudgedByScan(p, regexes, chunks);
    JudgedByScan(p, regexes, [Joined(chunks)]);
    JoinedOne(Joined(chunks));
  }

  lemma {:induction false} JoinedOne(whole: bytes)
    ensures Joined([whole]) == whole
  {
    assert Joined([whole][..0]) == [];
  }

  /** The remembered tail: the last bytes of the stream, as many as the longest literal can reach back. */
  lemma {:induction false} OverlapIsTail<S>(p: Phase<S>, regexes: bool, chunks: seq<bytes>)
    requires p.Valid() && Streamed(p, regexes, chunks).state != Matched
    ensures var fed := Joined(chunks);
            Streamed(p, regexes, chunks).overlap == fed[|fed| - Min(|fed|, OverlapLen(p.literals))..]
  {
    StreamTracks(p, regexes, chunks);
  }

  // ----- Where a match came from -----

  /** The remembered match is a literal that occurs in what was fed, or a state the automaton reached on it. */
  ghost predicate Traced<S>(p: Phase<S>, regexes: bool, v: View<S>, fed: bytes, ended: bool) {
    v.state == Matched ==>
      && v.lastHit.Some?
      && var MatchInfo(n, fromDfa) := v.lastHit.value;
         if !fromDfa then n < |p.literals| && Occurs(p.literals[n], fed)
         else
           && regexes && p.dfa.Some?
           && var r := Regex(p, regexes, fed);
              || (r.Hit? && p.dfa.value.pattern(r.s) == n)
              || (ended && AtEnd(p.dfa.value, r).Some? && p.dfa.value.pattern(AtEnd(p.dfa.value, r).value) == n)
  }

  lemma {:induction false} OneOccursStays(lit: bytes, s: bytes, t: bytes)
    requires Occurs(lit, s)
    ensures Occurs(lit, s + t)
  {
    var i: nat :| OccursAt(lit, s, i);
    assert (s + t)[i..i + |lit|] == s[i..i + |lit|];
    assert OccursAt(lit, s + t, i);
  }

  lemma {:induction false} OccursInEnd(lit: bytes, s: bytes, t: bytes, n: nat)
    requires Occurs(lit, Tail(s, n) + t)
    ensures Occurs(lit, s + t)
  {
    var seen, cut := Tail(s, n) + t, |s| - Min(|s|, n);
    assert seen == (s + t)[cut..];
    var i: nat :| OccursAt(lit, seen, i);
    assert OccursAt(lit, s + t, cut + i);
  }

  lemma {:induction false} TraceStep<S>(p: Phase<S>, regexes: bool, v: View<S>, fed: bytes, chunk: bytes, end: bool)
    requires p.Valid() && Tracks(p, regexes, v, fed) && Traced(p, regexes, v, fed, false)
    ensures Traced(p, regexes, Fed(p, regexes, v, chunk, end).0, fed + chunk, end)
  {
    hide Over, AnyOccurs, Tail, Occurs;
    RegexGrows(p, regexes, fed, chunk);
    if v.state == Matched {
      if !v.lastHit.value.fromDfa {
        OneOccursStays(p.literals[v.lastHit.value.patternIndex], fed, chunk);
      }
    } else if p.search(v.overlap + chunk).Some? {
      OccursInEnd(p.literals[p.search(v.overlap + chunk).value], fed, chunk, OverlapLen(p.literals));
    }
  }

  lemma {:induction false} StreamTraced<S>(p: Phase<S>, regexes: bool, chunks: seq<bytes>)
    requires p.Valid()
    ensures Traced(p, regexes, Streamed(p, regexes, chunks), Joined(chunks), false)
  {
    if chunks != [] {
      var init := chunks[..|chunks| - 1];
      StreamTracks(p, regexes, init);
      StreamTraced(p, regexes, init);
      TraceStep(p, regexes, Streamed(p, regexes, init), Joined(init), chunks[|chunks| - 1], false);
    }
  }

  lemma {:induction false} BlockIsMatched<S>(p: Phase<S>, regexes: bool, v: View<S>, chunk: bytes)
    ensures Fed(p, regexes, v, chunk, true).1 == Block <==> Fed(p, regexes, v, chunk, true).0.state == Matched
  {
    hide Over, Tail;
  }

  /** A blocked body names a literal that occurs in it, or a pattern its automaton run matched. */
  lemma {:induction false} BlockIsTraced<S>(p: Phase<S>, regexes: bool, chunks: seq<bytes>)
    requires p.Valid() && chunks != []
    ensures Traced(p, regexes, Judged(p, regexes, chunks).0, Joined(chunks), true)
    ensures Judged(p, regexes, chunks).1 == Block <==> Judged(p, regexes, chunks).0.state == Matched
  {
    hide Fed, Tracks, Traced;
    var init := chunks[..|chunks| - 1];
    StreamTracks(p, regexes, init);
    BlockIsMatched(p, regexes, Streamed(p, regexes, init), chunks[|chunks| - 1]);
    StreamTraced(p, regexes, init);
    TraceStep(p, regexes, Streamed(p, regexes, init), Joined(init), chunks[|chunks| - 1], true);
  }
}
