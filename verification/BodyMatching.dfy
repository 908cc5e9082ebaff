/** A session that sees a body chunk by chunk, with a bounded memory of the past. */
module BodyMatching {
  import opened Prelude
  import opened BodyScan
  import opened ChunkReading

  datatype BodyAction = Continue | Block | Allow

  datatype PhaseState = Empty | Scanning | Matched | Clean

  datatype MatchInfo = MatchInfo(patternIndex: nat, fromDfa: bool)

  /** The part of a session that changes. */
  datatype View<S> = View(
    overlap: bytes,
    dfaState: Option<S>,
    gaveUp: bool,
    state: PhaseState,
    lastHit: Option<MatchInfo>
  )

  const READ_SIZE: nat := 8192

  // ----- What one call does -----

  /** Where the automaton stands before a chunk. */
  function Standing<S>(p: Phase<S>, regexes: bool, v: View<S>): Scan<S> {
    if !regexes || v.gaveUp || p.dfa.None? then GaveUp
    else if v.dfaState.Some? then At(v.dfaState.value)
    else StartOf(p.dfa.value)
  }

  function Finished<S>(p: Phase<S>, regexes: bool, v: View<S>, end: bool): (View<S>, BodyAction) {
    if !end then (v.(state := Scanning), Continue)
    else if
      && regexes && !v.gaveUp && p.dfa.Some? && v.dfaState.Some?
      && AtEnd(p.dfa.value, At(v.dfaState.value)).Some?
    then
      var m := AtEnd(p.dfa.value, At(v.dfaState.value)).value;
      (v.(state := Matched, lastHit := Some(MatchInfo(p.dfa.value.pattern(m), true))), Block)
    else (v.(state := Clean), Allow)
  }

  function Fed<S>(p: Phase<S>, regexes: bool, v: View<S>, chunk: bytes, end: bool): (View<S>, BodyAction) {
    if v.state == Matched then (v, Block)
    else if v.state == Clean then (v, Allow)
    else if p.search(v.overlap + chunk).Some? then
      (v.(state := Matched, lastHit := Some(MatchInfo(p.search(v.overlap + chunk).value, false))), Block)
    else
      var v := v.(overlap := Tail(v.overlap + chunk, OverlapLen(p.literals)));
      if !regexes || v.gaveUp || p.dfa.None? then Finished(p, regexes, v, end)
      else
        match Over(p.dfa.value, Standing(p, regexes, v), chunk)
        case Hit(m) => (v.(state := Matched, lastHit := Some(MatchInfo(p.dfa.value.pattern(m), true))), Block)
        case GaveUp => Finished(p, regexes, v.(gaveUp := true), end)
        case At(s) => Finished(p, regexes, v.(dfaState := Some(s)), end)
  }

  // ----- As the source runs it -----

  /** Moves the end of a buffer to its front, in place. */
  method MoveEndToFront(buf: array<byte>, len: nat, keep: nat)
    requires keep <= len <= buf.Length
    modifies buf
    ensures forall k | 0 <= k < buf.Length :: buf[k] == if k < keep then old(buf[k + len - keep]) else old(buf[k])
  {
    var from := len - keep;
    for i := 0 to keep
      invariant forall k | 0 <= k < buf.Length :: buf[k] == if k < i then old(buf[k + from]) else old(buf[k])
    {
      buf[i] := buf[i + from];
    }
  }

  class BodySession<S> {
    const phase: Phase<S>
    const buf: array<byte>
    var len: nat
    var dfaState: Option<S>
    var rewindable: bool
    var regexGaveUp: bool
    var state: PhaseState
    var lastHit: Option<MatchInfo>

    ghost predicate Valid()
      reads this
    {
      phase.Valid() && buf.Length == OverlapLen(phase.literals) && len <= buf.Length
    }

    function Seen(): View<S>
      requires len <= buf.Length
      reads this, buf
    {
      View(buf[..len], dfaState, regexGaveUp, state, lastHit)
    }

    constructor (phase: Phase<S>, rewindable: bool)
      requires phase.Valid()
      ensures Valid() && fresh(buf) && this.phase == phase && this.rewindable == rewindable
      ensures Seen() == Fresh()
    {
      this.phase := phase;
      buf := new byte[OverlapLen(phase.literals)];
      len := 0;
      dfaState := None;
      this.rewindable := rewindable;
      regexGaveUp := false;
      state := Empty;
      lastHit := None;
    }

    method Reset()
      requires Valid()
      modifies this
      ensures Valid() && Seen() == Fresh() && rewindable == old(rewindable)
    {
      len := 0;
      dfaState := None;
      regexGaveUp := false;
      state := Empty;
      lastHit := None;
    }

    /** Keeps the end of what was seen, in the space there is. */
    method UpdateOverlap(chunk: bytes)
      requires Valid()
      modifies this`len, buf
      ensures Valid() && buf[..len] == Tail(old(buf[..len]) + chunk, buf.Length)
    {
      ghost var was := buf[..len];
      if buf.Length > 0 {
        var keep := Min(len + |chunk|, buf.Length);
        if keep == 0 {
          len := 0;
        } else if keep <= |chunk| {
          CopyInto(buf, 0, chunk[|chunk| - keep..]);
          len := keep;
        } else {
          var oldKeep := keep - |chunk|;
          MoveEndToFront(buf, len, oldKeep);
          CopyInto(buf, oldKeep, chunk);
          len := keep;
        }
        ghost var all := was + chunk;
        assert |Tail(all, buf.Length)| == len;
        forall k | 0 <= k < len ensures buf[k] == Tail(all, buf.Length)[k] {
        }
      }
    }

    /** Runs the automaton over a chunk. */
    method RunDfa(d: Dfa<S>, from: S, chunk: bytes) returns (r: Scan<S>)
      ensures r == Over(d, At(from), chunk)
    {
      var sid := from;
      assert chunk[0..] == chunk;
      for i := 0 to |chunk|
        invariant Over(d, At(from), chunk) == Over(d, At(sid), chunk[i..])
      {
        assert chunk[i..][1..] == chunk[i + 1..];
        match d.next(sid, chunk[i]) {
          case None => return GaveUp;
          case Some(n) =>
            sid := n;
            if d.isMatch(sid) {
              return Hit(sid);
            }
            if d.isQuit(sid) {
              return GaveUp;
            }
        }
      }
      return At(sid);
    }

    method Finish(end: bool) returns (action: BodyAction)
      requires Valid()
      modifies this`state, this`lastHit
      ensures (Seen(), action) == Finished(phase, rewindable, old(Seen()), end)
    {
      if !end {
        state := Scanning;
        return Continue;
      }
      if rewindable && !regexGaveUp && phase.dfa.Some? && dfaState.Some? {
        var m := phase.dfa.value.eoi(dfaState.value);
        if m.Some? && phase.dfa.value.isMatch(m.value) {
          lastHit := Some(MatchInfo(phase.dfa.value.pattern(m.value), true));
          state := Matched;
          return Block;
        }
      }
      state := Clean;
      return Allow;
    }

    method Feed(chunk: bytes, end: bool) returns (action: BodyAction)
      requires Valid()
      modifies this, buf
      ensures Valid() && rewindable == old(rewindable)
      ensures (Seen(), action) == Fed(phase, rewindable, old(Seen()), chunk, end)
    {
      ghost var was := Seen();
      if state == Matched {
        return Block;
      }
      if state == Clean {
        return Allow;
      }

      if phase.literals != [] {
        var reader := new ChunkReader(buf[..len], chunk);
        var text := reader.Drain(_ => READ_SIZE);
        assert text == was.overlap + chunk;
        var hit := phase.search(text);
        if hit.Some? {
          lastHit := Some(MatchInfo(hit.value, false));
          state := Matched;
          return Block;
        }
      }
      assert phase.search(was.overlap + chunk).None?;

      UpdateOverlap(chunk);
      assert Seen() == was.(overlap := Tail(was.overlap + chunk, OverlapLen(phase.literals)));

      if rewindable && !regexGaveUp && phase.dfa.Some? {
        var d := phase.dfa.value;
        var sid := if dfaState.Some? then dfaState else d.start;
        if sid.None? {
          regexGaveUp := true;
          action := Finish(end);
          return;
        }
        var r := RunDfa(d, sid.value, chunk);
        match r {
          case Hit(m) =>
            lastHit := Some(MatchInfo(d.pattern(m), true));
            state := Matched;
            return Block;
          case GaveUp => regexGaveUp := true;
          case At(s) => dfaState := Some(s);
        }
      }
      action := Finish(end);
    }
  }

  function Fresh<S>(): View<S> {
    View([], None, false, Empty, None)
  }
}
