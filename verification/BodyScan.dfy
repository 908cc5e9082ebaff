/** Scanning a whole body: literals anywhere in it, and an automaton run over all of it. */
module BodyScan {
  import opened Prelude

  // ----- Literals -----

  ghost predicate OccursAt(lit: bytes, s: bytes, i: nat) {
    i + |lit| <= |s| && s[i..i + |lit|] == lit
  }

  ghost predicate Occurs(lit: bytes, s: bytes) {
    exists i :: OccursAt(lit, s, i)
  }

  ghost predicate AnyOccurs(lits: seq<bytes>, s: bytes) {
    exists n | 0 <= n < |lits| :: Occurs(lits[n], s)
  }

  function MaxLen(lits: seq<bytes>): (m: nat)
    ensures forall n | 0 <= n < |lits| :: |lits[n]| <= m
    ensures lits != [] ==> exists n | 0 <= n < |lits| :: |lits[n]| == m
  {
    if lits == [] then 0
    else
      var m := MaxLen(lits[1..]);
      assert forall n | 0 < n < |lits| :: lits[n] == lits[1..][n - 1];
      if |lits[0]| >= m then |lits[0]| else m
  }

  /** How much of the past a literal that ends later can reach into. */
  function OverlapLen(lits: seq<bytes>): nat {
    if MaxLen(lits) == 0 then 0 else MaxLen(lits) - 1
  }

  function Min(a: nat, b: nat): nat {
    if a <= b then a else b
  }

  /** The last `n` bytes, or all there are. */
  function Tail(s: bytes, n: nat): (r: bytes)
    ensures |r| == Min(|s|, n)
  {
    s[|s| - Min(|s|, n)..]
  }

  lemma {:induction false} OccursEarly(lit: bytes, s: bytes, t: bytes, i: nat)
    requires OccursAt(lit, s + t, i) && i + |lit| <= |s|
    ensures Occurs(lit, s)
  {
    assert s[i..i + |lit|] == (s + t)[i..i + |lit|];
    assert OccursAt(lit, s, i);
  }

  lemma {:induction false} OccursInTail(lit: bytes, s: bytes, t: bytes, n: nat)
    requires |lit| <= n + 1 && lit != [] && !Occurs(lit, s)
    ensures Occurs(lit, s + t) <==> Occurs(lit, Tail(s, n) + t)
  {
    var all, seen := s + t, Tail(s, n) + t;
    var cut := |s| - Min(|s|, n);
    assert seen == all[cut..];
    if Occurs(lit, all) {
      var i: nat :| OccursAt(lit, all, i);
      if i + |lit| <= |s| {
        OccursEarly(lit, s, t, i);
      }
      assert i >= cut;
      assert OccursAt(lit, seen, i - cut);
    }
    if Occurs(lit, seen) {
      var i: nat :| OccursAt(lit, seen, i);
      assert OccursAt(lit, all, cut + i);
    }
  }

  /** What was clean so far stays clean exactly when the remembered tail and the next piece are. */
  lemma {:induction false} AnyOccursInTail(lits: seq<bytes>, s: bytes, t: bytes)
    requires forall n | 0 <= n < |lits| :: lits[n] != []
    requires !AnyOccurs(lits, s)
    ensures AnyOccurs(lits, s + t) <==> AnyOccurs(lits, Tail(s, OverlapLen(lits)) + t)
  {
    forall n | 0 <= n < |lits| ensures Occurs(lits[n], s + t) <==> Occurs(lits[n], Tail(s, OverlapLen(lits)) + t) {
      OccursInTail(lits[n], s, t, OverlapLen(lits));
    }
  }

  lemma {:induction false} OccursStays(lits: seq<bytes>, s: bytes, t: bytes)
    requires AnyOccurs(lits, s)
    ensures AnyOccurs(lits, s + t)
  {
    var n :| 0 <= n < |lits| && Occurs(lits[n], s);
    var i: nat :| OccursAt(lits[n], s, i);
    assert (s + t)[i..i + |lits[n]|] == s[i..i + |lits[n]|];
    assert OccursAt(lits[n], s + t, i);
  }

  lemma {:induction false} TailOfTail(s: bytes, t: bytes, n: nat)
    ensures Tail(s + t, n) == Tail(Tail(s, n) + t, n)
  {
  }

  // ----- The automaton -----

  /** Steps may fail, and a state may ask to stop. `pattern` names the pattern a matching state stands for. */
  datatype Dfa<!S> = Dfa(
    start: Option<S>,
    next: (S, byte) -> Option<S>,
    eoi: S -> Option<S>,
    isMatch: S -> bool,
    isQuit: S -> bool,
    pattern: S -> nat
  )

  datatype Scan<S> = At(s: S) | Hit(s: S) | GaveUp

  function StartOf<S>(d: Dfa<S>): Scan<S> {
    match d.start case None => GaveUp case Some(s) => At(s)
  }

  function StepOver<S>(d: Dfa<S>, s: S, b: byte): Scan<S> {
    match d.next(s, b)
    case None => GaveUp
    case Some(n) => if d.isMatch(n) then Hit(n) else if d.isQuit(n) then GaveUp else At(n)
  }

  function Over<S>(d: Dfa<S>, r: Scan<S>, text: bytes): Scan<S>
    decreases |text|
  {
    if text == [] || !r.At? then r else Over(d, StepOver(d, r.s, text[0]), text[1..])
  }

  lemma {:induction false} OverConcat<S>(d: Dfa<S>, r: Scan<S>, a: bytes, b: bytes)
    ensures Over(d, r, a + b) == Over(d, Over(d, r, a), b)
    decreases |a|
  {
    if a == [] {
      assert a + b == b;
    } else if r.At? {
      assert (a + b)[0] == a[0] && (a + b)[1..] == a[1..] + b;
      OverConcat(d, StepOver(d, r.s, a[0]), a[1..], b);
    }
  }

  /** The match that the end of the input confirms. */
  function AtEnd<S>(d: Dfa<S>, r: Scan<S>): Option<S> {
    if r.At? then
      match d.eoi(r.s)
      case None => None
      case Some(m) => if d.isMatch(m) then Some(m) else None
    else None
  }

  // ----- A phase -----

  /** `search` is the combined literal automaton: it answers with a literal that occurs, if any does. */
  datatype Phase<!S> = Phase(literals: seq<bytes>, search: bytes -> Option<nat>, dfa: Option<Dfa<S>>) {
    ghost predicate Valid() {
      && (forall n | 0 <= n < |literals| :: literals[n] != [])
      && (forall t :: search(t).Some? <==> AnyOccurs(literals, t))
      && (forall t :: search(t).Some? ==> search(t).value < |literals| && Occurs(literals[search(t).value], t))
    }
  }

  /** The automaton over a text, where regexes apply at all. */
  ghost function Regex<S>(p: Phase<S>, regexes: bool, text: bytes): Scan<S> {
    if regexes && p.dfa.Some? then Over(p.dfa.value, StartOf(p.dfa.value), text) else GaveUp
  }

  /** A text that stops the stream at once: a literal in it, or a match by its last byte. */
  ghost predicate Stops<S>(p: Phase<S>, regexes: bool, text: bytes) {
    AnyOccurs(p.literals, text) || Regex(p, regexes, text).Hit?
  }

  /** A whole body to block: a literal anywhere in it, or a match by a byte or by the end. */
  ghost predicate Blocks<S>(p: Phase<S>, regexes: bool, body: bytes) {
    || Stops(p, regexes, body)
    || (regexes && p.dfa.Some? && AtEnd(p.dfa.value, Regex(p, regexes, body)).Some?)
  }
}
