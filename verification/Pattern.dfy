/**
 Route patterns as the tree stores them.

 A pattern is a sequence of tokens: a literal byte, a parameter or a catch-all.
 Normalization gives every parameter a positional name, so a parameter token carries
 no name of its own; a catch-all keeps the name it was registered with.
 */
module Pattern {
  import opened Prelude

  type Name = bytes

  datatype Token = Lit(b: byte) | Param | Catch(name: Name)

  type Tokens = seq<Token>

  const SLASH_TOKEN := Lit(SLASH)

  /** Whether a token list is plain text. */
  predicate AllLit(p: Tokens) {
    forall i | 0 <= i < |p| :: p[i].Lit?
  }

  /** Position of the first wildcard, or the length of the pattern. */
  function FirstWild(p: Tokens): (w: nat)
    ensures w <= |p|
    ensures AllLit(p[..(w)])
    ensures w < |p| ==> !p[w].Lit?
  {
    if p == [] || !p[0].Lit? then 0 else 1 + FirstWild(p[1..])
  }

  predicate HasWild(p: Tokens) {
    FirstWild(p) < |p|
  }

  /** Position of the first '/', or the length of the pattern. */
  function SlashAt(p: Tokens): (t: nat)
    ensures t <= |p|
    ensures SLASH_TOKEN !in p[..(t)]
    ensures t < |p| ==> p[t] == SLASH_TOKEN
  {
    if p == [] || p[0] == SLASH_TOKEN then 0 else 1 + SlashAt(p[1..])
  }

  /** End of the current segment, its '/' included. */
  function Terminator(p: Tokens): (t: nat)
    ensures t <= |p|
    ensures p != [] ==> t > 0
    ensures t < |p| ==> p[t - 1] == SLASH_TOKEN
  {
    var s := SlashAt(p);
    if s < |p| then s + 1 else |p|
  }

  predicate EndsInSlash(p: Tokens) {
    |p| > 0 && p[|p| - 1] == SLASH_TOKEN
  }

  /** How many parameters a pattern holds, the catch-all not included. */
  function ParamCount(p: Tokens): nat {
    if p == [] then 0 else (if p[0].Param? then 1 else 0) + ParamCount(p[1..])
  }

  lemma {:induction false} ParamCountConcat(p: Tokens, q: Tokens)
    ensures ParamCount(p + q) == ParamCount(p) + ParamCount(q)
  {
    if p == [] {
      assert p + q == q;
    } else {
      assert (p + q)[1..] == p[1..] + q;
      ParamCountConcat(p[1..], q);
    }
  }

  lemma {:induction false} ParamCountLit(p: Tokens)
    requires AllLit(p)
    ensures ParamCount(p) == 0
  {
    if p != [] {
      ParamCountLit(p[1..]);
    }
  }

  /**
   Patterns the tree accepts on an empty table: a catch-all comes last, and a parameter
   is followed by plain text up to the end of its segment.
   */
  predicate Valid(p: Tokens)
    decreases |p|
  {
    if p == [] then true
    else match p[0]
      case Lit(_) => Valid(p[1..])
      case Catch(_) => |p| == 1
      case Param =>
        var t := Terminator(p[1..]);
        AllLit(p[1..][..t]) && Valid(p[1..][t..])
  }

  /** Every parameter is followed by '/' or by the end of the pattern. */
  predicate NoSuffix(p: Tokens) {
    forall i | 0 <= i < |p| && p[i].Param? :: i + 1 == |p| || p[i + 1] == SLASH_TOKEN
  }

  /** Every parameter fills a whole segment: it also follows a '/' or starts the pattern. */
  predicate WholeSegment(p: Tokens) {
    NoSuffix(p) && forall i | 0 < i < |p| && p[i].Param? :: p[i - 1] == SLASH_TOKEN
  }

  /** `p` is preferred to `q`: where they first differ, `p` goes on with a literal and `q` with a wildcard. */
  ghost predicate Prefers(p: Tokens, q: Tokens) {
    exists k :: PrefersAt(p, q, k)
  }

  ghost predicate PrefersAt(p: Tokens, q: Tokens, k: nat) {
    k < |p| && k < |q| && p[..k] == q[..k] && p[k].Lit? && !q[k].Lit?
  }

  lemma {:induction false} PrefersAsymmetric(p: Tokens, q: Tokens)
    requires Prefers(p, q)
    ensures p != q && !Prefers(q, p)
  {
    var k: nat :| PrefersAt(p, q, k);
    forall j: nat
      ensures !PrefersAt(q, p, j)
    {
      assert j < k ==> p[j] == p[..k][j] && q[j] == q[..k][j];
      assert k < j <= |p| && j <= |q| ==> p[k] == p[..j][k] && q[k] == q[..j][k];
    }
  }

  /** Prepending the same text keeps the preference. */
  lemma {:induction false} PrefersUnder(x: Tokens, p: Tokens, q: Tokens)
    requires Prefers(p, q)
    ensures Prefers(x + p, x + q)
  {
    var k: nat :| PrefersAt(p, q, k);
    assert (x + p)[..|x| + k] == x + p[..k];
    assert (x + q)[..|x| + k] == x + q[..k];
    assert PrefersAt(x + p, x + q, |x| + k);
  }

  /**
   `path` reads as `p` with `values` in place of its wildcards. A parameter value is a
   non-empty piece without '/'; a catch-all takes the whole non-empty rest.
   */
  predicate Fits(p: Tokens, path: bytes, values: seq<bytes>)
    decreases |p|
  {
    if p == [] then path == [] && values == []
    else match p[0]
      case Lit(b) => path != [] && path[0] == b && Fits(p[1..], path[1..], values)
      case Param =>
        && values != [] && values[0] != [] && SLASH !in values[0]
        && values[0] <= path
        && Fits(p[1..], path[|values[0]|..], values[1..])
      case Catch(_) => |p| == 1 && values == [path] && path != []
  }

  /** The text of `p` once its wildcards are replaced by `values`, taken in order. */
  function Fill(p: Tokens, values: seq<bytes>): bytes
    decreases |p|
  {
    if p == [] then []
    else if p[0].Lit? then [p[0].b] + Fill(p[1..], values)
    else if values == [] then []
    else values[0] + Fill(p[1..], values[1..])
  }

  function WildCount(p: Tokens): nat {
    if p == [] then 0 else (if p[0].Lit? then 0 else 1) + WildCount(p[1..])
  }

  /** What a fit means: the values put into the pattern give back the path. */
  lemma {:induction false} FitsMeansFilled(p: Tokens, path: bytes, values: seq<bytes>)
    requires Fits(p, path, values)
    ensures Fill(p, values) == path
    ensures |values| == WildCount(p)
    ensures forall i | 0 <= i < |values| :: values[i] != []
    ensures ParamCount(p) <= |values|
    ensures forall i | 0 <= i < ParamCount(p) :: SLASH !in values[i]
    decreases |p|
  {
    if p != [] {
      match p[0]
      case Lit(b) =>
        FitsMeansFilled(p[1..], path[1..], values);
        assert path == [b] + path[1..];
      case Param =>
        FitsMeansFilled(p[1..], path[|values[0]|..], values[1..]);
        assert path == values[0] + path[|values[0]|..];
        forall i | 0 <= i < |values| ensures values[i] != [] && (i < ParamCount(p) ==> SLASH !in values[i]) {
          if i > 0 { assert values[i] == values[1..][i - 1]; }
        }
      case Catch(_) =>
        assert Fill(p, values) == path + Fill(p[1..], values[1..]);
    }
  }

  /** A literal text is read byte by byte. */
  predicate Spells(p: Tokens, path: bytes) {
    |p| <= |path| && forall i | 0 <= i < |p| :: p[i] == Lit(path[i])
  }

  lemma {:induction false} FitsLiteral(p: Tokens, q: Tokens, path: bytes, values: seq<bytes>)
    requires AllLit(p)
    ensures Fits(p + q, path, values) <==> Spells(p, path) && Fits(q, path[|p|..], values)
    decreases |p|
  {
    if p == [] {
      assert p + q == q;
      assert path[0..] == path;
    } else {
      assert (p + q)[1..] == p[1..] + q;
      assert (p + q)[0] == p[0];
      if path != [] {
        FitsLiteral(p[1..], q, path[1..], values);
        if |p| <= |path| {
          assert path[1..][|p[1..]|..] == path[|p|..];
          assert Spells(p, path) <==> path[0] == p[0].b && Spells(p[1..], path[1..]) by {
            if path[0] == p[0].b && Spells(p[1..], path[1..]) {
              forall i | 0 <= i < |p| ensures p[i] == Lit(path[i]) {
                if i > 0 { assert p[1..][i - 1] == Lit(path[1..][i - 1]); }
              }
            }
          }
        }
      }
    }
  }

  /** In a valid pattern only the last token can be a catch-all. */
  lemma {:induction false} CatchIsLast(q: Tokens, k: nat)
    requires Valid(q) && k < |q| && q[k].Catch?
    ensures k == |q| - 1
    decreases |q|
  {
    match q[0]
    case Lit(_) => CatchIsLast(q[1..], k - 1);
    case Catch(_) =>
    case Param =>
      var rest := q[1..];
      var t := Terminator(rest);
      assert AllLit(rest[..t]) && Valid(rest[t..]);
      hide Valid, Terminator, AllLit;
      if k - 1 < t { LitAt(rest[..t], k - 1); }
      CatchIsLast(rest[t..], k - 1 - t);
  }

  lemma {:induction false} LitAt(p: Tokens, i: nat)
    requires AllLit(p) && i < |p|
    ensures p[i].Lit?
  {
  }
}
