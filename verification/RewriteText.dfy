/** Rewriting keeps text well formed, although the tries compare single bytes. */
module RewriteText {
  import opened Prelude
  import opened RewriteRules
  import opened Utf8

  ghost predicate TextRule(r: RewriteRule) {
    Valid(r.text) && Valid(r.to)
  }

  /** A rule read from well-formed text is well formed. */
  lemma {:induction false} ClassifiedText(from: bytes, to: bytes)
    requires Valid(from) && Valid(to)
    ensures TextRule(Classify(from, to))
  {
    if from != [] {
      CutAscii(from);
    }
  }

  /** Where a prefix or suffix rule cuts the path. */
  function Cut(r: RewriteRule, path: bytes): nat
    requires (r.kind.Prefix? && r.text <= path) || (r.kind.Suffix? && EndsWith(path, r.text))
  {
    if r.kind.Prefix? then |r.text| else |path| - |r.text|
  }

  /** Every cut falls on a character boundary, and what it leaves is well formed. */
  lemma {:induction false} CutsOnBoundary(r: RewriteRule, path: bytes)
    requires Valid(r.text) && Valid(path)
    requires (r.kind.Prefix? && r.text <= path) || (r.kind.Suffix? && EndsWith(path, r.text))
    ensures IsBoundary(path, Cut(r, path))
    ensures r.kind.Prefix? ==> Valid(path[Cut(r, path)..])
    ensures r.kind.Suffix? ==> Valid(path[..Cut(r, path)])
  {
    var n := Cut(r, path);
    assert path == path[..n] + path[n..];
    if r.kind.Prefix? {
      assert path[..n] == r.text;
      CutFront(path[..n], path[n..]);
    } else {
      assert path[n..] == r.text;
      CutBack(path[..n], path[n..]);
    }
  }

  lemma {:induction false} RewrittenText(lib: RegexLib, r: RewriteRule, path: bytes)
    requires TextRule(r) && Valid(path) && Matches(lib, r, path)
    requires r.kind.Regex? ==> Valid(lib.replace(r.text, path, r.to))
    ensures Valid(Rewritten(lib, r, path))
  {
    if r.kind.Prefix? {
      CutsOnBoundary(r, path);
      ValidConcat(r.to, path[|r.text|..]);
    } else if r.kind.Suffix? {
      CutsOnBoundary(r, path);
      ValidConcat(path[..|path| - |r.text|], r.to);
    }
  }

  /** The engine's answer to well-formed text is well formed, if its regexes' answers are. */
  lemma {:induction false} OutcomeText(lib: RegexLib, rules: seq<RewriteRule>, path: bytes)
    requires Valid(path) && forall i | 0 <= i < |rules| :: TextRule(rules[i])
    requires forall i | 0 <= i < |rules| && rules[i].kind.Regex? :: Valid(lib.replace(rules[i].text, path, rules[i].to))
    ensures Valid(Outcome(lib, rules, path))
  {
    var c := Chosen(lib, rules, path);
    if c.Some? {
      RewrittenText(lib, rules[c.value], path);
    }
  }
}
