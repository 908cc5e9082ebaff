/** Path rewrite rules and the rule that applies to a path. */
module RewriteRules {
  import opened Prelude
  import opened FlatTries

  datatype Kind = Exact | Prefix | Suffix | Regex

  const KINDS: set<Kind> := {Exact, Prefix, Suffix, Regex}

  /** A rule; its number is its place in the list. */
  datatype RewriteRule = RewriteRule(kind: Kind, text: bytes, to: bytes)

  const STAR: byte := 42

  /** The characters that make a pattern a regular expression: ^ $ [ ] ( ) + ? | \ * { } */
  const META: set<byte> := {94, 36, 91, 93, 40, 41, 43, 63, 124, 92, 42, 123, 125}

  predicate IsPlainPath(text: bytes) {
    forall i | 0 <= i < |text| :: text[i] !in META
  }

  function Classify(from: bytes, to: bytes): RewriteRule {
    if from != [] && from[|from| - 1] == STAR then RewriteRule(Prefix, from[..|from| - 1], to)
    else if from != [] && from[0] == STAR then RewriteRule(Suffix, from[1..], to)
    else if IsPlainPath(from) then RewriteRule(Exact, from, to)
    else RewriteRule(Regex, from, to)
  }

  /**
   The regular expressions of the host language: which compile, which sets compile, what they match
   and how they replace.
   */
  datatype RegexLib = RegexLib(
    valid: bytes -> bool,
    fits: seq<bytes> -> bool,
    matches: (bytes, bytes) -> bool,
    replace: (bytes, bytes, bytes) -> bytes
  )

  predicate Matches(lib: RegexLib, r: RewriteRule, path: bytes) {
    match r.kind
    case Exact => path == r.text
    case Prefix => r.text <= path
    case Suffix => EndsWith(path, r.text)
    case Regex => lib.matches(r.text, path)
  }

  /** The path a matching rule makes of it. */
  function Rewritten(lib: RegexLib, r: RewriteRule, path: bytes): bytes
    requires Matches(lib, r, path)
  {
    match r.kind
    case Exact => r.to
    case Prefix => r.to + path[|r.text|..]
    case Suffix => path[..|path| - |r.text|] + r.to
    case Regex => lib.replace(r.text, path, r.to)
  }

  /** An exact rule is replaced by a later one for the same path. */
  ghost predicate Live(rules: seq<RewriteRule>, i: nat)
    requires i < |rules|
  {
    rules[i].kind.Exact? ==> forall j | i < j < |rules| :: !(rules[j].kind.Exact? && rules[j].text == rules[i].text)
  }

  ghost predicate Candidate(lib: RegexLib, rules: seq<RewriteRule>, path: bytes, i: nat)
    requires i < |rules|
  {
    Live(rules, i) && Matches(lib, rules[i], path)
  }

  /** The lowest-numbered live rule of these kinds that matches. */
  ghost predicate Picks(lib: RegexLib, rules: seq<RewriteRule>, path: bytes, kinds: set<Kind>, r: Option<nat>) {
    match r
    case None => forall i | 0 <= i < |rules| && rules[i].kind in kinds :: !Candidate(lib, rules, path, i)
    case Some(n) =>
      && n < |rules| && rules[n].kind in kinds && Candidate(lib, rules, path, n)
      && forall i | 0 <= i < n && rules[i].kind in kinds :: !Candidate(lib, rules, path, i)
  }

  ghost function ChosenFrom(lib: RegexLib, rules: seq<RewriteRule>, path: bytes, i: nat): (r: Option<nat>)
    requires i <= |rules| && forall j | 0 <= j < i :: !Candidate(lib, rules, path, j)
    ensures Picks(lib, rules, path, KINDS, r)
    decreases |rules| - i
  {
    if i == |rules| then None
    else if Candidate(lib, rules, path, i) then Some(i)
    else ChosenFrom(lib, rules, path, i + 1)
  }

  /** The number of the rule that applies. */
  ghost function Chosen(lib: RegexLib, rules: seq<RewriteRule>, path: bytes): (r: Option<nat>)
    ensures Picks(lib, rules, path, KINDS, r)
  {
    ChosenFrom(lib, rules, path, 0)
  }

  ghost function Outcome(lib: RegexLib, rules: seq<RewriteRule>, path: bytes): bytes {
    match Chosen(lib, rules, path) case None => path case Some(i) => Rewritten(lib, rules[i], path)
  }

  lemma {:induction false} AnyKind(k: Kind)
    ensures k in KINDS
  {
    match k case Exact => case Prefix => case Suffix => case Regex =>
  }

  lemma {:induction false} PickIsChosen(lib: RegexLib, rules: seq<RewriteRule>, path: bytes, r: Option<nat>)
    requires Picks(lib, rules, path, KINDS, r)
    ensures r == Chosen(lib, rules, path)
  {
    var c := Chosen(lib, rules, path);
    forall i | 0 <= i < |rules| ensures rules[i].kind in KINDS { AnyKind(rules[i].kind); }
    if r.Some? && c.Some? {
      assert !(r.value < c.value) && !(c.value < r.value);
    }
  }

  function Lower(a: Option<nat>, b: Option<nat>): Option<nat> {
    if a.None? then b else if b.None? || a.value <= b.value then a else b
  }

  lemma {:induction false} PickEither(
    lib: RegexLib, rules: seq<RewriteRule>, path: bytes, a: set<Kind>, b: set<Kind>, x: Option<nat>, y: Option<nat>)
    requires Picks(lib, rules, path, a, x) && Picks(lib, rules, path, b, y)
    ensures Picks(lib, rules, path, a + b, Lower(x, y))
  {
    hide Candidate;
  }

  /** Rules numbered above the pick so far need not be looked at. */
  lemma {:induction false} PickSkips(
    lib: RegexLib, rules: seq<RewriteRule>, path: bytes, a: set<Kind>, k: Kind, x: Option<nat>, least: nat)
    requires Picks(lib, rules, path, a, x)
    requires forall i | 0 <= i < |rules| && rules[i].kind == k :: i >= least
    requires if x.Some? then x.value <= least else |rules| <= least
    ensures Picks(lib, rules, path, a + {k}, x)
  {
    hide Candidate;
  }

  // ----- Lowest-numbered rule -----

  /** The lowest-numbered rule that matches, replaced or not. */
  ghost predicate Lowest(lib: RegexLib, rules: seq<RewriteRule>, path: bytes, r: Option<nat>) {
    match r
    case None => forall i | 0 <= i < |rules| :: !Matches(lib, rules[i], path)
    case Some(n) =>
      && n < |rules| && Matches(lib, rules[n], path)
      && forall i | 0 <= i < n :: !Matches(lib, rules[i], path)
  }

  /**
   The engine applies the lowest-numbered matching rule, except where that is an exact rule replaced
   by a later one.
   */
  lemma {:induction false} ChosenIsLowestIff(lib: RegexLib, rules: seq<RewriteRule>, path: bytes, r: Option<nat>)
    requires Lowest(lib, rules, path, r)
    ensures Chosen(lib, rules, path) == r <==> r.None? || Live(rules, r.value)
  {
    forall i | 0 <= i < |rules| ensures rules[i].kind in KINDS { AnyKind(rules[i].kind); }
    if r.None? || Live(rules, r.value) {
      PickIsChosen(lib, rules, path, r);
    }
  }

  /** With distinct exact patterns it always does. */
  lemma {:induction false} DistinctExactIsLowest(lib: RegexLib, rules: seq<RewriteRule>, path: bytes, r: Option<nat>)
    requires Lowest(lib, rules, path, r)
    requires forall i, j | 0 <= i < j < |rules| && rules[i].kind.Exact? && rules[j].kind.Exact? ::
               rules[i].text != rules[j].text
    ensures Chosen(lib, rules, path) == r
  {
    ChosenIsLowestIff(lib, rules, path, r);
  }

  /**
   Two exact rules for one path around a prefix rule: the prefix rule applies, although the first
   exact rule is lower.
   */
  lemma {:induction false} ReplacedExactExample(lib: RegexLib, p: bytes, x: bytes, y: bytes, z: bytes)
    requires p != []
    ensures var rules := [RewriteRule(Exact, p, x), RewriteRule(Prefix, [], y), RewriteRule(Exact, p, z)];
            Lowest(lib, rules, p, Some(0)) && Chosen(lib, rules, p) == Some(1)
  {
    var rules := [RewriteRule(Exact, p, x), RewriteRule(Prefix, [], y), RewriteRule(Exact, p, z)];
    assert rules[2].kind.Exact? && rules[2].text == rules[0].text;
    assert !Live(rules, 0);
    assert Picks(lib, rules, p, KINDS, Some(1));
    PickIsChosen(lib, rules, p, Some(1));
  }

  /** A short prefix before a longer one: on a path that starts with both, the short one applies. */
  lemma {:induction false} EarlierPrefixExample(lib: RegexLib, p: bytes, more: bytes, rest: bytes, x: bytes, y: bytes)
    requires more != []
    ensures var rules := [RewriteRule(Prefix, p, x), RewriteRule(Prefix, p + more, y)];
            var path := p + more + rest;
            Matches(lib, rules[1], path) && Chosen(lib, rules, path) == Some(0)
  {
    var rules := [RewriteRule(Prefix, p, x), RewriteRule(Prefix, p + more, y)];
    var path := p + more + rest;
    assert path[..|p|] == p && path[..|p + more|] == p + more;
    assert Lowest(lib, rules, path, Some(0));
    ChosenIsLowestIff(lib, rules, path, Some(0));
  }

  // ----- The tables an engine keeps -----

  function Reversed(s: bytes): (r: bytes)
    ensures |r| == |s| && forall i | 0 <= i < |s| :: r[i] == s[|s| - 1 - i]
  {
    seq(|s|, i requires 0 <= i < |s| => s[|s| - 1 - i])
  }

  /** A suffix rule is stored backwards. */
  function KeyOf(r: RewriteRule): bytes {
    if r.kind.Suffix? then Reversed(r.text) else r.text
  }

  function TextFor(k: Kind, path: bytes): bytes {
    if k.Suffix? then Reversed(path) else path
  }

  ghost function Keys(rules: seq<RewriteRule>, k: Kind): seq<Entry> {
    if rules == [] then []
    else
      var n := |rules| - 1;
      Keys(rules[..n], k) + if rules[n].kind == k then [Entry(KeyOf(rules[n]), n, rules[n].to)] else []
  }

  /** The table lists the rules of its kind, in order, each under its number. */
  lemma {:induction false} KeysList(rules: seq<RewriteRule>, k: Kind)
    ensures Increasing(Keys(rules, k))
    ensures forall x | 0 <= x < |Keys(rules, k)| :: Keys(rules, k)[x].priority < |rules|
              && var e := Keys(rules, k)[x];
                 && rules[e.priority].kind == k && e.key == KeyOf(rules[e.priority])
                 && e.to == rules[e.priority].to
    ensures forall i | 0 <= i < |rules| && rules[i].kind == k ::
              exists x | 0 <= x < |Keys(rules, k)| :: Keys(rules, k)[x].priority == i
  {
    if rules != [] {
      var n := |rules| - 1;
      var init := rules[..n];
      KeysList(init, k);
      var before, all := Keys(init, k), Keys(rules, k);
      assert before <= all;
      forall i | 0 <= i < |rules| && rules[i].kind == k ensures exists x | 0 <= x < |all| :: all[x].priority == i {
        if i < n {
          assert init[i] == rules[i];
          var x :| 0 <= x < |before| && before[x].priority == i;
          assert all[x].priority == i;
        } else {
          assert all[|all| - 1].priority == n;
        }
      }
    }
  }

  lemma {:induction false} BackwardsPrefix(text: bytes, path: bytes)
    ensures Reversed(text) <= Reversed(path) <==> EndsWith(path, text)
  {
    var a, b := Reversed(text), Reversed(path);
    if |text| <= |path| {
      if a <= b {
        forall i | 0 <= i < |text| ensures path[|path| - |text| + i] == text[i] {
          assert a[|text| - 1 - i] == b[|text| - 1 - i];
        }
      }
      if EndsWith(path, text) {
        forall i | 0 <= i < |text| ensures a[i] == b[i] {
          assert path[|path| - |text|..][|text| - 1 - i] == text[|text| - 1 - i];
        }
      }
    }
  }

  /** What the search in a table means: the first entry whose key starts the text. */
  lemma {:induction false} EarliestMeans(history: seq<Entry>, text: bytes)
    ensures Earliest(history, text).None? ==> forall x | 0 <= x < |history| :: !(history[x].key <= text)
    ensures Earliest(history, text).Some? ==>
            exists x | 0 <= x < |history| :: FoundAt(history, text, x, Earliest(history, text).value)
  {
    EarliestIn(history, text, |text|);
  }

  ghost predicate FoundAt(history: seq<Entry>, text: bytes, x: nat, f: Found)
    requires x < |history|
  {
    && history[x].key <= text && f == Found(|history[x].key|, history[x].to, history[x].priority)
    && forall y | 0 <= y < x :: !(history[y].key <= text)
  }

  lemma {:induction false} EarliestIn(history: seq<Entry>, text: bytes, n: nat)
    requires n == |text|
    ensures EarliestUpTo(history, text, n).None? ==> forall x | 0 <= x < |history| :: !(history[x].key <= text)
    ensures EarliestUpTo(history, text, n).Some? ==>
            exists x | 0 <= x < |history| :: FoundAt(history, text, x, EarliestUpTo(history, text, n).value)
  {
    if history != [] {
      var rest := history[1..];
      EarliestIn(rest, text, n);
      assert forall x | 0 < x < |history| :: history[x] == rest[x - 1];
      if history[0].key <= text {
        var f := Found(|history[0].key|, history[0].to, history[0].priority);
        assert EarliestUpTo(history, text, n) == Some(f);
        assert FoundAt(history, text, 0, f);
      } else if EarliestUpTo(rest, text, n).Some? {
        var f := EarliestUpTo(rest, text, n).value;
        assert EarliestUpTo(history, text, n) == Some(f);
        var x :| 0 <= x < |rest| && FoundAt(rest, text, x, f);
        assert FoundAt(history, text, x + 1, f);
      }
    }
  }

  /** Searching a trie table picks the lowest-numbered matching rule of its kind. */
  lemma {:induction false} TriePicks(lib: RegexLib, rules: seq<RewriteRule>, k: Kind, path: bytes)
    requires k.Prefix? || k.Suffix?
    ensures match Earliest(Keys(rules, k), TextFor(k, path))
            case None => Picks(lib, rules, path, {k}, None)
            case Some(f) =>
              && Picks(lib, rules, path, {k}, Some(f.priority))
              && rules[f.priority].to == f.to && |rules[f.priority].text| == f.len
  {
    hide Candidate, Keys, Earliest, Picks;
    var history, text := Keys(rules, k), TextFor(k, path);
    EarliestMeans(history, text);
    match Earliest(history, text) {
      case None => NoneInTable(lib, rules, k, path);
      case Some(f) =>
        var x :| 0 <= x < |history| && FoundAt(history, text, x, f);
        FoundInTable(lib, rules, k, path, x, f);
    }
  }

  lemma {:induction false} CandidateByKey(lib: RegexLib, rules: seq<RewriteRule>, k: Kind, path: bytes, i: nat)
    requires (k.Prefix? || k.Suffix?) && i < |rules| && rules[i].kind == k
    ensures Candidate(lib, rules, path, i) <==> KeyOf(rules[i]) <= TextFor(k, path)
  {
    if k.Suffix? {
      BackwardsPrefix(rules[i].text, path);
    }
  }

  lemma {:induction false} NoneInTable(lib: RegexLib, rules: seq<RewriteRule>, k: Kind, path: bytes)
    requires (k.Prefix? || k.Suffix?) &&
             forall x | 0 <= x < |Keys(rules, k)| :: !(Keys(rules, k)[x].key <= TextFor(k, path))
    ensures Picks(lib, rules, path, {k}, None)
  {
    hide Candidate, Keys, KeyOf, TextFor;
    KeysList(rules, k);
    forall i | 0 <= i < |rules| && rules[i].kind in {k} ensures !Candidate(lib, rules, path, i) {
      CandidateByKey(lib, rules, k, path, i);
      var x :| 0 <= x < |Keys(rules, k)| && Keys(rules, k)[x].priority == i;
      assert Keys(rules, k)[x].key == KeyOf(rules[i]);
    }
  }

  lemma {:induction false} KeyLen(r: RewriteRule)
    ensures |KeyOf(r)| == |r.text|
  {
  }

  lemma {:induction false} InOrder(history: seq<Entry>, x: nat, y: nat)
    requires Increasing(history) && x < |history| && y < |history| && history[y].priority < history[x].priority
    ensures y < x
  {
  }

  lemma {:induction false} FoundInTable(lib: RegexLib, rules: seq<RewriteRule>, k: Kind, path: bytes, x: nat, f: Found)
    requires (k.Prefix? || k.Suffix?) && x < |Keys(rules, k)| && FoundAt(Keys(rules, k), TextFor(k, path), x, f)
    ensures Picks(lib, rules, path, {k}, Some(f.priority))
    ensures rules[f.priority].to == f.to && |rules[f.priority].text| == f.len
  {
    hide Candidate, Keys, KeyOf, TextFor, Increasing;
    var history := Keys(rules, k);
    KeysList(rules, k);
    KeyLen(rules[f.priority]);
    CandidateByKey(lib, rules, k, path, f.priority);
    forall i | 0 <= i < f.priority && rules[i].kind in {k} ensures !Candidate(lib, rules, path, i) {
      CandidateByKey(lib, rules, k, path, i);
      var y :| 0 <= y < |history| && history[y].priority == i;
      InOrder(history, x, y);
      assert history[y].key == KeyOf(rules[i]);
    }
  }
}
