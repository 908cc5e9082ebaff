/** What a configuration of rewrite rules makes of a path, told from the rules as they are written. */
module RewriteMeaning {
  import opened Prelude
  import opened RewriteRules
  import opened RewriteEngines

  /** A setting of the engine: text to strip from one end, or a rule with its pattern as written. */
  datatype Written = StripPrefix(text: bytes) | StripSuffix(text: bytes) | Swap(from: bytes, to: bytes)

  function Strip(w: Written): seq<Written>
    requires !w.Swap?
  {
    if w.text == [] then [] else [w]
  }

  /** The settings in order of precedence. */
  function Config(raw: seq<(bytes, bytes)>, prefix: Option<bytes>, suffix: Option<bytes>): seq<Written> {
    (if prefix.Some? then Strip(StripPrefix(prefix.value)) else []) +
    (if suffix.Some? then Strip(StripSuffix(suffix.value)) else []) +
    seq(|raw|, i requires 0 <= i < |raw| => Swap(raw[i].0, raw[i].1))
  }

  ghost predicate SwapsFront(p: bytes, to: bytes, path: bytes, out: bytes) {
    exists rest :: path == p + rest && out == to + rest
  }

  ghost predicate SwapsEnd(s: bytes, to: bytes, path: bytes, out: bytes) {
    exists front :: path == front + s && out == front + to
  }

  predicate Special(b: byte) {
    (b as int) as char in "^$[]()+?|\\*{}"
  }

  /** The pattern has none of the characters that make it a regular expression. */
  predicate Ordinary(from: bytes) {
    forall b | b in from :: !Special(b)
  }

  /**
   The setting turns `path` into `out`. `p*` swaps the text at the front, `*s` the text at the end, an
   ordinary text the whole path; anything else is for the regular expressions.
   */
  ghost predicate Turns(lib: RegexLib, w: Written, path: bytes, out: bytes) {
    match w
    case StripPrefix(p) => path == p + out
    case StripSuffix(s) => path == out + s
    case Swap(from, to) =>
      if exists p :: from == p + [STAR] then
        exists p :: from == p + [STAR] && SwapsFront(p, to, path, out)
      else if exists s :: from == [STAR] + s then
        exists s :: from == [STAR] + s && SwapsEnd(s, to, path, out)
      else if Ordinary(from) then path == from && out == to
      else lib.matches(from, path) && out == lib.replace(from, path, to)
  }

  /** A rule for one path that a later rule for the same path replaces. */
  ghost predicate Replaced(ws: seq<Written>, i: nat)
    requires i < |ws|
  {
    && ws[i].Swap? && Ordinary(ws[i].from)
    && exists j | i < j < |ws| :: ws[j].Swap? && ws[j].from == ws[i].from
  }

  /** `out` comes from setting `k`, the first that applies and is not replaced; the path stays if none applies. */
  ghost predicate Answers(lib: RegexLib, ws: seq<Written>, path: bytes, k: Option<nat>, out: bytes) {
    match k
    case None => out == path && forall j, o | 0 <= j < |ws| :: !Turns(lib, ws[j], path, o)
    case Some(n) =>
      && n < |ws| && !Replaced(ws, n) && Turns(lib, ws[n], path, out)
      && forall j, o | 0 <= j < n && Turns(lib, ws[j], path, o) :: Replaced(ws, j)
  }

  // ----- One rule -----

  lemma {:induction false} MetaByte(b: byte)
    ensures b in META <==> Special(b)
  {
    var c := (b as int) as char;
    var all := "^$[]()+?|\\*{}";
    assert all == ['^', '$', '[', ']', '(', ')', '+', '?', '|', '\\', '*', '{', '}'];
    if c in all {
      var i :| 0 <= i < |all| && all[i] == c;
    }
  }

  lemma {:induction false} OrdinaryIsPlain(from: bytes)
    ensures IsPlainPath(from) <==> Ordinary(from)
  {
    hide Special;
    forall b: byte ensures b in META <==> Special(b) {
      MetaByte(b);
    }
  }

  /** The forms of a pattern by its ends. */
  lemma {:induction false} Forms(from: bytes)
    ensures (exists p :: from == p + [STAR]) <==> from != [] && from[|from| - 1] == STAR
    ensures (exists s :: from == [STAR] + s) <==> from != [] && from[0] == STAR
  {
    if from != [] {
      var n := |from| - 1;
      if from[n] == STAR { assert from == from[..n] + [STAR]; }
      if from[0] == STAR { assert from == [STAR] + from[1..]; }
    }
  }

  ghost function RuleOf(w: Written): RewriteRule {
    match w
    case StripPrefix(p) => RewriteRule(Prefix, p, [])
    case StripSuffix(s) => RewriteRule(Suffix, s, [])
    case Swap(from, to) => Classify(from, to)
  }

  /** The rule matches exactly the paths its setting turns into something, and makes exactly that of them. */
  lemma {:induction false} RuleTurns(lib: RegexLib, w: Written, path: bytes, out: bytes)
    ensures Turns(lib, w, path, out) <==>
            Matches(lib, RuleOf(w), path) && out == Rewritten(lib, RuleOf(w), path)
  {
    match w
    case StripPrefix(p) =>
      FrontTurns(p, [], path, out);
    case StripSuffix(s) =>
      EndTurns(s, [], path, out);
    case Swap(from, to) =>
      Forms(from);
      OrdinaryIsPlain(from);
      if from != [] && from[|from| - 1] == STAR {
        var p := from[..|from| - 1];
        assert from == p + [STAR];
        FrontTurns(p, to, path, out);
      } else if from != [] && from[0] == STAR {
        assert from == [STAR] + from[1..];
        EndTurns(from[1..], to, path, out);
      }
  }

  lemma {:induction false} FrontTurns(p: bytes, to: bytes, path: bytes, out: bytes)
    ensures SwapsFront(p, to, path, out) <==> p <= path && out == to + path[|p|..]
    ensures path == p + out <==> p <= path && out == [] + path[|p|..]
  {
    if p <= path {
      assert path == p + path[|p|..];
    }
  }

  lemma {:induction false} EndTurns(s: bytes, to: bytes, path: bytes, out: bytes)
    ensures SwapsEnd(s, to, path, out) <==> EndsWith(path, s) && out == path[..|path| - |s|] + to
    ensures path == out + s <==> EndsWith(path, s) && out == path[..|path| - |s|] + []
  {
    if EndsWith(path, s) {
      assert path == path[..|path| - |s|] + s;
    }
  }

  lemma {:induction false} MatchTurns(lib: RegexLib, w: Written, path: bytes)
    ensures Matches(lib, RuleOf(w), path) <==> exists out :: Turns(lib, w, path, out)
  {
    hide Matches, Rewritten, Turns;
    if Matches(lib, RuleOf(w), path) {
      RuleTurns(lib, w, path, Rewritten(lib, RuleOf(w), path));
    }
    if out :| Turns(lib, w, path, out) {
      RuleTurns(lib, w, path, out);
    }
  }

  // ----- All the rules -----

  lemma {:induction false} ConfigRules(raw: seq<(bytes, bytes)>, prefix: Option<bytes>, suffix: Option<bytes>)
    ensures var rules, ws := AllRules(raw, prefix, suffix), Config(raw, prefix, suffix);
            |rules| == |ws| && forall i | 0 <= i < |ws| :: rules[i] == RuleOf(ws[i])
  {
    hide Classify;
  }

  lemma {:induction false} LiveUnlessReplaced(ws: seq<Written>, rules: seq<RewriteRule>, i: nat)
    requires |rules| == |ws| && i < |ws| && forall j | 0 <= j < |ws| :: rules[j] == RuleOf(ws[j])
    ensures Live(rules, i) <==> !Replaced(ws, i)
  {
    forall j | 0 <= j < |ws| ensures rules[j].kind.Exact? <==> ws[j].Swap? && Ordinary(ws[j].from)
    {
      if ws[j].Swap? {
        OrdinaryIsPlain(ws[j].from);
      }
    }
    forall j | 0 <= j < |ws| && rules[j].kind.Exact? ensures rules[j].text == ws[j].from { }
  }

  /** The answer of the engine's rules is the answer of the settings. */
  lemma {:induction false} OutcomeAnswers(
    lib: RegexLib, ws: seq<Written>, rules: seq<RewriteRule>, path: bytes)
    requires |rules| == |ws| && forall j | 0 <= j < |ws| :: rules[j] == RuleOf(ws[j])
    ensures Answers(lib, ws, path, Chosen(lib, rules, path), Outcome(lib, rules, path))
  {
    hide Turns, Matches, Rewritten, Replaced, RuleOf, Live, Chosen;
    var k := Chosen(lib, rules, path);
    forall i | 0 <= i < |ws|
      ensures rules[i].kind in KINDS
      ensures Candidate(lib, rules, path, i) <==> !Replaced(ws, i) && exists o :: Turns(lib, ws[i], path, o)
    {
      AnyKind(rules[i].kind);
      LiveUnlessReplaced(ws, rules, i);
      MatchTurns(lib, ws[i], path);
    }
    match k
    case Some(n) =>
      RuleTurns(lib, ws[n], path, Outcome(lib, rules, path));
    case None =>
      forall j, o | 0 <= j < |ws| ensures !Turns(lib, ws[j], path, o) {
        if Turns(lib, ws[j], path, o) {
          LastReplacement(lib, ws, path, j, o);
        }
      }
  }

  /** Of the rules for one path, the last is not replaced. */
  lemma {:induction false} LastReplacement(lib: RegexLib, ws: seq<Written>, path: bytes, i: nat, o: bytes)
    requires i < |ws| && Turns(lib, ws[i], path, o)
    ensures exists j, o' | 0 <= j < |ws| :: !Replaced(ws, j) && Turns(lib, ws[j], path, o')
    decreases |ws| - i
  {
    if Replaced(ws, i) {
      var j :| i < j < |ws| && ws[j].Swap? && ws[j].from == ws[i].from;
      OrdinaryTurns(lib, ws[i], path, o);
      OrdinaryTurns(lib, ws[j], path, ws[j].to);
      LastReplacement(lib, ws, path, j, ws[j].to);
    }
  }

  lemma {:induction false} OrdinaryTurns(lib: RegexLib, w: Written, path: bytes, o: bytes)
    requires w.Swap? && Ordinary(w.from)
    ensures Turns(lib, w, path, o) <==> path == w.from && o == w.to
  {
    Forms(w.from);
    assert STAR !in w.from;
  }

  /** The settings leave one answer only. */
  lemma {:induction false} OneAnswer(
    lib: RegexLib, ws: seq<Written>, path: bytes, k: Option<nat>, out: bytes, k': Option<nat>, out': bytes)
    requires Answers(lib, ws, path, k, out) && Answers(lib, ws, path, k', out')
    ensures k == k' && out == out'
  {
    hide Turns, Replaced;
    if k.Some? && k'.Some? {
      assert !(k.value < k'.value) && !(k'.value < k.value);
      RuleTurns(lib, ws[k.value], path, out);
      RuleTurns(lib, ws[k.value], path, out');
    }
  }

  /** The rule that applies swaps its text and keeps the rest of the path. */
  lemma {:induction false} RestStays(lib: RegexLib, rules: seq<RewriteRule>, i: nat, rest: bytes)
    requires i < |rules|
    ensures var r := rules[i];
            && (r.kind.Prefix? && Chosen(lib, rules, r.text + rest) == Some(i) ==>
                  Outcome(lib, rules, r.text + rest) == r.to + rest)
            && (r.kind.Suffix? && Chosen(lib, rules, rest + r.text) == Some(i) ==>
                  Outcome(lib, rules, rest + r.text) == rest + r.to)
            && (r.kind.Exact? && Chosen(lib, rules, r.text) == Some(i) ==> Outcome(lib, rules, r.text) == r.to)
            && (Chosen(lib, rules, rest) == None ==> Outcome(lib, rules, rest) == rest)
  {
    var r := rules[i];
    assert (r.text + rest)[|r.text|..] == rest;
    assert (rest + r.text)[..|rest + r.text| - |r.text|] == rest;
  }

  // ----- The closing slash -----

  /** `now` is `was` with at most the one closing slash changed that the policy asks for. */
  predicate Slashed(policy: SlashPolicy, was: bytes, now: bytes) {
    match policy
    case Ignore => now == was
    case Always => EndsWith(now, [SLASH]) && (now == was || now == was + [SLASH])
                   && (EndsWith(was, [SLASH]) ==> now == was)
    case Never => (now == was || was == now + [SLASH])
                  && (now == was <==> was == [SLASH] || !EndsWith(was, [SLASH]))
  }

  /**
   The answer of the engine, whichever way it is asked: the settings alone decide it, up to the slash
   policy; the empty path stays as it is.
   */
  lemma {:induction false} AppliedAnswers(
    lib: RegexLib, policy: SlashPolicy, raw: seq<(bytes, bytes)>, prefix: Option<bytes>, suffix: Option<bytes>,
    path: bytes, out: bytes)
    ensures out == Applied(lib, policy, AllRules(raw, prefix, suffix), path) <==>
            if path == [] then out == []
            else exists k, mid :: Answers(lib, Config(raw, prefix, suffix), path, k, mid) && Slashed(policy, mid, out)
  {
    hide Answers, Outcome, Chosen, AllRules, Config;
    var rules, ws := AllRules(raw, prefix, suffix), Config(raw, prefix, suffix);
    ConfigRules(raw, prefix, suffix);
    OutcomeAnswers(lib, ws, rules, path);
    var mid := Outcome(lib, rules, path);
    assert Slashed(policy, mid, TrailingSlash(policy, mid));
    if k', mid' :| Answers(lib, ws, path, k', mid') && Slashed(policy, mid', out) {
      OneAnswer(lib, ws, path, k', mid', Chosen(lib, rules, path), mid);
      assert out == TrailingSlash(policy, mid);
    }
  }

  /** Under `Always` every answer but that to the empty path ends in a slash. */
  lemma {:induction false} AlwaysEndsInSlash(lib: RegexLib, rules: seq<RewriteRule>, path: bytes)
    ensures EndsWith(Applied(lib, Always, rules, path), [SLASH]) <==> path != []
  {
  }

  /** Under `Never` one slash is taken: an answer ends in one exactly if it is the root or ended in two. */
  lemma {:induction false} NeverEndsInSlashIff(lib: RegexLib, rules: seq<RewriteRule>, path: bytes)
    ensures EndsWith(Applied(lib, Never, rules, path), [SLASH]) <==>
            && path != []
            && var mid := Outcome(lib, rules, path); mid == [SLASH] || EndsWith(mid, [SLASH, SLASH])
  {
    hide Outcome;
    var mid := Outcome(lib, rules, path);
    if |mid| >= 2 {
      assert EndsWith(mid, [SLASH, SLASH]) <==> mid[|mid| - 1] == SLASH && mid[|mid| - 2] == SLASH by {
        var tail := mid[|mid| - 2..];
        assert tail == [mid[|mid| - 2], mid[|mid| - 1]];
      }
    }
  }

  /** A path that keeps its slash although the policy is `Never`: "/a//" becomes "/a/". */
  lemma {:induction false} NeverExample(lib: RegexLib)
    ensures Applied(lib, Never, [], [SLASH, 97, SLASH, SLASH]) == [SLASH, 97, SLASH]
  {
    PickIsChosen(lib, [], [SLASH, 97, SLASH, SLASH], None);
  }

  /** A path that a rule empties still gets its slash under `Always`. */
  lemma {:induction false} AlwaysExample(lib: RegexLib, p: bytes)
    requires p != []
    ensures Applied(lib, Always, AllRules([], Some(p), None), p) == [SLASH]
  {
    var rules := AllRules([], Some(p), None);
    assert rules == [RewriteRule(Prefix, p, [])];
    PickIsChosen(lib, rules, p, Some(0));
  }
}
