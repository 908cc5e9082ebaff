/** The engine that finds the rule for a path: a hash map, two tries and an ordered list of regexes. */
module RewriteEngines {
  import opened Prelude
  import opened FlatTries
  import opened RewriteRules

  // ----- The exact table -----

  ghost function ExactMap(rules: seq<RewriteRule>): map<bytes, Rule> {
    if rules == [] then map[]
    else
      var n := |rules| - 1;
      var m := ExactMap(rules[..n]);
      if rules[n].kind.Exact? then m[rules[n].text := Rule(n, rules[n].to)] else m
  }

  ghost predicate IsExact(rules: seq<RewriteRule>, path: bytes, i: nat)
    requires i < |rules|
  {
    rules[i].kind.Exact? && rules[i].text == path
  }

  /** The table holds the last exact rule of each path. */
  lemma {:induction false} ExactIsLast(rules: seq<RewriteRule>, path: bytes)
    ensures if path !in ExactMap(rules) then forall i | 0 <= i < |rules| :: !IsExact(rules, path, i)
            else var r := ExactMap(rules)[path];
                 && r.priority < |rules| && IsExact(rules, path, r.priority) && rules[r.priority].to == r.to
                 && forall i | r.priority < i < |rules| :: !IsExact(rules, path, i)
  {
    if rules != [] {
      var n := |rules| - 1;
      var init := rules[..n];
      ExactIsLast(init, path);
      assert forall i | 0 <= i < n :: init[i] == rules[i] && IsExact(init, path, i) == IsExact(rules, path, i);
      assert path in ExactMap(rules) && ExactMap(rules)[path].priority == n <==> IsExact(rules, path, n);
    }
  }

  lemma {:induction false} ExactPicks(lib: RegexLib, rules: seq<RewriteRule>, path: bytes)
    ensures if path !in ExactMap(rules) then Picks(lib, rules, path, {Exact}, None)
            else
              var r := ExactMap(rules)[path];
              Picks(lib, rules, path, {Exact}, Some(r.priority)) && rules[r.priority].to == r.to
  {
    hide ExactMap;
    ExactIsLast(rules, path);
    assert forall i | 0 <= i < |rules| && rules[i].kind.Exact? ::
             Matches(lib, rules[i], path) <==> IsExact(rules, path, i);
    if path in ExactMap(rules) {
      var n := ExactMap(rules)[path].priority;
      assert Candidate(lib, rules, path, n);
      forall i | 0 <= i < n && IsExact(rules, path, i) ensures !Live(rules, i) {
        assert rules[n].kind.Exact? && rules[n].text == rules[i].text;
      }
    }
  }

  // ----- The regexes -----

  ghost predicate FirstMatch(lib: RegexLib, list: seq<Entry>, path: bytes, r: Option<nat>) {
    match r
    case None => forall x | 0 <= x < |list| :: !lib.matches(list[x].key, path)
    case Some(n) =>
      && n < |list| && lib.matches(list[n].key, path)
      && forall x | 0 <= x < n :: !lib.matches(list[x].key, path)
  }

  lemma {:induction false} RegexPicks(lib: RegexLib, rules: seq<RewriteRule>, path: bytes, r: Option<nat>)
    requires FirstMatch(lib, Keys(rules, Regex), path, r)
    ensures match r
            case None => Picks(lib, rules, path, {Regex}, None)
            case Some(n) =>
              var e := Keys(rules, Regex)[n];
              Picks(lib, rules, path, {Regex}, Some(e.priority)) && rules[e.priority] == RewriteRule(Regex, e.key, e.to)
  {
    var list := Keys(rules, Regex);
    KeysList(rules, Regex);
    hide Keys;
    forall i | 0 <= i < |rules| && rules[i].kind in {Regex}
      ensures exists x | 0 <= x < |list| ::
                list[x].priority == i && (Candidate(lib, rules, path, i) <==> lib.matches(list[x].key, path))
    {
      var x :| 0 <= x < |list| && list[x].priority == i;
    }
  }

  /** A rule is not numbered below the first of its kind. */
  lemma {:induction false} FirstOfKind(rules: seq<RewriteRule>, k: Kind)
    ensures forall i | 0 <= i < |rules| && rules[i].kind == k :: Keys(rules, k) != [] && i >= Keys(rules, k)[0].priority
  {
    KeysList(rules, k);
    hide Keys;
    forall i | 0 <= i < |rules| && rules[i].kind == k ensures Keys(rules, k) != [] && i >= Keys(rules, k)[0].priority {
      var x :| 0 <= x < |Keys(rules, k)| && Keys(rules, k)[x].priority == i;
    }
  }

  // ----- The engine -----

  datatype SlashPolicy = Ignore | Always | Never

  function TrailingSlash(policy: SlashPolicy, path: bytes): bytes {
    match policy
    case Ignore => path
    case Always => if path != [] && path[|path| - 1] == SLASH then path else path + [SLASH]
    case Never => if path == [SLASH] || path == [] || path[|path| - 1] != SLASH then path else path[..|path| - 1]
  }

  datatype MatchKind =
    | NoMatch
    | ToExact(to: bytes)
    | ToPrefix(len: nat, to: bytes)
    | ToSuffix(len: nat, to: bytes)
    | ToRegex(path: bytes)

  /** The path that the best match makes. */
  function Render(best: MatchKind, path: bytes): bytes
    requires best.ToPrefix? || best.ToSuffix? ==> best.len <= |path|
  {
    match best
    case NoMatch => path
    case ToExact(to) => to
    case ToPrefix(len, to) => to + path[len..]
    case ToSuffix(len, to) => path[..|path| - len] + to
    case ToRegex(out) => out
  }

  /** The best match so far is the pick among these kinds. */
  ghost predicate Best(
    lib: RegexLib, rules: seq<RewriteRule>, path: bytes, kinds: set<Kind>, prio: nat, best: MatchKind) {
    && (best.ToPrefix? || best.ToSuffix? ==> best.len <= |path|)
    && if best.NoMatch? then prio == U32_MAX && Picks(lib, rules, path, kinds, None)
       else Picks(lib, rules, path, kinds, Some(prio)) && Render(best, path) == Rewritten(lib, rules[prio], path)
  }

  lemma {:induction false} BestIsOutcome(
    lib: RegexLib, rules: seq<RewriteRule>, path: bytes, prio: nat, best: MatchKind)
    requires Best(lib, rules, path, KINDS, prio, best)
    ensures best.ToPrefix? || best.ToSuffix? ==> best.len <= |path|
    ensures Render(best, path) == Outcome(lib, rules, path)
  {
    PickIsChosen(lib, rules, path, if best.NoMatch? then None else Some(prio));
  }

  /** Rule 0 wins whatever else matches. */
  lemma {:induction false} ZeroIsOutcome(lib: RegexLib, rules: seq<RewriteRule>, path: bytes, kinds: set<Kind>)
    requires Picks(lib, rules, path, kinds, Some(0))
    ensures Rewritten(lib, rules[0], path) == Outcome(lib, rules, path)
  {
    AnyKind(rules[0].kind);
    PickIsChosen(lib, rules, path, Some(0));
  }

  /** A search of one more kind found something: it takes over exactly when its number is lower. */
  lemma {:induction false} BestGrows(
    lib: RegexLib, rules: seq<RewriteRule>, path: bytes, kinds: set<Kind>, prio: nat, best: MatchKind, k: Kind, p: nat,
    now: MatchKind)
    requires Best(lib, rules, path, kinds, prio, best) && |rules| <= U32_MAX
    requires Picks(lib, rules, path, {k}, Some(p)) && !now.NoMatch? && Best(lib, rules, path, {k}, p, now)
    ensures if p < prio then Best(lib, rules, path, kinds + {k}, p, now)
            else Best(lib, rules, path, kinds + {k}, prio, best)
  {
    hide Render, Rewritten, Picks;
    PickEither(lib, rules, path, kinds, {k}, if best.NoMatch? then None else Some(prio), Some(p));
    PickInRange(lib, rules, path, {k}, p);
  }

  lemma {:induction false} PickInRange(lib: RegexLib, rules: seq<RewriteRule>, path: bytes, kinds: set<Kind>, p: nat)
    requires Picks(lib, rules, path, kinds, Some(p))
    ensures p < |rules| && Matches(lib, rules[p], path)
  {
  }

  lemma {:induction false} BestStays(
    lib: RegexLib, rules: seq<RewriteRule>, path: bytes, kinds: set<Kind>, prio: nat, best: MatchKind, k: Kind)
    requires Best(lib, rules, path, kinds, prio, best) && Picks(lib, rules, path, {k}, None)
    ensures Best(lib, rules, path, kinds + {k}, prio, best)
  {
    hide Render, Rewritten, Picks;
    PickEither(lib, rules, path, kinds, {k}, if best.NoMatch? then None else Some(prio), None);
  }

  lemma {:induction false} BestSkips(
    lib: RegexLib, rules: seq<RewriteRule>, path: bytes, kinds: set<Kind>, prio: nat, best: MatchKind, k: Kind)
    requires Best(lib, rules, path, kinds, prio, best) && |rules| <= U32_MAX
    requires prio <= if Keys(rules, k) == [] then U32_MAX else Keys(rules, k)[0].priority
    ensures Best(lib, rules, path, kinds + {k}, prio, best)
  {
    hide Render, Rewritten;
    FirstOfKind(rules, k);
    KeysList(rules, k);
    var least := if Keys(rules, k) == [] then U32_MAX else Keys(rules, k)[0].priority;
    if best.NoMatch? {
      PickSkips(lib, rules, path, kinds, k, None, least);
    } else {
      PickSkips(lib, rules, path, kinds, k, Some(prio), least);
    }
  }

  lemma {:induction false} ExactBest(lib: RegexLib, rules: seq<RewriteRule>, path: bytes)
    ensures if path in ExactMap(rules)
            then Best(lib, rules, path, {Exact}, ExactMap(rules)[path].priority, ToExact(ExactMap(rules)[path].to))
            else Best(lib, rules, path, {Exact}, U32_MAX, NoMatch)
  {
    ExactPicks(lib, rules, path);
  }

  lemma {:induction false} PrefixBest(lib: RegexLib, rules: seq<RewriteRule>, path: bytes)
    ensures match Earliest(Keys(rules, Prefix), path)
            case None => Picks(lib, rules, path, {Prefix}, None)
            case Some(f) =>
              && Picks(lib, rules, path, {Prefix}, Some(f.priority))
              && Best(lib, rules, path, {Prefix}, f.priority, ToPrefix(f.len, f.to))
  {
    TriePicks(lib, rules, Prefix, path);
    hide Keys, Earliest;
  }

  lemma {:induction false} SuffixBest(lib: RegexLib, rules: seq<RewriteRule>, path: bytes)
    ensures match Earliest(Keys(rules, Suffix), Reversed(path))
            case None => Picks(lib, rules, path, {Suffix}, None)
            case Some(f) =>
              && Picks(lib, rules, path, {Suffix}, Some(f.priority))
              && Best(lib, rules, path, {Suffix}, f.priority, ToSuffix(f.len, f.to))
  {
    TriePicks(lib, rules, Suffix, path);
    hide Keys, Earliest;
  }

  lemma {:induction false} RegexBest(lib: RegexLib, rules: seq<RewriteRule>, path: bytes, r: Option<nat>)
    requires FirstMatch(lib, Keys(rules, Regex), path, r)
    ensures match r
            case None => Picks(lib, rules, path, {Regex}, None)
            case Some(n) =>
              var e := Keys(rules, Regex)[n];
              && Picks(lib, rules, path, {Regex}, Some(e.priority))
              && Best(lib, rules, path, {Regex}, e.priority, ToRegex(lib.replace(e.key, path, e.to)))
  {
    RegexPicks(lib, rules, path, r);
    hide Keys;
  }

  lemma {:induction false} ZeroBest(
    lib: RegexLib, rules: seq<RewriteRule>, path: bytes, kinds: set<Kind>, best: MatchKind)
    requires Best(lib, rules, path, kinds, 0, best)
    ensures best.ToPrefix? || best.ToSuffix? ==> best.len <= |path|
    ensures !best.NoMatch? ==> Render(best, path) == Outcome(lib, rules, path)
  {
    if !best.NoMatch? {
      ZeroIsOutcome(lib, rules, path, kinds);
    }
  }

  lemma {:induction false} AllKinds()
    ensures {Exact} + {Prefix} + {Suffix} + {Regex} == KINDS
  {
  }

  lemma {:induction false} PrioBound(
    lib: RegexLib, rules: seq<RewriteRule>, path: bytes, kinds: set<Kind>, prio: nat, best: MatchKind)
    requires Best(lib, rules, path, kinds, prio, best) && |rules| <= U32_MAX
    ensures prio <= U32_MAX
  {
  }

  class RewriteEngine {
    const lib: RegexLib
    const policy: SlashPolicy
    const prefixTrie: FlatTrie
    const suffixTrie: FlatTrie
    var exact: map<bytes, Rule>
    var regexes: seq<Entry>
    ghost var rules: seq<RewriteRule>

    ghost predicate Valid()
      reads this, prefixTrie, suffixTrie
    {
      && prefixTrie != suffixTrie && prefixTrie.Valid() && suffixTrie.Valid()
      && prefixTrie.history == Keys(rules, Prefix) && suffixTrie.history == Keys(rules, Suffix)
      && regexes == Keys(rules, Regex) && exact == ExactMap(rules) && |rules| <= U32_MAX
    }

    constructor (lib: RegexLib, policy: SlashPolicy)
      ensures Valid() && rules == [] && this.lib == lib && this.policy == policy
      ensures fresh(prefixTrie) && fresh(suffixTrie)
      ensures regexes == Keys(rules, Regex)
    {
      this.lib := lib;
      this.policy := policy;
      prefixTrie := new FlatTrie();
      suffixTrie := new FlatTrie();
      exact := map[];
      regexes := [];
      rules := [];
    }

    /** Files a rule under the next number. */
    method Add(r: RewriteRule, priority: nat)
      requires Valid() && priority == |rules| < U32_MAX
      modifies this, prefixTrie, suffixTrie
      ensures Valid() && rules == old(rules) + [r] && regexes == Keys(rules, Regex)
    {
      ghost var all := rules + [r];
      assert all[..|rules|] == rules;
      KeysList(rules, Prefix);
      KeysList(rules, Suffix);
      match r.kind {
        case Prefix => prefixTrie.Insert(r.text, r.to, priority);
        case Suffix => suffixTrie.Insert(Reversed(r.text), r.to, priority);
        case Exact => exact := exact[r.text := Rule(priority, r.to)];
        case Regex => regexes := regexes + [Entry(r.text, priority, r.to)];
      }
      rules := all;
    }

    method AddStrips(prefix: Option<bytes>, suffix: Option<bytes>) returns (priority: nat)
      requires Valid() && rules == []
      modifies this, prefixTrie, suffixTrie
      ensures Valid() && rules == StripRule(Prefix, prefix) + StripRule(Suffix, suffix) && priority == |rules|
    {
      priority := 0;
      if prefix.Some? && prefix.value != [] {
        Add(RewriteRule(Prefix, prefix.value, []), priority);
        priority := priority + 1;
      }
      if suffix.Some? && suffix.value != [] {
        Add(RewriteRule(Suffix, suffix.value, []), priority);
        priority := priority + 1;
      }
    }

    /** Files the listed rules; stops at the first pattern that does not compile. */
    method AddAll(raw: seq<(bytes, bytes)>, first: nat) returns (compiled: bool)
      requires Valid() && first == |rules| && |rules| + |raw| <= U32_MAX
      modifies this, prefixTrie, suffixTrie
      ensures compiled <==> Compiles(lib, Listed(raw))
      ensures compiled ==> Valid() && rules == old(rules) + Listed(raw)
    {
      hide Keys, Classify, ExactMap;
      ghost var before, list := rules, Listed(raw);
      var priority := first;
      for i := 0 to |raw|
        invariant Valid() && rules == before + list[..i] && priority == |rules|
        invariant forall x | 0 <= x < i && list[x].kind.Regex? :: lib.valid(list[x].text)
      {
        var r := Classify(raw[i].0, raw[i].1);
        assert list[i] == r;
        if r.kind.Regex? && !lib.valid(r.text) {
          return false;
        }
        Add(r, priority);
        priority := priority + 1;
        assert list[..i + 1] == list[..i] + [r];
      }
      assert list[..|raw|] == list;
      return true;
    }

    method MatchRegex(path: bytes) returns (r: Option<nat>)
      requires Valid()
      ensures FirstMatch(lib, regexes, path, r)
    {
      for i := 0 to |regexes|
        invariant forall x | 0 <= x < i :: !lib.matches(regexes[x].key, path)
      {
        if lib.matches(regexes[i].key, path) {
          return Some(i);
        }
      }
      return None;
    }

    /**
     With `full` every table is searched; without it, tables that cannot win are skipped and rule 0
     ends the search.
     */
    method BestCandidate(path: bytes, full: bool) returns (out: bytes)
      requires Valid()
      ensures out == Outcome(lib, rules, path)
    {
      hide Picks, Keys, Outcome, Rewritten, ExactMap, Best, Render, Earliest, Reversed, FirstMatch;
      var bestPrio, best := U32_MAX, NoMatch;
      ExactBest(lib, rules, path);
      if path in exact {
        if !full && exact[path].priority == 0 {
          ZeroBest(lib, rules, path, {Exact}, ToExact(exact[path].to));
          return Render(ToExact(exact[path].to), path);
        }
        bestPrio, best := exact[path].priority, ToExact(exact[path].to);
      }

      if full || bestPrio > prefixTrie.minPrio {
        var f := prefixTrie.FindBest(path);
        PrefixBest(lib, rules, path);
        if f.Some? {
          var now := ToPrefix(f.value.len, f.value.to);
          BestGrows(lib, rules, path, {Exact}, bestPrio, best, Prefix, f.value.priority, now);
          if f.value.priority < bestPrio {
            if !full && f.value.priority == 0 {
              ZeroBest(lib, rules, path, {Exact} + {Prefix}, now);
              return Render(now, path);
            }
            bestPrio, best := f.value.priority, now;
          }
        } else {
          BestStays(lib, rules, path, {Exact}, bestPrio, best, Prefix);
        }
      } else {
        BestSkips(lib, rules, path, {Exact}, bestPrio, best, Prefix);
      }

      out := TrySuffixes(path, full, bestPrio, best);
    }

    method TrySuffixes(path: bytes, full: bool, prio: nat, found: MatchKind) returns (out: bytes)
      requires Valid() && Best(lib, rules, path, {Exact} + {Prefix}, prio, found)
      ensures out == Outcome(lib, rules, path)
    {
      hide Picks, Keys, Outcome, Rewritten, ExactMap, Best, Render, Earliest, Reversed, FirstMatch;
      var bestPrio, best := prio, found;
      if full || bestPrio > suffixTrie.minPrio {
        var f := suffixTrie.FindBest(Reversed(path));
        SuffixBest(lib, rules, path);
        if f.Some? {
          var now := ToSuffix(f.value.len, f.value.to);
          BestGrows(lib, rules, path, {Exact} + {Prefix}, bestPrio, best, Suffix, f.value.priority, now);
          if f.value.priority < bestPrio {
            if !full && f.value.priority == 0 {
              ZeroBest(lib, rules, path, {Exact} + {Prefix} + {Suffix}, now);
              return Render(now, path);
            }
            bestPrio, best := f.value.priority, now;
          }
        } else {
          BestStays(lib, rules, path, {Exact} + {Prefix}, bestPrio, best, Suffix);
        }
      } else {
        BestSkips(lib, rules, path, {Exact} + {Prefix}, bestPrio, best, Suffix);
      }

      out := TryRegexes(path, full, bestPrio, best);
    }

    /** The regexes come last, and only if the first of them could still win. */
    method TryRegexes(path: bytes, full: bool, prio: nat, found: MatchKind) returns (out: bytes)
      requires Valid() && Best(lib, rules, path, {Exact} + {Prefix} + {Suffix}, prio, found)
      ensures out == Outcome(lib, rules, path)
    {
      hide Picks, Keys, Outcome, Rewritten, ExactMap, Best, Render;
      var bestPrio, best := prio, found;
      if regexes != [] && (full || bestPrio > regexes[0].priority) {
        var n := MatchRegex(path);
        RegexBest(lib, rules, path, n);
        if n.Some? {
          var e := regexes[n.value];
          var now := ToRegex(lib.replace(e.key, path, e.to));
          BestGrows(lib, rules, path, {Exact} + {Prefix} + {Suffix}, bestPrio, best, Regex, e.priority, now);
          if e.priority < bestPrio {
            if !full && e.priority == 0 {
              ZeroBest(lib, rules, path, {Exact} + {Prefix} + {Suffix} + {Regex}, now);
              return Render(now, path);
            }
            bestPrio, best := e.priority, now;
          }
        } else {
          BestStays(lib, rules, path, {Exact} + {Prefix} + {Suffix}, bestPrio, best, Regex);
        }
      } else {
        PrioBound(lib, rules, path, {Exact} + {Prefix} + {Suffix}, bestPrio, best);
        BestSkips(lib, rules, path, {Exact} + {Prefix} + {Suffix}, bestPrio, best, Regex);
      }
      AllKinds();
      BestIsOutcome(lib, rules, path, bestPrio, best);
      return Render(best, path);
    }

    /** The fast way in. */
    method Apply(path: bytes) returns (out: bytes)
      requires Valid()
      ensures out == Applied(lib, policy, rules, path)
    {
      if path == [] {
        return path;
      }
      var rewritten := BestCandidate(path, false);
      return TrailingSlash(policy, rewritten);
    }

    /** The full evaluation: the same answer. */
    method ApplyHold(path: bytes) returns (out: bytes)
      requires Valid()
      ensures out == Applied(lib, policy, rules, path)
    {
      if path == [] {
        return path;
      }
      var rewritten := BestCandidate(path, true);
      return TrailingSlash(policy, rewritten);
    }
  }

  ghost function Applied(lib: RegexLib, policy: SlashPolicy, rules: seq<RewriteRule>, path: bytes): bytes {
    if path == [] then path else TrailingSlash(policy, Outcome(lib, rules, path))
  }

  // ----- Building -----

  function StripRule(kind: Kind, text: Option<bytes>): seq<RewriteRule> {
    if text.Some? && text.value != [] then [RewriteRule(kind, text.value, [])] else []
  }

  function Listed(raw: seq<(bytes, bytes)>): (r: seq<RewriteRule>)
    ensures |r| == |raw|
  {
    seq(|raw|, i requires 0 <= i < |raw| => Classify(raw[i].0, raw[i].1))
  }

  /** The rules of a configuration: what to strip first, then the list in order. */
  function AllRules(raw: seq<(bytes, bytes)>, prefix: Option<bytes>, suffix: Option<bytes>): seq<RewriteRule> {
    StripRule(Prefix, prefix) + StripRule(Suffix, suffix) + Listed(raw)
  }

  ghost predicate Compiles(lib: RegexLib, rules: seq<RewriteRule>) {
    forall i | 0 <= i < |rules| && rules[i].kind.Regex? :: lib.valid(rules[i].text)
  }

  function Texts(list: seq<Entry>): seq<bytes> {
    seq(|list|, i requires 0 <= i < |list| => list[i].key)
  }

  /** Fails exactly when a pattern, or the set of them all, does not compile. */
  method NewEngine(
    lib: RegexLib, raw: seq<(bytes, bytes)>, prefix: Option<bytes>, suffix: Option<bytes>, policy: SlashPolicy)
    returns (e: Option<RewriteEngine>)
    requires |raw| + 2 <= U32_MAX
    ensures var rules := AllRules(raw, prefix, suffix);
            e.Some? <==> Compiles(lib, rules) && (Keys(rules, Regex) == [] || lib.fits(Texts(Keys(rules, Regex))))
    ensures e.Some? ==> e.value.Valid() && e.value.rules == AllRules(raw, prefix, suffix)
    ensures e.Some? ==> e.value.lib == lib && e.value.policy == policy
  {
    var engine := new RewriteEngine(lib, policy);
    var priority := engine.AddStrips(prefix, suffix);
    var compiled := engine.AddAll(raw, priority);
    ghost var rules := AllRules(raw, prefix, suffix);
    assert Compiles(lib, rules) <==> compiled by {
      CompilesConcat(lib, StripRule(Prefix, prefix) + StripRule(Suffix, suffix), Listed(raw));
    }
    if !compiled {
      return None;
    }
    if engine.regexes != [] && !lib.fits(Texts(engine.regexes)) {
      return None;
    }
    return Some(engine);
  }

  lemma {:induction false} CompilesConcat(lib: RegexLib, a: seq<RewriteRule>, b: seq<RewriteRule>)
    ensures Compiles(lib, a + b) <==> Compiles(lib, a) && Compiles(lib, b)
  {
    forall i | 0 <= i < |a| ensures (a + b)[i] == a[i] { }
    forall i | 0 <= i < |b| ensures (a + b)[|a| + i] == b[i] { }
  }
}
