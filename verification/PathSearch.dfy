/**
 The search as the source runs it: one loop over the current node and path, a stack of
 wildcard nodes skipped on the way, and one parameter list truncated when it backtracks.
 */
module PathSearch {
  import opened Prelude
  import opened Pattern
  import opened RouteTree
  import opened TreeInsert
  import opened InsertProof
  import opened InsertShape
  import opened TreeSearch
  import opened Params

  /** What a lookup hands out. */
  datatype Reply<T> = Reply(value: T, params: seq<Binding>)

  function Zip(keys: seq<Name>, values: seq<bytes>): (r: seq<Binding>) {
    seq(if |keys| <= |values| then |keys| else |values|,
        i requires 0 <= i < |keys| && i < |values| => Binding(keys[i], values[i]))
  }

  /** A match completed by the values read before it. */
  ghost function Answer<T>(hit: Option<Hit<T>>, before: seq<bytes>): Option<Reply<T>> {
    match hit case None => None case Some(h) => Some(Reply(h.value, Zip(h.keys, before + h.values)))
  }

  ghost function Values(view: seq<Binding>): (r: seq<bytes>)
    ensures |r| == |view|
  {
    seq(|view|, i requires 0 <= i < |view| => view[i].value)
  }

  predicate IsSuffix(a: bytes, b: bytes) {
    |a| <= |b| && b[|b| - |a|..] == a
  }

  lemma {:induction false} SuffixTrans(a: bytes, b: bytes, c: bytes)
    requires IsSuffix(a, b) && IsSuffix(b, c)
    ensures IsSuffix(a, c)
  {
    assert c[|c| - |a|..] == c[|c| - |b|..][|b| - |a|..];
  }

  // ----- One step into a wildcard node -----

  datatype Step<T> =
    | Stuck
    | Enter(node: Node<T>, path: bytes, read: bytes)
    | Last(value: T, names: seq<Name>, read: bytes)
    | Rest(value: T, names: seq<Name>, key: Name, read: bytes)

  ghost function Outcome<T>(s: Step<T>, w: Node<T>): Option<Hit<T>> {
    match s
    case Stuck => None
    case Enter(c, path, read) => Under([Param], Reading(read, Search(c, path)))
    case Last(v, names, read) => Some(Hit([Param], v, names, names, [read]))
    case Rest(v, names, key, read) => Some(Hit(w.prefix, v, names, names + [key], [read]))
  }

  /** Goes on in a wildcard child: hands out a value, enters a child or gets stuck. */
  method EnterWild<T>(w: Node<T>, ghost d: nat, path: bytes) returns (s: Step<T>)
    requires WF(w, d) && Wild(w) && path != []
    ensures SearchWild(w, path) == Outcome(s, w)
    ensures s.Enter? ==> s.node in w.children && IsSuffix(s.path, path)
    ensures s.Last? ==> w.kind.ParamNode? && w.value == Some(s.value) && w.remapping == s.names
    ensures s.Rest? ==> w.kind.CatchAll? && w.value == Some(s.value) && w.remapping == s.names
  {
    hide Search, WF, Spells, PathSlash;
    CatchHolds(w, d);
    var slash := PathSlash(path);
    match w.kind
    case ParamNode(suffix) =>
      // A '/' right away would mean an empty parameter.
      if slash == 0 { return Stuck; }
      if !suffix {
        if slash == |path| {
          return if w.value.Some? then Last(w.value.value, w.remapping, path) else Stuck;
        }
        if |w.children| != 1 { return Stuck; }
        return Enter(w.children[0], path[slash..], path[..slash]);
      }
      var end := SegmentEnd(path);
      var i := 0;
      while i < |w.children|
        invariant i <= |w.children|
        invariant forall j | 0 <= j < i :: !FitsEnd(w.children[j], path)
      {
        if FitsEnd(w.children[i], path) {
          var start := end - |w.children[i].prefix|;
          FitIsFirst(w.children, path, i);
          return Enter(w.children[i], path[start..], path[..start]);
        }
        i := i + 1;
      }
      assert FirstFit(w.children, path) == None;
      return if w.value.Some? && slash == |path| then Last(w.value.value, w.remapping, path) else Stuck;
    case CatchAll =>
      return Rest(w.value.value, w.remapping, w.prefix[0].name, path);
  }

  lemma {:induction false} CatchHolds<T>(w: Node<T>, d: nat)
    requires WF(w, d)
    ensures w.kind.CatchAll? ==> |w.prefix| == 1 && w.prefix[0].Catch? && w.value.Some?
  {
  }

  lemma {:induction false} FitIsFirst<T>(children: seq<Node<T>>, path: bytes, i: nat)
    requires i < |children| && FitsEnd(children[i], path)
    requires forall j | 0 <= j < i :: !FitsEnd(children[j], path)
    ensures FirstFit(children, path) == Some(i)
  {
    if i > 0 {
      assert !FitsEnd(children[0], path);
      assert forall j | 0 <= j < i - 1 :: children[1..][j] == children[j + 1];
      FitIsFirst(children[1..], path, i - 1);
    }
  }

  // ----- Skipped nodes -----

  /** A node whose wildcard child was passed over, the path at that time and the parameters read so far. */
  datatype Skipped<T> = Skipped(node: Node<T>, path: bytes, params: nat)

  /** `n` can be searched with `d` parameters read before it. */
  ghost predicate Walkable<T>(n: Node<T>, d: nat) {
    (WF(n, d) && TextKind(n)) || (n == Empty() && d == 0)
  }

  /** The wildcard child of `n` is a way to go on along `path`. */
  ghost predicate WildAhead<T>(n: Node<T>, d: nat, path: bytes) {
    WF(n, d) && TextKind(n) && n.wildChild && n.children != [] && |path| > |n.prefix| && Spells(n.prefix, path)
  }

  /** The stack under a search that has read `d` parameters and stands at `path`. */
  ghost predicate Stacked<T>(stack: seq<Skipped<T>>, d: nat, path: bytes)
    decreases |stack|
  {
    stack == [] ||
    var top := stack[|stack| - 1];
    top.params <= d && IsSuffix(path, top.path) && WildAhead(top.node, top.params, top.path) &&
    Stacked(stack[..|stack| - 1], top.params, top.path)
  }

  lemma {:induction false} StackedOn<T>(stack: seq<Skipped<T>>, d: nat, path: bytes, e: nat, rest: bytes)
    requires Stacked(stack, d, path) && d <= e && IsSuffix(rest, path)
    ensures Stacked(stack, e, rest)
  {
    if stack != [] {
      SuffixTrans(rest, path, stack[|stack| - 1].path);
    }
  }

  lemma {:induction false} PushSkipped<T>(stack: seq<Skipped<T>>, n: Node<T>, path: bytes, d: nat, rest: bytes)
    requires Stacked(stack, d, path) && WildAhead(n, d, path) && IsSuffix(rest, path)
    ensures Stacked(stack + [Skipped(n, path, d)], d, rest)
  {
    var all := stack + [Skipped(n, path, d)];
    assert all[..|all| - 1] == stack;
  }

  function Upto<X>(s: seq<X>, k: nat): seq<X> {
    if k <= |s| then s[..k] else s
  }

  /** What the skipped nodes still offer, the last one first. */
  ghost function Resume<T>(stack: seq<Skipped<T>>, values: seq<bytes>): Option<Reply<T>>
    decreases |stack|
  {
    if stack == [] then None
    else
      var top := stack[|stack| - 1];
      var before := Upto(values, top.params);
      OrElse(if |top.path| > |top.node.prefix| then Answer(WildPart(top.node, top.path), before) else None,
             Resume(stack[..|stack| - 1], before))
  }

  lemma {:induction false} ResumeStable<T>(stack: seq<Skipped<T>>, d: nat, path: bytes, a: seq<bytes>, b: seq<bytes>)
    requires Stacked(stack, d, path) && d <= |a| && d <= |b| && a[..d] == b[..d]
    ensures Resume(stack, a) == Resume(stack, b)
  {
    if stack != [] {
      var k := stack[|stack| - 1].params;
      assert a[..k] == a[..d][..k] && b[..k] == b[..d][..k];
    }
  }

  lemma {:induction false} ResumePush<T>(stack: seq<Skipped<T>>, n: Node<T>, path: bytes, values: seq<bytes>)
    requires Stacked(stack, |values|, path) && WildAhead(n, |values|, path)
    ensures var all := stack + [Skipped(n, path, |values|)];
            Resume(all, values) == OrElse(Answer(WildPart(n, path), values), Resume(stack, values))
  {
    var all := stack + [Skipped(n, path, |values|)];
    assert all[..|all| - 1] == stack;
    assert values[..|values|] == values;
  }

  // ----- Work left -----

  ghost function Size<T>(n: Node<T>): nat
    decreases n, 1
  {
    2 + SizeAll(n.children)
  }

  ghost function SizeAll<T>(children: seq<Node<T>>): nat
    decreases children, 0
  {
    if children == [] then 0 else Size(children[0]) + SizeAll(children[1..])
  }

  lemma {:induction false} SizeOne<T>(children: seq<Node<T>>, i: nat)
    requires i < |children|
    ensures Size(children[i]) <= SizeAll(children)
  {
    if i > 0 { SizeOne(children[1..], i - 1); }
  }

  lemma {:induction false} SizeTwo<T>(children: seq<Node<T>>, i: nat, j: nat)
    requires i < j < |children|
    ensures Size(children[i]) + Size(children[j]) <= SizeAll(children)
  {
    if i > 0 {
      SizeTwo(children[1..], i - 1, j - 1);
    } else {
      SizeOne(children[1..], j - 1);
    }
  }

  ghost function WildSize<T>(n: Node<T>): nat {
    if n.children == [] then 0 else Size(n.children[|n.children| - 1])
  }

  ghost function Work<T>(stack: seq<Skipped<T>>): nat {
    if stack == [] then 0 else WildSize(stack[|stack| - 1].node) + 1 + Work(stack[..|stack| - 1])
  }

  // ----- The search -----

  lemma {:induction false} AnswerUnder<T>(text: Tokens, hit: Option<Hit<T>>, before: seq<bytes>)
    ensures Answer(Under(text, hit), before) == Answer(hit, before)
  {
  }

  lemma {:induction false} AnswerReading<T>(read: bytes, hit: Option<Hit<T>>, before: seq<bytes>)
    ensures Answer(Under([Param], Reading(read, hit)), before) == Answer(hit, before + [read])
  {
    if hit.Some? {
      assert before + ([read] + hit.value.values) == before + [read] + hit.value.values;
    }
  }

  /** What the search still has to offer from where it stands. */
  ghost function Ahead<T>(n: Node<T>, path: bytes, values: seq<bytes>, backtracking: bool): Option<Reply<T>> {
    if !backtracking then Answer(Search(n, path), values)
    else if |path| > |n.prefix| then Answer(WildPart(n, path), values)
    else None
  }

  lemma {:induction false} OwnAnswer<T>(n: Node<T>, d: nat, path: bytes, values: seq<bytes>)
    requires |path| <= |n.prefix|
    ensures Ahead(n, path, values, false) ==
            if |path| == |n.prefix| && Spells(n.prefix, path) && n.value.Some?
            then Some(Reply(n.value.value, Zip(n.remapping, values))) else None
  {
    assert values + [] == values;
  }

  ghost function Load<T>(n: Node<T>, backtracking: bool): nat {
    if backtracking then WildSize(n) else Size(n)
  }

  /** Below text that fits, the search offers the static child, then the wildcard child. */
  lemma {:induction false} AheadSplits<T>(n: Node<T>, path: bytes, values: seq<bytes>)
    requires |path| > |n.prefix| && Spells(n.prefix, path)
    ensures Answer(Search(n, path), values) ==
            OrElse(Answer(StaticPart(n, path), values), Answer(WildPart(n, path), values))
  {
  }

  lemma {:induction false} WalkableChild<T>(n: Node<T>, d: nat, i: nat)
    requires Walkable(n, d) && i < |n.indices|
    ensures |n.indices| <= |n.children| && Walkable(n.children[i], d)
    ensures n.wildChild ==> |n.children| == |n.indices| + 1 && WF(n, d) && TextKind(n)
    ensures Size(n.children[i]) < Size(n)
    ensures n.wildChild ==> Size(n.children[i]) + WildSize(n) + 1 < Size(n)
  {
    assert WF(n, d);
    ChildWF(n, d, i);
    SizeOne(n.children, i);
    if n.wildChild {
      SizeTwo(n.children, i, |n.children| - 1);
    }
  }

  lemma {:induction false} WalkableWild<T>(n: Node<T>, d: nat)
    requires Walkable(n, d) && n.wildChild
    ensures WF(n, d) && TextKind(n) && n.children != []
    ensures WF(n.children[|n.children| - 1], d) && Wild(n.children[|n.children| - 1])
    ensures WildSize(n) < Size(n)
  {
    SizeOne(n.children, |n.children| - 1);
  }

  lemma {:induction false} EnteredChild<T>(w: Node<T>, d: nat, c: Node<T>)
    requires WF(w, d) && w.kind.ParamNode? && c in w.children
    ensures Walkable(c, d + 1) && Size(c) < Size(w)
  {
    var i :| 0 <= i < |w.children| && w.children[i] == c;
    ChildWF(w, d, i);
    SizeOne(w.children, i);
  }

  lemma {:induction false} ValuesPush(view: seq<Binding>, b: Binding)
    ensures Values(view + [b]) == Values(view) + [b.value]
  {
  }

  /** The list renamed to the names of the route is the list the recursion hands out. */
  lemma {:induction false} Renamed(before: seq<Binding>, after: seq<Binding>, names: seq<Name>)
    requires |after| == |before| == |names|
    requires forall i | 0 <= i < |after| :: after[i] == Binding(names[i], before[i].value)
    ensures after == Zip(names, Values(before))
  {
  }

  lemma {:induction false} ZipPush(names: seq<Name>, values: seq<bytes>, key: Name, value: bytes)
    requires |names| == |values|
    ensures Zip(names + [key], values + [value]) == Zip(names, values) + [Binding(key, value)]
  {
  }

  ghost function Offers<T>(n: Node<T>, path: bytes, values: seq<bytes>, backtracking: bool, stack: seq<Skipped<T>>)
    : Option<Reply<T>>
  {
    OrElse(Ahead(n, path, values, backtracking), Resume(stack, values))
  }

  /** The stack after the static child of `n` is preferred to its wildcard child. */
  function Skipping<T>(n: Node<T>, path: bytes, count: nat, stack: seq<Skipped<T>>): seq<Skipped<T>> {
    if n.wildChild then stack + [Skipped(n, path, count)] else stack
  }

  lemma {:induction false} StaticStep<T>(n: Node<T>, path: bytes, values: seq<bytes>, i: nat, stack: seq<Skipped<T>>)
    requires Walkable(n, |values|) && Stacked(stack, |values|, path)
    requires |path| > |n.prefix| && Spells(n.prefix, path) && IndexOf(n.indices, path[|n.prefix|]) == Some(i)
    ensures i < |n.children| && Walkable(n.children[i], |values|)
    ensures var stack' := Skipping(n, path, |values|, stack);
            && Stacked(stack', |values|, path[|n.prefix|..])
            && Offers(n.children[i], path[|n.prefix|..], values, false, stack') == Offers(n, path, values, false, stack)
            && Load(n.children[i], false) + Work(stack') < Load(n, false) + Work(stack)
  {
    hide Search, SearchWild, WF, Stacked;
    var rest := path[|n.prefix|..];
    WalkableChild(n, |values|, i);
    AheadSplits(n, path, values);
    AnswerUnder(n.prefix, Search(n.children[i], rest), values);
    if n.wildChild {
      ResumePush(stack, n, path, values);
      PushSkipped(stack, n, path, |values|, rest);
      var all := stack + [Skipped(n, path, |values|)];
      assert all[..|all| - 1] == stack;
    } else {
      StackedOn(stack, |values|, path, |values|, rest);
    }
  }

  lemma {:induction false} NoStatic<T>(n: Node<T>, path: bytes, values: seq<bytes>)
    requires |path| > |n.prefix| && Spells(n.prefix, path) && IndexOf(n.indices, path[|n.prefix|]) == None
    ensures Ahead(n, path, values, false) == Ahead(n, path, values, true)
  {
    AheadSplits(n, path, values);
  }

  lemma {:induction false} WildStep<T>(n: Node<T>, path: bytes, values: seq<bytes>)
    requires Walkable(n, |values|) && |path| > |n.prefix|
    ensures !n.wildChild ==> Ahead(n, path, values, true) == None
    ensures n.wildChild ==>
              && n.children != []
              && WF(n.children[|n.children| - 1], |values|) && Wild(n.children[|n.children| - 1])
              && Ahead(n, path, values, true) ==
                 Answer(SearchWild(n.children[|n.children| - 1], path[|n.prefix|..]), values)
              && Size(n.children[|n.children| - 1]) <= Load(n, true) <= Load(n, false)
  {
    if n.wildChild {
      WalkableWild(n, |values|);
      AnswerUnder(n.prefix, SearchWild(n.children[|n.children| - 1], path[|n.prefix|..]), values);
    }
  }

  lemma {:induction false} EnterStep<T>(
    w: Node<T>, path: bytes, values: seq<bytes>, step: Step<T>, from: bytes, stack: seq<Skipped<T>>)
    requires WF(w, |values|) && path != [] && w.kind.ParamNode? && step.Enter? && step.node in w.children
    requires IsSuffix(step.path, path) && IsSuffix(path, from)
    requires SearchWild(w, path) == Outcome(step, w) && Stacked(stack, |values|, from)
    ensures Walkable(step.node, |values| + 1) && Size(step.node) < Size(w)
    ensures Stacked(stack, |values| + 1, step.path)
    ensures Offers(step.node, step.path, values + [step.read], false, stack) ==
            OrElse(Answer(SearchWild(w, path), values), Resume(stack, values))
  {
    hide Search, SearchWild, WF, Resume, Stacked;
    AnswerReading(step.read, Search(step.node, step.path), values);
    EnteredChild(w, |values|, step.node);
    assert (values + [step.read])[..|values|] == values[..|values|];
    ResumeStable(stack, |values|, from, values, values + [step.read]);
    SuffixTrans(step.path, path, from);
    StackedOn(stack, |values|, from, |values| + 1, step.path);
  }

  lemma {:induction false} PopStep<T>(stack: seq<Skipped<T>>, values: seq<bytes>, path: bytes)
    requires stack != [] && Stacked(stack, |values|, path)
    ensures var top, rest := stack[|stack| - 1], stack[..|stack| - 1];
            && top.params <= |values| && IsSuffix(path, top.path)
            && Walkable(top.node, top.params) && |top.path| > |top.node.prefix| && Spells(top.node.prefix, top.path)
            && Stacked(rest, top.params, top.path)
            && Resume(stack, values) == Offers(top.node, top.path, values[..top.params], true, rest)
            && Load(top.node, true) + Work(rest) < Work(stack)
  {
    hide Search, SearchWild, WF, WildPart;
  }

  lemma {:induction false} Mismatch<T>(n: Node<T>, path: bytes, values: seq<bytes>, backtracking: bool)
    requires |path| > |n.prefix| && !Spells(n.prefix, path) && !backtracking
    ensures Ahead(n, path, values, backtracking) == None
  {
  }

  /** Hands out the list under the names of the route. */
  method HandOut<T>(params: ParamList, value: T, names: seq<Name>) returns (r: Reply<T>)
    requires params.Valid() && |params.View()| == |names|
    modifies params, params.inline
    ensures params.Valid() && params.inline == old(params.inline)
    ensures params.View() == Zip(names, Values(old(params.View())))
    ensures r == Reply(value, Zip(names, Values(old(params.View()))))
  {
    ghost var before := params.View();
    params.Rename(names);
    Renamed(before, params.View(), names);
    r := Reply(value, params.View());
  }

  /** Adds a value whose key is not known yet. */
  method Read(params: ParamList, read: bytes)
    requires params.Valid()
    modifies params, params.inline
    ensures params.Valid() && params.inline == old(params.inline)
    ensures Values(params.View()) == Values(old(params.View())) + [read]
  {
    ValuesPush(params.View(), Binding([], read));
    params.Push([], read);
  }

  /** Undoes every parameter read after the first `n`. */
  method Forget(params: ParamList, n: nat)
    requires params.Valid() && n <= |params.View()|
    modifies params
    ensures params.Valid() && params.inline == old(params.inline)
    ensures Values(params.View()) == Values(old(params.View()))[..n]
  {
    ghost var view := params.View();
    params.Truncate(n);
    assert Values(view[..n]) == Values(view)[..n];
  }

  /** Completes the list of a match that ends in a wildcard node. */
  method Complete<T>(params: ParamList, w: Node<T>, step: Step<T>) returns (r: Reply<T>)
    requires params.Valid() && WF(w, |params.View()|) && Wild(w) && (step.Last? || step.Rest?)
    requires w.value == Some(step.value) && w.remapping == step.names && (step.Last? <==> w.kind.ParamNode?)
    modifies params, params.inline
    ensures params.Valid() && params.inline == old(params.inline)
    ensures Some(r) == Answer(Outcome(step, w), old(Values(params.View())))
  {
    ghost var values := Values(params.View());
    WildNamesFit(w, |values|);
    if step.Last? {
      Read(params, step.read);
      r := HandOut(params, step.value, step.names);
    } else {
      ZipPush(step.names, values, step.key, step.read);
      r := HandOut(params, step.value, step.names);
      params.Push(step.key, step.read);
      r := r.(params := params.View());
    }
  }

  lemma {:induction false} OwnNamesFit<T>(n: Node<T>, d: nat)
    requires Walkable(n, d) && n.value.Some?
    ensures |n.remapping| == d
  {
  }

  lemma {:induction false} WildNamesFit<T>(w: Node<T>, d: nat)
    requires WF(w, d) && Wild(w) && w.value.Some?
    ensures |w.remapping| == if w.kind.ParamNode? then d + 1 else d
  {
  }

  lemma {:induction false} Start<T>(root: Node<T>, full: bytes)
    requires TreeShape(root)
    ensures Walkable(root, 0) && Stacked<T>([], 0, full)
    ensures Answer(Search(root, full), []) == Offers(root, full, [], false, [])
  {
  }

  lemma {:induction false} NothingSkipped<T>(values: seq<bytes>)
    ensures Resume<T>([], values) == None
  {
  }

  datatype Move<T> = Found(reply: Reply<T>) | Moved(node: Node<T>, path: bytes, skipped: seq<Skipped<T>>) | Dead

  /** What a turn of the walk leaves to do is what was there to do before it. */
  ghost predicate Turned<T>(m: Move<T>, before: seq<Binding>, after: seq<Binding>, offers: Option<Reply<T>>, load: nat,
                            skipped: seq<Skipped<T>>) {
    match m
    case Found(reply) => offers == Some(reply)
    case Moved(child, path, stack) =>
      && Walkable(child, |after|) && Stacked(stack, |after|, path)
      && offers == Offers(child, path, Values(after), false, stack)
      && Load(child, false) + Work(stack) < load
    case Dead => before == after && offers == Resume(skipped, Values(after))
  }

  ghost predicate Standing<T>(node: Node<T>, from: bytes, view: seq<Binding>, skipped: seq<Skipped<T>>) {
    Walkable(node, |view|) && Stacked(skipped, |view|, from)
  }

  lemma {:induction false} WildTurn<T>(
    node: Node<T>, from: bytes, before: seq<Binding>, after: seq<Binding>, skipped: seq<Skipped<T>>,
                                       wild: Node<T>, step: Step<T>, m: Move<T>)
    requires Standing(node, from, before, skipped) && |from| > |node.prefix| && Spells(node.prefix, from)
    requires node.wildChild && node.children != [] && wild == node.children[|node.children| - 1]
    requires SearchWild(wild, from[|node.prefix|..]) == Outcome(step, wild)
    requires step.Enter? ==> step.node in wild.children && IsSuffix(step.path, from[|node.prefix|..])
    requires match step
             case Stuck => m == Dead && before == after
             case Enter(child, rest, read) => m == Moved(child, rest, skipped) &&
               Values(after) == Values(before) + [read]
             case _ => m.Found? && Some(m.reply) == Answer(Outcome(step, wild), Values(before))
    ensures Turned(m, before, after, Offers(node, from, Values(before), true, skipped),
            Load(node, true) + Work(skipped), skipped)
  {
    hide Search, SearchWild, Resume, Ahead, Stacked, Walkable, WildAhead, Work, WF, Size;
    var values, path := Values(before), from[|node.prefix|..];
    WildStep(node, from, values);
    if step.Enter? {
      EntersParam(wild, |values|, step.node);
      EnterStep(wild, path, values, step, from, skipped);
    }
  }

  lemma {:induction false} EntersParam<T>(w: Node<T>, d: nat, c: Node<T>)
    requires WF(w, d) && Wild(w) && c in w.children
    ensures w.kind.ParamNode?
  {
  }

  lemma {:induction false} NoWildTurn<T>(node: Node<T>, from: bytes, view: seq<Binding>, skipped: seq<Skipped<T>>)
    requires Standing(node, from, view, skipped) && |from| > |node.prefix| && !node.wildChild
    ensures Turned(Dead, view, view, Offers(node, from, Values(view), true, skipped), Load(node, true) + Work(skipped),
            skipped)
  {
    WildStep(node, from, Values(view));
  }

  lemma {:induction false} WildStands<T>(node: Node<T>, from: bytes, view: seq<Binding>, skipped: seq<Skipped<T>>)
    requires Standing(node, from, view, skipped) && node.wildChild
    ensures node.children != []
    ensures WF(node.children[|node.children| - 1], |view|) && Wild(node.children[|node.children| - 1])
  {
    WalkableWild(node, |view|);
  }

  /** The wildcard half of a turn. */
  method WalkWild<T>(params: ParamList, node: Node<T>, from: bytes, skipped: seq<Skipped<T>>) returns (m: Move<T>)
    requires params.Valid() && Standing(node, from, params.View(), skipped)
    requires |from| > |node.prefix| && Spells(node.prefix, from)
    modifies params, params.inline
    ensures params.Valid() && params.inline == old(params.inline)
    ensures Turned(m, old(params.View()), params.View(), Offers(node, from, old(Values(params.View())), true, skipped),
                   Load(node, true) + Work(skipped), skipped)
  {
    hide Search, SearchWild, Turned, Standing, Offers, Load, Work, WF, Answer, Outcome, Values;
    ghost var before := params.View();
    if !node.wildChild {
      NoWildTurn(node, from, before, skipped);
      return Dead;
    }
    WildStands(node, from, before, skipped);
    var wild := node.children[|node.children| - 1];
    var step := EnterWild(wild, |before|, from[|node.prefix|..]);
    match step {
      case Stuck =>
        m := Dead;
      case Enter(child, rest, read) =>
        Read(params, read);
        m := Moved(child, rest, skipped);
      case _ =>
        var reply := Complete(params, wild, step);
        m := Found(reply);
    }
    WildTurn(node, from, before, params.View(), skipped, wild, step, m);
  }

  lemma {:induction false} LoadShrinks<T>(n: Node<T>, d: nat, backtracking: bool)
    requires Walkable(n, d)
    ensures Load(n, true) <= Load(n, backtracking)
  {
    if n.children != [] {
      SizeOne(n.children, |n.children| - 1);
    }
  }

  lemma {:induction false} TextTurn<T>(
    node: Node<T>, from: bytes, view: seq<Binding>, backtracking: bool, skipped: seq<Skipped<T>>)
    requires Standing(node, from, view, skipped)
    requires backtracking ==> |from| > |node.prefix| && Spells(node.prefix, from)
    ensures |from| == |node.prefix| && Spells(node.prefix, from) && node.value.Some? ==>
              |node.remapping| == |view| &&
              Offers(node, from, Values(view), backtracking, skipped) ==
                Some(Reply(node.value.value, Zip(node.remapping, Values(view))))
    ensures (|from| <= |node.prefix| && !(|from| == |node.prefix| && Spells(node.prefix, from) && node.value.Some?))
            || (|from| > |node.prefix| && !Spells(node.prefix, from)) ==>
              Offers(node, from, Values(view), backtracking, skipped) == Resume(skipped, Values(view))
  {
    hide Search, SearchWild, Resume, Stacked, WF;
    if |from| <= |node.prefix| {
      OwnAnswer(node, |view|, from, Values(view));
      if node.value.Some? { OwnNamesFit(node, |view|); }
    } else if !Spells(node.prefix, from) {
      Mismatch(node, from, Values(view), backtracking);
    }
  }

  lemma {:induction false} StaticTurn<T>(
    node: Node<T>, from: bytes, view: seq<Binding>, i: nat, skipped: seq<Skipped<T>>)
    requires Standing(node, from, view, skipped)
    requires |from| > |node.prefix| && Spells(node.prefix, from) &&
             IndexOf(node.indices, from[|node.prefix|]) == Some(i)
    ensures i < |node.children|
    ensures Turned(Moved(node.children[i], from[|node.prefix|..], Skipping(node, from, |view|, skipped)), view, view,
                   Offers(node, from, Values(view), false, skipped), Load(node, false) + Work(skipped), skipped)
  {
    hide Search, SearchWild, Resume, Ahead, Stacked, Walkable, Load, Work, WF, Size, Offers, Skipping;
    StaticStep(node, from, Values(view), i, skipped);
  }

  /** One turn of the walk: down into a child, to a value, or to a dead end. */
  method Walk<T>(params: ParamList, node: Node<T>, from: bytes, backtracking: bool, skipped: seq<Skipped<T>>)
    returns (m: Move<T>)
    requires params.Valid() && Standing(node, from, params.View(), skipped)
    requires backtracking ==> |from| > |node.prefix| && Spells(node.prefix, from)
    modifies params, params.inline
    ensures params.Valid() && params.inline == old(params.inline)
    ensures Turned(m, old(params.View()), params.View(),
            Offers(node, from, old(Values(params.View())), backtracking, skipped),
                   Load(node, backtracking) + Work(skipped), skipped)
  {
    hide Search, Standing, Offers, Load, Work, Values, Zip, Stacked, Walkable;
    ghost var view := params.View();
    TextTurn(node, from, view, backtracking, skipped);
    if |from| <= |node.prefix| {
      if |from| == |node.prefix| && Spells(node.prefix, from) && node.value.Some? {
        var reply := HandOut(params, node.value.value, node.remapping);
        return Found(reply);
      }
      return Dead;
    }
    if !Spells(node.prefix, from) {
      return Dead;
    }

    // Static children were searched already when the walk comes back to this node.
    if !backtracking {
      var found := IndexOf(node.indices, from[|node.prefix|]);
      if found.Some? {
        StaticTurn(node, from, view, found.value, skipped);
        var count := params.Len();
        return Moved(node.children[found.value], from[|node.prefix|..], Skipping(node, from, count, skipped));
      }
      NoStaticOffers(node, from, view, skipped);
    }

    WalkableLoad(node, from, view, backtracking, skipped);
    m := WalkWild(params, node, from, skipped);
  }

  lemma {:induction false} NoStaticOffers<T>(n: Node<T>, path: bytes, view: seq<Binding>, skipped: seq<Skipped<T>>)
    requires |path| > |n.prefix| && Spells(n.prefix, path) && IndexOf(n.indices, path[|n.prefix|]) == None
    ensures Offers(n, path, Values(view), false, skipped) == Offers(n, path, Values(view), true, skipped)
  {
    NoStatic(n, path, Values(view));
  }

  lemma {:induction false} WalkableLoad<T>(
    n: Node<T>, path: bytes, view: seq<Binding>, backtracking: bool, skipped: seq<Skipped<T>>)
    requires Standing(n, path, view, skipped)
    ensures Load(n, true) <= Load(n, backtracking)
  {
    LoadShrinks(n, |view|, backtracking);
  }

  /** Back to the last wildcard that was skipped: the path left is always an end of the path at that time. */
  method Back<T>(params: ParamList, skipped: seq<Skipped<T>>, ghost d: nat, ghost path: bytes) returns (top: Skipped<T>)
    requires params.Valid() && skipped != [] && d == |params.View()| && Stacked(skipped, d, path)
    modifies params
    ensures params.Valid() && params.inline == old(params.inline)
    ensures top == skipped[|skipped| - 1] && IsSuffix(path, top.path)
    ensures |top.path| > |top.node.prefix| && Spells(top.node.prefix, top.path)
    ensures Standing(top.node, top.path, params.View(), skipped[..|skipped| - 1])
    ensures Resume(skipped, old(Values(params.View()))) ==
            Offers(top.node, top.path, Values(params.View()), true, skipped[..|skipped| - 1])
    ensures Load(top.node, true) + Work(skipped[..|skipped| - 1]) < Work(skipped)
  {
    hide Search, SearchWild, Resume, Ahead, Stacked, Walkable, Load, Work, WF, Offers, Values, Spells;
    top := skipped[|skipped| - 1];
    PopStep(skipped, Values(params.View()), path);
    Forget(params, top.params);
  }

  /** Looks a path up. Whatever it skips and undoes on the way, the answer is that of the recursion. */
  method At<T>(root: Node<T>, full: bytes) returns (r: Option<Reply<T>>)
    requires TreeShape(root)
    ensures r == Answer(Search(root, full), [])
  {
    hide Search, Resume, Answer, Stacked, Walkable, Load, Work, Offers, Values, Spells;
    var node, path, backtracking := root, full, false;
    var params := new ParamList();
    var skipped: seq<Skipped<T>> := [];
    ghost var goal := Answer(Search(root, full), []);
    Start(root, full);
    assert Values([]) == [];

    while true
      invariant params.Valid() && fresh(params) && fresh(params.inline)
      invariant Standing(node, path, params.View(), skipped)
      invariant backtracking ==> |path| > |node.prefix| && Spells(node.prefix, path)
      invariant goal == Offers(node, path, Values(params.View()), backtracking, skipped)
      decreases Load(node, backtracking) + Work(skipped)
    {
      var move := Walk(params, node, path, backtracking, skipped);
      match move {
        case Found(reply) =>
          return Some(reply);
        case Moved(child, rest, stack) =>
          node, path, backtracking, skipped := child, rest, false, stack;
        case Dead =>
          if skipped == [] {
            NothingSkipped<T>(Values(params.View()));
            return None;
          }
          var top := Back(params, skipped, |params.View()|, path);
          skipped := skipped[..|skipped| - 1];
          node, path, backtracking := top.node, top.path, true;
      }
    }
  }
}
