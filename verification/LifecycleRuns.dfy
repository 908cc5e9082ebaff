/** Over every run, counters and requests agree. */
module LifecycleRuns {
  import opened Prelude
  import opened ClientHash
  import opened Backends
  import opened Lifecycle

  /** The live requests that hold a backend. */
  ghost function Holders(requests: map<nat, Request>, b: Id): set<nat> {
    set r | r in requests && requests[r].held == Some(b)
  }

  ghost predicate RequestOk(q: Request, n: nat) {
    KnownAll(q.upstreams, n) && (q.held.Some? ==> q.held.value < n)
  }

  /** Every reference is to a backend that exists. */
  ghost predicate Sound(s: State) {
    && s.machine.Known() && |s.servers| == |s.stats| == |s.health|
    && KnownAll(s.upstreams, |s.servers|)
    && forall r | r in s.requests :: RequestOk(s.requests[r], |s.servers|)
  }

  /** As many connections as requests that hold the backend, and no more failures than requests that ended. */
  ghost predicate Counts(s: State, b: Id)
    requires b < |s.stats|
  {
    && s.stats[b].active == |Holders(s.requests, b)|
    && s.stats[b].failed + s.stats[b].active <= s.stats[b].total
  }

  ghost predicate Inv(s: State) {
    Sound(s) && forall b | 0 <= b < |s.stats| :: Counts(s, b)
  }

  ghost predicate Enabled(s: State, step: Step) {
    match step
    case Begin(r, _) => r !in s.requests
    case Select(r, client, _) => r in s.requests && client.Valid()
    case Finish(r, _) => r in s.requests
    case Check(b, _) => b < |s.health|
    case Reload(_) => true
  }

  ghost function GivenBack(s: State, q: Request, failure: bool): seq<Stats>
    requires q.held.Some? ==> q.held.value < |s.stats|
  {
    if q.held.Some? then s.stats[q.held.value := Released(s.stats[q.held.value], failure)] else s.stats
  }

  ghost function Next(s: State, step: Step): State
    requires Sound(s) && Enabled(s, step)
  {
    match step
    case Begin(r, u) => s.(requests := s.requests[r := Request(s.upstreams, u, None)])
    case Select(r, client, ticket) =>
      var q := s.requests[r];
      assert RequestOk(q, |s.servers|);
      var stats := GivenBack(s, q, true);
      var choice := Choice(s, q.upstreams, q.upstream, stats, client, ticket);
      ChoiceKnown(s, q.upstreams, q.upstream, stats, client, ticket);
      s.(stats := if choice.Some? then stats[choice.value := Acquired(stats[choice.value])] else stats,
         requests := s.requests[r := q.(held := choice)])
    case Finish(r, failure) =>
      assert RequestOk(s.requests[r], |s.servers|);
      s.(stats := GivenBack(s, s.requests[r], failure), requests := s.requests - {r})
    case Check(b, healthy) => s.(health := s.health[b := healthy])
    case Reload(config) => Reloaded(s, config)
  }

  lemma {:induction false} ChoiceKnown(
    s: State, upstreams: seq<Upstream>, i: nat, stats: seq<Stats>, client: IpAddr, ticket: nat)
    requires s.machine.Known() && client.Valid()
    requires KnownAll(upstreams, |s.stats|) && |stats| == |s.stats| == |s.health|
    ensures var c := Choice(s, upstreams, i, stats, client, ticket);
            c.Some? ==> c.value < |s.stats| && i < |upstreams| && c.value in upstreams[i].servers && s.health[c.value]
  {
    if i < |upstreams| {
      assert Known(upstreams[i], |s.stats|);
      PlaceSound(s, upstreams[i], stats, client, ticket);
    }
  }

  // ----- Counting holders -----

  lemma {:induction false} HoldersChange(requests: map<nat, Request>, r: nat, q: Request, b: Id)
    requires r in requests
    ensures |Holders(requests[r := q], b)| ==
            |Holders(requests, b)| - One(requests[r].held == Some(b)) + One(q.held == Some(b))
  {
    var was, now := Holders(requests, b), Holders(requests[r := q], b);
    assert was - {r} == now - {r};
    assert r in was <==> requests[r].held == Some(b);
    assert r in now <==> q.held == Some(b);
    SizeWithout(was, r);
    SizeWithout(now, r);
  }

  lemma {:induction false} SizeWithout(s: set<nat>, r: nat)
    ensures |s| == |s - {r}| + One(r in s)
  {
    if r in s {
      assert s == (s - {r}) + {r};
    } else {
      assert s - {r} == s;
    }
  }

  lemma {:induction false} HoldersGone(requests: map<nat, Request>, r: nat, b: Id)
    requires r in requests
    ensures |Holders(requests - {r}, b)| == |Holders(requests, b)| - One(requests[r].held == Some(b))
  {
    var was, now := Holders(requests, b), Holders(requests - {r}, b);
    assert now == was - {r};
    SizeWithout(was, r);
  }

  lemma {:induction false} HoldersNew(requests: map<nat, Request>, r: nat, q: Request, b: Id)
    requires r !in requests && q.held.None?
    ensures Holders(requests[r := q], b) == Holders(requests, b)
  {
  }

  // ----- Steps -----

  /** Only what a request holds can be given back, so a release never finds the counter at zero. */
  lemma {:induction false} HeldIsCounted(s: State, r: nat)
    requires Inv(s) && r in s.requests && s.requests[r].held.Some?
    ensures s.requests[r].held.value < |s.stats| && s.stats[s.requests[r].held.value].active > 0
  {
    assert RequestOk(s.requests[r], |s.servers|);
    var b := s.requests[r].held.value;
    assert Counts(s, b);
    assert r in Holders(s.requests, b);
  }

  lemma {:induction false} SelectKeeps(s: State, r: nat, client: IpAddr, ticket: nat)
    requires Inv(s) && r in s.requests && client.Valid()
    ensures Inv(Next(s, Select(r, client, ticket)))
  {
    hide Choice;
    var q, t := s.requests[r], Next(s, Select(r, client, ticket));
    assert RequestOk(q, |s.servers|);
    var stats := GivenBack(s, q, true);
    ChoiceKnown(s, q.upstreams, q.upstream, stats, client, ticket);
    forall x | x in t.requests ensures RequestOk(t.requests[x], |t.servers|) {
      assert x != r ==> RequestOk(s.requests[x], |s.servers|);
    }
    forall b | 0 <= b < |t.stats| ensures Counts(t, b) {
      assert Counts(s, b);
      HoldersChange(s.requests, r, t.requests[r], b);
    }
  }

  lemma {:induction false} FinishKeeps(s: State, r: nat, failure: bool)
    requires Inv(s) && r in s.requests
    ensures Inv(Next(s, Finish(r, failure)))
  {
    var t := Next(s, Finish(r, failure));
    assert RequestOk(s.requests[r], |s.servers|);
    forall x | x in t.requests ensures RequestOk(t.requests[x], |t.servers|) {
      assert RequestOk(s.requests[x], |s.servers|);
    }
    forall b | 0 <= b < |t.stats| ensures Counts(t, b) {
      assert Counts(s, b);
      HoldersGone(s.requests, r, b);
    }
  }

  lemma {:induction false} BeginKeeps(s: State, r: nat, u: nat)
    requires Inv(s) && r !in s.requests
    ensures Inv(Next(s, Begin(r, u)))
  {
    var t := Next(s, Begin(r, u));
    forall x | x in t.requests ensures RequestOk(t.requests[x], |t.servers|) {
      assert x != r ==> RequestOk(s.requests[x], |s.servers|);
    }
    forall b | 0 <= b < |t.stats| ensures Counts(t, b) {
      assert Counts(s, b);
      HoldersNew(s.requests, r, t.requests[r], b);
    }
  }

  // ----- A reload -----

  lemma {:induction false} PlacesKnown(servers: seq<Server>, kept: seq<Id>, wanted: seq<Server>, next: nat)
    requires (forall k | 0 <= k < |kept| :: kept[k] < |servers|) && next >= |servers|
    ensures forall k | 0 <= k < |wanted| ::
              Places(servers, kept, wanted, next)[k] < next + |Fresh(servers, kept, wanted)|
  {
    if wanted != [] {
      var more := if Same(servers, kept, wanted[0]).None? then next + 1 else next;
      PlacesKnown(servers, kept, wanted[1..], more);
      assert forall k | 0 < k < |wanted| ::
             Places(servers, kept, wanted, next)[k] == Places(servers, kept, wanted[1..], more)[k - 1];
    }
  }

  lemma {:induction false} BuildKnown(servers: seq<Server>, current: seq<Upstream>, config: seq<UpstreamConfig>)
    requires KnownAll(current, |servers|)
    ensures KnownAll(Build(servers, current, config).upstreams, |servers| + |Build(servers, current, config).added|)
    decreases |config|
  {
    if config != [] {
      var n := |config| - 1;
      BuildKnown(servers, current, config[..n]);
      var before, all := Build(servers, current, config[..n]), Build(servers, current, config);
      var kept := OldIds(current, config[n].name);
      OldKnown(current, config[n].name, |servers|);
      PlacesKnown(servers, kept, config[n].servers, |servers| + |before.added|);
      forall i | 0 <= i < |all.upstreams| ensures Known(all.upstreams[i], |servers| + |all.added|) {
        if i < n {
          assert Known(before.upstreams[i], |servers| + |before.added|);
        }
      }
    }
  }

  lemma {:induction false} ReloadKeeps(s: State, config: seq<UpstreamConfig>)
    requires Inv(s)
    ensures Inv(Reloaded(s, config))
  {
    hide Build;
    var t := Reloaded(s, config);
    BuildKnown(s.servers, s.upstreams, config);
    forall x | x in t.requests ensures RequestOk(t.requests[x], |t.servers|) {
      assert RequestOk(s.requests[x], |s.servers|);
      MoreKnown(s.requests[x].upstreams, |s.servers|, |t.servers|);
    }
    forall b | 0 <= b < |t.stats| ensures Counts(t, b) {
      if b < |s.stats| {
        assert Counts(s, b);
      } else {
        NobodyHolds(s, b);
      }
    }
  }

  lemma {:induction false} MoreKnown(upstreams: seq<Upstream>, n: nat, m: nat)
    requires KnownAll(upstreams, n) && n <= m
    ensures KnownAll(upstreams, m)
  {
    forall i | 0 <= i < |upstreams| ensures Known(upstreams[i], m) { assert Known(upstreams[i], n); }
  }

  lemma {:induction false} NobodyHolds(s: State, b: Id)
    requires Sound(s) && b >= |s.stats|
    ensures Holders(s.requests, b) == {}
  {
    forall r | r in s.requests ensures s.requests[r].held != Some(b) { assert RequestOk(s.requests[r], |s.servers|); }
  }

  // ----- Runs -----

  lemma {:induction false} StepKeeps(s: State, step: Step)
    requires Inv(s) && Enabled(s, step)
    ensures Inv(Next(s, step))
  {
    match step
    case Begin(r, u) => BeginKeeps(s, r, u);
    case Select(r, client, ticket) => SelectKeeps(s, r, client, ticket);
    case Finish(r, failure) => FinishKeeps(s, r, failure);
    case Check(b, healthy) =>
      forall x | 0 <= x < |s.stats| ensures Counts(Next(s, step), x) { assert Counts(s, x); }
    case Reload(config) => ReloadKeeps(s, config);
  }

  ghost predicate Run(states: seq<State>, steps: seq<Step>) {
    && |states| == |steps| + 1 && states[0].machine.Known()
    && states[0] == State(states[0].machine, [], [], [], [], map[])
    && forall i | 0 <= i < |steps| :: Sound(states[i]) ==>
         Enabled(states[i], steps[i]) && states[i + 1] == Next(states[i], steps[i])
  }

  lemma {:induction false} RunInv(states: seq<State>, steps: seq<Step>, i: nat)
    requires Run(states, steps) && i <= |steps|
    ensures Inv(states[i])
  {
    hide Next, Enabled;
    if i > 0 {
      RunInv(states, steps, i - 1);
      StepKeeps(states[i - 1], steps[i - 1]);
    }
  }

  /**
   In every state of every run each backend, reloads or not, counts exactly the live requests that
   hold it, and its failures and open connections never exceed the requests it was given.
   */
  lemma {:induction false} CountersAgree(states: seq<State>, steps: seq<Step>, i: nat, b: Id)
    requires Run(states, steps) && i <= |steps| && b < |states[i].stats|
    ensures states[i].stats[b].active == |Holders(states[i].requests, b)| >= 0
    ensures states[i].stats[b].failed + states[i].stats[b].active <= states[i].stats[b].total
  {
    RunInv(states, steps, i);
    assert Counts(states[i], b);
  }

  /** No step of any run gives back a backend whose count is zero. */
  lemma {:induction false} NeverUnderflows(states: seq<State>, steps: seq<Step>, i: nat, r: nat)
    requires Run(states, steps) && i < |steps| && r in states[i].requests && states[i].requests[r].held.Some?
    ensures var b := states[i].requests[r].held.value; b < |states[i].stats| && states[i].stats[b].active > 0
  {
    RunInv(states, steps, i);
    HeldIsCounted(states[i], r);
  }

  // ----- What a selection sees -----

  /** How many other requests hold each of these backends. */
  ghost function OthersAt(requests: map<nat, Request>, r: nat, ids: seq<Id>): seq<nat> {
    seq(|ids|, k requires 0 <= k < |ids| => |Holders(requests - {r}, ids[k])|)
  }

  lemma {:induction false} SeesOthers(s: State, r: nat, ids: seq<Id>)
    requires Inv(s) && r in s.requests && forall k | 0 <= k < |ids| :: ids[k] < |s.stats|
    ensures s.requests[r].held.Some? ==> s.requests[r].held.value < |s.stats|
    ensures ActiveAt(GivenBack(s, s.requests[r], true), ids) == OthersAt(s.requests, r, ids)
  {
    assert RequestOk(s.requests[r], |s.servers|);
    var x, y := ActiveAt(GivenBack(s, s.requests[r], true), ids), OthersAt(s.requests, r, ids);
    forall k | 0 <= k < |ids| ensures x[k] == y[k] {
      assert Counts(s, ids[k]);
      HoldersGone(s.requests, r, ids[k]);
    }
  }

  /**
   A selection answers from the upstream the request began with, by its strategy, the health of its
   backends and how many other requests hold them; whatever it held before plays no part.
   */
  lemma {:induction false} SelectByOthers(s: State, r: nat, client: IpAddr, ticket: nat)
    requires Inv(s) && r in s.requests && client.Valid()
    ensures var q, t := s.requests[r], Next(s, Select(r, client, ticket));
            && r in t.requests && t.requests[r] == q.(held := t.requests[r].held)
            && if q.upstream >= |q.upstreams| then t.requests[r].held == None
               else
                 var u := q.upstreams[q.upstream];
                 && (forall k | 0 <= k < |u.servers| :: u.servers[k] < |s.health|)
                 && var place := Choose(s.machine, u.strategy, HealthAt(s.health, u.servers),
                                        OthersAt(s.requests, r, u.servers), client, ticket);
                    if place.None? then t.requests[r].held == None
                    else place.value < |u.servers| && t.requests[r].held == Some(u.servers[place.value])
  {
    hide Choose, Counts, OthersAt, ActiveAt, HealthAt;
    var q := s.requests[r];
    assert RequestOk(q, |s.servers|);
    if q.upstream < |q.upstreams| {
      var u := q.upstreams[q.upstream];
      assert Known(u, |s.stats|);
      SeesOthers(s, r, u.servers);
      PlaceSound(s, u, GivenBack(s, q, true), client, ticket);
    }
  }

  /** What a request holds is a backend of the upstream it began with. */
  ghost predicate Offered(q: Request) {
    q.held.Some? ==> q.upstream < |q.upstreams| && q.held.value in q.upstreams[q.upstream].servers
  }

  /**
   One step: a request that is there before and after keeps its upstreams, and if the step gives it
   another backend, that one is healthy and of its upstream.
   */
  lemma {:induction false} StepKeepsRequest(s: State, step: Step, r: nat)
    requires Inv(s) && Enabled(s, step) && r in Next(s, step).requests
    ensures var t := Next(s, step);
            if r in s.requests then
              && t.requests[r].upstreams == s.requests[r].upstreams && t.requests[r].upstream == s.requests[r].upstream
              && (t.requests[r].held == s.requests[r].held || (Offered(t.requests[r]) && HealthyHeld(s, t.requests[r])))
            else step == Begin(r, t.requests[r].upstream) && t.requests[r] == Request(s.upstreams, step.upstream, None)
  {
    hide Choice, Build, Counts;
    match step
    case Begin(_, _) =>
    case Select(x, client, ticket) =>
      var q := s.requests[x];
      assert RequestOk(q, |s.servers|);
      ChoiceKnown(s, q.upstreams, q.upstream, GivenBack(s, q, true), client, ticket);
    case Finish(_, _) =>
    case Check(_, _) =>
    case Reload(_) =>
  }

  ghost predicate HealthyHeld(s: State, q: Request) {
    q.held.Some? ==> q.held.value < |s.health| && s.health[q.held.value]
  }

  /** In every state of every run, every request holds nothing or a backend of the upstream it began with. */
  lemma {:induction false} HeldIsOffered(states: seq<State>, steps: seq<Step>, i: nat, r: nat)
    requires Run(states, steps) && i <= |steps| && r in states[i].requests
    ensures Offered(states[i].requests[r])
  {
    hide Next, Enabled, Offered;
    RunInv(states, steps, i);
    if i > 0 {
      RunInv(states, steps, i - 1);
      StepKeepsRequest(states[i - 1], steps[i - 1], r);
      if r in states[i - 1].requests {
        HeldIsOffered(states, steps, i - 1, r);
        SameOffer(states[i - 1].requests[r], states[i].requests[r]);
      } else {
        assert Offered(states[i].requests[r]) by { NothingOffered(states[i].requests[r]); }
      }
    }
  }

  lemma {:induction false} SameOffer(q: Request, x: Request)
    requires Offered(q) && x.upstreams == q.upstreams && x.upstream == q.upstream && (x.held == q.held || Offered(x))
    ensures Offered(x)
  {
  }

  lemma {:induction false} NothingOffered(q: Request)
    requires q.held.None?
    ensures Offered(q)
  {
  }

  // ----- What the totals count -----

  /** The backend a step of a request finds held. */
  ghost function HeldBefore(s: State, step: Step): Option<Id> {
    if (step.Select? || step.Finish?) && step.r in s.requests then s.requests[step.r].held else None
  }

  /** The backend a selection leaves held. */
  ghost function HeldAfter(t: State, step: Step): Option<Id> {
    if step.Select? && step.r in t.requests then t.requests[step.r].held else None
  }

  /** Among the first `i` steps, the selections that chose `b`. */
  ghost function Selections(states: seq<State>, steps: seq<Step>, i: nat, b: Id): nat
    requires |states| == |steps| + 1 && i <= |steps|
  {
    if i == 0 then 0 else Selections(states, steps, i - 1, b) + One(HeldAfter(states[i], steps[i - 1]) == Some(b))
  }

  /** Among the first `i` steps, the tries at `b` that were charged: tried again, or ended in an upstream error. */
  ghost function Charged(states: seq<State>, steps: seq<Step>, i: nat, b: Id): nat
    requires |states| == |steps| + 1 && i <= |steps|
  {
    if i == 0 then 0
    else
      var step := steps[i - 1];
      Charged(states, steps, i - 1, b) +
      One(HeldBefore(states[i - 1], step) == Some(b) && (step.Finish? ==> step.upstreamError))
  }

  /** One step moves the totals of a backend by what it does to it; a new backend starts at zero. */
  lemma {:induction false} StepCounts(s: State, step: Step, b: Id)
    requires Inv(s) && Enabled(s, step)
    ensures var t := Next(s, step);
            var was := if b < |s.stats| then s.stats[b] else Stats(0, 0, 0);
            if b < |t.stats| then
              && t.stats[b].total == was.total + One(HeldAfter(t, step) == Some(b))
              && t.stats[b].failed ==
                 was.failed + One(HeldBefore(s, step) == Some(b) && (step.Finish? ==> step.upstreamError))
            else b >= |s.stats| && HeldAfter(t, step) != Some(b) && HeldBefore(s, step) != Some(b)
  {
    hide Choice, Build;
    StepKeeps(s, step);
    match step
    case Begin(_, _) =>
    case Select(r, client, ticket) =>
      assert RequestOk(s.requests[r], |s.servers|);
      assert RequestOk(Next(s, step).requests[r], |s.servers|);
    case Finish(r, _) =>
      assert RequestOk(s.requests[r], |s.servers|);
    case Check(_, _) =>
    case Reload(_) =>
  }

  /**
   In every state of every run the total of a backend is the number of selections that chose it, and its
   failures are the tries at it that were charged; a backend that does not exist yet has neither.
   */
  lemma {:induction false} TotalsCount(states: seq<State>, steps: seq<Step>, i: nat, b: Id)
    requires Run(states, steps) && i <= |steps|
    ensures if b < |states[i].stats| then
              && states[i].stats[b].total == Selections(states, steps, i, b)
              && states[i].stats[b].failed == Charged(states, steps, i, b)
            else Selections(states, steps, i, b) == 0 && Charged(states, steps, i, b) == 0
  {
    hide Next, Enabled, HeldBefore, HeldAfter;
    if i > 0 {
      TotalsCount(states, steps, i - 1, b);
      RunInv(states, steps, i - 1);
      StepCounts(states[i - 1], steps[i - 1], b);
    }
  }

  // ----- What a reload carries over -----

  /**
   One server of one upstream after a reload: the old backend at that address and protocol, with its
   counters, or a new one at zero.
   */
  ghost predicate Carried(s: State, t: State, name: bytes, server: Server, b: Id)
    requires Sound(s) && |s.stats| <= |t.stats| && |t.servers| == |t.stats|
  {
    OldKnown(s.upstreams, name, |s.servers|);
    var same := Same(s.servers, OldIds(s.upstreams, name), server);
    && b < |t.stats|
    && if same.Some? then b == same.value && t.stats[b] == s.stats[b] && t.servers[b] == server
       else b >= |s.stats| && t.stats[b] == Stats(0, 0, 0) && t.servers[b] == server
  }

  /** Backend `b` stands for the server: a kept one, or one of those added from `next` on. */
  ghost predicate StandsFor(servers: seq<Server>, kept: seq<Id>, server: Server, b: Id, next: nat, added: seq<Server>)
    requires forall x | 0 <= x < |kept| :: kept[x] < |servers|
  {
    match Same(servers, kept, server)
    case Some(x) => b == x
    case None => next <= b < next + |added| && added[b - next] == server
  }

  lemma {:induction false} PlacesMean(servers: seq<Server>, kept: seq<Id>, wanted: seq<Server>, next: nat, k: nat)
    requires (forall x | 0 <= x < |kept| :: kept[x] < |servers|) && k < |wanted|
    ensures StandsFor(servers, kept, wanted[k], Places(servers, kept, wanted, next)[k], next,
            Fresh(servers, kept, wanted))
  {
    var more := if Same(servers, kept, wanted[0]).None? then next + 1 else next;
    if k > 0 {
      PlacesMean(servers, kept, wanted[1..], more, k - 1);
      assert wanted[1..][k - 1] == wanted[k];
    }
  }

  lemma {:induction false} StandsStill(
    servers: seq<Server>, kept: seq<Id>, server: Server, b: Id, next: nat, x: seq<Server>, y: seq<Server>)
    requires forall x | 0 <= x < |kept| :: kept[x] < |servers|
    ensures StandsFor(servers, kept, server, b, next, x) ==> StandsFor(servers, kept, server, b, next, x + y)
    ensures StandsFor(servers, kept, server, b, next + |x|, y) ==> StandsFor(servers, kept, server, b, next, x + y)
  {
  }

  lemma {:induction false} BuildMeans(
    servers: seq<Server>, current: seq<Upstream>, config: seq<UpstreamConfig>, i: nat, k: nat)
    requires KnownAll(current, |servers|) && i < |config| && k < |config[i].servers|
    ensures var r := Build(servers, current, config);
            && |r.upstreams[i].servers| == |config[i].servers|
            && (forall x | 0 <= x < |OldIds(current, config[i].name)| :: OldIds(current, config[i].name)[x] < |servers|)
            && StandsFor(servers, OldIds(current, config[i].name), config[i].servers[k], r.upstreams[i].servers[k],
               |servers|, r.added)
    decreases |config|
  {
    hide StandsFor, OldIds, Places, Fresh;
    var n := |config| - 1;
    var before, kept := Build(servers, current, config[..n]), OldIds(current, config[i].name);
    OldKnown(current, config[i].name, |servers|);
    OldKnown(current, config[n].name, |servers|);
    var wanted, added := config[n].servers, Fresh(servers, OldIds(current, config[n].name), config[n].servers);
    if i < n {
      BuildMeans(servers, current, config[..n], i, k);
      StandsStill(servers, kept, config[i].servers[k], before.upstreams[i].servers[k], |servers|, before.added, added);
    } else {
      var next := |servers| + |before.added|;
      PlacesMean(servers, kept, wanted, next, k);
      StandsStill(servers, kept, wanted[k], Places(servers, kept, wanted, next)[k], |servers|, before.added, added);
    }
  }

  /**
   A reload keeps every backend whose upstream name, address and protocol stay, counters and all, and
   starts the others at zero.
   */
  lemma {:induction false} ReloadCarries(s: State, config: seq<UpstreamConfig>, i: nat, k: nat)
    requires Sound(s) && i < |config| && k < |config[i].servers|
    ensures var t := Reloaded(s, config);
            && |t.upstreams| == |config| && |t.upstreams[i].servers| == |config[i].servers|
            && Carried(s, t, config[i].name, config[i].servers[k], t.upstreams[i].servers[k])
            && t.requests == s.requests && t.stats[..|s.stats|] == s.stats
  {
    hide Build, OldIds;
    BuildMeans(s.servers, s.upstreams, config, i, k);
  }

  lemma {:induction false} BuildNames(
    servers: seq<Server>, current: seq<Upstream>, config: seq<UpstreamConfig>, i: nat)
    requires KnownAll(current, |servers|) && i < |config|
    ensures var u := Build(servers, current, config).upstreams[i];
            u.name == config[i].name && u.strategy == config[i].strategy && |u.servers| == |config[i].servers|
    decreases |config|
  {
    hide OldIds;
    var n := |config| - 1;
    OldKnown(current, config[n].name, |servers|);
    if i < n {
      BuildNames(servers, current, config[..n], i);
    }
  }

  /**
   After a reload the upstreams have the names, strategies and numbers of servers of the configuration.
   Old backends keep their health and new ones start healthy.
   */
  lemma {:induction false} ReloadNames(s: State, config: seq<UpstreamConfig>)
    requires Sound(s)
    ensures var t := Reloaded(s, config);
            && |t.upstreams| == |config|
            && (forall i | 0 <= i < |config| ::
                  && t.upstreams[i].name == config[i].name && t.upstreams[i].strategy == config[i].strategy
                  && |t.upstreams[i].servers| == |config[i].servers|)
            && |t.health| == |t.stats| == |t.servers| >= |s.health|
            && t.health[..|s.health|] == s.health
            && forall b | |s.health| <= b < |t.health| :: t.health[b]
  {
    hide Build;
    forall i | 0 <= i < |config|
      ensures var u := Reloaded(s, config).upstreams[i];
              u.name == config[i].name && u.strategy == config[i].strategy && |u.servers| == |config[i].servers|
    {
      BuildNames(s.servers, s.upstreams, config, i);
    }
  }
}
