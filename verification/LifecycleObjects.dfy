/** The hooks, which change backend objects, take the steps of the state machine. */
module LifecycleObjects {
  import opened Prelude
  import opened ClientHash
  import opened Backends
  import opened Lifecycle
  import opened LifecycleRuns

  /** One object per backend of the state, with its counters and its health. */
  ghost predicate Mirrors(s: State, objects: seq<Backend>)
    reads objects
  {
    && |objects| == |s.stats| == |s.health|
    && (forall i, k | 0 <= i < k < |objects| :: objects[i] != objects[k])
    && forall i | 0 <= i < |objects| :: objects[i].Counters() == s.stats[i] && objects[i].healthy == s.health[i]
  }

  ghost function ObjectsAt(ids: seq<Id>, objects: seq<Backend>): seq<Backend>
    requires forall k | 0 <= k < |ids| :: ids[k] < |objects|
  {
    seq(|ids|, k requires 0 <= k < |ids| => objects[ids[k]])
  }

  ghost function ClustersOf(upstreams: seq<Upstream>, objects: seq<Backend>): seq<Cluster>
    requires KnownAll(upstreams, |objects|)
  {
    seq(|upstreams|, i requires 0 <= i < |upstreams| =>
      assert Known(upstreams[i], |objects|);
      Cluster(upstreams[i].strategy, ObjectsAt(upstreams[i].servers, objects)))
  }

  ghost predicate HoldsSame(ctx: RequestContext, q: Request, objects: seq<Backend>)
    requires q.held.Some? ==> q.held.value < |objects|
    reads ctx
  {
    ctx.selected == if q.held.Some? then objects[q.held.value] else null
  }

  lemma {:induction false} ServersAreObjects(upstreams: seq<Upstream>, objects: seq<Backend>, i: nat)
    requires KnownAll(upstreams, |objects|)
    ensures forall b | b in Servers(ClustersOf(upstreams, objects), i) :: b in objects
  {
    if i < |upstreams| {
      assert Known(upstreams[i], |objects|);
    }
  }

  /** Objects that mirror a state make the choice of the state. */
  lemma {:induction false} SameChoice(
    s: State, q: Request, objects: seq<Backend>, held: Backend?, client: IpAddr, ticket: nat)
    requires Sound(s) && Mirrors(s, objects) && RequestOk(q, |s.servers|) && client.Valid()
    requires held == if q.held.Some? then objects[q.held.value] else null
    requires held != null ==> held.active > 0
    ensures var place := RetryChoice(s.machine, ClustersOf(q.upstreams, objects), q.upstream, client, ticket, held);
            var choice := Choice(s, q.upstreams, q.upstream, GivenBack(s, q, true), client, ticket);
            if place.Some? then
              && place.value < |Servers(ClustersOf(q.upstreams, objects), q.upstream)| && choice.Some?
              && choice.value < |objects|
              && Servers(ClustersOf(q.upstreams, objects), q.upstream)[place.value] == objects[choice.value]
            else choice.None?
  {
    hide Choose;
    if q.upstream < |q.upstreams| {
      var u, stats := q.upstreams[q.upstream], GivenBack(s, q, true);
      assert Known(u, |s.stats|);
      var servers := ObjectsAt(u.servers, objects);
      SameHealth(s, objects, u.servers);
      SameActive(s, q, objects, u.servers, held);
      PlaceSound(s, u, stats, client, ticket);
      ChoiceKnown(s, q.upstreams, q.upstream, stats, client, ticket);
    }
  }

  lemma {:induction false} SameHealth(s: State, objects: seq<Backend>, ids: seq<Id>)
    requires Mirrors(s, objects) && forall k | 0 <= k < |ids| :: ids[k] < |objects|
    ensures HealthOf(ObjectsAt(ids, objects)) == HealthAt(s.health, ids)
  {
  }

  lemma {:induction false} SameActive(s: State, q: Request, objects: seq<Backend>, ids: seq<Id>, held: Backend?)
    requires Mirrors(s, objects) && forall k | 0 <= k < |ids| :: ids[k] < |objects|
    requires q.held.Some? ==> q.held.value < |objects|
    requires held == if q.held.Some? then objects[q.held.value] else null
    requires held != null ==> held.active > 0
    ensures ActiveWithout(ObjectsAt(ids, objects), held) == ActiveAt(GivenBack(s, q, true), ids)
  {
    var x, y := ActiveWithout(ObjectsAt(ids, objects), held), ActiveAt(GivenBack(s, q, true), ids);
    forall k | 0 <= k < |ids| ensures x[k] == y[k] {
      var b := ids[k];
      assert q.held.Some? ==> (objects[b] == held <==> b == q.held.value);
      assert objects[b].Counters() == s.stats[b];
    }
  }

  lemma {:induction false} SelectedOk(s: State, r: nat, client: IpAddr, ticket: nat)
    requires Inv(s) && r in s.requests && client.Valid()
    ensures RequestOk(Next(s, Select(r, client, ticket)).requests[r], |s.servers|)
  {
    hide Choice;
    StepKeeps(s, Select(r, client, ticket));
  }

  /** The hook that selects a backend takes the step that selects one. */
  method SelectStep(
    ctx: RequestContext, clusters: seq<Cluster>, id: nat, m: Machine, client: IpAddr, tickets: TicketCell,
    ghost s: State, ghost r: nat, ghost objects: seq<Backend>) returns (selected: Selected, ghost t: State)
    requires Inv(s) && r in s.requests && Mirrors(s, objects) && RequestOk(s.requests[r], |objects|)
    requires clusters == ClustersOf(s.requests[r].upstreams, objects) && id == s.requests[r].upstream
    requires m == s.machine && client.Valid() && tickets.value < m.word && |Servers(clusters, id)| < m.word
    requires HoldsSame(ctx, s.requests[r], objects)
    modifies ctx, tickets, set b | b in objects
    ensures t == Next(s, Select(r, client, old(tickets.value)))
    ensures Mirrors(t, objects) && RequestOk(t.requests[r], |objects|) && HoldsSame(ctx, t.requests[r], objects)
  {
    hide RetryChoice, Choice, ClustersOf, Servers, Counts;
    ghost var q := s.requests[r];
    ServersAreObjects(q.upstreams, objects, id);
    if q.held.Some? {
      HeldIsCounted(s, r);
    }
    SameChoice(s, q, objects, ctx.selected, client, tickets.value);
    t := Next(s, Select(r, client, tickets.value));
    SelectedOk(s, r, client, tickets.value);
    assert forall b | b in Held(ctx.selected) :: b in objects;
    assert forall b | b in Servers(clusters, id) :: b in objects;
    selected := ctx.UpstreamPeer(m, clusters, id, client, tickets);
    forall i | 0 <= i < |objects|
      ensures objects[i].Counters() == t.stats[i] && objects[i].healthy == t.health[i]
    {
      assert old(objects[i].Counters()) == s.stats[i];
    }
  }

  /** The hook at the end of a request takes the step that ends it. */
  method FinishStep(
    ctx: RequestContext, upstreamError: bool, ghost s: State, ghost r: nat, ghost objects: seq<Backend>)
    returns (ghost t: State)
    requires Inv(s) && r in s.requests && Mirrors(s, objects) && RequestOk(s.requests[r], |objects|)
    requires HoldsSame(ctx, s.requests[r], objects)
    modifies objects
    ensures t == Next(s, Finish(r, upstreamError)) && Mirrors(t, objects)
  {
    if s.requests[r].held.Some? {
      HeldIsCounted(s, r);
    }
    t := Next(s, Finish(r, upstreamError));
    ctx.Logging(upstreamError);
    forall i | 0 <= i < |objects|
      ensures objects[i].Counters() == t.stats[i] && objects[i].healthy == t.health[i]
    {
      assert old(objects[i].Counters()) == s.stats[i];
    }
  }
}
