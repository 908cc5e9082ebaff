/** Requests that take and give back backends, and configurations that change under them. */
module Lifecycle {
  import opened Prelude
  import opened ClientHash
  import opened Balancer
  import opened Backends

  // ----- One request, as the proxy hooks run it -----

  function One(b: bool): nat {
    if b then 1 else 0
  }

  function Held(b: Backend?): set<Backend> {
    if b == null then {} else {b}
  }

  /** What the choice of a retry sees: the backend held so far already given back. */
  ghost function ActiveWithout(backends: seq<Backend>, held: Backend?): seq<nat>
    requires held != null ==> held.active > 0
    reads backends, held
  {
    seq(|backends|, i requires 0 <= i < |backends| && (held != null ==> held.active > 0) reads backends, held =>
      backends[i].active - One(backends[i] == held))
  }

  ghost function RetryChoice(
    m: Machine, clusters: seq<Cluster>, id: nat, client: IpAddr, ticket: nat, held: Backend?): Option<nat>
    requires m.Known() && client.Valid() && (held != null ==> held.active > 0)
    reads Servers(clusters, id), held
  {
    if id < |clusters| then
      var backends := clusters[id].servers;
      Choose(m, clusters[id].strategy, HealthOf(backends), ActiveWithout(backends, held), client, ticket)
    else None
  }

  class RequestContext {
    var selected: Backend?

    constructor ()
      ensures selected == null
    {
      selected := null;
    }

    /** The backend of an earlier try is given back and charged with the failure. */
    method GiveBack()
      requires selected != null ==> selected.active > 0
      modifies this, Held(selected)`active, Held(selected)`failed
      ensures selected == null
      ensures old(selected) != null ==> old(selected).Counters() == Released(old(selected.Counters()), true)
    {
      if selected != null {
        selected.Release();
        selected.RecordFailure();
        selected := null;
      }
    }

    /** Selects a backend; one held from an earlier try is given back first and charged with the failure. */
    method UpstreamPeer(m: Machine, clusters: seq<Cluster>, id: nat, client: IpAddr, tickets: TicketCell)
      returns (r: Selected)
      requires m.Known() && client.Valid() && tickets.value < m.word && |Servers(clusters, id)| < m.word
      requires selected != null ==> selected.active > 0
      modifies this, tickets, Held(selected)`active, Held(selected)`failed
      modifies Servers(clusters, id)`active, Servers(clusters, id)`total
      ensures var p := old(RetryChoice(m, clusters, id, client, tickets.value, selected));
              if p.Some? then p.value < |Servers(clusters, id)| && r == Chosen(Servers(clusters, id)[p.value])
              else r == Failed(Refusal(clusters, id))
      ensures selected == if r.Chosen? then r.backend else null
      ensures tickets.value < m.word
      ensures forall b: Backend | b in Servers(clusters, id) || b == old(selected) ::
                var given := if b == old(selected) then Released(old(b.Counters()), true) else old(b.Counters());
                b.Counters() == if b == selected then Acquired(given) else given
    {
      hide Choose;
      ghost var backends := Servers(clusters, id);
      GiveBack();
      assert HealthOf(backends) == old(HealthOf(backends));
      assert ActiveOf(backends) == old(ActiveWithout(backends, selected));
      r := SelectBackend(m, clusters, id, client, tickets);
      if r.Chosen? {
        selected := r.backend;
      }
    }

    /** Gives the backend back at the end; an upstream error is charged to it. */
    method Logging(upstreamError: bool)
      requires selected != null ==> selected.active > 0
      modifies Held(selected)`active, Held(selected)`failed
      ensures selected != null ==> selected.Counters() == Released(old(selected.Counters()), upstreamError)
    {
      if selected != null {
        selected.Release();
        if upstreamError {
          selected.RecordFailure();
        }
      }
    }
  }

  // ----- All requests together -----

  type Id = nat

  /** What makes a backend the same after a reload. */
  datatype Server = Server(addr: bytes, protocol: nat)

  datatype UpstreamConfig = UpstreamConfig(name: bytes, strategy: Strategy, servers: seq<Server>)

  datatype Upstream = Upstream(name: bytes, strategy: Strategy, servers: seq<Id>)

  /** A request keeps the upstreams it started with. */
  datatype Request = Request(upstreams: seq<Upstream>, upstream: nat, held: Option<Id>)

  datatype State = State(
    machine: Machine,
    servers: seq<Server>,
    stats: seq<Stats>,
    health: seq<bool>,
    upstreams: seq<Upstream>,
    requests: map<nat, Request>
  )

  datatype Step =
    | Begin(r: nat, upstream: nat)
    | Select(r: nat, client: IpAddr, ticket: nat)
    | Finish(r: nat, upstreamError: bool)
    | Check(b: Id, healthy: bool)
    | Reload(config: seq<UpstreamConfig>)

  ghost function HealthAt(health: seq<bool>, ids: seq<Id>): seq<bool>
    requires forall k | 0 <= k < |ids| :: ids[k] < |health|
  {
    seq(|ids|, k requires 0 <= k < |ids| => health[ids[k]])
  }

  ghost function ActiveAt(stats: seq<Stats>, ids: seq<Id>): seq<nat>
    requires forall k | 0 <= k < |ids| :: ids[k] < |stats|
  {
    seq(|ids|, k requires 0 <= k < |ids| => if stats[ids[k]].active < 0 then 0 else stats[ids[k]].active)
  }

  /** The place in its upstream of the backend a request gets, if any. */
  ghost function PlaceFor(s: State, u: Upstream, stats: seq<Stats>, client: IpAddr, ticket: nat): Option<nat>
    requires s.machine.Known() && client.Valid() && Known(u, |s.stats|) && |stats| == |s.stats| == |s.health|
  {
    Choose(s.machine, u.strategy, HealthAt(s.health, u.servers), ActiveAt(stats, u.servers), client, ticket)
  }

  /** The backend a request gets, if any. */
  ghost function Choice(
    s: State, upstreams: seq<Upstream>, i: nat, stats: seq<Stats>, client: IpAddr, ticket: nat): Option<Id>
    requires s.machine.Known() && client.Valid()
    requires KnownAll(upstreams, |s.stats|) && |stats| == |s.stats| == |s.health|
  {
    if i >= |upstreams| then None
    else
      assert Known(upstreams[i], |s.stats|);
      match PlaceFor(s, upstreams[i], stats, client, ticket)
      case None => None
      case Some(p) => PlaceSound(s, upstreams[i], stats, client, ticket); Some(upstreams[i].servers[p])
  }

  lemma {:induction false} PlaceSound(s: State, u: Upstream, stats: seq<Stats>, client: IpAddr, ticket: nat)
    requires s.machine.Known() && client.Valid() && Known(u, |s.stats|) && |stats| == |s.stats| == |s.health|
    ensures var p := PlaceFor(s, u, stats, client, ticket);
            p.Some? ==> p.value < |u.servers| && s.health[u.servers[p.value]]
  {
    if u.servers != [] {
      PickSound(s.machine.word, u.strategy, HealthAt(s.health, u.servers), ActiveAt(stats, u.servers),
                HashIp(s.machine, client), ticket);
    }
  }

  ghost predicate Known(u: Upstream, n: nat) {
    forall k | 0 <= k < |u.servers| :: u.servers[k] < n
  }

  ghost predicate KnownAll(upstreams: seq<Upstream>, n: nat) {
    forall i | 0 <= i < |upstreams| :: Known(upstreams[i], n)
  }

  // ----- A reload -----

  /** The place of the upstream with this name. */
  function Named(upstreams: seq<Upstream>, name: bytes): (r: Option<nat>)
    ensures r.Some? ==> r.value < |upstreams| && upstreams[r.value].name == name
    ensures r.Some? ==> forall i | 0 <= i < r.value :: upstreams[i].name != name
    ensures r.None? ==> forall i | 0 <= i < |upstreams| :: upstreams[i].name != name
  {
    if upstreams == [] then None
    else if upstreams[0].name == name then Some(0)
    else
      match Named(upstreams[1..], name)
      case None => assert forall i | 0 < i < |upstreams| :: upstreams[i] == upstreams[1..][i - 1]; None
      case Some(i) => assert forall k | 0 < k < |upstreams| :: upstreams[k] == upstreams[1..][k - 1]; Some(i + 1)
  }

  /** The first of these backends at this address with this protocol. */
  ghost function Same(servers: seq<Server>, ids: seq<Id>, server: Server): (r: Option<Id>)
    requires forall k | 0 <= k < |ids| :: ids[k] < |servers|
    ensures r.Some? ==> r.value in ids && r.value < |servers| && servers[r.value] == server
    ensures r.None? ==> forall k | 0 <= k < |ids| :: servers[ids[k]] != server
  {
    if ids == [] then None
    else if servers[ids[0]] == server then Some(ids[0])
    else
      assert forall k | 0 < k < |ids| :: ids[k] == ids[1..][k - 1];
      Same(servers, ids[1..], server)
  }

  /** The backends the old configuration had under this name. */
  ghost function OldIds(upstreams: seq<Upstream>, name: bytes): seq<Id> {
    match Named(upstreams, name) case None => [] case Some(i) => upstreams[i].servers
  }

  /** The backends of one upstream: kept ones, and new ones numbered from `next` on. */
  ghost function Places(servers: seq<Server>, kept: seq<Id>, wanted: seq<Server>, next: nat): (r: seq<Id>)
    requires forall k | 0 <= k < |kept| :: kept[k] < |servers|
    ensures |r| == |wanted|
  {
    if wanted == [] then []
    else
      match Same(servers, kept, wanted[0])
      case Some(b) => [b] + Places(servers, kept, wanted[1..], next)
      case None => [next] + Places(servers, kept, wanted[1..], next + 1)
  }

  /** The servers that need a new backend, in order. */
  ghost function Fresh(servers: seq<Server>, kept: seq<Id>, wanted: seq<Server>): seq<Server>
    requires forall k | 0 <= k < |kept| :: kept[k] < |servers|
  {
    if wanted == [] then []
    else (if Same(servers, kept, wanted[0]).None? then [wanted[0]] else []) + Fresh(servers, kept, wanted[1..])
  }

  datatype Built = Built(upstreams: seq<Upstream>, added: seq<Server>)

  /** The upstreams of a configuration, and the backends made for them. */
  ghost function Build(servers: seq<Server>, current: seq<Upstream>, config: seq<UpstreamConfig>): (r: Built)
    requires KnownAll(current, |servers|)
    ensures |r.upstreams| == |config|
    decreases |config|
  {
    if config == [] then Built([], [])
    else
      var n := |config| - 1;
      var before := Build(servers, current, config[..n]);
      var kept := OldIds(current, config[n].name);
      OldKnown(current, config[n].name, |servers|);
      Built(before.upstreams + [Upstream(config[n].name, config[n].strategy,
                                         Places(servers, kept, config[n].servers, |servers| + |before.added|))],
            before.added + Fresh(servers, kept, config[n].servers))
  }

  lemma {:induction false} OldKnown(current: seq<Upstream>, name: bytes, n: nat)
    requires KnownAll(current, n)
    ensures forall k | 0 <= k < |OldIds(current, name)| :: OldIds(current, name)[k] < n
  {
    var i := Named(current, name);
    if i.Some? {
      assert Known(current[i.value], n);
    }
  }

  ghost function Reloaded(s: State, config: seq<UpstreamConfig>): State
    requires KnownAll(s.upstreams, |s.servers|)
  {
    var b := Build(s.servers, s.upstreams, config);
    s.(servers := s.servers + b.added,
       stats := s.stats + seq(|b.added|, _ => Stats(0, 0, 0)),
       health := s.health + seq(|b.added|, _ => true),
       upstreams := b.upstreams)
  }
}
