/** Backends with their counters, and the selection of one of them. */
module Backends {
  import opened Prelude
  import opened ClientHash
  import opened Balancer

  /** What the counters of a backend say. */
  datatype Stats = Stats(active: int, total: nat, failed: nat)

  class Backend {
    const addr: bytes
    var healthy: bool
    var successes: nat
    var failures: nat
    var active: nat
    var total: nat
    var failed: nat

    function Counters(): Stats
      reads this
    {
      Stats(active, total, failed)
    }

    constructor (addr: bytes)
      ensures this.addr == addr && healthy && successes == 0 && failures == 0 && Counters() == Stats(0, 0, 0)
    {
      this.addr := addr;
      healthy, successes, failures, active, total, failed := true, 0, 0, 0, 0, 0;
    }

    method Acquire()
      modifies this`active
      ensures active == old(active) + 1
    {
      active := active + 1;
    }

    method Release()
      requires active > 0
      modifies this`active
      ensures active == old(active) - 1
    {
      active := active - 1;
    }

    method RecordRequest()
      modifies this`total
      ensures total == old(total) + 1
    {
      total := total + 1;
    }

    method RecordFailure()
      modifies this`failed
      ensures failed == old(failed) + 1
    {
      failed := failed + 1;
    }

    /** A health check counts towards a streak; a streak as long as its threshold sets the health. */
    method ReportCheck(ok: bool, healthyThreshold: nat, unhealthyThreshold: nat)
      requires successes < U32 && failures < U32 && healthyThreshold < U32 && unhealthyThreshold < U32
      modifies this`healthy, this`successes, this`failures
      ensures Health(healthy, successes, failures) ==
              Checked(old(Health(healthy, successes, failures)), ok, healthyThreshold, unhealthyThreshold)
    {
      if ok {
        failures := 0;
        var streak := if successes + 1 < U32 then successes + 1 else U32 - 1;
        successes := (successes + 1) % U32;
        if streak >= Max1(healthyThreshold) {
          healthy := true;
        }
      } else {
        successes := 0;
        var streak := if failures + 1 < U32 then failures + 1 else U32 - 1;
        failures := (failures + 1) % U32;
        if streak >= Max1(unhealthyThreshold) {
          healthy := false;
        }
      }
    }
  }

  ghost function HealthOf(backends: seq<Backend>): seq<bool>
    reads backends
  {
    seq(|backends|, i requires 0 <= i < |backends| reads backends => backends[i].healthy)
  }

  ghost function ActiveOf(backends: seq<Backend>): seq<nat>
    reads backends
  {
    seq(|backends|, i requires 0 <= i < |backends| reads backends => backends[i].active)
  }

  /** The tickets of one thread, which start at an offset of its own. */
  class TicketCell {
    var value: nat

    constructor (offset: nat)
      ensures value == offset
    {
      value := offset;
    }

    method Next(word: nat) returns (ticket: nat)
      requires value < word
      modifies this
      ensures ticket == old(value) && value == Wrap(word, old(value) + 1)
    {
      ticket := value;
      value := Wrap(word, value + 1);
    }
  }

  lemma {:induction false} WrapNext(word: nat, hash: nat, i: nat)
    requires hash < word && i < word
    ensures Wrap(word, Wrap(word, hash + i) + 1) == Wrap(word, hash + i + 1)
  {
    var x := hash + i;
    if x < word {
      NotRound(x, word);
    } else {
      NotRound(x - word, word);
      OnceRound(x - word, word);
      if x + 1 < 2 * word {
        NotRound(x + 1 - word, word);
        OnceRound(x + 1 - word, word);
      }
    }
  }

  lemma {:induction false} WrapNone(word: nat, x: nat)
    requires x < word
    ensures Wrap(word, x) == x
  {
  }

  method ProbeHashed(word: nat, backends: seq<Backend>, hash: nat) returns (r: Option<nat>)
    requires backends != [] && hash < word && |backends| < word
    ensures r == HashedFrom(word, HealthOf(backends), hash, 0)
  {
    hide Wrap, Reduce;
    var h := hash;
    WrapNone(word, hash);
    for i := 0 to |backends|
      invariant h == Wrap(word, hash + i)
      invariant HashedFrom(word, HealthOf(backends), hash, 0) == HashedFrom(word, HealthOf(backends), hash, i)
    {
      var place := Reduce(h, |backends|);
      if backends[place].healthy {
        return Some(place);
      }
      WrapNext(word, hash, i);
      h := Wrap(word, h + 1);
    }
    return None;
  }

  method ProbeCyclic(backends: seq<Backend>, ticket: nat) returns (r: Option<nat>)
    requires backends != []
    ensures r == CyclicFrom(HealthOf(backends), ticket % |backends|, 0)
  {
    var start := ticket % |backends|;
    assert Round(start, 0, |backends|) == start;
    if backends[start].healthy {
      return Some(start);
    }
    for i := 1 to |backends|
      invariant CyclicFrom(HealthOf(backends), start, 0) == CyclicFrom(HealthOf(backends), start, i)
    {
      var place := Round(start, i, |backends|);
      if backends[place].healthy {
        return Some(place);
      }
    }
    return None;
  }

  method ProbeLeast(word: nat, backends: seq<Backend>, ticket: nat) returns (r: Option<nat>)
    requires backends != [] && word > 0
    ensures r == LeastOf(word, HealthOf(backends), ActiveOf(backends), ticket)
  {
    var n := |backends|;
    var a, b := ticket % n, HashedPlace(word, ticket, n / 2, n);
    if backends[a].healthy && backends[b].healthy {
      return Some(if backends[a].active <= backends[b].active then a else b);
    }
    if backends[a].healthy {
      return Some(a);
    }
    if backends[b].healthy {
      return Some(b);
    }
    for i := 0 to n
      invariant FirstHealthy(HealthOf(backends), 0) == FirstHealthy(HealthOf(backends), i)
    {
      if backends[i].healthy {
        return Some(i);
      }
    }
    return None;
  }

  /** What selection reads besides the backends: the target, the client and the ticket of the thread. */
  ghost function Choose(
    m: Machine, strategy: Strategy, health: seq<bool>, active: seq<nat>, client: IpAddr, ticket: nat): Option<nat>
    requires m.Known() && client.Valid() && |active| == |health|
  {
    if health == [] then None else Pick(m.word, strategy, health, active, HashIp(m, client), ticket)
  }

  ghost function TicketAfter(m: Machine, strategy: Strategy, n: nat, ticket: nat): nat
    requires m.Known()
  {
    if n <= 1 || strategy.IpHash? then ticket else Wrap(m.word, ticket + 1)
  }

  /** Takes a ticket only where the strategy needs one. */
  method NextBackend(m: Machine, strategy: Strategy, backends: seq<Backend>, client: IpAddr, tickets: TicketCell)
    returns (r: Option<nat>)
    requires m.Known() && client.Valid() && backends != [] && |backends| < m.word && tickets.value < m.word
    modifies tickets
    ensures r == Choose(m, strategy, HealthOf(backends), ActiveOf(backends), client, old(tickets.value))
    ensures tickets.value == TicketAfter(m, strategy, |backends|, old(tickets.value)) < m.word
  {
    ghost var health, active := HealthOf(backends), ActiveOf(backends);
    if |backends| == 1 {
      return if backends[0].healthy then Some(0) else None;
    }
    match strategy {
      case IpHash =>
        r := ProbeHashed(m.word, backends, HashIp(m, client));
      case RoundRobin =>
        var ticket := tickets.Next(m.word);
        assert HealthOf(backends) == health;
        r := ProbeCyclic(backends, ticket);
      case LeastConnections =>
        var ticket := tickets.Next(m.word);
        assert HealthOf(backends) == health && ActiveOf(backends) == active;
        r := ProbeLeast(m.word, backends, ticket);
    }
  }

  datatype Cluster = Cluster(strategy: Strategy, servers: seq<Backend>)

  datatype BalancerError = UpstreamNotFound | UpstreamEmpty | AllServersUnhealthy

  datatype Selected = Chosen(backend: Backend) | Failed(error: BalancerError)

  /** The servers of an upstream; none if there is no such upstream. */
  function Servers(clusters: seq<Cluster>, id: nat): seq<Backend> {
    if id < |clusters| then clusters[id].servers else []
  }

  /** The choice for an upstream, by its place in the list of servers. */
  ghost function ChoiceFor(m: Machine, clusters: seq<Cluster>, id: nat, client: IpAddr, ticket: nat): Option<nat>
    requires m.Known() && client.Valid()
    reads Servers(clusters, id)
  {
    if id < |clusters| then
      var backends := clusters[id].servers;
      Choose(m, clusters[id].strategy, HealthOf(backends), ActiveOf(backends), client, ticket)
    else None
  }

  /** Why no backend was chosen. */
  function Refusal(clusters: seq<Cluster>, id: nat): BalancerError {
    if id >= |clusters| then UpstreamNotFound
    else if clusters[id].servers == [] then UpstreamEmpty
    else AllServersUnhealthy
  }

  /** The counters once a request has the backend. */
  function Acquired(s: Stats): Stats {
    Stats(s.active + 1, s.total + 1, s.failed)
  }

  /** The counters once a request has given the backend back. */
  function Released(s: Stats, failure: bool): Stats {
    Stats(s.active - 1, s.total, s.failed + if failure then 1 else 0)
  }

  /** The chosen backend counts one more connection and one more request; no other counter moves. */
  method SelectBackend(m: Machine, clusters: seq<Cluster>, id: nat, client: IpAddr, tickets: TicketCell)
    returns (r: Selected)
    requires m.Known() && client.Valid() && tickets.value < m.word && |Servers(clusters, id)| < m.word
    modifies tickets, Servers(clusters, id)`active, Servers(clusters, id)`total
    ensures var p := old(ChoiceFor(m, clusters, id, client, tickets.value));
            if p.Some? then p.value < |Servers(clusters, id)| && r == Chosen(Servers(clusters, id)[p.value])
            else r == Failed(Refusal(clusters, id))
    ensures tickets.value < m.word
    ensures forall b | b in Servers(clusters, id) ::
              b.Counters() == if r == Chosen(b) then Acquired(old(b.Counters())) else old(b.Counters())
  {
    if id >= |clusters| {
      return Failed(UpstreamNotFound);
    }
    var backends := clusters[id].servers;
    if backends == [] {
      return Failed(UpstreamEmpty);
    }
    var place := NextBackend(m, clusters[id].strategy, backends, client, tickets);
    if place.None? {
      return Failed(AllServersUnhealthy);
    }
    PickSound(m.word, clusters[id].strategy, HealthOf(backends), ActiveOf(backends), HashIp(m, client),
              old(tickets.value));
    var backend := backends[place.value];
    backend.Acquire();
    backend.RecordRequest();
    return Chosen(backend);
  }
}
