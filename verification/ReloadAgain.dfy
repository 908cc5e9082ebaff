/** When loading the same configuration again leaves every backend where it is. */
module ReloadAgain {
  import opened Prelude
  import opened ClientHash
  import opened Balancer
  import opened Backends
  import opened Lifecycle
  import opened LifecycleRuns

  // ----- The backends of a loaded configuration -----

  ghost predicate ServedBy(servers: seq<Server>, ids: seq<Id>, wanted: seq<Server>) {
    |ids| == |wanted| && forall k | 0 <= k < |ids| :: ids[k] < |servers| && servers[ids[k]] == wanted[k]
  }

  ghost predicate Matches(servers: seq<Server>, u: Upstream, c: UpstreamConfig) {
    u.name == c.name && u.strategy == c.strategy && ServedBy(servers, u.servers, c.servers)
  }

  /** The backends of each upstream stand for the servers of the configuration. */
  ghost predicate Serves(t: State, config: seq<UpstreamConfig>) {
    |t.upstreams| == |config| && forall i | 0 <= i < |config| :: Matches(t.servers, t.upstreams[i], config[i])
  }

  lemma {:induction false} ReloadServes(s: State, config: seq<UpstreamConfig>)
    requires Sound(s)
    ensures Serves(Reloaded(s, config), config)
  {
    hide Build, Reloaded, OldIds;
    var t := Reloaded(s, config);
    ReloadNames(s, config);
    forall i | 0 <= i < |config| ensures ServedBy(t.servers, t.upstreams[i].servers, config[i].servers) {
      forall k | 0 <= k < |config[i].servers|
        ensures t.upstreams[i].servers[k] < |t.servers|
        ensures t.servers[t.upstreams[i].servers[k]] == config[i].servers[k]
      {
        ReloadCarries(s, config, i, k);
      }
    }
  }

  // ----- What a second load finds -----

  /** The first upstream of the configuration by this name. */
  ghost function FirstBy(config: seq<UpstreamConfig>, name: bytes, i: nat): (f: nat)
    requires i < |config| && config[i].name == name
    ensures f <= i && config[f].name == name && forall j | 0 <= j < f :: config[j].name != name
  {
    if j :| 0 <= j < i && config[j].name == name then FirstBy(config, name, j) else i
  }

  /** The first place a list has for a server. */
  ghost predicate FirstPlace(wanted: seq<Server>, server: Server, l: nat) {
    l < |wanted| && wanted[l] == server && forall k | 0 <= k < l :: wanted[k] != server
  }

  lemma {:induction false} SameIsFirst(servers: seq<Server>, ids: seq<Id>, wanted: seq<Server>, server: Server)
    requires ServedBy(servers, ids, wanted)
    ensures Same(servers, ids, server).None? <==> server !in wanted
    ensures forall l | 0 <= l < |wanted| && FirstPlace(wanted, server, l) :: Same(servers, ids, server) == Some(ids[l])
    decreases |ids|
  {
    if ids != [] {
      var rest, more := ids[1..], wanted[1..];
      assert ServedBy(servers, rest, more);
      SameIsFirst(servers, rest, more, server);
      assert wanted == [wanted[0]] + more;
      if servers[ids[0]] != server {
        forall l | 0 <= l < |wanted| && FirstPlace(wanted, server, l)
          ensures Same(servers, ids, server) == Some(ids[l])
        {
          assert l > 0 && FirstPlace(more, server, l - 1) && rest[l - 1] == ids[l];
        }
      }
    }
  }

  lemma {:induction false} SomeFirst(wanted: seq<Server>, server: Server) returns (l: nat)
    requires server in wanted
    ensures FirstPlace(wanted, server, l)
  {
    l := 0;
    while wanted[l] != server
      invariant l < |wanted| && server in wanted[l..] && forall k | 0 <= k < l :: wanted[k] != server
      decreases |wanted| - l
    {
      assert wanted[l..] == [wanted[l]] + wanted[l + 1..];
      l := l + 1;
    }
  }

  /** A second load looks for an upstream's backends at the first one by its name. */
  lemma {:induction false} OldAgain(t: State, config: seq<UpstreamConfig>, i: nat)
    requires Serves(t, config) && i < |config|
    ensures var f := FirstBy(config, config[i].name, i);
            f < |t.upstreams| && OldIds(t.upstreams, config[i].name) == t.upstreams[f].servers
  {
    hide ServedBy;
    var f, found := FirstBy(config, config[i].name, i), Named(t.upstreams, config[i].name);
    assert forall j | 0 <= j < |config| :: Matches(t.servers, t.upstreams[j], config[j]);
    assert found.Some? && found.value == f;
  }

  /** The backend found for a server is the one it has. */
  ghost predicate Refound(t: State, config: seq<UpstreamConfig>, i: nat, k: nat)
    requires KnownAll(t.upstreams, |t.servers|) && |t.upstreams| == |config|
    requires i < |config| && k < |config[i].servers| == |t.upstreams[i].servers|
  {
    OldKnown(t.upstreams, config[i].name, |t.servers|);
    Same(t.servers, OldIds(t.upstreams, config[i].name), config[i].servers[k]) == Some(t.upstreams[i].servers[k])
  }

  ghost predicate RefoundAll(t: State, config: seq<UpstreamConfig>, n: nat)
    requires KnownAll(t.upstreams, |t.servers|) && Serves(t, config) && n <= |config|
  {
    forall i, k | 0 <= i < n && 0 <= k < |config[i].servers| ::
      (assert Matches(t.servers, t.upstreams[i], config[i]); Refound(t, config, i, k))
  }

  lemma {:induction false} NothingFresh(
    servers: seq<Server>, kept: seq<Id>, ids: seq<Id>, wanted: seq<Server>, next: nat)
    requires (forall x | 0 <= x < |kept| :: kept[x] < |servers|) && |ids| == |wanted|
    requires forall k | 0 <= k < |wanted| :: Same(servers, kept, wanted[k]) == Some(ids[k])
    ensures Places(servers, kept, wanted, next) == ids && Fresh(servers, kept, wanted) == []
    decreases |wanted|
  {
    hide Same;
    if wanted != [] {
      assert forall k | 0 <= k < |wanted[1..]| :: wanted[1..][k] == wanted[k + 1] && ids[1..][k] == ids[k + 1];
      NothingFresh(servers, kept, ids[1..], wanted[1..], next);
      assert ids == [ids[0]] + ids[1..];
    }
  }

  lemma {:induction false} BuildStep(servers: seq<Server>, current: seq<Upstream>, config: seq<UpstreamConfig>)
    requires KnownAll(current, |servers|) && config != []
    ensures var n := |config| - 1;
            var before, kept := Build(servers, current, config[..n]), OldIds(current, config[n].name);
            && (forall k | 0 <= k < |kept| :: kept[k] < |servers|)
            && Build(servers, current, config) ==
               Built(before.upstreams + [Upstream(config[n].name, config[n].strategy,
                                                  Places(servers, kept, config[n].servers,
                                                         |servers| + |before.added|))],
                     before.added + Fresh(servers, kept, config[n].servers))
  {
    hide OldIds, Places, Fresh;
    OldKnown(current, config[|config| - 1].name, |servers|);
  }

  lemma {:induction false} UpstreamAgain(t: State, config: seq<UpstreamConfig>, m: nat)
    requires KnownAll(t.upstreams, |t.servers|) && Serves(t, config) && m < |config| && RefoundAll(t, config, m + 1)
    ensures var kept, wanted := OldIds(t.upstreams, config[m].name), config[m].servers;
            && (forall k | 0 <= k < |kept| :: kept[k] < |t.servers|)
            && t.upstreams[m].name == config[m].name && t.upstreams[m].strategy == config[m].strategy
            && Places(t.servers, kept, wanted, |t.servers|) == t.upstreams[m].servers
            && Fresh(t.servers, kept, wanted) == []
  {
    hide Places, Fresh, OldIds, Same;
    var kept, wanted := OldIds(t.upstreams, config[m].name), config[m].servers;
    OldKnown(t.upstreams, config[m].name, |t.servers|);
    assert Matches(t.servers, t.upstreams[m], config[m]);
    forall k | 0 <= k < |wanted| ensures Same(t.servers, kept, wanted[k]) == Some(t.upstreams[m].servers[k]) {
      assert Refound(t, config, m, k);
    }
    NothingFresh(t.servers, kept, t.upstreams[m].servers, wanted, |t.servers|);
  }

  lemma {:induction false} BuildAgain(t: State, config: seq<UpstreamConfig>, n: nat)
    requires KnownAll(t.upstreams, |t.servers|) && Serves(t, config) && n <= |config| && RefoundAll(t, config, n)
    ensures n <= |t.upstreams| && Build(t.servers, t.upstreams, config[..n]) == Built(t.upstreams[..n], [])
    decreases n
  {
    hide KnownAll, OldIds, Places, Fresh, Matches;
    if n == 0 {
      assert config[..0] == [] && t.upstreams[..0] == [];
    } else {
      var m := n - 1;
      assert RefoundAll(t, config, m);
      BuildAgain(t, config, m);
      UpstreamAgain(t, config, m);
      hide Build, Serves, RefoundAll;
      BuildStep(t.servers, t.upstreams, config[..n]);
      assert config[..n][..m] == config[..m] && config[..n][m] == config[m];
      var last := t.upstreams[m];
      assert t.upstreams[..n] == t.upstreams[..m] + [last];
      assert last == Upstream(config[m].name, config[m].strategy, last.servers);
    }
  }

  /** A second load changes nothing exactly if every server finds the backend it has. */
  lemma {:induction false} AgainIffRefound(t: State, config: seq<UpstreamConfig>)
    requires KnownAll(t.upstreams, |t.servers|) && Serves(t, config)
    ensures Reloaded(t, config) == t <==> RefoundAll(t, config, |config|)
  {
    hide Build, Serves, RefoundAll, KnownAll;
    assert config[..|config|] == config;
    assert |t.upstreams| == |config| by { ServesLength(t, config); }
    if RefoundAll(t, config, |config|) {
      BuildAgain(t, config, |config|);
      assert t.upstreams[..|config|] == t.upstreams;
      NothingAdded(t, config);
    }
    if Reloaded(t, config) == t {
      AddedNothing(t, config);
      FoundAll(t, config);
    }
  }

  lemma {:induction false} ServesLength(t: State, config: seq<UpstreamConfig>)
    requires Serves(t, config)
    ensures |t.upstreams| == |config|
  {
  }

  lemma {:induction false} NothingAdded(t: State, config: seq<UpstreamConfig>)
    requires KnownAll(t.upstreams, |t.servers|) && Build(t.servers, t.upstreams, config) == Built(t.upstreams, [])
    ensures Reloaded(t, config) == t
  {
    hide Build;
    var none: seq<Server> := [];
    assert t.servers + none == t.servers;
    assert t.stats + seq(0, _ => Stats(0, 0, 0)) == t.stats && t.health + seq(0, _ => true) == t.health;
  }

  lemma {:induction false} AddedNothing(t: State, config: seq<UpstreamConfig>)
    requires KnownAll(t.upstreams, |t.servers|) && Reloaded(t, config) == t
    ensures Build(t.servers, t.upstreams, config) == Built(t.upstreams, [])
  {
    hide Build;
    var b := Build(t.servers, t.upstreams, config);
    assert |t.servers + b.added| == |t.servers|;
  }

  lemma {:induction false} FoundAll(t: State, config: seq<UpstreamConfig>)
    requires KnownAll(t.upstreams, |t.servers|) && Serves(t, config)
    requires Build(t.servers, t.upstreams, config) == Built(t.upstreams, [])
    ensures RefoundAll(t, config, |config|)
  {
    hide Build, OldIds, Same;
    forall i, k | 0 <= i < |config| && 0 <= k < |config[i].servers|
      ensures Matches(t.servers, t.upstreams[i], config[i]) && Refound(t, config, i, k)
    {
      assert Matches(t.servers, t.upstreams[i], config[i]);
      BuildMeans(t.servers, t.upstreams, config, i, k);
    }
  }

  // ----- New backends are apart -----

  lemma {:induction false} FreshPlaces(
    servers: seq<Server>, kept: seq<Id>, wanted: seq<Server>, next: nat, k: nat, l: nat)
    requires (forall x | 0 <= x < |kept| :: kept[x] < |servers|) && k < l < |wanted|
    requires Same(servers, kept, wanted[k]).None? && Same(servers, kept, wanted[l]).None?
    ensures Places(servers, kept, wanted, next)[k] < Places(servers, kept, wanted, next)[l]
    decreases |wanted|
  {
    hide Same;
    var tail, more := wanted[1..], if Same(servers, kept, wanted[0]).None? then next + 1 else next;
    if k == 0 {
      PlacesMean(servers, kept, tail, more, l - 1);
    } else {
      FreshPlaces(servers, kept, tail, more, k - 1, l - 1);
    }
  }

  /** A backend added for one place of the configuration. */
  ghost predicate Added(servers: seq<Server>, current: seq<Upstream>, config: seq<UpstreamConfig>, i: nat, k: nat)
    requires KnownAll(current, |servers|) && i < |config| && k < |config[i].servers|
  {
    OldKnown(current, config[i].name, |servers|);
    Same(servers, OldIds(current, config[i].name), config[i].servers[k]).None?
  }

  lemma {:induction false} AddedRange(
    servers: seq<Server>, current: seq<Upstream>, config: seq<UpstreamConfig>, i: nat, k: nat)
    requires KnownAll(current, |servers|) && i < |config| && k < |config[i].servers|
    requires Added(servers, current, config, i, k)
    ensures var r := Build(servers, current, config);
            k < |r.upstreams[i].servers| && r.upstreams[i].servers[k] < |servers| + |r.added|
  {
    hide Build, OldIds, Same;
    BuildMeans(servers, current, config, i, k);
  }

  lemma {:induction false} AddedApart(
    servers: seq<Server>, current: seq<Upstream>, config: seq<UpstreamConfig>, i: nat, k: nat, j: nat, l: nat)
    requires KnownAll(current, |servers|) && i < |config| && j < |config|
    requires k < |config[i].servers| && l < |config[j].servers| && (i < j || (i == j && k < l))
    requires Added(servers, current, config, i, k) && Added(servers, current, config, j, l)
    ensures var r := Build(servers, current, config).upstreams;
            k < |r[i].servers| && l < |r[j].servers| && r[i].servers[k] < r[j].servers[l]
    decreases |config|
  {
    hide Build, OldIds, Same, Places, Fresh, KnownAll;
    var n := |config| - 1;
    var head := config[..n];
    var before, kept := Build(servers, current, head), OldIds(current, config[n].name);
    BuildStep(servers, current, config);
    var next := |servers| + |before.added|;
    if j < n {
      assert Added(servers, current, head, i, k) && Added(servers, current, head, j, l);
      AddedApart(servers, current, head, i, k, j, l);
    } else {
      PlacesMean(servers, kept, config[n].servers, next, l);
      if i < n {
        assert Added(servers, current, head, i, k);
        AddedRange(servers, current, head, i, k);
      } else {
        FreshPlaces(servers, kept, config[n].servers, next, k, l);
      }
    }
  }

  // ----- The condition -----

  /**
   The first upstream by the name lists the server too, and the server was known before the load or is
   listed there for the first time.
   */
  ghost predicate Settles(s: State, config: seq<UpstreamConfig>, i: nat, k: nat)
    requires Sound(s) && i < |config| && k < |config[i].servers|
  {
    var f, server := FirstBy(config, config[i].name, i), config[i].servers[k];
    && server in config[f].servers
    && (Added(s.servers, s.upstreams, config, i, k) ==> f == i && FirstPlace(config[i].servers, server, k))
  }

  lemma {:induction false} RefoundIffSettles(s: State, config: seq<UpstreamConfig>, i: nat, k: nat)
    requires Inv(s) && i < |config| && k < |config[i].servers|
    ensures var t := Reloaded(s, config);
            && KnownAll(t.upstreams, |t.servers|) && |t.upstreams| == |config|
            && |t.upstreams[i].servers| == |config[i].servers|
            && (Refound(t, config, i, k) <==> Settles(s, config, i, k))
  {
    hide Build, OldIds, Same, Reloaded, Counts, Added;
    var t := Reloaded(s, config);
    ReloadKeeps(s, config);
    ReloadServes(s, config);
    OldAgain(t, config, i);
    var f, server := FirstBy(config, config[i].name, i), config[i].servers[k];
    assert Matches(t.servers, t.upstreams[i], config[i]) && Matches(t.servers, t.upstreams[f], config[f]);
    SameIsFirst(t.servers, t.upstreams[f].servers, config[f].servers, server);
    if server in config[f].servers {
      var l := SomeFirst(config[f].servers, server);
      SameBackendIff(s, config, i, k, f, l);
    }
  }

  /** Two listings of a server under one name share a backend if it was known before, or they are one. */
  lemma {:induction false} SameBackendIff(s: State, config: seq<UpstreamConfig>, i: nat, k: nat, f: nat, l: nat)
    requires Inv(s) && i < |config| && k < |config[i].servers| && f < |config| && l < |config[f].servers|
    requires config[i].name == config[f].name && config[i].servers[k] == config[f].servers[l]
    ensures var u := Reloaded(s, config).upstreams;
            && |u| == |config| && |u[i].servers| == |config[i].servers| && |u[f].servers| == |config[f].servers|
            && (u[i].servers[k] == u[f].servers[l] <==>
                !Added(s.servers, s.upstreams, config, i, k) || (i == f && k == l))
  {
    hide Build, OldIds, Same, Counts;
    ReloadCarries(s, config, i, k);
    ReloadCarries(s, config, f, l);
    if Added(s.servers, s.upstreams, config, i, k) && !(i == f && k == l) {
      if i < f || (i == f && k < l) {
        AddedApart(s.servers, s.upstreams, config, i, k, f, l);
      } else {
        AddedApart(s.servers, s.upstreams, config, f, l, i, k);
      }
    }
  }

  /**
   Loading a configuration a second time changes nothing if and only if each server settles: the first
   upstream by the name lists it, and it was known before or is listed there for the first time.
   */
  lemma {:induction false} ReloadTwiceIff(s: State, config: seq<UpstreamConfig>)
    requires Inv(s)
    ensures var t := Reloaded(s, config);
            && KnownAll(t.upstreams, |t.servers|)
            && (Reloaded(t, config) == t <==>
                forall i, k | 0 <= i < |config| && 0 <= k < |config[i].servers| :: Settles(s, config, i, k))
  {
    hide Build, OldIds, Same, Reloaded, Counts, Settles, Refound;
    var t := Reloaded(s, config);
    ReloadKeeps(s, config);
    ReloadServes(s, config);
    AgainIffRefound(t, config);
    forall i, k | 0 <= i < |config| && 0 <= k < |config[i].servers|
      ensures Matches(t.servers, t.upstreams[i], config[i]) && (Refound(t, config, i, k) <==> Settles(s, config, i, k))
    {
      assert Matches(t.servers, t.upstreams[i], config[i]);
      RefoundIffSettles(s, config, i, k);
    }
  }

  /** A server listed twice gets two backends at first; the next load gives both listings the first of them. */
  lemma {:induction false} ReloadTwiceExample(m: Machine, name: bytes, server: Server)
    requires m.Known()
    ensures var s := State(m, [], [], [], [], map[]);
            var config := [UpstreamConfig(name, RoundRobin, [server, server])];
            Inv(s) && !Settles(s, config, 0, 1) && Reloaded(s, config).upstreams[0].servers == [0, 1]
  {
    var s := State(m, [], [], [], [], map[]);
    var config := [UpstreamConfig(name, RoundRobin, [server, server])];
    var wanted := config[0].servers;
    var none: seq<Server> := [];
    assert Named(s.upstreams, name).None? && OldIds(s.upstreams, name) == [];
    assert !FirstPlace(wanted, server, 1) by { assert wanted[0] == server; }
    assert Added(s.servers, s.upstreams, config, 0, 1);
    assert config[..0] == [] && wanted[1..] == [server] && [server][1..] == none;
    assert Places(none, [], [server], 1) == [1];
    assert Places(none, [], wanted, 0) == [0, 1];
    BuildStep(s.servers, s.upstreams, config);
    assert Build(s.servers, s.upstreams, config[..0]) == Built([], none);
    assert Build(s.servers, s.upstreams, config).upstreams == [Upstream(name, RoundRobin, [0, 1])];
  }
}
