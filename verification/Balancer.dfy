/** Which backend serves the next request. */
module Balancer {
  import opened Prelude

  datatype Strategy = RoundRobin | LeastConnections | IpHash

  // ----- What each strategy picks -----

  /** The place `i` steps on from `start`, round a list of `n`. */
  function Round(start: nat, i: nat, n: nat): (p: nat)
    requires n > 0
    ensures p < n
  {
    (start + i) % n
  }

  /** The first healthy place from `start + i` on, round the list. */
  function CyclicFrom(health: seq<bool>, start: nat, i: nat): Option<nat>
    requires health != [] && i <= |health|
    decreases |health| - i
  {
    if i == |health| then None
    else if health[Round(start, i, |health|)] then Some(Round(start, i, |health|))
    else CyclicFrom(health, start, i + 1)
  }

  /** A sum as a machine word keeps it. */
  function Wrap(word: nat, x: nat): (w: nat)
    requires word > 0
    ensures w < word
  {
    x % word
  }

  function Reduce(x: nat, n: nat): (p: nat)
    requires n > 0
    ensures p < n
  {
    x % n
  }

  /** The place the `i`-th probe of a hash looks at; the sum wraps before it is reduced. */
  function HashedPlace(word: nat, hash: nat, i: nat, n: nat): (p: nat)
    requires n > 0 && word > 0
    ensures p < n
  {
    Reduce(Wrap(word, hash + i), n)
  }

  function HashedFrom(word: nat, health: seq<bool>, hash: nat, i: nat): Option<nat>
    requires health != [] && i <= |health| && word > 0
    decreases |health| - i
  {
    if i == |health| then None
    else if health[HashedPlace(word, hash, i, |health|)] then Some(HashedPlace(word, hash, i, |health|))
    else HashedFrom(word, health, hash, i + 1)
  }

  function FirstHealthy(health: seq<bool>, i: nat): Option<nat>
    requires i <= |health|
    decreases |health| - i
  {
    if i == |health| then None else if health[i] then Some(i) else FirstHealthy(health, i + 1)
  }

  /** Two places half a list apart; the one with fewer connections if both are healthy. */
  function LeastOf(word: nat, health: seq<bool>, active: seq<nat>, ticket: nat): Option<nat>
    requires health != [] && |active| == |health| && word > 0
  {
    var n := |health|;
    var a, b := ticket % n, HashedPlace(word, ticket, n / 2, n);
    if health[a] && health[b] then Some(if active[a] <= active[b] then a else b)
    else if health[a] then Some(a)
    else if health[b] then Some(b)
    else FirstHealthy(health, 0)
  }

  function Pick(word: nat, strategy: Strategy, health: seq<bool>, active: seq<nat>, hash: nat, ticket: nat): Option<nat>
    requires health != [] && |active| == |health| && word > 0
  {
    if |health| == 1 then (if health[0] then Some(0) else None)
    else
      match strategy
      case IpHash => HashedFrom(word, health, hash, 0)
      case RoundRobin => CyclicFrom(health, ticket % |health|, 0)
      case LeastConnections => LeastOf(word, health, active, ticket)
  }

  // ----- A healthy backend, if there is one -----

  ghost predicate HealthyAt(health: seq<bool>, r: Option<nat>) {
    r.Some? ==> r.value < |health| && health[r.value]
  }

  lemma {:induction false} CyclicSound(health: seq<bool>, start: nat, i: nat)
    requires health != [] && i <= |health|
    ensures HealthyAt(health, CyclicFrom(health, start, i))
    decreases |health| - i
  {
    if i < |health| { CyclicSound(health, start, i + 1); }
  }

  lemma {:induction false} HashedSound(word: nat, health: seq<bool>, hash: nat, i: nat)
    requires health != [] && i <= |health| && word > 0
    ensures HealthyAt(health, HashedFrom(word, health, hash, i))
    decreases |health| - i
  {
    if i < |health| { HashedSound(word, health, hash, i + 1); }
  }

  lemma {:induction false} FirstHealthyIff(health: seq<bool>, i: nat)
    requires i <= |health|
    ensures match FirstHealthy(health, i)
            case None => forall k | i <= k < |health| :: !health[k]
            case Some(p) => i <= p < |health| && health[p] && forall k | i <= k < p :: !health[k]
    decreases |health| - i
  {
    if i < |health| { FirstHealthyIff(health, i + 1); }
  }

  /** Whatever is picked is there and healthy. */
  lemma {:induction false} PickSound(
    word: nat, strategy: Strategy, health: seq<bool>, active: seq<nat>, hash: nat, ticket: nat)
    requires health != [] && |active| == |health| && word > 0
    ensures HealthyAt(health, Pick(word, strategy, health, active, hash, ticket))
  {
    CyclicSound(health, ticket % |health|, 0);
    HashedSound(word, health, hash, 0);
    FirstHealthyIff(health, 0);
  }

  lemma {:induction false} NotRound(j: nat, n: nat)
    requires j < n
    ensures j % n == j
  {
  }

  lemma {:induction false} OnceRound(j: nat, n: nat)
    requires j < n
    ensures (j + n) % n == j
  {
    assert (j + n) / n == 1 by { assert 1 * n <= j + n < 2 * n; }
  }

  /** Going round reaches every place. */
  lemma {:induction false} RoundReaches(n: nat, start: nat, j: nat) returns (i: nat)
    requires start < n && j < n
    ensures i < n && Round(start, i, n) == j
  {
    if j >= start {
      i := j - start;
      NotRound(j, n);
    } else {
      i := j + n - start;
      OnceRound(j, n);
    }
  }

  /** The `i`-th place after `start` is healthy and none before it is. */
  ghost predicate FirstAfter(health: seq<bool>, start: nat, i: nat)
    requires health != []
  {
    health[Round(start, i, |health|)] && forall k | 0 <= k < i :: !health[Round(start, k, |health|)]
  }

  /** `r` is the first healthy place in cyclic order from `start`, and nothing only if no place is healthy. */
  ghost predicate FirstInOrder(health: seq<bool>, start: nat, r: Option<nat>)
    requires health != []
  {
    match r
    case None => forall j | 0 <= j < |health| :: !health[j]
    case Some(p) => exists i | 0 <= i < |health| :: FirstAfter(health, start, i) && p == Round(start, i, |health|)
  }

  lemma {:induction false} CyclicIsFirst(health: seq<bool>, start: nat, i: nat)
    requires health != [] && i <= |health| && forall k | 0 <= k < i :: !health[Round(start, k, |health|)]
    ensures var r := CyclicFrom(health, start, i);
            match r
            case None => forall k | 0 <= k < |health| :: !health[Round(start, k, |health|)]
            case Some(p) => FirstInOrder(health, start, r)
    decreases |health| - i
  {
    hide Round;
    if i < |health| {
      if health[Round(start, i, |health|)] {
        assert FirstAfter(health, start, i);
      } else {
        CyclicIsFirst(health, start, i + 1);
      }
    }
  }

  lemma {:induction false} CyclicInOrder(health: seq<bool>, start: nat)
    requires health != [] && start < |health|
    ensures FirstInOrder(health, start, CyclicFrom(health, start, 0))
  {
    hide Round;
    CyclicIsFirst(health, start, 0);
    if CyclicFrom(health, start, 0).None? {
      forall j | 0 <= j < |health| ensures !health[j] {
        var i := RoundReaches(|health|, start, j);
      }
    }
  }

  /** A list of one is looked at without tickets or hashes, with the same result. */
  lemma {:induction false} OnlyOne(health: seq<bool>, start: nat)
    requires |health| == 1
    ensures FirstInOrder(health, start, if health[0] then Some(0) else None)
  {
    if health[0] {
      assert Round(start, 0, 1) == 0;
      assert FirstAfter(health, start, 0);
    }
  }

  /** Round robin: the first healthy backend in cyclic order from its ticket, and none only if all are unhealthy. */
  lemma {:induction false} RoundRobinFirst(word: nat, health: seq<bool>, active: seq<nat>, hash: nat, ticket: nat)
    requires health != [] && |active| == |health| && word > 0
    ensures FirstInOrder(health, ticket % |health|, Pick(word, RoundRobin, health, active, hash, ticket))
  {
    if |health| == 1 {
      OnlyOne(health, ticket % |health|);
    } else {
      CyclicInOrder(health, ticket % |health|);
    }
  }

  /** Least connections fails only if all are unhealthy. */
  lemma {:induction false} LeastFindsOne(word: nat, health: seq<bool>, active: seq<nat>, hash: nat, ticket: nat)
    requires health != [] && |active| == |health| && word > 0
    ensures Pick(word, LeastConnections, health, active, hash, ticket).None? <==> true !in health
  {
    FirstHealthyIff(health, 0);
  }

  // ----- Health checks -----

  const U32: nat := 0x1_0000_0000

  function Max1(n: nat): nat {
    if n == 0 then 1 else n
  }

  datatype Health = Health(healthy: bool, successes: nat, failures: nat)

  function Checked(h: Health, ok: bool, up: nat, down: nat): Health {
    if ok then Health(h.healthy || h.successes + 1 >= Max1(up), (h.successes + 1) % U32, 0)
    else Health(h.healthy && h.failures + 1 < Max1(down), 0, (h.failures + 1) % U32)
  }
}
