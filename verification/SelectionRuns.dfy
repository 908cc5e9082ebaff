/** Which backend least connections picks, and what consecutive selections add up to. */
module SelectionRuns {
  import opened Prelude
  import opened ClientHash
  import opened Balancer
  import opened Backends
  import opened BalancerRuns

  // ----- Least connections -----

  /** The second place least connections looks at: half a list on from the ticket, which may wrap. */
  ghost function Partner(word: nat, ticket: nat, n: nat): (p: nat)
    requires 0 < n < word && ticket < word
    ensures p < n
  {
    if ticket + n / 2 < word then (ticket + n / 2) % n else (ticket + n / 2 - word) % n
  }

  /** `p` is one of `x` and `y` and has no more connections than either; a tie goes to `x`. */
  ghost predicate Lighter(active: seq<nat>, x: nat, y: nat, p: nat)
    requires x < |active| && y < |active|
  {
    && (p == x || p == y)
    && active[p] <= active[x] && active[p] <= active[y]
    && (active[x] == active[y] ==> p == x)
  }

  ghost predicate LowestHealthy(health: seq<bool>, r: Option<nat>) {
    match r
    case None => forall k | 0 <= k < |health| :: !health[k]
    case Some(p) => p < |health| && health[p] && forall k | 0 <= k < p :: !health[k]
  }

  /**
   Least connections compares two places half a list apart: the lighter if both are healthy, the healthy
   one if one is, and otherwise the first healthy place of the list.
   */
  lemma {:induction false} LeastPicks(word: nat, health: seq<bool>, active: seq<nat>, hash: nat, ticket: nat)
    requires 2 <= |health| == |active| && |health| < word && ticket < word
    ensures var x, y := ticket % |health|, Partner(word, ticket, |health|);
            var r := Pick(word, LeastConnections, health, active, hash, ticket);
            && (health[x] && health[y] ==> r.Some? && Lighter(active, x, y, r.value))
            && (health[x] && !health[y] ==> r == Some(x))
            && (!health[x] && health[y] ==> r == Some(y))
            && (!health[x] && !health[y] ==> LowestHealthy(health, r))
  {
    hide HashedPlace, Partner, FirstHealthy;
    PartnerPlace(word, ticket, |health|);
    FirstHealthyIff(health, 0);
  }

  lemma {:induction false} PartnerPlace(word: nat, ticket: nat, n: nat)
    requires 0 < n < word && ticket < word
    ensures HashedPlace(word, ticket, n / 2, n) == Partner(word, ticket, n)
  {
    hide HashedPlace;
    if ticket + n / 2 < word {
      BeforeWrap(word, ticket, n / 2, n);
    } else {
      AfterWrap(word, ticket, n / 2, n);
    }
  }

  /** Without a wrap the two places differ, and on an even word size those of a list of two always do. */
  lemma {:induction false} TwoPlaces(word: nat, ticket: nat, n: nat)
    requires 2 <= n < word && ticket < word && (ticket + n / 2 < word || (n == 2 && word % 2 == 0))
    ensures Partner(word, ticket, n) != ticket % n
  {
    if ticket + n / 2 < word {
      DistanceHits(ticket, 0, (ticket + n / 2) % n, n);
      DistanceHits(ticket, n / 2, (ticket + n / 2) % n, n);
    } else {
      assert ticket == word - 1;
    }
  }

  /** `r` is healthy and no healthy place has fewer connections; nothing only if no place is healthy. */
  ghost predicate Fewest(health: seq<bool>, active: seq<nat>, r: Option<nat>)
    requires |health| == |active|
  {
    match r
    case None => forall k | 0 <= k < |health| :: !health[k]
    case Some(p) => p < |health| && health[p] && forall k | 0 <= k < |health| && health[k] :: active[p] <= active[k]
  }

  /** The pick has the fewest connections, however they are spread. */
  ghost predicate FewestAlways(word: nat, health: seq<bool>, ticket: nat)
    requires health != [] && word > 0
  {
    forall active: seq<nat> | |active| == |health| ::
      Fewest(health, active, Pick(word, LeastConnections, health, active, 0, ticket))
  }

  /** No healthy place is left out of the comparison of `x` and `y`, or there is nothing to compare. */
  ghost predicate AllCompared(health: seq<bool>, x: nat, y: nat) {
    forall i, j | 0 <= i < j < |health| && health[i] && health[j] :: (i == x && j == y) || (i == y && j == x)
  }

  /**
   The pick is sure to have the fewest connections if and only if no two backends are healthy but the
   two that are compared.
   */
  lemma {:induction false} LeastIsFewestIff(word: nat, health: seq<bool>, ticket: nat)
    requires 2 <= |health| < word && ticket < word
    ensures FewestAlways(word, health, ticket) <==>
            AllCompared(health, ticket % |health|, Partner(word, ticket, |health|))
  {
    hide Pick, Partner;
    var x, y := ticket % |health|, Partner(word, ticket, |health|);
    if AllCompared(health, x, y) {
      forall active: seq<nat> | |active| == |health|
        ensures Fewest(health, active, Pick(word, LeastConnections, health, active, 0, ticket))
      {
        ComparedIsFewest(word, health, active, ticket);
      }
    } else {
      var i, j :| 0 <= i < j < |health| && health[i] && health[j] && !((i == x && j == y) || (i == y && j == x));
      var z := if i == x || i == y then j else i;
      if health[x] && health[y] {
        NotFewest(word, health, ticket, z);
      } else {
        NotFewest(word, health, ticket, i);
        NotFewest(word, health, ticket, j);
        SteadyPick(word, health, ticket, Spread(|health|, i), Spread(|health|, j));
      }
    }
  }

  lemma {:induction false} ComparedIsFewest(word: nat, health: seq<bool>, active: seq<nat>, ticket: nat)
    requires 2 <= |health| == |active| && |health| < word && ticket < word
    requires AllCompared(health, ticket % |health|, Partner(word, ticket, |health|))
    ensures Fewest(health, active, Pick(word, LeastConnections, health, active, 0, ticket))
  {
    hide Pick, Partner;
    var x, y := ticket % |health|, Partner(word, ticket, |health|);
    LeastPicks(word, health, active, 0, ticket);
    var r := Pick(word, LeastConnections, health, active, 0, ticket);
    if r.Some? {
      forall k | 0 <= k < |health| && health[k] ensures active[r.value] <= active[k] {
        assert k < r.value || r.value < k || k == r.value;
      }
    }
  }

  /** One connection everywhere but at `z`. */
  ghost function Spread(n: nat, z: nat): seq<nat> {
    seq(n, k => if k == z then 0 else 1)
  }

  /** A healthy place that is not picked when it alone has no connections. */
  lemma {:induction false} NotFewest(word: nat, health: seq<bool>, ticket: nat, z: nat)
    requires 2 <= |health| < word && ticket < word && z < |health| && health[z]
    ensures Pick(word, LeastConnections, health, Spread(|health|, z), 0, ticket) != Some(z) ==>
            !FewestAlways(word, health, ticket)
    ensures var x, y := ticket % |health|, Partner(word, ticket, |health|);
            health[x] && health[y] && z != x && z != y ==>
            !FewestAlways(word, health, ticket)
  {
    var active := Spread(|health|, z);
    LeastPicks(word, health, active, 0, ticket);
    hide Pick, Partner;
    var r := Pick(word, LeastConnections, health, active, 0, ticket);
    if r != Some(z) {
      assert !Fewest(health, active, r);
    }
  }

  /** Connections play no part unless both places are healthy. */
  lemma {:induction false} SteadyPick(word: nat, health: seq<bool>, ticket: nat, a: seq<nat>, b: seq<nat>)
    requires 2 <= |health| < word && ticket < word && |a| == |b| == |health|
    ensures var x, y := ticket % |health|, Partner(word, ticket, |health|);
            !(health[x] && health[y]) ==>
            Pick(word, LeastConnections, health, a, 0, ticket) == Pick(word, LeastConnections, health, b, 0, ticket)
  {
    LeastPicks(word, health, a, 0, ticket);
    LeastPicks(word, health, b, 0, ticket);
    hide Pick, Partner;
    var r, s := Pick(word, LeastConnections, health, a, 0, ticket), Pick(word, LeastConnections, health, b, 0, ticket);
    if r.Some? && s.Some? {
      assert !(r.value < s.value) || health[r.value];
    }
  }

  /** Of two backends the pick has the fewest connections, at every ticket. */
  lemma {:induction false} LeastOfTwo(m: Machine, health: seq<bool>, active: seq<nat>, hash: nat, ticket: nat)
    requires m.Known() && |health| == |active| == 2 && ticket < m.word
    ensures Fewest(health, active, Pick(m.word, LeastConnections, health, active, hash, ticket))
  {
    TwoPlaces(m.word, ticket, 2);
    LeastIsFewestIff(m.word, health, ticket);
    LeastPicks(m.word, health, active, 0, ticket);
    hide Partner;
    assert Pick(m.word, LeastConnections, health, active, hash, ticket) ==
           Pick(m.word, LeastConnections, health, active, 0, ticket);
  }

  /** Three healthy backends, the last without a connection: the first ticket picks the first. */
  lemma {:induction false} BusierExample(word: nat)
    requires word > 3
    ensures Pick(word, LeastConnections, [true, true, true], [1, 1, 0], 0, 0) == Some(0)
  {
    BeforeWrap(word, 0, 1, 3);
    assert 3 / 2 == 1;
  }

  // ----- Consecutive selections -----

  /** The answers of `count` selections in a row among the same backends, from one ticket on. */
  ghost function Answers(
    m: Machine, strategy: Strategy, health: seq<bool>, active: seq<nat>, client: IpAddr, ticket: nat, count: nat)
    : seq<Option<nat>>
    requires m.Known() && client.Valid() && |active| == |health|
    decreases count
  {
    if count == 0 then []
    else [Choose(m, strategy, health, active, client, ticket)] +
         Answers(m, strategy, health, active, client, TicketAfter(m, strategy, |health|, ticket), count - 1)
  }

  /** The `i`-th selection of a run draws the `i`-th ticket, which wraps at the word size. */
  lemma {:induction false} AnswerAt(
    m: Machine, health: seq<bool>, active: seq<nat>, client: IpAddr, ticket: nat, count: nat, i: nat)
    requires m.Known() && client.Valid() && |active| == |health| >= 1 && ticket < m.word && i < count
    ensures |Answers(m, RoundRobin, health, active, client, ticket, count)| == count
    ensures Answers(m, RoundRobin, health, active, client, ticket, count)[i] ==
            Pick(m.word, RoundRobin, health, active, 0, Wrap(m.word, ticket + i))
    decreases count
  {
    hide Wrap, Pick;
    WrapNone(m.word, ticket);
    PickIgnores(m, health, active, client, ticket);
    var next := TicketAfter(m, RoundRobin, |health|, ticket);
    if count > 1 {
      AnswerAt(m, health, active, client, next, count - 1, if i > 0 then i - 1 else 0);
      if i > 0 {
        LaterTicket(m, health, active, ticket, i);
      }
    }
  }

  /** The client plays no part in round robin. */
  lemma {:induction false} PickIgnores(m: Machine, health: seq<bool>, active: seq<nat>, client: IpAddr, ticket: nat)
    requires m.Known() && client.Valid() && |active| == |health| >= 1
    ensures Choose(m, RoundRobin, health, active, client, ticket) ==
            Pick(m.word, RoundRobin, health, active, 0, ticket)
  {
  }

  lemma {:induction false} LaterTicket(m: Machine, health: seq<bool>, active: seq<nat>, ticket: nat, i: nat)
    requires m.Known() && |active| == |health| >= 1 && ticket < m.word && i > 0
    ensures TicketAfter(m, RoundRobin, |health|, ticket) < m.word
    ensures var next := TicketAfter(m, RoundRobin, |health|, ticket);
            Pick(m.word, RoundRobin, health, active, 0, Wrap(m.word, next + i - 1)) ==
            Pick(m.word, RoundRobin, health, active, 0, Wrap(m.word, ticket + i))
  {
    if |health| > 1 {
      var word := m.word;
      if ticket + 1 < word {
        WrapNone(word, ticket + 1);
      } else {
        OnceRound(0, word);
        WrapAgain(word, i - 1);
      }
    }
  }

  /** How often `j` is answered. */
  ghost function CountOf(answers: seq<Option<nat>>, j: nat): nat {
    if answers == [] then 0
    else CountOf(answers[..|answers| - 1], j) + if answers[|answers| - 1] == Some(j) then 1 else 0
  }

  lemma {:induction false} FirstAnswers(
    m: Machine, health: seq<bool>, active: seq<nat>, client: IpAddr, ticket: nat, count: nat)
    requires m.Known() && client.Valid() && |active| == |health| >= 1 && ticket < m.word && count > 0
    ensures |Answers(m, RoundRobin, health, active, client, ticket, count)| == count
    ensures Answers(m, RoundRobin, health, active, client, ticket, count)[..count - 1] ==
            Answers(m, RoundRobin, health, active, client, ticket, count - 1)
  {
    var long := Answers(m, RoundRobin, health, active, client, ticket, count);
    var short := Answers(m, RoundRobin, health, active, client, ticket, count - 1);
    AnswerAt(m, health, active, client, ticket, count, 0);
    if count > 1 {
      AnswerAt(m, health, active, client, ticket, count - 1, 0);
    }
    hide Answers, Pick;
    forall i | 0 <= i < count - 1 ensures long[i] == short[i] {
      AnswerAt(m, health, active, client, ticket, count, i);
      AnswerAt(m, health, active, client, ticket, count - 1, i);
    }
  }

  lemma {:induction false} CountIsPicked(
    m: Machine, health: seq<bool>, active: seq<nat>, client: IpAddr, ticket: nat, count: nat, j: nat)
    requires m.Known() && client.Valid() && |active| == |health| >= 1 && ticket < m.word
    ensures CountOf(Answers(m, RoundRobin, health, active, client, ticket, count), j) ==
            Picked(m.word, health, active, ticket, count, j)
    decreases count
  {
    if count > 0 {
      CountIsPicked(m, health, active, client, ticket, count - 1, j);
      FirstAnswers(m, health, active, client, ticket, count);
      AnswerAt(m, health, active, client, ticket, count, count - 1);
      hide Answers, Pick;
    }
  }

  ghost predicate EachAnswered(answers: seq<Option<nat>>, n: nat, k: nat) {
    forall j | 0 <= j < n :: CountOf(answers, j) == k
  }

  /**
   `k` times as many selections as there are backends, all healthy, answer each of them exactly `k` times
   if and only if the number of backends divides the word size, or the tickets do not wrap, or they wrap
   once and at the end of a round.
   */
  lemma {:induction false} SelectionsFairIff(
    m: Machine, health: seq<bool>, active: seq<nat>, client: IpAddr, ticket: nat, k: nat)
    requires m.Known() && client.Valid() && |active| == |health| >= 1 && false !in health && ticket < m.word
    ensures var n, end := |health|, ticket + k * |health|;
            EachAnswered(Answers(m, RoundRobin, health, active, client, ticket, k * n), n, k) <==>
            m.word % n == 0 || end <= m.word || (end < 2 * m.word && (m.word - ticket) % n == 0)
  {
    hide CountOf, Answers, Picked;
    var n, count := |health|, k * |health|;
    var answers := Answers(m, RoundRobin, health, active, client, ticket, count);
    forall j | 0 <= j < n ensures CountOf(answers, j) == Picked(m.word, health, active, ticket, count, j) {
      CountIsPicked(m, health, active, client, ticket, count, j);
    }
    assert EachAnswered(answers, n, k) <==> Fair(m.word, health, active, ticket, k);
    hide *;
    RoundRobinFairIff(m.word, health, active, ticket, k);
  }
}
