/** How far a strategy reaches, how fairly it spreads, and when health changes. */
module BalancerRuns {
  import opened Prelude
  import opened ClientHash
  import opened Balancer

  // ----- Remainders -----

  lemma {:induction false} AtLeastOnce(k: int, n: nat)
    requires k >= 1
    ensures k * n >= n
  {
    assert k * n == n + (k - 1) * n;
  }

  lemma {:induction false} SameQuotient(n: nat, p: int, a: nat, q: int, b: nat)
    requires p * n + a == q * n + b && a < n && b < n
    ensures p == q && a == b
  {
    assert (q - p) * n == q * n - p * n;
    assert (p - q) * n == p * n - q * n;
    if q > p {
      AtLeastOnce(q - p, n);
    } else if q < p {
      AtLeastOnce(p - q, n);
    }
  }

  lemma {:induction false} RemainderIs(x: nat, n: nat, q: int, r: nat)
    requires n > 0 && x == q * n + r && r < n
    ensures x % n == r
  {
    var p, a := x / n, x % n;
    assert x == p * n + a;
    SameQuotient(n, p, a, q, r);
  }

  lemma {:induction false} RemainderBelow(x: nat, n: nat)
    requires x < n
    ensures x % n == x
  {
  }

  /** Reducing before or after adding comes to the same. */
  lemma {:induction false} RoundFrom(x: nat, i: nat, n: nat)
    requires i < n
    ensures Round(x % n, i, n) == (x + i) % n
  {
    var r, q := x % n, x / n;
    assert x == q * n + r;
    if r + i < n {
      RemainderIs(x + i, n, q, r + i);
      RemainderBelow(r + i, n);
    } else {
      assert (q + 1) * n == q * n + n;
      RemainderIs(x + i, n, q + 1, r + i - n);
      OnceRound(r + i - n, n);
    }
  }

  // ----- Probing from a hash -----

  /** The probes before the wrap run up to the largest word. */
  lemma {:induction false} BeforeWrap(word: nat, hash: nat, i: nat, n: nat)
    requires n > 0 && hash + i < word
    ensures HashedPlace(word, hash, i, n) == (hash + i) % n
  {
    RemainderBelow(hash + i, word);
  }

  lemma {:induction false} AfterWrap(word: nat, hash: nat, i: nat, n: nat)
    requires n > 0 && word > 0 && word <= hash + i < 2 * word
    ensures HashedPlace(word, hash, i, n) == (hash + i - word) % n
  {
    RemainderIs(hash + i, word, 1, hash + i - word);
  }

  /** As long as the sum does not wrap, the probes go round the list. */
  lemma {:induction false} HashedIsCyclic(word: nat, health: seq<bool>, hash: nat, i: nat)
    requires health != [] && i <= |health| && hash + |health| <= word
    ensures HashedFrom(word, health, hash, i) == CyclicFrom(health, hash % |health|, i)
    decreases |health| - i
  {
    hide Round, HashedPlace;
    if i < |health| {
      BeforeWrap(word, hash, i, |health|);
      RoundFrom(hash, i, |health|);
      HashedIsCyclic(word, health, hash, i + 1);
    }
  }

  /**
   IP hash on 64-bit words: for every client address and every list of up to 2^64 - 2^32 backends, the
   first healthy one in cyclic order from the place of the hash, and none only if all are unhealthy.
   */
  lemma {:induction false} IpHashFirst(
    m: Machine, client: IpAddr, health: seq<bool>, active: seq<nat>, ticket: nat)
    requires m.word == WORD64 && client.Valid()
    requires 0 < |health| <= WORD64 - WORD32 && |active| == |health|
    ensures FirstInOrder(health, HashIp(m, client) % |health|,
                         Pick(m.word, IpHash, health, active, HashIp(m, client), ticket))
  {
    var hash := HashIp(m, client);
    if |health| == 1 {
      OnlyOne(health, hash % |health|);
    } else {
      HashedIsCyclic(m.word, health, hash, 0);
      CyclicInOrder(health, hash % |health|);
    }
  }

  ghost predicate Reaches(word: nat, hash: nat, n: nat, j: nat)
    requires n > 0 && word > 0
  {
    exists i | 0 <= i < n :: HashedPlace(word, hash, i, n) == j
  }

  /** Every place is probed if the sum does not wrap. */
  lemma {:induction false} ReachesWithoutWrap(word: nat, hash: nat, n: nat, j: nat)
    requires 0 < n && j < n && hash + n <= word
    ensures Reaches(word, hash, n, j)
  {
    hide Round, HashedPlace;
    var i := RoundReaches(n, hash % n, j);
    RoundFrom(hash, i, n);
    BeforeWrap(word, hash, i, n);
  }

  /** Or if the number of backends divides the word size. */
  lemma {:induction false} ReachesWithDivisor(word: nat, hash: nat, n: nat, j: nat)
    requires 0 < n < word && j < n && hash < word && word < hash + n && word % n == 0
    ensures Reaches(word, hash, n, j)
  {
    hide HashedPlace;
    var m := hash + n - word;
    if j < m {
      var i := n - m + j;
      AfterWrap(word, hash, i, n);
      RemainderBelow(j, n);
      assert HashedPlace(word, hash, i, n) == j;
    } else {
      var i, q := j - m, word / n;
      BeforeWrap(word, hash, i, n);
      assert word == q * n;
      assert hash + i == word - n + j;
      assert (q - 1) * n == q * n - n;
      RemainderIs(hash + i, n, q - 1, j);
      assert HashedPlace(word, hash, i, n) == j;
    }
  }

  /** Otherwise one place is never probed. */
  ghost function Missed(word: nat, hash: nat, n: nat): nat
    requires 0 < n < word && hash < word < hash + n
  {
    var c, m := word % n, hash + n - word;
    if c + m - 1 < n then c + m - 1 else n - 1
  }

  /** `t` steps before the wrap, the place lies as far before the remainder of the word size. */
  lemma {:induction false} StepsBefore(word: nat, n: nat, t: nat)
    requires 0 < n < word && t <= n
    ensures var c := word % n; (word - t) % n == if t <= c then c - t else n + c - t
  {
    var c, q := word % n, word / n;
    assert word == q * n + c;
    if t <= c {
      RemainderIs(word - t, n, q, c - t);
    } else {
      assert (q - 1) * n == q * n - n;
      RemainderIs(word - t, n, q - 1, n + c - t);
    }
  }

  lemma {:induction false} MissedIsMissed(word: nat, hash: nat, n: nat, i: nat)
    requires 0 < n < word && hash < word < hash + n && word % n != 0 && i < n
    ensures Missed(word, hash, n) < n && HashedPlace(word, hash, i, n) != Missed(word, hash, n)
  {
    hide HashedPlace;
    if hash + i < word {
      BeforeWrap(word, hash, i, n);
      StepsBefore(word, n, word - hash - i);
    } else {
      AfterWrap(word, hash, i, n);
      RemainderBelow(hash + i - word, n);
    }
  }

  lemma {:induction false} HashedNone(word: nat, health: seq<bool>, hash: nat, i: nat)
    requires health != [] && i <= |health| && word > 0
    ensures HashedFrom(word, health, hash, i).None? <==>
            forall k | i <= k < |health| :: !health[HashedPlace(word, hash, k, |health|)]
    decreases |health| - i
  {
    hide HashedPlace;
    if i < |health| { HashedNone(word, health, hash, i + 1); }
  }

  /** The strategy finds a backend in every state of health that has one. */
  ghost predicate FindsAlways(word: nat, hash: nat, n: nat)
    requires n > 0 && word > 0
  {
    forall health: seq<bool>, active: seq<nat> | |health| == n && |active| == n && true in health ::
      Pick(word, IpHash, health, active, hash, 0).Some?
  }

  /**
   On any word size, exactly when the hash is not so close to the largest word that its probes wrap,
   or the wrap does no harm.
   */
  lemma {:induction false} IpHashFindsIff(m: Machine, client: IpAddr, n: nat)
    requires m.Known() && client.Valid() && 0 < n < m.word
    ensures FindsAlways(m.word, HashIp(m, client), n) <==> HashIp(m, client) + n <= m.word || m.word % n == 0
  {
    hide HashIp;
    HashFindsIff(m.word, HashIp(m, client), n);
  }

  lemma {:induction false} HashFindsIff(word: nat, hash: nat, n: nat)
    requires 0 < n < word && hash < word
    ensures FindsAlways(word, hash, n) <==> hash + n <= word || word % n == 0
  {
    if hash + n <= word || word % n == 0 {
      forall health: seq<bool>, active: seq<nat> | |health| == n && |active| == n && true in health
        ensures Pick(word, IpHash, health, active, hash, 0).Some?
      {
        FindsHealthy(word, hash, health, active);
      }
    } else {
      var j := Missed(word, hash, n);
      MissedIsMissed(word, hash, n, 0);
      hide HashedPlace, Missed;
      var health := seq(n, k => k == j);
      var active := seq(n, _ => 0 as nat);
      assert health[j];
      HashedNone(word, health, hash, 0);
      forall k | 0 <= k < n ensures !health[HashedPlace(word, hash, k, n)] {
        MissedIsMissed(word, hash, n, k);
      }
      OneIsFine(word, n);
      assert Pick(word, IpHash, health, active, hash, 0).None?;
    }
  }

  lemma {:induction false} OneIsFine(word: nat, n: nat)
    requires n > 0 && word % n != 0
    ensures n != 1
  {
  }

  lemma {:induction false} FindsHealthy(word: nat, hash: nat, health: seq<bool>, active: seq<nat>)
    requires 0 < |health| == |active| && |health| < word && hash < word && true in health
    requires hash + |health| <= word || word % |health| == 0
    ensures Pick(word, IpHash, health, active, hash, 0).Some?
  {
    var n := |health|;
    var j :| 0 <= j < n && health[j];
    if hash + n <= word {
      ReachesWithoutWrap(word, hash, n, j);
    } else {
      ReachesWithDivisor(word, hash, n, j);
    }
    hide HashedPlace;
    var i :| 0 <= i < n && HashedPlace(word, hash, i, n) == j;
    HashedNone(word, health, hash, 0);
  }

  /**
   On a 32-bit little-endian target the address 163.85.167.35 has the largest hash. With three backends
   its probes look at places 0, 0 and 1, and miss the only healthy one.
   */
  lemma {:induction false} IpHashMissExample()
    ensures var m, client := Machine(WORD32, true), V4(163, 85, 167, 35);
            Pick(m.word, IpHash, [false, false, true], [0, 0, 0], HashIp(m, client), 0) == None
  {
    LargestHash();
    var health := [false, false, true];
    assert HashedPlace(WORD32, WORD32 - 1, 0, 3) == 0;
    assert HashedPlace(WORD32, WORD32 - 1, 1, 3) == 0;
    assert HashedPlace(WORD32, WORD32 - 1, 2, 3) == 1;
    HashedNone(WORD32, health, WORD32 - 1, 0);
  }

  // ----- Fairness -----

  /** How many of the tickets from `from` on, `count` of them, pick place `j`. */
  ghost function Picked(word: nat, health: seq<bool>, active: seq<nat>, from: nat, count: nat, j: nat): nat
    requires health != [] && |active| == |health| && word > 0
  {
    if count == 0 then 0
    else
      var last := Pick(word, RoundRobin, health, active, 0, Wrap(word, from + count - 1));
      Picked(word, health, active, from, count - 1, j) + if last == Some(j) then 1 else 0
  }

  /** How many of the numbers from `from` on, `count` of them, leave the remainder `j`. */
  ghost function Hits(n: nat, from: nat, count: nat, j: nat): nat
    requires n > 0
  {
    if count == 0 then 0 else Hits(n, from, count - 1, j) + if (from + count - 1) % n == j then 1 else 0
  }

  lemma {:induction false} HealthyPick(word: nat, health: seq<bool>, active: seq<nat>, ticket: nat)
    requires health != [] && |active| == |health| && false !in health && word > 0
    ensures Pick(word, RoundRobin, health, active, 0, ticket) == Some(ticket % |health|)
  {
    var n := |health|;
    assert forall k | 0 <= k < n :: health[k];
    RemainderBelow(ticket % n, n);
    assert Round(ticket % n, 0, n) == ticket % n;
    if n == 1 {
      assert ticket % 1 == 0;
    }
  }

  lemma {:induction false} HitsSplit(n: nat, from: nat, a: nat, b: nat, j: nat)
    requires n > 0
    ensures Hits(n, from, a + b, j) == Hits(n, from, a, j) + Hits(n, from + a, b, j)
    decreases b
  {
    if b > 0 {
      HitsSplit(n, from, a, b - 1, j);
      assert from + a + (b - 1) == from + (a + b) - 1;
    }
  }

  /** How many tickets to wait for place `j`. */
  ghost function Distance(from: nat, j: nat, n: nat): nat
    requires j < n
  {
    if j >= from % n then j - from % n else j + n - from % n
  }

  lemma {:induction false} DistanceHits(from: nat, i: nat, j: nat, n: nat)
    requires j < n && i < n
    ensures (from + i) % n == j <==> i == Distance(from, j, n)
  {
    var r, q := from % n, from / n;
    assert from == q * n + r;
    if r + i < n {
      RemainderIs(from + i, n, q, r + i);
    } else {
      assert (q + 1) * n == q * n + n;
      RemainderIs(from + i, n, q + 1, r + i - n);
    }
  }

  /** In a stretch no longer than the list, a place comes up if its first number lies in it. */
  lemma {:induction false} HitsInStretch(n: nat, from: nat, count: nat, j: nat)
    requires j < n && count <= n
    ensures Hits(n, from, count, j) == if Distance(from, j, n) < count then 1 else 0
    decreases count
  {
    if count > 0 {
      HitsInStretch(n, from, count - 1, j);
      DistanceHits(from, count - 1, j, n);
    }
  }

  lemma {:induction false} HitsWhole(n: nat, from: nat, k: nat, j: nat)
    requires j < n
    ensures Hits(n, from, k * n, j) == k
    decreases k
  {
    if k > 0 {
      assert k * n == (k - 1) * n + n;
      HitsSplit(n, from, (k - 1) * n, n, j);
      HitsWhole(n, from, k - 1, j);
      HitsInStretch(n, from + (k - 1) * n, n, j);
      hide Hits;
    } else {
      assert k * n == 0;
    }
  }

  /** `k` whole rounds and a rest. */
  lemma {:induction false} HitsRest(n: nat, from: nat, count: nat, j: nat)
    requires j < n
    ensures Hits(n, from, count, j) == count / n + if Distance(from, j, n) < count % n then 1 else 0
  {
    var k, rest := count / n, count % n;
    assert count == rest + k * n;
    HitsSplit(n, from, rest, k * n, j);
    HitsWhole(n, from + rest, k, j);
    HitsInStretch(n, from, rest, j);
    hide Hits, Distance;
  }

  /** Tickets that do not wrap pick the remainders. */
  lemma {:induction false} PickedIsHits(
    word: nat, health: seq<bool>, active: seq<nat>, from: nat, count: nat, j: nat)
    requires health != [] && |active| == |health| && false !in health && word > 0
    requires from + count <= word || word % |health| == 0
    ensures Picked(word, health, active, from, count, j) == Hits(|health|, from, count, j)
    decreases count
  {
    if count > 0 {
      PickedIsHits(word, health, active, from, count - 1, j);
      var last := from + count - 1;
      HealthyPick(word, health, active, Wrap(word, last));
      if last < word {
        RemainderBelow(last, word);
      } else {
        WrapKeeps(word, last, |health|);
      }
      hide Pick;
    }
  }

  lemma {:induction false} WrapKeeps(word: nat, x: nat, n: nat)
    requires n > 0 && word > 0 && word % n == 0
    ensures Wrap(word, x) % n == x % n
  {
    var w, r, q, k := Wrap(word, x), Wrap(word, x) % n, Wrap(word, x) / n, word / n;
    var p := x / word;
    assert x == p * word + w && word == k * n && w == q * n + r;
    assert p * (k * n) == (p * k) * n;
    assert (p * k + q) * n == (p * k) * n + q * n;
    RemainderIs(x, n, p * k + q, r);
  }

  /** The tickets before the wrap, and those after it, which start again at zero. */
  lemma {:induction false} PickedWraps(word: nat, health: seq<bool>, active: seq<nat>, from: nat, after: nat, j: nat)
    requires health != [] && |active| == |health| && from <= word && word > 0
    ensures Picked(word, health, active, from, word - from + after, j) ==
            Picked(word, health, active, from, word - from, j) + Picked(word, health, active, 0, after, j)
    decreases after
  {
    hide Pick;
    if after > 0 {
      PickedWraps(word, health, active, from, after - 1, j);
      WrapAgain(word, after - 1);
    }
  }

  lemma {:induction false} WrapAgain(word: nat, x: nat)
    requires word > 0
    ensures Wrap(word, word + x) == Wrap(word, x)
  {
    var w, p := x % word, x / word;
    assert x == p * word + w;
    assert (p + 1) * word == p * word + word;
    RemainderIs(word + x, word, p + 1, w);
  }

  /**
   Up to the wrap, the place before the cut has one pick more than the one at the cut, or as many after
   whole rounds.
   */
  lemma {:induction false} ShareAtCut(n: nat, word: nat, from: nat)
    requires n > 0 && word % n != 0 && from <= word
    ensures var c := word % n;
            Hits(n, from, word - from, c - 1) ==
            Hits(n, from, word - from, c) + if (word - from) % n == 0 then 0 else 1
  {
    var c, f, k, p := word % n, from % n, word / n, from / n;
    assert word == k * n + c && from == p * n + f;
    var s := if c >= f then c - f else c + n - f;
    if c >= f {
      assert (k - p) * n == k * n - p * n;
      RemainderIs(word - from, n, k - p, s);
    } else {
      assert (k - p - 1) * n == k * n - p * n - n;
      RemainderIs(word - from, n, k - p - 1, s);
    }
    HitsRest(n, from, word - from, c - 1);
    HitsRest(n, from, word - from, c);
    hide Hits;
  }

  lemma {:induction false} NotBehind(n: nat, word: nat, count: nat)
    requires n > 0 && word % n != 0
    ensures Hits(n, 0, count, word % n - 1) >= Hits(n, 0, count, word % n)
  {
    HitsRest(n, 0, count, word % n - 1);
    HitsRest(n, 0, count, word % n);
    RemainderBelow(0, n);
    hide Hits;
  }

  /** From zero on, the place before the cut is never behind, and ahead once the tickets have wrapped. */
  lemma {:induction false} CutIsAhead(word: nat, health: seq<bool>, active: seq<nat>, count: nat)
    requires health != [] && |active| == |health| && false !in health && word > 0 && word % |health| != 0
    ensures var c := word % |health|;
            var ahead := Picked(word, health, active, 0, count, c - 1) - Picked(word, health, active, 0, count, c);
            ahead >= if count < word then 0 else 1
    decreases count
  {
    hide Picked, Hits;
    var n, c := |health|, word % |health|;
    if count < word {
      PickedIsHits(word, health, active, 0, count, c - 1);
      PickedIsHits(word, health, active, 0, count, c);
      NotBehind(n, word, count);
    } else {
      CutIsAhead(word, health, active, count - word);
      PickedWraps(word, health, active, 0, count - word, c - 1);
      PickedWraps(word, health, active, 0, count - word, c);
      PickedIsHits(word, health, active, 0, word, c - 1);
      PickedIsHits(word, health, active, 0, word, c);
      ShareAtCut(n, word, 0);
    }
  }

  /** Each of the backends is picked exactly `k` times. */
  ghost predicate Fair(word: nat, health: seq<bool>, active: seq<nat>, from: nat, k: nat)
    requires health != [] && |active| == |health| && word > 0
  {
    forall j | 0 <= j < |health| :: Picked(word, health, active, from, k * |health|, j) == k
  }

  /**
   Over `k` times as many tickets as there are backends, all healthy, each is picked exactly `k` times
   if and only if the number of backends divides the word size, or the tickets do not wrap, or they wrap
   once and at the end of a round.
   */
  lemma {:induction false} RoundRobinFairIff(word: nat, health: seq<bool>, active: seq<nat>, from: nat, k: nat)
    requires health != [] && |active| == |health| && false !in health && from < word
    ensures var n, end := |health|, from + k * |health|;
            Fair(word, health, active, from, k) <==>
            word % n == 0 || end <= word || (end < 2 * word && (word - from) % n == 0)
  {
    var n, end := |health|, from + k * |health|;
    if word % n == 0 || end <= word {
      FairWithoutWrap(word, health, active, from, k);
    } else {
      FairIfWhole(word, health, active, from, k);
      UnfairOtherwise(word, health, active, from, k);
    }
  }

  lemma {:induction false} FairWithoutWrap(word: nat, health: seq<bool>, active: seq<nat>, from: nat, k: nat)
    requires health != [] && |active| == |health| && false !in health && from < word
    requires word % |health| == 0 || from + k * |health| <= word
    ensures Fair(word, health, active, from, k)
  {
    hide Picked, Hits;
    forall j | 0 <= j < |health| ensures Picked(word, health, active, from, k * |health|, j) == k {
      PickedIsHits(word, health, active, from, k * |health|, j);
      HitsWhole(|health|, from, k, j);
    }
  }

  lemma {:induction false} FairIfWhole(word: nat, health: seq<bool>, active: seq<nat>, from: nat, k: nat)
    requires health != [] && |active| == |health| && false !in health && from < word < from + k * |health|
    ensures from + k * |health| < 2 * word && (word - from) % |health| == 0 ==> Fair(word, health, active, from, k)
  {
    hide Picked, Hits;
    var n, before, after := |health|, word - from, from + k * |health| - word;
    if after < word && before % n == 0 {
      var a := before / n;
      assert before == a * n;
      assert (k - a) * n == k * n - a * n;
      AtMost(a, k, n);
      forall j | 0 <= j < n ensures Picked(word, health, active, from, k * n, j) == k {
        PickedWraps(word, health, active, from, after, j);
        PickedIsHits(word, health, active, from, before, j);
        PickedIsHits(word, health, active, 0, after, j);
        HitsWhole(n, from, a, j);
        HitsWhole(n, 0, k - a, j);
      }
    }
  }

  lemma {:induction false} AtMost(a: nat, k: nat, n: nat)
    requires a * n <= k * n && n > 0
    ensures a <= k
  {
    assert (a - k) * n == a * n - k * n;
    if a > k {
      AtLeastOnce(a - k, n);
    }
  }

  lemma {:induction false} UnfairOtherwise(word: nat, health: seq<bool>, active: seq<nat>, from: nat, k: nat)
    requires health != [] && |active| == |health| && false !in health && from < word < from + k * |health|
    requires word % |health| != 0
    ensures Fair(word, health, active, from, k) ==> from + k * |health| < 2 * word && (word - from) % |health| == 0
  {
    hide Picked, Hits;
    var n, c, before, after := |health|, word % |health|, word - from, from + k * |health| - word;
    PickedWraps(word, health, active, from, after, c - 1);
    PickedWraps(word, health, active, from, after, c);
    PickedIsHits(word, health, active, from, before, c - 1);
    PickedIsHits(word, health, active, from, before, c);
    ShareAtCut(n, word, from);
    CutIsAhead(word, health, active, after);
  }

  // ----- Health checks -----

  ghost function AfterChecks(checks: seq<bool>, up: nat, down: nat): Health {
    if checks == [] then Health(true, 0, 0)
    else Checked(AfterChecks(checks[..|checks| - 1], up, down), checks[|checks| - 1], up, down)
  }

  /** The length of the run of `ok` at the end. */
  ghost function Streak(checks: seq<bool>, ok: bool): nat {
    if checks == [] || checks[|checks| - 1] != ok then 0 else 1 + Streak(checks[..|checks| - 1], ok)
  }

  /** The health that the last streak long enough to count has set; healthy before any. */
  ghost function Settled(checks: seq<bool>, up: nat, down: nat): bool {
    if checks == [] then true
    else if Streak(checks, true) >= Max1(up) then true
    else if Streak(checks, false) >= Max1(down) then false
    else Settled(checks[..|checks| - 1], up, down)
  }

  /** Health follows the last streak that reached its threshold, even after the counters wrapped. */
  lemma {:induction false} HealthFollowsStreaks(checks: seq<bool>, up: nat, down: nat)
    requires up < U32 && down < U32
    ensures AfterChecks(checks, up, down) ==
            Health(Settled(checks, up, down), Streak(checks, true) % U32, Streak(checks, false) % U32)
  {
    if checks != [] {
      var init, ok := checks[..|checks| - 1], checks[|checks| - 1];
      HealthFollowsStreaks(init, up, down);
      CountOn(Streak(init, ok));
      LongStreak(init, up, down);
    }
  }

  lemma {:induction false} CountOn(n: nat)
    ensures (n % U32 + 1) % U32 == (n + 1) % U32
    ensures n % U32 + 1 <= n + 1
    ensures n < U32 ==> n % U32 == n
  {
  }

  lemma {:induction false} LongStreak(checks: seq<bool>, up: nat, down: nat)
    ensures Streak(checks, true) >= Max1(up) ==> Settled(checks, up, down)
    ensures Streak(checks, false) >= Max1(down) ==> !Settled(checks, up, down)
  {
  }
}
