/** The shared tables behind single-flight fetching: cached values, running fetches and remembered failures. */
module FlightTable {
  import opened Prelude

  type Key = bytes

  /** Entries a shard may hold before its dead ones are swept out. */
  const SWEEP_THRESHOLD: nat := 64

  datatype Failure<E> = Failure(expires: nat, error: E)

  datatype Shard<E> = Shard(inflight: map<Key, nat>, failures: map<Key, Failure<E>>)

  /** What a fetch ends with: a value and the time it may be kept, or an error. */
  datatype Outcome<T, E> = Value(value: T, ttl: Option<nat>) | Failed(error: E)

  datatype Config = Config(hash: Key -> nat, shards: nat, negativeTtl: nat)

  datatype Table<T, E> = Table(shards: seq<Shard<E>>, cache: map<Key, T>)

  function ShardAt(cfg: Config, key: Key): (i: nat)
    requires cfg.shards > 0
    ensures i < cfg.shards
  {
    cfg.hash(key) % cfg.shards
  }

  ghost predicate Fits<T, E>(cfg: Config, t: Table<T, E>) {
    |t.shards| == cfg.shards > 0
  }

  /** The fetch registered for a key. */
  ghost function Slot<T, E>(cfg: Config, t: Table<T, E>, key: Key): Option<nat>
    requires Fits(cfg, t)
  {
    var inflight := t.shards[ShardAt(cfg, key)].inflight;
    if key in inflight then Some(inflight[key]) else None
  }

  ghost function Remembered<T, E>(cfg: Config, t: Table<T, E>, key: Key): Option<Failure<E>>
    requires Fits(cfg, t)
  {
    var failures := t.shards[ShardAt(cfg, key)].failures;
    if key in failures then Some(failures[key]) else None
  }

  // ----- Looking a key up under the lock of its shard -----

  /** What the lookup answers: an error remembered, a fetch to await, a value, or a fetch to start. */
  datatype Answer<T, E> = Refuse(error: E) | Join(id: nat) | Hit(value: T) | Lead(id: nat)

  /** Full maps lose the fetches nobody holds and the failures that are over. */
  function Swept<E>(s: Shard<E>, now: nat, alive: set<nat>): Shard<E> {
    var inflight :=
      if |s.inflight| < SWEEP_THRESHOLD then s.inflight
      else map k | k in s.inflight && s.inflight[k] in alive :: s.inflight[k];
    var failures :=
      if |s.failures| < SWEEP_THRESHOLD then s.failures
      else map k | k in s.failures && s.failures[k].expires > now :: s.failures[k];
    Shard(inflight, failures)
  }

  /** The shard after a lookup, and the answer. `alive` are the fetches some caller still holds. */
  function LookedUp<T, E>(
    s: Shard<E>, cache: map<Key, T>, key: Key, now: nat, alive: set<nat>, next: nat): (Shard<E>, Answer<T, E>) {
    if key in s.failures && s.failures[key].expires > now then (s, Refuse(s.failures[key].error))
    else
      var s := s.(failures := s.failures - {key});
      if key in s.inflight && s.inflight[key] in alive then (s, Join(s.inflight[key]))
      else if key in cache then (s, Hit(cache[key]))
      else
        var s := Swept(s, now, alive);
        (s.(inflight := s.inflight[key := next]), Lead(next))
  }

  function Lookup<T, E>(
    cfg: Config, t: Table<T, E>, key: Key, now: nat, alive: set<nat>, next: nat): (r: (Table<T, E>, Answer<T, E>))
    requires Fits(cfg, t)
    ensures Fits(cfg, r.0) && r.0.cache == t.cache
  {
    var i := ShardAt(cfg, key);
    var (s, answer) := LookedUp(t.shards[i], t.cache, key, now, alive, next);
    (t.(shards := t.shards[i := s]), answer)
  }

  // ----- Completing a fetch -----

  /** The table once the outcome is recorded; the slot is still taken. */
  function Record<T, E>(cfg: Config, t: Table<T, E>, key: Key, o: Outcome<T, E>, now: nat): (r: Table<T, E>)
    requires Fits(cfg, t)
    ensures Fits(cfg, r)
  {
    match o
    case Value(v, ttl) => if ttl == Some(0) then t else t.(cache := t.cache[key := v])
    case Failed(e) =>
      if cfg.negativeTtl == 0 then t
      else
        var i := ShardAt(cfg, key);
        var s := t.shards[i];
        t.(shards := t.shards[i := s.(failures := s.failures[key := Failure(now + cfg.negativeTtl, e)])])
  }

  function Release<T, E>(cfg: Config, t: Table<T, E>, key: Key): (r: Table<T, E>)
    requires Fits(cfg, t)
    ensures Fits(cfg, r) && r.cache == t.cache
  {
    var i := ShardAt(cfg, key);
    t.(shards := t.shards[i := t.shards[i].(inflight := t.shards[i].inflight - {key})])
  }

  // ----- As the source keeps it -----

  class MemoryCache<T, E> {
    var cfg: Config
    var shards: seq<Shard<E>>
    var cache: map<Key, T>
    var nextId: nat

    ghost predicate Valid()
      reads this
    {
      Fits(cfg, View())
    }

    ghost function View(): Table<T, E>
      reads this
    {
      Table(shards, cache)
    }

    constructor (hash: Key -> nat, count: nat, negativeTtl: nat)
      ensures Valid() && cfg == Config(hash, if count == 0 then 1 else count, negativeTtl) && nextId == 0 &&
              cache == map[]
      ensures forall key :: Slot(cfg, View(), key) == None && Remembered(cfg, View(), key) == None
    {
      var n := if count == 0 then 1 else count;
      cfg := Config(hash, n, negativeTtl);
      shards := seq(n, _ => Shard(map[], map[]));
      cache := map[];
      nextId := 0;
    }

    /** Joins the fetch that runs for the key, or registers a new one. */
    method JoinOrLead(key: Key, now: nat, alive: set<nat>) returns (answer: Answer<T, E>)
      requires Valid()
      modifies this
      ensures Valid() && cfg == old(cfg)
      ensures (View(), answer) == Lookup(cfg, old(View()), key, now, alive, old(nextId))
      ensures nextId == old(nextId) + if answer.Lead? then 1 else 0
    {
      var i := ShardAt(cfg, key);
      var s := shards[i];
      if key in s.failures {
        if s.failures[key].expires > now {
          assert shards == shards[i := s];
          return Refuse(s.failures[key].error);
        }
        s := s.(failures := s.failures - {key});
      }
      assert s == shards[i].(failures := shards[i].failures - {key});
      if key in s.inflight && s.inflight[key] in alive {
        shards := shards[i := s];
        return Join(s.inflight[key]);
      }
      if key in cache {
        shards := shards[i := s];
        return Hit(cache[key]);
      }
      var id := nextId;
      nextId := nextId + 1;
      s := Swept(s, now, alive);
      s := s.(inflight := s.inflight[key := id]);
      shards := shards[i := s];
      return Lead(id);
    }

    /** Records the outcome and frees the slot, if the slot is still that of the fetch. */
    method CompleteFlight(key: Key, id: nat, o: Outcome<T, E>, now: nat)
      requires Valid()
      modifies this
      ensures Valid() && cfg == old(cfg) && nextId == old(nextId)
      ensures View() ==
              if Slot(cfg, old(View()), key) == Some(id) then Release(cfg, Record(cfg, old(View()), key, o, now), key)
              else old(View())
    {
      var i := ShardAt(cfg, key);
      if key !in shards[i].inflight || shards[i].inflight[key] != id {
        return;
      }
      match o {
        case Value(v, ttl) =>
          if ttl != Some(0) {
            cache := cache[key := v];
          }
        case Failed(e) =>
          if cfg.negativeTtl != 0 {
            shards := shards[i := shards[i].(failures := shards[i].failures[key := Failure(now + cfg.negativeTtl, e)])];
          }
      }
      shards := shards[i := shards[i].(inflight := shards[i].inflight - {key})];
    }
  }

  // ----- What a step does to every key -----

  /** A lookup moves other slots only by sweeping out fetches nobody holds, and its own as it answers. */
  lemma {:induction false} LookupSlots<T, E>(
    cfg: Config, t: Table<T, E>, key: Key, now: nat, alive: set<nat>, next: nat, k: Key)
    requires Fits(cfg, t)
    ensures var (r, answer) := Lookup(cfg, t, key, now, alive, next);
            && (if k == key && answer.Lead? then Slot(cfg, r, k) == Some(next)
                else Slot(cfg, r, k) == Slot(cfg, t, k) || (Slot(cfg, r, k) == None && Slot(cfg, t, k).value !in alive))
            && (!answer.Lead? ==> Slot(cfg, r, k) == Slot(cfg, t, k))
            && (Remembered(cfg, r, k) == Remembered(cfg, t, k)
                || (Remembered(cfg, r, k) == None && Remembered(cfg, t, k).value.expires <= now))
  {
    hide LookedUp;
    LookedUpSlots(t.shards[ShardAt(cfg, key)], t.cache, key, now, alive, next, k);
  }

  lemma {:induction false} LookedUpSlots<T, E>(
    s: Shard<E>, cache: map<Key, T>, key: Key, now: nat, alive: set<nat>, next: nat, k: Key)
    ensures var (r, answer) := LookedUp(s, cache, key, now, alive, next);
            && (k == key && answer.Lead? ==> k in r.inflight && r.inflight[k] == next)
            && (!(k == key && answer.Lead?) ==>
                  && (k in r.inflight ==> k in s.inflight && r.inflight[k] == s.inflight[k])
                  && (k in s.inflight && k !in r.inflight ==> s.inflight[k] !in alive))
            && (!answer.Lead? ==> r.inflight == s.inflight)
            && (k in r.failures ==> k in s.failures && r.failures[k] == s.failures[k])
            && (k in s.failures && k !in r.failures ==> s.failures[k].expires <= now)
  {
    hide Swept;
    SweptSlots(s.(failures := s.failures - {key}), now, alive, k);
  }

  lemma {:induction false} SweptSlots<E>(s: Shard<E>, now: nat, alive: set<nat>, k: Key)
    ensures var r := Swept(s, now, alive);
            && (k in r.inflight ==> k in s.inflight && r.inflight[k] == s.inflight[k])
            && (k in s.inflight && k !in r.inflight ==> s.inflight[k] !in alive)
            && (k in r.failures ==> k in s.failures && r.failures[k] == s.failures[k])
            && (k in s.failures && k !in r.failures ==> s.failures[k].expires <= now)
  {
  }

  /** Why a lookup answers as it does. */
  lemma {:induction false} LookupReason<T, E>(
    cfg: Config, t: Table<T, E>, key: Key, now: nat, alive: set<nat>, next: nat)
    requires Fits(cfg, t)
    ensures match Lookup(cfg, t, key, now, alive, next).1
            case Refuse(e) =>
              && Remembered(cfg, t, key).Some? && Remembered(cfg, t, key).value.expires > now
              && Remembered(cfg, t, key).value.error == e
            case Join(id) => Slot(cfg, t, key) == Some(id) && id in alive
            case Hit(v) => key in t.cache && t.cache[key] == v
            case Lead(id) =>
              && id == next && key !in t.cache
              && (Remembered(cfg, t, key).Some? ==> Remembered(cfg, t, key).value.expires <= now)
              && (Slot(cfg, t, key).Some? ==> Slot(cfg, t, key).value !in alive)
  {
  }

  /** When a lookup starts a fetch. */
  ghost predicate MustFetch<T, E>(cfg: Config, t: Table<T, E>, key: Key, now: nat, alive: set<nat>)
    requires Fits(cfg, t)
  {
    && key !in t.cache
    && (Remembered(cfg, t, key).Some? ==> Remembered(cfg, t, key).value.expires <= now)
    && (Slot(cfg, t, key).Some? ==> Slot(cfg, t, key).value !in alive)
  }

  lemma {:induction false} LeadsIffNeeded<T, E>(
    cfg: Config, t: Table<T, E>, key: Key, now: nat, alive: set<nat>, next: nat)
    requires Fits(cfg, t)
    ensures Lookup(cfg, t, key, now, alive, next).1.Lead? <==> MustFetch(cfg, t, key, now, alive)
  {
  }

  ghost predicate Crowded<T, E>(cfg: Config, t: Table<T, E>, key: Key)
    requires Fits(cfg, t)
  {
    |t.shards[ShardAt(cfg, key)].inflight| >= SWEEP_THRESHOLD
  }

  lemma {:induction false} SlotTakenInShard<T, E>(
    s: Shard<E>, cache: map<Key, T>, key: Key, now: nat, alive: set<nat>, next: nat, k: Key)
    requires LookedUp(s, cache, key, now, alive, next).1.Lead? && k in s.inflight && s.inflight[k] != next
    ensures var r := LookedUp(s, cache, key, now, alive, next).0;
            k !in r.inflight || r.inflight[k] != s.inflight[k] <==>
            k == key || (|s.inflight| >= SWEEP_THRESHOLD && s.inflight[k] !in alive)
  {
  }

  /** A lookup that starts a fetch takes its own key's slot, and from a crowded shard every slot nobody holds. */
  lemma {:induction false} SlotTakenIff<T, E>(
    cfg: Config, t: Table<T, E>, key: Key, now: nat, alive: set<nat>, next: nat, k: Key, id: nat)
    requires Fits(cfg, t) && MustFetch(cfg, t, key, now, alive) && Slot(cfg, t, k) == Some(id) && id != next
    ensures Slot(cfg, Lookup(cfg, t, key, now, alive, next).0, k) != Some(id) <==>
            k == key || (ShardAt(cfg, k) == ShardAt(cfg, key) && Crowded(cfg, t, key) && id !in alive)
  {
    hide LookedUp, MustFetch;
    LeadsIffNeeded(cfg, t, key, now, alive, next);
    if ShardAt(cfg, k) == ShardAt(cfg, key) {
      SlotTakenInShard(t.shards[ShardAt(cfg, key)], t.cache, key, now, alive, next, k);
    }
  }

  lemma {:induction false} RecordSlots<T, E>(cfg: Config, t: Table<T, E>, key: Key, o: Outcome<T, E>, now: nat, k: Key)
    requires Fits(cfg, t)
    ensures var r := Record(cfg, t, key, o, now);
            && Slot(cfg, r, k) == Slot(cfg, t, k)
            && (if k == key && o.Failed? && cfg.negativeTtl > 0
                then Remembered(cfg, r, k) == Some(Failure(now + cfg.negativeTtl, o.error))
                else Remembered(cfg, r, k) == Remembered(cfg, t, k))
            && (if k == key && o.Value? && o.ttl != Some(0) then k in r.cache && r.cache[k] == o.value
                else k in r.cache <==> k in t.cache)
            && (k != key || o.Failed? ==> (k in t.cache ==> k in r.cache && r.cache[k] == t.cache[k]))
  {
  }

  lemma {:induction false} ReleaseSlots<T, E>(cfg: Config, t: Table<T, E>, key: Key, k: Key)
    requires Fits(cfg, t)
    ensures var r := Release(cfg, t, key);
            && Slot(cfg, r, k) == (if k == key then None else Slot(cfg, t, k))
            && Remembered(cfg, r, k) == Remembered(cfg, t, k)
  {
  }
}
