/**
 Callers that fetch through the shared tables, step by step.

 A lookup, and each half of a completion, happens under the lock of the key's shard. A caller
 holds its fetch only while it awaits it: the poll that ends the wait lets go of the fetch, and
 recording the outcome is a later step of its own.
 */
module SingleFlight {
  import opened Prelude
  import opened FlightTable

  type Caller = nat

  datatype Call<T, E> =
    | Missed(key: Key)
    | Awaiting(key: Key, id: nat)
    | Observed(key: Key, id: nat, outcome: Outcome<T, E>)
    | Publishing(key: Key, id: nat, outcome: Outcome<T, E>)
    | Returned(key: Key, from: Option<nat>)

  datatype Flight<T, E> = Flight(key: Key, outcome: Option<Outcome<T, E>>)

  /** What the log keeps: fetches that started, outcomes that were recorded. */
  datatype Event<T, E> =
    | Started(key: Key, id: nat, at: nat)
    | Recorded(key: Key, id: nat, outcome: Outcome<T, E>, at: nat)

  /** `displaced` are the fetches whose slot a lookup took away. */
  datatype State<T, E> = State(
    table: Table<T, E>,
    now: nat,
    flights: seq<Flight<T, E>>,
    calls: map<Caller, Call<T, E>>,
    log: seq<Event<T, E>>,
    displaced: set<nat>
  )

  datatype Step<T, E> =
    | FastHit(c: Caller, key: Key)
    | FastMiss(c: Caller, key: Key)
    | Look(c: Caller)
    | Poll(c: Caller, outcome: Outcome<T, E>)
    | Cancel(c: Caller)
    | Publish(c: Caller)
    | Free(c: Caller)
    | Tick(d: nat)
    | Put(key: Key, value: T)
    | Evict(key: Key)

  ghost function Alive<T, E>(s: State<T, E>): set<nat> {
    set c | c in s.calls && s.calls[c].Awaiting? :: s.calls[c].id
  }

  ghost predicate Locked<T, E>(cfg: Config, s: State<T, E>, key: Key)
    requires cfg.shards > 0
  {
    exists c | c in s.calls :: s.calls[c].Publishing? && ShardAt(cfg, s.calls[c].key) == ShardAt(cfg, key)
  }

  ghost predicate Enabled<T, E>(cfg: Config, s: State<T, E>, step: Step<T, E>) {
    Fits(cfg, s.table) &&
    match step
    case FastHit(c, key) => c !in s.calls && key in s.table.cache
    case FastMiss(c, key) => c !in s.calls && key !in s.table.cache
    case Look(c) => c in s.calls && s.calls[c].Missed? && !Locked(cfg, s, s.calls[c].key)
    case Poll(c, o) =>
      && c in s.calls && s.calls[c].Awaiting? && s.calls[c].id < |s.flights|
      && s.flights[s.calls[c].id].outcome in {None, Some(o)}
    case Cancel(c) => c in s.calls && s.calls[c].Awaiting?
    case Publish(c) => c in s.calls && s.calls[c].Observed? && !Locked(cfg, s, s.calls[c].key)
    case Free(c) => c in s.calls && s.calls[c].Publishing?
    case Tick(_) => true
    case Put(_, _) => true
    case Evict(_) => true
  }

  /** The fetches registered in `t` whose slot is no longer theirs in `r`. */
  ghost function Pushed<T, E>(cfg: Config, t: Table<T, E>, r: Table<T, E>, key: Key): set<nat>
    requires Fits(cfg, t) && Fits(cfg, r)
  {
    var slots := t.shards[ShardAt(cfg, key)].inflight;
    set k | k in slots && Slot(cfg, t, k) == Some(slots[k]) != Slot(cfg, r, k) :: slots[k]
  }

  ghost function AfterLook<T, E>(cfg: Config, s: State<T, E>, c: Caller): State<T, E>
    requires Enabled(cfg, s, Look(c))
  {
    var key := s.calls[c].key;
    var (t, answer) := Lookup(cfg, s.table, key, s.now, Alive(s), |s.flights|);
    match answer
    case Refuse(_) => s.(table := t, calls := s.calls[c := Returned(key, None)])
    case Hit(_) => s.(table := t, calls := s.calls[c := Returned(key, None)])
    case Join(id) => s.(table := t, calls := s.calls[c := Awaiting(key, id)])
    case Lead(id) =>
      s.(table := t, calls := s.calls[c := Awaiting(key, id)], flights := s.flights + [Flight(key, None)],
         log := s.log + [Started(key, id, s.now)], displaced := s.displaced + Pushed(cfg, s.table, t, key))
  }

  ghost function AfterPublish<T, E>(cfg: Config, s: State<T, E>, c: Caller): State<T, E>
    requires Enabled(cfg, s, Publish(c))
  {
    var Observed(key, id, o) := s.calls[c];
    if Slot(cfg, s.table, key) != Some(id) then s.(calls := s.calls[c := Returned(key, Some(id))])
    else s.(table := Record(cfg, s.table, key, o, s.now), calls := s.calls[c := Publishing(key, id, o)],
            log := s.log + [Recorded(key, id, o, s.now)])
  }

  ghost function Next<T, E>(cfg: Config, s: State<T, E>, step: Step<T, E>): State<T, E>
    requires Enabled(cfg, s, step)
  {
    match step
    case FastHit(c, key) => s.(calls := s.calls[c := Returned(key, None)])
    case FastMiss(c, key) => s.(calls := s.calls[c := Missed(key)])
    case Look(c) => AfterLook(cfg, s, c)
    case Poll(c, o) =>
      var Awaiting(key, id) := s.calls[c];
      s.(flights := s.flights[id := s.flights[id].(outcome := Some(o))], calls := s.calls[c := Observed(key, id, o)])
    case Cancel(c) => s.(calls := s.calls - {c})
    case Publish(c) => AfterPublish(cfg, s, c)
    case Free(c) =>
      var Publishing(key, id, o) := s.calls[c];
      s.(table := Release(cfg, s.table, key), calls := s.calls[c := Returned(key, Some(id))])
    case Tick(d) => s.(now := s.now + d)
    case Put(key, v) => s.(table := s.table.(cache := s.table.cache[key := v]))
    case Evict(key) => s.(table := s.table.(cache := s.table.cache - {key}))
  }

  // ----- What every state keeps -----

  /** A caller knows a fetch of its key, and the outcome it saw is the outcome of that fetch. */
  ghost predicate CallOk<T, E>(s: State<T, E>, call: Call<T, E>) {
    match call
    case Missed(_) => true
    case Awaiting(key, id) => id < |s.flights| && s.flights[id].key == key
    case Observed(key, id, o) => id < |s.flights| && s.flights[id] == Flight(key, Some(o))
    case Publishing(key, id, o) => id < |s.flights| && s.flights[id] == Flight(key, Some(o))
    case Returned(key, from) => from.Some? ==> from.value < |s.flights| && s.flights[from.value].key == key
  }

  ghost predicate CallsOk<T, E>(s: State<T, E>) {
    forall c | c in s.calls :: CallOk(s, s.calls[c])
  }

  ghost predicate SlotOk<T, E>(cfg: Config, s: State<T, E>, k: Key)
    requires Fits(cfg, s.table)
  {
    var slot := Slot(cfg, s.table, k);
    slot.Some? ==> slot.value < |s.flights| && s.flights[slot.value].key == k
  }

  ghost predicate SlotsOk<T, E>(cfg: Config, s: State<T, E>)
    requires Fits(cfg, s.table)
  {
    forall k :: SlotOk(cfg, s, k)
  }

  ghost predicate Registered<T, E>(cfg: Config, s: State<T, E>, id: nat)
    requires Fits(cfg, s.table)
  {
    id < |s.flights| && Slot(cfg, s.table, s.flights[id].key) == Some(id)
  }

  ghost predicate Running<T, E>(s: State<T, E>, id: nat) {
    id < |s.flights| && s.flights[id].outcome.None? && id in Alive(s)
  }

  /** Every fetch that runs has the slot of its key. */
  ghost predicate RunningOk<T, E>(cfg: Config, s: State<T, E>)
    requires Fits(cfg, s.table)
  {
    forall id | Running(s, id) :: Registered(cfg, s, id)
  }

  /** Whoever publishes still has the slot of its fetch, and is alone in its shard. */
  ghost predicate LocksOk<T, E>(cfg: Config, s: State<T, E>)
    requires Fits(cfg, s.table)
  {
    && (forall c | c in s.calls && s.calls[c].Publishing? :: Slot(cfg, s.table, s.calls[c].key) == Some(s.calls[c].id))
    && (forall c, d | c in s.calls && d in s.calls && s.calls[c].Publishing? && s.calls[d].Publishing?
          && ShardAt(cfg, s.calls[c].key) == ShardAt(cfg, s.calls[d].key) :: c == d)
  }

  ghost predicate IsRecorded<T, E>(s: State<T, E>, id: nat) {
    exists i | 0 <= i < |s.log| :: s.log[i].Recorded? && s.log[i].id == id
  }

  ghost predicate Held<T, E>(s: State<T, E>, id: nat) {
    exists c | c in s.calls :: s.calls[c].Publishing? && s.calls[c].id == id
  }

  ghost predicate EventOk<T, E>(s: State<T, E>, e: Event<T, E>) {
    && e.id < |s.flights| && s.flights[e.id].key == e.key && e.at <= s.now
    && (e.Recorded? ==> s.flights[e.id].outcome == Some(e.outcome))
  }

  /** Each event is about its own fetch, and no fetch starts twice or is recorded twice. */
  ghost predicate LogOk<T, E>(s: State<T, E>) {
    && (forall i | 0 <= i < |s.log| :: EventOk(s, s.log[i]))
    && (forall i, j | 0 <= i < j < |s.log| && s.log[i].Recorded? == s.log[j].Recorded? :: s.log[i].id != s.log[j].id)
  }

  /**
   A fetch has its slot, or was recorded, or lost the slot while nobody awaited it; recorded and
   displaced exclude each other.
   */
  ghost predicate Accounted<T, E>(cfg: Config, s: State<T, E>, id: nat)
    requires Fits(cfg, s.table)
  {
    && (Registered(cfg, s, id) || IsRecorded(s, id) || id in s.displaced)
    && (id in s.displaced ==> !Registered(cfg, s, id) && !IsRecorded(s, id) && id !in Alive(s))
    && (IsRecorded(s, id) && Registered(cfg, s, id) ==> Held(s, id))
    && (Held(s, id) ==> IsRecorded(s, id))
  }

  ghost predicate AccountsOk<T, E>(cfg: Config, s: State<T, E>)
    requires Fits(cfg, s.table)
  {
    && (forall id | 0 <= id < |s.flights| :: Accounted(cfg, s, id))
    && (forall id | id in s.displaced :: id < |s.flights|)
    && (forall c | c in s.calls && s.calls[c].Returned? && s.calls[c].from.Some? ::
          IsRecorded(s, s.calls[c].from.value) || s.calls[c].from.value in s.displaced)
  }

  /** A recorded failure is remembered until its time is over. */
  ghost predicate Lasting<T, E>(cfg: Config, s: State<T, E>, e: Event<T, E>)
    requires Fits(cfg, s.table)
  {
    e.Recorded? && e.outcome.Failed? && cfg.negativeTtl > 0 && s.now < e.at + cfg.negativeTtl ==>
      Remembered(cfg, s.table, e.key).Some? && Remembered(cfg, s.table, e.key).value.expires >= e.at + cfg.negativeTtl
  }

  /** No fetch starts for a key in the time after a recorded failure. */
  ghost predicate Spaced<T, E>(cfg: Config, log: seq<Event<T, E>>, i: nat, j: nat)
    requires i < |log| && j < |log|
  {
    log[i].Recorded? && log[i].outcome.Failed? && log[j].Started? && log[i].key == log[j].key && cfg.negativeTtl > 0 ==>
      log[j].at >= log[i].at + cfg.negativeTtl
  }

  ghost predicate FailuresOk<T, E>(cfg: Config, s: State<T, E>)
    requires Fits(cfg, s.table)
  {
    && (forall i | 0 <= i < |s.log| :: Lasting(cfg, s, s.log[i]))
    && (forall i, j | 0 <= i < j < |s.log| :: Spaced(cfg, s.log, i, j))
  }

  ghost predicate Inv<T, E>(cfg: Config, s: State<T, E>) {
    && Fits(cfg, s.table) && CallsOk(s) && SlotsOk(cfg, s) && RunningOk(cfg, s) && LocksOk(cfg, s)
    && LogOk(s) && AccountsOk(cfg, s) && FailuresOk(cfg, s)
  }

  ghost function Initial<T, E>(cfg: Config): (s: State<T, E>)
    requires cfg.shards > 0
    ensures Fits(cfg, s.table) && Inv(cfg, s)
  {
    State(Table(seq(cfg.shards, _ => Shard(map[], map[])), map[]), 0, [], map[], [], {})
  }
}
