/** Whole runs of callers: what single-flight fetching promises, and where it stops. */
module FlightRuns {
  import opened Prelude
  import opened FlightTable
  import opened SingleFlight
  import opened FlightSafety

  /** A run from empty tables, in any interleaving. */
  ghost predicate Run<T, E>(cfg: Config, states: seq<State<T, E>>, steps: seq<Step<T, E>>) {
    && cfg.shards > 0 && |states| == |steps| + 1 && states[0] == Initial(cfg)
    && forall i | 0 <= i < |steps| ::
         Enabled(cfg, states[i], steps[i]) && states[i + 1] == Next(cfg, states[i], steps[i])
  }

  lemma {:induction false} RunKeeps<T, E>(cfg: Config, states: seq<State<T, E>>, steps: seq<Step<T, E>>, i: nat)
    requires Run(cfg, states, steps) && i <= |steps|
    ensures Inv(cfg, states[i])
  {
    hide Inv, Enabled, Next;
    if i > 0 {
      RunKeeps(cfg, states, steps, i - 1);
      StepKeeps(cfg, states[i - 1], steps[i - 1]);
    }
  }

  // ----- Fetches that run -----

  /** In every state of every run, at most one fetch of a key runs, and it has the slot of the key. */
  lemma {:induction false} OneRunningFetch<T, E>(
    cfg: Config, states: seq<State<T, E>>, steps: seq<Step<T, E>>, i: nat, a: nat, b: nat)
    requires Run(cfg, states, steps) && i <= |steps|
    requires Running(states[i], a) && Running(states[i], b) && states[i].flights[a].key == states[i].flights[b].key
    ensures a == b && Fits(cfg, states[i].table) && Registered(cfg, states[i], a)
  {
    RunKeeps(cfg, states, steps, i);
  }

  /**
   A fetch starts only when its key has no value, no failure that lasts, no registered fetch that is
   held and none that runs.
   */
  lemma {:induction false} StartsWhenNeeded<T, E>(cfg: Config, states: seq<State<T, E>>, steps: seq<Step<T, E>>, i: nat)
    requires Run(cfg, states, steps) && i < |steps| && |states[i + 1].flights| != |states[i].flights|
    ensures var s := states[i];
            && steps[i].Look? && Enabled(cfg, s, steps[i])
            && var key := s.calls[steps[i].c].key;
               && states[i + 1].flights == s.flights + [Flight(key, None)]
               && states[i + 1].log == s.log + [Started(key, |s.flights|, s.now)]
               && key !in s.table.cache
               && (Remembered(cfg, s.table, key).Some? ==> Remembered(cfg, s.table, key).value.expires <= s.now)
               && (Slot(cfg, s.table, key).Some? ==> Slot(cfg, s.table, key).value !in Alive(s))
               && forall id: nat | Running(s, id) :: s.flights[id].key != key
  {
    RunKeeps(cfg, states, steps, i);
    var s := states[i];
    var c := steps[i].c;
    LeadFacts(cfg, s, states[i + 1], c);
    hide Slot, Remembered, Alive, Leads, Enabled, Next, AccountsOk, FailuresOk, LocksOk, LogOk;
    forall id: nat | Running(s, id) ensures s.flights[id].key != s.calls[c].key {
      assert Registered(cfg, s, id);
    }
  }

  // ----- Outcomes -----

  /** The outcome recorded for a fetch is the one it ended with, under its own key, and it is recorded once. */
  lemma {:induction false} RecordedOnce<T, E>(
    cfg: Config, states: seq<State<T, E>>, steps: seq<Step<T, E>>, i: nat, x: nat, y: nat)
    requires Run(cfg, states, steps) && i <= |steps| && x < |states[i].log| && y < |states[i].log|
    requires states[i].log[x].Recorded? && states[i].log[y].Recorded?
    ensures var s, e := states[i], states[i].log[x];
            e.id < |s.flights| && s.flights[e.id] == Flight(e.key, Some(e.outcome))
    ensures states[i].log[x].id == states[i].log[y].id ==> x == y
  {
    RunKeeps(cfg, states, steps, i);
    assert EventOk(states[i], states[i].log[x]);
  }

  lemma {:induction false} ReturnedAccount<T, E>(
    cfg: Config, states: seq<State<T, E>>, steps: seq<Step<T, E>>, i: nat, c: Caller)
    requires Run(cfg, states, steps) && i <= |steps| && c in states[i].calls
    requires states[i].calls[c].Returned? && states[i].calls[c].from.Some?
    ensures var s, id := states[i], states[i].calls[c].from.value; IsRecorded(s, id) <==> id !in s.displaced
  {
    RunKeeps(cfg, states, steps, i);
    var s, id := states[i], states[i].calls[c].from.value;
    assert CallOk(s, s.calls[c]);
    assert Accounted(cfg, s, id);
  }

  /**
   The step takes the slot of fetch `id`: a lookup that starts a fetch, of the same key or of another
   key in the same full shard, while nobody awaits `id`.
   */
  ghost predicate Takes<T, E>(cfg: Config, s: State<T, E>, step: Step<T, E>, id: nat) {
    && Enabled(cfg, s, step) && step.Look? && Registered(cfg, s, id) && id !in Alive(s)
    && var own, key := s.flights[id].key, s.calls[step.c].key;
       && MustFetch(cfg, s.table, key, s.now, Alive(s))
       && (own == key || (ShardAt(cfg, own) == ShardAt(cfg, key) && Crowded(cfg, s.table, key)))
  }

  lemma {:induction false} PushedIff<T, E>(cfg: Config, s: State<T, E>, c: Caller, id: nat)
    requires Inv(cfg, s) && Enabled(cfg, s, Look(c))
    requires MustFetch(cfg, s.table, s.calls[c].key, s.now, Alive(s))
    ensures var key := s.calls[c].key;
            var t := Lookup(cfg, s.table, key, s.now, Alive(s), |s.flights|).0;
            id in Pushed(cfg, s.table, t, key) <==> Takes(cfg, s, Look(c), id)
  {
    hide Lookup, Inv, Locked, MustFetch, Crowded;
    var key := s.calls[c].key;
    var t := Lookup(cfg, s.table, key, s.now, Alive(s), |s.flights|).0;
    if id in Pushed(cfg, s.table, t, key) {
      var slots := s.table.shards[ShardAt(cfg, key)].inflight;
      var k :| k in slots && Slot(cfg, s.table, k) == Some(slots[k]) != Slot(cfg, t, k) && slots[k] == id;
      KeyOfSlot(cfg, s, k);
    }
    if Registered(cfg, s, id) {
      var own := s.flights[id].key;
      SlotTakenIff(cfg, s.table, key, s.now, Alive(s), |s.flights|, own, id);
      OwnSlotIsFree(cfg, s, key);
    }
  }

  lemma {:induction false} KeyOfSlot<T, E>(cfg: Config, s: State<T, E>, k: Key)
    requires Inv(cfg, s) && Slot(cfg, s.table, k).Some?
    ensures var id := Slot(cfg, s.table, k).value; id < |s.flights| && s.flights[id].key == k
  {
    assert SlotOk(cfg, s, k);
  }

  lemma {:induction false} OwnSlotIsFree<T, E>(cfg: Config, s: State<T, E>, key: Key)
    requires Fits(cfg, s.table) && MustFetch(cfg, s.table, key, s.now, Alive(s))
    ensures Slot(cfg, s.table, key).Some? ==> Slot(cfg, s.table, key).value !in Alive(s)
  {
  }

  lemma {:induction false} LookDisplaces<T, E>(cfg: Config, s: State<T, E>, c: Caller, id: nat)
    requires Inv(cfg, s) && Enabled(cfg, s, Look(c))
    ensures id in AfterLook(cfg, s, c).displaced <==> id in s.displaced || Takes(cfg, s, Look(c), id)
  {
    hide Lookup, Pushed, Inv, Locked, MustFetch;
    var key := s.calls[c].key;
    LeadsIffNeeded(cfg, s.table, key, s.now, Alive(s), |s.flights|);
    if MustFetch(cfg, s.table, key, s.now, Alive(s)) {
      PushedIff(cfg, s, c, id);
      hide Takes;
    }
  }

  /** One step displaces exactly the fetches whose slot it takes. */
  lemma {:induction false} DisplacedStep<T, E>(cfg: Config, s: State<T, E>, step: Step<T, E>, id: nat)
    requires Inv(cfg, s) && Enabled(cfg, s, step)
    ensures id in Next(cfg, s, step).displaced <==> id in s.displaced || Takes(cfg, s, step, id)
  {
    hide Inv, AfterLook, Enabled;
    if step.Look? {
      LookDisplaces(cfg, s, step.c, id);
    }
  }

  /** Over a run, the displaced fetches are those whose slot some step took. */
  lemma {:induction false} DisplacedIffTaken<T, E>(
    cfg: Config, states: seq<State<T, E>>, steps: seq<Step<T, E>>, j: nat, id: nat)
    requires Run(cfg, states, steps) && j <= |steps|
    ensures id in states[j].displaced <==> exists i | 0 <= i < j :: Takes(cfg, states[i], steps[i], id)
  {
    hide Inv, Enabled, Next, Takes;
    if j > 0 {
      DisplacedIffTaken(cfg, states, steps, j - 1, id);
      RunKeeps(cfg, states, steps, j - 1);
      DisplacedStep(cfg, states[j - 1], steps[j - 1], id);
      if i :| 0 <= i < j && Takes(cfg, states[i], steps[i], id) {
        assert i < j - 1 || i == j - 1;
      }
    }
  }

  /**
   A caller that came back from a fetch: its outcome was recorded if and only if no lookup before had
   taken the slot while nobody awaited the fetch.
   */
  lemma {:induction false} RecordedIffNotTaken<T, E>(
    cfg: Config, states: seq<State<T, E>>, steps: seq<Step<T, E>>, j: nat, c: Caller)
    requires Run(cfg, states, steps) && j <= |steps| && c in states[j].calls
    requires states[j].calls[c].Returned? && states[j].calls[c].from.Some?
    ensures var id := states[j].calls[c].from.value;
            IsRecorded(states[j], id) <==> forall i | 0 <= i < j :: !Takes(cfg, states[i], steps[i], id)
  {
    hide Takes, Enabled, Next;
    ReturnedAccount(cfg, states, steps, j, c);
    DisplacedIffTaken(cfg, states, steps, j, states[j].calls[c].from.value);
  }

  /**
   Recording comes first: when a completion frees a slot, the outcome is in the log and the slot was
   still its own.
   */
  lemma {:induction false} FreedAfterRecord<T, E>(cfg: Config, states: seq<State<T, E>>, steps: seq<Step<T, E>>, i: nat)
    requires Run(cfg, states, steps) && i < |steps| && steps[i].Free?
    ensures var s, c := states[i], steps[i].c;
            && c in s.calls && s.calls[c].Publishing? && Fits(cfg, s.table)
            && IsRecorded(s, s.calls[c].id) && Slot(cfg, s.table, s.calls[c].key) == Some(s.calls[c].id)
  {
    RunKeeps(cfg, states, steps, i);
    FreeFacts(cfg, states[i], states[i + 1], steps[i].c);
  }

  /** After a failure is recorded, no fetch of its key starts before its time is over. */
  lemma {:induction false} NoRetryTooSoon<T, E>(
    cfg: Config, states: seq<State<T, E>>, steps: seq<Step<T, E>>, i: nat, x: nat, y: nat)
    requires Run(cfg, states, steps) && i <= |steps| && x < y < |states[i].log|
    requires var a, b := states[i].log[x], states[i].log[y];
             a.Recorded? && a.outcome.Failed? && b.Started? && a.key == b.key
    ensures cfg.negativeTtl > 0 ==> states[i].log[y].at >= states[i].log[x].at + cfg.negativeTtl
  {
    RunKeeps(cfg, states, steps, i);
    assert Spaced(cfg, states[i].log, x, y);
  }

  // ----- A recorded value -----

  /** The value is cached, and the key's slot is free or that of the recorded fetch. */
  ghost predicate Kept<T, E>(cfg: Config, s: State<T, E>, key: Key, id: nat, v: T) {
    && Fits(cfg, s.table) && key in s.table.cache && s.table.cache[key] == v
    && Slot(cfg, s.table, key) in {None, Some(id)} && IsRecorded(s, id)
  }

  ghost predicate Touches<T, E>(step: Step<T, E>, key: Key) {
    (step.Put? || step.Evict?) && step.key == key
  }

  lemma {:induction false} KeptStep<T, E>(cfg: Config, s: State<T, E>, step: Step<T, E>, key: Key, id: nat, v: T)
    requires Inv(cfg, s) && Enabled(cfg, s, step) && Kept(cfg, s, key, id, v) && !Touches(step, key)
    ensures Kept(cfg, Next(cfg, s, step), key, id, v)
  {
    var r := Next(cfg, s, step);
    match step
    case Look(c) => KeptLook(cfg, s, c, key, id, v);
    case Publish(c) =>
      if Slot(cfg, s.table, s.calls[c].key) == Some(s.calls[c].id) {
        KeptPublish(cfg, s, c, key, id, v);
      }
    case Free(c) => ReleaseSlots(cfg, s.table, s.calls[c].key, key);
    case FastHit(_, _) =>
    case FastMiss(_, _) =>
    case Poll(_, _) =>
    case Cancel(_) =>
    case Tick(_) =>
    case Put(_, _) =>
    case Evict(_) =>
  }

  lemma {:induction false} LogGrows<T, E>(s: State<T, E>, r: State<T, E>, id: nat)
    requires s.log <= r.log && IsRecorded(s, id)
    ensures IsRecorded(r, id)
  {
    var i :| 0 <= i < |s.log| && s.log[i].Recorded? && s.log[i].id == id;
    assert r.log[i] == s.log[i];
  }

  lemma {:induction false} KeptLook<T, E>(cfg: Config, s: State<T, E>, c: Caller, key: Key, id: nat, v: T)
    requires Enabled(cfg, s, Look(c)) && Kept(cfg, s, key, id, v)
    ensures Kept(cfg, AfterLook(cfg, s, c), key, id, v)
  {
    hide Lookup, Slot, Remembered;
    var own := s.calls[c].key;
    LookupSlots(cfg, s.table, own, s.now, Alive(s), |s.flights|, key);
    LookupReason(cfg, s.table, own, s.now, Alive(s), |s.flights|);
    var r := AfterLook(cfg, s, c);
    LogGrows(s, r, id);
  }

  lemma {:induction false} KeptPublish<T, E>(cfg: Config, s: State<T, E>, c: Caller, key: Key, id: nat, v: T)
    requires Inv(cfg, s) && Enabled(cfg, s, Publish(c)) && Slot(cfg, s.table, s.calls[c].key) == Some(s.calls[c].id)
    requires Kept(cfg, s, key, id, v)
    ensures Kept(cfg, Next(cfg, s, Publish(c)), key, id, v)
  {
    var r := Next(cfg, s, Publish(c));
    PublishFacts(cfg, s, r, c);
    LogGrows(s, r, id);
    RecordSlots(cfg, s.table, s.calls[c].key, s.calls[c].outcome, s.now, key);
  }

  /**
   A value that a fetch recorded is there from before its slot is freed until the key is evicted or
   written from outside, and no fetch of the key starts meanwhile.
   */
  lemma {:induction false} CachedUntilEvicted<T, E>(
    cfg: Config, states: seq<State<T, E>>, steps: seq<Step<T, E>>, i: nat, j: nat)
    requires Run(cfg, states, steps) && i < j <= |steps| && steps[i].Publish?
    requires |states[i + 1].log| > |states[i].log|
    requires var o := states[i].calls[steps[i].c].outcome; o.Value? && o.ttl != Some(0)
    requires forall x | i < x < j :: !Touches(steps[x], states[i].calls[steps[i].c].key)
    ensures var Observed(key, id, o) := states[i].calls[steps[i].c];
            && Kept(cfg, states[j], key, id, o.value)
            && forall x | |states[i + 1].log| <= x < |states[j].log| ::
               !(states[j].log[x].Started? && states[j].log[x].key == key)
    ensures states[i + 1].log <= states[j].log
    decreases j
  {
    hide Inv, Next, Kept;
    var Observed(key, id, o) := states[i].calls[steps[i].c];
    if j == i + 1 {
      RunKeeps(cfg, states, steps, i);
      KeptFirst(cfg, states[i], steps[i].c);
    } else {
      CachedUntilEvicted(cfg, states, steps, i, j - 1);
      RunKeeps(cfg, states, steps, j - 1);
      KeptStep(cfg, states[j - 1], steps[j - 1], key, id, o.value);
      KeptStartsNothing(cfg, states[j - 1], steps[j - 1], key, id, o.value);
    }
  }

  lemma {:induction false} KeptFirst<T, E>(cfg: Config, s: State<T, E>, c: Caller)
    requires Inv(cfg, s) && Enabled(cfg, s, Publish(c)) && |Next(cfg, s, Publish(c)).log| > |s.log|
    requires s.calls[c].outcome.Value? && s.calls[c].outcome.ttl != Some(0)
    ensures Kept(cfg, Next(cfg, s, Publish(c)), s.calls[c].key, s.calls[c].id, s.calls[c].outcome.value)
  {
    var r := Next(cfg, s, Publish(c));
    PublishRecords(cfg, s, r, c, s.calls[c].id);
    RecordSlots(cfg, s.table, s.calls[c].key, s.calls[c].outcome, s.now, s.calls[c].key);
  }

  /** The log only grows, and with a value kept no fetch of its key starts. */
  lemma {:induction false} KeptStartsNothing<T, E>(
    cfg: Config, s: State<T, E>, step: Step<T, E>, key: Key, id: nat, v: T)
    requires Enabled(cfg, s, step) && Kept(cfg, s, key, id, v)
    ensures s.log <= Next(cfg, s, step).log
    ensures forall x | |s.log| <= x < |Next(cfg, s, step).log| ::
              !(Next(cfg, s, step).log[x].Started? && Next(cfg, s, step).log[x].key == key)
  {
    if step.Look? {
      var own := s.calls[step.c].key;
      LookupReason(cfg, s.table, own, s.now, Alive(s), |s.flights|);
      hide Lookup, Slot, Remembered;
    }
  }

  // ----- A second fetch -----

  /**
   The window a second fetch slips through: a caller has seen the outcome and not yet recorded it.
   A lookup of the key then starts another fetch, and the outcome is never recorded, exactly when
   nobody else awaits the finished fetch and the key has no value and no failure that lasts.
   */
  lemma {:induction false} SecondFetchIff<T, E>(cfg: Config, s: State<T, E>, c: Caller, d: Caller)
    requires Inv(cfg, s) && Enabled(cfg, s, Look(c)) && d in s.calls && s.calls[d].Observed? &&
             s.calls[d].key == s.calls[c].key
    requires Registered(cfg, s, s.calls[d].id)
    ensures var key, id, r := s.calls[d].key, s.calls[d].id, Next(cfg, s, Look(c));
            && (id in r.displaced <==> |r.flights| == |s.flights| + 1)
            && (|r.flights| == |s.flights| + 1 <==>
                  && id !in Alive(s) && key !in s.table.cache
                  && (Remembered(cfg, s.table, key).Some? ==> Remembered(cfg, s.table, key).value.expires <= s.now))
  {
    var key, id, r := s.calls[d].key, s.calls[d].id, Next(cfg, s, Look(c));
    assert CallOk(s, s.calls[d]);
    assert Accounted(cfg, s, id);
    LookupReason(cfg, s.table, key, s.now, Alive(s), |s.flights|);
    if Leads(cfg, s, r, c) {
      LeadFacts(cfg, s, r, c);
      assert !Registered(cfg, r, id);
      LostIsPushed(cfg, s, r, c, id);
    }
  }

  /** An outcome displaced stays displaced, and is recorded in no later state. */
  lemma {:induction false} DisplacedForever<T, E>(
    cfg: Config, states: seq<State<T, E>>, steps: seq<Step<T, E>>, i: nat, j: nat, id: nat)
    requires Run(cfg, states, steps) && i <= j <= |steps| && id in states[i].displaced
    ensures id in states[j].displaced && !IsRecorded(states[j], id)
  {
    RunKeeps(cfg, states, steps, j);
    if i == j {
      assert Accounted(cfg, states[j], id);
    } else {
      DisplacedForever(cfg, states, steps, i, j - 1, id);
      assert id in states[j].displaced;
      assert Accounted(cfg, states[j], id);
    }
  }

  // ----- Such a run -----

  ghost function OneShard(): Config {
    Config(_ => 0, 1, 0)
  }

  ghost function Slots(inflight: map<Key, nat>): Table<int, int> {
    Table([Shard(inflight, map[])], map[])
  }

  const SEVEN: Outcome<int, int> := Value(7, None)

  /** The states: a miss, the first fetch, its end, a second miss, the second fetch, the late completion. */
  ghost function Stage(n: nat): State<int, int>
    requires n <= 6
  {
    var seen := Observed([], 0, SEVEN);
    var running, ended := Flight([], None), Flight([], Some(SEVEN));
    var first, again := Started([], 0, 0), Started([], 1, 0);
    match n
    case 0 => State(Slots(map[]), 0, [], map[], [], {})
    case 1 => State(Slots(map[]), 0, [], map[0 := Missed([])], [], {})
    case 2 => State(Slots(map[[] := 0]), 0, [running], map[0 := Awaiting([], 0)], [first], {})
    case 3 => State(Slots(map[[] := 0]), 0, [ended], map[0 := seen], [first], {})
    case 4 => State(Slots(map[[] := 0]), 0, [ended], map[0 := seen, 1 := Missed([])], [first], {})
    case 5 => State(Slots(map[[] := 1]), 0, [ended, running], map[0 := seen, 1 := Awaiting([], 1)], [first, again], {0})
    case _ =>
      var calls := map[0 := Returned([], Some(0)), 1 := Awaiting([], 1)];
      State(Slots(map[[] := 1]), 0, [ended, running], calls, [first, again], {0})
  }

  ghost function Moves(n: nat): Step<int, int>
    requires n < 6
  {
    match n
    case 0 => FastMiss(0, [])
    case 1 => Look(0)
    case 2 => Poll(0, SEVEN)
    case 3 => FastMiss(1, [])
    case 4 => Look(1)
    case _ => Publish(0)
  }

  lemma {:induction false} SmallLookup(inflight: map<Key, nat>, next: nat)
    requires inflight == map[] || inflight == map[[] := 0]
    ensures Lookup(OneShard(), Slots(inflight), [], 0, {}, next) == (Slots(map[[] := next]), Lead(next))
  {
    var s: Shard<int> := Shard(inflight, map[]);
    assert s.failures - {[]} == s.failures;
    assert |inflight| <= 1;
    assert inflight[[] := next] == map[[] := next];
    var r: Shard<int> := Shard(map[[] := next], map[]);
    assert LookedUp<int, int>(s, map[], [], 0, {}, next) == (r, Lead(next));
    assert [s][0 := r] == [r];
  }

  lemma {:induction false} FirstLook()
    ensures Enabled(OneShard(), Stage(1), Moves(1)) && Next(OneShard(), Stage(1), Moves(1)) == Stage(2)
  {
    var s, t := Stage(1), Slots(map[[] := 0]);
    assert Alive(s) == {};
    SmallLookup(map[], 0);
    hide Lookup;
    assert Pushed(OneShard(), s.table, t, []) == {};
  }

  lemma {:induction false} SecondLook()
    ensures Enabled(OneShard(), Stage(4), Moves(4)) && Next(OneShard(), Stage(4), Moves(4)) == Stage(5)
  {
    hide Lookup;
    var s := Stage(4);
    assert Alive(s) == {};
    SmallLookup(map[[] := 0], 1);
    FirstIsPushed();
    hide Pushed;
  }

  lemma {:induction false} FirstIsPushed()
    ensures Pushed(OneShard(), Slots(map[[] := 0]), Slots(map[[] := 1]), []) == {0}
  {
    var s, t := Slots(map[[] := 0]), Slots(map[[] := 1]);
    var slots := s.shards[0].inflight;
    assert [] in slots && Slot(OneShard(), s, []) == Some(slots[[]]);
    assert Slot(OneShard(), t, []) == Some(1);
  }

  lemma {:induction false} OtherMoves(n: nat)
    requires n < 6 && n != 1 && n != 4
    ensures Enabled(OneShard(), Stage(n), Moves(n)) && Next(OneShard(), Stage(n), Moves(n)) == Stage(n + 1)
  {
    if n == 5 {
      assert Slot(OneShard(), Stage(5).table, []) == Some(1);
    }
  }

  /** The first caller has its value, a second one fetches the same key again, and the value is not cached. */
  lemma {:induction false} SecondFetchExample(states: seq<State<int, int>>, steps: seq<Step<int, int>>)
    requires states == seq(7, n requires 0 <= n < 7 => Stage(n)) && steps == seq(6, n requires 0 <= n < 6 => Moves(n))
    ensures Run(OneShard(), states, steps)
    ensures var s := states[6];
            && s.log == [Started([], 0, 0), Started([], 1, 0)]
            && s.calls[0] == Returned([], Some(0)) && s.flights[0].outcome == Some(SEVEN)
            && Running(s, 1) && s.table.cache == map[] && 0 in s.displaced
  {
    forall i | 0 <= i < 6
      ensures Enabled(OneShard(), states[i], steps[i]) && states[i + 1] == Next(OneShard(), states[i], steps[i])
    {
      if i == 1 {
        FirstLook();
      } else if i == 4 {
        SecondLook();
      } else {
        OtherMoves(i);
      }
    }
    hide Next, Enabled;
    assert Stage(0) == Initial(OneShard());
    assert Stage(6).calls[1].Awaiting?;
  }
}
