/** Every step of every caller keeps the fetches in order. */
module FlightSafety {
  import opened Prelude
  import opened FlightTable
  import opened SingleFlight

  // ----- Steps that leave the slots alone -----

  /** Only the clock, the cached values, and calls that hold nothing may differ. */
  ghost predicate Quiet<T, E>(cfg: Config, s: State<T, E>, r: State<T, E>) {
    && Fits(cfg, s.table) && r.table.shards == s.table.shards
    && r.now >= s.now && r.flights == s.flights && r.log == s.log && r.displaced == s.displaced
    && (forall c | c in s.calls :: c in r.calls && r.calls[c] == s.calls[c])
    && (forall c | c in r.calls && c !in s.calls :: r.calls[c].Missed? || r.calls[c] == Returned(r.calls[c].key, None))
  }

  lemma {:induction false} QuietKeeps<T, E>(cfg: Config, s: State<T, E>, r: State<T, E>)
    requires Inv(cfg, s) && Quiet(cfg, s, r)
    ensures Inv(cfg, r)
  {
    assert Alive(r) == Alive(s);
    QuietSlots(cfg, s, r);
    QuietAccounts(cfg, s, r);
    assert forall e | EventOk(s, e) :: EventOk(r, e);
    assert forall i | 0 <= i < |r.log| :: Lasting(cfg, s, s.log[i]) ==> Lasting(cfg, r, r.log[i]);
    assert forall call | CallOk(s, call) :: CallOk(r, call);
  }

  lemma {:induction false} QuietSlots<T, E>(cfg: Config, s: State<T, E>, r: State<T, E>)
    requires Inv(cfg, s) && Quiet(cfg, s, r)
    ensures SlotsOk(cfg, r) && RunningOk(cfg, r) && LocksOk(cfg, r)
  {
    assert Alive(r) == Alive(s);
    forall k ensures SlotOk(cfg, r, k) { assert SlotOk(cfg, s, k); }
    forall id | Running(r, id) ensures Registered(cfg, r, id) { assert Running(s, id); }
  }

  lemma {:induction false} QuietAccounts<T, E>(cfg: Config, s: State<T, E>, r: State<T, E>)
    requires Inv(cfg, s) && Quiet(cfg, s, r)
    ensures AccountsOk(cfg, r)
  {
    assert Alive(r) == Alive(s);
    forall id | 0 <= id < |r.flights| ensures Accounted(cfg, r, id) {
      assert Accounted(cfg, s, id);
      assert IsRecorded(r, id) == IsRecorded(s, id);
      assert Held(r, id) == Held(s, id);
    }
    forall c | c in r.calls && r.calls[c].Returned? && r.calls[c].from.Some?
      ensures IsRecorded(r, r.calls[c].from.value) || r.calls[c].from.value in r.displaced
    {
      assert c in s.calls;
      assert IsRecorded(r, r.calls[c].from.value) == IsRecorded(s, s.calls[c].from.value);
    }
  }

  // ----- A caller lets go of its fetch -----

  lemma {:induction false} PollKeeps<T, E>(cfg: Config, s: State<T, E>, c: Caller, o: Outcome<T, E>)
    requires Inv(cfg, s) && Enabled(cfg, s, Poll(c, o))
    ensures Inv(cfg, Next(cfg, s, Poll(c, o)))
  {
    var r := Next(cfg, s, Poll(c, o));
    var id := s.calls[c].id;
    assert Alive(r) <= Alive(s);
    forall d | d in r.calls ensures CallOk(r, r.calls[d]) { assert CallOk(s, s.calls[d]); }
    forall k ensures SlotOk(cfg, r, k) { assert SlotOk(cfg, s, k); }
    forall x: nat | Running(r, x) ensures Registered(cfg, r, x) { assert Running(s, x); }
    assert LogOk(r) by {
      forall i | 0 <= i < |r.log| ensures EventOk(r, r.log[i]) { assert EventOk(s, s.log[i]); }
    }
    ReleasedAccounts(cfg, s, r, c);
    assert FailuresOk(cfg, r) by {
      forall i | 0 <= i < |r.log| ensures Lasting(cfg, r, r.log[i]) { assert Lasting(cfg, s, s.log[i]); }
    }
  }

  lemma {:induction false} CancelKeeps<T, E>(cfg: Config, s: State<T, E>, c: Caller)
    requires Inv(cfg, s) && Enabled(cfg, s, Cancel(c))
    ensures Inv(cfg, Next(cfg, s, Cancel(c)))
  {
    var r := Next(cfg, s, Cancel(c));
    assert Alive(r) <= Alive(s);
    forall d | d in r.calls ensures CallOk(r, r.calls[d]) { assert CallOk(s, s.calls[d]); }
    forall k ensures SlotOk(cfg, r, k) { assert SlotOk(cfg, s, k); }
    forall x: nat | Running(r, x) ensures Registered(cfg, r, x) { assert Running(s, x); }
    assert LogOk(r) by {
      forall i | 0 <= i < |r.log| ensures EventOk(r, r.log[i]) { assert EventOk(s, s.log[i]); }
    }
    ReleasedAccounts(cfg, s, r, c);
    assert FailuresOk(cfg, r) by {
      forall i | 0 <= i < |r.log| ensures Lasting(cfg, r, r.log[i]) { assert Lasting(cfg, s, s.log[i]); }
    }
  }

  /** Accounts stand when a caller that awaited stops doing so. */
  lemma {:induction false} ReleasedAccounts<T, E>(cfg: Config, s: State<T, E>, r: State<T, E>, c: Caller)
    requires Inv(cfg, s) && c in s.calls && s.calls[c].Awaiting?
    requires r.table == s.table && |r.flights| == |s.flights| && r.log == s.log && r.displaced == s.displaced
    requires forall id | 0 <= id < |s.flights| :: r.flights[id].key == s.flights[id].key
    requires forall d | d in r.calls && d != c :: d in s.calls && r.calls[d] == s.calls[d]
    requires forall d | d in s.calls && d != c :: d in r.calls
    requires c in r.calls ==> r.calls[c].Observed?
    ensures AccountsOk(cfg, r)
  {
    assert Alive(r) <= Alive(s);
    forall id | 0 <= id < |r.flights| ensures Accounted(cfg, r, id) {
      assert Accounted(cfg, s, id);
      assert IsRecorded(r, id) == IsRecorded(s, id);
      assert Held(r, id) == Held(s, id) by { HeldSame(s, r, c, id); }
    }
    forall d | d in r.calls && r.calls[d].Returned? && r.calls[d].from.Some?
      ensures IsRecorded(r, r.calls[d].from.value) || r.calls[d].from.value in r.displaced
    {
      assert IsRecorded(r, r.calls[d].from.value) == IsRecorded(s, s.calls[d].from.value);
    }
  }

  lemma {:induction false} HeldSame<T, E>(s: State<T, E>, r: State<T, E>, c: Caller, id: nat)
    requires forall d | d in r.calls && d != c :: d in s.calls && r.calls[d] == s.calls[d]
    requires forall d | d in s.calls && d != c :: d in r.calls
    requires c in r.calls ==> !r.calls[c].Publishing?
    requires c in s.calls ==> !s.calls[c].Publishing?
    ensures Held(r, id) == Held(s, id)
  {
    if Held(s, id) {
      var d :| d in s.calls && s.calls[d].Publishing? && s.calls[d].id == id;
      assert r.calls[d] == s.calls[d];
    }
    if Held(r, id) {
      var d :| d in r.calls && r.calls[d].Publishing? && r.calls[d].id == id;
      assert r.calls[d] == s.calls[d];
    }
  }

  // ----- A lookup -----

  /** What a lookup does to the slots and the failures of all keys. */
  ghost predicate Looked<T, E>(cfg: Config, s: State<T, E>, t: Table<T, E>, key: Key, lead: bool) {
    && Fits(cfg, s.table) && Fits(cfg, t) && t.cache == s.table.cache
    && (forall k | !(lead && k == key) :: Slot(cfg, t, k) == Slot(cfg, s.table, k)
          || (lead && Slot(cfg, t, k) == None && Slot(cfg, s.table, k).value !in Alive(s)))
    && (forall k :: Remembered(cfg, t, k) == Remembered(cfg, s.table, k)
          || (Remembered(cfg, t, k) == None && Remembered(cfg, s.table, k).value.expires <= s.now))
  }

  lemma {:induction false} LookupLooks<T, E>(cfg: Config, s: State<T, E>, key: Key)
    requires Fits(cfg, s.table)
    ensures var (t, answer) := Lookup(cfg, s.table, key, s.now, Alive(s), |s.flights|);
            && Looked(cfg, s, t, key, answer.Lead?)
            && (answer.Lead? ==> Slot(cfg, t, key) == Some(|s.flights|))
  {
    hide Lookup, Slot, Remembered;
    forall k { LookupSlots(cfg, s.table, key, s.now, Alive(s), |s.flights|, k); }
    LookupSlots(cfg, s.table, key, s.now, Alive(s), |s.flights|, key);
  }

  lemma {:induction false} LastingAfter<T, E>(cfg: Config, s: State<T, E>, r: State<T, E>, key: Key, lead: bool)
    requires Looked(cfg, s, r.table, key, lead) && r.now == s.now
    ensures forall e | Lasting(cfg, s, e) :: Lasting(cfg, r, e)
  {
    hide Slot, Remembered, Alive;
  }

  /** A lookup that starts nothing: the caller returns, or awaits a fetch that is registered and held. */
  lemma {:induction false} LookOnKeeps<T, E>(cfg: Config, s: State<T, E>, r: State<T, E>, c: Caller)
    requires Inv(cfg, s) && c in s.calls && s.calls[c].Missed? && Looked(cfg, s, r.table, s.calls[c].key, false)
    requires r == s.(table := r.table, calls := r.calls)
    requires var key := s.calls[c].key;
             || r.calls == s.calls[c := Returned(key, None)]
             || (Slot(cfg, s.table, key).Some? && Slot(cfg, s.table, key).value in Alive(s)
                 && r.calls == s.calls[c := Awaiting(key, Slot(cfg, s.table, key).value)])
    ensures Inv(cfg, r)
  {
    hide Slot, Remembered;
    assert Alive(r) == Alive(s) by { AliveSame(cfg, s, r, c); }
    hide Alive;
    assert SlotOk(cfg, s, s.calls[c].key);
    forall d | d in r.calls ensures CallOk(r, r.calls[d]) { assert d != c ==> CallOk(s, s.calls[d]); }
    forall k ensures SlotOk(cfg, r, k) { assert SlotOk(cfg, s, k); }
    forall x: nat | Running(r, x) ensures Registered(cfg, r, x) { assert Running(s, x); }
    assert LogOk(r) by {
      forall i | 0 <= i < |r.log| ensures EventOk(r, r.log[i]) { assert EventOk(s, s.log[i]); }
    }
    LookOnAccounts(cfg, s, r, c);
    LastingAfter(cfg, s, r, s.calls[c].key, false);
  }

  lemma {:induction false} AliveSame<T, E>(cfg: Config, s: State<T, E>, r: State<T, E>, c: Caller)
    requires c in s.calls && s.calls[c].Missed?
    requires || r.calls == s.calls[c := Returned(s.calls[c].key, None)]
             || (r.calls.Keys == s.calls.Keys && r.calls[c].Awaiting? && r.calls[c].id in Alive(s) &&
               r.calls == s.calls[c := r.calls[c]])
    ensures Alive(r) == Alive(s)
  {
    forall id | id in Alive(s) ensures id in Alive(r) {
      var d :| d in s.calls && s.calls[d].Awaiting? && s.calls[d].id == id;
      assert r.calls[d] == s.calls[d];
    }
  }

  lemma {:induction false} LookOnAccounts<T, E>(cfg: Config, s: State<T, E>, r: State<T, E>, c: Caller)
    requires Inv(cfg, s) && c in s.calls && s.calls[c].Missed? && Looked(cfg, s, r.table, s.calls[c].key, false)
    requires r == s.(table := r.table, calls := r.calls) && Alive(r) == Alive(s)
    requires r.calls.Keys == s.calls.Keys && r.calls == s.calls[c := r.calls[c]]
    requires r.calls[c].Awaiting? || r.calls[c] == Returned(s.calls[c].key, None)
    ensures AccountsOk(cfg, r)
  {
    hide Slot, Remembered, Alive;
    forall id | 0 <= id < |r.flights| ensures Accounted(cfg, r, id) {
      assert Accounted(cfg, s, id);
      assert IsRecorded(r, id) == IsRecorded(s, id);
      HeldSame(s, r, c, id);
    }
    forall d | d in r.calls && r.calls[d].Returned? && r.calls[d].from.Some?
      ensures IsRecorded(r, r.calls[d].from.value) || r.calls[d].from.value in r.displaced
    {
      assert IsRecorded(r, r.calls[d].from.value) == IsRecorded(s, s.calls[d].from.value);
    }
  }

  // ----- A lookup that starts a fetch -----

  ghost predicate Leads<T, E>(cfg: Config, s: State<T, E>, r: State<T, E>, c: Caller) {
    && Enabled(cfg, s, Look(c)) && r == AfterLook(cfg, s, c)
    && Lookup(cfg, s.table, s.calls[c].key, s.now, Alive(s), |s.flights|).1.Lead?
  }

  /** What starting a fetch changes. */
  lemma {:induction false} LeadFacts<T, E>(cfg: Config, s: State<T, E>, r: State<T, E>, c: Caller)
    requires Leads(cfg, s, r, c)
    ensures c in s.calls && s.calls[c].Missed?
    ensures var key := s.calls[c].key;
            && r == s.(table := r.table, flights := s.flights + [Flight(key, None)],
               calls := s.calls[c := Awaiting(key, |s.flights|)],
                       log := s.log + [Started(key, |s.flights|, s.now)], displaced := r.displaced)
            && Looked(cfg, s, r.table, key, true) && Slot(cfg, r.table, key) == Some(|s.flights|)
            && (Remembered(cfg, s.table, key).Some? ==> Remembered(cfg, s.table, key).value.expires <= s.now)
            && (Slot(cfg, s.table, key).Some? ==> Slot(cfg, s.table, key).value !in Alive(s))
            && key !in s.table.cache
            && r.displaced == s.displaced + Pushed(cfg, s.table, r.table, key)
    ensures Alive(r) == Alive(s) + {|s.flights|}
  {
    var key := s.calls[c].key;
    LookupLooks(cfg, s, key);
    LookupReason(cfg, s.table, key, s.now, Alive(s), |s.flights|);
    LeadAlive(s, r, c, |s.flights|);
  }

  lemma {:induction false} LeadAlive<T, E>(s: State<T, E>, r: State<T, E>, c: Caller, id: nat)
    requires c in s.calls && s.calls[c].Missed? && r.calls == s.calls[c := Awaiting(s.calls[c].key, id)]
    ensures Alive(r) == Alive(s) + {id}
  {
    forall x | x in Alive(s) + {id} ensures x in Alive(r) {
      if x == id {
        assert r.calls[c].Awaiting?;
      } else {
        var d :| d in s.calls && s.calls[d].Awaiting? && s.calls[d].id == x;
        assert r.calls[d] == s.calls[d];
      }
    }
  }

  lemma {:induction false} LeadKeeps<T, E>(cfg: Config, s: State<T, E>, r: State<T, E>, c: Caller)
    requires Inv(cfg, s) && Leads(cfg, s, r, c)
    ensures Inv(cfg, r)
  {
    hide Slot, Remembered, Alive, Leads, Pushed, AccountsOk, FailuresOk, LocksOk;
    LeadFacts(cfg, s, r, c);
    var key := s.calls[c].key;
    forall d | d in r.calls ensures CallOk(r, r.calls[d]) { assert d != c ==> CallOk(s, s.calls[d]); }
    forall k ensures SlotOk(cfg, r, k) { assert SlotOk(cfg, s, k); }
    forall x: nat | Running(r, x) ensures Registered(cfg, r, x) { assert x < |s.flights| ==> Running(s, x); }
    LeadLocks(cfg, s, r, c);
    assert LogOk(r) by {
      forall i | 0 <= i < |s.log| ensures EventOk(r, s.log[i]) { assert EventOk(s, s.log[i]); }
    }
    LeadAccounts(cfg, s, r, c);
    LeadFailures(cfg, s, r, c);
  }

  lemma {:induction false} ShardIsFree<T, E>(cfg: Config, s: State<T, E>, r: State<T, E>, c: Caller, d: Caller)
    requires Leads(cfg, s, r, c) && d in s.calls && s.calls[d].Publishing?
    ensures ShardAt(cfg, s.calls[d].key) != ShardAt(cfg, s.calls[c].key)
    ensures Slot(cfg, r.table, s.calls[d].key) == Slot(cfg, s.table, s.calls[d].key)
  {
    hide AfterLook, Lookup, ShardAt, Slot;
    assert !Locked(cfg, s, s.calls[c].key);
    OtherShards(cfg, s, r, c, s.calls[d].key);
  }

  lemma {:induction false} LeadLocks<T, E>(cfg: Config, s: State<T, E>, r: State<T, E>, c: Caller)
    requires Inv(cfg, s) && Leads(cfg, s, r, c)
    ensures LocksOk(cfg, r)
  {
    hide Leads, Slot, Remembered, Alive, AccountsOk, FailuresOk, CallsOk, SlotsOk, RunningOk, LogOk, Pushed, ShardAt;
    LeadFacts(cfg, s, r, c);
    forall d | d in s.calls && s.calls[d].Publishing?
      ensures Slot(cfg, r.table, s.calls[d].key) == Slot(cfg, s.table, s.calls[d].key)
    {
      ShardIsFree(cfg, s, r, c, d);
    }
  }

  lemma {:induction false} LeadFailures<T, E>(cfg: Config, s: State<T, E>, r: State<T, E>, c: Caller)
    requires Inv(cfg, s) && Leads(cfg, s, r, c)
    ensures FailuresOk(cfg, r)
  {
    hide Slot, Remembered, Alive, Leads, Pushed, AccountsOk, LogOk, LocksOk;
    LeadFacts(cfg, s, r, c);
    LastingAfter(cfg, s, r, s.calls[c].key, true);
    var n := |s.log|;
    forall i, j | 0 <= i < j < |r.log| ensures Spaced(cfg, r.log, i, j) {
      assert r.log[i] == s.log[i] && Lasting(cfg, s, s.log[i]);
      if j < n { assert Spaced(cfg, s.log, i, j); }
    }
  }

  /** A slot that a starting fetch takes away was that of a fetch nobody holds, in its own shard. */
  lemma {:induction false} PushedIsDead<T, E>(cfg: Config, s: State<T, E>, r: State<T, E>, c: Caller, id: nat)
    requires Inv(cfg, s) && Leads(cfg, s, r, c) && id in Pushed(cfg, s.table, r.table, s.calls[c].key)
    ensures Registered(cfg, s, id) && !Registered(cfg, r, id) && id !in Alive(s)
  {
    LeadFacts(cfg, s, r, c);
    var slots := s.table.shards[ShardAt(cfg, s.calls[c].key)].inflight;
    var x :| x in slots && Slot(cfg, s.table, x) == Some(slots[x]) != Slot(cfg, r.table, x) && slots[x] == id;
    hide Slot, Remembered, Alive, Leads, Pushed;
    assert SlotOk(cfg, s, x);
  }

  lemma {:induction false} PushedIsFree<T, E>(cfg: Config, s: State<T, E>, r: State<T, E>, c: Caller, id: nat)
    requires Inv(cfg, s) && Leads(cfg, s, r, c) && id in Pushed(cfg, s.table, r.table, s.calls[c].key)
    ensures !Held(s, id)
  {
    var key := s.calls[c].key;
    var slots := s.table.shards[ShardAt(cfg, key)].inflight;
    var x :| x in slots && Slot(cfg, s.table, x) == Some(slots[x]) != Slot(cfg, r.table, x) && slots[x] == id;
    assert SlotOk(cfg, s, x);
    if ShardAt(cfg, x) != ShardAt(cfg, key) { OtherShards(cfg, s, r, c, x); }
    hide AfterLook, Lookup, ShardAt, Slot, Inv;
    HeldIsLocked(cfg, s, id);
    assert Locked(cfg, s, x) == Locked(cfg, s, key);
  }

  lemma {:induction false} LostIsPushed<T, E>(cfg: Config, s: State<T, E>, r: State<T, E>, c: Caller, id: nat)
    requires Inv(cfg, s) && Leads(cfg, s, r, c) && Registered(cfg, s, id) && !Registered(cfg, r, id)
    ensures id in Pushed(cfg, s.table, r.table, s.calls[c].key)
  {
    var key, k := s.calls[c].key, s.flights[id].key;
    var slots := s.table.shards[ShardAt(cfg, key)].inflight;
    assert r.flights[id] == s.flights[id];
    if ShardAt(cfg, k) != ShardAt(cfg, key) { OtherShards(cfg, s, r, c, k); }
    assert k in slots && slots[k] == id;
  }

  lemma {:induction false} OtherShards<T, E>(cfg: Config, s: State<T, E>, r: State<T, E>, c: Caller, k: Key)
    requires Leads(cfg, s, r, c) && ShardAt(cfg, k) != ShardAt(cfg, s.calls[c].key)
    ensures Slot(cfg, r.table, k) == Slot(cfg, s.table, k)
  {
  }

  lemma {:induction false} LeadRecorded<T, E>(cfg: Config, s: State<T, E>, r: State<T, E>, c: Caller, id: nat)
    requires Inv(cfg, s) && Leads(cfg, s, r, c)
    ensures IsRecorded(r, id) == IsRecorded(s, id)
    ensures IsRecorded(r, id) ==> id < |s.flights|
    ensures Held(r, id) == Held(s, id)
    ensures Held(r, id) ==> id < |s.flights|
  {
    hide Slot, Remembered, Alive, Leads, Pushed, AccountsOk, FailuresOk, LocksOk, SlotsOk;
    LeadFacts(cfg, s, r, c);
    if IsRecorded(s, id) {
      var i :| 0 <= i < |s.log| && s.log[i].Recorded? && s.log[i].id == id;
      assert r.log[i] == s.log[i] && EventOk(s, s.log[i]);
    }
    if IsRecorded(r, id) {
      var i :| 0 <= i < |r.log| && r.log[i].Recorded? && r.log[i].id == id;
      assert r.log[i] == s.log[i];
    }
    HeldSame(s, r, c, id);
    if Held(s, id) {
      var d :| d in s.calls && s.calls[d].Publishing? && s.calls[d].id == id;
      assert CallOk(s, s.calls[d]);
    }
  }

  lemma {:induction false} LeadAccount<T, E>(cfg: Config, s: State<T, E>, r: State<T, E>, c: Caller, id: nat)
    requires Inv(cfg, s) && Leads(cfg, s, r, c) && id < |s.flights|
    ensures Accounted(cfg, r, id)
  {
    hide Slot, Remembered, Alive, Leads, Pushed, IsRecorded, Held, FailuresOk, LocksOk, LogOk, CallsOk;
    LeadFacts(cfg, s, r, c);
    var key := s.calls[c].key;
    if id in Pushed(cfg, s.table, r.table, key) {
      PushedIsDead(cfg, s, r, c, id);
      PushedIsFree(cfg, s, r, c, id);
    }
    if Registered(cfg, s, id) && !Registered(cfg, r, id) {
      LostIsPushed(cfg, s, r, c, id);
    }
    LeadRecorded(cfg, s, r, c, id);
    assert Accounted(cfg, s, id);
    assert Registered(cfg, r, id) ==> Registered(cfg, s, id);
  }

  lemma {:induction false} LeadAccounts<T, E>(cfg: Config, s: State<T, E>, r: State<T, E>, c: Caller)
    requires Inv(cfg, s) && Leads(cfg, s, r, c)
    ensures AccountsOk(cfg, r)
  {
    hide Slot, Remembered, Alive, Leads, Pushed, IsRecorded, Held, FailuresOk, LocksOk, LogOk, CallsOk, RunningOk,
      SlotsOk;
    LeadFacts(cfg, s, r, c);
    var n := |s.flights|;
    PushedAreOld(cfg, s, r.table, s.calls[c].key);
    forall id | 0 <= id < |r.flights| ensures Accounted(cfg, r, id) {
      if id < n {
        LeadAccount(cfg, s, r, c, id);
      } else {
        LeadRecorded(cfg, s, r, c, id);
        assert Registered(cfg, r, id);
      }
    }
    forall d | d in r.calls && r.calls[d].Returned? && r.calls[d].from.Some?
      ensures IsRecorded(r, r.calls[d].from.value) || r.calls[d].from.value in r.displaced
    {
      assert d in s.calls && s.calls[d] == r.calls[d];
      LeadRecorded(cfg, s, r, c, r.calls[d].from.value);
    }
  }

  lemma {:induction false} PushedAreOld<T, E>(cfg: Config, s: State<T, E>, t: Table<T, E>, key: Key)
    requires Inv(cfg, s) && Fits(cfg, t)
    ensures forall id | id in Pushed(cfg, s.table, t, key) :: id < |s.flights|
  {
    forall id | id in Pushed(cfg, s.table, t, key) ensures id < |s.flights| {
      var slots := s.table.shards[ShardAt(cfg, key)].inflight;
      var x :| x in slots && Slot(cfg, s.table, x) == Some(slots[x]) && slots[x] == id;
      assert SlotOk(cfg, s, x);
    }
  }

  lemma {:induction false} LookKeeps<T, E>(cfg: Config, s: State<T, E>, c: Caller)
    requires Inv(cfg, s) && Enabled(cfg, s, Look(c))
    ensures Inv(cfg, Next(cfg, s, Look(c)))
  {
    hide Inv, Slot, Remembered, Lookup;
    assert Fits(cfg, s.table);
    var key := s.calls[c].key;
    var (t, answer) := Lookup(cfg, s.table, key, s.now, Alive(s), |s.flights|);
    LookupLooks(cfg, s, key);
    LookupReason(cfg, s.table, key, s.now, Alive(s), |s.flights|);
    var r := AfterLook(cfg, s, c);
    if answer.Lead? {
      LeadKeeps(cfg, s, r, c);
    } else {
      LookOnKeeps(cfg, s, r, c);
    }
  }

  // ----- A completion that comes too late -----

  lemma {:induction false} LateKeeps<T, E>(cfg: Config, s: State<T, E>, c: Caller)
    requires Inv(cfg, s) && Enabled(cfg, s, Publish(c)) && Slot(cfg, s.table, s.calls[c].key) != Some(s.calls[c].id)
    ensures Inv(cfg, Next(cfg, s, Publish(c)))
  {
    hide Slot, Remembered;
    var r := Next(cfg, s, Publish(c));
    assert Alive(r) == Alive(s) by { AliveWithout(s, r, c); }
    hide Alive;
    assert CallOk(s, s.calls[c]);
    assert Accounted(cfg, s, s.calls[c].id);
    forall d | d in r.calls ensures CallOk(r, r.calls[d]) { assert CallOk(s, s.calls[d]); }
    forall k ensures SlotOk(cfg, r, k) { assert SlotOk(cfg, s, k); }
    forall x: nat | Running(r, x) ensures Registered(cfg, r, x) { assert Running(s, x); }
    assert LogOk(r) by {
      forall i | 0 <= i < |r.log| ensures EventOk(r, r.log[i]) { assert EventOk(s, s.log[i]); }
    }
    forall id | 0 <= id < |r.flights| ensures Accounted(cfg, r, id) {
      assert Accounted(cfg, s, id);
      assert IsRecorded(r, id) == IsRecorded(s, id);
      HeldSame(s, r, c, id);
    }
    forall d | d in r.calls && r.calls[d].Returned? && r.calls[d].from.Some?
      ensures IsRecorded(r, r.calls[d].from.value) || r.calls[d].from.value in r.displaced
    {
      assert IsRecorded(r, r.calls[d].from.value) == IsRecorded(s, r.calls[d].from.value);
    }
    assert FailuresOk(cfg, r) by {
      forall i | 0 <= i < |r.log| ensures Lasting(cfg, r, r.log[i]) { assert Lasting(cfg, s, s.log[i]); }
    }
  }

  lemma {:induction false} AliveWithout<T, E>(s: State<T, E>, r: State<T, E>, c: Caller)
    requires c in s.calls && c in r.calls && r.calls == s.calls[c := r.calls[c]]
    requires !s.calls[c].Awaiting? && !r.calls[c].Awaiting?
    ensures Alive(r) == Alive(s)
  {
    forall id | id in Alive(s) ensures id in Alive(r) {
      var d :| d in s.calls && s.calls[d].Awaiting? && s.calls[d].id == id;
      assert r.calls[d] == s.calls[d];
    }
  }

  // ----- A completion that records -----

  ghost predicate Publishes<T, E>(cfg: Config, s: State<T, E>, r: State<T, E>, c: Caller) {
    && Enabled(cfg, s, Publish(c)) && Slot(cfg, s.table, s.calls[c].key) == Some(s.calls[c].id)
    && r == Next(cfg, s, Publish(c))
  }

  lemma {:induction false} PublishFacts<T, E>(cfg: Config, s: State<T, E>, r: State<T, E>, c: Caller)
    requires Inv(cfg, s) && Publishes(cfg, s, r, c)
    ensures c in s.calls && s.calls[c].Observed?
    ensures var Observed(key, id, o) := s.calls[c];
            && r == s.(table := r.table, calls := s.calls[c := Publishing(key, id, o)],
               log := s.log + [Recorded(key, id, o, s.now)])
            && Fits(cfg, r.table) && Registered(cfg, s, id) && s.flights[id] == Flight(key, Some(o))
            && (forall k :: Slot(cfg, r.table, k) == Slot(cfg, s.table, k))
            && (forall k | !(k == key && o.Failed? && cfg.negativeTtl > 0) ::
               Remembered(cfg, r.table, k) == Remembered(cfg, s.table, k))
            && (o.Failed? && cfg.negativeTtl > 0 ==>
               Remembered(cfg, r.table, key) == Some(Failure(s.now + cfg.negativeTtl, o.error)))
    ensures Alive(r) == Alive(s)
    ensures !IsRecorded(s, s.calls[c].id)
  {
    var Observed(key, id, o) := s.calls[c];
    assert CallOk(s, s.calls[c]);
    forall k { RecordSlots(cfg, s.table, key, o, s.now, k); }
    RecordSlots(cfg, s.table, key, o, s.now, key);
    AliveWithout(s, r, c);
    assert Accounted(cfg, s, id);
    HeldIsLocked(cfg, s, id);
  }

  lemma {:induction false} HeldIsLocked<T, E>(cfg: Config, s: State<T, E>, id: nat)
    requires Inv(cfg, s) && id < |s.flights|
    ensures Held(s, id) ==> Locked(cfg, s, s.flights[id].key)
  {
    if Held(s, id) {
      var d :| d in s.calls && s.calls[d].Publishing? && s.calls[d].id == id;
      assert CallOk(s, s.calls[d]);
    }
  }

  lemma {:induction false} PublishKeeps<T, E>(cfg: Config, s: State<T, E>, r: State<T, E>, c: Caller)
    requires Inv(cfg, s) && Publishes(cfg, s, r, c)
    ensures Inv(cfg, r)
  {
    PublishLocks(cfg, s, r, c);
    PublishFacts(cfg, s, r, c);
    hide Slot, Remembered, Alive, Publishes, AccountsOk, FailuresOk, LocksOk;
    forall d | d in r.calls ensures CallOk(r, r.calls[d]) { assert d != c ==> CallOk(s, s.calls[d]); }
    forall k ensures SlotOk(cfg, r, k) { assert SlotOk(cfg, s, k); }
    forall x: nat | Running(r, x) ensures Registered(cfg, r, x) { assert Running(s, x); }
    assert LogOk(r) by {
      forall i | 0 <= i < |s.log| ensures EventOk(r, s.log[i]) { assert EventOk(s, s.log[i]); }
    }
    PublishAccounts(cfg, s, r, c);
    PublishFailures(cfg, s, r, c);
  }

  lemma {:induction false} PublishLocks<T, E>(cfg: Config, s: State<T, E>, r: State<T, E>, c: Caller)
    requires Inv(cfg, s) && Publishes(cfg, s, r, c)
    ensures Fits(cfg, r.table) && LocksOk(cfg, r)
  {
    PublishFacts(cfg, s, r, c);
    hide Slot, Remembered, Alive, AccountsOk, FailuresOk;
  }

  lemma {:induction false} PublishAccounts<T, E>(cfg: Config, s: State<T, E>, r: State<T, E>, c: Caller)
    requires Inv(cfg, s) && Publishes(cfg, s, r, c)
    ensures Fits(cfg, r.table) && AccountsOk(cfg, r)
  {
    PublishFacts(cfg, s, r, c);
    hide Slot, Remembered, Alive, Publishes, FailuresOk, LocksOk;
    var own := s.calls[c].id;
    forall id
      ensures (IsRecorded(r, id) <==> IsRecorded(s, id) || id == own) && (Held(r, id) <==> Held(s, id) || id == own)
    {
      PublishRecords(cfg, s, r, c, id);
    }
    hide IsRecorded, Held;
    forall id | 0 <= id < |r.flights| ensures Accounted(cfg, r, id) {
      assert Accounted(cfg, s, id);
    }
    forall d | d in r.calls && r.calls[d].Returned? && r.calls[d].from.Some?
      ensures IsRecorded(r, r.calls[d].from.value) || r.calls[d].from.value in r.displaced
    {
      assert s.calls[d] == r.calls[d];
      assert IsRecorded(s, s.calls[d].from.value) || s.calls[d].from.value in s.displaced;
    }
  }

  lemma {:induction false} PublishRecords<T, E>(cfg: Config, s: State<T, E>, r: State<T, E>, c: Caller, id: nat)
    requires Inv(cfg, s) && Publishes(cfg, s, r, c)
    ensures IsRecorded(r, id) <==> IsRecorded(s, id) || id == s.calls[c].id
    ensures Held(r, id) <==> Held(s, id) || id == s.calls[c].id
  {
    hide Slot, Remembered, Alive, Publishes, FailuresOk, LocksOk, AccountsOk, SlotsOk, CallsOk, RunningOk;
    PublishFacts(cfg, s, r, c);
    var n := |s.log|;
    assert r.log[n].Recorded? && r.log[n].id == s.calls[c].id;
    if IsRecorded(s, id) {
      var i :| 0 <= i < |s.log| && s.log[i].Recorded? && s.log[i].id == id;
      assert r.log[i] == s.log[i];
    }
    if Held(s, id) {
      var d :| d in s.calls && s.calls[d].Publishing? && s.calls[d].id == id;
      assert r.calls[d] == s.calls[d];
    }
    assert r.calls[c].Publishing?;
  }

  lemma {:induction false} PublishFailures<T, E>(cfg: Config, s: State<T, E>, r: State<T, E>, c: Caller)
    requires Inv(cfg, s) && Publishes(cfg, s, r, c)
    ensures Fits(cfg, r.table) && FailuresOk(cfg, r)
  {
    PublishFacts(cfg, s, r, c);
    hide Slot, Remembered, Alive, Publishes, AccountsOk, LocksOk, SlotsOk, CallsOk, RunningOk;
    var n := |s.log|;
    forall i | 0 <= i < |r.log| ensures Lasting(cfg, r, r.log[i]) {
      if i < n {
        assert r.log[i] == s.log[i] && Lasting(cfg, s, s.log[i]) && EventOk(s, s.log[i]);
      }
    }
    forall i, j | 0 <= i < j < |r.log| ensures Spaced(cfg, r.log, i, j) {
      if j < n { assert Spaced(cfg, s.log, i, j); }
    }
  }

  // ----- Freeing the slot -----

  lemma {:induction false} FreeFacts<T, E>(cfg: Config, s: State<T, E>, r: State<T, E>, c: Caller)
    requires Inv(cfg, s) && Enabled(cfg, s, Free(c)) && r == Next(cfg, s, Free(c))
    ensures var Publishing(key, id, o) := s.calls[c];
            && r == s.(table := r.table, calls := s.calls[c := Returned(key, Some(id))])
            && Fits(cfg, r.table) && Registered(cfg, s, id) && IsRecorded(s, id) &&
               s.flights[id] == Flight(key, Some(o))
            && (forall k :: Slot(cfg, r.table, k) == if k == key then None else Slot(cfg, s.table, k))
            && (forall k :: Remembered(cfg, r.table, k) == Remembered(cfg, s.table, k))
    ensures Alive(r) == Alive(s)
  {
    var key := s.calls[c].key;
    assert CallOk(s, s.calls[c]);
    forall k { ReleaseSlots(cfg, s.table, key, k); }
    AliveWithout(s, r, c);
    assert Accounted(cfg, s, s.calls[c].id);
    assert Held(s, s.calls[c].id);
  }

  lemma {:induction false} FreeKeeps<T, E>(cfg: Config, s: State<T, E>, r: State<T, E>, c: Caller)
    requires Inv(cfg, s) && Enabled(cfg, s, Free(c)) && r == Next(cfg, s, Free(c))
    ensures Inv(cfg, r)
  {
    hide Slot, Remembered, Alive, AccountsOk, Next;
    FreeFacts(cfg, s, r, c);
    forall d | d in r.calls ensures CallOk(r, r.calls[d]) { assert CallOk(s, s.calls[d]); }
    forall k ensures SlotOk(cfg, r, k) { assert SlotOk(cfg, s, k); }
    forall x: nat | Running(r, x) ensures Registered(cfg, r, x) { assert Running(s, x); }
    assert LogOk(r) by {
      forall i | 0 <= i < |r.log| ensures EventOk(r, r.log[i]) { assert EventOk(s, s.log[i]); }
    }
    FreeAccounts(cfg, s, r, c);
    assert FailuresOk(cfg, r) by {
      forall i | 0 <= i < |r.log| ensures Lasting(cfg, r, r.log[i]) { assert Lasting(cfg, s, s.log[i]); }
    }
  }

  lemma {:induction false} FreeAccounts<T, E>(cfg: Config, s: State<T, E>, r: State<T, E>, c: Caller)
    requires Inv(cfg, s) && Enabled(cfg, s, Free(c)) && r == Next(cfg, s, Free(c))
    ensures Fits(cfg, r.table) && AccountsOk(cfg, r)
  {
    FreeFacts(cfg, s, r, c);
    hide Slot, Remembered, Alive, Next, FailuresOk;
    var own := s.calls[c].id;
    forall id | 0 <= id < |r.flights| ensures Accounted(cfg, r, id) {
      assert Accounted(cfg, s, id);
      assert IsRecorded(r, id) == IsRecorded(s, id);
      FreeHeld(s, r, c, id);
    }
    forall d | d in r.calls && r.calls[d].Returned? && r.calls[d].from.Some?
      ensures IsRecorded(r, r.calls[d].from.value) || r.calls[d].from.value in r.displaced
    {
      assert IsRecorded(r, r.calls[d].from.value) == IsRecorded(s, r.calls[d].from.value);
    }
  }

  lemma {:induction false} FreeHeld<T, E>(s: State<T, E>, r: State<T, E>, c: Caller, id: nat)
    requires c in s.calls && s.calls[c].Publishing? &&
             r.calls == s.calls[c := Returned(s.calls[c].key, Some(s.calls[c].id))]
    ensures Held(r, id) ==> Held(s, id)
    ensures Held(s, id) && id != s.calls[c].id ==> Held(r, id)
  {
    if Held(r, id) {
      var d :| d in r.calls && r.calls[d].Publishing? && r.calls[d].id == id;
      assert s.calls[d] == r.calls[d];
    }
    if Held(s, id) && id != s.calls[c].id {
      var d :| d in s.calls && s.calls[d].Publishing? && s.calls[d].id == id;
      assert s.calls[d] == r.calls[d];
    }
  }

  // ----- Every step -----

  lemma {:induction false} StepKeeps<T, E>(cfg: Config, s: State<T, E>, step: Step<T, E>)
    requires Inv(cfg, s) && Enabled(cfg, s, step)
    ensures Inv(cfg, Next(cfg, s, step))
  {
    hide Inv;
    var r := Next(cfg, s, step);
    match step
    case FastHit(_, _) => QuietKeeps(cfg, s, r);
    case FastMiss(_, _) => QuietKeeps(cfg, s, r);
    case Look(c) => LookKeeps(cfg, s, c);
    case Poll(c, o) => PollKeeps(cfg, s, c, o);
    case Cancel(c) => CancelKeeps(cfg, s, c);
    case Publish(c) =>
      if Slot(cfg, s.table, s.calls[c].key) == Some(s.calls[c].id) {
        PublishKeeps(cfg, s, r, c);
      } else {
        LateKeeps(cfg, s, c);
      }
    case Free(c) => FreeKeeps(cfg, s, r, c);
    case Tick(_) => QuietKeeps(cfg, s, r);
    case Put(_, _) => QuietKeeps(cfg, s, r);
    case Evict(_) => QuietKeeps(cfg, s, r);
  }
}
