// The timer scheduler: starting and stopping timers, and the walk that fires the timers that are due.
module Timer {
  import opened Arith
  import opened Basics

  const SLICE: nat := 100
  const UINT32_MAX: nat := 0xffff_ffff
  const UINT64_LIMIT: nat := 0x1_0000_0000_0000_0000

  // A class of timers; the callback is part of the scheduler below.
  class TimerClass {
    const periodic: bool
    var usage: nat
    var changes: nat
    var fired: nat
    var inCallback: TimerInstance?
    var stopped: bool

    constructor (periodic: bool)
      ensures this.periodic == periodic && usage == 0
    {
      this.periodic, usage, changes, fired, inCallback, stopped := periodic, 0, 0, 0, null, false;
    }
  }

  // A timer; it runs exactly when its clock is not 0.
  class TimerInstance {
    const cls: TimerClass
    const jitter: nat
    var period: nat
    var random: nat
    var clock: nat

    constructor (cls: TimerClass, jitter: nat)
      ensures this.cls == cls && this.jitter == jitter && clock == 0 && period == 0 && random == 0
    {
      this.cls, this.jitter, period, random, clock := cls, jitter, 0, 0, 0;
    }
  }

  // What a callback does to a timer.
  datatype Action =
    | StartExt(timer: TimerInstance, first: nat, interval: nat)
    | SetExt(timer: TimerInstance, first: nat, interval: nat)
    | Stop(timer: TimerInstance)

  // ---- the absolute time of a timer ----

  // The arithmetic on 64 bit times does not overflow.
  predicate InRange(now: nat, rel: nat) {
    rel * 100 < UINT64_LIMIT && now + rel + SLICE < UINT64_LIMIT
  }

  lemma JitterSteps(pct: nat, d: nat, r: nat, random: nat)
    requires 0 < pct <= 100 && r < pct && pct * d + r == UINT32_MAX && random <= UINT32_MAX
    ensures d > 100 && random / d <= pct
  {
    if d <= 100 {
      TimesOrder(pct, d, 100);
    }
    assert d * (pct + 1) == pct * d + d;
    QuotientBelow(random, d, pct + 1);
  }

  lemma JitterBound(pct: nat, random: nat)
    requires 0 < pct <= 100 && random <= UINT32_MAX
    ensures UINT32_MAX / pct > 0 && random / (UINT32_MAX / pct) <= pct
  {
    Division(UINT32_MAX, pct);
    JitterSteps(pct, UINT32_MAX / pct, UINT32_MAX % pct, random);
  }

  lemma PercentBound(q: nat, rel: nat)
    requires q <= 100
    ensures q * rel / 100 <= rel
  {
    TimesOrder(rel, q, 100);
  }

  // The relative time after the jitter has been taken off.
  function Jittered(rel: nat, pct: nat, random: nat): (r: nat)
    requires pct <= 100 && random <= UINT32_MAX
    ensures r <= rel && 100 * (rel - r) <= pct * rel
  {
    if pct == 0 then rel
    else
      JitterBound(pct, random);
      JitterLimit(random / (UINT32_MAX / pct), pct, rel);
      rel - random / (UINT32_MAX / pct) * rel / 100
  }

  lemma JitterLimit(q: nat, pct: nat, rel: nat)
    requires q <= pct <= 100
    ensures 0 <= q * rel / 100 <= rel && 100 * (rel - (rel - q * rel / 100)) <= pct * rel
  {
    PercentBound(q, rel);
    TimesOrder(rel, q, pct);
  }

  // The jitter goes from nothing to the whole percentage, growing with the random number.
  lemma JitterRange(rel: nat, pct: nat, random: nat, random': nat)
    requires pct <= 100 && random <= random' <= UINT32_MAX
    ensures Jittered(rel, pct, 0) == rel && Jittered(rel, pct, UINT32_MAX) == rel - pct * rel / 100
    ensures Jittered(rel, pct, random') <= Jittered(rel, pct, random)
  {
    PercentBound(pct, rel);
    if pct > 0 {
      var d := UINT32_MAX / pct;
      JitterBound(pct, UINT32_MAX);
      Division(UINT32_MAX, pct);
      Division(UINT32_MAX, d);
      if UINT32_MAX / d < pct {
        TimesOrder(d, UINT32_MAX / d + 1, pct);
      }
      QuotientOrder(random, random', d);
      TimesOrder(rel, random / d, random' / d);
    }
  }

  lemma QuotientOrder(a: nat, b: nat, d: nat)
    requires d > 0 && a <= b
    ensures 0 <= a / d <= b / d
  {
    Division(a, d);
    Division(b, d);
    if b / d < a / d {
      TimesOrder(d, b / d + 1, a / d);
    }
  }

  // _calc_clock: the next slice strictly after the time asked for
  function CalcClock(now: nat, rel: nat, pct: nat, random: nat): (c: nat)
    requires pct <= 100 && random <= UINT32_MAX
    ensures now < c && c % 100 == 0
    ensures now + Jittered(rel, pct, random) < c <= now + Jittered(rel, pct, random) + SLICE
  {
    var t := now + Jittered(rel, pct, random) + SLICE;
    t - t % SLICE
  }

  // ---- the timer tree ----

  predicate Sorted(cs: seq<nat>) {
    forall i, j :: 0 <= i < j < |cs| ==> cs[i] <= cs[j]
  }

  // The number of entries below c.
  function Below(cs: seq<nat>, c: nat): (n: nat)
    ensures n <= |cs| && (forall i :: 0 <= i < n ==> cs[i] < c) && (n < |cs| ==> cs[n] >= c)
  {
    if cs == [] || cs[0] >= c then 0 else 1 + Below(cs[1..], c)
  }

  // Where a timer is inserted: directly behind the first one of the same time, if there is one.
  function Place(cs: seq<nat>, c: nat): (n: nat)
    ensures n <= |cs|
  {
    var n := Below(cs, c);
    if n < |cs| && cs[n] == c then n + 1 else n
  }

  lemma PlaceSorted(cs: seq<nat>, c: nat)
    requires Sorted(cs)
    ensures Sorted(cs[..Place(cs, c)] + [c] + cs[Place(cs, c)..])
  {
    var n := Below(cs, c);
    assert forall i :: n <= i < |cs| ==> cs[n] <= cs[i];
  }

  ghost function Clocks(q: seq<TimerInstance>): (cs: seq<nat>)
    reads q`clock
    ensures |cs| == |q| && forall i :: 0 <= i < |q| ==> cs[i] == q[i].clock
  {
    if q == [] then [] else Clocks(q[..|q| - 1]) + [q[|q| - 1].clock]
  }

  predicate Distinct(q: seq<TimerInstance>) {
    forall i, j :: 0 <= i < j < |q| ==> q[i] != q[j]
  }

  function Put(q: seq<TimerInstance>, n: nat, t: TimerInstance): seq<TimerInstance>
    requires n <= |q|
  {
    q[..n] + [t] + q[n..]
  }

  function Taken(q: seq<TimerInstance>, n: nat): seq<TimerInstance>
    requires n < |q|
  {
    q[..n] + q[n + 1..]
  }

  // The number of running timers of a class.
  function Running(q: seq<TimerInstance>, c: TimerClass): nat {
    if q == [] then 0 else Running(q[..|q| - 1], c) + if q[|q| - 1].cls == c then 1 else 0
  }

  lemma {:induction false} RunningConcat(a: seq<TimerInstance>, b: seq<TimerInstance>, c: TimerClass)
    ensures Running(a + b, c) == Running(a, c) + Running(b, c)
  {
    if b == [] {
      assert a + b == a;
    } else {
      RunningConcat(a, b[..|b| - 1], c);
      assert (a + b)[..|a + b| - 1] == a + b[..|b| - 1];
    }
  }

  lemma RunningPut(q: seq<TimerInstance>, n: nat, t: TimerInstance, c: TimerClass)
    requires n <= |q|
    ensures Running(Put(q, n, t), c) == Running(q, c) + if t.cls == c then 1 else 0
  {
    RunningConcat(q[..n] + [t], q[n..], c);
    RunningConcat(q[..n], [t], c);
    RunningConcat(q[..n], q[n..], c);
    assert q == q[..n] + q[n..];
    assert [t][..0] == [];
  }

  lemma RunningTaken(q: seq<TimerInstance>, n: nat, c: TimerClass)
    requires n < |q|
    ensures Running(q, c) == Running(Taken(q, n), c) + if q[n].cls == c then 1 else 0
  {
    RunningPut(Taken(q, n), n, q[n], c);
    assert Put(Taken(q, n), n, q[n]) == q;
  }

  lemma PutMembers(q: seq<TimerInstance>, n: nat, t: TimerInstance)
    requires n <= |q| && Distinct(q) && t !in q
    ensures Distinct(Put(q, n, t)) && t in Put(q, n, t)
    ensures forall u :: u in Put(q, n, t) <==> u == t || u in q
  {
    var p := Put(q, n, t);
    assert p[n] == t;
    forall u | u in q
      ensures u in p
    {
      var i :| 0 <= i < |q| && q[i] == u;
      assert p[if i < n then i else i + 1] == u;
    }
  }

  lemma TakenMembers(q: seq<TimerInstance>, n: nat)
    requires n < |q| && Distinct(q)
    ensures Distinct(Taken(q, n)) && q[n] !in Taken(q, n)
    ensures forall u :: u in Taken(q, n) <==> u != q[n] && u in q
  {
    var p := Taken(q, n);
    forall u | u in q && u != q[n]
      ensures u in p
    {
      var i :| 0 <= i < |q| && q[i] == u;
      assert p[if i < n then i else i - 1] == u;
    }
  }

  lemma BelowFound(cs: seq<nat>, c: nat, n: nat)
    requires n <= |cs| && (forall i :: 0 <= i < n ==> cs[i] < c) && (n < |cs| ==> cs[n] >= c)
    ensures n == Below(cs, c)
  {
  }

  lemma InsertedQueue(q: seq<TimerInstance>, q': seq<TimerInstance>, n: nat, t: TimerInstance)
    requires n == Place(Clocks(q), t.clock) && q' == Put(q, n, t) && Sorted(Clocks(q))
    ensures Sorted(Clocks(q'))
  {
    hide Clocks;
    PlaceSorted(Clocks(q), t.clock);
    assert Clocks(q') == Clocks(q)[..n] + [t.clock] + Clocks(q)[n..];
  }

  lemma SortedTaken(cs: seq<nat>, cs': seq<nat>, n: nat)
    requires n < |cs| && Sorted(cs) && |cs'| == |cs| - 1
    requires forall i :: 0 <= i < |cs'| ==> cs'[i] == cs[if i < n then i else i + 1]
    ensures Sorted(cs')
  {
  }

  lemma TakenAt(q: seq<TimerInstance>, n: nat)
    requires n < |q|
    ensures |Taken(q, n)| == |q| - 1
    ensures forall i :: 0 <= i < |q| - 1 ==> Taken(q, n)[i] == q[if i < n then i else i + 1]
  {
  }

  lemma ClocksTaken(q: seq<TimerInstance>, n: nat)
    requires n < |q| && Sorted(Clocks(q))
    ensures Sorted(Clocks(Taken(q, n)))
  {
    TakenAt(q, n);
    hide Clocks, Sorted, Taken;
    SortedTaken(Clocks(q), Clocks(Taken(q, n)), n);
  }

  lemma Detached(q: seq<TimerInstance>, n: nat)
    requires n < |q| && Distinct(q) && Sorted(Clocks(q))
    ensures var q' := Taken(q, n);
      && Distinct(q') && q[n] !in q' && (forall u :: u in q' <==> u != q[n] && u in q) && Sorted(Clocks(q'))
      && forall c :: Running(q, c) == Running(q', c) + if c == q[n].cls then 1 else 0
  {
    hide Clocks;
    TakenMembers(q, n);
    ClocksTaken(q, n);
    forall c: TimerClass
      ensures Running(q, c) == Running(Taken(q, n), c) + if c == q[n].cls then 1 else 0
    {
      RunningTaken(q, n, c);
    }
  }

  lemma Attached(q: seq<TimerInstance>, n: nat, t: TimerInstance)
    requires n <= |q| && Distinct(q) && t !in q
    ensures var q' := Put(q, n, t);
      && Distinct(q') && t in q' && (forall u :: u in q' <==> u == t || u in q)
      && forall c :: Running(q', c) == Running(q, c) + if c == t.cls then 1 else 0
  {
    PutMembers(q, n, t);
    forall c: TimerClass
      ensures Running(Put(q, n, t), c) == Running(q, c) + if c == t.cls then 1 else 0
    {
      RunningPut(q, n, t, c);
    }
  }

  // The callbacks: what the n-th one does, for every n.
  predicate Allowed(actions: seq<Action>, timers: set<TimerInstance>, now: nat) {
    forall a :: a in actions ==> a.timer in timers && (a.Stop? || (InRange(now, a.first) && InRange(now, a.interval)))
  }

  // Some action is about the timer.
  predicate Mentions(actions: seq<Action>, t: TimerInstance) {
    exists a :: a in actions && a.timer == t
  }

  // A callback of the firings from..to is about the timer.
  ghost predicate Touched(callbacks: nat -> seq<Action>, from: nat, to: nat, t: TimerInstance) {
    exists n :: from <= n < to && Mentions(callbacks(n), t)
  }

  predicate DueAt(times: map<TimerInstance, nat>, t: TimerInstance, now: nat) {
    t in times && times[t] != 0 && times[t] <= now
  }

  // Where a walk stands: of the timers that were due at its start, some have fired, some have
  // been stopped or restarted by a callback, and the others are still due, none of them earlier.
  ghost predicate Walking(was: map<TimerInstance, nat>, times: map<TimerInstance, nat>, now: nat,
                          fired: seq<TimerInstance>, cancelled: set<TimerInstance>, pending: set<TimerInstance>)
  {
    && was.Keys == times.Keys && (forall t :: t in fired ==> t in was) && cancelled + pending <= was.Keys
    && (forall t :: t in was ==> (DueAt(was, t, now) <==> t in fired || t in cancelled || t in pending))
    && (forall t :: t in fired ==> t !in cancelled && t !in pending) && cancelled !! pending && Distinct(fired)
    && (forall t :: t in was ==> (DueAt(times, t, now) <==> t in pending))
    && (forall t :: t in pending ==> times[t] == was[t])
    && InOrder(was, fired) && forall t :: t in pending && fired != [] ==> was[fired[|fired| - 1]] <= was[t]
  }

  lemma WalkStep(was: map<TimerInstance, nat>, before: map<TimerInstance, nat>, after: map<TimerInstance, nat>,
                 now: nat, fired: seq<TimerInstance>, cancelled: set<TimerInstance>, pending: set<TimerInstance>,
                 f: TimerInstance, gone: set<TimerInstance>)
    requires Walking(was, before, now, fired, cancelled, pending) && f in pending && before.Keys == after.Keys
    requires gone <= pending - {f} && forall t :: t in pending ==> before[f] <= before[t]
    requires !DueAt(after, f, now) && forall t :: t in gone ==> !DueAt(after, t, now)
    requires forall t :: t in pending - {f} - gone ==> after[t] == before[t]
    requires forall t :: t in was && t !in pending ==> !DueAt(after, t, now)
    ensures Walking(was, after, now, fired + [f], cancelled + gone, pending - {f} - gone)
  {
    var fired' := fired + [f];
    assert forall t :: t in fired' <==> t in fired || t == f;
    forall i, j | 0 <= i < j < |fired'|
      ensures was[fired'[i]] <= was[fired'[j]] && fired'[i] != fired'[j]
    {
      if j == |fired| {
        assert fired'[i] == fired[i] && fired'[i] in fired;
      }
    }
  }

  predicate InOrder(was: map<TimerInstance, nat>, fired: seq<TimerInstance>)
    requires forall t :: t in fired ==> t in was
  {
    forall i, j :: 0 <= i < j < |fired| ==> was[fired[i]] <= was[fired[j]]
  }

  lemma AllowedOne(actions: seq<Action>, timers: set<TimerInstance>, now: nat, k: nat)
    requires Allowed(actions, timers, now) && k < |actions|
    ensures Allowed([actions[k]], timers, now) && actions[k].timer in timers
  {
  }

  // ---- what a log of actions leaves behind ----

  datatype Snapshot = Snapshot(clock: nat, period: nat, random: nat)

  type Snapshots = map<TimerInstance, Snapshot>

  predicate Starts(a: Action) {
    a.StartExt? || (a.SetExt? && a.first != 0)
  }

  // The last action about the timer.
  function Recent(log: seq<Action>, t: TimerInstance): Option<Action> {
    if log == [] then None
    else
      var n := |log| - 1;
      if log[n].timer == t then Some(log[n]) else Recent(log[..n], t)
  }

  // The period is that of the last start; only timers of a periodic class have one.
  function PeriodAfter(log: seq<Action>, t: TimerInstance, period: nat): nat {
    if log == [] then period
    else
      var n := |log| - 1;
      if log[n].timer == t && Starts(log[n]) then if t.cls.periodic then log[n].interval else 0
      else PeriodAfter(log[..n], t, period)
  }

  // A started timer runs, and its time is the one calculated at the start; any other one does not run.
  predicate Leaves(a: Action, s: Snapshot, now: nat) {
    if Starts(a) then
      && a.timer.jitter <= 100 && s.random <= UINT32_MAX
      && s.clock == CalcClock(now, a.first, a.timer.jitter, s.random)
    else s.clock == 0
  }

  // Timer t, before and after the log.
  predicate After(log: seq<Action>, t: TimerInstance, s: Snapshot, s': Snapshot, now: nat) {
    && s'.period == PeriodAfter(log, t, s.period)
    && match Recent(log, t)
       case None => s'.clock == s.clock && s'.random == s.random
       case Some(a) => Leaves(a, s', now)
  }

  predicate AllAfter(log: seq<Action>, before: Snapshots, after: Snapshots, now: nat) {
    before.Keys == after.Keys && forall t :: t in before ==> After(log, t, before[t], after[t], now)
  }

  lemma {:induction false} RecentConcat(a: seq<Action>, b: seq<Action>, t: TimerInstance, period: nat)
    ensures Recent(a + b, t) == if Recent(b, t).Some? then Recent(b, t) else Recent(a, t)
    ensures PeriodAfter(a + b, t, period) == PeriodAfter(b, t, PeriodAfter(a, t, period))
  {
    if b == [] {
      assert a + b == a;
    } else {
      var n := |b| - 1;
      assert (a + b)[..|a| + n] == a + b[..n] && (a + b)[|a| + n] == b[n];
      RecentConcat(a, b[..n], t, period);
    }
  }

  lemma {:induction false} RecentAbout(log: seq<Action>, t: TimerInstance)
    ensures Recent(log, t).Some? <==> Mentions(log, t)
    ensures Recent(log, t).Some? ==> Recent(log, t).value in log && Recent(log, t).value.timer == t
  {
    if log != [] {
      var n := |log| - 1;
      RecentAbout(log[..n], t);
      assert log == log[..n] + [log[n]];
    }
  }

  lemma NothingDone(s: Snapshots, now: nat)
    ensures AllAfter([], s, s, now)
  {
  }

  lemma AfterJoin(a: seq<Action>, b: seq<Action>, s: Snapshots, s': Snapshots, s'': Snapshots, now: nat)
    requires AllAfter(a, s, s', now) && AllAfter(b, s', s'', now)
    ensures AllAfter(a + b, s, s'', now)
  {
    forall t | t in s
      ensures After(a + b, t, s[t], s''[t], now)
    {
      RecentConcat(a, b, t, s[t].period);
    }
  }

  lemma OneDone(a: Action, s: Snapshots, s': Snapshot, now: nat)
    requires a.timer in s && Leaves(a, s', now)
    requires s'.period == if Starts(a) then (if a.timer.cls.periodic then a.interval else 0) else s[a.timer].period
    ensures AllAfter([a], s, s[a.timer := s'], now)
  {
    forall t | t in s
      ensures After([a], t, s[t], s[a.timer := s'][t], now)
    {
      assert [a][..0] == [];
      assert Recent([], t) == None && PeriodAfter([], t, s[t].period) == s[t].period;
    }
  }

  // What a mentioned timer has become is not due.
  lemma AfterIdle(log: seq<Action>, t: TimerInstance, s: Snapshots, s': Snapshots, now: nat)
    requires AllAfter(log, s, s', now) && t in s
    ensures if Mentions(log, t) then s'[t].clock == 0 || s'[t].clock > now else s'[t].clock == s[t].clock
  {
    RecentAbout(log, t);
  }

  // The callback has stopped the timer at some point.
  predicate Stops(actions: seq<Action>, f: TimerInstance) {
    exists a :: a in actions && a.timer == f && !Starts(a)
  }

  lemma NoStop(actions: seq<Action>, f: TimerInstance)
    ensures !Stops(actions[..0], f) && actions[..0] == []
  {
  }

  lemma StopStep(actions: seq<Action>, k: nat, f: TimerInstance)
    requires k < |actions|
    ensures actions[..k + 1] == actions[..k] + [actions[k]]
    ensures Stops(actions[..k + 1], f) <==> Stops(actions[..k], f) || (actions[k].timer == f && !Starts(actions[k]))
  {
    assert actions[..k + 1] == actions[..k] + [actions[k]];
    if Stops(actions[..k], f) {
      var a :| a in actions[..k] && a.timer == f && !Starts(a);
      assert a in actions[..k + 1];
    }
    assert actions[k] in actions[..k + 1];
  }

  // All that one firing does: a timer without a period is stopped first; one with a period is started
  // again behind the callback, unless the callback has stopped it.
  function FireLog(f: TimerInstance, period: nat, actions: seq<Action>): seq<Action> {
    First(f, period) + actions + Again(f, period, actions)
  }

  function First(f: TimerInstance, period: nat): seq<Action> {
    if period == 0 then [Stop(f)] else []
  }

  function Again(f: TimerInstance, period: nat, actions: seq<Action>): seq<Action> {
    var again := PeriodAfter(actions, f, period);
    if period > 0 && !Stops(actions, f) then [StartExt(f, again, again)] else []
  }

  function CallLog(f: TimerInstance, period: nat, actions: seq<Action>): seq<Action> {
    actions + Again(f, period, actions)
  }

  // A firing is about the timer that fires and those that its callback mentions.
  lemma FireMentions(f: TimerInstance, period: nat, actions: seq<Action>, t: TimerInstance)
    ensures Mentions(FireLog(f, period, actions), t) <==> t == f || Mentions(actions, t)
  {
    hide PeriodAfter;
    var first, again := First(f, period), Again(f, period, actions);
    MentionsConcat(first, actions, t);
    MentionsConcat(first + actions, again, t);
    if t == f && period == 0 {
      assert first[0] in first && first[0].timer == f;
    } else if t == f && again != [] {
      assert again[0] in again && again[0].timer == f;
    }
  }

  lemma MentionsConcat(a: seq<Action>, b: seq<Action>, t: TimerInstance)
    ensures Mentions(a + b, t) <==> Mentions(a, t) || Mentions(b, t)
  {
    if Mentions(a, t) {
      var x :| x in a && x.timer == t;
      assert x in a + b;
    }
    if Mentions(b, t) {
      var x :| x in b && x.timer == t;
      assert x in a + b;
    }
  }

  // A callback that does not mention its timer leaves it stopped, or started again for its period.
  lemma FireUntouched(f: TimerInstance, period: nat, actions: seq<Action>)
    requires !Mentions(actions, f)
    ensures Recent(FireLog(f, period, actions), f) == Some(if period == 0 then Stop(f) else StartExt(f, period, period))
    ensures PeriodAfter(FireLog(f, period, actions), f, period)
         == if period > 0 && f.cls.periodic then period else 0
  {
    RecentAbout(actions, f);
    Unmentioned(actions, f, period);
    var first, again := First(f, period), Again(f, period, actions);
    RecentConcat(first, actions, f, period);
    RecentConcat(first + actions, again, f, period);
    assert first != [] ==> first[..0] == [];
    assert again != [] ==> again[..0] == [];
  }

  lemma {:induction false} Unmentioned(actions: seq<Action>, f: TimerInstance, period: nat)
    requires !Mentions(actions, f)
    ensures PeriodAfter(actions, f, period) == period && !Stops(actions, f)
  {
    if actions != [] {
      var n := |actions| - 1;
      assert actions == actions[..n] + [actions[n]] && actions[n] in actions;
      MentionsConcat(actions[..n], [actions[n]], f);
      Unmentioned(actions[..n], f, period);
    }
  }

  lemma AfterOf(log: seq<Action>, t: TimerInstance, s: Snapshots, s': Snapshots, now: nat)
    requires AllAfter(log, s, s', now) && t in s
    ensures t in s' && After(log, t, s[t], s'[t], now)
  {
  }

  lemma FirstIs(f: TimerInstance)
    ensures First(f, f.period) == if f.period == 0 then [Stop(f)] else []
  {
  }

  lemma FireJoin(f: TimerInstance, period: nat, actions: seq<Action>, s: Snapshots, s': Snapshots, s'': Snapshots,
                 now: nat)
    requires AllAfter(First(f, period), s, s', now) && AllAfter(CallLog(f, period, actions), s', s'', now)
    ensures AllAfter(FireLog(f, period, actions), s, s'', now)
  {
    hide AllAfter, Again, First;
    AfterJoin(First(f, period), CallLog(f, period, actions), s, s', s'', now);
    assert First(f, period) + CallLog(f, period, actions) == FireLog(f, period, actions);
  }

  // ... and a whole walk, beginning with callback `from`.
  ghost function WalkLog(callbacks: nat -> seq<Action>, fired: seq<TimerInstance>, from: nat,
                         was: Snapshots): seq<Action>
    requires forall f :: f in fired ==> f in was
  {
    if fired == [] then []
    else
      var n := |fired| - 1;
      var log := WalkLog(callbacks, fired[..n], from, was);
      log + FireLog(fired[n], PeriodAfter(log, fired[n], was[fired[n]].period), callbacks(from + n))
  }

  class Scheduler {
    const timers: set<TimerInstance>
    const classes: set<TimerClass>
    // the timer tree, from the first timer to the last
    var queue: seq<TimerInstance>
    var now: nat
    // arbitrary random numbers and callbacks
    const randoms: nat -> nat
    const callbacks: nat -> seq<Action>
    var draws: nat
    var firings: nat

    constructor (timers: set<TimerInstance>, classes: set<TimerClass>, now: nat, randoms: nat -> nat,
                 callbacks: nat -> seq<Action>)
      requires forall t :: t in timers ==> t.clock == 0 && t.cls in classes && t.jitter <= 100 && t.random <= UINT32_MAX
      requires forall t :: t in timers ==> InRange(now, t.period) && (t.period > 0 ==> t.cls.periodic)
      requires forall c :: c in classes ==> c.usage == 0
      requires forall n :: randoms(n) <= UINT32_MAX
      requires forall n :: Allowed(callbacks(n), timers, now)
      ensures Valid() && queue == [] && this.timers == timers && this.classes == classes && this.now == now
      ensures this.randoms == randoms && this.callbacks == callbacks && firings == 0
    {
      this.timers, this.classes, this.now, this.randoms, this.callbacks := timers, classes, now, randoms, callbacks;
      queue, draws, firings := [], 0, 0;
    }

    ghost predicate Known()
      reads this`now
    {
      && (forall n :: randoms(n) <= UINT32_MAX)
      && (forall n :: Allowed(callbacks(n), timers, now))
      && forall t :: t in timers ==> t.cls in classes && t.jitter <= 100
    }

    ghost predicate TimersValid()
      reads this`now, timers`random, timers`period
    {
      forall t :: t in timers ==> t.random <= UINT32_MAX && InRange(now, t.period) && (t.period > 0 ==> t.cls.periodic)
    }

    // The tree holds exactly the running timers, each one once, sorted by time.
    ghost predicate Queued()
      reads this`queue, timers`clock
    {
      && (forall t :: t in queue ==> t in timers) && Distinct(queue)
      && (forall t :: t in timers ==> (t in queue <==> t.clock != 0))
      && Sorted(Clocks(queue))
    }

    // The usage of a class is its number of running timers.
    ghost predicate Counted()
      reads this`queue, classes`usage
    {
      forall c :: c in classes ==> c.usage == Running(queue, c)
    }

    ghost predicate Valid()
      reads this`now, this`queue, timers`clock, timers`random, timers`period, classes`usage
    {
      Known() && TimersValid() && Queued() && Counted()
    }

    // Time passes: the timers stay where they are, and become due when their time has come.
    method Advance(later: nat)
      requires Valid() && now <= later
      requires forall n :: Allowed(callbacks(n), timers, later)
      requires forall t :: t in timers ==> InRange(later, t.period)
      modifies this`now
      ensures Valid() && now == later && queue == old(queue)
      ensures forall t :: t in timers ==> (Due(t) <==> old(Due(t)) || (old(now) < t.clock <= later))
    {
      now := later;
    }

    method Draw() returns (r: nat)
      requires Known()
      modifies this`draws
      ensures r <= UINT32_MAX
    {
      r := randoms(draws);
      draws := draws + 1;
    }

    // The position where avl_insert puts a timer.
    method FindPlace(c: nat) returns (n: nat)
      requires Sorted(Clocks(queue))
      ensures n == Place(Clocks(queue), c)
    {
      hide Clocks;
      n := 0;
      while n < |queue| && queue[n].clock < c
        invariant 0 <= n <= |queue| && forall i :: 0 <= i < n ==> queue[i].clock < c
      {
        n := n + 1;
      }
      BelowFound(Clocks(queue), c, n);
      if n < |queue| && queue[n].clock == c {
        n := n + 1;
      }
    }

    // avl_insert
    method Insert(t: TimerInstance) returns (ghost at: nat)
      requires t in timers && t !in queue && Distinct(queue)
      requires (forall u :: u in queue ==> u in timers) && Sorted(Clocks(queue))
      modifies this`queue
      ensures at == Place(Clocks(old(queue)), t.clock) && queue == Put(old(queue), at, t)
      ensures Sorted(Clocks(queue))
    {
      hide Clocks, Distinct, Put, Sorted, Place;
      var n := FindPlace(t.clock);
      InsertedQueue(queue, Put(queue, n, t), n, t);
      queue := Put(queue, n, t);
      at := n;
    }

    // avl_remove
    method Remove(t: TimerInstance) returns (ghost at: nat)
      requires t in queue
      modifies this`queue
      ensures at < |old(queue)| && old(queue)[at] == t && queue == Taken(old(queue), at)
    {
      var n := 0;
      while queue[n] != t
        invariant 0 <= n < |queue| && exists i :: n <= i < |queue| && queue[i] == t
        decreases |queue| - n
      {
        n := n + 1;
      }
      queue := Taken(queue, n);
      at := n;
    }

    // Timer t is out of the tree, but its class counts it as running.
    ghost predicate Without(t: TimerInstance)
      reads this`queue, timers`clock, classes`usage
    {
      && (forall u :: u in queue ==> u in timers) && Distinct(queue) && t !in queue
      && (forall u :: u in timers && u != t ==> (u in queue <==> u.clock != 0))
      && Sorted(Clocks(queue))
      && forall c :: c in classes ==> c.usage == Running(queue, c) + if c == t.cls then 1 else 0
    }

    // oonf_timer_start_ext, up to the point where the new time is calculated
    method Detach(t: TimerInstance)
      requires Valid() && t in timers
      modifies this`queue, t.cls`usage, t.cls`changes
      ensures Known() && TimersValid() && Without(t)
      ensures forall u :: u != t ==> (u in queue <==> u in old(queue))
    {
      hide Clocks, Running, Distinct, Sorted, Taken, InRange, Allowed;
      if t.clock != 0 {
        ghost var before := queue;
        ghost var at := Remove(t);
        Detached(before, at);
        t.cls.changes := t.cls.changes + 1;
      } else {
        t.cls.usage := t.cls.usage + 1;
      }
    }

    method Attach(t: TimerInstance)
      requires Known() && TimersValid() && Without(t) && t in timers && t.clock != 0
      modifies this`queue
      ensures Valid() && t in queue
      ensures forall u :: u != t ==> (u in queue <==> u in old(queue))
    {
      hide Clocks, Running, Distinct, Sorted, Put, InRange, Allowed;
      ghost var before := queue;
      ghost var at := Insert(t);
      Attached(before, at, t);
    }

    // oonf_timer_start_ext
    method Start(t: TimerInstance, first: nat, interval: nat)
      requires Valid() && t in timers && InRange(now, first) && InRange(now, interval)
      modifies this`queue, this`draws, t, t.cls`usage, t.cls`changes
      ensures Valid() && t in queue && t.jitter <= 100 && t.random <= UINT32_MAX
      ensures t.clock == CalcClock(now, first, t.jitter, t.random)
      ensures t.period == if t.cls.periodic then interval else 0
      ensures forall u :: u != t ==> (u in queue <==> u in old(queue))
    {
      hide Clocks, Running, Distinct, Sorted, Allowed, CalcClock;
      Detach(t);
      // the random number is drawn only once
      if t.random == 0 {
        t.random := Draw();
      }
      t.clock := CalcClock(now, first, t.jitter, t.random);
      t.period := if t.cls.periodic then interval else 0;
      Attach(t);
    }

    // oonf_timer_stop
    method StopTimer(t: TimerInstance)
      requires Valid() && t in timers
      modifies this`queue, t, t.cls`usage, t.cls`stopped
      ensures Valid() && t.clock == 0 && t !in queue && t.period == old(t.period)
      ensures forall u :: u != t ==> (u in queue <==> u in old(queue))
      ensures t.cls.stopped == (old(t.cls.stopped) || (old(t.clock) != 0 && t.cls.inCallback == t))
    {
      hide Clocks, Running, Distinct, Sorted, Taken, InRange, Allowed;
      if t.clock == 0 {
        return;
      }
      ghost var before := queue;
      ghost var at := Remove(t);
      Detached(before, at);
      t.clock, t.random := 0, 0;
      t.cls.usage := t.cls.usage - 1;
      if t.cls.inCallback == t {
        t.cls.stopped := true;
      }
    }

    // oonf_timer_set_ext
    method Set(t: TimerInstance, first: nat, interval: nat)
      requires Valid() && t in timers && InRange(now, first) && InRange(now, interval)
      modifies this`queue, this`draws, t, t.cls`usage, t.cls`changes, t.cls`stopped
      ensures Valid() && (t in queue <==> first != 0)
      ensures first != 0 ==> t.clock == CalcClock(now, first, t.jitter, t.random) && t.cls.stopped == old(t.cls.stopped)
      ensures first != 0 ==> t.period == if t.cls.periodic then interval else 0
      ensures first != 0 ==> t.jitter <= 100 && t.random <= UINT32_MAX
      ensures first == 0 ==> t.clock == 0 && t.period == old(t.period)
      ensures first == 0 ==> t.cls.stopped == (old(t.cls.stopped) || (old(t.clock) != 0 && t.cls.inCallback == t))
      ensures forall u :: u != t ==> (u in queue <==> u in old(queue))
    {
      if first == 0 {
        // no time means no timer
        StopTimer(t);
      } else {
        Start(t, first, interval);
      }
    }

    // The timer is not due: it does not run, or it runs in the future.
    ghost predicate Idle(t: TimerInstance)
      reads this`now, t`clock
    {
      t.clock == 0 || t.clock > now
    }

    ghost predicate Due(t: TimerInstance)
      reads this`now, t`clock
    {
      t.clock != 0 && t.clock <= now
    }

    // The callback of timer f, which is running in it unless it has been stopped.
    ghost predicate InCallback(f: TimerInstance)
      reads this`now, f`clock, f.cls`inCallback, f.cls`stopped
    {
      f.cls.inCallback == f && (if f.cls.stopped then Idle(f) else f.clock != 0)
    }

    // One step of the callback of timer f.
    method Perform(a: Action, ghost f: TimerInstance)
      requires Valid() && Allowed([a], timers, now) && f in timers && InCallback(f)
      modifies this`queue, this`draws, a.timer, a.timer.cls`usage, a.timer.cls`changes, a.timer.cls`stopped
      ensures Valid() && InCallback(f) && Leaves(a, Snap(a.timer), now)
      ensures a.timer.period
           == if Starts(a) then (if a.timer.cls.periodic then a.interval else 0) else old(a.timer.period)
      ensures f.cls.stopped == (old(f.cls.stopped) || (a.timer == f && !Starts(a)))
    {
      hide Clocks, Queued, Counted, Known, TimersValid, CalcClock, InRange;
      assert a in [a];
      match a
      case StartExt(t, first, interval) => Start(t, first, interval);
      case SetExt(t, first, interval) => Set(t, first, interval);
      case Stop(t) => StopTimer(t);
    }

    // Step k of the callback of timer f.
    method Step(actions: seq<Action>, k: nat, ghost f: TimerInstance)
      requires Valid() && Allowed(actions, timers, now) && f in timers && InCallback(f) && k < |actions|
      modifies this`queue, this`draws, actions[k].timer, actions[k].timer.cls`usage
      modifies actions[k].timer.cls`changes, actions[k].timer.cls`stopped
      ensures Valid() && InCallback(f)
      ensures AllAfter([actions[k]], old(Snaps()), Snaps(), now)
      ensures f.cls.stopped == (old(f.cls.stopped) || (actions[k].timer == f && !Starts(actions[k])))
    {
      hide Valid, Known, Allowed, Mentions, InRange, InCallback, AllAfter, Leaves;
      AllowedOne(actions, timers, now, k);
      ghost var before := Snaps();
      Perform(actions[k], f);
      ghost var t := actions[k].timer;
      OneDone(actions[k], before, Snap(t), now);
      assert Snaps() == before[t := Snap(t)];
    }

    ghost function Snap(t: TimerInstance): Snapshot
      reads t
    {
      Snapshot(t.clock, t.period, t.random)
    }

    // All timers as they stand.
    ghost function Snaps(): Snapshots
      reads timers
    {
      map t | t in timers :: Snap(t)
    }

    lemma ClassesKnown()
      requires Valid()
      ensures forall t :: t in timers ==> t.cls in classes
    {
    }

    method RunCallback(actions: seq<Action>, ghost f: TimerInstance)
      requires Valid() && Allowed(actions, timers, now) && f in timers && InCallback(f)
      modifies this`queue, this`draws, timers, classes`usage, classes`changes, classes`stopped
      ensures Valid() && InCallback(f) && AllAfter(actions, old(Snaps()), Snaps(), now)
      ensures f.cls.stopped == (old(f.cls.stopped) || Stops(actions, f))
    {
      hide Valid, Allowed, Mentions, InCallback, Snaps, AllAfter, Stops;
      ClassesKnown();
      ghost var before := Snaps();
      NothingDone(before, now);
      NoStop(actions, f);
      var k := 0;
      while k < |actions|
        invariant 0 <= k <= |actions| && Valid() && InCallback(f) && AllAfter(actions[..k], before, Snaps(), now)
        invariant f.cls.stopped == (old(f.cls.stopped) || Stops(actions[..k], f))
      {
        AllowedOne(actions, timers, now, k);
        StopStep(actions, k, f);
        ghost var mid := Snaps();
        Step(actions, k, f);
        AfterJoin(actions[..k], [actions[k]], before, mid, Snaps(), now);
        k := k + 1;
      }
      assert actions[..k] == actions;
    }

    // Where timer t stands after it has fired with a callback that did not touch it.
    ghost predicate Restarted(t: TimerInstance, period: nat)
      reads this`now, t
    {
      && t.period == period
      && if period == 0 then t.clock == 0
         else t.jitter <= 100 && t.random <= UINT32_MAX && t.clock == CalcClock(now, period, t.jitter, t.random)
    }

    // One turn of the loop of oonf_timer_walk: the first timer of the tree fires.
    method Fire() returns (f: TimerInstance, actions: seq<Action>)
      requires Valid() && queue != [] && queue[0].clock <= now
      modifies this`queue, this`draws, this`firings, timers, classes
      ensures actions == callbacks(old(firings)) && firings == old(firings) + 1
      ensures Valid() && f == old(queue[0]) && Idle(f)
      ensures AllAfter(FireLog(f, old(f.period), actions), old(Snaps()), Snaps(), now)
      ensures !Mentions(actions, f) ==> Restarted(f, old(f.period))
      ensures forall t :: t in timers && t != f && Mentions(actions, t) ==> Idle(t)
      ensures forall t :: t in timers && t != f && !Mentions(actions, t) ==> t.clock == old(t.clock)
    {
      Running1(queue[0]);
      hide Valid, Known, Allowed, Mentions, InCallback, Restarted, AllAfter, Snaps, FireLog, CallLog;
      f := queue[0];
      ghost var before, period := Snaps(), f.period;
      SnapsOf(f);
      actions := FireTimer(f);
      FireFacts(f, period, actions, before, Snaps());
    }

    method FireTimer(f: TimerInstance) returns (actions: seq<Action>)
      requires Valid() && f in queue
      modifies this`queue, this`draws, this`firings, timers, classes
      ensures actions == callbacks(old(firings)) && firings == old(firings) + 1
      ensures Valid() && AllAfter(FireLog(f, old(f.period), actions), old(Snaps()), Snaps(), now)
    {
      hide Valid, Known, Allowed, Mentions, InCallback, AllAfter, Snaps, FireLog, CallLog, First;
      Running1(f);
      ghost var before, period := Snaps(), f.period;
      Launch(f);
      ghost var mid := Snaps();
      actions := callbacks(firings);
      firings := firings + 1;
      Call(actions, f);
      FireJoin(f, period, actions, before, mid, Snaps(), now);
    }

    lemma SnapsOf(f: TimerInstance)
      requires Valid() && f in timers
      ensures Snaps().Keys == timers && Snaps()[f] == Snap(f) && (f.period > 0 ==> f.cls.periodic)
      ensures forall t :: t in timers ==> Snaps()[t] == Snap(t)
    {
      hide Known, Queued, Counted, InRange;
    }

    lemma FireFacts(f: TimerInstance, period: nat, actions: seq<Action>, before: Snapshots, after: Snapshots)
      requires AllAfter(FireLog(f, period, actions), before, after, now) && after == Snaps() && before.Keys == timers
      requires Valid() && f in timers && before[f].period == period && (period > 0 ==> f.cls.periodic)
      ensures Idle(f) && (!Mentions(actions, f) ==> Restarted(f, period))
      ensures forall t :: t in timers && t != f && Mentions(actions, t) ==> Idle(t)
      ensures forall t :: t in timers && t != f && !Mentions(actions, t) ==> t.clock == before[t].clock
    {
      hide AllAfter, Valid, Mentions, FireLog;
      var log := FireLog(f, period, actions);
      forall t | t in timers
        ensures Mentions(log, t) <==> t == f || Mentions(actions, t)
        ensures if Mentions(log, t) then Idle(t) else t.clock == before[t].clock
      {
        FireMentions(f, period, actions, t);
        AfterIdle(log, t, before, after, now);
      }
      if !Mentions(actions, f) {
        FireUntouched(f, period, actions);
        AfterOf(log, f, before, after, now);
      }
    }

    // The callback, and what happens after it.
    method Call(actions: seq<Action>, f: TimerInstance)
      requires Valid() && Allowed(actions, timers, now) && f in timers && InCallback(f)
      requires f.cls in classes && f.cls.stopped == (f.period == 0)
      modifies this`queue, this`draws, timers, classes`usage, classes`changes, classes`stopped
      ensures Valid() && AllAfter(CallLog(f, old(f.period), actions), old(Snaps()), Snaps(), now)
    {
      hide Valid, Allowed, Mentions, CalcClock, InCallback, AllAfter, Stops, PeriodAfter;
      ghost var before, period := Snaps(), f.period;
      RunCallback(actions, f);
      ghost var mid := Snaps();
      PeriodNow(actions, f, before, mid);
      Finish(f);
      NothingDone(mid, now);
      AfterJoin(actions, Again(f, period, actions), before, mid, Snaps(), now);
    }

    lemma PeriodNow(actions: seq<Action>, f: TimerInstance, before: Snapshots, mid: Snapshots)
      requires AllAfter(actions, before, mid, now) && f in before && mid == Snaps()
      ensures f in timers && f.period == PeriodAfter(actions, f, before[f].period)
    {
    }

    // What happens before the callback.
    method Launch(f: TimerInstance)
      requires Valid() && f in queue
      modifies this`queue, f, f.cls
      ensures Valid() && InCallback(f) && f.period == old(f.period)
      ensures f.cls.stopped == (f.period == 0)
      ensures AllAfter(First(f, old(f.period)), old(Snaps()), Snaps(), now)
    {
      hide Known, Allowed, InRange, Clocks, AllAfter, First;
      Running1(f);
      hide Valid;
      ghost var before := Snaps();
      NothingDone(before, now);
      var info := f.cls;
      info.inCallback := f;
      info.stopped := false;
      info.fired := info.fired + 1;
      if f.period == 0 {
        // a timer that fires once is taken out before its callback
        StopTimer(f);
        OneDone(Stop(f), before, Snap(f), now);
      }
      FirstIs(f);
      assert Snaps() == before[f := Snap(f)];
    }

    // What happens after the callback, which might have stopped the timer.
    method Finish(f: TimerInstance)
      requires Valid() && f in timers && InCallback(f)
      modifies this`queue, this`draws, f, f.cls`usage, f.cls`changes
      ensures Valid()
      ensures
        AllAfter(if f.cls.stopped then [] else [StartExt(f, old(f.period), old(f.period))], old(Snaps()), Snaps(), now)
    {
      hide Valid, CalcClock, InRange, Clocks, AllAfter;
      ghost var before := Snaps();
      NothingDone(before, now);
      if !f.cls.stopped {
        ghost var a := StartExt(f, f.period, f.period);
        Reroll(f);
        Start(f, f.period, f.period);
        OneDone(a, before, Snap(f), now);
      }
      assert Snaps() == before[f := Snap(f)];
    }

    // Facts about a timer of a valid scheduler.
    lemma Running1(t: TimerInstance)
      requires Valid() && t in queue
      ensures t in timers && t.cls in classes && t.clock != 0 && t.jitter <= 100
      ensures forall n :: Allowed(callbacks(n), timers, now)
    {
    }

    method Reroll(t: TimerInstance)
      requires Valid() && t in timers
      modifies this`draws, t`random
      ensures Valid() && InRange(now, t.period) && t.random <= UINT32_MAX && t.jitter <= 100
      ensures t.period > 0 ==> t.cls.periodic
    {
      hide Allowed, InRange;
      t.random := Draw();
    }

    // The times of all timers.
    ghost function Times(): map<TimerInstance, nat>
      reads timers`clock
    {
      map t | t in timers :: t.clock
    }

    lemma HeadFirst(t: TimerInstance)
      requires Queued() && queue != [] && t in timers && Due(t)
      ensures queue[0].clock <= t.clock
    {
      hide Clocks;
      var i :| 0 <= i < |queue| && queue[i] == t;
      assert Clocks(queue)[0] == queue[0].clock && Clocks(queue)[i] == t.clock;
    }

    // One turn of the loop, seen from the whole walk.
    method Turn(ghost was: map<TimerInstance, nat>, ghost fired: seq<TimerInstance>,
                ghost cancelled: set<TimerInstance>, ghost pending: set<TimerInstance>, ghost from: nat,
                ghost start: Snapshots)
      returns (ghost fired': seq<TimerInstance>, ghost cancelled': set<TimerInstance>,
               ghost pending': set<TimerInstance>)
      requires Valid() && queue != [] && queue[0].clock <= now && Walking(was, Times(), now, fired, cancelled, pending)
      requires |fired| == firings - from && from <= firings
      requires forall t :: t in cancelled ==> Touched(callbacks, from, firings, t)
      requires start.Keys == timers && forall t :: t in fired ==> t in start
      requires AllAfter(WalkLog(callbacks, fired, from, start), start, Snaps(), now)
      modifies this`queue, this`draws, this`firings, timers, classes
      ensures Valid() && Walking(was, Times(), now, fired', cancelled', pending') && pending' < pending
      ensures |fired'| == firings - from && from <= firings
      ensures forall t :: t in cancelled' ==> Touched(callbacks, from, firings, t)
      ensures forall t :: t in fired' ==> t in start
      ensures AllAfter(WalkLog(callbacks, fired', from, start), start, Snaps(), now)
    {
      hide Valid, Walking, Mentions, Restarted, AllAfter, WalkLog, FireLog, Snaps;
      ghost var before, snaps := Times(), Snaps();
      HeadDue(was, before, fired, cancelled, pending);
      ghost var head := queue[0];
      SnapsOf(head);
      var f, actions := Fire();
      ghost var gone := set t | t in pending && t != f && Mentions(actions, t);
      WalkStep(was, before, Times(), now, fired, cancelled, pending, f, gone);
      fired', cancelled', pending' := fired + [f], cancelled + gone, pending - {f} - gone;
      WalkLogMore(fired, f, from, start, snaps, Snaps());
    }

    lemma WalkLogMore(fired: seq<TimerInstance>, f: TimerInstance, from: nat, start: Snapshots, mid: Snapshots,
                      after: Snapshots)
      requires f in start && forall t :: t in fired ==> t in start
      requires AllAfter(WalkLog(callbacks, fired, from, start), start, mid, now)
      requires f in mid && AllAfter(FireLog(f, mid[f].period, callbacks(from + |fired|)), mid, after, now)
      ensures AllAfter(WalkLog(callbacks, fired + [f], from, start), start, after, now)
    {
      hide AllAfter, FireLog;
      var log, n := WalkLog(callbacks, fired, from, start), |fired|;
      AfterOf(log, f, start, mid, now);
      assert (fired + [f])[..n] == fired && (fired + [f])[n] == f;
      AfterJoin(log, FireLog(f, mid[f].period, callbacks(from + n)), start, mid, after, now);
    }

    lemma HeadDue(was: map<TimerInstance, nat>, times: map<TimerInstance, nat>, fired: seq<TimerInstance>,
                  cancelled: set<TimerInstance>, pending: set<TimerInstance>)
      requires Valid() && queue != [] && queue[0].clock <= now
      requires times == Times() && Walking(was, times, now, fired, cancelled, pending)
      ensures queue[0] in pending && pending <= timers && was.Keys == timers
      ensures forall t :: t in pending ==> times[queue[0]] <= times[t]
      ensures forall t :: t in timers && t !in pending ==> Idle(t)
    {
      forall t | t in pending
        ensures times[queue[0]] <= times[t]
      {
        HeadFirst(t);
      }
    }

    lemma AllWalked(was: map<TimerInstance, nat>, fired: seq<TimerInstance>, cancelled: set<TimerInstance>,
                    pending: set<TimerInstance>)
      requires Walking(was, Times(), now, fired, cancelled, pending) && forall t :: t in timers ==> Idle(t)
      ensures pending == {} && Distinct(fired) && InOrder(was, fired)
      ensures forall t :: t in timers ==> (DueAt(was, t, now) <==> t in fired || t in cancelled)
      ensures forall t :: t in fired ==> t in timers
      ensures forall t :: t in cancelled ==> t !in fired
    {
    }

    // When the first timer is not due, no timer is.
    lemma NoneDue()
      requires Valid() && (queue == [] || queue[0].clock > now)
      ensures forall t :: t in timers ==> Idle(t)
    {
      forall t | t in timers
        ensures Idle(t)
      {
        if queue != [] && Due(t) {
          HeadFirst(t);
        }
      }
    }

    // Walks over all timers that are due. They fire in the order of their times and none fires
    // twice; a due timer only misses its turn when a callback has stopped or restarted it before;
    // afterwards no timer is due.
    method Walk()
      returns (ghost was: map<TimerInstance, nat>, ghost fired: seq<TimerInstance>, ghost cancelled: set<TimerInstance>)
      requires Valid()
      modifies this`queue, this`draws, this`firings, timers, classes
      ensures Valid() && forall t :: t in timers ==> Idle(t)
      ensures was == old(Times())
      ensures Distinct(fired) && |fired| == firings - old(firings)
      ensures forall t :: t in timers ==> (DueAt(was, t, now) <==> t in fired || t in cancelled)
      ensures forall t :: t in fired ==> t in timers
      ensures forall t :: t in cancelled ==> t !in fired && Touched(callbacks, old(firings), firings, t)
      ensures InOrder(was, fired)
      ensures AllAfter(WalkLog(callbacks, fired, old(firings), old(Snaps())), old(Snaps()), Snaps(), now)
      ensures forall t :: t in timers ==> (t in queue <==> t.clock != 0)
    {
      hide Valid, Walking, Touched, InOrder, Distinct, DueAt, Times, AllAfter, Snaps;
      ghost var start := Snaps();
      NothingDone(start, now);
      SnapsKeys();
      was := Times();
      fired, cancelled := [], {};
      ghost var pending := WalkStart();
      while queue != []
        invariant Valid() && Walking(was, Times(), now, fired, cancelled, pending)
        invariant |fired| == firings - old(firings) && old(firings) <= firings
        invariant forall t :: t in cancelled ==> Touched(callbacks, old(firings), firings, t)
        invariant forall t :: t in fired ==> t in start
        invariant AllAfter(WalkLog(callbacks, fired, old(firings), start), start, Snaps(), now)
        decreases pending
      {
        hide WalkLog;
        if queue[0].clock > now {
          break;
        }
        fired, cancelled, pending := Turn(was, fired, cancelled, pending, old(firings), start);
      }
      NoneDue();
      AllWalked(was, fired, cancelled, pending);
      QueuedRun();
    }

    lemma SnapsKeys()
      ensures Snaps().Keys == timers
    {
    }

    lemma WalkStart() returns (pending: set<TimerInstance>)
      ensures Walking(Times(), Times(), now, [], {}, pending)
    {
      pending := set t | t in timers && DueAt(Times(), t, now);
    }

    lemma QueuedRun()
      requires Valid()
      ensures forall t :: t in timers ==> (t in queue <==> t.clock != 0)
    {
    }

    // From start to fire: one slice after the time asked for, the next walk fires the timer, unless a
    // callback of that walk stops it or sets it anew.
    method StartAndWait(t: TimerInstance, first: nat, interval: nat, later: nat)
      returns (ghost fired: seq<TimerInstance>, ghost cancelled: set<TimerInstance>)
      requires Valid() && t in timers && InRange(now, first) && InRange(now, interval)
      requires now + first + SLICE <= later && InRange(later, interval)
      requires forall n :: Allowed(callbacks(n), timers, later)
      requires forall u :: u in timers ==> InRange(later, u.period)
      modifies this`now, this`queue, this`draws, this`firings, timers, classes
      ensures Valid() && now == later && (t in fired || t in cancelled)
      ensures t in cancelled ==> t !in fired && Touched(callbacks, old(firings), firings, t)
    {
      hide Known, Queued, Counted, TimersValid, Allowed, Touched, InOrder, Distinct;
      ClassesKnown();
      Start(t, first, interval);
      Advance(later);
      assert Due(t) && DueAt(Times(), t, later);
      ghost var was;
      was, fired, cancelled := Walk();
    }
  }
}
