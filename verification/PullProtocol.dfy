// The broker under concurrency: any number of pullers, ticks, creations,
// renewals, unsubscriptions and synchronization points, interleaved at the
// granularity of the broker's mutex and of the signal channels
// (internal/onvif/events.go).

module PullProtocol {
  import opened Common
  import opened EventBroker

  // A pull call between two passes of its loop: about to take the lock for
  // pass number `pass`, or blocked in the select after that pass.
  datatype Puller =
    | Checking(token: Token, limit: nat, pass: nat)
    | Waiting(token: Token, limit: nat, pass: nat)

  // What happened to one subscription so far: the instant its lifetime was
  // last set, how many Changed broadcasts preceded it, every event enqueued
  // for it, every event handed to a caller, and for each of those its
  // position among the enqueued ones.
  datatype History = History(anchor: int, start: nat, enqueued: seq<Event>, got: seq<Event>, at: seq<nat>)

  datatype System = System(
    broker: Broker,
    clock: int,
    pullers: map<nat, Puller>,
    log: map<Token, History>,
    broadcasts: seq<bool>)

  datatype Step =
    | Tick(current: bool, now: int, when: int)
    | Create(minted: Option<Token>, stamp: int, ttl: int, lockedAt: int)
    | Renew(token: Token, now: int, stamp: int, ttl: int)
    | Unsubscribe(token: Token)
    | Synchronize(token: Token, now: int, when: int, ready: bool)
    | Begin(pid: nat, token: Token, limit: nat)
    | Pass(pid: nat, now: int)
    | Wake(pid: nat)
    | GiveUp(pid: nat)

  // Which pulls the clients issue on each subscription: whether two may be
  // outstanding, and the smallest message limit in use.
  datatype Policy = Policy(shared: Token -> bool, minLimit: Token -> nat)

  function Init(ready: bool, clock: int): System {
    System(Broker(map[], map[], ready), clock, map[], map[], [])
  }

  // What the mutex, the clock and the channels allow.
  predicate Possible(s: System, step: Step) {
    match step
    case Tick(_, now, when) => s.clock <= now <= when
    case Create(minted, stamp, ttl, lockedAt) =>
      && stamp <= lockedAt && s.clock <= lockedAt && 0 < ttl <= MAX_TTL
      && (minted.Some? ==> minted.value !in s.broker.signals)
    case Renew(_, now, stamp, ttl) => s.clock <= now <= stamp && 0 < ttl <= MAX_TTL
    case Unsubscribe(_) => true
    case Synchronize(_, now, when, _) => s.clock <= now <= when
    case Begin(pid, _, limit) => pid !in s.pullers && 1 <= limit <= 100
    case Pass(pid, now) => pid in s.pullers && s.pullers[pid].Checking? && s.clock <= now
    case Wake(pid) =>
      && pid in s.pullers && s.pullers[pid].Waiting?
      && s.pullers[pid].token in s.broker.signals && s.broker.signals[s.pullers[pid].token]
    case GiveUp(pid) => pid in s.pullers && s.pullers[pid].Waiting?
  }

  // ... and what the clients do on top of that.
  predicate Enabled(p: Policy, s: System, step: Step) {
    && Possible(s, step)
    && (step.Begin? ==>
          && p.minLimit(step.token) <= step.limit
          && (p.shared(step.token) || forall q :: q in s.pullers ==> s.pullers[q].token != step.token))
  }

  function Record(log: map<Token, History>, to: set<Token>, e: Event): map<Token, History> {
    map t | t in log :: if t in to then log[t].(enqueued := log[t].enqueued + [e]) else log[t]
  }

  function Deliver(h: History, events: seq<Event>, first: nat): History {
    h.(got := h.got + events, at := h.at + seq(|events|, i requires 0 <= i => first + i))
  }

  function Next(s: System, step: Step): System
    requires Possible(s, step)
  {
    match step
    case Tick(current, now, when) =>
      var b := Ticked(s.broker, current, now, when);
      if current == s.broker.lastReady then s.(broker := b, clock := when)
      else s.(broker := b, clock := when,
              log := Record(s.log, b.subs.Keys, Event(when, !current, Changed)),
              broadcasts := s.broadcasts + [!current])
    case Create(minted, stamp, ttl, lockedAt) =>
      var b := Created(s.broker, minted, stamp, ttl);
      if minted.Some? && minted.value in b.subs then
        s.(broker := b, clock := lockedAt,
           log := s.log[minted.value := History(stamp, |s.broadcasts|, [], [], [])])
      else s.(broker := b, clock := lockedAt)
    case Renew(t, now, stamp, ttl) =>
      var b := Renewed(s.broker, t, now, stamp, ttl);
      s.(broker := b, clock := stamp,
         log := if t in b.subs && t in s.log then s.log[t := s.log[t].(anchor := stamp)] else s.log)
    case Unsubscribe(t) => s.(broker := Unsubscribed(s.broker, t))
    case Synchronize(t, now, when, ready) =>
      var b := Synchronized(s.broker, t, now, when, ready);
      s.(broker := b, clock := when,
         log := if t in b.subs then Record(s.log, {t}, Event(when, !ready, Initialized)) else s.log)
    case Begin(pid, t, limit) => s.(pullers := s.pullers[pid := Checking(t, limit, 1)])
    case Pass(pid, now) =>
      var pl := s.pullers[pid];
      var t := pl.token;
      var b := Passed(s.broker, t, now, pl.limit);
      var s' := s.(broker := b, clock := now, pullers := s.pullers - {pid});
      (match PassResult(s.broker, t, now, pl.limit)
       case Gone => s'
       case Batch(events, _) =>
         if t in s.log && |s.broker.subs[t].queue| <= |s.log[t].enqueued| then
           s'.(log := s.log[t := Deliver(s.log[t], events, |s.log[t].enqueued| - |s.broker.subs[t].queue|)])
         else s'
       case Blocked(_) => s'.(pullers := s.pullers[pid := Waiting(t, pl.limit, pl.pass)]))
    case Wake(pid) =>
      var pl := s.pullers[pid];
      s.(broker := Woken(s.broker, pl.token),
         pullers := s.pullers[pid := Checking(pl.token, pl.limit, pl.pass + 1)])
    case GiveUp(pid) => s.(pullers := s.pullers - {pid})
  }

  // Running a schedule; None when a step is not enabled where it is reached.
  function Run(p: Policy, s: System, steps: seq<Step>): Option<System>
    decreases |steps|
  {
    if steps == [] then Some(s)
    else if Enabled(p, s, steps[0]) then Run(p, Next(s, steps[0]), steps[1..])
    else None
  }

  ghost predicate Reachable(p: Policy, s: System) {
    exists ready: bool, clock: int, steps: seq<Step> :: Run(p, Init(ready, clock), steps) == Some(s)
  }

  // ---------------------------------------------------------------------
  // One subscription at a time
  // ---------------------------------------------------------------------

  datatype View = View(sub: Option<Subscription>, signal: Option<bool>, log: Option<History>)

  // All that any step can do to one subscription.
  datatype Effect =
    | Keep
    | Drop
    | Open(stamp: int, ttl: int, start: nat)
    | Extend(stamp: int, ttl: int)
    | Add(e: Event)
    | Take(n: nat)
    | Drain

  function Lookup<V>(m: map<Token, V>, t: Token): Option<V> {
    if t in m then Some(m[t]) else None
  }

  function ViewOf(s: System, t: Token): View {
    View(Lookup(s.broker.subs, t), Lookup(s.broker.signals, t), Lookup(s.log, t))
  }

  function EffectOn(s: System, step: Step, t: Token): Effect
    requires Possible(s, step)
  {
    var known := t in s.broker.subs;
    match step
    case Tick(current, now, when) =>
      if !known then Keep
      else if s.broker.subs[t].expires <= now then Drop
      else if current != s.broker.lastReady then Add(Event(when, !current, Changed))
      else Keep
    case Create(minted, stamp, ttl, _) =>
      if |Live(s.broker.subs, stamp)| < MAX_PULL_POINTS && minted == Some(t) then Open(stamp, ttl, |s.broadcasts|)
      else if known && s.broker.subs[t].expires <= stamp then Drop
      else Keep
    case Renew(u, now, stamp, ttl) =>
      if !known then Keep
      else if s.broker.subs[t].expires <= now then Drop
      else if t == u then Extend(stamp, ttl)
      else Keep
    case Unsubscribe(u) => if t == u && known then Drop else Keep
    case Synchronize(u, now, when, ready) =>
      if !known then Keep
      else if s.broker.subs[t].expires <= now then Drop
      else if t == u then Add(Event(when, !ready, Initialized))
      else Keep
    case Begin(_, _, _) => Keep
    case Pass(pid, now) =>
      if !known then Keep
      else if s.broker.subs[t].expires <= now then Drop
      else if t == s.pullers[pid].token && s.broker.subs[t].queue != [] then
        Take(if s.pullers[pid].limit <= |s.broker.subs[t].queue| then s.pullers[pid].limit
             else |s.broker.subs[t].queue|)
      else Keep
    case Wake(pid) => if t == s.pullers[pid].token then Drain else Keep
    case GiveUp(_) => Keep
  }

  function Act(v: View, eff: Effect): View {
    match eff
    case Keep => v
    case Drop => v.(sub := None)
    case Open(stamp, ttl, start) =>
      View(Some(Subscription(stamp + ttl, [])), Some(false), Some(History(stamp, start, [], [], [])))
    case Drain => v.(signal := Some(false))
    case Extend(stamp, ttl) =>
      if v.sub.None? || v.log.None? then v
      else v.(sub := Some(v.sub.value.(expires := stamp + ttl)), log := Some(v.log.value.(anchor := stamp)))
    case Add(e) =>
      if v.sub.None? || v.log.None? then v
      else View(Some(v.sub.value.(queue := Push(v.sub.value.queue, e))),
                Some(true),
                Some(v.log.value.(enqueued := v.log.value.enqueued + [e])))
    case Take(n) =>
      if v.sub.None? || v.log.None? || !(n <= |v.sub.value.queue| <= |v.log.value.enqueued|) then v
      else
        var queue, h := v.sub.value.queue, v.log.value;
        v.(sub := Some(v.sub.value.(queue := queue[n..])),
           log := Some(Deliver(h, queue[..n], |h.enqueued| - |queue|)))
  }

  // What each subscription's own invariant says: it is logged, it expires at
  // most an hour after its lifetime was last set, and its queue is the tail of
  // what was enqueued, at most 64 long.
  ghost predicate Sound(v: View, clock: int) {
    && (v.log.Some? <==> v.signal.Some?)
    && (v.sub.Some? ==>
          && v.log.Some?
          && v.log.value.anchor <= clock
          && v.sub.value.expires <= v.log.value.anchor + MAX_TTL
          && |v.sub.value.queue| <= MAX_QUEUE
          && |v.sub.value.queue| <= |v.log.value.enqueued|
          && v.sub.value.queue == v.log.value.enqueued[|v.log.value.enqueued| - |v.sub.value.queue|..])
  }

  ghost predicate AllSound(s: System) {
    forall t: Token :: Sound(ViewOf(s, t), s.clock)
  }

  // A step acts on each subscription exactly as its effect says.

  lemma TickView(s: System, step: Step, t: Token)
    requires AllSound(s) && Possible(s, step) && step.Tick?
    ensures ViewOf(Next(s, step), t) == Act(ViewOf(s, t), EffectOn(s, step, t))
  {
    assert Sound(ViewOf(s, t), s.clock);
  }

  lemma CreateView(s: System, step: Step, t: Token)
    requires AllSound(s) && Possible(s, step) && step.Create?
    ensures ViewOf(Next(s, step), t) == Act(ViewOf(s, t), EffectOn(s, step, t))
  {
    assert Sound(ViewOf(s, t), s.clock);
  }

  lemma RenewView(s: System, step: Step, t: Token)
    requires AllSound(s) && Possible(s, step) && step.Renew?
    ensures ViewOf(Next(s, step), t) == Act(ViewOf(s, t), EffectOn(s, step, t))
  {
    assert Sound(ViewOf(s, t), s.clock);
    assert Sound(ViewOf(s, step.token), s.clock);
  }

  lemma SynchronizeView(s: System, step: Step, t: Token)
    requires AllSound(s) && Possible(s, step) && step.Synchronize?
    ensures ViewOf(Next(s, step), t) == Act(ViewOf(s, t), EffectOn(s, step, t))
  {
    assert Sound(ViewOf(s, t), s.clock);
    assert Sound(ViewOf(s, step.token), s.clock);
  }

  lemma PassView(s: System, step: Step, t: Token)
    requires AllSound(s) && Possible(s, step) && step.Pass?
    ensures ViewOf(Next(s, step), t) == Act(ViewOf(s, t), EffectOn(s, step, t))
  {
    assert Sound(ViewOf(s, t), s.clock);
    assert Sound(ViewOf(s, s.pullers[step.pid].token), s.clock);
  }

  lemma NextView(s: System, step: Step, t: Token)
    requires AllSound(s) && Possible(s, step)
    ensures ViewOf(Next(s, step), t) == Act(ViewOf(s, t), EffectOn(s, step, t))
  {
    assert Sound(ViewOf(s, t), s.clock);
    match step
    case Tick(_, _, _) => TickView(s, step, t);
    case Create(_, _, _, _) => CreateView(s, step, t);
    case Renew(_, _, _, _) => RenewView(s, step, t);
    case Synchronize(_, _, _, _) => SynchronizeView(s, step, t);
    case Pass(_, _) => PassView(s, step, t);
    case _ =>
  }

  // What the schedule guarantees about the instants and waits of an effect.
  ghost predicate Fits(v: View, eff: Effect, clock: int) {
    match eff
    case Open(stamp, ttl, _) => stamp <= clock && ttl <= MAX_TTL
    case Extend(stamp, ttl) => stamp <= clock && ttl <= MAX_TTL
    case Take(n) => v.sub.Some? && n <= |v.sub.value.queue|
    case Drain => v.log.Some?
    case _ => true
  }

  lemma EffectFits(s: System, step: Step, t: Token)
    requires AllSound(s) && Possible(s, step)
    ensures Fits(ViewOf(s, t), EffectOn(s, step, t), Next(s, step).clock)
    ensures s.clock <= Next(s, step).clock
  {
    assert Sound(ViewOf(s, t), s.clock);
  }

  // Pushing keeps a queue the tail of what was enqueued.
  lemma PushedTail(queue: seq<Event>, enqueued: seq<Event>, e: Event)
    requires |queue| <= MAX_QUEUE && |queue| <= |enqueued| && queue == enqueued[|enqueued| - |queue|..]
    ensures var q, all := Push(queue, e), enqueued + [e];
      |q| <= MAX_QUEUE && |q| <= |all| && q == all[|all| - |q|..]
  {
  }

  lemma SoundAct(v: View, eff: Effect, before: int, after: int)
    requires Sound(v, before) && before <= after && Fits(v, eff, after)
    ensures Sound(Act(v, eff), after)
  {
    match eff
    case Add(e) =>
      if v.sub.Some? {
        PushedTail(v.sub.value.queue, v.log.value.enqueued, e);
      }
    case _ =>
  }

  lemma SoundStep(s: System, step: Step)
    requires AllSound(s) && Possible(s, step)
    ensures AllSound(Next(s, step))
  {
    forall t: Token
      ensures Sound(ViewOf(Next(s, step), t), Next(s, step).clock)
    {
      assert Sound(ViewOf(s, t), s.clock);
      NextView(s, step, t);
      EffectFits(s, step, t);
      SoundAct(ViewOf(s, t), EffectOn(s, step, t), s.clock, Next(s, step).clock);
    }
  }

  // ---------------------------------------------------------------------
  // At most 32 subscriptions
  // ---------------------------------------------------------------------

  lemma SubsetSize<T>(a: set<T>, b: set<T>)
    requires a <= b
    ensures |a| <= |b|
  {
    assert b == a + (b - a);
  }

  lemma OneMore(subs: map<Token, Subscription>, t: Token, sub: Subscription)
    ensures |subs[t := sub]| <= |subs| + 1
  {
    assert subs[t := sub].Keys == subs.Keys + {t};
  }

  // Only Create adds a subscription.
  lemma NoneAdded(s: System, step: Step)
    requires Possible(s, step) && !step.Create?
    ensures Next(s, step).broker.subs.Keys <= s.broker.subs.Keys
  {
    match step
    case Tick(current, now, when) =>
      assert Ticked(s.broker, current, now, when).subs.Keys == Clean(s.broker, now).subs.Keys;
    case Renew(t, now, stamp, ttl) =>
      assert Renewed(s.broker, t, now, stamp, ttl).subs.Keys == Clean(s.broker, now).subs.Keys;
    case Synchronize(t, now, when, ready) =>
      assert Synchronized(s.broker, t, now, when, ready).subs.Keys == Clean(s.broker, now).subs.Keys;
    case Pass(pid, now) =>
      var pl := s.pullers[pid];
      assert Passed(s.broker, pl.token, now, pl.limit).subs.Keys == Clean(s.broker, now).subs.Keys;
    case _ =>
  }

  lemma CrowdStep(s: System, step: Step)
    requires Possible(s, step) && |s.broker.subs| <= MAX_PULL_POINTS
    ensures |Next(s, step).broker.subs| <= MAX_PULL_POINTS
  {
    if step.Create? {
      var live := Live(s.broker.subs, step.stamp);
      SubsetSize(live.Keys, s.broker.subs.Keys);
      if step.minted.Some? {
        OneMore(live, step.minted.value, Subscription(step.stamp + step.ttl, []));
      }
    } else {
      NoneAdded(s, step);
      SubsetSize(Next(s, step).broker.subs.Keys, s.broker.subs.Keys);
    }
  }

  // ---------------------------------------------------------------------
  // Delivery
  // ---------------------------------------------------------------------

  // How many of the events enqueued have left the queue.
  function Left(v: View): int
    requires v.sub.Some? && v.log.Some?
  {
    |v.log.value.enqueued| - |v.sub.value.queue|
  }

  // The events handed out are the enqueued ones at increasing positions, all
  // before the queue; an event lost was overtaken by 64 newer ones.
  ghost predicate Faithful(v: View) {
    v.log.Some? ==>
      var h := v.log.value;
      && |h.got| == |h.at|
      && (forall i :: 0 <= i < |h.at| ==> h.at[i] < |h.enqueued| && h.got[i] == h.enqueued[h.at[i]])
      && (forall i, j :: 0 <= i < j < |h.at| ==> h.at[i] < h.at[j])
      && (v.sub.Some? ==>
            && (forall i :: 0 <= i < |h.at| ==> h.at[i] < Left(v))
            && (forall k: nat :: k < Left(v) && k !in h.at ==> k + MAX_QUEUE < |h.enqueued|))
  }

  lemma FaithfulTake(v: View, n: nat, clock: int)
    requires Sound(v, clock) && Faithful(v) && v.sub.Some? && n <= |v.sub.value.queue|
    ensures Faithful(Act(v, Take(n)))
  {
    var h, first := v.log.value, Left(v);
    var h' := Deliver(h, v.sub.value.queue[..n], first);
    assert Act(v, Take(n)).log == Some(h');
    forall i | 0 <= i < |h'.at|
      ensures h'.at[i] < first + n && h'.got[i] == h'.enqueued[h'.at[i]]
    {
      assert i < |h.at| ==> h'.at[i] == h.at[i] && h'.got[i] == h.got[i];
      assert i >= |h.at| ==> h'.at[i] == first + (i - |h.at|);
    }
    forall k: nat | k < first + n
      ensures k in h'.at || k + MAX_QUEUE < |h'.enqueued|
    {
      if k >= first {
        assert h'.at[|h.at| + k - first] == k;
      }
    }
  }

  lemma FaithfulAdd(v: View, e: Event, clock: int)
    requires Sound(v, clock) && Faithful(v)
    ensures Faithful(Act(v, Add(e)))
  {
  }

  lemma FaithfulKept(v: View, eff: Effect)
    requires Faithful(v) && !eff.Take? && !eff.Add?
    ensures Faithful(Act(v, eff))
  {
  }

  lemma FaithfulAct(v: View, eff: Effect, clock: int)
    requires Sound(v, clock) && Faithful(v) && Fits(v, eff, clock)
    ensures Faithful(Act(v, eff))
  {
    match eff
    case Take(n) => FaithfulTake(v, n, clock);
    case Add(e) => FaithfulAdd(v, e, clock);
    case _ => FaithfulKept(v, eff);
  }

  // ---------------------------------------------------------------------
  // Changed events
  // ---------------------------------------------------------------------

  function ChangedStates(es: seq<Event>): seq<bool> {
    if es == [] then []
    else
      var last := es[|es| - 1];
      ChangedStates(es[..|es| - 1]) + (if last.operation.Changed? then [last.videoLoss] else [])
  }

  lemma {:induction false} ChangedStatesSplit(a: seq<Event>, b: seq<Event>)
    ensures ChangedStates(a + b) == ChangedStates(a) + ChangedStates(b)
    decreases |b|
  {
    if b == [] {
      assert a + b == a;
    } else {
      assert (a + b)[..|a + b| - 1] == a + b[..|b| - 1];
      ChangedStatesSplit(a, b[..|b| - 1]);
    }
  }

  // The Changed events enqueued for a subscription are the broadcasts made
  // since it was created.
  ghost predicate Tracks(v: View, broadcasts: seq<bool>) {
    v.sub.Some? && v.log.Some? ==>
      && v.log.value.start <= |broadcasts|
      && ChangedStates(v.log.value.enqueued) == broadcasts[v.log.value.start..]
  }

  // Broadcasts alternate and the latest is the negation of lastReady.
  ghost predicate Alternating(s: System) {
    && (forall i :: 0 <= i < |s.broadcasts| - 1 ==> s.broadcasts[i] != s.broadcasts[i + 1])
    && (s.broadcasts != [] ==> s.broadcasts[|s.broadcasts| - 1] == !s.broker.lastReady)
  }

  // What the schedule guarantees about the broadcasts that go with an effect.
  ghost predicate Told(v: View, eff: Effect, before: seq<bool>, after: seq<bool>) {
    match eff
    case Drop => true
    case Open(_, _, start) => start == |before| && after == before
    case Add(e) =>
      v.sub.Some? && v.log.Some? && after == before + if e.operation.Changed? then [e.videoLoss] else []
    case _ => v.sub.None? || after == before
  }

  lemma EffectTold(s: System, step: Step, t: Token)
    requires AllSound(s) && Possible(s, step)
    ensures Told(ViewOf(s, t), EffectOn(s, step, t), s.broadcasts, Next(s, step).broadcasts)
  {
    assert Sound(ViewOf(s, t), s.clock);
  }

  lemma TracksAdd(v: View, e: Event, before: seq<bool>, after: seq<bool>)
    requires Tracks(v, before) && Told(v, Add(e), before, after)
    ensures Tracks(Act(v, Add(e)), after)
  {
    var h := v.log.value;
    assert (h.enqueued + [e])[..|h.enqueued|] == h.enqueued;
    assert ChangedStates(h.enqueued + [e]) == before[h.start..] + after[|before|..];
    assert after[h.start..] == before[h.start..] + after[|before|..];
  }

  lemma TracksAct(v: View, eff: Effect, before: seq<bool>, after: seq<bool>)
    requires Tracks(v, before) && Told(v, eff, before, after)
    ensures Tracks(Act(v, eff), after)
  {
    if eff.Add? {
      TracksAdd(v, eff.e, before, after);
    }
  }

  lemma TracksStep(s: System, step: Step, t: Token)
    requires AllSound(s) && Possible(s, step) && Tracks(ViewOf(s, t), s.broadcasts)
    ensures Tracks(ViewOf(Next(s, step), t), Next(s, step).broadcasts)
  {
    NextView(s, step, t);
    EffectTold(s, step, t);
    TracksAct(ViewOf(s, t), EffectOn(s, step, t), s.broadcasts, Next(s, step).broadcasts);
  }

  lemma AlternatingStep(s: System, step: Step)
    requires Possible(s, step) && Alternating(s)
    ensures Alternating(Next(s, step))
  {
  }

  // ---------------------------------------------------------------------
  // Wake-ups
  // ---------------------------------------------------------------------

  // Every limit respects the policy, and two outstanding pulls are on one
  // subscription only where the policy says so.
  ghost predicate Served(p: Policy, s: System) {
    && (forall q :: q in s.pullers ==> p.minLimit(s.pullers[q].token) <= s.pullers[q].limit)
    && (forall q, r :: q in s.pullers && r in s.pullers && q != r && s.pullers[q].token == s.pullers[r].token ==>
          p.shared(s.pullers[q].token))
  }

  predicate Pending(s: System, t: Token) {
    t in s.broker.subs && s.broker.subs[t].queue != []
  }

  predicate Signalled(s: System, t: Token) {
    t in s.broker.signals && s.broker.signals[t]
  }

  ghost predicate AboutToCheck(s: System, t: Token) {
    exists r :: r in s.pullers && s.pullers[r].Checking? && s.pullers[r].token == t
  }

  // No lost wake-up on t: a puller blocked there beside a non-empty queue will
  // be woken, or another puller is on its way to that queue.
  ghost predicate NoLostWakeup(s: System, t: Token) {
    forall q :: q in s.pullers && s.pullers[q].Waiting? && s.pullers[q].token == t && Pending(s, t) ==>
      Signalled(s, t) || AboutToCheck(s, t)
  }

  predicate Adequate(p: Policy, t: Token) {
    !p.shared(t) || p.minLimit(t) >= 64
  }

  lemma ServedStep(p: Policy, s: System, step: Step)
    requires Served(p, s) && Enabled(p, s, step)
    ensures Served(p, Next(s, step))
  {
  }

  lemma WakeupKept(p: Policy, s: System, step: Step, t: Token, q: nat)
    requires Adequate(p, t) && AllSound(s) && Served(p, s) && NoLostWakeup(s, t) && Enabled(p, s, step)
    requires var s' := Next(s, step);
             q in s'.pullers && s'.pullers[q].Waiting? && s'.pullers[q].token == t && Pending(s', t)
    ensures Signalled(Next(s, step), t) || AboutToCheck(Next(s, step), t)
  {
    var s' := Next(s, step);
    assert Sound(ViewOf(s, t), s.clock);
    NextView(s, step, t);
    var v, eff := ViewOf(s, t), EffectOn(s, step, t);
    assert ViewOf(s', t) == Act(v, eff);
    match eff
    case Add(_) =>
    case Drain =>
      assert s'.pullers[step.pid].Checking?;
    case Take(_) =>
      assert false;
    case Open(_, _, _) => assert false;
    case Drop => assert false;
    case _ =>
      assert q in s.pullers && s.pullers[q] == s'.pullers[q];
      if !Signalled(s, t) {
        var r :| r in s.pullers && s.pullers[r].Checking? && s.pullers[r].token == t;
        assert r in s'.pullers && s'.pullers[r] == s.pullers[r];
      }
  }

  lemma WakeupStep(p: Policy, s: System, step: Step, t: Token)
    requires Adequate(p, t) && AllSound(s) && Served(p, s) && NoLostWakeup(s, t) && Enabled(p, s, step)
    ensures NoLostWakeup(Next(s, step), t)
  {
    var s' := Next(s, step);
    forall q | q in s'.pullers && s'.pullers[q].Waiting? && s'.pullers[q].token == t && Pending(s', t)
      ensures Signalled(s', t) || AboutToCheck(s', t)
    {
      WakeupKept(p, s, step, t, q);
    }
  }

  // ---------------------------------------------------------------------
  // At most three passes
  // ---------------------------------------------------------------------

  // A full channel means something once the stale signal a pull may find is
  // spent: the queue is not empty or the entry is gone. The second pass starts
  // from there, and the third finds an event or a dead entry.
  predicate PassBoundedIn(v: View, pl: Puller) {
    var found := v.sub.None? || v.sub.value.queue != [];
    && 1 <= pl.pass <= 3
    && (pl.Waiting? ==> pl.pass <= 2 && v.signal.Some?)
    && (pl.pass >= 2 ==> v.signal.Some?)
    && (pl.pass == 2 && v.signal == Some(true) ==> found)
    && (pl.pass == 3 ==> found)
  }

  predicate PassBounded(s: System, pl: Puller) {
    PassBoundedIn(ViewOf(s, pl.token), pl)
  }

  // Every pull alone on its subscription keeps its bound.
  ghost predicate PassesBounded(p: Policy, s: System) {
    forall q :: q in s.pullers && !p.shared(s.pullers[q].token) ==> PassBounded(s, s.pullers[q])
  }

  // Only taking events or emptying the channel can break a puller's bound, or
  // creating the subscription anew.
  lemma PassBoundedAct(v: View, eff: Effect, pl: Puller)
    requires PassBoundedIn(v, pl) && !eff.Take? && !eff.Drain? && (eff.Open? ==> v.signal.None?)
    ensures PassBoundedIn(Act(v, eff), pl)
  {
  }

  // A puller that the step does not move keeps its bound: its own subscription
  // is drained by nobody else.
  lemma PassKept(p: Policy, s: System, step: Step, q: nat)
    requires AllSound(s) && Served(p, s) && Enabled(p, s, step)
    requires q in s.pullers && !p.shared(s.pullers[q].token)
    requires q in Next(s, step).pullers && Next(s, step).pullers[q] == s.pullers[q]
    requires PassBounded(s, s.pullers[q])
    ensures PassBounded(Next(s, step), s.pullers[q])
  {
    var t := s.pullers[q].token;
    var eff := EffectOn(s, step, t);
    NextView(s, step, t);
    assert !eff.Take? && !eff.Drain?;
    PassBoundedAct(ViewOf(s, t), eff, s.pullers[q]);
  }

  // ... and so does the one that moves.
  lemma PassMoved(p: Policy, s: System, step: Step, q: nat)
    requires AllSound(s) && Enabled(p, s, step)
    requires q in Next(s, step).pullers && (q in s.pullers ==> Next(s, step).pullers[q] != s.pullers[q])
    requires q in s.pullers ==> PassBounded(s, s.pullers[q])
    ensures PassBounded(Next(s, step), Next(s, step).pullers[q])
  {
    var t := Next(s, step).pullers[q].token;
    assert Sound(ViewOf(s, t), s.clock);
    NextView(s, step, t);
    assert ViewOf(Next(s, step), t) == Act(ViewOf(s, t), EffectOn(s, step, t));
  }

  lemma PassesStep(p: Policy, s: System, step: Step)
    requires AllSound(s) && Served(p, s) && PassesBounded(p, s) && Enabled(p, s, step)
    ensures PassesBounded(p, Next(s, step))
  {
    var s' := Next(s, step);
    forall q | q in s'.pullers && !p.shared(s'.pullers[q].token)
      ensures PassBounded(s', s'.pullers[q])
    {
      if q in s.pullers && s'.pullers[q] == s.pullers[q] {
        PassKept(p, s, step, q);
      } else {
        PassMoved(p, s, step, q);
      }
    }
  }

  // ---------------------------------------------------------------------
  // Every run
  // ---------------------------------------------------------------------

  ghost predicate Inv(p: Policy, s: System) {
    && AllSound(s)
    && |s.broker.subs| <= MAX_PULL_POINTS
    && (forall t: Token :: Faithful(ViewOf(s, t)))
    && (forall t: Token :: Tracks(ViewOf(s, t), s.broadcasts))
    && Alternating(s)
    && Served(p, s)
    && (forall t: Token :: Adequate(p, t) ==> NoLostWakeup(s, t))
    && PassesBounded(p, s)
  }

  lemma InvStep(p: Policy, s: System, step: Step)
    requires Inv(p, s) && Enabled(p, s, step)
    ensures Inv(p, Next(s, step))
  {
    SoundStep(s, step);
    CrowdStep(s, step);
    forall t: Token
      ensures Faithful(ViewOf(Next(s, step), t)) && Tracks(ViewOf(Next(s, step), t), Next(s, step).broadcasts)
    {
      assert Sound(ViewOf(s, t), s.clock) && Faithful(ViewOf(s, t)) && Tracks(ViewOf(s, t), s.broadcasts);
      NextView(s, step, t);
      EffectFits(s, step, t);
      FaithfulAct(ViewOf(s, t), EffectOn(s, step, t), Next(s, step).clock);
      TracksStep(s, step, t);
    }
    AlternatingStep(s, step);
    ServedStep(p, s, step);
    forall t: Token | Adequate(p, t)
      ensures NoLostWakeup(Next(s, step), t)
    {
      WakeupStep(p, s, step, t);
    }
    PassesStep(p, s, step);
  }

  lemma {:induction false} InvRun(p: Policy, s: System, steps: seq<Step>)
    requires Inv(p, s) && Run(p, s, steps).Some?
    ensures Inv(p, Run(p, s, steps).value)
    decreases |steps|
  {
    if steps != [] {
      InvStep(p, s, steps[0]);
      InvRun(p, Next(s, steps[0]), steps[1..]);
    }
  }

  lemma InvReachable(p: Policy, s: System)
    requires Reachable(p, s)
    ensures Inv(p, s)
  {
    var ready, clock, steps :| Run(p, Init(ready, clock), steps) == Some(s);
    InvRun(p, Init(ready, clock), steps);
  }

  // Every reachable broker has at most 32 subscriptions, each expiring within
  // an hour of the last instant its lifetime was set.
  lemma SubscriptionSafety(p: Policy, s: System, t: Token)
    requires Reachable(p, s)
    ensures |s.broker.subs| <= 32
    ensures t in s.broker.subs ==>
              && t in s.log && s.log[t].anchor <= s.clock
              && s.broker.subs[t].expires <= s.log[t].anchor + 3600 * SECOND
  {
    InvReachable(p, s);
    assert Sound(ViewOf(s, t), s.clock);
  }

  // The queue is the tail of what was enqueued; what was handed out precedes
  // it, in order and without duplicates; the newest event is queued or handed
  // out; and an event that is neither was overtaken by 64 newer ones.
  lemma DeliveryRefinement(p: Policy, s: System, t: Token)
    requires Reachable(p, s) && t in s.broker.subs
    ensures t in s.log
    ensures var queue, h := s.broker.subs[t].queue, s.log[t];
      var left := |h.enqueued| - |queue|;
      && |queue| <= 64 && left >= 0 && queue == h.enqueued[left..]
      && |h.got| == |h.at|
      && (forall i :: 0 <= i < |h.at| ==> h.at[i] < left && h.got[i] == h.enqueued[h.at[i]])
      && (forall i, j :: 0 <= i < j < |h.at| ==> h.at[i] < h.at[j])
      && (forall k: nat :: k < left && k !in h.at ==> k + 64 < |h.enqueued|)
      && (h.enqueued != [] && queue == [] ==>
            h.got != [] && h.at[|h.at| - 1] == |h.enqueued| - 1)
  {
    InvReachable(p, s);
    assert Sound(ViewOf(s, t), s.clock) && Faithful(ViewOf(s, t));
    var queue, h := s.broker.subs[t].queue, s.log[t];
    if h.enqueued != [] && queue == [] {
      var newest: nat := |h.enqueued| - 1;
      assert newest < Left(ViewOf(s, t));
      assert newest in h.at;
      var i :| 0 <= i < |h.at| && h.at[i] == newest;
    }
  }

  // What a step may do to a queue: one event more below 64; one event more for
  // the oldest at exactly 64; or handing out some of the oldest, if any.
  ghost predicate QueueMoves(before: seq<Event>, after: seq<Event>, handed: seq<Event>) {
    || (|before| < 64 && handed == [] && exists e :: after == before + [e])
    || (|before| == 64 && handed == [] && exists e :: after == before[1..] + [e])
    || before == handed + after
  }

  ghost predicate ViewMoves(v: View, v': View) {
    && v.sub.Some? && v.log.Some? && v'.sub.Some? && v'.log.Some?
    && v.log.value.got <= v'.log.value.got
    && QueueMoves(v.sub.value.queue, v'.sub.value.queue, v'.log.value.got[|v.log.value.got|..])
  }

  lemma MovesAct(v: View, eff: Effect, before: int, after: int)
    requires Sound(v, before) && Fits(v, eff, after) && v.sub.Some? && !eff.Open? && !eff.Drop?
    ensures ViewMoves(v, Act(v, eff))
  {
    var queue := v.sub.value.queue;
    match eff
    case Add(e) =>
      assert Act(v, eff).sub.value.queue == Push(queue, e);
    case Take(n) =>
      assert Act(v, eff).log.value.got == v.log.value.got + queue[..n];
      assert queue == queue[..n] + queue[n..];
    case _ =>
  }

  // A subscription is not opened twice.
  lemma NotReopened(s: System, step: Step, t: Token)
    requires AllSound(s) && Possible(s, step) && t in s.log
    ensures !EffectOn(s, step, t).Open?
  {
    assert Sound(ViewOf(s, t), s.clock);
  }

  lemma StepMoves(s: System, step: Step, t: Token)
    requires AllSound(s) && Possible(s, step) && t in s.broker.subs && t in Next(s, step).broker.subs
    ensures ViewMoves(ViewOf(s, t), ViewOf(Next(s, step), t))
  {
    assert Sound(ViewOf(s, t), s.clock);
    NextView(s, step, t);
    NotReopened(s, step, t);
    EffectFits(s, step, t);
    MovesAct(ViewOf(s, t), EffectOn(s, step, t), s.clock, Next(s, step).clock);
  }

  // Nothing is dropped unless 64 events were already pending: over any step of
  // any run, the events leaving a subscription's queue are handed to a caller,
  // but for the oldest of a full one.
  lemma NothingDroppedEarly(p: Policy, s: System, step: Step, t: Token)
    requires Reachable(p, s) && Enabled(p, s, step)
    requires t in s.broker.subs && t in Next(s, step).broker.subs
    ensures t in s.log && t in Next(s, step).log && s.log[t].got <= Next(s, step).log[t].got
    ensures QueueMoves(s.broker.subs[t].queue, Next(s, step).broker.subs[t].queue,
                       Next(s, step).log[t].got[|s.log[t].got|..])
  {
    InvReachable(p, s);
    StepMoves(s, step, t);
    var s' := Next(s, step);
    assert ViewMoves(ViewOf(s, t), ViewOf(s', t));
  }

  // The Changed broadcasts alternate, the latest is the negation of
  // lastReady, and the Changed events in any queue are the last broadcasts
  // since the subscription was created.
  lemma ChangedTracksReadiness(p: Policy, s: System, t: Token)
    requires Reachable(p, s) && t in s.broker.subs
    ensures Alternating(s)
    ensures t in s.log && s.log[t].start <= |s.broadcasts|
    ensures exists k :: s.log[t].start <= k <= |s.broadcasts|
                        && ChangedStates(s.broker.subs[t].queue) == s.broadcasts[k..]
  {
    InvReachable(p, s);
    assert Sound(ViewOf(s, t), s.clock) && Tracks(ViewOf(s, t), s.broadcasts);
    var queue, h := s.broker.subs[t].queue, s.log[t];
    var early := h.enqueued[..|h.enqueued| - |queue|];
    assert h.enqueued == early + queue;
    ChangedStatesSplit(early, queue);
    var k := h.start + |ChangedStates(early)|;
    assert s.broadcasts[h.start..][|ChangedStates(early)|..] == s.broadcasts[k..];
  }

  // A drained subscriber whose last event was a Changed ends on the current
  // state, even after overflow and whatever synchronization points came
  // before.
  lemma DrainedSubscriberIsCurrent(p: Policy, s: System, t: Token)
    requires Reachable(p, s) && t in s.broker.subs && s.broker.subs[t].queue == []
    requires t in s.log && s.log[t].enqueued != []
    requires s.log[t].enqueued[|s.log[t].enqueued| - 1].operation.Changed?
    ensures s.log[t].got != []
    ensures s.log[t].got[|s.log[t].got| - 1].videoLoss == !s.broker.lastReady
  {
    DeliveryRefinement(p, s, t);
    InvReachable(p, s);
    assert Tracks(ViewOf(s, t), s.broadcasts);
    var h := s.log[t];
    var states := ChangedStates(h.enqueued);
    assert states[|states| - 1] == h.enqueued[|h.enqueued| - 1].videoLoss;
  }

  // Later on: the subscription's history started where it did, and lastReady
  // is what it was unless something was broadcast.
  ghost predicate Later(s: System, s': System, t: Token) {
    && t in s.log && t in s'.log && s'.log[t].start == s.log[t].start
    && |s.broadcasts| <= |s'.broadcasts|
    && (|s.broadcasts| == |s'.broadcasts| ==> s'.broker.lastReady == s.broker.lastReady)
  }

  // Nothing but a broadcast changes lastReady.
  lemma BroadcastsTell(s: System, step: Step)
    requires Possible(s, step)
    ensures |s.broadcasts| <= |Next(s, step).broadcasts|
    ensures |s.broadcasts| == |Next(s, step).broadcasts| ==> Next(s, step).broker.lastReady == s.broker.lastReady
  {
  }

  lemma StartKept(v: View, eff: Effect)
    requires v.log.Some? && !eff.Open?
    ensures Act(v, eff).log.Some? && Act(v, eff).log.value.start == v.log.value.start
  {
  }

  lemma LaterStep(s: System, step: Step, t: Token)
    requires AllSound(s) && Possible(s, step) && t in s.log
    ensures Later(s, Next(s, step), t)
  {
    BroadcastsTell(s, step);
    NextView(s, step, t);
    NotReopened(s, step, t);
    StartKept(ViewOf(s, t), EffectOn(s, step, t));
    var v' := ViewOf(Next(s, step), t);
    assert v'.log.Some? && v'.log.value.start == s.log[t].start;
  }

  lemma {:induction false} LaterRun(p: Policy, s: System, steps: seq<Step>, t: Token)
    requires Inv(p, s) && Run(p, s, steps).Some? && t in s.log
    ensures Later(s, Run(p, s, steps).value, t)
    decreases |steps|
  {
    if steps != [] {
      LaterStep(s, steps[0], t);
      InvStep(p, s, steps[0]);
      LaterRun(p, Next(s, steps[0]), steps[1..], t);
    }
  }

  // Two states with the same events enqueued for a subscription, one after the
  // other, have the same lastReady.
  lemma NothingBroadcast(s: System, s': System, t: Token)
    requires AllSound(s) && AllSound(s') && Later(s, s', t) && t in s.broker.subs && t in s'.broker.subs
    requires Tracks(ViewOf(s, t), s.broadcasts) && Tracks(ViewOf(s', t), s'.broadcasts)
    requires s'.log[t].enqueued == s.log[t].enqueued
    ensures s'.broker.lastReady == s.broker.lastReady
  {
    assert |s.broadcasts| - s.log[t].start == |ChangedStates(s.log[t].enqueued)|;
  }

  // A synchronization point samples readiness for itself. When its event is
  // the last one of a drained subscriber, the subscriber is on the current
  // state exactly when that sample agreed with lastReady, however much later.
  lemma SynchronizedIsCurrentExactly(p: Policy, s: System, step: Step, steps: seq<Step>, t: Token)
    requires Reachable(p, s) && step.Synchronize? && step.token == t && Enabled(p, s, step)
    requires t in Next(s, step).broker.subs && Run(p, Next(s, step), steps).Some?
    requires t in Next(s, step).log
    requires var s' := Run(p, Next(s, step), steps).value;
      && t in s'.broker.subs && s'.broker.subs[t].queue == []
      && t in s'.log && s'.log[t].enqueued == Next(s, step).log[t].enqueued
    ensures var s' := Run(p, Next(s, step), steps).value;
      && s'.log[t].got != []
      && (s'.log[t].got[|s'.log[t].got| - 1].videoLoss == !s'.broker.lastReady <==> step.ready == s.broker.lastReady)
  {
    var s1, s' := Next(s, step), Run(p, Next(s, step), steps).value;
    InvReachable(p, s);
    InvStep(p, s, step);
    InvRun(p, s1, steps);
    SynchronizationAdds(s, step, t);
    LaterRun(p, s1, steps, t);
    assert Tracks(ViewOf(s1, t), s1.broadcasts) && Tracks(ViewOf(s', t), s'.broadcasts);
    NothingBroadcast(s1, s', t);
    LastHandedOut(p, s', t);
  }

  lemma SynchronizationAdds(s: System, step: Step, t: Token)
    requires AllSound(s) && Possible(s, step) && step.Synchronize? && step.token == t
    requires t in Next(s, step).broker.subs
    ensures var s1 := Next(s, step);
      && t in s1.log && s1.log[t].enqueued != []
      && s1.log[t].enqueued[|s1.log[t].enqueued| - 1] == Event(step.when, !step.ready, Initialized)
      && s1.broker.lastReady == s.broker.lastReady
  {
    assert Sound(ViewOf(s, t), s.clock);
    NextView(s, step, t);
    assert ViewOf(Next(s, step), t) == Act(ViewOf(s, t), Add(Event(step.when, !step.ready, Initialized)));
  }

  // A drained subscriber was handed its newest event last.
  lemma LastHandedOut(p: Policy, s: System, t: Token)
    requires Inv(p, s) && t in s.broker.subs && s.broker.subs[t].queue == []
    requires t in s.log && s.log[t].enqueued != []
    ensures s.log[t].got != [] && s.log[t].got[|s.log[t].got| - 1] == s.log[t].enqueued[|s.log[t].enqueued| - 1]
  {
    assert Sound(ViewOf(s, t), s.clock) && Faithful(ViewOf(s, t));
    var h := s.log[t];
    var newest: nat := |h.enqueued| - 1;
    assert newest < Left(ViewOf(s, t));
    assert newest in h.at;
    var i :| 0 <= i < |h.at| && h.at[i] == newest;
  }

  // A pull alone on its subscription, blocked beside a queue with something in
  // it, always has its channel full, whatever is shared elsewhere.
  lemma LonePullIsSignalled(p: Policy, s: System, q: nat)
    requires Reachable(p, s)
    requires q in s.pullers && s.pullers[q].Waiting? && Pending(s, s.pullers[q].token)
    requires !p.shared(s.pullers[q].token)
    ensures Signalled(s, s.pullers[q].token)
  {
    InvReachable(p, s);
    assert NoLostWakeup(s, s.pullers[q].token);
  }

  // ... and goes round its loop at most three times.
  lemma ThreePassesSuffice(p: Policy, s: System, q: nat)
    requires Reachable(p, s) && q in s.pullers && !p.shared(s.pullers[q].token)
    ensures s.pullers[q].pass <= 3
    ensures s.pullers[q].Waiting? ==> s.pullers[q].pass <= 2
  {
    InvReachable(p, s);
    assert PassBoundedIn(ViewOf(s, s.pullers[q].token), s.pullers[q]);
  }

  // A pull can always go on: a pass takes the lock, a wait ends at its
  // deadline, and neither end of it touches anything else.
  lemma PullGoesOn(p: Policy, s: System, q: nat)
    requires Reachable(p, s) && q in s.pullers
    ensures s.pullers[q].Checking? ==>
              && Enabled(p, s, Pass(q, s.clock))
              && Next(s, Pass(q, s.clock)).pullers.Keys <= s.pullers.Keys
    ensures s.pullers[q].Waiting? ==>
              && Enabled(p, s, GiveUp(q)) && q !in Next(s, GiveUp(q)).pullers
              && Next(s, GiveUp(q)).broker == s.broker
    ensures s.pullers[q].Waiting? && Signalled(s, s.pullers[q].token) ==> Enabled(p, s, Wake(q))
  {
  }

  // Nothing else ever waits: in every state the ticker, and any client with any
  // subscription, can take its turn.
  lemma OthersGoOn(p: Policy, s: System, t: Token, ready: bool, ttl: int)
    requires 0 < ttl <= 3600 * SECOND
    ensures Enabled(p, s, Tick(ready, s.clock, s.clock))
    ensures Enabled(p, s, Renew(t, s.clock, s.clock, ttl))
    ensures Enabled(p, s, Synchronize(t, s.clock, s.clock, ready))
    ensures Enabled(p, s, Unsubscribe(t))
    ensures t !in s.broker.signals ==> Enabled(p, s, Create(Some(t), s.clock, ttl, s.clock))
  {
  }

  // A pass ends the pull unless it finds a live empty queue, and then blocks
  // it.
  lemma PassEndsExactly(p: Policy, s: System, q: nat, now: int)
    requires Reachable(p, s) && Enabled(p, s, Pass(q, now))
    ensures var t, s' := s.pullers[q].token, Next(s, Pass(q, now));
      (q in s'.pullers <==> t in s.broker.subs && now < s.broker.subs[t].expires && s.broker.subs[t].queue == [])
      && (q in s'.pullers ==> s'.pullers[q].Waiting? && s'.pullers[q].token == t)
  {
  }

  // ---------------------------------------------------------------------
  // Exactly when no wake-up is lost
  // ---------------------------------------------------------------------

  lemma {:induction false} RunOneMore(p: Policy, s: System, steps: seq<Step>, step: Step)
    requires Run(p, s, steps).Some? && Enabled(p, Run(p, s, steps).value, step)
    ensures Run(p, s, steps + [step]) == Some(Next(Run(p, s, steps).value, step))
    decreases |steps|
  {
    if steps == [] {
      assert Run(p, Next(s, step), []) == Some(Next(s, step));
    } else {
      assert (steps + [step])[1..] == steps[1..] + [step];
      RunOneMore(p, Next(s, steps[0]), steps[1..], step);
    }
  }

  lemma ReachableStep(p: Policy, s: System, step: Step)
    requires Reachable(p, s) && Enabled(p, s, step)
    ensures Reachable(p, Next(s, step))
  {
    var ready, clock, steps :| Run(p, Init(ready, clock), steps) == Some(s);
    RunOneMore(p, Init(ready, clock), steps, step);
  }

  // Synchronization points can fill a queue without moving the clock.
  lemma {:induction false} Fill(p: Policy, s: System, t: Token, n: nat) returns (s': System)
    requires Reachable(p, s) && t in s.broker.subs && s.clock < s.broker.subs[t].expires
    requires |s.broker.subs[t].queue| + n <= MAX_QUEUE
    ensures Reachable(p, s') && s'.pullers == s.pullers && s'.clock == s.clock
    ensures t in s'.broker.subs && s'.broker.subs[t].expires == s.broker.subs[t].expires
    ensures |s'.broker.subs[t].queue| == |s.broker.subs[t].queue| + n
    ensures n > 0 || Signalled(s, t) ==> Signalled(s', t)
    decreases n
  {
    if n == 0 {
      return s;
    }
    InvReachable(p, s);
    assert Sound(ViewOf(s, t), s.clock);
    var step := Synchronize(t, s.clock, s.clock, true);
    ReachableStep(p, s, step);
    NextView(s, step, t);
    var one := Next(s, step);
    assert ViewOf(one, t) == Act(ViewOf(s, t), Add(Event(s.clock, false, Initialized)));
    s' := Fill(p, one, t, n - 1);
  }

  // A pass that finds an empty queue blocks.
  lemma EmptyPass(p: Policy, s: System, q: nat, t: Token, limit: nat, pass: nat) returns (s': System)
    requires Reachable(p, s) && q in s.pullers && s.pullers[q] == Checking(t, limit, pass)
    requires t in s.broker.subs && s.clock < s.broker.subs[t].expires && s.broker.subs[t].queue == []
    ensures Reachable(p, s') && s'.pullers == s.pullers[q := Waiting(t, limit, pass)] && s'.clock == s.clock
    ensures ViewOf(s', t) == ViewOf(s, t)
  {
    ReachableStep(p, s, Pass(q, s.clock));
    s' := Next(s, Pass(q, s.clock));
    assert s'.broker == Clean(s.broker, s.clock);
  }

  // One pull joins and blocks on an empty queue.
  lemma Block(p: Policy, s: System, q: nat, t: Token, limit: nat) returns (s': System)
    requires Reachable(p, s) && t in s.broker.subs && s.clock < s.broker.subs[t].expires
    requires s.broker.subs[t].queue == []
    requires Enabled(p, s, Begin(q, t, limit))
    ensures Reachable(p, s') && s'.pullers == s.pullers[q := Waiting(t, limit, 1)] && s'.clock == s.clock
    ensures ViewOf(s', t) == ViewOf(s, t)
  {
    ReachableStep(p, s, Begin(q, t, limit));
    var joined := Next(s, Begin(q, t, limit));
    assert joined.broker == s.broker && joined.clock == s.clock;
    s' := EmptyPass(p, joined, q, t, limit, 1);
  }

  lemma Subscribe(p: Policy, t: Token) returns (s: System)
    ensures Reachable(p, s) && s.clock == 0 && s.pullers == map[]
    ensures s.broker.subs == map[t := Subscription(SECOND, [])]
    ensures s.broker.signals == map[t := false]
  {
    var start := Init(true, 0);
    assert Run(p, start, []) == Some(start);
    ReachableStep(p, start, Create(Some(t), 0, SECOND, 0));
    s := Next(start, Create(Some(t), 0, SECOND, 0));
    assert Live(start.broker.subs, 0) == map[];
  }

  // The first pull is woken and takes its limit.
  lemma WakeAndTake(p: Policy, s: System, t: Token, limit: nat) returns (s': System)
    requires Reachable(p, s) && 0 in s.pullers && s.pullers[0] == Waiting(t, limit, 1)
    requires t in s.broker.subs && s.clock < s.broker.subs[t].expires
    requires Signalled(s, t) && limit < |s.broker.subs[t].queue|
    ensures Reachable(p, s') && s'.pullers == s.pullers - {0}
    ensures t in s'.broker.subs && s'.broker.subs[t].queue == s.broker.subs[t].queue[limit..]
    ensures !Signalled(s', t)
  {
    InvReachable(p, s);
    ReachableStep(p, s, Wake(0));
    var woken := Next(s, Wake(0));
    assert woken.broker == Woken(s.broker, t) && woken.pullers == s.pullers[0 := Checking(t, limit, 2)];
    s' := TakeLimit(p, woken, t, limit);
  }

  lemma TakeLimit(p: Policy, s: System, t: Token, limit: nat) returns (s': System)
    requires Reachable(p, s) && 0 in s.pullers && s.pullers[0] == Checking(t, limit, 2)
    requires t in s.broker.subs && s.clock < s.broker.subs[t].expires
    requires !Signalled(s, t) && limit < |s.broker.subs[t].queue|
    ensures Reachable(p, s') && s'.pullers == s.pullers - {0}
    ensures t in s'.broker.subs && s'.broker.subs[t].queue == s.broker.subs[t].queue[limit..]
    ensures !Signalled(s', t)
  {
    ReachableStep(p, s, Pass(0, s.clock));
    s' := Next(s, Pass(0, s.clock));
    assert s'.broker == Passed(s.broker, t, s.clock, limit);
  }

  lemma SleepsOn(s: System, t: Token, limit: nat)
    requires s.pullers == map[1 := Waiting(t, limit, 1)] && Pending(s, t) && !Signalled(s, t)
    ensures !NoLostWakeup(s, t)
  {
    assert s.pullers[1] == Waiting(t, limit, 1);
  }

  // Two pulls on one subscription, one token: the first takes its limit and
  // leaves an event behind, the second sleeps on.
  lemma WakeupCanBeLost(p: Policy, t: Token)
    requires !Adequate(p, t)
    ensures exists s :: Reachable(p, s) && !NoLostWakeup(s, t)
  {
    var limit := if p.minLimit(t) == 0 then 1 else p.minLimit(t);
    var s0 := Subscribe(p, t);
    var s1 := Block(p, s0, 0, t, limit);
    assert ViewOf(s1, t).sub == Some(s0.broker.subs[t]);
    var s2 := Block(p, s1, 1, t, limit);
    assert ViewOf(s2, t).sub == Some(s0.broker.subs[t]);
    var s3 := Fill(p, s2, t, limit + 1);
    var s4 := WakeAndTake(p, s3, t, limit);
    assert s4.pullers == map[1 := Waiting(t, limit, 1)];
    SleepsOn(s4, t, limit);
  }

  // No wake-up is ever lost on a subscription if and only if no two pulls
  // share it or every message limit used on it covers a whole queue.
  lemma NoLostWakeupExactly(p: Policy, t: Token)
    ensures (forall s :: Reachable(p, s) ==> NoLostWakeup(s, t)) <==> Adequate(p, t)
  {
    if Adequate(p, t) {
      forall s | Reachable(p, s)
        ensures NoLostWakeup(s, t)
      {
        InvReachable(p, s);
      }
    } else {
      WakeupCanBeLost(p, t);
    }
  }

  // A pull that finds its event at once leaves the channel full.
  lemma PullOnce(p: Policy, s: System, q: nat, t: Token, limit: nat) returns (s': System)
    requires Reachable(p, s) && Enabled(p, s, Begin(q, t, limit))
    requires t in s.broker.subs && s.clock < s.broker.subs[t].expires && |s.broker.subs[t].queue| == 1
    requires Signalled(s, t)
    ensures Reachable(p, s') && s'.pullers == s.pullers && s'.clock == s.clock && Signalled(s', t)
    ensures t in s'.broker.subs && s'.broker.subs[t] == s.broker.subs[t].(queue := [])
  {
    ReachableStep(p, s, Begin(q, t, limit));
    var joined := Next(s, Begin(q, t, limit));
    assert joined.broker == s.broker && joined.clock == s.clock;
    ReachableStep(p, joined, Pass(q, s.clock));
    s' := Next(joined, Pass(q, s.clock));
    assert s'.broker == Passed(s.broker, t, s.clock, limit);
    assert s'.pullers == s.pullers;
  }

  // The third pass is needed: a signal left over from an earlier pull wakes
  // the second pull once for nothing.
  lemma ThreePassesHappen(p: Policy, t: Token)
    requires p.minLimit(t) <= 100
    ensures exists s, q :: Reachable(p, s) && q in s.pullers && s.pullers[q].token == t && s.pullers[q].pass == 3
  {
    var limit := if p.minLimit(t) == 0 then 1 else p.minLimit(t);
    var s0 := Subscribe(p, t);
    var s1 := Fill(p, s0, t, 1);
    var s3 := PullOnce(p, s1, 0, t, limit);
    var s4 := Block(p, s3, 0, t, limit);
    var s5 := SpuriousRound(p, s4, t, limit, 1);
    var s6 := Fill(p, s5, t, 1);
    ReachableStep(p, s6, Wake(0));
    assert Next(s6, Wake(0)).pullers[0] == Checking(t, limit, 3);
  }

  // With sharing there is no bound: another pull takes the event each time,
  // and the first wakes for nothing.
  lemma {:induction false} AnyPassHappens(p: Policy, t: Token, limit: nat, n: nat) returns (s: System)
    requires p.shared(t) && p.minLimit(t) <= limit && 1 <= limit <= 100 && n >= 1
    ensures Reachable(p, s) && s.pullers == map[0 := Waiting(t, limit, n)]
    ensures t in s.broker.subs && s.broker.subs[t].queue == [] && s.clock < s.broker.subs[t].expires
    decreases n
  {
    if n == 1 {
      var s0 := Subscribe(p, t);
      s := Block(p, s0, 0, t, limit);
      assert ViewOf(s, t).sub == Some(s0.broker.subs[t]);
    } else {
      var s0 := AnyPassHappens(p, t, limit, n - 1);
      var s1 := Fill(p, s0, t, 1);
      var s2 := PullOnce(p, s1, 1, t, limit);
      s := SpuriousRound(p, s2, t, limit, n - 1);
    }
  }

  // Three passes are a bound on a subscription if and only if no two pulls
  // share it.
  lemma ThreePassesExactly(p: Policy, t: Token)
    requires p.minLimit(t) <= 100
    ensures (forall s, q ::
               Reachable(p, s) && q in s.pullers && s.pullers[q].token == t ==> s.pullers[q].pass <= 3) <==>
              !p.shared(t)
  {
    if p.shared(t) {
      var s := AnyPassHappens(p, t, if p.minLimit(t) == 0 then 1 else p.minLimit(t), 4);
      assert s.pullers[0].pass == 4;
    } else {
      forall s, q | Reachable(p, s) && q in s.pullers && s.pullers[q].token == t
        ensures s.pullers[q].pass <= 3
      {
        ThreePassesSuffice(p, s, q);
      }
    }
  }

  // Waking on a stale signal and blocking again.
  lemma SpuriousRound(p: Policy, s: System, t: Token, limit: nat, pass: nat) returns (s': System)
    requires Reachable(p, s) && s.pullers == map[0 := Waiting(t, limit, pass)]
    requires t in s.broker.subs && s.clock < s.broker.subs[t].expires
    requires Signalled(s, t) && s.broker.subs[t].queue == []
    ensures Reachable(p, s') && s'.pullers == map[0 := Waiting(t, limit, pass + 1)]
    ensures t in s'.broker.subs && s'.broker.subs[t] == s.broker.subs[t] && s'.clock == s.clock
  {
    ReachableStep(p, s, Wake(0));
    var woken := Next(s, Wake(0));
    assert woken.broker == Woken(s.broker, t);
    s' := EmptyPass(p, woken, 0, t, limit, pass + 1);
    assert ViewOf(s', t).sub == ViewOf(woken, t).sub == Some(s.broker.subs[t]);
  }
}
