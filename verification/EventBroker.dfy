// The PullPoint event broker of internal/onvif/events.go.
//
// Every function below is one critical section of the original, written as a
// transformation of the state the mutex protects. The class performs the same
// critical sections in place and is proved equal to them; PullProtocol.dfy
// interleaves them with blocked pullers.

module EventBroker {
  import opened Common

  const MAX_PULL_POINTS := 32
  const MAX_QUEUE := 64
  const MAX_TTL := 3600 * SECOND

  type Token = string

  datatype Operation = Changed | Initialized
  datatype Event = Event(when: int, videoLoss: bool, operation: Operation)
  datatype Subscription = Subscription(expires: int, queue: seq<Event>)

  // `signals` holds, for every subscription ever created, whether its
  // capacity-one channel is full. A channel outlives its map entry as long as
  // a puller still waits on it, so the two maps are kept apart.
  datatype Broker = Broker(
    subs: map<Token, Subscription>,
    signals: map<Token, bool>,
    lastReady: bool)

  // What one pass of the pull loop finds under the lock.
  datatype Pass = Gone | Batch(events: seq<Event>, expires: int) | Blocked(expires: int)

  // ---------------------------------------------------------------------
  // The critical sections
  // ---------------------------------------------------------------------

  function Live(subs: map<Token, Subscription>, now: int): map<Token, Subscription> {
    map t | t in subs && subs[t].expires > now :: subs[t]
  }

  function Push(queue: seq<Event>, e: Event): seq<Event> {
    (if |queue| >= MAX_QUEUE then queue[|queue| - MAX_QUEUE + 1..] else queue) + [e]
  }

  function Enqueue(b: Broker, t: Token, e: Event): Broker
    requires t in b.subs
  {
    b.(subs := b.subs[t := b.subs[t].(queue := Push(b.subs[t].queue, e))],
       signals := b.signals[t := true])
  }

  // The event reaches the subscriptions named in `to`.
  function EnqueueTo(b: Broker, to: set<Token>, e: Event): Broker {
    b.(subs := map t | t in b.subs :: if t in to then b.subs[t].(queue := Push(b.subs[t].queue, e)) else b.subs[t],
       signals := map t | t in b.signals.Keys + to :: t in to || b.signals[t])
  }

  function EnqueueAll(b: Broker, e: Event): Broker {
    EnqueueTo(b, b.subs.Keys, e)
  }

  // Reaching one more subscription is one more enqueue.
  lemma EnqueueToOneMore(b: Broker, to: set<Token>, t: Token, e: Event)
    requires t in b.subs && t !in to
    ensures Enqueue(EnqueueTo(b, to, e), t, e) == EnqueueTo(b, to + {t}, e)
  {
    var one := Enqueue(EnqueueTo(b, to, e), t, e);
    var all := EnqueueTo(b, to + {t}, e);
    assert one.subs == all.subs;
    assert one.signals == all.signals;
  }

  function Clean(b: Broker, now: int): Broker {
    b.(subs := Live(b.subs, now))
  }

  function Ticked(b: Broker, current: bool, now: int, when: int): Broker {
    var c := Clean(b, now);
    if current == c.lastReady then c
    else EnqueueAll(c.(lastReady := current), Event(when, !current, Changed))
  }

  function Created(b: Broker, minted: Option<Token>, stamp: int, ttl: int): Broker {
    var c := Clean(b, stamp);
    if |c.subs| >= MAX_PULL_POINTS || minted.None? then c
    else c.(subs := c.subs[minted.value := Subscription(stamp + ttl, [])],
            signals := c.signals[minted.value := false])
  }

  function Renewed(b: Broker, t: Token, now: int, stamp: int, ttl: int): Broker {
    var c := Clean(b, now);
    if t in c.subs then c.(subs := c.subs[t := c.subs[t].(expires := stamp + ttl)]) else c
  }

  function Unsubscribed(b: Broker, t: Token): Broker {
    b.(subs := b.subs - {t})
  }

  function Synchronized(b: Broker, t: Token, now: int, when: int, ready: bool): Broker {
    var c := Clean(b, now);
    if t in c.subs then Enqueue(c, t, Event(when, !ready, Initialized)) else c
  }

  function Taken(queue: seq<Event>, limit: nat): nat {
    if limit > |queue| then |queue| else limit
  }

  function PassResult(b: Broker, t: Token, now: int, limit: nat): Pass {
    var c := Clean(b, now);
    if t !in c.subs then Gone
    else if c.subs[t].queue != [] then
      Batch(c.subs[t].queue[..Taken(c.subs[t].queue, limit)], c.subs[t].expires)
    else Blocked(c.subs[t].expires)
  }

  function Passed(b: Broker, t: Token, now: int, limit: nat): Broker {
    var c := Clean(b, now);
    if t in c.subs && c.subs[t].queue != [] then
      var sub := c.subs[t];
      c.(subs := c.subs[t := sub.(queue := sub.queue[Taken(sub.queue, limit)..])])
    else c
  }

  // A pass that finds events hands out the oldest of them, as many as were
  // asked for or all there are, and leaves the rest; any other leaves the
  // queue alone.
  lemma PassHandsOut(b: Broker, t: Token, now: int, limit: nat)
    ensures PassResult(b, t, now, limit).Gone? <==> !(t in b.subs && now < b.subs[t].expires)
    ensures t in b.subs && now < b.subs[t].expires ==>
              var queue, pass := b.subs[t].queue, PassResult(b, t, now, limit);
              var after := Passed(b, t, now, limit).subs;
              && t in after && pass.expires == after[t].expires == b.subs[t].expires
              && (pass.Batch? <==> queue != [])
              && (pass.Blocked? ==> after[t].queue == [])
              && (pass.Batch? ==>
                    && pass.events <= queue && |pass.events| <= limit
                    && (|pass.events| == limit || |pass.events| == |queue|)
                    && after[t].queue == queue[|pass.events|..])
  {
  }

  // Receiving from the channel empties it.
  function Woken(b: Broker, t: Token): Broker {
    b.(signals := b.signals[t := false])
  }

  // ---------------------------------------------------------------------
  // The broker object
  // ---------------------------------------------------------------------

  class EventBroker {
    var subs: map<Token, Subscription>
    var signals: map<Token, bool>
    var lastReady: bool

    function State(): Broker
      reads this
    {
      Broker(subs, signals, lastReady)
    }

    constructor (ready: bool)
      ensures State() == Broker(map[], map[], ready)
    {
      subs, signals, lastReady := map[], map[], ready;
    }

    method CleanupLocked(now: int)
      modifies this`subs
      ensures State() == Clean(old(State()), now)
    {
      ghost var before := subs;
      var pending := subs.Keys;
      while pending != {}
        invariant pending <= before.Keys
        invariant subs == map t | t in before && (t in pending || before[t].expires > now) :: before[t]
        decreases pending
      {
        var t :| t in pending;
        if subs[t].expires <= now {
          subs := subs - {t};
        }
        pending := pending - {t};
      }
    }

    method EnqueueLocked(t: Token, e: Event)
      requires t in subs
      modifies this`subs, this`signals
      ensures State() == Enqueue(old(State()), t, e)
    {
      var sub := subs[t];
      if |sub.queue| >= MAX_QUEUE {
        sub := sub.(queue := sub.queue[|sub.queue| - MAX_QUEUE + 1..]);
      }
      sub := sub.(queue := sub.queue + [e]);
      subs := subs[t := sub];
      signals := signals[t := true];
    }

    method EnqueueAllLocked(e: Event)
      modifies this`subs, this`signals
      ensures State() == EnqueueAll(old(State()), e)
    {
      ghost var before := State();
      var pending := subs.Keys;
      while pending != {}
        invariant pending <= before.subs.Keys
        invariant State() == EnqueueTo(before, before.subs.Keys - pending, e)
        decreases pending
      {
        var t :| t in pending;
        EnqueueToOneMore(before, before.subs.Keys - pending, t, e);
        assert before.subs.Keys - pending + {t} == before.subs.Keys - (pending - {t});
        EnqueueLocked(t, e);
        pending := pending - {t};
      }
      assert before.subs.Keys - pending == before.subs.Keys;
    }

    // One tick of the broker's run loop.
    method Tick(current: bool, now: int, when: int)
      modifies this
      ensures State() == Ticked(old(State()), current, now, when)
    {
      CleanupLocked(now);
      if current != lastReady {
        lastReady := current;
        EnqueueAllLocked(Event(when, !current, Changed));
      }
    }

    // `minted` is the random token, or None when the random source fails. The
    // instant was read before the lock was taken.
    method Create(minted: Option<Token>, stamp: int, ttl: int) returns (created: Option<Token>)
      modifies this
      ensures State() == Created(old(State()), minted, stamp, ttl)
      ensures created.Some? <==> minted.Some? && |Live(old(subs), stamp)| < 32
      ensures created.Some? ==> created == minted && created.value in subs && created.value in signals
      ensures created.Some? ==>
                subs[created.value] == Subscription(stamp + ttl, []) && !signals[created.value]
    {
      CleanupLocked(stamp);
      if |subs| >= MAX_PULL_POINTS || minted.None? {
        return None;
      }
      subs := subs[minted.value := Subscription(stamp + ttl, [])];
      signals := signals[minted.value := false];
      return minted;
    }

    // Renewal succeeds exactly on an entry not yet expired, so it never
    // revives one.
    method Renew(t: Token, now: int, stamp: int, ttl: int) returns (expires: int, ok: bool)
      modifies this
      ensures State() == Renewed(old(State()), t, now, stamp, ttl)
      ensures ok <==> t in old(subs) && old(subs)[t].expires > now
      ensures ok ==> t in subs && subs[t].expires == expires == stamp + ttl
      ensures !ok ==> t !in subs
    {
      CleanupLocked(now);
      if t !in subs {
        return 0, false;
      }
      subs := subs[t := subs[t].(expires := stamp + ttl)];
      return subs[t].expires, true;
    }

    method Unsubscribe(t: Token) returns (ok: bool)
      modifies this
      ensures State() == Unsubscribed(old(State()), t)
      ensures ok <==> t in old(subs)
    {
      if t !in subs {
        return false;
      }
      subs := subs - {t};
      return true;
    }

    method SynchronizationPoint(t: Token, now: int, when: int, ready: bool) returns (ok: bool)
      modifies this
      ensures State() == Synchronized(old(State()), t, now, when, ready)
      ensures ok <==> t in old(subs) && old(subs)[t].expires > now
    {
      CleanupLocked(now);
      if t !in subs {
        return false;
      }
      EnqueueLocked(t, Event(when, !ready, Initialized));
      return true;
    }

    // One pass of the pull loop, from Lock to Unlock.
    method PullPass(t: Token, now: int, limit: nat) returns (pass: Pass)
      modifies this
      ensures State() == Passed(old(State()), t, now, limit)
      ensures pass == PassResult(old(State()), t, now, limit)
      ensures pass.Gone? <==> !(t in old(subs) && old(subs)[t].expires > now)
      ensures !pass.Gone? ==> t in subs && pass.expires == subs[t].expires == old(subs)[t].expires
      ensures pass.Blocked? ==> old(subs)[t].queue == subs[t].queue == []
      ensures pass.Batch? ==>
                && pass.events + subs[t].queue == old(subs)[t].queue
                && |pass.events| <= limit && (|pass.events| == limit || subs[t].queue == [])
    {
      CleanupLocked(now);
      if t !in subs {
        return Gone;
      }
      var sub := subs[t];
      if |sub.queue| > 0 {
        var take := limit;
        if take > |sub.queue| {
          take := |sub.queue|;
        }
        subs := subs[t := sub.(queue := sub.queue[take..])];
        return Batch(sub.queue[..take], sub.expires);
      }
      return Blocked(sub.expires);
    }
  }
}
