// The replay cache of internal/auth/digest.go: keys are remembered for TTL
// and forgotten by age. The law proved here is that the forgetting cache
// answers exactly like one that remembers every acceptance ever made.

module ReplayCache {
  import opened Common

  // What one request asks of the cache: nothing, because it failed before it
  // or carries no replay key, or to accept a key at an instant.
  datatype Attempt = Rejected | Unguarded | Guarded(key: string, now: int)

  type Cache = map<string, int>

  function Evict(cache: Cache, now: int): Cache {
    map k | k in cache && now <= cache[k] :: cache[k]
  }

  // acceptReplayKey
  predicate Accepts(cache: Cache, key: string, now: int) {
    key !in Evict(cache, now)
  }

  function Accepted(cache: Cache, key: string, now: int, ttl: int): Cache {
    var c := Evict(cache, now);
    if key in c then c else c[key := now + ttl]
  }

  // What an attempt gets from the cache, and leaves in it.
  predicate Admits(cache: Cache, attempt: Attempt) {
    match attempt
    case Rejected => false
    case Unguarded => true
    case Guarded(key, now) => Accepts(cache, key, now)
  }

  function Updated(cache: Cache, attempt: Attempt, ttl: int): Cache {
    match attempt
    case Guarded(key, now) => Accepted(cache, key, now, ttl)
    case _ => cache
  }

  // ---------------------------------------------------------------------
  // Runs
  // ---------------------------------------------------------------------

  // The cache after the first n attempts, in the order they took the lock.
  function CacheAfter(attempts: seq<Attempt>, ttl: int, n: nat): Cache
    requires n <= |attempts|
  {
    if n == 0 then map[] else Updated(CacheAfter(attempts, ttl, n - 1), attempts[n - 1], ttl)
  }

  // Whether attempt number n is let through.
  predicate LetThrough(attempts: seq<Attempt>, ttl: int, n: nat)
    requires n < |attempts|
  {
    Admits(CacheAfter(attempts, ttl, n), attempts[n])
  }

  // The latest attempt with a key among the first n that was let through.
  function LastLetThrough(attempts: seq<Attempt>, ttl: int, n: nat, key: string): (r: Option<nat>)
    requires n <= |attempts|
    ensures r.Some? ==> r.value < n && attempts[r.value].Guarded? && attempts[r.value].key == key
  {
    if n == 0 then None
    else if attempts[n - 1].Guarded? && attempts[n - 1].key == key && LetThrough(attempts, ttl, n - 1) then Some(n - 1)
    else LastLetThrough(attempts, ttl, n - 1, key)
  }

  // The reference, which forgets nothing: a guarded attempt passes unless its
  // key passed before and at most TTL ago.
  predicate Passes(attempts: seq<Attempt>, ttl: int, n: nat)
    requires n < |attempts|
    decreases n, 1
  {
    match attempts[n]
    case Rejected => false
    case Unguarded => true
    case Guarded(key, now) =>
      var last := LastPass(attempts, ttl, n, key);
      last.None? || now > attempts[last.value].now + ttl
  }

  // The latest attempt with a key among the first n that passed.
  function LastPass(attempts: seq<Attempt>, ttl: int, n: nat, key: string): (r: Option<nat>)
    requires n <= |attempts|
    ensures r.Some? ==> r.value < n && attempts[r.value].Guarded? && attempts[r.value].key == key
    decreases n, 0
  {
    if n == 0 then None
    else if attempts[n - 1].Guarded? && attempts[n - 1].key == key && Passes(attempts, ttl, n - 1) then Some(n - 1)
    else LastPass(attempts, ttl, n - 1, key)
  }

  // ---------------------------------------------------------------------
  // Exactly what is forgotten
  // ---------------------------------------------------------------------

  // An attempt after number i and before number n read its clock past the
  // deadline.
  ghost predicate ReadPast(attempts: seq<Attempt>, deadline: int, i: nat, n: nat)
    requires n <= |attempts|
  {
    exists m :: i < m < n && attempts[m].Guarded? && deadline < attempts[m].now
  }

  lemma ReadPastMore(attempts: seq<Attempt>, deadline: int, i: nat, n: nat)
    requires i < n < |attempts|
    ensures ReadPast(attempts, deadline, i, n + 1) <==>
              ReadPast(attempts, deadline, i, n) || (attempts[n].Guarded? && deadline < attempts[n].now)
  {
  }

  // A key is in the cache exactly when it was let through and no attempt since
  // read its clock past the key's window, whatever the order of the readings.
  lemma {:induction false} CacheHolds(attempts: seq<Attempt>, ttl: int, n: nat, key: string)
    requires n <= |attempts|
    ensures var c, last := CacheAfter(attempts, ttl, n), LastLetThrough(attempts, ttl, n, key);
      && (key in c <==> last.Some? && !ReadPast(attempts, attempts[last.value].now + ttl, last.value, n))
      && (key in c ==> c[key] == attempts[last.value].now + ttl)
  {
    if n > 0 {
      CacheHolds(attempts, ttl, n - 1, key);
      var last := LastLetThrough(attempts, ttl, n - 1, key);
      if last.Some? {
        ReadPastMore(attempts, attempts[last.value].now + ttl, last.value, n - 1);
      }
    }
  }

  // Over any run, in any order of readings: a guarded attempt is let through
  // exactly when its key never was, or when some reading since then, its own
  // among them, is past the window of the latest time it was.
  lemma LetThroughExactly(attempts: seq<Attempt>, ttl: int, n: nat)
    requires n < |attempts| && attempts[n].Guarded?
    ensures var last := LastLetThrough(attempts, ttl, n, attempts[n].key);
      LetThrough(attempts, ttl, n) <==>
        last.None? || ReadPast(attempts, attempts[last.value].now + ttl, last.value, n + 1)
  {
    CacheHolds(attempts, ttl, n, attempts[n].key);
    var last := LastLetThrough(attempts, ttl, n, attempts[n].key);
    if last.Some? {
      ReadPastMore(attempts, attempts[last.value].now + ttl, last.value, n);
    }
  }

  // Attempt i is the latest one before n that was let through with n's key.
  ghost predicate LatestBefore(attempts: seq<Attempt>, ttl: int, i: nat, n: nat)
    requires n < |attempts|
  {
    && i < n && attempts[n].Guarded? && attempts[i].Guarded? && attempts[i].key == attempts[n].key
    && LetThrough(attempts, ttl, i)
    && forall k :: i < k < n && attempts[k].Guarded? && attempts[k].key == attempts[n].key ==>
         !LetThrough(attempts, ttl, k)
  }

  lemma {:induction false} LatestIsLast(attempts: seq<Attempt>, ttl: int, i: nat, n: nat, m: nat)
    requires n < |attempts| && LatestBefore(attempts, ttl, i, n) && i < m <= n
    ensures LastLetThrough(attempts, ttl, m, attempts[n].key) == Some(i)
  {
    if m > i + 1 {
      LatestIsLast(attempts, ttl, i, n, m - 1);
    }
  }

  // ... in particular a repeat of the latest acceptance.
  lemma RepeatExactly(attempts: seq<Attempt>, ttl: int, i: nat, n: nat)
    requires n < |attempts| && LatestBefore(attempts, ttl, i, n)
    ensures LetThrough(attempts, ttl, n) <==> ReadPast(attempts, attempts[i].now + ttl, i, n + 1)
  {
    LatestIsLast(attempts, ttl, i, n, n);
    LetThroughExactly(attempts, ttl, n);
  }

  // ---------------------------------------------------------------------
  // Exactly when forgetting is invisible
  // ---------------------------------------------------------------------

  // Attempt n reads its clock inside the window of the last pass of its key,
  // after an attempt in between read past that window: its reading was
  // overtaken on the way to the lock.
  ghost predicate Overtaken(attempts: seq<Attempt>, ttl: int, n: nat)
    requires n < |attempts|
  {
    attempts[n].Guarded? &&
    var last := LastPass(attempts, ttl, n, attempts[n].key);
    last.Some? && attempts[n].now <= attempts[last.value].now + ttl
    && ReadPast(attempts, attempts[last.value].now + ttl, last.value, n)
  }

  // The cache has answered like the reference so far.
  ghost predicate AgreeUpTo(attempts: seq<Attempt>, ttl: int, n: nat)
    requires n <= |attempts|
  {
    forall k: nat :: k < n ==> (LetThrough(attempts, ttl, k) <==> Passes(attempts, ttl, k))
  }

  lemma {:induction false} AgreeOnLast(attempts: seq<Attempt>, ttl: int, n: nat, key: string)
    requires n <= |attempts| && AgreeUpTo(attempts, ttl, n)
    ensures LastLetThrough(attempts, ttl, n, key) == LastPass(attempts, ttl, n, key)
  {
    if n > 0 {
      AgreeOnLast(attempts, ttl, n - 1, key);
    }
  }

  // The first disagreement is an overtaken reading.
  lemma AgreeStep(attempts: seq<Attempt>, ttl: int, n: nat)
    requires n < |attempts| && AgreeUpTo(attempts, ttl, n)
    ensures (LetThrough(attempts, ttl, n) <==> Passes(attempts, ttl, n)) <==> !Overtaken(attempts, ttl, n)
  {
    if attempts[n].Guarded? {
      LetThroughExactly(attempts, ttl, n);
      AgreeOnLast(attempts, ttl, n, attempts[n].key);
      var last := LastPass(attempts, ttl, n, attempts[n].key);
      if last.Some? {
        ReadPastMore(attempts, attempts[last.value].now + ttl, last.value, n);
      }
    }
  }

  // The cache lets through exactly what the reference does if and only if no
  // reading is overtaken.
  lemma {:induction false} CacheLawExactly(attempts: seq<Attempt>, ttl: int, n: nat)
    requires n <= |attempts|
    ensures AgreeUpTo(attempts, ttl, n) <==> forall k: nat :: k < n ==> !Overtaken(attempts, ttl, k)
  {
    if n > 0 {
      CacheLawExactly(attempts, ttl, n - 1);
      if AgreeUpTo(attempts, ttl, n - 1) {
        AgreeStep(attempts, ttl, n - 1);
      }
    }
  }

  // The clock readings used by the cache do not go back, in lock order.
  ghost predicate ClockAdvances(attempts: seq<Attempt>) {
    forall i, j :: 0 <= i < j < |attempts| && attempts[i].Guarded? && attempts[j].Guarded? ==>
      attempts[i].now <= attempts[j].now
  }

  // So forgetting is invisible on every run whose clock advances.
  lemma CacheLaw(attempts: seq<Attempt>, ttl: int, n: nat)
    requires n < |attempts| && ClockAdvances(attempts)
    ensures LetThrough(attempts, ttl, n) <==> Passes(attempts, ttl, n)
  {
    forall k: nat | k <= n
      ensures !Overtaken(attempts, ttl, k)
    {
    }
    CacheLawExactly(attempts, ttl, n + 1);
  }

  // Attempt i was accepted, before attempt n and with its key.
  predicate AcceptedBefore(attempts: seq<Attempt>, ttl: int, i: nat, n: nat)
    requires n < |attempts| && attempts[n].Guarded?
  {
    i < n && attempts[i].Guarded? && attempts[i].key == attempts[n].key && LetThrough(attempts, ttl, i)
  }

  lemma {:induction false} LastIsLatest(attempts: seq<Attempt>, ttl: int, n: nat, i: nat)
    requires i < n <= |attempts| && attempts[i].Guarded? && LetThrough(attempts, ttl, i)
    ensures var last := LastLetThrough(attempts, ttl, n, attempts[i].key); last.Some? && i <= last.value
  {
    if i < n - 1 {
      LastIsLatest(attempts, ttl, n - 1, i);
    }
  }

  lemma {:induction false} LastWasLetThrough(attempts: seq<Attempt>, ttl: int, n: nat, key: string)
    requires n <= |attempts| && LastLetThrough(attempts, ttl, n, key).Some?
    ensures LetThrough(attempts, ttl, LastLetThrough(attempts, ttl, n, key).value)
  {
    if LastLetThrough(attempts, ttl, n, key) != Some(n - 1) {
      LastWasLetThrough(attempts, ttl, n - 1, key);
    }
  }

  // On such a run a guarded attempt is let through exactly when every earlier
  // acceptance of its key is more than TTL old.
  lemma AcceptedExactly(attempts: seq<Attempt>, ttl: int, n: nat)
    requires n < |attempts| && ClockAdvances(attempts) && attempts[n].Guarded?
    ensures LetThrough(attempts, ttl, n) <==>
              forall i: nat :: AcceptedBefore(attempts, ttl, i, n) ==> attempts[n].now > attempts[i].now + ttl
  {
    LetThroughExactly(attempts, ttl, n);
    var last := LastLetThrough(attempts, ttl, n, attempts[n].key);
    if last.Some? {
      LastWasLetThrough(attempts, ttl, n, attempts[n].key);
      assert AcceptedBefore(attempts, ttl, last.value, n);
      assert attempts[n].now > attempts[last.value].now + ttl ==>
        ReadPast(attempts, attempts[last.value].now + ttl, last.value, n + 1);
    }
    forall i: nat | AcceptedBefore(attempts, ttl, i, n) && LetThrough(attempts, ttl, n)
      ensures attempts[n].now > attempts[i].now + ttl
    {
      LastIsLatest(attempts, ttl, n, i);
    }
  }

  // Two acceptances of one key are more than TTL apart.
  lemma AcceptancesAreApart(attempts: seq<Attempt>, ttl: int, i: nat, j: nat)
    requires i < j < |attempts| && ClockAdvances(attempts)
    requires attempts[i].Guarded? && attempts[j].Guarded? && attempts[i].key == attempts[j].key
    requires LetThrough(attempts, ttl, i) && LetThrough(attempts, ttl, j)
    ensures attempts[j].now > attempts[i].now + ttl
  {
    AcceptedExactly(attempts, ttl, j);
    assert AcceptedBefore(attempts, ttl, i, j);
  }

  // The advancing clock is needed: an attempt that read its clock before a
  // later one evicted its key, and takes the lock after it, is let through a
  // second time inside one window.
  lemma OvertakenReadingForgets(attempts: seq<Attempt>, ttl: int, key: string, first: int, late: int)
    requires |attempts| == 3 && attempts[0] == Guarded(key, first)
    requires attempts[1].Guarded? && attempts[1].key != key && attempts[1].now > first + ttl
    requires attempts[2] == Guarded(key, late) && late <= first + ttl
    ensures LetThrough(attempts, ttl, 0) && LetThrough(attempts, ttl, 2) && !Passes(attempts, ttl, 2)
  {
    assert LetThrough(attempts, ttl, 0);
    RepeatExactly(attempts, ttl, 0, 2);
    assert LastPass(attempts, ttl, 0, key) == None;
    assert LastPass(attempts, ttl, 1, key) == Some(0);
    assert LastPass(attempts, ttl, 2, key) == Some(0);
  }
}
