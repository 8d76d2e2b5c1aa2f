// Runtime reconfiguration under concurrency: any number of updates against
// the FFmpeg supervisor, through the shared configuration and a capacity-one
// restart channel (internal/capture/capture.go, lines 45-85 and 195-249).

module Reconfiguration {
  import opened Common
  import opened VideoConfig
  import opened EncoderSettings

  // The supervisor: at the head of its loop, between reading the configuration
  // and starting FFmpeg, with FFmpeg running, waiting for an FFmpeg it has
  // killed, sleeping, or returned.
  datatype Supervisor = Head | Starting(c: Config) | Running(c: Config) | Stopping(c: Config) | Sleeping | Stopped

  // Whose fields the file holds: those of configuration number n, or of an
  // update that has written it and not committed yet.
  datatype Writer = Committed(n: nat) | Pending(id: nat)

  // `history` are the configurations there have been, the current one last;
  // `file` the nine fields on disk; `reading` the updates that took a copy of
  // the configuration, `persisted` those of them that have written the file,
  // `sending` those between their unlock and their send.
  datatype System = System(
    cfg: Config, history: seq<Config>, token: bool, supervisor: Supervisor, cancelled: bool,
    file: Video, writer: Writer,
    reading: map<nat, Config>, persisted: map<nat, Config>, sending: set<nat>, restarts: nat)

  datatype Step =
    | Read(id: nat)
    | Persist(id: nat, next: Config)
    | Commit(id: nat, next: Config)
    | Abandon(id: nat)
    | Send(id: nat)
    | Snapshot
    | Started
    | StartFailed
    | Restart
    | Died
    | Exited
    | Woke
    | Cancel
    | Kill
    | Quit

  predicate Enabled(s: System, step: Step) {
    match step
    case Read(id) => id !in s.reading && id !in s.sending
    case Persist(id, next) => id in s.reading && id !in s.persisted && Valid(next)
    case Commit(id, next) => id in s.reading && Valid(next) && (id in s.persisted ==> s.persisted[id] == next)
    case Abandon(id) => id in s.reading && id !in s.persisted
    case Send(id) => id in s.sending
    case Snapshot => s.supervisor.Head?
    case Started => s.supervisor.Starting?
    case StartFailed => s.supervisor.Starting?
    case Restart => s.supervisor.Running? && s.token
    case Died => s.supervisor.Stopping?
    case Exited => s.supervisor.Running?
    case Woke => s.supervisor.Sleeping?
    case Cancel => true
    case Kill => s.cancelled && s.supervisor.Running?
    case Quit => s.cancelled && (s.supervisor.Head? || s.supervisor.Sleeping?)
  }

  // Steps the handler can take: what it commits is its edited copy.
  ghost predicate HandlerDriven(s: System, step: Step) {
    step.Commit? ==> step.id in s.reading && exists r :: Prepare(s.reading[step.id], r) == Accepted(step.next)
  }

  // The file is written before the lock is taken, and only by updates that ask
  // for it; Abandon is a refusal, or a write that failed. Restart takes the
  // token and kills FFmpeg, which keeps
  // running until Died.
  function Next(s: System, step: Step): System
    requires Enabled(s, step)
  {
    match step
    case Read(id) => s.(reading := s.reading[id := s.cfg])
    case Persist(id, next) => s.(file := next.video, writer := Pending(id), persisted := s.persisted[id := next])
    case Commit(id, next) =>
      var cfg := s.cfg.(video := next.video);
      s.(cfg := cfg, history := s.history + [cfg],
         writer := if s.writer == Pending(id) then Committed(|s.history|) else s.writer,
         reading := s.reading - {id}, persisted := s.persisted - {id}, sending := s.sending + {id})
    case Abandon(id) => s.(reading := s.reading - {id})
    case Send(id) => s.(token := true, sending := s.sending - {id})
    case Snapshot => s.(supervisor := Starting(s.cfg))
    case Started => s.(supervisor := Running(s.supervisor.c))
    case StartFailed => s.(supervisor := Sleeping)
    case Restart => s.(supervisor := Stopping(s.supervisor.c), token := false, restarts := s.restarts + 1)
    case Died => s.(supervisor := if s.cancelled then Stopped else Head)
    case Exited => s.(supervisor := if s.cancelled then Stopped else Sleeping)
    case Woke => s.(supervisor := Head)
    case Cancel => s.(cancelled := true)
    case Kill => s.(supervisor := Stopping(s.supervisor.c))
    case Quit => s.(supervisor := Stopped)
  }

  function Init(cfg: Config): System {
    System(cfg, [cfg], false, Head, false, cfg.video, Committed(0), map[], map[], {}, 0)
  }

  function Run(s: System, steps: seq<Step>): Option<System>
    decreases |steps|
  {
    if steps == [] then Some(s)
    else if Enabled(s, steps[0]) then Run(Next(s, steps[0]), steps[1..])
    else None
  }

  // Every step of the run is one the handler can take.
  ghost predicate AllHandlerDriven(s: System, steps: seq<Step>)
    decreases |steps|
  {
    steps != [] && Enabled(s, steps[0]) ==>
      HandlerDriven(s, steps[0]) && AllHandlerDriven(Next(s, steps[0]), steps[1..])
  }

  // ---------------------------------------------------------------------
  // No lost reconfiguration
  // ---------------------------------------------------------------------

  // Starting FFmpeg, or running it with no kill on its way.
  predicate Launched(s: System) {
    s.supervisor.Starting? || s.supervisor.Running?
  }

  // FFmpeg runs, or is about to, on video fields that are no longer current.
  predicate Stale(s: System) {
    (Launched(s) || s.supervisor.Stopping?) && s.supervisor.c.video != s.cfg.video
  }

  // Then a token is pending, an update is about to send one, or FFmpeg has
  // been killed already.
  predicate NothingLost(s: System) {
    Stale(s) ==> s.token || s.sending != {} || s.supervisor.Stopping?
  }

  function Commits(s: System): int {
    |s.history| - 1
  }

  // A restart uses up a send, and every send belongs to a commit.
  predicate RestartsPaidFor(s: System) {
    s.restarts + (if s.token then 1 else 0) + |s.sending| <= Commits(s)
  }

  predicate Sane(s: System) {
    && NothingLost(s) && RestartsPaidFor(s) && s.reading.Keys !! s.sending
    && s.history != [] && s.history[|s.history| - 1] == s.cfg
  }

  lemma NothingLostStep(s: System, step: Step)
    requires NothingLost(s) && Enabled(s, step)
    ensures NothingLost(Next(s, step))
  {
  }

  lemma PaidForStep(s: System, step: Step)
    requires RestartsPaidFor(s) && s.reading.Keys !! s.sending && Enabled(s, step)
    ensures RestartsPaidFor(Next(s, step)) && Next(s, step).reading.Keys !! Next(s, step).sending
  {
    if step.Send? {
      assert s.sending == (s.sending - {step.id}) + {step.id};
    }
  }

  lemma StepKeeps(s: System, step: Step)
    requires Sane(s) && Enabled(s, step)
    ensures Sane(Next(s, step)) && s.history <= Next(s, step).history
  {
    NothingLostStep(s, step);
    PaidForStep(s, step);
  }

  lemma {:induction false} RunKeeps(s: System, steps: seq<Step>)
    requires Sane(s) && Run(s, steps).Some?
    ensures Sane(Run(s, steps).value) && s.history <= Run(s, steps).value.history
    decreases |steps|
  {
    if steps != [] {
      StepKeeps(s, steps[0]);
      RunKeeps(Next(s, steps[0]), steps[1..]);
    }
  }

  // In every run: if FFmpeg runs on video fields other than the current ones,
  // a token is pending, an update is about to send one, or FFmpeg is being
  // killed; and restarts never outnumber updates.
  lemma NoLostReconfiguration(cfg: Config, steps: seq<Step>)
    requires Run(Init(cfg), steps).Some?
    ensures var s := Run(Init(cfg), steps).value;
      && (Stale(s) ==> s.token || s.sending != {} || s.supervisor.Stopping?)
      && s.restarts <= Commits(s)
  {
    RunKeeps(Init(cfg), steps);
  }

  // Once every update has sent and every token is spent, FFmpeg runs what is
  // configured.
  lemma QuietMeansCurrent(cfg: Config, steps: seq<Step>)
    requires Run(Init(cfg), steps).Some?
    requires var s := Run(Init(cfg), steps).value; s.supervisor.Running? && !s.token && s.sending == {}
    ensures var s := Run(Init(cfg), steps).value; s.supervisor.c.video == s.cfg.video
  {
    NoLostReconfiguration(cfg, steps);
  }

  // What FFmpeg was started on is a configuration no older than number k.
  ghost predicate LaunchedSince(s: System, k: nat) {
    Launched(s) ==> exists n :: k <= n < |s.history| && s.supervisor.c == s.history[n]
  }

  lemma {:induction false} SinceKeeps(s: System, steps: seq<Step>, k: nat)
    requires Sane(s) && k < |s.history| && LaunchedSince(s, k) && Run(s, steps).Some?
    ensures LaunchedSince(Run(s, steps).value, k)
    decreases |steps|
  {
    if steps != [] {
      var s' := Next(s, steps[0]);
      StepKeeps(s, steps[0]);
      assert LaunchedSince(s', k) by {
        if steps[0].Snapshot? {
          assert s'.supervisor.c == s'.history[|s'.history| - 1];
        } else if Launched(s') {
          var n :| k <= n < |s.history| && s.supervisor.c == s.history[n];
          assert s'.supervisor.c == s'.history[n];
        }
      }
      SinceKeeps(s', steps[1..], k);
    }
  }

  // Whatever happens after a restart, the FFmpeg started next, or any later
  // one, is started on a configuration that includes every commit made before
  // that restart.
  lemma RestartIncludesCommits(cfg: Config, before: seq<Step>, after: seq<Step>)
    requires Run(Init(cfg), before).Some? && Enabled(Run(Init(cfg), before).value, Restart)
    requires Run(Next(Run(Init(cfg), before).value, Restart), after).Some?
    ensures var s := Run(Init(cfg), before).value;
      var t := Run(Next(s, Restart), after).value;
      && s.history <= t.history
      && (Launched(t) ==> exists n: nat :: Commits(s) <= n < |t.history| && t.supervisor.c == t.history[n])
  {
    var s := Run(Init(cfg), before).value;
    RunKeeps(Init(cfg), before);
    StepKeeps(s, Restart);
    RunKeeps(Next(s, Restart), after);
    SinceKeeps(Next(s, Restart), after, Commits(s));
  }

  // ---------------------------------------------------------------------
  // The supervisor goes on
  // ---------------------------------------------------------------------

  lemma {:induction false} StoppedWasCancelled(s: System, steps: seq<Step>)
    requires (s.supervisor.Stopped? ==> s.cancelled) && Run(s, steps).Some?
    ensures var t := Run(s, steps).value; t.supervisor.Stopped? ==> t.cancelled
    decreases |steps|
  {
    if steps != [] {
      StoppedWasCancelled(Next(s, steps[0]), steps[1..]);
    }
  }

  // In every run the supervisor returns only after a cancellation.
  lemma StopsOnlyCancelled(cfg: Config, steps: seq<Step>)
    requires Run(Init(cfg), steps).Some?
    ensures var s := Run(Init(cfg), steps).value; s.supervisor.Stopped? ==> s.cancelled
  {
    StoppedWasCancelled(Init(cfg), steps);
  }

  // What the supervisor and FFmpeg do by themselves, no update and no
  // cancellation among it.
  predicate OwnStep(step: Step) {
    || step.Snapshot? || step.Started? || step.StartFailed? || step.Restart? || step.Died?
    || step.Exited? || step.Woke? || step.Kill? || step.Quit?
  }

  predicate OwnSteps(steps: seq<Step>) {
    forall i :: 0 <= i < |steps| ==> OwnStep(steps[i])
  }

  lemma RunOne(s: System, step: Step, rest: seq<Step>)
    requires Enabled(s, step)
    ensures Run(s, [step] + rest) == Run(Next(s, step), rest)
  {
    assert ([step] + rest)[1..] == rest;
  }

  // From the head of the loop FFmpeg can be started on what is configured.
  lemma HeadLaunches(s: System) returns (steps: seq<Step>)
    requires s.supervisor.Head?
    ensures OwnSteps(steps) && Run(s, steps).Some?
    ensures var t := Run(s, steps).value; t.supervisor == Running(s.cfg) && t.cfg == s.cfg && t.token == s.token
  {
    steps := [Snapshot] + ([Started] + []);
    RunOne(s, Snapshot, [Started] + []);
    RunOne(Next(s, Snapshot), Started, []);
  }

  // How many steps it is from there, with a restart when FFmpeg runs.
  function Patience(s: System): nat {
    if s.supervisor.Head? || s.supervisor.Stopped? then 0
    else if s.supervisor.Sleeping? || s.supervisor.Stopping? then 1
    else 2
  }

  // One step brings it nearer.
  lemma {:induction false} Launches(s: System, patience: nat) returns (steps: seq<Step>)
    requires !s.supervisor.Stopped? && !s.cancelled && (s.supervisor.Running? ==> s.token)
    requires patience == Patience(s)
    ensures OwnSteps(steps) && Run(s, steps).Some?
    ensures var t := Run(s, steps).value; t.supervisor == Running(s.cfg) && t.cfg == s.cfg
    ensures s.supervisor.Running? ==> steps != [] && steps[0] == Restart && !Run(s, steps).value.token
    ensures !s.supervisor.Running? ==> Run(s, steps).value.token == s.token
    decreases patience
  {
    if s.supervisor.Head? {
      steps := HeadLaunches(s);
    } else {
      var step :=
        if s.supervisor.Sleeping? then Woke else if s.supervisor.Stopping? then Died
        else if s.supervisor.Starting? then StartFailed else Restart;
      var rest := Launches(Next(s, step), patience - 1);
      RunOne(s, step, rest);
      steps := [step] + rest;
    }
  }

  // From every reachable state that is not cancelled the supervisor can, by
  // itself, get to run FFmpeg on what is configured: from a running FFmpeg with
  // a token pending, by taking that token.
  lemma SupervisorProgress(cfg: Config, before: seq<Step>) returns (steps: seq<Step>)
    requires Run(Init(cfg), before).Some? && !Run(Init(cfg), before).value.cancelled
    ensures var s := Run(Init(cfg), before).value;
      && OwnSteps(steps) && Run(s, steps).Some? && Run(s, steps).value.supervisor.Running?
      && Run(s, steps).value.cfg == s.cfg
      && (s.supervisor.Running? && s.token ==>
            steps != [] && steps[0] == Restart && !Run(s, steps).value.token)
      && (s.supervisor.Running? && !s.token ==> steps == [])
      && (steps != [] ==> Run(s, steps).value.supervisor.c == s.cfg)
  {
    var s := Run(Init(cfg), before).value;
    StopsOnlyCancelled(cfg, before);
    if s.supervisor.Running? && !s.token {
      steps := [];
    } else {
      steps := Launches(s, Patience(s));
      assert s.supervisor.Head? ==> steps != [];
    }
  }

  // FFmpeg that exits by itself is started again.
  lemma ExitedLaunches(s: System) returns (steps: seq<Step>)
    requires s.supervisor.Running? && !s.cancelled
    ensures OwnSteps(steps) && Run(Next(s, Exited), steps).Some?
    ensures Run(Next(s, Exited), steps).value.supervisor == Running(s.cfg)
  {
    steps := Launches(Next(s, Exited), 1);
  }

  // Once cancelled, the supervisor can return.
  lemma CancelledReturns(s: System) returns (steps: seq<Step>)
    requires s.cancelled
    ensures OwnSteps(steps) && Run(s, steps).Some? && Run(s, steps).value.supervisor.Stopped?
  {
    match s.supervisor
    case Head =>
      steps := [Quit] + [];
      RunOne(s, Quit, []);
    case Sleeping =>
      steps := [Quit] + [];
      RunOne(s, Quit, []);
    case Starting(_) =>
      steps := [StartFailed] + ([Quit] + []);
      RunOne(s, StartFailed, [Quit] + []);
      RunOne(Next(s, StartFailed), Quit, []);
    case Running(_) =>
      steps := [Kill] + ([Died] + []);
      RunOne(s, Kill, [Died] + []);
      RunOne(Next(s, Kill), Died, []);
    case Stopping(_) =>
      steps := [Died] + [];
      RunOne(s, Died, []);
    case Stopped =>
      steps := [];
  }

  // A cancellation, whenever it comes, lets it return.
  lemma CancelReturns(s: System) returns (steps: seq<Step>)
    ensures OwnSteps(steps) && Run(s, [Cancel] + steps).Some?
    ensures Run(s, [Cancel] + steps).value.supervisor.Stopped?
  {
    RunOne(s, Cancel, []);
    steps := CancelledReturns(Next(s, Cancel));
    RunOne(s, Cancel, steps);
  }

  // ---------------------------------------------------------------------
  // The file
  // ---------------------------------------------------------------------

  // The nine fields the file holds.
  function Filed(s: System): Option<Video> {
    match s.writer
    case Committed(n) => if n < |s.history| then Some(s.history[n].video) else None
    case Pending(id) => if id in s.persisted then Some(s.persisted[id].video) else None
  }

  lemma FileStep(s: System, step: Step)
    requires Filed(s) == Some(s.file) && Enabled(s, step)
    ensures Filed(Next(s, step)) == Some(Next(s, step).file)
  {
  }

  lemma {:induction false} FileRun(s: System, steps: seq<Step>)
    requires Filed(s) == Some(s.file) && Run(s, steps).Some?
    ensures Filed(Run(s, steps).value) == Some(Run(s, steps).value.file)
    decreases |steps|
  {
    if steps != [] {
      FileStep(s, steps[0]);
      FileRun(Next(s, steps[0]), steps[1..]);
    }
  }

  // In every run the file holds the fields of the last update to write it. It
  // agrees with the running configuration exactly when that update has
  // committed and the commits since then came back to its fields, or is still
  // to commit the fields there are.
  lemma FileAgreesExactly(cfg: Config, steps: seq<Step>)
    requires Run(Init(cfg), steps).Some?
    ensures var s := Run(Init(cfg), steps).value;
      match s.writer
      case Committed(n) => n < |s.history| && (s.file == s.cfg.video <==> s.history[n].video == s.cfg.video)
      case Pending(id) => id in s.persisted && (s.file == s.cfg.video <==> s.persisted[id].video == s.cfg.video)
  {
    FileRun(Init(cfg), steps);
  }

  // Every update writes the file, and none while another is between its write
  // and its commit.
  ghost predicate WritesInTurn(s: System, steps: seq<Step>)
    decreases |steps|
  {
    steps != [] && Enabled(s, steps[0]) ==>
      && (steps[0].Persist? ==> s.persisted == map[])
      && (steps[0].Commit? ==> steps[0].id in s.persisted)
      && WritesInTurn(Next(s, steps[0]), steps[1..])
  }

  // The file is ahead by the one update that has written it, if any.
  ghost predicate InTurnSoFar(s: System) {
    || (s.persisted == map[] && s.file == s.cfg.video)
    || exists id, next: Config :: s.persisted == map[id := next] && s.file == next.video
  }

  lemma InTurnStep(s: System, step: Step)
    requires InTurnSoFar(s) && Enabled(s, step)
    requires (step.Persist? ==> s.persisted == map[]) && (step.Commit? ==> step.id in s.persisted)
    ensures InTurnSoFar(Next(s, step))
  {
    match step
    case Persist(id, next) =>
      assert Next(s, step).persisted == map[id := next];
    case Commit(id, next) =>
      var only, its: Config :| s.persisted == map[only := its] && s.file == its.video;
      assert id == only && its == next;
      assert Next(s, step).persisted == map[];
    case _ =>
  }

  lemma AtRest(s: System)
    requires InTurnSoFar(s) && s.persisted == map[]
    ensures s.file == s.cfg.video
  {
    if id, next: Config :| s.persisted == map[id := next] && s.file == next.video {
      assert id in s.persisted;
    }
  }

  // Then, whenever no update is in between, the file agrees.
  lemma {:induction false} FileFollows(s: System, steps: seq<Step>)
    requires InTurnSoFar(s) && Run(s, steps).Some? && WritesInTurn(s, steps)
    ensures InTurnSoFar(Run(s, steps).value)
    ensures var t := Run(s, steps).value; t.persisted == map[] ==> t.file == t.cfg.video
    decreases |steps|
  {
    if steps != [] {
      InTurnStep(s, steps[0]);
      FileFollows(Next(s, steps[0]), steps[1..]);
    } else if s.persisted == map[] {
      AtRest(s);
    }
  }

  // Two updates that write in one order and commit in the other leave the file
  // with the fields of one and memory with those of the other.
  lemma CrossedWrites(cfg: Config, n0: Config, n1: Config)
    requires Valid(n0) && Valid(n1)
    ensures var s := Run(Init(cfg), [Read(0), Read(1), Persist(0, n0), Persist(1, n1), Commit(1, n1), Commit(0, n0)]);
      s.Some? && s.value.persisted == map[] && s.value.file == n1.video && s.value.cfg.video == n0.video
  {
    var writes := [Persist(0, n0), Persist(1, n1)];
    var commits := [Commit(1, n1), Commit(0, n0)];
    var s2 := Next(Next(Init(cfg), Read(0)), Read(1));
    RunTwo(Init(cfg), Read(0), Read(1), writes + commits);
    RunTwo(s2, writes[0], writes[1], commits);
    var s4 := Next(Next(s2, writes[0]), writes[1]);
    RunTwo(s4, commits[0], commits[1], []);
    assert [Read(0), Read(1)] + (writes + commits) ==
      [Read(0), Read(1), Persist(0, n0), Persist(1, n1), Commit(1, n1), Commit(0, n0)];
    assert commits + [] == commits;
    assert [commits[0], commits[1]] == commits && [writes[0], writes[1]] == writes;
  }

  lemma RunTwo(s: System, a: Step, b: Step, rest: seq<Step>)
    requires Enabled(s, a) && Enabled(Next(s, a), b)
    ensures Run(s, [a, b] + rest) == Run(Next(Next(s, a), b), rest)
  {
    assert ([a, b] + rest)[1..] == [b] + rest;
    assert ([b] + rest)[1..] == rest;
  }

  // ---------------------------------------------------------------------
  // Validity over every interleaving
  // ---------------------------------------------------------------------

  // The running configuration is valid, and every copy taken differs from it
  // in video fields only.
  ghost predicate Healthy(s: System) {
    Valid(s.cfg) && forall id :: id in s.reading ==> s.reading[id].site == s.cfg.site
  }

  lemma HealthyStep(s: System, step: Step)
    requires Healthy(s) && Enabled(s, step) && HandlerDriven(s, step)
    ensures Healthy(Next(s, step)) && Next(s, step).cfg.site == s.cfg.site
  {
    if step.Commit? {
      var r :| Prepare(s.reading[step.id], r) == Accepted(step.next);
      SameSite(s.reading[step.id], r);
      assert step.next == s.cfg.(video := step.next.video);
    }
  }

  // Starting from a valid configuration, every interleaving of handler-driven
  // updates keeps it valid.
  lemma {:induction false} AlwaysValid(s: System, steps: seq<Step>)
    requires Healthy(s) && Run(s, steps).Some? && AllHandlerDriven(s, steps)
    ensures Healthy(Run(s, steps).value)
    decreases |steps|
  {
    if steps != [] {
      HealthyStep(s, steps[0]);
      AlwaysValid(Next(s, steps[0]), steps[1..]);
    }
  }

  // ---------------------------------------------------------------------
  // Lost updates
  // ---------------------------------------------------------------------

  // In any state of any interleaving, a commit does what the request would
  // have done in one piece exactly when the request asks for everything in
  // which the configuration has moved on from the copy it was prepared on.
  lemma CommitIsAtomicExactly(s: System, id: nat, r: Request, next: Config)
    requires Healthy(s) && Enabled(s, Commit(id, next)) && Prepare(s.reading[id], r) == Accepted(next)
    ensures Set(s.cfg, r) == Accepted(Next(s, Commit(id, next)).cfg) <==> Covers(r, s.reading[id], s.cfg)
  {
    SameSite(s.reading[id], r);
    assert Next(s, Commit(id, next)).cfg == next;
    StaleSetExactly(s.reading[id], s.cfg, r);
  }

  // ... in particular when nobody else committed since the copy was taken.
  lemma FreshCommitIsAtomic(s: System, id: nat, r: Request, next: Config)
    requires Healthy(s) && Enabled(s, Commit(id, next)) && Prepare(s.reading[id], r) == Accepted(next)
    requires s.reading[id] == s.cfg
    ensures Set(s.cfg, r) == Accepted(Next(s, Commit(id, next)).cfg)
  {
    CommitIsAtomicExactly(s, id, r, next);
  }

  // One request run after another.
  predicate InTurn(cfg: Config, first: Request, second: Request, final: Config) {
    match Set(cfg, first)
    case Refused(_) => false
    case Accepted(next) => Set(next, second) == Accepted(final)
  }

  // Of two requests prepared on the same copy, the second to commit leaves
  // what some serial order would leave exactly when it asks for everything the
  // first changed, or leaves the first nothing to ask for.
  lemma OverlapExactly(cfg: Config, first: Request, second: Request)
    requires Valid(cfg) && Set(cfg, first).Accepted? && Set(cfg, second).Accepted?
    ensures var final := Set(cfg, second).next;
      InTurn(cfg, first, second, final) || InTurn(cfg, second, first, final) <==>
        Covers(second, cfg, Set(cfg, first).next) || Settled(first, final)
  {
    var next, final := Set(cfg, first).next, Set(cfg, second).next;
    SameSite(cfg, first);
    SameSite(cfg, second);
    StaleSetExactly(cfg, next, second);
    SettledExactly(final, first, cfg);
  }

  // The reads and commits of a run, in order.
  datatype Edit = Copied(id: nat) | Stored(id: nat)

  function EditsOf(steps: seq<Step>): seq<Edit> {
    if steps == [] then []
    else
      (match steps[0]
       case Read(id) => [Copied(id)]
       case Commit(id, _) => [Stored(id)]
       case _ => []) + EditsOf(steps[1..])
  }

  // Update number id is the handler serving request rs(id).
  ghost predicate Serves(s: System, steps: seq<Step>, rs: nat -> Request)
    decreases |steps|
  {
    steps != [] && Enabled(s, steps[0]) ==>
      && (steps[0].Commit? ==> Prepare(s.reading[steps[0].id], rs(steps[0].id)) == Accepted(steps[0].next))
      && Serves(Next(s, steps[0]), steps[1..], rs)
  }

  // What the edits alone come to, where apply(c, id) is what update id makes of
  // a copy c.
  function Edited<T>(c: T, copies: map<nat, T>, apply: (T, nat) -> Option<T>, edits: seq<Edit>): Option<T>
    decreases |edits|
  {
    if edits == [] then Some(c)
    else
      match edits[0]
      case Copied(id) => Edited(c, copies[id := c], apply, edits[1..])
      case Stored(id) =>
        if id !in copies then None
        else
          match apply(copies[id], id)
          case None => None
          case Some(next) => Edited(next, copies, apply, edits[1..])
  }

  function Setter(rs: nat -> Request): (Config, nat) -> Option<Config> {
    (c: Config, id: nat) => match Set(c, rs(id)) case Accepted(next) => Some(next) case Refused(_) => None
  }

  lemma CommitSets(s: System, id: nat, next: Config, rs: nat -> Request)
    requires Enabled(s, Commit(id, next)) && Prepare(s.reading[id], rs(id)) == Accepted(next)
    requires s.reading[id].site == s.cfg.site
    ensures Setter(rs)(s.reading[id], id) == Some(next) && Next(s, Commit(id, next)).cfg == next
  {
    SameSite(s.reading[id], rs(id));
  }

  // Every copy in use is among those taken, and of the same site.
  ghost predicate CopiesKept(s: System, copies: map<nat, Config>) {
    forall id :: id in s.reading ==>
      id in copies && copies[id] == s.reading[id] && s.reading[id].site == s.cfg.site
  }

  function CopiesAfter(s: System, step: Step, copies: map<nat, Config>): map<nat, Config> {
    if step.Read? then copies[step.id := s.cfg] else copies
  }

  lemma KeptStep(s: System, step: Step, copies: map<nat, Config>)
    requires CopiesKept(s, copies) && Enabled(s, step)
    ensures CopiesKept(Next(s, step), CopiesAfter(s, step, copies))
  {
  }

  lemma EditedCopied<T>(c: T, copies: map<nat, T>, apply: (T, nat) -> Option<T>, id: nat, rest: seq<Edit>)
    ensures Edited(c, copies, apply, [Copied(id)] + rest) == Edited(c, copies[id := c], apply, rest)
  {
    assert ([Copied(id)] + rest)[1..] == rest;
  }

  lemma EditedStored<T>(c: T, copies: map<nat, T>, apply: (T, nat) -> Option<T>, id: nat, rest: seq<Edit>)
    requires id in copies
    ensures Edited(c, copies, apply, [Stored(id)] + rest) ==
              match apply(copies[id], id) case None => None case Some(next) => Edited(next, copies, apply, rest)
  {
    assert ([Stored(id)] + rest)[1..] == rest;
  }

  // The supervisor, the tokens and the abandoned updates do not matter to the
  // configuration.
  lemma {:induction false} RunIsEdits(s: System, steps: seq<Step>, rs: nat -> Request, copies: map<nat, Config>)
    requires Run(s, steps).Some? && Serves(s, steps, rs) && CopiesKept(s, copies)
    ensures Edited(s.cfg, copies, Setter(rs), EditsOf(steps)) == Some(Run(s, steps).value.cfg)
    decreases |steps|
  {
    if steps != [] {
      var step, rest := steps[0], EditsOf(steps[1..]);
      KeptStep(s, step, copies);
      RunIsEdits(Next(s, step), steps[1..], rs, CopiesAfter(s, step, copies));
      match step
      case Read(id) => EditedCopied(s.cfg, copies, Setter(rs), id, rest);
      case Commit(id, next) =>
        CommitSets(s, id, next, rs);
        EditedStored(s.cfg, copies, Setter(rs), id, rest);
      case _ => assert EditsOf(steps) == rest;
    }
  }

  // Two updates, each reading and committing once, and nothing else.
  ghost predicate TwoUpdates(edits: seq<Edit>) {
    && |edits| == 4
    && Copied(0) in edits && Stored(0) in edits && Copied(1) in edits && Stored(1) in edits
  }

  predicate Turns(edits: seq<Edit>, a: nat, b: nat) {
    edits == [Copied(a), Stored(a), Copied(b), Stored(b)]
  }

  predicate Overlap(edits: seq<Edit>, a: nat, b: nat) {
    || edits == [Copied(a), Copied(b), Stored(a), Stored(b)]
    || edits == [Copied(b), Copied(a), Stored(a), Stored(b)]
  }

  // A commit comes after its read.
  ghost predicate ReadBeforeCommit(edits: seq<Edit>, id: nat) {
    forall k :: 0 <= k < |edits| && edits[k] == Stored(id) ==> exists j :: 0 <= j < k && edits[j] == Copied(id)
  }

  lemma {:induction false} CopiedFirst<T>(
      c: T, copies: map<nat, T>, apply: (T, nat) -> Option<T>, edits: seq<Edit>, id: nat)
    requires Edited(c, copies, apply, edits).Some? && id !in copies
    ensures ReadBeforeCommit(edits, id)
    decreases |edits|
  {
    if edits != [] && edits[0] != Copied(id) {
      forall k | 0 <= k < |edits| && edits[k] == Stored(id)
        ensures exists j :: 0 <= j < k && edits[j] == Copied(id)
      {
        match edits[0]
        case Copied(other) => CopiedFirst(c, copies[other := c], apply, edits[1..], id);
        case Stored(other) => CopiedFirst(apply(copies[other], other).value, copies, apply, edits[1..], id);
        assert edits[1..][k - 1] == Stored(id);
        var j :| 0 <= j < k - 1 && edits[1..][j] == Copied(id);
        assert edits[j + 1] == Copied(id);
      }
    }
  }

  lemma SixOrders(edits: seq<Edit>)
    requires TwoUpdates(edits)
    requires ReadBeforeCommit(edits, 0) && ReadBeforeCommit(edits, 1)
    ensures Turns(edits, 0, 1) || Turns(edits, 1, 0) || Overlap(edits, 0, 1) || Overlap(edits, 1, 0)
  {
    var a, b, c, d := edits[0], edits[1], edits[2], edits[3];
    assert edits == [a, b, c, d];
    assert a.Copied? && (a.id == 0 || a.id == 1);
  }

  lemma EditedInTurn<T>(c: T, apply: (T, nat) -> Option<T>, a: nat, b: nat)
    ensures Edited(c, map[], apply, [Copied(a), Stored(a), Copied(b), Stored(b)]) ==
              match apply(c, a) case None => None case Some(next) => apply(next, b)
  {
    var last := [Stored(b)] + [];
    assert [Copied(a), Stored(a), Copied(b), Stored(b)] == [Copied(a)] + ([Stored(a)] + ([Copied(b)] + last));
    EditedCopied(c, map[], apply, a, [Stored(a)] + ([Copied(b)] + last));
    EditedStored(c, map[a := c], apply, a, [Copied(b)] + last);
    if apply(c, a).Some? {
      var next := apply(c, a).value;
      EditedCopied(next, map[a := c], apply, b, last);
      EditedStored(next, map[a := c][b := next], apply, b, []);
    }
  }

  lemma EditedOverlapping<T>(c: T, apply: (T, nat) -> Option<T>, edits: seq<Edit>, a: nat, b: nat)
    requires a != b && Overlap(edits, a, b)
    ensures Edited(c, map[], apply, edits) == if apply(c, a).None? then None else apply(c, b)
  {
    var last := [Stored(b)] + [];
    var x, y := edits[0].id, edits[1].id;
    var copies := map[x := c][y := c];
    assert edits == [Copied(x)] + ([Copied(y)] + ([Stored(a)] + last));
    EditedCopied(c, map[], apply, x, [Copied(y)] + ([Stored(a)] + last));
    EditedCopied(c, map[x := c], apply, y, [Stored(a)] + last);
    assert copies[a] == c && copies[b] == c;
    EditedStored(c, copies, apply, a, last);
    if apply(c, a).Some? {
      EditedStored(apply(c, a).value, copies, apply, b, []);
    }
  }

  // In whatever run two updates read and commit once each, the configuration
  // ends as in some serial order if and only if they do not overlap, or the
  // last to commit asks for everything the other changed, or leaves the other
  // nothing to ask for.
  lemma SerializableExactly(cfg: Config, steps: seq<Step>, rs: nat -> Request, first: nat, last: nat)
    requires Valid(cfg) && Run(Init(cfg), steps).Some? && Serves(Init(cfg), steps, rs)
    requires TwoUpdates(EditsOf(steps)) && ((first == 0 && last == 1) || (first == 1 && last == 0))
    requires EditsOf(steps)[3] == Stored(last)
    ensures var final := Run(Init(cfg), steps).value.cfg;
      InTurn(cfg, rs(first), rs(last), final) || InTurn(cfg, rs(last), rs(first), final) <==>
        || Turns(EditsOf(steps), first, last)
        || (Set(cfg, rs(first)).Accepted? && Covers(rs(last), cfg, Set(cfg, rs(first)).next))
        || (Set(cfg, rs(last)).Accepted? && Settled(rs(first), Set(cfg, rs(last)).next))
  {
    var edits, final := EditsOf(steps), Run(Init(cfg), steps).value.cfg;
    RunIsEdits(Init(cfg), steps, rs, map[]);
    CopiedFirst(cfg, map[], Setter(rs), edits, 0);
    CopiedFirst(cfg, map[], Setter(rs), edits, 1);
    SixOrders(edits);
    if Turns(edits, first, last) {
      EditedInTurn(cfg, Setter(rs), first, last);
    } else {
      assert Overlap(edits, first, last);
      EditedOverlapping(cfg, Setter(rs), edits, first, last);
      OverlapExactly(cfg, rs(first), rs(last));
    }
  }

  // So two overlapping updates of different streams, neither of them asking
  // for a GOP, lose the first whenever it changes anything.
  lemma OverlappingUpdateIsLost(cfg: Config, r0: Request, r1: Request, n0: Config, n1: Config)
    requires Prepare(cfg, r0) == Accepted(n0) && Prepare(cfg, r1) == Accepted(n1) && Valid(n0) && Valid(n1)
    requires r0.token != r1.token && Gov(r0) == 0 && Gov(r1) == 0
    ensures var s := Run(Init(cfg), [Read(0), Read(1), Commit(0, n0), Commit(1, n1)]);
      && s.Some?
      && (StreamOf(s.value.cfg.video, r0.token == SUB) == StreamOf(n0.video, r0.token == SUB) <==>
            n0.video == cfg.video)
  {
    RunOverlapping(cfg, n0, n1);
    PreparedStores(cfg, r0);
    PreparedStores(cfg, r1);
    assert StreamOf(n1.video, r0.token == SUB) == StreamOf(cfg.video, r0.token == SUB);
    assert StreamOf(n0.video, r1.token == SUB) == StreamOf(cfg.video, r1.token == SUB);
  }

  lemma RunOverlapping(cfg: Config, n0: Config, n1: Config)
    requires Valid(n0) && Valid(n1)
    ensures var s := Run(Init(cfg), [Read(0), Read(1), Commit(0, n0), Commit(1, n1)]);
      s.Some? && s.value.cfg.video == n1.video
  {
    var commits := [Commit(0, n0), Commit(1, n1)];
    RunTwo(Init(cfg), Read(0), Read(1), commits);
    RunTwo(Next(Next(Init(cfg), Read(0)), Read(1)), commits[0], commits[1], []);
    assert [Read(0), Read(1)] + commits == [Read(0), Read(1), Commit(0, n0), Commit(1, n1)];
    assert [commits[0], commits[1]] + [] == commits;
  }
}
