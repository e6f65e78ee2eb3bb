/**
 * A job under its operator, who may cancel and retry at any moment, also in the middle of a target, while a worker
 * goes through a run step by step, dies on the way, or is given the job again.
 */
module JobControl {
  import opened DiscoveryRun

  /** The worker commits after every update and rolls back after a failing target. */
  const WORKER := Config(true, true)

  predicate CanCancel(job: Job) { job.status == Pending || job.status == Running }

  function OperatorCancelled(job: Job): Job { job.(status := Cancelled, finished := true, flagged := true) }

  function OperatorRetried(job: Job): Job { Job(Pending, false, false, ZERO) }

  /** The operator's requests on one job; a refusal is answered with a conflict and changes nothing. */
  class JobDesk {
    var job: Job

    constructor (job: Job)
      ensures this.job == job
    {
      this.job := job;
    }

    method CancelJob() returns (accepted: bool)
      modifies this
      ensures accepted <==> old(job).status == Pending || old(job).status == Running
      ensures accepted ==> job.status == Cancelled && job.finished && job.flagged && job.stats == old(job).stats
      ensures accepted == CanCancel(old(job))
      ensures job == if accepted then OperatorCancelled(old(job)) else old(job)
    {
      if job.status != Pending && job.status != Running { return false; }
      job := job.(status := Cancelled);
      job := job.(finished := true);
      job := job.(flagged := true);
      return true;
    }

    method RetryJob() returns (accepted: bool)
      modifies this
      ensures accepted <==> old(job).status != Running
      ensures accepted ==>
                job.status == Pending && !job.finished && !job.flagged && job.stats == Stats(0, 0, 0, 0, 0, 0, 0, false)
      ensures job == if accepted then OperatorRetried(old(job)) else old(job)
    {
      if job.status == Running { return false; }
      job := job.(status := Pending);
      job := job.(finished := false);
      job := job.(stats := ZERO);
      job := job.(flagged := false);
      return true;
    }
  }

  // ---------------------------------------------------------------- the job row and the worker, step by step

  /**
   * What an update does to the stored row: it writes every column, or only those in which the job differs from the
   * row as the session last read it.
   */
  datatype Writing = WholeRow | ChangedColumns

  function Written(writing: Writing, row: Job, read: Job, job: Job): Job {
    if writing.WholeRow? then job
    else Job(
      if job.status != read.status then job.status else row.status,
      if job.flagged != read.flagged then job.flagged else row.flagged,
      if job.finished != read.finished then job.finished else row.finished,
      if job.stats != read.stats then job.stats else row.stats)
  }

  /** Where the worker is, with the job object it works on and, between a check and the next update, the row it read. */
  datatype Worker =
    | Idle
    | Loading(job: Job)
    | Checking(job: Job, targets: seq<string>, next: nat)
    | Visiting(job: Job, targets: seq<string>, at: nat, read: Job)
    | Snapshotting(job: Job, read: Job)

  /** The stored row, the worker, and what the worker has done so far. */
  datatype Scene = Scene(row: Job, worker: Worker, log: seq<Stats>, probed: seq<string>, snapshots: nat)

  datatype Event =
    | OperatorCancels
    | OperatorRetries
    | WorkerStarts
    | SeedsFail
    | SeedsLoad(targets: seq<string>)
    | WorkerChecks
    | VisitEnds(visit: Visit)
    | SnapshotFails
    | SnapshotStored
    | WorkerDies

  /** The run in the hands of the worker. */
  function RunOf(scene: Scene, job: Job): Run {
    Run(Store(scene.row, scene.row, scene.log, scene.probed, scene.snapshots), job)
  }

  /** The scene once the worker has taken a step that read the row as `read`. */
  function Moved(writing: Writing, scene: Scene, read: Job, run: Run, worker: Worker): Scene {
    Scene(Written(writing, scene.row, read, run.store.committed), worker,
          run.store.log, run.store.probed, run.store.snapshots)
  }

  /** What a reload brings back is the row as it is, not a cancel of its own. */
  function AsStored(visit: Visit): Visit {
    if !Reloads(visit) then visit
    else
      match visit
      case ProbeFails(_) => ProbeFails(Reloaded(false))
      case CollectFails(_) => CollectFails(Reloaded(false))
      case _ => UnknownFails(Reloaded(false))
  }

  function Ending(writing: Writing, scene: Scene, read: Job, job: Job, status: Status): Scene {
    Moved(writing, scene, read, Ended(WORKER, RunOf(scene, job), status), Idle)
  }

  /** The outer exception handler: it reads the row before it ends the job. */
  function Breaking(writing: Writing, scene: Scene, job: Job): Scene {
    Ending(writing, scene, scene.row, job, if AlreadyCancelled(scene.row) then Cancelled else Failed)
  }

  function Starting(writing: Writing, scene: Scene): Scene {
    if AlreadyCancelled(scene.row) then
      Moved(writing, scene, scene.row, Persisted(WORKER, RunOf(scene, scene.row.(finished := true))), Idle)
    else
      var run := Started(WORKER, RunOf(scene, scene.row).store);
      Moved(writing, scene, scene.row, run, Loading(run.job))
  }

  /** The check before target number `next`, or after the last one: it reads the row. */
  function Checked(writing: Writing, scene: Scene, job: Job, targets: seq<string>, next: nat): Scene {
    if AlreadyCancelled(scene.row) then Ending(writing, scene, scene.row, job, Cancelled)
    else scene.(worker :=
      if next < |targets| then Visiting(job, targets, next, scene.row) else Snapshotting(job, scene.row))
  }

  function VisitedAt(writing: Writing, scene: Scene, visit: Visit): Scene
    requires scene.worker.Visiting?
  {
    var w := scene.worker;
    if w.at >= |w.targets| then scene
    else
      var run := Visited(WORKER, RunOf(scene, w.job), w.at + 1, w.targets[w.at], AsStored(visit));
      Moved(writing, scene, if Reloads(visit) then scene.row else w.read, run, Checking(run.job, w.targets, w.at + 1))
  }

  /** The next scene; an event that cannot happen now changes nothing. */
  function After(writing: Writing, scene: Scene, event: Event): Scene {
    match (event, scene.worker)
    case (OperatorCancels, _) => if CanCancel(scene.row) then scene.(row := OperatorCancelled(scene.row)) else scene
    case (OperatorRetries, _) => if scene.row.status != Running then scene.(row := OperatorRetried(scene.row)) else scene
    case (WorkerStarts, Idle) => Starting(writing, scene)
    case (SeedsFail, Loading(job)) => Breaking(writing, scene, job)
    case (SeedsLoad(targets), Loading(job)) =>
      var run := Announced(WORKER, RunOf(scene, job), targets);
      Moved(writing, scene, job, run, Checking(run.job, targets, 0))
    case (WorkerChecks, Checking(job, targets, next)) => Checked(writing, scene, job, targets, next)
    case (VisitEnds(visit), Visiting(_, _, _, _)) => VisitedAt(writing, scene, visit)
    case (SnapshotFails, Snapshotting(job, _)) => Breaking(writing, scene, job)
    case (SnapshotStored, Snapshotting(job, read)) =>
      Ending(writing, scene.(snapshots := scene.snapshots + 1), read, job.(stats := job.stats.(snapshot := true)), Completed)
    case (WorkerDies, _) => scene.(worker := Idle)
    case _ => scene
  }

  function AfterAll(writing: Writing, scene: Scene, events: seq<Event>): Scene
    decreases |events|
  {
    if events == [] then scene else AfterAll(writing, After(writing, scene, events[0]), events[1..])
  }

  // ---------------------------------------------------------------- what holds while a worker is at work

  predicate IsOpen(job: Job) { job.status == Pending || job.status == Running }

  /** Neither the row nor the job object has run to its end while the worker is at work, and a check that passed read an open row. */
  predicate Attended(scene: Scene) {
    match scene.worker
    case Idle => true
    case Loading(job) => Unended(scene.row) && Unended(job)
    case Checking(job, _, _) => Unended(scene.row) && Unended(job)
    case Visiting(job, _, _, read) => Unended(scene.row) && Unended(job) && IsOpen(read) && !read.flagged
    case Snapshotting(job, read) => Unended(scene.row) && Unended(job) && IsOpen(read) && !read.flagged
  }

  predicate Unended(job: Job) { job.status != Completed && job.status != Failed }

  lemma VisitKeepsStatus(run: Run, index: nat, target: string, visit: Visit)
    requires visit == AsStored(visit)
    ensures var after := Visited(WORKER, run, index, target, visit);
            var job := if Reloads(visit) then run.store.committed else run.job;
            && after.job == job.(stats := after.job.stats)
            && after.store.committed == (if Updates(visit, index) then after.job else run.store.committed)
            && after.store.snapshots == run.store.snapshots && after.store.probed == run.store.probed + [target]
  {
  }

  /** What the end of a visit makes of the row, the job object and the record of what was probed. */
  lemma VisitBecomes(writing: Writing, scene: Scene, visit: Visit)
    requires scene.worker.Visiting? && scene.worker.at < |scene.worker.targets|
    ensures var w, after := scene.worker, After(writing, scene, VisitEnds(visit));
            && after.worker.Checking?
            && var job := after.worker.job;
               && job == (if Reloads(visit) then scene.row else w.job).(stats := job.stats)
               && after.row == Written(writing, scene.row, if Reloads(visit) then scene.row else w.read,
                                       if Updates(visit, w.at + 1) then job else scene.row)
               && after.snapshots == scene.snapshots && after.probed == scene.probed + [w.targets[w.at]]
  {
    var w := scene.worker;
    VisitKeepsStatus(RunOf(scene, w.job), w.at + 1, w.targets[w.at], AsStored(visit));
  }

  predicate EndsVisit(scene: Scene, event: Event) {
    event.VisitEnds? && scene.worker.Visiting? && scene.worker.at < |scene.worker.targets|
  }

  lemma AttendedStays(writing: Writing, scene: Scene, event: Event)
    requires Attended(scene)
    ensures Attended(After(writing, scene, event))
  {
    if EndsVisit(scene, event) { VisitBecomes(writing, scene, event.visit); }
  }

  // ---------------------------------------------------------------- when a cancel is seen

  /**
   * A cancel that arrives while a target is visited is seen by the next check exactly when the session writes changed
   * columns only, or the visit writes no update, or it reloads the job.
   */
  lemma CancelInVisitIsSeenIff(writing: Writing, scene: Scene, visit: Visit)
    requires scene.worker.Visiting? && scene.worker.at < |scene.worker.targets|
    requires scene.row.status == Running && !scene.row.flagged && scene.worker.read == scene.row
    requires scene.worker.job.status == Running && !scene.worker.job.flagged
    ensures var cancelled := After(writing, scene, OperatorCancels);
            var after := After(writing, cancelled, VisitEnds(visit));
            && cancelled.row.status == Cancelled
            && (After(writing, after, WorkerChecks).worker == Idle
                <==> writing.ChangedColumns? || !Updates(visit, scene.worker.at + 1) || Reloads(visit))
  {
    VisitBecomes(writing, After(writing, scene, OperatorCancels), visit);
  }

  /** The events that take a cancelled job out of that state. */
  predicate Overrides(writing: Writing, scene: Scene, event: Event) {
    match (event, scene.worker)
    case (OperatorRetries, _) => true
    case (SeedsLoad(_), Loading(job)) => writing.WholeRow? && job.status != Cancelled
    case (VisitEnds(visit), Visiting(job, targets, at, read)) =>
      && at < |targets| && Updates(visit, at + 1) && !Reloads(visit) && job.status != Cancelled
      && (writing.WholeRow? || job.status != read.status)
    case (SnapshotStored, Snapshotting(_, _)) => true
    case _ => false
  }

  lemma CancelledUnlessOverridden(writing: Writing, scene: Scene, event: Event)
    requires Attended(scene) && scene.row.status == Cancelled
    ensures After(writing, scene, event).row.status == Cancelled <==> !Overrides(writing, scene, event)
  {
    if EndsVisit(scene, event) { VisitBecomes(writing, scene, event.visit); }
  }

  predicate StaysCancelled(writing: Writing, scene: Scene, events: seq<Event>)
    decreases |events|
  {
    && scene.row.status == Cancelled
    && (events != [] ==> StaysCancelled(writing, After(writing, scene, events[0]), events[1..]))
  }

  predicate NeverOverridden(writing: Writing, scene: Scene, events: seq<Event>)
    decreases |events|
  {
    events != [] ==>
      !Overrides(writing, scene, events[0]) && NeverOverridden(writing, After(writing, scene, events[0]), events[1..])
  }

  /** The worker has gone no further than the end of the target it was at. */
  predicate WoundUp(start: Scene, now: Scene) {
    && now.snapshots == start.snapshots
    && if now.worker.Visiting? || now.worker.Snapshotting?
       then now.worker == start.worker && now.probed == start.probed
       else now.probed == start.probed
            || (start.worker.Visiting? && start.worker.at < |start.worker.targets|
                && now.probed == start.probed + [start.worker.targets[start.worker.at]])
  }

  lemma WoundUpStays(writing: Writing, start: Scene, now: Scene, event: Event)
    requires Attended(now) && now.row.status == Cancelled && WoundUp(start, now) && !Overrides(writing, now, event)
    ensures WoundUp(start, After(writing, now, event))
  {
    if EndsVisit(now, event) { VisitBecomes(writing, now, event.visit); }
  }

  /**
   * A cancelled job stays cancelled through a history exactly when no event of it overrides the cancel; the worker then
   * at most finishes the target it is at, and stores no snapshot.
   */
  lemma CancelHoldsIff(writing: Writing, scene: Scene, events: seq<Event>)
    requires Attended(scene) && scene.row.status == Cancelled
    ensures StaysCancelled(writing, scene, events) <==> NeverOverridden(writing, scene, events)
    ensures NeverOverridden(writing, scene, events) ==> WoundUp(scene, AfterAll(writing, scene, events))
  {
    CancelHoldsFrom(writing, scene, scene, events);
  }

  lemma {:induction false} CancelHoldsFrom(writing: Writing, start: Scene, now: Scene, events: seq<Event>)
    requires Attended(now) && now.row.status == Cancelled && WoundUp(start, now)
    ensures StaysCancelled(writing, now, events) <==> NeverOverridden(writing, now, events)
    ensures NeverOverridden(writing, now, events) ==> WoundUp(start, AfterAll(writing, now, events))
    decreases |events|
  {
    if events != [] {
      CancelledUnlessOverridden(writing, now, events[0]);
      if !Overrides(writing, now, events[0]) {
        AttendedStays(writing, now, events[0]);
        WoundUpStays(writing, start, now, events[0]);
        CancelHoldsFrom(writing, start, After(writing, now, events[0]), events[1..]);
      }
    }
  }

  // ---------------------------------------------------------------- when the end time tells the truth

  /** A job has an end time exactly when it has ended, and carries the cancel flag only when it has ended. */
  predicate Sound(job: Job) {
    (job.finished <==> Terminal(job.status)) && (job.flagged ==> Terminal(job.status))
  }

  predicate AllSound(scene: Scene) {
    && Sound(scene.row) && Attended(scene)
    && match scene.worker
       case Idle => true
       case Loading(job) => Sound(job)
       case Checking(job, _, _) => Sound(job)
       case Visiting(job, _, _, read) => Sound(job) && Sound(read)
       case Snapshotting(job, read) => Sound(job) && Sound(read)
  }

  /**
   * The events that break it: starting a job that is completed or failed, whose end time stays; and, when changed
   * columns are written, an update whose status differs from what was read (the operator had retried the job under the
   * worker) on a row that has been ended since.
   */
  predicate Breaks(writing: Writing, scene: Scene, event: Event) {
    match (event, scene.worker)
    case (WorkerStarts, Idle) => !Unended(scene.row) && !scene.row.flagged
    case (VisitEnds(visit), Visiting(job, targets, at, read)) =>
      && writing.ChangedColumns? && at < |targets| && Updates(visit, at + 1) && !Reloads(visit)
      && IsOpen(job) && job.status != read.status && scene.row.finished
    case _ => false
  }

  lemma VisitSoundIff(writing: Writing, scene: Scene, visit: Visit)
    requires AllSound(scene) && EndsVisit(scene, VisitEnds(visit))
    ensures Sound(After(writing, scene, VisitEnds(visit)).row) <==> !Breaks(writing, scene, VisitEnds(visit))
    ensures !Breaks(writing, scene, VisitEnds(visit)) ==> AllSound(After(writing, scene, VisitEnds(visit)))
  {
    VisitBecomes(writing, scene, visit);
  }

  lemma StepSoundIff(writing: Writing, scene: Scene, event: Event)
    requires AllSound(scene)
    ensures Sound(After(writing, scene, event).row) <==> !Breaks(writing, scene, event)
    ensures !Breaks(writing, scene, event) ==> AllSound(After(writing, scene, event))
  {
    if EndsVisit(scene, event) {
      VisitSoundIff(writing, scene, event.visit);
    }
  }

  predicate AlwaysSound(writing: Writing, scene: Scene, events: seq<Event>)
    decreases |events|
  {
    Sound(scene.row) && (events != [] ==> AlwaysSound(writing, After(writing, scene, events[0]), events[1..]))
  }

  predicate NeverBroken(writing: Writing, scene: Scene, events: seq<Event>)
    decreases |events|
  {
    events != [] ==>
      !Breaks(writing, scene, events[0]) && NeverBroken(writing, After(writing, scene, events[0]), events[1..])
  }

  /** The stored job is sound throughout a history exactly when no event of the history is one of those. */
  lemma {:induction false} SoundIffNeverBroken(writing: Writing, scene: Scene, events: seq<Event>)
    requires AllSound(scene)
    ensures AlwaysSound(writing, scene, events) <==> NeverBroken(writing, scene, events)
    decreases |events|
  {
    if events != [] {
      StepSoundIff(writing, scene, events[0]);
      if !Breaks(writing, scene, events[0]) {
        SoundIffNeverBroken(writing, After(writing, scene, events[0]), events[1..]);
      }
    }
  }

  // ---------------------------------------------------------------- a job left behind by a dead worker

  /** It moves exactly when the operator cancels it or a worker is given it again; a retry is refused. */
  lemma StuckMovesIff(writing: Writing, scene: Scene, event: Event)
    requires scene.worker == Idle && scene.row.status == Running
    ensures After(writing, scene, event) != scene <==> event.OperatorCancels? || event.WorkerStarts?
  {
    if event.WorkerStarts? { assert |After(writing, scene, event).log| == |scene.log| + 1; }
  }

  lemma {:induction false} StuckUntilMoved(writing: Writing, scene: Scene, events: seq<Event>)
    requires scene.worker == Idle && scene.row.status == Running
    requires forall i :: 0 <= i < |events| ==> !events[i].OperatorCancels? && !events[i].WorkerStarts?
    ensures AfterAll(writing, scene, events) == scene
  {
    if events != [] {
      StuckMovesIff(writing, scene, events[0]);
      StuckUntilMoved(writing, scene, events[1..]);
    }
  }

  // ---------------------------------------------------------------- a whole run is a history

  /** The events of one turn whose check does not see the flag. */
  function TurnEvents(turn: Turn): seq<Event> {
    [WorkerChecks] + (if ReloadsCancelled(turn.visit) then [OperatorCancels] else []) + [VisitEnds(turn.visit)]
  }

  predicate ReloadsCancelled(visit: Visit) { Reloads(visit) && visit.recovery.cancelledMeanwhile }

  /** The events after the last target: the last check, then the snapshot. */
  function LastEvents(plan: Plan): seq<Event> {
    if plan.lastCheck then [OperatorCancels, WorkerChecks]
    else if !plan.snapshotRaises then [WorkerChecks, SnapshotStored]
    else if plan.handlerCheck then [WorkerChecks, OperatorCancels, SnapshotFails]
    else [WorkerChecks, SnapshotFails]
  }

  function EventsFrom(plan: Plan, n: nat, i: nat): seq<Event>
    requires i <= n <= |plan.turns|
    decreases n - i
  {
    if i == n then LastEvents(plan)
    else if plan.turns[i].cancelSeen then [OperatorCancels, WorkerChecks]
    else TurnEvents(plan.turns[i]) + EventsFrom(plan, n, i + 1)
  }

  function EventsOf(plan: Plan): seq<Event>
    requires Covers(plan)
  {
    match plan.seeds
    case None => [WorkerStarts] + (if plan.handlerCheck then [OperatorCancels] else []) + [SeedsFail]
    case Some(seeds) => [WorkerStarts, SeedsLoad(Targets(seeds))] + EventsFrom(plan, |Targets(seeds)|, 0)
  }

  /** What the check before target number `i`, or after the last one, sees. */
  predicate NextCheck(plan: Plan, n: nat, i: nat)
    requires i <= n <= |plan.turns|
  {
    if i < n then plan.turns[i].cancelSeen else plan.lastCheck
  }

  /** A cancel that came back with a reload is seen by the next check. */
  predicate Truthful(plan: Plan, n: nat)
    requires n <= |plan.turns|
  {
    forall i :: 0 <= i < n && ReloadsCancelled(plan.turns[i].visit) ==> NextCheck(plan, n, i + 1)
  }

  /** The scene shows the run: the stored row, the records, and the worker between two targets. */
  predicate Shows(scene: Scene, run: Run, targets: seq<string>, next: nat) {
    && scene == Scene(run.store.committed, Checking(run.job, targets, next),
                      run.store.log, run.store.probed, run.store.snapshots)
    && run.store.current == run.store.committed
  }

  /** Row and job are those of a run under way, unless the next check is going to see the row cancelled. */
  predicate UnderWay(run: Run, seen: bool) {
    || (run.job.status == Running && !run.job.flagged
        && run.store.committed.status == Running && !run.store.committed.flagged)
    || (seen && AlreadyCancelled(run.store.committed))
  }

  lemma AfterJoined(writing: Writing, scene: Scene, xs: seq<Event>, ys: seq<Event>)
    ensures AfterAll(writing, scene, xs + ys) == AfterAll(writing, AfterAll(writing, scene, xs), ys)
    decreases |xs|
  {
    if xs == [] {
      assert xs + ys == ys;
    } else {
      AfterJoined(writing, After(writing, scene, xs[0]), xs[1..], ys);
      assert (xs + ys)[1..] == xs[1..] + ys;
    }
  }

  lemma AfterOne(writing: Writing, scene: Scene, a: Event)
    ensures AfterAll(writing, scene, [a]) == After(writing, scene, a)
  {
    assert [a][1..] == [];
  }

  lemma AfterTwo(writing: Writing, scene: Scene, a: Event, b: Event)
    ensures AfterAll(writing, scene, [a, b]) == After(writing, After(writing, scene, a), b)
  {
    assert [a, b][1..] == [b];
    AfterOne(writing, After(writing, scene, a), b);
  }

  lemma AfterThree(writing: Writing, scene: Scene, a: Event, b: Event, c: Event)
    ensures AfterAll(writing, scene, [a, b, c]) == After(writing, After(writing, After(writing, scene, a), b), c)
  {
    assert [a, b, c][1..] == [b, c];
    AfterTwo(writing, After(writing, scene, a), b, c);
  }

  /** A reload after the operator's cancel is a reload that finds the job cancelled meanwhile. */
  lemma ReloadFindsCancel(run: Run, index: nat, target: string, visit: Visit)
    requires ReloadsCancelled(visit)
    ensures var row := OperatorCancelled(run.store.committed);
            Visited(WORKER, run.(store := run.store.(committed := row, current := row)), index, target, AsStored(visit))
            == Visited(WORKER, run, index, target, visit)
  {
  }

  lemma TurnPlayed(writing: Writing, scene: Scene, run: Run, targets: seq<string>, i: nat, turn: Turn)
    requires Shows(scene, run, targets, i) && i < |targets| && UnderWay(run, false)
    ensures var next := Visited(WORKER, run, i + 1, targets[i], turn.visit);
            && Shows(AfterAll(writing, scene, TurnEvents(turn)), next, targets, i + 1)
            && UnderWay(next, ReloadsCancelled(turn.visit))
  {
    if ReloadsCancelled(turn.visit) {
      CancelledTurnPlayed(writing, scene, run, targets, i, turn);
    } else {
      PlainTurnPlayed(writing, scene, run, targets, i, turn);
    }
    VisitStaysUnderWay(run, i + 1, targets[i], turn.visit);
  }

  /** The scene shows the run while target number `i` is visited, after a check that read the row as `read`. */
  predicate ShowsVisit(scene: Scene, run: Run, targets: seq<string>, i: nat, read: Job) {
    && scene == Scene(run.store.committed, Visiting(run.job, targets, i, read),
                      run.store.log, run.store.probed, run.store.snapshots)
    && run.store.current == run.store.committed
  }

  lemma CheckPlayed(writing: Writing, scene: Scene, run: Run, targets: seq<string>, i: nat)
    requires Shows(scene, run, targets, i) && i < |targets| && UnderWay(run, false)
    ensures ShowsVisit(After(writing, scene, WorkerChecks), run, targets, i, scene.row)
  {
  }

  lemma VisitPlayed(writing: Writing, scene: Scene, run: Run, targets: seq<string>, i: nat, read: Job, visit: Visit)
    requires ShowsVisit(scene, run, targets, i, read) && i < |targets| && (Reloads(visit) || read == scene.row)
    ensures Shows(After(writing, scene, VisitEnds(visit)),
                  Visited(WORKER, run, i + 1, targets[i], AsStored(visit)), targets, i + 1)
  {
  }

  lemma PlainTurnPlayed(writing: Writing, scene: Scene, run: Run, targets: seq<string>, i: nat, turn: Turn)
    requires Shows(scene, run, targets, i) && i < |targets| && UnderWay(run, false) && !ReloadsCancelled(turn.visit)
    ensures Shows(AfterAll(writing, scene, TurnEvents(turn)),
                  Visited(WORKER, run, i + 1, targets[i], turn.visit), targets, i + 1)
  {
    var visit := turn.visit;
    assert TurnEvents(turn) == [WorkerChecks, VisitEnds(visit)];
    AfterTwo(writing, scene, WorkerChecks, VisitEnds(visit));
    CheckPlayed(writing, scene, run, targets, i);
    VisitPlayed(writing, After(writing, scene, WorkerChecks), run, targets, i, scene.row, visit);
    assert AsStored(visit) == visit;
  }

  lemma CancelledTurnPlayed(writing: Writing, scene: Scene, run: Run, targets: seq<string>, i: nat, turn: Turn)
    requires Shows(scene, run, targets, i) && i < |targets| && UnderWay(run, false) && ReloadsCancelled(turn.visit)
    ensures Shows(AfterAll(writing, scene, TurnEvents(turn)),
                  Visited(WORKER, run, i + 1, targets[i], turn.visit), targets, i + 1)
  {
    var visit := turn.visit;
    assert TurnEvents(turn) == [WorkerChecks, OperatorCancels, VisitEnds(visit)];
    AfterThree(writing, scene, WorkerChecks, OperatorCancels, VisitEnds(visit));
    CheckPlayed(writing, scene, run, targets, i);
    var row := OperatorCancelled(run.store.committed);
    var cancelled := run.(store := run.store.(committed := row, current := row));
    VisitPlayed(writing, After(writing, After(writing, scene, WorkerChecks), OperatorCancels), cancelled, targets, i,
                scene.row, visit);
    ReloadFindsCancel(run, i + 1, targets[i], visit);
  }

  lemma VisitStaysUnderWay(run: Run, index: nat, target: string, visit: Visit)
    requires UnderWay(run, false)
    ensures UnderWay(Visited(WORKER, run, index, target, visit), ReloadsCancelled(visit))
  {
  }

  /** The run has ended as the scene shows. */
  predicate ShowsEnd(scene: Scene, run: Run) {
    scene == Scene(run.store.committed, Idle, run.store.log, run.store.probed, run.store.snapshots)
  }

  lemma CancelPlayed(writing: Writing, scene: Scene, run: Run, targets: seq<string>, i: nat)
    requires Shows(scene, run, targets, i) && UnderWay(run, true)
    ensures ShowsEnd(AfterAll(writing, scene, [OperatorCancels, WorkerChecks]), Ended(WORKER, run, Cancelled))
  {
    AfterTwo(writing, scene, OperatorCancels, WorkerChecks);
  }

  lemma LastPlayed(writing: Writing, scene: Scene, run: Run, targets: seq<string>, plan: Plan)
    requires Shows(scene, run, targets, |targets|) && UnderWay(run, plan.lastCheck)
    ensures ShowsEnd(AfterAll(writing, scene, LastEvents(plan)), Concluded(WORKER, run, false, plan))
  {
    if plan.lastCheck {
      CancelPlayed(writing, scene, run, targets, |targets|);
    } else if !plan.snapshotRaises {
      AfterTwo(writing, scene, WorkerChecks, SnapshotStored);
    } else if plan.handlerCheck {
      AfterThree(writing, scene, WorkerChecks, OperatorCancels, SnapshotFails);
    } else {
      AfterTwo(writing, scene, WorkerChecks, SnapshotFails);
    }
  }

  lemma {:induction false} TargetsPlayed(
    writing: Writing, scene: Scene, run: Run, targets: seq<string>, plan: Plan, i: nat)
    requires i <= |targets| <= |plan.turns| && Truthful(plan, |targets|)
    requires Shows(scene, run, targets, i) && UnderWay(run, NextCheck(plan, |targets|, i))
    ensures var (after, cancelSeen) := VisitedFrom(WORKER, run, targets, plan.turns, i);
            ShowsEnd(AfterAll(writing, scene, EventsFrom(plan, |targets|, i)), Concluded(WORKER, after, cancelSeen, plan))
    decreases |targets| - i
  {
    if i == |targets| {
      LastPlayed(writing, scene, run, targets, plan);
    } else if plan.turns[i].cancelSeen {
      CancelPlayed(writing, scene, run, targets, i);
    } else {
      var turn := plan.turns[i];
      TurnPlayed(writing, scene, run, targets, i, turn);
      AfterJoined(writing, scene, TurnEvents(turn), EventsFrom(plan, |targets|, i + 1));
      TargetsPlayed(writing, AfterAll(writing, scene, TurnEvents(turn)),
                    Visited(WORKER, run, i + 1, targets[i], turn.visit), targets, plan, i + 1);
    }
  }

  /**
   * Every run as `DiscoveryRun` describes it is a history of these steps: with the operator's cancels put where the run
   * sees them, the steps leave the same row, records, probes and snapshots, and an idle worker.
   */
  lemma WholeRunIsPlayed(writing: Writing, scene: Scene, plan: Plan)
    requires Covers(plan) && scene.worker == Idle && !AlreadyCancelled(scene.row)
    requires plan.seeds.Some? ==> Truthful(plan, |Targets(plan.seeds.value)|)
    ensures ShowsEnd(AfterAll(writing, scene, EventsOf(plan)),
                     WholeRun(WORKER, RunOf(scene, scene.row).store, plan))
  {
    var store := RunOf(scene, scene.row).store;
    var started := Started(WORKER, store);
    if plan.seeds.None? {
      if plan.handlerCheck {
        assert EventsOf(plan) == [WorkerStarts, OperatorCancels, SeedsFail];
        AfterThree(writing, scene, WorkerStarts, OperatorCancels, SeedsFail);
      } else {
        assert EventsOf(plan) == [WorkerStarts, SeedsFail];
        AfterTwo(writing, scene, WorkerStarts, SeedsFail);
      }
    } else {
      var targets := Targets(plan.seeds.value);
      var opening := [WorkerStarts, SeedsLoad(targets)];
      AfterTwo(writing, scene, WorkerStarts, SeedsLoad(targets));
      AfterJoined(writing, scene, opening, EventsFrom(plan, |targets|, 0));
      TargetsPlayed(writing, AfterAll(writing, scene, opening), Announced(WORKER, started, targets), targets, plan, 0);
    }
  }

  // ---------------------------------------------------------------- what can go wrong

  function Waiting(): Scene { Scene(Job(Pending, false, false, ZERO), Idle, [], [], 0) }

  const ONE_TARGET := ["10.0.0.1"]

  /** The job once its only target is announced. */
  function UnderWayJob(): Job { Job(Running, false, false, ZERO.(targets := 1)) }

  lemma OpeningSteps(writing: Writing)
    ensures AfterAll(writing, Waiting(), [WorkerStarts, SeedsLoad(ONE_TARGET), WorkerChecks])
            == Scene(UnderWayJob(), Visiting(UnderWayJob(), ONE_TARGET, 0, UnderWayJob()),
                     [ZERO, UnderWayJob().stats], [], 0)
  {
    AfterThree(writing, Waiting(), WorkerStarts, SeedsLoad(ONE_TARGET), WorkerChecks);
  }

  /** The end of the visit overwrites the cancelled row, or leaves its status, flag and end time. */
  lemma VisitAfterCancel(writing: Writing, scene: Scene)
    requires scene.row == OperatorCancelled(UnderWayJob())
    requires scene.worker == Visiting(UnderWayJob(), ONE_TARGET, 0, UnderWayJob())
    ensures var after := After(writing, scene, VisitEnds(StoredDevice(0)));
            var stats := UnderWayJob().stats.(scanned := 1, alive := 1, inventoried := 1);
            && after.worker == Checking(UnderWayJob().(stats := stats), ONE_TARGET, 1)
            && after.row == (if writing.WholeRow? then UnderWayJob() else scene.row).(stats := stats)
  {
  }

  lemma LastStepsAfterCancel(writing: Writing, scene: Scene, job: Job)
    requires scene.worker == Checking(job, ONE_TARGET, 1) && job == UnderWayJob().(stats := job.stats)
    requires scene.row == if writing.WholeRow? then job else OperatorCancelled(job)
    ensures AfterAll(writing, scene, [WorkerChecks, SnapshotStored]).row.status
            == if writing.WholeRow? then Completed else Cancelled
  {
    AfterTwo(writing, scene, WorkerChecks, SnapshotStored);
  }

  /**
   * A cancel during the only target: with whole-row updates it is lost and the job completes without a retry; with
   * changed columns it is kept.
   */
  lemma CancelDuringOnlyTarget(writing: Writing)
    ensures var before := [WorkerStarts, SeedsLoad(ONE_TARGET), WorkerChecks];
            var rest := [VisitEnds(StoredDevice(0)), WorkerChecks, SnapshotStored];
            var cancelled := After(writing, AfterAll(writing, Waiting(), before), OperatorCancels);
            && cancelled.row.status == Cancelled
            && AfterAll(writing, cancelled, rest).row.status == if writing.WholeRow? then Completed else Cancelled
  {
    OpeningSteps(writing);
    var before := [WorkerStarts, SeedsLoad(ONE_TARGET), WorkerChecks];
    var cancelled := After(writing, AfterAll(writing, Waiting(), before), OperatorCancels);
    VisitAfterCancel(writing, cancelled);
    var visited := After(writing, cancelled, VisitEnds(StoredDevice(0)));
    LastStepsAfterCancel(writing, visited, visited.worker.job);
    var last := [WorkerChecks, SnapshotStored];
    assert [VisitEnds(StoredDevice(0)), WorkerChecks, SnapshotStored] == [VisitEnds(StoredDevice(0))] + last;
    AfterJoined(writing, cancelled, [VisitEnds(StoredDevice(0))], last);
    AfterOne(writing, cancelled, VisitEnds(StoredDevice(0)));
  }

  /** A completed job that is delivered again to a worker that dies is left running with its end time set. */
  lemma SecondDeliveryLeavesEndTime(writing: Writing, stats: Stats)
    ensures var completed := Scene(Job(Completed, false, true, stats), Idle, [], [], 0);
            var after := AfterAll(writing, completed, [WorkerStarts, WorkerDies]);
            Sound(completed.row) && after.row.status == Running && after.row.finished && !Sound(after.row)
  {
    AfterTwo(writing, Scene(Job(Completed, false, true, stats), Idle, [], [], 0), WorkerStarts, WorkerDies);
  }
}
