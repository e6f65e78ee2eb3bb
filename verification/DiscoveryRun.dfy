/**
 * One discovery run: targets visited in order, cancellation read between them, and a failing target that may roll
 * the session back and reload the job as it was last committed.
 */
module DiscoveryRun {
  import opened Common
  import opened Dedupe

  // ---------------------------------------------------------------- the job and what the database holds of it

  datatype Status = Pending | Running | Completed | Cancelled | Failed

  /** A counter missing from the stored stats reads as zero. */
  datatype Stats = Stats(
    targets: nat, scanned: nat, alive: nat, inventoried: nat, unknown: nat, links: nat, errors: nat, snapshot: bool)

  const ZERO := Stats(0, 0, 0, 0, 0, 0, 0, false)

  /** `flagged` is the "cancelled" entry of the job's configuration. */
  datatype Job = Job(status: Status, flagged: bool, finished: bool, stats: Stats)

  /** Whether a progress callback commits after every update, and whether a failing target rolls the session back. */
  datatype Config = Config(commits: bool, rollbacks: bool)

  /**
   * `current` is the job row as the session sees it, `committed` the row a rollback returns to, `log` every stats
   * record ever written, `probed` the targets probed, and `snapshots` the number of snapshots stored.
   */
  datatype Store = Store(committed: Job, current: Job, log: seq<Stats>, probed: seq<string>, snapshots: nat)

  /** The store and the job object the run works on. */
  datatype Run = Run(store: Store, job: Job)

  // ---------------------------------------------------------------- what the run cannot decide itself

  /** What becomes of the job object when the session is rolled back. */
  datatype Recovery = RollbackFails | JobGone | Reloaded(cancelledMeanwhile: bool)

  /** What happens at one target. */
  datatype Visit =
    | Silent
    | ProbeFails(recovery: Recovery)
    | CollectFails(recovery: Recovery)
    | UnknownFails(recovery: Recovery)
    | StoredUnknown
    | StoredDevice(links: nat)

  predicate Fails(visit: Visit) { visit.ProbeFails? || visit.CollectFails? || visit.UnknownFails? }

  /** The session is rolled back and the job read again. */
  predicate Reloads(visit: Visit) { Fails(visit) && visit.recovery.Reloaded? }

  /** Whether the visit of target number `index` (from one) writes the job. */
  predicate Updates(visit: Visit, index: nat) { visit.Silent? ==> index % 25 == 0 }

  datatype Turn = Turn(cancelSeen: bool, visit: Visit)

  /** The addresses of a seed; None when the seed's target is not a valid address or network. */
  datatype Seed = Seed(enabled: bool, hosts: Option<seq<string>>)

  /** Everything one run meets: the seeds (None when loading them raises), one turn per target, and the last reads. */
  datatype Plan = Plan(
    seeds: Option<seq<Seed>>, turns: seq<Turn>, lastCheck: bool, snapshotRaises: bool, handlerCheck: bool)

  // ---------------------------------------------------------------- targets

  function SeedHosts(seed: Seed): seq<string> {
    if seed.enabled && seed.hosts.Some? then seed.hosts.value else []
  }

  function AllHosts(seeds: seq<Seed>): seq<string> {
    if seeds == [] then [] else AllHosts(seeds[..|seeds| - 1]) + SeedHosts(seeds[|seeds| - 1])
  }

  function Targets(seeds: seq<Seed>): seq<string> { KeepFirst(AllHosts(seeds), Itself) }

  method ExpandTargets(seeds: seq<Seed>) returns (ordered: seq<string>)
    ensures ordered == Targets(seeds)
    ensures forall i, j :: 0 <= i < j < |ordered| ==> ordered[i] != ordered[j]
    ensures forall t :: t in ordered <==>
              exists s :: 0 <= s < |seeds| && t in SeedHosts(seeds[s])
  {
    var targets: seq<string> := [];
    for i := 0 to |seeds|
      invariant targets == AllHosts(seeds[..i])
    {
      assert seeds[..i + 1][..i] == seeds[..i];
      if seeds[i].enabled && seeds[i].hosts.Some? {
        targets := targets + seeds[i].hosts.value;
      }
    }
    assert seeds[..|seeds|] == seeds;
    ordered := Distinct(targets, Itself);
    TargetsAreDistinct(seeds);
  }

  lemma {:induction false} HostsComeFromSeeds(seeds: seq<Seed>, t: string)
    ensures t in AllHosts(seeds) <==> exists s :: 0 <= s < |seeds| && t in SeedHosts(seeds[s])
  {
    if seeds != [] {
      var init := seeds[..|seeds| - 1];
      HostsComeFromSeeds(init, t);
      if t in AllHosts(init) {
        var s :| 0 <= s < |init| && t in SeedHosts(init[s]);
        assert t in SeedHosts(seeds[s]);
      }
      if s :| 0 <= s < |seeds| && t in SeedHosts(seeds[s]) {
        if s < |init| { assert t in SeedHosts(init[s]); }
      }
    }
  }

  /** No address is a target twice, and the targets are the addresses of the enabled, valid seeds. */
  lemma TargetsAreDistinct(seeds: seq<Seed>)
    ensures forall i, j :: 0 <= i < j < |Targets(seeds)| ==> Targets(seeds)[i] != Targets(seeds)[j]
    ensures forall t :: t in Targets(seeds) <==> exists s :: 0 <= s < |seeds| && t in SeedHosts(seeds[s])
  {
    var hosts, targets := AllHosts(seeds), Targets(seeds);
    KeptOncePerKey(hosts, Itself);
    forall i, j | 0 <= i < j < |targets| ensures targets[i] != targets[j] {
      assert Itself(targets[i]) != Itself(targets[j]);
    }
    forall t ensures t in targets <==> exists s :: 0 <= s < |seeds| && t in SeedHosts(seeds[s]) {
      HostsComeFromSeeds(seeds, t);
      OccursIsIn(targets, t);
      OccursIsIn(hosts, t);
    }
  }

  lemma HostsSnoc(seeds: seq<Seed>, seed: Seed)
    ensures AllHosts(seeds + [seed]) == AllHosts(seeds) + SeedHosts(seed)
  {
    assert (seeds + [seed])[..|seeds|] == seeds;
  }

  /** Targets come in the order of the seeds and of the addresses in them. */
  lemma {:induction false} HostsSplit(seeds: seq<Seed>, more: seq<Seed>)
    ensures AllHosts(seeds + more) == AllHosts(seeds) + AllHosts(more)
  {
    if more == [] {
      assert seeds + more == seeds;
    } else {
      var init, last := more[..|more| - 1], more[|more| - 1];
      HostsSplit(seeds, init);
      HostsSnoc(seeds + init, last);
      HostsSnoc(init, last);
      assert init + [last] == more && seeds + more == seeds + init + [last];
      Rejoined(AllHosts(seeds), AllHosts(init), SeedHosts(last));
    }
  }

  lemma MoreSeedsAddTargets(seeds: seq<Seed>, more: seq<Seed>)
    ensures Targets(seeds) <= Targets(seeds + more)
  {
    HostsSplit(seeds, more);
    KeptComesFirst(AllHosts(seeds), AllHosts(more), Itself);
  }

  /** A seed gives its addresses when it is enabled and valid, and none otherwise. */
  lemma HostsOfSeed(seed: Seed)
    ensures seed.enabled && seed.hosts.Some? ==> AllHosts([seed]) == seed.hosts.value
    ensures !seed.enabled || seed.hosts.None? ==> AllHosts([seed]) == []
  {
    assert [seed][..0] == [];
  }

  lemma OccursIsIn(xs: seq<string>, x: string)
    ensures Occurs(xs, Itself, x) <==> x in xs
  {
    if x in xs {
      var i :| 0 <= i < |xs| && xs[i] == x;
      assert Itself(xs[i]) == x;
    }
  }

  // ---------------------------------------------------------------- the steps of a run

  /** Writes the job, and commits when there is a progress callback. */
  function Persisted(config: Config, run: Run): Run {
    var store := run.store;
    run.(store := store.(
      current := run.job,
      committed := if config.commits then run.job else store.committed,
      log := store.log + [run.job.stats]))
  }

  /** The job object after a target failed and the session was, or was not, rolled back. */
  function Recovered(config: Config, run: Run, recovery: Recovery): Run {
    if !config.rollbacks || recovery.RollbackFails? then run
    else
      var rolledBack := run.store.(current := run.store.committed);
      if recovery.JobGone? then run.(store := rolledBack)
      else
        var job := run.store.committed;
        Run(rolledBack, if recovery.cancelledMeanwhile then job.(status := Cancelled, flagged := true, finished := true)
                        else job)
  }

  function WithStats(run: Run, stats: Stats): Run { run.(job := run.job.(stats := stats)) }

  function TargetFailed(config: Config, run: Run, recovery: Recovery): Run {
    var after := Recovered(config, run, recovery);
    var stats := after.job.stats;
    Persisted(config, WithStats(after, stats.(errors := stats.errors + 1)))
  }

  /** The job after the target with (one-based) number `index` has been visited. */
  function Visited(config: Config, run: Run, index: nat, target: string, visit: Visit): Run {
    var probing := run.(store := run.store.(probed := run.store.probed + [target]));
    var stats := run.job.stats.(scanned := index);
    var up := stats.(alive := stats.alive + 1);
    match visit
    case Silent =>
      if index % 25 == 0 then Persisted(config, WithStats(probing, stats)) else WithStats(probing, stats)
    case ProbeFails(recovery) => TargetFailed(config, WithStats(probing, stats), recovery)
    case CollectFails(recovery) => TargetFailed(config, WithStats(probing, up), recovery)
    case UnknownFails(recovery) =>
      TargetFailed(config, WithStats(probing, up.(unknown := up.unknown + 1)), recovery)
    case StoredUnknown =>
      Persisted(config, WithStats(probing, up.(unknown := up.unknown + 1, inventoried := up.inventoried + 1)))
    case StoredDevice(links) =>
      Persisted(config, WithStats(probing, up.(links := up.links + links, inventoried := up.inventoried + 1)))
  }

  /** Ends the job with the given status. */
  function Ended(config: Config, run: Run, status: Status): Run {
    Persisted(config, run.(job := run.job.(status := status, finished := true)))
  }

  /** The targets from number `i` on, up to the first whose cancel check sees the flag. */
  function VisitedFrom(config: Config, run: Run, targets: seq<string>, turns: seq<Turn>, i: nat): (Run, bool)
    requires i <= |targets| <= |turns|
    decreases |targets| - i
  {
    if i == |targets| then (run, false)
    else if turns[i].cancelSeen then (run, true)
    else VisitedFrom(config, Visited(config, run, i + 1, targets[i], turns[i].visit), targets, turns, i + 1)
  }

  predicate Covers(plan: Plan) {
    plan.seeds.Some? ==> |Targets(plan.seeds.value)| <= |plan.turns|
  }

  predicate AlreadyCancelled(job: Job) { job.status == Cancelled || job.flagged }

  /** The job as the run starts it. */
  function Started(config: Config, store: Store): Run {
    Persisted(config, Run(store, store.current.(status := Running, stats := ZERO)))
  }

  function Announced(config: Config, run: Run, targets: seq<string>): Run {
    Persisted(config, WithStats(run, run.job.stats.(targets := |targets|)))
  }

  /** A failure outside the visits: cancelled if the operator asked for it meanwhile, failed otherwise. */
  function Broken(config: Config, run: Run, plan: Plan): Run {
    Ended(config, run, if plan.handlerCheck then Cancelled else Failed)
  }

  function Concluded(config: Config, run: Run, cancelSeen: bool, plan: Plan): Run {
    if cancelSeen || plan.lastCheck then Ended(config, run, Cancelled)
    else if plan.snapshotRaises then Broken(config, run, plan)
    else
      var stored := run.(store := run.store.(snapshots := run.store.snapshots + 1));
      Ended(config, WithStats(stored, run.job.stats.(snapshot := true)), Completed)
  }

  /** The whole run, as a function of what it meets. */
  function WholeRun(config: Config, store: Store, plan: Plan): Run
    requires Covers(plan)
  {
    if AlreadyCancelled(store.current) then
      Persisted(config, Run(store, store.current.(finished := true)))
    else
      var started := Started(config, store);
      if plan.seeds.None? then Broken(config, started, plan)
      else
        var targets := Targets(plan.seeds.value);
        var (run, cancelSeen) := VisitedFrom(config, Announced(config, started, targets), targets, plan.turns, 0);
        Concluded(config, run, cancelSeen, plan)
  }

  // ---------------------------------------------------------------- the orchestrator

  class DiscoveryOrchestrator {
    const config: Config
    var store: Store
    var job: Job

    ghost function State(): Run
      reads this
    {
      Run(store, job)
    }

    constructor (config: Config, store: Store)
      ensures this.config == config && State() == Run(store, store.current)
    {
      this.config, this.store, this.job := config, store, store.current;
    }

    method Update()
      modifies this
      ensures State() == Persisted(config, old(State()))
    {
      store := store.(current := job, log := store.log + [job.stats]);
      if config.commits { store := store.(committed := job); }
    }

    method End(status: Status)
      modifies this
      ensures State() == Ended(config, old(State()), status)
    {
      job := job.(status := status, finished := true);
      Update();
    }

    method HandleTargetFailure(recovery: Recovery)
      modifies this
      ensures State() == TargetFailed(config, old(State()), recovery)
    {
      if config.rollbacks && !recovery.RollbackFails? {
        store := store.(current := store.committed);
        if recovery.Reloaded? {
          job := store.committed;
          if recovery.cancelledMeanwhile { job := job.(status := Cancelled, flagged := true, finished := true); }
        }
      }
      job := job.(stats := job.stats.(errors := job.stats.errors + 1));
      Update();
    }

    method VisitTarget(index: nat, target: string, visit: Visit)
      modifies this
      ensures State() == Visited(config, old(State()), index, target, visit)
    {
      job := job.(stats := job.stats.(scanned := index));
      store := store.(probed := store.probed + [target]);
      if visit.ProbeFails? {
        HandleTargetFailure(visit.recovery);
        return;
      }
      if visit.Silent? {
        if index % 25 == 0 { Update(); }
        return;
      }
      job := job.(stats := job.stats.(alive := job.stats.alive + 1));
      if visit.CollectFails? {
        HandleTargetFailure(visit.recovery);
        return;
      }
      if visit.UnknownFails? || visit.StoredUnknown? {
        job := job.(stats := job.stats.(unknown := job.stats.unknown + 1));
      }
      if visit.UnknownFails? {
        HandleTargetFailure(visit.recovery);
        return;
      }
      if visit.StoredDevice? {
        job := job.(stats := job.stats.(links := job.stats.links + visit.links));
      }
      job := job.(stats := job.stats.(inventoried := job.stats.inventoried + 1));
      Update();
    }

    /** Runs the job; `raised` tells that the failure is passed on to the caller. */
    method RunJob(plan: Plan) returns (raised: bool)
      requires Covers(plan)
      modifies this
      ensures State() == WholeRun(config, old(store), plan)
      ensures raised <==> !AlreadyCancelled(old(store).current) && job.status == Failed
    {
      job := store.current;
      if job.status == Cancelled || job.flagged {
        job := job.(finished := true);
        Update();
        return false;
      }
      job := job.(status := Running, stats := ZERO);
      Update();
      if plan.seeds.None? {
        raised := Fail(plan);
        return;
      }
      var targets := ExpandTargets(plan.seeds.value);
      job := job.(stats := job.stats.(targets := |targets|));
      Update();
      ghost var announced := State();
      var i := 0;
      while i < |targets|
        invariant i <= |targets|
        invariant VisitedFrom(config, State(), targets, plan.turns, i)
                  == VisitedFrom(config, announced, targets, plan.turns, 0)
      {
        if plan.turns[i].cancelSeen {
          End(Cancelled);
          return false;
        }
        VisitTarget(i + 1, targets[i], plan.turns[i].visit);
        i := i + 1;
      }
      if plan.lastCheck {
        End(Cancelled);
        return false;
      }
      if plan.snapshotRaises {
        raised := Fail(plan);
        return;
      }
      store := store.(snapshots := store.snapshots + 1);
      job := job.(stats := job.stats.(snapshot := true));
      End(Completed);
      return false;
    }

    method Fail(plan: Plan) returns (raised: bool)
      modifies this
      ensures State() == Broken(config, old(State()), plan)
      ensures raised <==> job.status == Failed
    {
      if plan.handlerCheck {
        End(Cancelled);
        return false;
      }
      End(Failed);
      return true;
    }
  }

  // ---------------------------------------------------------------- the counters of every stored record

  predicate Ordered(s: Stats) { s.inventoried <= s.alive <= s.scanned <= s.targets }

  ghost predicate OrderedFrom(log: seq<Stats>, mark: nat) {
    forall k :: mark <= k < |log| ==> Ordered(log[k])
  }

  /** Stats of a job whose first `i` of `n` targets have been visited. */
  predicate InProgress(s: Stats, i: nat, n: nat) {
    s.inventoried <= s.alive <= s.scanned <= i <= n && s.targets == n
  }

  /** What a run keeps from target to target when a reload can only bring back a record of this run. */
  ghost predicate OnTrack(config: Config, run: Run, mark: nat, i: nat, n: nat) {
    && InProgress(run.job.stats, i, n)
    && (config.rollbacks ==> InProgress(run.store.committed.stats, i, n))
    && OrderedFrom(run.store.log, mark)
  }

  predicate Recoverable(config: Config) { config.commits || !config.rollbacks }

  lemma VisitKeepsOrder(config: Config, run: Run, mark: nat, i: nat, n: nat, target: string, visit: Visit)
    requires Recoverable(config) && OnTrack(config, run, mark, i, n) && i < n
    ensures OnTrack(config, Visited(config, run, i + 1, target, visit), mark, i + 1, n)
  {
    if Fails(visit) {
      FailureKeepsOrder(config, run, mark, i, n, target, visit);
    }
  }

  lemma FailureKeepsOrder(config: Config, run: Run, mark: nat, i: nat, n: nat, target: string, visit: Visit)
    requires Recoverable(config) && OnTrack(config, run, mark, i, n) && i < n
    requires Fails(visit)
    ensures OnTrack(config, Visited(config, run, i + 1, target, visit), mark, i + 1, n)
  {
  }

  lemma {:induction false} VisitsKeepOrder(
    config: Config, run: Run, targets: seq<string>, turns: seq<Turn>, i: nat, mark: nat)
    requires i <= |targets| <= |turns|
    requires Recoverable(config) && OnTrack(config, run, mark, i, |targets|)
    ensures OnTrack(config, VisitedFrom(config, run, targets, turns, i).0, mark, |targets|, |targets|)
    decreases |targets| - i
  {
    if i < |targets| && !turns[i].cancelSeen {
      VisitKeepsOrder(config, run, mark, i, |targets|, targets[i], turns[i].visit);
      VisitsKeepOrder(config, Visited(config, run, i + 1, targets[i], turns[i].visit), targets, turns, i + 1, mark);
    }
  }

  /** Every stats record a run writes is ordered, whatever fails, when every update is committed or none is undone. */
  lemma EveryRecordIsOrdered(config: Config, store: Store, plan: Plan)
    requires Recoverable(config) && Covers(plan) && !AlreadyCancelled(store.current)
    ensures OrderedFrom(WholeRun(config, store, plan).store.log, |store.log|)
  {
    var mark, started := |store.log|, Started(config, store);
    if plan.seeds.Some? {
      var targets := Targets(plan.seeds.value);
      var announced := Announced(config, started, targets);
      VisitsKeepOrder(config, announced, targets, plan.turns, 0, mark);
    }
  }

  ghost predicate AlwaysOrdered(config: Config) {
    forall store: Store, plan: Plan | Covers(plan) && !AlreadyCancelled(store.current) ::
      OrderedFrom(WholeRun(config, store, plan).store.log, |store.log|)
  }

  /** Two targets, the first of which cannot be probed, after which the session is rolled back. */
  function TwoTargets(): Plan {
    Plan(Some([Seed(true, Some(["10.0.0.1", "10.0.0.2"]))]),
         [Turn(false, ProbeFails(Reloaded(false))), Turn(false, StoredDevice(0))], false, false, false)
  }

  lemma TwoTargetsAre()
    ensures Targets(TwoTargets().seeds.value) == ["10.0.0.1", "10.0.0.2"]
  {
    var a, b := "10.0.0.1", "10.0.0.2";
    var seeds := TwoTargets().seeds.value;
    assert seeds[..0] == [] && AllHosts(seeds) == [] + [a, b] == [a, b];
    assert [a, b][..1] == [a];
    KeepFirstSnoc([], a, Itself);
    KeepFirstSnoc([a], b, Itself);
    assert [] + [a] == [a] && [a] + [b] == [a, b];
    assert a[7] != b[7];
    assert !Occurs([a], Itself, b);
  }

  /** A rollback without commits brings back the stats from before the run: the second target is then out of bounds. */
  lemma UncommittedRollbackBreaksOrder()
    ensures !AlwaysOrdered(Config(false, true))
  {
    var config, plan := Config(false, true), TwoTargets();
    var pending := Job(Pending, false, false, ZERO);
    var store := Store(pending, pending, [], [], 0);
    TwoTargetsAre();
    var targets := Targets(plan.seeds.value);
    var run0 := Announced(config, Started(config, store), targets);
    var run1 := Visited(config, run0, 1, targets[0], plan.turns[0].visit);
    var run2 := Visited(config, run1, 2, targets[1], plan.turns[1].visit);
    assert run1.job.stats == ZERO.(errors := 1);
    assert VisitedFrom(config, run2, targets, plan.turns, 2) == (run2, false);
    assert VisitedFrom(config, run1, targets, plan.turns, 1) == (run2, false);
    assert VisitedFrom(config, run0, targets, plan.turns, 0) == (run2, false);
    var whole := WholeRun(config, store, plan);
    assert whole.store.log[3].scanned == 2 && whole.store.log[3].targets == 0;
    assert !Ordered(whole.store.log[3]);
    assert !OrderedFrom(whole.store.log, 0);
  }

  /** The records of all runs are ordered exactly for callers that commit every update or never roll back. */
  lemma OrderedIffRecoverable(config: Config)
    ensures AlwaysOrdered(config) <==> config.commits || !config.rollbacks
  {
    if Recoverable(config) {
      forall store: Store, plan: Plan | Covers(plan) && !AlreadyCancelled(store.current)
        ensures OrderedFrom(WholeRun(config, store, plan).store.log, |store.log|)
      {
        EveryRecordIsOrdered(config, store, plan);
      }
    } else {
      UncommittedRollbackBreaksOrder();
    }
  }

  // ---------------------------------------------------------------- the final counters

  /** The target answered: its probe neither failed nor found it silent. */
  predicate Answered(visit: Visit) { !visit.Silent? && !visit.ProbeFails? }

  /** The visit's own counting is undone: the job comes back as it was last written. */
  predicate Reverted(config: Config, visit: Visit) { config.rollbacks && Reloads(visit) }

  /** One for each turn whose visit is of this kind. */
  function CountIf(turns: seq<Turn>, kind: Visit -> bool): nat {
    if turns == [] then 0 else CountIf(turns[..|turns| - 1], kind) + if kind(turns[|turns| - 1].visit) then 1 else 0
  }

  function LinkCount(turns: seq<Turn>): nat {
    if turns == [] then 0
    else
      var visit := turns[|turns| - 1].visit;
      LinkCount(turns[..|turns| - 1]) + if visit.StoredDevice? then visit.links else 0
  }

  /** The number of the last turn that wrote the job and was not undone, or zero. */
  function LastWritten(config: Config, turns: seq<Turn>): (k: nat)
    ensures k <= |turns|
    ensures k > 0 ==> Updates(turns[k - 1].visit, k) && !Reverted(config, turns[k - 1].visit)
    ensures forall j :: k <= j < |turns| ==> !Updates(turns[j].visit, j + 1) || Reverted(config, turns[j].visit)
  {
    var n := |turns|;
    if n == 0 then 0
    else if Updates(turns[n - 1].visit, n) && !Reverted(config, turns[n - 1].visit) then n
    else LastWritten(config, turns[..n - 1])
  }

  /** The number of the last target visited, unless that visit was undone: then that of the last one written. */
  function ScannedUpTo(config: Config, turns: seq<Turn>): (k: nat)
    ensures turns != [] && !Reverted(config, turns[|turns| - 1].visit) ==> k == |turns|
  {
    if turns != [] && Reverted(config, turns[|turns| - 1].visit) then LastWritten(config, turns) else |turns|
  }

  /** The counters after these turns, with `scanned` as given. */
  function Tally(config: Config, n: nat, turns: seq<Turn>, scanned: nat): Stats {
    Stats(n, scanned,
          CountIf(turns, visit => Answered(visit) && !Reverted(config, visit)),
          CountIf(turns, (visit: Visit) => visit.StoredDevice? || visit.StoredUnknown?),
          CountIf(turns, (visit: Visit) => visit.StoredUnknown? || (visit.UnknownFails? && !Reverted(config, visit))),
          LinkCount(turns),
          CountIf(turns, Fails),
          false)
  }

  /** The job counts the turns, and so does the row that a rollback brings back, as far as it was written. */
  ghost predicate AllCounted(config: Config, run: Run, n: nat, turns: seq<Turn>) {
    match run
    case Run(store, job) =>
      && job.stats == Tally(config, n, turns, ScannedUpTo(config, turns))
      && (config.rollbacks ==> store.committed.stats == Tally(config, n, turns, LastWritten(config, turns)))
  }

  /** What one more turn adds to the counters. */
  lemma TallySnoc(config: Config, n: nat, turns: seq<Turn>, turn: Turn, scanned: nat)
    ensures var before, visit := Tally(config, n, turns, scanned), turn.visit;
            Tally(config, n, turns + [turn], scanned)
            == before.(alive := before.alive + if Answered(visit) && !Reverted(config, visit) then 1 else 0,
                       inventoried := before.inventoried + if visit.StoredDevice? || visit.StoredUnknown? then 1 else 0,
                       unknown := before.unknown + if visit.StoredUnknown? || (visit.UnknownFails? && !Reverted(config, visit))
                                                   then 1 else 0,
                       links := before.links + (if visit.StoredDevice? then visit.links else 0),
                       errors := before.errors + if Fails(visit) then 1 else 0)
  {
    assert (turns + [turn])[..|turns|] == turns;
  }

  lemma ScannedSnoc(config: Config, turns: seq<Turn>, turn: Turn)
    ensures LastWritten(config, turns + [turn])
            == if Updates(turn.visit, |turns| + 1) && !Reverted(config, turn.visit) then |turns| + 1
               else LastWritten(config, turns)
    ensures ScannedUpTo(config, turns + [turn])
            == if Reverted(config, turn.visit) then LastWritten(config, turns) else |turns| + 1
  {
    assert (turns + [turn])[..|turns|] == turns;
  }

  /** A visit that fails counts on the job that comes out of the recovery. */
  lemma FailureIsCounted(config: Config, run: Run, n: nat, turns: seq<Turn>, turn: Turn, target: string)
    requires Recoverable(config) && AllCounted(config, run, n, turns) && Fails(turn.visit)
    ensures AllCounted(config, Visited(config, run, |turns| + 1, target, turn.visit), n, turns + [turn])
  {
    ScannedSnoc(config, turns, turn);
    TallySnoc(config, n, turns, turn, LastWritten(config, turns + [turn]));
    TallySnoc(config, n, turns, turn, ScannedUpTo(config, turns + [turn]));
  }

  lemma VisitIsCounted(config: Config, run: Run, n: nat, turns: seq<Turn>, turn: Turn, target: string)
    requires Recoverable(config) && AllCounted(config, run, n, turns)
    ensures AllCounted(config, Visited(config, run, |turns| + 1, target, turn.visit), n, turns + [turn])
  {
    if Fails(turn.visit) {
      FailureIsCounted(config, run, n, turns, turn, target);
    } else {
      ScannedSnoc(config, turns, turn);
      TallySnoc(config, n, turns, turn, LastWritten(config, turns + [turn]));
      TallySnoc(config, n, turns, turn, ScannedUpTo(config, turns + [turn]));
    }
  }

  /** Number of the first target, from `i` on, whose cancel check sees the flag. */
  function FirstCancel(turns: seq<Turn>, i: nat, n: nat): (k: nat)
    requires i <= n <= |turns|
    ensures i <= k <= n && (k < n ==> turns[k].cancelSeen)
    ensures forall j :: i <= j < k ==> !turns[j].cancelSeen
    decreases n - i
  {
    if i == n || turns[i].cancelSeen then i else FirstCancel(turns, i + 1, n)
  }

  lemma {:induction false} VisitsAreCounted(
    config: Config, run: Run, targets: seq<string>, turns: seq<Turn>, i: nat)
    requires i <= |targets| <= |turns|
    requires Recoverable(config) && AllCounted(config, run, |targets|, turns[..i])
    ensures AllCounted(config, VisitedFrom(config, run, targets, turns, i).0, |targets|,
                       turns[..FirstCancel(turns, i, |targets|)])
    decreases |targets| - i
  {
    if i < |targets| && !turns[i].cancelSeen {
      VisitIsCounted(config, run, |targets|, turns[..i], turns[i], targets[i]);
      assert turns[..i] + [turns[i]] == turns[..i + 1];
      VisitsAreCounted(config, Visited(config, run, i + 1, targets[i], turns[i].visit), targets, turns, i + 1);
    }
  }

  /**
   * The final counters account for every target visited. Each stored device, failure and link counts once, even when
   * failures in between reloaded older stats; what a failing visit had counted itself (the target answered, the device
   * is unknown) counts unless the job was reloaded; and `scanned` is the number of targets visited unless the last
   * visit ended in a reload.
   */
  lemma FinalCountsAreExact(config: Config, store: Store, plan: Plan)
    requires Recoverable(config) && Covers(plan) && !AlreadyCancelled(store.current) && plan.seeds.Some?
    ensures var n := |Targets(plan.seeds.value)|;
            var turns, job := plan.turns[..FirstCancel(plan.turns, 0, n)], WholeRun(config, store, plan).job;
            job.stats == Tally(config, n, turns, ScannedUpTo(config, turns)).(snapshot := job.status == Completed)
  {
    var targets := Targets(plan.seeds.value);
    var announced := Announced(config, Started(config, store), targets);
    assert plan.turns[..0] == [];
    VisitsAreCounted(config, announced, targets, plan.turns, 0);
  }

  // ---------------------------------------------------------------- how often a run writes

  /** How many of the turns write the job: all but the silent ones whose number is no multiple of 25. */
  function WriteCount(turns: seq<Turn>): nat {
    if turns == [] then 0
    else WriteCount(turns[..|turns| - 1]) + if Updates(turns[|turns| - 1].visit, |turns|) then 1 else 0
  }

  /** The earlier records stay, `n` were added, and the last of them is that of the job as it is now. */
  predicate Recorded(before: seq<Stats>, after: Run, n: nat) {
    && before <= after.store.log && |after.store.log| == |before| + n
    && (n > 0 ==> after.store.log[|after.store.log| - 1] == after.job.stats)
  }

  lemma VisitRecords(config: Config, run: Run, index: nat, target: string, visit: Visit)
    ensures Recorded(run.store.log, Visited(config, run, index, target, visit), if Updates(visit, index) then 1 else 0)
  {
  }

  lemma {:induction false} VisitsRecord(config: Config, run: Run, targets: seq<string>, turns: seq<Turn>, i: nat)
    requires i <= |targets| <= |turns|
    ensures var after := VisitedFrom(config, run, targets, turns, i).0.store.log;
            && run.store.log <= after
            && |after| + WriteCount(turns[..i]) == |run.store.log| + WriteCount(turns[..FirstCancel(turns, i, |targets|)])
    decreases |targets| - i
  {
    if i < |targets| && !turns[i].cancelSeen {
      VisitRecords(config, run, i + 1, targets[i], turns[i].visit);
      VisitsRecord(config, Visited(config, run, i + 1, targets[i], turns[i].visit), targets, turns, i + 1);
      assert turns[..i + 1][..i] == turns[..i];
    }
  }

  /**
   * A run adds one record when it starts, one when the targets are known, one for every turn that writes, and a last
   * one, which holds the final counters; it takes none away.
   */
  lemma RecordsAreCounted(config: Config, store: Store, plan: Plan)
    requires Covers(plan) && !AlreadyCancelled(store.current) && plan.seeds.Some?
    ensures var turns := plan.turns[..FirstCancel(plan.turns, 0, |Targets(plan.seeds.value)|)];
            Recorded(store.log, WholeRun(config, store, plan), 3 + WriteCount(turns))
  {
    var targets := Targets(plan.seeds.value);
    assert plan.turns[..0] == [];
    VisitsRecord(config, Announced(config, Started(config, store), targets), targets, plan.turns, 0);
  }

  // ---------------------------------------------------------------- how a run ends

  /** From target `i` on, the targets up to the first cancel that is seen were probed, and no snapshot was stored. */
  predicate ProbesFrom(run: Run, targets: seq<string>, turns: seq<Turn>, i: nat, after: Run, cancelSeen: bool)
    requires i <= |targets| <= |turns|
  {
    var stop := FirstCancel(turns, i, |targets|);
    && after.store.probed == run.store.probed + targets[i..stop]
    && after.store.snapshots == run.store.snapshots
    && (cancelSeen <==> stop < |targets|)
  }

  lemma VisitProbes(config: Config, run: Run, index: nat, target: string, visit: Visit)
    ensures var next := Visited(config, run, index, target, visit);
            next.store.probed == run.store.probed + [target] && next.store.snapshots == run.store.snapshots
  {
  }

  lemma OneMoreProbed(
    run: Run, next: Run, targets: seq<string>, turns: seq<Turn>, i: nat, after: Run, cancelSeen: bool)
    requires i < |targets| <= |turns| && !turns[i].cancelSeen
    requires next.store.probed == run.store.probed + [targets[i]] && next.store.snapshots == run.store.snapshots
    requires ProbesFrom(next, targets, turns, i + 1, after, cancelSeen)
    ensures ProbesFrom(run, targets, turns, i, after, cancelSeen)
  {
    var stop := FirstCancel(turns, i, |targets|);
    assert run.store.probed + [targets[i]] + targets[i + 1..stop] == run.store.probed + targets[i..stop];
  }

  /** Visits probe the targets in order up to the first cancel that is seen, and store no snapshot. */
  lemma {:induction false} VisitsProbe(
    config: Config, run: Run, targets: seq<string>, turns: seq<Turn>, i: nat)
    requires i <= |targets| <= |turns|
    ensures var (after, cancelSeen) := VisitedFrom(config, run, targets, turns, i);
            ProbesFrom(run, targets, turns, i, after, cancelSeen)
    decreases |targets| - i
  {
    if i < |targets| && !turns[i].cancelSeen {
      var next := Visited(config, run, i + 1, targets[i], turns[i].visit);
      var (after, cancelSeen) := VisitedFrom(config, next, targets, turns, i + 1);
      VisitProbes(config, run, i + 1, targets[i], turns[i].visit);
      VisitsProbe(config, next, targets, turns, i + 1);
      OneMoreProbed(run, next, targets, turns, i, after, cancelSeen);
    }
  }

  /** A run that sees the cancel flag before target `i` probes exactly the targets before it, and ends cancelled. */
  lemma CancelStopsProbing(config: Config, store: Store, plan: Plan)
    requires Covers(plan) && !AlreadyCancelled(store.current) && plan.seeds.Some?
    ensures var targets := Targets(plan.seeds.value);
            var stop := FirstCancel(plan.turns, 0, |targets|);
            var run := WholeRun(config, store, plan);
            && run.store.probed == store.probed + targets[..stop]
            && (stop < |targets| ==> run.job.status == Cancelled)
  {
    var targets := Targets(plan.seeds.value);
    VisitsProbe(config, Announced(config, Started(config, store), targets), targets, plan.turns, 0);
  }

  predicate Terminal(status: Status) { status == Completed || status == Cancelled || status == Failed }

  /**
   * Every run of a job that is not cancelled ends in one of the three final states with its end time set, and the
   * stored job is the returned one. A snapshot is stored exactly when the run ends completed.
   */
  lemma EveryRunEnds(config: Config, store: Store, plan: Plan)
    requires Covers(plan) && !AlreadyCancelled(store.current)
    ensures var run := WholeRun(config, store, plan);
            && Terminal(run.job.status) && run.job.finished && run.store.current == run.job
            && run.store.snapshots == store.snapshots + (if run.job.status == Completed then 1 else 0)
            && (config.commits ==> run.store.committed == run.job)
  {
    if plan.seeds.Some? {
      var targets := Targets(plan.seeds.value);
      var announced := Announced(config, Started(config, store), targets);
      VisitsProbe(config, announced, targets, plan.turns, 0);
    }
  }

  /** Which of the three final states it is. */
  lemma EndIsDecidedBy(config: Config, store: Store, plan: Plan)
    requires Covers(plan) && !AlreadyCancelled(store.current)
    ensures var status := WholeRun(config, store, plan).job.status;
            var stopped := plan.seeds.Some?
                           && (plan.lastCheck || exists i :: 0 <= i < |Targets(plan.seeds.value)|
                                                             && plan.turns[i].cancelSeen);
            var broken := !stopped && (plan.seeds.None? || plan.snapshotRaises);
            && (status == Failed <==> broken && !plan.handlerCheck)
            && (status == Cancelled <==> stopped || (broken && plan.handlerCheck))
            && (status == Completed <==> !stopped && !broken)
  {
    if plan.seeds.Some? {
      var targets := Targets(plan.seeds.value);
      var announced := Announced(config, Started(config, store), targets);
      VisitsProbe(config, announced, targets, plan.turns, 0);
    }
  }

  lemma {:induction false} VisitsLeaveCommitted(
    config: Config, run: Run, targets: seq<string>, turns: seq<Turn>, i: nat)
    requires i <= |targets| <= |turns| && !config.commits
    ensures VisitedFrom(config, run, targets, turns, i).0.store.committed == run.store.committed
    decreases |targets| - i
  {
    if i < |targets| && !turns[i].cancelSeen {
      VisitsLeaveCommitted(config, Visited(config, run, i + 1, targets[i], turns[i].visit), targets, turns, i + 1);
    }
  }

  /** Without a progress callback nothing is committed before the caller does. */
  lemma NothingCommittedWithoutCallback(config: Config, store: Store, plan: Plan)
    requires Covers(plan) && !config.commits
    ensures WholeRun(config, store, plan).store.committed == store.committed
  {
    if !AlreadyCancelled(store.current) && plan.seeds.Some? {
      var targets := Targets(plan.seeds.value);
      VisitsLeaveCommitted(config, Announced(config, Started(config, store), targets), targets, plan.turns, 0);
    }
  }

  /** A job that is cancelled already is not run: it gets an end time and one more record, and nothing else happens. */
  lemma CancelledJobIsNotRun(config: Config, store: Store, plan: Plan)
    requires Covers(plan) && (store.current.status == Cancelled || store.current.flagged)
    ensures var run := WholeRun(config, store, plan);
            && run.job == store.current.(finished := true) && run.store.current == run.job
            && run.store.log == store.log + [run.job.stats]
            && run.store.probed == store.probed && run.store.snapshots == store.snapshots
  {
  }
}
