/** Triggers: periodic passes and syslog events move each between ok and problem, recording an event per change. */
module Triggers {
  import opened Common

  // ---------------------------------------------------------------- triggers, verdicts and events

  /** The status column holds text; anything but "ok" and "problem" is `Other`. */
  datatype Status = Ok | Problem | Other(text: string)

  datatype Kind =
    | Metric | InterfaceStatus | Absence | SiemCorrelation | DeviceStatus | SyslogMatch
    | Unknown(name: string)

  /** The filters of a syslog trigger; an empty category or pattern filters nothing. */
  datatype Rule = Rule(
    device: Option<string>, category: string, minSeverity: Option<int>, regex: string, sourceRegex: string)

  datatype Definition = Definition(kind: Kind, enabled: bool, rule: Rule)

  datatype State = State(status: Status, lastValue: Option<string>)

  datatype Verdict = Verdict(problem: bool, value: Option<string>)

  datatype EventType = PROBLEM | OK

  /** `trigger` is the trigger's position among the definitions. */
  datatype TriggerEvent = TriggerEvent(trigger: nat, kind: EventType, value: Option<string>, previous: Status)

  datatype SyslogEvent = SyslogEvent(
    device: Option<string>, category: string, severity: Option<int>, message: string, sourceIp: string)

  /** All trigger states, and all events recorded. */
  datatype World = World(states: seq<State>, log: seq<TriggerEvent>)

  function StatusOf(kind: EventType): Status { if kind == PROBLEM then Problem else Ok }

  function Desired(verdict: Verdict): Status { if verdict.problem then Problem else Ok }

  /** Whether a pattern is found in a text: the message is searched ignoring case, the source address with case. */
  datatype Search = Search(ignoringCase: (string, string) -> bool, exactly: (string, string) -> bool)

  // ---------------------------------------------------------------- one trigger

  /** What a periodic pass makes of a trigger; `sensed` is what its samples say, for the kinds that have samples. */
  function Evaluated(kind: Kind, state: State, sensed: Verdict): Verdict {
    match kind
    case SyslogMatch => Verdict(state.status == Problem, state.lastValue)
    case Unknown(_) => Verdict(false, None)
    case _ => sensed
  }

  /** A missing severity counts as 7, and so does 0. */
  function EffectiveSeverity(event: SyslogEvent): int {
    if event.severity == None || event.severity == Some(0) then 7 else event.severity.value
  }

  /** Whether a syslog event raises a trigger. */
  predicate Matches(rule: Rule, event: SyslogEvent, finds: Search) {
    && !(rule.device.Some? && event.device.Some? && rule.device != event.device)
    && !(rule.category != "" && rule.category != event.category)
    && !(rule.minSeverity.Some? && EffectiveSeverity(event) > rule.minSeverity.value)
    && !(rule.regex != "" && !finds.ignoringCase(rule.regex, event.message))
    && !(rule.sourceRegex != "" && event.sourceIp != "" && !finds.exactly(rule.sourceRegex, event.sourceIp))
  }

  /** The trigger takes the verdict's status and value, and a change of status is recorded. */
  function Applied(world: World, k: nat, verdict: Verdict): World
    requires k < |world.states|
  {
    var previous, desired := world.states[k].status, Desired(verdict);
    World(world.states[k := State(desired, verdict.value)],
          if previous == desired then world.log
          else world.log + [TriggerEvent(k, if verdict.problem then PROBLEM else OK, verdict.value, previous)])
  }

  // ---------------------------------------------------------------- a pass and an event over all triggers

  /** After a periodic pass over the first `n` triggers. */
  function Passed(definitions: seq<Definition>, world: World, sensed: seq<Verdict>, n: nat): (after: World)
    requires n <= |definitions| == |world.states| == |sensed|
    ensures |after.states| == |world.states|
  {
    if n == 0 then world
    else
      var before := Passed(definitions, world, sensed, n - 1);
      if definitions[n - 1].enabled
      then Applied(before, n - 1, Evaluated(definitions[n - 1].kind, before.states[n - 1], sensed[n - 1]))
      else before
  }

  predicate Hears(definition: Definition, event: SyslogEvent, finds: Search) {
    definition.enabled && definition.kind == SyslogMatch && Matches(definition.rule, event, finds)
  }

  /** After a syslog event has been shown to the first `n` triggers. */
  function Shown(
    definitions: seq<Definition>, world: World, event: SyslogEvent, finds: Search, n: nat)
    : (after: World)
    requires n <= |definitions| == |world.states|
    ensures |after.states| == |world.states|
  {
    if n == 0 then world
    else
      var before := Shown(definitions, world, event, finds, n - 1);
      if Hears(definitions[n - 1], event, finds)
      then Applied(before, n - 1, Verdict(true, Some(Shortened(event.message))))
      else before
  }

  function EnabledCount(definitions: seq<Definition>, n: nat): nat
    requires n <= |definitions|
  {
    if n == 0 then 0 else EnabledCount(definitions, n - 1) + if definitions[n - 1].enabled then 1 else 0
  }

  function CountOf(log: seq<TriggerEvent>, kind: EventType): nat {
    if log == [] then 0 else CountOf(log[..|log| - 1], kind) + if log[|log| - 1].kind == kind then 1 else 0
  }

  // ---------------------------------------------------------------- the engine

  /** A stored trigger: its definition and the columns the engine updates. */
  class Trigger {
    const definition: Definition
    var status: Status
    var lastValue: Option<string>

    constructor (definition: Definition)
      ensures this.definition == definition && status == Ok && lastValue == None
    {
      this.definition, status, lastValue := definition, Ok, None;
    }
  }

  /** The triggers are distinct rows with the given definitions and states. */
  ghost predicate Holds(triggers: seq<Trigger>, definitions: seq<Definition>, states: seq<State>)
    reads triggers
  {
    && |triggers| == |definitions| == |states|
    && (forall k :: 0 <= k < |triggers| ==> triggers[k].definition == definitions[k])
    && (forall k :: 0 <= k < |triggers| ==> State(triggers[k].status, triggers[k].lastValue) == states[k])
    && forall j, k :: 0 <= j < k < |triggers| ==> triggers[j] != triggers[k]
  }

  class TriggerEngine {
    var log: seq<TriggerEvent>

    constructor ()
      ensures log == []
    {
      log := [];
    }

    method ApplyState(triggers: seq<Trigger>, k: nat, verdict: Verdict,
                      ghost definitions: seq<Definition>, ghost states: seq<State>)
      returns (changed: Option<EventType>)
      requires k < |triggers| && Holds(triggers, definitions, states)
      modifies this, triggers[k]
      ensures var after := Applied(World(states, old(log)), k, verdict);
              && Holds(triggers, definitions, after.states) && log == after.log
              && changed == if after.log == old(log) then None else Some(if verdict.problem then PROBLEM else OK)
    {
      var trigger := triggers[k];
      var desired := if verdict.problem then Problem else Ok;
      trigger.lastValue := verdict.value;
      if trigger.status == desired { return None; }
      var previous := trigger.status;
      trigger.status := desired;
      var kind := if verdict.problem then PROBLEM else OK;
      log := log + [TriggerEvent(k, kind, verdict.value, previous)];
      return Some(kind);
    }

    /** A periodic pass; the returned counters are the events this pass recorded. */
    method EvaluateAll(triggers: seq<Trigger>, sensed: seq<Verdict>,
                       ghost definitions: seq<Definition>, ghost states: seq<State>)
      returns (evaluated: nat, problems: nat, recovered: nat)
      requires Holds(triggers, definitions, states) && |sensed| == |triggers|
      modifies this, triggers
      ensures var after := Passed(definitions, World(states, old(log)), sensed, |definitions|);
              Holds(triggers, definitions, after.states) && log == after.log
      ensures evaluated == EnabledCount(definitions, |definitions|)
      ensures CountOf(log, PROBLEM) == CountOf(old(log), PROBLEM) + problems
      ensures CountOf(log, OK) == CountOf(old(log), OK) + recovered
    {
      evaluated, problems, recovered := 0, 0, 0;
      ghost var world := World(states, log);
      for i := 0 to |triggers|
        invariant world == Passed(definitions, World(states, old(log)), sensed, i)
        invariant Holds(triggers, definitions, world.states) && log == world.log
        invariant evaluated == EnabledCount(definitions, i)
        invariant CountOf(log, PROBLEM) == CountOf(old(log), PROBLEM) + problems
        invariant CountOf(log, OK) == CountOf(old(log), OK) + recovered
      {
        var trigger := triggers[i];
        if trigger.definition.enabled {
          evaluated := evaluated + 1;
          var verdict := Evaluated(trigger.definition.kind, State(trigger.status, trigger.lastValue), sensed[i]);
          var changed := ApplyState(triggers, i, verdict, definitions, world.states);
          ChangeIsCounted(world, i, verdict);
          world := Applied(world, i, verdict);
          if changed == Some(PROBLEM) {
            problems := problems + 1;
          } else if changed == Some(OK) {
            recovered := recovered + 1;
          }
        }
      }
    }

    method EvaluateSyslogEvent(triggers: seq<Trigger>, event: SyslogEvent, finds: Search,
                               ghost definitions: seq<Definition>, ghost states: seq<State>)
      requires Holds(triggers, definitions, states)
      modifies this, triggers
      ensures var after := Shown(definitions, World(states, old(log)), event, finds, |definitions|);
              Holds(triggers, definitions, after.states) && log == after.log
    {
      ghost var world := World(states, log);
      for i := 0 to |triggers|
        invariant world == Shown(definitions, World(states, old(log)), event, finds, i)
        invariant Holds(triggers, definitions, world.states) && log == world.log
      {
        var definition := triggers[i].definition;
        var passes := PassesFilters(definition.rule, event, finds);
        if definition.enabled && definition.kind == SyslogMatch && passes {
          var verdict := Verdict(true, Some(Shortened(event.message)));
          var changed := ApplyState(triggers, i, verdict, definitions, world.states);
          world := Applied(world, i, verdict);
        }
      }
    }
  }

  /** The filters in the order in which they are tried; the first that fails skips the trigger. */
  method PassesFilters(rule: Rule, event: SyslogEvent, finds: Search) returns (passes: bool)
    ensures passes == Matches(rule, event, finds)
  {
    if rule.device.Some? && event.device.Some? && rule.device != event.device { return false; }
    if rule.category != "" && rule.category != event.category { return false; }
    if rule.minSeverity.Some? {
      var severity := if event.severity.Some? && event.severity.value != 0 then event.severity.value else 7;
      if severity > rule.minSeverity.value { return false; }
    }
    if rule.regex != "" && !finds.ignoringCase(rule.regex, event.message) { return false; }
    if rule.sourceRegex != "" && event.sourceIp != "" && !finds.exactly(rule.sourceRegex, event.sourceIp) { return false; }
    return true;
  }

  lemma ChangeIsCounted(world: World, k: nat, verdict: Verdict)
    requires k < |world.states|
    ensures var after := Applied(world, k, verdict).log;
            var changed := after != world.log;
            && CountOf(after, PROBLEM) == CountOf(world.log, PROBLEM) + (if changed && verdict.problem then 1 else 0)
            && CountOf(after, OK) == CountOf(world.log, OK) + (if changed && !verdict.problem then 1 else 0)
  {
    var after := Applied(world, k, verdict).log;
    if after != world.log { assert after[..|after| - 1] == world.log; }
  }

  // ---------------------------------------------------------------- any interleaving of passes and events

  datatype Step = PeriodicPass(sensed: seq<Verdict>) | SyslogArrives(event: SyslogEvent)

  predicate Suits(definitions: seq<Definition>, step: Step) {
    step.PeriodicPass? ==> |step.sensed| == |definitions|
  }

  function After(definitions: seq<Definition>, world: World, step: Step, finds: Search)
    : (after: World)
    requires |definitions| == |world.states| && Suits(definitions, step)
    ensures |after.states| == |world.states|
  {
    match step
    case PeriodicPass(sensed) => Passed(definitions, world, sensed, |definitions|)
    case SyslogArrives(event) => Shown(definitions, world, event, finds, |definitions|)
  }

  function AfterAll(definitions: seq<Definition>, world: World, steps: seq<Step>, finds: Search)
    : (after: World)
    requires |definitions| == |world.states| && forall i :: 0 <= i < |steps| ==> Suits(definitions, steps[i])
    ensures |after.states| == |world.states|
  {
    if steps == [] then world
    else
      var n := |steps| - 1;
      After(definitions, AfterAll(definitions, world, steps[..n], finds), steps[n], finds)
  }

  /** The events of one trigger, oldest first. */
  function EventsOf(log: seq<TriggerEvent>, k: nat): seq<TriggerEvent> {
    if log == [] then []
    else EventsOf(log[..|log| - 1], k) + if log[|log| - 1].trigger == k then [log[|log| - 1]] else []
  }

  /** The event records a change, from the status the event before it left, or the initial one. */
  predicate Follows(initial: Status, events: seq<TriggerEvent>, i: nat)
    requires i < |events|
  {
    && events[i].previous == (if i == 0 then initial else StatusOf(events[i - 1].kind))
    && StatusOf(events[i].kind) != events[i].previous
  }

  /** Each event follows from the one before it, and the status is that of the last event, or the initial one. */
  ghost predicate Chained(initial: Status, events: seq<TriggerEvent>, status: Status) {
    && (forall i: nat {:trigger Follows(initial, events, i)} :: i < |events| ==> Follows(initial, events, i))
    && status == if events == [] then initial else StatusOf(events[|events| - 1].kind)
  }

  /** The event that a verdict causes when it changes the status. */
  function Recorded(k: nat, verdict: Verdict, previous: Status): TriggerEvent {
    TriggerEvent(k, if verdict.problem then PROBLEM else OK, verdict.value, previous)
  }

  /** A verdict keeps the chain: it adds an event exactly when it changes the status. */
  lemma ChainSteps(initial: Status, events: seq<TriggerEvent>, status: Status, k: nat, verdict: Verdict)
    requires Chained(initial, events, status)
    ensures var desired := if verdict.problem then Problem else Ok;
            Chained(initial, if status == desired then events else events + [Recorded(k, verdict, status)], desired)
  {
    var grown := events + [Recorded(k, verdict, status)];
    if StatusOf(grown[|events|].kind) != status {
      forall i: nat | i < |grown| ensures Follows(initial, grown, i) {
        if i < |events| { assert Follows(initial, events, i); }
      }
    }
  }

  /** The kinds of chained events alternate. */
  lemma ChainedAlternates(initial: Status, events: seq<TriggerEvent>, status: Status, i: nat)
    requires Chained(initial, events, status) && i + 1 < |events|
    ensures events[i].kind != events[i + 1].kind
  {
    assert Follows(initial, events, i + 1);
  }

  /** From one world to another, trigger `j` has taken one verdict, or none and is as it was. */
  ghost predicate Moved(before: World, after: World, j: nat, verdict: Option<Verdict>)
    requires j < |before.states| == |after.states|
  {
    match verdict
    case None => after.states[j] == before.states[j] && EventsOf(after.log, j) == EventsOf(before.log, j)
    case Some(v) =>
      && after.states[j] == State(Desired(v), v.value)
      && EventsOf(after.log, j)
         == if before.states[j].status == Desired(v) then EventsOf(before.log, j)
            else EventsOf(before.log, j) + [Recorded(j, v, before.states[j].status)]
  }

  /** One application only touches its own trigger's state and events. */
  lemma AppliedMoves(world: World, k: nat, verdict: Verdict, j: nat)
    requires k < |world.states| && j < |world.states|
    ensures Moved(world, Applied(world, k, verdict), j, if j == k then Some(verdict) else None)
  {
    var after := Applied(world, k, verdict);
    if world.states[k].status != Desired(verdict) {
      assert after.log[..|after.log| - 1] == world.log;
    }
  }

  lemma MovesJoin(a: World, b: World, c: World, j: nat, first: Option<Verdict>, second: Option<Verdict>)
    requires j < |a.states| == |b.states| == |c.states|
    requires Moved(a, b, j, first) && Moved(b, c, j, second) && (first == None || second == None)
    ensures Moved(a, c, j, if first == None then second else first)
  {
  }

  /** What a pass over the first `n` triggers decides about trigger `j`. */
  function Decided(definitions: seq<Definition>, world: World, sensed: seq<Verdict>, n: nat, j: nat): Option<Verdict>
    requires j < |definitions| == |world.states| == |sensed|
  {
    if j < n && definitions[j].enabled then Some(Evaluated(definitions[j].kind, world.states[j], sensed[j])) else None
  }

  /** What a pass does to one trigger: what evaluating it alone does. */
  lemma {:induction false} PassIsPointwise(
    definitions: seq<Definition>, world: World, sensed: seq<Verdict>, n: nat, j: nat)
    requires n <= |definitions| == |world.states| == |sensed| && j < |definitions|
    ensures Moved(world, Passed(definitions, world, sensed, n), j, Decided(definitions, world, sensed, n, j))
  {
    if n > 0 {
      var before, after := Passed(definitions, world, sensed, n - 1), Passed(definitions, world, sensed, n);
      PassIsPointwise(definitions, world, sensed, n - 1, j);
      if definitions[n - 1].enabled {
        var verdict := Evaluated(definitions[n - 1].kind, before.states[n - 1], sensed[n - 1]);
        AppliedMoves(before, n - 1, verdict, j);
        MovesJoin(world, before, after, j, Decided(definitions, world, sensed, n - 1, j),
                  if j == n - 1 then Some(verdict) else None);
      }
    }
  }

  /** What a syslog event shown to the first `n` triggers decides about trigger `j`. */
  function Raised(
    definitions: seq<Definition>, event: SyslogEvent, finds: Search, n: nat, j: nat)
    : Option<Verdict>
    requires j < |definitions|
  {
    if j < n && Hears(definitions[j], event, finds) then Some(Verdict(true, Some(Shortened(event.message)))) else None
  }

  /** A syslog event raises each trigger that hears it, and no other. */
  lemma {:induction false} EventIsPointwise(
    definitions: seq<Definition>, world: World, event: SyslogEvent, finds: Search, n: nat, j: nat)
    requires n <= |definitions| == |world.states| && j < |definitions|
    ensures Moved(world, Shown(definitions, world, event, finds, n), j, Raised(definitions, event, finds, n, j))
  {
    if n > 0 {
      var before, after := Shown(definitions, world, event, finds, n - 1), Shown(definitions, world, event, finds, n);
      EventIsPointwise(definitions, world, event, finds, n - 1, j);
      if Hears(definitions[n - 1], event, finds) {
        var verdict := Verdict(true, Some(Shortened(event.message)));
        AppliedMoves(before, n - 1, verdict, j);
        MovesJoin(world, before, after, j, Raised(definitions, event, finds, n - 1, j),
                  if j == n - 1 then Some(verdict) else None);
      }
    }
  }

  /**
   * Over any interleaving of passes and syslog events, each trigger's events strictly alternate, starting with a
   * change of its first status; each records the status it changed, and the trigger's status is that of its last event.
   */
  lemma {:induction false} EventsAlternate(
    definitions: seq<Definition>, states: seq<State>, steps: seq<Step>, finds: Search, j: nat)
    requires j < |definitions| == |states| && forall i :: 0 <= i < |steps| ==> Suits(definitions, steps[i])
    ensures var after := AfterAll(definitions, World(states, []), steps, finds);
            Chained(states[j].status, EventsOf(after.log, j), after.states[j].status)
  {
    if steps != [] {
      var n := |steps| - 1;
      EventsAlternate(definitions, states, steps[..n], finds, j);
      var before := AfterAll(definitions, World(states, []), steps[..n], finds);
      match steps[n]
      case PeriodicPass(sensed) =>
        PassIsPointwise(definitions, before, sensed, |definitions|, j);
        var verdict := Evaluated(definitions[j].kind, before.states[j], sensed[j]);
        ChainSteps(states[j].status, EventsOf(before.log, j), before.states[j].status, j, verdict);
      case SyslogArrives(event) =>
        EventIsPointwise(definitions, before, event, finds, |definitions|, j);
        ChainSteps(states[j].status, EventsOf(before.log, j), before.states[j].status, j,
                   Verdict(true, Some(Shortened(event.message))));
    }
  }

  /** From one world to another, trigger `j` came to this status and value, and recorded the change if it was one. */
  ghost predicate CameTo(before: World, after: World, j: nat, problem: bool, value: Option<string>)
    requires j < |before.states| == |after.states|
  {
    var was, now := before.states[j].status, if problem then Problem else Ok;
    && after.states[j] == State(now, value)
    && EventsOf(after.log, j)
       == EventsOf(before.log, j)
          + if was == now then [] else [TriggerEvent(j, if problem then PROBLEM else OK, value, was)]
  }

  ghost predicate Untouched(before: World, after: World, j: nat)
    requires j < |before.states| == |after.states|
  {
    after.states[j] == before.states[j] && EventsOf(after.log, j) == EventsOf(before.log, j)
  }

  /**
   * A pass leaves disabled triggers alone, brings triggers of an unknown kind to ok without a value, and brings each
   * sampled trigger to what its samples say; a syslog trigger comes out a problem exactly when it was one.
   */
  lemma PassBringsTo(definitions: seq<Definition>, world: World, sensed: seq<Verdict>, j: nat)
    requires j < |definitions| == |world.states| == |sensed|
    ensures var after, kind, was := Passed(definitions, world, sensed, |definitions|), definitions[j].kind, world.states[j];
            if !definitions[j].enabled then Untouched(world, after, j)
            else if kind.Unknown? then CameTo(world, after, j, false, None)
            else if kind == SyslogMatch then CameTo(world, after, j, was.status == Problem, was.lastValue)
            else CameTo(world, after, j, sensed[j].problem, sensed[j].value)
  {
    PassIsPointwise(definitions, world, sensed, |definitions|, j);
    assert EventsOf(world.log, j) + [] == EventsOf(world.log, j);
  }

  /** A syslog event brings the enabled syslog triggers whose filters let it through to problem, and leaves the others. */
  lemma EventBringsTo(definitions: seq<Definition>, world: World, event: SyslogEvent, finds: Search, j: nat)
    requires j < |definitions| == |world.states|
    ensures var after, d := Shown(definitions, world, event, finds, |definitions|), definitions[j];
            if d.enabled && d.kind == SyslogMatch && Matches(d.rule, event, finds)
            then CameTo(world, after, j, true, Some(Shortened(event.message))) else Untouched(world, after, j)
  {
    EventIsPointwise(definitions, world, event, finds, |definitions|, j);
    assert EventsOf(world.log, j) + [] == EventsOf(world.log, j);
  }

  function EnabledAmong(definitions: seq<Definition>, n: nat): set<nat>
    requires n <= |definitions|
  {
    set k: nat | k < n && definitions[k].enabled
  }

  /** A pass evaluates each enabled trigger once. */
  lemma {:induction false} EnabledCountCounts(definitions: seq<Definition>, n: nat)
    requires n <= |definitions|
    ensures EnabledCount(definitions, n) == |EnabledAmong(definitions, n)|
  {
    if n == 0 {
      assert EnabledAmong(definitions, n) == {};
    } else {
      EnabledCountCounts(definitions, n - 1);
      assert EnabledAmong(definitions, n)
             == EnabledAmong(definitions, n - 1) + if definitions[n - 1].enabled then {n - 1} else {};
    }
  }

  // ---------------------------------------------------------------- syslog triggers latch

  /** A pass leaves an enabled syslog trigger as it is, with no event, exactly when its status is one of the two. */
  lemma PassLeavesSyslogTriggers(definitions: seq<Definition>, world: World, sensed: seq<Verdict>, j: nat)
    requires |definitions| == |world.states| == |sensed| && j < |definitions|
    requires definitions[j].kind == SyslogMatch && definitions[j].enabled
    ensures var after := Passed(definitions, world, sensed, |definitions|);
            (after.states[j] == world.states[j] && EventsOf(after.log, j) == EventsOf(world.log, j))
            <==> !world.states[j].status.Other?
  {
    PassIsPointwise(definitions, world, sensed, |definitions|, j);
  }

  predicate HeardIn(
    definition: Definition, steps: seq<Step>, finds: Search)
  {
    exists i :: 0 <= i < |steps| && HeardAt(definition, steps[i], finds)
  }

  predicate HeardAt(definition: Definition, step: Step, finds: Search) {
    step.SyslogArrives? && Hears(definition, step.event, finds)
  }

  lemma HeardInSnoc(definition: Definition, steps: seq<Step>, finds: Search)
    requires steps != []
    ensures HeardIn(definition, steps, finds)
            <==> HeardIn(definition, steps[..|steps| - 1], finds)
                 || HeardAt(definition, steps[|steps| - 1], finds)
  {
    var init := steps[..|steps| - 1];
    if HeardIn(definition, init, finds) {
      var i :| 0 <= i < |init| && HeardAt(definition, init[i], finds);
      assert HeardAt(definition, steps[i], finds);
    }
  }

  /** The trigger is a problem with the one event that says so once it has heard a message, and untouched before. */
  predicate Latched(world: World, j: nat, heard: bool)
    requires j < |world.states|
  {
    var events := EventsOf(world.log, j);
    && |events| == (if heard then 1 else 0)
    && (heard ==> events[0].kind == PROBLEM && events[0].previous == Ok)
    && world.states[j].status == if heard then Problem else Ok
  }

  lemma LatchMoves(before: World, after: World, j: nat, was: bool, now: bool, verdict: Option<Verdict>)
    requires j < |before.states| == |after.states| && Latched(before, j, was) && Moved(before, after, j, verdict)
    requires if verdict.Some? then verdict.value.problem == now && (was ==> now) else now == was
    ensures Latched(after, j, now)
  {
  }

  /**
   * A syslog trigger that starts in ok latches: it records one PROBLEM event when a matching message arrives, none
   * before, and never an OK, however many passes and messages follow.
   */
  lemma {:induction false} SyslogTriggerLatches(
    definitions: seq<Definition>, states: seq<State>, steps: seq<Step>, finds: Search, j: nat)
    requires j < |definitions| == |states| && forall i :: 0 <= i < |steps| ==> Suits(definitions, steps[i])
    requires definitions[j].kind == SyslogMatch && states[j].status == Ok
    ensures Latched(AfterAll(definitions, World(states, []), steps, finds), j, HeardIn(definitions[j], steps, finds))
  {
    if steps != [] {
      var n := |steps| - 1;
      SyslogTriggerLatches(definitions, states, steps[..n], finds, j);
      HeardInSnoc(definitions[j], steps, finds);
      var before := AfterAll(definitions, World(states, []), steps[..n], finds);
      var after := AfterAll(definitions, World(states, []), steps, finds);
      var was, now := HeardIn(definitions[j], steps[..n], finds), HeardIn(definitions[j], steps, finds);
      match steps[n]
      case PeriodicPass(sensed) =>
        PassIsPointwise(definitions, before, sensed, |definitions|, j);
        LatchMoves(before, after, j, was, now, Decided(definitions, before, sensed, |definitions|, j));
      case SyslogArrives(event) =>
        EventIsPointwise(definitions, before, event, finds, |definitions|, j);
        LatchMoves(before, after, j, was, now, Raised(definitions, event, finds, |definitions|, j));
    }
  }

  // ---------------------------------------------------------------- the severity filter

  /** Severities count down to 0, the most severe: a message passes when it is at least as severe as the rule asks. */
  predicate SevereEnough(rule: Rule, event: SyslogEvent) {
    rule.minSeverity.Some? ==>
      (if event.severity.Some? then event.severity.value else 7) <= rule.minSeverity.value
  }

  const ANY_MESSAGE := Rule(None, "", None, "", "")

  /**
   * A rule lets a message through exactly when each of its filters on its own does. The device must be the same unless
   * either names none; a category, unless empty, must be the same; the pattern, unless empty, must be found in the
   * message; and the source pattern, unless it or the source address is empty, must be found in that address.
   */
  lemma FiltersOf(rule: Rule, event: SyslogEvent, finds: Search)
    ensures Matches(rule, event, finds)
            <==> && Matches(ANY_MESSAGE.(device := rule.device), event, finds)
                 && Matches(ANY_MESSAGE.(category := rule.category), event, finds)
                 && Matches(ANY_MESSAGE.(minSeverity := rule.minSeverity), event, finds)
                 && Matches(ANY_MESSAGE.(regex := rule.regex), event, finds)
                 && Matches(ANY_MESSAGE.(sourceRegex := rule.sourceRegex), event, finds)
    ensures Matches(ANY_MESSAGE.(device := rule.device), event, finds)
            <==> rule.device == None || event.device == None || rule.device == event.device
    ensures Matches(ANY_MESSAGE.(category := rule.category), event, finds)
            <==> rule.category == "" || rule.category == event.category
    ensures Matches(ANY_MESSAGE.(regex := rule.regex), event, finds)
            <==> rule.regex == "" || finds.ignoringCase(rule.regex, event.message)
    ensures Matches(ANY_MESSAGE.(sourceRegex := rule.sourceRegex), event, finds)
            <==> rule.sourceRegex == "" || event.sourceIp == "" || finds.exactly(rule.sourceRegex, event.sourceIp)
  {
  }

  /** Everything but the severity lets the message through. */
  predicate OtherwisePasses(rule: Rule, event: SyslogEvent, finds: Search) {
    Matches(rule.(minSeverity := None), event, finds)
  }

  /** An emergency, under a rule that asks for less than severity 7 and so for emergencies too. */
  predicate DroppedEmergency(rule: Rule, event: SyslogEvent) {
    event.severity == Some(0) && rule.minSeverity.Some? && 0 <= rule.minSeverity.value < 7
  }

  /**
   * For every rule and message: it passes when the other filters and the severity let it through and it is not a
   * dropped emergency. So a rule differs from what its filters ask exactly on emergencies that all its other filters
   * let through, when it asks for a severity from 0 to 6.
   */
  lemma EmergenciesAreFilteredOut(rule: Rule, event: SyslogEvent, finds: Search)
    ensures Matches(rule, event, finds)
            <==> OtherwisePasses(rule, event, finds) && SevereEnough(rule, event) && !DroppedEmergency(rule, event)
    ensures OtherwisePasses(rule, event, finds) && DroppedEmergency(rule, event) ==> SevereEnough(rule, event)
    ensures (Matches(rule, event, finds) <==> OtherwisePasses(rule, event, finds) && SevereEnough(rule, event))
            <==> !(OtherwisePasses(rule, event, finds) && DroppedEmergency(rule, event))
  {
    var severity := EffectiveSeverity(event);
    assert event.severity == Some(0) ==> severity == 7;
  }
}
