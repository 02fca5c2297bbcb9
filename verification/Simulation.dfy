/** Simulating a sealed plan against the audit ledger. The snapshot and receipt builders are
  * parameters: each either delivers a hash or raises.
  */
module Simulation {
  import opened AuditLedger
  import Text

  datatype Exn = SnapshotError | AuditLogError | SimulationError | OtherError(className: string)

  datatype Attempt = Delivers(hash: string) | Raises(exn: Exn)

  datatype Plan = Plan(clean: bool, sessionId: string, content: string)

  datatype Result = Simulated(receiptHash: string) | Failed

  const STARTED := "simulation_started"
  const FINISHED := "simulation_finished"
  const FAILED := "simulation_failed"

  function EventId(eventType: string, sessionId: string, index: nat): string {
    eventType + "." + sessionId + "." + Text.Decimal(index)
  }

  /** The event before it is chained: both hashes are still the zero hash. */
  function Draft(plan: Plan, eventType: string, index: nat, detail: string): Event {
    Event(EventId(eventType, plan.sessionId, index), index, eventType, plan.content + detail, ZERO_HASH, ZERO_HASH)
  }

  // ------------------------------------------------------------------ one event, on any ledger

  /** The event as it would be written at the end of the ledger. */
  function Chained(rules: Rules, lines: seq<Line>, plan: Plan, eventType: string, detail: string): Event {
    Sealed(rules, Draft(plan, eventType, |lines|, detail), LastEvent(rules, lines))
  }

  /** When the event is written: the ledger can be read, the next index is its length, and the schema
    * accepts the event twice, before it is chained and after.
    */
  predicate Fits(rules: Rules, lines: seq<Line>, plan: Plan, eventType: string, detail: string) {
    var draft := Draft(plan, eventType, |lines|, detail);
    && (forall i :: 0 <= i < |lines| ==> ValidLine(rules, lines[i]))
    && rules.schema(draft) && Accepted(rules, draft, LastEvent(rules, lines))
  }

  function Recorded(rules: Rules, lines: seq<Line>, plan: Plan, eventType: string, detail: string): seq<Line> {
    lines + [Object(Chained(rules, lines, plan, eventType, detail))]
  }

  /** On a clean ledger only the schema can refuse. */
  lemma FitsOnClean(rules: Rules, lines: seq<Line>, plan: Plan, eventType: string, detail: string)
    requires Clean(rules, lines)
    ensures Fits(rules, lines, plan, eventType, detail) <==>
              && rules.schema(Draft(plan, eventType, |lines|, detail))
              && rules.schema(Chained(rules, lines, plan, eventType, detail))
  {
    CleanIsValid(rules, lines);
    AcceptedOnClean(rules, lines, Draft(plan, eventType, |lines|, detail));
  }

  /** Recording an event that fits neither breaks nor repairs the chain. */
  lemma RecordedCleanIff(rules: Rules, lines: seq<Line>, plan: Plan, eventType: string, detail: string)
    requires Fits(rules, lines, plan, eventType, detail)
    ensures Clean(rules, Recorded(rules, lines, plan, eventType, detail)) <==> Clean(rules, lines)
  {
    AppendCleanIff(rules, lines, Draft(plan, eventType, |lines|, detail));
  }

  /** `_append_simulation_event`: the index it asks for is the number of events it reads. */
  method AppendSimulationEvent(ledger: Ledger, plan: Plan, eventType: string, detail: string) returns (ok: bool)
    requires ledger.Valid()
    modifies ledger
    ensures ledger.Valid()
    ensures ok <==> Fits(ledger.rules, old(ledger.lines), plan, eventType, detail)
    ensures ledger.lines ==
              if ok then Recorded(ledger.rules, old(ledger.lines), plan, eventType, detail) else old(ledger.lines)
  {
    var index := ledger.NextEventIndex();
    if index.Refused? {
      return false;
    }
    var draft := Draft(plan, eventType, index.value, detail);
    if !ledger.rules.schema(draft) {
      return false;
    }
    var r := ledger.Append(draft);
    return r.Ok?;
  }

  // ------------------------------------------------------------------ a whole simulation, on any ledger

  /** The lines after an attempt to record an event. */
  function Attempted(rules: Rules, lines: seq<Line>, plan: Plan, eventType: string, detail: string): seq<Line> {
    if Fits(rules, lines, plan, eventType, detail) then Recorded(rules, lines, plan, eventType, detail) else lines
  }

  /** Which event closes a simulation that was started, and with which detail. */
  function AfterClosing(rules: Rules, lines: seq<Line>, plan: Plan, receipt: Attempt): seq<Line> {
    match receipt
    case Delivers(hash) => Attempted(rules, lines, plan, FINISHED, hash)
    case Raises(OtherError(className)) => Attempted(rules, lines, plan, FAILED, className)
    case _ => lines
  }

  predicate Starts(rules: Rules, lines: seq<Line>, plan: Plan, snapshot: Attempt) {
    plan.clean && snapshot.Delivers? && Fits(rules, lines, plan, STARTED, snapshot.hash)
  }

  function AfterStart(rules: Rules, lines: seq<Line>, plan: Plan, snapshot: Attempt): seq<Line>
    requires snapshot.Delivers?
  {
    Recorded(rules, lines, plan, STARTED, snapshot.hash)
  }

  /** Both events of a simulation fit, the second one behind the first. */
  predicate Succeeds(rules: Rules, lines: seq<Line>, plan: Plan, snapshot: Attempt, receipt: Attempt) {
    && Starts(rules, lines, plan, snapshot) && receipt.Delivers?
    && Fits(rules, AfterStart(rules, lines, plan, snapshot), plan, FINISHED, receipt.hash)
  }

  function AfterSimulation(rules: Rules, lines: seq<Line>, plan: Plan, snapshot: Attempt, receipt: Attempt): seq<Line> {
    if !Starts(rules, lines, plan, snapshot) then lines
    else AfterClosing(rules, AfterStart(rules, lines, plan, snapshot), plan, receipt)
  }

  /** The part of `simulate_plan` after `simulation_started` is recorded. */
  method CloseSimulation(ledger: Ledger, plan: Plan, receipt: Attempt) returns (r: Result)
    requires ledger.Valid()
    modifies ledger
    ensures ledger.Valid()
    ensures ledger.lines == AfterClosing(ledger.rules, old(ledger.lines), plan, receipt)
    ensures r == if receipt.Delivers? && Fits(ledger.rules, old(ledger.lines), plan, FINISHED, receipt.hash)
                 then Simulated(receipt.hash) else Failed
  {
    match receipt {
      case Delivers(hash) =>
        var finished := AppendSimulationEvent(ledger, plan, FINISHED, hash);
        r := if finished then Simulated(hash) else Failed;
      case Raises(exn) =>
        if exn.OtherError? {
          var _ := AppendSimulationEvent(ledger, plan, FAILED, exn.className);
        }
        r := Failed;
    }
  }

  /** `simulate_plan` with an audit ledger: its outcome and every line it leaves, on any ledger. */
  method SimulatePlan(ledger: Ledger, plan: Plan, snapshot: Attempt, receipt: Attempt) returns (r: Result)
    requires ledger.Valid()
    modifies ledger
    ensures ledger.Valid()
    ensures r.Simulated? <==> Succeeds(ledger.rules, old(ledger.lines), plan, snapshot, receipt)
    ensures r.Simulated? ==> r.receiptHash == receipt.hash
    ensures ledger.lines == AfterSimulation(ledger.rules, old(ledger.lines), plan, snapshot, receipt)
    // whatever happens, the chain is neither broken nor repaired
    ensures Clean(ledger.rules, ledger.lines) <==> Clean(ledger.rules, old(ledger.lines))
  {
    SimulationKeepsChain(ledger.rules, ledger.lines, plan, snapshot, receipt);
    if !plan.clean || snapshot.Raises? {
      return Failed;
    }
    var started := AppendSimulationEvent(ledger, plan, STARTED, snapshot.hash);
    if !started {
      return Failed;
    }
    r := CloseSimulation(ledger, plan, receipt);
  }

  // ------------------------------------------------------------------ laws of simulations

  lemma AttemptedCleanIff(rules: Rules, lines: seq<Line>, plan: Plan, eventType: string, detail: string)
    ensures Clean(rules, Attempted(rules, lines, plan, eventType, detail)) <==> Clean(rules, lines)
  {
    if Fits(rules, lines, plan, eventType, detail) {
      RecordedCleanIff(rules, lines, plan, eventType, detail);
    }
  }

  lemma SimulationKeepsChain(rules: Rules, lines: seq<Line>, plan: Plan, snapshot: Attempt, receipt: Attempt)
    ensures Clean(rules, AfterSimulation(rules, lines, plan, snapshot, receipt)) <==> Clean(rules, lines)
  {
    if Starts(rules, lines, plan, snapshot) {
      RecordedCleanIff(rules, lines, plan, STARTED, snapshot.hash);
      var more := AfterStart(rules, lines, plan, snapshot);
      match receipt {
        case Delivers(hash) => AttemptedCleanIff(rules, more, plan, FINISHED, hash);
        case Raises(OtherError(className)) => AttemptedCleanIff(rules, more, plan, FAILED, className);
        case _ =>
      }
    }
  }

  /** A ledger with a line that cannot be read gets no events at all. */
  lemma UnreadableStaysAsItIs(rules: Rules, lines: seq<Line>, plan: Plan, snapshot: Attempt, receipt: Attempt, i: nat)
    requires i < |lines| && !(lines[i].Object? && rules.schema(lines[i].event))
    ensures AfterSimulation(rules, lines, plan, snapshot, receipt) == lines
    ensures !Succeeds(rules, lines, plan, snapshot, receipt)
  {
  }

  /** The event at a position is of a type, belongs to the plan's session and carries the detail. */
  predicate Says(line: Line, plan: Plan, eventType: string, detail: string) {
    line.Object? && line.event.eventType == eventType && line.event.content == plan.content + detail
  }

  /** `older`, then the started event, then only the event in `closing`. */
  predicate Leaves(newer: seq<Line>, older: seq<Line>, plan: Plan, snapshotHash: string,
      closing: seq<(string, string)>) {
    && |newer| == |older| + 1 + |closing| && older <= newer
    && Says(newer[|older|], plan, STARTED, snapshotHash)
    && forall i :: 0 <= i < |closing| ==> Says(newer[|older| + 1 + i], plan, closing[i].0, closing[i].1)
  }

  /** From the lines alone: nothing new means that the simulation never started; a started event on its own
    * means that it did not succeed; a finished event behind it means that it did.
    */
  lemma LinesTellOutcome(rules: Rules, lines: seq<Line>, plan: Plan, snapshot: Attempt, receipt: Attempt)
    ensures var after := AfterSimulation(rules, lines, plan, snapshot, receipt);
            && (after == lines <==> !Starts(rules, lines, plan, snapshot))
            && (Succeeds(rules, lines, plan, snapshot, receipt) <==>
                  && snapshot.Delivers? && receipt.Delivers?
                  && Leaves(after, lines, plan, snapshot.hash, [(FINISHED, receipt.hash)]))
            && (Starts(rules, lines, plan, snapshot) && !Succeeds(rules, lines, plan, snapshot, receipt) ==>
                  || Leaves(after, lines, plan, snapshot.hash, [])
                  || (receipt.Raises? && receipt.exn.OtherError?
                      && Leaves(after, lines, plan, snapshot.hash, [(FAILED, receipt.exn.className)])))
            // an unexpected exception is recorded whenever its event fits
            && (Starts(rules, lines, plan, snapshot) && receipt.Raises? && receipt.exn.OtherError? ==>
                  (Leaves(after, lines, plan, snapshot.hash, [(FAILED, receipt.exn.className)]) <==>
                     Fits(rules, AfterStart(rules, lines, plan, snapshot), plan, FAILED, receipt.exn.className)))
  {
  }

  // ------------------------------------------------------------------ how long a session id may be

  const MAX_ID := 120

  predicate IsSimulationType(eventType: string) {
    eventType == STARTED || eventType == FINISHED || eventType == FAILED
  }

  /** Before and after it is chained, only the length of its id decides whether an event is accepted. */
  predicate LengthDecides(rules: Rules, plan: Plan, eventType: string, index: nat, detail: string, previous: Found) {
    var draft := Draft(plan, eventType, index, detail);
    && (rules.schema(draft) <==> |draft.eventId| <= MAX_ID)
    && (rules.schema(Sealed(rules, draft, previous)) <==> |draft.eventId| <= MAX_ID)
  }

  /** The schema has nothing against this plan's simulation events but an id that is too long: `event_id` is
    * limited to 120 characters, and so is the plan's `session_id`, which is only a part of it.
    */
  ghost predicate OnlyLengthMatters(rules: Rules, plan: Plan) {
    forall eventType, index, detail, previous ::
      IsSimulationType(eventType) ==> LengthDecides(rules, plan, eventType, index, detail, previous)
  }

  lemma FitsByLength(rules: Rules, lines: seq<Line>, plan: Plan, eventType: string, detail: string)
    requires Clean(rules, lines) && OnlyLengthMatters(rules, plan)
    requires IsSimulationType(eventType)
    ensures Fits(rules, lines, plan, eventType, detail) <==>
              |eventType| + |plan.sessionId| + |Text.Decimal(|lines|)| + 2 <= MAX_ID
  {
    FitsOnClean(rules, lines, plan, eventType, detail);
    assert |EventId(eventType, plan.sessionId, |lines|)|
        == |eventType| + |plan.sessionId| + |Text.Decimal(|lines|)| + 2;
    assert LengthDecides(rules, plan, eventType, |lines|, detail, LastEvent(rules, lines));
  }

  /** A simulation on a clean ledger of `n` events succeeds exactly when the session id leaves room for the
    * index `n + 1`; it leaves a started event alone exactly when there is room for that event but not for
    * the finished one, whose type is one character longer and whose index may be.
    */
  lemma SessionFitsExactly(rules: Rules, lines: seq<Line>, plan: Plan, snapshot: Attempt, receipt: Attempt)
    requires Clean(rules, lines) && OnlyLengthMatters(rules, plan)
    requires plan.clean && snapshot.Delivers? && receipt.Delivers?
    ensures Succeeds(rules, lines, plan, snapshot, receipt) <==>
              |plan.sessionId| + |Text.Decimal(|lines| + 1)| <= 99
    ensures Leaves(AfterSimulation(rules, lines, plan, snapshot, receipt), lines, plan, snapshot.hash, []) <==>
              |plan.sessionId| + |Text.Decimal(|lines|)| <= 100 && |plan.sessionId| + |Text.Decimal(|lines| + 1)| > 99
  {
    var more := AfterStart(rules, lines, plan, snapshot);
    FitsByLength(rules, lines, plan, STARTED, snapshot.hash);
    Text.DecimalGrows(|lines|);
    if Fits(rules, lines, plan, STARTED, snapshot.hash) {
      RecordedCleanIff(rules, lines, plan, STARTED, snapshot.hash);
      FitsByLength(rules, more, plan, FINISHED, receipt.hash);
    }
  }

  /** A schema of that kind. */
  const BOUNDED := Rules(_ => "h", (e: Event) => |e.eventId| <= MAX_ID && e.recordHash != "")

  lemma BoundedOnlyByLength(plan: Plan)
    ensures Sound(BOUNDED) && OnlyLengthMatters(BOUNDED, plan)
  {
    assert |ZERO_HASH| > 0 && |"h"| > 0;
    forall eventType, index, detail, previous | IsSimulationType(eventType)
      ensures LengthDecides(BOUNDED, plan, eventType, index, detail, previous)
    {
      var sealed := Sealed(BOUNDED, Draft(plan, eventType, index, detail), previous);
      assert sealed.recordHash == "h" && sealed.eventId == EventId(eventType, plan.sessionId, index);
    }
  }

  /** So a plan with a session id of 99 characters, which its own schema allows, starts on an empty ledger and
    * is never closed: its simulation fails with the started event alone in the ledger.
    */
  lemma LongSessionIsNeverClosed(plan: Plan, snapshotHash: string, receiptHash: string)
    requires plan.clean && |plan.sessionId| == 99
    ensures Sound(BOUNDED) && OnlyLengthMatters(BOUNDED, plan)
    ensures !Succeeds(BOUNDED, [], plan, Delivers(snapshotHash), Delivers(receiptHash))
    ensures var after := AfterSimulation(BOUNDED, [], plan, Delivers(snapshotHash), Delivers(receiptHash));
            Leaves(after, [], plan, snapshotHash, [])
  {
    BoundedOnlyByLength(plan);
    assert Clean(BOUNDED, []);
    SessionFitsExactly(BOUNDED, [], plan, Delivers(snapshotHash), Delivers(receiptHash));
    assert |Text.Decimal(0)| == 1 && |Text.Decimal(1)| == 1;
  }
}
