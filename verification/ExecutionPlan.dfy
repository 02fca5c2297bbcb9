/** From a proposal to a sealed execution plan: confirmation by exact proposal hash, the guards of the
  * plan builder, and the approve command that puts policy, confirmation and builder together.
  */
module ExecutionPlan {
  import opened Json
  import opened Policy
  import opened Risk
  import opened Sealing
  import opened Wrappers

  // ------------------------------------------------------------------ confirmation

  datatype ConfirmationReason = NotRequired | MissingHash | MismatchedHash | MatchedHash

  datatype Confirmation = Confirmation(
    clean: bool, required: bool, mode: string, proposalHash: string, supplied: Option<string>, matched: bool,
    reason: ConfirmationReason)

  /** `check_confirmation`: a required confirmation is clean only with exactly the proposal's hash. */
  method CheckConfirmation(proposalHash: string, supplied: Option<string>, required: bool, mode: Option<string>)
      returns (c: Confirmation)
    ensures c.clean <==> required ==> supplied == Some(proposalHash)
    ensures c.matched <==> supplied == Some(proposalHash)
    ensures c.required == required && c.proposalHash == proposalHash && c.supplied == supplied
    ensures mode.Some? ==> c.mode == mode.value
    ensures c.reason == MatchedHash <==> required && c.matched
    ensures c.reason == NotRequired <==> !required
  {
    var resolved := if mode.Some? then mode.value else if required then EXACT_HASH else "none";
    if !required {
      return Confirmation(true, false, resolved, proposalHash, supplied, supplied == Some(proposalHash), NotRequired);
    }
    if supplied.None? {
      return Confirmation(false, true, resolved, proposalHash, None, false, MissingHash);
    }
    if supplied.value != proposalHash {
      return Confirmation(false, true, resolved, proposalHash, supplied, false, MismatchedHash);
    }
    return Confirmation(true, true, resolved, proposalHash, supplied, true, MatchedHash);
  }

  // ------------------------------------------------------------------ the plan

  datatype PlanBody = PlanBody(
    createdAt: string, sessionId: string, proposalId: Json, proposalHash: string, decision: Verdict,
    risk: Option<Level>,
    confirmation: Confirmation, networkAllowed: bool, privilegeAllowed: bool,
    declaredReads: seq<Surface>, declaredWrites: seq<Surface>, operations: seq<Json>)

  type Plan = Sealed<PlanBody>

  datatype Rules = Rules(hash: Hash<PlanBody>, shape: Plan -> bool)

  /** `_confirmation_allows_plan`. */
  predicate ConfirmationAllows(d: Decision, c: Confirmation) {
    && c.proposalHash == d.proposalHash && d.confirmationRequired == c.required && d.confirmationMode == c.mode
    && (d.confirmationRequired ==> c.clean)
  }

  datatype Problem =
    | PathsNotClean
    | DecisionNotClean
    | DecisionForbids
    | ConfirmationInvalid(issues: nat)
    | OperationsNotListed
    | ShapeInvalid

  datatype Result = Built(plan: Plan) | Failed(why: Problem)

  method CheckConfirmationAllows(d: Decision, c: Confirmation) returns (issues: nat)
    ensures issues == 0 <==> ConfirmationAllows(d, c)
    ensures issues == (if c.proposalHash != d.proposalHash then 1 else 0)
                      + (if c.required != d.confirmationRequired then 1 else 0)
                      + (if c.mode != d.confirmationMode then 1 else 0)
                      + (if d.confirmationRequired && !c.clean then 1 else 0)
  {
    issues := 0;
    if c.proposalHash != d.proposalHash {
      issues := issues + 1;
    }
    if d.confirmationRequired != c.required {
      issues := issues + 1;
    }
    if d.confirmationMode != c.mode {
      issues := issues + 1;
    }
    if d.confirmationRequired && !c.clean {
      issues := issues + 1;
    }
  }

  function BodyOf(n: Normalized, d: Decision, c: Confirmation, sessionId: string, now: string): PlanBody {
    PlanBody(now, sessionId, Get(n.proposal, "proposal_id"), n.proposalHash, d.verdict, d.risk, c, d.networkAllowed,
             d.privilegeAllowed, d.declaredReads, d.declaredWrites, ItemsOf(n.proposal, "operations"))
  }

  predicate Buildable(rules: Rules, n: Normalized, d: Decision, c: Confirmation, sessionId: string, now: string) {
    && n.pathsClean && d.clean && d.verdict != Deny && ConfirmationAllows(d, c) && OperationsListed(n.proposal)
    && (var body := BodyOf(n, d, c, sessionId, now); rules.shape(Sealed(body, rules.hash(body))))
  }

  /** `build_execution_plan`: every plan it returns passes `verify_execution_plan`. */
  method BuildExecutionPlan(rules: Rules, n: Normalized, d: Decision, c: Confirmation, sessionId: string, now: string)
      returns (r: Result)
    ensures r.Built? <==> Buildable(rules, n, d, c, sessionId, now)
    ensures r.Built? ==> r.plan.body == BodyOf(n, d, c, sessionId, now) && Verified(rules.hash, rules.shape, r.plan)
    // no guard is passed over: a built plan meets them all, and a refusal names the first that fails
    ensures r.Built? ==>
              && n.pathsClean && d.clean && (d.verdict == Allow || d.verdict == RequireConfirmation)
              && c.proposalHash == d.proposalHash
              && c.required == d.confirmationRequired && c.mode == d.confirmationMode
              && (d.confirmationRequired ==> c.clean)
              && (|| Get(n.proposal, "operations").JArr?
                  || (n.proposal.JObj? ==> !HasKey(n.proposal.fields, "operations")))
    ensures r.Failed? ==>
              match r.why
              case PathsNotClean => !n.pathsClean
              case DecisionNotClean => n.pathsClean && !d.clean
              case DecisionForbids => n.pathsClean && d.clean && d.verdict == Deny
              case ConfirmationInvalid(issues) =>
                && n.pathsClean && d.clean && d.verdict != Deny
                && issues == (if c.proposalHash != d.proposalHash then 1 else 0)
                             + (if c.required != d.confirmationRequired then 1 else 0)
                             + (if c.mode != d.confirmationMode then 1 else 0)
                             + (if d.confirmationRequired && !c.clean then 1 else 0)
              case OperationsNotListed => !OperationsListed(n.proposal)
              case ShapeInvalid =>
                var body := BodyOf(n, d, c, sessionId, now);
                !rules.shape(Sealed(body, rules.hash(body)))
  {
    if !n.pathsClean {
      return Failed(PathsNotClean);
    }
    if !d.clean {
      return Failed(DecisionNotClean);
    }
    if d.verdict == Deny {
      return Failed(DecisionForbids);
    }
    var issues := CheckConfirmationAllows(d, c);
    if issues != 0 {
      return Failed(ConfirmationInvalid(issues));
    }
    if !OperationsListed(n.proposal) {
      return Failed(OperationsNotListed);
    }
    var body := BodyOf(n, d, c, sessionId, now);
    var plan := Sealed(body, rules.hash(body));
    return if rules.shape(plan) then Built(plan) else Failed(ShapeInvalid);
  }

  /** The builder alone compares the confirmation with the decision, not with the proposal: the plan
    * has one proposal hash throughout exactly when the decision was made about this proposal.
    */
  lemma OneHashExactly(rules: Rules, n: Normalized, d: Decision, c: Confirmation, sessionId: string, now: string)
    requires Buildable(rules, n, d, c, sessionId, now)
    ensures OneHash(BodyOf(n, d, c, sessionId, now)) <==> d.proposalHash == n.proposalHash
  {
  }

  predicate OneHash(body: PlanBody) {
    body.confirmation.proposalHash == body.proposalHash
  }

  /** And it can be about another one: the confirmation of a decision on "h2" builds a plan for "h1". */
  lemma MixedHashes()
    ensures var rules := Rules(_ => "seal", _ => true);
            var n := Normalized(JObj([]), true, "h1");
            var d := Decision(true, Allow, None, Some(Low), false, "none", "h2", [], [], false, false);
            var c := Confirmation(true, false, "none", "h2", None, false, NotRequired);
            Buildable(rules, n, d, c, "session", "now") && !OneHash(BodyOf(n, d, c, "session", "now"))
  {
    assert !HasKey(JObj([]).fields, "operations");
  }

  // ------------------------------------------------------------------ the approve command

  /** Given the decision's requirement, exactly these hashes get past the confirmation. */
  predicate HashSuffices(required: bool, supplied: Option<string>, proposalHash: string) {
    if required then supplied == Some(proposalHash) else supplied.None? || supplied == Some(proposalHash)
  }

  /** What an approved plan guarantees about the proposal and the confirmation. */
  ghost predicate Sanctioned(p: PolicyFile, refs: Refs, n: Normalized, supplied: Option<string>, body: PlanBody) {
    && Admissible(p, n, refs)
    && body.proposalHash == n.proposalHash && OneHash(body)
    && body.operations == ItemsOf(n.proposal, "operations")
    && AllBound(p, body.operations, |body.operations|)
    && body.declaredReads == ReadsOf(p, refs, body.operations, |body.operations|)
    && body.declaredWrites == WritesOf(p, refs, body.operations, |body.operations|)
    && body.risk.Some? && IsRisk(body.risk.value, ContextsOf(p, refs, body.operations, |body.operations|))
    && body.confirmation.supplied == supplied && (supplied.Some? ==> supplied.value == n.proposalHash)
    && (NeedsConfirmation(p.confirmationRules, body.risk.value) ==>
        supplied == Some(n.proposalHash) && body.confirmation.matched)
    && !body.networkAllowed && !body.privilegeAllowed
  }

  /** The confirmation that `check_confirmation` gives for a hash that suffices. */
  function ConfirmationFor(required: bool, mode: string, supplied: Option<string>, proposalHash: string): Confirmation {
    Confirmation(true, required, mode, proposalHash, supplied, supplied == Some(proposalHash),
                 if required then MatchedHash else NotRequired)
  }

  /** The plan for an admissible proposal and a sufficient hash; nothing of it is left open. */
  ghost predicate PlanFor(
    p: PolicyFile, refs: Refs, n: Normalized, supplied: Option<string>, sessionId: string, now: string, body: PlanBody)
  {
    && Sanctioned(p, refs, n, supplied, body)
    && body.createdAt == now && body.sessionId == sessionId && body.proposalId == Get(n.proposal, "proposal_id")
    && (var required := NeedsConfirmation(p.confirmationRules, body.risk.value);
        && body.decision == (if required then RequireConfirmation else Allow)
        && body.confirmation
           == ConfirmationFor(required, ModeFor(p.confirmationRules, body.risk.value), supplied, n.proposalHash))
  }

  /** Only one risk level fits the proposal, and the rest of the plan follows. */
  lemma PlanForUnique(
    p: PolicyFile, refs: Refs, n: Normalized, supplied: Option<string>, sessionId: string, now: string, a: PlanBody,
    b: PlanBody)
    requires PlanFor(p, refs, n, supplied, sessionId, now, a) && PlanFor(p, refs, n, supplied, sessionId, now, b)
    ensures a == b
  {
    RiskUnique(a.risk.value, b.risk.value, ContextsOf(p, refs, a.operations, |a.operations|));
  }

  ghost function AllContexts(p: PolicyFile, refs: Refs, n: Normalized): seq<Context> {
    var ops := ItemsOf(n.proposal, "operations");
    if AllBound(p, ops, |ops|) then ContextsOf(p, refs, ops, |ops|) else []
  }

  /** A hash that does not suffice for the risk of the proposal. */
  ghost predicate WrongHash(p: PolicyFile, refs: Refs, n: Normalized, supplied: Option<string>) {
    exists level :: IsRisk(level, AllContexts(p, refs, n))
                    && !HashSuffices(NeedsConfirmation(p.confirmationRules, level), supplied, n.proposalHash)
  }

  /** The proposal's own hash suffices for any risk. */
  lemma OwnHashSuffices(p: PolicyFile, refs: Refs, n: Normalized)
    ensures !WrongHash(p, refs, n, Some(n.proposalHash))
  {
  }

  lemma WrongHashHasNoPlan(
    p: PolicyFile, refs: Refs, n: Normalized, supplied: Option<string>, sessionId: string, now: string, body: PlanBody)
    requires WrongHash(p, refs, n, supplied)
    ensures !PlanFor(p, refs, n, supplied, sessionId, now, body)
  {
    if PlanFor(p, refs, n, supplied, sessionId, now, body) {
      var level :| IsRisk(level, AllContexts(p, refs, n))
                   && !HashSuffices(NeedsConfirmation(p.confirmationRules, level), supplied, n.proposalHash);
      RiskUnique(level, body.risk.value, AllContexts(p, refs, n));
    }
  }

  predicate ShapeAccepts(rules: Rules, body: PlanBody) {
    rules.shape(Sealed(body, rules.hash(body)))
  }

  lemma NoPlanForHash(
    p: PolicyFile, refs: Refs, n: Normalized, supplied: Option<string>, sessionId: string, now: string, d: Decision)
    requires Reports(p, refs, ItemsOf(n.proposal, "operations"), d)
    requires !HashSuffices(d.confirmationRequired, supplied, n.proposalHash)
    ensures WrongHash(p, refs, n, supplied)
    ensures forall body :: !PlanFor(p, refs, n, supplied, sessionId, now, body)
  {
    assert IsRisk(d.risk.value, AllContexts(p, refs, n));
    forall body ensures !PlanFor(p, refs, n, supplied, sessionId, now, body) {
      WrongHashHasNoPlan(p, refs, n, supplied, sessionId, now, body);
    }
  }

  /** What the builder makes of a clean decision and its confirmation is the only plan for the proposal. */
  lemma ThePlanFor(
    p: PolicyFile, refs: Refs, n: Normalized, supplied: Option<string>, sessionId: string, now: string,
    d: Decision, c: Confirmation)
    requires Admissible(p, n, refs) && Reports(p, refs, ItemsOf(n.proposal, "operations"), d)
    requires d.proposalHash == n.proposalHash && !d.networkAllowed && !d.privilegeAllowed
    requires HashSuffices(d.confirmationRequired, supplied, n.proposalHash)
    requires c == ConfirmationFor(d.confirmationRequired, d.confirmationMode, supplied, n.proposalHash)
    ensures PlanFor(p, refs, n, supplied, sessionId, now, BodyOf(n, d, c, sessionId, now))
    ensures forall body :: PlanFor(p, refs, n, supplied, sessionId, now, body) ==>
        body == BodyOf(n, d, c, sessionId, now)
  {
    var made := BodyOf(n, d, c, sessionId, now);
    forall body | PlanFor(p, refs, n, supplied, sessionId, now, body) ensures body == made {
      PlanForUnique(p, refs, n, supplied, sessionId, now, body, made);
    }
  }

  /** `_handle_approve`: the plan it writes is sealed, admissible and, where the risk calls for it,
    * confirmed with exactly the hash that runs through the whole plan. An admissible proposal is turned
    * down for its hash, or because the plan's own schema refuses the plan.
    */
  method Approve(rules: Rules, p: PolicyFile, n: Normalized, supplied: Option<string>, sessionId: string, now: string)
    returns (plan: Option<Plan>, ghost refs: Refs)
    ensures LastRefs(ItemsOf(n.proposal, "path_refs"), |ItemsOf(n.proposal, "path_refs")|, refs)
    ensures plan.Some? <==>
              exists body :: PlanFor(p, refs, n, supplied, sessionId, now, body) && ShapeAccepts(rules, body)
    ensures plan.Some? ==> Verified(rules.hash, rules.shape, plan.value)
    ensures plan.Some? ==> PlanFor(p, refs, n, supplied, sessionId, now, plan.value.body)
    ensures plan.None? && Admissible(p, n, refs) ==>
              || WrongHash(p, refs, n, supplied)
              || exists body :: PlanFor(p, refs, n, supplied, sessionId, now, body) && !ShapeAccepts(rules, body)
  {
    var decision;
    decision, refs := EvaluatePolicy(p, n);
    if !decision.clean || decision.verdict == Deny {
      return None, refs;
    }
    if supplied.Some? && supplied.value != n.proposalHash {
      NoPlanForHash(p, refs, n, supplied, sessionId, now, decision);
      return None, refs;
    }
    var c := CheckConfirmation(
      n.proposalHash, supplied, decision.confirmationRequired, Some(decision.confirmationMode));
    if !c.clean {
      NoPlanForHash(p, refs, n, supplied, sessionId, now, decision);
      return None, refs;
    }
    var r := BuildExecutionPlan(rules, n, decision, c, sessionId, now);
    ghost var body := BodyOf(n, decision, c, sessionId, now);
    ThePlanFor(p, refs, n, supplied, sessionId, now, decision, c);
    if r.Failed? {
      assert !ShapeAccepts(rules, body);
      return None, refs;
    }
    assert ShapeAccepts(rules, body);
    plan := Some(r.plan);
  }
}
