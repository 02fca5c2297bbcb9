/** The activation governor: review, override and enforce over one persisted state.
  * Pattern matching on scopes, the fingerprint of the watched files and the clock are parameters.
  */
module Governor {
  import opened Wrappers

  datatype Token = Token(id: string, scope: string, expires: int, used: bool)

  datatype State = State(
    enforcement: bool, lockId: string, lockActive: bool, lockExpires: Option<int>,
    authorized: seq<string>, baseline: string, override_: Option<Token>)

  datatype Reason =
    | StateMissingNonMutating | StateMissing | DriftDetected | NonMutatingScope | EnforcementDisabled
    | LockInactiveOrExpired | AuthorizedScope | OverrideUsed | ScopeNotAuthorized

  predicate Allows(r: Reason) {
    r != StateMissing && r != DriftDetected && r != ScopeNotAuthorized
  }

  const NON_MUTATING := ["governor.status", "governor.review", "governor.override", "capture.status"]

  type Matcher = (string, string) -> bool

  predicate ScopeMatches(matches: Matcher, scope: string, patterns: seq<string>) {
    exists i :: 0 <= i < |patterns| && matches(scope, patterns[i])
  }

  /** One enforce call: the observed fingerprint and its two readings of the clock. */
  datatype Request = Request(scope: string, observed: string, now1: int, now2: int) {
    predicate Mutating() {
      scope !in NON_MUTATING
    }
  }

  predicate LockHolds(s: State, now: int) {
    s.lockActive && (s.lockExpires.Some? ==> s.lockExpires.value > now)
  }

  /** A stored token that still grants this request. */
  predicate Grants(matches: Matcher, t: Token, r: Request) {
    t.scope != "" && !t.used && ScopeMatches(matches, r.scope, [t.scope]) && t.expires > r.now2
  }

  /** The chain of early returns in `enforce`, for a state that loads and validates. */
  function Decide(matches: Matcher, s: State, r: Request): Reason {
    if s.enforcement && s.baseline != r.observed && r.Mutating() then DriftDetected
    else if !r.Mutating() then NonMutatingScope
    else if !s.enforcement then EnforcementDisabled
    else if !LockHolds(s, r.now1) then LockInactiveOrExpired
    else if ScopeMatches(matches, r.scope, s.authorized) then AuthorizedScope
    else if s.override_.Some? && Grants(matches, s.override_.value, r) then OverrideUsed
    else ScopeNotAuthorized
  }

  // ------------------------------------------------------------------ the decision, on the stored fields

  /** A scope that needs no lock. */
  predicate Harmless(scope: string) {
    || scope == "governor.status" || scope == "governor.review" || scope == "governor.override"
    || scope == "capture.status"
  }

  /** The lock is active and has no expiry or one that is still ahead. */
  ghost predicate Locked(s: State, now: int) {
    s.lockActive && forall at :: s.lockExpires == Some(at) ==> now < at
  }

  predicate Authorized(matches: Matcher, s: State, scope: string) {
    exists pattern :: pattern in s.authorized && matches(scope, pattern)
  }

  /** An unused, unexpired token for a pattern that the scope matches. */
  predicate Covered(matches: Matcher, s: State, r: Request) {
    && s.override_.Some? && !s.override_.value.used && s.override_.value.scope != ""
    && matches(r.scope, s.override_.value.scope) && r.now2 < s.override_.value.expires
  }

  lemma FieldsDecide(matches: Matcher, s: State, r: Request)
    ensures r.Mutating() <==> !Harmless(r.scope)
    ensures LockHolds(s, r.now1) <==> Locked(s, r.now1)
    ensures ScopeMatches(matches, r.scope, s.authorized) <==> Authorized(matches, s, r.scope)
    ensures (s.override_.Some? && Grants(matches, s.override_.value, r)) <==> Covered(matches, s, r)
  {
    if s.override_.Some? {
      assert [s.override_.value.scope][0] == s.override_.value.scope;
    }
  }

  /** A request is allowed by override exactly under all of these conditions. */
  lemma OverrideExactly(matches: Matcher, s: State, r: Request)
    ensures Decide(matches, s, r) == OverrideUsed <==>
              && !Harmless(r.scope) && s.enforcement && s.baseline == r.observed
              && Locked(s, r.now1) && !Authorized(matches, s, r.scope) && Covered(matches, s, r)
  {
    FieldsDecide(matches, s, r);
  }

  /** Blocked, exactly: a mutating scope with drift, or one the held lock and token do not cover. */
  lemma BlockedExactly(matches: Matcher, s: State, r: Request)
    ensures !Allows(Decide(matches, s, r)) <==>
              && !Harmless(r.scope) && s.enforcement
              && (s.baseline != r.observed
                  || (Locked(s, r.now1) && !Authorized(matches, s, r.scope) && !Covered(matches, s, r)))
  {
    FieldsDecide(matches, s, r);
  }

  /** And each of the other reasons. */
  lemma ReasonsExactly(matches: Matcher, s: State, r: Request)
    ensures Decide(matches, s, r) == NonMutatingScope <==> Harmless(r.scope)
    ensures Decide(matches, s, r) == EnforcementDisabled <==> !Harmless(r.scope) && !s.enforcement
    ensures Decide(matches, s, r) == DriftDetected <==> !Harmless(r.scope) && s.enforcement && s.baseline != r.observed
    ensures Decide(matches, s, r) == LockInactiveOrExpired <==>
              !Harmless(r.scope) && s.enforcement && s.baseline == r.observed && !Locked(s, r.now1)
    ensures Decide(matches, s, r) == AuthorizedScope <==>
              && !Harmless(r.scope) && s.enforcement && s.baseline == r.observed
              && Locked(s, r.now1) && Authorized(matches, s, r.scope)
  {
    FieldsDecide(matches, s, r);
  }

  function MarkUsed(s: State): State {
    if s.override_.Some? then s.(override_ := Some(s.override_.value.(used := true))) else s
  }

  // ------------------------------------------------------------------ runs

  datatype Step =
    | Review(init: bool, reviewed: State)
    | Issue(token: Token)
    | Enforce(request: Request)

  /** Scope patterns, and what `validate_state` accepts; the used flag does not matter to it. */
  datatype Rules = Rules(matches: Matcher, valid: State -> bool)

  function Reviewed(reviewed: State): State {
    reviewed.(override_ := None)
  }

  function WithToken(s: State, token: Token): State {
    s.(override_ := Some(token.(used := false)))
  }

  predicate Reviews(rules: Rules, s: Option<State>, step: Step) {
    step.Review? && (step.init || s.Some?) && rules.valid(Reviewed(step.reviewed))
  }

  predicate Issues(rules: Rules, s: Option<State>, step: Step) {
    step.Issue? && s.Some? && rules.valid(WithToken(s.value, step.token))
  }

  /** The stored state after one step; `None` is a state file that is missing or invalid. */
  function After(rules: Rules, s: Option<State>, step: Step): Option<State> {
    match step
    case Review(_, reviewed) => if Reviews(rules, s, step) then Some(Reviewed(reviewed)) else s
    case Issue(token) => if Issues(rules, s, step) then Some(WithToken(s.value, token)) else s
    case Enforce(r) =>
      if s.Some? && Decide(rules.matches, s.value, r) == OverrideUsed then Some(MarkUsed(s.value)) else s
  }

  function Run(rules: Rules, s: Option<State>, steps: seq<Step>): Option<State> {
    if steps == [] then s else After(rules, Run(rules, s, steps[..|steps| - 1]), steps[|steps| - 1])
  }

  predicate Uses(rules: Rules, s: Option<State>, step: Step) {
    step.Enforce? && s.Some? && Decide(rules.matches, s.value, step.request) == OverrideUsed
  }

  predicate UsesAt(rules: Rules, s: Option<State>, steps: seq<Step>, i: nat)
    requires i < |steps|
  {
    Uses(rules, Run(rules, s, steps[..i]), steps[i])
  }

  predicate IssuesAt(rules: Rules, s: Option<State>, steps: seq<Step>, i: nat)
    requires i < |steps|
  {
    Issues(rules, Run(rules, s, steps[..i]), steps[i])
  }

  /** Those of the first `n` steps that have a property. */
  ghost function StepsWith(property: nat -> bool, n: nat): set<nat> {
    set i: nat | i < n && property(i)
  }

  lemma OneMoreStep(property: nat -> bool, n: nat)
    ensures |StepsWith(property, n + 1)| == |StepsWith(property, n)| + if property(n) then 1 else 0
  {
    var before := StepsWith(property, n);
    assert StepsWith(property, n + 1) == if property(n) then before + {n} else before;
  }

  ghost function Using(rules: Rules, s: Option<State>, steps: seq<Step>): nat -> bool {
    (i: nat) => i < |steps| && UsesAt(rules, s, steps, i)
  }

  ghost function Issuing(rules: Rules, s: Option<State>, steps: seq<Step>): nat -> bool {
    (i: nat) => i < |steps| && IssuesAt(rules, s, steps, i)
  }

  /** The stored token that could still be used. */
  predicate Pending(s: Option<State>) {
    s.Some? && s.value.override_.Some? && !s.value.override_.value.used
  }

  function PendingCount(s: Option<State>): nat {
    if Pending(s) then 1 else 0
  }

  lemma PendingStep(rules: Rules, s: Option<State>, step: Step)
    ensures PendingCount(After(rules, s, step)) + (if Uses(rules, s, step) then 1 else 0)
         <= PendingCount(s) + (if Issues(rules, s, step) then 1 else 0)
  {
  }

  /** Over any run, the steps that use a token never outnumber those that issue one, counting a token that was
    * pending at the start.
    */
  lemma {:induction false} UsesBounded(rules: Rules, s: Option<State>, steps: seq<Step>, n: nat)
    requires n <= |steps|
    ensures |StepsWith(Using(rules, s, steps), n)| + PendingCount(Run(rules, s, steps[..n]))
         <= |StepsWith(Issuing(rules, s, steps), n)| + PendingCount(s)
    decreases n
  {
    var using, issuing := Using(rules, s, steps), Issuing(rules, s, steps);
    if n == 0 {
      assert StepsWith(using, 0) == {} && StepsWith(issuing, 0) == {};
    } else {
      UsesBounded(rules, s, steps, n - 1);
      OneMoreStep(using, n - 1);
      OneMoreStep(issuing, n - 1);
      RunStep(rules, s, steps, n - 1);
      PendingStep(rules, Run(rules, s, steps[..n - 1]), steps[n - 1]);
    }
  }

  /** A step that neither issues, reviews nor uses anything: a check, or a refused attempt. */
  predicate Idle(rules: Rules, s: Option<State>, step: Step) {
    !Uses(rules, s, step) && !Issues(rules, s, step) && !Reviews(rules, s, step)
  }

  /** Step `i` issued this token, and nothing up to step `n` used, replaced or cleared it. */
  ghost predicate LiveSince(rules: Rules, s: Option<State>, steps: seq<Step>, i: nat, n: nat, t: Token) {
    && i < n <= |steps|
    && Issues(rules, Run(rules, s, steps[..i]), steps[i])
    && steps[i].token.(used := false) == t
    && forall k {:trigger steps[k]} :: i < k < n ==> Idle(rules, Run(rules, s, steps[..k]), steps[k])
  }

  lemma RunStep(rules: Rules, s: Option<State>, steps: seq<Step>, n: nat)
    requires n < |steps|
    ensures Run(rules, s, steps[..n + 1]) == After(rules, Run(rules, s, steps[..n]), steps[n])
  {
    assert steps[..n + 1][..n] == steps[..n];
  }

  /** What one step can do to a token that stays usable: issue it, or leave it alone. */
  lemma PendingBefore(rules: Rules, s: Option<State>, step: Step)
    requires Pending(After(rules, s, step)) && !Issues(rules, s, step)
    ensures Idle(rules, s, step) && Pending(s) && After(rules, s, step).value.override_ == s.value.override_
  {
  }

  lemma LiveOneMore(rules: Rules, s: Option<State>, steps: seq<Step>, i: nat, n: nat, t: Token)
    requires n < |steps| && LiveSince(rules, s, steps, i, n, t) && Idle(rules, Run(rules, s, steps[..n]), steps[n])
    ensures LiveSince(rules, s, steps, i, n + 1, t)
  {
  }

  /** A usable token is live since some issue, unless it was there from the start. */
  lemma {:induction false} PendingIsLive(rules: Rules, s: Option<State>, steps: seq<Step>, n: nat)
    requires !Pending(s) && n <= |steps| && Pending(Run(rules, s, steps[..n]))
    ensures exists i :: LiveSince(rules, s, steps, i, n, Run(rules, s, steps[..n]).value.override_.value)
    decreases n
  {
    assert steps[..0] == [];
    if n > 0 {
      var here := Run(rules, s, steps[..n - 1]);
      RunStep(rules, s, steps, n - 1);
      if Issues(rules, here, steps[n - 1]) {
        assert LiveSince(rules, s, steps, n - 1, n, steps[n - 1].token.(used := false));
      } else {
        PendingBefore(rules, here, steps[n - 1]);
        PendingIsLive(rules, s, steps, n - 1);
        var i :| LiveSince(rules, s, steps, i, n - 1, here.value.override_.value);
        LiveOneMore(rules, s, steps, i, n - 1, here.value.override_.value);
      }
    }
  }

  /** Every use is of a token issued before it, unused since, unexpired, and for a matching scope. */
  lemma UseOfLiveToken(rules: Rules, s: Option<State>, steps: seq<Step>, n: nat)
    requires !Pending(s) && n < |steps| && Uses(rules, Run(rules, s, steps[..n]), steps[n])
    ensures exists i, t :: LiveSince(rules, s, steps, i, n, t)
              && rules.matches(steps[n].request.scope, t.scope) && t.expires > steps[n].request.now2
              && Run(rules, s, steps[..n]).value.baseline == steps[n].request.observed
  {
    var here := Run(rules, s, steps[..n]);
    OverrideExactly(rules.matches, here.value, steps[n].request);
    PendingIsLive(rules, s, steps, n);
  }

  /** Between two uses lies an issue of the token that the second one uses. */
  lemma OneUsePerIssue(rules: Rules, s: Option<State>, steps: seq<Step>, m: nat, n: nat)
    requires !Pending(s) && m < n < |steps|
    requires Uses(rules, Run(rules, s, steps[..m]), steps[m]) && Uses(rules, Run(rules, s, steps[..n]), steps[n])
    ensures exists i, t :: m < i && LiveSince(rules, s, steps, i, n, t)
  {
    UseOfLiveToken(rules, s, steps, n);
    var i, t :| LiveSince(rules, s, steps, i, n, t);
    assert steps[m].Enforce?;
  }

  // ------------------------------------------------------------------ the code

  datatype Decision = Decision(allow: bool, reason: Reason, lockId: string, tokenId: string, drift: bool)

  class Store {
    const rules: Rules
    var state: Option<State>

    /** `governor_review`: refuses to start from a missing or invalid state unless told to initialise. */
    method Review(init: bool, reviewed: State) returns (ok: bool)
      modifies this
      ensures state == After(rules, old(state), Step.Review(init, reviewed))
      ensures ok <==> (init || old(state).Some?) && rules.valid(Reviewed(reviewed))
      ensures ok ==> !Pending(state)
    {
      if !init && state.None? {
        return false;
      }
      if !rules.valid(Reviewed(reviewed)) {
        return false;
      }
      state := Some(Reviewed(reviewed));
      return true;
    }

    /** `governor_override`: a fresh, unused token replaces whatever was there. */
    method Override(token: Token) returns (ok: bool)
      modifies this
      ensures state == After(rules, old(state), Issue(token))
      ensures ok <==> old(state).Some? && rules.valid(WithToken(old(state).value, token))
      ensures ok ==> Pending(state)
    {
      if state.None? || !rules.valid(WithToken(state.value, token)) {
        return false;
      }
      state := Some(WithToken(state.value, token));
      return true;
    }

    /** `enforce`: the only thing it ever writes is the used flag of the stored token. */
    method Enforce(r: Request) returns (d: Decision)
      modifies this
      ensures state == After(rules, old(state), Step.Enforce(r))
      ensures old(state).None? ==> d.reason == if r.Mutating() then StateMissing else StateMissingNonMutating
      ensures old(state).Some? ==> d.reason == Decide(rules.matches, old(state).value, r)
      ensures d.allow <==> d.reason !in {StateMissing, DriftDetected, ScopeNotAuthorized}
      ensures old(state).None? ==> d.lockId == "" && d.tokenId == "" && !d.drift
      ensures old(state).Some? ==>
                && d.lockId == old(state).value.lockId
                && d.tokenId == (if old(state).value.override_.Some? then old(state).value.override_.value.id else "")
      ensures state != old(state) ==> d.reason == OverrideUsed && state == Some(MarkUsed(old(state).value))
      ensures old(state).Some? ==>
          (d.drift <==> old(state).value.enforcement && old(state).value.baseline != r.observed)
    {
      if state.None? {
        return if r.Mutating() then Decision(false, StateMissing, "", "", false)
               else Decision(true, StateMissingNonMutating, "", "", false);
      }
      var s := state.value;
      var tokenId := if s.override_.Some? then s.override_.value.id else "";
      var drift := s.enforcement && s.baseline != r.observed;
      if drift && r.Mutating() {
        return Decision(false, DriftDetected, s.lockId, tokenId, true);
      }
      if !r.Mutating() {
        return Decision(true, NonMutatingScope, s.lockId, tokenId, drift);
      }
      if !s.enforcement {
        return Decision(true, EnforcementDisabled, s.lockId, tokenId, drift);
      }
      if !LockHolds(s, r.now1) {
        return Decision(true, LockInactiveOrExpired, s.lockId, tokenId, drift);
      }
      if ScopeMatches(rules.matches, r.scope, s.authorized) {
        return Decision(true, AuthorizedScope, s.lockId, tokenId, drift);
      }
      if s.override_.Some? && Grants(rules.matches, s.override_.value, r) {
        state := Some(MarkUsed(s));
        return Decision(true, OverrideUsed, s.lockId, tokenId, drift);
      }
      return Decision(false, ScopeNotAuthorized, s.lockId, tokenId, drift);
    }
  }
}
