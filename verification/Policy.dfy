/** The governed shell's policy evaluation: a long sequence of early returns, proved to admit a
  * proposal exactly when every declarative condition holds for every operation. The proposal is the
  * parsed document; the policy is the typed content of the YAML file.
  */
module Policy {
  import opened Json
  import opened Risk
  import opened ForbiddenScan
  import opened Wrappers

  datatype ParameterRule = ParameterRule(name: string, valueType: Json, required: Json)

  datatype Declaration = NotAnObject | OtherSource | WithoutParameter | FromParameter(parameter: string)

  /** A catalogue entry; `parameters` is `None` when the policy does not give a mapping. */
  datatype Binding = Binding(
    enabled: Json, operationType: Json, parameters: Option<seq<ParameterRule>>, allowedRoots: seq<string>,
    readOnly: Json,
    networkAllowed: Json, privilegeAllowed: Json, declaredReads: seq<Declaration>, declaredWrites: seq<Declaration>)

  datatype PolicyFile = PolicyFile(
    id: Json, version: Json, defaultAction: Json, networkAllowed: Json, privilegeAllowed: Json,
    roots: map<string, Json>, cmdlets: map<string, Binding>, scripts: map<string, Json>,
    forbiddenFields: set<string>, forbiddenTokens: set<string>, confirmationRules: map<Level, Rule>)

  type Refs = map<string, Json>

  datatype Surface = Surface(bindingId: string, parameter: string, refId: string, rootId: string, relativePath: string)

  /** `validate_policy` on a policy whose sections have their types. */
  predicate ValidPolicy(p: PolicyFile) {
    && p.id.JStr? && (p.version.JStr? || p.version.JNum? || p.version.JBool?)
    && p.defaultAction == JStr("deny") && p.networkAllowed == JBool(false) && p.privilegeAllowed == JBool(false)
    && LISTING in p.cmdlets && ValidListing(p.cmdlets[LISTING])
    && Low in p.confirmationRules && Medium in p.confirmationRules
    && High in p.confirmationRules && Critical in p.confirmationRules
  }

  predicate ValidListing(b: Binding) {
    && b.operationType == JStr("powershell_cmdlet") && b.readOnly == JBool(true)
    && b.networkAllowed == JBool(false) && b.privilegeAllowed == JBool(false)
  }

  // ------------------------------------------------------------------ path references

  predicate IsRef(item: Json, id: string) {
    item.JObj? && Get(item, "path_ref_id") == JStr(id)
  }

  /** The references are the last ones given under each id. */
  ghost predicate LastRefs(items: seq<Json>, n: nat, refs: Refs)
    requires n <= |items|
  {
    && (forall id, i :: 0 <= i < n && IsRef(items[i], id) ==> id in refs)
    && (forall id :: id in refs ==> exists i :: 0 <= i < n && refs[id] == items[i] && IsLastRef(items, n, i, id))
  }

  predicate IsLastRef(items: seq<Json>, n: nat, i: nat, id: string)
    requires i < n <= |items|
  {
    IsRef(items[i], id) && forall j :: i < j < n ==> !IsRef(items[j], id)
  }

  lemma OneRefMore(items: seq<Json>, n: nat, refs: Refs)
    requires n < |items| && LastRefs(items, n, refs)
    ensures !items[n].JObj? || !Get(items[n], "path_ref_id").JStr? ==> LastRefs(items, n + 1, refs)
    ensures items[n].JObj? && Get(items[n], "path_ref_id").JStr? ==>
              LastRefs(items, n + 1, refs[Get(items[n], "path_ref_id").s := items[n]])
  {
    var item := items[n];
    var isRef := item.JObj? && Get(item, "path_ref_id").JStr?;
    var refs' := if isRef then refs[Get(item, "path_ref_id").s := item] else refs;
    forall id | id in refs'
      ensures exists i :: 0 <= i < n + 1 && refs'[id] == items[i] && IsLastRef(items, n + 1, i, id)
    {
      if IsRef(item, id) {
        assert IsLastRef(items, n + 1, n, id);
      } else {
        var i :| 0 <= i < n && refs[id] == items[i] && IsLastRef(items, n, i, id);
        assert IsLastRef(items, n + 1, i, id);
      }
    }
  }

  /** `_root_path_map`, with the ids in the order of the dictionary. */
  method RootPathMap(items: seq<Json>) returns (refs: Refs, order: seq<string>)
    ensures LastRefs(items, |items|, refs)
    ensures forall id :: id in order <==> id in refs
  {
    refs, order := map[], [];
    for i := 0 to |items|
      invariant LastRefs(items, i, refs)
      invariant forall id :: id in order <==> id in refs
    {
      OneRefMore(items, i, refs);
      if items[i].JObj? && Get(items[i], "path_ref_id").JStr? {
        var id := Get(items[i], "path_ref_id").s;
        if id !in refs {
          order := order + [id];
        }
        refs := refs[id := items[i]];
      }
    }
  }

  lemma RefsUnique(items: seq<Json>, a: Refs, b: Refs)
    requires LastRefs(items, |items|, a) && LastRefs(items, |items|, b)
    ensures a == b
  {
    forall id ensures id in a <==> id in b {
    }
    forall id | id in a ensures a[id] == b[id] {
      var i :| 0 <= i < |items| && a[id] == items[i] && IsLastRef(items, |items|, i, id);
      var j :| 0 <= j < |items| && b[id] == items[j] && IsLastRef(items, |items|, j, id);
      assert i == j;
    }
  }

  predicate RootEnabled(p: PolicyFile, root: Json) {
    root.JStr? && root.s in p.roots && p.roots[root.s].JObj? && Get(p.roots[root.s], "enabled") == JBool(true)
  }

  predicate RefsAllowed(p: PolicyFile, refs: Refs) {
    forall id :: id in refs ==> RootEnabled(p, Get(refs[id], "root_id"))
  }

  /** A reference without a root that the policy enables. */
  ghost predicate NamesDisabledRoot(p: PolicyFile, refs: Refs) {
    exists id :: id in refs && forall root :: root in p.roots && Get(refs[id], "root_id") == JStr(root) ==>
                                Get(p.roots[root], "enabled") != JBool(true)
  }

  lemma RefsAllowedExactly(p: PolicyFile, refs: Refs)
    ensures RefsAllowed(p, refs) <==> !NamesDisabledRoot(p, refs)
  {
    forall id | id in refs
      ensures RootEnabled(p, Get(refs[id], "root_id")) <==>
                exists root :: root in p.roots && Get(refs[id], "root_id") == JStr(root)
                               && Get(p.roots[root], "enabled") == JBool(true)
    {
    }
  }

  method CheckRoots(p: PolicyFile, refs: Refs, order: seq<string>) returns (allowed: bool)
    requires forall id :: id in order <==> id in refs
    ensures allowed <==> RefsAllowed(p, refs)
  {
    for i := 0 to |order|
      invariant forall j :: 0 <= j < i ==> RootEnabled(p, Get(refs[order[j]], "root_id"))
    {
      if !RootEnabled(p, Get(refs[order[i]], "root_id")) {
        assert order[i] in refs;
        return false;
      }
    }
    return true;
  }

  // ------------------------------------------------------------------ parameters

  /** `_operation_argument_items`: only the first of the two collections that is a list counts. */
  function ArgumentItems(op: Json): seq<Json> {
    var parameters, arguments := Get(op, "parameters"), Get(op, "arguments");
    if parameters.JArr? then parameters.items else if arguments.JArr? then arguments.items else []
  }

  predicate IsNamed(item: Json) {
    item.JObj? && Get(item, "name").JStr?
  }

  /** The named objects among the first `n` items, in order. */
  function Named(items: seq<Json>, n: nat): seq<Parameter>
    requires n <= |items|
  {
    if n == 0 then []
    else
      var before := Named(items, n - 1);
      if IsNamed(items[n - 1]) then before + [Parameter(Get(items[n - 1], "name").s, items[n - 1])] else before
  }

  function ParametersOf(op: Json): seq<Parameter> {
    Named(ArgumentItems(op), |ArgumentItems(op)|)
  }

  predicate DistinctNames(ps: seq<Parameter>) {
    forall i, j :: 0 <= i < j < |ps| ==> ps[i].name != ps[j].name
  }

  predicate HasName(ps: seq<Parameter>, name: string) {
    exists i :: 0 <= i < |ps| && ps[i].name == name
  }

  lemma OneNameMore(ps: seq<Parameter>, p: Parameter)
    ensures DistinctNames(ps + [p]) <==> DistinctNames(ps) && !HasName(ps, p.name)
  {
    var more := ps + [p];
    if DistinctNames(more) {
      forall i, j | 0 <= i < j < |ps| ensures ps[i].name != ps[j].name {
        assert more[i] == ps[i] && more[j] == ps[j];
      }
      forall i | 0 <= i < |ps| ensures ps[i].name != p.name {
        assert more[i] == ps[i] && more[|ps|] == p;
      }
    }
  }

  /** `_parameter_map`: a repeated name is noted, and its first payload is kept. */
  method ParameterMap(op: Json) returns (ps: seq<Parameter>, duplicates: seq<string>)
    ensures duplicates == [] <==> DistinctNames(ParametersOf(op))
    ensures duplicates == [] ==> ps == ParametersOf(op)
  {
    ps, duplicates := [], [];
    var items := ArgumentItems(op);
    for i := 0 to |items|
      invariant duplicates == [] <==> DistinctNames(Named(items, i))
      invariant duplicates == [] ==> ps == Named(items, i)
    {
      if IsNamed(items[i]) {
        var p := Parameter(Get(items[i], "name").s, items[i]);
        OneNameMore(Named(items, i), p);
        if HasName(ps, p.name) {
          duplicates := duplicates + [p.name];
        } else {
          ps := ps + [p];
        }
      }
    }
  }

  function PayloadOf(ps: seq<Parameter>, name: string): Option<Json> {
    if ps == [] then None
    else if ps[0].name == name then Some(ps[0].payload)
    else PayloadOf(ps[1..], name)
  }

  lemma {:induction false} PayloadIsGiven(ps: seq<Parameter>, name: string)
    ensures PayloadOf(ps, name).Some? ==> Parameter(name, PayloadOf(ps, name).value) in ps
  {
    if ps != [] && ps[0].name != name {
      PayloadIsGiven(ps[1..], name);
    }
  }

  function RuleFor(rules: seq<ParameterRule>, name: string): Option<ParameterRule> {
    if rules == [] then None
    else if rules[0].name == name then Some(rules[0])
    else RuleFor(rules[1..], name)
  }

  // ------------------------------------------------------------------ what is admissible

  /** A reference to a path under one of the binding's roots. */
  predicate RefFits(b: Binding, refs: Refs, ref: Json) {
    ref.JStr? && ref.s in refs && Get(refs[ref.s], "root_id").JStr? && Get(refs[ref.s], "root_id").s in b.allowedRoots
  }

  predicate ParameterFits(rules: seq<ParameterRule>, b: Binding, refs: Refs, p: Parameter) {
    && RuleFor(rules, p.name).Some?
    && RuleFor(rules, p.name).value.valueType == Get(p.payload, "value_type")
    && (Get(p.payload, "value_type") == JStr("path_ref") ==> RefFits(b, refs, Get(p.payload, "path_ref")))
  }

  predicate RequirementMet(rule: ParameterRule, ps: seq<Parameter>) {
    rule.required == JBool(true) ==> HasName(ps, rule.name)
  }

  /** A declared path that can be resolved; the other kinds of declaration are skipped. */
  predicate Resolvable(d: Declaration, ps: seq<Parameter>, refs: Refs) {
    d.FromParameter? ==>
      var payload := PayloadOf(ps, d.parameter);
      && payload.Some? && Get(payload.value, "value_type") == JStr("path_ref")
      && (var ref := Get(payload.value, "path_ref");
          ref.JStr? && ref.s in refs && Get(refs[ref.s], "root_id").JStr? && Get(refs[ref.s], "relative_path").JStr?)
  }

  function SurfaceOf(bindingId: string, d: Declaration, ps: seq<Parameter>, refs: Refs): seq<Surface> {
    if !d.FromParameter? || !Resolvable(d, ps, refs) then []
    else
      var ref := Get(PayloadOf(ps, d.parameter).value, "path_ref").s;
      [Surface(bindingId, d.parameter, ref, Get(refs[ref], "root_id").s, Get(refs[ref], "relative_path").s)]
  }

  /** The surfaces of the first `n` declarations, in their order. */
  function SurfacesUpTo(bindingId: string, ds: seq<Declaration>, ps: seq<Parameter>, refs: Refs, n: nat): seq<Surface>
    requires n <= |ds|
  {
    if n == 0 then [] else SurfacesUpTo(bindingId, ds, ps, refs, n - 1) + SurfaceOf(bindingId, ds[n - 1], ps, refs)
  }

  function SurfacesOf(bindingId: string, ds: seq<Declaration>, ps: seq<Parameter>, refs: Refs): seq<Surface> {
    SurfacesUpTo(bindingId, ds, ps, refs, |ds|)
  }

  predicate BindingFits(b: Binding, ps: seq<Parameter>, refs: Refs) {
    && b.enabled == JBool(true) && b.operationType == JStr("powershell_cmdlet") && b.parameters.Some?
    && ParametersFit(b, ps, refs)
    && b.networkAllowed != JBool(true) && b.privilegeAllowed != JBool(true)
    && (forall i :: 0 <= i < |b.declaredReads| ==> Resolvable(b.declaredReads[i], ps, refs))
    && (forall i :: 0 <= i < |b.declaredWrites| ==> Resolvable(b.declaredWrites[i], ps, refs))
  }

  predicate ParametersFit(b: Binding, ps: seq<Parameter>, refs: Refs)
    requires b.parameters.Some?
  {
    && (forall i :: 0 <= i < |ps| ==> ParameterFits(b.parameters.value, b, refs, ps[i]))
    && (forall i :: 0 <= i < |b.parameters.value| ==> RequirementMet(b.parameters.value[i], ps))
  }

  predicate KnownType(op: Json) {
    Get(op, "operation_type") in {JStr("powershell_cmdlet"), JStr("registered_script"), JStr("registered_native")}
  }

  predicate HasCmdlet(p: PolicyFile, op: Json) {
    Get(op, "cmdlet_id").JStr? && Get(op, "cmdlet_id").s in p.cmdlets
  }

  /** Every condition on one operation. Scripts and native commands are never admitted. */
  predicate AdmissibleOperation(p: PolicyFile, refs: Refs, op: Json) {
    && op.JObj? && Get(op, "operation_type") == JStr("powershell_cmdlet")
    && (var ps := ParametersOf(op);
        && DistinctNames(ps)
        && !IsOn(ps, "network_access") && !IsOn(ps, "privilege_change") && !RequestsWrite(ps)
        && HasCmdlet(p, op) && BindingFits(p.cmdlets[Get(op, "cmdlet_id").s], ps, refs))
  }

  // ------------------------------------------------------------------ the checks of one operation

  datatype Reason =
    | PolicyInvalid
    | PathInvalid
    | ForbiddenField
    | ForbiddenToken
    | RootNotAllowed
    | UnsupportedOperationType
    | UnknownParameter
    | NetworkDenied
    | PrivilegeDenied
    | WriteNotAllowed
    | NativeDenied
    | UnknownBinding
    | DisabledBinding
    | UnknownPathRef

  /** What a parameter must look like for a given refusal. */
  predicate BlamesParameter(reason: Reason, rules: seq<ParameterRule>, b: Binding, refs: Refs, p: Parameter) {
    match reason
    case UnknownParameter =>
      RuleFor(rules, p.name).None? || RuleFor(rules, p.name).value.valueType != Get(p.payload, "value_type")
    case UnknownPathRef => !(Get(p.payload, "path_ref").JStr? && Get(p.payload, "path_ref").s in refs)
    case RootNotAllowed =>
      Get(p.payload, "path_ref").JStr? && Get(p.payload, "path_ref").s in refs
          && !RefFits(b, refs, Get(p.payload, "path_ref"))
    case _ => false
  }

  predicate BlamesSome(reason: Reason, b: Binding, ps: seq<Parameter>, refs: Refs) {
    b.parameters.Some? && exists i :: 0 <= i < |ps| && BlamesParameter(reason, b.parameters.value, b, refs, ps[i])
  }

  predicate MissesRequired(b: Binding, ps: seq<Parameter>) {
    b.parameters.Some? && exists i :: 0 <= i < |b.parameters.value| && !RequirementMet(b.parameters.value[i], ps)
  }

  predicate Unresolvable(ds: seq<Declaration>, ps: seq<Parameter>, refs: Refs) {
    exists i :: 0 <= i < |ds| && !Resolvable(ds[i], ps, refs)
  }

  /** What a binding and its parameters must look like for a given refusal. */
  predicate ExplainsBinding(reason: Reason, b: Binding, ps: seq<Parameter>, refs: Refs) {
    match reason
    case DisabledBinding => b.enabled != JBool(true)
    case UnsupportedOperationType => b.operationType != JStr("powershell_cmdlet")
    case PolicyInvalid => b.parameters.None?
    case UnknownParameter => BlamesSome(reason, b, ps, refs) || MissesRequired(b, ps)
    case RootNotAllowed => BlamesSome(reason, b, ps, refs)
    case UnknownPathRef =>
      BlamesSome(reason, b, ps, refs) || Unresolvable(b.declaredReads, ps, refs)
          || Unresolvable(b.declaredWrites, ps, refs)
    case NetworkDenied => b.networkAllowed == JBool(true)
    case PrivilegeDenied => b.privilegeAllowed == JBool(true)
    case _ => false
  }

  /** The parameter at position `i` is the first that does not fit. */
  predicate FirstUnfit(rules: seq<ParameterRule>, b: Binding, refs: Refs, ps: seq<Parameter>, i: nat) {
    && i < |ps| && !ParameterFits(rules, b, refs, ps[i])
    && forall j :: 0 <= j < i ==> ParameterFits(rules, b, refs, ps[j])
  }

  /** Of several things that are wrong with a binding, the first in this order gives the reason. */
  ghost predicate FirstInBinding(reason: Reason, b: Binding, ps: seq<Parameter>, refs: Refs) {
    if b.enabled != JBool(true) then reason == DisabledBinding
    else if b.operationType != JStr("powershell_cmdlet") then reason == UnsupportedOperationType
    else if b.parameters.None? then reason == PolicyInvalid
    else if exists i: nat :: FirstUnfit(b.parameters.value, b, refs, ps, i) then
      exists i: nat :: FirstUnfit(b.parameters.value, b, refs, ps, i)
                       && BlamesParameter(reason, b.parameters.value, b, refs, ps[i])
    else if MissesRequired(b, ps) then reason == UnknownParameter
    else if b.networkAllowed == JBool(true) then reason == NetworkDenied
    else if b.privilegeAllowed == JBool(true) then reason == PrivilegeDenied
    else reason == UnknownPathRef
  }

  /** The loop over the parameters: it stops at the first one that does not fit, with its reason. */
  method CheckParameters(b: Binding, refs: Refs, ps: seq<Parameter>) returns (refusal: Option<Reason>)
    requires b.parameters.Some?
    ensures refusal.None? <==> forall i :: 0 <= i < |ps| ==> ParameterFits(b.parameters.value, b, refs, ps[i])
    ensures refusal.Some? ==>
              exists i: nat :: FirstUnfit(b.parameters.value, b, refs, ps, i)
                               && BlamesParameter(refusal.value, b.parameters.value, b, refs, ps[i])
  {
    for i := 0 to |ps|
      invariant forall j :: 0 <= j < i ==> ParameterFits(b.parameters.value, b, refs, ps[j])
    {
      var refused := CheckParameter(b, refs, ps[i]);
      if refused.Some? {
        return refused;
      }
    }
    return None;
  }

  method CheckParameter(b: Binding, refs: Refs, p: Parameter) returns (refusal: Option<Reason>)
    requires b.parameters.Some?
    ensures refusal.None? <==> ParameterFits(b.parameters.value, b, refs, p)
    ensures refusal.Some? ==> BlamesParameter(refusal.value, b.parameters.value, b, refs, p)
  {
    var rule := RuleFor(b.parameters.value, p.name);
    if rule.None? || rule.value.valueType != Get(p.payload, "value_type") {
      return Some(UnknownParameter);
    }
    if rule.value.valueType == JStr("path_ref") {
      var ref := Get(p.payload, "path_ref");
      if !ref.JStr? || ref.s !in refs {
        return Some(UnknownPathRef);
      }
      var root := Get(refs[ref.s], "root_id");
      if !root.JStr? || root.s !in b.allowedRoots {
        return Some(RootNotAllowed);
      }
    }
    return None;
  }

  method CheckRequired(rules: seq<ParameterRule>, ps: seq<Parameter>) returns (met: bool)
    ensures met <==> forall i :: 0 <= i < |rules| ==> RequirementMet(rules[i], ps)
  {
    for i := 0 to |rules|
      invariant forall j :: 0 <= j < i ==> RequirementMet(rules[j], ps)
    {
      if rules[i].required == JBool(true) && !HasName(ps, rules[i].name) {
        return false;
      }
    }
    return true;
  }

  /** `_resolve_declared_paths`; declarations of other kinds raise issues that the caller drops. */
  method ResolveDeclaredPaths(bindingId: string, ds: seq<Declaration>, ps: seq<Parameter>, refs: Refs)
    returns (resolved: seq<Surface>, failed: bool, issues: nat)
    ensures !failed <==> forall i :: 0 <= i < |ds| ==> Resolvable(ds[i], ps, refs)
    ensures resolved == if failed then [] else SurfacesOf(bindingId, ds, ps, refs)
  {
    resolved, issues := [], 0;
    for i := 0 to |ds|
      invariant forall j :: 0 <= j < i ==> Resolvable(ds[j], ps, refs)
      invariant resolved == SurfacesUpTo(bindingId, ds, ps, refs, i)
    {
      if !ds[i].FromParameter? {
        issues := issues + 1;
      } else if !Resolvable(ds[i], ps, refs) {
        return [], true, 1;
      } else {
        resolved := resolved + SurfaceOf(bindingId, ds[i], ps, refs);
      }
    }
    failed := false;
  }

  datatype Outcome =
    | Denied(reason: Reason)
    | Matched(context: Context, declaredReads: seq<Surface>, declaredWrites: seq<Surface>)

  function ContextOf(id: string, b: Binding, ps: seq<Parameter>): Context {
    Context(id, JStr("powershell_cmdlet"), ps, b.declaredWrites != [], b.networkAllowed, b.privilegeAllowed)
  }

  /** From the allowed parameters to the resolved paths, for an enabled binding. */
  method CheckBinding(id: string, b: Binding, ps: seq<Parameter>, refs: Refs) returns (o: Outcome)
    ensures o.Matched? <==> BindingFits(b, ps, refs)
    ensures o.Matched? ==>
              o == Matched(ContextOf(id, b, ps),
                           SurfacesOf(id, b.declaredReads, ps, refs), SurfacesOf(id, b.declaredWrites, ps, refs))
    ensures o.Denied? ==> ExplainsBinding(o.reason, b, ps, refs) && FirstInBinding(o.reason, b, ps, refs)
  {
    if b.enabled != JBool(true) {
      return Denied(DisabledBinding);
    }
    if b.operationType != JStr("powershell_cmdlet") {
      return Denied(UnsupportedOperationType);
    }
    if b.parameters.None? {
      return Denied(PolicyInvalid);
    }
    var refusal := CheckParameters(b, refs, ps);
    if refusal.Some? {
      return Denied(refusal.value);
    }
    var met := CheckRequired(b.parameters.value, ps);
    if !met {
      return Denied(UnknownParameter);
    }
    o := CheckCapabilities(id, b, ps, refs);
  }

  method CheckCapabilities(id: string, b: Binding, ps: seq<Parameter>, refs: Refs) returns (o: Outcome)
    requires b.enabled == JBool(true) && b.operationType == JStr("powershell_cmdlet") && b.parameters.Some?
        && ParametersFit(b, ps, refs)
    ensures o.Matched? <==> BindingFits(b, ps, refs)
    ensures o.Matched? ==>
              o == Matched(ContextOf(id, b, ps),
                           SurfacesOf(id, b.declaredReads, ps, refs), SurfacesOf(id, b.declaredWrites, ps, refs))
    ensures o.Denied? ==> ExplainsBinding(o.reason, b, ps, refs) && FirstInBinding(o.reason, b, ps, refs)
  {
    if b.networkAllowed == JBool(true) {
      return Denied(NetworkDenied);
    }
    if b.privilegeAllowed == JBool(true) {
      return Denied(PrivilegeDenied);
    }
    var readPaths, readsFailed, readIssues := ResolveDeclaredPaths(id, b.declaredReads, ps, refs);
    if readsFailed {
      return Denied(UnknownPathRef);
    }
    var writePaths, writesFailed, writeIssues := ResolveDeclaredPaths(id, b.declaredWrites, ps, refs);
    if writesFailed {
      return Denied(UnknownPathRef);
    }
    return Matched(ContextOf(id, b, ps), readPaths, writePaths);
  }

  function BindingFor(p: PolicyFile, op: Json): Binding
    requires HasCmdlet(p, op)
  {
    p.cmdlets[Get(op, "cmdlet_id").s]
  }

  predicate HasScript(p: PolicyFile, op: Json) {
    Get(op, "script_id").JStr? && Get(op, "script_id").s in p.scripts && p.scripts[Get(op, "script_id").s].JObj?
  }

  /** What a script or a native operation, or the parameters of any, must look like for a given refusal. */
  predicate ExplainsRequest(reason: Reason, p: PolicyFile, op: Json) {
    match reason
    case UnsupportedOperationType => !op.JObj? || !KnownType(op)
    case UnknownParameter => !DistinctNames(ParametersOf(op))
    case NetworkDenied => IsOn(ParametersOf(op), "network_access")
    case PrivilegeDenied => IsOn(ParametersOf(op), "privilege_change")
    case WriteNotAllowed => RequestsWrite(ParametersOf(op))
    case NativeDenied => Get(op, "operation_type") == JStr("registered_native")
    case UnknownBinding =>
      if Get(op, "operation_type") == JStr("registered_script") then !HasScript(p, op) else !HasCmdlet(p, op)
    case DisabledBinding => Get(op, "operation_type") == JStr("registered_script") && HasScript(p, op)
    case _ => false
  }

  /** What a refused operation must look like for the refusal to be given with this reason. */
  predicate Explains(reason: Reason, p: PolicyFile, refs: Refs, op: Json) {
    || ExplainsRequest(reason, p, op)
    || (HasCmdlet(p, op) && ExplainsBinding(reason, BindingFor(p, op), ParametersOf(op), refs))
  }

  /** Of several things that are wrong with an operation, the first in this order gives the reason. */
  ghost predicate FirstInOperation(reason: Reason, p: PolicyFile, refs: Refs, op: Json) {
    var ps := ParametersOf(op);
    if !op.JObj? || !KnownType(op) then reason == UnsupportedOperationType
    else if !DistinctNames(ps) then reason == UnknownParameter
    else if IsOn(ps, "network_access") then reason == NetworkDenied
    else if IsOn(ps, "privilege_change") then reason == PrivilegeDenied
    else if RequestsWrite(ps) then reason == WriteNotAllowed
    else if Get(op, "operation_type") == JStr("registered_native") then reason == NativeDenied
    else if Get(op, "operation_type") == JStr("registered_script") then
      reason == if HasScript(p, op) then DisabledBinding else UnknownBinding
    else if !HasCmdlet(p, op) then reason == UnknownBinding
    else FirstInBinding(reason, BindingFor(p, op), ps, refs)
  }

  /** The checks before the binding is looked up; `None` lets the operation through. */
  method CheckRequests(op: Json, ps: seq<Parameter>) returns (refusal: Option<Reason>)
    ensures refusal.None? <==> !IsOn(ps, "network_access") && !IsOn(ps, "privilege_change") && !RequestsWrite(ps)
                               && Get(op, "operation_type") != JStr("registered_native")
    ensures refusal == Some(NetworkDenied) ==> IsOn(ps, "network_access")
    ensures refusal == Some(PrivilegeDenied) ==> IsOn(ps, "privilege_change")
    ensures refusal == Some(WriteNotAllowed) ==> RequestsWrite(ps)
    ensures refusal == Some(NativeDenied) ==> Get(op, "operation_type") == JStr("registered_native")
    ensures refusal in {None, Some(NetworkDenied), Some(PrivilegeDenied), Some(WriteNotAllowed), Some(NativeDenied)}
    // a later reason is given only where no earlier one holds
    ensures refusal == Some(PrivilegeDenied) ==> !IsOn(ps, "network_access")
    ensures refusal == Some(WriteNotAllowed) ==> !IsOn(ps, "network_access") && !IsOn(ps, "privilege_change")
    ensures refusal == Some(NativeDenied) ==>
              !IsOn(ps, "network_access") && !IsOn(ps, "privilege_change") && !RequestsWrite(ps)
  {
    if IsOn(ps, "network_access") {
      return Some(NetworkDenied);
    }
    if IsOn(ps, "privilege_change") {
      return Some(PrivilegeDenied);
    }
    if RequestsWrite(ps) {
      return Some(WriteNotAllowed);
    }
    if Get(op, "operation_type") == JStr("registered_native") {
      return Some(NativeDenied);
    }
    return None;
  }

  function ReadsAt(p: PolicyFile, refs: Refs, op: Json): seq<Surface>
    requires HasCmdlet(p, op)
  {
    SurfacesOf(Get(op, "cmdlet_id").s, BindingFor(p, op).declaredReads, ParametersOf(op), refs)
  }

  function WritesAt(p: PolicyFile, refs: Refs, op: Json): seq<Surface>
    requires HasCmdlet(p, op)
  {
    SurfacesOf(Get(op, "cmdlet_id").s, BindingFor(p, op).declaredWrites, ParametersOf(op), refs)
  }

  /** What an admitted operation contributes. */
  function MatchOf(p: PolicyFile, refs: Refs, op: Json): Outcome
    requires HasCmdlet(p, op)
  {
    var context := ContextOf(Get(op, "cmdlet_id").s, BindingFor(p, op), ParametersOf(op));
    Matched(context, ReadsAt(p, refs, op), WritesAt(p, refs, op))
  }

  /** What the requests of an operation must be like to get as far as its binding. */
  predicate RequestsNothing(op: Json) {
    && DistinctNames(ParametersOf(op)) && !IsOn(ParametersOf(op), "network_access")
    && !IsOn(ParametersOf(op), "privilege_change") && !RequestsWrite(ParametersOf(op))
  }

  method EvaluateCmdlet(p: PolicyFile, refs: Refs, op: Json, ps: seq<Parameter>) returns (o: Outcome)
    requires op.JObj? && Get(op, "operation_type") == JStr("powershell_cmdlet") && RequestsNothing(op)
        && ps == ParametersOf(op)
    ensures o.Matched? <==> AdmissibleOperation(p, refs, op)
    ensures o.Matched? ==> o == MatchOf(p, refs, op)
    ensures o.Denied? ==> Explains(o.reason, p, refs, op) && FirstInOperation(o.reason, p, refs, op)
  {
    if !HasCmdlet(p, op) {
      return Denied(UnknownBinding);
    }
    o := CheckBinding(Get(op, "cmdlet_id").s, BindingFor(p, op), ps, refs);
  }

  /** The checks of an operation up to its binding. */
  method CheckOperation(p: PolicyFile, op: Json) returns (refusal: Option<Reason>)
    ensures refusal.None? <==> op.JObj? && Get(op, "operation_type") == JStr("powershell_cmdlet") && RequestsNothing(op)
    ensures refusal.Some? ==> ExplainsRequest(refusal.value, p, op)
    ensures refusal.Some? ==> forall refs :: FirstInOperation(refusal.value, p, refs, op)
  {
    if !op.JObj? || !KnownType(op) {
      return Some(UnsupportedOperationType);
    }
    var ps, duplicates := ParameterMap(op);
    if duplicates != [] {
      return Some(UnknownParameter);
    }
    refusal := CheckRequests(op, ps);
    if refusal.None? && Get(op, "operation_type") == JStr("registered_script") {
      return Some(if HasScript(p, op) then DisabledBinding else UnknownBinding);
    }
  }

  /** One turn of the loop over the operations. */
  method EvaluateOperation(p: PolicyFile, refs: Refs, op: Json) returns (o: Outcome)
    ensures o.Matched? <==> AdmissibleOperation(p, refs, op)
    ensures o.Matched? ==> o == MatchOf(p, refs, op)
    ensures o.Denied? ==> Explains(o.reason, p, refs, op) && FirstInOperation(o.reason, p, refs, op)
  {
    var refusal := CheckOperation(p, op);
    if refusal.Some? {
      return Denied(refusal.value);
    }
    o := EvaluateCmdlet(p, refs, op, ParametersOf(op));
  }

  // ------------------------------------------------------------------ the whole proposal

  ghost predicate AllAdmissible(p: PolicyFile, refs: Refs, ops: seq<Json>, n: nat)
    requires n <= |ops|
  {
    forall i :: 0 <= i < n ==> AdmissibleOperation(p, refs, ops[i])
  }

  ghost predicate AllBound(p: PolicyFile, ops: seq<Json>, n: nat)
    requires n <= |ops|
  {
    forall i :: 0 <= i < n ==> HasCmdlet(p, ops[i])
  }

  /** The contexts, reads and writes of the first `n` operations, in order. */
  ghost function ContextsOf(p: PolicyFile, refs: Refs, ops: seq<Json>, n: nat): (cs: seq<Context>)
    requires n <= |ops| && AllBound(p, ops, n)
    ensures |cs| == n
  {
    if n == 0 then [] else ContextsOf(p, refs, ops, n - 1) + [MatchOf(p, refs, ops[n - 1]).context]
  }

  ghost function ReadsOf(p: PolicyFile, refs: Refs, ops: seq<Json>, n: nat): seq<Surface>
    requires n <= |ops| && AllBound(p, ops, n)
  {
    if n == 0 then [] else ReadsOf(p, refs, ops, n - 1) + ReadsAt(p, refs, ops[n - 1])
  }

  ghost function WritesOf(p: PolicyFile, refs: Refs, ops: seq<Json>, n: nat): seq<Surface>
    requires n <= |ops| && AllBound(p, ops, n)
  {
    if n == 0 then [] else WritesOf(p, refs, ops, n - 1) + WritesAt(p, refs, ops[n - 1])
  }

  ghost predicate RefusesOperation(reason: Reason, p: PolicyFile, refs: Refs, ops: seq<Json>) {
    exists i :: 0 <= i < |ops| && AllAdmissible(p, refs, ops, i) && !AdmissibleOperation(p, refs, ops[i])
                && Explains(reason, p, refs, ops[i]) && FirstInOperation(reason, p, refs, ops[i])
  }

  datatype Matches =
    | Rejected(reason: Reason, at: nat)
    | Accepted(contexts: seq<Context>, declaredReads: seq<Surface>, declaredWrites: seq<Surface>)

  ghost predicate AcceptedSoFar(p: PolicyFile, refs: Refs, ops: seq<Json>, n: nat, m: Matches)
    requires n <= |ops| && AllBound(p, ops, n)
  {
    m == Accepted(ContextsOf(p, refs, ops, n), ReadsOf(p, refs, ops, n), WritesOf(p, refs, ops, n))
  }

  function Extended(m: Matches, o: Outcome): Matches
    requires m.Accepted? && o.Matched?
  {
    Accepted(m.contexts + [o.context], m.declaredReads + o.declaredReads, m.declaredWrites + o.declaredWrites)
  }

  lemma AcceptedOneMore(p: PolicyFile, refs: Refs, ops: seq<Json>, i: nat, m: Matches)
    requires i < |ops| && AllBound(p, ops, i) && AcceptedSoFar(p, refs, ops, i, m) && HasCmdlet(p, ops[i])
    ensures AllBound(p, ops, i + 1) && AcceptedSoFar(p, refs, ops, i + 1, Extended(m, MatchOf(p, refs, ops[i])))
  {
  }

  /** The loop over the operations: the first refusal ends it. */
  method EvaluateOperations(p: PolicyFile, refs: Refs, ops: seq<Json>) returns (m: Matches)
    ensures m.Accepted? <==> AllAdmissible(p, refs, ops, |ops|)
    ensures m.Accepted? ==> AllBound(p, ops, |ops|) && AcceptedSoFar(p, refs, ops, |ops|, m)
    ensures m.Rejected? ==>
              && m.at < |ops| && AllAdmissible(p, refs, ops, m.at)
              && !AdmissibleOperation(p, refs, ops[m.at])
    ensures m.Rejected? ==>
              m.at < |ops| && Explains(m.reason, p, refs, ops[m.at]) && FirstInOperation(m.reason, p, refs, ops[m.at])
  {
    m := Accepted([], [], []);
    assert AcceptedSoFar(p, refs, ops, 0, m);
    for i := 0 to |ops|
      invariant AllAdmissible(p, refs, ops, i) && AllBound(p, ops, i) && AcceptedSoFar(p, refs, ops, i, m)
    {
      var o := EvaluateOperation(p, refs, ops[i]);
      if o.Denied? {
        return Rejected(o.reason, i);
      }
      assert o == MatchOf(p, refs, ops[i]) && AdmissibleOperation(p, refs, ops[i]);
      AcceptedOneMore(p, refs, ops, i, m);
      m := Extended(m, o);
    }
  }

  datatype Verdict = Deny | Allow | RequireConfirmation

  datatype Decision = Decision(
    clean: bool, verdict: Verdict, reason: Option<Reason>, risk: Option<Level>, confirmationRequired: bool,
    confirmationMode: string,
    proposalHash: string, declaredReads: seq<Surface>, declaredWrites: seq<Surface>, networkAllowed: bool,
    privilegeAllowed: bool)

  /** A proposal as normalisation leaves it. */
  datatype Normalized = Normalized(proposal: Json, pathsClean: bool, proposalHash: string)

  predicate IsClear(d: Decision) {
    !d.clean && d.verdict == Deny && d.reason.Some? && !d.confirmationRequired && d.declaredReads == []
        && d.declaredWrites == []
  }

  function Denial(n: Normalized, reason: Reason): (d: Decision)
    ensures IsClear(d) && d.proposalHash == n.proposalHash
  {
    var risk := if reason == WriteNotAllowed then Some(High) else None;
    Decision(false, Deny, Some(reason), risk, false, "none", n.proposalHash, [], [], false, false)
  }

  function ItemsOf(proposal: Json, key: string): seq<Json> {
    if Get(proposal, key).JArr? then Get(proposal, key).items else []
  }

  /** `proposal.get("operations", [])` is a list: a proposal without operations has none. */
  predicate OperationsListed(proposal: Json) {
    Get(proposal, "operations").JArr? || (proposal.JObj? ==> !HasKey(proposal.fields, "operations"))
  }

  ghost predicate NothingForbidden(p: PolicyFile, proposal: Json) {
    && (forall path :: !NamesForbidden(proposal, path, p.forbiddenFields))
    && (forall s :: !TokenIn(proposal, p.forbiddenTokens, s))
  }

  /** Every condition on the whole proposal. */
  ghost predicate Admissible(p: PolicyFile, n: Normalized, refs: Refs) {
    && ValidPolicy(p) && n.pathsClean && NothingForbidden(p, n.proposal)
    && RefsAllowed(p, refs) && OperationsListed(n.proposal)
    && AllAdmissible(p, refs, ItemsOf(n.proposal, "operations"), |ItemsOf(n.proposal, "operations")|)
  }

  /** The checks before the references and the operations. */
  method CheckDocument(p: PolicyFile, n: Normalized) returns (refusal: Option<Reason>)
    ensures refusal.None? <==> ValidPolicy(p) && n.pathsClean && NothingForbidden(p, n.proposal)
    ensures refusal.Some? ==> refusal.value in {PolicyInvalid, PathInvalid, ForbiddenField, ForbiddenToken}
    ensures refusal == Some(PolicyInvalid) <==> !ValidPolicy(p)
    ensures refusal == Some(PathInvalid) ==> !n.pathsClean
    ensures refusal == Some(ForbiddenField) ==> exists path :: NamesForbidden(n.proposal, path, p.forbiddenFields)
    ensures refusal == Some(ForbiddenToken) ==> exists s :: TokenIn(n.proposal, p.forbiddenTokens, s)
    ensures refusal == Some(ForbiddenField) ==> n.pathsClean
    ensures refusal == Some(ForbiddenToken) ==>
              n.pathsClean && forall path :: !NamesForbidden(n.proposal, path, p.forbiddenFields)
  {
    if !ValidPolicy(p) {
      return Some(PolicyInvalid);
    }
    if !n.pathsClean {
      return Some(PathInvalid);
    }
    var fields := ScanFields(n.proposal, p.forbiddenFields, []);
    if fields != [] {
      assert fields[0] in fields && NamesForbidden(n.proposal, fields[0][0..], p.forbiddenFields);
      return Some(ForbiddenField);
    }
    assert forall q: Path :: NamesForbidden(n.proposal, q, p.forbiddenFields) ==> [] + q in fields;
    var tokens := ScanTokens(n.proposal, p.forbiddenTokens);
    if tokens != [] {
      assert tokens[0] in tokens;
      return Some(ForbiddenToken);
    }
    return None;
  }

  /** What the decision says about an admitted proposal. */
  ghost predicate Reports(p: PolicyFile, refs: Refs, ops: seq<Json>, d: Decision) {
    && AllBound(p, ops, |ops|)
    && d.declaredReads == ReadsOf(p, refs, ops, |ops|) && d.declaredWrites == WritesOf(p, refs, ops, |ops|)
    && d.risk.Some? && IsRisk(d.risk.value, ContextsOf(p, refs, ops, |ops|))
    && d.confirmationRequired == NeedsConfirmation(p.confirmationRules, d.risk.value)
    && d.confirmationMode == ModeFor(p.confirmationRules, d.risk.value)
    && d.verdict == (if d.confirmationRequired then RequireConfirmation else Allow)
  }

  /** The first condition, in this order, that fails when a proposal is denied with this reason. */
  ghost predicate Accounts(reason: Reason, p: PolicyFile, n: Normalized, refs: Refs) {
    if !ValidPolicy(p) then reason == PolicyInvalid
    else if !n.pathsClean then reason == PathInvalid
    else if exists path :: NamesForbidden(n.proposal, path, p.forbiddenFields) then reason == ForbiddenField
    else if exists s :: TokenIn(n.proposal, p.forbiddenTokens, s) then reason == ForbiddenToken
    else if !RefsAllowed(p, refs) then reason == RootNotAllowed
    else if !OperationsListed(n.proposal) then reason == UnsupportedOperationType
    else RefusesOperation(reason, p, refs, ItemsOf(n.proposal, "operations"))
  }

  /** `evaluate_policy`: clean exactly when the proposal is admissible, with its reads and writes in
    * order and its risk; otherwise a refusal that declares nothing.
    */
  method EvaluatePolicy(p: PolicyFile, n: Normalized) returns (d: Decision, ghost refs: Refs)
    ensures LastRefs(ItemsOf(n.proposal, "path_refs"), |ItemsOf(n.proposal, "path_refs")|, refs)
    ensures d.clean <==> Admissible(p, n, refs)
    ensures d.clean ==> Reports(p, refs, ItemsOf(n.proposal, "operations"), d)
    ensures !d.clean ==> IsClear(d) && Accounts(d.reason.value, p, n, refs)
    ensures d.proposalHash == n.proposalHash && !d.networkAllowed && !d.privilegeAllowed
    ensures !ValidPolicy(p) ==> d.reason == Some(PolicyInvalid)
    // a reference to a root that is not enabled is refused with just that reason, once the document is in order
    ensures NamesDisabledRoot(p, refs) ==> !d.clean
    ensures ValidPolicy(p) && n.pathsClean && NothingForbidden(p, n.proposal) && NamesDisabledRoot(p, refs) ==>
              d.reason == Some(RootNotAllowed)
  {
    var known, order := RootPathMap(ItemsOf(n.proposal, "path_refs"));
    refs := known;
    RefsAllowedExactly(p, refs);
    var refusal := CheckDocument(p, n);
    if refusal.Some? {
      return Denial(n, refusal.value), refs;
    }
    var allowed := CheckRoots(p, known, order);
    if !allowed {
      return Denial(n, RootNotAllowed), refs;
    }
    if !OperationsListed(n.proposal) {
      return Denial(n, UnsupportedOperationType), refs;
    }
    var m := EvaluateOperations(p, known, ItemsOf(n.proposal, "operations"));
    if m.Rejected? {
      return Denial(n, m.reason), refs;
    }
    var risk := DeriveEffectiveRisk(m.contexts, p.confirmationRules);
    d := Decision(true, if risk.confirmationRequired then RequireConfirmation else Allow, None, Some(risk.level),
                  risk.confirmationRequired, risk.confirmationMode, n.proposalHash,
                  m.declaredReads, m.declaredWrites, false, false);
  }

  // ------------------------------------------------------------------ what admission guarantees

  predicate WithinRoots(p: PolicyFile, refs: Refs, b: Binding, s: Surface) {
    && s.refId in refs && Get(refs[s.refId], "root_id") == JStr(s.rootId)
    && Get(refs[s.refId], "relative_path") == JStr(s.relativePath)
    && RootEnabled(p, JStr(s.rootId)) && s.rootId in b.allowedRoots
  }

  lemma SurfaceAllowed(p: PolicyFile, refs: Refs, id: string, b: Binding, ps: seq<Parameter>, d: Declaration,
      s: Surface)
    requires b.parameters.Some? && ParametersFit(b, ps, refs) && RefsAllowed(p, refs) && s in SurfaceOf(id, d, ps, refs)
    ensures WithinRoots(p, refs, b, s)
  {
    PayloadIsGiven(ps, d.parameter);
    var i :| 0 <= i < |ps| && ps[i] == Parameter(d.parameter, PayloadOf(ps, d.parameter).value);
    assert ParameterFits(b.parameters.value, b, refs, ps[i]);
  }

  lemma {:induction false} SurfacesAllowed(
    p: PolicyFile, refs: Refs, id: string, b: Binding, ps: seq<Parameter>, ds: seq<Declaration>, n: nat, s: Surface)
    requires b.parameters.Some? && ParametersFit(b, ps, refs) && RefsAllowed(p, refs)
    requires n <= |ds| && s in SurfacesUpTo(id, ds, ps, refs, n)
    ensures WithinRoots(p, refs, b, s)
  {
    if s in SurfaceOf(id, ds[n - 1], ps, refs) {
      SurfaceAllowed(p, refs, id, b, ps, ds[n - 1], s);
    } else {
      SurfacesAllowed(p, refs, id, b, ps, ds, n - 1, s);
    }
  }

  /** Every path that an admitted operation declares lies under an enabled root that its binding allows. */
  lemma DeclaredWithinRoots(p: PolicyFile, refs: Refs, op: Json, s: Surface)
    requires AdmissibleOperation(p, refs, op) && RefsAllowed(p, refs)
    requires s in ReadsAt(p, refs, op) || s in WritesAt(p, refs, op)
    ensures WithinRoots(p, refs, BindingFor(p, op), s)
  {
    var id, b, ps := Get(op, "cmdlet_id").s, BindingFor(p, op), ParametersOf(op);
    if s in SurfacesOf(id, b.declaredReads, ps, refs) {
      SurfacesAllowed(p, refs, id, b, ps, b.declaredReads, |b.declaredReads|, s);
    } else {
      SurfacesAllowed(p, refs, id, b, ps, b.declaredWrites, |b.declaredWrites|, s);
    }
  }

  lemma WriteIsFactor(p: PolicyFile, refs: Refs, op: Json)
    requires HasCmdlet(p, op) && WritesAt(p, refs, op) != []
    ensures Has(MatchOf(p, refs, op).context, DeclaresWrites)
  {
  }

  /** An operation that declares a write, when any does. */
  ghost function WriterOf(p: PolicyFile, refs: Refs, ops: seq<Json>, n: nat): (i: nat)
    requires n <= |ops| && AllBound(p, ops, n) && WritesOf(p, refs, ops, n) != []
    ensures i < n && WritesAt(p, refs, ops[i]) != []
  {
    if WritesAt(p, refs, ops[n - 1]) != [] then n - 1 else WriterOf(p, refs, ops, n - 1)
  }

  lemma {:induction false} ContextAt(p: PolicyFile, refs: Refs, ops: seq<Json>, n: nat, i: nat)
    requires i < n <= |ops| && AllBound(p, ops, n)
    ensures ContextsOf(p, refs, ops, n)[i] == MatchOf(p, refs, ops[i]).context
  {
    if i < n - 1 {
      ContextAt(p, refs, ops, n - 1, i);
    }
  }

  /** The level of a clean decision and whether it needs confirmation, on the operations and their bindings. */
  lemma RiskOfDecision(p: PolicyFile, refs: Refs, ops: seq<Json>, d: Decision)
    requires Reports(p, refs, ops, d)
    ensures d.risk.value ==
              if exists i :: 0 <= i < |ops| && CriticalAt(p, ops, i) then Critical
              else if exists i :: 0 <= i < |ops| && HighAt(p, ops, i) then High
              else if exists i :: 0 <= i < |ops| && MediumAt(p, ops, i) then Medium
              else Low
    ensures d.verdict == Allow <==>
              && d.risk.value in p.confirmationRules
              && p.confirmationRules[d.risk.value].required
                 in {JNull, JBool(false), JNum(0), JStr(""), JArr([]), JObj([])}
  {
    var contexts := ContextsOf(p, refs, ops, |ops|);
    RiskByFields(d.risk.value, contexts);
    forall i | 0 <= i < |ops|
      ensures CriticalAt(p, ops, i) <==> IsCritical(contexts[i].bindingId, contexts[i].operationType)
      ensures HighAt(p, ops, i) <==> IsHigh(contexts[i].parameters, contexts[i].declaresWrites,
                                            contexts[i].networkAllowed, contexts[i].privilegeAllowed)
      ensures MediumAt(p, ops, i) <==> IsMedium(contexts[i].bindingId, contexts[i].parameters)
    {
      ContextAt(p, refs, ops, |ops|, i);
    }
    if d.risk.value in p.confirmationRules {
      FalsyExactly(p.confirmationRules[d.risk.value].required);
    }
  }

  predicate CriticalAt(p: PolicyFile, ops: seq<Json>, i: nat)
    requires i < |ops| && HasCmdlet(p, ops[i])
  {
    IsCritical(Get(ops[i], "cmdlet_id").s, JStr("powershell_cmdlet"))
  }

  predicate HighAt(p: PolicyFile, ops: seq<Json>, i: nat)
    requires i < |ops| && HasCmdlet(p, ops[i])
  {
    var b := p.cmdlets[Get(ops[i], "cmdlet_id").s];
    IsHigh(ParametersOf(ops[i]), b.declaredWrites != [], b.networkAllowed, b.privilegeAllowed)
  }

  predicate MediumAt(p: PolicyFile, ops: seq<Json>, i: nat)
    requires i < |ops| && HasCmdlet(p, ops[i])
  {
    IsMedium(Get(ops[i], "cmdlet_id").s, ParametersOf(ops[i]))
  }

  /** A clean decision that declares any write reports a risk of at least high. */
  lemma WritesRaiseRisk(p: PolicyFile, refs: Refs, ops: seq<Json>, d: Decision)
    requires Reports(p, refs, ops, d) && d.declaredWrites != []
    ensures d.risk.value == High || d.risk.value == Critical
  {
    var i := WriterOf(p, refs, ops, |ops|);
    ContextAt(p, refs, ops, |ops|, i);
    WriteIsFactor(p, refs, ops[i]);
    assert Has(ContextsOf(p, refs, ops, |ops|)[i], DeclaresWrites);
    assert Weight(DeclaresWrites).Rank() <= d.risk.value.Rank();
  }

  lemma ContextsAmong(p: PolicyFile, refs: Refs, ops: seq<Json>, more: seq<Json>, c: Context)
    requires AllBound(p, ops, |ops|) && AllBound(p, more, |more|)
    requires (forall op :: op in ops ==> op in more) && c in ContextsOf(p, refs, ops, |ops|)
    ensures c in ContextsOf(p, refs, more, |more|)
  {
    var i: nat :| i < |ContextsOf(p, refs, ops, |ops|)| && ContextsOf(p, refs, ops, |ops|)[i] == c;
    ContextAt(p, refs, ops, |ops|, i);
    assert ops[i] in more;
    var j: nat :| j < |more| && more[j] == ops[i];
    ContextAt(p, refs, more, |more|, j);
  }

  /** Adding operations anywhere in a clean proposal never lowers its risk. */
  lemma MoreOperationsMoreRisk(p: PolicyFile, refs: Refs, ops: seq<Json>, d: Decision, more: seq<Json>, d': Decision)
    requires Reports(p, refs, ops, d) && Reports(p, refs, more, d') && forall op :: op in ops ==> op in more
    ensures d.risk.value.Rank() <= d'.risk.value.Rank()
  {
    forall c | c in ContextsOf(p, refs, ops, |ops|) ensures c in ContextsOf(p, refs, more, |more|) {
      ContextsAmong(p, refs, ops, more, c);
    }
    AddingNeverLowers(d.risk.value, d'.risk.value, ContextsOf(p, refs, ops, |ops|), ContextsOf(p, refs, more, |more|));
  }

  /** Reordering the operations of a clean proposal changes neither risk nor verdict nor confirmation. */
  lemma OrderOfOperationsIrrelevant(p: PolicyFile, refs: Refs, ops: seq<Json>, d: Decision, ops': seq<Json>,
      d': Decision)
    requires Reports(p, refs, ops, d) && Reports(p, refs, ops', d') && multiset(ops) == multiset(ops')
    ensures d.risk == d'.risk && d.verdict == d'.verdict && d.confirmationRequired == d'.confirmationRequired
  {
    forall op ensures op in ops <==> op in ops' {
      assert op in ops <==> op in multiset(ops);
      assert op in ops' <==> op in multiset(ops');
    }
    MoreOperationsMoreRisk(p, refs, ops, d, ops', d');
    MoreOperationsMoreRisk(p, refs, ops', d', ops, d);
  }
}
