/** Everything that can be wrong with a proposal, a policy or a binding, stated on the documents themselves: a proposal
  * is admitted exactly when nothing is.
  */
module Refusals {
  import opened Json
  import opened Wrappers
  import opened Risk
  import opened ForbiddenScan
  import opened Policy

  // ------------------------------------------------------------------ the arguments of an operation

  /** The operation gives this argument: a named object among its parameters or, when those are no list, among its
    * arguments.
    */
  predicate GivenAt(op: Json, i: nat, name: string, item: Json) {
    && item.JObj? && Get(item, "name") == JStr(name)
    && if Get(op, "parameters").JArr?
       then i < |Get(op, "parameters").items| && Get(op, "parameters").items[i] == item
       else Get(op, "arguments").JArr? && i < |Get(op, "arguments").items| && Get(op, "arguments").items[i] == item
  }

  predicate NamedAt(items: seq<Json>, i: nat, name: string, item: Json) {
    i < |items| && items[i] == item && item.JObj? && Get(item, "name") == JStr(name)
  }

  lemma GivenIsNamed(op: Json, i: nat, name: string, item: Json)
    ensures GivenAt(op, i, name, item) <==> NamedAt(ArgumentItems(op), i, name, item)
  {
  }

  lemma {:induction false} NamedElements(items: seq<Json>, n: nat, name: string, item: Json)
    requires n <= |items|
    ensures Parameter(name, item) in Named(items, n) <==> exists i: nat :: i < n && NamedAt(items, i, name, item)
  {
    if n > 0 {
      NamedElements(items, n - 1, name, item);
      assert NamedAt(items, n - 1, name, item) <==>
          IsNamed(items[n - 1]) && Parameter(Get(items[n - 1], "name").s, items[n - 1]) == Parameter(name, item);
      if i: nat :| i < n && NamedAt(items, i, name, item) {
        assert i == n - 1 || i < n - 1;
      }
    }
  }

  ghost predicate NoNameTwice(items: seq<Json>, n: nat) {
    forall i: nat, j: nat, name, a, b ::
      i < n && j < n && NamedAt(items, i, name, a) && NamedAt(items, j, name, b) ==> i == j
  }

  lemma {:induction false} NamedDistinct(items: seq<Json>, n: nat)
    requires n <= |items|
    ensures DistinctNames(Named(items, n)) <==> NoNameTwice(items, n)
  {
    if n > 0 {
      NamedDistinct(items, n - 1);
      var last := items[n - 1];
      if IsNamed(last) {
        var p := Parameter(Get(last, "name").s, last);
        OneNameMore(Named(items, n - 1), p);
        HasNameElements(items, n - 1, p.name);
        assert NamedAt(items, n - 1, p.name, last);
        NoNameOnce(items, n - 1, p.name);
      } else {
        NoNameSkipped(items, n - 1);
      }
    }
  }

  lemma NoNameSkipped(items: seq<Json>, n: nat)
    requires n < |items| && !IsNamed(items[n])
    ensures NoNameTwice(items, n + 1) <==> NoNameTwice(items, n)
  {
    if NoNameTwice(items, n) {
      forall i: nat, j: nat, name, a, b |
        i < n + 1 && j < n + 1 && NamedAt(items, i, name, a) && NamedAt(items, j, name, b)
        ensures i == j
      {
        assert i < n && j < n;
      }
    }
  }

  lemma NoNameOnce(items: seq<Json>, n: nat, name: string)
    requires n < |items| && NamedAt(items, n, name, items[n])
    ensures NoNameTwice(items, n + 1) <==>
              NoNameTwice(items, n) && !exists i: nat, item :: i < n && NamedAt(items, i, name, item)
  {
    if NoNameTwice(items, n) && !exists i: nat, item :: i < n && NamedAt(items, i, name, item) {
      forall i: nat, j: nat, m, a, b |
        i < n + 1 && j < n + 1 && NamedAt(items, i, m, a) && NamedAt(items, j, m, b)
        ensures i == j
      {
        if i == n {
          assert m == name;
        }
        if j == n {
          assert m == name;
        }
      }
    }
    if NoNameTwice(items, n + 1) {
      forall i: nat, item | i < n ensures !NamedAt(items, i, name, item) {
      }
    }
  }

  lemma HasNameElements(items: seq<Json>, n: nat, name: string)
    requires n <= |items|
    ensures HasName(Named(items, n), name) <==> exists i: nat, item :: i < n && NamedAt(items, i, name, item)
  {
    var ps := Named(items, n);
    if HasName(ps, name) {
      var k :| 0 <= k < |ps| && ps[k].name == name;
      NamedElements(items, n, name, ps[k].payload);
      assert ps[k] == Parameter(name, ps[k].payload) && ps[k] in ps;
    }
    if i: nat, item :| i < n && NamedAt(items, i, name, item) {
      NamedElements(items, n, name, item);
      var k :| 0 <= k < |ps| && ps[k] == Parameter(name, item);
    }
  }

  /** The parameters that the policy looks at are just the arguments that are given. */
  lemma ParametersExactly(op: Json, name: string, item: Json)
    ensures Parameter(name, item) in ParametersOf(op) <==> exists i: nat :: GivenAt(op, i, name, item)
  {
    var items := ArgumentItems(op);
    NamedElements(items, |items|, name, item);
    forall i: nat ensures GivenAt(op, i, name, item) <==> NamedAt(items, i, name, item) {
      GivenIsNamed(op, i, name, item);
    }
  }

  ghost predicate RepeatsName(op: Json) {
    exists i: nat, j: nat, name, a, b :: i != j && GivenAt(op, i, name, a) && GivenAt(op, j, name, b)
  }

  lemma RepeatsExactly(op: Json)
    ensures DistinctNames(ParametersOf(op)) <==> !RepeatsName(op)
  {
    var items := ArgumentItems(op);
    NamedDistinct(items, |items|);
    forall i: nat, name, item ensures GivenAt(op, i, name, item) <==> NamedAt(items, i, name, item) {
      GivenIsNamed(op, i, name, item);
    }
  }

  // ------------------------------------------------------------------ what can be wrong with an operation

  ghost predicate Gives(op: Json, name: string) {
    exists i: nat, item :: GivenAt(op, i, name, item)
  }

  /** A boolean argument of this name has a true value. */
  ghost predicate SwitchesOn(op: Json, name: string) {
    exists i: nat, item ::
      && GivenAt(op, i, name, item) && Get(item, "value_type") == JStr("boolean")
      && Get(item, "boolean_value") !in {JNull, JBool(false), JNum(0), JStr(""), JArr([]), JObj([])}
  }

  predicate FirstRule(rules: seq<ParameterRule>, k: nat, name: string) {
    k < |rules| && rules[k].name == name && forall j :: 0 <= j < k ==> rules[j].name != name
  }

  /** An item that refers to a path that is there, under one of these roots. */
  ghost predicate RefersUnder(refs: Refs, roots: seq<string>, item: Json) {
    exists ref, root ::
      && Get(item, "path_ref") == JStr(ref) && ref in refs
      && Get(refs[ref], "root_id") == JStr(root) && root in roots
  }

  /** No rule for the argument, one of another type, or a reference to a path that is not allowed. */
  ghost predicate ArgumentWrong(rules: seq<ParameterRule>, roots: seq<string>, refs: Refs, name: string, item: Json) {
    || (forall k: nat :: FirstRule(rules, k, name) ==> rules[k].valueType != Get(item, "value_type"))
    || (Get(item, "value_type") == JStr("path_ref") && !RefersUnder(refs, roots, item))
  }

  /** An argument that refers to a path with a root and a relative path. */
  ghost predicate RefersToPath(refs: Refs, item: Json) {
    && Get(item, "value_type") == JStr("path_ref")
    && exists ref, root, path ::
         && Get(item, "path_ref") == JStr(ref) && ref in refs
         && Get(refs[ref], "root_id") == JStr(root) && Get(refs[ref], "relative_path") == JStr(path)
  }

  /** A declared path that is to come from an argument, and that no argument gives. */
  ghost predicate DeclarationWrong(d: Declaration, op: Json, refs: Refs) {
    d.FromParameter? && !exists i: nat, item :: GivenAt(op, i, d.parameter, item) && RefersToPath(refs, item)
  }

  ghost predicate BindingWrong(b: Binding, op: Json, refs: Refs) {
    || b.enabled != JBool(true) || b.operationType != JStr("powershell_cmdlet") || b.parameters.None?
    || b.networkAllowed == JBool(true) || b.privilegeAllowed == JBool(true)
    || (exists i: nat, name, item ::
          GivenAt(op, i, name, item) && ArgumentWrong(b.parameters.value, b.allowedRoots, refs, name, item))
    || (exists rule :: rule in b.parameters.value && rule.required == JBool(true) && !Gives(op, rule.name))
    || (exists d :: (d in b.declaredReads || d in b.declaredWrites) && DeclarationWrong(d, op, refs))
  }

  ghost predicate OperationWrong(p: PolicyFile, refs: Refs, op: Json) {
    || !op.JObj? || Get(op, "operation_type") != JStr("powershell_cmdlet") || RepeatsName(op)
    || SwitchesOn(op, "network_access") || SwitchesOn(op, "privilege_change")
    || Gives(op, "write_path") || Gives(op, "output_path")
    || Gives(op, "destination_path") || Gives(op, "target_write_path")
    || (forall id :: id in p.cmdlets && Get(op, "cmdlet_id") == JStr(id) ==> BindingWrong(p.cmdlets[id], op, refs))
  }

  lemma GivesExactly(op: Json, name: string)
    ensures Gives(op, name) <==> HasName(ParametersOf(op), name)
  {
    var items := ArgumentItems(op);
    HasNameElements(items, |items|, name);
    forall i: nat, item ensures GivenAt(op, i, name, item) <==> NamedAt(items, i, name, item) {
      GivenIsNamed(op, i, name, item);
    }
  }

  lemma SwitchesExactly(op: Json, name: string)
    ensures SwitchesOn(op, name) <==> IsOn(ParametersOf(op), name)
  {
    var ps := ParametersOf(op);
    if SwitchesOn(op, name) {
      var i: nat, item :|
        && GivenAt(op, i, name, item) && Get(item, "value_type") == JStr("boolean")
        && Get(item, "boolean_value") !in {JNull, JBool(false), JNum(0), JStr(""), JArr([]), JObj([])};
      ParametersExactly(op, name, item);
      FalsyExactly(Get(item, "boolean_value"));
      var k :| 0 <= k < |ps| && ps[k] == Parameter(name, item);
      assert OnPayload(ps[k].payload);
    }
    if IsOn(ps, name) {
      var k :| 0 <= k < |ps| && ps[k].name == name && OnPayload(ps[k].payload);
      ParametersExactly(op, name, ps[k].payload);
      FalsyExactly(Get(ps[k].payload, "boolean_value"));
      assert ps[k] == Parameter(name, ps[k].payload) && ps[k] in ps;
    }
  }

  lemma WritesExactly(op: Json)
    ensures RequestsWrite(ParametersOf(op)) <==>
              || Gives(op, "write_path") || Gives(op, "output_path")
              || Gives(op, "destination_path") || Gives(op, "target_write_path")
  {
    var ps := ParametersOf(op);
    GivesExactly(op, "write_path");
    GivesExactly(op, "output_path");
    GivesExactly(op, "destination_path");
    GivesExactly(op, "target_write_path");
    if RequestsWrite(ps) {
      var i :| 0 <= i < |ps| && ps[i].name in WRITE_PARAMETER_NAMES;
      assert HasName(ps, ps[i].name);
    }
  }

  lemma {:induction false} FirstRuleExactly(rules: seq<ParameterRule>, name: string)
    ensures RuleFor(rules, name).None? <==> forall k: nat :: !FirstRule(rules, k, name)
    ensures forall k: nat :: FirstRule(rules, k, name) ==> RuleFor(rules, name) == Some(rules[k])
  {
    if rules != [] {
      FirstRuleExactly(rules[1..], name);
      if rules[0].name == name {
        assert FirstRule(rules, 0, name);
      } else {
        forall k: nat ensures FirstRule(rules, k + 1, name) <==> FirstRule(rules[1..], k, name) {
          if k < |rules[1..]| {
            assert rules[1..][k] == rules[k + 1];
            assert forall j :: 0 <= j < k ==> rules[1..][j] == rules[j + 1];
          }
        }
        assert !FirstRule(rules, 0, name);
        if k: nat :| FirstRule(rules[1..], k, name) {
          assert FirstRule(rules, k + 1, name);
        }
        forall k: nat | FirstRule(rules, k, name) ensures RuleFor(rules, name) == Some(rules[k]) {
          assert FirstRule(rules, (k - 1) + 1, name);
        }
      }
    }
  }

  lemma ArgumentExactly(b: Binding, refs: Refs, name: string, item: Json)
    requires b.parameters.Some?
    ensures ParameterFits(b.parameters.value, b, refs, Parameter(name, item)) <==>
              !ArgumentWrong(b.parameters.value, b.allowedRoots, refs, name, item)
  {
    var rules := b.parameters.value;
    FirstRuleExactly(rules, name);
    if RuleFor(rules, name).Some? {
      var k: nat :| FirstRule(rules, k, name);
    }
  }

  lemma ArgumentsExactly(b: Binding, op: Json, refs: Refs)
    requires b.parameters.Some?
    ensures var ps := ParametersOf(op);
            (forall i :: 0 <= i < |ps| ==> ParameterFits(b.parameters.value, b, refs, ps[i])) <==>
            !exists i: nat, name, item ::
               GivenAt(op, i, name, item) && ArgumentWrong(b.parameters.value, b.allowedRoots, refs, name, item)
  {
    var ps, rules := ParametersOf(op), b.parameters.value;
    forall k | 0 <= k < |ps|
      ensures ParameterFits(rules, b, refs, ps[k]) <==>
                !ArgumentWrong(rules, b.allowedRoots, refs, ps[k].name, ps[k].payload)
      ensures exists i: nat :: GivenAt(op, i, ps[k].name, ps[k].payload)
    {
      assert ps[k] == Parameter(ps[k].name, ps[k].payload) && ps[k] in ps;
      ArgumentExactly(b, refs, ps[k].name, ps[k].payload);
      ParametersExactly(op, ps[k].name, ps[k].payload);
    }
    if i: nat, name, item :| GivenAt(op, i, name, item) && ArgumentWrong(rules, b.allowedRoots, refs, name, item) {
      ParametersExactly(op, name, item);
      var k :| 0 <= k < |ps| && ps[k] == Parameter(name, item);
    }
  }

  lemma RequirementsExactly(b: Binding, op: Json)
    requires b.parameters.Some?
    ensures (forall i :: 0 <= i < |b.parameters.value| ==> RequirementMet(b.parameters.value[i], ParametersOf(op))) <==>
            !exists rule :: rule in b.parameters.value && rule.required == JBool(true) && !Gives(op, rule.name)
  {
    var rules := b.parameters.value;
    forall rule | rule in rules ensures Gives(op, rule.name) <==> HasName(ParametersOf(op), rule.name) {
      GivesExactly(op, rule.name);
    }
    forall i | 0 <= i < |rules| ensures rules[i] in rules {
    }
  }

  /** With distinct names the parameter that is looked up is the one that is given. */
  lemma {:induction false} PayloadExactly(ps: seq<Parameter>, name: string, item: Json)
    requires DistinctNames(ps)
    ensures PayloadOf(ps, name) == Some(item) <==> Parameter(name, item) in ps
  {
    if ps != [] {
      var rest := ps[1..];
      assert forall i :: 0 <= i < |rest| ==> rest[i] == ps[i + 1];
      PayloadExactly(rest, name, item);
      assert ps == [ps[0]] + rest;
      forall k | 0 <= k < |rest| ensures ps[0].name != rest[k].name {
      }
    }
  }

  lemma DeclarationExactly(d: Declaration, op: Json, refs: Refs)
    requires DistinctNames(ParametersOf(op))
    ensures Resolvable(d, ParametersOf(op), refs) <==> !DeclarationWrong(d, op, refs)
  {
    if d.FromParameter? {
      var ps := ParametersOf(op);
      var payload := PayloadOf(ps, d.parameter);
      if payload.Some? {
        PayloadExactly(ps, d.parameter, payload.value);
        ParametersExactly(op, d.parameter, payload.value);
      }
      forall i: nat, item | GivenAt(op, i, d.parameter, item) ensures payload == Some(item) {
        ParametersExactly(op, d.parameter, item);
        PayloadExactly(ps, d.parameter, item);
      }
    }
  }

  lemma DeclarationsExactly(ds: seq<Declaration>, op: Json, refs: Refs)
    requires DistinctNames(ParametersOf(op))
    ensures (forall i :: 0 <= i < |ds| ==> Resolvable(ds[i], ParametersOf(op), refs)) <==>
            !exists d :: d in ds && DeclarationWrong(d, op, refs)
  {
    forall d | d in ds ensures Resolvable(d, ParametersOf(op), refs) <==> !DeclarationWrong(d, op, refs) {
      DeclarationExactly(d, op, refs);
    }
    forall i | 0 <= i < |ds| ensures ds[i] in ds {
    }
  }

  lemma BindingExactly(b: Binding, op: Json, refs: Refs)
    requires DistinctNames(ParametersOf(op))
    ensures BindingFits(b, ParametersOf(op), refs) <==> !BindingWrong(b, op, refs)
  {
    if b.parameters.Some? {
      ArgumentsExactly(b, op, refs);
      RequirementsExactly(b, op);
      DeclarationsExactly(b.declaredReads, op, refs);
      DeclarationsExactly(b.declaredWrites, op, refs);
    }
  }

  /** An operation is admissible exactly when nothing is wrong with it. */
  lemma OperationExactly(p: PolicyFile, refs: Refs, op: Json)
    ensures AdmissibleOperation(p, refs, op) <==> !OperationWrong(p, refs, op)
  {
    RepeatsExactly(op);
    SwitchesExactly(op, "network_access");
    SwitchesExactly(op, "privilege_change");
    WritesExactly(op);
    if DistinctNames(ParametersOf(op)) {
      forall id | id in p.cmdlets
        ensures BindingFits(p.cmdlets[id], ParametersOf(op), refs) <==> !BindingWrong(p.cmdlets[id], op, refs)
      {
        BindingExactly(p.cmdlets[id], op, refs);
      }
    }
  }

  // ------------------------------------------------------------------ what can be wrong with the whole

  /** A section without its type, anything but denial by default, a capability granted to all, or a listing binding
    * that is not plain.
    */
  ghost predicate PolicyWrong(p: PolicyFile) {
    || !p.id.JStr? || p.version.JNull? || p.version.JArr? || p.version.JObj?
    || p.defaultAction != JStr("deny") || p.networkAllowed != JBool(false) || p.privilegeAllowed != JBool(false)
    || Low !in p.confirmationRules || Medium !in p.confirmationRules
    || High !in p.confirmationRules || Critical !in p.confirmationRules
    || "ps.get_child_items_v1" !in p.cmdlets || ListingWrong(p.cmdlets["ps.get_child_items_v1"])
  }

  predicate ListingWrong(b: Binding) {
    || b.operationType != JStr("powershell_cmdlet") || b.readOnly != JBool(true)
    || b.networkAllowed != JBool(false) || b.privilegeAllowed != JBool(false)
  }

  lemma PolicyExactly(p: PolicyFile)
    ensures ValidPolicy(p) <==> !PolicyWrong(p)
  {
  }

  ghost predicate ProposalWrong(p: PolicyFile, n: Normalized, refs: Refs) {
    || PolicyWrong(p) || !n.pathsClean || NamesDisabledRoot(p, refs)
    || SomethingForbidden(p, n.proposal)
    || (n.proposal.JObj? && HasKey(n.proposal.fields, "operations") && !Get(n.proposal, "operations").JArr?)
    || (Get(n.proposal, "operations").JArr?
        && exists op :: op in Get(n.proposal, "operations").items && OperationWrong(p, refs, op))
  }

  ghost predicate SomethingForbidden(p: PolicyFile, proposal: Json) {
    || (exists path :: NamesForbidden(proposal, path, p.forbiddenFields))
    || (exists path, s :: NamesToken(proposal, path, p.forbiddenTokens, s))
  }

  lemma ForbiddenExactly(p: PolicyFile, proposal: Json)
    ensures NothingForbidden(p, proposal) <==> !SomethingForbidden(p, proposal)
  {
    if NothingForbidden(p, proposal) {
      forall path, s ensures !NamesToken(proposal, path, p.forbiddenTokens, s) {
        assert !TokenIn(proposal, p.forbiddenTokens, s);
      }
    }
    if !SomethingForbidden(p, proposal) {
      forall s ensures !TokenIn(proposal, p.forbiddenTokens, s) {
        forall path ensures !NamesToken(proposal, path, p.forbiddenTokens, s) {
        }
      }
    }
  }

  lemma AllExactly(p: PolicyFile, refs: Refs, ops: seq<Json>)
    ensures AllAdmissible(p, refs, ops, |ops|) <==> !exists op :: op in ops && OperationWrong(p, refs, op)
  {
    forall i | 0 <= i < |ops| ensures AdmissibleOperation(p, refs, ops[i]) <==> !OperationWrong(p, refs, ops[i]) {
      OperationExactly(p, refs, ops[i]);
    }
    if op :| op in ops && OperationWrong(p, refs, op) {
      var i :| 0 <= i < |ops| && ops[i] == op;
      assert !AdmissibleOperation(p, refs, ops[i]);
    }
    if i :| 0 <= i < |ops| && !AdmissibleOperation(p, refs, ops[i]) {
      assert ops[i] in ops && OperationWrong(p, refs, ops[i]);
    }
  }

  /** A proposal is admitted exactly when nothing is wrong with it, the policy or any of its operations. */
  lemma AdmissibleExactly(p: PolicyFile, n: Normalized, refs: Refs)
    ensures Admissible(p, n, refs) <==> !ProposalWrong(p, n, refs)
  {
    PolicyExactly(p);
    RefsAllowedExactly(p, refs);
    AllExactly(p, refs, ItemsOf(n.proposal, "operations"));
    ForbiddenExactly(p, n.proposal);
  }

  // ------------------------------------------------------------------ what an admitted proposal declares

  /** The surface that a declaration makes of the arguments: under the binding's id and the declaration's parameter, the
    * reference that the argument names, with the root and the path that it has.
    */
  ghost predicate Makes(op: Json, refs: Refs, d: Declaration, s: Surface) {
    && Get(op, "cmdlet_id") == JStr(s.bindingId) && d == FromParameter(s.parameter)
    && exists i: nat, item ::
         && GivenAt(op, i, s.parameter, item) && Get(item, "value_type") == JStr("path_ref")
         && Get(item, "path_ref") == JStr(s.refId) && s.refId in refs
         && Get(refs[s.refId], "root_id") == JStr(s.rootId)
         && Get(refs[s.refId], "relative_path") == JStr(s.relativePath)
  }

  lemma MadeExactly(p: PolicyFile, refs: Refs, op: Json, d: Declaration, s: Surface)
    requires HasCmdlet(p, op) && DistinctNames(ParametersOf(op))
    ensures s in SurfaceOf(Get(op, "cmdlet_id").s, d, ParametersOf(op), refs) <==> Makes(op, refs, d, s)
  {
    if d.FromParameter? {
      var ps := ParametersOf(op);
      var payload := PayloadOf(ps, d.parameter);
      if payload.Some? {
        PayloadExactly(ps, d.parameter, payload.value);
        ParametersExactly(op, d.parameter, payload.value);
      }
      forall i: nat, item | GivenAt(op, i, d.parameter, item) ensures payload == Some(item) {
        ParametersExactly(op, d.parameter, item);
        PayloadExactly(ps, d.parameter, item);
      }
    }
  }

  lemma {:induction false} SurfacesExactly(
    p: PolicyFile, refs: Refs, op: Json, ds: seq<Declaration>, n: nat, s: Surface)
    requires HasCmdlet(p, op) && DistinctNames(ParametersOf(op)) && n <= |ds|
    ensures s in SurfacesUpTo(Get(op, "cmdlet_id").s, ds, ParametersOf(op), refs, n) <==>
              exists i :: 0 <= i < n && Makes(op, refs, ds[i], s)
  {
    if n > 0 {
      SurfacesExactly(p, refs, op, ds, n - 1, s);
      MadeExactly(p, refs, op, ds[n - 1], s);
    }
  }

  /** The reads of an operation are just those that its binding's declarations make, and so are the writes. */
  lemma DeclaredExactly(p: PolicyFile, refs: Refs, op: Json, s: Surface)
    requires AdmissibleOperation(p, refs, op)
    ensures s in ReadsAt(p, refs, op) <==>
              exists d :: d in p.cmdlets[Get(op, "cmdlet_id").s].declaredReads && Makes(op, refs, d, s)
    ensures s in WritesAt(p, refs, op) <==>
              exists d :: d in p.cmdlets[Get(op, "cmdlet_id").s].declaredWrites && Makes(op, refs, d, s)
  {
    var b := BindingFor(p, op);
    SurfacesExactly(p, refs, op, b.declaredReads, |b.declaredReads|, s);
    SurfacesExactly(p, refs, op, b.declaredWrites, |b.declaredWrites|, s);
    if d :| d in b.declaredReads && Makes(op, refs, d, s) {
      var i :| 0 <= i < |b.declaredReads| && b.declaredReads[i] == d;
    }
    if d :| d in b.declaredWrites && Makes(op, refs, d, s) {
      var i :| 0 <= i < |b.declaredWrites| && b.declaredWrites[i] == d;
    }
  }

  predicate ReadsIn(p: PolicyFile, refs: Refs, ops: seq<Json>, i: nat, s: Surface)
    requires i < |ops| && HasCmdlet(p, ops[i])
  {
    s in ReadsAt(p, refs, ops[i])
  }

  predicate WritesIn(p: PolicyFile, refs: Refs, ops: seq<Json>, i: nat, s: Surface)
    requires i < |ops| && HasCmdlet(p, ops[i])
  {
    s in WritesAt(p, refs, ops[i])
  }

  /** A clean decision declares what its operations declare, no more and no less. */
  lemma {:induction false} AllReads(p: PolicyFile, refs: Refs, ops: seq<Json>, n: nat, s: Surface)
    requires n <= |ops| && AllBound(p, ops, n)
    ensures s in ReadsOf(p, refs, ops, n) <==> exists i :: 0 <= i < n && ReadsIn(p, refs, ops, i, s)
  {
    if n > 0 {
      var before, last := ReadsOf(p, refs, ops, n - 1), ReadsAt(p, refs, ops[n - 1]);
      assert ReadsOf(p, refs, ops, n) == before + last;
      assert ReadsIn(p, refs, ops, n - 1, s) <==> s in last;
      assert s in before <==> exists i :: 0 <= i < n - 1 && ReadsIn(p, refs, ops, i, s) by {
        AllReads(p, refs, ops, n - 1, s);
      }
    }
  }

  lemma {:induction false} AllWrites(p: PolicyFile, refs: Refs, ops: seq<Json>, n: nat, s: Surface)
    requires n <= |ops| && AllBound(p, ops, n)
    ensures s in WritesOf(p, refs, ops, n) <==> exists i :: 0 <= i < n && WritesIn(p, refs, ops, i, s)
  {
    if n > 0 {
      var before, last := WritesOf(p, refs, ops, n - 1), WritesAt(p, refs, ops[n - 1]);
      assert WritesOf(p, refs, ops, n) == before + last;
      assert WritesIn(p, refs, ops, n - 1, s) <==> s in last;
      assert s in before <==> exists i :: 0 <= i < n - 1 && WritesIn(p, refs, ops, i, s) by {
        AllWrites(p, refs, ops, n - 1, s);
      }
    }
  }
}
