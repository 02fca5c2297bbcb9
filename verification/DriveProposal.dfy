/** A proposal that the policy admits and whose plan is refused: it reads `./C:/x`, whose normal form
  * reads as an absolute path.
  */
module DriveProposal {
  import opened Json
  import opened Wrappers
  import opened Risk
  import opened ForbiddenScan
  import opened Proposal
  import PN = PathNormalize
  import P = Policy
  import EP = ExecutionPlan
  import Sealing

  const REFERENCE := JObj([
    Field("path_ref_id", JStr("r")), Field("root_id", JStr("w")), Field("relative_path", JStr("./C:/x"))])
  const VALUE := JObj([
    Field("name", JStr("path")), Field("value_type", JStr("path_ref")), Field("path_ref", JStr("r"))])
  const OPERATION := JObj([
    Field("operation_type", JStr("powershell_cmdlet")), Field("cmdlet_id", JStr(LISTING)),
    Field("parameters", JArr([VALUE]))])
  const PROPOSAL := JObj([Field("path_refs", JArr([REFERENCE])), Field("operations", JArr([OPERATION]))])

  /** A policy with the listing binding alone; its parameter `path` is read. */
  const BINDING := P.Binding(
    JBool(true), JStr("powershell_cmdlet"), Some([P.ParameterRule("path", JStr("path_ref"), JBool(true))]), ["w"],
    JBool(true), JBool(false), JBool(false), [P.FromParameter("path")], [])
  const RULE := Rule(JBool(true), EXACT_HASH)
  const POLICY := P.PolicyFile(
    JStr("policy"), JStr("1"), JStr("deny"), JBool(false), JBool(false),
    map["w" := JObj([Field("enabled", JBool(true))])], map[LISTING := BINDING], map[], {}, {},
    map[Low := RULE, Medium := RULE, High := RULE, Critical := RULE])

  const DRIVE_SURFACE := P.Surface(LISTING, "path", "r", "w", "C:/x")

  lemma LookupOfThree(a: Field, b: Field, c: Field, key: string)
    ensures Get(JObj([a, b, c]), key) ==
              if a.key == key then a.value
              else if b.key == key then b.value
              else if c.key == key then c.value
              else JNull
  {
    var fields := [a, b, c];
    assert fields[1..] == [b, c] && [b, c][1..] == [c] && [c][1..] == [];
    assert Lookup([c], key) == if c.key == key then c.value else Lookup([], key);
    assert Lookup([b, c], key) == if b.key == key then b.value else Lookup([c], key);
    assert Lookup(fields, key) == if a.key == key then a.value else Lookup([b, c], key);
  }

  lemma ReferenceFields()
    ensures Get(REFERENCE, "path_ref_id") == JStr("r") && Get(REFERENCE, "root_id") == JStr("w")
    ensures Get(REFERENCE, "relative_path") == JStr("./C:/x")
  {
    var fields := REFERENCE.fields;
    assert REFERENCE == JObj([fields[0], fields[1], fields[2]]);
    LookupOfThree(fields[0], fields[1], fields[2], "path_ref_id");
    LookupOfThree(fields[0], fields[1], fields[2], "root_id");
    LookupOfThree(fields[0], fields[1], fields[2], "relative_path");
    assert "path_ref_id"[0] == 'p' && "root_id"[0] == 'r' && "relative_path"[2] == 'l' && "root_id"[2] == 'o';
  }

  lemma DriveReference()
    ensures HasId(REFERENCE) && IdOf(REFERENCE) == "r" && Get(REFERENCE, "root_id") == JStr("w")
    ensures HasNormalForm(REFERENCE) && NormalFormOf(REFERENCE) == "C:/x"
  {
    ReferenceFields();
    PN.DriveResult();
  }

  lemma ProposalFields()
    ensures P.ItemsOf(PROPOSAL, "path_refs") == [REFERENCE] && P.ItemsOf(PROPOSAL, "operations") == [OPERATION]
    ensures Get(PROPOSAL, "path_refs").JArr? && Get(PROPOSAL, "operations").JArr?
  {
    assert "path_refs"[0] == 'p' && "operations"[0] == 'o';
    var fields := PROPOSAL.fields;
    assert fields[1..] == [fields[1]] && fields[0].key != "operations" && fields[1].key == "operations";
    assert Lookup(fields[1..], "operations") == fields[1].value;
    assert Lookup(fields, "operations") == Lookup(fields[1..], "operations");
    assert Lookup(fields, "path_refs") == fields[0].value;
  }

  lemma OperationFields()
    ensures Get(OPERATION, "operation_type") == JStr("powershell_cmdlet")
    ensures Get(OPERATION, "cmdlet_id") == JStr(LISTING)
    ensures Get(OPERATION, "parameters") == JArr([VALUE]) && Get(OPERATION, "arguments") == JNull
  {
    var fields := OPERATION.fields;
    assert OPERATION == JObj([fields[0], fields[1], fields[2]]) && fields[1] == Field("cmdlet_id", JStr(LISTING));
    assert "operation_type"[0] == 'o' && "cmdlet_id"[0] == 'c' && "parameters"[0] == 'p' && "arguments"[0] == 'a';
    LookupOfThree(fields[0], fields[1], fields[2], "operation_type");
    LookupOfThree(fields[0], fields[1], fields[2], "cmdlet_id");
    assert fields[0].key != "cmdlet_id" && fields[1].key == "cmdlet_id";
    LookupOfThree(fields[0], fields[1], fields[2], "parameters");
    LookupOfThree(fields[0], fields[1], fields[2], "arguments");
  }

  lemma ValueFields()
    ensures Get(VALUE, "name") == JStr("path") && Get(VALUE, "value_type") == JStr("path_ref")
    ensures Get(VALUE, "path_ref") == JStr("r")
  {
    var fields := VALUE.fields;
    assert VALUE == JObj([fields[0], fields[1], fields[2]]);
    assert "name"[0] == 'n' && "value_type"[0] == 'v' && "path_ref"[0] == 'p';
    LookupOfThree(fields[0], fields[1], fields[2], "name");
    LookupOfThree(fields[0], fields[1], fields[2], "value_type");
    LookupOfThree(fields[0], fields[1], fields[2], "path_ref");
  }

  lemma ProposalIsClean()
    ensures PathsClean(PROPOSAL)
  {
    DriveReference();
    ProposalFields();
    OperationFields();
    ValueFields();
    assert !Repeats([REFERENCE], 0);
    assert Defined([REFERENCE], 1, "r");
    assert UseFits([REFERENCE], VALUE);
    assert P.ItemsOf(OPERATION, "parameters") == [VALUE] && P.ItemsOf(OPERATION, "arguments") == [];
    assert OperationFits([REFERENCE], OPERATION);
  }

  lemma {:induction false} NoForbiddenField(j: Json, path: Path)
    ensures !NamesForbidden(j, path, {})
    decreases |path|
  {
    if path != [] {
      match path[0] {
        case Member(i) =>
          if j.JObj? && i < |j.fields| {
            NoForbiddenField(j.fields[i].value, path[1..]);
          }
        case Element(i) =>
          if j.JArr? && i < |j.items| {
            NoForbiddenField(j.items[i], path[1..]);
          }
      }
    }
  }

  lemma {:induction false} NoForbiddenToken(j: Json, path: Path, s: string)
    ensures !NamesToken(j, path, {}, s)
    decreases |path|
  {
    if path != [] {
      match path[0] {
        case Member(i) =>
          if j.JObj? && i < |j.fields| {
            NoForbiddenToken(j.fields[i].value, path[1..], s);
          }
        case Element(i) =>
          if j.JArr? && i < |j.items| {
            NoForbiddenToken(j.items[i], path[1..], s);
          }
      }
    }
  }

  lemma NothingIsForbidden(j: Json)
    ensures P.NothingForbidden(POLICY, j)
  {
    forall path ensures !NamesForbidden(j, path, {}) {
      NoForbiddenField(j, path);
    }
    forall s ensures !TokenIn(j, {}, s) {
      forall path ensures !NamesToken(j, path, {}, s) {
        NoForbiddenToken(j, path, s);
      }
    }
  }

  /** The one parameter of the operation, and the references as the policy sees them. */
  lemma OneParameter()
    ensures P.ParametersOf(OPERATION) == [Parameter("path", VALUE)]
  {
    OperationFields();
    ValueFields();
    assert P.ArgumentItems(OPERATION) == [VALUE];
    assert P.Named([VALUE], 0) == [];
    assert P.Named([VALUE], 1) == [Parameter("path", VALUE)];
  }

  ghost predicate DriveRefs(refs: P.Refs) {
    && refs.Keys == {"r"} && Get(refs["r"], "path_ref_id") == JStr("r") && Get(refs["r"], "root_id") == JStr("w")
    && Get(refs["r"], "relative_path") == JStr("C:/x")
  }

  lemma RefsOfProposal(refs: P.Refs)
    requires var items := P.ItemsOf(Canonical(PROPOSAL), "path_refs"); P.LastRefs(items, |items|, refs)
    ensures DriveRefs(refs)
  {
    ProposalFields();
    DriveReference();
    CanonicalKeeps(PROPOSAL, "path_refs");
    var items := P.ItemsOf(Canonical(PROPOSAL), "path_refs");
    assert items == [CanonicalRef(REFERENCE)];
    CanonicalRefKeeps(REFERENCE, "path_ref_id");
    CanonicalRefKeeps(REFERENCE, "root_id");
    CanonicalRefKeeps(REFERENCE, "relative_path");
    assert P.IsRef(items[0], "r");
  }

  lemma RequestsNothing()
    ensures P.RequestsNothing(OPERATION)
  {
    OneParameter();
    assert |"path"| == 4;
  }

  lemma BindingFits(refs: P.Refs)
    requires DriveRefs(refs)
    ensures P.BindingFits(BINDING, P.ParametersOf(OPERATION), refs)
  {
    OneParameter();
    ValueFields();
    var ps := [Parameter("path", VALUE)];
    assert P.RuleFor(BINDING.parameters.value, "path") == Some(P.ParameterRule("path", JStr("path_ref"), JBool(true)));
    assert P.ParameterFits(BINDING.parameters.value, BINDING, refs, ps[0]);
    assert ps[0].name == "path" && P.HasName(ps, "path");
    assert P.PayloadOf(ps, "path") == Some(VALUE);
    assert P.Resolvable(BINDING.declaredReads[0], ps, refs);
  }

  lemma OperationIsAdmissible(refs: P.Refs)
    requires DriveRefs(refs)
    ensures P.AdmissibleOperation(POLICY, refs, OPERATION)
  {
    OperationFields();
    RequestsNothing();
    BindingFits(refs);
    assert POLICY.cmdlets[LISTING] == BINDING;
  }

  lemma DriveIsRead(refs: P.Refs)
    requires DriveRefs(refs) && P.AdmissibleOperation(POLICY, refs, OPERATION)
    ensures P.ReadsAt(POLICY, refs, OPERATION) == [DRIVE_SURFACE]
  {
    OperationFields();
    ValueFields();
    OneParameter();
    var ps := P.ParametersOf(OPERATION);
    assert P.PayloadOf(ps, "path") == Some(VALUE);
    assert P.SurfaceOf(LISTING, BINDING.declaredReads[0], ps, refs) == [DRIVE_SURFACE];
    assert P.SurfacesUpTo(LISTING, BINDING.declaredReads, ps, refs, 0) == [];
    assert P.SurfacesUpTo(LISTING, BINDING.declaredReads, ps, refs, 1) == [] + [DRIVE_SURFACE];
  }

  lemma DriveRefused(rules: EP.Rules, body: EP.PlanBody)
    requires RefusesAbsolute(rules) && DRIVE_SURFACE in body.declaredReads
    ensures !EP.ShapeAccepts(rules, body)
  {
    assert PN.IsAbsolute("C:/x");
    var plan := Sealing.Sealed(body, rules.hash(body));
    assert Declares(plan.body, DRIVE_SURFACE);
  }

  lemma ProposalAdmitted(rules: Proposal.Rules, refs: P.Refs)
    requires DriveRefs(refs) && P.AdmissibleOperation(POLICY, refs, OPERATION)
    ensures P.Admissible(POLICY, NormalizedOf(rules, PROPOSAL), refs)
  {
    ProposalFields();
    CanonicalKeeps(PROPOSAL, "operations");
    assert "path_refs"[0] == 'p' && "operations"[0] == 'o';
    NothingIsForbidden(Canonical(PROPOSAL));
  }

  lemma DriveDeclared(
    rules: Proposal.Rules, refs: P.Refs, supplied: Option<string>, sessionId: string, now: string, body: EP.PlanBody)
    requires DriveRefs(refs) && P.AdmissibleOperation(POLICY, refs, OPERATION)
    requires Planned(rules, POLICY, refs, PROPOSAL, supplied, sessionId, now, body)
    ensures DRIVE_SURFACE in body.declaredReads
  {
    ProposalFields();
    CanonicalKeeps(PROPOSAL, "operations");
    assert "path_refs"[0] == 'p' && "operations"[0] == 'o';
    assert body.operations == [OPERATION];
    DriveIsRead(refs);
    assert P.ReadsOf(POLICY, refs, body.operations, 1)
        == P.ReadsOf(POLICY, refs, body.operations, 0) + P.ReadsAt(POLICY, refs, OPERATION);
    assert DRIVE_SURFACE in P.ReadsAt(POLICY, refs, OPERATION);
  }

  /** The proposal that reads `./C:/x` is clean and admissible, and its own hash suffices whatever the risk; but
    * a schema that refuses absolute paths refuses its plan, with any hash.
    */
  lemma DrivePlanIsRefused(rules: Proposal.Rules, refs: P.Refs)
    requires RefusesAbsolute(rules.plan)
    requires var items := P.ItemsOf(Canonical(PROPOSAL), "path_refs"); P.LastRefs(items, |items|, refs)
    ensures var n := NormalizedOf(rules, PROPOSAL);
            && PathsClean(PROPOSAL) && P.Admissible(POLICY, n, refs)
            && !EP.WrongHash(POLICY, refs, n, Some(n.proposalHash))
    ensures forall supplied, sessionId, now, body ::
              Planned(rules, POLICY, refs, PROPOSAL, supplied, sessionId, now, body) ==>
                  !EP.ShapeAccepts(rules.plan, body)
  {
    ProposalIsClean();
    EP.OwnHashSuffices(POLICY, refs, NormalizedOf(rules, PROPOSAL));
    RefsOfProposal(refs);
    OperationIsAdmissible(refs);
    ProposalAdmitted(rules, refs);
    forall supplied, sessionId, now, body | Planned(rules, POLICY, refs, PROPOSAL, supplied, sessionId, now, body)
      ensures !EP.ShapeAccepts(rules.plan, body)
    {
      DriveDeclared(rules, refs, supplied, sessionId, now, body);
      DriveRefused(rules.plan, body);
    }
  }
}
