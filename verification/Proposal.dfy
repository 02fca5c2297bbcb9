/** The way of a proposal through the governed shell: its path references are validated and replaced by
  * their normal forms, it is hashed, evaluated and approved. Schema and hash are parameters.
  */
module Proposal {
  import opened Json
  import opened Wrappers
  import PN = PathNormalize
  import P = Policy
  import EP = ExecutionPlan
  import Sealing

  // ------------------------------------------------------------------ clean path references

  predicate HasId(item: Json) {
    item.JObj? && Get(item, "path_ref_id").JStr?
  }

  function IdOf(item: Json): string
    requires HasId(item)
  {
    Get(item, "path_ref_id").s
  }

  /** A reference with a relative path that has a normal form. */
  predicate HasNormalForm(item: Json) {
    item.JObj? && Get(item, "relative_path").JStr? && PN.Normalized(Get(item, "relative_path").s).Ok?
  }

  function NormalFormOf(item: Json): string
    requires HasNormalForm(item)
  {
    PN.Normalized(Get(item, "relative_path").s).value
  }

  predicate Defined(items: seq<Json>, n: nat, id: string)
    requires n <= |items|
  {
    exists i :: 0 <= i < n && HasId(items[i]) && IdOf(items[i]) == id
  }

  predicate Repeats(items: seq<Json>, i: nat)
    requires i < |items|
  {
    HasId(items[i]) && Defined(items, i, IdOf(items[i]))
  }

  ghost predicate RefsClean(items: seq<Json>, n: nat)
    requires n <= |items|
  {
    forall i :: 0 <= i < n ==> HasNormalForm(items[i]) && !Repeats(items, i)
  }

  /** A value that refers to a path refers to one that is defined. */
  predicate UseFits(items: seq<Json>, use: Json) {
    use.JObj? && (Get(use, "value_type") == JStr("path_ref") ==>
                    Get(use, "path_ref").JStr? && Defined(items, |items|, Get(use, "path_ref").s))
  }

  predicate UsesFit(items: seq<Json>, uses: seq<Json>, n: nat)
    requires n <= |uses|
  {
    forall i :: 0 <= i < n ==> UseFits(items, uses[i])
  }

  /** Both collections of an operation, those that are lists. */
  predicate OperationFits(items: seq<Json>, op: Json) {
    var parameters, arguments := P.ItemsOf(op, "parameters"), P.ItemsOf(op, "arguments");
    op.JObj? && UsesFit(items, parameters, |parameters|) && UsesFit(items, arguments, |arguments|)
  }

  predicate OperationsFit(items: seq<Json>, ops: seq<Json>, n: nat)
    requires n <= |ops|
  {
    forall i :: 0 <= i < n ==> OperationFits(items, ops[i])
  }

  /** What `validate_path_refs` calls clean. */
  ghost predicate PathsClean(proposal: Json) {
    var items, ops := P.ItemsOf(proposal, "path_refs"), P.ItemsOf(proposal, "operations");
    && proposal.JObj? && Get(proposal, "path_refs").JArr? && RefsClean(items, |items|)
    && P.OperationsListed(proposal) && OperationsFit(items, ops, |ops|)
  }

  // ------------------------------------------------------------------ what can be wrong with them

  /** One of the references is no object, or its path no text, or not one that can be normalised. */
  ghost predicate SomeRefWrong(items: seq<Json>) {
    exists item :: item in items && !(item.JObj? && exists path ::
      Get(item, "relative_path") == JStr(path) && PN.Normalized(path).Ok?)
  }

  ghost predicate SomeIdTwice(items: seq<Json>) {
    exists i: nat, j: nat, id :: i < j < |items| && IsIdAt(items, i, id) && IsIdAt(items, j, id)
  }

  predicate IsIdAt(items: seq<Json>, i: nat, id: string) {
    i < |items| && items[i].JObj? && Get(items[i], "path_ref_id") == JStr(id)
  }

  /** A value among the parameters or the arguments is no object, or refers to a path by no id of a reference. */
  ghost predicate SomeUseWrong(items: seq<Json>, op: Json) {
    exists use :: (IsMember(Get(op, "parameters"), use) || IsMember(Get(op, "arguments"), use)) && UseWrong(items, use)
  }

  predicate IsMember(list: Json, item: Json) {
    list.JArr? && item in list.items
  }

  ghost predicate UseWrong(items: seq<Json>, use: Json) {
    || !use.JObj?
    || (Get(use, "value_type") == JStr("path_ref")
        && forall i: nat, id :: IsIdAt(items, i, id) ==> Get(use, "path_ref") != JStr(id))
  }

  ghost predicate PathsWrong(proposal: Json) {
    || !proposal.JObj? || !Get(proposal, "path_refs").JArr?
    || SomeRefWrong(Get(proposal, "path_refs").items) || SomeIdTwice(Get(proposal, "path_refs").items)
    || (HasKey(proposal.fields, "operations") && !Get(proposal, "operations").JArr?)
    || exists op :: IsMember(Get(proposal, "operations"), op)
                    && (!op.JObj? || SomeUseWrong(Get(proposal, "path_refs").items, op))
  }

  lemma UseExactly(items: seq<Json>, use: Json)
    ensures UseFits(items, use) <==> !UseWrong(items, use)
  {
    if UseFits(items, use) && Get(use, "value_type") == JStr("path_ref") {
      var i :| 0 <= i < |items| && HasId(items[i]) && IdOf(items[i]) == Get(use, "path_ref").s;
      assert IsIdAt(items, i, IdOf(items[i]));
    }
    if !UseWrong(items, use) && Get(use, "value_type") == JStr("path_ref") {
      var i: nat, id :| IsIdAt(items, i, id) && Get(use, "path_ref") == JStr(id);
      assert HasId(items[i]) && IdOf(items[i]) == id;
    }
  }

  lemma OperationExactly(items: seq<Json>, op: Json)
    ensures OperationFits(items, op) <==> op.JObj? && !SomeUseWrong(items, op)
  {
    var parameters, arguments := P.ItemsOf(op, "parameters"), P.ItemsOf(op, "arguments");
    forall use ensures UseFits(items, use) <==> !UseWrong(items, use) {
      UseExactly(items, use);
    }
    UsesExactly(items, parameters);
    UsesExactly(items, arguments);
  }

  lemma UsesExactly(items: seq<Json>, uses: seq<Json>)
    ensures UsesFit(items, uses, |uses|) <==> forall use :: use in uses ==> UseFits(items, use)
  {
    forall i | 0 <= i < |uses| ensures uses[i] in uses {
    }
  }

  lemma RefsExactly(items: seq<Json>)
    ensures RefsClean(items, |items|) <==> !SomeRefWrong(items) && !SomeIdTwice(items)
  {
    forall item ensures HasNormalForm(item) <==>
        item.JObj? && exists path :: Get(item, "relative_path") == JStr(path) && PN.Normalized(path).Ok? {
    }
    forall i | 0 <= i < |items| ensures items[i] in items {
    }
    if RefsClean(items, |items|) {
      if i: nat, j: nat, id :| i < j < |items| && IsIdAt(items, i, id) && IsIdAt(items, j, id) {
        assert Repeats(items, j);
      }
    }
    if i: nat :| i < |items| && Repeats(items, i) {
      var k :| 0 <= k < i && HasId(items[k]) && IdOf(items[k]) == IdOf(items[i]);
      assert IsIdAt(items, k, IdOf(items[i])) && IsIdAt(items, i, IdOf(items[i]));
    }
  }

  /** The references of a proposal are clean exactly when nothing is wrong with them or with the way they are used. */
  lemma PathsCleanExactly(proposal: Json)
    ensures PathsClean(proposal) <==> !PathsWrong(proposal)
  {
    var items, ops := P.ItemsOf(proposal, "path_refs"), P.ItemsOf(proposal, "operations");
    RefsExactly(items);
    forall op ensures OperationFits(items, op) <==> op.JObj? && !SomeUseWrong(items, op) {
      OperationExactly(items, op);
    }
    forall i | 0 <= i < |ops| ensures ops[i] in ops {
    }
  }

  // ------------------------------------------------------------------ validating them

  datatype PathIssue =
    | ProposalNotObject
    | RefsNotListed
    | RefNotObject(index: nat)
    | DuplicateId(index: nat)
    | PathNotText(index: nat)
    | BadPath(index: nat, error: PN.PathError)
    | OperationsNotListed
    | OperationNotObject
    | ValueNotObject(index: nat)
    | RefNotText(index: nat)
    | UnknownRef(index: nat)

  /** The dictionary has the reference's normal form under its id. */
  predicate HoldsForm(item: Json, forms: map<string, string>) {
    HasId(item) ==> IdOf(item) in forms && HasNormalForm(item) && forms[IdOf(item)] == NormalFormOf(item)
  }

  /** The dictionary holds the normal form of every reference read so far, and of nothing else. */
  ghost predicate HoldsForms(items: seq<Json>, n: nat, forms: map<string, string>)
    requires n <= |items|
  {
    && (forall i :: 0 <= i < n ==> HoldsForm(items[i], forms))
    && (forall id :: id in forms ==> Defined(items, n, id))
  }

  lemma DefinedOneMore(items: seq<Json>, i: nat)
    requires i < |items|
    ensures forall id :: Defined(items, i + 1, id) <==>
                           Defined(items, i, id) || (HasId(items[i]) && IdOf(items[i]) == id)
  {
    forall id
      ensures Defined(items, i + 1, id) <==> Defined(items, i, id) || (HasId(items[i]) && IdOf(items[i]) == id)
    {
      if Defined(items, i + 1, id) {
        var k :| 0 <= k < i + 1 && HasId(items[k]) && IdOf(items[k]) == id;
        assert k == i || Defined(items, i, id);
      }
    }
  }

  lemma OneFormMore(items: seq<Json>, i: nat, forms: map<string, string>)
    requires i < |items| && HoldsForms(items, i, forms) && HasNormalForm(items[i]) && !Repeats(items, i)
    ensures HoldsForms(items, i + 1, if HasId(items[i]) then forms[IdOf(items[i]) := NormalFormOf(items[i])] else forms)
  {
    var more := if HasId(items[i]) then forms[IdOf(items[i]) := NormalFormOf(items[i])] else forms;
    forall k | 0 <= k < i + 1 ensures HoldsForm(items[k], more) {
      assert k < i ==> HoldsForm(items[k], forms);
    }
    DefinedOneMore(items, i);
  }

  /** The loop over the references. */
  method ValidateRefs(items: seq<Json>)
    returns (issues: seq<PathIssue>, forms: map<string, string>, ids: set<string>)
    ensures issues == [] <==> RefsClean(items, |items|)
    ensures issues == [] ==> HoldsForms(items, |items|, forms)
    ensures forall id :: id in ids <==> Defined(items, |items|, id)
  {
    issues, forms, ids := [], map[], {};
    for i := 0 to |items|
      invariant issues == [] <==> RefsClean(items, i)
      invariant issues == [] ==> HoldsForms(items, i, forms)
      invariant forall id :: id in ids <==> Defined(items, i, id)
    {
      var item := items[i];
      DefinedOneMore(items, i);
      if HasId(item) && IdOf(item) in ids {
        issues := issues + [DuplicateId(i)];
      }
      var r := NormalizeRef(item, i);
      match r {
        case Err(issue) => issues := issues + [issue];
        case Ok(q) =>
          if issues == [] {
            OneFormMore(items, i, forms);
          }
          forms := if HasId(item) then forms[IdOf(item) := q] else forms;
      }
      ids := if HasId(item) then ids + {IdOf(item)} else ids;
    }
  }

  datatype Form = Ok(value: string) | Err(issue: PathIssue)

  /** One reference's path, or what is wrong with it. */
  method NormalizeRef(item: Json, i: nat) returns (r: Form)
    ensures r.Ok? <==> HasNormalForm(item)
    ensures r.Ok? ==> r.value == NormalFormOf(item)
  {
    if !item.JObj? {
      return Err(RefNotObject(i));
    }
    if !Get(item, "relative_path").JStr? {
      return Err(PathNotText(i));
    }
    var normalized := PN.NormalizeRelativePath(Get(item, "relative_path").s);
    match normalized {
      case Err(error) => return Err(BadPath(i, error));
      case Ok(q) => return Ok(q);
    }
  }

  /** The loop over one collection of an operation. */
  method ValidateUses(items: seq<Json>, ids: set<string>, uses: seq<Json>) returns (issues: seq<PathIssue>)
    requires forall id :: id in ids <==> Defined(items, |items|, id)
    ensures issues == [] <==> UsesFit(items, uses, |uses|)
  {
    issues := [];
    for i := 0 to |uses|
      invariant issues == [] <==> UsesFit(items, uses, i)
    {
      var use := uses[i];
      if !use.JObj? {
        issues := issues + [ValueNotObject(i)];
      } else if Get(use, "value_type") == JStr("path_ref") {
        if !Get(use, "path_ref").JStr? {
          issues := issues + [RefNotText(i)];
        } else if Get(use, "path_ref").s !in ids {
          issues := issues + [UnknownRef(i)];
        }
      }
    }
  }

  method ValidateOperation(items: seq<Json>, ids: set<string>, op: Json) returns (issues: seq<PathIssue>)
    requires forall id :: id in ids <==> Defined(items, |items|, id)
    ensures issues == [] <==> OperationFits(items, op)
  {
    if !op.JObj? {
      return [OperationNotObject];
    }
    var parameters := ValidateUses(items, ids, P.ItemsOf(op, "parameters"));
    var arguments := ValidateUses(items, ids, P.ItemsOf(op, "arguments"));
    return parameters + arguments;
  }

  /** `validate_path_refs`. */
  method ValidatePathRefs(proposal: Json) returns (issues: seq<PathIssue>, forms: map<string, string>)
    ensures issues == [] <==> PathsClean(proposal)
    ensures issues == [] ==>
              HoldsForms(P.ItemsOf(proposal, "path_refs"), |P.ItemsOf(proposal, "path_refs")|, forms)
  {
    if !proposal.JObj? {
      return [ProposalNotObject], map[];
    }
    if !Get(proposal, "path_refs").JArr? {
      return [RefsNotListed], map[];
    }
    var items := P.ItemsOf(proposal, "path_refs");
    var ids;
    issues, forms, ids := ValidateRefs(items);
    if !P.OperationsListed(proposal) {
      return issues + [OperationsNotListed], forms;
    }
    var ops := P.ItemsOf(proposal, "operations");
    for i := 0 to |ops|
      invariant issues == [] <==> RefsClean(items, |items|) && OperationsFit(items, ops, i)
    {
      var more := ValidateOperation(items, ids, ops[i]);
      issues := issues + more;
    }
  }

  // ------------------------------------------------------------------ the canonical copy

  /** `fields[key] = value` for a key that is there. */
  function SetField(fields: seq<Field>, key: string, value: Json): seq<Field> {
    if fields == [] then []
    else if fields[0].key == key then [Field(key, value)] + fields[1..]
    else [fields[0]] + SetField(fields[1..], key, value)
  }

  function Set(j: Json, key: string, value: Json): Json {
    if j.JObj? then JObj(SetField(j.fields, key, value)) else j
  }

  lemma {:induction false} LookupSet(fields: seq<Field>, key: string, value: Json, k: string)
    ensures Lookup(SetField(fields, key, value), k) ==
              if k == key && HasKey(fields, key) then value else Lookup(fields, k)
  {
    if fields != [] {
      LookupSet(fields[1..], key, value, k);
      HasKeySplit(fields, key);
    }
  }

  lemma HasKeySplit(fields: seq<Field>, key: string)
    requires fields != []
    ensures HasKey(fields, key) <==> fields[0].key == key || HasKey(fields[1..], key)
  {
    if HasKey(fields, key) && fields[0].key != key {
      var i :| 0 <= i < |fields| && fields[i].key == key;
      assert fields[1..][i - 1] == fields[i];
    }
    if HasKey(fields[1..], key) {
      var i :| 0 <= i < |fields[1..]| && fields[1..][i].key == key;
      assert fields[i + 1].key == key;
    }
  }

  lemma {:induction false} FoundHasKey(fields: seq<Field>, key: string)
    requires Lookup(fields, key) != JNull
    ensures HasKey(fields, key)
  {
    HasKeySplit(fields, key);
    if fields[0].key != key {
      FoundHasKey(fields[1..], key);
    }
  }

  function CanonicalRef(item: Json): Json {
    if HasId(item) && HasNormalForm(item) then Set(item, "relative_path", JStr(NormalFormOf(item))) else item
  }

  function CanonicalRefs(items: seq<Json>): seq<Json> {
    seq(|items|, i requires 0 <= i < |items| => CanonicalRef(items[i]))
  }

  /** The proposal with every reference's path in its normal form. */
  function Canonical(proposal: Json): Json {
    Set(proposal, "path_refs", JArr(CanonicalRefs(P.ItemsOf(proposal, "path_refs"))))
  }

  /** With its own normal form in the dictionary, a reference is rewritten to its canonical form. */
  lemma RewrittenIsCanonical(item: Json, forms: map<string, string>)
    requires HoldsForm(item, forms)
    ensures CanonicalRef(item) == if HasId(item) then Set(item, "relative_path", JStr(forms[IdOf(item)])) else item
  {
  }

  /** `_canonicalized_copy`, for a proposal whose references are clean. */
  method CanonicalizedCopy(proposal: Json, forms: map<string, string>) returns (copy: Json)
    requires Get(proposal, "path_refs").JArr?
    requires HoldsForms(P.ItemsOf(proposal, "path_refs"), |P.ItemsOf(proposal, "path_refs")|, forms)
    ensures copy == Canonical(proposal)
  {
    var items := P.ItemsOf(proposal, "path_refs");
    var copied := CopyRefs(items, forms);
    return Set(proposal, "path_refs", JArr(copied));
  }

  method CopyRef(item: Json, forms: map<string, string>) returns (copy: Json)
    requires HoldsForm(item, forms)
    ensures copy == CanonicalRef(item)
  {
    RewrittenIsCanonical(item, forms);
    copy := item;
    if HasId(item) && IdOf(item) in forms {
      copy := Set(item, "relative_path", JStr(forms[IdOf(item)]));
    }
  }

  /** The loop over the references. */
  method CopyRefs(items: seq<Json>, forms: map<string, string>) returns (copied: seq<Json>)
    requires HoldsForms(items, |items|, forms)
    ensures copied == CanonicalRefs(items)
  {
    copied := [];
    for i := 0 to |items|
      invariant |copied| == i
      invariant forall j :: 0 <= j < i ==> copied[j] == CanonicalRef(items[j])
    {
      assert HoldsForm(items[i], forms);
      var copy := CopyRef(items[i], forms);
      copied := copied + [copy];
    }
  }

  /** Canonicalising changes the relative path of a reference and nothing else. */
  lemma CanonicalRefKeeps(item: Json, key: string)
    requires HasId(item) && HasNormalForm(item)
    ensures Get(CanonicalRef(item), key) ==
              if key == "relative_path" then JStr(NormalFormOf(item)) else Get(item, key)
  {
    FoundHasKey(item.fields, "relative_path");
    LookupSet(item.fields, "relative_path", JStr(NormalFormOf(item)), key);
  }

  /** And of a proposal only the references. */
  lemma CanonicalKeeps(proposal: Json, key: string)
    requires Get(proposal, "path_refs").JArr?
    ensures Get(Canonical(proposal), key) ==
              if key == "path_refs" then JArr(CanonicalRefs(P.ItemsOf(proposal, "path_refs"))) else Get(proposal, key)
  {
    FoundHasKey(proposal.fields, "path_refs");
    LookupSet(proposal.fields, "path_refs", JArr(CanonicalRefs(P.ItemsOf(proposal, "path_refs"))), key);
  }

  datatype Rules = Rules(schema: Json -> bool, hash: Json -> string, plan: EP.Rules)

  /** What is evaluated: the canonical copy and its hash. */
  function NormalizedOf(rules: Rules, proposal: Json): P.Normalized {
    P.Normalized(Canonical(proposal), true, rules.hash(Canonical(proposal)))
  }

  /** `normalize_and_hash_proposal`. */
  method NormalizeAndHash(rules: Rules, proposal: Json) returns (n: Option<P.Normalized>)
    ensures n.Some? <==> rules.schema(proposal) && PathsClean(proposal)
    ensures n.Some? ==> n.value == NormalizedOf(rules, proposal)
  {
    if !rules.schema(proposal) {
      return None;
    }
    var issues, forms := ValidatePathRefs(proposal);
    if issues != [] {
      return None;
    }
    var copy := CanonicalizedCopy(proposal, forms);
    return Some(P.Normalized(copy, true, rules.hash(copy)));
  }

  // ------------------------------------------------------------------ from the proposal to the plan

  /** The reference that the proposal gives for a declared surface: same id and root, and a path whose normal
    * form is the declared one.
    */
  predicate Gives(item: Json, s: P.Surface) {
    && HasId(item) && IdOf(item) == s.refId && Get(item, "root_id") == JStr(s.rootId)
    && HasNormalForm(item) && NormalFormOf(item) == s.relativePath
  }

  ghost predicate GivenBy(proposal: Json, s: P.Surface) {
    var items := P.ItemsOf(proposal, "path_refs");
    exists i :: 0 <= i < |items| && Gives(items[i], s)
  }

  /** What is known of a declared surface: the reference under its id says so. */
  predicate Backed(refs: P.Refs, s: P.Surface) {
    && s.refId in refs && Get(refs[s.refId], "root_id") == JStr(s.rootId)
    && Get(refs[s.refId], "relative_path") == JStr(s.relativePath)
  }

  lemma {:induction false} ReadsBacked(p: P.PolicyFile, refs: P.Refs, ops: seq<Json>, n: nat, s: P.Surface)
    requires n <= |ops| && P.AllBound(p, ops, n) && P.AllAdmissible(p, refs, ops, n) && P.RefsAllowed(p, refs)
    requires s in P.ReadsOf(p, refs, ops, n) || s in P.WritesOf(p, refs, ops, n)
    ensures Backed(refs, s)
  {
    if s in P.ReadsAt(p, refs, ops[n - 1]) || s in P.WritesAt(p, refs, ops[n - 1]) {
      P.DeclaredWithinRoots(p, refs, ops[n - 1], s);
    } else {
      ReadsBacked(p, refs, ops, n - 1, s);
    }
  }

  lemma CanonicalGives(item: Json, s: P.Surface)
    requires HasId(item) && HasNormalForm(item) && P.IsRef(CanonicalRef(item), s.refId)
    requires Get(CanonicalRef(item), "root_id") == JStr(s.rootId)
    requires Get(CanonicalRef(item), "relative_path") == JStr(s.relativePath)
    ensures Gives(item, s)
  {
    CanonicalRefKeeps(item, "path_ref_id");
    CanonicalRefKeeps(item, "root_id");
    CanonicalRefKeeps(item, "relative_path");
  }

  /** The references the policy works with are the canonical ones of the proposal. */
  lemma BackedIsGiven(proposal: Json, refs: P.Refs, s: P.Surface)
    requires PathsClean(proposal) && Backed(refs, s)
    requires var items := P.ItemsOf(Canonical(proposal), "path_refs"); P.LastRefs(items, |items|, refs)
    ensures GivenBy(proposal, s)
  {
    var items := P.ItemsOf(proposal, "path_refs");
    CanonicalKeeps(proposal, "path_refs");
    var i :| 0 <= i < |items| && refs[s.refId] == CanonicalRefs(items)[i] && P.IsRef(CanonicalRefs(items)[i], s.refId);
    var item := items[i];
    assert CanonicalRefs(items)[i] == CanonicalRef(item) && HasNormalForm(item);
    assert HasId(item);
    CanonicalGives(item, s);
  }

  predicate Declares(body: EP.PlanBody, s: P.Surface) {
    s in body.declaredReads || s in body.declaredWrites
  }

  /** Every path in the plan for a proposal is the normal form of a path that the proposal gives under the
    * same id and root, and that root is enabled.
    */
  lemma PlannedPathsAreGiven(
    rules: Rules, p: P.PolicyFile, refs: P.Refs, proposal: Json, supplied: Option<string>, sessionId: string,
    now: string,
    body: EP.PlanBody, s: P.Surface)
    requires PathsClean(proposal) && Declares(body, s)
    requires var items := P.ItemsOf(Canonical(proposal), "path_refs"); P.LastRefs(items, |items|, refs)
    requires EP.PlanFor(p, refs, NormalizedOf(rules, proposal), supplied, sessionId, now, body)
    ensures GivenBy(proposal, s) && P.RootEnabled(p, JStr(s.rootId))
  {
    ReadsBacked(p, refs, body.operations, |body.operations|, s);
    BackedIsGiven(proposal, refs, s);
  }

  /** The plan's schema refuses a relative path that reads as absolute. */
  ghost predicate RefusesAbsolute(rules: EP.Rules) {
    forall plan: EP.Plan, s :: rules.shape(plan) && Declares(plan.body, s) ==> !PN.IsAbsolute(s.relativePath)
  }

  predicate IsNormalForm(s: P.Surface) {
    PN.Normalized(s.relativePath) == PN.Ok(s.relativePath) && PN.AllPlain(PN.PathParts(s.relativePath))
  }

  /** A path with a normal form in the proposal is a normal form itself exactly when it does not read as absolute. */
  lemma GivenIsNormalExactly(proposal: Json, s: P.Surface)
    requires GivenBy(proposal, s)
    ensures IsNormalForm(s) <==> !PN.IsAbsolute(s.relativePath)
  {
    var items := P.ItemsOf(proposal, "path_refs");
    var i :| 0 <= i < |items| && Gives(items[i], s);
    var raw := Get(items[i], "relative_path").s;
    PN.NormalizedTwice(raw);
    PN.NormalizedParts(raw);
  }

  /** The way of one proposal up to its plan. */
  ghost predicate Planned(
    rules: Rules, p: P.PolicyFile, refs: P.Refs, proposal: Json, supplied: Option<string>, sessionId: string,
    now: string,
    body: EP.PlanBody)
  {
    var items := P.ItemsOf(Canonical(proposal), "path_refs");
    && PathsClean(proposal) && P.LastRefs(items, |items|, refs)
    && EP.PlanFor(p, refs, NormalizedOf(rules, proposal), supplied, sessionId, now, body)
  }

  /** An accepted plan declares normal forms only, each of them given by the proposal. */
  lemma ApprovedPathsAreNormal(
    rules: Rules, p: P.PolicyFile, refs: P.Refs, proposal: Json, supplied: Option<string>, sessionId: string,
    now: string,
    body: EP.PlanBody, s: P.Surface)
    requires RefusesAbsolute(rules.plan) && Planned(rules, p, refs, proposal, supplied, sessionId, now, body)
    requires EP.ShapeAccepts(rules.plan, body) && Declares(body, s)
    ensures GivenBy(proposal, s) && P.RootEnabled(p, JStr(s.rootId)) && IsNormalForm(s)
  {
    PlannedPathsAreGiven(rules, p, refs, proposal, supplied, sessionId, now, body, s);
    GivenIsNormalExactly(proposal, s);
    var plan := Sealing.Sealed(body, rules.plan.hash(body));
    assert rules.plan.shape(plan) && Declares(plan.body, s);
  }

  /** The plan's schema has nothing against a plan but a relative path that reads as absolute. */
  ghost predicate OnlyPathsMatter(rules: EP.Rules) {
    forall plan: EP.Plan :: rules.shape(plan) <==> forall s :: Declares(plan.body, s) ==> !PN.IsAbsolute(s.relativePath)
  }

  /** With such a schema, the plan of an admissible proposal with the right hash is refused exactly when it
    * declares a path that is not its own normal form.
    */
  lemma PlanRefusedExactly(
    rules: Rules, p: P.PolicyFile, refs: P.Refs, proposal: Json, supplied: Option<string>, sessionId: string,
    now: string,
    body: EP.PlanBody)
    requires OnlyPathsMatter(rules.plan) && Planned(rules, p, refs, proposal, supplied, sessionId, now, body)
    ensures EP.ShapeAccepts(rules.plan, body) <==> forall s :: Declares(body, s) ==> IsNormalForm(s)
  {
    forall s | Declares(body, s) ensures IsNormalForm(s) <==> !PN.IsAbsolute(s.relativePath) {
      PlannedPathsAreGiven(rules, p, refs, proposal, supplied, sessionId, now, body, s);
      GivenIsNormalExactly(proposal, s);
    }
    var plan := Sealing.Sealed(body, rules.plan.hash(body));
    assert rules.plan.shape(plan) <==> forall s :: Declares(plan.body, s) ==> !PN.IsAbsolute(s.relativePath);
  }

  /** `_handle_approve` from the parsed proposal on. */
  method ApproveProposal(
    rules: Rules, p: P.PolicyFile, proposal: Json, supplied: Option<string>, sessionId: string, now: string)
    returns (plan: Option<EP.Plan>, ghost refs: P.Refs)
    ensures plan.Some? <==>
              && rules.schema(proposal)
              && exists body :: Planned(rules, p, refs, proposal, supplied, sessionId, now, body)
                                && EP.ShapeAccepts(rules.plan, body)
    ensures plan.Some? ==> Sealing.Verified(rules.plan.hash, rules.plan.shape, plan.value)
    ensures plan.Some? ==> Planned(rules, p, refs, proposal, supplied, sessionId, now, plan.value.body)
    ensures plan.Some? && RefusesAbsolute(rules.plan) ==>
              forall s :: Declares(plan.value.body, s) ==>
                GivenBy(proposal, s) && P.RootEnabled(p, JStr(s.rootId)) && IsNormalForm(s)
  {
    refs := map[];
    var n := NormalizeAndHash(rules, proposal);
    if n.None? {
      return None, refs;
    }
    plan, refs := EP.Approve(rules.plan, p, n.value, supplied, sessionId, now);
    if plan.Some? {
      ghost var body := plan.value.body;
      assert Planned(rules, p, refs, proposal, supplied, sessionId, now, body);
      assert EP.ShapeAccepts(rules.plan, body);
      if RefusesAbsolute(rules.plan) {
        forall s | Declares(body, s)
          ensures GivenBy(proposal, s) && P.RootEnabled(p, JStr(s.rootId)) && IsNormalForm(s)
        {
          ApprovedPathsAreNormal(rules, p, refs, proposal, supplied, sessionId, now, body, s);
        }
      }
    }
  }
}
