/** The authoritative risk of a proposal, derived from the policy bindings that its operations matched. */
module Risk {
  import opened Json
  import opened Text
  import opened ForbiddenScan

  datatype Level = Low | Medium | High | Critical {
    function Rank(): nat {
      match this case Low => 0 case Medium => 1 case High => 2 case Critical => 3
    }
  }

  /** A named parameter of an operation with its payload object. */
  datatype Parameter = Parameter(name: string, payload: Json)

  /** What the risk looks at in one matched binding. */
  datatype Context = Context(
    bindingId: string, operationType: Json, parameters: seq<Parameter>,
    declaresWrites: bool, networkAllowed: Json, privilegeAllowed: Json)

  datatype Factor =
    | DeclaresWrites
    | WriteLikeParameter
    | NativeOperation
    | DestructiveIdentifier
    | NetworkCapability
    | PrivilegeCapability
    | ReadOnlyListing
    | RecursiveRead
    | NonRecursiveRead

  const WRITE_PARAMETER_NAMES := {"write_path", "output_path", "destination_path", "target_write_path"}
  const LISTING := "ps.get_child_items_v1"

  predicate RequestsWrite(ps: seq<Parameter>) {
    exists i :: 0 <= i < |ps| && ps[i].name in WRITE_PARAMETER_NAMES
  }

  /** A boolean parameter with a true value. */
  predicate IsOn(ps: seq<Parameter>, name: string) {
    exists i :: 0 <= i < |ps| && ps[i].name == name && OnPayload(ps[i].payload)
  }

  predicate OnPayload(payload: Json) {
    Get(payload, "value_type") == JStr("boolean") && Truthy(Get(payload, "boolean_value"))
  }

  predicate Destructive(id: string) {
    Occurs(Lower(id), "delete") || Occurs(Lower(id), "remove") || Occurs(Lower(id), "rm.")
  }

  predicate Has(c: Context, f: Factor) {
    match f
    case DeclaresWrites => c.declaresWrites
    case WriteLikeParameter => RequestsWrite(c.parameters)
    case NativeOperation => c.operationType == JStr("registered_native")
    case DestructiveIdentifier => Destructive(c.bindingId)
    case NetworkCapability => Truthy(c.networkAllowed)
    case PrivilegeCapability => Truthy(c.privilegeAllowed)
    case ReadOnlyListing => c.bindingId == LISTING
    case RecursiveRead => c.bindingId == LISTING && IsOn(c.parameters, "recurse")
    case NonRecursiveRead => c.bindingId == LISTING && !IsOn(c.parameters, "recurse")
  }

  function Weight(f: Factor): Level {
    match f
    case NativeOperation => Critical
    case DestructiveIdentifier => Critical
    case RecursiveRead => Medium
    case ReadOnlyListing => Low
    case NonRecursiveRead => Low
    case _ => High
  }

  /** The level is the weight of the heaviest factor present, and `Low` when there is none. */
  ghost predicate IsRisk(level: Level, contexts: seq<Context>) {
    && (forall f :: Present(contexts, f) ==> Weight(f).Rank() <= level.Rank())
    && (level == Low || exists f :: Present(contexts, f) && Weight(f) == level)
  }

  predicate Present(contexts: seq<Context>, f: Factor) {
    exists i :: 0 <= i < |contexts| && Has(contexts[i], f)
  }

  lemma RiskUnique(a: Level, b: Level, contexts: seq<Context>)
    requires IsRisk(a, contexts) && IsRisk(b, contexts)
    ensures a == b
  {
    if f :| Present(contexts, f) && Weight(f) == a {
      assert Weight(f).Rank() <= b.Rank();
    }
    if f :| Present(contexts, f) && Weight(f) == b {
      assert Weight(f).Rank() <= a.Rank();
    }
  }

  lemma PresentAmong(contexts: seq<Context>, more: seq<Context>, f: Factor)
    requires forall c :: c in contexts ==> c in more
    ensures Present(contexts, f) ==> Present(more, f)
  {
    if i :| 0 <= i < |contexts| && Has(contexts[i], f) {
      assert contexts[i] in more;
    }
  }

  /** Adding bindings anywhere never lowers the risk. */
  lemma AddingNeverLowers(a: Level, b: Level, contexts: seq<Context>, more: seq<Context>)
    requires forall c :: c in contexts ==> c in more
    requires IsRisk(a, contexts) && IsRisk(b, more)
    ensures a.Rank() <= b.Rank()
  {
    if f :| Present(contexts, f) && Weight(f) == a {
      PresentAmong(contexts, more, f);
    }
  }

  /** Neither the order of the bindings nor their repetition matters. */
  lemma OrderIrrelevant(a: Level, b: Level, contexts: seq<Context>, contexts': seq<Context>)
    requires forall c :: c in contexts <==> c in contexts'
    requires IsRisk(a, contexts) && IsRisk(b, contexts')
    ensures a == b
  {
    AddingNeverLowers(a, b, contexts, contexts');
    AddingNeverLowers(b, a, contexts', contexts);
  }

  // ------------------------------------------------------------------ the levels, on the fields of the bindings

  /** A native operation, or an identifier that sounds destructive. */
  predicate IsCritical(id: string, operationType: Json) {
    || operationType == JStr("registered_native")
    || Occurs(Lower(id), "delete") || Occurs(Lower(id), "remove") || Occurs(Lower(id), "rm.")
  }

  /** A declared write, a parameter that names a path to write, or a capability. */
  predicate IsHigh(ps: seq<Parameter>, writes: bool, network: Json, privilege: Json) {
    var falsy := {JNull, JBool(false), JNum(0), JStr(""), JArr([]), JObj([])};
    || writes || network !in falsy || privilege !in falsy
    || exists j :: 0 <= j < |ps|
                   && ps[j].name in {"write_path", "output_path", "destination_path", "target_write_path"}
  }

  /** A listing that is asked to recurse: a boolean parameter of that name with a true value. */
  predicate IsMedium(id: string, ps: seq<Parameter>) {
    var falsy := {JNull, JBool(false), JNum(0), JStr(""), JArr([]), JObj([])};
    && id == "ps.get_child_items_v1"
    && exists j :: 0 <= j < |ps| && ps[j].name == "recurse"
                   && Get(ps[j].payload, "value_type") == JStr("boolean")
                   && Get(ps[j].payload, "boolean_value") !in falsy
  }

  ghost predicate AnyCritical(contexts: seq<Context>) {
    exists i :: 0 <= i < |contexts| && IsCritical(contexts[i].bindingId, contexts[i].operationType)
  }

  ghost predicate AnyHigh(contexts: seq<Context>) {
    exists i :: 0 <= i < |contexts|
                && IsHigh(contexts[i].parameters, contexts[i].declaresWrites,
                          contexts[i].networkAllowed, contexts[i].privilegeAllowed)
  }

  ghost predicate AnyMedium(contexts: seq<Context>) {
    exists i :: 0 <= i < |contexts| && IsMedium(contexts[i].bindingId, contexts[i].parameters)
  }

  lemma HasByFields(c: Context)
    ensures IsCritical(c.bindingId, c.operationType) <==> Has(c, NativeOperation) || Has(c, DestructiveIdentifier)
    ensures IsHigh(c.parameters, c.declaresWrites, c.networkAllowed, c.privilegeAllowed) <==>
              || Has(c, DeclaresWrites) || Has(c, WriteLikeParameter)
              || Has(c, NetworkCapability) || Has(c, PrivilegeCapability)
    ensures IsMedium(c.bindingId, c.parameters) <==> Has(c, RecursiveRead)
  {
    FalsyExactly(c.networkAllowed);
    FalsyExactly(c.privilegeAllowed);
    forall j | 0 <= j < |c.parameters|
      ensures OnPayload(c.parameters[j].payload) <==>
                && Get(c.parameters[j].payload, "value_type") == JStr("boolean")
                && Get(c.parameters[j].payload, "boolean_value")
                   !in {JNull, JBool(false), JNum(0), JStr(""), JArr([]), JObj([])}
    {
      FalsyExactly(Get(c.parameters[j].payload, "boolean_value"));
    }
  }

  /** And each factor on its own. */
  lemma FactorByFields(c: Context)
    ensures var falsy := {JNull, JBool(false), JNum(0), JStr(""), JArr([]), JObj([])};
            && (Has(c, DeclaresWrites) <==> c.declaresWrites)
            && (Has(c, WriteLikeParameter) <==>
                  exists p :: p in c.parameters
                              && p.name in {"write_path", "output_path", "destination_path", "target_write_path"})
            && (Has(c, NativeOperation) <==> c.operationType == JStr("registered_native"))
            && (Has(c, NetworkCapability) <==> c.networkAllowed !in falsy)
            && (Has(c, PrivilegeCapability) <==> c.privilegeAllowed !in falsy)
    ensures Has(c, DestructiveIdentifier) <==>
              || Occurs(Lower(c.bindingId), "delete") || Occurs(Lower(c.bindingId), "remove")
              || Occurs(Lower(c.bindingId), "rm.")
    ensures Has(c, ReadOnlyListing) <==> c.bindingId == "ps.get_child_items_v1"
    ensures Has(c, RecursiveRead) <==> IsMedium(c.bindingId, c.parameters)
    ensures Has(c, NonRecursiveRead) <==>
              c.bindingId == "ps.get_child_items_v1" && !IsMedium(c.bindingId, c.parameters)
  {
    HasByFields(c);
    FalsyExactly(c.networkAllowed);
    FalsyExactly(c.privilegeAllowed);
  }

  lemma AnyByFactors(contexts: seq<Context>)
    ensures AnyCritical(contexts) <==> Present(contexts, NativeOperation) || Present(contexts, DestructiveIdentifier)
    ensures AnyHigh(contexts) <==>
              || Present(contexts, DeclaresWrites) || Present(contexts, WriteLikeParameter)
              || Present(contexts, NetworkCapability) || Present(contexts, PrivilegeCapability)
    ensures AnyMedium(contexts) <==> Present(contexts, RecursiveRead)
  {
    forall i | 0 <= i < |contexts| ensures HasAt(contexts, i) {
      HasByFields(contexts[i]);
    }
  }

  /** As `HasByFields`, of one of the contexts. */
  predicate HasAt(contexts: seq<Context>, i: nat)
    requires i < |contexts|
  {
    var c := contexts[i];
    && (IsCritical(c.bindingId, c.operationType) <==> Has(c, NativeOperation) || Has(c, DestructiveIdentifier))
    && (IsHigh(c.parameters, c.declaresWrites, c.networkAllowed, c.privilegeAllowed) <==>
          || Has(c, DeclaresWrites) || Has(c, WriteLikeParameter)
          || Has(c, NetworkCapability) || Has(c, PrivilegeCapability))
    && (IsMedium(c.bindingId, c.parameters) <==> Has(c, RecursiveRead))
  }

  /** Each level exactly under its own condition on the fields of the bindings. */
  ghost function LevelByFields(contexts: seq<Context>): Level {
    if AnyCritical(contexts) then Critical
    else if AnyHigh(contexts) then High
    else if AnyMedium(contexts) then Medium
    else Low
  }

  lemma AllPresentAtMost(contexts: seq<Context>, level: Level)
    requires !AnyCritical(contexts) || level == Critical
    requires !AnyHigh(contexts) || level.Rank() >= High.Rank()
    requires !AnyMedium(contexts) || level.Rank() >= Medium.Rank()
    ensures forall f :: Present(contexts, f) ==> Weight(f).Rank() <= level.Rank()
  {
    AnyByFactors(contexts);
  }

  /** A factor that has this level. */
  ghost predicate Reaches(contexts: seq<Context>, level: Level) {
    exists f :: Present(contexts, f) && Weight(f) == level
  }

  lemma AnyReaches(contexts: seq<Context>)
    ensures AnyCritical(contexts) ==> Reaches(contexts, Critical)
    ensures AnyHigh(contexts) ==> Reaches(contexts, High)
    ensures AnyMedium(contexts) ==> Reaches(contexts, Medium)
  {
    AnyByFactors(contexts);
    assert Weight(NativeOperation) == Weight(DestructiveIdentifier) == Critical;
    assert Weight(DeclaresWrites) == Weight(WriteLikeParameter) == High;
    assert Weight(NetworkCapability) == Weight(PrivilegeCapability) == High;
    assert Weight(RecursiveRead) == Medium;
  }

  /** The heaviest factor gives just these levels. */
  lemma RiskByFields(level: Level, contexts: seq<Context>)
    ensures IsRisk(level, contexts) <==> level == LevelByFields(contexts)
  {
    var exact := LevelByFields(contexts);
    AllPresentAtMost(contexts, exact);
    AnyReaches(contexts);
    assert IsRisk(exact, contexts);
    if IsRisk(level, contexts) {
      RiskUnique(level, exact, contexts);
    }
  }

  function MaxRisk(current: Level, candidate: Level): Level {
    if candidate.Rank() > current.Rank() then candidate else current
  }

  // ------------------------------------------------------------------ the derivation

  /** The running state: the level is the weight of the heaviest factor noted so far. */
  ghost predicate Heaviest(level: Level, noted: seq<Factor>) {
    && (forall f :: f in noted ==> Weight(f).Rank() <= level.Rank())
    && (level == Low || exists f :: f in noted && Weight(f) == level)
  }

  /** One `if` of the loop: raises the level to the factor's and notes it. */
  method Note(level: Level, noted: seq<Factor>, f: Factor, applies: bool) returns (level': Level, noted': seq<Factor>)
    requires Heaviest(level, noted)
    ensures Heaviest(level', noted')
    ensures noted' == if applies then noted + [f] else noted
  {
    level', noted' := level, noted;
    if applies {
      level', noted' := MaxRisk(level, Weight(f)), noted + [f];
      if level' == level {
        assert level == Low || exists g :: g in noted && Weight(g) == level && g in noted';
      } else {
        assert f in noted' && Weight(f) == level';
      }
    }
  }

  datatype Group = Requests | Capabilities | Listings

  function GroupOf(f: Factor): Group {
    match f
    case DeclaresWrites => Requests
    case WriteLikeParameter => Requests
    case NativeOperation => Requests
    case DestructiveIdentifier => Capabilities
    case NetworkCapability => Capabilities
    case PrivilegeCapability => Capabilities
    case _ => Listings
  }

  method NoteRequests(c: Context, level: Level, noted: seq<Factor>) returns (level': Level, noted': seq<Factor>)
    requires Heaviest(level, noted)
    ensures Heaviest(level', noted')
    ensures forall f :: f in noted' <==> f in noted || (GroupOf(f) == Requests && Has(c, f))
  {
    level', noted' := Note(level, noted, DeclaresWrites, c.declaresWrites);
    level', noted' := Note(level', noted', WriteLikeParameter, RequestsWrite(c.parameters));
    level', noted' := Note(level', noted', NativeOperation, c.operationType == JStr("registered_native"));
  }

  method NoteCapabilities(c: Context, level: Level, noted: seq<Factor>) returns (level': Level, noted': seq<Factor>)
    requires Heaviest(level, noted)
    ensures Heaviest(level', noted')
    ensures forall f :: f in noted' <==> f in noted || (GroupOf(f) == Capabilities && Has(c, f))
  {
    level', noted' := Note(level, noted, DestructiveIdentifier, Destructive(c.bindingId));
    level', noted' := Note(level', noted', NetworkCapability, Truthy(c.networkAllowed));
    level', noted' := Note(level', noted', PrivilegeCapability, Truthy(c.privilegeAllowed));
  }

  method NoteListing(c: Context, level: Level, noted: seq<Factor>) returns (level': Level, noted': seq<Factor>)
    requires Heaviest(level, noted)
    ensures Heaviest(level', noted')
    ensures forall f :: f in noted' <==> f in noted || (GroupOf(f) == Listings && Has(c, f))
  {
    level', noted' := level, noted;
    if c.bindingId == LISTING {
      level', noted' := Note(level', noted', ReadOnlyListing, true);
      if IsOn(c.parameters, "recurse") {
        level', noted' := Note(level', noted', RecursiveRead, true);
      } else {
        level', noted' := Note(level', noted', NonRecursiveRead, true);
      }
    }
  }

  /** `_dedupe_preserve_order`. */
  method Dedupe(items: seq<Factor>) returns (kept: seq<Factor>)
    ensures forall f :: f in kept <==> f in items
    ensures forall i, j :: 0 <= i < j < |kept| ==> kept[i] != kept[j]
  {
    kept := [];
    for i := 0 to |items|
      invariant forall f :: f in kept <==> f in items[..i]
      invariant forall k, j :: 0 <= k < j < |kept| ==> kept[k] != kept[j]
    {
      if items[i] !in kept {
        kept := kept + [items[i]];
      }
    }
  }

  datatype Rule = Rule(required: Json, mode: string)

  datatype Report = Report(level: Level, factors: seq<Factor>, confirmationRequired: bool, confirmationMode: string)

  const EXACT_HASH := "exact_proposal_hash"

  /** Confirmation is required unless the rule for the level says otherwise. */
  predicate NeedsConfirmation(rules: map<Level, Rule>, level: Level) {
    level in rules ==> Truthy(rules[level].required)
  }

  function ModeFor(rules: map<Level, Rule>, level: Level): string {
    if level in rules then rules[level].mode else EXACT_HASH
  }

  /** `derive_effective_risk`; the risk that the model declared plays no part. */
  method DeriveEffectiveRisk(contexts: seq<Context>, rules: map<Level, Rule>) returns (r: Report)
    ensures IsRisk(r.level, contexts) && r.level == LevelByFields(contexts)
    ensures forall f :: f in r.factors <==> Present(contexts, f)
    ensures forall i, j :: 0 <= i < j < |r.factors| ==> r.factors[i] != r.factors[j]
    ensures r.confirmationRequired == NeedsConfirmation(rules, r.level)
    ensures r.confirmationMode == ModeFor(rules, r.level)
    ensures !r.confirmationRequired <==>
              && r.level in rules
              && rules[r.level].required in {JNull, JBool(false), JNum(0), JStr(""), JArr([]), JObj([])}
    ensures r.confirmationMode == if r.level in rules then rules[r.level].mode else "exact_proposal_hash"
  {
    var level, noted: seq<Factor> := Low, [];
    for i := 0 to |contexts|
      invariant Heaviest(level, noted)
      invariant forall f :: f in noted <==> exists k :: 0 <= k < i && Has(contexts[k], f)
    {
      level, noted := NoteRequests(contexts[i], level, noted);
      level, noted := NoteCapabilities(contexts[i], level, noted);
      level, noted := NoteListing(contexts[i], level, noted);
    }
    var factors := Dedupe(noted);
    RiskByFields(level, contexts);
    if level in rules {
      FalsyExactly(rules[level].required);
    }
    r := Report(level, factors, NeedsConfirmation(rules, level), ModeFor(rules, level));
  }
}
