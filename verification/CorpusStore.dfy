/** The reflective corpus: four ledgers with guarded appends, and the independent reconciler.
  * Record validation beyond the shape below is a parameter.
  */
module CorpusStore {
  import opened Text
  import opened LedgerChecks

  datatype Kind = Fragment | Theme | Pressure | Essay | Unknown

  /** A record; `caption` is a fragment's text or a theme's name. */
  datatype Content = Content(
    kind: Kind, id: string, fragmentIds: seq<string>, themeIds: seq<string>, pressureIds: seq<string>,
    externalAllowed: bool, caption: string, at: string, body: string)

  type Rows = seq<Row<Content>>

  datatype Ledgers = Ledgers(fragments: Rows, themes: Rows, pressures: Rows, essays: Rows) {
    function Of(k: Kind): Rows {
      match k
      case Fragment => fragments
      case Theme => themes
      case Pressure => pressures
      case Essay => essays
      case Unknown => []
    }

    function With(k: Kind, rows: Rows): Ledgers {
      match k
      case Fragment => this.(fragments := rows)
      case Theme => this.(themes := rows)
      case Pressure => this.(pressures := rows)
      case Essay => this.(essays := rows)
      case Unknown => this
    }
  }

  const NOTHING := Ledgers([], [], [], [])

  datatype Rules = Rules(hash: RecordHash<Content>, schema: Content -> bool)

  predicate BareIds(ids: seq<string>) {
    forall i :: 0 <= i < |ids| ==> ids[i] != "" && Bare(ids[i])
  }

  /** What every validator enforces: a derived id, normalised reference lists, no external action. */
  predicate WellShaped(c: Content) {
    && c.kind != Unknown && c.id != "" && Bare(c.id)
    && BareIds(c.fragmentIds) && BareIds(c.themeIds) && BareIds(c.pressureIds)
    && !c.externalAllowed
    && ((c.kind == Fragment || c.kind == Theme) ==> Strip(c.caption) != "")
    && (c.kind == Essay ==> c.fragmentIds != [])
  }

  ghost predicate Sound(rules: Rules) {
    HashLike(rules.hash) && forall c :: rules.schema(c) ==> WellShaped(c)
  }

  // ------------------------------------------------------------------ integrity, declaratively

  predicate HasId(rows: Rows, id: string) {
    exists i :: 0 <= i < |rows| && rows[i].content.id == id
  }

  predicate AllKnown(rows: Rows, ids: seq<string>) {
    forall i :: 0 <= i < |ids| ==> HasId(rows, ids[i])
  }

  /** Every reference of a record is to a record that exists. */
  predicate Resolved(l: Ledgers, c: Content) {
    match c.kind
    case Pressure => AllKnown(l.fragments, c.fragmentIds) && AllKnown(l.themes, c.themeIds)
    case Essay =>
      && AllKnown(l.pressures, c.pressureIds) && AllKnown(l.fragments, c.fragmentIds) && AllKnown(l.themes, c.themeIds)
    case _ => true
  }

  function IdsOf(rows: Rows): seq<string> {
    seq(|rows|, i requires 0 <= i < |rows| => rows[i].content.id)
  }

  ghost predicate ValidRows(rules: Rules, k: Kind, rows: Rows) {
    forall i :: 0 <= i < |rows| ==> rows[i].content.kind == k && rules.schema(rows[i].content)
  }

  ghost predicate ResolvedRows(l: Ledgers, rows: Rows) {
    forall i :: 0 <= i < |rows| ==> Resolved(l, rows[i].content)
  }

  ghost predicate LedgerIntact(rules: Rules, l: Ledgers, k: Kind) {
    && ValidRows(rules, k, l.Of(k))
    && UniqueIds(IdsOf(l.Of(k)))
    && ChainIntact(rules.hash, l.Of(k))
    && ResolvedRows(l, l.Of(k))
  }

  ghost predicate Integrity(rules: Rules, l: Ledgers) {
    forall k :: k != Unknown ==> LedgerIntact(rules, l, k)
  }

  // ------------------------------------------------------------------ the guarded appends

  datatype Lookup = BrokenLedger | Missing | Found

  predicate Listable(rules: Rules, k: Kind, rows: Rows) {
    forall i :: 0 <= i < |rows| && rows[i].content.kind == k ==> rules.schema(rows[i].content)
  }

  /** `get_*_by_id`: lists and validates the ledger, then looks for the stripped id. */
  function FindById(rules: Rules, k: Kind, rows: Rows, id: string): Lookup {
    if !Listable(rules, k, rows) then BrokenLedger
    else if exists i :: 0 <= i < |rows| && rows[i].content.kind == k && rows[i].content.id == Strip(id) then Found
    else Missing
  }

  /** A ledger with an invalid record of its kind cannot be searched; otherwise an id is found exactly when a record of
    * that kind has it, stripped.
    */
  lemma FindCases(rules: Rules, k: Kind, rows: Rows, id: string)
    ensures FindById(rules, k, rows, id) == BrokenLedger <==>
              exists row :: row in rows && row.content.kind == k && !rules.schema(row.content)
    ensures FindById(rules, k, rows, id) == Found <==>
              && (forall row :: row in rows && row.content.kind == k ==> rules.schema(row.content))
              && exists row :: row in rows && row.content.kind == k && row.content.id == Strip(id)
  {
    forall i | 0 <= i < |rows| ensures rows[i] in rows {
    }
  }

  /** `_validate_*_references`. */
  predicate AllFound(rules: Rules, k: Kind, rows: Rows, ids: seq<string>) {
    forall i :: 0 <= i < |ids| ==> FindById(rules, k, rows, ids[i]) == Found
  }

  predicate GuardsPass(rules: Rules, l: Ledgers, c: Content) {
    && rules.schema(c)
    && (match c.kind
        case Pressure =>
          && AllFound(rules, Fragment, l.fragments, c.fragmentIds)
          && AllFound(rules, Theme, l.themes, c.themeIds)
        case Essay =>
          && AllFound(rules, Pressure, l.pressures, c.pressureIds)
          && AllFound(rules, Fragment, l.fragments, c.fragmentIds)
          && AllFound(rules, Theme, l.themes, c.themeIds)
        case _ => true)
    && FindById(rules, c.kind, l.Of(c.kind), c.id) == Missing
  }

  /** The ledgers after one guarded append; a refused record changes nothing. */
  function AfterAppend(rules: Rules, l: Ledgers, c: Content): Ledgers {
    if !GuardsPass(rules, l, c) then l
    else match Appended(rules.hash, l.Of(c.kind), c, c.at)
      case None => l
      case Some(rows) => l.With(c.kind, rows)
  }

  function AfterAppends(rules: Rules, l: Ledgers, cs: seq<Content>): Ledgers {
    if cs == [] then l else AfterAppend(rules, AfterAppends(rules, l, cs[..|cs| - 1]), cs[|cs| - 1])
  }

  lemma FindExactly(rules: Rules, l: Ledgers, k: Kind, id: string)
    requires LedgerIntact(rules, l, k) && Bare(id)
    ensures FindById(rules, k, l.Of(k), id) == if HasId(l.Of(k), id) then Found else Missing
  {
    StripBare(id);
  }

  /** On an intact corpus the guards accept exactly the valid, resolved records with a new id. */
  lemma GuardsExactly(rules: Rules, l: Ledgers, c: Content)
    requires Sound(rules) && Integrity(rules, l)
    ensures GuardsPass(rules, l, c) <==> rules.schema(c) && Resolved(l, c) && !HasId(l.Of(c.kind), c.id)
  {
    if rules.schema(c) {
      assert WellShaped(c);
      assert LedgerIntact(rules, l, Fragment) && LedgerIntact(rules, l, Theme) && LedgerIntact(rules, l, Pressure);
      FindExactly(rules, l, c.kind, c.id);
    }
  }

  ghost predicate Grows(l: Ledgers, l': Ledgers) {
    l.fragments <= l'.fragments && l.themes <= l'.themes && l.pressures <= l'.pressures && l.essays <= l'.essays
  }

  lemma KnownKept(rows: Rows, rows': Rows, ids: seq<string>)
    requires rows <= rows' && AllKnown(rows, ids)
    ensures AllKnown(rows', ids)
  {
    forall i | 0 <= i < |ids| ensures HasId(rows', ids[i]) {
      var j :| 0 <= j < |rows| && rows[j].content.id == ids[i];
      assert rows'[j].content.id == ids[i];
    }
  }

  lemma ResolvedKept(l: Ledgers, l': Ledgers, c: Content)
    requires Grows(l, l') && Resolved(l, c)
    ensures Resolved(l', c)
  {
    match c.kind {
      case Pressure =>
        KnownKept(l.fragments, l'.fragments, c.fragmentIds);
        KnownKept(l.themes, l'.themes, c.themeIds);
      case Essay =>
        KnownKept(l.pressures, l'.pressures, c.pressureIds);
        KnownKept(l.fragments, l'.fragments, c.fragmentIds);
        KnownKept(l.themes, l'.themes, c.themeIds);
      case _ =>
    }
  }

  lemma UntouchedLedgerIntact(rules: Rules, l: Ledgers, l': Ledgers, k: Kind)
    requires Grows(l, l') && l'.Of(k) == l.Of(k) && LedgerIntact(rules, l, k)
    ensures LedgerIntact(rules, l', k)
  {
    forall i | 0 <= i < |l.Of(k)| ensures Resolved(l', l.Of(k)[i].content) {
      ResolvedKept(l, l', l.Of(k)[i].content);
    }
  }

  lemma FreshIdUnique(rules: Rules, k: Kind, rows: Rows, row: Row<Content>)
    requires Sound(rules) && ValidRows(rules, k, rows) && UniqueIds(IdsOf(rows))
    requires rules.schema(row.content) && !HasId(rows, row.content.id)
    ensures UniqueIds(IdsOf(rows + [row]))
  {
    var ids, more := IdsOf(rows), IdsOf(rows + [row]);
    assert WellShaped(row.content);
    StripBare(row.content.id);
    forall i | 0 <= i < |rows| ensures Strip(more[i]) != row.content.id && more[i] == ids[i] {
      assert WellShaped(rows[i].content);
      StripBare(rows[i].content.id);
    }
  }

  /** Every append keeps the integrity of the corpus, with no condition on the record. */
  lemma AppendKeepsIntegrity(rules: Rules, l: Ledgers, c: Content)
    requires Sound(rules) && Integrity(rules, l)
    ensures Integrity(rules, AfterAppend(rules, l, c))
    ensures AfterAppend(rules, l, c) != l <==> GuardsPass(rules, l, c)
  {
    GuardsExactly(rules, l, c);
    if GuardsPass(rules, l, c) {
      assert WellShaped(c);
      assert LedgerIntact(rules, l, c.kind);
      AppendedIntact(rules.hash, l.Of(c.kind), c, c.at);
      AcceptedKeepsIntegrity(rules, l, c, NewRow(rules.hash, l.Of(c.kind), c, c.at));
    }
  }

  lemma AcceptedKeepsIntegrity(rules: Rules, l: Ledgers, c: Content, row: Row<Content>)
    requires Sound(rules) && Integrity(rules, l)
    requires c.kind != Unknown && rules.schema(c) && Resolved(l, c) && !HasId(l.Of(c.kind), c.id)
    requires row.content == c && ChainIntact(rules.hash, l.Of(c.kind) + [row])
    ensures Integrity(rules, l.With(c.kind, l.Of(c.kind) + [row]))
  {
    var rows := l.Of(c.kind);
    var l' := l.With(c.kind, rows + [row]);
    assert LedgerIntact(rules, l, c.kind);
    WithGrows(l, c.kind, rows + [row]);
    FreshIdUnique(rules, c.kind, rows, row);
    OthersIntact(rules, l, l', c.kind);
  }

  lemma WithGrows(l: Ledgers, k: Kind, rows': Rows)
    requires k != Unknown && l.Of(k) <= rows'
    ensures Grows(l, l.With(k, rows')) && l.With(k, rows').Of(k) == rows'
    ensures forall j :: j != k ==> l.With(k, rows').Of(j) == l.Of(j)
  {
  }

  lemma OthersIntact(rules: Rules, l: Ledgers, l': Ledgers, k: Kind)
    requires Grows(l, l') && Integrity(rules, l) && forall j :: j != k ==> l'.Of(j) == l.Of(j)
    ensures forall j :: j != Unknown && j != k ==> LedgerIntact(rules, l', j)
  {
    forall j | j != Unknown && j != k ensures LedgerIntact(rules, l', j) {
      UntouchedLedgerIntact(rules, l, l', j);
    }
  }

  /** Every corpus reachable by any sequence of attempted appends is intact. */
  lemma {:induction false} ReachableIntact(rules: Rules, cs: seq<Content>)
    requires Sound(rules)
    ensures Integrity(rules, AfterAppends(rules, NOTHING, cs))
  {
    assert forall k :: NOTHING.Of(k) == [];
    if cs != [] {
      ReachableIntact(rules, cs[..|cs| - 1]);
      AppendKeepsIntegrity(rules, AfterAppends(rules, NOTHING, cs[..|cs| - 1]), cs[|cs| - 1]);
    }
  }

  // ------------------------------------------------------------------ the store

  datatype Refusal =
    | InvalidRecord
    | UnknownReference(kind: Kind, id: string)
    | DuplicateId(id: string)
    | UnreadableLedger

  datatype Result = Written | Refused(why: Refusal)

  /** The reason is about the first id that is not found. */
  predicate Blames(rules: Rules, k: Kind, rows: Rows, ids: seq<string>, i: nat, why: Refusal)
    requires i < |ids|
  {
    && AllFound(rules, k, rows, ids[..i])
    && match FindById(rules, k, rows, ids[i])
       case Found => false
       case Missing => why == UnknownReference(k, ids[i])
       case BrokenLedger => why == UnreadableLedger
  }

  class Store {
    const rules: Rules
    var ledgers: Ledgers

    constructor (rules: Rules)
      ensures this.rules == rules && ledgers == NOTHING
    {
      this.rules, ledgers := rules, NOTHING;
    }

    /** `_validate_*_references`: the first id that is not found stops the append. */
    method CheckReferences(k: Kind, ids: seq<string>) returns (r: Result)
      ensures r == Written <==> AllFound(rules, k, ledgers.Of(k), ids)
      ensures r.Refused? ==> exists i :: 0 <= i < |ids| && Blames(rules, k, ledgers.Of(k), ids, i, r.why)
    {
      for i := 0 to |ids|
        invariant AllFound(rules, k, ledgers.Of(k), ids[..i])
      {
        assert ids[..i + 1] == ids[..i] + [ids[i]];
        var found := FindById(rules, k, ledgers.Of(k), ids[i]);
        if found != Found {
          var why := if found == BrokenLedger then UnreadableLedger else UnknownReference(k, ids[i]);
          assert Blames(rules, k, ledgers.Of(k), ids, i, why);
          return Refused(why);
        }
      }
      assert ids[..|ids|] == ids;
      return Written;
    }

    /** The reference checks of each kind, in the order of the code. */
    method CheckAllReferences(c: Content) returns (r: Result)
      requires rules.schema(c)
      ensures r == Written <==>
                match c.kind
                case Pressure =>
                  && AllFound(rules, Fragment, ledgers.fragments, c.fragmentIds)
                  && AllFound(rules, Theme, ledgers.themes, c.themeIds)
                case Essay =>
                  && AllFound(rules, Pressure, ledgers.pressures, c.pressureIds)
                  && AllFound(rules, Fragment, ledgers.fragments, c.fragmentIds)
                  && AllFound(rules, Theme, ledgers.themes, c.themeIds)
                case _ => true
    {
      r := Written;
      if c.kind == Essay {
        r := CheckReferences(Pressure, c.pressureIds);
      }
      if r == Written && (c.kind == Essay || c.kind == Pressure) {
        r := CheckReferences(Fragment, c.fragmentIds);
        if r == Written {
          r := CheckReferences(Theme, c.themeIds);
        }
      }
    }

    /** `append_fragment`, `append_theme`, `append_pressure` and `append_essay_candidate`. */
    method Append(c: Content) returns (r: Result)
      modifies this
      ensures ledgers == AfterAppend(rules, old(ledgers), c)
      ensures r == Written ==> GuardsPass(rules, old(ledgers), c)
      ensures r != Written ==> ledgers == old(ledgers)
      ensures Sound(rules) && Integrity(rules, old(ledgers)) ==>
          Integrity(rules, ledgers) && (r == Written <==> GuardsPass(rules, old(ledgers), c))
    {
      if Sound(rules) && Integrity(rules, ledgers) {
        AppendKeepsIntegrity(rules, ledgers, c);
      }
      if !rules.schema(c) {
        return Refused(InvalidRecord);
      }
      r := CheckAllReferences(c);
      if r != Written {
        return;
      }
      var found := FindById(rules, c.kind, ledgers.Of(c.kind), c.id);
      if found != Missing {
        return Refused(if found == Found then DuplicateId(c.id) else UnreadableLedger);
      }
      var appended := Appended(rules.hash, ledgers.Of(c.kind), c, c.at);
      if appended.None? {
        return Refused(UnreadableLedger);
      }
      ledgers := ledgers.With(c.kind, appended.value);
      return Written;
    }
  }

  // ------------------------------------------------------------------ the reconciler

  datatype Issue =
    | TypeMismatch(ledger: Kind, line: nat)
    | SchemaFailed(ledger: Kind, line: nat)
    | ExternalActionAllowed(ledger: Kind, line: nat)
    | EmptyCaption(ledger: Kind, line: nat)
    | NoSupportingFragments(ledger: Kind, line: nat)
    | RepeatedId(ledger: Kind, line: nat)
    | HashProblem(ledger: Kind, problem: HashIssue)
    | MissingReference(ledger: Kind, line: nat, id: string)

  /** What `_validate_records` and `_detect_field_issues` say about one row. */
  function RecordIssues(rules: Rules, k: Kind, c: Content, line: nat): seq<Issue> {
    if c.kind != k then [TypeMismatch(k, line)]
    else
      (if !rules.schema(c) then [SchemaFailed(k, line)] else [])
      + (if c.externalAllowed then [ExternalActionAllowed(k, line)] else [])
      + (if (k == Fragment || k == Theme) && Strip(c.caption) == "" then [EmptyCaption(k, line)] else [])
      + (if k == Essay && c.fragmentIds == [] then [NoSupportingFragments(k, line)] else [])
  }

  lemma NoRecordIssue(rules: Rules, k: Kind, c: Content, line: nat)
    requires Sound(rules)
    ensures RecordIssues(rules, k, c, line) == [] <==> c.kind == k && rules.schema(c)
  {
    if rules.schema(c) {
      assert WellShaped(c);
    }
  }

  /** Each issue about a record exactly under its condition; a record of another kind has just the one. */
  lemma RecordIssuesExactly(rules: Rules, k: Kind, c: Content, line: nat, issue: Issue)
    ensures issue in RecordIssues(rules, k, c, line) <==>
              || (issue == TypeMismatch(k, line) && c.kind != k)
              || (issue == SchemaFailed(k, line) && c.kind == k && !rules.schema(c))
              || (issue == ExternalActionAllowed(k, line) && c.kind == k && c.externalAllowed)
              || (issue == EmptyCaption(k, line) && c.kind == k && k in {Fragment, Theme} && Strip(c.caption) == [])
              || (issue == NoSupportingFragments(k, line) && c.kind == k && k == Essay && |c.fragmentIds| == 0)
  {
  }

  method ValidateRecords(rules: Rules, k: Kind, rows: Rows) returns (issues: seq<Issue>)
    requires Sound(rules)
    ensures issues == [] <==> ValidRows(rules, k, rows)
  {
    issues := [];
    for i := 0 to |rows|
      invariant issues == [] <==> ValidRows(rules, k, rows[..i])
    {
      assert rows[..i + 1] == rows[..i] + [rows[i]];
      NoRecordIssue(rules, k, rows[i].content, i);
      issues := issues + RecordIssues(rules, k, rows[i].content, i);
    }
    assert rows[..|rows|] == rows;
  }

  method DetectDuplicates(k: Kind, rows: Rows) returns (issues: seq<Issue>)
    ensures issues == [] <==> UniqueIds(IdsOf(rows))
  {
    var repeated := DetectDuplicateIds(IdsOf(rows));
    issues := seq(|repeated|, i requires 0 <= i < |repeated| => RepeatedId(k, repeated[i]));
  }

  method DetectHashes(rules: Rules, k: Kind, rows: Rows) returns (issues: seq<Issue>)
    ensures issues == [] <==> ChainIntact(rules.hash, rows)
  {
    var problems := DetectHashIssues(rules.hash, rows);
    issues := seq(|problems|, i requires 0 <= i < |problems| => HashProblem(k, problems[i]));
  }

  function KnownIds(rows: Rows): set<string> {
    set i | 0 <= i < |rows| && rows[i].content.id != "" :: rows[i].content.id
  }

  /** One of the loops over a reference list: strips the ids and skips blank ones. */
  method MissingReferences(k: Kind, line: nat, known: set<string>, ids: seq<string>) returns (issues: seq<Issue>)
    ensures issues == [] <==> forall i :: 0 <= i < |ids| && Strip(ids[i]) != "" ==> Strip(ids[i]) in known
  {
    issues := [];
    for i := 0 to |ids|
      invariant issues == [] <==> forall j :: 0 <= j < i && Strip(ids[j]) != "" ==> Strip(ids[j]) in known
    {
      var id := Strip(ids[i]);
      if id != "" && id !in known {
        issues := issues + [MissingReference(k, line, id)];
      }
    }
  }

  /** `_detect_reference_issues` for one record. */
  method ReferenceIssues(rules: Rules, l: Ledgers, k: Kind, line: nat, c: Content) returns (issues: seq<Issue>)
    requires Sound(rules)
    ensures c.kind == k && rules.schema(c) ==> (issues == [] <==> Resolved(l, c))
  {
    issues := [];
    if k == Essay {
      issues := MissingReferences(k, line, KnownIds(l.pressures), c.pressureIds);
    }
    if k == Essay || k == Pressure {
      var fragments := MissingReferences(k, line, KnownIds(l.fragments), c.fragmentIds);
      var themes := MissingReferences(k, line, KnownIds(l.themes), c.themeIds);
      issues := issues + fragments + themes;
    }
    if c.kind == k && rules.schema(c) {
      assert WellShaped(c);
    }
  }

  method DetectReferences(rules: Rules, l: Ledgers, k: Kind) returns (issues: seq<Issue>)
    requires Sound(rules)
    ensures ValidRows(rules, k, l.Of(k)) ==> (issues == [] <==> ResolvedRows(l, l.Of(k)))
  {
    issues := [];
    var rows := l.Of(k);
    for i := 0 to |rows|
      invariant ValidRows(rules, k, rows) ==> (issues == [] <==> ResolvedRows(l, rows[..i]))
    {
      assert rows[..i + 1] == rows[..i] + [rows[i]];
      var more := ReferenceIssues(rules, l, k, i, rows[i].content);
      issues := issues + more;
    }
    assert rows[..|rows|] == rows;
  }

  /** All detectors on one ledger; none of them is skipped because another one found something. */
  method ReconcileLedger(rules: Rules, l: Ledgers, k: Kind) returns (issues: seq<Issue>)
    requires Sound(rules)
    ensures issues == [] <==> LedgerIntact(rules, l, k)
  {
    var records := ValidateRecords(rules, k, l.Of(k));
    var duplicates := DetectDuplicates(k, l.Of(k));
    var hashes := DetectHashes(rules, k, l.Of(k));
    var references := DetectReferences(rules, l, k);
    issues := records + duplicates + hashes + references;
  }

  /** `reconcile_reflective_corpus_state`: clean exactly when the corpus is intact. */
  method Reconcile(rules: Rules, l: Ledgers) returns (failures: seq<Issue>)
    requires Sound(rules)
    ensures failures == [] <==> Integrity(rules, l)
  {
    var fragments := ReconcileLedger(rules, l, Fragment);
    var themes := ReconcileLedger(rules, l, Theme);
    var pressures := ReconcileLedger(rules, l, Pressure);
    var essays := ReconcileLedger(rules, l, Essay);
    failures := fragments + themes + pressures + essays;
    if failures == [] {
      forall k | k != Unknown ensures LedgerIntact(rules, l, k) {
        match k case Fragment => case Theme => case Pressure => case Essay =>
      }
    }
  }
}
