/** The reflective pressure ledgers: six kinds of guarded appends, each leaving an event, and the
  * independent reconciler. Record validation beyond the shape below is a parameter, and so is
  * the hash that derives event ids.
  */
module PressureStore {
  import opened Text
  import opened LedgerChecks
  import opened Wrappers

  datatype Kind = Input | Classification | Draft | Observation | Correction | Golden | Event | Unknown

  /** A record; an absent optional reference is the empty string. */
  datatype Content = Content(
    kind: Kind, id: string, inputId: string, classificationId: string, draftId: string, correctionId: string,
    target: Kind, targetId: string, external: bool, irreversible: bool, at: string, body: string)

  /** The `input_id` field of a record; for an input it is the record's own id. */
  function InputOf(c: Content): string {
    if c.kind == Input then c.id else c.inputId
  }

  type Rows = seq<Row<Content>>

  datatype Ledgers = Ledgers(
    inputs: Rows, classifications: Rows, drafts: Rows, observations: Rows, corrections: Rows, goldens: Rows,
    events: Rows)
  {
    function Of(k: Kind): Rows {
      match k
      case Input => inputs
      case Classification => classifications
      case Draft => drafts
      case Observation => observations
      case Correction => corrections
      case Golden => goldens
      case Event => events
      case Unknown => []
    }

    function With(k: Kind, rows: Rows): Ledgers {
      match k
      case Input => this.(inputs := rows)
      case Classification => this.(classifications := rows)
      case Draft => this.(drafts := rows)
      case Observation => this.(observations := rows)
      case Correction => this.(corrections := rows)
      case Golden => this.(goldens := rows)
      case Event => this.(events := rows)
      case Unknown => this
    }
  }

  const NOTHING := Ledgers([], [], [], [], [], [], [])

  datatype Rules = Rules(hash: RecordHash<Content>, schema: Content -> bool, eventId: (Kind, string, string) -> string)

  /** What every validator enforces. Ids must not be blank, but may carry surrounding whitespace. */
  predicate WellShaped(c: Content) {
    && c.kind != Unknown && Strip(c.id) != ""
    && !c.external && !c.irreversible
  }

  /** The event that records an append: it names the linked record as its target. */
  function EventOf(rules: Rules, c: Content): Content {
    var classification :=
      if c.kind == Classification then c.id else if c.kind == Draft || c.kind == Golden then c.classificationId else "";
    var draft := if c.kind == Draft then c.id else if c.kind == Observation || c.kind == Golden then c.draftId else "";
    var correction := if c.kind == Correction then c.id else if c.kind == Golden then c.correctionId else "";
    Content(Event, rules.eventId(c.kind, Strip(c.id), c.at), Strip(InputOf(c)), Strip(classification), Strip(draft),
            correction, c.kind, Strip(c.id), false, false, c.at, "")
  }

  ghost predicate Sound(rules: Rules) {
    && HashLike(rules.hash)
    && (forall c :: rules.schema(c) ==> WellShaped(c))
    && (forall c {:trigger EventOf(rules, c)} :: rules.schema(c) && c.kind != Event ==> rules.schema(EventOf(rules, c)))
    && (forall k, id, at :: Bare(rules.eventId(k, id, at)))
    && (forall k, id, at, k', id', at' :: rules.eventId(k, id, at) == rules.eventId(k', id', at') ==>
        k == k' && id == id')
  }

  // ------------------------------------------------------------------ what a clean state is

  predicate HasId(rows: Rows, id: string) {
    exists i :: 0 <= i < |rows| && rows[i].content.id == id
  }

  /** A record with this id exists and belongs to this input. */
  predicate KnownFor(rows: Rows, id: string, inputId: string) {
    exists i :: 0 <= i < |rows| && rows[i].content.id == id && InputOf(rows[i].content) == inputId
  }

  predicate IsTarget(k: Kind) {
    k == Input || k == Classification || k == Draft || k == Observation
  }

  /** Every reference of a record is to an existing record of the same input. */
  predicate Resolved(l: Ledgers, c: Content) {
    match c.kind
    case Classification => HasId(l.inputs, c.inputId)
    case Draft => HasId(l.inputs, c.inputId) && KnownFor(l.classifications, c.classificationId, c.inputId)
    case Observation => HasId(l.inputs, c.inputId) && KnownFor(l.drafts, c.draftId, c.inputId)
    case Correction =>
      HasId(l.inputs, c.inputId) && IsTarget(c.target) && KnownFor(l.Of(c.target), c.targetId, c.inputId)
    case Golden => HasId(l.inputs, c.inputId) && GoldenResolved(l, c)
    case _ => true
  }

  predicate GoldenResolved(l: Ledgers, c: Content) {
    && KnownFor(l.classifications, c.classificationId, c.inputId)
    && (c.correctionId != "" ==> KnownFor(l.corrections, c.correctionId, c.inputId))
    && (c.draftId != "" ==> KnownFor(l.drafts, c.draftId, c.inputId))
  }

  function IdsOf(rows: Rows): seq<string> {
    seq(|rows|, i requires 0 <= i < |rows| => rows[i].content.id)
  }

  ghost predicate ValidRows(rules: Rules, k: Kind, rows: Rows) {
    forall i :: 0 <= i < |rows| ==> ValidRow(rules, k, rows[i])
  }

  predicate ValidRow(rules: Rules, k: Kind, row: Row<Content>) {
    row.content.kind == k && rules.schema(row.content)
  }

  ghost predicate ResolvedRows(l: Ledgers, rows: Rows) {
    forall i {:trigger Resolved(l, rows[i].content)} :: 0 <= i < |rows| ==> Resolved(l, rows[i].content)
  }

  ghost predicate LedgerClean(rules: Rules, l: Ledgers, k: Kind) {
    && ValidRows(rules, k, l.Of(k))
    && UniqueIds(IdsOf(l.Of(k)))
    && ChainIntact(rules.hash, l.Of(k))
    && ResolvedRows(l, l.Of(k))
  }

  ghost predicate Clean(rules: Rules, l: Ledgers) {
    forall k :: k != Unknown ==> LedgerClean(rules, l, k)
  }

  // ------------------------------------------------------------------ lookups and guards

  predicate Matching(row: Row<Content>, k: Kind, target: string) {
    row.content.kind == k && row.content.id == target
  }

  /** `_find_latest` on the first `n` rows, as listed by creation date: the newest match, later lines first. */
  function LatestUpTo(rows: Rows, k: Kind, target: string, n: nat): Option<Content>
    requires n <= |rows|
  {
    if n == 0 then None
    else
      var best, last := LatestUpTo(rows, k, target, n - 1), rows[n - 1];
      if Matching(last, k, target) && (best.None? || Leq(best.value.at, last.content.at))
      then Some(last.content) else best
  }

  function Latest(rows: Rows, k: Kind, target: string): Option<Content> {
    LatestUpTo(rows, k, target, |rows|)
  }

  lemma {:induction false} LatestUpToExactly(rows: Rows, k: Kind, target: string, n: nat)
    requires n <= |rows|
    ensures LatestUpTo(rows, k, target, n).Some? <==> exists i :: 0 <= i < n && Matching(rows[i], k, target)
    ensures LatestUpTo(rows, k, target, n).Some? ==>
              exists i :: 0 <= i < n && Matching(rows[i], k, target)
                  && rows[i].content == LatestUpTo(rows, k, target, n).value
  {
    if n > 0 {
      LatestUpToExactly(rows, k, target, n - 1);
    }
  }

  lemma LatestExactly(rows: Rows, k: Kind, target: string)
    ensures Latest(rows, k, target).Some? <==> exists i :: 0 <= i < |rows| && Matching(rows[i], k, target)
    ensures Latest(rows, k, target).Some? ==>
              exists i :: 0 <= i < |rows| && Matching(rows[i], k, target)
                  && rows[i].content == Latest(rows, k, target).value
  {
    LatestUpToExactly(rows, k, target, |rows|);
  }

  /** The record at `i` matches, no match among the first `n` is newer, and none behind it is as new. */
  ghost predicate NewestAt(rows: Rows, k: Kind, target: string, n: nat, i: nat) {
    && i < n <= |rows| && Matching(rows[i], k, target)
    && (forall j :: 0 <= j < n && Matching(rows[j], k, target) ==> Leq(rows[j].content.at, rows[i].content.at))
    && (forall j :: i < j < n && Matching(rows[j], k, target) ==> !Leq(rows[i].content.at, rows[j].content.at))
  }

  lemma StaysNewest(rows: Rows, k: Kind, target: string, n: nat, i: nat)
    requires 0 < n <= |rows| && NewestAt(rows, k, target, n - 1, i)
    requires Matching(rows[n - 1], k, target) ==> !Leq(rows[i].content.at, rows[n - 1].content.at)
    ensures NewestAt(rows, k, target, n, i)
  {
    LeqTotal(rows[i].content.at, rows[n - 1].content.at);
  }

  /** What the loop has found after n rows, if anything, is the content of a newest match among them. */
  ghost predicate FindsNewest(rows: Rows, k: Kind, target: string, n: nat)
    requires n <= |rows|
  {
    LatestUpTo(rows, k, target, n).Some? ==>
      exists i: nat :: NewestAt(rows, k, target, n, i) && rows[i].content == LatestUpTo(rows, k, target, n).value
  }

  lemma LastIsNewest(rows: Rows, k: Kind, target: string, n: nat)
    requires 0 < n <= |rows| && Matching(rows[n - 1], k, target) && FindsNewest(rows, k, target, n - 1)
    requires var best := LatestUpTo(rows, k, target, n - 1);
             best.Some? ==> Leq(best.value.at, rows[n - 1].content.at)
    ensures NewestAt(rows, k, target, n, n - 1)
  {
    LatestUpToExactly(rows, k, target, n - 1);
    forall j | 0 <= j < n && Matching(rows[j], k, target) ensures Leq(rows[j].content.at, rows[n - 1].content.at) {
      if j == n - 1 {
        LeqTotal(rows[j].content.at, rows[j].content.at);
      } else {
        var i: nat :| NewestAt(rows, k, target, n - 1, i)
                      && rows[i].content == LatestUpTo(rows, k, target, n - 1).value;
        LeqTransitive(rows[j].content.at, rows[i].content.at, rows[n - 1].content.at);
      }
    }
  }

  lemma NewestStep(rows: Rows, k: Kind, target: string, n: nat)
    requires 0 < n <= |rows| && FindsNewest(rows, k, target, n - 1)
    ensures FindsNewest(rows, k, target, n)
  {
    var best, last := LatestUpTo(rows, k, target, n - 1), rows[n - 1].content;
    if Matching(rows[n - 1], k, target) && (best.None? || Leq(best.value.at, last.at)) {
      LastIsNewest(rows, k, target, n);
      assert LatestUpTo(rows, k, target, n) == Some(last);
    } else {
      assert LatestUpTo(rows, k, target, n) == best;
      if best.Some? {
        var i: nat :| NewestAt(rows, k, target, n - 1, i) && rows[i].content == best.value;
        StaysNewest(rows, k, target, n, i);
      }
    }
  }

  /** The loop finds the newest match, and of several the last. */
  lemma {:induction false} LatestIsNewest(rows: Rows, k: Kind, target: string, n: nat)
    requires n <= |rows|
    ensures FindsNewest(rows, k, target, n)
  {
    assert FindsNewest(rows, k, target, 0);
    for i := 0 to n
      invariant FindsNewest(rows, k, target, i)
    {
      NewestStep(rows, k, target, i + 1);
    }
  }

  datatype Lookup = BrokenLedger | Missing | Found(record: Content)

  predicate Listable(rules: Rules, k: Kind, rows: Rows) {
    forall i :: 0 <= i < |rows| && rows[i].content.kind == k ==> rules.schema(rows[i].content)
  }

  /** `get_*_by_id`: lists and validates the ledger, then looks for the stripped id. */
  function FindById(rules: Rules, l: Ledgers, k: Kind, id: string): Lookup {
    if !Listable(rules, k, l.Of(k)) then BrokenLedger
    else match Latest(l.Of(k), k, Strip(id)) case None => Missing case Some(c) => Found(c)
  }

  lemma ListableExactly(rules: Rules, k: Kind, rows: Rows)
    ensures Listable(rules, k, rows) <==>
              !exists row :: row in rows && row.content.kind == k && !rules.schema(row.content)
  {
    forall i | 0 <= i < |rows| ensures rows[i] in rows {
    }
  }

  /** A ledger with an invalid record of its kind cannot be searched; otherwise a record is missing exactly when none of
    * that kind has the stripped id.
    */
  lemma FindCases(rules: Rules, l: Ledgers, k: Kind, id: string)
    ensures FindById(rules, l, k, id) == BrokenLedger <==>
              exists row :: row in l.Of(k) && row.content.kind == k && !rules.schema(row.content)
    ensures FindById(rules, l, k, id) == Missing ==>
              forall row :: row in l.Of(k) ==> !(row.content.kind == k && row.content.id == Strip(id))
  {
    var rows := l.Of(k);
    ListableExactly(rules, k, rows);
    LatestExactly(rows, k, Strip(id));
    forall row | row in rows && row.content.kind == k && row.content.id == Strip(id)
      ensures Latest(rows, k, Strip(id)).Some?
    {
      var i :| 0 <= i < |rows| && rows[i] == row;
      assert Matching(rows[i], k, Strip(id));
    }
  }

  predicate Present(rules: Rules, l: Ledgers, k: Kind, id: string) {
    FindById(rules, l, k, id).Found?
  }

  predicate PresentFor(rules: Rules, l: Ledgers, k: Kind, id: string, inputId: string) {
    Present(rules, l, k, id) && InputOf(FindById(rules, l, k, id).record) == inputId
  }

  /** The reference guards of the six appends; events are never appended by a caller. */
  predicate ReferencesPass(rules: Rules, l: Ledgers, c: Content) {
    match c.kind
    case Input => true
    case Classification => Present(rules, l, Input, c.inputId)
    case Draft =>
      Present(rules, l, Input, c.inputId) && PresentFor(rules, l, Classification, c.classificationId, c.inputId)
    case Observation => Present(rules, l, Input, c.inputId) && PresentFor(rules, l, Draft, c.draftId, c.inputId)
    case Correction =>
      Present(rules, l, Input, c.inputId) && IsTarget(c.target) && PresentFor(rules, l, c.target, c.targetId, c.inputId)
    case Golden => Present(rules, l, Input, c.inputId) && GoldenPasses(rules, l, c)
    case _ => false
  }

  predicate GoldenPasses(rules: Rules, l: Ledgers, c: Content) {
    && PresentFor(rules, l, Classification, c.classificationId, c.inputId)
    && (c.correctionId != "" ==> PresentFor(rules, l, Correction, c.correctionId, c.inputId))
    && (c.draftId != "" ==> PresentFor(rules, l, Draft, c.draftId, c.inputId))
  }

  predicate GuardsPass(rules: Rules, l: Ledgers, c: Content) {
    rules.schema(c) && ReferencesPass(rules, l, c) && FindById(rules, l, c.kind, c.id) == Missing
  }

  /** One guarded append: the record and then its event; a refused record changes nothing. */
  function AfterAppend(rules: Rules, l: Ledgers, c: Content): Ledgers {
    if !GuardsPass(rules, l, c) then l
    else match Appended(rules.hash, l.Of(c.kind), c, c.at)
      case None => l
      case Some(rows) =>
        var mid := l.With(c.kind, rows);
        match Appended(rules.hash, mid.events, EventOf(rules, c), c.at)
        case None => mid
        case Some(events) => mid.(events := events)
  }

  function AfterAppends(rules: Rules, l: Ledgers, cs: seq<Content>): Ledgers {
    if cs == [] then l else AfterAppend(rules, AfterAppends(rules, l, cs[..|cs| - 1]), cs[|cs| - 1])
  }

  // ------------------------------------------------------------------ the invariant of runs

  ghost predicate BareIds(l: Ledgers, k: Kind) {
    forall i :: 0 <= i < |l.Of(k)| ==> Bare(l.Of(k)[i].content.id)
  }

  ghost predicate Traced(rules: Rules, l: Ledgers, e: Content) {
    exists k, i :: k != Event && 0 <= i < |l.Of(k)| && RecordedBy(rules, l.Of(k)[i], k, e)
  }

  predicate RecordedBy(rules: Rules, row: Row<Content>, k: Kind, e: Content) {
    e.id == rules.eventId(k, Strip(row.content.id), row.content.at)
  }

  /** Clean, with bare ids, and every event stems from a record that is there. */
  ghost predicate Invariant(rules: Rules, l: Ledgers) {
    && Clean(rules, l)
    && (forall k :: BareIds(l, k))
    && (forall i :: 0 <= i < |l.events| ==> Traced(rules, l, l.events[i].content))
  }

  /** The references that the guards look up in stripped form carry no whitespace. */
  predicate BareRefs(c: Content) {
    match c.kind
    case Classification => Bare(c.inputId)
    case Draft => Bare(c.classificationId)
    case Observation => Bare(c.draftId)
    case Correction => Bare(c.targetId)
    case Golden => Bare(c.classificationId) && Bare(c.correctionId) && Bare(c.draftId)
    case _ => true
  }

  // ------------------------------------------------------------------ the guards on a state with the invariant

  lemma FindExactly(rules: Rules, l: Ledgers, k: Kind, id: string)
    requires LedgerClean(rules, l, k)
    ensures FindById(rules, l, k, id) == Missing <==> !HasId(l.Of(k), Strip(id))
    ensures FindById(rules, l, k, id) != BrokenLedger
    ensures FindById(rules, l, k, id).Found? ==>
              exists i :: 0 <= i < |l.Of(k)| && l.Of(k)[i].content == FindById(rules, l, k, id).record
                          && l.Of(k)[i].content.id == Strip(id)
  {
    LatestExactly(l.Of(k), k, Strip(id));
  }

  /** A guarded reference in bare form is one the reconciler accepts. */
  lemma PresentIsKnown(rules: Rules, l: Ledgers, k: Kind, id: string, inputId: string)
    requires LedgerClean(rules, l, k) && Bare(id)
    ensures Present(rules, l, k, id) ==> HasId(l.Of(k), id)
    ensures PresentFor(rules, l, k, id, inputId) ==> KnownFor(l.Of(k), id, inputId)
  {
    FindExactly(rules, l, k, id);
    StripBare(id);
  }

  /** The record a reference finds is itself resolved, so its input exists. */
  lemma InputExists(rules: Rules, l: Ledgers, k: Kind, id: string, inputId: string)
    requires Clean(rules, l) && k != Unknown && k != Event && PresentFor(rules, l, k, id, inputId)
    ensures HasId(l.inputs, inputId)
  {
    assert LedgerClean(rules, l, k);
    FindExactly(rules, l, k, id);
    var i :| 0 <= i < |l.Of(k)| && l.Of(k)[i].content == FindById(rules, l, k, id).record;
    assert Resolved(l, l.Of(k)[i].content);
    assert l.Of(k)[i].content.kind == k;
    if k == Input {
      assert l.inputs[i].content.id == inputId;
    }
  }

  lemma GoldenIsResolved(rules: Rules, l: Ledgers, c: Content)
    requires LedgerClean(rules, l, Classification) && LedgerClean(rules, l, Correction) && LedgerClean(rules, l, Draft)
    requires GoldenPasses(rules, l, c) && Bare(c.classificationId) && Bare(c.correctionId) && Bare(c.draftId)
    ensures GoldenResolved(l, c)
  {
    PresentIsKnown(rules, l, Classification, c.classificationId, c.inputId);
    PresentIsKnown(rules, l, Correction, c.correctionId, c.inputId);
    PresentIsKnown(rules, l, Draft, c.draftId, c.inputId);
  }

  /** Passing the guards with bare references means being resolved. */
  lemma PassedIsResolved(rules: Rules, l: Ledgers, c: Content)
    requires Clean(rules, l) && ReferencesPass(rules, l, c) && BareRefs(c)
    ensures Resolved(l, c)
  {
    match c.kind {
      case Input =>
      case Classification => PresentIsKnown(rules, l, Input, c.inputId, "");
      case Draft =>
        InputExists(rules, l, Classification, c.classificationId, c.inputId);
        PresentIsKnown(rules, l, Classification, c.classificationId, c.inputId);
      case Observation =>
        InputExists(rules, l, Draft, c.draftId, c.inputId);
        PresentIsKnown(rules, l, Draft, c.draftId, c.inputId);
      case Correction =>
        InputExists(rules, l, c.target, c.targetId, c.inputId);
        PresentIsKnown(rules, l, c.target, c.targetId, c.inputId);
      case Golden =>
        InputExists(rules, l, Classification, c.classificationId, c.inputId);
        GoldenIsResolved(rules, l, c);
    }
  }

  lemma BareInput(l: Ledgers, id: string)
    requires BareIds(l, Input) && HasId(l.inputs, id)
    ensures Bare(id)
  {
    var i :| 0 <= i < |l.inputs| && l.inputs[i].content.id == id;
    assert l.Of(Input)[i].content.id == id;
  }

  /** And what is known is found: with distinct ids the record found is the one that is known. */
  lemma KnownIsPresent(rules: Rules, l: Ledgers, k: Kind, id: string, inputId: string)
    requires Sound(rules) && LedgerClean(rules, l, k) && Bare(id)
    ensures HasId(l.Of(k), id) ==> Present(rules, l, k, id)
    ensures KnownFor(l.Of(k), id, inputId) ==> PresentFor(rules, l, k, id, inputId)
  {
    FindExactly(rules, l, k, id);
    StripBare(id);
    if KnownFor(l.Of(k), id, inputId) {
      var rows := l.Of(k);
      var i :| 0 <= i < |rows| && rows[i].content.id == id && InputOf(rows[i].content) == inputId;
      assert HasId(rows, id);
      var j :| 0 <= j < |rows| && rows[j].content == FindById(rules, l, k, id).record && rows[j].content.id == id;
      assert ValidRow(rules, k, rows[i]) && WellShaped(rows[i].content);
      assert IdsOf(rows)[i] == IdsOf(rows)[j] && Strip(IdsOf(rows)[i]) != "";
      assert i == j;
    }
  }

  /** So for bare references the guards accept exactly what is resolved. */
  lemma PassedExactly(rules: Rules, l: Ledgers, c: Content)
    requires Sound(rules) && Clean(rules, l) && BareIds(l, Input) && BareRefs(c) && c.kind != Event && c.kind != Unknown
    ensures ReferencesPass(rules, l, c) <==> Resolved(l, c)
  {
    if ReferencesPass(rules, l, c) {
      PassedIsResolved(rules, l, c);
    }
    if Resolved(l, c) && c.kind != Input {
      BareInput(l, c.inputId);
      KnownIsPresent(rules, l, Input, c.inputId, "");
      match c.kind {
        case Classification =>
        case Draft => KnownIsPresent(rules, l, Classification, c.classificationId, c.inputId);
        case Observation => KnownIsPresent(rules, l, Draft, c.draftId, c.inputId);
        case Correction => KnownIsPresent(rules, l, c.target, c.targetId, c.inputId);
        case Golden =>
          KnownIsPresent(rules, l, Classification, c.classificationId, c.inputId);
          KnownIsPresent(rules, l, Correction, c.correctionId, c.inputId);
          KnownIsPresent(rules, l, Draft, c.draftId, c.inputId);
      }
    }
  }

  /** On a state with the invariant, a bare record is accepted exactly when it is valid, resolved and new. */
  lemma AcceptedExactly(rules: Rules, l: Ledgers, c: Content)
    requires Sound(rules) && Invariant(rules, l) && Bare(c.id) && BareRefs(c) && c.kind != Event && c.kind != Unknown
    ensures GuardsPass(rules, l, c) <==> rules.schema(c) && Resolved(l, c) && !HasId(l.Of(c.kind), c.id)
  {
    PassedExactly(rules, l, c);
    FindExactly(rules, l, c.kind, c.id);
    StripBare(c.id);
  }

  lemma PaddedIsUnknown(l: Ledgers, k: Kind, id: string, inputId: string)
    requires BareIds(l, k) && !Bare(id)
    ensures !HasId(l.Of(k), id) && !KnownFor(l.Of(k), id, inputId)
  {
  }

  /** A padded reference is never resolved against bare ids. */
  lemma PaddedIsUnresolved(l: Ledgers, c: Content)
    requires (forall k :: BareIds(l, k)) && !BareRefs(c)
    ensures !Resolved(l, c)
  {
    match c.kind {
      case Classification => PaddedIsUnknown(l, Input, c.inputId, "");
      case Draft => PaddedIsUnknown(l, Classification, c.classificationId, c.inputId);
      case Observation => PaddedIsUnknown(l, Draft, c.draftId, c.inputId);
      case Correction =>
        if IsTarget(c.target) {
          PaddedIsUnknown(l, c.target, c.targetId, c.inputId);
        }
      case Golden =>
        if !Bare(c.classificationId) {
          PaddedIsUnknown(l, Classification, c.classificationId, c.inputId);
        } else if !Bare(c.correctionId) {
          PaddedIsUnknown(l, Correction, c.correctionId, c.inputId);
        } else {
          PaddedIsUnknown(l, Draft, c.draftId, c.inputId);
        }
      case _ =>
    }
  }

  // ------------------------------------------------------------------ one row more

  ghost predicate Grows(l: Ledgers, l': Ledgers) {
    forall k :: l.Of(k) <= l'.Of(k)
  }

  lemma KnownKept(rows: Rows, rows': Rows, id: string, inputId: string)
    requires rows <= rows'
    ensures HasId(rows, id) ==> HasId(rows', id)
    ensures KnownFor(rows, id, inputId) ==> KnownFor(rows', id, inputId)
  {
    if i :| 0 <= i < |rows| && rows[i].content.id == id {
      assert rows'[i] == rows[i];
    }
    if i :| 0 <= i < |rows| && rows[i].content.id == id && InputOf(rows[i].content) == inputId {
      assert rows'[i] == rows[i];
    }
  }

  lemma ResolvedKept(l: Ledgers, l': Ledgers, c: Content)
    requires Grows(l, l') && Resolved(l, c)
    ensures Resolved(l', c)
  {
    assert l.Of(Input) <= l'.Of(Input) && l.Of(Classification) <= l'.Of(Classification) && l.Of(Draft) <= l'.Of(Draft);
    assert l.Of(Correction) <= l'.Of(Correction) && l.Of(c.target) <= l'.Of(c.target);
    KnownKept(l.inputs, l'.inputs, c.inputId, "");
    KnownKept(l.classifications, l'.classifications, c.classificationId, c.inputId);
    KnownKept(l.drafts, l'.drafts, c.draftId, c.inputId);
    KnownKept(l.corrections, l'.corrections, c.correctionId, c.inputId);
    KnownKept(l.Of(c.target), l'.Of(c.target), c.targetId, c.inputId);
  }

  lemma UntouchedLedgerClean(rules: Rules, l: Ledgers, l': Ledgers, k: Kind)
    requires Grows(l, l') && l'.Of(k) == l.Of(k) && LedgerClean(rules, l, k)
    ensures LedgerClean(rules, l', k)
  {
    forall i | 0 <= i < |l.Of(k)| ensures Resolved(l', l.Of(k)[i].content) {
      ResolvedKept(l, l', l.Of(k)[i].content);
    }
  }

  /** An id whose stripped form is not taken by a bare id is a new one, padded or not. */
  lemma FreshIdUnique(rows: Rows, row: Row<Content>)
    requires UniqueIds(IdsOf(rows)) && (forall i :: 0 <= i < |rows| ==> Bare(rows[i].content.id))
    requires !HasId(rows, Strip(row.content.id))
    ensures UniqueIds(IdsOf(rows + [row]))
  {
    var ids, more := IdsOf(rows), IdsOf(rows + [row]);
    forall i | 0 <= i < |rows| ensures more[i] == ids[i] && Strip(more[i]) != Strip(row.content.id) {
      StripBare(rows[i].content.id);
    }
  }

  lemma WithGrows(l: Ledgers, k: Kind, rows': Rows)
    requires k != Unknown && l.Of(k) <= rows'
    ensures Grows(l, l.With(k, rows')) && l.With(k, rows').Of(k) == rows'
    ensures forall j :: j != k ==> l.With(k, rows').Of(j) == l.Of(j)
  {
  }

  lemma GrownLedgerClean(rules: Rules, l: Ledgers, l': Ledgers, k: Kind, row: Row<Content>)
    requires Grows(l, l') && LedgerClean(rules, l, k) && l'.Of(k) == l.Of(k) + [row]
    requires row.content.kind == k && rules.schema(row.content) && Resolved(l, row.content)
    requires UniqueIds(IdsOf(l.Of(k) + [row])) && ChainIntact(rules.hash, l.Of(k) + [row])
    ensures LedgerClean(rules, l', k)
  {
    forall i | 0 <= i < |l'.Of(k)| ensures Resolved(l', l'.Of(k)[i].content) {
      ResolvedKept(l, l', l'.Of(k)[i].content);
    }
  }

  /** A valid, resolved record under a new id leaves a clean state clean. */
  lemma RowKeepsClean(rules: Rules, l: Ledgers, k: Kind, row: Row<Content>)
    requires Clean(rules, l) && k != Unknown && BareIds(l, k)
    requires row.content.kind == k && rules.schema(row.content) && Resolved(l, row.content)
    requires !HasId(l.Of(k), Strip(row.content.id)) && ChainIntact(rules.hash, l.Of(k) + [row])
    ensures Clean(rules, l.With(k, l.Of(k) + [row]))
  {
    var l' := l.With(k, l.Of(k) + [row]);
    assert LedgerClean(rules, l, k);
    WithGrows(l, k, l.Of(k) + [row]);
    FreshIdUnique(l.Of(k), row);
    GrownLedgerClean(rules, l, l', k, row);
    forall j | j != Unknown && j != k ensures LedgerClean(rules, l', j) {
      assert LedgerClean(rules, l, j);
      UntouchedLedgerClean(rules, l, l', j);
    }
  }

  // ------------------------------------------------------------------ one append

  /** The state after writing the record, and after writing its event as well. */
  function WithRecord(rules: Rules, l: Ledgers, c: Content): Ledgers {
    l.With(c.kind, l.Of(c.kind) + [NewRow(rules.hash, l.Of(c.kind), c, c.at)])
  }

  function WithEvent(rules: Rules, l: Ledgers, c: Content): Ledgers {
    l.With(Event, l.events + [NewRow(rules.hash, l.events, EventOf(rules, c), c.at)])
  }

  lemma AcceptedWrites(rules: Rules, l: Ledgers, c: Content)
    requires Sound(rules) && Clean(rules, l) && GuardsPass(rules, l, c)
    ensures AfterAppend(rules, l, c) == WithEvent(rules, WithRecord(rules, l, c), c)
    ensures ChainIntact(rules.hash, l.Of(c.kind) + [NewRow(rules.hash, l.Of(c.kind), c, c.at)])
    ensures ChainIntact(rules.hash, l.events + [NewRow(rules.hash, l.events, EventOf(rules, c), c.at)])
  {
    assert LedgerClean(rules, l, c.kind) && LedgerClean(rules, l, Event);
    AppendedIntact(rules.hash, l.Of(c.kind), c, c.at);
    AppendedIntact(rules.hash, l.events, EventOf(rules, c), c.at);
  }

  /** An event under this id means that its record is there, under the stripped id. */
  lemma TracedRecord(rules: Rules, l: Ledgers, c: Content, e: Content)
    requires Sound(rules) && (forall k :: BareIds(l, k))
    requires Traced(rules, l, e) && e.id == rules.eventId(c.kind, Strip(c.id), c.at)
    ensures HasId(l.Of(c.kind), Strip(c.id))
  {
    var k, i :| k != Event && 0 <= i < |l.Of(k)| && RecordedBy(rules, l.Of(k)[i], k, e);
    assert BareIds(l, k);
    StripBare(l.Of(k)[i].content.id);
  }

  /** The id of a record's event is new: events stem from records, and this record is new. */
  lemma EventIsNew(rules: Rules, l: Ledgers, c: Content)
    requires Sound(rules) && Invariant(rules, l) && GuardsPass(rules, l, c)
    ensures !HasId(l.events, EventOf(rules, c).id)
  {
    assert LedgerClean(rules, l, c.kind);
    FindExactly(rules, l, c.kind, c.id);
    forall j | 0 <= j < |l.events| ensures l.events[j].content.id != EventOf(rules, c).id {
      if l.events[j].content.id == EventOf(rules, c).id {
        TracedRecord(rules, l, c, l.events[j].content);
      }
    }
  }

  lemma RecordKeepsClean(rules: Rules, l: Ledgers, c: Content)
    requires Sound(rules) && Invariant(rules, l) && GuardsPass(rules, l, c) && BareRefs(c)
    ensures Clean(rules, WithRecord(rules, l, c))
  {
    AcceptedWrites(rules, l, c);
    PassedIsResolved(rules, l, c);
    assert LedgerClean(rules, l, c.kind);
    FindExactly(rules, l, c.kind, c.id);
    RowKeepsClean(rules, l, c.kind, NewRow(rules.hash, l.Of(c.kind), c, c.at));
  }

  lemma AppendKeepsClean(rules: Rules, l: Ledgers, c: Content)
    requires Sound(rules) && Invariant(rules, l) && GuardsPass(rules, l, c) && BareRefs(c)
    ensures Clean(rules, AfterAppend(rules, l, c))
  {
    var mid, e := WithRecord(rules, l, c), EventOf(rules, c);
    RecordKeepsClean(rules, l, c);
    AcceptedWrites(rules, l, c);
    EventIsNew(rules, l, c);
    assert mid.events == l.events && BareIds(l, Event);
    StripBare(e.id);
    assert rules.schema(e) && Resolved(mid, e);
    RowKeepsClean(rules, mid, Event, NewRow(rules.hash, mid.events, e, c.at));
  }

  lemma TwoWrites(l: Ledgers, k: Kind, rows': Rows, events': Rows)
    requires k != Unknown && k != Event && l.Of(k) <= rows' && l.events <= events'
    ensures Grows(l, l.With(k, rows').With(Event, events'))
    ensures forall j :: j != k && j != Event ==> l.With(k, rows').With(Event, events').Of(j) == l.Of(j)
    ensures l.With(k, rows').With(Event, events').Of(k) == rows'
    ensures l.With(k, rows').With(Event, events').events == events'
  {
    WithGrows(l, k, rows');
    WithGrows(l.With(k, rows'), Event, events');
  }

  /** The ledgers of other kinds, and all rows from before, are as they were. */
  lemma AppendGrows(rules: Rules, l: Ledgers, c: Content)
    requires Sound(rules) && Clean(rules, l) && GuardsPass(rules, l, c)
    ensures Grows(l, AfterAppend(rules, l, c))
    ensures forall k :: k != c.kind && k != Event ==> AfterAppend(rules, l, c).Of(k) == l.Of(k)
    ensures AfterAppend(rules, l, c).Of(c.kind) == l.Of(c.kind) + [NewRow(rules.hash, l.Of(c.kind), c, c.at)]
    ensures AfterAppend(rules, l, c).events == l.events + [NewRow(rules.hash, l.events, EventOf(rules, c), c.at)]
  {
    AcceptedWrites(rules, l, c);
    var row, event := NewRow(rules.hash, l.Of(c.kind), c, c.at), NewRow(rules.hash, l.events, EventOf(rules, c), c.at);
    EventsUntouched(rules, l, c);
    TwoWrites(l, c.kind, l.Of(c.kind) + [row], l.events + [event]);
  }

  lemma EventsUntouched(rules: Rules, l: Ledgers, c: Content)
    requires c.kind != Event
    ensures WithRecord(rules, l, c).events == l.events
  {
  }

  /** What a guarded append does to a state with the invariant: it stays clean exactly when the
    * references are bare. Only the references matter; a padded id of its own does no harm yet.
    */
  lemma AppendExactly(rules: Rules, l: Ledgers, c: Content)
    requires Sound(rules) && Invariant(rules, l) && GuardsPass(rules, l, c)
    ensures Clean(rules, AfterAppend(rules, l, c)) <==> BareRefs(c)
  {
    if BareRefs(c) {
      AppendKeepsClean(rules, l, c);
    } else {
      var l', n := AfterAppend(rules, l, c), |l.Of(c.kind)|;
      AppendGrows(rules, l, c);
      NotResolvedLater(l, l', c);
      assert l'.Of(c.kind)[n].content == c;
      assert !LedgerClean(rules, l', c.kind);
    }
  }

  /** A padded reference stays unresolved: the ledgers it could point into did not change. */
  lemma NotResolvedLater(l: Ledgers, l': Ledgers, c: Content)
    requires (forall k :: BareIds(l, k)) && !BareRefs(c)
    requires forall k :: k != c.kind && k != Event ==> l'.Of(k) == l.Of(k)
    requires c.kind == Correction ==> !IsTarget(c.target) || l'.Of(c.target) == l.Of(c.target)
    ensures !Resolved(l', c)
  {
    PaddedIsUnresolved(l, c);
    assert c.kind != Input ==> l'.Of(Input) == l.Of(Input);
    assert c.kind != Classification ==> l'.Of(Classification) == l.Of(Classification);
    assert c.kind != Draft ==> l'.Of(Draft) == l.Of(Draft);
    assert c.kind != Correction ==> l'.Of(Correction) == l.Of(Correction);
  }

  lemma EventsStayTraced(rules: Rules, l: Ledgers, c: Content)
    requires Sound(rules) && Invariant(rules, l) && GuardsPass(rules, l, c)
    ensures forall j :: 0 <= j < |AfterAppend(rules, l, c).events| ==>
                          Traced(rules, AfterAppend(rules, l, c), AfterAppend(rules, l, c).events[j].content)
  {
    var l' := AfterAppend(rules, l, c);
    AppendGrows(rules, l, c);
    forall j | 0 <= j < |l'.events| ensures Traced(rules, l', l'.events[j].content) {
      if j < |l.events| {
        TracedStays(rules, l, l', l.events[j].content);
      } else {
        assert RecordedBy(rules, l'.Of(c.kind)[|l.Of(c.kind)|], c.kind, EventOf(rules, c));
      }
    }
  }

  lemma TracedStays(rules: Rules, l: Ledgers, l': Ledgers, e: Content)
    requires Grows(l, l') && Traced(rules, l, e)
    ensures Traced(rules, l', e)
  {
    var k, i :| k != Event && 0 <= i < |l.Of(k)| && RecordedBy(rules, l.Of(k)[i], k, e);
    assert l.Of(k) <= l'.Of(k);
    assert RecordedBy(rules, l'.Of(k)[i], k, e);
  }

  /** Records with a bare id and bare references keep the invariant, accepted or not. */
  lemma AppendKeepsInvariant(rules: Rules, l: Ledgers, c: Content)
    requires Sound(rules) && Invariant(rules, l) && Bare(c.id) && BareRefs(c)
    ensures Invariant(rules, AfterAppend(rules, l, c))
  {
    if GuardsPass(rules, l, c) {
      var l' := AfterAppend(rules, l, c);
      AppendKeepsClean(rules, l, c);
      EventsStayTraced(rules, l, c);
      AppendGrows(rules, l, c);
      forall k ensures BareIds(l', k) {
        BareIdsKept(rules, l, c, k);
      }
    }
  }

  /** Which ids the event of a record carries, by the kind of the record; all without surrounding whitespace but the
    * correction's.
    */
  lemma EventExactly(rules: Rules, c: Content)
    ensures var e := EventOf(rules, c);
            && e.kind == Event && e.target == c.kind && e.targetId == Strip(c.id) && e.at == c.at
            && e.id == rules.eventId(c.kind, Strip(c.id), c.at)
            && e.inputId == Strip(if c.kind == Input then c.id else c.inputId)
    ensures var e := EventOf(rules, c);
            match c.kind
            case Classification => e.classificationId == Strip(c.id) && e.draftId == [] && e.correctionId == []
            case Draft =>
              e.classificationId == Strip(c.classificationId) && e.draftId == Strip(c.id) && e.correctionId == []
            case Observation => e.classificationId == [] && e.draftId == Strip(c.draftId) && e.correctionId == []
            case Correction => e.classificationId == [] && e.draftId == [] && e.correctionId == c.id
            case Golden =>
              && e.classificationId == Strip(c.classificationId) && e.draftId == Strip(c.draftId)
              && e.correctionId == c.correctionId
            case _ => e.classificationId == [] && e.draftId == [] && e.correctionId == []
  {
    assert Strip("") == "";
  }

  /** Every id that an event carries is that of a record of the same input. */
  ghost predicate EventResolved(l: Ledgers, e: Content) {
    && HasId(l.inputs, e.inputId) && HasId(l.Of(e.target), e.targetId)
    && (e.classificationId != "" ==> KnownFor(l.classifications, e.classificationId, e.inputId))
    && (e.draftId != "" ==> KnownFor(l.drafts, e.draftId, e.inputId))
    && (e.correctionId != "" ==> KnownFor(l.corrections, e.correctionId, e.inputId))
  }

  lemma RecordIsThere(rules: Rules, l: Ledgers, c: Content)
    requires Sound(rules) && Clean(rules, l) && GuardsPass(rules, l, c) && c.kind != Event && c.kind != Unknown
    ensures HasId(AfterAppend(rules, l, c).Of(c.kind), c.id)
    ensures KnownFor(AfterAppend(rules, l, c).Of(c.kind), c.id, InputOf(c))
  {
    AppendGrows(rules, l, c);
    var rows := AfterAppend(rules, l, c).Of(c.kind);
    assert rows[|l.Of(c.kind)|].content == c;
  }

  /** After the append the references of the record are there, and so is the record itself. */
  ghost predicate RefersAfter(l: Ledgers, c: Content) {
    && HasId(l.inputs, InputOf(c)) && Bare(InputOf(c)) && KnownFor(l.Of(c.kind), c.id, InputOf(c))
    && (c.kind == Draft || c.kind == Golden ==> KnownFor(l.classifications, c.classificationId, c.inputId))
    && (c.kind == Observation ==> KnownFor(l.drafts, c.draftId, c.inputId))
    && (c.kind == Golden && c.draftId != "" ==> KnownFor(l.drafts, c.draftId, c.inputId))
    && (c.kind == Golden && c.correctionId != "" ==> KnownFor(l.corrections, c.correctionId, c.inputId))
  }

  lemma ResolvedRefers(l: Ledgers, l': Ledgers, c: Content)
    requires Resolved(l, c) && Grows(l, l') && c.kind != Event && c.kind != Unknown && c.kind != Input
    requires BareIds(l, Input) && KnownFor(l'.Of(c.kind), c.id, InputOf(c))
    ensures RefersAfter(l', c)
  {
    ResolvedKept(l, l', c);
    BareInput(l, c.inputId);
  }

  lemma ReferredResolved(rules: Rules, l: Ledgers, c: Content)
    requires RefersAfter(l, c) && Bare(c.id) && BareRefs(c) && c.kind != Event && c.kind != Unknown
    ensures EventResolved(l, EventOf(rules, c))
  {
    EventExactly(rules, c);
    StripBare(InputOf(c));
    StripBare(c.id);
    StripBare(c.classificationId);
    StripBare(c.draftId);
  }

  /** The event of an accepted bare record refers to what is there: the record itself and those it refers to. */
  lemma EventRefersBack(rules: Rules, l: Ledgers, c: Content)
    requires Sound(rules) && Invariant(rules, l) && GuardsPass(rules, l, c) && Bare(c.id) && BareRefs(c)
    requires c.kind != Event && c.kind != Unknown
    ensures EventResolved(AfterAppend(rules, l, c), EventOf(rules, c))
  {
    AppendGrows(rules, l, c);
    RecordIsThere(rules, l, c);
    PassedIsResolved(rules, l, c);
    if c.kind != Input {
      ResolvedRefers(l, AfterAppend(rules, l, c), c);
    }
    ReferredResolved(rules, AfterAppend(rules, l, c), c);
  }

  lemma BareIdsKept(rules: Rules, l: Ledgers, c: Content, k: Kind)
    requires Sound(rules) && Clean(rules, l) && GuardsPass(rules, l, c) && BareIds(l, k) && Bare(c.id)
    ensures BareIds(AfterAppend(rules, l, c), k)
  {
    AppendGrows(rules, l, c);
    if k == c.kind {
      BareMore(l, AfterAppend(rules, l, c), k, NewRow(rules.hash, l.Of(k), c, c.at));
    } else if k == Event {
      BareMore(l, AfterAppend(rules, l, c), k, NewRow(rules.hash, l.events, EventOf(rules, c), c.at));
    }
  }

  lemma BareMore(l: Ledgers, l': Ledgers, k: Kind, row: Row<Content>)
    requires BareIds(l, k) && l'.Of(k) == l.Of(k) + [row] && Bare(row.content.id)
    ensures BareIds(l', k)
  {
  }

  /** The central claim: any sequence of attempted appends of bare records leaves a clean state. */
  lemma {:induction false} ReachableClean(rules: Rules, cs: seq<Content>)
    requires Sound(rules) && forall i :: 0 <= i < |cs| ==> Bare(cs[i].id) && BareRefs(cs[i])
    ensures Invariant(rules, AfterAppends(rules, NOTHING, cs))
  {
    assert forall k :: NOTHING.Of(k) == [];
    if cs != [] {
      ReachableClean(rules, cs[..|cs| - 1]);
      AppendKeepsInvariant(rules, AfterAppends(rules, NOTHING, cs[..|cs| - 1]), cs[|cs| - 1]);
    }
  }

  // ------------------------------------------------------------------ padded ids

  lemma LookupUnchanged(rules: Rules, l: Ledgers, l': Ledgers, c: Content)
    requires forall k :: k != c.kind && k != Event ==> l'.Of(k) == l.Of(k)
    ensures ReferencesPass(rules, l', c) <==> ReferencesPass(rules, l, c)
  {
    assert forall k, id :: k != c.kind && k != Event ==> FindById(rules, l', k, id) == FindById(rules, l, k, id);
  }

  lemma TwoCopies(rows: Rows, n: nat, c: Content)
    requires n + 1 < |rows| && rows[n].content == c && rows[n + 1].content == c && Strip(c.id) != ""
    ensures !UniqueIds(IdsOf(rows))
  {
    assert IdsOf(rows)[n] == IdsOf(rows)[n + 1] == c.id;
  }

  lemma SecondCopy(rules: Rules, l: Ledgers, c: Content, n: nat)
    requires Sound(rules) && Clean(rules, l) && GuardsPass(rules, l, c)
    requires |l.Of(c.kind)| == n + 1 && l.Of(c.kind)[n].content == c
    ensures !Clean(rules, AfterAppend(rules, l, c))
  {
    var l' := AfterAppend(rules, l, c);
    AppendGrows(rules, l, c);
    assert WellShaped(c);
    TwoCopies(l'.Of(c.kind), n, c);
    assert !LedgerClean(rules, l', c.kind);
  }

  /** The duplicate guard after one more row: it looks for the stripped id among the ids as stored. */
  lemma SecondLookup(rules: Rules, l: Ledgers, l': Ledgers, c: Content, row: Row<Content>)
    requires LedgerClean(rules, l, c.kind) && LedgerClean(rules, l', c.kind)
        && FindById(rules, l, c.kind, c.id) == Missing
    requires l'.Of(c.kind) == l.Of(c.kind) + [row] && row.content == c
    ensures FindById(rules, l', c.kind, c.id) == Missing <==> !Bare(c.id)
  {
    FindExactly(rules, l, c.kind, c.id);
    FindExactly(rules, l', c.kind, c.id);
    StripBare(c.id);
    HasIdSnoc(l.Of(c.kind), row, Strip(c.id));
  }

  lemma HasIdSnoc(rows: Rows, row: Row<Content>, id: string)
    ensures HasId(rows + [row], id) <==> HasId(rows, id) || row.content.id == id
  {
    assert (rows + [row])[|rows|] == row;
    if i :| 0 <= i < |rows| && rows[i].content.id == id {
      assert (rows + [row])[i] == rows[i];
    }
  }

  lemma SecondGuard(rules: Rules, l: Ledgers, l': Ledgers, c: Content, row: Row<Content>)
    requires Clean(rules, l) && Clean(rules, l') && GuardsPass(rules, l, c)
    requires forall k :: k != c.kind && k != Event ==> l'.Of(k) == l.Of(k)
    requires l'.Of(c.kind) == l.Of(c.kind) + [row] && row.content == c
    ensures GuardsPass(rules, l', c) <==> !Bare(c.id)
  {
    LookupUnchanged(rules, l, l', c);
    assert LedgerClean(rules, l, c.kind) && LedgerClean(rules, l', c.kind);
    SecondLookup(rules, l, l', c, row);
  }

  /** The duplicate guard refuses a second copy of a record exactly when its id is bare; so a
    * padded id breaks the state on the second append, and only then.
    */
  lemma TwiceExactly(rules: Rules, l: Ledgers, c: Content)
    requires Sound(rules) && Invariant(rules, l) && GuardsPass(rules, l, c) && BareRefs(c)
    ensures GuardsPass(rules, AfterAppend(rules, l, c), c) <==> !Bare(c.id)
    ensures Clean(rules, AfterAppend(rules, AfterAppend(rules, l, c), c)) <==> Bare(c.id)
  {
    var l' := AfterAppend(rules, l, c);
    AppendKeepsClean(rules, l, c);
    AppendGrows(rules, l, c);
    SecondGuard(rules, l, l', c, NewRow(rules.hash, l.Of(c.kind), c, c.at));
    if !Bare(c.id) {
      SecondCopy(rules, l', c, |l.Of(c.kind)|);
    }
  }

  // ------------------------------------------------------------------ inputs that show it

  function Tag(k: Kind): char {
    match k
    case Input => 'i'
    case Classification => 'c'
    case Draft => 'd'
    case Observation => 'o'
    case Correction => 'r'
    case Golden => 'g'
    case Event => 'e'
    case Unknown => 'u'
  }

  /** A hash, a validator and an event id that meet the assumptions of all the laws. */
  const PLAIN := Rules((_, _, _) => "h", c => WellShaped(c), (k, id, _) => [Tag(k)] + id + ".")

  lemma PlainEventIds(k: Kind, id: string, at: string, k': Kind, id': string, at': string)
    ensures Bare(PLAIN.eventId(k, id, at))
    ensures PLAIN.eventId(k, id, at) == PLAIN.eventId(k', id', at') ==> k == k' && id == id'
  {
    var a, b := [Tag(k)] + id + ".", [Tag(k')] + id' + ".";
    assert a[0] == Tag(k) && b[0] == Tag(k') && a[|a| - 1] == '.';
    assert a[1..|a| - 1] == id && b[1..|b| - 1] == id';
  }

  lemma PlainEventsValid(c: Content)
    requires WellShaped(c)
    ensures WellShaped(EventOf(PLAIN, c))
  {
    PlainEventIds(c.kind, Strip(c.id), c.at, c.kind, Strip(c.id), c.at);
    StripBare(EventOf(PLAIN, c).id);
  }

  lemma PlainIsSound()
    ensures Sound(PLAIN)
  {
    forall c {:trigger EventOf(PLAIN, c)} | PLAIN.schema(c) && c.kind != Event ensures PLAIN.schema(EventOf(PLAIN, c)) {
      PlainEventsValid(c);
    }
    forall k, id, at ensures Bare(PLAIN.eventId(k, id, at)) {
      PlainEventIds(k, id, at, k, id, at);
    }
    forall k, id, at, k', id', at' | PLAIN.eventId(k, id, at) == PLAIN.eventId(k', id', at')
      ensures k == k' && id == id'
    {
      PlainEventIds(k, id, at, k', id', at');
    }
  }

  function InputNamed(id: string): Content {
    Content(Input, id, "", "", "", "", Unknown, "", false, false, "", "")
  }

  function ClassificationOf(id: string, inputId: string): Content {
    Content(Classification, id, inputId, "", "", "", Unknown, "", false, false, "", "")
  }

  lemma PaddedText()
    ensures Strip(" a") == "a" && Strip("a") == "a" && !Bare(" a") && Bare("a")
  {
    assert " a"[1..] == "a";
  }

  lemma FirstInput(id: string)
    requires Strip(id) != ""
    ensures Sound(PLAIN) && Invariant(PLAIN, NOTHING) && GuardsPass(PLAIN, NOTHING, InputNamed(id))
  {
    PlainIsSound();
    ReachableClean(PLAIN, []);
    assert NOTHING.Of(Input) == [];
  }

  /** From the empty state: an input, and then a classification of it whose reference is padded. The guards let
    * it pass, and the state is not clean.
    */
  lemma PaddedReferenceBreaks()
    ensures var l := AfterAppend(PLAIN, NOTHING, InputNamed("a"));
            && Invariant(PLAIN, l) && GuardsPass(PLAIN, l, ClassificationOf("c", " a"))
            && !Clean(PLAIN, AfterAppend(PLAIN, l, ClassificationOf("c", " a")))
  {
    var l, c := AfterAppend(PLAIN, NOTHING, InputNamed("a")), ClassificationOf("c", " a");
    PaddedText();
    FirstInput("a");
    AppendKeepsInvariant(PLAIN, NOTHING, InputNamed("a"));
    AppendGrows(PLAIN, NOTHING, InputNamed("a"));
    assert NOTHING.Of(Input) == [] && NOTHING.Of(Classification) == [];
    assert l.inputs[0].content.id == "a" && l.classifications == [];
    StripBare("c");
    InputFound(l, c);
    AppendExactly(PLAIN, l, c);
  }

  lemma InputFound(l: Ledgers, c: Content)
    requires Clean(PLAIN, l) && HasId(l.inputs, Strip(c.inputId)) && l.classifications == [] && c.kind == Classification
    requires WellShaped(c)
    ensures GuardsPass(PLAIN, l, c)
  {
    assert LedgerClean(PLAIN, l, Input) && LedgerClean(PLAIN, l, Classification);
    FindExactly(PLAIN, l, Input, c.inputId);
    FindExactly(PLAIN, l, Classification, c.id);
  }

  /** From the empty state: the same input twice, with a padded id. */
  lemma PaddedIdBreaks()
    ensures !Clean(PLAIN, AfterAppend(PLAIN, AfterAppend(PLAIN, NOTHING, InputNamed(" a")), InputNamed(" a")))
  {
    PaddedText();
    FirstInput(" a");
    TwiceExactly(PLAIN, NOTHING, InputNamed(" a"));
  }

  // ------------------------------------------------------------------ the store

  datatype Refusal =
    | InvalidRecord
    | UnknownReference(kind: Kind)
    | InputMismatch(kind: Kind)
    | UnsupportedTarget
    | DuplicateId
    | UnreadableLedger

  datatype Result = Done | Refused(why: Refusal)

  class Store {
    const rules: Rules
    var ledgers: Ledgers

    constructor (rules: Rules)
      ensures this.rules == rules && ledgers == NOTHING
    {
      this.rules, ledgers := rules, NOTHING;
    }

    method RequireInput(inputId: string) returns (r: Result)
      ensures r == Done <==> Present(rules, ledgers, Input, inputId)
    {
      var found := FindById(rules, ledgers, Input, inputId);
      r := match found
        case Found(_) => Done
        case Missing => Refused(UnknownReference(Input))
        case BrokenLedger => Refused(UnreadableLedger);
    }

    /** A reference that must exist and belong to the same input. */
    method RequireFor(k: Kind, id: string, inputId: string) returns (r: Result)
      ensures r == Done <==> PresentFor(rules, ledgers, k, id, inputId)
    {
      var found := FindById(rules, ledgers, k, id);
      r := match found
        case Found(record) => if InputOf(record) == inputId then Done else Refused(InputMismatch(k))
        case Missing => Refused(UnknownReference(k))
        case BrokenLedger => Refused(UnreadableLedger);
    }

    /** The reference guards of each append, in the order of the code. */
    method CheckReferences(c: Content) returns (r: Result)
      requires c.kind != Event && c.kind != Unknown
      ensures r == Done <==> ReferencesPass(rules, ledgers, c)
    {
      if c.kind == Input {
        return Done;
      }
      r := RequireInput(c.inputId);
      if r != Done {
        return;
      }
      match c.kind {
        case Draft => r := RequireFor(Classification, c.classificationId, c.inputId);
        case Observation => r := RequireFor(Draft, c.draftId, c.inputId);
        case Correction =>
          if !IsTarget(c.target) {
            return Refused(UnsupportedTarget);
          }
          r := RequireFor(c.target, c.targetId, c.inputId);
        case Golden =>
          r := RequireFor(Classification, c.classificationId, c.inputId);
          if r == Done && c.correctionId != "" {
            r := RequireFor(Correction, c.correctionId, c.inputId);
          }
          if r == Done && c.draftId != "" {
            r := RequireFor(Draft, c.draftId, c.inputId);
          }
        case _ =>
      }
    }

    /** The six `append_*` operations, each followed by `_append_event`. */
    method Append(c: Content) returns (r: Result)
      requires c.kind != Event && c.kind != Unknown
      modifies this
      ensures ledgers == AfterAppend(rules, old(ledgers), c)
      ensures r == Done ==> GuardsPass(rules, old(ledgers), c)
      ensures Sound(rules) && Invariant(rules, old(ledgers)) ==> (r == Done <==> GuardsPass(rules, old(ledgers), c))
      ensures Sound(rules) && Invariant(rules, old(ledgers)) && Bare(c.id) && BareRefs(c) ==> Invariant(rules, ledgers)
    {
      AppendCorrect(rules, ledgers, c);
      if !rules.schema(c) {
        return Refused(InvalidRecord);
      }
      r := CheckReferences(c);
      if r != Done {
        return;
      }
      var found := FindById(rules, ledgers, c.kind, c.id);
      if found != Missing {
        return Refused(if found.Found? then DuplicateId else UnreadableLedger);
      }
      r := Write(c);
    }

    method Write(c: Content) returns (r: Result)
      requires c.kind != Event && c.kind != Unknown && GuardsPass(rules, ledgers, c)
      modifies this
      ensures ledgers == AfterAppend(rules, old(ledgers), c)
      ensures Sound(rules) && Invariant(rules, old(ledgers)) ==> r == Done
    {
      WriteSucceeds(rules, ledgers, c);
      var rows := Appended(rules.hash, ledgers.Of(c.kind), c, c.at);
      if rows.None? {
        return Refused(UnreadableLedger);
      }
      ledgers := ledgers.With(c.kind, rows.value);
      var events := Appended(rules.hash, ledgers.events, EventOf(rules, c), c.at);
      if events.None? {
        return Refused(UnreadableLedger);
      }
      ledgers := ledgers.(events := events.value);
      return Done;
    }
  }

  lemma AppendCorrect(rules: Rules, l: Ledgers, c: Content)
    ensures Sound(rules) && Invariant(rules, l) && Bare(c.id) && BareRefs(c) ==>
        Invariant(rules, AfterAppend(rules, l, c))
  {
    if Sound(rules) && Invariant(rules, l) && Bare(c.id) && BareRefs(c) {
      AppendKeepsInvariant(rules, l, c);
    }
  }

  lemma WriteSucceeds(rules: Rules, l: Ledgers, c: Content)
    requires GuardsPass(rules, l, c)
    ensures Sound(rules) && Invariant(rules, l) ==>
              Appended(rules.hash, l.Of(c.kind), c, c.at).Some?
                  && Appended(rules.hash, l.events, EventOf(rules, c), c.at).Some?
  {
    if Sound(rules) && Invariant(rules, l) {
      assert LedgerClean(rules, l, c.kind) && LedgerClean(rules, l, Event);
      AppendedIntact(rules.hash, l.Of(c.kind), c, c.at);
      AppendedIntact(rules.hash, l.events, EventOf(rules, c), c.at);
    }
  }

  // ------------------------------------------------------------------ the reconciler

  datatype Issue =
    | TypeMismatch(ledger: Kind, line: nat)
    | SchemaFailed(ledger: Kind, line: nat)
    | ExternalActionAllowed(ledger: Kind, line: nat)
    | IrreversibleActionAllowed(ledger: Kind, line: nat)
    | RepeatedId(ledger: Kind, line: nat)
    | HashProblem(ledger: Kind, problem: HashIssue)
    | UnknownInput(ledger: Kind, line: nat)
    | UnknownTarget(ledger: Kind, line: nat, kind: Kind)
    | TargetMismatch(ledger: Kind, line: nat, kind: Kind)

  function RecordIssues(rules: Rules, k: Kind, c: Content, line: nat): seq<Issue> {
    if c.kind != k then [TypeMismatch(k, line)]
    else
      (if !rules.schema(c) then [SchemaFailed(k, line)] else [])
      + (if c.external then [ExternalActionAllowed(k, line)] else [])
      + (if c.irreversible then [IrreversibleActionAllowed(k, line)] else [])
  }

  /** Each issue about a record exactly under its condition; a record of another kind has just the one. */
  lemma RecordIssuesExactly(rules: Rules, k: Kind, c: Content, line: nat, issue: Issue)
    ensures issue in RecordIssues(rules, k, c, line) <==>
              || (issue == TypeMismatch(k, line) && c.kind != k)
              || (issue == SchemaFailed(k, line) && c.kind == k && !rules.schema(c))
              || (issue == ExternalActionAllowed(k, line) && c.kind == k && c.external)
              || (issue == IrreversibleActionAllowed(k, line) && c.kind == k && c.irreversible)
  {
  }

  lemma NoRecordIssue(rules: Rules, k: Kind, c: Content, line: nat)
    requires Sound(rules)
    ensures RecordIssues(rules, k, c, line) == [] <==> c.kind == k && rules.schema(c)
  {
    if rules.schema(c) {
      assert WellShaped(c);
    }
  }

  /** `_validate_records` and `_detect_flag_issues` on one ledger. */
  method ValidateRecords(rules: Rules, k: Kind, rows: Rows) returns (issues: seq<Issue>)
    requires Sound(rules)
    ensures issues == [] <==> ValidRows(rules, k, rows)
  {
    issues := [];
    for i := 0 to |rows|
      invariant issues == [] <==> forall j :: 0 <= j < i ==> ValidRow(rules, k, rows[j])
    {
      NoRecordIssue(rules, k, rows[i].content, i);
      issues := issues + RecordIssues(rules, k, rows[i].content, i);
    }
  }

  method DetectDuplicates(k: Kind, rows: Rows) returns (issues: seq<Issue>)
    ensures issues == [] <==> UniqueIds(IdsOf(rows))
  {
    var repeated := DetectDuplicateIds(IdsOf(rows));
    issues := seq(|repeated|, i requires 0 <= i < |repeated| => RepeatedId(k, repeated[i]));
  }

  method DetectHashes(rules: Rules, k: Kind, rows: Rows) returns (issues: seq<Issue>)
    ensures issues == [] <==> ChainIntact(rules.hash, rows)
  {
    var problems := DetectHashIssues(rules.hash, rows);
    issues := seq(|problems|, i requires 0 <= i < |problems| => HashProblem(k, problems[i]));
  }

  /** The dictionary of the first `n` records by id, in which a later record replaces an earlier one. */
  function ByIdUpTo(rows: Rows, n: nat): map<string, Content>
    requires n <= |rows|
  {
    if n == 0 then map[] else ByIdUpTo(rows, n - 1)[rows[n - 1].content.id := rows[n - 1].content]
  }

  function ById(rows: Rows): map<string, Content> {
    ByIdUpTo(rows, |rows|)
  }

  lemma {:induction false} ByIdFinds(rows: Rows, n: nat, id: string)
    requires n <= |rows|
    ensures id in ByIdUpTo(rows, n) <==> exists i :: 0 <= i < n && rows[i].content.id == id
    ensures id in ByIdUpTo(rows, n) ==>
              exists i :: 0 <= i < n && rows[i].content == ByIdUpTo(rows, n)[id] && rows[i].content.id == id
  {
    if n > 0 {
      ByIdFinds(rows, n - 1, id);
    }
  }

  predicate KnownIn(m: map<string, Content>, id: string, inputId: string) {
    id in m && InputOf(m[id]) == inputId
  }

  lemma OnlyOne(rules: Rules, k: Kind, rows: Rows, i: nat, j: nat)
    requires Sound(rules) && ValidRows(rules, k, rows) && UniqueIds(IdsOf(rows))
    requires i < |rows| && j < |rows| && rows[i].content.id == rows[j].content.id
    ensures i == j
  {
    assert ValidRow(rules, k, rows[i]) && WellShaped(rows[i].content);
    assert IdsOf(rows)[i] == IdsOf(rows)[j];
  }

  /** With distinct ids the dictionary forgets nothing. */
  lemma ByIdExactly(rules: Rules, k: Kind, rows: Rows, id: string, inputId: string)
    requires Sound(rules) && ValidRows(rules, k, rows) && UniqueIds(IdsOf(rows))
    ensures KnownIn(ById(rows), id, inputId) <==> KnownFor(rows, id, inputId)
  {
    ByIdFinds(rows, |rows|, id);
    if id in ById(rows) {
      var i :| 0 <= i < |rows| && rows[i].content == ById(rows)[id] && rows[i].content.id == id;
      forall j | 0 <= j < |rows| && rows[j].content.id == id ensures j == i {
        OnlyOne(rules, k, rows, i, j);
      }
    }
  }

  /** One lookup of the reference detector: nothing, an unknown target, or one of another input. */
  function LookupIssues(m: map<string, Content>, k: Kind, line: nat, target: Kind, id: string,
      inputId: string): seq<Issue> {
    if id !in m then [UnknownTarget(k, line, target)]
    else if InputOf(m[id]) != inputId then [TargetMismatch(k, line, target)]
    else []
  }

  datatype Index = Index(
    inputs: map<string, Content>, classifications: map<string, Content>, drafts: map<string, Content>,
    observations: map<string, Content>, corrections: map<string, Content>)
  {
    function Of(k: Kind): map<string, Content> {
      match k
      case Input => inputs
      case Classification => classifications
      case Draft => drafts
      case Observation => observations
      case Correction => corrections
      case _ => map[]
    }
  }

  function IndexOf(l: Ledgers): Index {
    Index(ById(l.inputs), ById(l.classifications), ById(l.drafts), ById(l.observations), ById(l.corrections))
  }

  function ReferenceIssues(index: Index, k: Kind, c: Content, line: nat): seq<Issue> {
    if k == Input || k == Event || k == Unknown then []
    else
      var unknown := if c.inputId !in index.inputs then [UnknownInput(k, line)] else [];
      match k
      case Draft =>
        unknown + LookupIssues(index.classifications, k, line, Classification, c.classificationId, c.inputId)
      case Observation => unknown + LookupIssues(index.drafts, k, line, Draft, c.draftId, c.inputId)
      case Correction =>
        if unknown != [] then unknown
        else if !IsTarget(c.target) then [UnknownTarget(k, line, c.target)]
        else LookupIssues(index.Of(c.target), k, line, c.target, c.targetId, c.inputId)
      case Golden => unknown + GoldenIssues(index, c, line)
      case _ => unknown
  }

  function GoldenIssues(index: Index, c: Content, line: nat): seq<Issue> {
    LookupIssues(index.classifications, Golden, line, Classification, c.classificationId, c.inputId)
    + (if c.correctionId != ""
       then LookupIssues(index.corrections, Golden, line, Correction, c.correctionId, c.inputId) else [])
    + (if c.draftId != "" then LookupIssues(index.drafts, Golden, line, Draft, c.draftId, c.inputId) else [])
  }

  ghost predicate Distinct(rules: Rules, l: Ledgers) {
    forall k :: k != Unknown ==> ValidRows(rules, k, l.Of(k)) && UniqueIds(IdsOf(l.Of(k)))
  }

  lemma NoLookupIssue(rules: Rules, l: Ledgers, k: Kind, line: nat, target: Kind, id: string, inputId: string)
    requires Sound(rules) && Distinct(rules, l) && target != Unknown
    ensures LookupIssues(ById(l.Of(target)), k, line, target, id, inputId) == [] <==>
        KnownFor(l.Of(target), id, inputId)
  {
    ByIdExactly(rules, target, l.Of(target), id, inputId);
  }

  lemma IndexAt(l: Ledgers, k: Kind)
    requires IsTarget(k)
    ensures IndexOf(l).Of(k) == ById(l.Of(k))
  {
  }

  lemma NoGoldenIssue(rules: Rules, l: Ledgers, c: Content, line: nat)
    requires Sound(rules) && Distinct(rules, l)
    ensures GoldenIssues(IndexOf(l), c, line) == [] <==> GoldenResolved(l, c)
  {
    var index := IndexOf(l);
    var first := LookupIssues(index.classifications, Golden, line, Classification, c.classificationId, c.inputId);
    var second := LookupIssues(index.corrections, Golden, line, Correction, c.correctionId, c.inputId);
    var third := LookupIssues(index.drafts, Golden, line, Draft, c.draftId, c.inputId);
    assert first == [] <==> KnownFor(l.classifications, c.classificationId, c.inputId) by {
      NoLookupIssue(rules, l, Golden, line, Classification, c.classificationId, c.inputId);
    }
    assert second == [] <==> KnownFor(l.corrections, c.correctionId, c.inputId) by {
      NoLookupIssue(rules, l, Golden, line, Correction, c.correctionId, c.inputId);
    }
    assert third == [] <==> KnownFor(l.drafts, c.draftId, c.inputId) by {
      NoLookupIssue(rules, l, Golden, line, Draft, c.draftId, c.inputId);
    }
    assert GoldenIssues(index, c, line)
        == first + (if c.correctionId != "" then second else []) + (if c.draftId != "" then third else []);
  }

  /** With valid records and distinct ids, no issue means that the record is resolved. */
  lemma NoReferenceIssue(rules: Rules, l: Ledgers, c: Content, line: nat)
    requires Sound(rules) && Distinct(rules, l)
    ensures ReferenceIssues(IndexOf(l), c.kind, c, line) == [] <==> Resolved(l, c)
  {
    ByIdFinds(l.inputs, |l.inputs|, c.inputId);
    match c.kind {
      case Draft => NoLookupIssue(rules, l, Draft, line, Classification, c.classificationId, c.inputId);
      case Observation => NoLookupIssue(rules, l, Observation, line, Draft, c.draftId, c.inputId);
      case Correction =>
        if IsTarget(c.target) {
          NoLookupIssue(rules, l, Correction, line, c.target, c.targetId, c.inputId);
          IndexAt(l, c.target);
        }
      case Golden => NoGoldenIssue(rules, l, c, line);
      case _ =>
    }
  }

  /** The detector has nothing to say about any row. */
  predicate Unblamed(index: Index, k: Kind, rows: Rows) {
    forall j {:trigger ReferenceIssues(index, k, rows[j].content, j)} :: 0 <= j < |rows| ==>
      ReferenceIssues(index, k, rows[j].content, j) == []
  }

  lemma UnblamedExactly(rules: Rules, l: Ledgers, k: Kind)
    requires Sound(rules) && Distinct(rules, l) && k != Unknown
    ensures Unblamed(IndexOf(l), k, l.Of(k)) <==> ResolvedRows(l, l.Of(k))
  {
    var rows := l.Of(k);
    forall j | 0 <= j < |rows|
      ensures ReferenceIssues(IndexOf(l), k, rows[j].content, j) == [] <==> Resolved(l, rows[j].content)
    {
      assert ValidRow(rules, k, rows[j]);
      NoReferenceIssue(rules, l, rows[j].content, j);
    }
  }

  /** The loop of every detector over the rows of a ledger. */
  method CollectIssues(report: (Content, nat) -> seq<Issue>, rows: Rows) returns (issues: seq<Issue>)
    ensures issues == [] <==> forall j :: 0 <= j < |rows| ==> report(rows[j].content, j) == []
  {
    issues := [];
    for i := 0 to |rows|
      invariant issues == [] <==> forall j :: 0 <= j < i ==> report(rows[j].content, j) == []
    {
      issues := issues + report(rows[i].content, i);
    }
  }

  /** `_detect_reference_issues` on one ledger, with the dictionaries of all ledgers. */
  method DetectReferences(index: Index, k: Kind, rows: Rows) returns (issues: seq<Issue>)
    ensures issues == [] <==> Unblamed(index, k, rows)
  {
    issues := CollectIssues((c: Content, line: nat) => ReferenceIssues(index, k, c, line), rows);
  }

  const LEDGER_ORDER: seq<Kind> := [Input, Classification, Draft, Observation, Correction, Golden, Event]

  lemma InOrder(k: Kind)
    ensures k in LEDGER_ORDER <==> k != Unknown
  {
    match k {
      case Input => assert LEDGER_ORDER[0] == k;
      case Classification => assert LEDGER_ORDER[1] == k;
      case Draft => assert LEDGER_ORDER[2] == k;
      case Observation => assert LEDGER_ORDER[3] == k;
      case Correction => assert LEDGER_ORDER[4] == k;
      case Golden => assert LEDGER_ORDER[5] == k;
      case Event => assert LEDGER_ORDER[6] == k;
      case Unknown =>
    }
  }

  method ValidateAll(rules: Rules, l: Ledgers, order: seq<Kind>) returns (issues: seq<Issue>)
    requires Sound(rules)
    ensures issues == [] <==> forall k :: k in order ==> ValidRows(rules, k, l.Of(k))
  {
    issues := [];
    for i := 0 to |order|
      invariant issues == [] <==> forall j :: 0 <= j < i ==> ValidRows(rules, order[j], l.Of(order[j]))
    {
      var more := ValidateRecords(rules, order[i], l.Of(order[i]));
      issues := issues + more;
    }
  }

  method HashesAndDuplicates(rules: Rules, l: Ledgers, order: seq<Kind>) returns (issues: seq<Issue>)
    ensures issues == [] <==> forall k :: k in order ==> IntactAndUnique(rules, l, k)
  {
    issues := [];
    for i := 0 to |order|
      invariant issues == [] <==> forall j :: 0 <= j < i ==> IntactAndUnique(rules, l, order[j])
    {
      var hashes := DetectHashes(rules, order[i], l.Of(order[i]));
      var duplicates := DetectDuplicates(order[i], l.Of(order[i]));
      issues := issues + hashes + duplicates;
    }
  }

  ghost predicate IntactAndUnique(rules: Rules, l: Ledgers, k: Kind) {
    ChainIntact(rules.hash, l.Of(k)) && UniqueIds(IdsOf(l.Of(k)))
  }

  predicate AllUnblamed(l: Ledgers) {
    var index := IndexOf(l);
    && Unblamed(index, Classification, l.classifications) && Unblamed(index, Draft, l.drafts)
    && Unblamed(index, Observation, l.observations) && Unblamed(index, Correction, l.corrections)
    && Unblamed(index, Golden, l.goldens)
  }

  method AllReferences(l: Ledgers) returns (issues: seq<Issue>)
    ensures issues == [] <==> AllUnblamed(l)
  {
    var index := IndexOf(l);
    var classifications := DetectReferences(index, Classification, l.classifications);
    var drafts := DetectReferences(index, Draft, l.drafts);
    var observations := DetectReferences(index, Observation, l.observations);
    var corrections := DetectReferences(index, Correction, l.corrections);
    var goldens := DetectReferences(index, Golden, l.goldens);
    issues := classifications + drafts + observations + corrections + goldens;
  }

  lemma UnblamedIsResolved(rules: Rules, l: Ledgers, k: Kind)
    requires Sound(rules) && Distinct(rules, l) && AllUnblamed(l) && k != Unknown
    ensures ResolvedRows(l, l.Of(k))
  {
    if k == Input || k == Event {
      FreeOfReferences(rules, l, k);
    } else {
      assert Unblamed(IndexOf(l), k, l.Of(k));
      UnblamedExactly(rules, l, k);
    }
  }

  lemma ResolvedIsUnblamed(rules: Rules, l: Ledgers)
    requires Sound(rules) && Distinct(rules, l) && forall k :: k != Unknown ==> ResolvedRows(l, l.Of(k))
    ensures AllUnblamed(l)
  {
    forall k | k != Unknown ensures Unblamed(IndexOf(l), k, l.Of(k)) {
      UnblamedExactly(rules, l, k);
    }
    assert l.Of(Classification) == l.classifications && l.Of(Draft) == l.drafts && l.Of(Observation) == l.observations;
    assert l.Of(Correction) == l.corrections && l.Of(Golden) == l.goldens;
  }

  /** With valid records and distinct ids everywhere, the detector is silent exactly when all references of all
    * ledgers are resolved.
    */
  lemma AllUnblamedExactly(rules: Rules, l: Ledgers)
    requires Sound(rules) && Distinct(rules, l)
    ensures AllUnblamed(l) <==> forall k :: k != Unknown ==> ResolvedRows(l, l.Of(k))
  {
    if AllUnblamed(l) {
      forall k | k != Unknown ensures ResolvedRows(l, l.Of(k)) {
        UnblamedIsResolved(rules, l, k);
      }
    }
    if forall k :: k != Unknown ==> ResolvedRows(l, l.Of(k)) {
      ResolvedIsUnblamed(rules, l);
    }
  }

  lemma FreeOfReferences(rules: Rules, l: Ledgers, k: Kind)
    requires Distinct(rules, l) && (k == Input || k == Event)
    ensures ResolvedRows(l, l.Of(k))
  {
    forall j | 0 <= j < |l.Of(k)| ensures Resolved(l, l.Of(k)[j].content) {
      assert ValidRow(rules, k, l.Of(k)[j]);
    }
  }

  /** What the three stages of the reconciler find, taken together, is that the state is clean. */
  lemma StagesExactly(rules: Rules, l: Ledgers)
    requires Sound(rules)
    ensures Clean(rules, l) <==>
              && (forall k :: k in LEDGER_ORDER ==> ValidRows(rules, k, l.Of(k)))
              && (forall k :: k in LEDGER_ORDER ==> IntactAndUnique(rules, l, k))
              && AllUnblamed(l)
  {
    forall k ensures k in LEDGER_ORDER <==> k != Unknown {
      InOrder(k);
    }
    forall k ensures LedgerClean(rules, l, k) <==>
      ValidRows(rules, k, l.Of(k)) && IntactAndUnique(rules, l, k) && ResolvedRows(l, l.Of(k)) {
    }
    if
      && (forall k :: k != Unknown ==> ValidRows(rules, k, l.Of(k)))
      && (forall k :: k != Unknown ==> IntactAndUnique(rules, l, k))
    {
      AllUnblamedExactly(rules, l);
    }
  }

  /** `reconcile_reflective_pressure_state`. Hashes, ids and references are looked at only when every
    * record is valid, and yet no failure is reported exactly when the state is clean.
    */
  method Reconcile(rules: Rules, l: Ledgers) returns (failures: seq<Issue>)
    requires Sound(rules)
    ensures failures == [] <==> Clean(rules, l)
  {
    StagesExactly(rules, l);
    failures := ValidateAll(rules, l, LEDGER_ORDER);
    if failures == [] {
      var content := HashesAndDuplicates(rules, l, LEDGER_ORDER);
      var references := AllReferences(l);
      failures := content + references;
    }
  }
}
