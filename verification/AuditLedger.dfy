/** The governed shell's hash-chained audit ledger.
  * The hash over canonical JSON and the JSON-schema check are parameters of the ledger. Only the
  * tamper-evidence theorem assumes that the hash has no collisions.
  */
module AuditLedger {
  import opened Wrappers
  import Sealing

  /** An event; `content` stands for the canonical JSON of the remaining fields. */
  datatype Event = Event(
    eventId: string, eventIndex: int, eventType: string, content: string,
    prevHash: string, recordHash: string)

  /** What is hashed: the event without its own hash. */
  datatype Material = Material(eventId: string, eventIndex: int, eventType: string, content: string, prevHash: string)

  function Strip(e: Event): Material {
    Material(e.eventId, e.eventIndex, e.eventType, e.content, e.prevHash)
  }

  /** One line of the JSONL file. */
  datatype Line = Blank | Malformed | NonObject | Object(event: Event)

  const ZERO_HASH := "sha256:0000000000000000000000000000000000000000000000000000000000000000"

  /** The hash function and the schema validator in force. */
  datatype Rules = Rules(hash: Material -> string, schema: Event -> bool)

  /** The schema's hash pattern rules out the empty string. */
  ghost predicate Sound(rules: Rules) {
    forall e :: rules.schema(e) ==> e.recordHash != ""
  }

  /** The hash that the event at position `i` has to link to. */
  function HashAt(lines: seq<Line>, i: nat): string
    requires i <= |lines|
  {
    if i > 0 && lines[i - 1].Object? then lines[i - 1].event.recordHash else ZERO_HASH
  }

  function Head(lines: seq<Line>): string {
    HashAt(lines, |lines|)
  }

  predicate Linked(rules: Rules, e: Event, index: int, prevHash: string) {
    rules.schema(e) && e.eventIndex == index && e.prevHash == prevHash && e.recordHash == rules.hash(Strip(e))
  }

  predicate LinkedAt(rules: Rules, lines: seq<Line>, i: nat)
    requires i < |lines|
  {
    lines[i].Object? && Linked(rules, lines[i].event, i, HashAt(lines, i))
  }

  /** Every line is a valid event that carries its position, its predecessor's hash and its own. */
  ghost predicate Clean(rules: Rules, lines: seq<Line>) {
    forall i :: 0 <= i < |lines| ==> LinkedAt(rules, lines, i)
  }

  // ------------------------------------------------------------------ tamper evidence

  lemma SameHashSameEvent(rules: Rules, a: seq<Line>, b: seq<Line>, i: nat, j: nat)
    requires Sealing.CollisionFree(rules.hash) && 0 < i <= |a| && 0 < j <= |b|
    requires LinkedAt(rules, a, i - 1) && LinkedAt(rules, b, j - 1) && HashAt(a, i) == HashAt(b, j)
    ensures i == j && a[i - 1] == b[j - 1] && HashAt(a, i - 1) == HashAt(b, j - 1)
  {
    assert rules.hash(Strip(a[i - 1].event)) == rules.hash(Strip(b[j - 1].event));
    assert Strip(a[i - 1].event) == Strip(b[j - 1].event);
  }

  /** Equal hashes at two positions mean equal positions and equal events before them. */
  lemma {:induction false} SameHashSamePrefix(rules: Rules, a: seq<Line>, b: seq<Line>, i: nat, j: nat)
    requires Sealing.CollisionFree(rules.hash) && Clean(rules, a) && Clean(rules, b)
    requires 0 < i <= |a| && 0 < j <= |b| && HashAt(a, i) == HashAt(b, j)
    ensures i == j && forall k :: 0 <= k < i ==> a[k] == b[k]
    decreases i
  {
    assert LinkedAt(rules, a, i - 1) && LinkedAt(rules, b, j - 1);
    SameHashSameEvent(rules, a, b, i, j);
    if i > 1 {
      SameHashSamePrefix(rules, a, b, i - 1, j - 1);
    }
    forall k | 0 <= k < i ensures a[k] == b[k] {
      assert k == i - 1 || k < i - 1;
    }
  }

  /** Two non-empty clean ledgers that end in the same hash are the same ledger. */
  lemma SameHeadSameLedger(rules: Rules, a: seq<Line>, b: seq<Line>)
    requires Sealing.CollisionFree(rules.hash) && Clean(rules, a) && Clean(rules, b)
    requires a != [] && b != [] && Head(a) == Head(b)
    ensures a == b
  {
    SameHashSamePrefix(rules, a, b, |a|, |b|);
  }

  lemma CleanSnoc(rules: Rules, lines: seq<Line>, e: Event)
    ensures Clean(rules, lines + [Object(e)]) <==> Clean(rules, lines) && Linked(rules, e, |lines|, Head(lines))
  {
    var more := lines + [Object(e)];
    assert HashAt(more, |lines|) == Head(lines);
    assert LinkedAt(rules, more, |lines|) <==> Linked(rules, e, |lines|, Head(lines));
    forall i | 0 <= i < |lines| ensures LinkedAt(rules, more, i) <==> LinkedAt(rules, lines, i) {
      assert more[i] == lines[i];
    }
  }

  predicate ValidLine(rules: Rules, line: Line) {
    line.Object? && rules.schema(line.event)
  }

  // ------------------------------------------------------------------ appending, as a function

  datatype Found = Nothing | Previous(event: Event) | Unreadable

  /** `_read_last_locked_event`: the last line that is not blank, if it can be used. */
  function LastEvent(rules: Rules, lines: seq<Line>): Found {
    if lines == [] then Nothing
    else match lines[|lines| - 1]
      case Blank => LastEvent(rules, lines[..|lines| - 1])
      case Object(e) => if rules.schema(e) then Previous(e) else Unreadable
      case _ => Unreadable
  }

  /** The event as it is written after `previous`. */
  function Sealed(rules: Rules, e: Event, previous: Found): Event {
    var chained := e.(prevHash := if previous.Previous? then previous.event.recordHash else ZERO_HASH);
    chained.(recordHash := rules.hash(Strip(chained)))
  }

  predicate Accepted(rules: Rules, e: Event, previous: Found) {
    && previous != Unreadable
    && e.eventIndex == (if previous.Previous? then previous.event.eventIndex + 1 else 0)
    && rules.schema(Sealed(rules, e, previous))
  }

  /** The lines after an attempted append; a refused event changes nothing. */
  function AfterAppend(rules: Rules, lines: seq<Line>, e: Event): seq<Line> {
    var previous := LastEvent(rules, lines);
    if Accepted(rules, e, previous) then lines + [Object(Sealed(rules, e, previous))] else lines
  }

  /** The lines behind position `i` are blank, and the line there is not; -1 stands for no such line. */
  predicate LastWritten(lines: seq<Line>, i: int) {
    && -1 <= i < |lines| && (i >= 0 ==> !lines[i].Blank?)
    && forall j :: i < j < |lines| ==> lines[j].Blank?
  }

  /** Which event can follow, and what is written: the last line that is not blank has to be a valid event, the new
    * one carries the next index, points back to it, and its own hash covers all of that.
    */
  lemma {:induction false} AcceptedExactly(rules: Rules, lines: seq<Line>, e: Event, i: int)
    requires LastWritten(lines, i)
    ensures i >= 0 && !ValidLine(rules, lines[i]) ==> !Accepted(rules, e, LastEvent(rules, lines))
    ensures i < 0 || ValidLine(rules, lines[i]) ==>
              var index := if i >= 0 then lines[i].event.eventIndex + 1 else 0;
              var prev := if i >= 0 then lines[i].event.recordHash else ZERO_HASH;
              var hash := rules.hash(Material(e.eventId, e.eventIndex, e.eventType, e.content, prev));
              var written := Event(e.eventId, e.eventIndex, e.eventType, e.content, prev, hash);
              && Sealed(rules, e, LastEvent(rules, lines)) == written
              && (Accepted(rules, e, LastEvent(rules, lines)) <==> e.eventIndex == index && rules.schema(written))
    decreases |lines|
  {
    if lines != [] && i < |lines| - 1 {
      assert lines[|lines| - 1].Blank?;
      AcceptedExactly(rules, lines[..|lines| - 1], e, i);
    }
  }

  lemma LastEventOfClean(rules: Rules, lines: seq<Line>)
    requires Clean(rules, lines)
    ensures lines == [] ==> LastEvent(rules, lines) == Nothing
    ensures lines != [] ==>
              var last := lines[|lines| - 1];
              last.Object? && LastEvent(rules, lines) == Previous(last.event) && last.event.eventIndex == |lines| - 1
  {
    if lines != [] {
      assert LinkedAt(rules, lines, |lines| - 1);
    }
  }

  /** On a clean ledger the length is exactly the index an append demands. */
  lemma AcceptedOnClean(rules: Rules, lines: seq<Line>, e: Event)
    requires Clean(rules, lines)
    ensures var previous := LastEvent(rules, lines);
            Accepted(rules, e, previous) <==> e.eventIndex == |lines| && rules.schema(Sealed(rules, e, previous))
  {
    LastEventOfClean(rules, lines);
  }

  /** An accepted append gives a clean ledger exactly when the lines were clean before. */
  lemma AppendCleanIff(rules: Rules, lines: seq<Line>, e: Event)
    ensures Clean(rules, AfterAppend(rules, lines, e)) <==> Clean(rules, lines)
  {
    var previous := LastEvent(rules, lines);
    if Accepted(rules, e, previous) {
      CleanSnoc(rules, lines, Sealed(rules, e, previous));
      if Clean(rules, lines) {
        LastEventOfClean(rules, lines);
      }
    }
  }

  function AfterAppends(rules: Rules, lines: seq<Line>, events: seq<Event>): seq<Line> {
    if events == [] then lines
    else AfterAppend(rules, AfterAppends(rules, lines, events[..|events| - 1]), events[|events| - 1])
  }

  /** Every ledger built by any sequence of attempted appends is clean. */
  lemma {:induction false} ReachableIsClean(rules: Rules, events: seq<Event>)
    ensures Clean(rules, AfterAppends(rules, [], events))
  {
    if events != [] {
      var before := events[..|events| - 1];
      ReachableIsClean(rules, before);
      AppendCleanIff(rules, AfterAppends(rules, [], before), events[|events| - 1]);
    }
  }

  // ------------------------------------------------------------------ the ledger file

  datatype Issue =
    | LedgerMissing
    | MalformedLine(line: nat)
    | NonObjectLine(line: nat)
    | SchemaInvalid(line: nat)
    | NonMonotonicIndex(line: nat)
    | BrokenPrevHash(line: nat)
    | RecordHashMismatch(line: nat)

  datatype Verification = Verification(clean: bool, eventCount: nat, issues: seq<Issue>, lastRecordHash: Option<string>)

  datatype Outcome<T> = Ok(value: T) | Refused

  /** The issues `verify_audit_chain` raises about one valid event. */
  function LinkIssues(rules: Rules, e: Event, index: int, prevHash: string, line: nat): seq<Issue> {
    (if e.eventIndex != index then [NonMonotonicIndex(line)] else [])
    + (if e.prevHash != prevHash then [BrokenPrevHash(line)] else [])
    + (if e.recordHash != rules.hash(Strip(e)) then [RecordHashMismatch(line)] else [])
  }

  function UnreadableIssue(line: Line, number: nat): Issue {
    match line
    case NonObject => NonObjectLine(number)
    case Object(_) => SchemaInvalid(number)
    case _ => MalformedLine(number)
  }

  /** What is wrong with the links of one of the first `n` lines, which are valid events. */
  predicate RealLinkIssue(rules: Rules, lines: seq<Line>, n: nat, issue: Issue)
    requires n <= |lines|
  {
    match issue
    case NonMonotonicIndex(line) =>
      0 < line <= n && lines[line - 1].Object? && lines[line - 1].event.eventIndex != line - 1
    case BrokenPrevHash(line) =>
      0 < line <= n && lines[line - 1].Object? && lines[line - 1].event.prevHash != HashAt(lines, line - 1)
    case RecordHashMismatch(line) =>
      && 0 < line <= n && lines[line - 1].Object?
      && lines[line - 1].event.recordHash != rules.hash(Strip(lines[line - 1].event))
    case _ => false
  }

  /** What is wrong with a ledger file whose first `n` lines are valid events, and whose next one, if any, is not. */
  predicate RealIssue(rules: Rules, lines: seq<Line>, n: nat, issue: Issue)
    requires n <= |lines|
  {
    match issue
    case LedgerMissing => false
    case MalformedLine(line) => line == n + 1 <= |lines| && (lines[n].Blank? || lines[n].Malformed?)
    case NonObjectLine(line) => line == n + 1 <= |lines| && lines[n].NonObject?
    case SchemaInvalid(line) => line == n + 1 <= |lines| && lines[n].Object?
    case _ => RealLinkIssue(rules, lines, n, issue)
  }

  /** A valid line raises no issue exactly when it is linked. */
  lemma NoLinkIssue(rules: Rules, lines: seq<Line>, i: nat)
    requires i < |lines| && ValidLine(rules, lines[i])
    ensures LinkIssues(rules, lines[i].event, i, HashAt(lines, i), i + 1) == [] <==> LinkedAt(rules, lines, i)
  {
  }

  /** The link issues of the first `n` lines, in order. */
  function LinkIssuesUpTo(rules: Rules, lines: seq<Line>, n: nat): seq<Issue>
    requires n <= |lines|
  {
    if n == 0 then []
    else
      var before := LinkIssuesUpTo(rules, lines, n - 1);
      if lines[n - 1].Object?
      then before + LinkIssues(rules, lines[n - 1].event, n - 1, HashAt(lines, n - 1), n)
      else before
  }

  lemma InLinkIssues(rules: Rules, e: Event, index: int, prevHash: string, line: nat, issue: Issue)
    ensures issue in LinkIssues(rules, e, index, prevHash, line) <==>
              || (issue == NonMonotonicIndex(line) && e.eventIndex != index)
              || (issue == BrokenPrevHash(line) && e.prevHash != prevHash)
              || (issue == RecordHashMismatch(line) && e.recordHash != rules.hash(Strip(e)))
  {
  }

  lemma OneLineMore(rules: Rules, lines: seq<Line>, n: nat, issue: Issue)
    requires n < |lines|
    ensures RealLinkIssue(rules, lines, n + 1, issue) <==>
              || RealLinkIssue(rules, lines, n, issue)
              || (lines[n].Object? && issue in LinkIssues(rules, lines[n].event, n, HashAt(lines, n), n + 1))
  {
    if lines[n].Object? {
      InLinkIssues(rules, lines[n].event, n, HashAt(lines, n), n + 1, issue);
    }
  }

  lemma {:induction false} LinkIssuesExactly(rules: Rules, lines: seq<Line>, n: nat, issue: Issue)
    requires n <= |lines|
    ensures issue in LinkIssuesUpTo(rules, lines, n) <==> RealLinkIssue(rules, lines, n, issue)
  {
    if n > 0 {
      LinkIssuesExactly(rules, lines, n - 1, issue);
      OneLineMore(rules, lines, n - 1, issue);
    }
  }

  lemma {:induction false} NoIssuesExactly(rules: Rules, lines: seq<Line>, n: nat)
    requires n <= |lines| && forall k :: 0 <= k < n ==> ValidLine(rules, lines[k])
    ensures LinkIssuesUpTo(rules, lines, n) == [] <==> forall k :: 0 <= k < n ==> LinkedAt(rules, lines, k)
  {
    if n > 0 {
      NoIssuesExactly(rules, lines, n - 1);
      NoLinkIssue(rules, lines, n - 1);
      assert LinkIssuesUpTo(rules, lines, n) == LinkIssuesUpTo(rules, lines, n - 1)
          + LinkIssues(rules, lines[n - 1].event, n - 1, HashAt(lines, n - 1), n);
    }
  }

  /** The issue about the line that ended the reading, if there is one. */
  function LastIssue(lines: seq<Line>, n: nat): seq<Issue>
    requires n <= |lines|
  {
    if n < |lines| then [UnreadableIssue(lines[n], n + 1)] else []
  }

  lemma LastIssueExactly(rules: Rules, lines: seq<Line>, n: nat, issue: Issue)
    requires n <= |lines|
    ensures issue in LastIssue(lines, n) <==>
        RealIssue(rules, lines, n, issue) && !RealLinkIssue(rules, lines, n, issue)
  {
  }

  lemma AllIssues(rules: Rules, lines: seq<Line>, n: nat)
    requires n <= |lines| && forall k :: 0 <= k < n ==> ValidLine(rules, lines[k])
    requires n < |lines| ==> !ValidLine(rules, lines[n])
    ensures forall issue :: issue in LinkIssuesUpTo(rules, lines, n) + LastIssue(lines, n) <==>
                              RealIssue(rules, lines, n, issue)
    ensures LinkIssuesUpTo(rules, lines, n) + LastIssue(lines, n) == [] <==> Clean(rules, lines)
  {
    forall issue
      ensures issue in LinkIssuesUpTo(rules, lines, n) + LastIssue(lines, n) <==> RealIssue(rules, lines, n, issue)
    {
      LinkIssuesExactly(rules, lines, n, issue);
      LastIssueExactly(rules, lines, n, issue);
    }
    NoIssuesExactly(rules, lines, n);
    if n < |lines| {
      assert !LinkedAt(rules, lines, n);
    }
  }

  class Ledger {
    const rules: Rules
    var exists_: bool
    var lines: seq<Line>

    ghost predicate Valid()
      reads this
    {
      Sound(rules) && (!exists_ ==> lines == [])
    }

    /** What `verify_audit_chain` calls clean: there is a file, and its lines are. */
    ghost predicate Verifies()
      reads this
    {
      exists_ && Clean(rules, lines)
    }

    constructor (rules: Rules)
      requires Sound(rules)
      ensures Valid() && !exists_ && lines == [] && this.rules == rules
    {
      this.rules, exists_, lines := rules, false, [];
    }

    /** `append_audit_event`. Opening for append creates the file even when the event is refused. */
    method Append(e: Event) returns (r: Outcome<Event>)
      requires Valid()
      modifies this
      ensures Valid() && exists_
      ensures lines == AfterAppend(rules, old(lines), e)
      ensures r.Ok? <==> Accepted(rules, e, LastEvent(rules, old(lines)))
      ensures r.Ok? ==> r.value == Sealed(rules, e, LastEvent(rules, old(lines)))
      ensures lines == if r.Ok? then old(lines) + [Object(r.value)] else old(lines)
      // a file verifies afterwards exactly when it did before or there was none, accepted or not
      ensures Verifies() <==> old(Verifies()) || !old(exists_)
    {
      AppendCleanIff(rules, lines, e);
      exists_ := true;
      var n := |lines|;
      assert lines[..n] == lines;
      while n > 0 && lines[n - 1].Blank?
        invariant 0 <= n <= |lines|
        invariant LastEvent(rules, lines) == LastEvent(rules, lines[..n])
      {
        assert lines[..n][..n - 1] == lines[..n - 1];
        n := n - 1;
      }
      var previous := Nothing;
      if n > 0 {
        if !ValidLine(rules, lines[n - 1]) {
          return Refused;
        }
        previous := Previous(lines[n - 1].event);
      }
      var expected := if previous.Previous? then previous.event.eventIndex + 1 else 0;
      if e.eventIndex != expected {
        return Refused;
      }
      var written := Sealed(rules, e, previous);
      if !rules.schema(written) {
        return Refused;
      }
      lines := lines + [Object(written)];
      return Ok(written);
    }

    /** `verify_audit_chain`: stops at an unreadable line, otherwise collects every issue. */
    method Verify() returns (v: Verification)
      requires Valid()
      ensures v.clean <==> Verifies()
      ensures v.clean <==> v.issues == []
      ensures v.clean ==> v.eventCount == |lines|
      // the count and the head are those of the lines up to the first unreadable one
      ensures v.eventCount <= |lines|
      ensures v.lastRecordHash == if v.eventCount == 0 then None else Some(HashAt(lines, v.eventCount))
      ensures exists_ ==> forall i :: 0 <= i < v.eventCount ==> ValidLine(rules, lines[i])
      ensures exists_ && v.eventCount < |lines| ==> !ValidLine(rules, lines[v.eventCount])
      // every issue is named with its line, and each one named is there
      ensures !exists_ ==> v.issues == [LedgerMissing]
      ensures exists_ ==> forall issue :: issue in v.issues <==> RealIssue(rules, lines, v.eventCount, issue)
    {
      if !exists_ {
        return Verification(false, 0, [LedgerMissing], None);
      }
      var issues: seq<Issue> := [];
      var expectedPrev, last := ZERO_HASH, None;
      var i := 0;
      while i < |lines|
        invariant 0 <= i <= |lines|
        invariant forall k :: 0 <= k < i ==> ValidLine(rules, lines[k])
        invariant issues == LinkIssuesUpTo(rules, lines, i)
        invariant expectedPrev == HashAt(lines, i)
        invariant last == if i == 0 then None else Some(expectedPrev)
      {
        if !ValidLine(rules, lines[i]) {
          AllIssues(rules, lines, i);
          return Verification(false, i, issues + [UnreadableIssue(lines[i], i + 1)], last);
        }
        var e := lines[i].event;
        issues := issues + LinkIssues(rules, e, i, expectedPrev, i + 1);
        expectedPrev := if e.recordHash != "" then e.recordHash else expectedPrev;
        last := Some(e.recordHash);
        i := i + 1;
      }
      AllIssues(rules, lines, i);
      assert issues + LastIssue(lines, i) == issues;
      return Verification(issues == [], |lines|, issues, last);
    }

    /** `read_audit_events`: all events, or a refusal when any line is not a valid event. */
    method ReadEvents() returns (r: Outcome<nat>)
      requires Valid()
      ensures r.Ok? <==> exists_ && forall i :: 0 <= i < |lines| ==> ValidLine(rules, lines[i])
      ensures r.Ok? ==> r.value == |lines|
    {
      if !exists_ {
        return Refused;
      }
      for i := 0 to |lines|
        invariant forall k :: 0 <= k < i ==> ValidLine(rules, lines[k])
      {
        if !ValidLine(rules, lines[i]) {
          return Refused;
        }
      }
      return Ok(|lines|);
    }

    /** `_next_event_index` of the executor. */
    method NextEventIndex() returns (r: Outcome<nat>)
      requires Valid()
      ensures r.Ok? ==> r.value == |lines|
      ensures r.Ok? <==> forall i :: 0 <= i < |lines| ==> ValidLine(rules, lines[i])
      ensures Clean(rules, lines) ==> r.Ok?
    {
      CleanIsValid(rules, lines);
      if !exists_ {
        return Ok(0);
      }
      r := ReadEvents();
    }
  }

  lemma CleanIsValid(rules: Rules, lines: seq<Line>)
    ensures Clean(rules, lines) ==> forall i :: 0 <= i < |lines| ==> ValidLine(rules, lines[i])
  {
    if Clean(rules, lines) {
      forall i | 0 <= i < |lines| ensures ValidLine(rules, lines[i]) {
        assert LinkedAt(rules, lines, i);
      }
    }
  }
}
