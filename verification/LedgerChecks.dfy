/** The JSONL record store shared by the two reflective ledgers, and the two checks that both of
  * their reconcilers perform on every ledger: hash chains and duplicate ids.
  */
module LedgerChecks {
  import opened Text
  import opened Wrappers

  /** A stored record: the caller's content and the fields that `append_record` adds. */
  datatype Row<C> = Row(content: C, recordedAt: string, prevHash: Option<string>, recordHash: string)

  /** The hash of a record without its own hash. */
  type RecordHash<!C> = (C, string, Option<string>) -> string

  /** Hashes are never blank and carry no whitespace. */
  ghost predicate HashLike<C(!new)>(hash: RecordHash<C>) {
    forall c, at, prev :: hash(c, at, prev) != "" && Bare(hash(c, at, prev))
  }

  /** The hash that the record at position `i` has to link to. */
  function HashAt<C>(rows: seq<Row<C>>, i: nat): Option<string>
    requires i <= |rows|
  {
    if i == 0 then None else Some(rows[i - 1].recordHash)
  }

  predicate Chained<C>(hash: RecordHash<C>, row: Row<C>, prev: Option<string>) {
    row.recordHash == hash(row.content, row.recordedAt, row.prevHash) && row.prevHash == prev
  }

  predicate ChainedAt<C>(hash: RecordHash<C>, rows: seq<Row<C>>, i: nat)
    requires i < |rows|
  {
    Chained(hash, rows[i], HashAt(rows, i))
  }

  /** Every record carries its own hash and that of the record before it. */
  ghost predicate ChainIntact<C>(hash: RecordHash<C>, rows: seq<Row<C>>) {
    forall i :: 0 <= i < |rows| ==> ChainedAt(hash, rows, i)
  }

  /** The record as it is written after the given rows. */
  function NewRow<C>(hash: RecordHash<C>, rows: seq<Row<C>>, c: C, at: string): Row<C> {
    var prev := if rows == [] then None else Some(Strip(rows[|rows| - 1].recordHash));
    Row(c, at, prev, hash(c, at, prev))
  }

  /** `append_record`: refuses when the last record has no usable hash. */
  function Appended<C>(hash: RecordHash<C>, rows: seq<Row<C>>, c: C, at: string): Option<seq<Row<C>>> {
    if rows != [] && Strip(rows[|rows| - 1].recordHash) == "" then None
    else Some(rows + [NewRow(hash, rows, c, at)])
  }

  /** An append is refused exactly behind a record whose hash is blank; otherwise it adds the content with its time, the
    * stripped hash of the record before it, and the hash of all that.
    */
  lemma AppendedExactly<C>(hash: RecordHash<C>, rows: seq<Row<C>>, c: C, at: string)
    ensures Appended(hash, rows, c, at).None? <==> rows != [] && Strip(rows[|rows| - 1].recordHash) == []
    ensures Appended(hash, rows, c, at).Some? ==>
              var more := Appended(hash, rows, c, at).value;
              && |more| == |rows| + 1 && rows <= more
              && more[|rows|].content == c && more[|rows|].recordedAt == at
              && (rows == [] ==> more[|rows|].prevHash == None)
              && (rows != [] ==> more[|rows|].prevHash == Some(Strip(rows[|rows| - 1].recordHash)))
              && more[|rows|].recordHash == hash(c, at, more[|rows|].prevHash)
  {
  }

  lemma ChainSnoc<C(!new)>(hash: RecordHash<C>, rows: seq<Row<C>>, row: Row<C>)
    ensures ChainIntact(hash, rows + [row]) <==> ChainIntact(hash, rows) && Chained(hash, row, HashAt(rows, |rows|))
  {
    var more := rows + [row];
    assert ChainedAt(hash, more, |rows|) <==> Chained(hash, row, HashAt(rows, |rows|));
    forall i | 0 <= i < |rows| ensures ChainedAt(hash, more, i) <==> ChainedAt(hash, rows, i) {
      assert more[i] == rows[i];
    }
  }

  /** An append to an intact ledger is never refused and keeps it intact. */
  lemma AppendedIntact<C(!new)>(hash: RecordHash<C>, rows: seq<Row<C>>, c: C, at: string)
    requires HashLike(hash) && ChainIntact(hash, rows)
    ensures Appended(hash, rows, c, at) == Some(rows + [NewRow(hash, rows, c, at)])
    ensures ChainIntact(hash, rows + [NewRow(hash, rows, c, at)])
  {
    if rows != [] {
      assert ChainedAt(hash, rows, |rows| - 1);
      StripBare(rows[|rows| - 1].recordHash);
    }
    ChainSnoc(hash, rows, NewRow(hash, rows, c, at));
  }

  // ------------------------------------------------------------------ the checks

  datatype HashIssue = RecordHashMismatch(line: nat) | PrevHashMismatch(line: nat)

  predicate WrongHash<C>(hash: RecordHash<C>, row: Row<C>) {
    row.recordHash != hash(row.content, row.recordedAt, row.prevHash)
  }

  /** The issues name exactly the offending ones of the first `n` lines. */
  ghost predicate Names<C>(hash: RecordHash<C>, rows: seq<Row<C>>, n: nat, issues: seq<HashIssue>)
    requires n <= |rows|
  {
    && (forall i: nat :: RecordHashMismatch(i) in issues <==> i < n && WrongHash(hash, rows[i]))
    && (forall i: nat :: PrevHashMismatch(i) in issues <==> i < n && rows[i].prevHash != HashAt(rows, i))
  }

  function IssuesAt<C>(hash: RecordHash<C>, row: Row<C>, prev: Option<string>, line: nat): seq<HashIssue> {
    (if WrongHash(hash, row) then [RecordHashMismatch(line)] else [])
    + (if row.prevHash != prev then [PrevHashMismatch(line)] else [])
  }

  lemma NamesOneMore<C(!new)>(hash: RecordHash<C>, rows: seq<Row<C>>, n: nat, issues: seq<HashIssue>)
    requires n < |rows| && Names(hash, rows, n, issues)
    ensures Names(hash, rows, n + 1, issues + IssuesAt(hash, rows[n], HashAt(rows, n), n))
  {
    var more := IssuesAt(hash, rows[n], HashAt(rows, n), n);
    forall i: nat ensures RecordHashMismatch(i) in more <==> i == n && WrongHash(hash, rows[n]) {
    }
    forall i: nat ensures PrevHashMismatch(i) in more <==> i == n && rows[n].prevHash != HashAt(rows, n) {
    }
  }

  /** `_detect_hash_issues` on one ledger: it names exactly the offending lines. */
  method DetectHashIssues<C(!new)>(hash: RecordHash<C>, rows: seq<Row<C>>) returns (issues: seq<HashIssue>)
    ensures Names(hash, rows, |rows|, issues)
    ensures issues == [] <==> ChainIntact(hash, rows)
  {
    issues := [];
    var previous: Option<string> := None;
    var i := 0;
    while i < |rows|
      invariant 0 <= i <= |rows| && previous == HashAt(rows, i)
      invariant Names(hash, rows, i, issues)
    {
      NamesOneMore(hash, rows, i, issues);
      issues := issues + IssuesAt(hash, rows[i], previous, i);
      previous := Some(rows[i].recordHash);
      i := i + 1;
    }
    NoIssueMeansIntact(hash, rows, issues);
  }

  lemma NoIssueMeansIntact<C(!new)>(hash: RecordHash<C>, rows: seq<Row<C>>, issues: seq<HashIssue>)
    requires Names(hash, rows, |rows|, issues)
    ensures issues == [] <==> ChainIntact(hash, rows)
  {
    if issues == [] {
      forall i: nat | i < |rows| ensures ChainedAt(hash, rows, i) {
        assert RecordHashMismatch(i) !in issues && PrevHashMismatch(i) !in issues;
      }
    } else {
      var first := issues[0];
      assert first in issues;
      match first {
        case RecordHashMismatch(n) => assert !ChainedAt(hash, rows, n);
        case PrevHashMismatch(n) => assert !ChainedAt(hash, rows, n);
      }
    }
  }

  /** No two records of a ledger share an id, up to surrounding whitespace; blank ids do not count. */
  ghost predicate UniqueIds(ids: seq<string>) {
    forall i, j :: 0 <= i < j < |ids| && Strip(ids[i]) != "" ==> Strip(ids[i]) != Strip(ids[j])
  }

  predicate Repeats(ids: seq<string>, n: nat)
    requires n < |ids|
  {
    Strip(ids[n]) != "" && exists j :: 0 <= j < n && Strip(ids[j]) == Strip(ids[n])
  }

  /** `_detect_duplicate_ids` on one ledger: every line whose id an earlier line has. */
  method DetectDuplicateIds(ids: seq<string>) returns (repeated: seq<nat>)
    ensures forall n: nat :: n in repeated <==> n < |ids| && Repeats(ids, n)
    ensures repeated == [] <==> UniqueIds(ids)
  {
    repeated := [];
    var seen: map<string, nat> := map[];
    var i := 0;
    while i < |ids|
      invariant 0 <= i <= |ids|
      invariant forall v :: v in seen <==> v != "" && exists j :: 0 <= j < i && Strip(ids[j]) == v
      invariant forall n: nat :: n in repeated <==> n < i && Repeats(ids, n)
    {
      var value := Strip(ids[i]);
      if value != "" {
        if value in seen {
          repeated := repeated + [i];
        } else {
          seen := seen[value := i];
        }
      }
      i := i + 1;
    }
    NoRepeatMeansUnique(ids, repeated);
  }

  lemma NoRepeatMeansUnique(ids: seq<string>, repeated: seq<nat>)
    requires forall n: nat :: n in repeated <==> n < |ids| && Repeats(ids, n)
    ensures repeated == [] <==> UniqueIds(ids)
  {
    if repeated == [] {
      forall i, j | 0 <= i < j < |ids| && Strip(ids[i]) != "" ensures Strip(ids[i]) != Strip(ids[j]) {
        assert j !in repeated;
        assert !Repeats(ids, j);
      }
    } else {
      var n := repeated[0];
      assert n in repeated && Repeats(ids, n);
    }
  }
}
