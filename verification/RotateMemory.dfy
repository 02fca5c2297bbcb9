/** Monthly rotation of the memory index and the outcome log into append-only shard files.
  * The shard key is any function of the timestamp. A file is the sequence of its entries.
  */
module RotateMemory {

  datatype Entry = Entry(runId: string, createdUtc: string, outcomeKind: string, body: string)

  datatype Log = IndexLog | OutcomeLog

  /** What entries of a log are deduplicated by; index entries without a run id are not. */
  datatype Key = NoKey | Key(parts: seq<string>)

  function KeyOf(log: Log, e: Entry): Key {
    match log
    case IndexLog => if e.runId == "" then NoKey else Key([e.runId])
    case OutcomeLog => Key([e.runId, e.createdUtc, e.outcomeKind])
  }

  /** Entries of the index have the same key exactly when they have the same run id, if they have one; outcomes exactly
    * when run id, time and kind agree.
    */
  lemma SameKeyExactly(a: Entry, b: Entry)
    ensures KeyOf(IndexLog, a).NoKey? <==> a.runId == ""
    ensures a.runId != "" ==> (KeyOf(IndexLog, a) == KeyOf(IndexLog, b) <==> a.runId == b.runId)
    ensures KeyOf(OutcomeLog, a).Key?
    ensures KeyOf(OutcomeLog, a) == KeyOf(OutcomeLog, b) <==>
              a.runId == b.runId && a.createdUtc == b.createdUtc && a.outcomeKind == b.outcomeKind
  {
    var x, y := [a.runId, a.createdUtc, a.outcomeKind], [b.runId, b.createdUtc, b.outcomeKind];
    assert x == y <==> x[0] == y[0] && x[1] == y[1] && x[2] == y[2];
    assert a.runId != "" && b.runId != "" ==> ([a.runId] == [b.runId] <==> [a.runId][0] == [b.runId][0]);
  }

  type Shards = map<string, seq<Entry>>

  function File(shards: Shards, k: string): seq<Entry> {
    if k in shards then shards[k] else []
  }

  /** The keys found in a file: what the lazily loaded seen set starts from. */
  function KeysIn(log: Log, file: seq<Entry>): set<Key> {
    set e | e in file && KeyOf(log, e).Key? :: KeyOf(log, e)
  }

  predicate Skips(log: Log, file: seq<Entry>, e: Entry) {
    KeyOf(log, e).Key? && KeyOf(log, e) in KeysIn(log, file)
  }

  function AppendUnlessSeen(log: Log, file: seq<Entry>, e: Entry): seq<Entry> {
    if Skips(log, file, e) then file else file + [e]
  }

  /** One file after offering it a sequence of entries. */
  function Deduped(log: Log, file: seq<Entry>, es: seq<Entry>): seq<Entry> {
    if es == [] then file
    else AppendUnlessSeen(log, Deduped(log, file, es[..|es| - 1]), es[|es| - 1])
  }

  /** The entries routed to one shard, in order. */
  function Routed(shardKey: string -> string, es: seq<Entry>, k: string): seq<Entry> {
    if es == [] then []
    else
      var rest, e := Routed(shardKey, es[..|es| - 1], k), es[|es| - 1];
      if shardKey(e.createdUtc) == k then rest + [e] else rest
  }

  function Step(log: Log, shardKey: string -> string, shards: Shards, e: Entry): Shards {
    var k := shardKey(e.createdUtc);
    var file := File(shards, k);
    if Skips(log, file, e) then shards else shards[k := file + [e]]
  }

  /** All shards after rotating a source file. */
  function Rotated(log: Log, shardKey: string -> string, shards: Shards, es: seq<Entry>): Shards {
    if es == [] then shards
    else Step(log, shardKey, Rotated(log, shardKey, shards, es[..|es| - 1]), es[|es| - 1])
  }

  /** How many of the entries are skipped. */
  function Skipped(log: Log, shardKey: string -> string, shards: Shards, es: seq<Entry>): nat {
    if es == [] then 0
    else
      var before, e := es[..|es| - 1], es[|es| - 1];
      var file := File(Rotated(log, shardKey, shards, before), shardKey(e.createdUtc));
      Skipped(log, shardKey, shards, before) + (if Skips(log, file, e) then 1 else 0)
  }

  // ------------------------------------------------------------------ what rotation does to each shard

  lemma DedupedSnoc(log: Log, file: seq<Entry>, es: seq<Entry>, e: Entry)
    ensures Deduped(log, file, es + [e]) == AppendUnlessSeen(log, Deduped(log, file, es), e)
  {
    assert (es + [e])[..|es|] == es;
  }

  lemma StepInShard(log: Log, shardKey: string -> string, shards: Shards, e: Entry, k: string)
    ensures File(Step(log, shardKey, shards, e), k) ==
            if shardKey(e.createdUtc) == k then AppendUnlessSeen(log, File(shards, k), e) else File(shards, k)
  {
  }

  /** Each shard sees exactly the entries routed to it, and only those. */
  lemma {:induction false} PerShard(log: Log, shardKey: string -> string, shards: Shards, es: seq<Entry>, k: string)
    ensures File(Rotated(log, shardKey, shards, es), k) == Deduped(log, File(shards, k), Routed(shardKey, es, k))
  {
    if es != [] {
      var before, e := es[..|es| - 1], es[|es| - 1];
      PerShard(log, shardKey, shards, before, k);
      StepInShard(log, shardKey, Rotated(log, shardKey, shards, before), e, k);
      DedupedSnoc(log, File(shards, k), Routed(shardKey, before, k), e);
    }
  }

  /** Files only grow, by a suffix. */
  lemma {:induction false} DedupedGrows(log: Log, file: seq<Entry>, es: seq<Entry>)
    ensures file <= Deduped(log, file, es)
  {
    if es != [] {
      DedupedGrows(log, file, es[..|es| - 1]);
    }
  }

  ghost predicate UniqueKeys(log: Log, file: seq<Entry>) {
    forall i, j :: 0 <= i < j < |file| && KeyOf(log, file[i]).Key? ==> KeyOf(log, file[i]) != KeyOf(log, file[j])
  }

  lemma {:induction false} DedupedUnique(log: Log, file: seq<Entry>, es: seq<Entry>)
    requires UniqueKeys(log, file)
    ensures UniqueKeys(log, Deduped(log, file, es))
  {
    if es != [] {
      var before, e := Deduped(log, file, es[..|es| - 1]), es[|es| - 1];
      DedupedUnique(log, file, es[..|es| - 1]);
      forall i | 0 <= i < |before| && KeyOf(log, before[i]).Key? && !Skips(log, before, e)
        ensures KeyOf(log, before[i]) != KeyOf(log, e)
      {
        assert before[i] in before;
        assert KeyOf(log, before[i]) in KeysIn(log, before);
      }
    }
  }

  lemma KeysGrow(log: Log, file: seq<Entry>, more: seq<Entry>)
    requires file <= more
    ensures KeysIn(log, file) <= KeysIn(log, more)
  {
    forall key | key in KeysIn(log, file) ensures key in KeysIn(log, more) {
      var e :| e in file && KeyOf(log, e).Key? && KeyOf(log, e) == key;
      assert e in more;
    }
  }

  /** No keyed entry is lost. */
  lemma {:induction false} DedupedCovers(log: Log, file: seq<Entry>, es: seq<Entry>, e: Entry)
    requires e in es && KeyOf(log, e).Key?
    ensures KeyOf(log, e) in KeysIn(log, Deduped(log, file, es))
  {
    var before, last := es[..|es| - 1], es[|es| - 1];
    assert es == before + [last];
    var mid := Deduped(log, file, before);
    if e == last {
      assert !Skips(log, mid, e) ==> e in mid + [e];
    } else {
      DedupedCovers(log, file, before, e);
      KeysGrow(log, mid, Deduped(log, file, es));
    }
  }

  function Unkeyed(log: Log, es: seq<Entry>): seq<Entry> {
    if es == [] then []
    else Unkeyed(log, es[..|es| - 1]) + (if KeyOf(log, es[|es| - 1]) == NoKey then [es[|es| - 1]] else [])
  }

  /** Offering entries whose keys are all there appends exactly the ones without a key. */
  lemma {:induction false} OnlyUnkeyed(log: Log, file: seq<Entry>, es: seq<Entry>)
    requires forall e :: e in es && KeyOf(log, e).Key? ==> KeyOf(log, e) in KeysIn(log, file)
    ensures Deduped(log, file, es) == file + Unkeyed(log, es)
  {
    if es != [] {
      var before, last := es[..|es| - 1], es[|es| - 1];
      assert es == before + [last];
      OnlyUnkeyed(log, file, before);
      KeysGrow(log, file, file + Unkeyed(log, before));
    }
  }

  lemma RotatedTwiceInShard(log: Log, file: seq<Entry>, es: seq<Entry>)
    ensures Deduped(log, Deduped(log, file, es), es) == Deduped(log, file, es) + Unkeyed(log, es)
  {
    var once := Deduped(log, file, es);
    forall e | e in es && KeyOf(log, e).Key? ensures KeyOf(log, e) in KeysIn(log, once) {
      DedupedCovers(log, file, es, e);
    }
    OnlyUnkeyed(log, once, es);
  }

  /** Rotating the same source again writes, per shard, exactly its entries without a key. */
  lemma SecondRotation(log: Log, shardKey: string -> string, shards: Shards, es: seq<Entry>, k: string)
    ensures var once := Rotated(log, shardKey, shards, es);
            File(Rotated(log, shardKey, once, es), k) == File(once, k) + Unkeyed(log, Routed(shardKey, es, k))
  {
    PerShard(log, shardKey, shards, es, k);
    PerShard(log, shardKey, Rotated(log, shardKey, shards, es), es, k);
    RotatedTwiceInShard(log, File(shards, k), Routed(shardKey, es, k));
  }

  lemma {:induction false} OutcomesAlwaysKeyed(es: seq<Entry>)
    ensures Unkeyed(OutcomeLog, es) == []
  {
    if es != [] {
      OutcomesAlwaysKeyed(es[..|es| - 1]);
    }
  }

  /** ... so the outcome shards are a fixed point. */
  lemma OutcomesFixedPoint(shardKey: string -> string, shards: Shards, es: seq<Entry>, k: string)
    ensures var once := Rotated(OutcomeLog, shardKey, shards, es);
            File(Rotated(OutcomeLog, shardKey, once, es), k) == File(once, k)
  {
    SecondRotation(OutcomeLog, shardKey, shards, es, k);
    OutcomesAlwaysKeyed(Routed(shardKey, es, k));
  }

  lemma {:induction false} RoutedContains(shardKey: string -> string, es: seq<Entry>, e: Entry)
    requires e in es
    ensures e in Routed(shardKey, es, shardKey(e.createdUtc))
  {
    var before, last := es[..|es| - 1], es[|es| - 1];
    assert es == before + [last];
    if e != last {
      RoutedContains(shardKey, before, e);
    }
  }

  /** Over all shards: grown by suffix, unique keys kept, every keyed entry in its shard. */
  lemma RotationLaws(log: Log, shardKey: string -> string, shards: Shards, es: seq<Entry>)
    ensures forall k :: File(shards, k) <= File(Rotated(log, shardKey, shards, es), k)
    ensures forall k :: UniqueKeys(log, File(shards, k)) ==>
        UniqueKeys(log, File(Rotated(log, shardKey, shards, es), k))
    ensures forall e :: e in es && KeyOf(log, e).Key? ==>
              KeyOf(log, e) in KeysIn(log, File(Rotated(log, shardKey, shards, es), shardKey(e.createdUtc)))
  {
    var out := Rotated(log, shardKey, shards, es);
    forall k
      ensures File(shards, k) <= File(out, k)
      ensures UniqueKeys(log, File(shards, k)) ==> UniqueKeys(log, File(out, k))
    {
      PerShard(log, shardKey, shards, es, k);
      DedupedGrows(log, File(shards, k), Routed(shardKey, es, k));
      if UniqueKeys(log, File(shards, k)) {
        DedupedUnique(log, File(shards, k), Routed(shardKey, es, k));
      }
    }
    forall e | e in es && KeyOf(log, e).Key?
      ensures KeyOf(log, e) in KeysIn(log, File(out, shardKey(e.createdUtc)))
    {
      var k := shardKey(e.createdUtc);
      PerShard(log, shardKey, shards, es, k);
      RoutedContains(shardKey, es, e);
      DedupedCovers(log, File(shards, k), Routed(shardKey, es, k), e);
    }
  }

  // ------------------------------------------------------------------ the code

  datatype Counts = Counts(written: nat, skipped: nat, perShard: map<string, nat>)

  /** Each loaded seen set is exactly the key set of its shard file. */
  ghost predicate SeenFaithful(log: Log, seen: map<string, set<Key>>, shards: Shards) {
    forall k :: k in seen ==> seen[k] == KeysIn(log, File(shards, k))
  }

  ghost predicate CountsFaithful(counts: map<string, nat>, before: Shards, after: Shards) {
    forall k :: |File(after, k)| == |File(before, k)| + (if k in counts then counts[k] else 0)
  }

  lemma KeysAfterAppend(log: Log, file: seq<Entry>, e: Entry)
    ensures KeysIn(log, file + [e]) == KeysIn(log, file) + (if KeyOf(log, e).Key? then {KeyOf(log, e)} else {})
  {
    KeysGrow(log, file, file + [e]);
    assert e in file + [e];
  }

  lemma SeenAfterAppend(log: Log, seen: map<string, set<Key>>, shards: Shards, k: string, e: Entry)
    requires SeenFaithful(log, seen, shards) && k in seen
    ensures var added := if KeyOf(log, e).Key? then {KeyOf(log, e)} else {};
            SeenFaithful(log, seen[k := seen[k] + added], shards[k := File(shards, k) + [e]])
  {
    KeysAfterAppend(log, File(shards, k), e);
  }

  lemma CountsAfterAppend(counts: map<string, nat>, before: Shards, after: Shards, k: string, e: Entry)
    requires CountsFaithful(counts, before, after)
    ensures CountsFaithful(counts[k := (if k in counts then counts[k] else 0) + 1], before,
        after[k := File(after, k) + [e]])
  {
  }

  lemma OneMoreEntry(log: Log, shardKey: string -> string, shards: Shards, es: seq<Entry>, i: nat)
    requires i < |es|
    ensures var sofar := Rotated(log, shardKey, shards, es[..i]);
            var skips := Skips(log, File(sofar, shardKey(es[i].createdUtc)), es[i]);
            && Rotated(log, shardKey, shards, es[..i + 1]) == Step(log, shardKey, sofar, es[i])
            && Skipped(log, shardKey, shards, es[..i + 1])
               == Skipped(log, shardKey, shards, es[..i]) + (if skips then 1 else 0)
  {
    assert es[..i + 1][..i] == es[..i];
  }

  /** The seen sets while the source is read: a shard's set is loaded when it is first needed. */
  function Loaded(log: Log, seen: map<string, set<Key>>, shards: Shards, k: string): map<string, set<Key>> {
    if k in seen then seen else seen[k := KeysIn(log, File(shards, k))]
  }

  /** One pass of the loop: skip the entry, or append it and remember its key. */
  method OfferEntry(log: Log, shards: Shards, seen: map<string, set<Key>>, perShard: map<string, nat>, k: string,
      e: Entry,
                    ghost before: Shards)
    returns (shards': Shards, seen': map<string, set<Key>>, perShard': map<string, nat>, skipped: bool)
    requires SeenFaithful(log, seen, shards) && CountsFaithful(perShard, before, shards)
    ensures skipped <==> Skips(log, File(shards, k), e)
    ensures shards' == if skipped then shards else shards[k := File(shards, k) + [e]]
    ensures SeenFaithful(log, seen', shards') && CountsFaithful(perShard', before, shards')
  {
    shards', perShard' := shards, perShard;
    seen' := Loaded(log, seen, shards, k);
    var key := KeyOf(log, e);
    skipped := key.Key? && key in seen'[k];
    if !skipped {
      SeenAfterAppend(log, seen', shards, k, e);
      CountsAfterAppend(perShard, before, shards, k, e);
      shards' := shards[k := File(shards, k) + [e]];
      perShard' := perShard[k := (if k in perShard then perShard[k] else 0) + 1];
      seen' := seen'[k := seen'[k] + (if key.Key? then {key} else {})];
    }
  }

  /** One turn of the loop, in terms of the entries read so far. */
  method OfferNext(log: Log, shardKey: string -> string, shards: Shards, es: seq<Entry>, i: nat,
                   out: Shards, seen: map<string, set<Key>>, perShard: map<string, nat>)
    returns (out': Shards, seen': map<string, set<Key>>, perShard': map<string, nat>, skip: bool)
    requires i < |es| && out == Rotated(log, shardKey, shards, es[..i])
    requires SeenFaithful(log, seen, out) && CountsFaithful(perShard, shards, out)
    ensures out' == Rotated(log, shardKey, shards, es[..i + 1])
    ensures Skipped(log, shardKey, shards, es[..i + 1]) == Skipped(log, shardKey, shards, es[..i])
        + (if skip then 1 else 0)
    ensures SeenFaithful(log, seen', out') && CountsFaithful(perShard', shards, out')
  {
    OneMoreEntry(log, shardKey, shards, es, i);
    out', seen', perShard', skip := OfferEntry(log, out, seen, perShard, shardKey(es[i].createdUtc), es[i], shards);
  }

  lemma NothingRotated(log: Log, shardKey: string -> string, shards: Shards, es: seq<Entry>)
    ensures Rotated(log, shardKey, shards, es[..0]) == shards && Skipped(log, shardKey, shards, es[..0]) == 0
    ensures SeenFaithful(log, map[], shards) && CountsFaithful(map[], shards, shards)
  {
  }

  /** One of the two loops of `rotate`. */
  method RotateLog(log: Log, shardKey: string -> string, shards: Shards, es: seq<Entry>)
    returns (out: Shards, counts: Counts)
    ensures out == Rotated(log, shardKey, shards, es)
    ensures counts.written + counts.skipped == |es|
    ensures counts.skipped == Skipped(log, shardKey, shards, es)
    ensures CountsFaithful(counts.perShard, shards, out)
  {
    out := shards;
    var seen: map<string, set<Key>> := map[];
    var perShard: map<string, nat> := map[];
    var written, skipped := 0, 0;
    var i := 0;
    NothingRotated(log, shardKey, shards, es);
    while i < |es|
      invariant 0 <= i <= |es| && written + skipped == i
      invariant out == Rotated(log, shardKey, shards, es[..i])
      invariant skipped == Skipped(log, shardKey, shards, es[..i])
      invariant SeenFaithful(log, seen, out)
      invariant CountsFaithful(perShard, shards, out)
    {
      var skip;
      out, seen, perShard, skip := OfferNext(log, shardKey, shards, es, i, out, seen, perShard);
      if skip {
        skipped := skipped + 1;
      } else {
        written := written + 1;
      }
      i := i + 1;
    }
    assert es[..i] == es;
    counts := Counts(written, skipped, perShard);
  }

  class MemoryDir {
    var index: seq<Entry>
    var outcomes: seq<Entry>
    var indexShards: Shards
    var outcomeShards: Shards

    /** `rotate`; `prune` removes the originals once everything has been routed. */
    method Rotate(shardKey: string -> string, prune: bool) returns (indexCounts: Counts, outcomeCounts: Counts)
      modifies this
      ensures indexShards == Rotated(IndexLog, shardKey, old(indexShards), old(index))
      ensures outcomeShards == Rotated(OutcomeLog, shardKey, old(outcomeShards), old(outcomes))
      ensures indexCounts.written + indexCounts.skipped == |old(index)|
      ensures outcomeCounts.written + outcomeCounts.skipped == |old(outcomes)|
      ensures CountsFaithful(indexCounts.perShard, old(indexShards), indexShards)
      ensures CountsFaithful(outcomeCounts.perShard, old(outcomeShards), outcomeShards)
      ensures index == (if prune then [] else old(index)) && outcomes == (if prune then [] else old(outcomes))
    {
      indexShards, indexCounts := RotateLog(IndexLog, shardKey, indexShards, index);
      outcomeShards, outcomeCounts := RotateLog(OutcomeLog, shardKey, outcomeShards, outcomes);
      if prune {
        index, outcomes := [], [];
      }
    }
  }
}
