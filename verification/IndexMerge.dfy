/** Merging a letter's entry into the letters index. */
module IndexMerge {
  import opened Text

  datatype Entry = Entry(
    letterId: string, href: string, title: string, theme: string,
    scriptureRef: string, excerpt: string, publishedAt: string)

  function Key(e: Entry): string {
    if e.letterId != "" then e.letterId else e.href
  }

  /** Two letters are the same entry exactly when they have the same letter id; without one, the link counts. */
  lemma SameKeyExactly(a: Entry, b: Entry)
    ensures a.letterId != "" && b.letterId != "" ==> (Key(a) == Key(b) <==> a.letterId == b.letterId)
    ensures a.letterId == "" && b.letterId == "" ==> (Key(a) == Key(b) <==> a.href == b.href)
    ensures a.letterId != "" && b.letterId == "" ==> (Key(a) == Key(b) <==> a.letterId == b.href)
  {
  }

  // ------------------------------------------------------------------ the sort

  /** The tuple order of the sort key, ascending. */
  predicate KeyLeq(a: Entry, b: Entry) {
    if a.publishedAt != b.publishedAt then Leq(a.publishedAt, b.publishedAt)
    else if a.title != b.title then Leq(a.title, b.title)
    else Leq(a.letterId, b.letterId)
  }

  lemma KeyLeqTotal(a: Entry, b: Entry)
    ensures KeyLeq(a, b) || KeyLeq(b, a)
  {
    LeqTotal(a.publishedAt, b.publishedAt);
    LeqTotal(a.title, b.title);
    LeqTotal(a.letterId, b.letterId);
  }

  lemma KeyLeqTransitive(a: Entry, b: Entry, c: Entry)
    requires KeyLeq(a, b) && KeyLeq(b, c)
    ensures KeyLeq(a, c)
  {
    if a.publishedAt != b.publishedAt && b.publishedAt != c.publishedAt {
      LessTransitive(a.publishedAt, b.publishedAt, c.publishedAt);
    } else if a.publishedAt == b.publishedAt == c.publishedAt {
      TitleTransitive(a, b, c);
    }
  }

  lemma TitleTransitive(a: Entry, b: Entry, c: Entry)
    requires a.publishedAt == b.publishedAt == c.publishedAt && KeyLeq(a, b) && KeyLeq(b, c)
    ensures KeyLeq(a, c)
  {
    if a.title != b.title && b.title != c.title {
      LessTransitive(a.title, b.title, c.title);
    } else if a.title == b.title == c.title {
      LeqTransitive(a.letterId, b.letterId, c.letterId);
    }
  }

  ghost predicate Descending(es: seq<Entry>) {
    forall i, j :: 0 <= i < j < |es| ==> KeyLeq(es[j], es[i])
  }

  function Insert(e: Entry, es: seq<Entry>): seq<Entry> {
    if es == [] || KeyLeq(es[0], e) then [e] + es else [es[0]] + Insert(e, es[1..])
  }

  /** The stable descending sort. */
  function SortDescending(es: seq<Entry>): seq<Entry> {
    if es == [] then [] else Insert(es[0], SortDescending(es[1..]))
  }

  lemma {:induction false} InsertElements(e: Entry, es: seq<Entry>)
    ensures multiset(Insert(e, es)) == multiset(es) + multiset{e}
  {
    if es != [] && !KeyLeq(es[0], e) {
      InsertElements(e, es[1..]);
      assert es == [es[0]] + es[1..];
    }
  }

  lemma {:induction false} InsertSorted(e: Entry, es: seq<Entry>)
    requires Descending(es)
    ensures Descending(Insert(e, es))
  {
    if es == [] {
    } else if KeyLeq(es[0], e) {
      forall j | 0 <= j < |es| ensures KeyLeq(es[j], e) {
        if j > 0 {
          KeyLeqTransitive(es[j], es[0], e);
        }
      }
    } else {
      InsertSorted(e, es[1..]);
      InsertElements(e, es[1..]);
      KeyLeqTotal(es[0], e);
      AllBelowHead(es[0], e, es[1..], Insert(e, es[1..]));
    }
  }

  lemma AllBelowHead(h: Entry, e: Entry, es: seq<Entry>, rest: seq<Entry>)
    requires Descending([h] + es) && KeyLeq(e, h) && multiset(rest) == multiset(es) + multiset{e}
    ensures forall j :: 0 <= j < |rest| ==> KeyLeq(rest[j], h)
  {
    forall j | 0 <= j < |rest| ensures KeyLeq(rest[j], h) {
      assert rest[j] in multiset(rest);
      if rest[j] != e {
        var k :| 0 <= k < |es| && es[k] == rest[j];
        var whole := [h] + es;
        assert whole[0] == h && whole[k + 1] == rest[j];
        assert KeyLeq(whole[k + 1], whole[0]);
      }
    }
  }

  lemma {:induction false} SortSorted(es: seq<Entry>)
    ensures Descending(SortDescending(es)) && multiset(SortDescending(es)) == multiset(es)
  {
    if es != [] {
      var rest := SortDescending(es[1..]);
      SortSorted(es[1..]);
      InsertSorted(es[0], rest);
      InsertElements(es[0], rest);
      assert SortDescending(es) == Insert(es[0], rest);
      assert multiset(es) == multiset{es[0]} + multiset(es[1..]) by {
        assert es == [es[0]] + es[1..];
      }
    }
  }

  lemma {:induction false} SortFixed(es: seq<Entry>)
    requires Descending(es)
    ensures SortDescending(es) == es
  {
    if es != [] {
      SortFixed(es[1..]);
      assert es == [es[0]] + es[1..];
      if |es| > 1 {
        assert KeyLeq(es[1], es[0]);
      }
    }
  }

  // ------------------------------------------------------------------ one entry per key

  ghost predicate DistinctKeys(es: seq<Entry>) {
    forall i, j :: 0 <= i < j < |es| ==> Key(es[i]) != Key(es[j])
  }

  /** The position of a key, or the length when it is absent. */
  function IndexOf(es: seq<Entry>, k: string): (i: nat)
    ensures i <= |es|
    ensures i < |es| ==> Key(es[i]) == k
    ensures forall j :: 0 <= j < i ==> Key(es[j]) != k
  {
    if es == [] || Key(es[0]) == k then 0 else 1 + IndexOf(es[1..], k)
  }

  /** Assigning to an insertion-ordered dict: replace in place, or append. */
  function Put(es: seq<Entry>, e: Entry): seq<Entry> {
    var i := IndexOf(es, Key(e));
    if i < |es| then es[i := e] else es + [e]
  }

  function Collected(es: seq<Entry>): seq<Entry> {
    if es == [] then []
    else
      var before, e := Collected(es[..|es| - 1]), es[|es| - 1];
      if Key(e) == "" then before else Put(before, e)
  }

  /** The new entry keeps the publication date of the entry it replaces. */
  function Dated(es: seq<Entry>, current: Entry): Entry {
    var i := IndexOf(es, Key(current));
    if i < |es| && es[i].publishedAt != "" then current.(publishedAt := es[i].publishedAt) else current
  }

  function Merged(existing: seq<Entry>, current: Entry): seq<Entry> {
    var es := Collected(existing);
    SortDescending(Put(es, Dated(es, current)))
  }

  lemma PutDistinct(es: seq<Entry>, e: Entry)
    requires DistinctKeys(es)
    ensures DistinctKeys(Put(es, e)) && e in Put(es, e)
  {
    var i := IndexOf(es, Key(e));
    if i < |es| {
      assert Put(es, e)[i] == e;
    } else {
      assert Put(es, e)[|es|] == e;
    }
  }

  ghost predicate NonEmptyKeys(es: seq<Entry>) {
    forall i :: 0 <= i < |es| ==> Key(es[i]) != ""
  }

  lemma {:induction false} CollectedDistinct(es: seq<Entry>)
    ensures DistinctKeys(Collected(es)) && NonEmptyKeys(Collected(es))
  {
    if es != [] {
      CollectedDistinct(es[..|es| - 1]);
      if Key(es[|es| - 1]) != "" {
        PutDistinct(Collected(es[..|es| - 1]), es[|es| - 1]);
      }
    }
  }

  lemma PutAbsent(es: seq<Entry>, e: Entry)
    requires forall j :: 0 <= j < |es| ==> Key(es[j]) != Key(e)
    ensures Put(es, e) == es + [e]
  {
  }

  lemma PrefixKeys(es: seq<Entry>, n: nat)
    requires DistinctKeys(es) && NonEmptyKeys(es) && n < |es|
    ensures DistinctKeys(es[..n]) && NonEmptyKeys(es[..n])
    ensures forall j :: 0 <= j < n ==> Key(es[..n][j]) != Key(es[n])
  {
    assert forall j :: 0 <= j < n ==> es[..n][j] == es[j];
  }

  lemma {:induction false} CollectedFixed(es: seq<Entry>)
    requires DistinctKeys(es) && NonEmptyKeys(es)
    ensures Collected(es) == es
  {
    if es != [] {
      var n := |es| - 1;
      PrefixKeys(es, n);
      CollectedFixed(es[..n]);
      PutAbsent(es[..n], es[n]);
      assert es == es[..n] + [es[n]];
    }
  }

  /** Distinctness is a matter of the elements, not of their order. */
  lemma DistinctPermuted(a: seq<Entry>, b: seq<Entry>)
    requires DistinctKeys(a) && multiset(a) == multiset(b)
    ensures DistinctKeys(b)
  {
    forall i, j | 0 <= i < j < |b| ensures Key(b[i]) != Key(b[j]) {
      PairIn(b, i, j);
      if Key(b[i]) == Key(b[j]) {
        SameKeySameEntry(a, b[i], b[j]);
        OnceOnly(a, b[i]);
      }
    }
  }

  lemma PairIn(b: seq<Entry>, i: nat, j: nat)
    requires i < j < |b|
    ensures b[i] in multiset(b) && b[j] in multiset(b)
    ensures b[i] == b[j] ==> multiset(b)[b[i]] >= 2
  {
    var x, y, z := b[..i], b[i + 1..j], b[j + 1..];
    assert b == x + [b[i]] + y + [b[j]] + z;
  }

  lemma SameKeySameEntry(a: seq<Entry>, e: Entry, f: Entry)
    requires DistinctKeys(a) && e in multiset(a) && f in multiset(a) && Key(e) == Key(f)
    ensures e == f
  {
    var i :| 0 <= i < |a| && a[i] == e;
    var j :| 0 <= j < |a| && a[j] == f;
  }

  lemma {:induction false} OnceOnly(a: seq<Entry>, e: Entry)
    requires DistinctKeys(a)
    ensures multiset(a)[e] <= 1
  {
    if a != [] {
      var before, last := a[..|a| - 1], a[|a| - 1];
      OnceOnly(before, e);
      assert a == before + [last];
      forall i | 0 <= i < |before| ensures before[i] != last {
        assert before[i] == a[i];
      }
    }
  }

  // ------------------------------------------------------------------ the laws of merging

  lemma MergedParts(existing: seq<Entry>, current: Entry)
    ensures var c := Dated(Collected(existing), current);
            var m := Merged(existing, current);
            && Descending(m) && DistinctKeys(m) && c in m
            && multiset(m) == multiset(Put(Collected(existing), c))
  {
    var es := Collected(existing);
    var c := Dated(es, current);
    CollectedDistinct(existing);
    PutDistinct(es, c);
    SortSorted(Put(es, c));
    DistinctPermuted(Put(es, c), Merged(existing, current));
    assert c in multiset(Put(es, c));
  }

  /** Distinct keys, newest first, and the date of an entry that is replaced is kept. */
  lemma MergeLaws(existing: seq<Entry>, current: Entry)
    ensures DistinctKeys(Merged(existing, current))
    ensures Descending(Merged(existing, current))
    ensures Dated(Collected(existing), current) in Merged(existing, current)
    ensures forall e :: e in Collected(existing) && Key(e) == Key(current) && e.publishedAt != ""
              ==> Dated(Collected(existing), current) == current.(publishedAt := e.publishedAt)
    ensures forall e :: e in Merged(existing, current) <==>
              e == Dated(Collected(existing), current) || (e in Collected(existing) && Key(e) != Key(current))
  {
    var es := Collected(existing);
    MergedParts(existing, current);
    CollectedDistinct(existing);
    forall e | e in es && Key(e) == Key(current) && e.publishedAt != ""
      ensures Dated(es, current) == current.(publishedAt := e.publishedAt)
    {
      var j :| 0 <= j < |es| && es[j] == e;
      assert IndexOf(es, Key(current)) == j;
    }
    var c := Dated(es, current);
    forall e ensures e in Merged(existing, current) <==> e == c || (e in es && Key(e) != Key(c)) {
      PutElements(es, c, e);
      assert e in Merged(existing, current) <==> e in multiset(Put(es, c));
    }
  }

  lemma PutElements(es: seq<Entry>, c: Entry, e: Entry)
    requires DistinctKeys(es)
    ensures e in Put(es, c) <==> e == c || (e in es && Key(e) != Key(c))
  {
    var i := IndexOf(es, Key(c));
    if e in es && Key(e) != Key(c) {
      OthersKept(es, c, e);
    }
    if i < |es| {
      assert Put(es, c)[i] == c;
      forall j | 0 <= j < |es| && j != i ensures Key(es[j]) != Key(c) {
      }
    } else {
      assert Put(es, c)[|es|] == c;
    }
  }

  lemma OthersKept(es: seq<Entry>, c: Entry, e: Entry)
    requires e in es && Key(e) != Key(c)
    ensures e in Put(es, c)
  {
    var j :| 0 <= j < |es| && es[j] == e;
    assert Put(es, c)[j] == e;
  }

  /** Merging the same entry again changes nothing. */
  lemma MergeIdempotent(existing: seq<Entry>, current: Entry)
    requires Key(current) != ""
    ensures Merged(Merged(existing, current), current) == Merged(existing, current)
  {
    var m := Merged(existing, current);
    var c := Dated(Collected(existing), current);
    MergedParts(existing, current);
    MergedKeysNonEmpty(existing, current);
    CollectedFixed(m);
    var i: nat :| i < |m| && m[i] == c;
    AlreadyThere(m, current, c, i);
    SortFixed(m);
  }

  lemma MergedKeysNonEmpty(existing: seq<Entry>, current: Entry)
    requires Key(current) != ""
    ensures NonEmptyKeys(Merged(existing, current))
  {
    var es := Collected(existing);
    var c := Dated(es, current);
    var m := Merged(existing, current);
    CollectedDistinct(existing);
    MergedParts(existing, current);
    forall i | 0 <= i < |m| ensures Key(m[i]) != "" {
      assert m[i] in multiset(m);
      var j :| 0 <= j < |Put(es, c)| && Put(es, c)[j] == m[i];
    }
  }

  lemma AlreadyThere(m: seq<Entry>, current: Entry, c: Entry, i: nat)
    requires DistinctKeys(m) && i < |m| && m[i] == c
    requires c == current || (c.publishedAt != "" && c == current.(publishedAt := c.publishedAt))
    ensures Dated(m, current) == c && Put(m, Dated(m, current)) == m
  {
    assert Key(c) == Key(current);
    assert IndexOf(m, Key(current)) == i;
  }

  // ------------------------------------------------------------------ the code

  /** What the dict and the order list hold, read in order. */
  function InOrder(merged: map<string, Entry>, order: seq<string>): seq<Entry>
    requires forall i :: 0 <= i < |order| ==> order[i] in merged
  {
    seq(|order|, i requires 0 <= i < |order| => merged[order[i]])
  }

  ghost predicate Keyed(merged: map<string, Entry>, order: seq<string>) {
    && (forall i :: 0 <= i < |order| ==> order[i] in merged)
    && (forall i, j :: 0 <= i < j < |order| ==> order[i] != order[j])
    && (forall k :: k in merged ==> k in order && Key(merged[k]) == k)
  }

  /** One assignment to the dict, with the order list kept beside it. */
  method Assign(merged: map<string, Entry>, order: seq<string>, e: Entry)
    returns (merged': map<string, Entry>, order': seq<string>)
    requires Keyed(merged, order)
    ensures Keyed(merged', order')
    ensures InOrder(merged', order') == Put(InOrder(merged, order), e)
  {
    var k := Key(e);
    order' := if k !in merged then order + [k] else order;
    merged' := merged[k := e];
    if k in merged {
      AssignExisting(merged, order, e);
    } else {
      AssignNew(merged, order, e);
    }
  }

  lemma AssignExisting(merged: map<string, Entry>, order: seq<string>, e: Entry)
    requires Keyed(merged, order) && Key(e) in merged
    ensures Keyed(merged[Key(e) := e], order)
    ensures InOrder(merged[Key(e) := e], order) == Put(InOrder(merged, order), e)
  {
    var i :| 0 <= i < |order| && order[i] == Key(e);
    PositionIs(InOrder(merged, order), order, Key(e), i);
    ReplacedInOrder(merged, order, e, i);
  }

  lemma ReplacedInOrder(merged: map<string, Entry>, order: seq<string>, e: Entry, i: nat)
    requires forall j :: 0 <= j < |order| ==> order[j] in merged
    requires i < |order| && order[i] == Key(e)
    requires forall a, b :: 0 <= a < b < |order| ==> order[a] != order[b]
    ensures InOrder(merged[Key(e) := e], order) == InOrder(merged, order)[i := e]
  {
  }

  lemma AssignNew(merged: map<string, Entry>, order: seq<string>, e: Entry)
    requires Keyed(merged, order) && Key(e) !in merged
    ensures Keyed(merged[Key(e) := e], order + [Key(e)])
    ensures InOrder(merged[Key(e) := e], order + [Key(e)]) == Put(InOrder(merged, order), e)
  {
    var es := InOrder(merged, order);
    PositionIs(es, order, Key(e), |order|);
  }

  lemma PositionIs(es: seq<Entry>, order: seq<string>, k: string, i: nat)
    requires |es| == |order| && i <= |order|
    requires forall j :: 0 <= j < |order| ==> Key(es[j]) == order[j]
    requires forall a, b :: 0 <= a < b < |order| ==> order[a] != order[b]
    requires if i < |order| then order[i] == k else k !in order
    ensures IndexOf(es, k) == i
  {
  }

  /** `_merge_letters_index_entries`. */
  method MergeEntries(existing: seq<Entry>, current: Entry) returns (entries: seq<Entry>)
    ensures entries == Merged(existing, current)
  {
    var merged: map<string, Entry> := map[];
    var order: seq<string> := [];
    var i := 0;
    while i < |existing|
      invariant 0 <= i <= |existing|
      invariant Keyed(merged, order)
      invariant InOrder(merged, order) == Collected(existing[..i])
    {
      assert existing[..i + 1][..i] == existing[..i];
      if Key(existing[i]) != "" {
        merged, order := Assign(merged, order, existing[i]);
      }
      i := i + 1;
    }
    assert existing[..i] == existing;
    var dated := DateFrom(merged, order, current);
    merged, order := Assign(merged, order, dated);
    entries := SortDescending(InOrder(merged, order));
  }

  method DateFrom(merged: map<string, Entry>, order: seq<string>, current: Entry) returns (dated: Entry)
    requires Keyed(merged, order)
    ensures dated == Dated(InOrder(merged, order), current)
  {
    var k := Key(current);
    dated := current;
    ghost var es := InOrder(merged, order);
    if k in merged {
      if merged[k].publishedAt != "" {
        dated := current.(publishedAt := merged[k].publishedAt);
      }
      ghost var i :| 0 <= i < |order| && order[i] == k;
      PositionIs(es, order, k, i);
    } else {
      PositionIs(es, order, k, |order|);
    }
  }
}
