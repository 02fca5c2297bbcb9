/** The case exporter's anonymiser: service names become aliases everywhere in a text. */
module Anonymizer {
  import opened Text
  import opened Json
  import opened Wrappers

  datatype Pair = Pair(real_: string, alias: string)

  // ------------------------------------------------------------------ replacing names

  /** Laid over `q` with its first character at position `d`, `r` agrees with `q` wherever both are. */
  predicate Agree(q: string, r: string, d: int) {
    forall i :: 0 <= i < |q| && d <= i < d + |r| ==> q[i] == r[i - d]
  }

  /** No part of the name `q` can be supplied by the alias `r`: they disagree wherever they overlap. So no
    * end of one is a beginning of the other, and neither lies inside the other.
    */
  predicate Apart(q: string, r: string) {
    forall d :: -|r| < d < |q| ==> !Agree(q, r, d)
  }

  lemma AgreeAtStart(q: string, k: nat, r: string, rest: string)
    requires k < |q| && q[k..] <= r + rest
    ensures Agree(q, r, k)
  {
    forall i: int | 0 <= i < |q| && k <= i < k + |r| ensures q[i] == r[i - k] {
      assert q[i] == q[k..][i - k] == (r + rest)[i - k];
    }
  }

  lemma AgreeInside(q: string, r: string, d: int, rest: string)
    requires -|r| < d <= 0 && q <= r[-d..] + rest
    ensures Agree(q, r, d)
  {
    forall i: int | 0 <= i < |q| && d <= i < d + |r| ensures q[i] == r[i - d] {
      assert q[i] == (r[-d..] + rest)[i] == r[-d..][i];
    }
  }

  /** What a replacement leaves of a name at the start of a text was there before. */
  lemma {:induction false} PrefixSurvives(t: string, p: string, r: string, q: string, k: nat)
    requires p != [] && r != [] && Apart(q, r) && k <= |q| && q[k..] <= Replace(t, p, r)
    ensures q[k..] <= t && (k < |q| ==> !(p <= t))
    decreases |t|
  {
    if k == |q| {
      assert q[k..] == [];
    } else if |t| < |p| {
      assert !(p <= t);
    } else if p <= t {
      AgreeAtStart(q, k, r, Replace(t[|p|..], p, r));
      assert false;
    } else {
      var rest := Replace(t[1..], p, r);
      assert ([t[0]] + rest)[1..] == rest && q[k..][1..] == q[k + 1..];
      assert q[k..][1..] <= rest;
      PrefixSurvives(t[1..], p, r, q, k + 1);
      assert q[k..] == [q[k]] + q[k + 1..] && t == [t[0]] + t[1..];
    }
  }

  /** An occurrence in an alias followed by more text lies in that text. */
  lemma {:induction false} SkipAlias(r: string, j: nat, rest: string, q: string)
    requires q != [] && Apart(q, r) && j <= |r| && Occurs(r[j..] + rest, q)
    ensures Occurs(rest, q)
    decreases |r| - j
  {
    if j == |r| {
      assert r[j..] + rest == rest;
    } else {
      OccursSplit(r[j..] + rest, q);
      if q <= r[j..] + rest {
        AgreeInside(q, r, -(j as int), rest);
      }
      assert (r[j..] + rest)[1..] == r[j + 1..] + rest;
      SkipAlias(r, j + 1, rest, q);
    }
  }

  lemma SkipWholeAlias(r: string, rest: string, q: string)
    requires q != [] && Apart(q, r) && Occurs(r + rest, q)
    ensures Occurs(rest, q)
  {
    assert r[0..] == r;
    SkipAlias(r, 0, rest, q);
  }

  lemma WholePrefixSurvives(t: string, p: string, r: string, q: string)
    requires p != [] && r != [] && q != [] && Apart(q, r) && q <= Replace(t, p, r)
    ensures q <= t && !(p <= t)
  {
    assert q[0..] == q;
    PrefixSurvives(t, p, r, q, 0);
  }

  /** Replacing never creates an occurrence of a name that stands apart from the alias. */
  lemma {:induction false} NothingNew(t: string, p: string, r: string, q: string)
    requires p != [] && r != [] && q != [] && Apart(q, r) && Occurs(Replace(t, p, r), q)
    ensures Occurs(t, q)
    decreases |t|
  {
    if |t| >= |p| {
      var out := Replace(t, p, r);
      if q <= out {
        WholePrefixSurvives(t, p, r, q);
        OccursHere(t, q);
      } else if p <= t {
        SkipWholeAlias(r, Replace(t[|p|..], p, r), q);
        NothingNew(t[|p|..], p, r, q);
        OccursLater(t, q, |p|);
      } else {
        OccursSplit(out, q);
        assert out[1..] == Replace(t[1..], p, r);
        NothingNew(t[1..], p, r, q);
        OccursLater(t, q, 1);
      }
    }
  }

  /** The replaced name itself is gone. */
  lemma {:induction false} Gone(t: string, p: string, r: string)
    requires p != [] && r != [] && Apart(p, r)
    ensures !Occurs(Replace(t, p, r), p)
    decreases |t|
  {
    var out := Replace(t, p, r);
    if Occurs(out, p) {
      OccursSplit(out, p);
      if p <= out {
        WholePrefixSurvives(t, p, r, p);
      } else if |t| < |p| {
      } else if p <= t {
        SkipWholeAlias(r, Replace(t[|p|..], p, r), p);
        Gone(t[|p|..], p, r);
      } else {
        assert out[1..] == Replace(t[1..], p, r);
        Gone(t[1..], p, r);
      }
    }
  }

  // ------------------------------------------------------------------ standing apart is exactly what it takes

  lemma CharacterDoesNotOccur(v: string, c: char)
    requires c !in v
    ensures !Occurs(v, [c])
  {
    forall i: nat | i <= |v| ensures !OccursAt(v, [c], i) {
      if i + 1 <= |v| {
        assert v[i..i + 1][0] == v[i] != c;
      }
    }
  }

  lemma ReplaceFirst(c: char, rest: string, r: string)
    ensures Replace([c] + rest, [c], r) == r + Replace(rest, [c], r)
  {
    assert ([c] + rest)[1..] == rest;
  }

  lemma ReplaceOther(h: char, rest: string, c: char, r: string)
    requires h != c
    ensures Replace([h] + rest, [c], r) == [h] + Replace(rest, [c], r)
  {
    var t := [h] + rest;
    assert t[0] == h && t[1..] == rest;
  }

  lemma {:induction false} ReplaceBehind(u: string, c: char, t: string, r: string)
    requires c !in u
    ensures Replace(u + t, [c], r) == u + Replace(t, [c], r)
    decreases |u|
  {
    if u == [] {
      assert u + t == t;
      assert u + Replace(t, [c], r) == Replace(t, [c], r);
    } else {
      var rest := u[1..];
      ReplaceBehind(rest, c, t, r);
      ReplaceOther(u[0], rest + t, c, r);
      assert u + t == [u[0]] + (rest + t);
      assert u + Replace(t, [c], r) == [u[0]] + (rest + Replace(t, [c], r));
    }
  }

  lemma ReplaceOne(u: string, c: char, v: string, r: string)
    requires c !in u && c !in v
    ensures Replace(u + [c] + v, [c], r) == u + r + v
  {
    ReplaceBehind(u, c, [c] + v, r);
    ReplaceFirst(c, v, r);
    CharacterDoesNotOccur(v, c);
    ReplaceAbsent(v, [c], r);
    assert u + [c] + v == u + ([c] + v) && u + r + v == u + (r + v);
  }

  /** A text that is split by a character outside `q` into pieces shorter than `q`. */
  lemma TooShort(u: string, c: char, v: string, q: string)
    requires c !in q && |u| + |v| < |q|
    ensures !Occurs(u + [c] + v, q)
  {
    var t := u + [c] + v;
    forall i: nat | i <= |t| ensures !OccursAt(t, q, i) {
      if i + |q| <= |t| {
        assert t[i..i + |q|][|u| - i] == t[|u|] == c && q[|u| - i] != c;
      }
    }
  }

  /** The part of `q` before, and the part after, the place that `r` takes. */
  function Before(q: string, d: int): string
    requires d <= |q|
  {
    if d > 0 then q[..d] else []
  }

  function After(q: string, r: string, d: int): string
    requires -|r| <= d
  {
    if d + |r| < |q| then q[d + |r|..] else []
  }

  lemma PutTogetherAt(q: string, r: string, d: int, i: nat)
    requires -|r| < d < |q| && Agree(q, r, d) && i < |q|
    ensures var out, at := Before(q, d) + (r + After(q, r, d)), if d > 0 then 0 else -d;
            at + i < |out| && out[at + i] == q[i]
  {
    var tail := r + After(q, r, d);
    var k := i - d;
    if k < 0 {
      assert Before(q, d)[i] == q[i];
    } else if k < |r| {
      assert q[i] == r[k] == tail[k];
    } else {
      assert tail[k] == After(q, r, d)[k - |r|] == q[i];
    }
  }

  lemma PutTogether(q: string, r: string, d: int)
    requires q != [] && -|r| < d < |q| && Agree(q, r, d)
    ensures Occurs(Before(q, d) + r + After(q, r, d), q)
  {
    var out := Before(q, d) + (r + After(q, r, d));
    var at: nat := if d > 0 then 0 else -d;
    forall i | 0 <= i < |q| ensures at + i < |out| && q[i] == out[at + i] {
      PutTogetherAt(q, r, d, i);
    }
    PutTogetherAt(q, r, d, |q| - 1);
    OccursWhereEqual(out, q, at);
    assert out == Before(q, d) + r + After(q, r, d);
  }

  lemma Pieces(q: string, r: string, d: int, c: char)
    requires -|r| < d < |q| && q != [] && r != [] && c !in q
    ensures c !in Before(q, d) && c !in After(q, r, d)
    ensures |Before(q, d)| + |After(q, r, d)| < |q|
  {
    forall i | 0 <= i < |Before(q, d)| ensures Before(q, d)[i] != c {
      assert Before(q, d)[i] == q[i];
    }
    forall i | 0 <= i < |After(q, r, d)| ensures After(q, r, d)[i] != c {
      assert After(q, r, d)[i] == q[d + |r| + i];
    }
  }

  lemma CreatedAt(q: string, r: string, c: char, d: int)
    requires q != [] && r != [] && c !in q && -|r| < d < |q| && Agree(q, r, d)
    ensures var t := Before(q, d) + [c] + After(q, r, d);
            !Occurs(t, q) && Occurs(Replace(t, [c], r), q)
  {
    var u, v := Before(q, d), After(q, r, d);
    Pieces(q, r, d, c);
    PutTogether(q, r, d);
    TooShort(u, c, v, q);
    ReplaceOne(u, c, v, r);
  }

  /** A name that does not stand apart from an alias is created by replacing some character with it. */
  lemma OverlapCreates(q: string, r: string, c: char)
    requires q != [] && r != [] && c !in q && !Apart(q, r)
    ensures exists t :: !Occurs(t, q) && Occurs(Replace(t, [c], r), q)
  {
    var d :| -|r| < d < |q| && Agree(q, r, d);
    CreatedAt(q, r, c, d);
  }

  /** Replacements by `r` never create `q`: exactly when the two stand apart. */
  lemma ApartExactly(q: string, r: string, c: char)
    requires q != [] && r != [] && c !in q
    ensures Apart(q, r) <==> forall t, p :: p != [] && !Occurs(t, q) ==> !Occurs(Replace(t, p, r), q)
  {
    if Apart(q, r) {
      forall t: string, p: string | p != [] && !Occurs(t, q) ensures !Occurs(Replace(t, p, r), q) {
        if Occurs(Replace(t, p, r), q) {
          NothingNew(t, p, r, q);
        }
      }
    } else {
      OverlapCreates(q, r, c);
      var t: string :| !Occurs(t, q) && Occurs(Replace(t, [c], r), q);
      var p := [c];
      assert p != [] && !Occurs(t, q) && Occurs(Replace(t, p, r), q);
    }
  }

  /** Names are non-empty and stand apart from every alias. */
  ghost predicate Separated(pairs: seq<Pair>) {
    && (forall i :: 0 <= i < |pairs| ==> pairs[i].real_ != [] && pairs[i].alias != [])
    && (forall i, j :: 0 <= i < |pairs| && 0 <= j < |pairs| ==> Apart(pairs[i].real_, pairs[j].alias))
  }

  predicate Usable(pairs: seq<Pair>) {
    forall i :: 0 <= i < |pairs| ==> pairs[i].real_ != []
  }

  /** The pairs applied one after the other. */
  function ApplyAll(text: string, pairs: seq<Pair>): string
    requires Usable(pairs)
    decreases |pairs|
  {
    if pairs == [] then text
    else Replace(ApplyAll(text, pairs[..|pairs| - 1]), pairs[|pairs| - 1].real_, pairs[|pairs| - 1].alias)
  }

  ghost predicate Leaks(text: string, pairs: seq<Pair>) {
    exists i :: 0 <= i < |pairs| && Occurs(text, pairs[i].real_)
  }

  /** No real name is left anywhere in the result, whatever the text and whatever the order. */
  lemma {:induction false} NoLeak(text: string, pairs: seq<Pair>)
    requires Separated(pairs)
    ensures !Leaks(ApplyAll(text, pairs), pairs)
    decreases |pairs|
  {
    if pairs != [] {
      var before, last := pairs[..|pairs| - 1], pairs[|pairs| - 1];
      NoLeak(text, before);
      var mid := ApplyAll(text, before);
      Gone(mid, last.real_, last.alias);
      forall i | 0 <= i < |pairs| ensures !Occurs(ApplyAll(text, pairs), pairs[i].real_) {
        if i < |before| {
          assert before[i] == pairs[i] && !Occurs(mid, pairs[i].real_);
          if Occurs(ApplyAll(text, pairs), pairs[i].real_) {
            NothingNew(mid, last.real_, last.alias, pairs[i].real_);
          }
        }
      }
    }
  }

  lemma {:induction false} Untouched(text: string, pairs: seq<Pair>)
    requires Usable(pairs) && !Leaks(text, pairs)
    ensures ApplyAll(text, pairs) == text
    decreases |pairs|
  {
    if pairs != [] {
      var before, last := pairs[..|pairs| - 1], pairs[|pairs| - 1];
      forall i | 0 <= i < |before| ensures !Occurs(text, before[i].real_) {
        assert before[i] == pairs[i];
      }
      Untouched(text, before);
      assert !Occurs(text, last.real_);
      ReplaceAbsent(text, last.real_, last.alias);
    }
  }

  /** Anonymising an anonymised text changes nothing. */
  lemma Idempotent(text: string, pairs: seq<Pair>)
    requires Separated(pairs)
    ensures ApplyAll(ApplyAll(text, pairs), pairs) == ApplyAll(text, pairs)
  {
    NoLeak(text, pairs);
    Untouched(ApplyAll(text, pairs), pairs);
  }

  ghost predicate LongestFirst(pairs: seq<Pair>) {
    forall i, j :: 0 <= i < j < |pairs| ==> |pairs[i].real_| >= |pairs[j].real_|
  }

  ghost predicate DistinctNames(pairs: seq<Pair>) {
    forall i, j :: 0 <= i < j < |pairs| ==> pairs[i].real_ != pairs[j].real_
  }

  /** No name lies inside an alias. Overlapping one at an end does no harm to an exact name. */
  ghost predicate AliasesClear(pairs: seq<Pair>) {
    && Usable(pairs)
    && (forall i, j :: 0 <= i < |pairs| && 0 <= j < |pairs| ==> !Occurs(pairs[j].alias, pairs[i].real_))
  }

  lemma AlienDoesNotOccur(t: string, p: string)
    requires p != [] && Apart(p, t)
    ensures !Occurs(t, p)
  {
    if Occurs(t, p) {
      assert t + [] == t;
      SkipWholeAlias(t, [], p);
    }
  }

  lemma SeparatedIsClear(pairs: seq<Pair>)
    requires Separated(pairs)
    ensures AliasesClear(pairs)
  {
    forall i, j | 0 <= i < |pairs| && 0 <= j < |pairs| ensures !Occurs(pairs[j].alias, pairs[i].real_) {
      AlienDoesNotOccur(pairs[j].alias, pairs[i].real_);
    }
  }

  /** Longest first, a text that is exactly a mapped name becomes exactly its alias. */
  lemma {:induction false} ExactName(pairs: seq<Pair>, k: nat)
    requires AliasesClear(pairs) && LongestFirst(pairs) && DistinctNames(pairs) && k < |pairs|
    ensures ApplyAll(pairs[k].real_, pairs) == pairs[k].alias
    decreases |pairs|
  {
    var n := |pairs| - 1;
    var before, last := pairs[..n], pairs[n];
    if k == n {
      forall i | 0 <= i < n ensures !Occurs(last.real_, before[i].real_) {
      }
      Untouched(last.real_, before);
      ReplaceWhole(last.real_, last.alias);
    } else {
      assert before[k] == pairs[k];
      ExactName(before, k);
      ReplaceAbsent(pairs[k].alias, last.real_, last.alias);
    }
  }

  // ------------------------------------------------------------------ aliases

  /** `SVC_` and the number, padded to two digits. */
  function Alias(i: nat): string {
    "SVC_" + Padded(i)
  }

  function Padded(i: nat): string {
    if i < 10 then "0" + Decimal(i) else Decimal(i)
  }

  /** One digit gets a zero in front of it, and more digits none. */
  lemma PaddedExactly(i: nat)
    ensures i < 10 ==> Padded(i) == "0" + Decimal(i) && |Padded(i)| == 2
    ensures i >= 10 ==> Padded(i) == Decimal(i) && |Padded(i)| >= 2
    ensures Alias(i) == ['S', 'V', 'C', '_'] + Padded(i)
  {
    LastDigit(i);
  }

  predicate IsAliasChar(c: char) {
    c == 'S' || c == 'V' || c == 'C' || c == '_' || '0' <= c <= '9'
  }

  /** Different numbers give different aliases, also beyond two digits. */
  lemma AliasInjective(i: nat, j: nat)
    requires Alias(i) == Alias(j)
    ensures i == j
  {
    assert Alias(i)[4..] == Padded(i) && Alias(j)[4..] == Padded(j);
    if i < 10 && j < 10 {
      assert Padded(i)[1..] == Decimal(i) && Padded(j)[1..] == Decimal(j);
      DecimalInjective(i, j);
    } else if i >= 10 && j >= 10 {
      DecimalInjective(i, j);
    } else {
      NoLeadingZero(if i >= 10 then i else j);
    }
  }

  lemma AliasAlphabet(i: nat)
    ensures Alias(i) != [] && forall k :: 0 <= k < |Alias(i)| ==> IsAliasChar(Alias(i)[k])
  {
    assert forall k :: 0 <= k < |Padded(i)| ==> IsAliasChar(Padded(i)[k]);
  }

  predicate SafeName(name: string) {
    name != [] && forall k :: 0 <= k < |name| ==> !IsAliasChar(name[k])
  }

  // ------------------------------------------------------------------ the map

  /** The service names one case mentions. */
  datatype Meta = Meta(origin: string, target: string, reference: string, evidence: seq<string>) {
    predicate Mentions(name: string) {
      name != [] && (name == origin || name == target || name == reference || name in evidence)
    }
  }

  ghost predicate MentionedBy(metas: seq<Meta>, name: string) {
    exists i :: 0 <= i < |metas| && metas[i].Mentions(name)
  }

  ghost predicate Increasing(names: seq<string>) {
    forall i, j :: 0 <= i < j < |names| ==> Less(names[i], names[j])
  }

  function Names(pairs: seq<Pair>): seq<string> {
    seq(|pairs|, i requires 0 <= i < |pairs| => pairs[i].real_)
  }

  /** The map of a set of services: names in increasing order, numbered from one. */
  ghost predicate IsAnonMap(pairs: seq<Pair>, services: set<string>) {
    && Increasing(Names(pairs))
    && (forall n :: n in Names(pairs) <==> n in services)
    && forall i :: 0 <= i < |pairs| ==> pairs[i].alias == Alias(i + 1)
  }

  /** The map depends on the set of services only. */
  lemma AnonMapUnique(p: seq<Pair>, q: seq<Pair>, services: set<string>)
    requires IsAnonMap(p, services) && IsAnonMap(q, services)
    ensures p == q
  {
    IncreasingUnique(Names(p), Names(q));
    forall i | 0 <= i < |p| ensures p[i] == q[i] {
      assert Names(p)[i] == Names(q)[i];
    }
  }

  lemma {:induction false} IncreasingUnique(a: seq<string>, b: seq<string>)
    requires Increasing(a) && Increasing(b) && forall n :: n in a <==> n in b
    ensures a == b
    decreases |a|
  {
    assert b != [] ==> b[0] in b;
    if a != [] {
      assert a[0] in b && b != [];
      HeadIsLeast(a, b);
      HeadIsLeast(b, a);
      LeqAntisymmetric(a[0], b[0]);
      forall n ensures n in a[1..] <==> n in b[1..] {
        TailElements(a, n);
        TailElements(b, n);
      }
      IncreasingUnique(a[1..], b[1..]);
      assert a == [a[0]] + a[1..] && b == [b[0]] + b[1..];
    }
  }

  lemma HeadIsLeast(a: seq<string>, b: seq<string>)
    requires Increasing(a) && a != [] && b != [] && b[0] in a
    ensures Leq(a[0], b[0])
  {
    var k :| 0 <= k < |a| && a[k] == b[0];
    LeqTotal(a[0], a[0]);
  }

  lemma TailElements(a: seq<string>, n: string)
    requires Increasing(a) && a != []
    ensures n in a[1..] <==> n in a && n != a[0]
  {
    if n in a[1..] {
      var k :| 0 <= k < |a[1..]| && a[1..][k] == n;
      assert a[k + 1] == n && Less(a[0], a[k + 1]);
    }
    if n in a && n != a[0] {
      var k :| 0 <= k < |a| && a[k] == n;
      assert a[1..][k - 1] == n;
    }
  }

  /** The map the exporter builds from the selected cases. */
  method BuildAnonMap(metas: seq<Meta>) returns (pairs: seq<Pair>, ghost services: set<string>)
    ensures IsAnonMap(pairs, services)
    ensures forall n :: n in services <==> MentionedBy(metas, n)
  {
    var found := CollectServices(metas);
    services := found;
    var names := SortedNames(found);
    pairs := NumberNames(names);
  }

  method NumberNames(names: seq<string>) returns (pairs: seq<Pair>)
    ensures Names(pairs) == names
    ensures forall k :: 0 <= k < |pairs| ==> pairs[k].alias == Alias(k + 1)
  {
    pairs := [];
    var i := 0;
    while i < |names|
      invariant 0 <= i <= |names| && |pairs| == i
      invariant forall k :: 0 <= k < i ==> pairs[k] == Pair(names[k], Alias(k + 1))
    {
      pairs := pairs + [Pair(names[i], Alias(i + 1))];
      i := i + 1;
    }
  }

  method CollectServices(metas: seq<Meta>) returns (services: set<string>)
    ensures forall n :: n in services <==> MentionedBy(metas, n)
  {
    services := {};
    for i := 0 to |metas|
      invariant forall n :: n in services <==> MentionedBy(metas[..i], n)
    {
      var m := metas[i];
      services := services + OfOneCase(m);
      assert metas[..i + 1] == metas[..i] + [m];
      forall n ensures MentionedBy(metas[..i + 1], n) <==> MentionedBy(metas[..i], n) || m.Mentions(n) {
        MentionedByOneMore(metas[..i], m, n);
      }
    }
    assert metas[..|metas|] == metas;
  }

  function OfOneCase(m: Meta): (s: set<string>)
    ensures forall n :: n in s <==> m.Mentions(n)
  {
    set n | n in [m.origin, m.target, m.reference] + m.evidence && n != []
  }

  lemma MentionedByOneMore(metas: seq<Meta>, m: Meta, n: string)
    ensures MentionedBy(metas + [m], n) <==> MentionedBy(metas, n) || m.Mentions(n)
  {
    var more := metas + [m];
    if m.Mentions(n) {
      assert more[|metas|].Mentions(n);
    }
    if i :| 0 <= i < |metas| && metas[i].Mentions(n) {
      assert more[i].Mentions(n);
    }
  }

  /** `sorted` on a set of names. */
  method SortedNames(services: set<string>) returns (names: seq<string>)
    ensures Increasing(names)
    ensures forall n :: n in names <==> n in services
  {
    names := [];
    var rest := services;
    while rest != {}
      invariant Increasing(names)
      invariant rest <= services && forall n :: n in names <==> n in services && n !in rest
      decreases |rest|
    {
      var x :| x in rest;
      assert x !in names;
      var k := 0;
      while k < |names| && Leq(names[k], x)
        invariant 0 <= k <= |names|
        invariant forall j :: 0 <= j < k ==> Less(names[j], x)
      {
        k := k + 1;
      }
      InsertIncreasing(names, k, x);
      names := names[..k] + [x] + names[k..];
      rest := rest - {x};
    }
  }

  lemma InsertIncreasing(names: seq<string>, k: nat, x: string)
    requires Increasing(names) && k <= |names| && x !in names
    requires forall j :: 0 <= j < k ==> Less(names[j], x)
    requires k < |names| ==> !Leq(names[k], x)
    ensures var more := names[..k] + [x] + names[k..];
            Increasing(more) && forall n :: n in more <==> n in names || n == x
  {
    var more := names[..k] + [x] + names[k..];
    forall j | k <= j < |names| ensures Less(x, names[j]) {
      LeqTotal(names[k], x);
      if k < j {
        LessTransitive(x, names[k], names[j]);
      }
    }
    assert names == names[..k] + names[k..];
  }

  // ------------------------------------------------------------------ anonymising texts

  function Insert(x: Pair, s: seq<Pair>): seq<Pair> {
    if s == [] || |x.real_| >= |s[0].real_| then [x] + s else [s[0]] + Insert(x, s[1..])
  }

  /** `sorted(..., key=lambda kv: -len(kv[0]))`: stable, longest name first. */
  function LongestFirstOf(pairs: seq<Pair>): seq<Pair> {
    if pairs == [] then [] else Insert(pairs[0], LongestFirstOf(pairs[1..]))
  }

  lemma {:induction false} InsertKeeps(x: Pair, s: seq<Pair>)
    requires LongestFirst(s) && DistinctNames(s) && forall i :: 0 <= i < |s| ==> s[i].real_ != x.real_
    ensures LongestFirst(Insert(x, s)) && DistinctNames(Insert(x, s))
    ensures forall p :: p in Insert(x, s) <==> p == x || p in s
  {
    if s != [] && |x.real_| < |s[0].real_| {
      assert s == [s[0]] + s[1..];
      InsertKeeps(x, s[1..]);
      ConsKeeps(s[0], x, s[1..], Insert(x, s[1..]));
    } else {
      assert Insert(x, s) == [x] + s;
      forall i | 0 <= i < |s| ensures |x.real_| >= |s[i].real_| {
        assert i == 0 || |s[0].real_| >= |s[i].real_|;
      }
    }
  }

  lemma ConsKeeps(h: Pair, x: Pair, s: seq<Pair>, t: seq<Pair>)
    requires LongestFirst([h] + s) && DistinctNames([h] + s) && LongestFirst(t) && DistinctNames(t)
    requires |x.real_| < |h.real_| && forall p :: p in t <==> p == x || p in s
    ensures LongestFirst([h] + t) && DistinctNames([h] + t)
    ensures forall p :: p in [h] + t <==> p == x || p in [h] + s
  {
    forall i | 0 <= i < |t| ensures |h.real_| >= |t[i].real_| && h.real_ != t[i].real_ {
      assert t[i] in t;
      if t[i] != x {
        var k :| 0 <= k < |s| && s[k] == t[i];
        assert ([h] + s)[0] == h && ([h] + s)[k + 1] == t[i];
      }
    }
  }

  lemma {:induction false} SortKeeps(pairs: seq<Pair>)
    requires DistinctNames(pairs)
    ensures LongestFirst(LongestFirstOf(pairs)) && DistinctNames(LongestFirstOf(pairs))
    ensures forall p :: p in LongestFirstOf(pairs) <==> p in pairs
  {
    if pairs != [] {
      var rest := LongestFirstOf(pairs[1..]);
      SortKeeps(pairs[1..]);
      forall i | 0 <= i < |rest| ensures rest[i].real_ != pairs[0].real_ {
        assert rest[i] in pairs[1..];
      }
      InsertKeeps(pairs[0], rest);
      assert pairs == [pairs[0]] + pairs[1..];
    }
  }

  /** A map with one entry per name, whose names stand apart from its aliases. */
  ghost predicate SafeMap(pairs: seq<Pair>) {
    DistinctNames(pairs) && Separated(pairs)
  }

  lemma OneEntryPerName(pairs: seq<Pair>, services: set<string>)
    requires IsAnonMap(pairs, services)
    ensures DistinctNames(pairs)
  {
    forall i, j | 0 <= i < j < |pairs| ensures pairs[i].real_ != pairs[j].real_ {
      assert Less(Names(pairs)[i], Names(pairs)[j]);
    }
  }

  /** The map that the exporter builds is safe when its names stand apart from its aliases. */
  lemma SafeServices(pairs: seq<Pair>, services: set<string>)
    requires IsAnonMap(pairs, services) && Separated(pairs)
    ensures SafeMap(pairs)
  {
    OneEntryPerName(pairs, services);
  }

  /** A name without any alias character stands apart from every alias. */
  lemma AlphabetApart(name: string, i: nat)
    requires SafeName(name)
    ensures Apart(name, Alias(i))
  {
    var r := Alias(i);
    AliasAlphabet(i);
    forall d | -|r| < d < |name| ensures !Agree(name, r, d) {
      var k := if d > 0 then d else 0;
      assert IsAliasChar(r[k - d]) && !IsAliasChar(name[k]);
    }
  }

  /** So the alphabet alone is enough, for any number of services. */
  lemma SafeNamesSeparated(pairs: seq<Pair>, services: set<string>)
    requires IsAnonMap(pairs, services) && forall n :: n in services ==> SafeName(n)
    ensures Separated(pairs)
  {
    forall i | 0 <= i < |pairs| ensures SafeName(pairs[i].real_) && pairs[i].alias != [] {
      assert Names(pairs)[i] in services;
      AliasAlphabet(i + 1);
    }
    forall i, j | 0 <= i < |pairs| && 0 <= j < |pairs| ensures Apart(pairs[i].real_, pairs[j].alias) {
      AlphabetApart(pairs[i].real_, j + 1);
    }
  }

  lemma SafeMapSorted(pairs: seq<Pair>)
    requires SafeMap(pairs)
    ensures var s := LongestFirstOf(pairs);
            && Separated(s) && LongestFirst(s) && DistinctNames(s)
            && forall p :: p in s <==> p in pairs
  {
    var s := LongestFirstOf(pairs);
    SortKeeps(pairs);
    forall i | 0 <= i < |s| ensures s[i].real_ != [] && s[i].alias != [] {
      assert s[i] in pairs;
    }
    forall i, j | 0 <= i < |s| && 0 <= j < |s| ensures Apart(s[i].real_, s[j].alias) {
      assert s[i] in pairs && s[j] in pairs;
    }
  }

  function Anonymise(text: string, pairs: seq<Pair>): string {
    var ordered := LongestFirstOf(pairs);
    if Usable(ordered) then ApplyAll(text, ordered) else text
  }

  /** `_apply_anon_to_str`. */
  method ApplyAnonToStr(text: string, pairs: seq<Pair>) returns (r: string)
    requires Usable(LongestFirstOf(pairs))
    ensures r == Anonymise(text, pairs)
  {
    var ordered := LongestFirstOf(pairs);
    r := text;
    var i := 0;
    while i < |ordered|
      invariant 0 <= i <= |ordered|
      invariant r == ApplyAll(text, ordered[..i])
    {
      assert ordered[..i + 1][..i] == ordered[..i];
      r := Replace(r, ordered[i].real_, ordered[i].alias);
      i := i + 1;
    }
    assert ordered[..i] == ordered;
  }

  /** The three laws of the exporter's text rewriting, for every text. */
  lemma AnonymiseLaws(text: string, pairs: seq<Pair>)
    requires SafeMap(pairs)
    ensures forall p :: p in pairs ==> !Occurs(Anonymise(text, pairs), p.real_)
    ensures Anonymise(Anonymise(text, pairs), pairs) == Anonymise(text, pairs)
    ensures forall p :: p in pairs ==> Anonymise(p.real_, pairs) == p.alias
  {
    var s := LongestFirstOf(pairs);
    SafeMapSorted(pairs);
    SeparatedIsClear(s);
    Idempotent(text, s);
    NoLeak(text, s);
    forall p | p in pairs
      ensures !Occurs(Anonymise(text, pairs), p.real_) && Anonymise(p.real_, pairs) == p.alias
    {
      assert p in s;
      var k: nat :| k < |s| && s[k] == p;
      ExactName(s, k);
    }
  }

  /** `anon_map.get(name, name)`. */
  function Lookup(pairs: seq<Pair>, name: string): string {
    if pairs == [] then name
    else if pairs[0].real_ == name then pairs[0].alias
    else Lookup(pairs[1..], name)
  }

  lemma {:induction false} LookupAbsent(pairs: seq<Pair>, name: string)
    requires forall i :: 0 <= i < |pairs| ==> pairs[i].real_ != name
    ensures Lookup(pairs, name) == name
  {
    if pairs != [] {
      LookupAbsent(pairs[1..], name);
    }
  }

  lemma {:induction false} LookupPresent(pairs: seq<Pair>, k: nat)
    requires DistinctNames(pairs) && k < |pairs|
    ensures Lookup(pairs, pairs[k].real_) == pairs[k].alias
  {
    if k > 0 {
      LookupPresent(pairs[1..], k - 1);
    }
  }

  lemma ClearSorted(pairs: seq<Pair>)
    requires AliasesClear(pairs) && DistinctNames(pairs)
    ensures var s := LongestFirstOf(pairs);
            && AliasesClear(s) && LongestFirst(s) && DistinctNames(s)
            && forall p :: p in s <==> p in pairs
  {
    var s := LongestFirstOf(pairs);
    SortKeeps(pairs);
    forall i | 0 <= i < |s| ensures s[i].real_ != [] {
      assert s[i] in pairs;
    }
    forall i, j | 0 <= i < |s| && 0 <= j < |s| ensures !Occurs(s[j].alias, s[i].real_) {
      assert s[i] in pairs && s[j] in pairs;
    }
  }

  lemma NothingInEmpty(s: seq<Pair>)
    requires Usable(s)
    ensures ApplyAll([], s) == []
  {
    forall i | 0 <= i < |s| ensures !Occurs([], s[i].real_) {
    }
    Untouched([], s);
  }

  lemma LookupIsAnonymise(pairs: seq<Pair>, name: string)
    requires AliasesClear(pairs) && DistinctNames(pairs) && (name == [] || name in Names(pairs))
    ensures Lookup(pairs, name) == Anonymise(name, pairs)
  {
    var s := LongestFirstOf(pairs);
    ClearSorted(pairs);
    if name == [] {
      LookupAbsent(pairs, name);
      NothingInEmpty(s);
    } else {
      var k: nat :| k < |Names(pairs)| && Names(pairs)[k] == name;
      LookupPresent(pairs, k);
      assert pairs[k] in pairs;
      var m: nat :| m < |s| && s[m] == pairs[k];
      ExactName(s, m);
    }
  }

  /** The manifest's alias for a case's origin is what the rewritten case files say. */
  lemma ManifestAgrees(metas: seq<Meta>, i: nat, pairs: seq<Pair>, services: set<string>)
    requires IsAnonMap(pairs, services) && forall n :: n in services <==> MentionedBy(metas, n)
    requires AliasesClear(pairs) && i < |metas|
    ensures Lookup(pairs, metas[i].origin) == Anonymise(metas[i].origin, pairs)
  {
    var name := metas[i].origin;
    OneEntryPerName(pairs, services);
    if name != [] {
      assert metas[i].Mentions(name);
      assert name in services;
    }
    LookupIsAnonymise(pairs, name);
  }

  // ------------------------------------------------------------------ when texts leak

  ghost predicate NeverLeaks(pairs: seq<Pair>) {
    forall text, p :: p in pairs ==> !Occurs(Anonymise(text, pairs), p.real_)
  }

  lemma ForeignCharacterApart(c: char, r: string)
    requires c !in r
    ensures Apart([c], r)
  {
    forall d | -|r| < d < 1 ensures !Agree([c], r, d) {
      assert [c][0] == c != r[0 - d];
    }
  }

  /** In a map that also renames some other character `c` to `r`, the name `q` never leaks exactly when it
    * stands apart from `r`.
    */
  lemma NeverLeaksExactly(q: string, x: string, c: char, r: string)
    requires q != [] && x != [] && r != [] && c !in q && c !in x && c !in r && Apart(q, x)
    ensures NeverLeaks([Pair(q, x), Pair([c], r)]) <==> Apart(q, r)
  {
    var pairs := [Pair(q, x), Pair([c], r)];
    if Apart(q, r) {
      ForeignCharacterApart(c, x);
      ForeignCharacterApart(c, r);
      assert c in [c] && SafeMap(pairs);
      forall text: string, p | p in pairs ensures !Occurs(Anonymise(text, pairs), p.real_) {
        AnonymiseLaws(text, pairs);
      }
    } else {
      OverlapCreates(q, r, c);
      var t: string :| !Occurs(t, q) && Occurs(Replace(t, [c], r), q);
      BothReplaced(t, q, x, [c], r);
      assert pairs[0] in pairs && Occurs(Anonymise(t, pairs), pairs[0].real_);
    }
  }

  lemma BothReplaced(t: string, q: string, x: string, p: string, r: string)
    requires q != [] && p != [] && |q| >= |p| && !Occurs(t, q)
    ensures Anonymise(t, [Pair(q, x), Pair(p, r)]) == Replace(t, p, r)
  {
    var first, second := Pair(q, x), Pair(p, r);
    assert [first, second][1..] == [second] && [second][1..] == [] && [] + [second] == [second];
    assert LongestFirstOf([second]) == [second];
    assert LongestFirstOf([first, second]) == [first] + [second] == [first, second];
    assert [first, second][..1] == [first] && [first][..0] == [];
    assert ApplyAll(t, [first]) == Replace(ApplyAll(t, []), q, x);
    ReplaceAbsent(t, q, x);
  }

  /** The exporter's own map for the single service `xS` leaks it: the text `xxS` becomes `xSVC_01`. */
  lemma OverlappingNameLeaks()
    ensures IsAnonMap([Pair("xS", "SVC_01")], {"xS"})
    ensures Anonymise("xxS", [Pair("xS", "SVC_01")]) == "xSVC_01" && Occurs("xSVC_01", "xS")
  {
    var pairs := [Pair("xS", "SVC_01")];
    assert Names(pairs) == ["xS"] && Alias(1) == "SVC_01";
    OneReplacement();
    assert pairs[1..] == [] && LongestFirstOf(pairs) == [pairs[0]] + [] == pairs && pairs[..0] == [];
    assert ApplyAll("xxS", []) == "xxS";
    assert ApplyAll("xxS", pairs) == "xSVC_01";
    OccursHere("xSVC_01", "xS");
  }

  lemma OneReplacement()
    ensures Replace("xxS", "xS", "SVC_01") == "xSVC_01"
  {
    assert "xS"[1] == 'S' && "xxS"[1] == 'x';
    assert !("xS" <= "xxS");
    assert "xxS"[1..] == "xS";
    ReplaceWhole("xS", "SVC_01");
  }

  // ------------------------------------------------------------------ anonymising documents

  /** `_apply_anon_to_obj`: string values are rewritten, keys are not. */
  function AnonymiseJson(j: Json, pairs: seq<Pair>): Json {
    match j
    case JStr(s) => JStr(Anonymise(s, pairs))
    case JObj(fields) =>
      JObj(seq(|fields|, i requires 0 <= i < |fields| =>
        Field(fields[i].key, AnonymiseJson(fields[i].value, pairs))))
    case JArr(items) => JArr(seq(|items|, i requires 0 <= i < |items| => AnonymiseJson(items[i], pairs)))
    case _ => j
  }

  /** The name occurs in a key somewhere in the document. */
  ghost predicate KeyMentions(j: Json, name: string) {
    match j
    case JObj(fields) =>
      exists i :: 0 <= i < |fields| && (Occurs(fields[i].key, name) || KeyMentions(fields[i].value, name))
    case JArr(items) => exists i :: 0 <= i < |items| && KeyMentions(items[i], name)
    case _ => false
  }

  /** The name occurs in a string value or a key somewhere in the document. */
  ghost predicate Mentions(j: Json, name: string) {
    match j
    case JStr(s) => Occurs(s, name)
    case JObj(fields) =>
      exists i :: 0 <= i < |fields| && (Occurs(fields[i].key, name) || Mentions(fields[i].value, name))
    case JArr(items) => exists i :: 0 <= i < |items| && Mentions(items[i], name)
    case _ => false
  }

  lemma FieldsLeak(fields: seq<Field>, pairs: seq<Pair>, p: Pair)
    requires forall i :: 0 <= i < |fields| ==>
               (Mentions(AnonymiseJson(fields[i].value, pairs), p.real_) <==> KeyMentions(fields[i].value, p.real_))
    ensures Mentions(AnonymiseJson(JObj(fields), pairs), p.real_) <==> KeyMentions(JObj(fields), p.real_)
  {
    var out := AnonymiseJson(JObj(fields), pairs).fields;
    assert forall i :: 0 <= i < |fields| ==>
      out[i].key == fields[i].key && out[i].value == AnonymiseJson(fields[i].value, pairs);
  }

  lemma ItemsLeak(items: seq<Json>, pairs: seq<Pair>, p: Pair)
    requires forall i :: 0 <= i < |items| ==>
               (Mentions(AnonymiseJson(items[i], pairs), p.real_) <==> KeyMentions(items[i], p.real_))
    ensures Mentions(AnonymiseJson(JArr(items), pairs), p.real_) <==> KeyMentions(JArr(items), p.real_)
  {
    var out := AnonymiseJson(JArr(items), pairs).items;
    assert forall i :: 0 <= i < |items| ==> out[i] == AnonymiseJson(items[i], pairs);
  }

  /** A rewritten document leaks a service exactly when one of its keys contained the name. */
  lemma {:induction false} JsonLeaksThroughKeysOnly(j: Json, pairs: seq<Pair>, p: Pair)
    requires SafeMap(pairs) && p in pairs
    ensures Mentions(AnonymiseJson(j, pairs), p.real_) <==> KeyMentions(j, p.real_)
    decreases j
  {
    match j {
      case JStr(s) => AnonymiseLaws(s, pairs);
      case JObj(fields) =>
        forall i | 0 <= i < |fields|
          ensures Mentions(AnonymiseJson(fields[i].value, pairs), p.real_) <==> KeyMentions(fields[i].value, p.real_)
        {
          JsonLeaksThroughKeysOnly(fields[i].value, pairs, p);
        }
        FieldsLeak(fields, pairs, p);
      case JArr(items) =>
        forall i | 0 <= i < |items|
          ensures Mentions(AnonymiseJson(items[i], pairs), p.real_) <==> KeyMentions(items[i], p.real_)
        {
          JsonLeaksThroughKeysOnly(items[i], pairs, p);
        }
        ItemsLeak(items, pairs, p);
      case _ =>
    }
  }

  /** And keys do leak: a case of the service `db` whose record has a field of that name. */
  lemma KeyLeaks()
    ensures forall n :: MentionedBy([Meta("db", "", "", [])], n) <==> n in {"db"}
    ensures IsAnonMap([Pair("db", "SVC_01")], {"db"}) && Separated([Pair("db", "SVC_01")])
    ensures Mentions(AnonymiseJson(JObj([Field("db", JNull)]), [Pair("db", "SVC_01")]), "db")
  {
    var meta, pairs, j := Meta("db", "", "", []), [Pair("db", "SVC_01")], JObj([Field("db", JNull)]);
    assert [meta][0].Mentions("db");
    assert Names(pairs) == ["db"] && Alias(1) == "SVC_01" && SafeName("db");
    SafeNamesSeparated(pairs, {"db"});
    SafeServices(pairs, {"db"});
    OccursHere("db", "db");
    assert j.fields[0].key == "db" && KeyMentions(j, "db");
    assert pairs[0] in pairs;
    JsonLeaksThroughKeysOnly(j, pairs, pairs[0]);
  }

  // ------------------------------------------------------------------ the files of one exported case

  /** A line of `outcomes.jsonl`, stripped. An entry without notes is read as one with empty notes. */
  datatype OutcomeLine = Blank | Malformed(text: string) | Entry(notes: string, others: seq<Field>)

  /** Only the notes of an entry are rewritten; a line that does not parse is kept. */
  function AnonymiseLine(line: OutcomeLine, pairs: seq<Pair>): OutcomeLine {
    if line.Entry? then line.(notes := Anonymise(line.notes, pairs)) else line
  }

  /** The lines written for the first `n` lines; blank ones are dropped. */
  function AnonymisedLines(lines: seq<OutcomeLine>, n: nat, pairs: seq<Pair>): seq<OutcomeLine>
    requires n <= |lines|
  {
    if n == 0 then []
    else
      var before := AnonymisedLines(lines, n - 1, pairs);
      if lines[n - 1].Blank? then before else before + [AnonymiseLine(lines[n - 1], pairs)]
  }

  /** The loop over `outcomes.jsonl`. */
  method RewriteLines(lines: seq<OutcomeLine>, pairs: seq<Pair>) returns (written: seq<OutcomeLine>)
    requires Usable(LongestFirstOf(pairs))
    ensures written == AnonymisedLines(lines, |lines|, pairs)
  {
    written := [];
    for i := 0 to |lines|
      invariant written == AnonymisedLines(lines, i, pairs)
    {
      match lines[i] {
        case Blank =>
        case Malformed(_) => written := written + [lines[i]];
        case Entry(notes, others) =>
          var rewritten := ApplyAnonToStr(notes, pairs);
          written := written + [Entry(rewritten, others)];
      }
    }
  }

  class ExportedCase {
    var incident: Option<Json>
    var memory: Option<Json>
    var summary: Option<string>
    var outcomes: Option<seq<OutcomeLine>>

    /** `_anonymize_case_export`: the files that exist are rewritten in place. */
    method Anonymize(pairs: seq<Pair>)
      requires Usable(LongestFirstOf(pairs))
      modifies this
      ensures incident == AnonymiseDocument(old(incident), pairs) && memory == AnonymiseDocument(old(memory), pairs)
      ensures old(incident).Some? ==> incident == Some(AnonymiseJson(old(incident).value, pairs))
      ensures old(memory).Some? ==> memory == Some(AnonymiseJson(old(memory).value, pairs))
      ensures summary == if old(summary).None? then None else Some(Anonymise(old(summary).value, pairs))
      ensures outcomes == AnonymiseOutcomes(old(outcomes), pairs)
    {
      incident, memory := AnonymiseDocument(incident, pairs), AnonymiseDocument(memory, pairs);
      if summary.Some? {
        var text := ApplyAnonToStr(summary.value, pairs);
        summary := Some(text);
      }
      if outcomes.Some? {
        var written := RewriteLines(outcomes.value, pairs);
        outcomes := Some(written);
      }
    }
  }

  function AnonymiseDocument(file: Option<Json>, pairs: seq<Pair>): Option<Json> {
    if file.None? then None else Some(AnonymiseJson(file.value, pairs))
  }

  function AnonymiseOutcomes(file: Option<seq<OutcomeLine>>, pairs: seq<Pair>): Option<seq<OutcomeLine>> {
    if file.None? then None else Some(AnonymisedLines(file.value, |file.value|, pairs))
  }

  ghost predicate LineMentions(line: OutcomeLine, name: string) {
    match line
    case Blank => false
    case Malformed(text) => Occurs(text, name)
    case Entry(notes, others) => Occurs(notes, name) || Occurs("notes", name) || Mentions(JObj(others), name)
  }

  /** What of a line is not rewritten: all of one that does not parse, and all of an entry but its notes. */
  ghost predicate LineLeaks(line: OutcomeLine, name: string) {
    match line
    case Blank => false
    case Malformed(text) => Occurs(text, name)
    case Entry(_, others) => Occurs("notes", name) || Mentions(JObj(others), name)
  }

  ghost predicate SomeLineMentions(lines: seq<OutcomeLine>, name: string) {
    exists i :: 0 <= i < |lines| && LineMentions(lines[i], name)
  }

  ghost predicate SomeLineLeaks(lines: seq<OutcomeLine>, n: nat, name: string)
    requires n <= |lines|
  {
    exists i :: 0 <= i < n && LineLeaks(lines[i], name)
  }

  lemma MentionsOneMore(lines: seq<OutcomeLine>, line: OutcomeLine, name: string)
    ensures SomeLineMentions(lines + [line], name) <==> SomeLineMentions(lines, name) || LineMentions(line, name)
  {
    var more := lines + [line];
    if LineMentions(line, name) {
      assert more[|lines|] == line;
    }
    if i :| 0 <= i < |lines| && LineMentions(lines[i], name) {
      assert more[i] == lines[i];
    }
  }

  /** The rewritten outcomes mention a service exactly when a line that does not parse or another field than
    * the notes did: unlike in the documents, a value is enough.
    */
  lemma {:induction false} OutcomesLeakExactly(lines: seq<OutcomeLine>, n: nat, pairs: seq<Pair>, p: Pair)
    requires n <= |lines| && SafeMap(pairs) && p in pairs
    ensures SomeLineMentions(AnonymisedLines(lines, n, pairs), p.real_) <==> SomeLineLeaks(lines, n, p.real_)
  {
    if n > 0 {
      var before, line := AnonymisedLines(lines, n - 1, pairs), lines[n - 1];
      OutcomesLeakExactly(lines, n - 1, pairs, p);
      assert SomeLineLeaks(lines, n, p.real_) <==> SomeLineLeaks(lines, n - 1, p.real_) || LineLeaks(line, p.real_);
      if line.Entry? {
        AnonymiseLaws(line.notes, pairs);
      }
      if !line.Blank? {
        MentionsOneMore(before, AnonymiseLine(line, pairs), p.real_);
      }
    }
  }

  /** Such values exist: an outcome of the service `db` whose action names it. */
  lemma OutcomeValueLeaks()
    ensures Separated([Pair("db", "SVC_01")])
    ensures SomeLineMentions(
      AnonymisedLines([Entry("", [Field("action", JStr("restart db"))])], 1, [Pair("db", "SVC_01")]), "db")
  {
    KeyLeaks();
    var pairs, line := [Pair("db", "SVC_01")], Entry("", [Field("action", JStr("restart db"))]);
    SafeServices(pairs, {"db"});
    assert OccursAt("restart db", "db", 8);
    assert Occurs(line.others[0].value.s, "db");
    assert LineLeaks([line][0], "db") && pairs[0] in pairs;
    OutcomesLeakExactly([line], 1, pairs, pairs[0]);
  }
}
