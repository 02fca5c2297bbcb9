/** Text operations the modelled code takes from the language: decimal rendering, the order on
  * strings, `replace`, `split` and `join`, with the facts the other modules need.
  */
module Text {

  // ------------------------------------------------------------------ decimal numbers

  function Digit(d: nat): char
    requires d < 10
  {
    ('0' as int + d) as char
  }

  function Decimal(n: nat): (s: string)
    ensures s != []
    ensures forall i :: 0 <= i < |s| ==> '0' <= s[i] <= '9'
  {
    if n < 10 then [Digit(n)] else Decimal(n / 10) + [Digit(n % 10)]
  }

  lemma {:induction false} DecimalInjective(m: nat, n: nat)
    requires Decimal(m) == Decimal(n)
    ensures m == n
    decreases m
  {
    LastDigit(m);
    LastDigit(n);
    if m >= 10 {
      DecimalInjective(m / 10, n / 10);
    }
  }

  lemma LastDigit(n: nat)
    ensures var s := Decimal(n);
            && s[|s| - 1] == Digit(n % 10)
            && (n >= 10 ==> |s| > 1 && s[..|s| - 1] == Decimal(n / 10))
            && (n < 10 ==> |s| == 1)
  {
    if n >= 10 {
      var s := Decimal(n);
      assert s == Decimal(n / 10) + [Digit(n % 10)];
    }
  }

  lemma {:induction false} DecimalGrows(n: nat)
    ensures |Decimal(n)| <= |Decimal(n + 1)|
  {
    LastDigit(n);
    LastDigit(n + 1);
    if n >= 10 {
      DecimalGrows(n / 10);
    }
  }

  lemma {:induction false} NoLeadingZero(n: nat)
    requires n > 0
    ensures Decimal(n)[0] != '0'
  {
    if n >= 10 {
      NoLeadingZero(n / 10);
    }
  }

  // ------------------------------------------------------------------ the order on strings

  /** Lexicographic order by code point. */
  predicate Leq(a: string, b: string) {
    if a == [] then true
    else if b == [] then false
    else a[0] < b[0] || (a[0] == b[0] && Leq(a[1..], b[1..]))
  }

  predicate Less(a: string, b: string) {
    a != b && Leq(a, b)
  }

  lemma {:induction false} LeqTotal(a: string, b: string)
    ensures Leq(a, b) || Leq(b, a)
  {
    if a != [] && b != [] && a[0] == b[0] {
      LeqTotal(a[1..], b[1..]);
    }
  }

  lemma {:induction false} LeqAntisymmetric(a: string, b: string)
    requires Leq(a, b) && Leq(b, a)
    ensures a == b
  {
    if a != [] {
      LeqAntisymmetric(a[1..], b[1..]);
      assert a == [a[0]] + a[1..] && b == [b[0]] + b[1..];
    }
  }

  lemma {:induction false} LeqTransitive(a: string, b: string, c: string)
    requires Leq(a, b) && Leq(b, c)
    ensures Leq(a, c)
  {
    if a != [] && a[0] == b[0] && b[0] == c[0] {
      LeqTransitive(a[1..], b[1..], c[1..]);
    }
  }

  lemma LessTransitive(a: string, b: string, c: string)
    requires Less(a, b) && Less(b, c)
    ensures Less(a, c)
  {
    LeqTransitive(a, b, c);
    if a == c {
      LeqAntisymmetric(a, b);
    }
  }

  // ------------------------------------------------------------------ replace

  predicate OccursAt(t: string, p: string, i: nat) {
    i + |p| <= |t| && t[i..i + |p|] == p
  }

  predicate Occurs(t: string, p: string) {
    exists i: nat :: i <= |t| && OccursAt(t, p, i)
  }

  /** `t.replace(p, r)` for a non-empty pattern: leftmost, non-overlapping. */
  function Replace(t: string, p: string, r: string): string
    requires p != []
  {
    if |t| < |p| then t
    else if p <= t then r + Replace(t[|p|..], p, r)
    else [t[0]] + Replace(t[1..], p, r)
  }

  lemma OccursHere(t: string, p: string)
    requires p <= t
    ensures Occurs(t, p)
  {
    assert OccursAt(t, p, 0);
  }

  lemma OccursWhereEqual(t: string, p: string, i: nat)
    requires i + |p| <= |t| && forall k :: 0 <= k < |p| ==> p[k] == t[i + k]
    ensures Occurs(t, p)
  {
    assert t[i..i + |p|] == p;
    assert OccursAt(t, p, i);
  }

  lemma OccursLater(t: string, p: string, k: nat)
    requires k <= |t| && Occurs(t[k..], p)
    ensures Occurs(t, p)
  {
    var i: nat :| i <= |t[k..]| && OccursAt(t[k..], p, i);
    assert t[k..][i..i + |p|] == t[k + i..k + i + |p|];
    assert OccursAt(t, p, k + i);
  }

  /** A pattern occurs at the start or somewhere in the rest. */
  lemma OccursSplit(t: string, p: string)
    requires Occurs(t, p) && p != []
    ensures t != [] && (p <= t || Occurs(t[1..], p))
  {
    var i: nat :| i <= |t| && OccursAt(t, p, i);
    if i > 0 {
      assert t[1..][i - 1..i - 1 + |p|] == t[i..i + |p|];
      assert OccursAt(t[1..], p, i - 1);
    }
  }

  lemma {:induction false} ReplaceAbsent(t: string, p: string, r: string)
    requires p != [] && !Occurs(t, p)
    ensures Replace(t, p, r) == t
    decreases |t|
  {
    if |t| >= |p| {
      if p <= t {
        OccursHere(t, p);
      }
      if Occurs(t[1..], p) {
        OccursLater(t, p, 1);
      }
      ReplaceAbsent(t[1..], p, r);
    }
  }

  lemma ReplaceWhole(p: string, r: string)
    requires p != []
    ensures Replace(p, p, r) == r
  {
    assert p[|p|..] == [];
  }

  // ------------------------------------------------------------------ strip

  predicate IsSpace(c: char) {
    c == ' ' || c == '\t' || c == '\n' || c == '\r' || c == '\U{000B}' || c == '\U{000C}'
  }

  function StripLeft(t: string): string {
    if t != [] && IsSpace(t[0]) then StripLeft(t[1..]) else t
  }

  function StripRight(t: string): string {
    if t != [] && IsSpace(t[|t| - 1]) then StripRight(t[..|t| - 1]) else t
  }

  /** `t.strip()`. */
  function Strip(t: string): string {
    StripRight(StripLeft(t))
  }

  /** No surrounding whitespace. */
  predicate Bare(t: string) {
    t != [] ==> !IsSpace(t[0]) && !IsSpace(t[|t| - 1])
  }

  lemma {:induction false} StripRightEnds(t: string)
    ensures StripRight(t) != [] ==> !IsSpace(StripRight(t)[|StripRight(t)| - 1])
    ensures StripRight(t) <= t
  {
    if t != [] && IsSpace(t[|t| - 1]) {
      StripRightEnds(t[..|t| - 1]);
    }
  }

  lemma {:induction false} StripLeftStarts(t: string)
    ensures StripLeft(t) != [] ==> !IsSpace(StripLeft(t)[0])
  {
    if t != [] && IsSpace(t[0]) {
      StripLeftStarts(t[1..]);
    }
  }

  /** Stripping gives a bare text, and exactly the bare texts are unchanged by it. */
  lemma StripBare(t: string)
    ensures Bare(Strip(t))
    ensures Strip(t) == t <==> Bare(t)
  {
    StripLeftStarts(t);
    StripRightEnds(StripLeft(t));
  }
}
