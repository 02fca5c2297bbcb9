/** The drift measure of the signal agent: a two-row edit-distance loop, and what it computes.
  * `Cell` is the textbook recursion over prefixes. The lemmas identify `Dist` with the least
  * number of single-character edits that turn one string into the other, and make it a metric.
  */
module EditDistance {

  function Min(a: int, b: int): int {
    if a < b then a else b
  }

  function Differ(a: char, b: char): nat {
    if a == b then 0 else 1
  }

  /** The distance between the first `i` characters of `a` and the first `j` of `b`. */
  function Cell(a: string, b: string, i: nat, j: nat): nat
    requires i <= |a| && j <= |b|
    decreases i + j
  {
    if i == 0 then j
    else if j == 0 then i
    else Min(Cell(a, b, i - 1, j) + 1,
             Min(Cell(a, b, i, j - 1) + 1, Cell(a, b, i - 1, j - 1) + Differ(a[i - 1], b[j - 1])))
  }

  function Dist(a: string, b: string): nat {
    Cell(a, b, |a|, |b|)
  }

  // ------------------------------------------------------------------ metric laws

  lemma {:induction false} CellZero(a: string, b: string, i: nat, j: nat)
    requires i <= |a| && j <= |b|
    ensures Cell(a, b, i, j) == 0 <==> a[..i] == b[..j]
    decreases i + j
  {
    if i > 0 && j > 0 {
      CellZero(a, b, i - 1, j - 1);
      assert a[..i] == a[..i - 1] + [a[i - 1]] && b[..j] == b[..j - 1] + [b[j - 1]];
    }
  }

  lemma DistZero(a: string, b: string)
    ensures Dist(a, b) == 0 <==> a == b
  {
    CellZero(a, b, |a|, |b|);
    assert a[..|a|] == a && b[..|b|] == b;
  }

  /** At least the difference of the lengths ... */
  lemma {:induction false} CellAtLeast(a: string, b: string, i: nat, j: nat)
    requires i <= |a| && j <= |b|
    ensures i - j <= Cell(a, b, i, j) && j - i <= Cell(a, b, i, j)
    decreases i + j
  {
    if i > 0 && j > 0 {
      CellAtLeast(a, b, i - 1, j);
      CellAtLeast(a, b, i, j - 1);
      CellAtLeast(a, b, i - 1, j - 1);
    }
  }

  /** ... and at most the longer length. */
  lemma {:induction false} CellAtMost(a: string, b: string, i: nat, j: nat)
    requires i <= |a| && j <= |b|
    ensures Cell(a, b, i, j) <= if i < j then j else i
    decreases i + j
  {
    if i > 0 && j > 0 {
      CellAtMost(a, b, i - 1, j - 1);
      CellStep(a, b, i, j);
    }
  }

  lemma CellStep(a: string, b: string, i: nat, j: nat)
    requires 0 < i <= |a| && 0 < j <= |b|
    ensures Cell(a, b, i, j) <= Cell(a, b, i - 1, j) + 1
    ensures Cell(a, b, i, j) <= Cell(a, b, i, j - 1) + 1
    ensures Cell(a, b, i, j) <= Cell(a, b, i - 1, j - 1) + Differ(a[i - 1], b[j - 1])
  {
  }

  /** The price of the move into cell (i, j) from a neighbour. */
  function Price(a: string, b: string, i: nat, j: nat, i': nat, j': nat): nat
    requires i' <= i <= |a| && j' <= j <= |b|
  {
    if i' < i && j' < j then Differ(a[i'], b[j']) else 1
  }

  predicate Neighbour(i: nat, j: nat, i': nat, j': nat) {
    i - 1 <= i' <= i && j - 1 <= j' <= j && i' + j' < i + j
  }

  /** The neighbour from which a cell takes its value. */
  function CellFrom(a: string, b: string, i: nat, j: nat): (from: (nat, nat))
    requires 0 < i <= |a| && 0 < j <= |b|
    ensures Neighbour(i, j, from.0, from.1)
    ensures Cell(a, b, i, j) == Cell(a, b, from.0, from.1) + Price(a, b, i, j, from.0, from.1)
  {
    if Cell(a, b, i, j) == Cell(a, b, i - 1, j) + 1 then (i - 1, j)
    else if Cell(a, b, i, j) == Cell(a, b, i, j - 1) + 1 then (i, j - 1)
    else (i - 1, j - 1)
  }

  lemma CellFromNeighbour(a: string, b: string, i: nat, j: nat, i': nat, j': nat)
    requires 0 < i <= |a| && 0 < j <= |b| && Neighbour(i, j, i', j')
    ensures Cell(a, b, i, j) <= Cell(a, b, i', j') + Price(a, b, i, j, i', j')
  {
    CellStep(a, b, i, j);
  }

  lemma {:induction false} CellSwapped(a: string, b: string, i: nat, j: nat)
    requires i <= |a| && j <= |b|
    ensures Cell(b, a, j, i) <= Cell(a, b, i, j)
    decreases i + j
  {
    if i > 0 && j > 0 {
      var (i', j') := CellFrom(a, b, i, j);
      CellSwapped(a, b, i', j');
      CellFromNeighbour(b, a, j, i, j', i');
    }
  }

  lemma DistSymmetric(a: string, b: string)
    ensures Dist(a, b) == Dist(b, a)
  {
    CellSwapped(a, b, |a|, |b|);
    CellSwapped(b, a, |b|, |a|);
  }

  lemma {:induction false} CellTriangle(a: string, b: string, c: string, i: nat, j: nat, k: nat)
    requires i <= |a| && j <= |b| && k <= |c|
    ensures Cell(a, c, i, k) <= Cell(a, b, i, j) + Cell(b, c, j, k)
    decreases i + j + k
  {
    if i == 0 {
      CellAtLeast(b, c, j, k);
    } else if k == 0 {
      CellAtLeast(a, b, i, j);
    } else if j == 0 {
      CellAtMost(a, c, i, k);
    } else {
      var (i', j') := CellFrom(a, b, i, j);
      if j' == j {
        CellTriangle(a, b, c, i', j, k);
        CellFromNeighbour(a, c, i, k, i', k);
      } else {
        var (j'', k') := CellFrom(b, c, j, k);
        if j'' == j {
          CellTriangle(a, b, c, i, j, k');
          CellFromNeighbour(a, c, i, k, i, k');
        } else {
          CellTriangle(a, b, c, i', j', k');
          BothThroughMiddle(a, b, c, i, j, k, i', k');
        }
      }
    }
  }

  /** Two moves that both consume the middle character cost at least the combined move. */
  lemma BothThroughMiddle(a: string, b: string, c: string, i: nat, j: nat, k: nat, i': nat, k': nat)
    requires 0 < i <= |a| && 0 < j <= |b| && 0 < k <= |c|
    requires i - 1 <= i' <= i && k - 1 <= k' <= k
    ensures Cell(a, c, i, k) <= Cell(a, c, i', k') + Price(a, b, i, j, i', j - 1) + Price(b, c, j, k, j - 1, k')
  {
    if i' < i || k' < k {
      CellFromNeighbour(a, c, i, k, i', k');
    }
  }

  lemma DistTriangle(a: string, b: string, c: string)
    ensures Dist(a, c) <= Dist(a, b) + Dist(b, c)
  {
    CellTriangle(a, b, c, |a|, |b|, |c|);
  }

  // ------------------------------------------------------------------ what the number counts

  datatype Edit =
    | Insert(at: nat, c: char)
    | Delete(at: nat)
    | Substitute(at: nat, c: char)
  {
    predicate Applicable(s: string) {
      match this
      case Insert(at, _) => at <= |s|
      case Delete(at) => at < |s|
      case Substitute(at, _) => at < |s|
    }

    function Apply(s: string): string
      requires Applicable(s)
    {
      match this
      case Insert(at, c) => s[..at] + [c] + s[at..]
      case Delete(at) => s[..at] + s[at + 1..]
      case Substitute(at, c) => s[..at] + [c] + s[at + 1..]
    }
  }

  ghost predicate OneEdit(a: string, b: string) {
    exists e: Edit :: e.Applicable(a) && e.Apply(a) == b
  }

  /** `b` is reached from `a` by exactly `n` single-character edits, anywhere and in any order. */
  ghost predicate Reaches(a: string, b: string, n: nat)
    decreases n
  {
    if n == 0 then a == b else exists m: string :: OneEdit(a, m) && Reaches(m, b, n - 1)
  }

  /** The headline: `Dist` edits suffice, and fewer never do. */
  lemma DistIsLeastEdits(a: string, b: string)
    ensures Reaches(a, b, Dist(a, b))
    ensures forall n: nat :: Reaches(a, b, n) ==> Dist(a, b) <= n
  {
    CellReached(a, b, |a|, |b|);
    assert a[..|a|] == a && b[..|b|] == b;
    forall n: nat | Reaches(a, b, n) ensures Dist(a, b) <= n {
      NoShorter(a, b, n);
    }
  }

  lemma {:induction false} NoShorter(a: string, b: string, n: nat)
    requires Reaches(a, b, n)
    ensures Dist(a, b) <= n
    decreases n
  {
    if n == 0 {
      DistZero(a, b);
    } else {
      var m :| OneEdit(a, m) && Reaches(m, b, n - 1);
      NoShorter(m, b, n - 1);
      var e: Edit :| e.Applicable(a) && e.Apply(a) == m;
      EditIsNear(a, e);
      DistTriangle(a, m, b);
    }
  }

  lemma EditIsNear(a: string, e: Edit)
    requires e.Applicable(a)
    ensures Dist(a, e.Apply(a)) <= 1
  {
    var b := e.Apply(a);
    CellZero(a, b, e.at, e.at);
    var skip := |a| - e.at - match e { case Insert(_, _) => 0 case Delete(_) => 1 case Substitute(_, _) => 1 };
    assert Cell(a, b, |a| - skip, |b| - skip) <= 1;
    CommonSuffix(a, b, |a| - skip, |b| - skip);
  }

  /** A common suffix never increases the distance. */
  lemma {:induction false} CommonSuffix(a: string, b: string, i: nat, j: nat)
    requires i <= |a| && j <= |b| && a[i..] == b[j..]
    ensures Dist(a, b) <= Cell(a, b, i, j)
    decreases |a| - i
  {
    assert |a[i..]| == |b[j..]|;
    if i < |a| {
      assert a[i] == a[i..][0] == b[j..][0] == b[j];
      assert a[i + 1..] == a[i..][1..] == b[j..][1..] == b[j + 1..];
      CommonSuffix(a, b, i + 1, j + 1);
    }
  }

  lemma {:induction false} CellReached(a: string, b: string, i: nat, j: nat)
    requires i <= |a| && j <= |b|
    ensures Reaches(a[..i], b[..j], Cell(a, b, i, j))
    decreases i + j
  {
    if i > 0 || j > 0 {
      var (i', j') := if j == 0 then (i - 1, j) else if i == 0 then (i, j - 1) else CellFrom(a, b, i, j);
      CellReached(a, b, i', j');
      ReachesNext(a, b, i, j, i', j', Cell(a, b, i', j'));
    }
  }

  lemma ReachesNext(a: string, b: string, i: nat, j: nat, i': nat, j': nat, n: nat)
    requires i <= |a| && j <= |b| && Neighbour(i, j, i', j')
    requires Reaches(a[..i'], b[..j'], n)
    ensures Reaches(a[..i], b[..j], n + Price(a, b, i, j, i', j'))
  {
    if j' == j {
      DeleteLast(a, i);
      EditThenReaches(a[..i], a[..i'], b[..j], n);
    } else if i' == i {
      InsertLast(b, j);
      ReachesThenEdit(a[..i], b[..j'], b[..j], n);
    } else {
      ReachesDiagonally(a, b, i, j, n);
    }
  }

  lemma DeleteLast(a: string, i: nat)
    requires 0 < i <= |a|
    ensures OneEdit(a[..i], a[..i - 1])
  {
    var e := Delete(i - 1);
    assert e.Applicable(a[..i]) && e.Apply(a[..i]) == a[..i - 1];
  }

  lemma InsertLast(b: string, j: nat)
    requires 0 < j <= |b|
    ensures OneEdit(b[..j - 1], b[..j])
  {
    var e := Insert(j - 1, b[j - 1]);
    assert e.Applicable(b[..j - 1]) && e.Apply(b[..j - 1]) == b[..j];
  }

  lemma EditThenReaches(a: string, m: string, b: string, n: nat)
    requires OneEdit(a, m) && Reaches(m, b, n)
    ensures Reaches(a, b, n + 1)
  {
  }

  lemma {:induction false} ReachesThenEdit(a: string, m: string, b: string, n: nat)
    requires Reaches(a, m, n) && OneEdit(m, b)
    ensures Reaches(a, b, n + 1)
    decreases n
  {
    if n == 0 {
      assert OneEdit(a, b) && Reaches(b, b, 0);
    } else {
      var x :| OneEdit(a, x) && Reaches(x, m, n - 1);
      ReachesThenEdit(x, m, b, n - 1);
    }
  }

  lemma ReachesDiagonally(a: string, b: string, i: nat, j: nat, n: nat)
    requires 0 < i <= |a| && 0 < j <= |b| && Reaches(a[..i - 1], b[..j - 1], n)
    ensures Reaches(a[..i], b[..j], n + Differ(a[i - 1], b[j - 1]))
  {
    var c, d := a[i - 1], b[j - 1];
    ReachesExtended(a[..i - 1], b[..j - 1], c, n);
    assert a[..i] == a[..i - 1] + [c] && b[..j] == b[..j - 1] + [d];
    if c != d {
      SubstituteLast(b[..j - 1], c, d);
      ReachesThenEdit(a[..i], b[..j - 1] + [c], b[..j], n);
    }
  }

  lemma SubstituteLast(b: string, c: char, d: char)
    ensures OneEdit(b + [c], b + [d])
  {
    var e := Substitute(|b|, d);
    assert e.Applicable(b + [c]) && e.Apply(b + [c]) == b + [d];
  }

  lemma {:induction false} ReachesExtended(a: string, b: string, c: char, n: nat)
    requires Reaches(a, b, n)
    ensures Reaches(a + [c], b + [c], n)
    decreases n
  {
    if n > 0 {
      var m :| OneEdit(a, m) && Reaches(m, b, n - 1);
      OneEditExtended(a, m, c);
      ReachesExtended(m, b, c, n - 1);
      EditThenReaches(a + [c], m + [c], b + [c], n - 1);
    }
  }

  lemma OneEditExtended(a: string, b: string, c: char)
    requires OneEdit(a, b)
    ensures OneEdit(a + [c], b + [c])
  {
    var e: Edit :| e.Applicable(a) && e.Apply(a) == b;
    EditCommutesWithSuffix(a, e, c);
  }

  lemma EditCommutesWithSuffix(a: string, e: Edit, c: char)
    requires e.Applicable(a)
    ensures e.Applicable(a + [c]) && e.Apply(a + [c]) == e.Apply(a) + [c]
  {
    match e {
      case Insert(at, d) => assert (a + [c])[at..] == a[at..] + [c];
      case Delete(at) => assert (a + [c])[at + 1..] == a[at + 1..] + [c];
      case Substitute(at, d) => assert (a + [c])[at + 1..] == a[at + 1..] + [c];
    }
  }

  // ------------------------------------------------------------------ the code

  /** `row` holds row `i` of the table, up to column `n`. */
  ghost predicate IsRow(row: seq<int>, a: string, b: string, i: nat, n: nat)
    requires i <= |a| && n <= |b|
  {
    |row| == n + 1 && forall k :: 0 <= k <= n ==> row[k] == Cell(a, b, i, k)
  }

  lemma RowExtended(prev: seq<int>, cur: seq<int>, a: string, b: string, i: nat, j: nat)
    requires i < |a| && j < |b|
    requires IsRow(prev, a, b, i, |b|) && IsRow(cur, a, b, i + 1, j)
    ensures IsRow(cur + [Min(prev[j + 1] + 1, Min(cur[j] + 1, prev[j] + Differ(a[i], b[j])))], a, b, i + 1, j + 1)
  {
    assert prev[j + 1] == Cell(a, b, i, j + 1) && prev[j] == Cell(a, b, i, j) && cur[j] == Cell(a, b, i + 1, j);
  }

  /** `SignalAgent._levenshtein`: swaps its arguments so that the row runs over the shorter
    * string, then keeps two rows of the table.
    */
  method Levenshtein(s1: string, s2: string) returns (d: nat)
    ensures d == Dist(s1, s2)
    decreases |s1| < |s2|
  {
    if |s1| < |s2| {
      d := Levenshtein(s2, s1);
      DistSymmetric(s1, s2);
      return;
    }
    if |s2| == 0 {
      return |s1|;
    }
    var previousRow: seq<int> := seq(|s2| + 1, j => j);
    var i := 0;
    while i < |s1|
      invariant 0 <= i <= |s1|
      invariant IsRow(previousRow, s1, s2, i, |s2|)
    {
      var currentRow: seq<int> := [i + 1];
      var j := 0;
      while j < |s2|
        invariant 0 <= j <= |s2|
        invariant IsRow(currentRow, s1, s2, i + 1, j)
      {
        var insertions := previousRow[j + 1] + 1;
        var deletions := currentRow[j] + 1;
        var substitutions := previousRow[j] + Differ(s1[i], s2[j]);
        RowExtended(previousRow, currentRow, s1, s2, i, j);
        currentRow := currentRow + [Min(insertions, Min(deletions, substitutions))];
        j := j + 1;
      }
      previousRow := currentRow;
      i := i + 1;
    }
    return previousRow[|s2|];
  }

  /** The normalised drift `generate` feeds to the kernel: distance over the longer length. */
  method NormalisedDrift(prompt: string, centroid: string) returns (d: real)
    ensures 0.0 <= d <= 1.0
    ensures d == 0.0 <==> prompt == centroid
    ensures d * Longer(prompt, centroid) as real == Dist(prompt, centroid) as real
  {
    var dist := Levenshtein(prompt, centroid);
    var maxLen := Longer(prompt, centroid);
    d := if maxLen > 0 then dist as real / maxLen as real else 0.0;
    DriftLaws(prompt, centroid);
  }

  function Longer(a: string, b: string): nat {
    if |a| < |b| then |b| else |a|
  }

  lemma DriftLaws(a: string, b: string)
    ensures Dist(a, b) <= Longer(a, b)
    ensures Dist(a, b) == 0 <==> a == b
    ensures Longer(a, b) > 0 ==>
              var q := Dist(a, b) as real / Longer(a, b) as real;
              0.0 <= q <= 1.0 && (q == 0.0 <==> a == b) && q * Longer(a, b) as real == Dist(a, b) as real
  {
    CellAtMost(a, b, |a|, |b|);
    DistZero(a, b);
    if Longer(a, b) > 0 {
      RatioInUnit(Dist(a, b), Longer(a, b));
    }
  }

  lemma RatioInUnit(n: nat, m: nat)
    requires n <= m && m > 0
    ensures 0.0 <= n as real / m as real <= 1.0
    ensures n as real / m as real == 0.0 <==> n == 0
    ensures (n as real / m as real) * m as real == n as real
  {
    var q := n as real / m as real;
    assert q * m as real == n as real;
  }
}
