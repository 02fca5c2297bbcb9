/** The scans of a proposal for forbidden field names and forbidden tokens, at any depth. */
module ForbiddenScan {
  import opened Json
  import opened Text

  datatype Step = Member(i: nat) | Element(i: nat)

  type Path = seq<Step>

  // ------------------------------------------------------------------ fields

  /** The path leads from the document to a field with a forbidden name. */
  predicate NamesForbidden(j: Json, path: Path, forbidden: set<string>) {
    path != [] &&
    match path[0]
    case Member(i) =>
      j.JObj? && i < |j.fields|
      && ((|path| == 1 && j.fields[i].key in forbidden) || NamesForbidden(j.fields[i].value, path[1..], forbidden))
    case Element(i) => j.JArr? && i < |j.items| && NamesForbidden(j.items[i], path[1..], forbidden)
  }

  /** The matches found below `at` are exactly the forbidden fields of the document there. */
  ghost predicate Exactly(j: Json, forbidden: set<string>, at: Path, matches: seq<Path>) {
    && (forall p :: p in matches ==> at <= p && NamesForbidden(j, p[|at|..], forbidden))
    && (forall q :: NamesForbidden(j, q, forbidden) ==> at + q in matches)
  }

  predicate StartsBefore(q: Path, n: nat) {
    q != [] && q[0].i < n
  }

  /** As `Exactly`, for the first `n` members or elements. */
  ghost predicate ExactlyUpTo(j: Json, forbidden: set<string>, at: Path, matches: seq<Path>, n: nat) {
    && (forall p :: p in matches ==> at <= p && NamesForbidden(j, p[|at|..], forbidden))
    && (forall q :: NamesForbidden(j, q, forbidden) && StartsBefore(q, n) ==> at + q in matches)
  }

  function OwnMatch(f: Field, forbidden: set<string>, here: Path): seq<Path> {
    if f.key in forbidden then [here] else []
  }

  lemma OneMemberMore(j: Json, forbidden: set<string>, at: Path, matches: seq<Path>, below: seq<Path>, i: nat)
    requires j.JObj? && i < |j.fields| && ExactlyUpTo(j, forbidden, at, matches, i)
    requires Exactly(j.fields[i].value, forbidden, at + [Member(i)], below)
    ensures ExactlyUpTo(j, forbidden, at, matches + OwnMatch(j.fields[i], forbidden, at + [Member(i)]) + below, i + 1)
  {
    var here := at + [Member(i)];
    var more := OwnMatch(j.fields[i], forbidden, here) + below;
    var all := matches + OwnMatch(j.fields[i], forbidden, here) + below;
    assert all == matches + more;
    forall p | p in more ensures at <= p && NamesForbidden(j, p[|at|..], forbidden) {
    }
    forall q: Path | NamesForbidden(j, q, forbidden) && StartsBefore(q, i + 1) ensures at + q in all {
      if q[0].i == i {
        assert q == [Member(i)] + q[1..] && at + q == here + q[1..];
        if |q| == 1 && j.fields[i].key in forbidden {
          assert here + q[1..] == here && here in OwnMatch(j.fields[i], forbidden, here);
        } else {
          assert here + q[1..] in below;
        }
      }
    }
  }

  lemma OneElementMore(j: Json, forbidden: set<string>, at: Path, matches: seq<Path>, below: seq<Path>, i: nat)
    requires j.JArr? && i < |j.items| && ExactlyUpTo(j, forbidden, at, matches, i)
    requires Exactly(j.items[i], forbidden, at + [Element(i)], below)
    ensures ExactlyUpTo(j, forbidden, at, matches + below, i + 1)
  {
    forall p | p in below ensures at <= p && NamesForbidden(j, p[|at|..], forbidden) {
    }
    forall q: Path | NamesForbidden(j, q, forbidden) && StartsBefore(q, i + 1) ensures at + q in matches + below {
      if q[0].i == i {
        assert q == [Element(i)] + q[1..] && at + q == at + [Element(i)] + q[1..];
        assert at + [Element(i)] + q[1..] in below;
      }
    }
  }

  /** `_contains_forbidden_field`: the matches are exactly the forbidden fields, with their paths. */
  method ScanFields(j: Json, forbidden: set<string>, at: Path) returns (matches: seq<Path>)
    ensures Exactly(j, forbidden, at, matches)
    decreases j
  {
    matches := [];
    if j.JObj? {
      for i := 0 to |j.fields|
        invariant ExactlyUpTo(j, forbidden, at, matches, i)
      {
        var below := ScanFields(j.fields[i].value, forbidden, at + [Member(i)]);
        OneMemberMore(j, forbidden, at, matches, below, i);
        matches := matches + OwnMatch(j.fields[i], forbidden, at + [Member(i)]) + below;
      }
    } else if j.JArr? {
      for i := 0 to |j.items|
        invariant ExactlyUpTo(j, forbidden, at, matches, i)
      {
        var below := ScanFields(j.items[i], forbidden, at + [Element(i)]);
        OneElementMore(j, forbidden, at, matches, below, i);
        matches := matches + below;
      }
    }
  }

  // ------------------------------------------------------------------ tokens

  function LowerChar(c: char): char {
    if 'A' <= c <= 'Z' then c - 'A' + 'a' else c
  }

  function Lower(s: string): string {
    seq(|s|, i requires 0 <= i < |s| => LowerChar(s[i]))
  }

  /** The capital letters, by their codes, become the small ones; nothing else changes. */
  lemma LowerExactly(s: string, i: nat)
    requires i < |s|
    ensures |Lower(s)| == |s|
    ensures Lower(s)[i] as int == if 65 <= s[i] as int <= 90 then s[i] as int + 32 else s[i] as int
  {
  }

  predicate IsToken(s: string, tokens: set<string>) {
    Lower(Strip(s)) in set t | t in tokens :: Lower(t)
  }

  /** The path leads to the text `s`, which is a forbidden token. */
  predicate NamesToken(j: Json, path: Path, tokens: set<string>, s: string) {
    if path == [] then j == JStr(s) && IsToken(s, tokens)
    else match path[0]
      case Member(i) => j.JObj? && i < |j.fields| && NamesToken(j.fields[i].value, path[1..], tokens, s)
      case Element(i) => j.JArr? && i < |j.items| && NamesToken(j.items[i], path[1..], tokens, s)
  }

  ghost predicate TokenIn(j: Json, tokens: set<string>, s: string) {
    exists path :: NamesToken(j, path, tokens, s)
  }

  lemma TokenInMember(j: Json, tokens: set<string>, s: string)
    requires j.JObj?
    ensures TokenIn(j, tokens, s) <==> exists i :: 0 <= i < |j.fields| && TokenIn(j.fields[i].value, tokens, s)
  {
    if path: Path :| NamesToken(j, path, tokens, s) {
      assert NamesToken(j.fields[path[0].i].value, path[1..], tokens, s);
    }
    if i :| 0 <= i < |j.fields| && TokenIn(j.fields[i].value, tokens, s) {
      var path: Path :| NamesToken(j.fields[i].value, path, tokens, s);
      assert ([Member(i)] + path)[1..] == path;
      assert NamesToken(j, [Member(i)] + path, tokens, s);
    }
  }

  lemma TokenInElement(j: Json, tokens: set<string>, s: string)
    requires j.JArr?
    ensures TokenIn(j, tokens, s) <==> exists i :: 0 <= i < |j.items| && TokenIn(j.items[i], tokens, s)
  {
    if path: Path :| NamesToken(j, path, tokens, s) {
      assert NamesToken(j.items[path[0].i], path[1..], tokens, s);
    }
    if i :| 0 <= i < |j.items| && TokenIn(j.items[i], tokens, s) {
      var path: Path :| NamesToken(j.items[i], path, tokens, s);
      assert ([Element(i)] + path)[1..] == path;
      assert NamesToken(j, [Element(i)] + path, tokens, s);
    }
  }

  lemma TokenInLeaf(j: Json, tokens: set<string>, s: string)
    requires !j.JObj? && !j.JArr?
    ensures TokenIn(j, tokens, s) <==> j == JStr(s) && IsToken(s, tokens)
  {
    if j == JStr(s) && IsToken(s, tokens) {
      assert NamesToken(j, [], tokens, s);
    }
  }

  /** `_contains_forbidden_token`: the matches are exactly the forbidden texts. */
  method ScanTokens(j: Json, tokens: set<string>) returns (matches: seq<string>)
    ensures forall s :: s in matches <==> TokenIn(j, tokens, s)
    decreases j
  {
    matches := [];
    if j.JObj? {
      for i := 0 to |j.fields|
        invariant forall s :: s in matches <==> exists k :: 0 <= k < i && TokenIn(j.fields[k].value, tokens, s)
      {
        var below := ScanTokens(j.fields[i].value, tokens);
        matches := matches + below;
      }
      forall s ensures s in matches <==> TokenIn(j, tokens, s) {
        TokenInMember(j, tokens, s);
      }
    } else if j.JArr? {
      for i := 0 to |j.items|
        invariant forall s :: s in matches <==> exists k :: 0 <= k < i && TokenIn(j.items[k], tokens, s)
      {
        var below := ScanTokens(j.items[i], tokens);
        matches := matches + below;
      }
      forall s ensures s in matches <==> TokenIn(j, tokens, s) {
        TokenInElement(j, tokens, s);
      }
    } else {
      if j.JStr? && IsToken(j.s, tokens) {
        matches := [j.s];
      }
      forall s ensures s in matches <==> TokenIn(j, tokens, s) {
        TokenInLeaf(j, tokens, s);
      }
    }
  }
}
