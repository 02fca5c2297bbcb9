/** Symbolic path normalisation of the governed shell, and how a snapshot takes it apart again. */
module PathNormalize {

  datatype Result<+T> = Ok(value: T) | Err(error: PathError)

  datatype PathError = AbsolutePath | ForbiddenCharacter | ParentTraversal

  // ------------------------------------------------------------------ splitting and joining

  /** `s.split("/")`: never empty. */
  function Split(s: string): (segs: seq<string>)
    ensures segs != []
  {
    if s == [] then [""]
    else if s[0] == '/' then [""] + Split(s[1..])
    else
      var rest := Split(s[1..]);
      [[s[0]] + rest[0]] + rest[1..]
  }

  /** `"/".join(segs)`. */
  function Join(segs: seq<string>): string {
    if segs == [] then ""
    else if |segs| == 1 then segs[0]
    else segs[0] + "/" + Join(segs[1..])
  }

  predicate NoSlash(s: string) {
    forall i :: 0 <= i < |s| ==> s[i] != '/'
  }

  predicate NoSlashes(segs: seq<string>) {
    forall i :: 0 <= i < |segs| ==> NoSlash(segs[i])
  }

  lemma {:induction false} SplitNoSlashes(s: string)
    ensures NoSlashes(Split(s))
  {
    if s != [] {
      SplitNoSlashes(s[1..]);
    }
  }

  lemma {:induction false} SplitPlain(s: string)
    requires NoSlash(s)
    ensures Split(s) == [s]
  {
    if s != [] {
      SplitPlain(s[1..]);
      assert s == [s[0]] + s[1..];
    }
  }

  lemma {:induction false} SplitFirst(s: string, rest: string)
    requires NoSlash(s)
    ensures Split(s + "/" + rest) == [s] + Split(rest)
  {
    var t := s + "/" + rest;
    if s == [] {
      assert t[1..] == rest;
    } else {
      SplitFirst(s[1..], rest);
      assert t[0] == s[0] && t[1..] == s[1..] + "/" + rest;
      assert s == [s[0]] + s[1..];
    }
  }

  lemma {:induction false} SplitJoin(segs: seq<string>)
    requires segs != [] && NoSlashes(segs)
    ensures Split(Join(segs)) == segs
  {
    if |segs| == 1 {
      SplitPlain(segs[0]);
    } else {
      SplitJoin(segs[1..]);
      SplitFirst(segs[0], Join(segs[1..]));
    }
  }

  // ------------------------------------------------------------------ normalising

  predicate IsLetter(c: char) {
    'A' <= c <= 'Z' || 'a' <= c <= 'z'
  }

  predicate IsSeparator(c: char) {
    c == '/' || c == '\\'
  }

  predicate IsForbidden(c: char) {
    c == '|' || c == '>' || c == '<' || c == ';' || c == '&' || c == '`'
  }

  /** The absolute-path pattern: a drive letter, colon and separator, or a leading separator. */
  predicate IsAbsolute(p: string) {
    || (|p| >= 1 && IsSeparator(p[0]))
    || (|p| >= 3 && IsLetter(p[0]) && p[1] == ':' && IsSeparator(p[2]))
  }

  predicate HasForbidden(p: string) {
    exists i :: 0 <= i < |p| && IsForbidden(p[i])
  }

  function ToSlash(c: char): char {
    if c == '\\' then '/' else c
  }

  function Standardized(p: string): string {
    seq(|p|, i requires 0 <= i < |p| => ToSlash(p[i]))
  }

  predicate IsSkipped(seg: string) {
    seg == "" || seg == "."
  }

  /** The segments that survive normalisation. */
  function Kept(segs: seq<string>): seq<string> {
    if segs == [] then []
    else
      var before, last := Kept(segs[..|segs| - 1]), segs[|segs| - 1];
      if IsSkipped(last) then before else before + [last]
  }

  function Segments(p: string): seq<string> {
    Split(Standardized(p))
  }

  function Rejoined(kept: seq<string>): string {
    if kept == [] then "." else Join(kept)
  }

  function Normalized(p: string): Result<string> {
    if IsAbsolute(p) then Err(AbsolutePath)
    else if HasForbidden(p) then Err(ForbiddenCharacter)
    else if ".." in Segments(p) then Err(ParentTraversal)
    else Ok(Rejoined(Kept(Segments(p))))
  }

  /** `_normalize_relative_path`. */
  method NormalizeRelativePath(p: string) returns (r: Result<string>)
    ensures r == Normalized(p)
  {
    if IsAbsolute(p) {
      return Err(AbsolutePath);
    }
    if HasForbidden(p) {
      return Err(ForbiddenCharacter);
    }
    var segments := Split(Standardized(p));
    var normalizedSegments: seq<string> := [];
    var i := 0;
    while i < |segments|
      invariant 0 <= i <= |segments|
      invariant ".." !in segments[..i]
      invariant normalizedSegments == Kept(segments[..i])
    {
      assert segments[..i + 1] == segments[..i] + [segments[i]];
      if segments[i] == "" || segments[i] == "." {
        i := i + 1;
        continue;
      }
      if segments[i] == ".." {
        return Err(ParentTraversal);
      }
      normalizedSegments := normalizedSegments + [segments[i]];
      i := i + 1;
    }
    assert segments[..i] == segments;
    return Ok(if normalizedSegments == [] then "." else Join(normalizedSegments));
  }

  /** A path is refused as absolute exactly when it starts with a separator or with a drive and a separator; as
    * forbidden when it is not and holds one of six characters; and as a traversal when neither and some part between
    * separators is two dots.
    */
  lemma RefusedExactly(p: string)
    ensures Normalized(p) == Err(AbsolutePath) <==> StartsAbsolute(p)
    ensures Normalized(p) == Err(ForbiddenCharacter) <==>
              !StartsAbsolute(p) && ('|' in p || '>' in p || '<' in p || ';' in p || '&' in p || '`' in p)
    ensures Normalized(p) == Err(ParentTraversal) <==>
              && !StartsAbsolute(p) && ".." in Segments(p)
              && '|' !in p && '>' !in p && '<' !in p && ';' !in p && '&' !in p && '`' !in p
  {
    AbsoluteExactly(p);
    if c :| c in p && IsForbidden(c) {
      var i :| 0 <= i < |p| && p[i] == c;
    }
  }

  ghost predicate StartsAbsolute(p: string) {
    || "/" <= p || "\\" <= p
    || exists c: char :: ('a' <= c <= 'z' || 'A' <= c <= 'Z') && ([c] + ":/" <= p || [c] + ":\\" <= p)
  }

  lemma AbsoluteExactly(p: string)
    ensures IsAbsolute(p) <==> StartsAbsolute(p)
  {
    if |p| >= 3 && IsLetter(p[0]) && p[1] == ':' && IsSeparator(p[2]) {
      assert [p[0]] + ":/" <= p || [p[0]] + ":\\" <= p by {
        assert p[..3] == [p[0], ':', p[2]];
      }
    }
  }

  /** `_path_parts` of the snapshot. */
  function PathParts(q: string): seq<string> {
    if q == "" || q == "." then [] else NonEmpty(Split(q))
  }

  function NonEmpty(segs: seq<string>): seq<string> {
    if segs == [] then []
    else if segs[0] == "" then NonEmpty(segs[1..])
    else [segs[0]] + NonEmpty(segs[1..])
  }

  /** A segment a snapshot may safely append to a directory. */
  predicate Plain(seg: string) {
    && seg != "" && seg != "." && seg != ".."
    && forall i :: 0 <= i < |seg| ==> !IsSeparator(seg[i]) && !IsForbidden(seg[i])
  }

  predicate AllPlain(segs: seq<string>) {
    forall i :: 0 <= i < |segs| ==> Plain(segs[i])
  }

  /** An accepted path comes apart into exactly the segments that were kept, all of them plain. */
  lemma NormalizedParts(p: string)
    requires Normalized(p).Ok?
    ensures PathParts(Normalized(p).value) == Kept(Segments(p))
    ensures AllPlain(Kept(Segments(p)))
    ensures Normalized(p).value != "" && (Normalized(p).value == "." <==> Kept(Segments(p)) == [])
  {
    var kept := Kept(Segments(p));
    assert Normalized(p).value == Rejoined(kept);
    assert AllPlain(kept) by {
      KeptPlain(p);
    }
    assert PathParts(Rejoined(kept)) == kept by {
      PartsOfRejoined(kept);
    }
    if kept != [] {
      assert Plain(kept[0]);
    }
  }

  lemma PartsOfRejoined(kept: seq<string>)
    requires AllPlain(kept)
    ensures PathParts(Rejoined(kept)) == kept
    ensures kept != [] ==> Split(Rejoined(kept)) == kept
  {
    if kept != [] {
      forall i | 0 <= i < |kept| ensures NoSlash(kept[i]) {
        assert Plain(kept[i]);
      }
      SplitJoin(kept);
      NonEmptyOfPlain(kept);
      assert Plain(kept[0]);
      SplitPlain("");
      SplitPlain(".");
    }
  }

  lemma {:induction false} NonEmptyOfPlain(segs: seq<string>)
    requires AllPlain(segs)
    ensures NonEmpty(segs) == segs
  {
    if segs != [] {
      assert Plain(segs[0]);
      NonEmptyOfPlain(segs[1..]);
      assert segs == [segs[0]] + segs[1..];
    }
  }

  lemma KeptPlain(p: string)
    requires Normalized(p).Ok?
    ensures AllPlain(Kept(Segments(p)))
  {
    var segs := Segments(p);
    SplitNoSlashes(Standardized(p));
    SplitChars(Standardized(p));
    forall seg | seg in segs && !IsSkipped(seg) ensures Plain(seg) {
      var k :| 0 <= k < |segs| && segs[k] == seg;
    }
    KeptAmong(segs);
  }

  /** Every character of a segment comes from the path. */
  lemma {:induction false} SplitChars(s: string)
    ensures forall j, i :: 0 <= j < |Split(s)| && 0 <= i < |Split(s)[j]| ==> Split(s)[j][i] in s
  {
    if s != [] {
      SplitChars(s[1..]);
      var rest := Split(s[1..]);
      forall j, i | 0 <= j < |Split(s)| && 0 <= i < |Split(s)[j]|
        ensures Split(s)[j][i] in s
      {
        if s[0] == '/' {
          assert Split(s)[j] == rest[j - 1];
        } else if j == 0 {
          assert i > 0 ==> Split(s)[0][i] == rest[0][i - 1];
        } else {
          assert Split(s)[j] == rest[j];
        }
      }
    }
  }

  lemma {:induction false} KeptAmong(segs: seq<string>)
    ensures forall i :: 0 <= i < |Kept(segs)| ==> Kept(segs)[i] in segs && !IsSkipped(Kept(segs)[i])
  {
    if segs != [] {
      KeptAmong(segs[..|segs| - 1]);
      assert forall s :: s in segs[..|segs| - 1] ==> s in segs;
    }
  }

  // ------------------------------------------------------------------ normalising twice

  /** A drive letter and a colon as the first of several segments: such a result reads as absolute. */
  predicate LooksLikeDrive(kept: seq<string>) {
    |kept| >= 2 && |kept[0]| == 2 && IsLetter(kept[0][0]) && kept[0][1] == ':'
  }

  /** Normalising an accepted result gives it back, unless its first segment looks like a drive. */
  lemma NormalizedTwice(p: string)
    requires Normalized(p).Ok?
    ensures Normalized(Normalized(p).value) ==
              if LooksLikeDrive(Kept(Segments(p))) then Err(AbsolutePath) else Normalized(p)
  {
    var kept := Kept(Segments(p));
    KeptPlain(p);
    if kept == [] {
    } else {
      RejoinedIsStandard(kept);
      PartsOfRejoined(kept);
      AbsoluteRejoined(kept);
      KeptOfPlain(kept);
    }
  }

  /** Any plain segments that do not look like a drive make a normal form, and it comes apart into them. */
  lemma PlainIsNormal(kept: seq<string>)
    requires AllPlain(kept) && kept != [] && !LooksLikeDrive(kept)
    ensures Normalized(Join(kept)) == Ok(Join(kept)) && PathParts(Join(kept)) == kept
  {
    RejoinedIsStandard(kept);
    PartsOfRejoined(kept);
    AbsoluteRejoined(kept);
    KeptOfPlain(kept);
  }

  /** Such results exist. */
  lemma DriveResult()
    ensures Normalized("./C:/x") == Ok("C:/x") && Normalized("C:/x") == Err(AbsolutePath)
  {
    DriveSegments();
    DriveKept();
    assert ["C:", "x"][1..] == ["x"];
    assert Join(["C:", "x"]) == "C:/x";
  }

  lemma DriveSegments()
    ensures Segments("./C:/x") == [".", "C:", "x"]
  {
    var p := "./C:/x";
    assert Standardized(p) == p;
    SplitPlain("x");
    assert "C:" + "/" + "x" == "C:/x" && "." + "/" + "C:/x" == p;
    SplitFirst("C:", "x");
    SplitFirst(".", "C:/x");
  }

  lemma DriveKept()
    ensures Kept([".", "C:", "x"]) == ["C:", "x"]
  {
    var segs := [".", "C:", "x"];
    assert segs[..2] == [".", "C:"] && segs[..2][..1] == ["."];
    assert Kept(["."]) == [] && Kept(segs[..2]) == ["C:"];
  }

  lemma {:induction false} KeptOfPlain(segs: seq<string>)
    requires AllPlain(segs)
    ensures Kept(segs) == segs
  {
    if segs != [] {
      KeptOfPlain(segs[..|segs| - 1]);
      assert Plain(segs[|segs| - 1]);
      assert segs == segs[..|segs| - 1] + [segs[|segs| - 1]];
    }
  }

  predicate CleanChar(c: char) {
    c != '\\' && !IsForbidden(c)
  }

  lemma {:induction false} JoinClean(segs: seq<string>)
    requires AllPlain(segs)
    ensures forall i :: 0 <= i < |Join(segs)| ==> CleanChar(Join(segs)[i])
  {
    if segs != [] {
      assert Plain(segs[0]);
      JoinClean(segs[1..]);
    }
  }

  lemma RejoinedIsStandard(kept: seq<string>)
    requires AllPlain(kept)
    ensures !HasForbidden(Rejoined(kept)) && Standardized(Rejoined(kept)) == Rejoined(kept)
  {
    JoinClean(kept);
  }

  lemma AbsoluteRejoined(kept: seq<string>)
    requires AllPlain(kept) && kept != []
    ensures IsAbsolute(Rejoined(kept)) <==> LooksLikeDrive(kept)
  {
    assert Plain(kept[0]);
    var q := Join(kept);
    assert q[0] == kept[0][0];
    if |kept| >= 2 {
      assert q == kept[0] + "/" + Join(kept[1..]);
    }
  }

  /** Two accepted spellings normalise alike exactly when they keep the same segments. */
  lemma NormalizedAlike(p: string, p': string)
    requires Normalized(p).Ok? && Normalized(p').Ok?
    ensures Normalized(p) == Normalized(p') <==> Kept(Segments(p)) == Kept(Segments(p'))
  {
    NormalizedParts(p);
    NormalizedParts(p');
  }
}
