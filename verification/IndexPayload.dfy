/** The JSON payload embedded in the letters index page: how it is dumped, made safe inside a
  * script element, found again in the page, and restored.
  */
module IndexPayload {
  import opened Text
  import opened Wrappers

  const CLOSE := "</"
  const ESCAPED := "<\\/"

  // ------------------------------------------------------------------ escaping and restoring

  /** The replacement in `_index_data_json`. */
  function Escape(t: string): string {
    Replace(t, CLOSE, ESCAPED)
  }

  /** The replacement in `_read_index_entries_from_json`. */
  function Restore(t: string): string {
    Replace(t, ESCAPED, CLOSE)
  }

  /** No backslash stands between a `<` and a slash. */
  predicate Quiet(t: string) {
    forall i :: 0 <= i < |t| - 2 ==> !(t[i] == '<' && t[i + 1] == '\\' && t[i + 2] == '/')
  }

  /** The text contains no closing-tag opener. */
  predicate Closeless(t: string) {
    forall i :: 0 <= i < |t| - 1 ==> !(t[i] == '<' && t[i + 1] == '/')
  }

  lemma StartsWithClose(t: string)
    ensures CLOSE <= t <==> |t| >= 2 && t[0] == '<' && t[1] == '/'
  {
  }

  lemma StartsWithEscaped(t: string)
    ensures ESCAPED <= t <==> |t| >= 3 && t[0] == '<' && t[1] == '\\' && t[2] == '/'
  {
  }

  lemma EscapeUnfolds(t: string)
    ensures CLOSE <= t ==> Escape(t) == ESCAPED + Escape(t[2..])
    ensures !(CLOSE <= t) && t != [] ==> Escape(t) == [t[0]] + Escape(t[1..])
    ensures t == [] ==> Escape(t) == []
  {
    if |t| == 1 {
      assert t == [t[0]] + t[1..];
    }
  }

  lemma RestoreUnfolds(t: string)
    ensures ESCAPED <= t ==> Restore(t) == CLOSE + Restore(t[3..])
    ensures !(ESCAPED <= t) && t != [] ==> Restore(t) == [t[0]] + Restore(t[1..])
    ensures t == [] ==> Restore(t) == []
  {
    if 0 < |t| < 3 {
      assert t == [t[0]] + t[1..];
      assert |t[1..]| < 3;
    }
  }

  /** The first character of an escaped text is the first character of the text. */
  lemma EscapeHead(t: string)
    ensures t == [] <==> Escape(t) == []
    ensures t != [] ==> Escape(t)[0] == t[0]
  {
    EscapeUnfolds(t);
    StartsWithClose(t);
  }

  lemma {:induction false} EscapeCloseless(t: string)
    ensures Closeless(Escape(t))
    decreases |t|
  {
    EscapeUnfolds(t);
    if t != [] {
      if CLOSE <= t {
        EscapeCloseless(t[2..]);
      } else {
        EscapeCloseless(t[1..]);
        EscapeHead(t[1..]);
        StartsWithClose(t);
      }
    }
  }

  /** Escaping a quiet text and restoring it gives the text back. */
  lemma {:induction false} RoundTrip(t: string)
    requires Quiet(t)
    ensures Restore(Escape(t)) == t
    decreases |t|
  {
    EscapeUnfolds(t);
    RestoreUnfolds(Escape(t));
    if t != [] {
      if CLOSE <= t {
        RoundTrip(t[2..]);
        assert Escape(t)[3..] == Escape(t[2..]);
        assert t == CLOSE + t[2..];
      } else {
        RoundTrip(t[1..]);
        NotEscapedHead(t);
        assert Escape(t)[1..] == Escape(t[1..]);
        assert t == [t[0]] + t[1..];
      }
    }
  }

  lemma NotEscapedHead(t: string)
    requires Quiet(t) && t != [] && !(CLOSE <= t)
    ensures !(ESCAPED <= Escape(t))
  {
    EscapeUnfolds(t);
    StartsWithEscaped(Escape(t));
    EscapeHead(t[1..]);
    if |t| >= 2 && t[1] == '\\' {
      StartsWithClose(t[1..]);
      EscapeUnfolds(t[1..]);
      EscapeHead(t[2..]);
      assert Escape(t)[2..] == Escape(t[2..]);
    }
  }

  // ------------------------------------------------------------------ dumped JSON is quiet

  /** JSON string escapes (section 7 of RFC 8259) as `json.dumps(ensure_ascii=False)` writes them. */
  function EscapeChar(c: char): string {
    if c == '"' then "\\\""
    else if c == '\\' then "\\\\"
    else if c == '\n' then "\\n"
    else if c == '\r' then "\\r"
    else if c == '\t' then "\\t"
    else if c == '\U{0008}' then "\\b"
    else if c == '\U{000C}' then "\\f"
    else if c < ' ' then "\\u00" + Hex(c as int / 16) + Hex(c as int % 16)
    else [c]
  }

  function Hex(d: int): string
    requires 0 <= d < 16
  {
    ["0123456789abcdef"[d]]
  }

  function EscapeString(s: string): string {
    if s == [] then [] else EscapeChar(s[0]) + EscapeString(s[1..])
  }

  function DumpString(s: string): string {
    "\"" + (EscapeString(s) + "\"")
  }

  datatype Member = Member(key: string, value: string)

  function DumpMembers(ms: seq<Member>): string {
    if ms == [] then "\n  "
    else
      "    " + (DumpString(ms[0].key) + (": " + (DumpString(ms[0].value)
        + ((if |ms| == 1 then "" else ",\n") + DumpMembers(ms[1..])))))
  }

  function DumpObject(ms: seq<Member>): string {
    if ms == [] then "{}" else "{\n" + (DumpMembers(ms) + "}")
  }

  function DumpItems(es: seq<seq<Member>>): string {
    if es == [] then "\n"
    else "  " + (DumpObject(es[0]) + ((if |es| == 1 then "" else ",\n") + DumpItems(es[1..])))
  }

  /** `json.dumps(entries, indent=2)` for a list of objects with string values. */
  function DumpEntries(es: seq<seq<Member>>): string {
    if es == [] then "[]" else "[\n" + (DumpItems(es) + "]")
  }

  /** Quiet, and able to be followed or preceded by any other such piece. */
  predicate Solid(t: string) {
    && Quiet(t)
    && (t != [] ==> t[|t| - 1] != '<' && t[|t| - 1] != '\\')
  }

  lemma SolidConcat(a: string, b: string)
    requires Solid(a) && Solid(b)
    ensures Solid(a + b)
  {
    var t := a + b;
    forall i | 0 <= i < |t| - 2 ensures !(t[i] == '<' && t[i + 1] == '\\' && t[i + 2] == '/') {
      if i >= |a| {
        assert t[i] == b[i - |a|] && t[i + 1] == b[i - |a| + 1] && t[i + 2] == b[i - |a| + 2];
      }
    }
  }

  lemma SolidConcat3(a: string, b: string, c: string)
    requires Solid(a) && Solid(b) && Solid(c)
    ensures Solid(a + (b + c))
  {
    SolidConcat(b, c);
    SolidConcat(a, b + c);
  }

  /** What may follow a `<` inside a dumped string: not a backslash and a slash. */
  predicate Starts(t: string) {
    |t| >= 2 ==> !(t[0] == '\\' && t[1] == '/')
  }

  lemma EscapeCharShape(c: char)
    ensures var u := EscapeChar(c);
            || (u == [c] && c != '\\')
            || (|u| >= 2 && u[0] == '\\' && u[1] != '/' && u[1] != '<'
                && forall i :: 2 <= i < |u| ==> u[i] != '\\' && u[i] != '<')
  {
  }

  lemma {:induction false} EscapeStringSolid(s: string)
    ensures Solid(EscapeString(s) + "\"") && Starts(EscapeString(s) + "\"")
  {
    if s != [] {
      EscapeStringSolid(s[1..]);
      EscapeCharShape(s[0]);
      var u, rest := EscapeChar(s[0]), EscapeString(s[1..]) + "\"";
      assert EscapeString(s) + "\"" == u + rest;
      UnitSolid(u, rest);
    }
  }

  lemma UnitSolid(u: string, rest: string)
    requires Solid(rest) && Starts(rest) && rest != []
    requires || (|u| == 1 && u[0] != '\\')
             || (|u| >= 2 && u[0] == '\\' && u[1] != '/' && u[1] != '<'
                 && forall i :: 2 <= i < |u| ==> u[i] != '\\' && u[i] != '<')
    ensures Solid(u + rest) && Starts(u + rest)
  {
    var t := u + rest;
    forall i | 0 <= i < |t| - 2 ensures !(t[i] == '<' && t[i + 1] == '\\' && t[i + 2] == '/') {
      if i >= |u| {
        assert t[i] == rest[i - |u|] && t[i + 1] == rest[i - |u| + 1] && t[i + 2] == rest[i - |u| + 2];
      } else if |u| == 1 {
        assert t[1] == rest[0] && t[2] == rest[1];
      }
    }
  }

  lemma DumpStringSolid(s: string)
    ensures Solid(DumpString(s))
  {
    EscapeStringSolid(s);
    SolidConcat("\"", EscapeString(s) + "\"");
  }

  lemma {:induction false} DumpMembersSolid(ms: seq<Member>)
    ensures Solid(DumpMembers(ms))
  {
    if ms != [] {
      DumpMembersSolid(ms[1..]);
      DumpStringSolid(ms[0].key);
      DumpStringSolid(ms[0].value);
      var comma := if |ms| == 1 then "" else ",\n";
      SolidConcat3(DumpString(ms[0].value), comma, DumpMembers(ms[1..]));
      SolidConcat3(DumpString(ms[0].key), ": ", DumpString(ms[0].value) + (comma + DumpMembers(ms[1..])));
      SolidConcat("    ", DumpString(ms[0].key) + (": " + (DumpString(ms[0].value) + (comma + DumpMembers(ms[1..])))));
    }
  }

  lemma DumpObjectSolid(ms: seq<Member>)
    ensures Solid(DumpObject(ms))
  {
    DumpMembersSolid(ms);
    SolidConcat3("{\n", DumpMembers(ms), "}");
  }

  lemma {:induction false} DumpItemsSolid(es: seq<seq<Member>>)
    ensures Solid(DumpItems(es))
  {
    if es != [] {
      DumpItemsSolid(es[1..]);
      DumpObjectSolid(es[0]);
      var comma := if |es| == 1 then "" else ",\n";
      SolidConcat3(DumpObject(es[0]), comma, DumpItems(es[1..]));
      SolidConcat("  ", DumpObject(es[0]) + (comma + DumpItems(es[1..])));
    }
  }

  lemma DumpEntriesSolid(es: seq<seq<Member>>)
    ensures Solid(DumpEntries(es))
  {
    DumpItemsSolid(es);
    SolidConcat3("[\n", DumpItems(es), "]");
  }

  // ------------------------------------------------------------------ finding it in the page

  const CLOSE_TAG := "</script>"

  /** The non-greedy group of the reader: the text before the first closing tag. */
  function UpToClose(t: string): Option<string> {
    if CLOSE_TAG <= t then Some([])
    else if t == [] then None
    else match UpToClose(t[1..])
      case None => None
      case Some(rest) => Some([t[0]] + rest)
  }

  /** What follows the opening tag in the rendered page. */
  function Rendered(data: string, after: string): string {
    "\n" + data + "\n    " + CLOSE_TAG + after
  }

  /** The JSON text the reader parses, from what follows the opening tag. */
  function ReadBack(t: string): Option<string> {
    match UpToClose(t)
    case None => None
    case Some(raw) => Some(Restore(Strip(raw)))
  }

  lemma FrameRoundTrip(text: string, after: string)
    requires Quiet(text) && |text| >= 2 && text[0] == '[' && text[|text| - 1] == ']'
    ensures ReadBack(Rendered(Escape(text), after)) == Some(text)
  {
    var data := Escape(text);
    RoundTrip(text);
    EscapeCloseless(text);
    EscapeEnds(text);
    FrameFound(data, after);
    StripFrame(data);
  }

  lemma FrameFound(data: string, after: string)
    requires Closeless(data) && data != [] && data[|data| - 1] == ']'
    ensures UpToClose(Rendered(data, after)) == Some("\n" + data + "\n    ")
  {
    assert Rendered(data, after) == ("\n" + data + "\n    ") + (CLOSE_TAG + after);
    UpToCloseFinds("\n" + data + "\n    ", CLOSE_TAG + after);
  }

  /** Whatever follows it in the page, the reader sees exactly the JSON text that was dumped. */
  lemma PageRoundTrip(es: seq<seq<Member>>, after: string)
    ensures ReadBack(Rendered(Escape(DumpEntries(es)), after)) == Some(DumpEntries(es))
  {
    DumpEntriesSolid(es);
    FrameRoundTrip(DumpEntries(es), after);
  }

  lemma {:induction false} UpToCloseFinds(x: string, rest: string)
    requires Closeless(x) && (x != [] ==> x[|x| - 1] != '<') && CLOSE_TAG <= rest
    ensures UpToClose(x + rest) == Some(x)
  {
    var t := x + rest;
    if x == [] {
      assert t == rest;
    } else {
      UpToCloseFinds(x[1..], rest);
      assert t[1..] == x[1..] + rest;
      assert t[0] == x[0] && x == [x[0]] + x[1..];
      NotCloseTag(x, rest);
    }
  }

  lemma NotCloseTag(x: string, rest: string)
    requires Closeless(x) && x != [] && x[|x| - 1] != '<'
    ensures !(CLOSE_TAG <= x + rest)
  {
    var t := x + rest;
    assert t[0] == x[0];
    assert |x| > 1 ==> t[1] == x[1];
    assert CLOSE_TAG[0] == '<' && CLOSE_TAG[1] == '/';
  }

  /** The dumped list starts and ends with a bracket, and escaping keeps both ends. */
  lemma EscapeEnds(t: string)
    requires |t| >= 2 && t[0] == '[' && t[|t| - 1] == ']'
    ensures Escape(t) != [] && Escape(t)[0] == '[' && Escape(t)[|Escape(t)| - 1] == ']'
  {
    EscapeHead(t);
    EscapeLast(t);
  }

  lemma {:induction false} EscapeLast(t: string)
    requires t != [] && t[|t| - 1] == ']'
    ensures Escape(t) != [] && Escape(t)[|Escape(t)| - 1] == ']'
    decreases |t|
  {
    EscapeUnfolds(t);
    if CLOSE <= t {
      EscapeLast(t[2..]);
    } else if |t| > 1 {
      EscapeLast(t[1..]);
    } else {
      EscapeUnfolds(t[1..]);
    }
  }

  lemma StripFrame(data: string)
    requires data != [] && data[0] == '[' && data[|data| - 1] == ']'
    ensures Strip("\n" + data + "\n    ") == data
  {
    var t := "\n" + data + "\n    ";
    assert t[1..] == data + "\n    ";
    assert StripLeft(t[1..]) == t[1..];
    StripTail(data, "\n    ");
  }

  lemma {:induction false} StripTail(data: string, tail: string)
    requires data != [] && data[|data| - 1] == ']' && forall i :: 0 <= i < |tail| ==> IsSpace(tail[i])
    ensures StripRight(data + tail) == data
  {
    if tail == [] {
      assert data + tail == data;
    } else {
      assert (data + tail)[..|data + tail| - 1] == data + tail[..|tail| - 1];
      StripTail(data, tail[..|tail| - 1]);
    }
  }

  // ------------------------------------------------------------------ the page around it

  const SCRIPT := "<script"
  const TYPE_ATTRIBUTE := " type=\"application/json\" "
  const ID_ATTRIBUTE := "id=\"letters-index-data\""

  function OpenTag(): string {
    SCRIPT + (TYPE_ATTRIBUTE + ID_ATTRIBUTE) + ">"
  }

  /** The position of the first `>`, or the length when there is none. */
  function TagEnd(t: string): (k: nat)
    ensures k <= |t|
  {
    if t == [] || t[0] == '>' then 0 else 1 + TagEnd(t[1..])
  }

  /** A match of the reader's pattern starts here: a script tag with the id among its attributes. */
  predicate OpensData(t: string) {
    && SCRIPT <= t
    && var k := TagEnd(t[|SCRIPT|..]);
       k < |t| - |SCRIPT| && k > 0 && Occurs(t[|SCRIPT|..][1..k], ID_ATTRIBUTE)
  }

  /** What follows the first opening tag of that kind. */
  function DataIn(t: string): Option<string> {
    if t == [] then None
    else if OpensData(t) then Some(t[|SCRIPT|..][TagEnd(t[|SCRIPT|..]) + 1..])
    else DataIn(t[1..])
  }

  /** `html.escape`: the characters that matter to HTML are replaced. */
  function HtmlEscape(s: string): string {
    if s == [] then []
    else
      (match s[0]
       case '&' => "&amp;"
       case '<' => "&lt;"
       case '>' => "&gt;"
       case '"' => "&quot;"
       case '\'' => "&#x27;"
       case c => [c])
      + HtmlEscape(s[1..])
  }

  /** The page up to the data element: text of the template, and escaped texts of the entries. */
  datatype Piece = Template(text: string) | Escaped(text: string)

  function Render(pieces: seq<Piece>): string {
    if pieces == [] then []
    else (match pieces[0] case Template(t) => t case Escaped(t) => HtmlEscape(t)) + Render(pieces[1..])
  }

  /** No `<` in the text is followed by the beginning of `script`, or by too little to tell. */
  predicate Inert(t: string) {
    forall i :: 0 <= i < |t| && t[i] == '<' ==> i + 2 < |t| && !(t[i + 1] == 's' && t[i + 2] == 'c')
  }

  lemma InertConcat(a: string, b: string)
    requires Inert(a) && Inert(b)
    ensures Inert(a + b)
  {
    var t := a + b;
    forall i | 0 <= i < |t| && t[i] == '<' ensures i + 2 < |t| && !(t[i + 1] == 's' && t[i + 2] == 'c') {
      if i < |a| {
        assert t[i] == a[i] && t[i + 1] == a[i + 1] && t[i + 2] == a[i + 2];
      } else {
        assert t[i] == b[i - |a|] && t[i + 1] == b[i + 1 - |a|] && t[i + 2] == b[i + 2 - |a|];
      }
    }
  }

  /** Escaped text holds no `<` at all. */
  lemma {:induction false} EscapedInert(s: string)
    ensures '<' !in HtmlEscape(s)
  {
    if s != [] {
      EscapedInert(s[1..]);
    }
  }

  lemma {:induction false} RenderInert(pieces: seq<Piece>)
    requires forall p :: p in pieces && p.Template? ==> Inert(p.text)
    ensures Inert(Render(pieces))
  {
    if pieces != [] {
      RenderInert(pieces[1..]);
      var p := pieces[0];
      if p.Template? {
        InertConcat(p.text, Render(pieces[1..]));
      } else {
        EscapedInert(p.text);
        InertConcat(HtmlEscape(p.text), Render(pieces[1..]));
      }
    }
  }

  lemma InertStartsNoScript(before: string, rest: string)
    requires Inert(before) && before != []
    ensures !(SCRIPT <= before + rest) && Inert(before[1..])
  {
    var t := before + rest;
    assert t[0] == before[0];
    if before[0] == '<' {
      assert t[1] == before[1] && t[2] == before[2];
    }
    assert SCRIPT[0] == '<' && SCRIPT[1] == 's' && SCRIPT[2] == 'c';
    forall i | 0 <= i < |before[1..]| && before[1..][i] == '<'
      ensures i + 2 < |before[1..]| && !(before[1..][i + 1] == 's' && before[1..][i + 2] == 'c')
    {
      assert before[i + 1] == '<';
    }
  }

  lemma {:induction false} SkipInert(before: string, rest: string)
    requires Inert(before)
    ensures DataIn(before + rest) == DataIn(rest)
    decreases |before|
  {
    if before == [] {
      assert before + rest == rest;
    } else {
      InertStartsNoScript(before, rest);
      assert (before + rest)[1..] == before[1..] + rest;
      SkipInert(before[1..], rest);
    }
  }

  lemma {:induction false} TagEndAt(a: string, rest: string)
    requires '>' !in a
    ensures TagEnd(a + ">" + rest) == |a|
  {
    var t := a + ">" + rest;
    if a == [] {
      assert t[0] == '>';
    } else {
      assert t[0] == a[0] && t[1..] == a[1..] + ">" + rest;
      TagEndAt(a[1..], rest);
    }
  }

  lemma AttributesHaveNoEnd()
    ensures '>' !in TYPE_ATTRIBUTE + ID_ATTRIBUTE
  {
    assert '>' !in TYPE_ATTRIBUTE && '>' !in ID_ATTRIBUTE;
  }

  lemma OpenTagOpens(rest: string)
    ensures DataIn(OpenTag() + rest) == Some(rest)
  {
    var attributes := TYPE_ATTRIBUTE + ID_ATTRIBUTE;
    var t := OpenTag() + rest;
    var inner := t[|SCRIPT|..];
    assert t == SCRIPT + (attributes + ">" + rest);
    assert inner == attributes + ">" + rest;
    AttributesHaveNoEnd();
    TagEndAt(attributes, rest);
    assert inner[1..|attributes|] == TYPE_ATTRIBUTE[1..] + ID_ATTRIBUTE;
    OccursAtEnd(TYPE_ATTRIBUTE[1..], ID_ATTRIBUTE);
    assert inner[|attributes| + 1..] == rest;
  }

  lemma OccursAtEnd(a: string, p: string)
    ensures Occurs(a + p, p)
  {
    assert (a + p)[|a|..|a| + |p|] == p;
    assert OccursAt(a + p, p, |a|);
  }

  /** The JSON text that the reader parses from a whole page. */
  function ReadPage(t: string): Option<string> {
    match DataIn(t) case None => None case Some(rest) => ReadBack(rest)
  }

  /** Whatever the entries say, in the cards before the data and in the data itself, and whatever follows, the
    * reader sees exactly the JSON text that was dumped.
    */
  lemma WholePageRoundTrip(pieces: seq<Piece>, es: seq<seq<Member>>, after: string)
    requires forall p :: p in pieces && p.Template? ==> Inert(p.text)
    ensures ReadPage(Render(pieces) + (OpenTag() + Rendered(Escape(DumpEntries(es)), after))) == Some(DumpEntries(es))
  {
    var rest := Rendered(Escape(DumpEntries(es)), after);
    RenderInert(pieces);
    SkipInert(Render(pieces), OpenTag() + rest);
    OpenTagOpens(rest);
    PageRoundTrip(es, after);
  }
}
