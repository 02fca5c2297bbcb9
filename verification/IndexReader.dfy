/** Reading the index payload back as JSON: strings, objects of strings and lists of those, with white space in between
  * (sections 2, 4, 5 and 7 of RFC 8259). What is read from a rendered page is what was written into it.
  */
module IndexReader {
  import opened Text
  import opened Wrappers
  import opened IndexPayload

  /** What was read, and the text behind it. */
  datatype Read<+T> = Fail | Got(value: T, rest: string)

  // ------------------------------------------------------------------ strings

  function HexValue(c: char): int {
    if '0' <= c <= '9' then c as int - '0' as int
    else if 'a' <= c <= 'f' then c as int - 'a' as int + 10
    else if 'A' <= c <= 'F' then c as int - 'A' as int + 10
    else -1
  }

  /** The character behind a backslash, and how much of the text it takes up. */
  function Unescaped(t: string): Read<char>
    requires t != [] && t[0] == '\\'
  {
    if |t| < 2 then Fail
    else if t[1] == '"' || t[1] == '\\' || t[1] == '/' then Got(t[1], t[2..])
    else if t[1] == 'b' then Got(8 as char, t[2..])
    else if t[1] == 'f' then Got(12 as char, t[2..])
    else if t[1] == 'n' then Got(10 as char, t[2..])
    else if t[1] == 'r' then Got(13 as char, t[2..])
    else if t[1] == 't' then Got(9 as char, t[2..])
    else if t[1] == 'u' && |t| >= 6 && t[2] == '0' && t[3] == '0' && HexValue(t[4]) >= 0 && HexValue(t[5]) >= 0 then
      Got((HexValue(t[4]) * 16 + HexValue(t[5])) as char, t[6..])
    else Fail
  }

  /** One character of a string; a control character has to be escaped. */
  function ReadChar(t: string): Read<char> {
    if t == [] || t[0] == '"' || (t[0] as int) < 32 then Fail
    else if t[0] == '\\' then Unescaped(t)
    else Got(t[0], t[1..])
  }

  /** The string up to the closing quote; the opening one has been read. */
  function ReadString(t: string): (r: Read<string>)
    ensures r.Got? ==> |r.rest| < |t|
    decreases |t|
  {
    if t != [] && t[0] == '"' then Got([], t[1..])
    else
      match ReadChar(t)
      case Fail => Fail
      case Got(c, rest) =>
        if |rest| >= |t| then Fail
        else
          match ReadString(rest)
          case Fail => Fail
          case Got(more, after) => Got([c] + more, after)
  }

  /** An escaped character is read back. */
  lemma CharBack(c: char, rest: string)
    ensures ReadChar(EscapeChar(c) + rest) == Got(c, rest)
  {
    var e := EscapeChar(c);
    var t := e + rest;
    assert t[|e|..] == rest;
    if c < ' ' && c != '\n' && c != '\r' && c != '\t' && c != '\U{0008}' && c != '\U{000C}' {
      var high, low := c as int / 16, c as int % 16;
      HexBack(high);
      HexBack(low);
      assert e == "\\u00" + Hex(high) + Hex(low);
      assert t[0] == '\\' && t[1] == 'u' && t[2] == '0' && t[3] == '0' && t[4] == Hex(high)[0] && t[5] == Hex(low)[0];
    } else if |e| == 2 {
      assert t[0] == e[0] && t[1] == e[1];
    } else {
      assert t[0] == c;
    }
  }

  lemma HexBack(d: int)
    requires 0 <= d < 16
    ensures HexValue(Hex(d)[0]) == d
  {
  }

  lemma Assoc(a: string, b: string, c: string)
    ensures (a + b) + c == a + (b + c)
  {
  }

  lemma StartsNoQuote(c: char, rest: string)
    ensures EscapeChar(c) != [] && (EscapeChar(c) + rest)[0] != '"'
  {
    assert (EscapeChar(c) + rest)[0] == EscapeChar(c)[0];
  }

  lemma OneCharRead(t: string, c: char, rest: string, more: string, after: string)
    requires t != [] && t[0] != '"' && ReadChar(t) == Got(c, rest)
    requires |rest| < |t| && ReadString(rest) == Got(more, after)
    ensures ReadString(t) == Got([c] + more, after)
  {
  }

  lemma {:induction false} StringBack(s: string, rest: string)
    ensures ReadString(EscapeString(s) + ("\"" + rest)) == Got(s, rest)
  {
    var tail := "\"" + rest;
    if s == [] {
      assert EscapeString(s) + tail == tail && tail[0] == '"' && tail[1..] == rest;
    } else {
      var more := EscapeString(s[1..]) + tail;
      Assoc(EscapeChar(s[0]), EscapeString(s[1..]), tail);
      CharBack(s[0], more);
      StringBack(s[1..], rest);
      StartsNoQuote(s[0], more);
      OneCharRead(EscapeChar(s[0]) + more, s[0], more, s[1..], rest);
      assert s == [s[0]] + s[1..];
    }
  }

  // ------------------------------------------------------------------ white space and marks

  function SkipSpace(t: string): (r: string)
    ensures |r| <= |t|
  {
    if t != [] && (t[0] == ' ' || t[0] == '\n' || t[0] == '\r' || t[0] == '\t') then SkipSpace(t[1..]) else t
  }

  /** A quoted string after any white space. */
  function ReadQuoted(t: string): (r: Read<string>)
    ensures r.Got? ==> |r.rest| < |t|
  {
    var s := SkipSpace(t);
    if s != [] && s[0] == '"' then ReadString(s[1..]) else Fail
  }

  /** This mark after any white space, and what follows. */
  function ReadMark(t: string, mark: char): (r: Read<char>)
    ensures r.Got? ==> |r.rest| < |t|
  {
    var s := SkipSpace(t);
    if s != [] && s[0] == mark then Got(mark, s[1..]) else Fail
  }

  predicate Blank(t: string) {
    forall i :: 0 <= i < |t| ==> t[i] == ' ' || t[i] == '\n'
  }

  lemma {:induction false} SkipBlank(blank: string, t: string)
    requires Blank(blank)
    ensures SkipSpace(blank + t) == SkipSpace(t)
  {
    if blank == [] {
      assert blank + t == t;
    } else {
      assert (blank + t)[1..] == blank[1..] + t;
      SkipBlank(blank[1..], t);
    }
  }

  lemma MarkBack(blank: string, mark: char, rest: string)
    requires Blank(blank) && mark in {'[', ']', '{', '}', ':', ','}
    ensures ReadMark(blank + ([mark] + rest), mark) == Got(mark, rest)
  {
    SkipBlank(blank, [mark] + rest);
    assert ([mark] + rest)[1..] == rest;
  }

  lemma OtherMark(blank: string, other: char, rest: string, mark: char)
    requires Blank(blank) && other in {'[', ']', '{', '}', ':', ',', '"'} && other != mark
    ensures ReadMark(blank + ([other] + rest), mark) == Fail
  {
    SkipBlank(blank, [other] + rest);
  }

  lemma QuotedBack(blank: string, s: string, rest: string)
    requires Blank(blank)
    ensures ReadQuoted(blank + (DumpString(s) + rest)) == Got(s, rest)
  {
    var t := EscapeString(s) + ("\"" + rest);
    assert DumpString(s) + rest == "\"" + t;
    assert ("\"" + t)[1..] == t;
    SkipBlank(blank, "\"" + t);
    StringBack(s, rest);
  }

  // ------------------------------------------------------------------ objects

  /** A name and its string. */
  function ReadMember(t: string): (r: Read<Member>)
    ensures r.Got? ==> |r.rest| < |t|
  {
    match ReadQuoted(t)
    case Fail => Fail
    case Got(key, afterKey) =>
      match ReadMark(afterKey, ':')
      case Fail => Fail
      case Got(_, afterColon) =>
        match ReadQuoted(afterColon)
        case Fail => Fail
        case Got(value, rest) => Got(Member(key, value), rest)
  }

  /** One or more members, up to the closing brace. */
  function ReadMembers(t: string): (r: Read<seq<Member>>)
    ensures r.Got? ==> |r.rest| < |t|
    decreases |t|
  {
    match ReadMember(t)
    case Fail => Fail
    case Got(m, rest) =>
      var comma := ReadMark(rest, ',');
      if comma.Got? then
        match ReadMembers(comma.rest)
        case Fail => Fail
        case Got(more, after) => Got([m] + more, after)
      else
        match ReadMark(rest, '}')
        case Fail => Fail
        case Got(_, after) => Got([m], after)
  }

  function ReadObject(t: string): (r: Read<seq<Member>>)
    ensures r.Got? ==> |r.rest| < |t|
  {
    match ReadMark(t, '{')
    case Fail => Fail
    case Got(_, rest) =>
      var close := ReadMark(rest, '}');
      if close.Got? then Got([], close.rest) else ReadMembers(rest)
  }

  /** One or more objects, up to the closing bracket. */
  function ReadObjects(t: string): (r: Read<seq<seq<Member>>>)
    ensures r.Got? ==> |r.rest| < |t|
    decreases |t|
  {
    match ReadObject(t)
    case Fail => Fail
    case Got(ms, rest) =>
      var comma := ReadMark(rest, ',');
      if comma.Got? then
        match ReadObjects(comma.rest)
        case Fail => Fail
        case Got(more, after) => Got([ms] + more, after)
      else
        match ReadMark(rest, ']')
        case Fail => Fail
        case Got(_, after) => Got([ms], after)
  }

  /** A whole text: a list of objects and nothing behind it but white space. */
  function ReadList(t: string): Option<seq<seq<Member>>> {
    match ReadMark(t, '[')
    case Fail => None
    case Got(_, rest) =>
      var close := ReadMark(rest, ']');
      if close.Got? then (if SkipSpace(close.rest) == [] then Some([]) else None)
      else
        match ReadObjects(rest)
        case Fail => None
        case Got(es, after) => if SkipSpace(after) == [] then Some(es) else None
  }

  lemma MemberBack(blank: string, m: Member, rest: string)
    requires Blank(blank)
    ensures ReadMember(blank + (DumpString(m.key) + (": " + (DumpString(m.value) + rest)))) == Got(m, rest)
  {
    var afterColon := " " + (DumpString(m.value) + rest);
    var afterKey := ": " + (DumpString(m.value) + rest);
    assert afterKey == [] + ([':'] + afterColon);
    QuotedBack(blank, m.key, afterKey);
    MarkBack([], ':', afterColon);
    QuotedBack(" ", m.value, rest);
  }

  lemma OneMemberRead(t: string, m: Member, behind: string, next: string, more: seq<Member>, after: string)
    requires ReadMember(t) == Got(m, behind) && ReadMark(behind, ',') == Got(',', next)
    requires ReadMembers(next) == Got(more, after)
    ensures ReadMembers(t) == Got([m] + more, after)
  {
  }

  lemma LastMemberRead(t: string, m: Member, behind: string, after: string)
    requires ReadMember(t) == Got(m, behind)
    requires ReadMark(behind, ',') == Fail && ReadMark(behind, '}') == Got('}', after)
    ensures ReadMembers(t) == Got([m], after)
  {
  }

  lemma Regrouped(blank: string, k: string, v: string, comma: string, more: string, close: string)
    ensures blank + (("    " + (k + (": " + (v + (comma + more))))) + close)
         == (blank + "    ") + (k + (": " + (v + (comma + (more + close)))))
  {
  }

  function Comma(last: bool): string {
    if last then "" else ",\n"
  }

  /** What stands behind the first member. */
  function Behind(ms: seq<Member>, rest: string): string
    requires ms != []
  {
    Comma(|ms| == 1) + (DumpMembers(ms[1..]) + ("}" + rest))
  }

  lemma MembersText(blank: string, ms: seq<Member>, rest: string)
    requires ms != []
    ensures blank + (DumpMembers(ms) + ("}" + rest)) ==
              (blank + "    ") + (DumpString(ms[0].key) + (": " + (DumpString(ms[0].value) + Behind(ms, rest))))
  {
    Regrouped(blank, DumpString(ms[0].key), DumpString(ms[0].value), Comma(|ms| == 1), DumpMembers(ms[1..]),
        "}" + rest);
  }

  lemma FirstMember(blank: string, ms: seq<Member>, rest: string)
    requires Blank(blank) && ms != []
    ensures ReadMember(blank + (DumpMembers(ms) + ("}" + rest))) == Got(ms[0], Behind(ms, rest))
  {
    MembersText(blank, ms, rest);
    MemberBack(blank + "    ", ms[0], Behind(ms, rest));
  }

  /** Behind the last member comes the closing brace. */
  lemma BehindLast(m: Member, rest: string)
    ensures ReadMark(Behind([m], rest), ',') == Fail && ReadMark(Behind([m], rest), '}') == Got('}', rest)
  {
    assert [m][1..] == [];
    assert "\n  " + ("}" + rest) == "\n  " + (['}'] + rest);
    OtherMark("\n  ", '}', rest, ',');
    MarkBack("\n  ", '}', rest);
    NothingInFront("\n  " + ("}" + rest));
  }

  lemma NothingInFront(t: string)
    ensures "" + t == t
  {
  }

  /** Behind the others comes a comma. */
  lemma CommaBehind(more: string)
    ensures ReadMark(",\n" + more, ',') == Got(',', "\n" + more)
  {
    assert ",\n" + more == [] + ([','] + ("\n" + more));
    MarkBack([], ',', "\n" + more);
  }

  lemma BehindMore(ms: seq<Member>, rest: string)
    requires |ms| > 1
    ensures ReadMark(Behind(ms, rest), ',') == Got(',', "\n" + (DumpMembers(ms[1..]) + ("}" + rest)))
  {
    CommaBehind(DumpMembers(ms[1..]) + ("}" + rest));
  }

  lemma OnlyMemberBack(blank: string, m: Member, rest: string)
    requires Blank(blank)
    ensures ReadMembers(blank + (DumpMembers([m]) + ("}" + rest))) == Got([m], rest)
  {
    FirstMember(blank, [m], rest);
    BehindLast(m, rest);
    LastMemberRead(blank + (DumpMembers([m]) + ("}" + rest)), m, Behind([m], rest), rest);
  }

  lemma FirstOfMany(blank: string, ms: seq<Member>, rest: string)
    requires Blank(blank) && |ms| > 1
    requires ReadMembers("\n" + (DumpMembers(ms[1..]) + ("}" + rest))) == Got(ms[1..], rest)
    ensures ReadMembers(blank + (DumpMembers(ms) + ("}" + rest))) == Got([ms[0]] + ms[1..], rest)
  {
    FirstMember(blank, ms, rest);
    BehindMore(ms, rest);
    OneMemberRead(blank + (DumpMembers(ms) + ("}" + rest)), ms[0], Behind(ms, rest),
                  "\n" + (DumpMembers(ms[1..]) + ("}" + rest)), ms[1..], rest);
  }

  /** The members of a dumped object, with the white space in front of them, are read back. */
  lemma {:induction false} MembersBack(blank: string, ms: seq<Member>, rest: string)
    requires Blank(blank) && ms != []
    ensures ReadMembers(blank + (DumpMembers(ms) + ("}" + rest))) == Got(ms, rest)
    decreases |ms|
  {
    if |ms| == 1 {
      OnlyMemberBack(blank, ms[0], rest);
      assert ms == [ms[0]];
    } else {
      assert Blank("\n");
      MembersBack("\n", ms[1..], rest);
      FirstOfMany(blank, ms, rest);
      assert ms == [ms[0]] + ms[1..];
    }
  }

  // ------------------------------------------------------------------ lists of objects

  /** What stands behind the opening brace of an object. */
  function Inner(ms: seq<Member>): string {
    if ms == [] then "}" else "\n" + (DumpMembers(ms) + "}")
  }

  lemma BraceText(inner: string, rest: string)
    ensures (['{'] + inner) + rest == ['{'] + (inner + rest)
  {
  }

  lemma ObjectText(ms: seq<Member>, rest: string)
    ensures DumpObject(ms) + rest == ['{'] + (Inner(ms) + rest)
  {
    if ms == [] {
      BraceText("}", rest);
      assert "{}" == ['{'] + "}";
    } else {
      var d := DumpMembers(ms) + "}";
      BraceText("\n" + d, rest);
      assert "{\n" + d == ['{'] + ("\n" + d);
    }
  }

  lemma InnerText(ms: seq<Member>, rest: string)
    requires ms != []
    ensures Inner(ms) + rest == "\n" + (DumpMembers(ms) + ("}" + rest))
  {
    Assoc("\n", DumpMembers(ms) + "}", rest);
    Assoc(DumpMembers(ms), "}", rest);
  }

  lemma NoCloseYet(ms: seq<Member>, rest: string)
    requires ms != []
    ensures ReadMark("\n" + (DumpMembers(ms) + ("}" + rest)), '}') == Fail
  {
    var v := ": " + (DumpString(ms[0].value) + Behind(ms, rest));
    var k := EscapeString(ms[0].key) + "\"";
    MembersText("\n", ms, rest);
    Assoc("\"", k, v);
    assert Blank("\n" + "    ");
    OtherMark("\n" + "    ", '"', k + v, '}');
  }

  /** A dumped object after any white space is read back. */
  lemma ObjectBack(blank: string, ms: seq<Member>, rest: string)
    requires Blank(blank)
    ensures ReadObject(blank + (DumpObject(ms) + rest)) == Got(ms, rest)
  {
    ObjectText(ms, rest);
    MarkBack(blank, '{', Inner(ms) + rest);
    if ms == [] {
      NothingInFront(['}'] + rest);
      MarkBack([], '}', rest);
    } else {
      InnerText(ms, rest);
      NoCloseYet(ms, rest);
      MembersBack("\n", ms, rest);
    }
  }

  lemma OneObjectRead(t: string, ms: seq<Member>, behind: string, next: string, more: seq<seq<Member>>, after: string)
    requires ReadObject(t) == Got(ms, behind) && ReadMark(behind, ',') == Got(',', next)
    requires ReadObjects(next) == Got(more, after)
    ensures ReadObjects(t) == Got([ms] + more, after)
  {
  }

  lemma LastObjectRead(t: string, ms: seq<Member>, behind: string, after: string)
    requires ReadObject(t) == Got(ms, behind)
    requires ReadMark(behind, ',') == Fail && ReadMark(behind, ']') == Got(']', after)
    ensures ReadObjects(t) == Got([ms], after)
  {
  }

  lemma RegroupedItem(blank: string, o: string, comma: string, more: string, close: string)
    ensures blank + (("  " + (o + (comma + more))) + close) == (blank + "  ") + (o + (comma + (more + close)))
  {
  }

  /** What stands behind the first object. */
  function BehindFirst(es: seq<seq<Member>>, rest: string): string
    requires es != []
  {
    Comma(|es| == 1) + (DumpItems(es[1..]) + ("]" + rest))
  }

  lemma ItemsText(blank: string, es: seq<seq<Member>>, rest: string)
    requires es != []
    ensures blank + (DumpItems(es) + ("]" + rest)) == (blank + "  ") + (DumpObject(es[0]) + BehindFirst(es, rest))
  {
    RegroupedItem(blank, DumpObject(es[0]), Comma(|es| == 1), DumpItems(es[1..]), "]" + rest);
  }

  /** Behind the last object comes the closing bracket. */
  lemma BehindLastObject(ms: seq<Member>, rest: string)
    ensures ReadMark(BehindFirst([ms], rest), ',') == Fail && ReadMark(BehindFirst([ms], rest), ']') == Got(']', rest)
  {
    assert [ms][1..] == [];
    assert "\n" + ("]" + rest) == "\n" + ([']'] + rest);
    OtherMark("\n", ']', rest, ',');
    MarkBack("\n", ']', rest);
    NothingInFront("\n" + ("]" + rest));
  }

  lemma BehindMoreObjects(es: seq<seq<Member>>, rest: string)
    requires |es| > 1
    ensures ReadMark(BehindFirst(es, rest), ',') == Got(',', "\n" + (DumpItems(es[1..]) + ("]" + rest)))
  {
    CommaBehind(DumpItems(es[1..]) + ("]" + rest));
  }

  lemma {:induction false} ObjectsBack(blank: string, es: seq<seq<Member>>, rest: string)
    requires Blank(blank) && es != []
    ensures ReadObjects(blank + (DumpItems(es) + ("]" + rest))) == Got(es, rest)
    decreases |es|
  {
    var t := blank + (DumpItems(es) + ("]" + rest));
    ItemsText(blank, es, rest);
    ObjectBack(blank + "  ", es[0], BehindFirst(es, rest));
    if |es| == 1 {
      assert es == [es[0]];
      BehindLastObject(es[0], rest);
      LastObjectRead(t, es[0], BehindFirst(es, rest), rest);
    } else {
      var next := "\n" + (DumpItems(es[1..]) + ("]" + rest));
      assert Blank("\n");
      ObjectsBack("\n", es[1..], rest);
      BehindMoreObjects(es, rest);
      OneObjectRead(t, es[0], BehindFirst(es, rest), next, es[1..], rest);
      assert es == [es[0]] + es[1..];
    }
  }

  lemma NoEndYet(es: seq<seq<Member>>, rest: string)
    requires es != []
    ensures ReadMark("\n" + (DumpItems(es) + ("]" + rest)), ']') == Fail
  {
    ItemsText("\n", es, rest);
    ObjectText(es[0], BehindFirst(es, rest));
    assert Blank("\n" + "  ");
    OtherMark("\n" + "  ", '{', Inner(es[0]) + BehindFirst(es, rest), ']');
  }

  lemma ListText(es: seq<seq<Member>>)
    requires es != []
    ensures DumpEntries(es) == ['['] + ("\n" + (DumpItems(es) + ("]" + [])))
  {
    var d := DumpItems(es);
    assert "]" + [] == "]";
    assert "[\n" + (d + "]") == ['['] + ("\n" + (d + "]"));
  }

  /** Whatever is dumped is read back: the same entries with the same members in the same order. */
  lemma ListBack(es: seq<seq<Member>>)
    ensures ReadList(DumpEntries(es)) == Some(es)
  {
    if es == [] {
      assert DumpEntries(es) == [] + (['['] + "]") && "]" == [] + ([']'] + []);
      MarkBack([], '[', "]");
      MarkBack([], ']', []);
    } else {
      var inner := "\n" + (DumpItems(es) + ("]" + []));
      ListText(es);
      NothingInFront(['['] + inner);
      MarkBack([], '[', inner);
      NoEndYet(es, []);
      ObjectsBack("\n", es, []);
    }
  }

  // ------------------------------------------------------------------ from the page

  /** The entries that the reader finds in a page. */
  function EntriesIn(page: string): Option<seq<seq<Member>>> {
    match ReadPage(page)
    case None => None
    case Some(text) => ReadList(text)
  }

  /** The reader finds in a rendered page the very entries that were written into it, whatever they say and whatever
    * stands before and behind them.
    */
  lemma EntriesBack(pieces: seq<Piece>, es: seq<seq<Member>>, after: string)
    requires forall p :: p in pieces && p.Template? ==> Inert(p.text)
    ensures EntriesIn(Render(pieces) + (OpenTag() + Rendered(Escape(DumpEntries(es)), after))) == Some(es)
  {
    WholePageRoundTrip(pieces, es, after);
    ListBack(es);
  }

  // ------------------------------------------------------------------ escaped text

  /** The text that HTML with these character references stands for. */
  function HtmlText(t: string): string {
    if t == [] then []
    else if "&amp;" <= t then ['&'] + HtmlText(t[5..])
    else if "&lt;" <= t then ['<'] + HtmlText(t[4..])
    else if "&gt;" <= t then ['>'] + HtmlText(t[4..])
    else if "&quot;" <= t then ['"'] + HtmlText(t[6..])
    else if "&#x27;" <= t then ['\''] + HtmlText(t[6..])
    else [t[0]] + HtmlText(t[1..])
  }

  /** Escaping loses nothing: the text that is shown is the text that was given. */
  lemma {:induction false} HtmlBack(s: string)
    ensures HtmlText(HtmlEscape(s)) == s
  {
    if s != [] {
      HtmlBack(s[1..]);
      HtmlCharBack(s[0], HtmlEscape(s[1..]));
      assert HtmlEscape(s) == HtmlEscape([s[0]]) + HtmlEscape(s[1..]) by {
        OneEscaped(s[0]);
      }
      assert s == [s[0]] + s[1..];
    }
  }

  lemma OneEscaped(c: char)
    ensures HtmlEscape([c]) ==
              match c
              case '&' => "&amp;"
              case '<' => "&lt;"
              case '>' => "&gt;"
              case '"' => "&quot;"
              case '\'' => "&#x27;"
              case c => [c]
  {
    assert [c][1..] == [];
    assert HtmlEscape([]) == [];
  }

  lemma HtmlCharBack(c: char, rest: string)
    ensures HtmlText(HtmlEscape([c]) + rest) == [c] + HtmlText(rest)
  {
    OneEscaped(c);
    var e := HtmlEscape([c]);
    var t := e + rest;
    assert t[0] == e[0] && t[|e|..] == rest;
    if c == '&' || c == '<' || c == '>' || c == '"' || c == '\'' {
      assert e <= t && t[1] == e[1] && t[2] == e[2];
    } else {
      assert t[0] == c;
    }
  }
}
