/** A codec as the logs need one: rows of the resume cache printed as JSON, string
    by string. */
module RowPrinter {
  import opened GluedLines
  import opened JsonLines
  import opened JsonText
  import opened Options
  import opened Resume
  import opened Seqs

  // ----- strings --------------------------------------------------------------------

  function Hex(d: nat): char
    requires d < 16
  {
    if d < 10 then ('0' as int + d) as char else ('a' as int + (d - 10)) as char
  }

  /** Quotes, backslashes and control characters are escaped. */
  function Escape(c: char): (cs: seq<StrChar>)
    ensures ValidStr(cs)
  {
    if c == '"' || c == '\\' then [Escaped(c)]
    else if c < ' ' then [Escaped('u'), Plain('0'), Plain('0'), Plain(Hex(c as int / 16)), Plain(Hex(c as int % 16))]
    else [Plain(c)]
  }

  function Quoted(s: string): (cs: seq<StrChar>)
    ensures ValidStr(cs)
  {
    if s == "" then [] else Escape(s[0]) + Quoted(s[1..])
  }

  lemma {:induction false} CharsConcat(a: seq<StrChar>, b: seq<StrChar>)
    ensures CharsText(a + b) == CharsText(a) + CharsText(b)
    decreases |a|
  {
    if a == [] {
      assert a + b == b;
    } else {
      assert (a + b)[1..] == a[1..] + b;
      CharsConcat(a[1..], b);
      Assoc(CharText(a[0]), CharsText(a[1..]), CharsText(b));
    }
  }

  function EscapeText(c: char): string {
    if c == '"' || c == '\\' then ['\\', c]
    else if c < ' ' then ['\\', 'u', '0', '0', Hex(c as int / 16), Hex(c as int % 16)]
    else [c]
  }

  lemma TextOfEscape(c: char)
    ensures CharsText(Escape(c)) == EscapeText(c)
  {
    var cs := Escape(c);
    if c == '"' || c == '\\' {
      assert cs[1..] == [];
    } else if c < ' ' {
      assert cs[1..][1..][1..][1..][1..] == [];
      assert cs[1..][0] == Plain('0') && cs[1..][1..][0] == Plain('0') && cs[1..][1..][1..][0] == cs[3] && cs[1..][1..][1..][1..][0] == cs[4];
      HexText(cs[3].c, cs[4].c);
      assert cs == [Escaped('u'), Plain('0'), Plain('0')] + [cs[3], cs[4]];
      CharsConcat([Escaped('u'), Plain('0'), Plain('0')], [cs[3], cs[4]]);
      ZeroText();
    } else {
      assert cs[1..] == [];
    }
  }

  lemma HexText(a: char, b: char)
    ensures CharsText([Plain(a), Plain(b)]) == [a, b]
  {
    assert [Plain(a), Plain(b)][1..] == [Plain(b)] && [Plain(b)][1..] == [];
    assert CharsText([Plain(b)]) == [b] + "";
    assert CharsText([Plain(a), Plain(b)]) == [a] + [b];
  }

  lemma ZeroText()
    ensures CharsText([Escaped('u'), Plain('0'), Plain('0')]) == ['\\', 'u', '0', '0']
  {
    HexText('0', '0');
    assert [Escaped('u'), Plain('0'), Plain('0')][1..] == [Plain('0'), Plain('0')];
  }

  function QuotedText(s: string): string { if s == "" then "" else EscapeText(s[0]) + QuotedText(s[1..]) }

  lemma {:induction false} TextOfQuoted(s: string)
    ensures CharsText(Quoted(s)) == QuotedText(s)
    decreases |s|
  {
    if s != "" {
      TextOfEscape(s[0]);
      TextOfQuoted(s[1..]);
      CharsConcat(Escape(s[0]), Quoted(s[1..]));
    }
  }

  lemma HexInjective(a: nat, b: nat)
    requires a < 16 && b < 16 && Hex(a) == Hex(b)
    ensures a == b
  {
  }

  /** No escape is the beginning of another. */
  lemma EscapeCut(c: char, x: string, d: char, y: string)
    requires EscapeText(c) + x == EscapeText(d) + y
    ensures c == d && x == y
  {
    var s, t := EscapeText(c) + x, EscapeText(d) + y;
    assert s[0] == EscapeText(c)[0] && t[0] == EscapeText(d)[0];
    if s[0] == '\\' {
      assert s[1] == EscapeText(c)[1] && t[1] == EscapeText(d)[1];
      if s[1] == 'u' {
        assert s[4] == EscapeText(c)[4] && t[4] == EscapeText(d)[4] && s[5] == EscapeText(c)[5] && t[5] == EscapeText(d)[5];
        HexInjective(c as int / 16, d as int / 16);
        HexInjective(c as int % 16, d as int % 16);
        assert c as int == d as int;
      }
    }
    assert s[|EscapeText(c)|..] == x && t[|EscapeText(d)|..] == y;
  }

  lemma EscapeIsNoQuote(c: char, x: string)
    ensures (EscapeText(c) + x)[0] != '"'
  {
    assert (EscapeText(c) + x)[0] == EscapeText(c)[0];
  }

  /** A printed string ends at its first bare quote. */
  lemma {:induction false} QuotedCut(a: string, x: string, b: string, y: string)
    requires QuotedText(a) + ("\"" + x) == QuotedText(b) + ("\"" + y)
    ensures a == b && x == y
    decreases |a|
  {
    var s := QuotedText(a) + ("\"" + x);
    if a == "" || b == "" {
      if a != "" {
        Assoc(EscapeText(a[0]), QuotedText(a[1..]), "\"" + x);
        EscapeIsNoQuote(a[0], QuotedText(a[1..]) + ("\"" + x));
      }
      if b != "" {
        Assoc(EscapeText(b[0]), QuotedText(b[1..]), "\"" + y);
        EscapeIsNoQuote(b[0], QuotedText(b[1..]) + ("\"" + y));
      }
      assert "" + ("\"" + x) == "\"" + x && "" + ("\"" + y) == "\"" + y;
      assert ("\"" + x)[1..] == x && ("\"" + y)[1..] == y;
    } else {
      Assoc(EscapeText(a[0]), QuotedText(a[1..]), "\"" + x);
      Assoc(EscapeText(b[0]), QuotedText(b[1..]), "\"" + y);
      EscapeCut(a[0], QuotedText(a[1..]) + ("\"" + x), b[0], QuotedText(b[1..]) + ("\"" + y));
      QuotedCut(a[1..], x, b[1..], y);
      assert a == [a[0]] + a[1..] && b == [b[0]] + b[1..];
    }
  }

  predicate PlainText(s: string) { forall i :: 0 <= i < |s| ==> s[i] >= ' ' && s[i] != '"' && s[i] != '\\' }

  lemma {:induction false} PlainIsItself(s: string)
    requires PlainText(s)
    ensures QuotedText(s) == s
    decreases |s|
  {
    if s != "" {
      PlainIsItself(s[1..]);
      assert s == [s[0]] + s[1..];
    }
  }

  lemma {:induction false} QuotedHasNoBreak(s: string)
    ensures '\n' !in QuotedText(s)
    decreases |s|
  {
    if s != "" {
      QuotedHasNoBreak(s[1..]);
    }
  }

  // ----- rows ------------------------------------------------------------------------

  function StringOf(s: string): Value { Str(Quoted(s)) }

  function Nullable(s: Option<string>): Value { if s.None? then Atom("null") else StringOf(s.value) }

  function Member(name: string, v: Value, rest: Members): Members { Members("", Quoted(name), "", "", v, "", rest) }

  function ResultOf(r: AgentResult): Value {
    Obj("", Member("text", StringOf(r.text), Member("control", Nullable(r.control), Member("error", Nullable(r.error), NoMembers))))
  }

  function ValueOf(row: Row): Value { Obj("", Member("key", StringOf(row.key), Member("result", ResultOf(row.result), NoMembers))) }

  function PrintRow(row: Row): string { Text(ValueOf(row)) }

  // ----- its text ----------------------------------------------------------------------

  function StringText(s: string): string { "\"" + (QuotedText(s) + "\"") }

  function NullableText(s: Option<string>): string { if s.None? then "null" else StringText(s.value) }

  lemma TextOfString(s: string)
    ensures Text(StringOf(s)) == StringText(s)
  {
    TextOfQuoted(s);
  }

  lemma TextOfNullable(s: Option<string>)
    ensures Text(Nullable(s)) == NullableText(s) && Valid(Nullable(s))
  {
    if s.Some? {
      TextOfString(s.value);
    } else {
      assert forall i :: 0 <= i < |"null"| ==> AtomChar("null"[i]);
    }
  }

  /** A name, and the text behind its colon. */
  function Field(name: string, behind: string): string { "\"" + (name + ("\":" + behind)) }

  lemma FieldConcat(name: string, behind: string, z: string)
    ensures Field(name, behind) + z == Field(name, behind + z)
  {
    Assoc("\":", behind, z);
    Assoc(name, "\":" + behind, z);
    Assoc("\"", name + ("\":" + behind), z);
  }

  lemma NoPad(x: string)
    ensures "" + x == x && x + "" == x
  {
  }

  lemma NameText(name: string, tail: string)
    ensures ("\"" + (name + "\"")) + (":" + tail) == Field(name, tail)
  {
    Assoc("\"", name + "\"", ":" + tail);
    Assoc(name, "\"", ":" + tail);
    Assoc("\"", ":", tail);
    assert "\"" + ":" == "\":";
  }

  lemma TextOfMember(name: string, v: Value, rest: Members)
    requires PlainText(name)
    ensures MembersText(Member(name, v, rest)) == Field(name, Text(v) + MembersTail(rest))
  {
    TextOfQuoted(name);
    PlainIsItself(name);
    var tail := Text(v) + MembersTail(rest);
    NoPad(MembersTail(rest));
    NoPad(tail);
    NoPad(":" + tail);
    NoPad(StrText(Quoted(name)) + (":" + tail));
    NameText(name, tail);
  }

  lemma TextOfObject(ms: Members)
    ensures Text(Obj("", ms)) == "{" + (MembersText(ms) + "}")
  {
    NoPad(MembersText(ms) + "}");
  }

  /** Two members, and what stands behind them. */
  function Pair(name: string, text: string, name': string, text': string, end: string): string {
    Field(name, text + ("," + Field(name', text' + end)))
  }

  lemma PairConcat(name: string, text: string, name': string, text': string, end: string, z: string)
    ensures Pair(name, text, name', text', end) + z == Pair(name, text, name', text', end + z)
  {
    var inner := Field(name', text' + end);
    Assoc(text', end, z);
    FieldConcat(name', text' + end, z);
    Assoc(",", inner, z);
    Assoc(text, "," + inner, z);
    FieldConcat(name, text + ("," + inner), z);
  }

  lemma TextOfMembers(name: string, v: Value, rest: Members)
    requires PlainText(name) && rest.Members?
    ensures MembersText(Member(name, v, rest)) == Field(name, Text(v) + ("," + MembersText(rest)))
  {
    TextOfMember(name, v, rest);
  }

  lemma TextOfPair(name: string, v: Value, name': string, v': Value)
    requires PlainText(name) && PlainText(name')
    ensures MembersText(Member(name, v, Member(name', v', NoMembers))) == Pair(name, Text(v), name', Text(v'), "")
  {
    TextOfMembers(name, v, Member(name', v', NoMembers));
    TextOfMember(name', v', NoMembers);
  }

  function AfterText(r: AgentResult, end: string): string {
    Pair("control", NullableText(r.control), "error", NullableText(r.error), end)
  }

  /** The members of a result, and what stands behind them. */
  function ResultBody(r: AgentResult, end: string): string { Field("text", StringText(r.text) + ("," + AfterText(r, end))) }

  function ResultText(r: AgentResult): string { "{" + ResultBody(r, "}") }

  lemma ResultBodyConcat(r: AgentResult, end: string, z: string)
    ensures ResultBody(r, end) + z == ResultBody(r, end + z)
  {
    PairConcat("control", NullableText(r.control), "error", NullableText(r.error), end, z);
    Assoc(",", AfterText(r, end), z);
    Assoc(StringText(r.text), "," + AfterText(r, end), z);
    FieldConcat("text", StringText(r.text) + ("," + AfterText(r, end)), z);
  }

  lemma BodyOfResult(r: AgentResult, text: Value, rest: Members)
    requires Text(text) == StringText(r.text) && rest.Members? && MembersText(rest) == AfterText(r, "")
    ensures Text(Obj("", Member("text", text, rest))) == ResultText(r)
  {
    TextOfMembers("text", text, rest);
    TextOfObject(Member("text", text, rest));
    ResultBodyConcat(r, "", "}");
    NoPad("}");
  }

  lemma TextOfResult(r: AgentResult)
    ensures Text(ResultOf(r)) == ResultText(r)
  {
    TextOfString(r.text);
    TextOfNullable(r.control);
    TextOfNullable(r.error);
    TextOfPair("control", Nullable(r.control), "error", Nullable(r.error));
    BodyOfResult(r, StringOf(r.text), Member("control", Nullable(r.control), Member("error", Nullable(r.error), NoMembers)));
  }

  lemma ResultIsValid(r: AgentResult)
    ensures Valid(ResultOf(r))
  {
    TextOfNullable(r.control);
    TextOfNullable(r.error);
    var last := Member("error", Nullable(r.error), NoMembers);
    var rest := Member("control", Nullable(r.control), last);
    assert ValidMembers(last);
    assert ValidMembers(rest);
    assert ValidMembers(Member("text", StringOf(r.text), rest));
  }

  function RowBody(row: Row, end: string): string { Pair("key", StringText(row.key), "result", ResultText(row.result), end) }

  function RowText(row: Row): string { "{" + RowBody(row, "}") }

  lemma BodyOfRow(row: Row, key: Value, result: Value)
    requires Text(key) == StringText(row.key) && Text(result) == ResultText(row.result)
    ensures Text(Obj("", Member("key", key, Member("result", result, NoMembers)))) == RowText(row)
  {
    TextOfPair("key", key, "result", result);
    TextOfObject(Member("key", key, Member("result", result, NoMembers)));
    PairConcat("key", StringText(row.key), "result", ResultText(row.result), "", "}");
    NoPad("}");
  }

  lemma TextOfRow(row: Row)
    ensures PrintRow(row) == RowText(row)
  {
    TextOfString(row.key);
    TextOfResult(row.result);
    BodyOfRow(row, StringOf(row.key), ResultOf(row.result));
  }

  lemma RowIsValid(row: Row)
    ensures Valid(ValueOf(row))
  {
    ResultIsValid(row.result);
    var rest := Member("result", ResultOf(row.result), NoMembers);
    assert ValidMembers(rest);
    assert ValidMembers(Member("key", StringOf(row.key), rest));
  }

  // ----- it can be read back ---------------------------------------------------------------

  lemma SameRest(p: string, a: string, b: string)
    requires p + a == p + b
    ensures a == b
  {
    assert (p + a)[|p|..] == a && (p + b)[|p|..] == b;
  }

  lemma StringCut(a: string, x: string, b: string, y: string)
    requires StringText(a) + x == StringText(b) + y
    ensures a == b && x == y
  {
    assert StringText(a) + x == "\"" + (QuotedText(a) + ("\"" + x));
    assert StringText(b) + y == "\"" + (QuotedText(b) + ("\"" + y));
    SameRest("\"", QuotedText(a) + ("\"" + x), QuotedText(b) + ("\"" + y));
    QuotedCut(a, x, b, y);
  }

  lemma NullableCut(a: Option<string>, x: string, b: Option<string>, y: string)
    requires NullableText(a) + x == NullableText(b) + y
    ensures a == b && x == y
  {
    assert (NullableText(a) + x)[0] == NullableText(a)[0] && (NullableText(b) + y)[0] == NullableText(b)[0];
    if a.Some? && b.Some? {
      StringCut(a.value, x, b.value, y);
    } else {
      SameRest("null", x, y);
    }
  }

  lemma FieldRest(name: string, x: string, y: string)
    requires Field(name, x) == Field(name, y)
    ensures x == y
  {
    SameRest("\"", name + ("\":" + x), name + ("\":" + y));
    SameRest(name, "\":" + x, "\":" + y);
    SameRest("\":", x, y);
  }

  lemma AfterTextCut(a: AgentResult, x: string, b: AgentResult, y: string)
    requires AfterText(a, x) == AfterText(b, y)
    ensures a.control == b.control && a.error == b.error && x == y
  {
    var ea, eb := Field("error", NullableText(a.error) + x), Field("error", NullableText(b.error) + y);
    FieldRest("control", NullableText(a.control) + ("," + ea), NullableText(b.control) + ("," + eb));
    NullableCut(a.control, "," + ea, b.control, "," + eb);
    SameRest(",", ea, eb);
    FieldRest("error", NullableText(a.error) + x, NullableText(b.error) + y);
    NullableCut(a.error, x, b.error, y);
  }

  lemma ResultCut(a: AgentResult, x: string, b: AgentResult, y: string)
    requires ResultText(a) + x == ResultText(b) + y
    ensures a == b && x == y
  {
    var ra, rb := AfterText(a, "}" + x), AfterText(b, "}" + y);
    ResultUnfolds(a, x);
    ResultUnfolds(b, y);
    SameRest("{", ResultBody(a, "}" + x), ResultBody(b, "}" + y));
    FieldRest("text", StringText(a.text) + ("," + ra), StringText(b.text) + ("," + rb));
    StringCut(a.text, "," + ra, b.text, "," + rb);
    SameRest(",", ra, rb);
    AfterTextCut(a, "}" + x, b, "}" + y);
    SameRest("}", x, y);
  }

  lemma ResultUnfolds(r: AgentResult, x: string)
    ensures ResultText(r) + x == "{" + ResultBody(r, "}" + x)
  {
    Assoc("{", ResultBody(r, "}"), x);
    ResultBodyConcat(r, "}", x);
  }

  /** No two rows print alike. */
  lemma PrintInjective(a: Row, b: Row)
    requires PrintRow(a) == PrintRow(b)
    ensures a == b
  {
    TextOfRow(a);
    TextOfRow(b);
    var ra, rb := Field("result", ResultText(a.result) + "}"), Field("result", ResultText(b.result) + "}");
    SameRest("{", RowBody(a, "}"), RowBody(b, "}"));
    FieldRest("key", StringText(a.key) + ("," + ra), StringText(b.key) + ("," + rb));
    StringCut(a.key, "," + ra, b.key, "," + rb);
    SameRest(",", ra, rb);
    FieldRest("result", ResultText(a.result) + "}", ResultText(b.result) + "}");
    ResultCut(a.result, "}", b.result, "}");
  }

  // ----- it is one line ----------------------------------------------------------------------

  predicate OneLine(s: string) { '\n' !in s }

  lemma OneLineConcat(a: string, b: string)
    requires OneLine(a) && OneLine(b)
    ensures OneLine(a + b)
  {
  }

  lemma FieldIsOneLine(name: string, text: string, rest: string)
    requires OneLine(name) && OneLine(text) && OneLine(rest)
    ensures OneLine(Field(name, text + rest)) && OneLine(Field(name, text + ("," + rest)))
  {
    OneLineConcat(",", rest);
    forall behind | behind == text + rest || behind == text + ("," + rest) ensures OneLine(Field(name, behind)) {
      OneLineConcat("\":", behind);
      OneLineConcat(name, "\":" + behind);
      OneLineConcat("\"", name + ("\":" + behind));
    }
  }

  lemma StringIsOneLine(s: string)
    ensures OneLine(StringText(s))
  {
    QuotedHasNoBreak(s);
    OneLineConcat(QuotedText(s), "\"");
    OneLineConcat("\"", QuotedText(s) + "\"");
  }

  lemma NullableIsOneLine(s: Option<string>)
    ensures OneLine(NullableText(s))
  {
    if s.Some? {
      StringIsOneLine(s.value);
    }
  }

  lemma ResultIsOneLine(r: AgentResult)
    ensures OneLine(ResultText(r))
  {
    StringIsOneLine(r.text);
    NullableIsOneLine(r.control);
    NullableIsOneLine(r.error);
    FieldIsOneLine("error", NullableText(r.error), "}");
    FieldIsOneLine("control", NullableText(r.control), Field("error", NullableText(r.error) + "}"));
    FieldIsOneLine("text", StringText(r.text), AfterText(r, "}"));
    OneLineConcat("{", ResultBody(r, "}"));
  }

  lemma RowIsOneLine(row: Row)
    ensures OneLine(RowText(row))
  {
    StringIsOneLine(row.key);
    ResultIsOneLine(row.result);
    FieldIsOneLine("result", ResultText(row.result), "}");
    FieldIsOneLine("key", StringText(row.key), Field("result", ResultText(row.result) + "}"));
    OneLineConcat("{", RowBody(row, "}"));
  }

  lemma FieldIsNamed(name: string, behind: string)
    requires |name| > 0 && 'a' <= name[0] <= 'z'
    ensures Named("{" + Field(name, behind))
  {
    var s := "{" + Field(name, behind);
    assert Field(name, behind)[1] == name[0];
    assert s[1] == Field(name, behind)[0] && s[2] == Field(name, behind)[1];
  }

  lemma PrintIsALine(row: Row)
    ensures IsObjectLine(PrintRow(row)) && Named(PrintRow(row))
  {
    TextOfRow(row);
    RowIsValid(row);
    RowIsOneLine(row);
    FieldIsNamed("key", StringText(row.key) + ("," + Field("result", ResultText(row.result) + "}")));
    assert IsObjectText(ValueOf(row), PrintRow(row));
  }

  // ----- the codec ------------------------------------------------------------------------------

  ghost predicate Prints(row: Row, s: string) { PrintRow(row) == s }

  /** Reading back what was printed. */
  ghost function ReadRow(s: string): Option<Row> {
    if exists row :: Prints(row, s) then
      var row :| Prints(row, s);
      Some(row)
    else None
  }

  lemma ReadsBack(row: Row)
    ensures ReadRow(PrintRow(row)) == Some(row)
  {
    assert Prints(row, PrintRow(row));
    forall other | Prints(other, PrintRow(row)) ensures other == row {
      PrintInjective(other, row);
    }
  }

  lemma ReadsJsonOnly(s: string)
    requires ReadRow(s).Some?
    ensures IsJsonText(s)
  {
    var row :| Prints(row, s);
    RowIsValid(row);
    NoPad(s);
    assert IsPadded(s, "", ValueOf(row), "");
  }

  /** What the logs rely on can be had: a codec of rows that meets it. */
  lemma SomeCodecRecordsLines()
    ensures exists c: Codec<Row> :: RecordLines(c)
  {
    ghost var c: Codec<Row> := Codec(row => PrintRow(row), s => ReadRow(s));
    forall row: Row ensures c.stringify(row) == PrintRow(row) && c.parse(c.stringify(row)) == Some(row) {
      ReadsBack(row);
    }
    forall row: Row ensures IsObjectLine(c.stringify(row)) && Named(c.stringify(row)) {
      PrintIsALine(row);
    }
    forall s | c.parse(s).Some? ensures IsJsonText(s) {
      ReadsJsonOnly(s);
    }
    assert Sound(c);
    assert RecordLines(c);
  }
}
