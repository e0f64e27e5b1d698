/** JSON texts (RFC 8259) as concrete syntax trees, and the brace scanner that
    `findLastJsonObject` runs over them.

    A `Value` keeps every character of a JSON text, white space and escapes
    included, so a statement about all `Value`s is about all JSON texts, not
    only about what JSON.stringify prints. */
module JsonText {

  // ----- the grammar -------------------------------------------------------

  /** One character of a string: as itself, or the character after a backslash.
      `\u` and its four digits are an `Escaped` character and four plain ones. */
  datatype StrChar = Plain(c: char) | Escaped(c: char)

  datatype Value =
    | Atom(text: string)                     // false, null, true and numbers
    | Str(chars: seq<StrChar>)
    | Arr(pad: string, elems: Elems)
    | Obj(pad: string, members: Members)

  datatype Elems =
    | NoElems
    | Elems(pre: string, v: Value, post: string, rest: Elems)

  datatype Members =
    | NoMembers
    | Members(pre: string, key: seq<StrChar>, mid: string, sep: string, v: Value, post: string, rest: Members)

  /** Section 2: the four insignificant characters. */
  predicate IsWs(c: char) { c == ' ' || c == '\t' || c == '\n' || c == '\r' }

  /** JavaScript's `\s`. */
  predicate IsSpace(c: char) {
    '\t' <= c <= '\r' || c == ' ' || c == '\U{00A0}' || c == '\U{1680}' || '\U{2000}' <= c <= '\U{200A}'
    || c == '\U{2028}' || c == '\U{2029}' || c == '\U{202F}' || c == '\U{205F}' || c == '\U{3000}' || c == '\U{FEFF}'
  }

  predicate AllWs(s: string) { forall i :: 0 <= i < |s| ==> IsWs(s[i]) }

  predicate AtomChar(c: char) {
    'a' <= c <= 'z' || '0' <= c <= '9' || c == '-' || c == '+' || c == '.' || c == 'E'
  }

  /** Section 7: what may stand inside a string. */
  predicate ValidStrChar(sc: StrChar) {
    match sc
    case Plain(c) => c != '"' && c != '\\' && c >= ' '
    case Escaped(c) => c == '"' || c == '\\' || c == '/' || c == 'b' || c == 'f' || c == 'n' || c == 'r' || c == 't' || c == 'u'
  }

  predicate ValidStr(cs: seq<StrChar>) { forall i :: 0 <= i < |cs| ==> ValidStrChar(cs[i]) }

  predicate Valid(v: Value) {
    match v
    case Atom(t) => |t| > 0 && forall i :: 0 <= i < |t| ==> AtomChar(t[i])
    case Str(cs) => ValidStr(cs)
    case Arr(pad, es) => AllWs(pad) && ValidElems(es)
    case Obj(pad, ms) => AllWs(pad) && ValidMembers(ms)
  }

  predicate ValidElems(es: Elems) {
    match es
    case NoElems => true
    case Elems(pre, v, post, rest) => AllWs(pre) && Valid(v) && AllWs(post) && ValidElems(rest)
  }

  predicate ValidMembers(ms: Members) {
    match ms
    case NoMembers => true
    case Members(pre, key, mid, sep, v, post, rest) =>
      AllWs(pre) && ValidStr(key) && AllWs(mid) && AllWs(sep) && Valid(v) && AllWs(post) && ValidMembers(rest)
  }

  // ----- the text of a value -----------------------------------------------

  function CharText(sc: StrChar): string {
    match sc
    case Plain(c) => [c]
    case Escaped(c) => ['\\', c]
  }

  function CharsText(cs: seq<StrChar>): string {
    if cs == [] then "" else CharText(cs[0]) + CharsText(cs[1..])
  }

  function StrText(cs: seq<StrChar>): string { "\"" + (CharsText(cs) + "\"") }

  function Text(v: Value): string {
    match v
    case Atom(t) => t
    case Str(cs) => StrText(cs)
    case Arr(pad, es) => "[" + (pad + (ElemsText(es) + "]"))
    case Obj(pad, ms) => "{" + (pad + (MembersText(ms) + "}"))
  }

  function ElemsText(es: Elems): string
    decreases es, 0
  {
    match es
    case NoElems => ""
    case Elems(pre, v, post, rest) => pre + (Text(v) + (post + ElemsTail(rest)))
  }

  function ElemsTail(es: Elems): string
    decreases es, 1
  {
    if es.NoElems? then "" else "," + ElemsText(es)
  }

  function MembersText(ms: Members): string
    decreases ms, 0
  {
    match ms
    case NoMembers => ""
    case Members(pre, key, mid, sep, v, post, rest) =>
      pre + (StrText(key) + (mid + (":" + (sep + (Text(v) + (post + MembersTail(rest)))))))
  }

  function MembersTail(ms: Members): string
    decreases ms, 1
  {
    if ms.NoMembers? then "" else "," + MembersText(ms)
  }

  /** Section 2: a JSON text is a value between insignificant white space. */
  ghost predicate IsJsonText(s: string) {
    exists pre: string, v: Value, post: string :: IsPadded(s, pre, v, post)
  }

  ghost predicate IsPadded(s: string, pre: string, v: Value, post: string) {
    AllWs(pre) && Valid(v) && AllWs(post) && s == pre + (Text(v) + post)
  }

  // ----- the brace scanner -------------------------------------------------

  /** `depth`, `inString` and `escape` of src/control.ts:303-305. */
  datatype Scan = Scan(depth: int, inString: bool, escape: bool)

  const START := Scan(0, false, false)

  function Step(s: Scan, c: char): Scan {
    if s.inString then
      if s.escape then s.(escape := false)
      else if c == '\\' then s.(escape := true)
      else if c == '"' then s.(inString := false)
      else s
    else if c == '"' then s.(inString := true)
    else if c == '{' then s.(depth := s.depth + 1)
    else if c == '}' then s.(depth := s.depth - 1)
    else s
  }

  function Run(s: Scan, text: string): Scan
    decreases |text|
  {
    if text == "" then s else Run(Step(s, text[0]), text[1..])
  }

  /** The depth never drops below `floor` while `text` is scanned from `s`. */
  predicate Stays(s: Scan, text: string, floor: int)
    decreases |text|
  {
    text == "" || (Step(s, text[0]).depth >= floor && Stays(Step(s, text[0]), text[1..], floor))
  }

  lemma {:induction false} RunConcat(s: Scan, a: string, b: string)
    ensures Run(s, a + b) == Run(Run(s, a), b)
    decreases |a|
  {
    if a == "" {
      assert a + b == b;
    } else {
      assert (a + b)[1..] == a[1..] + b;
      RunConcat(Step(s, a[0]), a[1..], b);
    }
  }

  lemma {:induction false} StaysConcat(s: Scan, a: string, b: string, floor: int)
    ensures Stays(s, a + b, floor) <==> Stays(s, a, floor) && Stays(Run(s, a), b, floor)
    decreases |a|
  {
    if a == "" {
      assert a + b == b;
    } else {
      assert (a + b)[1..] == a[1..] + b;
      StaysConcat(Step(s, a[0]), a[1..], b, floor);
    }
  }

  lemma {:induction false} StaysMeansEveryPrefix(s: Scan, text: string, floor: int, k: nat)
    requires Stays(s, text, floor) && s.depth >= floor && k <= |text|
    ensures Run(s, text[..k]).depth >= floor
    decreases |text|
  {
    if k > 0 {
      assert text[..k][1..] == text[1..][..k - 1];
      StaysMeansEveryPrefix(Step(s, text[0]), text[1..], floor, k - 1);
    }
  }

  /** A piece of text that a scan outside strings passes over without a trace. */
  ghost predicate Neutral(s: Scan, text: string) {
    Run(s, text) == s && Stays(s, text, s.depth)
  }

  predicate Outside(s: Scan) { !s.inString && !s.escape }

  lemma NeutralConcat(s: Scan, a: string, b: string)
    requires Neutral(s, a) && Neutral(s, b)
    ensures Neutral(s, a + b)
  {
    RunConcat(s, a, b);
    StaysConcat(s, a, b, s.depth);
  }

  predicate Inert(c: char) { c != '"' && c != '{' && c != '}' }

  lemma {:induction false} InertNeutral(s: Scan, text: string)
    requires Outside(s) && forall i :: 0 <= i < |text| ==> Inert(text[i])
    ensures Neutral(s, text)
    decreases |text|
  {
    if text != "" { InertNeutral(s, text[1..]); }
  }

  lemma {:induction false} CharsStayInside(s: Scan, cs: seq<StrChar>)
    requires ValidStr(cs) && s.inString && !s.escape
    ensures Neutral(s, CharsText(cs))
    decreases |cs|
  {
    if cs != [] {
      var head := CharText(cs[0]);
      assert ValidStrChar(cs[0]);
      match cs[0] {
        case Plain(c) =>
          assert head[1..] == "";
        case Escaped(c) =>
          assert head[1..] == [c] && head[1..][1..] == "";
          assert Run(Step(s, '\\'), [c]) == s;
      }
      assert Neutral(s, head);
      CharsStayInside(s, cs[1..]);
      NeutralConcat(s, head, CharsText(cs[1..]));
    }
  }

  lemma StrNeutral(s: Scan, cs: seq<StrChar>)
    requires ValidStr(cs) && Outside(s)
    ensures Neutral(s, StrText(cs))
  {
    var inside := s.(inString := true);
    CharsStayInside(inside, cs);
    var close := "\"";
    assert close[1..] == "";
    assert Run(inside, close) == s && Stays(inside, close, s.depth);
    RunConcat(inside, CharsText(cs), close);
    StaysConcat(inside, CharsText(cs), close, s.depth);
    assert StrText(cs)[1..] == CharsText(cs) + close;
  }

  /** Strings, escapes and nesting inside a value never move the scanner: after
      the text of any value it is where it was, and it was never shallower. */
  lemma {:induction false} ValueNeutral(s: Scan, v: Value)
    requires Valid(v) && Outside(s)
    ensures Neutral(s, Text(v))
    decreases v
  {
    match v
    case Atom(t) => InertNeutral(s, t);
    case Str(cs) => StrNeutral(s, cs);
    case Arr(pad, es) =>
      InertNeutral(s, "[");
      InertNeutral(s, pad);
      ElemsNeutral(s, es);
      InertNeutral(s, "]");
      NeutralConcat(s, ElemsText(es), "]");
      NeutralConcat(s, pad, ElemsText(es) + "]");
      NeutralConcat(s, "[", pad + (ElemsText(es) + "]"));
    case Obj(pad, ms) =>
      var inner := s.(depth := s.depth + 1);
      InsideObject(inner, pad, ms);
      var close := "}";
      assert close[1..] == "";
      assert Text(v)[1..] == (pad + MembersText(ms)) + close;
      RunConcat(inner, pad + MembersText(ms), close);
      StaysConcat(inner, pad + MembersText(ms), close, s.depth);
      StaysMonotone(inner, pad + MembersText(ms), inner.depth, s.depth);
  }

  lemma {:induction false} StaysMonotone(s: Scan, text: string, high: int, low: int)
    requires Stays(s, text, high) && low <= high
    ensures Stays(s, text, low)
    decreases |text|
  {
    if text != "" { StaysMonotone(Step(s, text[0]), text[1..], high, low); }
  }

  lemma {:induction false} InsideObject(s: Scan, pad: string, ms: Members)
    requires AllWs(pad) && ValidMembers(ms) && Outside(s)
    ensures Neutral(s, pad + MembersText(ms))
    decreases ms, 1
  {
    InertNeutral(s, pad);
    MembersNeutral(s, ms);
    NeutralConcat(s, pad, MembersText(ms));
  }

  lemma {:induction false} ElemsNeutral(s: Scan, es: Elems)
    requires ValidElems(es) && Outside(s)
    ensures Neutral(s, ElemsText(es)) && Neutral(s, ElemsTail(es))
    decreases es
  {
    match es
    case NoElems =>
    case Elems(pre, v, post, rest) =>
      InertNeutral(s, pre);
      ValueNeutral(s, v);
      InertNeutral(s, post);
      ElemsNeutral(s, rest);
      NeutralConcat(s, post, ElemsTail(rest));
      NeutralConcat(s, Text(v), post + ElemsTail(rest));
      NeutralConcat(s, pre, Text(v) + (post + ElemsTail(rest)));
      InertNeutral(s, ",");
      NeutralConcat(s, ",", ElemsText(es));
  }

  lemma {:induction false} MembersNeutral(s: Scan, ms: Members)
    requires ValidMembers(ms) && Outside(s)
    ensures Neutral(s, MembersText(ms)) && Neutral(s, MembersTail(ms))
    decreases ms, 0
  {
    match ms
    case NoMembers =>
    case Members(pre, key, mid, sep, v, post, rest) =>
      InertNeutral(s, pre);
      StrNeutral(s, key);
      InertNeutral(s, mid);
      InertNeutral(s, ":");
      InertNeutral(s, sep);
      ValueNeutral(s, v);
      InertNeutral(s, post);
      MembersNeutral(s, rest);
      var a := post + MembersTail(rest);
      NeutralConcat(s, post, MembersTail(rest));
      NeutralConcat(s, Text(v), a);
      NeutralConcat(s, sep, Text(v) + a);
      NeutralConcat(s, ":", sep + (Text(v) + a));
      NeutralConcat(s, mid, ":" + (sep + (Text(v) + a)));
      NeutralConcat(s, StrText(key), mid + (":" + (sep + (Text(v) + a))));
      NeutralConcat(s, pre, StrText(key) + (mid + (":" + (sep + (Text(v) + a)))));
      InertNeutral(s, ",");
      NeutralConcat(s, ",", MembersText(ms));
  }

  // ----- cut texts ---------------------------------------------------------

  lemma JsonTextIsBalanced(s: string)
    requires IsJsonText(s)
    ensures Run(START, s) == START
  {
    var pre, v, post :| IsPadded(s, pre, v, post);
    InertNeutral(START, pre);
    ValueNeutral(START, v);
    InertNeutral(START, post);
    NeutralConcat(START, Text(v), post);
    NeutralConcat(START, pre, Text(v) + post);
  }

  /** An object whose text was cut short is still inside its own braces. */
  lemma CutObjectIsOpen(v: Value, k: nat)
    requires Valid(v) && v.Obj? && 0 < k < |Text(v)|
    ensures Run(START, Text(v)[..k]).depth >= 1
  {
    var inner := Scan(1, false, false);
    var body := v.pad + MembersText(v.members);
    InsideObject(inner, v.pad, v.members);
    assert Text(v) == "{" + body + "}";
    assert Text(v)[..k] == "{" + body[..k - 1];
    assert Text(v)[..k][1..] == body[..k - 1];
    StaysMeansEveryPrefix(inner, body, 1, k - 1);
  }

  /** No proper prefix of an object's text is a JSON text of any kind: this is
      why a torn line never parses. */
  lemma CutObjectIsNoJsonText(v: Value, k: nat)
    requires Valid(v) && v.Obj? && 0 < k < |Text(v)|
    ensures !IsJsonText(Text(v)[..k])
  {
    CutObjectIsOpen(v, k);
    if IsJsonText(Text(v)[..k]) {
      JsonTextIsBalanced(Text(v)[..k]);
      assert false;
    }
  }

  /** Nor when the cut went through a character and left a replacement character
      in its place. */
  lemma BrokenObjectIsNoJsonText(v: Value, k: nat, c: char)
    requires Valid(v) && v.Obj? && 0 < k < |Text(v)| && Inert(c) && c != '\\'
    ensures !IsJsonText(Text(v)[..k] + [c])
  {
    var cut := Text(v)[..k];
    CutObjectIsOpen(v, k);
    RunConcat(START, cut, [c]);
    assert [c][1..] == "";
    assert Run(START, cut + [c]).depth >= 1;
    if IsJsonText(cut + [c]) {
      JsonTextIsBalanced(cut + [c]);
      assert false;
    }
  }
}
