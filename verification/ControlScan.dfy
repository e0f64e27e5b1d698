/** The two character scanners that recover a control object from an agent's
    reply: `findLastJsonObject` and `repairUnescapedQuotes`. */
module ControlScan {
  import opened JsonText
  import opened Options
  import opened Seqs

  // ----- findLastJsonObject ------------------------------------------------

  /** How many characters of `text`, scanned from `s`, bring the depth back to 0
      at a closing brace; None when that never happens. */
  function Close(s: Scan, text: string): (end: Option<nat>)
    ensures end.Some? ==> 0 < end.value <= |text|
    decreases |text|
  {
    if text == "" then None
    else
      var next := Step(s, text[0]);
      if text[0] == '}' && !s.inString && next.depth == 0 then Some(1)
      else Shift(1, Close(next, text[1..]))
  }

  function Shift(n: nat, k: Option<nat>): Option<nat> {
    if k.None? then None else Some(n + k.value)
  }

  /** The outermost balanced objects of `text`, left to right. */
  function Candidates(text: string): seq<string>
    decreases |text|
  {
    if text == "" then []
    else if text[0] != '{' then Candidates(text[1..])
    else match Close(START, text)
      case None => Candidates(text[1..])
      case Some(k) => [text[..k]] + Candidates(text[k..])
  }

  function Last(found: seq<string>): Option<string> {
    if found == [] then None else Some(found[|found| - 1])
  }

  method FindLastJsonObject(text: string) returns (r: Option<string>)
    ensures r == Last(Candidates(text))
  {
    var candidates: seq<string> := [];
    var i := 0;
    while i < |text|
      invariant 0 <= i <= |text|
      invariant Candidates(text) == candidates + Candidates(text[i..])
    {
      if text[i] != '{' {
        SkipChar(text, i);
        i := i + 1;
        continue;
      }
      var end := CloseFrom(text, i);
      if end.None? {
        SkipChar(text, i);
        i := i + 1;
      } else {
        TakeObject(text, i, end.value, candidates);
        candidates := candidates + [text[i..end.value]];
        i := end.value;
      }
    }
    r := Last(candidates);
  }

  /** The inner loop: where the object opened at `start` ends, if it does. */
  method CloseFrom(text: string, start: nat) returns (end: Option<nat>)
    requires start < |text|
    ensures end == Shift(start, Close(START, text[start..]))
  {
    var depth, inString, escape := 0, false, false;
    var j := start;
    while j < |text|
      invariant start <= j <= |text|
      invariant Shift(start, Close(START, text[start..])) == Shift(j, Close(Scan(depth, inString, escape), text[j..]))
    {
      var ch := text[j];
      CloseNext(Scan(depth, inString, escape), text, j);
      if inString {
        if escape {
          escape := false;
        } else if ch == '\\' {
          escape := true;
        } else if ch == '"' {
          inString := false;
        }
      } else if ch == '"' {
        inString := true;
      } else if ch == '{' {
        depth := depth + 1;
      } else if ch == '}' {
        depth := depth - 1;
        if depth == 0 {
          return Some(j + 1);
        }
      }
      j := j + 1;
    }
    end := None;
  }

  /** One round of the inner loop. */
  lemma CloseNext(s: Scan, text: string, j: nat)
    requires j < |text|
    ensures var next := Step(s, text[j]);
      Shift(j, Close(s, text[j..])) ==
      if text[j] == '}' && !s.inString && next.depth == 0 then Some(j + 1) else Shift(j + 1, Close(next, text[j + 1..]))
  {
    DropDrop(text, j, 1);
  }

  lemma SkipChar(text: string, i: nat)
    requires i < |text| && (text[i] != '{' || Close(START, text[i..]).None?)
    ensures Candidates(text[i..]) == Candidates(text[i + 1..])
  {
    DropDrop(text, i, 1);
  }

  lemma TakeObject(text: string, i: nat, end: nat, found: seq<string>)
    requires i < |text| && text[i] == '{' && Some(end) == Shift(i, Close(START, text[i..]))
    ensures i < end <= |text|
    ensures found + Candidates(text[i..]) == (found + [text[i..end]]) + Candidates(text[end..])
  {
    DropTake(text, i, end - i);
    DropDrop(text, i, end - i);
    Assoc(found, [text[i..end]], Candidates(text[end..]));
  }

  predicate NoBrace(s: string) { forall i :: 0 <= i < |s| ==> s[i] != '{' }

  lemma {:induction false} CloseSkips(s: Scan, a: string, b: string)
    requires Stays(s, a, 1)
    ensures Close(s, a + b) == Shift(|a|, Close(Run(s, a), b))
    decreases |a|
  {
    if a == "" {
      assert a + b == b;
    } else {
      assert (a + b)[1..] == a[1..] + b;
      CloseSkips(Step(s, a[0]), a[1..], b);
    }
  }

  lemma ObjectText(v: Value, after: string)
    requires v.Obj?
    ensures Text(v) + after == "{" + ((v.pad + MembersText(v.members)) + ("}" + after))
  {
    var body := v.pad + MembersText(v.members);
    Assoc(v.pad, MembersText(v.members), "}");
    Assoc("{", body + "}", after);
    Assoc(body, "}", after);
  }

  /** An object closes at its own last brace, whatever follows it. */
  lemma ObjectClosesAtItsEnd(v: Value, after: string)
    requires Valid(v) && v.Obj?
    ensures Close(START, Text(v) + after) == Some(|Text(v)|)
  {
    var inner := Scan(1, false, false);
    var body, close := v.pad + MembersText(v.members), "}" + after;
    InsideObject(inner, v.pad, v.members);
    CloseSkips(inner, body, close);
    assert close[0] == '}' && Close(inner, close) == Some(1);
    ObjectText(v, after);
    assert ("{" + (body + close))[1..] == body + close;
    assert |Text(v)| == |body| + 2;
  }

  lemma {:induction false} GapHasNoCandidates(gap: string, after: string)
    requires NoBrace(gap)
    ensures Candidates(gap + after) == Candidates(after)
    decreases |gap|
  {
    if gap == "" {
      assert gap + after == after;
    } else {
      assert (gap + after)[1..] == gap[1..] + after;
      GapHasNoCandidates(gap[1..], after);
    }
  }

  /** A reply: brace-free prose, an object, brace-free prose, an object, ... */
  datatype Piece = Piece(gap: string, obj: Value)

  predicate ValidPieces(ps: seq<Piece>) {
    forall i :: 0 <= i < |ps| ==> NoBrace(ps[i].gap) && Valid(ps[i].obj) && ps[i].obj.Obj?
  }

  function Reply(ps: seq<Piece>, tail: string): string {
    if ps == [] then tail else ps[0].gap + (Text(ps[0].obj) + Reply(ps[1..], tail))
  }

  function Objects(ps: seq<Piece>): seq<string> {
    if ps == [] then [] else [Text(ps[0].obj)] + Objects(ps[1..])
  }

  /** The candidates of a reply are exactly its objects: none is cut short by a
      string, an escape or nesting, and no nested object is a candidate. */
  lemma {:induction false} CandidatesAreTheObjects(ps: seq<Piece>, tail: string)
    requires ValidPieces(ps) && NoBrace(tail)
    ensures Candidates(Reply(ps, tail)) == Objects(ps)
    decreases |ps|
  {
    if ps == [] {
      GapHasNoCandidates(tail, "");
      assert tail + "" == tail;
    } else {
      var rest := Reply(ps[1..], tail);
      var here := Text(ps[0].obj) + rest;
      GapHasNoCandidates(ps[0].gap, here);
      ObjectClosesAtItsEnd(ps[0].obj, rest);
      assert here[0] == '{';
      assert here[..|Text(ps[0].obj)|] == Text(ps[0].obj);
      assert here[|Text(ps[0].obj)|..] == rest;
      CandidatesAreTheObjects(ps[1..], tail);
    }
  }

  lemma {:induction false} ObjectsLast(ps: seq<Piece>)
    requires |ps| > 0
    ensures Last(Objects(ps)) == Some(Text(ps[|ps| - 1].obj))
    decreases |ps|
  {
    if |ps| == 1 {
      assert Objects(ps[1..]) == [];
    } else {
      ObjectsLast(ps[1..]);
    }
  }

  /** The reply's last object is found whole. */
  lemma FindsTheLastObject(ps: seq<Piece>, tail: string)
    requires ValidPieces(ps) && NoBrace(tail)
    ensures Last(Candidates(Reply(ps, tail))) == if ps == [] then None else Some(Text(ps[|ps| - 1].obj))
  {
    CandidatesAreTheObjects(ps, tail);
    if ps != [] { ObjectsLast(ps); }
  }

  /** One object between prose: p + text + q gives back the text. */
  lemma FindsTheObject(p: string, v: Value, q: string)
    requires NoBrace(p) && NoBrace(q) && Valid(v) && v.Obj?
    ensures Last(Candidates(p + Text(v) + q)) == Some(Text(v))
  {
    var ps := [Piece(p, v)];
    FindsTheLastObject(ps, q);
    assert Reply(ps[1..], q) == q;
    assert p + Text(v) + q == Reply(ps, q);
  }

  // ----- repairUnescapedQuotes ---------------------------------------------

  predicate Structural(c: char) { c == ',' || c == ':' || c == '}' || c == ']' }

  /** The next character after white space is structural, or there is none. */
  predicate Closes(after: string)
    decreases |after|
  {
    after == "" || (if IsSpace(after[0]) then Closes(after[1..]) else Structural(after[0]))
  }

  function Repair(s: string, inString: bool): string
    decreases |s|
  {
    if s == "" then ""
    else if !inString then [s[0]] + Repair(s[1..], s[0] == '"')
    else if s[0] == '\\' then
      if |s| == 1 then s else s[..2] + Repair(s[2..], true)
    else if s[0] != '"' then [s[0]] + Repair(s[1..], true)
    else if Closes(s[1..]) then [s[0]] + Repair(s[1..], false)
    else ['\\', '"'] + Repair(s[1..], true)
  }

  method RepairUnescapedQuotes(raw: string) returns (out: string)
    ensures out == Repair(raw, false)
  {
    out := "";
    var inString := false;
    var i := 0;
    while i < |raw|
      invariant 0 <= i <= |raw|
      invariant Repair(raw, false) == out + Repair(raw[i..], inString)
    {
      RepairUnroll(raw, i, out, inString);
      var piece, consumed;
      piece, inString, consumed := RepairStep(raw, i, inString);
      out := out + piece;
      i := i + consumed;
    }
  }

  /** The body of the loop: what it writes for the character at `i`, the state
      after it and how many characters it consumed. */
  method RepairStep(raw: string, i: nat, inString: bool) returns (piece: string, inString': bool, consumed: nat)
    requires i < |raw|
    ensures (piece, inString', consumed) == RepairPiece(raw[i..], inString)
  {
    var ch := raw[i];
    DropDrop(raw, i, 1);
    consumed := 1;
    if !inString {
      inString' := ch == '"';
      piece := [ch];
    } else if ch == '\\' {
      inString' := true;
      if i + 1 < |raw| {
        piece := [ch, raw[i + 1]];
        consumed := 2;
      } else {
        piece := [ch];
      }
    } else if ch != '"' {
      inString' := true;
      piece := [ch];
    } else {
      var closing := LooksClosing(raw, i);
      inString' := !closing;
      piece := if closing then [ch] else ['\\', '"'];
    }
  }

  /** The lookahead loop over white space. */
  method LooksClosing(raw: string, i: nat) returns (closing: bool)
    requires i < |raw|
    ensures closing == Closes(raw[i + 1..])
  {
    var j := i + 1;
    while j < |raw| && IsSpace(raw[j])
      invariant i < j <= |raw|
      invariant Closes(raw[i + 1..]) == Closes(raw[j..])
    {
      assert raw[j..][1..] == raw[j + 1..];
      j := j + 1;
    }
    closing := j == |raw| || Structural(raw[j]);
  }

  /** What one round of the loop writes, and the state it goes on in. */
  function RepairPiece(s: string, inString: bool): (r: (string, bool, nat))
    requires s != ""
    ensures 0 < r.2 <= |s|
  {
    if !inString then ([s[0]], s[0] == '"', 1)
    else if s[0] == '\\' then if |s| == 1 then ([s[0]], true, 1) else ([s[0], s[1]], true, 2)
    else if s[0] != '"' then ([s[0]], true, 1)
    else if Closes(s[1..]) then ([s[0]], false, 1)
    else (['\\', '"'], true, 1)
  }

  lemma RepairUnroll(raw: string, i: nat, out: string, inString: bool)
    requires i < |raw| && Repair(raw, false) == out + Repair(raw[i..], inString)
    ensures var p := RepairPiece(raw[i..], inString);
      && i + p.2 <= |raw|
      && Repair(raw, false) == (out + p.0) + Repair(raw[i + p.2..], p.1)
  {
    var p := RepairPiece(raw[i..], inString);
    RepairByPieces(raw[i..], inString);
    DropDrop(raw, i, p.2);
    Assoc(out, p.0, Repair(raw[i..][p.2..], p.1));
  }

  lemma RepairByPieces(s: string, inString: bool)
    requires s != ""
    ensures var p := RepairPiece(s, inString); Repair(s, inString) == p.0 + Repair(s[p.2..], p.1)
  {
    if |s| == 1 {
      assert s == [s[0]] && s[1..] == "";
    } else {
      assert s[..2] == [s[0], s[1]];
    }
  }

  /** Every string of `s` that ends, ends at a quote that `Closes` accepts. */
  predicate WellClosed(s: string, inString: bool)
    decreases |s|
  {
    if s == "" then true
    else if !inString then WellClosed(s[1..], s[0] == '"')
    else if s[0] == '\\' then |s| == 1 || WellClosed(s[2..], true)
    else if s[0] != '"' then WellClosed(s[1..], true)
    else Closes(s[1..]) && WellClosed(s[1..], false)
  }

  lemma {:induction false} RepairKeepsClosing(s: string)
    ensures Closes(Repair(s, false)) == Closes(s)
    decreases |s|
  {
    if s != "" {
      assert Repair(s, false)[1..] == Repair(s[1..], s[0] == '"');
      if IsSpace(s[0]) { RepairKeepsClosing(s[1..]); }
    }
  }

  lemma SameBehind(head: string, a: string, b: string)
    ensures |head + a| == |head| + |a| && (head + a == head + b <==> a == b)
  {
    if head + a == head + b {
      assert (head + a)[|head|..] == a && (head + b)[|head|..] == b;
    }
  }

  lemma {:induction false} RepairIsLonger(s: string, inString: bool)
    ensures |Repair(s, inString)| >= |s|
    ensures |Repair(s, inString)| == |s| <==> Repair(s, inString) == s
    decreases |s|
  {
    if s != "" {
      var piece := RepairPiece(s, inString);
      var rest := s[piece.2..];
      RepairByPieces(s, inString);
      RepairIsLonger(rest, piece.1);
      assert s == s[..piece.2] + rest;
      if |piece.0| == piece.2 {
        assert piece.0 == s[..piece.2];
        SameBehind(piece.0, Repair(rest, piece.1), rest);
      }
    }
  }

  /** What the repair leaves has every closing quote before a structural
      character or the end. */
  lemma {:induction false} RepairedIsWellClosed(s: string, inString: bool)
    ensures WellClosed(Repair(s, inString), inString)
    decreases |s|
  {
    var out := Repair(s, inString);
    if s == "" {
    } else if !inString {
      RepairedIsWellClosed(s[1..], s[0] == '"');
      assert out[1..] == Repair(s[1..], s[0] == '"');
    } else if s[0] == '\\' {
      if |s| > 1 {
        RepairedIsWellClosed(s[2..], true);
        assert out[2..] == Repair(s[2..], true);
      }
    } else if s[0] != '"' {
      RepairedIsWellClosed(s[1..], true);
      assert out[1..] == Repair(s[1..], true);
    } else if Closes(s[1..]) {
      RepairKeepsClosing(s[1..]);
      RepairedIsWellClosed(s[1..], false);
      assert out[1..] == Repair(s[1..], false);
    } else {
      RepairedIsWellClosed(s[1..], true);
      assert out[2..] == Repair(s[1..], true);
    }
  }

  /** The repair changes nothing exactly when there is nothing to repair. */
  lemma {:induction false} FixedExactlyWhenWellClosed(s: string, inString: bool)
    ensures Repair(s, inString) == s <==> WellClosed(s, inString)
    decreases |s|
  {
    var out := Repair(s, inString);
    if s == "" {
    } else if !inString {
      FixedExactlyWhenWellClosed(s[1..], s[0] == '"');
      assert out[1..] == Repair(s[1..], s[0] == '"');
    } else if s[0] == '\\' {
      if |s| > 1 {
        FixedExactlyWhenWellClosed(s[2..], true);
        assert out[2..] == Repair(s[2..], true);
        assert s == s[..2] + s[2..];
      }
    } else if s[0] != '"' {
      FixedExactlyWhenWellClosed(s[1..], true);
      assert out[1..] == Repair(s[1..], true);
    } else if Closes(s[1..]) {
      FixedExactlyWhenWellClosed(s[1..], false);
      assert out[1..] == Repair(s[1..], false);
    } else {
      assert out[0] == '\\';
    }
  }

  lemma RepairIsIdempotent(raw: string)
    ensures Repair(Repair(raw, false), false) == Repair(raw, false)
  {
    RepairedIsWellClosed(raw, false);
    FixedExactlyWhenWellClosed(Repair(raw, false), false);
  }

  /** `out` is `raw` with backslashes put before some of its quotes. */
  predicate OnlyQuotesEscaped(raw: string, out: string)
    decreases |raw|
  {
    if raw == "" then out == ""
    else
      || (out != "" && out[0] == raw[0] && OnlyQuotesEscaped(raw[1..], out[1..]))
      || (raw[0] == '"' && |out| >= 2 && out[..2] == ['\\', '"'] && OnlyQuotesEscaped(raw[1..], out[2..]))
  }

  /** The repair adds backslashes before quotes and changes nothing else. */
  lemma {:induction false} RepairOnlyEscapesQuotes(s: string, inString: bool)
    ensures OnlyQuotesEscaped(s, Repair(s, inString))
    decreases |s|
  {
    var out := Repair(s, inString);
    if s == "" {
    } else if !inString {
      RepairOnlyEscapesQuotes(s[1..], s[0] == '"');
      assert out[1..] == Repair(s[1..], s[0] == '"');
    } else if s[0] == '\\' {
      if |s| > 1 {
        RepairOnlyEscapesQuotes(s[2..], true);
        assert out[1..][1..] == Repair(s[2..], true);
        assert s[1..][1..] == s[2..];
      } else {
        assert out[1..] == "" && s[1..] == "";
      }
    } else if s[0] != '"' {
      RepairOnlyEscapesQuotes(s[1..], true);
      assert out[1..] == Repair(s[1..], true);
    } else if Closes(s[1..]) {
      RepairOnlyEscapesQuotes(s[1..], false);
      assert out[1..] == Repair(s[1..], false);
    } else {
      RepairOnlyEscapesQuotes(s[1..], true);
      assert out[2..] == Repair(s[1..], true);
    }
  }

  // ----- JSON texts need no repair -----------------------------------------

  lemma {:induction false} ClosesThroughWs(ws: string, after: string)
    requires AllWs(ws)
    ensures Closes(ws + after) == Closes(after)
    decreases |ws|
  {
    if ws == "" {
      assert ws + after == after;
    } else {
      assert (ws + after)[1..] == ws[1..] + after;
      ClosesThroughWs(ws[1..], after);
    }
  }

  lemma {:induction false} QuoteFreePrefix(a: string, after: string)
    requires forall i :: 0 <= i < |a| ==> a[i] != '"'
    requires WellClosed(after, false)
    ensures WellClosed(a + after, false)
    decreases |a|
  {
    if a == "" {
      assert a + after == after;
    } else {
      assert (a + after)[1..] == a[1..] + after;
      QuoteFreePrefix(a[1..], after);
    }
  }

  lemma {:induction false} CharsWellClosed(cs: seq<StrChar>, after: string)
    requires ValidStr(cs) && Closes(after) && WellClosed(after, false)
    ensures WellClosed(CharsText(cs) + ("\"" + after), true)
    decreases |cs|
  {
    var close := "\"" + after;
    if cs == [] {
      assert CharsText(cs) + close == close;
      assert close[1..] == after;
    } else {
      CharsWellClosed(cs[1..], after);
      CharPrefix(cs[0], CharsText(cs[1..]) + close);
      Assoc(CharText(cs[0]), CharsText(cs[1..]), close);
    }
  }

  lemma CharPrefix(sc: StrChar, after: string)
    requires ValidStrChar(sc) && WellClosed(after, true)
    ensures WellClosed(CharText(sc) + after, true)
  {
    var all := CharText(sc) + after;
    match sc
    case Plain(c) => assert all[1..] == after;
    case Escaped(c) => assert all[2..] == after;
  }

  lemma StrWellClosed(cs: seq<StrChar>, after: string)
    requires ValidStr(cs) && Closes(after) && WellClosed(after, false)
    ensures WellClosed(StrText(cs) + after, false)
  {
    CharsWellClosed(cs, after);
    Assoc(CharsText(cs), "\"", after);
    Assoc("\"", CharsText(cs) + "\"", after);
    var inside := CharsText(cs) + ("\"" + after);
    assert ("\"" + inside)[1..] == inside;
  }

  lemma {:induction false} ValueWellClosed(v: Value, after: string)
    requires Valid(v) && Closes(after) && WellClosed(after, false)
    ensures WellClosed(Text(v) + after, false)
    decreases v, 0
  {
    match v
    case Atom(t) => QuoteFreePrefix(t, after);
    case Str(cs) => StrWellClosed(cs, after);
    case Arr(pad, es) =>
      CharWellClosed(']', after);
      ElemsWellClosed(es, "]" + after);
      Bracketed('[', pad, ElemsText(es), "]", after);
    case Obj(pad, ms) =>
      CharWellClosed('}', after);
      MembersWellClosed(ms, "}" + after);
      Bracketed('{', pad, MembersText(ms), "}", after);
  }

  lemma CharWellClosed(c: char, after: string)
    requires c != '"' && WellClosed(after, false)
    ensures WellClosed([c] + after, false)
    ensures Structural(c) ==> Closes([c] + after)
  {
    assert ([c] + after)[1..] == after;
  }

  lemma Bracketed(open: char, pad: string, body: string, close: string, after: string)
    requires open != '"' && AllWs(pad) && WellClosed(body + (close + after), false)
    ensures WellClosed(([open] + (pad + (body + close))) + after, false)
  {
    QuoteFreePrefix(pad, body + (close + after));
    CharWellClosed(open, pad + (body + (close + after)));
    Assoc(body, close, after);
    Assoc(pad, body + close, after);
    Assoc([open], pad + (body + close), after);
  }

  lemma {:induction false} ElemsWellClosed(es: Elems, after: string)
    requires ValidElems(es) && Closes(after) && WellClosed(after, false)
    ensures WellClosed(ElemsText(es) + after, false)
    ensures Closes(ElemsTail(es) + after) && WellClosed(ElemsTail(es) + after, false)
    decreases es
  {
    match es
    case NoElems =>
      assert "" + after == after;
    case Elems(pre, v, post, rest) =>
      ElemsWellClosed(rest, after);
      PaddedWellClosed(v, post, ElemsTail(rest), after);
      var value := Text(v) + (post + ElemsTail(rest));
      QuoteFreePrefix(pre, value + after);
      Assoc(pre, value, after);
      CharWellClosed(',', ElemsText(es) + after);
      Assoc(",", ElemsText(es), after);
  }

  lemma {:induction false} PaddedWellClosed(v: Value, post: string, tail: string, after: string)
    requires Valid(v) && AllWs(post) && Closes(tail + after) && WellClosed(tail + after, false)
    ensures WellClosed((Text(v) + (post + tail)) + after, false)
    decreases v, 1
  {
    QuoteFreePrefix(post, tail + after);
    ClosesThroughWs(post, tail + after);
    ValueWellClosed(v, post + (tail + after));
    Assoc(post, tail, after);
    Assoc(Text(v), post + tail, after);
  }

  lemma {:induction false} MembersWellClosed(ms: Members, after: string)
    requires ValidMembers(ms) && Closes(after) && WellClosed(after, false)
    ensures WellClosed(MembersText(ms) + after, false)
    ensures Closes(MembersTail(ms) + after) && WellClosed(MembersTail(ms) + after, false)
    decreases ms
  {
    match ms
    case NoMembers =>
      assert "" + after == after;
    case Members(pre, key, mid, sep, v, post, rest) =>
      MembersWellClosed(rest, after);
      PaddedWellClosed(v, post, MembersTail(rest), after);
      var value := Text(v) + (post + MembersTail(rest));
      QuoteFreePrefix(sep, value + after);
      Assoc(sep, value, after);
      CharWellClosed(':', (sep + value) + after);
      Assoc(":", sep + value, after);
      KeyWellClosed(key, mid, ":" + (sep + value), after);
      var named := StrText(key) + (mid + (":" + (sep + value)));
      QuoteFreePrefix(pre, named + after);
      Assoc(pre, named, after);
      CharWellClosed(',', MembersText(ms) + after);
      Assoc(",", MembersText(ms), after);
  }

  lemma KeyWellClosed(key: seq<StrChar>, mid: string, tail: string, after: string)
    requires ValidStr(key) && AllWs(mid) && Closes(tail + after) && WellClosed(tail + after, false)
    ensures WellClosed((StrText(key) + (mid + tail)) + after, false)
  {
    QuoteFreePrefix(mid, tail + after);
    ClosesThroughWs(mid, tail + after);
    StrWellClosed(key, mid + (tail + after));
    Assoc(mid, tail, after);
    Assoc(StrText(key), mid + tail, after);
  }

  /** A well-formed payload is never rewritten. */
  lemma JsonTextIsFixed(s: string)
    requires IsJsonText(s)
    ensures Repair(s, false) == s
  {
    var pre, v, post :| IsPadded(s, pre, v, post);
    QuoteFreePrefix(post, "");
    ClosesThroughWs(post, "");
    assert post + "" == post;
    ValueWellClosed(v, post);
    QuoteFreePrefix(pre, Text(v) + post);
    FixedExactlyWhenWellClosed(s, false);
  }
}
