/** Text as bytes: UTF-8 as it is written, and as it is read back from a file that
    may be cut inside a character (RFC 3629; one U+FFFD for every ill-formed piece,
    as the WHATWG decoder does). Lengths and slices count UTF-16 units. */
module Utf8 {
  import opened Seqs

  type Byte = b: int | 0 <= b < 256

  const REPLACEMENT := '\U{FFFD}'

  predicate IsAscii(c: char) { c as int < 0x80 }

  // ----- writing --------------------------------------------------------------------

  function EncodeChar(c: char): (bs: seq<Byte>)
    ensures |bs| == Width(c)
  {
    var v := c as int;
    if v < 0x80 then [v]
    else if v < 0x800 then [0xC0 + v / 64, 0x80 + v % 64]
    else if v < 0x10000 then [0xE0 + v / 64 / 64, 0x80 + v / 64 % 64, 0x80 + v % 64]
    else [0xF0 + v / 64 / 64 / 64, 0x80 + v / 64 / 64 % 64, 0x80 + v / 64 % 64, 0x80 + v % 64]
  }

  function Width(c: char): (n: nat)
    ensures 1 <= n <= 4 && (n == 1 <==> IsAscii(c))
  {
    var v := c as int;
    if v < 0x80 then 1 else if v < 0x800 then 2 else if v < 0x10000 then 3 else 4
  }

  function Encode(s: string): seq<Byte> {
    if s == "" then [] else EncodeChar(s[0]) + Encode(s[1..])
  }

  // ----- reading --------------------------------------------------------------------

  /** How many continuation bytes a lead byte announces; 0 for no lead byte. */
  function Announced(lead: Byte): nat {
    if 0xC2 <= lead <= 0xDF then 1 else if 0xE0 <= lead <= 0xEF then 2 else if 0xF0 <= lead <= 0xF4 then 3 else 0
  }

  /** The first continuation byte may be confined by the lead byte. */
  predicate Continues(lead: Byte, i: nat, b: Byte) {
    if i != 1 then 0x80 <= b <= 0xBF
    else if lead == 0xE0 then 0xA0 <= b <= 0xBF
    else if lead == 0xED then 0x80 <= b <= 0x9F
    else if lead == 0xF0 then 0x90 <= b <= 0xBF
    else if lead == 0xF4 then 0x80 <= b <= 0x8F
    else 0x80 <= b <= 0xBF
  }

  /** How many bytes of `bs` belong together: the lead byte and, one by one, the
      continuation bytes it can have. */
  function Piece(bs: seq<Byte>, i: nat): (n: nat)
    requires 1 <= i <= |bs| && i <= Announced(bs[0]) + 1
    ensures i <= n <= |bs| && n <= Announced(bs[0]) + 1
    ensures forall k :: i <= k < n ==> Continues(bs[0], k, bs[k])
    ensures n <= Announced(bs[0]) && n < |bs| ==> !Continues(bs[0], n, bs[n])
    decreases |bs| - i
  {
    if i <= Announced(bs[0]) && i < |bs| && Continues(bs[0], i, bs[i]) then Piece(bs, i + 1) else i
  }

  predicate IsScalar(v: int) { 0 <= v < 0xD800 || 0xE000 <= v < 0x11_0000 }

  /** The number a whole piece stands for. */
  function Number(bs: seq<Byte>, n: nat): int
    requires 1 <= n <= |bs| && n <= 4
  {
    var lead: int := bs[0];
    if n == 1 then lead
    else if n == 2 then Join2(lead - 0xC0, bs[1])
    else if n == 3 then Join2(Join2(lead - 0xE0, bs[1]), bs[2])
    else Join2(Join2(Join2(lead - 0xF0, bs[1]), bs[2]), bs[3])
  }

  function Join2(high: int, b: Byte): int { high * 64 + (b as int - 0x80) }

  /** The first character read from `bs`. */
  function First(bs: seq<Byte>): char
    requires bs != []
  {
    var n := Piece(bs, 1);
    if bs[0] >= 0x80 && (Announced(bs[0]) == 0 || n <= Announced(bs[0])) then REPLACEMENT
    else if IsScalar(Number(bs, n)) then Number(bs, n) as char
    else REPLACEMENT
  }

  function Decode(bs: seq<Byte>): string
    decreases |bs|
  {
    if bs == [] then "" else [First(bs)] + Decode(bs[Piece(bs, 1)..])
  }

  // ----- what was written is read -----------------------------------------------------

  lemma ReadsTwo(a: Byte, b: Byte, rest: seq<Byte>)
    requires Announced(a) == 1 && Continues(a, 1, b)
    ensures var bs := [a, b] + rest; Piece(bs, 1) == 2 && Number(bs, 2) == Join2(a as int - 0xC0, b)
  {
    var bs := [a, b] + rest;
    assert Piece(bs, 2) == 2;
  }

  lemma ReadsThree(a: Byte, b: Byte, c: Byte, rest: seq<Byte>)
    requires Announced(a) == 2 && Continues(a, 1, b) && Continues(a, 2, c)
    ensures var bs := [a, b, c] + rest; Piece(bs, 1) == 3 && Number(bs, 3) == Join2(Join2(a as int - 0xE0, b), c)
  {
    var bs := [a, b, c] + rest;
    assert Piece(bs, 3) == 3;
    assert Piece(bs, 2) == 3;
  }

  lemma ReadsFour(a: Byte, b: Byte, c: Byte, d: Byte, rest: seq<Byte>)
    requires Announced(a) == 3 && Continues(a, 1, b) && Continues(a, 2, c) && Continues(a, 3, d)
    ensures var bs := [a, b, c, d] + rest;
      Piece(bs, 1) == 4 && Number(bs, 4) == Join2(Join2(Join2(a as int - 0xF0, b), c), d)
  {
    var bs := [a, b, c, d] + rest;
    assert Piece(bs, 4) == 4;
    assert Piece(bs, 3) == 4;
    assert Piece(bs, 2) == 4;
  }

  /** A character's bytes are one piece, whatever follows. */
  lemma ReadsChar(c: char, rest: seq<Byte>)
    ensures var bs := EncodeChar(c) + rest; Piece(bs, 1) == Width(c) && First(bs) == c
  {
    var v, bs := c as int, EncodeChar(c);
    if v < 0x80 {
    } else if v < 0x800 {
      ReadsTwo(bs[0], bs[1], rest);
    } else if v < 0x10000 {
      ReadsThree(bs[0], bs[1], bs[2], rest);
    } else {
      ReadsFour(bs[0], bs[1], bs[2], bs[3], rest);
    }
  }

  lemma DecodeNext(c: char, rest: seq<Byte>)
    ensures Decode(EncodeChar(c) + rest) == [c] + Decode(rest)
  {
    ReadsChar(c, rest);
    assert (EncodeChar(c) + rest)[Width(c)..] == rest;
  }

  lemma {:induction false} DecodesEncoded(s: string, rest: seq<Byte>)
    ensures Decode(Encode(s) + rest) == s + Decode(rest)
    decreases |s|
  {
    if s == "" {
      assert Encode(s) + rest == rest;
    } else {
      Assoc(EncodeChar(s[0]), Encode(s[1..]), rest);
      DecodeNext(s[0], Encode(s[1..]) + rest);
      DecodesEncoded(s[1..], rest);
      Assoc([s[0]], s[1..], Decode(rest));
      assert s == [s[0]] + s[1..];
    }
  }

  // ----- a file that is cut ----------------------------------------------------------

  /** How many characters the first `n` bytes of a text hold whole. */
  function Whole(s: string, n: nat): (k: nat)
    ensures k <= |s|
  {
    if s == "" || n < Width(s[0]) then 0 else 1 + Whole(s[1..], n - Width(s[0]))
  }

  /** The `n`-th byte of a text is inside a character. */
  predicate Splits(s: string, n: nat) {
    s != "" && n > 0 && (n < Width(s[0]) || Splits(s[1..], n - Width(s[0])))
  }

  /** What is read of a text after its bytes were cut. */
  function Remains(s: string, n: nat): string {
    s[..Whole(s, n)] + if Splits(s, n) then [REPLACEMENT] else ""
  }

  lemma ReadsPart(c: char, k: nat)
    requires 0 < k < Width(c)
    ensures Decode(EncodeChar(c)[..k]) == [REPLACEMENT]
  {
    var bs := EncodeChar(c)[..k];
    var n := Piece(bs, 1);
    ReadsChar(c, []);
    var full := EncodeChar(c) + [];
    assert forall i :: 1 <= i < k ==> bs[i] == full[i];
    assert n == k;
    assert bs[k..] == [];
  }

  lemma RemainsNext(s: string, n: nat)
    requires s != "" && n >= Width(s[0])
    ensures Remains(s, n) == [s[0]] + Remains(s[1..], n - Width(s[0]))
  {
    var rest, m := s[1..], n - Width(s[0]);
    assert s[..Whole(s, n)] == [s[0]] + rest[..Whole(rest, m)];
    Assoc([s[0]], rest[..Whole(rest, m)], if Splits(rest, m) then [REPLACEMENT] else "");
  }

  lemma CutBehind(s: string, n: nat)
    requires s != "" && Width(s[0]) <= n <= |Encode(s)|
    ensures Decode(Encode(s)[..n]) == [s[0]] + Decode(Encode(s[1..])[..n - Width(s[0])])
  {
    var tail := Encode(s[1..])[..n - Width(s[0])];
    assert Encode(s)[..n] == EncodeChar(s[0]) + tail;
    DecodeNext(s[0], tail);
  }

  /** Cutting a text at any byte leaves its first whole characters, and one
      replacement character when the cut went through a character. */
  lemma {:induction false} CutDecodes(s: string, n: nat)
    requires n <= |Encode(s)|
    ensures Decode(Encode(s)[..n]) == Remains(s, n)
    decreases |s|
  {
    if s != "" {
      var w := Width(s[0]);
      if n < w {
        assert Encode(s)[..n] == EncodeChar(s[0])[..n];
        if n > 0 {
          ReadsPart(s[0], n);
        }
      } else {
        CutBehind(s, n);
        CutDecodes(s[1..], n - w);
        RemainsNext(s, n);
      }
    }
  }

  /** Only characters beyond ASCII can be cut through, and nothing remains missing
      exactly when all bytes are there. */
  lemma {:induction false} CutWhere(s: string, n: nat)
    requires n <= |Encode(s)|
    ensures Splits(s, n) ==> Whole(s, n) < |s| && !IsAscii(s[Whole(s, n)])
    ensures n == |Encode(s)| <==> !Splits(s, n) && Whole(s, n) == |s|
    decreases |s|
  {
    if s != "" && n >= Width(s[0]) {
      CutWhere(s[1..], n - Width(s[0]));
    }
  }

  /** What is read of two stretches of bytes is what is read of each, when the first
      does not end inside a character or the second starts with an ASCII byte. */
  lemma {:induction false} DecodeConcat(a: seq<Byte>, b: seq<Byte>)
    requires a != [] && b != [] && b[0] >= 0x80 ==> Decode(a)[|Decode(a)| - 1] != REPLACEMENT
    ensures Decode(a + b) == Decode(a) + Decode(b)
    decreases |a|
  {
    if a == [] {
      assert a + b == b;
    } else if b == [] {
      assert a + b == a;
    } else {
      DecodeStep(a, b);
      DecodeConcat(a[Piece(a, 1)..], b);
      Assoc([First(a)], Decode(a[Piece(a, 1)..]), Decode(b));
    }
  }

  lemma DecodeStep(a: seq<Byte>, b: seq<Byte>)
    requires a != [] && b != []
    requires b[0] >= 0x80 ==> Decode(a)[|Decode(a)| - 1] != REPLACEMENT
    ensures Decode(a + b) == [First(a)] + Decode(a[Piece(a, 1)..] + b)
  {
    SamePiece(a, b);
    assert (a + b)[Piece(a, 1)..] == a[Piece(a, 1)..] + b;
  }

  /** Bytes behind a stretch do not change where its first piece ends, unless the
      piece is unfinished at its end and can go on. */
  lemma {:induction false} PieceGrows(a: seq<Byte>, b: seq<Byte>, i: nat)
    requires 1 <= i <= |a| && i <= Announced(a[0]) + 1 && b != []
    requires Piece(a, i) == |a| && |a| <= Announced(a[0]) ==> b[0] < 0x80
    ensures Piece(a + b, i) == Piece(a, i)
    decreases |a| - i
  {
    var s := a + b;
    assert s[0] == a[0];
    if i < |a| {
      assert s[i] == a[i];
      if i <= Announced(a[0]) && Continues(a[0], i, a[i]) {
        PieceGrows(a, b, i + 1);
      }
    } else {
      assert s[i] == b[0];
    }
  }

  /** A stretch that is one unfinished piece is read as a replacement character. */
  lemma UnfinishedReads(a: seq<Byte>)
    requires a != [] && Piece(a, 1) == |a| && |a| <= Announced(a[0])
    ensures Decode(a) == [REPLACEMENT]
  {
    assert a[|a|..] == [];
    assert a[0] >= 0x80;
  }

  lemma SamePiece(a: seq<Byte>, b: seq<Byte>)
    requires a != [] && b != []
    requires b[0] >= 0x80 ==> Decode(a)[|Decode(a)| - 1] != REPLACEMENT
    ensures Piece(a + b, 1) == Piece(a, 1) && First(a + b) == First(a)
  {
    if Piece(a, 1) == |a| && |a| <= Announced(a[0]) {
      UnfinishedReads(a);
    }
    PieceGrows(a, b, 1);
    SameNumber(a, b, Piece(a, 1));
  }

  lemma SameNumber(a: seq<Byte>, b: seq<Byte>, n: nat)
    requires 1 <= n <= |a| && n <= 4
    ensures Number(a + b, n) == Number(a, n)
  {
    assert forall i :: 0 <= i < n ==> (a + b)[i] == a[i];
  }

  /** A file ends in a line feed exactly when its text does. */
  lemma {:induction false} SameEnd(a: seq<Byte>)
    requires a != []
    ensures Decode(a) != "" && (Decode(a)[|Decode(a)| - 1] == '\n' <==> a[|a| - 1] == 0x0A)
    decreases |a|
  {
    var n := Piece(a, 1);
    if n < |a| {
      SameEnd(a[n..]);
    } else {
      assert a[n..] == [];
      NoLineFeed(a);
    }
  }

  lemma NoLineFeed(a: seq<Byte>)
    requires a != [] && Piece(a, 1) == |a|
    ensures First(a) == '\n' <==> a[|a| - 1] == 0x0A
  {
    var n := |a|;
    if n > 1 {
      assert Continues(a[0], n - 1, a[n - 1]);
      assert Continues(a[0], 1, a[1]);
    }
  }

  // ----- UTF-16 units ------------------------------------------------------------------

  function Units(c: char): nat { if c as int < 0x1_0000 then 1 else 2 }

  /** `length`. */
  function Length(s: string): nat { if s == "" then 0 else Units(s[0]) + Length(s[1..]) }

  /** `slice(0, max)` as it is written: half of a surrogate pair becomes U+FFFD. */
  function Slice(s: string, max: nat): string {
    if s == "" || max == 0 then ""
    else if Units(s[0]) > max then [REPLACEMENT]
    else [s[0]] + Slice(s[1..], max - Units(s[0]))
  }

  /** A slice is a prefix, or one with half of the next character. */
  predicate IsPartOf(part: string, s: string, k: nat) {
    k <= |s| && (part == s[..k] || (k < |s| && !IsAscii(s[k]) && part == s[..k] + [REPLACEMENT]))
  }

  lemma {:induction false} SliceIsPart(s: string, max: nat) returns (k: nat)
    ensures IsPartOf(Slice(s, max), s, k) && (Length(s) > max ==> k < |s|)
    decreases |s|
  {
    k := 0;
    if s != "" && max > 0 && Units(s[0]) <= max {
      var j := SliceIsPart(s[1..], max - Units(s[0]));
      k := j + 1;
      assert s[..k] == [s[0]] + s[1..][..j];
      Assoc([s[0]], s[1..][..j], [REPLACEMENT]);
    }
  }

  lemma RemainsIsPart(s: string, n: nat)
    requires n <= |Encode(s)|
    ensures IsPartOf(Remains(s, n), s, Whole(s, n))
  {
    CutWhere(s, n);
    assert s[..Whole(s, n)] + "" == s[..Whole(s, n)];
  }

  /** The first part of a text is there when its bytes are. */
  lemma {:induction false} WholeEnough(a: string, b: string, n: nat)
    ensures Whole(a + b, n) >= |a| <==> n >= |Encode(a)|
    decreases |a|
  {
    if a != "" {
      assert (a + b)[1..] == a[1..] + b;
      if n >= Width(a[0]) {
        WholeEnough(a[1..], b, n - Width(a[0]));
      }
    }
  }

  /** Cutting beyond the end is not cutting. */
  lemma {:induction false} CutBeyond(s: string, n: nat)
    requires n >= |Encode(s)|
    ensures Remains(s, n) == s
    decreases |s|
  {
    if s != "" {
      CutBeyond(s[1..], n - Width(s[0]));
      RemainsNext(s, n);
      assert s == [s[0]] + s[1..];
    }
  }
}
