/** `encode_preserve_case` of the JSON stage: `urllib.parse.quote(text,
    safe=" ")` over the UTF-8 bytes of the text, then eight `str.replace`
    calls that turn the escapes of `:<>,()&` (and of space) back into
    literals, then a regular-expression pass lower-casing the hex digits of
    every remaining escape. Proved equal to a one-pass, per-byte encoding:
    the unreserved characters of section 2.3 of RFC 3986, space and `:<>,()&`
    are written literally, every other byte as '%' and two lower-case hex
    digits (the percent-encoding of section 2.1 of RFC 3986). */
module PercentEncoding {
  import opened Wrappers

  type byte = x: int | 0 <= x < 256

  // --------------------------------------------------------------- UTF-8

  /** The UTF-8 encoding of one Unicode scalar value. */
  function Utf8Char(c: char): (r: seq<byte>)
    ensures 1 <= |r| <= 4
    ensures (c as int < 128) <==> |r| == 1
    ensures c as int < 128 ==> r == [c as int]
    ensures forall i :: 0 <= i < |r| && |r| > 1 ==> r[i] >= 128
  {
    var n := c as int;
    if n < 0x80 then [n]
    else if n < 0x800 then [0xC0 + n / 64, 0x80 + n % 64]
    else if n < 0x1_0000 then [0xE0 + n / 4096, 0x80 + (n / 64) % 64, 0x80 + n % 64]
    else [0xF0 + n / 262144, 0x80 + (n / 4096) % 64, 0x80 + (n / 64) % 64, 0x80 + n % 64]
  }

  function Utf8(text: string): (r: seq<byte>)
    ensures |r| >= |text|
  {
    if |text| == 0 then [] else Utf8Char(text[0]) + Utf8(text[1..])
  }

  /** ASCII text encodes to its character codes. */
  lemma {:induction false} Utf8Ascii(text: string)
    requires forall i :: 0 <= i < |text| ==> text[i] as int < 128
    ensures Utf8(text) == seq(|text|, i requires 0 <= i < |text| => text[i] as int as byte)
  {
    if |text| > 0 {
      Utf8Ascii(text[1..]);
    }
  }

  // ----------------------------------------------------------- hex digits

  function UpperHex(d: nat): (c: char)
    requires d < 16
  {
    if d < 10 then ('0' as int + d) as char else ('A' as int + d - 10) as char
  }

  function LowerHex(d: nat): (c: char)
    requires d < 16
  {
    if d < 10 then ('0' as int + d) as char else ('a' as int + d - 10) as char
  }

  predicate IsHex(c: char) {
    '0' <= c <= '9' || 'A' <= c <= 'F' || 'a' <= c <= 'f'
  }

  function HexValue(c: char): (d: nat)
    requires IsHex(c)
    ensures d < 16
  {
    if '0' <= c <= '9' then c as int - '0' as int
    else if 'A' <= c <= 'F' then c as int - 'A' as int + 10
    else c as int - 'a' as int + 10
  }

  /** The lower-casing the regular-expression callback applies. */
  function Lower(c: char): char
  {
    if 'A' <= c <= 'Z' then (c as int + 32) as char else c
  }

  /** Both spellings of a hex digit read back as the digit; the upper one
      lower-cases to the lower one. */
  lemma HexDigits(d: nat)
    requires d < 16
    ensures IsHex(UpperHex(d)) && HexValue(UpperHex(d)) == d
    ensures IsHex(LowerHex(d)) && HexValue(LowerHex(d)) == d
    ensures Lower(UpperHex(d)) == LowerHex(d)
    ensures UpperHex(d) != '%' && LowerHex(d) != '%'
  {
  }

  // ------------------------------------------------------- the reference

  /** The unreserved characters of section 2.3 of RFC 3986. */
  predicate Unreserved(b: byte) {
    'A' as int <= b <= 'Z' as int || 'a' as int <= b <= 'z' as int || '0' as int <= b <= '9' as int
    || b == '-' as int || b == '.' as int || b == '_' as int || b == '~' as int
  }

  /** `quote`'s safe set with `safe=" "`. */
  predicate QuoteSafe(b: byte) {
    Unreserved(b) || b == ' ' as int
  }

  /** The bytes the replace chain turns back into literals. */
  predicate Restored(b: byte) {
    b == ' ' as int || b == ':' as int || b == '<' as int || b == '>' as int
    || b == ',' as int || b == '(' as int || b == ')' as int || b == '&' as int
  }

  /** Written as itself by the whole pipeline. */
  predicate Literal(b: byte) {
    Unreserved(b) || Restored(b)
  }

  /** The reference encoding of one byte. */
  function EncodeByte(b: byte): (s: string)
    ensures Literal(b) ==> s == [b as char]
    ensures !Literal(b) ==> |s| == 3 && s[0] == '%' && s[1] == LowerHex(b / 16) && s[2] == LowerHex(b % 16)
  {
    if Literal(b) then [b as char] else ['%', LowerHex(b / 16), LowerHex(b % 16)]
  }

  function EncodeBytes(bs: seq<byte>): string
  {
    if |bs| == 0 then "" else EncodeByte(bs[0]) + EncodeBytes(bs[1..])
  }

  // ---------------------------------------------------------- the pipeline

  /** `str.replace(pat, rep)`: every non-overlapping occurrence, left to right. */
  function ReplaceAll(s: string, pat: string, rep: string): string
    requires |pat| > 0
    decreases |s|
  {
    if |s| < |pat| then s
    else if s[..|pat|] == pat then rep + ReplaceAll(s[|pat|..], pat, rep)
    else [s[0]] + ReplaceAll(s[1..], pat, rep)
  }

  /** `re.sub(r"%[0-9A-Fa-f]{2}", lambda m: m.group(0).lower(), s)` */
  function LowerEscapes(s: string): string
    decreases |s|
  {
    if |s| >= 3 && s[0] == '%' && IsHex(s[1]) && IsHex(s[2]) then
      ['%', Lower(s[1]), Lower(s[2])] + LowerEscapes(s[3..])
    else if |s| == 0 then ""
    else [s[0]] + LowerEscapes(s[1..])
  }

  /** `quote(bytes, safe=" ")`: safe bytes as characters, the rest as '%' and
      two upper-case hex digits. */
  function Quote(bs: seq<byte>): string
  {
    if |bs| == 0 then ""
    else
      var b := bs[0];
      var head := if QuoteSafe(b) then [b as char] else ['%', UpperHex(b / 16), UpperHex(b % 16)];
      head + Quote(bs[1..])
  }

  /** The eight replacements, in the script's order. */
  function RestoreLiterals(s: string): string
  {
    var s1 := ReplaceAll(s, "%20", " ");
    var s2 := ReplaceAll(s1, "%3A", ":");
    var s3 := ReplaceAll(s2, "%3C", "<");
    var s4 := ReplaceAll(s3, "%3E", ">");
    var s5 := ReplaceAll(s4, "%2C", ",");
    var s6 := ReplaceAll(s5, "%28", "(");
    var s7 := ReplaceAll(s6, "%29", ")");
    ReplaceAll(s7, "%26", "&")
  }

  function EncodePreserveCase(text: string): string
  {
    LowerEscapes(RestoreLiterals(Quote(Utf8(text))))
  }

  /** `percent_encode` encodes the station name and the details alike. */
  datatype Encoded = Encoded(stationName: string, details: string)

  function PercentEncode(stationName: string, details: string): (r: Encoded)
    ensures r.stationName == EncodeBytes(Utf8(stationName)) && r.details == EncodeBytes(Utf8(details))
  {
    EncodeMatchesReference(stationName);
    EncodeMatchesReference(details);
    Encoded(EncodePreserveCase(stationName), EncodePreserveCase(details))
  }

  // ------------------------------------------------- pieces of quote output

  /** The output of `quote` read as a sequence of single characters and
      three-character escapes. */
  datatype Piece = Lit(c: char) | Esc(hi: char, lo: char)

  function PieceText(p: Piece): string
  {
    match p
    case Lit(c) => [c]
    case Esc(h, l) => ['%', h, l]
  }

  function Flatten(ps: seq<Piece>): string
  {
    if |ps| == 0 then "" else PieceText(ps[0]) + Flatten(ps[1..])
  }

  /** No literal is a '%' and every escape holds two hex digits, so a '%'
      in the text always starts an escape. */
  predicate WellFormed(ps: seq<Piece>) {
    forall i :: 0 <= i < |ps| ==>
      (ps[i].Lit? ==> ps[i].c != '%') && (ps[i].Esc? ==> IsHex(ps[i].hi) && IsHex(ps[i].lo))
  }

  function QuotePiece(b: byte): Piece
  {
    if QuoteSafe(b) then Lit(b as char) else Esc(UpperHex(b / 16), UpperHex(b % 16))
  }

  function QuotePieces(bs: seq<byte>): (ps: seq<Piece>)
    ensures |ps| == |bs| && forall i :: 0 <= i < |bs| ==> ps[i] == QuotePiece(bs[i])
  {
    seq(|bs|, i requires 0 <= i < |bs| => QuotePiece(bs[i]))
  }

  /** One replacement, on one piece. */
  function SubstOne(p: Piece, x: char, y: char, c: char): Piece
  {
    if p == Esc(x, y) then Lit(c) else p
  }

  function Subst(ps: seq<Piece>, x: char, y: char, c: char): (r: seq<Piece>)
    ensures |r| == |ps| && forall i :: 0 <= i < |ps| ==> r[i] == SubstOne(ps[i], x, y, c)
  {
    seq(|ps|, i requires 0 <= i < |ps| => SubstOne(ps[i], x, y, c))
  }

  function LowerPiece(p: Piece): Piece
  {
    match p
    case Lit(c) => p
    case Esc(h, l) => Esc(Lower(h), Lower(l))
  }

  function LowerAll(ps: seq<Piece>): (r: seq<Piece>)
    ensures |r| == |ps| && forall i :: 0 <= i < |ps| ==> r[i] == LowerPiece(ps[i])
  {
    seq(|ps|, i requires 0 <= i < |ps| => LowerPiece(ps[i]))
  }

  lemma {:induction false} QuoteFlatten(bs: seq<byte>)
    ensures Quote(bs) == Flatten(QuotePieces(bs))
    ensures WellFormed(QuotePieces(bs))
  {
    if |bs| > 0 {
      QuoteFlatten(bs[1..]);
      assert QuotePieces(bs)[1..] == QuotePieces(bs[1..]);
      HexDigits(bs[0] / 16);
      HexDigits(bs[0] % 16);
    }
  }

  /** A character that cannot start the pattern is copied through. */
  lemma ReplaceSkipOne(d: char, rest: string, pat: string, rep: string)
    requires |pat| > 0 && pat[0] != d
    ensures ReplaceAll([d] + rest, pat, rep) == [d] + ReplaceAll(rest, pat, rep)
  {
    var s := [d] + rest;
    assert s[1..] == rest;
    if |s| >= |pat| {
      assert s[..|pat|][0] == d;
    } else {
      assert |rest| < |pat|;
    }
  }

  /** Text without the pattern's first character is copied through. */
  lemma {:induction false} ReplaceSkip(x: string, rest: string, pat: string, rep: string)
    requires |pat| > 0 && pat[0] !in x
    ensures ReplaceAll(x + rest, pat, rep) == x + ReplaceAll(rest, pat, rep)
    decreases |x|
  {
    if |x| > 0 {
      ReplaceSkip(x[1..], rest, pat, rep);
      assert x + rest == [x[0]] + (x[1..] + rest);
      ReplaceSkipOne(x[0], x[1..] + rest, pat, rep);
      assert x == [x[0]] + x[1..];
    } else {
      assert x + rest == rest;
    }
  }

  /** An escape the pattern names becomes the replacement. */
  lemma ReplaceMatch(x: char, y: char, c: char, rest: string)
    ensures ReplaceAll(['%', x, y] + rest, ['%', x, y], [c]) == [c] + ReplaceAll(rest, ['%', x, y], [c])
  {
    var s := ['%', x, y] + rest;
    assert s[..3] == ['%', x, y] && s[3..] == rest;
  }

  /** Where the pattern does not start, the first character is copied. */
  lemma ReplaceNoMatch(s: string, pat: string, rep: string)
    requires 0 < |pat| <= |s| && s[..|pat|] != pat
    ensures ReplaceAll(s, pat, rep) == [s[0]] + ReplaceAll(s[1..], pat, rep)
  {
  }

  /** Any other escape of hex digits is copied through. */
  lemma ReplaceOther(h: char, l: char, x: char, y: char, c: char, rest: string)
    requires (h, l) != (x, y) && h != '%' && l != '%'
    ensures ReplaceAll(['%', h, l] + rest, ['%', x, y], [c]) == ['%', h, l] + ReplaceAll(rest, ['%', x, y], [c])
  {
    var pat, s := ['%', x, y], ['%', h, l] + rest;
    assert s[..3] == ['%', h, l];
    ReplaceNoMatch(s, pat, [c]);
    assert s[1..] == [h, l] + rest;
    ReplaceSkip([h, l], rest, pat, [c]);
    assert ['%'] + ([h, l] + ReplaceAll(rest, pat, [c])) == ['%', h, l] + ReplaceAll(rest, pat, [c]);
  }

  /** The replacement passes over one well-formed piece as `SubstOne` says. */
  lemma ReplaceHead(p: Piece, rest: string, x: char, y: char, c: char)
    requires WellFormed([p])
    ensures ReplaceAll(PieceText(p) + rest, ['%', x, y], [c])
      == PieceText(SubstOne(p, x, y, c)) + ReplaceAll(rest, ['%', x, y], [c])
  {
    assert p == [p][0];
    match p
    case Lit(d) =>
      ReplaceSkipOne(d, rest, ['%', x, y], [c]);
    case Esc(h, l) =>
      if p == Esc(x, y) {
        ReplaceMatch(x, y, c, rest);
      } else {
        ReplaceOther(h, l, x, y, c, rest);
      }
  }

  /** Replacing "%xy" in well-formed text replaces exactly the escapes
      Esc(x, y) by the literal. */
  lemma {:induction false} ReplacePieces(ps: seq<Piece>, x: char, y: char, c: char)
    requires WellFormed(ps) && c != '%'
    ensures ReplaceAll(Flatten(ps), ['%', x, y], [c]) == Flatten(Subst(ps, x, y, c))
    ensures WellFormed(Subst(ps, x, y, c))
  {
    if |ps| > 0 {
      assert WellFormed(ps[1..]) by {
        assert forall i :: 0 <= i < |ps| - 1 ==> ps[1..][i] == ps[i + 1];
      }
      assert WellFormed([ps[0]]) by {
        assert [ps[0]][0] == ps[0];
      }
      ReplacePieces(ps[1..], x, y, c);
      assert Subst(ps, x, y, c)[1..] == Subst(ps[1..], x, y, c);
      ReplaceHead(ps[0], Flatten(ps[1..]), x, y, c);
    }
  }

  /** The lower-casing pass lower-cases the escapes of well-formed text and
      nothing else. */
  lemma {:induction false} LowerPieces(ps: seq<Piece>)
    requires WellFormed(ps)
    ensures LowerEscapes(Flatten(ps)) == Flatten(LowerAll(ps))
  {
    if |ps| > 0 {
      var rest := Flatten(ps[1..]);
      assert WellFormed(ps[1..]) by {
        assert forall i :: 0 <= i < |ps| - 1 ==> ps[1..][i] == ps[i + 1];
      }
      LowerPieces(ps[1..]);
      assert LowerAll(ps)[1..] == LowerAll(ps[1..]);
      var s := Flatten(ps);
      assert s == PieceText(ps[0]) + rest;
      match ps[0]
      case Lit(d) =>
        assert s[0] == d && s[1..] == rest;
      case Esc(h, l) =>
        assert s[3..] == rest;
    }
  }

  /** The eight replacements on pieces. */
  function RestorePieces(ps: seq<Piece>): seq<Piece>
  {
    var p1 := Subst(ps, '2', '0', ' ');
    var p2 := Subst(p1, '3', 'A', ':');
    var p3 := Subst(p2, '3', 'C', '<');
    var p4 := Subst(p3, '3', 'E', '>');
    var p5 := Subst(p4, '2', 'C', ',');
    var p6 := Subst(p5, '2', '8', '(');
    var p7 := Subst(p6, '2', '9', ')');
    Subst(p7, '2', '6', '&')
  }

  lemma RestoreFlatten(ps: seq<Piece>)
    requires WellFormed(ps)
    ensures RestoreLiterals(Flatten(ps)) == Flatten(RestorePieces(ps))
    ensures WellFormed(RestorePieces(ps))
  {
    var p1 := Subst(ps, '2', '0', ' ');
    var p2 := Subst(p1, '3', 'A', ':');
    var p3 := Subst(p2, '3', 'C', '<');
    var p4 := Subst(p3, '3', 'E', '>');
    var p5 := Subst(p4, '2', 'C', ',');
    var p6 := Subst(p5, '2', '8', '(');
    var p7 := Subst(p6, '2', '9', ')');
    ReplacePieces(ps, '2', '0', ' ');
    ReplacePieces(p1, '3', 'A', ':');
    ReplacePieces(p2, '3', 'C', '<');
    ReplacePieces(p3, '3', 'E', '>');
    ReplacePieces(p4, '2', 'C', ',');
    ReplacePieces(p5, '2', '8', '(');
    ReplacePieces(p6, '2', '9', ')');
    ReplacePieces(p7, '2', '6', '&');
  }

  /** The reference encoding of a byte, as a piece. */
  function RefPiece(b: byte): Piece
  {
    if Literal(b) then Lit(b as char) else Esc(LowerHex(b / 16), LowerHex(b % 16))
  }

  /** Two upper-case hex digits name one byte. */
  lemma UpperHexPair(b: byte, v: byte)
    ensures UpperHex(b / 16) == UpperHex(v / 16) && UpperHex(b % 16) == UpperHex(v % 16) ==> b == v
  {
    HexDigits(b / 16);
    HexDigits(b % 16);
    HexDigits(v / 16);
    HexDigits(v % 16);
  }

  /** The eight replacements on one piece. */
  function RestorePiece(p: Piece): Piece
  {
    var p1 := SubstOne(p, '2', '0', ' ');
    var p2 := SubstOne(p1, '3', 'A', ':');
    var p3 := SubstOne(p2, '3', 'C', '<');
    var p4 := SubstOne(p3, '3', 'E', '>');
    var p5 := SubstOne(p4, '2', 'C', ',');
    var p6 := SubstOne(p5, '2', '8', '(');
    var p7 := SubstOne(p6, '2', '9', ')');
    SubstOne(p7, '2', '6', '&')
  }

  lemma RestoreAt(ps: seq<Piece>, i: nat)
    requires i < |ps|
    ensures |RestorePieces(ps)| == |ps| && RestorePieces(ps)[i] == RestorePiece(ps[i])
  {
  }

  /** An escape of a byte outside the restored set matches no pattern. */
  lemma KeptEscape(b: byte)
    requires !Restored(b)
    ensures RestorePiece(Esc(UpperHex(b / 16), UpperHex(b % 16))) == Esc(UpperHex(b / 16), UpperHex(b % 16))
  {
    UpperHexPair(b, 32);
    UpperHexPair(b, 58);
    UpperHexPair(b, 60);
    UpperHexPair(b, 62);
    UpperHexPair(b, 44);
    UpperHexPair(b, 40);
    UpperHexPair(b, 41);
    UpperHexPair(b, 38);
  }

  /** The escape of a restored byte becomes the byte's literal. */
  lemma RestoredEscape(b: byte)
    requires Restored(b) && !QuoteSafe(b)
    ensures RestorePiece(Esc(UpperHex(b / 16), UpperHex(b % 16))) == Lit(b as char)
  {
  }

  /** Per byte, the pipeline ends in the reference piece. */
  lemma PiecePipeline(b: byte)
    ensures LowerPiece(RestorePiece(QuotePiece(b))) == RefPiece(b)
  {
    if !QuoteSafe(b) {
      HexDigits(b / 16);
      HexDigits(b % 16);
      if Restored(b) {
        RestoredEscape(b);
      } else {
        KeptEscape(b);
      }
    }
  }

  function RefPieces(bs: seq<byte>): (ps: seq<Piece>)
    ensures |ps| == |bs| && forall i :: 0 <= i < |bs| ==> ps[i] == RefPiece(bs[i])
  {
    seq(|bs|, i requires 0 <= i < |bs| => RefPiece(bs[i]))
  }

  lemma {:induction false} RefFlatten(bs: seq<byte>)
    ensures Flatten(RefPieces(bs)) == EncodeBytes(bs)
  {
    if |bs| > 0 {
      RefFlatten(bs[1..]);
      assert RefPieces(bs)[1..] == RefPieces(bs[1..]);
    }
  }

  /** The pipeline, read on pieces, is the reference piece by piece. */
  lemma PipelinePieces(bs: seq<byte>)
    ensures LowerAll(RestorePieces(QuotePieces(bs))) == RefPieces(bs)
  {
    var out := LowerAll(RestorePieces(QuotePieces(bs)));
    forall i | 0 <= i < |bs|
      ensures out[i] == RefPiece(bs[i])
    {
      PiecePipeline(bs[i]);
      RestoreAt(QuotePieces(bs), i);
    }
  }

  /** `encode_preserve_case` is the per-byte reference encoding of the
      text's UTF-8 bytes. */
  lemma EncodeMatchesReference(text: string)
    ensures EncodePreserveCase(text) == EncodeBytes(Utf8(text))
  {
    var bs := Utf8(text);
    QuoteFlatten(bs);
    RestoreFlatten(QuotePieces(bs));
    LowerPieces(RestorePieces(QuotePieces(bs)));
    PipelinePieces(bs);
    RefFlatten(bs);
  }

  // -------------------------------------------------------------- decoding

  /** Percent-decoding (section 2.1 of RFC 3986) to bytes; None for a
      character that is neither ASCII nor part of an escape. */
  function PercentDecode(s: string): Option<seq<byte>>
    decreases |s|
  {
    if |s| == 0 then Some([])
    else if |s| >= 3 && s[0] == '%' && IsHex(s[1]) && IsHex(s[2]) then
      match PercentDecode(s[3..])
      case None => None
      case Some(rest) => Some([16 * HexValue(s[1]) + HexValue(s[2])] + rest)
    else if s[0] as int < 128 then
      match PercentDecode(s[1..])
      case None => None
      case Some(rest) => Some([s[0] as int] + rest)
    else None
  }

  /** Decoding inverts the reference encoding: no two byte strings encode
      alike. */
  lemma {:induction false} DecodeEncode(bs: seq<byte>)
    ensures PercentDecode(EncodeBytes(bs)) == Some(bs)
  {
    if |bs| > 0 {
      var b := bs[0];
      var s := EncodeBytes(bs);
      DecodeEncode(bs[1..]);
      HexDigits(b / 16);
      HexDigits(b % 16);
      if Literal(b) {
        assert s[0] == b as char && s[1..] == EncodeBytes(bs[1..]);
      } else {
        assert s[3..] == EncodeBytes(bs[1..]);
      }
      assert bs == [b] + bs[1..];
    }
  }

  /** Hence the script's encoding decodes back to the text's UTF-8 bytes. */
  lemma RoundTrip(text: string)
    ensures PercentDecode(EncodePreserveCase(text)) == Some(Utf8(text))
  {
    EncodeMatchesReference(text);
    DecodeEncode(Utf8(text));
  }

  /** Examples: literal letters keep their case, the restored punctuation
      stays literal, other bytes become lower-case escapes. */
  lemma Examples()
    ensures EncodeBytes(Utf8("A b")) == "A b"
    ensures EncodeBytes(Utf8("R/F")) == "R%2fF"
    ensures EncodeBytes(Utf8("(x):")) == "(x):"
  {
    Utf8Ascii("A b");
    Utf8Ascii("R/F");
    Utf8Ascii("(x):");
  }
}
