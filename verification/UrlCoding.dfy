/** `request_handler::url_decode`: percent-decoding in the sense of section 2.1 of RFC 3986,
    with `+` for a space. */
module UrlCoding {
  import opened Text

  /** `is >> std::hex >> value` on a stream of two characters: a partial function. Only its
      values on two hex digits matter below. */
  type HexReader = (char, char) -> Option<int>

  predicate IsHexDigit(c: char) {
    '0' <= c <= '9' || 'a' <= c <= 'f' || 'A' <= c <= 'F'
  }

  function HexValue(c: char): (v: nat)
    requires IsHexDigit(c)
    ensures v < 16
  {
    if c <= '9' then c as int - '0' as int
    else if c <= 'F' then c as int - 'A' as int + 10
    else c as int - 'a' as int + 10
  }

  ghost predicate ReadsHexDigits(hex: HexReader) {
    forall a, b | IsHexDigit(a) && IsHexDigit(b) :: hex(a, b) == Some(16 * HexValue(a) + HexValue(b))
  }

  /** `static_cast<char>(value)` */
  function AsByte(v: int): char {
    (v % 256) as char
  }

  function Decode(x: string, hex: HexReader): Option<string> {
    if x == "" then Some("")
    else if x[0] == '%' then
      if |x| < 3 || hex(x[1], x[2]).None? then None
      else Cons(AsByte(hex(x[1], x[2]).value), Decode(x[3..], hex))
    else Cons(if x[0] == '+' then ' ' else x[0], Decode(x[1..], hex))
  }

  method UrlDecode(x: string, hex: HexReader) returns (ok: bool, out: string)
    ensures Decode(x, hex) == if ok then Some(out) else None
  {
    out := "";
    var i := 0;
    AfterNothing(Decode(x, hex));
    assert x[0..] == x;
    while i < |x|
      invariant 0 <= i <= |x|
      invariant Decode(x, hex) == After(out, Decode(x[i..], hex))
      decreases |x| - i
    {
      if x[i] == '%' {
        if i + 3 <= |x| {
          var value := hex(x[i + 1], x[i + 2]);
          if value.Some? {
            assert x[i..][3..] == x[i + 3..];
            AfterCons(out, AsByte(value.value), Decode(x[i + 3..], hex));
            out := out + [AsByte(value.value)];
            i := i + 2;
          } else {
            return false, out;
          }
        } else {
          return false, out;
        }
      } else if x[i] == '+' {
        assert x[i..][1..] == x[i + 1..];
        AfterCons(out, ' ', Decode(x[i + 1..], hex));
        out := out + [' '];
      } else {
        assert x[i..][1..] == x[i + 1..];
        AfterCons(out, x[i], Decode(x[i + 1..], hex));
        out := out + [x[i]];
      }
      i := i + 1;
    }
    assert out + "" == out;
    ok := true;
  }

  // ---------- what is accepted ----------

  datatype Piece = Plain(c: char) | Plus | Escape(hi: char, lo: char)

  predicate ValidPiece(p: Piece, hex: HexReader) {
    match p
    case Plain(c) => c != '%' && c != '+'
    case Plus => true
    case Escape(hi, lo) => hex(hi, lo).Some?
  }

  function PieceText(p: Piece): string {
    match p
    case Plain(c) => [c]
    case Plus => "+"
    case Escape(hi, lo) => ['%', hi, lo]
  }

  function PieceByte(p: Piece, hex: HexReader): char
    requires ValidPiece(p, hex)
  {
    match p
    case Plain(c) => c
    case Plus => ' '
    case Escape(hi, lo) => AsByte(hex(hi, lo).value)
  }

  predicate Valid(ps: seq<Piece>, hex: HexReader) {
    ps == [] || (ValidPiece(ps[0], hex) && Valid(ps[1..], hex))
  }

  function PiecesText(ps: seq<Piece>): string {
    if ps == [] then "" else PieceText(ps[0]) + PiecesText(ps[1..])
  }

  function PiecesBytes(ps: seq<Piece>, hex: HexReader): string
    requires Valid(ps, hex)
  {
    if ps == [] then "" else [PieceByte(ps[0], hex)] + PiecesBytes(ps[1..], hex)
  }

  function Escapes(ps: seq<Piece>): nat {
    if ps == [] then 0 else (if ps[0].Escape? then 1 else 0) + Escapes(ps[1..])
  }

  lemma {:induction false} DecodePieces(ps: seq<Piece>, hex: HexReader)
    requires Valid(ps, hex)
    ensures Decode(PiecesText(ps), hex) == Some(PiecesBytes(ps, hex))
  {
    if ps != [] {
      DecodePieces(ps[1..], hex);
      var t := PiecesText(ps);
      match ps[0]
      case Escape(hi, lo) => assert t[1] == hi && t[2] == lo && t[3..] == PiecesText(ps[1..]);
      case _ => assert t[1..] == PiecesText(ps[1..]);
    }
  }

  lemma {:induction false} PiecesOf(x: string, hex: HexReader) returns (ps: seq<Piece>)
    requires Decode(x, hex).Some?
    ensures Valid(ps, hex) && PiecesText(ps) == x && PiecesBytes(ps, hex) == Decode(x, hex).value
    decreases |x|
  {
    if x == "" {
      ps := [];
    } else {
      var n := if x[0] == '%' then 3 else 1;
      var p := if x[0] == '%' then Escape(x[1], x[2]) else if x[0] == '+' then Plus else Plain(x[0]);
      var rest := PiecesOf(x[n..], hex);
      ps := [p] + rest;
      assert ps[1..] == rest;
      assert PieceText(p) == x[..n] && x[..n] + x[n..] == x;
    }
  }

  ghost predicate IsDecoding(ps: seq<Piece>, x: string, out: string, hex: HexReader) {
    Valid(ps, hex) && PiecesText(ps) == x && PiecesBytes(ps, hex) == out
  }

  /** An input is accepted with result `out` exactly when it is a sequence of plain
      characters, `+` and readable escapes that stand for the bytes of `out`. */
  lemma DecodeIffPieces(x: string, out: string, hex: HexReader)
    ensures Decode(x, hex) == Some(out) <==> exists ps :: IsDecoding(ps, x, out, hex)
  {
    if Decode(x, hex) == Some(out) {
      var ps := PiecesOf(x, hex);
      assert IsDecoding(ps, x, out, hex);
    }
    if exists ps :: IsDecoding(ps, x, out, hex) {
      var ps :| IsDecoding(ps, x, out, hex);
      DecodePieces(ps, hex);
    }
  }

  /** Every escape consumed shortens the output by two bytes; nothing else changes its length. */
  lemma {:induction false} OutputLength(ps: seq<Piece>, hex: HexReader)
    requires Valid(ps, hex)
    ensures |PiecesBytes(ps, hex)| == |PiecesText(ps)| - 2 * Escapes(ps)
  {
    if ps != [] {
      OutputLength(ps[1..], hex);
    }
  }

  /** A permitted encoding of one byte: itself unless it is `%` or `+`, a `+` for a space,
      or a percent sign with two hex digits of either case. */
  predicate Encodes(e: string, c: char) {
    || (e == [c] && c != '%' && c != '+')
    || (e == "+" && c == ' ')
    || (|e| == 3 && e[0] == '%' && IsHexDigit(e[1]) && IsHexDigit(e[2])
        && c as int == 16 * HexValue(e[1]) + HexValue(e[2]))
  }

  /** An escape at the front of the input decodes to its byte. */
  lemma DecodeEscape(hi: char, lo: char, rest: string, hex: HexReader)
    requires hex(hi, lo).Some?
    ensures Decode(['%', hi, lo] + rest, hex) == Cons(AsByte(hex(hi, lo).value), Decode(rest, hex))
  {
    var x := ['%', hi, lo] + rest;
    assert x[0] == '%' && x[1] == hi && x[2] == lo && x[3..] == rest;
  }

  lemma DecodePlain(c: char, rest: string, hex: HexReader)
    requires c != '%'
    ensures Decode([c] + rest, hex) == Cons(if c == '+' then ' ' else c, Decode(rest, hex))
  {
    var x := [c] + rest;
    assert x[0] == c && x[1..] == rest;
  }

  /** A permitted encoding at the front of the input decodes to its byte. */
  lemma DecodeOne(e: string, c: char, rest: string, hex: HexReader)
    requires ReadsHexDigits(hex) && Encodes(e, c)
    ensures Decode(e + rest, hex) == Cons(c, Decode(rest, hex))
  {
    if |e| == 3 {
      var hi, lo := e[1], e[2];
      assert hex(hi, lo) == Some(c as int);
      assert AsByte(c as int) == c;
      DecodeEscape(hi, lo, rest, hex);
      assert e == ['%', hi, lo];
    } else {
      DecodePlain(e[0], rest, hex);
      assert e == [e[0]];
    }
  }

  /** Decoding inverts every percent-encoder: whichever permitted encoding is chosen for
      each byte, the bytes come back. */
  lemma {:induction false} DecodeInvertsEncode(raw: string, es: seq<string>, hex: HexReader)
    requires ReadsHexDigits(hex)
    requires |es| == |raw| && forall i | 0 <= i < |raw| :: Encodes(es[i], raw[i])
    ensures Decode(Concat(es), hex) == Some(raw)
  {
    if raw != "" {
      forall i | 0 <= i < |raw[1..]| ensures Encodes(es[1..][i], raw[1..][i]) {
        assert Encodes(es[i + 1], raw[i + 1]);
      }
      DecodeInvertsEncode(raw[1..], es[1..], hex);
      assert Encodes(es[0], raw[0]);
      DecodeOne(es[0], raw[0], Concat(es[1..]), hex);
      assert [raw[0]] + raw[1..] == raw;
    }
  }
}
