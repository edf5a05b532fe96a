/**
 * JavaScript's `encodeURIComponent`, which the search-URL builder applies to
 * the search term, and `decodeURIComponent` as its independent partner.
 *
 * A Dafny `char` is a Unicode scalar value, so every Dafny string is a
 * well-formed UTF-16 string on the JavaScript side and the encoder's
 * URIError (a lone surrogate) cannot arise.
 */
module UriEncoding {
  import opened Wrappers
  import opened Text
  import opened Seqs

  type Byte = b: int | 0 <= b < 256
  type Nibble = n: int | 0 <= n < 16

  /** The characters `encodeURIComponent` leaves as they are. */
  predicate IsUnreserved(c: char) {
    || ('A' <= c <= 'Z') || ('a' <= c <= 'z') || ('0' <= c <= '9')
    || c == '-' || c == '_' || c == '.' || c == '!' || c == '~'
    || c == '*' || c == '\'' || c == '(' || c == ')'
  }

  /** The characters an encoded term is made of (hex digits are unreserved). */
  predicate IsUriSafe(c: char) {
    IsUnreserved(c) || c == '%'
  }

  /** The upper-case hexadecimal digit for `d`. */
  function HexDigit(d: Nibble): (c: char)
    ensures '0' <= c <= '9' || 'A' <= c <= 'F'
  {
    if d < 10 then ('0' as int + d) as char else ('A' as int + d - 10) as char
  }

  /** The value of a hexadecimal digit of either case. */
  function HexValue(c: char): (r: Option<Nibble>)
    ensures r.Some? <==> ('0' <= c <= '9' || 'A' <= c <= 'F' || 'a' <= c <= 'f')
  {
    if '0' <= c <= '9' then Some(c as int - '0' as int)
    else if 'A' <= c <= 'F' then Some(c as int - 'A' as int + 10)
    else if 'a' <= c <= 'f' then Some(c as int - 'a' as int + 10)
    else None
  }

  /** The UTF-8 encoding of one scalar value. */
  function Utf8(c: char): (bs: seq<Byte>)
    ensures 1 <= |bs| <= 4
  {
    var cp := c as int;
    if cp < 0x80 then [cp]
    else if cp < 0x800 then [0xC0 + cp / 64, 0x80 + cp % 64]
    else if cp < 0x10000 then [0xE0 + cp / 4096, 0x80 + (cp / 64) % 64, 0x80 + cp % 64]
    else [0xF0 + cp / 262144, 0x80 + (cp / 4096) % 64, 0x80 + (cp / 64) % 64, 0x80 + cp % 64]
  }

  /** One byte as a `%XX` escape. */
  function Escape(b: Byte): string {
    ['%', HexDigit(b / 16), HexDigit(b % 16)]
  }

  predicate IsUpperHex(c: char) {
    '0' <= c <= '9' || 'A' <= c <= 'F'
  }

  /** A `%` at position `i` of `s` opens a `%XX` escape: two upper-case hex digits follow it. */
  predicate EscapeAt(s: string, i: int)
    requires 0 <= i < |s|
  {
    s[i] == '%' ==> i + 2 < |s| && IsUpperHex(s[i + 1]) && IsUpperHex(s[i + 2])
  }

  /** Every `%` in `s` opens a `%XX` escape. */
  predicate PercentEscaped(s: string) {
    forall i :: 0 <= i < |s| ==> EscapeAt(s, i)
  }

  lemma PercentEscapedConcat(a: string, b: string)
    requires PercentEscaped(a) && PercentEscaped(b)
    ensures PercentEscaped(a + b)
  {
    forall i | 0 <= i < |a + b| ensures EscapeAt(a + b, i) {
      if i < |a| {
        assert EscapeAt(a, i);
        if a[i] == '%' {
          assert (a + b)[i + 1] == a[i + 1] && (a + b)[i + 2] == a[i + 2];
        }
      } else {
        assert EscapeAt(b, i - |a|);
        if b[i - |a|] == '%' {
          assert (a + b)[i + 1] == b[i - |a| + 1] && (a + b)[i + 2] == b[i - |a| + 2];
        }
      }
    }
  }

  function EscapeAll(bs: seq<Byte>): (r: string)
    ensures forall i :: 0 <= i < |r| ==> IsUriSafe(r[i])
    ensures PercentEscaped(r)
  {
    if bs == [] then []
    else
      PercentEscapedConcat(Escape(bs[0]), EscapeAll(bs[1..]));
      Escape(bs[0]) + EscapeAll(bs[1..])
  }

  /** What `encodeURIComponent` turns one character into. */
  function EncodeChar(c: char): (r: string)
    ensures forall i :: 0 <= i < |r| ==> IsUriSafe(r[i])
    ensures PercentEscaped(r)
  {
    if IsUnreserved(c) then [c] else EscapeAll(Utf8(c))
  }

  /**
   * `encodeURIComponent`: unreserved characters pass through, every other
   * character becomes the `%XX` escapes of its UTF-8 bytes.
   */
  function EncodeUriComponent(s: string): (r: string)
    ensures forall i :: 0 <= i < |r| ==> IsUriSafe(r[i])
    ensures PercentEscaped(r)
  {
    if s == [] then []
    else
      PercentEscapedConcat(EncodeChar(s[0]), EncodeUriComponent(s[1..]));
      EncodeChar(s[0]) + EncodeUriComponent(s[1..])
  }

  /** An encoded term holds neither white space nor a `$`. */
  lemma EncodedIsPlain(s: string)
    ensures NoWhitespace(EncodeUriComponent(s))
    ensures '$' !in EncodeUriComponent(s)
  {
    var r := EncodeUriComponent(s);
    forall i | 0 <= i < |r| ensures !IsWhitespace(r[i]) && r[i] != '$' {
      UriSafeIsPlain(r[i]);
    }
  }

  lemma UriSafeIsPlain(c: char)
    requires IsUriSafe(c)
    ensures !IsWhitespace(c) && c != '$'
  {
  }

  /** A term made only of unreserved characters is its own encoding. */
  lemma {:induction false} EncodeUnreservedIdentity(s: string)
    requires forall i :: 0 <= i < |s| ==> IsUnreserved(s[i])
    ensures EncodeUriComponent(s) == s
  {
    if s != [] {
      EncodeUnreservedIdentity(s[1..]);
      assert s == [s[0]] + s[1..];
    }
  }

  // ---------------------------------------------------------------------
  // decodeURIComponent

  /** The byte written as a `%XX` escape at the front of `s`. */
  function EscapedByte(s: string): (r: Option<Byte>)
    ensures r.Some? ==> |s| >= 3
  {
    if |s| >= 3 && s[0] == '%' then
      match HexValue(s[1])
      case None => None
      case Some(hi) =>
        match HexValue(s[2])
        case None => None
        case Some(lo) => Some(hi * 16 + lo)
    else None
  }

  /** The six payload bits of a UTF-8 continuation byte escaped at the front of `s`. */
  function ContinuationBits(s: string): (r: Option<int>)
    ensures r.Some? ==> |s| >= 3 && 0 <= r.value < 64
  {
    match EscapedByte(s)
    case Some(b) => if 0x80 <= b < 0xC0 then Some(b - 0x80) else None
    case None => None
  }

  /**
   * The character a run of `%XX` escapes at the front of `s` stands for, and
   * how many characters of `s` it takes; None for an invalid, truncated,
   * overlong or surrogate UTF-8 sequence (decodeURIComponent's URIError).
   */
  function DecodeEscape(s: string): (r: Option<(char, nat)>)
    ensures r.Some? ==> 3 <= r.value.1 <= |s|
  {
    match EscapedByte(s)
    case None => None
    case Some(b0) =>
      if b0 < 0x80 then Some((b0 as char, 3))
      else if 0xC0 <= b0 < 0xE0 then
        match ContinuationBits(s[3..])
        case None => None
        case Some(c1) =>
          var cp := (b0 - 0xC0) * 64 + c1;
          if 0x80 <= cp then Some((cp as char, 6)) else None
      else if 0xE0 <= b0 < 0xF0 then
        match ContinuationBits(s[3..])
        case None => None
        case Some(c1) =>
          match ContinuationBits(s[6..])
          case None => None
          case Some(c2) =>
            var cp := (b0 - 0xE0) * 4096 + c1 * 64 + c2;
            if 0x800 <= cp && !(0xD800 <= cp < 0xE000) then Some((cp as char, 9)) else None
      else if 0xF0 <= b0 < 0xF8 then
        match ContinuationBits(s[3..])
        case None => None
        case Some(c1) =>
          match ContinuationBits(s[6..])
          case None => None
          case Some(c2) =>
            match ContinuationBits(s[9..])
            case None => None
            case Some(c3) =>
              var cp := (b0 - 0xF0) * 262144 + c1 * 4096 + c2 * 64 + c3;
              if 0x10000 <= cp <= 0x10FFFF then Some((cp as char, 12)) else None
      else None
  }

  /** `decodeURIComponent`, with its URIError written as None. */
  function DecodeUriComponent(s: string): Option<string>
    decreases |s|
  {
    if s == [] then Some([])
    else if s[0] != '%' then
      match DecodeUriComponent(s[1..])
      case None => None
      case Some(rest) => Some([s[0]] + rest)
    else
      match DecodeEscape(s)
      case None => None
      case Some((c, n)) =>
        match DecodeUriComponent(s[n..])
        case None => None
        case Some(rest) => Some([c] + rest)
  }

  // ---------------------------------------------------------------------
  // Round trip

  lemma EscapedFront(b: Byte, x: string)
    ensures EscapedByte(Escape(b) + x) == Some(b)
    ensures (Escape(b) + x)[3..] == x
  {
    var s := Escape(b) + x;
    assert s[0] == '%' && s[1] == HexDigit(b / 16) && s[2] == HexDigit(b % 16);
    assert HexValue(HexDigit(b / 16)) == Some(b / 16);
    assert HexValue(HexDigit(b % 16)) == Some(b % 16);
  }

  lemma SplitDigits2(cp: int)
    requires 0 <= cp
    ensures (cp / 64) * 64 + cp % 64 == cp
  {
  }

  lemma SplitDigits3(cp: int)
    requires 0 <= cp
    ensures (cp / 4096) * 4096 + ((cp / 64) % 64) * 64 + cp % 64 == cp
  {
    var q := cp / 64;
    assert q * 64 + cp % 64 == cp;
    assert (q / 64) * 64 + q % 64 == q;
    assert q / 64 == cp / 4096;
  }

  /** The fields of a three-byte UTF-8 encoding are in range and rebuild the code point. */
  lemma Utf8Fields3(cp: int, b0: int, b1: int, b2: int)
    requires 0x800 <= cp < 0x10000
    requires b0 == 0xE0 + cp / 4096 && b1 == 0x80 + (cp / 64) % 64 && b2 == 0x80 + cp % 64
    ensures 0xE0 <= b0 < 0xF0 && 0x80 <= b1 < 0xC0 && 0x80 <= b2 < 0xC0
    ensures (b0 - 0xE0) * 4096 + (b1 - 0x80) * 64 + (b2 - 0x80) == cp
  {
    SplitDigits3(cp);
  }

  /** The fields of a four-byte UTF-8 encoding are in range and rebuild the code point. */
  lemma Utf8Fields4(cp: int, b0: int, b1: int, b2: int, b3: int)
    requires 0x10000 <= cp <= 0x10FFFF
    requires b0 == 0xF0 + cp / 262144 && b1 == 0x80 + (cp / 4096) % 64
    requires b2 == 0x80 + (cp / 64) % 64 && b3 == 0x80 + cp % 64
    ensures 0xF0 <= b0 < 0xF8 && 0x80 <= b1 < 0xC0 && 0x80 <= b2 < 0xC0 && 0x80 <= b3 < 0xC0
    ensures (b0 - 0xF0) * 262144 + (b1 - 0x80) * 4096 + (b2 - 0x80) * 64 + (b3 - 0x80) == cp
  {
    SplitDigits4(cp);
  }

  lemma SplitDigits4(cp: int)
    requires 0 <= cp
    ensures (cp / 262144) * 262144 + ((cp / 4096) % 64) * 4096 + ((cp / 64) % 64) * 64 + cp % 64 == cp
  {
    var q := cp / 64;
    SplitDigits3(q);
    assert q * 64 + cp % 64 == cp;
    assert q / 4096 == cp / 262144;
    assert q / 64 == cp / 4096;
  }

  /** Two escaped bytes forming a valid two-byte sequence decode to one character. */
  lemma DecodeBytes2(b0: Byte, b1: Byte, t: string)
    requires 0xC0 <= b0 < 0xE0 && 0x80 <= b1 < 0xC0
    requires 0x80 <= (b0 - 0xC0) * 64 + (b1 - 0x80)
    ensures DecodeEscape(Escape(b0) + (Escape(b1) + t))
            == Some((((b0 - 0xC0) * 64 + (b1 - 0x80)) as char, 6))
  {
    var s := Escape(b0) + (Escape(b1) + t);
    EscapedFront(b0, Escape(b1) + t);
    EscapedFront(b1, t);
  }

  lemma DecodeBytes3(b0: Byte, b1: Byte, b2: Byte, t: string)
    requires 0xE0 <= b0 < 0xF0 && 0x80 <= b1 < 0xC0 && 0x80 <= b2 < 0xC0
    requires var cp := (b0 - 0xE0) * 4096 + (b1 - 0x80) * 64 + (b2 - 0x80);
             0x800 <= cp && !(0xD800 <= cp < 0xE000)
    ensures DecodeEscape(Escape(b0) + (Escape(b1) + (Escape(b2) + t)))
            == Some((((b0 - 0xE0) * 4096 + (b1 - 0x80) * 64 + (b2 - 0x80)) as char, 9))
  {
    var s := Escape(b0) + (Escape(b1) + (Escape(b2) + t));
    EscapedFront(b0, Escape(b1) + (Escape(b2) + t));
    EscapedFront(b1, Escape(b2) + t);
    EscapedFront(b2, t);
    assert s[3..][3..] == s[6..];
  }

  lemma DecodeBytes4(b0: Byte, b1: Byte, b2: Byte, b3: Byte, t: string)
    requires 0xF0 <= b0 < 0xF8 && 0x80 <= b1 < 0xC0 && 0x80 <= b2 < 0xC0 && 0x80 <= b3 < 0xC0
    requires var cp := (b0 - 0xF0) * 262144 + (b1 - 0x80) * 4096 + (b2 - 0x80) * 64 + (b3 - 0x80);
             0x10000 <= cp <= 0x10FFFF
    ensures DecodeEscape(Escape(b0) + (Escape(b1) + (Escape(b2) + (Escape(b3) + t))))
            == Some((((b0 - 0xF0) * 262144 + (b1 - 0x80) * 4096 + (b2 - 0x80) * 64 + (b3 - 0x80)) as char, 12))
  {
    var s := Escape(b0) + (Escape(b1) + (Escape(b2) + (Escape(b3) + t)));
    EscapedFront(b0, Escape(b1) + (Escape(b2) + (Escape(b3) + t)));
    EscapedFront(b1, Escape(b2) + (Escape(b3) + t));
    EscapedFront(b2, Escape(b3) + t);
    EscapedFront(b3, t);
    assert s[3..][3..] == s[6..];
    assert s[6..][3..] == s[9..];
  }

  lemma EscapeAll2(b0: Byte, b1: Byte)
    ensures EscapeAll([b0, b1]) == Escape(b0) + Escape(b1)
  {
    assert [b0, b1][1..] == [b1];
    assert EscapeAll([b1]) == Escape(b1) + EscapeAll([]);
  }

  lemma EscapeAll3(b0: Byte, b1: Byte, b2: Byte)
    ensures EscapeAll([b0, b1, b2]) == Escape(b0) + Escape(b1) + Escape(b2)
  {
    assert [b0, b1, b2][1..] == [b1, b2];
    EscapeAll2(b1, b2);
  }

  lemma EscapeAll4(b0: Byte, b1: Byte, b2: Byte, b3: Byte)
    ensures EscapeAll([b0, b1, b2, b3]) == Escape(b0) + Escape(b1) + Escape(b2) + Escape(b3)
  {
    assert [b0, b1, b2, b3][1..] == [b1, b2, b3];
    EscapeAll3(b1, b2, b3);
  }

  /** The escapes of a character with a two-byte UTF-8 encoding. */
  lemma EncodeChar2(c: char)
    requires 0x80 <= c as int < 0x800
    ensures var cp := c as int;
            EncodeChar(c) == Escape(0xC0 + cp / 64) + Escape(0x80 + cp % 64)
  {
    var cp := c as int;
    assert !IsUnreserved(c);
    assert Utf8(c) == [0xC0 + cp / 64, 0x80 + cp % 64];
    EscapeAll2(0xC0 + cp / 64, 0x80 + cp % 64);
  }

  /** The escapes of a character with a three-byte UTF-8 encoding. */
  lemma EncodeChar3(c: char, b0: Byte, b1: Byte, b2: Byte)
    requires 0x800 <= c as int
    requires Utf8(c) == [b0, b1, b2]
    ensures EncodeChar(c) == Escape(b0) + Escape(b1) + Escape(b2)
  {
    assert !IsUnreserved(c);
    EscapeAll3(b0, b1, b2);
  }

  /** The escapes of a character with a four-byte UTF-8 encoding. */
  lemma EncodeChar4(c: char, b0: Byte, b1: Byte, b2: Byte, b3: Byte)
    requires 0x10000 <= c as int
    requires Utf8(c) == [b0, b1, b2, b3]
    ensures EncodeChar(c) == Escape(b0) + Escape(b1) + Escape(b2) + Escape(b3)
  {
    assert !IsUnreserved(c);
    EscapeAll4(b0, b1, b2, b3);
  }

  lemma DecodeEncodedChar2(c: char, t: string)
    requires 0x80 <= c as int < 0x800
    ensures DecodeEscape(EncodeChar(c) + t) == Some((c, |EncodeChar(c)|))
  {
    var cp := c as int;
    var b0, b1 := 0xC0 + cp / 64, 0x80 + cp % 64;
    EncodeChar2(c);
    ConcatAssoc(Escape(b0), Escape(b1), t);
    SplitDigits2(cp);
    DecodeBytes2(b0, b1, t);
  }

  /** A character written as three valid escapes decodes back from them. */
  lemma DecodeChar3(c: char, b0: Byte, b1: Byte, b2: Byte, t: string)
    requires 0xE0 <= b0 < 0xF0 && 0x80 <= b1 < 0xC0 && 0x80 <= b2 < 0xC0
    requires (b0 - 0xE0) * 4096 + (b1 - 0x80) * 64 + (b2 - 0x80) == c as int
    requires 0x800 <= c as int
    requires EncodeChar(c) == Escape(b0) + Escape(b1) + Escape(b2)
    ensures DecodeEscape(EncodeChar(c) + t) == Some((c, |EncodeChar(c)|))
  {
    ConcatAssoc4(Escape(b0), Escape(b1), Escape(b2), t);
    DecodeBytes3(b0, b1, b2, t);
  }

  /** A character written as four valid escapes decodes back from them. */
  lemma DecodeChar4(c: char, b0: Byte, b1: Byte, b2: Byte, b3: Byte, t: string)
    requires 0xF0 <= b0 < 0xF8 && 0x80 <= b1 < 0xC0 && 0x80 <= b2 < 0xC0 && 0x80 <= b3 < 0xC0
    requires (b0 - 0xF0) * 262144 + (b1 - 0x80) * 4096 + (b2 - 0x80) * 64 + (b3 - 0x80) == c as int
    requires 0x10000 <= c as int
    requires EncodeChar(c) == Escape(b0) + Escape(b1) + Escape(b2) + Escape(b3)
    ensures DecodeEscape(EncodeChar(c) + t) == Some((c, |EncodeChar(c)|))
  {
    ConcatAssoc5(Escape(b0), Escape(b1), Escape(b2), Escape(b3), t);
    DecodeBytes4(b0, b1, b2, b3, t);
  }

  /** The three bytes a character in U+0800..U+FFFF is escaped as, and their fields. */
  lemma Utf8Bytes3(c: char) returns (b0: Byte, b1: Byte, b2: Byte)
    requires 0x800 <= c as int < 0x10000
    ensures 0xE0 <= b0 < 0xF0 && 0x80 <= b1 < 0xC0 && 0x80 <= b2 < 0xC0
    ensures (b0 - 0xE0) * 4096 + (b1 - 0x80) * 64 + (b2 - 0x80) == c as int
    ensures EncodeChar(c) == Escape(b0) + Escape(b1) + Escape(b2)
  {
    var cp := c as int;
    Utf8Fields3(cp, 0xE0 + cp / 4096, 0x80 + (cp / 64) % 64, 0x80 + cp % 64);
    b0, b1, b2 := 0xE0 + cp / 4096, 0x80 + (cp / 64) % 64, 0x80 + cp % 64;
    assert Utf8(c) == [b0, b1, b2];
    EncodeChar3(c, b0, b1, b2);
  }

  /** The four bytes a character above U+FFFF is escaped as, and their fields. */
  lemma Utf8Bytes4(c: char) returns (b0: Byte, b1: Byte, b2: Byte, b3: Byte)
    requires 0x10000 <= c as int
    ensures 0xF0 <= b0 < 0xF8 && 0x80 <= b1 < 0xC0 && 0x80 <= b2 < 0xC0 && 0x80 <= b3 < 0xC0
    ensures (b0 - 0xF0) * 262144 + (b1 - 0x80) * 4096 + (b2 - 0x80) * 64 + (b3 - 0x80) == c as int
    ensures EncodeChar(c) == Escape(b0) + Escape(b1) + Escape(b2) + Escape(b3)
  {
    var cp := c as int;
    Utf8Fields4(cp, 0xF0 + cp / 262144, 0x80 + (cp / 4096) % 64, 0x80 + (cp / 64) % 64, 0x80 + cp % 64);
    b0, b1, b2, b3 := 0xF0 + cp / 262144, 0x80 + (cp / 4096) % 64, 0x80 + (cp / 64) % 64, 0x80 + cp % 64;
    assert Utf8(c) == [b0, b1, b2, b3];
    EncodeChar4(c, b0, b1, b2, b3);
  }

  lemma DecodeEncodedChar3(c: char, t: string)
    requires 0x800 <= c as int < 0x10000
    ensures DecodeEscape(EncodeChar(c) + t) == Some((c, |EncodeChar(c)|))
  {
    var b0, b1, b2 := Utf8Bytes3(c);
    DecodeChar3(c, b0, b1, b2, t);
  }

  lemma DecodeEncodedChar4(c: char, t: string)
    requires 0x10000 <= c as int
    ensures DecodeEscape(EncodeChar(c) + t) == Some((c, |EncodeChar(c)|))
  {
    var b0, b1, b2, b3 := Utf8Bytes4(c);
    DecodeChar4(c, b0, b1, b2, b3, t);
  }

  /** An escaped character decodes back to itself, taking exactly its escapes. */
  lemma DecodeEncodedChar(c: char, t: string)
    requires !IsUnreserved(c)
    ensures DecodeEscape(EncodeChar(c) + t) == Some((c, |EncodeChar(c)|))
  {
    var cp := c as int;
    if cp < 0x80 {
      assert EncodeChar(c) == EscapeAll([cp]) == Escape(cp);
      EscapedFront(cp, t);
    } else if cp < 0x800 {
      DecodeEncodedChar2(c, t);
    } else if cp < 0x10000 {
      DecodeEncodedChar3(c, t);
    } else {
      DecodeEncodedChar4(c, t);
    }
  }

  /** decodeURIComponent undoes encodeURIComponent on every string. */
  lemma {:induction false} DecodeEncode(s: string)
    ensures DecodeUriComponent(EncodeUriComponent(s)) == Some(s)
  {
    if s != [] {
      var c := s[0];
      var e := EncodeChar(c);
      var rest := EncodeUriComponent(s[1..]);
      DecodeEncode(s[1..]);
      assert EncodeUriComponent(s) == e + rest;
      assert (e + rest)[|e|..] == rest;
      if IsUnreserved(c) {
        assert (e + rest)[0] == c;
      } else {
        DecodeEncodedChar(c, rest);
        assert (e + rest)[0] == '%';
      }
      assert s == [c] + s[1..];
    }
  }

  /** Distinct terms never share an encoding. */
  lemma EncodeInjective(s: string, t: string)
    requires EncodeUriComponent(s) == EncodeUriComponent(t)
    ensures s == t
  {
    DecodeEncode(s);
    DecodeEncode(t);
  }
}
