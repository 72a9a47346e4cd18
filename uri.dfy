/** `encodeURIComponent` and its inverse `decodeURIComponent` (ECMA-262,
    the URI handling functions of the global object): every character
    outside the unreserved set is written as the percent-escaped octets of
    its UTF-8 encoding, with upper-case hexadecimal digits (section 2.1 of
    RFC 3986). `DecodeEncode` proves that decoding undoes encoding on every
    string. */
module UriComponent {
  import opened Results

  type Byte = b: int | 0 <= b < 256

  /** The characters `encodeURIComponent` leaves as they are: ASCII letters,
      digits and `- _ . ! ~ * ' ( )`. */
  predicate Unreserved(c: char) {
    ('A' <= c <= 'Z') || ('a' <= c <= 'z') || ('0' <= c <= '9')
    || c == '-' || c == '_' || c == '.' || c == '!' || c == '~' || c == '*'
    || c == '\'' || c == '(' || c == ')'
  }

  /** An upper-case hexadecimal digit. */
  predicate IsHexDigit(c: char) {
    ('0' <= c <= '9') || ('A' <= c <= 'F')
  }

  function HexDigit(d: int): (c: char)
    requires 0 <= d < 16
    ensures IsHexDigit(c)
  {
    if d < 10 then ('0' as int + d) as char else ('A' as int + d - 10) as char
  }

  /** The value of a hexadecimal digit of either case. */
  function HexValue(c: char): Option<int> {
    if '0' <= c <= '9' then Some(c as int - '0' as int)
    else if 'A' <= c <= 'F' then Some(c as int - 'A' as int + 10)
    else if 'a' <= c <= 'f' then Some(c as int - 'a' as int + 10)
    else None
  }

  lemma HexRoundTrip(d: int)
    requires 0 <= d < 16
    ensures HexValue(HexDigit(d)) == Some(d)
  {
  }

  /** The UTF-8 encoding of the code point of `c`. */
  function Utf8(c: char): (r: seq<Byte>)
    ensures 1 <= |r| <= 4
  {
    var cp := c as int;
    var q1 := cp / 64;
    var q2 := q1 / 64;
    if cp < 0x80 then [cp]
    else if cp < 0x800 then [0xC0 + q1, 0x80 + cp % 64]
    else if cp < 0x10000 then [0xE0 + q2, 0x80 + q1 % 64, 0x80 + cp % 64]
    else [0xF0 + q2 / 64, 0x80 + q2 % 64, 0x80 + q1 % 64, 0x80 + cp % 64]
  }

  /** `%XY` for one octet. */
  function Percent(b: Byte): string {
    ['%', HexDigit(b / 16), HexDigit(b % 16)]
  }

  function PercentAll(bs: seq<Byte>): string {
    if bs == [] then [] else Percent(bs[0]) + PercentAll(bs[1..])
  }

  /** The escape of one character. */
  function EncodeChar(c: char): string {
    if Unreserved(c) then [c] else PercentAll(Utf8(c))
  }

  /** An encoded string is made only of unreserved characters, `%` and
      upper-case hexadecimal digits. */
  predicate IsEncoded(t: string) {
    forall i :: 0 <= i < |t| ==> Unreserved(t[i]) || t[i] == '%' || IsHexDigit(t[i])
  }

  /** `encodeURIComponent(s)`. Since `&`, `=` and `+` are neither unreserved
      nor hexadecimal digits, they never appear in the result. */
  function EncodeURIComponent(s: string): (r: string)
    ensures |r| >= |s|
  {
    if s == [] then [] else EncodeChar(s[0]) + EncodeURIComponent(s[1..])
  }

  lemma {:induction false} PercentAllEncoded(bs: seq<Byte>)
    ensures IsEncoded(PercentAll(bs))
  {
    if bs != [] {
      PercentAllEncoded(bs[1..]);
      var t := PercentAll(bs);
      assert t == Percent(bs[0]) + PercentAll(bs[1..]);
      forall i | 0 <= i < |t| ensures Unreserved(t[i]) || t[i] == '%' || IsHexDigit(t[i]) {
        if i >= 3 { assert t[i] == PercentAll(bs[1..])[i - 3]; }
      }
    }
  }

  /** Every character of `encodeURIComponent(s)` is unreserved, `%` or an
      upper-case hexadecimal digit. */
  lemma {:induction false} EncodedAlphabet(s: string)
    ensures IsEncoded(EncodeURIComponent(s))
    decreases |s|
  {
    if s != [] {
      EncodedAlphabet(s[1..]);
      var head, tail := EncodeChar(s[0]), EncodeURIComponent(s[1..]);
      if !Unreserved(s[0]) { PercentAllEncoded(Utf8(s[0])); }
      var t := head + tail;
      forall i | 0 <= i < |t| ensures Unreserved(t[i]) || t[i] == '%' || IsHexDigit(t[i]) {
        if i >= |head| { assert t[i] == tail[i - |head|]; }
      }
    }
  }

  /** An encoded component never holds the separators of a form body, so
      `key=value` pairs joined with `&` can be split apart again. */
  lemma NoFormSeparators(s: string)
    ensures '&' !in EncodeURIComponent(s) && '=' !in EncodeURIComponent(s)
  {
    EncodedAlphabet(s);
  }

  /** The input read as literal characters and percent-escaped octets. */
  datatype Unit = Lit(c: char) | Octet(b: Byte)

  /** Splits an encoded string into units; a `%` not followed by two
      hexadecimal digits is malformed. */
  function Tokenize(t: string): Option<seq<Unit>>
    decreases |t|
  {
    if t == [] then Some([])
    else if t[0] != '%' then
      match Tokenize(t[1..])
      case None => None
      case Some(us) => Some([Lit(t[0])] + us)
    else if |t| < 3 then None
    else match (HexValue(t[1]), HexValue(t[2]))
      case (Some(hi), Some(lo)) =>
        (match Tokenize(t[3..])
         case None => None
         case Some(us) => Some([Octet(16 * hi + lo)] + us))
      case _ => None
  }

  /** The number of octets a UTF-8 sequence with lead octet `b` has, or 0
      when `b` cannot start a sequence. */
  function SequenceLength(b: Byte): nat {
    if b < 0x80 then 1
    else if 0xC0 <= b < 0xE0 then 2
    else if 0xE0 <= b < 0xF0 then 3
    else if 0xF0 <= b < 0xF8 then 4
    else 0
  }

  predicate IsContinuation(u: Unit) {
    u.Octet? && 0x80 <= u.b < 0xC0
  }

  /** The six payload bits a continuation octet carries. */
  function ContBits(u: Unit): int {
    match u
    case Octet(b) => b - 0x80
    case Lit(_) => 0
  }

  /** The code point a lead octet and its continuation octets spell. */
  function CodePoint(lead: Byte, conts: seq<Unit>): int
    requires |conts| <= 3
  {
    if |conts| == 0 then lead
    else if |conts| == 1 then (lead - 0xC0) * 64 + ContBits(conts[0])
    else if |conts| == 2 then (lead - 0xE0) * 4096 + ContBits(conts[0]) * 64 + ContBits(conts[1])
    else (lead - 0xF0) * 262144 + ContBits(conts[0]) * 4096 + ContBits(conts[1]) * 64 + ContBits(conts[2])
  }

  /** `cp` is a Unicode scalar value that an `n`-octet sequence may encode:
      no overlong form, no surrogate, nothing above U+10FFFF. */
  predicate ScalarFor(cp: int, n: nat) {
    && 0 <= cp <= 0x10FFFF && !(0xD800 <= cp < 0xE000)
    && (n == 1 ==> cp < 0x80)
    && (n == 2 ==> 0x80 <= cp < 0x800)
    && (n == 3 ==> 0x800 <= cp < 0x10000)
    && (n == 4 ==> 0x10000 <= cp)
  }

  function Prepend(c: char, r: Option<string>): Option<string> {
    match r
    case None => None
    case Some(s) => Some([c] + s)
  }

  /** Turns units into characters, decoding each run of octets as UTF-8. */
  function DecodeUnits(us: seq<Unit>): Option<string>
    decreases |us|
  {
    if us == [] then Some([])
    else match us[0]
      case Lit(c) => Prepend(c, DecodeUnits(us[1..]))
      case Octet(b) =>
        var n := SequenceLength(b);
        if n == 0 || |us| < n then None
        else if !(forall i :: 1 <= i < n ==> IsContinuation(us[i])) then None
        else
          var cp := CodePoint(b, us[1..n]);
          if !ScalarFor(cp, n) then None
          else Prepend(cp as char, DecodeUnits(us[n..]))
  }

  /** `decodeURIComponent(t)`; `None` is the URIError it throws on a
      malformed escape or an invalid UTF-8 sequence. */
  function DecodeURIComponent(t: string): Option<string> {
    match Tokenize(t)
    case None => None
    case Some(us) => DecodeUnits(us)
  }

  /** The units a character is encoded as. */
  function UnitsOf(c: char): seq<Unit> {
    if Unreserved(c) then [Lit(c)] else Octets(Utf8(c))
  }

  function Octets(bs: seq<Byte>): (r: seq<Unit>)
    ensures |r| == |bs| && forall i :: 0 <= i < |bs| ==> r[i] == Octet(bs[i])
  {
    if bs == [] then [] else [Octet(bs[0])] + Octets(bs[1..])
  }

  function Units(s: string): seq<Unit> {
    if s == [] then [] else UnitsOf(s[0]) + Units(s[1..])
  }

  function Concat(a: Option<seq<Unit>>, b: Option<seq<Unit>>): Option<seq<Unit>> {
    match (a, b)
    case (Some(x), Some(y)) => Some(x + y)
    case _ => None
  }

  /** Percent-escaped octets are read back as the same octets. */
  lemma {:induction false} TokenizePercent(bs: seq<Byte>, rest: string)
    ensures Tokenize(PercentAll(bs) + rest) == Concat(Some(Octets(bs)), Tokenize(rest))
    decreases |bs|
  {
    if bs != [] {
      var b := bs[0];
      var tail := PercentAll(bs[1..]) + rest;
      var t := PercentAll(bs) + rest;
      assert t == Percent(b) + tail;
      HexRoundTrip(b / 16);
      HexRoundTrip(b % 16);
      assert t[0] == '%' && t[1] == HexDigit(b / 16) && t[2] == HexDigit(b % 16);
      assert 16 * (b / 16) + b % 16 == b;
      assert t[3..] == tail;
      TokenizePercent(bs[1..], rest);
      assert Octets(bs) == [Octet(b)] + Octets(bs[1..]);
      assert HexValue(t[1]) == Some(b / 16) && HexValue(t[2]) == Some(b % 16);
      match Tokenize(rest)
      case None =>
      case Some(us) =>
        assert Tokenize(tail) == Some(Octets(bs[1..]) + us);
        assert Tokenize(t) == Some([Octet(b)] + (Octets(bs[1..]) + us));
        assert Octets(bs) + us == [Octet(b)] + (Octets(bs[1..]) + us);
    } else {
      assert PercentAll(bs) + rest == rest;
      match Tokenize(rest)
      case None =>
      case Some(us) => assert [] + us == us;
    }
  }

  /** Tokenizing an encoded string gives the units of its characters. */
  lemma {:induction false} TokenizeEncoded(s: string)
    ensures Tokenize(EncodeURIComponent(s)) == Some(Units(s))
    decreases |s|
  {
    if s != [] {
      var c, rest := s[0], EncodeURIComponent(s[1..]);
      TokenizeEncoded(s[1..]);
      assert EncodeURIComponent(s) == EncodeChar(c) + rest;
      if Unreserved(c) {
        assert (EncodeChar(c) + rest)[1..] == rest;
      } else {
        TokenizePercent(Utf8(c), rest);
      }
    }
  }

  /** The octets of `Utf8(c)` form one well-formed sequence spelling `c`. */
  predicate SpellsChar(c: char) {
    var bs := Utf8(c); var us := Octets(bs);
    && SequenceLength(bs[0]) == |bs|
    && (forall i :: 1 <= i < |bs| ==> IsContinuation(us[i]))
    && CodePoint(bs[0], us[1..]) == c as int
    && ScalarFor(c as int, |bs|)
  }

  lemma Utf8Two(c: char)
    requires 0x80 <= c as int < 0x800
    ensures SpellsChar(c)
  {
    var cp := c as int;
    var conts := Octets(Utf8(c))[1..];
    assert conts == [Octet(0x80 + cp % 64)];
  }

  lemma Utf8Three(c: char)
    requires 0x800 <= c as int < 0x10000
    ensures SpellsChar(c)
  {
    var cp := c as int;
    var q1 := cp / 64;
    var q2 := q1 / 64;
    var conts := Octets(Utf8(c))[1..];
    assert conts == [Octet(0x80 + q1 % 64), Octet(0x80 + cp % 64)];
    assert cp == 64 * q1 + cp % 64 && q1 == 64 * q2 + q1 % 64;
  }

  lemma Utf8Four(c: char)
    requires 0x10000 <= c as int
    ensures SpellsChar(c)
  {
    var cp := c as int;
    var q1 := cp / 64;
    var q2 := q1 / 64;
    var q3 := q2 / 64;
    var conts := Octets(Utf8(c))[1..];
    assert conts == [Octet(0x80 + q2 % 64), Octet(0x80 + q1 % 64), Octet(0x80 + cp % 64)];
    assert cp == 64 * q1 + cp % 64 && q1 == 64 * q2 + q1 % 64 && q2 == 64 * q3 + q2 % 64;
  }

  lemma Utf8Decodes(c: char)
    ensures SpellsChar(c)
  {
    var cp := c as int;
    if cp < 0x80 {
    } else if cp < 0x800 {
      Utf8Two(c);
    } else if cp < 0x10000 {
      Utf8Three(c);
    } else {
      Utf8Four(c);
    }
  }

  /** Decoding the units of one character gives the character back. */
  lemma DecodeChar(c: char, more: seq<Unit>)
    ensures DecodeUnits(UnitsOf(c) + more) == Prepend(c, DecodeUnits(more))
  {
    var us := UnitsOf(c) + more;
    if Unreserved(c) {
      assert us[1..] == more;
    } else {
      var bs := Utf8(c);
      var n := |bs|;
      Utf8Decodes(c);
      assert us[0] == Octet(bs[0]);
      assert us[1..n] == Octets(bs)[1..];
      assert us[n..] == more;
      assert forall i :: 1 <= i < n ==> us[i] == Octets(bs)[i];
    }
  }

  lemma {:induction false} DecodeUnitsOfString(s: string)
    ensures DecodeUnits(Units(s)) == Some(s)
    decreases |s|
  {
    if s != [] {
      DecodeUnitsOfString(s[1..]);
      DecodeChar(s[0], Units(s[1..]));
      assert [s[0]] + s[1..] == s;
    }
  }

  /** `decodeURIComponent(encodeURIComponent(s)) == s` for every string. */
  lemma DecodeEncode(s: string)
    ensures DecodeURIComponent(EncodeURIComponent(s)) == Some(s)
  {
    TokenizeEncoded(s);
    DecodeUnitsOfString(s);
  }
}
