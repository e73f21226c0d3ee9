/** `URLEncoder.encode(value, "UTF-8")`: the `application/x-www-form-urlencoded`
    encoding of section 17.13.4.1 of HTML 4.01 as the JDK implements it.
    Letters, digits and `.`, `-`, `*`, `_` stay; a space becomes `+`; every
    other character becomes `%XX` for each byte of its UTF-8 form, with
    upper-case hexadecimal digits.  A decoder is given beside it as the
    inverse the encoding is proved against. */
module UrlEncoding {
  import opened Wrappers

  type byte = x: int | 0 <= x < 256

  /** The characters the JDK leaves as they are. */
  predicate Unreserved(c: char)
  {
    ('a' <= c <= 'z') || ('A' <= c <= 'Z') || ('0' <= c <= '9') || c == '.' || c == '-' || c == '*' || c == '_'
  }

  /** The UTF-8 form of one Unicode scalar value (section 3 of RFC 3629). */
  function Utf8(c: char): (r: seq<byte>)
    ensures 1 <= |r| <= 4
  {
    var cp := c as int;
    if cp < 0x80 then [cp]
    else if cp < 0x800 then [0xC0 + cp / 64, 0x80 + cp % 64]
    else if cp < 0x10000 then [0xE0 + cp / 4096, 0x80 + (cp / 64) % 64, 0x80 + cp % 64]
    else [0xF0 + cp / 262144, 0x80 + (cp / 4096) % 64, 0x80 + (cp / 64) % 64, 0x80 + cp % 64]
  }

  /** An upper-case hexadecimal digit, as `Character.forDigit(d, 16)` upper-cased. */
  function HexDigit(d: int): (r: char)
    requires 0 <= d < 16
  {
    if d < 10 then ('0' as int + d) as char else ('A' as int + d - 10) as char
  }

  function HexValue(c: char): Option<int>
  {
    if '0' <= c <= '9' then Some(c as int - '0' as int)
    else if 'A' <= c <= 'F' then Some(c as int - 'A' as int + 10)
    else if 'a' <= c <= 'f' then Some(c as int - 'a' as int + 10)
    else None
  }

  /** `%XX` for one byte. */
  function Percent(b: byte): (r: string)
    ensures |r| == 3 && r[0] == '%'
  {
    ['%', HexDigit(b / 16), HexDigit(b % 16)]
  }

  function Percents(bytes: seq<byte>): (r: string)
    ensures |r| == 3 * |bytes|
  {
    if |bytes| == 0 then "" else Percent(bytes[0]) + Percents(bytes[1..])
  }

  function EncodeChar(c: char): (r: string)
    ensures |r| >= 1
  {
    if Unreserved(c) then [c]
    else if c == ' ' then "+"
    else Percents(Utf8(c))
  }

  /** `URLEncoder.encode(s, "UTF-8")`. */
  function Encode(s: string): string
  {
    if |s| == 0 then "" else EncodeChar(s[0]) + Encode(s[1..])
  }

  /** The characters an encoding can contain. */
  predicate EncodedChar(c: char)
  {
    Unreserved(c) || c == '+' || c == '%'
  }

  lemma {:induction false} PercentsChars(bytes: seq<byte>)
    ensures forall i :: 0 <= i < |Percents(bytes)| ==> EncodedChar(Percents(bytes)[i])
  {
    if |bytes| > 0 {
      PercentsChars(bytes[1..]);
      var p := Percent(bytes[0]);
      assert forall i :: 0 <= i < 3 ==> EncodedChar(p[i]);
    }
  }

  /** The encoding consists of unreserved characters, `+` and `%` only, so it
      never holds the `&`, `=` and `;` that separate parameters and cookies. */
  lemma {:induction false} EncodeChars(s: string)
    ensures forall i :: 0 <= i < |Encode(s)| ==> EncodedChar(Encode(s)[i])
    ensures '&' !in Encode(s) && '=' !in Encode(s) && ';' !in Encode(s) && ' ' !in Encode(s)
  {
    if |s| > 0 {
      EncodeChars(s[1..]);
      var head := EncodeChar(s[0]);
      if !Unreserved(s[0]) && s[0] != ' ' {
        PercentsChars(Utf8(s[0]));
      }
      assert forall i :: 0 <= i < |head| ==> EncodedChar(head[i]);
      var e := Encode(s);
      assert e == head + Encode(s[1..]);
      forall i | 0 <= i < |e| ensures EncodedChar(e[i]) {
        if i >= |head| { assert e[i] == Encode(s[1..])[i - |head|]; }
      }
    }
  }

  /** A text made of unreserved characters is left as it is. */
  lemma {:induction false} EncodeUnreserved(s: string)
    requires forall i :: 0 <= i < |s| ==> Unreserved(s[i])
    ensures Encode(s) == s
  {
    if |s| > 0 {
      EncodeUnreserved(s[1..]);
      assert [s[0]] + s[1..] == s;
    }
  }

  /** The byte written as `%XX` at position `i`, if there is one. */
  function ByteAt(t: string, i: nat): Option<byte>
  {
    if i + 3 <= |t| && t[i] == '%' && HexValue(t[i + 1]).Some? && HexValue(t[i + 2]).Some? then
      var v := HexValue(t[i + 1]).value * 16 + HexValue(t[i + 2]).value;
      if 0 <= v < 256 then Some(v) else None
    else None
  }

  /** The length of a UTF-8 sequence announced by its first byte; 0 when the
      byte cannot start one. */
  function Utf8Length(b: byte): nat
  {
    if b < 0x80 then 1
    else if 0xC0 <= b < 0xE0 then 2
    else if 0xE0 <= b < 0xF0 then 3
    else if 0xF0 <= b < 0xF8 then 4
    else 0
  }

  predicate Continuation(b: byte)
  {
    0x80 <= b < 0xC0
  }

  /** The scalar value a well-formed UTF-8 sequence stands for. */
  function Utf8Value(bytes: seq<byte>): int
    requires 1 <= |bytes| <= 4
  {
    var b := seq(|bytes|, k requires 0 <= k < |bytes| => bytes[k] as int);
    if |b| == 1 then b[0]
    else if |b| == 2 then (b[0] - 0xC0) * 64 + (b[1] - 0x80)
    else if |b| == 3 then (b[0] - 0xE0) * 4096 + (b[1] - 0x80) * 64 + (b[2] - 0x80)
    else (b[0] - 0xF0) * 262144 + (b[1] - 0x80) * 4096 + (b[2] - 0x80) * 64 + (b[3] - 0x80)
  }

  predicate ScalarValue(v: int)
  {
    (0 <= v < 0xD800) || (0xE000 <= v < 0x110000)
  }

  /** The bytes written as `%XX%XX...` from position `i`, `n` of them. */
  function BytesAt(t: string, i: nat, n: nat): Option<seq<byte>>
    decreases n
  {
    if n == 0 then Some([])
    else
      match ByteAt(t, i)
      case None => None
      case Some(b) =>
        match BytesAt(t, i + 3, n - 1)
        case None => None
        case Some(rest) => Some([b] + rest)
  }

  /** One decoded character and how many characters of `t` it took; the
      inverse of `EncodeChar`, as `URLDecoder.decode` reads it. */
  function DecodeChar(t: string): (r: Option<(char, nat)>)
    ensures r.Some? ==> 1 <= r.value.1 <= |t|
  {
    if |t| == 0 then None
    else if t[0] == '+' then Some((' ', 1))
    else if t[0] != '%' then Some((t[0], 1))
    else
      match ByteAt(t, 0)
      case None => None
      case Some(b0) =>
        var n := Utf8Length(b0);
        if n == 0 then None
        else
          match BytesAt(t, 0, n)
          case None => None
          case Some(bytes) =>
            if |bytes| == n && (forall k :: 1 <= k < n ==> Continuation(bytes[k])) && 3 * n <= |t|
               && ScalarValue(Utf8Value(bytes))
            then Some((Utf8Value(bytes) as char, 3 * n))
            else None
  }

  /** `URLDecoder.decode(t, "UTF-8")`; `None` for a malformed text. */
  function Decode(t: string): Option<string>
    decreases |t|
  {
    if |t| == 0 then Some("")
    else
      match DecodeChar(t)
      case None => None
      case Some((c, n)) =>
        match Decode(t[n..])
        case None => None
        case Some(rest) => Some([c] + rest)
  }

  lemma HexRoundTrip(d: int)
    requires 0 <= d < 16
    ensures HexValue(HexDigit(d)) == Some(d)
  {
  }

  /** The `%XX` of a byte reads back as that byte, whatever follows. */
  lemma PercentRead(b: byte, rest: string)
    ensures ByteAt(Percent(b) + rest, 0) == Some(b)
  {
    var t := Percent(b) + rest;
    HexRoundTrip(b / 16);
    HexRoundTrip(b % 16);
    assert t[1] == HexDigit(b / 16) && t[2] == HexDigit(b % 16);
  }

  lemma {:induction false} PercentsRead(bytes: seq<byte>, rest: string)
    ensures BytesAt(Percents(bytes) + rest, 0, |bytes|) == Some(bytes)
    decreases |bytes|
  {
    if |bytes| > 0 {
      var t := Percents(bytes) + rest;
      assert t == Percent(bytes[0]) + (Percents(bytes[1..]) + rest);
      PercentRead(bytes[0], Percents(bytes[1..]) + rest);
      PercentsRead(bytes[1..], rest);
      BytesAtShift(Percent(bytes[0]), Percents(bytes[1..]) + rest, |bytes| - 1);
      assert [bytes[0]] + bytes[1..] == bytes;
    }
  }

  /** Reading past a three-character prefix is reading the rest. */
  lemma {:induction false} BytesAtShift(p: string, t: string, n: nat)
    requires |p| == 3
    ensures BytesAt(p + t, 3, n) == BytesAt(t, 0, n)
  {
    ShiftBy(p, t, 0, n);
  }

  lemma {:induction false} ShiftBy(p: string, t: string, i: nat, n: nat)
    requires |p| == 3
    ensures BytesAt(p + t, 3 + i, n) == BytesAt(t, i, n)
    decreases n
  {
    if n > 0 {
      var s := p + t;
      if i + 3 <= |t| {
        assert s[3 + i] == t[i] && s[4 + i] == t[i + 1] && s[5 + i] == t[i + 2];
      }
      assert ByteAt(s, 3 + i) == ByteAt(t, i);
      ShiftBy(p, t, i + 3, n - 1);
    }
  }

  /** UTF-8 decoding undoes UTF-8 encoding. */
  lemma Utf8RoundTrip(c: char)
    ensures Utf8Length(Utf8(c)[0]) == |Utf8(c)|
    ensures forall k :: 1 <= k < |Utf8(c)| ==> Continuation(Utf8(c)[k])
    ensures Utf8Value(Utf8(c)) == c as int
  {
    var cp := c as int;
    if 0x10000 <= cp {
      FourBytes(c);
    } else if 0x800 <= cp {
      ThreeBytes(c);
    }
  }

  lemma ThreeBytes(c: char)
    requires 0x800 <= c as int < 0x10000
    ensures Utf8Value(Utf8(c)) == c as int
  {
    var cp := c as int;
    assert cp == (cp / 4096) * 4096 + ((cp / 64) % 64) * 64 + cp % 64;
  }

  lemma FourBytes(c: char)
    requires 0x10000 <= c as int
    ensures Utf8Value(Utf8(c)) == c as int
  {
    var cp := c as int;
    assert cp / 4096 == (cp / 262144) * 64 + (cp / 4096) % 64;
    assert cp == (cp / 4096) * 4096 + ((cp / 64) % 64) * 64 + cp % 64;
  }

  /** Each encoded character decodes back, whatever follows it. */
  lemma DecodeEncodeChar(c: char, rest: string)
    ensures DecodeChar(EncodeChar(c) + rest) == Some((c, |EncodeChar(c)|))
  {
    var e := EncodeChar(c);
    var t := e + rest;
    if !Unreserved(c) && c != ' ' {
      var bytes := Utf8(c);
      Utf8RoundTrip(c);
      PercentsRead(bytes, rest);
      assert Percents(bytes) == Percent(bytes[0]) + Percents(bytes[1..]);
      assert t == Percent(bytes[0]) + (Percents(bytes[1..]) + rest);
      PercentRead(bytes[0], Percents(bytes[1..]) + rest);
      assert t[0] == '%';
    } else {
      assert t[0] == e[0];
    }
  }

  /** Decoding undoes encoding for every text. */
  lemma {:induction false} DecodeEncode(s: string)
    ensures Decode(Encode(s)) == Some(s)
    decreases |s|
  {
    if |s| > 0 {
      var e := EncodeChar(s[0]);
      var t := Encode(s);
      assert t == e + Encode(s[1..]);
      DecodeEncodeChar(s[0], Encode(s[1..]));
      assert t[|e|..] == Encode(s[1..]);
      DecodeEncode(s[1..]);
      assert [s[0]] + s[1..] == s;
    }
  }

  /** Different texts have different encodings. */
  lemma EncodeInjective(s: string, u: string)
    requires Encode(s) == Encode(u)
    ensures s == u
  {
    DecodeEncode(s);
    DecodeEncode(u);
  }

  /** A space is written `+` and an ampersand `%26`. */
  lemma Examples()
    ensures Encode("a b") == "a+b"
    ensures Encode("&") == "%26"
  {
    assert EncodeChar('a') == "a" && EncodeChar('b') == "b";
    assert Encode("b") == "b";
    assert Encode(" b") == "+b";
    assert Utf8('&') == [0x26];
    assert Percent(0x26) == "%26";
    assert Encode("&") == Percents([0x26]) + Encode("");
  }
}
