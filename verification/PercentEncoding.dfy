/** `encodeURIComponent` and `decodeURIComponent` (section 2.1 of RFC 3986), on
    text without lone surrogates. */
module PercentEncoding {
  import opened JsMap
  import opened Utf8

  predicate Unreserved(c: char) {
    'A' <= c <= 'Z' || 'a' <= c <= 'z' || '0' <= c <= '9' || c in "-_.!~*'()"
  }

  function Code(c: char): Scalar { c as int }

  function Codes(s: string): seq<Scalar> { seq(|s|, i requires 0 <= i < |s| => Code(s[i])) }

  function Chars(cs: seq<Scalar>): string { seq(|cs|, i requires 0 <= i < |cs| => cs[i] as char) }

  lemma CharsOfCodes(s: string)
    ensures Chars(Codes(s)) == s
  {
  }

  function HexDigit(d: nat): char
    requires d < 16
  {
    if d < 10 then ('0' as int + d) as char else ('A' as int + d - 10) as char
  }

  function HexValue(c: char): Option<nat> {
    if '0' <= c <= '9' then Some(c as int - '0' as int)
    else if 'A' <= c <= 'F' then Some(c as int - 'A' as int + 10)
    else if 'a' <= c <= 'f' then Some(c as int - 'a' as int + 10)
    else None
  }

  function Escape(bs: seq<Byte>): string {
    if bs == [] then "" else ['%', HexDigit(bs[0] / 16), HexDigit(bs[0] % 16)] + Escape(bs[1..])
  }

  function EncodeComponent(s: string): string {
    if s == "" then "" else (if Unreserved(s[0]) then [s[0]] else Escape(BytesOf(Code(s[0])))) + EncodeComponent(s[1..])
  }

  /** The bytes a component stands for, if its escapes are complete. */
  function Unescape(s: string): Option<seq<Byte>> {
    if s == "" then Some([])
    else if s[0] == '%' then
      if |s| < 3 || HexValue(s[1]).None? || HexValue(s[2]).None? then None
      else
        var b: int, rest := HexValue(s[1]).value * 16 + HexValue(s[2]).value, Unescape(s[3..]);
        if rest.None? || b >= 256 then None else Some([b] + rest.value)
    else
      var rest := Unescape(s[1..]);
      if rest.None? then None else Some(BytesOf(Code(s[0])) + rest.value)
  }

  function DecodeComponent(s: string): Option<string> {
    var bs := Unescape(s);
    if bs.None? then None
    else var cs := Decode(bs.value); if cs.None? then None else Some(Chars(cs.value))
  }

  lemma HexRoundTrip(d: nat)
    requires d < 16
    ensures HexValue(HexDigit(d)) == Some(d)
  {
  }

  lemma UnescapeOne(b: Byte, tail: string)
    requires Unescape(tail).Some?
    ensures Unescape(['%', HexDigit(b / 16), HexDigit(b % 16)] + tail) == Some([b] + Unescape(tail).value)
  {
    hide HexDigit, HexValue;
    HexRoundTrip(b / 16);
    HexRoundTrip(b % 16);
    var s := ['%', HexDigit(b / 16), HexDigit(b % 16)] + tail;
    assert s[3..] == tail;
  }

  lemma {:induction false} UnescapeEscape(bs: seq<Byte>, rest: string)
    requires Unescape(rest).Some?
    ensures Unescape(Escape(bs) + rest) == Some(bs + Unescape(rest).value)
  {
    hide Unescape, HexDigit;
    var value := Unescape(rest).value;
    if bs == [] {
      assert Escape(bs) + rest == rest && bs + value == value;
    } else {
      var code, tail := ['%', HexDigit(bs[0] / 16), HexDigit(bs[0] % 16)], Escape(bs[1..]) + rest;
      UnescapeEscape(bs[1..], rest);
      UnescapeOne(bs[0], tail);
      assert Escape(bs) + rest == code + tail;
      assert bs + value == [bs[0]] + (bs[1..] + value);
    }
  }

  lemma {:induction false} UnescapeEncoded(s: string)
    ensures Unescape(EncodeComponent(s)) == Some(Encode(Codes(s)))
  {
    if s != "" {
      UnescapeEncoded(s[1..]);
      var tail := EncodeComponent(s[1..]);
      assert Codes(s)[1..] == Codes(s[1..]) && Codes(s)[0] == Code(s[0]);
      if Unreserved(s[0]) {
        assert EncodeComponent(s)[1..] == tail;
      } else {
        UnescapeEscape(BytesOf(Code(s[0])), tail);
      }
    }
  }

  /** Decoding undoes encoding. */
  lemma DecodeOfEncode(s: string)
    ensures DecodeComponent(EncodeComponent(s)) == Some(s)
  {
    hide Encode, Decode, EncodeComponent;
    UnescapeEncoded(s);
    DecodeEncode(Codes(s));
    CharsOfCodes(s);
  }

  /** What is encoded holds no reserved character. */
  lemma {:induction false} EncodedPlain(s: string)
    ensures forall i :: 0 <= i < |EncodeComponent(s)| ==>
      Unreserved(EncodeComponent(s)[i]) || EncodeComponent(s)[i] == '%'
    ensures s != "" ==> EncodeComponent(s) != ""
  {
    if s != "" {
      EncodedPlain(s[1..]);
      if !Unreserved(s[0]) { EscapedPlain(BytesOf(Code(s[0]))); }
    }
  }

  lemma {:induction false} EscapedPlain(bs: seq<Byte>)
    ensures forall i :: 0 <= i < |Escape(bs)| ==> Unreserved(Escape(bs)[i]) || Escape(bs)[i] == '%'
    ensures bs != [] ==> Escape(bs) != ""
  {
    if bs != [] { EscapedPlain(bs[1..]); }
  }
}
