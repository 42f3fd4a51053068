/** The texts of a form, as each side measures and reads them
    (web/src/form-model.ts, crates/harness-presentation/src/lib.rs). */
module FormTexts {
  import opened Utf8
  import opened Forms

  function CodePoints(s: string): (cs: seq<Scalar>)
    ensures |cs| == |s|
  {
    seq(|s|, i requires 0 <= i < |s| => s[i] as int)
  }

  /** A text's size is the length of its UTF-8 encoding. */
  lemma {:induction false} BytesExact(s: string)
    ensures Bytes(s) == |Encode(CodePoints(s))|
  {
    if s != "" {
      BytesExact(s[1..]);
      assert CodePoints(s)[1..] == CodePoints(s[1..]);
      SizeEncode(CodePoints(s));
      SizeEncode(CodePoints(s[1..]));
    }
  }

  /** An id is good exactly if it has between 1 and 128 bytes. */
  lemma GoodIdExact(id: string)
    ensures GoodId(id) <==> 1 <= |Encode(CodePoints(id))| <= 128
  {
    BytesExact(id);
    if id != "" { SizeEncode(CodePoints(id)); }
  }

  /** At least one byte, and ASCII digits only. */
  predicate AsciiDigits(run: string) { run != "" && forall i :: 0 <= i < |run| ==> 48 <= run[i] as int <= 57 }

  /** The host's reading of an integer: at most one sign off the front, then digits. */
  predicate HostReadsInteger(s: string) { AsciiDigits(if s != "" && s[0] == '-' then s[1..] else s) }

  predicate OnlyDigits(run: string) { run != "" && forall i :: 0 <= i < |run| ==> run[i] in "0123456789" }

  predicate Split(s: string, sign: string, run: string) {
    (sign == "" || sign == "-") && s == sign + run && OnlyDigits(run)
  }

  /** The browser's: the whole text is an optional sign and a run of digits. */
  ghost predicate BrowserReadsInteger(s: string) { exists sign, run :: Split(s, sign, run) }

  lemma DigitExact(c: char)
    ensures c in "0123456789" <==> 48 <= c as int <= 57
  {
    var d := "0123456789";
    if 48 <= c as int <= 57 { assert d[c as int - 48] == c; }
  }

  lemma DigitsExact(run: string)
    ensures OnlyDigits(run) <==> AsciiDigits(run)
    ensures Digits(run) <==> AsciiDigits(run)
    ensures run != "" && run[0] == '-' ==> !AsciiDigits(run)
  {
    forall i | 0 <= i < |run| ensures run[i] in "0123456789" <==> 48 <= run[i] as int <= 57 { DigitExact(run[i]); }
  }

  /** Both sides read the same texts as integers. */
  lemma IntegersAgree(s: string)
    ensures DecimalInteger(s) <==> HostReadsInteger(s)
    ensures BrowserReadsInteger(s) <==> HostReadsInteger(s)
  {
    DigitsExact(s);
    if s != "" && s[0] == '-' { DigitsExact(s[1..]); }
    hide Digits, AsciiDigits, OnlyDigits;
    if HostReadsInteger(s) {
      if s != "" && s[0] == '-' {
        assert s == "-" + s[1..];
        assert Split(s, "-", s[1..]);
      } else {
        assert s == "" + s;
        assert Split(s, "", s);
      }
    }
    if BrowserReadsInteger(s) {
      var sign, run :| Split(s, sign, run);
      if sign == "" { assert s == run; } else { assert s[1..] == run && s[0] == '-'; }
    }
  }
}
