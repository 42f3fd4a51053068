/** Operation identities: the accepted UUID spellings and their canonical form
    (web/src/protocol.ts, with the pattern of crates/harness/src/embedding.rs). */
module OperationId {

  predicate Hex(c: char) { '0' <= c <= '9' || 'a' <= c <= 'f' || 'A' <= c <= 'F' }

  predicate LowerHex(c: char) { '0' <= c <= '9' || 'a' <= c <= 'f' }

  predicate AllHex(s: string) { forall i :: 0 <= i < |s| ==> Hex(s[i]) }

  predicate AllLowerHex(s: string) { forall i :: 0 <= i < |s| ==> LowerHex(s[i]) }

  /** The five groups of a UUID joined by hyphens. */
  function Grouped(d: string): string
    requires |d| == 32
  {
    d[..8] + "-" + d[8..12] + "-" + d[12..16] + "-" + d[16..20] + "-" + d[20..]
  }

  predicate Hyphenated(s: string) {
    && |s| == 36
    && forall i :: 0 <= i < 36 ==> if i == 8 || i == 13 || i == 18 || i == 23 then s[i] == '-' else Hex(s[i])
  }

  const URN := "urn:uuid:"

  predicate Simple(s: string) { |s| == 32 && AllHex(s) }

  predicate Braced(s: string) { |s| == 38 && s[0] == '{' && s[37] == '}' && Hyphenated(s[1..37]) }

  predicate Urn(s: string) { |s| == 45 && s[..9] == URN && Hyphenated(s[9..]) }

  predicate IsOperationId(s: string) { Simple(s) || Hyphenated(s) || Braced(s) || Urn(s) }

  function LowerChar(c: char): char { if 'A' <= c <= 'Z' then c - 'A' + 'a' else c }

  function Lower(s: string): string { seq(|s|, i requires 0 <= i < |s| => LowerChar(s[i])) }

  function WithoutHyphens(s: string): string {
    if s == "" then "" else (if s[0] == '-' then "" else [s[0]]) + WithoutHyphens(s[1..])
  }

  /** `toLowerCase`, drop the URN prefix or the braces, drop hyphens. */
  function Digits(s: string): string {
    var low := Lower(s);
    var body := if URN <= low then low[9..]
                else if low != "" && low[0] == '{' then (if |low| >= 2 then low[1..|low| - 1] else "")
                else low;
    WithoutHyphens(body)
  }

  function Slice(s: string, lo: nat, hi: nat): string
    requires lo <= hi
  {
    s[if lo <= |s| then lo else |s|..if hi <= |s| then hi else |s|]
  }

  /** The source throws on a string that is no operation id; no caller of this
      model passes one, and such a string is left as it is. */
  function Canonical(s: string): string {
    if !IsOperationId(s) then s
    else
      var d := Digits(s);
      Slice(d, 0, 8) + "-" + Slice(d, 8, 12) + "-" + Slice(d, 12, 16) + "-" + Slice(d, 16, 20) + "-" +
      (if |d| > 20 then d[20..] else "")
  }

  // ------------------------------------------------------------- lemmas

  lemma {:induction false} WithoutHyphensConcat(a: string, b: string)
    ensures WithoutHyphens(a + b) == WithoutHyphens(a) + WithoutHyphens(b)
  {
    if a == "" {
      assert a + b == b;
    } else {
      assert (a + b)[1..] == a[1..] + b;
      WithoutHyphensConcat(a[1..], b);
    }
  }

  lemma {:induction false} HexKept(s: string)
    requires AllHex(s)
    ensures WithoutHyphens(s) == s
  {
    if s != "" {
      HexKept(s[1..]);
      assert [s[0]] + s[1..] == s;
    }
  }

  /** The 32 digits of a hyphenated spelling. */
  function GroupsOf(s: string): string
    requires |s| == 36
  {
    s[..8] + s[9..13] + s[14..18] + s[19..23] + s[24..]
  }

  lemma DropOneHyphen(a: string, b: string)
    requires AllHex(a)
    ensures WithoutHyphens(a + "-" + b) == a + WithoutHyphens(b)
  {
    hide AllHex;
    HexKept(a);
    WithoutHyphensConcat(a, "-" + b);
    assert a + "-" + b == a + ("-" + b);
    assert ("-" + b)[1..] == b && ("-" + b)[0] == '-';
    assert WithoutHyphens("-" + b) == "" + WithoutHyphens(b);
    hide WithoutHyphens;
  }

  lemma HyphenatedDigits(s: string)
    requires Hyphenated(s)
    ensures WithoutHyphens(s) == GroupsOf(s)
  {
    hide WithoutHyphens;
    DropOneHyphen(s[..8], s[9..]);
    assert s == s[..8] + "-" + s[9..];
    DropOneHyphen(s[9..13], s[14..]);
    assert s[9..] == s[9..13] + "-" + s[14..];
    DropOneHyphen(s[14..18], s[19..]);
    assert s[14..] == s[14..18] + "-" + s[19..];
    DropOneHyphen(s[19..23], s[24..]);
    assert s[19..] == s[19..23] + "-" + s[24..];
    HexKept(s[24..]);
  }

  lemma LowerHyphenated(s: string)
    requires Hyphenated(s)
    ensures Hyphenated(Lower(s)) && GroupsOf(Lower(s)) == Lower(GroupsOf(s)) && AllLowerHex(Lower(GroupsOf(s)))
  {
    assert forall i :: 0 <= i < 36 && Hex(s[i]) ==> LowerHex(LowerChar(s[i]));
    assert forall i :: 0 <= i < 32 ==> Hex(GroupsOf(s)[i]);
  }

  /** The hyphenated or bare body of any accepted spelling. */
  function Body(s: string): string
    requires IsOperationId(s)
  {
    if Urn(s) then s[9..] else if Braced(s) then s[1..37] else s
  }

  lemma DigitsOfBody(s: string)
    requires IsOperationId(s)
    ensures Digits(s) == WithoutHyphens(Lower(Body(s)))
  {
    hide WithoutHyphens, Hyphenated;
    var low := Lower(s);
    if Urn(s) {
      assert low[..9] == Lower(s[..9]) == URN;
      assert low[9..] == Lower(s[9..]);
    } else {
      FirstCharacter(s);
      if Braced(s) { assert low[1..37] == Lower(s[1..37]); }
    }
  }

  lemma FirstCharacter(s: string)
    requires Simple(s) || Hyphenated(s) || Braced(s)
    ensures !(URN <= Lower(s))
    ensures s[0] == '{' <==> Braced(s)
    ensures Lower(s)[0] == '{' <==> Braced(s)
  {
    assert Hex(s[0]) || s[0] == '{';
    assert Lower(s)[0] == LowerChar(s[0]) != 'u';
    assert URN[0] == 'u';
  }

  /** The 32 lower-case digits behind an accepted spelling. */
  lemma DigitsShape(s: string)
    requires IsOperationId(s)
    ensures |Digits(s)| == 32 && AllLowerHex(Digits(s))
    ensures Digits(s) == Lower(if |Body(s)| == 36 then GroupsOf(Body(s)) else Body(s))
  {
    DigitsOfBody(s);
    var body := Body(s);
    if Simple(s) {
      assert AllLowerHex(Lower(body)) by {
        assert forall i :: 0 <= i < 32 ==> Hex(body[i]) && LowerHex(LowerChar(body[i]));
      }
      HexKept(Lower(body));
    } else {
      LowerHyphenated(body);
      HyphenatedDigits(Lower(body));
    }
  }

  lemma CanonicalGrouped(s: string)
    requires IsOperationId(s)
    ensures |Digits(s)| == 32 && Canonical(s) == Grouped(Digits(s))
  {
    hide Digits;
    DigitsShape(s);
  }

  lemma GroupedShape(d: string)
    requires |d| == 32 && AllHex(d)
    ensures Hyphenated(Grouped(d)) && GroupsOf(Grouped(d)) == d
  {
    var g := Grouped(d);
    assert g[8] == '-' && g[13] == '-' && g[18] == '-' && g[23] == '-';
    assert forall i :: 0 <= i < 8 ==> g[i] == d[i];
    assert forall i :: 9 <= i < 13 ==> g[i] == d[i - 1];
    assert forall i :: 14 <= i < 18 ==> g[i] == d[i - 2];
    assert forall i :: 19 <= i < 23 ==> g[i] == d[i - 3];
    assert forall i :: 24 <= i < 36 ==> g[i] == d[i - 4];
    assert g[..8] == d[..8] && g[9..13] == d[8..12] && g[14..18] == d[12..16];
    assert g[19..23] == d[16..20] && g[24..] == d[20..];
  }

  lemma LowerFixed(d: string)
    requires AllLowerHex(d)
    ensures Lower(d) == d && AllHex(d)
  {
  }

  /** Spelling a UUID canonically is spelling it once: the canonical form is an
      accepted spelling and its own canonical form. */
  lemma CanonicalIdempotent(s: string)
    requires IsOperationId(s)
    ensures IsOperationId(Canonical(s)) && Canonical(Canonical(s)) == Canonical(s)
  {
    hide Digits;
    var d := Digits(s);
    DigitsShape(s);
    CanonicalGrouped(s);
    LowerFixed(d);
    GroupedShape(d);
    var c := Grouped(d);
    FirstCharacter(c);
    DigitsShape(c);
    CanonicalGrouped(c);
  }

  /** Two accepted spellings name one operation exactly when their digits agree. */
  lemma CanonicalExact(a: string, b: string)
    requires IsOperationId(a) && IsOperationId(b)
    ensures Canonical(a) == Canonical(b) <==> Digits(a) == Digits(b)
  {
    hide Digits;
    CanonicalGrouped(a);
    CanonicalGrouped(b);
    DigitsShape(a);
    DigitsShape(b);
    LowerFixed(Digits(a));
    LowerFixed(Digits(b));
    GroupedShape(Digits(a));
    GroupedShape(Digits(b));
  }

  /** All four spellings of one UUID have the same canonical form. */
  lemma SpellingsAgree(d: string)
    requires Simple(d)
    ensures var h := Grouped(d);
      && IsOperationId(h) && IsOperationId("{" + h + "}") && IsOperationId(URN + h)
      && Canonical(h) == Canonical(d) && Canonical("{" + h + "}") == Canonical(d) && Canonical(URN + h) == Canonical(d)
  {
    hide Digits, Canonical;
    var h := Grouped(d);
    GroupedShape(d);
    var b, u := "{" + h + "}", URN + h;
    assert b[1..37] == h && u[9..] == h && u[..9] == URN;
    assert Braced(b) && Urn(u);
    hide Hyphenated, AllHex;
    FirstCharacter(h);
    FirstCharacter(d);
    SameDigits(h, d);
    SameDigits(b, d);
    SameDigits(u, d);
  }

  lemma SameDigits(s: string, d: string)
    requires Simple(d) && IsOperationId(s) && |Body(s)| == 36 && GroupsOf(Body(s)) == d && Body(d) == d
    ensures Canonical(s) == Canonical(d)
  {
    hide Digits, Canonical;
    DigitsShape(s);
    DigitsShape(d);
    CanonicalGrouped(s);
    CanonicalGrouped(d);
  }
}
