/** UTF-16 text and its UTF-8 encoding (section 3 of RFC 3629), as the browser's
    `TextEncoder` and `TextDecoder` relate them. A lone surrogate is encoded as
    U+FFFD. */
module Utf8 {
  import opened JsMap

  type Unit = u: int | 0 <= u < 0x10000
  type Byte = b: int | 0 <= b < 0x100
  type Scalar = c: int | 0 <= c < 0xD800 || 0xE000 <= c < 0x110000
  type Text = seq<Unit>

  const REPLACEMENT: Scalar := 0xFFFD
  const BOM: Scalar := 0xFEFF

  // ---------------------------------------------------------------- UTF-16

  predicate High(u: Unit) { 0xD800 <= u < 0xDC00 }

  predicate Low(u: Unit) { 0xDC00 <= u < 0xE000 }

  predicate Paired(s: Text) { |s| >= 2 && High(s[0]) && Low(s[1]) }

  /** The scalar at the front of `s`, and how many code units it takes. */
  function First(s: Text): Scalar
    requires s != []
  {
    if Paired(s) then 0x10000 + (s[0] - 0xD800) * 0x400 + (s[1] - 0xDC00)
    else if High(s[0]) || Low(s[0]) then REPLACEMENT
    else s[0]
  }

  function Taken(s: Text): nat { if Paired(s) then 2 else 1 }

  function Scalars(s: Text): seq<Scalar> {
    if s == [] then [] else [First(s)] + Scalars(s[Taken(s)..])
  }

  function UnitsOf(c: Scalar): (u: Text)
    ensures 1 <= |u| <= Width(c)
  {
    if c < 0x10000 then [c]
    else [0xD800 + (c - 0x10000) / 0x400, 0xDC00 + (c - 0x10000) % 0x400]
  }

  function Units(cs: seq<Scalar>): Text {
    if cs == [] then [] else UnitsOf(cs[0]) + Units(cs[1..])
  }

  /** Text without lone surrogates. */
  ghost predicate WellFormed(s: Text) { s == Units(Scalars(s)) }

  lemma FrontScalar(c: Scalar, rest: Text)
    ensures Scalars(UnitsOf(c) + rest) == [c] + Scalars(rest)
  {
    var s := UnitsOf(c) + rest;
    if c < 0x10000 {
      assert s[0] == c && s[1..] == rest;
    } else {
      assert s[0] == UnitsOf(c)[0] && s[1] == UnitsOf(c)[1] && s[2..] == rest;
    }
  }

  lemma {:induction false} ScalarsOfUnits(cs: seq<Scalar>, rest: Text)
    ensures Scalars(Units(cs) + rest) == cs + Scalars(rest)
  {
    if cs == [] {
      assert Units(cs) + rest == rest;
    } else {
      var tail := Units(cs[1..]) + rest;
      assert Units(cs) + rest == UnitsOf(cs[0]) + tail;
      FrontScalar(cs[0], tail);
      ScalarsOfUnits(cs[1..], rest);
      ConsAppend(cs, Scalars(rest));
    }
  }

  lemma ConsAppend<T>(a: seq<T>, b: seq<T>)
    requires a != []
    ensures [a[0]] + (a[1..] + b) == a + b
    ensures (a + b)[1..] == a[1..] + b
  {
  }

  lemma ScalarsRoundTrip(cs: seq<Scalar>)
    ensures Scalars(Units(cs)) == cs
    ensures WellFormed(Units(cs))
  {
    ScalarsOfUnits(cs, []);
    assert Units(cs) + [] == Units(cs);
    assert cs + Scalars([]) == cs;
  }

  /** Text that ends in no half pair can be extended without re-reading it. */
  lemma ScalarsConcat(s: Text, t: Text)
    requires WellFormed(s)
    ensures Scalars(s + t) == Scalars(s) + Scalars(t)
  {
    ScalarsOfUnits(Scalars(s), t);
  }

  lemma {:induction false} UnitsConcat(a: seq<Scalar>, b: seq<Scalar>)
    ensures Units(a + b) == Units(a) + Units(b)
  {
    if a == [] {
      assert a + b == b;
    } else {
      assert (a + b)[1..] == a[1..] + b;
      UnitsConcat(a[1..], b);
    }
  }

  // ----------------------------------------------------------------- UTF-8

  predicate Continuation(b: Byte) { 0x80 <= b < 0xC0 }

  function Width(c: Scalar): (n: nat)
    ensures 1 <= n <= 4
  {
    if c < 0x80 then 1 else if c < 0x800 then 2 else if c < 0x10000 then 3 else 4
  }

  function Trail(value: nat): (b: Byte)
    ensures Continuation(b)
  {
    0x80 + value % 0x40
  }

  function BytesOf(c: Scalar): (b: seq<Byte>)
    ensures |b| == Width(c)
  {
    var q1 := c / 0x40;
    var q2 := q1 / 0x40;
    if c < 0x80 then [c]
    else if c < 0x800 then [0xC0 + q1, Trail(c)]
    else if c < 0x10000 then [0xE0 + q2, Trail(q1), Trail(c)]
    else [0xF0 + q2 / 0x40, Trail(q2), Trail(q1), Trail(c)]
  }

  function Encode(cs: seq<Scalar>): seq<Byte> {
    if cs == [] then [] else BytesOf(cs[0]) + Encode(cs[1..])
  }

  function Size(cs: seq<Scalar>): nat {
    if cs == [] then 0 else Width(cs[0]) + Size(cs[1..])
  }

  lemma {:induction false} SizeEncode(cs: seq<Scalar>)
    ensures |Encode(cs)| == Size(cs)
  {
    if cs != [] { SizeEncode(cs[1..]); }
  }

  lemma BytesShape(c: Scalar)
    ensures var b := BytesOf(c);
      !Continuation(b[0]) && forall i :: 1 <= i < |b| ==> Continuation(b[i])
  {
  }

  /** Number of bytes announced by a first byte; 0 if it cannot be first. */
  function Announced(b: Byte): nat {
    if b < 0x80 then 1
    else if 0xC0 <= b < 0xE0 then 2
    else if 0xE0 <= b < 0xF0 then 3
    else if 0xF0 <= b < 0xF8 then 4
    else 0
  }

  function Push(high: int, trail: int): int { high * 0x40 + (trail - 0x80) }

  function Value(b: seq<Byte>): int
    requires 1 <= |b| <= 4
  {
    var lead: int := b[0];
    if |b| == 1 then lead
    else if |b| == 2 then Push(lead - 0xC0, b[1])
    else if |b| == 3 then Push(Push(lead - 0xE0, b[1]), b[2])
    else Push(Push(Push(lead - 0xF0, b[1]), b[2]), b[3])
  }

  predicate IsScalar(c: int) { 0 <= c < 0xD800 || 0xE000 <= c < 0x110000 }

  /** The shortest-form scalar at the front of `bs`, if there is one. */
  function DecodeOne(bs: seq<Byte>): (r: Option<Scalar>)
    ensures r.Some? ==> Width(r.value) <= |bs|
  {
    if bs == [] then None
    else
      var n := Announced(bs[0]);
      if n == 0 || |bs| < n || exists i :: 1 <= i < n && !Continuation(bs[i]) then None
      else
        var c := Value(bs[..n]);
        if IsScalar(c) && Width(c) == n then Some(c) else None
  }

  /** `None` for bytes that are not well-formed UTF-8. */
  function Decode(bs: seq<Byte>): Option<seq<Scalar>> {
    if bs == [] then Some([])
    else match DecodeOne(bs)
      case None => None
      case Some(c) =>
        match Decode(bs[Width(c)..])
        case None => None
        case Some(rest) => Some([c] + rest)
  }

  lemma PushTrail(value: nat)
    ensures Push(value / 0x40, Trail(value)) == value
  {
  }

  lemma BytesValue(c: Scalar)
    ensures Announced(BytesOf(c)[0]) == Width(c)
    ensures Value(BytesOf(c)) == c
  {
    PushTrail(c);
    PushTrail(c / 0x40);
    PushTrail(c / 0x40 / 0x40);
  }

  lemma DecodeOneOfBytes(c: Scalar, rest: seq<Byte>)
    ensures DecodeOne(BytesOf(c) + rest) == Some(c)
  {
    var b := BytesOf(c);
    var bs := b + rest;
    assert bs[..Width(c)] == b;
    assert forall i :: 0 <= i < Width(c) ==> bs[i] == b[i];
    BytesShape(c);
    BytesValue(c);
  }

  lemma {:induction false} DecodeEncode(cs: seq<Scalar>)
    ensures Decode(Encode(cs)) == Some(cs)
  {
    if cs != [] {
      DecodeOneOfBytes(cs[0], Encode(cs[1..]));
      assert Encode(cs)[Width(cs[0])..] == Encode(cs[1..]);
      DecodeEncode(cs[1..]);
      assert [cs[0]] + cs[1..] == cs;
    }
  }

  lemma {:induction false} EncodeConcat(a: seq<Scalar>, b: seq<Scalar>)
    ensures Encode(a + b) == Encode(a) + Encode(b)
  {
    if a == [] {
      assert a + b == b;
    } else {
      assert (a + b)[1..] == a[1..] + b;
      EncodeConcat(a[1..], b);
    }
  }

  lemma {:induction false} SizeConcat(a: seq<Scalar>, b: seq<Scalar>)
    ensures Size(a + b) == Size(a) + Size(b)
  {
    if a == [] {
      assert a + b == b;
    } else {
      assert (a + b)[1..] == a[1..] + b;
      SizeConcat(a[1..], b);
    }
  }

  // --------------------------------------------------- truncation reference

  /** The longest prefix of `cs` whose encoding has at most `budget` bytes. */
  function Fit(cs: seq<Scalar>, budget: nat): seq<Scalar> {
    if cs == [] || Width(cs[0]) > budget then []
    else [cs[0]] + Fit(cs[1..], budget - Width(cs[0]))
  }

  lemma {:induction false} FitIsLongest(cs: seq<Scalar>, budget: nat)
    ensures var f := Fit(cs, budget);
      && |f| <= |cs| && f == cs[..|f|]
      && Size(f) <= budget
      && (|f| < |cs| ==> Size(f) + Width(cs[|f|]) > budget)
  {
    if cs != [] && Width(cs[0]) <= budget {
      FitIsLongest(cs[1..], budget - Width(cs[0]));
      var f := Fit(cs, budget);
      assert f[1..] == Fit(cs[1..], budget - Width(cs[0]));
    }
  }

  lemma {:induction false} FitWhole(cs: seq<Scalar>, budget: nat)
    ensures Fit(cs, budget) == cs <==> Size(cs) <= budget
  {
    FitIsLongest(cs, budget);
    var f := Fit(cs, budget);
    if |f| < |cs| {
      assert cs == f + cs[|f|..];
      SizeConcat(f, cs[|f|..]);
    }
  }

  lemma {:induction false} FitConcat(a: seq<Scalar>, b: seq<Scalar>, budget: nat)
    requires Size(a) <= budget
    ensures Fit(a + b, budget) == a + Fit(b, budget - Size(a))
  {
    if a == [] {
      assert a + b == b;
    } else {
      ConsAppend(a, b);
      FitConcat(a[1..], b, budget - Width(a[0]));
      ConsAppend(a, Fit(b, budget - Size(a)));
    }
  }

  /** Every code unit costs at least one byte, so cutting the text to `budget`
      code units first, even through a surrogate pair, changes nothing. */
  lemma {:induction false} FitSliced(t: Text, cut: nat, budget: nat)
    requires budget <= cut <= |t|
    ensures Fit(Scalars(t[..cut]), budget) == Fit(Scalars(t), budget)
    decreases |t|
  {
    if cut == 0 {
    } else if Paired(t) && cut == 1 {
      HalfPairDoesNotFit(t, budget);
    } else {
      var n := Taken(t);
      SlicedFront(t, cut);
      if Width(First(t)) <= budget {
        FitSliced(t[n..], cut - n, budget - Width(First(t)));
      }
      FitStep(First(t), Scalars(t[n..][..cut - n]), Scalars(t[n..]), budget);
    }
  }

  lemma HalfPairDoesNotFit(t: Text, budget: nat)
    requires Paired(t) && budget <= 1
    ensures Fit(Scalars(t[..1]), budget) == Fit(Scalars(t), budget) == []
  {
    assert t[..1] == [t[0]] && First([t[0]]) == REPLACEMENT;
  }

  lemma SlicedFront(t: Text, cut: nat)
    requires Taken(t) <= cut <= |t|
    ensures Scalars(t[..cut]) == [First(t)] + Scalars(t[Taken(t)..][..cut - Taken(t)])
  {
    assert t[..cut][Taken(t)..] == t[Taken(t)..][..cut - Taken(t)];
  }

  lemma FitStep(c: Scalar, a: seq<Scalar>, b: seq<Scalar>, budget: nat)
    requires Width(c) <= budget ==> Fit(a, budget - Width(c)) == Fit(b, budget - Width(c))
    ensures Fit([c] + a, budget) == Fit([c] + b, budget)
  {
    assert ([c] + a)[1..] == a && ([c] + b)[1..] == b;
  }

  lemma {:induction false} SizeAtLeastUnits(t: Text)
    ensures Size(Scalars(t)) >= |t|
  {
    if t != [] {
      SizeAtLeastUnits(t[Taken(t)..]);
      assert Scalars(t)[1..] == Scalars(t[Taken(t)..]);
    }
  }

  // ------------------------------------------------------- byte boundaries

  /** Where the fitting prefix ends inside the whole encoding: a lead byte stands
      there, and only continuation bytes follow up to the budget. */
  lemma {:induction false} FitBoundary(cs: seq<Scalar>, budget: nat)
    ensures var e := Encode(cs); var p := Size(Fit(cs, budget));
      && p <= |e| && e[..p] == Encode(Fit(cs, budget))
      && (p < |e| ==> !Continuation(e[p]))
      && (forall j :: p < j <= budget && j < |e| ==> Continuation(e[j]))
      && (p < |e| ==> Fit(cs, budget) != cs)
  {
    FitIsLongest(cs, budget);
    var f := Fit(cs, budget);
    var rest := cs[|f|..];
    assert cs == f + rest;
    EncodeConcat(f, rest);
    SizeEncode(f);
    SizeEncode(cs);
    var e, p := Encode(cs), Size(f);
    if rest != [] {
      BytesShape(rest[0]);
      assert forall i :: 0 <= i < Width(rest[0]) ==> e[p + i] == BytesOf(rest[0])[i];
      forall j | p < j <= budget && j < |e| ensures Continuation(e[j]) {
        assert e[p + (j - p)] == BytesOf(rest[0])[j - p];
      }
    }
  }

  /** The three bytes EF BB BF lead an encoding exactly when U+FEFF does. */
  lemma LeadingBom(cs: seq<Scalar>)
    ensures (|Encode(cs)| >= 3 && Encode(cs)[..3] == [0xEF, 0xBB, 0xBF]) <==> (cs != [] && cs[0] == BOM)
    ensures cs != [] && cs[0] == BOM ==> Encode(cs)[3..] == Encode(cs[1..])
  {
    if cs != [] {
      var e := Encode(cs);
      DecodeOneOfBytes(cs[0], Encode(cs[1..]));
      if |e| >= 3 && e[..3] == [0xEF, 0xBB, 0xBF] {
        assert e[0] == e[..3][0] && e[1] == e[..3][1] && e[2] == e[..3][2];
      }
      if cs[0] == BOM {
        assert BytesOf(BOM) == [0xEF, 0xBB, 0xBF];
        assert e[..3] == BytesOf(BOM);
      }
    }
  }
}
