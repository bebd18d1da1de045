/** ParseDuration: the parser of duration strings, over bytes and with its uint64 arithmetic.

    The methods follow the source's loops and are proved against the functions; the functions are then
    related to the exact, unbounded meaning of a duration.  The value of a fraction is float64
    arithmetic and enters as an arbitrary function of the digits read, their number and the unit. */
module Duration {
  import opened Options

  type Byte = b: int | 0 <= b < 256
  type Bytes = seq<Byte>

  const TWO63: int := 0x8000_0000_0000_0000
  const TWO64: int := 0x1_0000_0000_0000_0000

  datatype Parsed = Ok(ns: int) | Invalid | MissingUnit | UnknownUnit

  /** Digits read after the point, how many of them, and the unit, to nanoseconds. */
  type Fractions = (nat, nat, nat) -> nat

  predicate IsDigit(b: Byte) { 48 <= b <= 57 }

  function DigitVal(b: Byte): nat
    requires IsDigit(b)
  {
    var n: int := b;
    n - 48
  }

  const DOT: Byte := 46
  const PLUS: Byte := 43
  const MINUS: Byte := 45

  /** unitMap.  The micro sign and the Greek mu are two bytes each in UTF-8. */
  datatype Unit = Ns | Us | MicroS | MuS | Ms | S | M | H | D | W

  function Name(u: Unit): Bytes {
    match u
    case Ns => [110, 115]
    case Us => [117, 115]
    case MicroS => [194, 181, 115]
    case MuS => [206, 188, 115]
    case Ms => [109, 115]
    case S => [115]
    case M => [109]
    case H => [104]
    case D => [100]
    case W => [119]
  }

  function Scale(u: Unit): (ns: nat)
    ensures ns > 0
  {
    match u
    case Ns => 1
    case Us => 1000
    case MicroS => 1000
    case MuS => 1000
    case Ms => 1000000
    case S => 1000000000
    case M => 60000000000
    case H => 3600000000000
    case D => 86400000000000
    case W => 604800000000000
  }

  const UNITS: seq<Unit> := [Ns, Us, MicroS, MuS, Ms, S, M, H, D, W]

  function LookupIn(us: seq<Unit>, b: Bytes): (r: Option<Unit>)
    ensures r.Some? ==> Name(r.value) == b
    ensures r.None? ==> forall u :: u in us ==> Name(u) != b
  {
    if us == [] then None else if Name(us[0]) == b then Some(us[0]) else LookupIn(us[1..], b)
  }

  function Lookup(b: Bytes): Option<Unit> { LookupIn(UNITS, b) }

  /** uint64 addition. */
  function Wrap(x: nat): (r: nat)
    ensures r < TWO64 && (x < TWO64 ==> r == x) && (TWO64 <= x < 2 * TWO64 ==> r == x - TWO64)
  {
    x % 0x1_0000_0000_0000_0000
  }

  // ---------------------------------------------------------------------------------------------
  // Specification
  // ---------------------------------------------------------------------------------------------

  /** Length of the longest prefix of digits. */
  function DigitRun(s: Bytes): (n: nat)
    ensures n <= |s|
    ensures forall i :: 0 <= i < n ==> IsDigit(s[i])
    ensures n < |s| ==> !IsDigit(s[n])
  {
    if s == [] || !IsDigit(s[0]) then 0 else 1 + DigitRun(s[1..])
  }

  /** Length of the longest prefix without digits and points. */
  function UnitRun(s: Bytes): (n: nat)
    ensures n <= |s|
    ensures forall i :: 0 <= i < n ==> !IsDigit(s[i]) && s[i] != DOT
    ensures n < |s| ==> IsDigit(s[n]) || s[n] == DOT
  {
    if s == [] || IsDigit(s[0]) || s[0] == DOT then 0 else 1 + UnitRun(s[1..])
  }

  function Decimal(ds: Bytes): nat
    requires forall i :: 0 <= i < |ds| ==> IsDigit(ds[i])
  {
    if ds == [] then 0 else Decimal(ds[..|ds| - 1]) * 10 + DigitVal(ds[|ds| - 1])
  }

  /** leadingFraction over digits: it stops accumulating before the value leaves 63 bits. */
  function Fraction(ds: Bytes, x: nat, k: nat, overflow: bool): (nat, nat)
    requires forall i :: 0 <= i < |ds| ==> IsDigit(ds[i])
    decreases |ds|
  {
    if ds == [] then (x, k)
    else if overflow || x > (TWO63 - 1) / 10 || x * 10 + DigitVal(ds[0]) > TWO63 then Fraction(ds[1..], x, k, true)
    else Fraction(ds[1..], x * 10 + DigitVal(ds[0]), k + 1, false)
  }

  /** v * unit and 2^63 / unit, unit by unit. */
  function Times(v: nat, u: Unit): (r: nat)
    ensures r >= v
  {
    match u
    case Ns => v
    case Us => v * 1000
    case MicroS => v * 1000
    case MuS => v * 1000
    case Ms => v * 1000000
    case S => v * 1000000000
    case M => v * 60000000000
    case H => v * 3600000000000
    case D => v * 86400000000000
    case W => v * 604800000000000
  }

  function Limit(u: Unit): nat {
    match u
    case Ns => TWO63
    case Us => TWO63 / 1000
    case MicroS => TWO63 / 1000
    case MuS => TWO63 / 1000
    case Ms => TWO63 / 1000000
    case S => TWO63 / 1000000000
    case M => TWO63 / 60000000000
    case H => TWO63 / 3600000000000
    case D => TWO63 / 86400000000000
    case W => TWO63 / 604800000000000
  }

  /** What one round of the loop reads: a value and the text after it, or an error. */
  datatype Next = Next(v: nat, tail: Bytes) | Bad(e: Parsed)

  /** One round after the number: `v` and the fraction (f, k) are read, `s` starts at the unit. */
  function AfterNumber(s: Bytes, v: nat, f: nat, k: nat, fr: Fractions): (r: Next)
    ensures if r.Next? then |r.tail| < |s| else !r.e.Ok?
  {
    var u := UnitRun(s);
    if u == 0 then Bad(MissingUnit)
    else
      var unit := Lookup(s[..u]);
      if unit.None? then Bad(UnknownUnit)
      else if v > Limit(unit.value) then Bad(Invalid)
      else if f == 0 then Next(Times(v, unit.value), s[u..])
      else
        var v1 := Wrap(Times(v, unit.value) + fr(f, k, Scale(unit.value)));
        if v1 > TWO63 then Bad(Invalid) else Next(v1, s[u..])
  }

  function FirstSegment(s: Bytes, fr: Fractions): (r: Next)
    ensures if r.Next? then |r.tail| < |s| else !r.e.Ok?
  {
    if s == [] || (s[0] != DOT && !IsDigit(s[0])) then Bad(Invalid)
    else
      var n := DigitRun(s);
      var v := Decimal(s[..n]);
      var rest := s[n..];
      if v > TWO63 then Bad(Invalid)
      else if rest != [] && rest[0] == DOT then
        var m := DigitRun(rest[1..]);
        var (f, k) := Fraction(rest[1..][..m], 0, 0, false);
        if n == 0 && m == 0 then Bad(Invalid) else AfterNumber(rest[1..][m..], v, f, k, fr)
      else AfterNumber(rest, v, 0, 0, fr)
  }

  datatype Total = Done(d: nat) | Error(e: Parsed)

  type Reader = Bytes -> Next

  /** The loop of ParseDuration from the accumulated sum d, over what each round reads. */
  function Segments(s: Bytes, d: nat, read: Reader): Total
    decreases |s|
  {
    if s == [] then Done(d)
    else
      var next := read(s);
      if next.Bad? then Error(next.e)
      else if Wrap(d + next.v) > TWO63 || |next.tail| >= |s| then Error(Invalid)
      else Segments(next.tail, Wrap(d + next.v), read)
  }

  ghost predicate Reads(read: Reader, fr: Fractions) {
    forall s {:trigger FirstSegment(s, fr)} :: read(s) == FirstSegment(s, fr)
  }

  function ToInt64(d: int): int { if d >= TWO63 then d - TWO64 else d }

  function Neg64(x: int): int { if x == -TWO63 then x else -x }

  function Finish(neg: bool, t: Total): Parsed {
    match t
    case Error(e) => e
    case Done(d) => if neg then Ok(Neg64(ToInt64(d))) else if d > TWO63 - 1 then Invalid else Ok(ToInt64(d))
  }

  predicate Signed(s: Bytes) { s != [] && (s[0] == MINUS || s[0] == PLUS) }

  function ParseWith(s: Bytes, read: Reader): Parsed {
    var neg := s != [] && s[0] == MINUS;
    var body := if Signed(s) then s[1..] else s;
    if body == [48] then Ok(0)
    else if body == [] then Invalid
    else Finish(neg, Segments(body, 0, read))
  }

  function Parse(s: Bytes, fr: Fractions): Parsed { ParseWith(s, t => FirstSegment(t, fr)) }

  // ---------------------------------------------------------------------------------------------
  // The loops
  // ---------------------------------------------------------------------------------------------

  lemma {:induction false} DecimalPrefix(ds: Bytes, i: nat)
    requires (forall j :: 0 <= j < |ds| ==> IsDigit(ds[j])) && i <= |ds|
    ensures Decimal(ds[..i]) <= Decimal(ds)
    decreases |ds|
  {
    if i == |ds| {
      assert ds[..i] == ds;
    } else {
      DecimalPrefix(ds[..|ds| - 1], i);
      assert ds[..|ds| - 1][..i] == ds[..i];
    }
  }

  lemma {:induction false} DigitRunUnique(s: Bytes, n: nat)
    requires n <= |s| && (forall i :: 0 <= i < n ==> IsDigit(s[i])) && (n < |s| ==> !IsDigit(s[n]))
    ensures DigitRun(s) == n
    decreases n
  {
    if n > 0 { DigitRunUnique(s[1..], n - 1); }
  }

  lemma {:induction false} UnitRunUnique(s: Bytes, n: nat)
    requires n <= |s| && (forall i :: 0 <= i < n ==> !IsDigit(s[i]) && s[i] != DOT)
    requires n < |s| ==> IsDigit(s[n]) || s[n] == DOT
    ensures UnitRun(s) == n
    decreases n
  {
    if n > 0 { UnitRunUnique(s[1..], n - 1); }
  }

  /** leadingInt: the decimal value of the digits, or an error when it exceeds 2^63. */
  method LeadingInt(s: Bytes) returns (x: nat, rem: Bytes, ok: bool)
    ensures ok <==> Decimal(s[..DigitRun(s)]) <= TWO63
    ensures ok ==> x == Decimal(s[..DigitRun(s)]) && rem == s[DigitRun(s)..]
  {
    var n := DigitRun(s);
    var i := 0;
    x := 0;
    while i < |s| && IsDigit(s[i])
      invariant 0 <= i <= n
      invariant x == Decimal(s[..i]) && x <= TWO63
    {
      assert i < n;
      assert s[..i + 1][..i] == s[..i];
      assert s[..n][..i + 1] == s[..i + 1];
      DecimalPrefix(s[..n], i + 1);
      if x > TWO63 / 10 {
        return 0, [], false;
      }
      x := x * 10 + DigitVal(s[i]);
      if x > TWO63 {
        return 0, [], false;
      }
      i := i + 1;
    }
    return x, s[i..], true;
  }

  lemma FractionStep(ds: Bytes, x: nat, k: nat, overflow: bool)
    requires ds != [] && forall j :: 0 <= j < |ds| ==> IsDigit(ds[j])
    ensures Fraction(ds, x, k, overflow)
            == if overflow || x * 10 + DigitVal(ds[0]) > TWO63 then Fraction(ds[1..], x, k, true)
               else Fraction(ds[1..], x * 10 + DigitVal(ds[0]), k + 1, false)
  {
  }

  lemma DecimalMore(ds: Bytes, k: nat)
    requires k < |ds| && forall j :: 0 <= j < |ds| ==> IsDigit(ds[j])
    ensures Decimal(ds[..k + 1]) == Decimal(ds[..k]) * 10 + DigitVal(ds[k])
  {
    assert ds[..k + 1][..k] == ds[..k];
  }

  predicate Digits(ds: Bytes) { forall j :: 0 <= j < |ds| ==> IsDigit(ds[j]) }

  /** x is the value of the first k digits, and with one more it would exceed 2^63. */
  predicate Longest(ds: Bytes, x: nat, k: nat)
    requires Digits(ds)
  {
    k <= |ds| && x == Decimal(ds[..k]) && x <= TWO63 && (k < |ds| ==> Decimal(ds[..k + 1]) > TWO63)
  }

  lemma {:induction false} FractionStopped(ds: Bytes, x: nat, k: nat)
    requires Digits(ds)
    ensures Fraction(ds, x, k, true) == (x, k)
    decreases |ds|
  {
    if ds != [] { FractionStopped(ds[1..], x, k); }
  }

  lemma {:induction false} FractionFrom(ds: Bytes, x: nat, k: nat)
    requires Digits(ds) && k <= |ds| && x == Decimal(ds[..k]) && x <= TWO63
    ensures var (y, n) := Fraction(ds[k..], x, k, false); Longest(ds, y, n)
    decreases |ds| - k
  {
    if k < |ds| {
      assert ds[k..][1..] == ds[k + 1..] && ds[k..][0] == ds[k];
      DecimalMore(ds, k);
      FractionStep(ds[k..], x, k, false);
      if Decimal(ds[..k + 1]) <= TWO63 {
        FractionFrom(ds, Decimal(ds[..k + 1]), k + 1);
      } else {
        FractionStopped(ds[k + 1..], x, k);
      }
    }
  }

  /** leadingFraction reads the longest run of digits whose value does not exceed 2^63. */
  lemma FractionExact(ds: Bytes)
    requires forall j :: 0 <= j < |ds| ==> IsDigit(ds[j])
    ensures var (x, k) := Fraction(ds, 0, 0, false);
            && k <= |ds| && x == Decimal(ds[..k]) && x <= TWO63
            && forall j :: k < j <= |ds| ==> Decimal(ds[..j]) > TWO63
  {
    assert ds[..0] == [] && ds[0..] == ds;
    FractionFrom(ds, 0, 0);
    var k := Fraction(ds, 0, 0, false).1;
    forall j | k < j <= |ds| ensures Decimal(ds[..j]) > TWO63 {
      DecimalPrefix(ds[..j], k + 1);
      assert ds[..j][..k + 1] == ds[..k + 1];
    }
  }

  /** leadingFraction: the value of the longest run of the leading digits that does not exceed 2^63, and
      its length; the scale is ten to that power. */
  method LeadingFraction(s: Bytes) returns (x: nat, k: nat, rem: Bytes)
    ensures (x, k) == Fraction(s[..DigitRun(s)], 0, 0, false)
    ensures rem == s[DigitRun(s)..]
    ensures k <= DigitRun(s) && x == Decimal(s[..DigitRun(s)][..k]) && x <= TWO63
    ensures forall j :: k < j <= DigitRun(s) ==> Decimal(s[..DigitRun(s)][..j]) > TWO63
  {
    var n := DigitRun(s);
    FractionExact(s[..n]);
    var i, overflow := 0, false;
    x, k := 0, 0;
    while i < |s| && IsDigit(s[i])
      invariant 0 <= i <= n
      invariant Fraction(s[i..n], x, k, overflow) == Fraction(s[..n], 0, 0, false)
    {
      assert i < n && s[i..n][1..] == s[i + 1..n];
      if overflow {
      } else if x > (TWO63 - 1) / 10 {
        overflow := true;
      } else {
        var y := x * 10 + DigitVal(s[i]);
        if y > TWO63 {
          overflow := true;
        } else {
          x := y;
          k := k + 1;
        }
      }
      i := i + 1;
    }
    rem := s[i..];
  }

  /** The number of one segment: its integer part, its fraction, and what follows. */
  method ReadNumber(s: Bytes, ghost fr: Fractions) returns (ok: bool, v: nat, f: nat, k: nat, rest: Bytes)
    requires s != []
    ensures FirstSegment(s, fr) == if ok then AfterNumber(rest, v, f, k, fr) else Bad(Invalid)
  {
    ok, v, f, k, rest := false, 0, 0, 0, s;
    if !(s[0] == DOT || IsDigit(s[0])) {
      return;
    }
    v, rest, ok := LeadingInt(s);
    if !ok {
      return;
    }
    var pre := |s| != |rest|;
    var post := false;
    if rest != [] && rest[0] == DOT {
      rest := rest[1..];
      var pl := |rest|;
      f, k, rest := LeadingFraction(rest);
      post := pl != |rest|;
    }
    ok := pre || post;
  }

  method ReadUnit(s: Bytes) returns (i: nat)
    ensures i == UnitRun(s)
  {
    i := 0;
    while i < |s| && !(s[i] == DOT || IsDigit(s[i]))
      invariant 0 <= i <= |s| && forall j :: 0 <= j < i ==> !IsDigit(s[j]) && s[j] != DOT
    {
      i := i + 1;
    }
    UnitRunUnique(s, i);
  }

  /** The unit of one segment and its value in nanoseconds. */
  method ReadValue(rest: Bytes, n: nat, f: nat, k: nat, fr: Fractions) returns (err: Option<Parsed>, v: nat, s: Bytes)
    ensures AfterNumber(rest, n, f, k, fr) == if err.Some? then Bad(err.value) else Next(v, s)
  {
    v, s := 0, [];
    var i := ReadUnit(rest);
    if i == 0 {
      return Some(MissingUnit), v, s;
    }
    var unit := Lookup(rest[..i]);
    s := rest[i..];
    if unit.None? {
      return Some(UnknownUnit), v, s;
    }
    if n > Limit(unit.value) {
      return Some(Invalid), v, s;
    }
    v := Times(n, unit.value);
    if f > 0 {
      v := Wrap(v + fr(f, k, Scale(unit.value)));
      if v > TWO63 {
        return Some(Invalid), v, s;
      }
    }
    return None, v, s;
  }

  /** One round of the loop. */
  method ReadSegment(s: Bytes, fr: Fractions, ghost read: Reader) returns (err: Option<Parsed>, v: nat, tail: Bytes)
    requires s != [] && Reads(read, fr)
    ensures read(s) == if err.Some? then Bad(err.value) else Next(v, tail)
    ensures err.None? ==> |tail| < |s|
  {
    assert read(s) == FirstSegment(s, fr);
    var ok, n, f, k, rest := ReadNumber(s, fr);
    if !ok {
      return Some(Invalid), 0, s;
    }
    err, v, tail := ReadValue(rest, n, f, k, fr);
  }

  method SumSegments(text: Bytes, fr: Fractions, ghost read: Reader) returns (t: Total)
    requires Reads(read, fr)
    ensures t == Segments(text, 0, read)
  {
    var s := text;
    var d: nat := 0;
    while s != []
      invariant Segments(s, d, read) == Segments(text, 0, read)
      decreases |s|
    {
      var err, v, tail := ReadSegment(s, fr, read);
      if err.Some? {
        return Error(err.value);
      }
      s, d := tail, Wrap(d + v);
      if d > TWO63 {
        return Error(Invalid);
      }
    }
    return Done(d);
  }

  /** The whole parser, on every string. */
  method ParseDuration(orig: Bytes, fr: Fractions) returns (r: Parsed)
    ensures r == Parse(orig, fr)
  {
    var s, neg := orig, false;
    if s != [] {
      var c := s[0];
      if c == MINUS || c == PLUS {
        neg := c == MINUS;
        s := s[1..];
      }
    }
    if s == [48] {
      return Ok(0);
    }
    if s == [] {
      return Invalid;
    }
    var t := SumSegments(s, fr, t => FirstSegment(t, fr));
    if t.Error? {
      return t.e;
    }
    if neg {
      return Ok(Neg64(ToInt64(t.d)));
    }
    if t.d > TWO63 - 1 {
      return Invalid;
    }
    return Ok(ToInt64(t.d));
  }

  // ---------------------------------------------------------------------------------------------
  // Exactness
  // ---------------------------------------------------------------------------------------------

  /** A segment: digits, perhaps a point and more digits, and a unit; there is a digit somewhere. */
  datatype Seg = Seg(digits: Bytes, point: Option<Bytes>, unit: Unit)

  predicate SegOk(g: Seg) {
    && Digits(g.digits) && (g.point.Some? ==> Digits(g.point.value))
    && (g.digits != [] || (g.point.Some? && g.point.value != []))
  }

  predicate SegsOk(gs: seq<Seg>) { forall i :: 0 <= i < |gs| ==> SegOk(gs[i]) }

  /** The text between the digits and the unit. */
  function Pointed(g: Seg): Bytes { if g.point.Some? then [DOT] + g.point.value else [] }

  function Text(g: Seg): Bytes { g.digits + (Pointed(g) + Name(g.unit)) }

  function Render(gs: seq<Seg>): Bytes {
    if gs == [] then [] else Text(gs[0]) + Render(gs[1..])
  }

  /** What the digits after the point add: nothing if they are all zero, else what the fractions say about
      the longest run of them that does not exceed 2^63. */
  function AfterPoint(g: Seg, fr: Fractions): nat
    requires SegOk(g)
  {
    if g.point.None? then 0
    else
      var (f, k) := Fraction(g.point.value, 0, 0, false);
      Part(f, k, g.unit, fr)
  }

  function Part(f: nat, k: nat, u: Unit, fr: Fractions): nat { if f == 0 then 0 else fr(f, k, Scale(u)) }

  /** Nanoseconds of a segment, without bound. */
  function Nanos(g: Seg, fr: Fractions): nat
    requires SegOk(g)
  {
    Times(Decimal(g.digits), g.unit) + AfterPoint(g, fr)
  }

  function Values(gs: seq<Seg>, fr: Fractions): (vs: seq<nat>)
    requires SegsOk(gs)
    ensures |vs| == |gs|
  {
    if gs == [] then []
    else
      assert SegOk(gs[0]);
      [Nanos(gs[0], fr)] + Values(gs[1..], fr)
  }

  function Pow10(k: nat): nat { if k == 0 then 1 else 10 * Pow10(k - 1) }

  /** A fraction of a unit is at most the unit. */
  ghost predicate Proper(fr: Fractions) {
    forall f: nat, k: nat, u: Unit {:trigger fr(f, k, Scale(u))} :: f < Pow10(k) ==> fr(f, k, Scale(u)) <= Scale(u)
  }

  function Exact(vs: seq<nat>): nat {
    if vs == [] then 0 else vs[0] + Exact(vs[1..])
  }

  /** The sum the loop computes: each value at most 2^63, added modulo 2^64. */
  function Summed(vs: seq<nat>, d: nat): Total
    decreases |vs|
  {
    if vs == [] then Done(d)
    else if vs[0] > TWO63 || Wrap(d + vs[0]) > TWO63 then Error(Invalid)
    else Summed(vs[1..], Wrap(d + vs[0]))
  }

  lemma UnitBytes(u: Unit)
    ensures Name(u) != [] && forall i :: 0 <= i < |Name(u)| ==> !IsDigit(Name(u)[i]) && Name(u)[i] != DOT
  {
  }

  lemma NamesDistinct(u: Unit, w: Unit)
    requires Name(u) == Name(w)
    ensures u == w
  {
    var a, b := Name(u), Name(w);
    assert |a| == |b| && a[0] == b[0] && (|a| > 1 ==> a[1] == b[1]);
  }

  lemma LookupName(u: Unit)
    ensures Lookup(Name(u)) == Some(u)
  {
    assert u in UNITS by {
      assert UNITS[0] == Ns && UNITS[1] == Us && UNITS[2] == MicroS && UNITS[3] == MuS && UNITS[4] == Ms;
      assert UNITS[5] == S && UNITS[6] == M && UNITS[7] == H && UNITS[8] == D && UNITS[9] == W;
    }
    NamesDistinct(u, Lookup(Name(u)).value);
  }

  /** The tables of Times and Limit are those of Scale. */
  lemma UnitTables(v: nat, u: Unit)
    ensures Times(v, u) == v * Scale(u) && Limit(u) == TWO63 / Scale(u)
  {
    match u
    case Ns =>
    case Us =>
    case MicroS =>
    case MuS =>
    case Ms =>
    case S =>
    case M =>
    case H =>
    case D =>
    case W =>
  }

  /** v > 2^63 / unit is the exact test for v * unit > 2^63. */
  lemma DivTest(v: nat, u: Unit)
    ensures v > Limit(u) <==> Times(v, u) > TWO63
  {
    match u
    case Ns =>
    case Us =>
    case MicroS =>
    case MuS =>
    case Ms =>
    case S =>
    case M =>
    case H =>
    case D =>
    case W =>
  }

  lemma DigitsThen(digits: Bytes, rest: Bytes)
    requires forall i :: 0 <= i < |digits| ==> IsDigit(digits[i])
    requires rest != [] ==> !IsDigit(rest[0])
    ensures DigitRun(digits + rest) == |digits|
    ensures (digits + rest)[..|digits|] == digits && (digits + rest)[|digits|..] == rest
  {
    DigitRunUnique(digits + rest, |digits|);
  }

  predicate Starts(tail: Bytes) { tail != [] ==> IsDigit(tail[0]) || tail[0] == DOT }

  lemma NameThen(name: Bytes, tail: Bytes)
    requires forall i :: 0 <= i < |name| ==> !IsDigit(name[i]) && name[i] != DOT
    requires Starts(tail)
    ensures UnitRun(name + tail) == |name|
    ensures (name + tail)[..|name|] == name && (name + tail)[|name|..] == tail
  {
    UnitRunUnique(name + tail, |name|);
  }

  lemma {:induction false} DecimalBound(ds: Bytes)
    requires Digits(ds)
    ensures Decimal(ds) < Pow10(|ds|)
    decreases |ds|
  {
    if ds != [] { DecimalBound(ds[..|ds| - 1]); }
  }

  /** A fraction adds less than 2^63. */
  lemma PartBound(f: nat, k: nat, u: Unit, fr: Fractions)
    requires Proper(fr) && f < Pow10(k)
    ensures Part(f, k, u, fr) < TWO63
  {
    assert fr(f, k, Scale(u)) <= Scale(u);
  }

  lemma FractionBound(ds: Bytes)
    requires Digits(ds)
    ensures var (f, k) := Fraction(ds, 0, 0, false); f < Pow10(k)
  {
    FractionExact(ds);
    DecimalBound(ds[..Fraction(ds, 0, 0, false).1]);
  }

  lemma UnitSegment(v: nat, f: nat, k: nat, u: Unit, tail: Bytes, fr: Fractions)
    requires Starts(tail) && Part(f, k, u, fr) < TWO63
    ensures var n := Times(v, u) + Part(f, k, u, fr);
            AfterNumber(Name(u) + tail, v, f, k, fr) == if n > TWO63 then Bad(Invalid) else Next(n, tail)
  {
    UnitBytes(u);
    NameThen(Name(u), tail);
    LookupName(u);
    DivTest(v, u);
  }

  /** A segment without a point. */
  lemma PlainSegment(digits: Bytes, u: Unit, tail: Bytes, fr: Fractions)
    requires Digits(digits) && digits != [] && Starts(tail)
    ensures var v, s := Times(Decimal(digits), u), digits + (Name(u) + tail);
            FirstSegment(s, fr) == if v > TWO63 then Bad(Invalid) else Next(v, tail)
  {
    var rest := Name(u) + tail;
    UnitBytes(u);
    assert rest[0] == Name(u)[0];
    DigitsThen(digits, rest);
    UnitSegment(Decimal(digits), 0, 0, u, tail, fr);
  }

  /** How a text whose number has a point is read. */
  lemma PointFirst(s: Bytes, n: nat, frac: Bytes, unit: Bytes, fr: Fractions)
    requires n == DigitRun(s) && n < |s| && s[n] == DOT
    requires frac == s[n + 1..][..DigitRun(s[n + 1..])] && unit == s[n + 1..][DigitRun(s[n + 1..])..]
    ensures Digits(frac)
    ensures var (f, k) := Fraction(frac, 0, 0, false);
            FirstSegment(s, fr)
            == if Decimal(s[..n]) > TWO63 || (n == 0 && frac == []) then Bad(Invalid)
               else AfterNumber(unit, Decimal(s[..n]), f, k, fr)
  {
    assert s[n..][1..] == s[n + 1..] && s[n..][0] == DOT;
  }

  lemma PointText(digits: Bytes, after: Bytes, s: Bytes)
    requires Digits(digits) && s == digits + ([DOT] + after)
    ensures DigitRun(s) == |digits| < |s| && s[..|digits|] == digits && s[|digits|] == DOT
    ensures s[|digits| + 1..] == after
  {
    var rest := [DOT] + after;
    assert rest[0] == DOT && rest[1..] == after;
    DigitsThen(digits, rest);
    assert s[|digits|..] == rest;
  }

  /** A segment with a point. */
  lemma PointSegment(digits: Bytes, frac: Bytes, u: Unit, tail: Bytes, fr: Fractions, s: Bytes, f: nat, k: nat)
    requires Digits(digits) && Digits(frac) && (digits != [] || frac != []) && Starts(tail) && Proper(fr)
    requires (f, k) == Fraction(frac, 0, 0, false) && s == digits + ([DOT] + (frac + (Name(u) + tail)))
    ensures var v := Times(Decimal(digits), u) + Part(f, k, u, fr);
            FirstSegment(s, fr) == if v > TWO63 then Bad(Invalid) else Next(v, tail)
  {
    var unit := Name(u) + tail;
    UnitBytes(u);
    assert unit[0] == Name(u)[0];
    DigitsThen(frac, unit);
    PointText(digits, frac + unit, s);
    PointFirst(s, |digits|, frac, unit, fr);
    FractionBound(frac);
    PartBound(f, k, u, fr);
    UnitSegment(Decimal(digits), f, k, u, tail, fr);
  }

  lemma OneSegment(g: Seg, tail: Bytes, fr: Fractions)
    requires SegOk(g) && Starts(tail) && Proper(fr)
    ensures var v := Nanos(g, fr);
            FirstSegment(Text(g) + tail, fr) == if v > TWO63 then Bad(Invalid) else Next(v, tail)
  {
    TextThen(g, tail);
    if g.point.None? {
      PlainSegment(g.digits, g.unit, tail, fr);
    } else {
      var (f, k) := Fraction(g.point.value, 0, 0, false);
      PointSegment(g.digits, g.point.value, g.unit, tail, fr, Text(g) + tail, f, k);
    }
  }

  lemma TextThen(g: Seg, tail: Bytes)
    ensures Text(g) + tail == g.digits + if g.point.None? then Name(g.unit) + tail
                                         else [DOT] + (g.point.value + (Name(g.unit) + tail))
  {
    var name := Name(g.unit);
    if g.point.None? {
      assert Text(g) == g.digits + name;
    } else {
      var x := g.point.value;
      assert Text(g) + tail == g.digits + (([DOT] + x + name) + tail);
      assert ([DOT] + x + name) + tail == [DOT] + (x + (name + tail));
    }
  }

  lemma TextStart(g: Seg)
    requires SegOk(g)
    ensures |Text(g)| >= 2 && Starts(Text(g))
  {
    UnitBytes(g.unit);
  }

  lemma RenderStart(gs: seq<Seg>)
    requires SegsOk(gs) && gs != []
    ensures |Render(gs)| >= 2 && Starts(Render(gs))
  {
    assert SegOk(gs[0]);
    TextStart(gs[0]);
  }

  lemma SummedHead(v: nat, vs: seq<nat>, d: nat)
    ensures Summed([v] + vs, d) ==
            if v > TWO63 || Wrap(d + v) > TWO63 then Error(Invalid) else Summed(vs, Wrap(d + v))
  {
    assert ([v] + vs)[1..] == vs;
  }

  lemma ReadRendered(g: Seg, tail: Bytes, fr: Fractions, read: Reader)
    requires SegOk(g) && Starts(tail) && Proper(fr) && Reads(read, fr)
    ensures var v := Nanos(g, fr);
            read(Text(g) + tail) == if v > TWO63 then Bad(Invalid) else Next(v, tail)
  {
    var s := Text(g) + tail;
    assert read(s) == FirstSegment(s, fr);
    OneSegment(g, tail, fr);
  }

  lemma SegmentsHead(s: Bytes, d: nat, read: Reader, v: nat, tail: Bytes)
    requires |tail| < |s| && read(s) == if v > TWO63 then Bad(Invalid) else Next(v, tail)
    ensures Segments(s, d, read) ==
            if v > TWO63 || Wrap(d + v) > TWO63 then Error(Invalid) else Segments(tail, Wrap(d + v), read)
  {
  }

  /** On rendered segments the parser's loop is the modular sum. */
  lemma {:induction false} SegmentsOfRender(gs: seq<Seg>, d: nat, fr: Fractions, read: Reader)
    requires SegsOk(gs) && Proper(fr) && Reads(read, fr)
    ensures Segments(Render(gs), d, read) == Summed(Values(gs, fr), d)
    decreases |gs|
  {
    if gs != [] {
      assert SegOk(gs[0]);
      if gs[1..] != [] { RenderStart(gs[1..]); }
      var v := Nanos(gs[0], fr);
      var tail, vs := Render(gs[1..]), Values(gs[1..], fr);
      assert Values(gs, fr) == [v] + vs;
      TextStart(gs[0]);
      ReadRendered(gs[0], tail, fr, read);
      SegmentsHead(Text(gs[0]) + tail, d, read, v, tail);
      SummedHead(v, vs, d);
      SegmentsOfRender(gs[1..], Wrap(d + v), fr, read);
    }
  }

  /** The sum so far and the next value are both exactly 2^63: the only addition that wraps around. */
  predicate DoubleMax(vs: seq<nat>, d: nat)
    decreases |vs|
  {
    vs != [] && ((d == TWO63 && vs[0] == TWO63) || (d + vs[0] <= TWO63 && DoubleMax(vs[1..], d + vs[0])))
  }

  /** The values after that addition. */
  function AfterWrap(vs: seq<nat>, d: nat): (r: seq<nat>)
    requires DoubleMax(vs, d)
    ensures |r| < |vs|
    decreases |vs|
  {
    if d == TWO63 && vs[0] == TWO63 then vs[1..] else AfterWrap(vs[1..], d + vs[0])
  }

  lemma {:induction false} SummedExact(vs: seq<nat>, d: nat)
    requires d <= TWO63
    ensures !DoubleMax(vs, d) ==>
              Summed(vs, d) == if d + Exact(vs) <= TWO63 then Done(d + Exact(vs)) else Error(Invalid)
    ensures DoubleMax(vs, d) ==> Summed(vs, d) == Summed(AfterWrap(vs, d), 0) && d + Exact(vs) >= TWO64
    decreases |vs|
  {
    if vs != [] && d + vs[0] <= TWO63 {
      SummedExact(vs[1..], d + vs[0]);
    }
  }

  /** The meaning of a signed list of values: the exact sum when that fits into 64 bits. */
  function Meaning(neg: bool, vs: seq<nat>): Parsed {
    var sum: int := Exact(vs);
    if neg then (if sum <= TWO63 then Ok(-sum) else Invalid)
    else if sum <= TWO63 - 1 then Ok(sum) else Invalid
  }

  function Sign(sign: Option<Byte>): Bytes { if sign.None? then [] else [sign.value] }

  predicate SignOk(sign: Option<Byte>) { sign.None? || sign.value == PLUS || sign.value == MINUS }

  lemma ParseRendered(sign: Option<Byte>, gs: seq<Seg>, fr: Fractions)
    requires SegsOk(gs) && gs != [] && SignOk(sign) && Proper(fr)
    ensures Parse(Sign(sign) + Render(gs), fr) == Finish(sign == Some(MINUS), Summed(Values(gs, fr), 0))
  {
    var s, body := Sign(sign) + Render(gs), Render(gs);
    RenderStart(gs);
    if sign.Some? { assert s[1..] == body; } else { assert s == body; }
    SegmentsOfRender(gs, 0, fr, t => FirstSegment(t, fr));
  }

  /** ParseDuration is exact on every non-empty list of segments with an optional sign in which no addition
      meets 2^63 twice: the signed sum when it fits int64, an error otherwise. */
  lemma ParseExact(sign: Option<Byte>, gs: seq<Seg>, fr: Fractions)
    requires SegsOk(gs) && gs != [] && SignOk(sign) && Proper(fr) && !DoubleMax(Values(gs, fr), 0)
    ensures Parse(Sign(sign) + Render(gs), fr) == Meaning(sign == Some(MINUS), Values(gs, fr))
  {
    ParseRendered(sign, gs, fr);
    SummedExact(Values(gs, fr), 0);
  }

  /** Otherwise everything up to that addition counts as nothing, although the sum does not fit: the result
      is wrong if and only if what follows parses. */
  lemma ParseWraps(sign: Option<Byte>, gs: seq<Seg>, fr: Fractions)
    requires SegsOk(gs) && gs != [] && SignOk(sign) && Proper(fr) && DoubleMax(Values(gs, fr), 0)
    ensures var p, vs := Parse(Sign(sign) + Render(gs), fr), Values(gs, fr);
            && Meaning(sign == Some(MINUS), vs) == Invalid
            && p == Finish(sign == Some(MINUS), Summed(AfterWrap(vs, 0), 0))
            && (p == Meaning(sign == Some(MINUS), vs) <==> !p.Ok?)
            && (AfterWrap(vs, 0) == [] ==> p == Ok(0))
  {
    ParseRendered(sign, gs, fr);
    SummedExact(Values(gs, fr), 0);
    SummedInvalid(AfterWrap(Values(gs, fr), 0), 0);
  }

  const MAX_DIGITS: Bytes := [57, 50, 50, 51, 51, 55, 50, 48, 51, 54, 56, 53, 52, 55, 55, 53, 56, 48, 56]

  lemma MaxPrefix(n: nat, v: nat)
    requires n < |MAX_DIGITS| && Decimal(MAX_DIGITS[..n]) == v
    ensures Decimal(MAX_DIGITS[..n + 1]) == v * 10 + MAX_DIGITS[n] - 48
  {
    assert MAX_DIGITS[..n + 1][..n] == MAX_DIGITS[..n];
  }

  lemma MaxTo5()
    ensures Decimal(MAX_DIGITS[..5]) == 92233
  {
    MaxPrefix(0, 0);
    MaxPrefix(1, 9);
    MaxPrefix(2, 92);
    MaxPrefix(3, 922);
    MaxPrefix(4, 9223);
  }

  lemma MaxTo10()
    ensures Decimal(MAX_DIGITS[..10]) == 9223372036
  {
    MaxTo5();
    MaxPrefix(5, 92233);
    MaxPrefix(6, 922337);
    MaxPrefix(7, 9223372);
    MaxPrefix(8, 92233720);
    MaxPrefix(9, 922337203);
  }

  lemma MaxTo15()
    ensures Decimal(MAX_DIGITS[..15]) == 922337203685477
  {
    MaxTo10();
    MaxPrefix(10, 9223372036);
    MaxPrefix(11, 92233720368);
    MaxPrefix(12, 922337203685);
    MaxPrefix(13, 9223372036854);
    MaxPrefix(14, 92233720368547);
  }

  lemma MaxTo19()
    ensures Decimal(MAX_DIGITS[..19]) == 9223372036854775808
  {
    MaxTo15();
    MaxPrefix(15, 922337203685477);
    MaxPrefix(16, 9223372036854775);
    MaxPrefix(17, 92233720368547758);
    MaxPrefix(18, 922337203685477580);
  }

  lemma MaxDigits()
    ensures SegOk(Seg(MAX_DIGITS, None, Ns)) && Decimal(MAX_DIGITS) == TWO63
  {
    MaxTo19();
    assert MAX_DIGITS[..19] == MAX_DIGITS;
  }

  /** "9223372036854775808ns9223372036854775808ns" is accepted as no time at all. */
  lemma WrapHappens(fr: Fractions)
    requires Proper(fr)
    ensures Parse(MAX_DIGITS + Name(Ns) + MAX_DIGITS + Name(Ns), fr) == Ok(0)
  {
    MaxDigits();
    var g := Seg(MAX_DIGITS, None, Ns);
    var gs := [g, g];
    assert gs[1..] == [g] && [g][1..] == [];
    assert Text(g) == MAX_DIGITS + Name(Ns);
    assert Render([g]) == Text(g) + Render([]) == Text(g);
    assert Render(gs) == Text(g) + Render([g]) == MAX_DIGITS + Name(Ns) + MAX_DIGITS + Name(Ns);
    assert Sign(None) + Render(gs) == Render(gs);
    assert Values([g], fr) == [TWO63] && Values(gs, fr) == [TWO63, TWO63];
    ParseWraps(None, gs, fr);
  }

  lemma {:induction false} SummedInvalid(vs: seq<nat>, d: nat)
    ensures Summed(vs, d).Error? ==> Summed(vs, d).e == Invalid
    decreases |vs|
  {
    if vs != [] { SummedInvalid(vs[1..], Wrap(d + vs[0])); }
  }

  lemma HeadUnit(rest: Bytes, v: nat, f: nat, k: nat, fr: Fractions)
    ensures var u := UnitRun(rest);
            AfterNumber(rest, v, f, k, fr).Next? ==>
              Lookup(rest[..u]).Some? && AfterNumber(rest, v, f, k, fr).tail == rest[u..]
  {
  }

  /** The first segment of an accepted text. */
  lemma AcceptedHead(s: Bytes, fr: Fractions) returns (g: Seg)
    requires s != [] && FirstSegment(s, fr).Next?
    ensures SegOk(g) && s == Text(g) + FirstSegment(s, fr).tail
  {
    var n := DigitRun(s);
    if n < |s| && s[n] == DOT {
      g := PointHead(s, n, fr);
    } else {
      g := PlainHead(s, n, fr);
    }
  }

  lemma PlainFirst(s: Bytes, n: nat, fr: Fractions)
    requires s != [] && n == DigitRun(s) && (n < |s| ==> s[n] != DOT)
    ensures FirstSegment(s, fr)
            == if n == 0 || Decimal(s[..n]) > TWO63 then Bad(Invalid)
               else AfterNumber(s[n..], Decimal(s[..n]), 0, 0, fr)
  {
  }

  lemma PlainTail(s: Bytes, n: nat, fr: Fractions, u: nat)
    requires s != [] && n == DigitRun(s) && (n < |s| ==> s[n] != DOT) && FirstSegment(s, fr).Next?
    requires u == UnitRun(s[n..])
    ensures n > 0 && Decimal(s[..n]) <= TWO63
    ensures Lookup(s[n..][..u]).Some? && FirstSegment(s, fr).tail == s[n..][u..]
  {
    PlainFirst(s, n, fr);
    HeadUnit(s[n..], Decimal(s[..n]), 0, 0, fr);
  }

  lemma PlainText(digits: Bytes, name: Bytes, g: Seg)
    requires Digits(digits) && digits != [] && Lookup(name).Some? && g == Seg(digits, None, Lookup(name).value)
    ensures SegOk(g) && Text(g) == digits + name
  {
    assert digits + [] == digits;
  }

  lemma PlainHead(s: Bytes, n: nat, fr: Fractions) returns (g: Seg)
    requires s != [] && n == DigitRun(s) && (n < |s| ==> s[n] != DOT) && FirstSegment(s, fr).Next?
    ensures SegOk(g) && s == Text(g) + FirstSegment(s, fr).tail
  {
    var u := UnitRun(s[n..]);
    PlainTail(s, n, fr, u);
    var digits, name, tail := s[..n], s[n..][..u], FirstSegment(s, fr).tail;
    g := Seg(digits, None, Lookup(name).value);
    PlainText(digits, name, g);
    Segmented(s, n, u);
  }

  lemma PointHead(s: Bytes, n: nat, fr: Fractions) returns (g: Seg)
    requires n == DigitRun(s) && n < |s| && s[n] == DOT && FirstSegment(s, fr).Next?
    ensures SegOk(g) && s == Text(g) + FirstSegment(s, fr).tail
  {
    var m := DigitRun(s[n + 1..]);
    var frac, unit := s[n + 1..][..m], s[n + 1..][m..];
    PointFirst(s, n, frac, unit, fr);
    var (f, k) := Fraction(frac, 0, 0, false);
    var u := UnitRun(unit);
    HeadUnit(unit, Decimal(s[..n]), f, k, fr);
    g := Seg(s[..n], Some(frac), Lookup(unit[..u]).value);
    assert Text(g) == s[..n] + ([DOT] + frac + unit[..u]);
    Split(s, n, m, u);
  }

  lemma Segmented(s: Bytes, n: nat, u: nat)
    requires n + u <= |s|
    ensures s == s[..n] + s[n..][..u] + s[n..][u..]
  {
    var rest := s[n..];
    assert rest == rest[..u] + rest[u..];
  }

  lemma Split(s: Bytes, n: nat, m: nat, u: nat)
    requires n + 1 + m + u <= |s| && s[n] == DOT
    ensures var frac, unit := s[n + 1..][..m], s[n + 1..][m..];
            s == s[..n] + ([DOT] + frac + unit[..u]) + unit[u..]
  {
    var after := s[n + 1..];
    var frac, unit := after[..m], after[m..];
    assert s == s[..n] + ([DOT] + after);
    assert after == frac + unit && unit == unit[..u] + unit[u..];
    Regroup(s[..n], [DOT], frac, unit[..u], unit[u..]);
  }

  lemma Regroup(a: Bytes, b: Bytes, x: Bytes, y: Bytes, z: Bytes)
    ensures a + (b + (x + (y + z))) == a + (b + x + y) + z
  {
    assert b + (x + (y + z)) == (b + x + y) + z;
  }

  lemma RenderCons(g: Seg, more: seq<Seg>)
    requires SegOk(g) && SegsOk(more)
    ensures SegsOk([g] + more) && Render([g] + more) == Text(g) + Render(more)
  {
    assert ([g] + more)[1..] == more;
  }

  lemma ReadHead(s: Bytes, fr: Fractions, read: Reader) returns (g: Seg)
    requires s != [] && Reads(read, fr) && read(s).Next?
    ensures SegOk(g) && s == Text(g) + read(s).tail
  {
    assert read(s) == FirstSegment(s, fr);
    g := AcceptedHead(s, fr);
  }

  /** Conversely, a text that the loop accepts is a rendered list of segments. */
  lemma {:induction false} AcceptedIsRendered(s: Bytes, d: nat, fr: Fractions, read: Reader) returns (gs: seq<Seg>)
    requires Reads(read, fr) && Segments(s, d, read).Done?
    ensures SegsOk(gs) && s == Render(gs)
    decreases |s|
  {
    if s == [] {
      gs := [];
    } else {
      var next := read(s);
      var g := ReadHead(s, fr, read);
      var more := AcceptedIsRendered(next.tail, Wrap(d + next.v), fr, read);
      gs := [g] + more;
      RenderCons(g, more);
    }
  }

  predicate IsZero(s: Bytes) { s == [48] || (Signed(s) && s[1..] == [48]) }

  lemma ReadError(s: Bytes, fr: Fractions, read: Reader)
    requires Reads(read, fr) && read(s).Bad?
    ensures !read(s).e.Ok?
  {
    assert read(s) == FirstSegment(s, fr);
  }

  lemma {:induction false} ErrorsAreErrors(s: Bytes, d: nat, fr: Fractions, read: Reader)
    requires Reads(read, fr) && Segments(s, d, read).Error?
    ensures !Segments(s, d, read).e.Ok?
    decreases |s|
  {
    var next := read(s);
    if next.Bad? {
      ReadError(s, fr, read);
    } else if Wrap(d + next.v) <= TWO63 && |next.tail| < |s| {
      ErrorsAreErrors(next.tail, Wrap(d + next.v), fr, read);
    }
  }

  lemma AcceptedWith(s: Bytes, fr: Fractions, read: Reader) returns (sign: Option<Byte>, gs: seq<Seg>)
    requires Reads(read, fr) && ParseWith(s, read).Ok? && !IsZero(s)
    ensures SignOk(sign) && SegsOk(gs) && gs != [] && s == Sign(sign) + Render(gs)
  {
    var body := if Signed(s) then s[1..] else s;
    sign := if Signed(s) then Some(s[0]) else None;
    assert s == Sign(sign) + body;
    if Segments(body, 0, read).Error? {
      ErrorsAreErrors(body, 0, fr, read);
    }
    gs := AcceptedIsRendered(body, 0, fr, read);
  }

  /** A text other than a zero is accepted only as an optional sign and rendered segments. */
  lemma AcceptedText(s: Bytes, fr: Fractions) returns (sign: Option<Byte>, gs: seq<Seg>)
    requires Parse(s, fr).Ok? && !IsZero(s)
    ensures SignOk(sign) && SegsOk(gs) && gs != [] && s == Sign(sign) + Render(gs)
  {
    sign, gs := AcceptedWith(s, fr, t => FirstSegment(t, fr));
  }

  /** A zero needs no unit, with or without a sign; nothing, or a sign alone, is not a duration. */
  lemma ParseZero(sign: Option<Byte>, fr: Fractions)
    requires SignOk(sign)
    ensures Parse(Sign(sign) + [48], fr) == Ok(0) && Parse(Sign(sign), fr) == Invalid
  {
    var s := Sign(sign) + [48];
    assert (if Signed(s) then s[1..] else s) == [48];
    assert (if Signed(Sign(sign)) then Sign(sign)[1..] else Sign(sign)) == [];
  }
}
