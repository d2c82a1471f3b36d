/**
 * The scaling of setpoints and readings in double arithmetic: every operation is exact up to a relative error
 * of one unit of roundoff. Decoding divides by the multiplier, encoding multiplies and cuts off.
 */
module Scaling {
  import opened Options
  import opened Registers
  import opened Doubles

  /** 2 to the power of -53. */
  const UNIT: real := 1.0 / 9007199254740992.0

  function Abs(x: real): real {
    if x < 0.0 then -x else x
  }

  /** `result` is a possible double result of an operation whose exact result is `exact`. */
  predicate Rounded(exact: real, result: real) {
    Abs(result - exact) <= UNIT * Abs(exact)
  }

  /** value_to_voltage and its siblings. */
  predicate Decodes(n: int, m: real, x: real) {
    m > 0.0 && Rounded(n as real / m, x)
  }

  /** voltage_to_value and its siblings: the rounded product, cut off behind the point. */
  ghost predicate Encodes(x: real, m: real, n: int) {
    exists f: real :: Rounded(x * m, f) && n == f.Floor
  }

  /** Rounding keeps a nonnegative number within its relative bounds. */
  lemma RoundedBounds(exact: real, result: real)
    requires exact >= 0.0 && Rounded(exact, result)
    ensures exact - UNIT * exact <= result <= exact + UNIT * exact
    ensures result >= 0.0
  {
  }

  /** Dividing and multiplying back, both rounded, stays within three units of the start. */
  lemma DivideAndBack(n: real, m: real, x: real, f: real)
    requires n >= 0.0 && m > 0.0 && Rounded(n / m, x) && Rounded(x * m, f)
    ensures n - 3.0 * (UNIT * n) <= f <= n + 3.0 * (UNIT * n)
  {
    var q, slack, p := n / m, UNIT * n, x * m;
    RoundedBounds(q, x);
    assert q * m == n;
    WithinTimes(q, UNIT, x, m, n);
    RoundedBounds(p, f);
    assert UNIT * p <= slack + slack;
  }

  /** Relative bounds survive multiplication. */
  lemma WithinTimes(q: real, u: real, x: real, m: real, n: real)
    requires m > 0.0 && q * m == n && q - u * q <= x <= q + u * q
    ensures n - u * n <= x * m <= n + u * n
  {
    var s := u * q;
    TimesPositive(q - s, x, m);
    TimesPositive(x, q + s, m);
    assert (q - s) * m == q * m - s * m && (q + s) * m == q * m + s * m;
    Associates(u, q, m, n);
  }

  lemma Associates(u: real, q: real, m: real, n: real)
    requires q * m == n
    ensures u * q * m == u * n
  {
    assert u * q * m == u * (q * m);
  }

  lemma TimesPositive(a: real, b: real, m: real)
    requires a <= b && m > 0.0
    ensures a * m <= b * m
  {
  }

  /** Encoding a decoded register value gives the value or one less, whatever the multiplier. */
  lemma EncodeDecoded(n: u16, m: real, x: real, e: int)
    requires Decodes(n, m, x) && Encodes(x, m, e)
    ensures e == n || e == n - 1
    ensures n == 0 ==> e == 0
  {
    var f: real :| Rounded(x * m, f) && e == f.Floor;
    DivideAndBack(n as real, m, x, f);
    assert n as real <= 65535.0;
    assert 3.0 * (UNIT * n as real) < 1.0;
  }

  // ----- When a step is lost -----

  function Value(d: Double): real {
    d.significand as real / Pow2(d.places) as real
  }

  lemma CancelTimes(x: real, y: real, z: real)
    requires z > 0.0 && x * z <= y * z
    ensures x <= y
  {
  }

  /** A bound on the cross products is a bound on the quotients. */
  lemma CloseIsRounded(s: real, p: real, a: real, b: real)
    requires p > 0.0 && b > 0.0 && a > 0.0 && Abs(s * b - a * p) <= UNIT * (a * p)
    ensures Rounded(a / b, s / p)
  {
    var v, q, e := s / p, a / b, UNIT * (a / b);
    assert v * (p * b) == v * p * b == s * b;
    assert q * (p * b) == q * b * p == a * p;
    assert e * (p * b) == UNIT * (q * (p * b));
    CancelTimes(v - q, e, p * b);
    CancelTimes(q - v, e, p * b);
  }

  lemma RealTimes(x: int, y: int)
    ensures (x * y) as real == x as real * y as real
  {
  }

  /** The double nearest to a quotient is a double result of the division. */
  lemma NearestRounds(a: nat, b: nat)
    requires Representable(a, b)
    ensures Rounded(a as real / b as real, Value(Nearest(a, b)))
  {
    var d := Nearest(a, b);
    NearestIsClose(a, b);
    CloseInReals(d.significand, Pow2(d.places), a, b);
  }

  lemma CloseInReals(s: nat, p: nat, a: nat, b: nat)
    requires p > 0 && b > 0 && a > 0 && 2 * TOP * Distance(s * b, a * p) <= a * p
    ensures Rounded(a as real / b as real, s as real / p as real)
  {
    RealTimes(s, b);
    RealTimes(a, p);
    assert Distance(s * b, a * p) as real <= UNIT * (a * p) as real;
    CloseIsRounded(s as real, p as real, a as real, b as real);
  }

  lemma FloorOfValue(d: Double)
    ensures Value(d).Floor == Floor(d)
  {
    var p := Pow2(d.places);
    var q, r := Quotient(d.significand, p), d.significand % p;
    assert d.significand == q * p + r;
    RealTimes(q, p);
    WholePart(d.significand as real, p as real, q as real, r as real);
  }

  lemma WholePart(s: real, p: real, q: real, r: real)
    requires s == q * p + r && 0.0 <= r < p
    ensures q <= s / p < q + 1.0
  {
    var v := s / p;
    assert v * p == s;
    CancelTimes(q, v, p);
    assert (q + 1.0) * p == q * p + p;
    if v >= q + 1.0 {
      TimesPositive(q + 1.0, v, p);
    }
  }

  /** Rounding to the nearest double is one of the ways to round this module speaks of. */
  lemma DoublesRound(n: u16, m: nat)
    requires n > 0 && m > 0
    ensures Decodes(n, m as real, Value(Decoded(n, m)))
    ensures Encodes(Value(Decoded(n, m)), m as real, Recoded(n, m))
  {
    TimesMono(2 * TOP, 1, m);
    NearestRounds(n, m);
    ProductInRange(n, m);
    ProductRounds(Decoded(n, m), m);
  }

  lemma ProductRounds(x: Double, m: nat)
    requires m > 0 && Representable(x.significand * m, Pow2(x.places))
    ensures Encodes(Value(x), m as real, Encoded(x, m))
  {
    ProductIsRounded(x, m);
    CutOff(x, m, Nearest(x.significand * m, Pow2(x.places)));
  }

  lemma CutOff(x: Double, m: nat, f: Double)
    requires ProductRounded(x, m, f)
    ensures Encodes(Value(x), m as real, Floor(f))
  {
    FloorOfValue(f);
    EncodesTo(Value(x), m as real, Value(f));
  }

  predicate ProductRounded(x: Double, m: nat, f: Double) {
    Rounded(Value(x) * m as real, Value(f))
  }

  lemma ProductIsRounded(x: Double, m: nat)
    requires m > 0 && Representable(x.significand * m, Pow2(x.places))
    ensures ProductRounded(x, m, Nearest(x.significand * m, Pow2(x.places)))
  {
    NearestRounds(x.significand * m, Pow2(x.places));
    ValueTimes(x, m);
  }

  lemma EncodesTo(x: real, m: real, f: real)
    requires Rounded(x * m, f)
    ensures Encodes(x, m, f.Floor)
  {
  }

  lemma ValueTimes(x: Double, m: nat)
    ensures Value(x) * m as real == (x.significand * m) as real / Pow2(x.places) as real
  {
    RealTimes(x.significand, m);
    TimesOver(x.significand as real, Pow2(x.places) as real, m as real);
  }

  lemma TimesOver(s: real, p: real, m: real)
    requires p > 0.0
    ensures s / p * m == s * m / p
  {
  }

  /** Places and quotient of 0.29. */
  lemma TwentyNineHundredths(n: nat, m: nat)
    requires n == 29 && m == 100
    ensures Decoded(n, m) == Double(5224175567749775, 54) && Shortfall(n, m) == 36
  {
    var k, l := 53, 54;
    Pow2Of53();
    assert Pow2(l) == 2 * Pow2(k);
    PlacesAre(n, m, l);
    DivideIs(n * Pow2(l), m, 5224175567749775, 36);
  }

  /** The values just below 29 have 48 places, six fewer than 0.29. */
  lemma BelowTwentyNine(n: nat)
    requires n == 29
    ensures Pow2(54) == 64 * Pow2(Places(2 * n - 1, 2))
  {
    var j, k, l := 48, 53, 54;
    Pow2Of48();
    Pow2Of53();
    assert Pow2(l) == 2 * Pow2(k);
    PlacesAre(2 * n - 1, 2, j);
  }

  /**
   * One less does happen: the double nearest to 0.29, times 100, rounds to the double just below 29. A setpoint
   * of 0.29 written back as it was read loses a step.
   */
  lemma OneStepLost(n: nat, m: nat)
    requires n == 29 && m == 100
    ensures Decoded(n, m) == Double(5224175567749775, 54) && LosesStep(n, m) && Recoded(n, m) == 28
  {
    TwentyNineHundredths(n, m);
    BelowTwentyNine(n);
    EncodeDecodedExactly(n, m);
  }

  /** A register value and the value after one cycle of decoding and encoding. */
  ghost predicate Cycle(n: int, m: real, e: int) {
    exists x: real :: Decodes(n, m, x) && Encodes(x, m, e)
  }

  /** Register values over a number of cycles. */
  ghost predicate Cycles(ns: seq<int>, m: real) {
    forall k | 0 < k < |ns| :: Cycle(ns[k - 1], m, ns[k])
  }

  /** `k` cycles never raise a register value and lower it by at most `k`; it never drops below zero. */
  lemma {:induction false} CyclesLoseLittle(ns: seq<int>, m: real, k: nat)
    requires k < |ns| && 0 <= ns[0] < 0x1_0000 && Cycles(ns, m)
    ensures ns[0] - k <= ns[k] <= ns[0] && ns[k] >= 0
  {
    if k > 0 {
      CyclesLoseLittle(ns, m, k - 1);
      assert Cycle(ns[k - 1], m, ns[k]);
      var x: real :| Decodes(ns[k - 1], m, x) && Encodes(x, m, ns[k]);
      EncodeDecoded(ns[k - 1], m, x, ns[k]);
    }
  }

  /** Without rounding, a written setpoint never exceeds the request and is less than one step below it. */
  lemma SetpointJustBelow(x: real, m: real)
    requires m > 0.0 && Encodable(x, m)
    ensures Scaled(ToValue(x, m), m) <= x < Scaled(ToValue(x, m), m) + 1.0 / m
  {
    var e := ToValue(x, m);
    assert e as real <= x * m < e as real + 1.0;
    DivideBack(e as real, x, m);
    DivideUp(x, e as real + 1.0, m);
    assert (e as real + 1.0) / m == e as real / m + 1.0 / m;
  }

  /** `back` is a setpoint as it comes back: at most what was set, and less than one step below. */
  predicate JustBelow(back: real, set_: real, m: real) {
    back <= set_ && (back - set_) * m > -1.0
  }

  /** A preset that was set is read back field by field, each at most one step lower than it was set. */
  lemma PresetRoundTrip(regs: seq<u16>, m: Scales, index: nat, p: Preset)
    requires IsFile(regs) && m.Ok() && PresetFits(p, m) && index < NUMBER_OF_PRESETS
    ensures var q := GetPreset(SetPreset(regs, m, index, p), m, index);
      && q.Some?
      && JustBelow(q.value.voltage, p.voltage, m.voltage) && JustBelow(q.value.current, p.current, m.current)
      && JustBelow(q.value.overVoltage, p.overVoltage, m.voltage)
      && JustBelow(q.value.overCurrent, p.overCurrent, m.current)
  {
    SetPresetWrites(regs, m, index, p);
    var r, base := SetPreset(regs, m, index, p), M0_V + 4 * index;
    assert r[base] == PresetValues(p, m)[0] && r[base + 1] == PresetValues(p, m)[1];
    assert r[base + 2] == PresetValues(p, m)[2] && r[base + 3] == PresetValues(p, m)[3];
    SetpointComesBack(p.voltage, m.voltage);
    SetpointComesBack(p.current, m.current);
    SetpointComesBack(p.overVoltage, m.voltage);
    SetpointComesBack(p.overCurrent, m.current);
  }

  lemma SetpointComesBack(x: real, m: real)
    requires m > 0.0 && Encodable(x, m)
    ensures JustBelow(Scaled(ToValue(x, m), m), x, m)
  {
    SetpointJustBelow(x, m);
    ScaledTimes(ToValue(x, m), m);
    var e := ToValue(x, m) as real;
    assert (Scaled(ToValue(x, m), m) - x) * m == e - x * m;
  }

  lemma DivideBack(a: real, x: real, m: real)
    requires m > 0.0 && a <= x * m
    ensures a / m <= x
  {
    assert x - a / m == (x * m - a) / m;
  }

  lemma DivideUp(x: real, b: real, m: real)
    requires m > 0.0 && x * m < b
    ensures x < b / m
  {
    assert b / m - x == (b - x * m) / m;
  }

  // ----- The models -----

  datatype Model = Model(name: string, voltageMax: real, currentMax: real, scales: Scales)

  /** The ids `begin` accepts, and what it takes from them. */
  function Recognise(id: u16): Option<Model> {
    var common := Scales(100.0, 100.0, 100.0, 100.0);
    if 60180 <= id <= 60189 then Some(Model("RD6018", 60.1, 18.1, common))
    else if 60120 <= id <= 60124 then Some(Model("RD6012", 60.1, 12.1, common))
    else if 60125 <= id <= 60129 then Some(Model("RD6012P", 60.1, 12.1, Scales(1000.0, 100.0, 1000.0, 100.0)))
    else if 60060 <= id <= 60064 then Some(Model("RD6006", 60.1, 6.0, Scales(100.0, 1000.0, 100.0, 100.0)))
    else if id == 60065 then Some(Model("RD6006P", 60.1, 6.0, Scales(1000.0, 10000.0, 1000.0, 100.0)))
    else if id == 60301 then Some(Model("RD6030", 60.1, 30.1, common))
    else if 60241 <= id then Some(Model("RD6024", 60.1, 24.1, common))
    else None
  }

  function Digits(n: nat): string
    requires n < 10000
  {
    [Digit(n / 1000), Digit(n / 100 % 10), Digit(n / 10 % 10), Digit(n % 10)]
  }

  function Digit(d: nat): char
    requires d < 10
  {
    '0' + d as char
  }

  /** The id of a model of the known series, the ids that are taken for the RD6024 beyond its own apart. */
  predicate KnownSeries(id: u16) {
    60060 <= id < 60250 || id == 60301
  }

  /**
   * The number in a model's name is its id without the last digit, its last two digits are the amperes it is
   * rated for, and a last digit from 5 on marks the P model of a series that has one: ten times the plain model's
   * resolution for voltage and power.
   */
  lemma ModelMatchesId(id: u16)
    requires KnownSeries(id) && Recognise(id).Some?
    ensures var model, number := Recognise(id).value, id / 10;
      var high := number in {6006, 6012} && id % 10 >= 5;
      && model.name == "RD" + Digits(number) + (if high then "P" else "")
      && (number % 100) as real <= model.currentMax <= (number % 100) as real + 0.1
      && model.voltageMax == 60.1
      && model.scales.voltage == model.scales.power == (if high then 1000.0 else 100.0)
      && model.scales.voltageIn == 100.0
      && model.scales.current == (if number == 6006 then (if high then 10000.0 else 1000.0) else 100.0)
  {
  }

  /** A rounded product of a request within a limit whose exact image is well inside the register. */
  lemma ProductFits(x: real, limit: real, stored: real, m: real, f: real)
    requires 0.0 <= limit * m <= 65000.0 && 0.0 <= limit && m > 0.0
    requires Rounded(limit, stored) && 0.0 <= x <= stored && Rounded(x * m, f)
    ensures 0.0 <= f < 65536.0
  {
    var top := limit * m;
    RoundedBounds(limit, stored);
    WithinTimes(limit, UNIT, stored, m, top);
    TimesPositive(x, stored, m);
    TimesPositive(0.0, x, m);
    assert 0.0 <= x * m <= stored * m <= top + UNIT * top;
    RoomAbove(top, x * m, f);
  }

  /** Two roundings do not take a number at most 65000 beyond 16 bits. */
  lemma RoomAbove(limit: real, p: real, f: real)
    requires 0.0 <= limit <= 65000.0 && 0.0 <= p <= limit + UNIT * limit && Rounded(p, f)
    ensures 0.0 <= f < 65536.0
  {
    assert UNIT * limit <= 1.0;
    RoundedBounds(p, f);
    assert UNIT * p <= 1.0;
  }

  /**
   * For every id that is accepted, every setpoint between zero and the limit of the model - itself stored as
   * a double - is encoded within 16 bits, for voltage and for current.
   */
  lemma SetpointsFit(id: u16, voltageMax: real, currentMax: real, v: real, c: real, fv: real, fc: real)
    requires Recognise(id).Some?
    requires var model := Recognise(id).value;
      && Rounded(model.voltageMax, voltageMax) && Rounded(model.currentMax, currentMax)
      && 0.0 <= v <= voltageMax && 0.0 <= c <= currentMax
      && Rounded(v * model.scales.voltage, fv) && Rounded(c * model.scales.current, fc)
    ensures 0 <= fv.Floor < 0x1_0000 && 0 <= fc.Floor < 0x1_0000
  {
    var model := Recognise(id).value;
    ProductFits(v, model.voltageMax, voltageMax, model.scales.voltage, fv);
    ProductFits(c, model.currentMax, currentMax, model.scales.current, fc);
  }
}
