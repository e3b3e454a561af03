/**
 * The deterministic part of the avatar route: a name is hashed to a 32-bit
 * integer and the hash picks, for each of three marble elements, a colour of
 * the palette, a translation and a rotation.
 */
module Avatar {
  import opened Wrappers
  import opened JsText

  const Elements: nat := 3
  const Size: int := 80

  const TwoTo31: int := 0x8000_0000
  const TwoTo32: int := 0x1_0000_0000

  predicate IsInt32(x: int) { -TwoTo31 <= x < TwoTo31 }

  /** ECMAScript ToInt32 on an integral number: wrap into [-2^31, 2^31). */
  function ToInt32(x: int): (r: int)
    ensures IsInt32(r)
    ensures r == x - TwoTo32 * ((x + TwoTo31) / TwoTo32)
    ensures IsInt32(x) ==> r == x
  {
    (x + TwoTo31) % TwoTo32 - TwoTo31
  }

  /** Values that differ by a multiple of 2^32 wrap to the same 32-bit integer. */
  lemma ToInt32Congruent(x: int, k: int)
    ensures ToInt32(x + k * TwoTo32) == ToInt32(x)
  {
    var q := (x + TwoTo31) / TwoTo32;
    var m := (x + TwoTo31) % TwoTo32;
    assert x + TwoTo31 == q * TwoTo32 + m && 0 <= m < TwoTo32;
    assert x + k * TwoTo32 + TwoTo31 == (q + k) * TwoTo32 + m;
    assert (x + k * TwoTo32 + TwoTo31) % TwoTo32 == m;
  }

  /** `hash << 5`: both the operand and the result are wrapped to 32 bits. */
  function ShiftLeft5(h: int): int {
    ToInt32(ToInt32(h) * 32)
  }

  /**
   * One step of the loop body: `hash = (hash << 5) - hash + character` and
   * then `hash = hash & hash`, which wraps the sum to 32 bits.
   */
  function HashStep(h: int, c: int): (r: int)
    ensures IsInt32(r)
  {
    ToInt32(ShiftLeft5(h) - h + c)
  }

  /** For a 32-bit accumulator the step is 31 * h + c, wrapped to a signed 32-bit integer. */
  lemma HashStepIs31Hash(h: int, c: int)
    requires IsInt32(h)
    ensures HashStep(h, c) == ToInt32(31 * h + c)
  {
    var k := -((h * 32 + TwoTo31) / TwoTo32);
    assert ToInt32(h * 32) == h * 32 + k * TwoTo32;
    assert ShiftLeft5(h) - h + c == (31 * h + c) + k * TwoTo32;
    ToInt32Congruent(31 * h + c, k);
  }

  /** The accumulator after the loop has consumed the code units `units`. */
  function HashAcc(units: seq<int>): (r: int)
    ensures IsInt32(r)
  {
    if units == [] then 0 else HashStep(HashAcc(units[..|units| - 1]), units[|units| - 1])
  }

  function Abs(x: int): int { if x < 0 then -x else x }

  /** `hashCode(name)`: the absolute value of the accumulator over the UTF-16 code units of the name. */
  function Hash(name: string): (r: int)
    ensures 0 <= r <= TwoTo31
  {
    Abs(HashAcc(Utf16(name)))
  }

  /** The hash of the empty name is 0; each further code unit multiplies by 31 and adds, modulo 2^32. */
  lemma HashAccSteps(units: seq<int>, c: int)
    ensures HashAcc([]) == 0
    ensures HashAcc(units + [c]) == ToInt32(31 * HashAcc(units) + c)
  {
    assert (units + [c])[..|units + [c]| - 1] == units;
    HashStepIs31Hash(HashAcc(units), c);
  }

  /** `hashCode`, as the loop over the code units that the source runs. */
  method HashCode(name: string) returns (hash: int)
    ensures hash == Hash(name)
    ensures 0 <= hash <= TwoTo31
  {
    var units := Utf16(name);
    var acc := 0;
    var i := 0;
    while i < |units|
      invariant 0 <= i <= |units|
      invariant acc == HashAcc(units[..i])
    {
      var character := units[i];
      acc := ShiftLeft5(acc) - acc + character;
      acc := ToInt32(acc);
      assert units[..i + 1][..i] == units[..i];
      i := i + 1;
    }
    assert units[..i] == units;
    hash := Abs(acc);
  }

  function Pow10(k: nat): (r: int)
    ensures r >= 1
  {
    if k == 0 then 1 else 10 * Pow10(k - 1)
  }

  /** JavaScript's `a % b` on integers: the remainder takes the sign of `a`. */
  function TruncRem(a: int, b: int): (r: int)
    requires b != 0
    ensures Abs(r) == Abs(a) % Abs(b)
    ensures a >= 0 ==> r == a % Abs(b)
    ensures a < 0 ==> r <= 0
    ensures Abs(r) < Abs(b)
  {
    if a >= 0 then a % Abs(b) else -((-a) % Abs(b))
  }

  /**
   * `getDigit(number, k)`: `Math.floor((number / 10^k) % 10)`. The real
   * remainder of number / 10^k by 10 is TruncRem(number, 10^(k+1)) / 10^k,
   * and its floor is the integer division of that remainder by 10^k.
   */
  function GetDigit(n: int, k: nat): (r: int)
    ensures -10 <= r <= 9
    ensures n >= 0 ==> 0 <= r <= 9 && r == (n / Pow10(k)) % 10
  {
    var p := Pow10(k);
    var rem := TruncRem(n, 10 * p);
    QuotientBounds(rem, p);
    if n >= 0 then DigitOfRemainder(n, p); rem / p
    else rem / p
  }

  lemma QuotientBounds(a: int, p: int)
    requires p >= 1 && -10 * p < a < 10 * p
    ensures -10 <= a / p <= 9
  {
    var q, m := a / p, a % p;
    assert a == q * p + m && 0 <= m < p;
    if q > 9 {
      MulLe(10, q, p);
    } else if q < -10 {
      MulLe(q, -11, p);
    }
  }

  lemma MulLe(x: int, y: int, b: int)
    requires x <= y && b >= 0
    ensures x * b <= y * b
  {
    assert (y - x) * b >= 0;
    assert (y - x) * b == y * b - x * b;
  }

  /** Integer division and remainder by a positive divisor are unique. */
  lemma DivModUnique(a: int, b: int, q: int, m: int)
    requires b > 0 && a == q * b + m && 0 <= m < b
    ensures a / b == q && a % b == m
  {
    var q0, m0 := a / b, a % b;
    assert a == q0 * b + m0 && 0 <= m0 < b;
    if q > q0 {
      MulLe(q0 + 1, q, b);
    } else if q < q0 {
      MulLe(q + 1, q0, b);
    }
  }

  lemma DigitOfRemainder(n: nat, p: int)
    requires p >= 1
    ensures 0 <= (n % (10 * p)) / p <= 9
    ensures (n % (10 * p)) / p == (n / p) % 10
  {
    var q, m := n / p, n % p;
    var q10, d := q / 10, q % 10;
    assert n == q * p + m;
    assert q == q10 * 10 + d;
    assert q * p == q10 * (10 * p) + d * p by {
      assert (q10 * 10 + d) * p == q10 * 10 * p + d * p;
    }
    MulLe(d, 9, p);
    DivModUnique(n, 10 * p, q10, d * p + m);
    DivModUnique(d * p + m, p, d, m);
  }

  /**
   * `getUnit(number, range, index)`: `number % range`, negated when `index` is
   * given and non-zero and the index-th decimal digit of `number` is even. The
   * callers pass the positive ranges SIZE / 10, SIZE / 20 and 360.
   */
  function GetUnit(n: int, range: int, index: Option<nat>): (r: int)
    requires range > 0
    ensures Abs(r) == Abs(TruncRem(n, range))
    ensures n >= 0 ==> -range < r < range
    ensures n >= 0 && n % range != 0 ==>
      (r < 0 <==> index.Some? && index.value != 0 && GetDigit(n, index.value) % 2 == 0)
  {
    var value := TruncRem(n, range);
    if index.Some? && index.value != 0 && TruncRem(GetDigit(n, index.value), 2) == 0 then -value
    else value
  }

  /** `getRandomColor(number, colors, range)`: `colors[number % range]`, undefined when out of bounds. */
  function GetRandomColor(n: int, colors: seq<string>, range: int): (r: Option<string>)
    ensures n >= 0 && range == |colors| > 0 ==> r == Some(colors[n % range])
    ensures range == 0 ==> r.None?
  {
    if range == 0 then None
    else
      var i := TruncRem(n, range);
      if 0 <= i < |colors| then Some(colors[i]) else None
  }

  /** The properties of one marble element the model covers; `scale` is floating point and left out. */
  datatype Element = Element(color: Option<string>, translateX: int, translateY: int, rotate: int)

  function ElementAt(num: int, colors: seq<string>, i: nat): Element
    requires num >= 0
  {
    Element(GetRandomColor(num + i, colors, |colors|),
            GetUnit(num * (i + 1), Size / 10, Some(1)),
            GetUnit(num * (i + 1), Size / 10, Some(2)),
            GetUnit(num * (i + 1), 360, Some(1)))
  }

  /** `generateColors(name, colors)`, without the scale. */
  function GenerateColors(name: string, colors: seq<string>): (r: seq<Element>)
    ensures |r| == Elements
    ensures forall i :: 0 <= i < |r| && |colors| > 0 ==> r[i].color == Some(colors[(Hash(name) + i) % |colors|])
    ensures forall i :: 0 <= i < |r| && |colors| == 0 ==> r[i].color.None?
    ensures forall i :: 0 <= i < |r| ==>
      -8 < r[i].translateX < 8 && -8 < r[i].translateY < 8 && -360 < r[i].rotate < 360
  {
    var num := Hash(name);
    seq(Elements, i requires 0 <= i < Elements => ElementAt(num, colors, i))
  }
}
