/**
 * The replacers of requester/generator.go: the value each kind of
 * placeholder produces. The random source is a parameter: `draws(k)` is the
 * value behind the k-th call of `rand.Intn` made by one replacer, whose
 * result is `draws(k) % n` for `rand.Intn(n)`.
 */
module GeneratorValues {
  import opened Text
  import opened GeneratorRegistry

  /** The characters of charPool in requester/generator.go that can be drawn: all but its last. */
  const Drawable: string := Lower + " " + Upper + " " + "012345678"

  const Lower: string := "abcdefghijklmnopqrstuvwxyz"
  const Upper: string := "ABCDEFGHIJKLMNOPQRSTUVWXYZ"

  /** charPool of requester/generator.go. */
  const CharPool: string := Drawable + "9"

  /** poolLen: one less than the pool's length, so its last character is never drawn. */
  const PoolLen: nat := |CharPool| - 1

  /** rand.Intn(n) for the draw `x`. */
  function Intn(x: nat, n: int): (v: nat)
    requires n > 0
    ensures v < n
  {
    x % n
  }

  /** The number drawn from a range: `min` itself when the range is one value, else `rand.Intn(max-min)+min`. */
  function Pick(g: Gen, x: nat): (v: int)
    requires ValidGen(g)
    ensures g.min <= v <= g.max
    ensures g.min < g.max ==> v < g.max
  {
    if g.max == g.min then g.min else Intn(x, g.max - g.min) + g.min
  }

  /** The value of an `i` placeholder: the decimal text of the drawn number. */
  function IntValue(g: Gen, draws: nat -> nat): string
    requires ValidGen(g)
  {
    Itoa(Pick(g, draws(0)))
  }

  /** The value of an `f` placeholder: `%d.%d` of the drawn number and of `rand.Intn(99)`, drawn after it. */
  function FloatValue(g: Gen, draws: nat -> nat): string
    requires ValidGen(g)
  {
    if g.max == g.min then Dotted(g.min, Intn(draws(0), 99))
    else Dotted(Intn(draws(0), g.max - g.min) + g.min, Intn(draws(1), 99))
  }

  /** `fmt.Sprintf("%d.%d", x, y)`. */
  function Dotted(x: int, y: int): string {
    Itoa(x) + "." + Itoa(y)
  }

  /** The length of an `s` placeholder's value: `min`, or drawn first from [min, max). */
  function StringLength(g: Gen, draws: nat -> nat): (n: nat)
    requires ValidGen(g)
    ensures g.min <= n <= g.max && (g.min < g.max ==> n < g.max)
  {
    if g.min != g.max then Intn(draws(0), g.max - g.min) + g.min else g.min
  }

  /** The draws of an `s` placeholder's characters start after the length's draw, if there was one. */
  function CharOffset(g: Gen): nat {
    if g.min != g.max then 1 else 0
  }

  /** The `k`-th character of an `s` placeholder's value. */
  function PoolChar(g: Gen, draws: nat -> nat, k: nat): char {
    CharPool[Intn(draws(CharOffset(g) + k), PoolLen)]
  }

  /** The value of an `s` placeholder: characters drawn from the pool. */
  function StringValue(g: Gen, draws: nat -> nat): string
    requires ValidGen(g)
  {
    seq(StringLength(g, draws), k requires 0 <= k => PoolChar(g, draws, k))
  }

  /** The value of any placeholder, by the kind letter of its name. */
  function Value(g: Gen, draws: nat -> nat): string
    requires ValidGen(g)
  {
    if g.kind == 'i' then IntValue(g, draws)
    else if g.kind == 'f' then FloatValue(g, draws)
    else StringValue(g, draws)
  }

  /** The string replacer: a byte buffer of the drawn length, filled one drawn character at a time. */
  method StringReplacer(g: Gen, draws: nat -> nat) returns (val: string)
    requires ValidGen(g)
    ensures val == StringValue(g, draws)
  {
    var sLen := g.min;
    if g.min != g.max {
      sLen := Intn(draws(0), g.max - g.min) + g.min;
    }
    var buf := new char[sLen];
    for i := 0 to sLen
      invariant forall k :: 0 <= k < i ==> buf[k] == PoolChar(g, draws, k)
    {
      buf[i] := CharPool[Intn(draws(CharOffset(g) + i), PoolLen)];
    }
    val := buf[..];
  }

  /** One replacer call: the string kind fills its buffer, the others format numbers. */
  method Replacer(g: Gen, draws: nat -> nat) returns (val: string)
    requires ValidGen(g)
    ensures val == Value(g, draws)
  {
    if g.kind == 'i' {
      val := IntValue(g, draws);
    } else if g.kind == 'f' {
      val := FloatValue(g, draws);
    } else {
      val := StringReplacer(g, draws);
    }
  }

  // ------------------------------------------------------------ what the values look like

  /** An `i` value is the decimal text of a number in the range: below `max` unless the range is one value. */
  lemma IntValueInRange(g: Gen, draws: nat -> nat)
    requires ValidGen(g)
    ensures AllDigits(IntValue(g, draws))
    ensures g.min <= DecimalToNat(IntValue(g, draws)) <= g.max
    ensures g.min < g.max ==> DecimalToNat(IntValue(g, draws)) < g.max
  {
  }

  /** An `f` value is a whole part in the range, a dot, and a fraction part below 99 printed without padding. */
  lemma FloatValueInRange(g: Gen, draws: nat -> nat)
    requires ValidGen(g)
    ensures exists w, f ::
      && FloatValue(g, draws) == w + "." + f && AllDigits(w) && AllDigits(f)
      && g.min <= DecimalToNat(w) <= g.max && (g.min < g.max ==> DecimalToNat(w) < g.max)
      && DecimalToNat(f) < 99
  {
    if g.max == g.min {
      DottedParts(g.min, Intn(draws(0), 99), g.min, g.max);
    } else {
      DottedParts(Intn(draws(0), g.max - g.min) + g.min, Intn(draws(1), 99), g.min, g.max);
    }
  }

  /** The text `%d.%d` of a whole part in [lo, hi] and a fraction part below 99 splits back into them. */
  lemma DottedParts(x: int, y: int, lo: int, hi: int)
    requires 0 <= lo <= x <= hi && (lo < hi ==> x < hi) && 0 <= y < 99
    ensures exists w, f ::
      && Dotted(x, y) == w + "." + f && AllDigits(w) && AllDigits(f)
      && lo <= DecimalToNat(w) <= hi && (lo < hi ==> DecimalToNat(w) < hi)
      && DecimalToNat(f) < 99
  {
    var w, f := Itoa(x), Itoa(y);
    assert Dotted(x, y) == w + "." + f && AllDigits(w) && AllDigits(f) && DecimalToNat(w) == x && DecimalToNat(f) == y;
  }

  /** An `s` value has a length in the range and only characters of the pool, never its last one, '9'. */
  lemma StringValueInRange(g: Gen, draws: nat -> nat)
    requires ValidGen(g)
    ensures var v := StringValue(g, draws);
      && g.min <= |v| <= g.max && (g.min < g.max ==> |v| < g.max)
      && (forall k :: 0 <= k < |v| ==> v[k] in Drawable)
      && '9' !in v
  {
    var v := StringValue(g, draws);
    DrawnPool();
    forall k | 0 <= k < |v| ensures v[k] in Drawable {
      var j := Intn(draws(CharOffset(g) + k), PoolLen);
      assert v[k] == CharPool[j] == Drawable[j];
    }
  }

  /** The characters that can be drawn are the pool without its final '9'. */
  lemma DrawnPool()
    ensures CharPool[..PoolLen] == Drawable
    ensures '9' !in Drawable
  {
    assert CharPool[..PoolLen] == Drawable;
    assert '9' !in Lower;
    assert '9' !in Upper;
    assert '9' !in "012345678";
  }
}
