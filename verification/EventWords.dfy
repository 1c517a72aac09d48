/**
  The packed words of Leo's campaign events: packed by the contract in Rust, unpacked by the indexer in
  Go. Both sides are modelled on integers, with the shifts, the bitwise or and every width conversion
  written out: the contract casts a signed tick to 32 unsigned bits, and the indexer cuts it out of the
  word through a signed 64-bit and then a signed 32-bit conversion.
 */
module EventWords {
  import opened Words
  import opened Powers

  const TWO32: nat := 0x1_0000_0000
  const TWO64: nat := 0x1_0000_0000_0000_0000
  const TWO128: nat := 0x1_0000_0000_0000_0000_0000_0000_0000_0000
  const TWO160: nat := 0x1_0000_0000_0000_0000_0000_0000_0000_0000_0000_0000
  const TWO192: nat := 0x1_0000_0000_0000_0000_0000_0000_0000_0000_0000_0000_0000_0000
  const TWO224: nat := 0x1_0000_0000_0000_0000_0000_0000_0000_0000_0000_0000_0000_0000_0000_0000

  /** An account address of 160 bits. */
  type Owner = n: nat | n < 0x1_0000_0000_0000_0000_0000_0000_0000_0000_0000_0000

  // --- Packing (Rust) --------------------------------------------------------------------------

  /** Bitwise or. */
  function Or(a: nat, b: nat): nat
  {
    if a == 0 then b
    else if b == 0 then a
    else 2 * Or(a / 2, b / 2) + (if a % 2 == 1 || b % 2 == 1 then 1 else 0)
  }

  /** A left shift of a 256-bit word, as a multiplication by a power of two; bits shifted out are lost. */
  function ShiftLeft(w: U256, power: nat): nat
  {
    w * power % MOD256
  }

  /** The cast of an i32 to u32. */
  function AsU32(t: I32): nat
  {
    if t < 0 then t + TWO32 else t
  }

  function PackDetails(tickLower: I32, tickUpper: I32, owner: Owner): nat
  {
    Or(Or(ShiftLeft(AsU32(tickLower), TWO192), ShiftLeft(AsU32(tickUpper), TWO160)), owner)
  }

  function PackTimes(starting: U64, ending: U64): nat
  {
    Or(ShiftLeft(starting, TWO64), ending)
  }

  function PackExtras(tickLower: I32, tickUpper: I32, starting: U64, ending: U64): nat
  {
    Or(Or(Or(ShiftLeft(AsU32(tickLower), TWO160), ShiftLeft(AsU32(tickUpper), TWO128)), ShiftLeft(starting, TWO64)), ending)
  }

  // --- Unpacking (Go) --------------------------------------------------------------------------

  /** big.Int.Int64: the low 64 bits, read as a signed number. */
  function Int64(x: nat): int
  {
    var low := x % TWO64;
    if low < 0x8000_0000_0000_0000 then low else low - TWO64
  }

  /** The conversion of an int64 to int32: the low 32 bits, read as a signed number. */
  function Int32(y: int): I32
  {
    var low := y % TWO32;
    if low < 0x8000_0000 then low else low - TWO32
  }

  /** big.Int.Uint64: the low 64 bits. */
  function Uint64(x: nat): U64
  {
    x % TWO64
  }

  /** BigToAddress: the last twenty bytes. */
  function BigToAddress(x: nat): Owner
  {
    x % TWO160
  }

  function UnpackDetails(w: nat): (I32, I32, Owner)
  {
    (Int32(Int64(w / TWO192)), Int32(Int64(w / TWO160)), BigToAddress(w))
  }

  function UnpackTimes(w: nat): (U64, U64)
  {
    (Uint64(w / TWO64), Uint64(w))
  }

  function UnpackExtras(w: nat): (I32, I32, U64, U64)
  {
    (Int32(Int64(w / TWO160)), Int32(Int64(w / TWO128)), Uint64(w / TWO64), Uint64(w))
  }

  // --- Signed conversions ----------------------------------------------------------------------

  /** Through both signed conversions the indexer reads the low 32 bits. */
  lemma TickOfField(x: nat)
    ensures AsU32(Int32(Int64(x))) == x % TWO32
  {
    var k := if x % TWO64 < 0x8000_0000_0000_0000 then x / TWO64 else x / TWO64 + 1;
    assert Int64(x) == x - k * TWO64;
    hide Int64;
    SameLowBits(x, k);
    CastOfInt32(Int64(x));
  }

  lemma SameLowBits(x: int, k: int)
    ensures (x - k * TWO64) % TWO32 == x % TWO32
  {
    assert k * TWO64 == (k * TWO32) * TWO32;
  }

  lemma CastOfInt32(y: int)
    ensures AsU32(Int32(y)) == y % TWO32
  {
  }

  /** A tick cast by the contract is read back by the indexer, whatever lies above its 32 bits. */
  lemma TickRoundTrip(t: I32, x: nat)
    requires x % TWO32 == AsU32(t)
    ensures Int32(Int64(x)) == t
  {
    hide Int64;
    TickOfField(x);
  }

  /** Every conversion keeps the low bits of two's complement: it changes a number by a multiple of its range. */
  lemma ConversionsAreCongruent(t: I32, x: nat, y: int)
    ensures 0 <= AsU32(t) < TWO32 && AsU32(t) % TWO32 == t % TWO32
    ensures -0x8000_0000_0000_0000 <= Int64(x) < 0x8000_0000_0000_0000 && Int64(x) % TWO64 == x % TWO64
    ensures Int32(y) % TWO32 == y % TWO32
  {
  }

  // --- Or and shift as sums --------------------------------------------------------------------

  /** Oring a field below a multiple of its size adds it. */
  lemma {:induction false} OrIsSum(a: nat, b: nat, k: nat)
    requires b < Pow(2, k)
    ensures Or(a * Pow(2, k), b) == a * Pow(2, k) + b
    decreases k
  {
    if k > 0 {
      var x := a * Pow(2, k);
      HalfMultiple(a, Pow(2, k - 1));
      assert Pow(2, k) == 2 * Pow(2, k - 1);
      OrIsSum(a, b / 2, k - 1);
      if x != 0 && b != 0 {
        assert Or(x, b) == 2 * Or(x / 2, b / 2) + b % 2;
      }
    }
  }

  lemma HalfMultiple(a: nat, p: nat)
    ensures a * (2 * p) / 2 == a * p && a * (2 * p) % 2 == 0
  {
    assert a * (2 * p) == 2 * (a * p);
  }

  lemma SixteenBits()
    ensures Pow(2, 16) == 0x1_0000
  {
    assert Pow(2, 4) == 16;
    PowAdd(2, 4, 4);
    PowAdd(2, 8, 8);
  }

  lemma PowersOfTwo()
    ensures Pow(2, 64) == TWO64 && Pow(2, 128) == TWO128 && Pow(2, 160) == TWO160 && Pow(2, 192) == TWO192
    ensures Pow(2, 256) == MOD256
  {
    hide Pow;
    SixteenBits();
    PowAdd(2, 16, 16);
    PowAdd(2, 32, 32);
    PowAdd(2, 64, 64);
    PowAdd(2, 128, 32);
    PowAdd(2, 128, 64);
    PowAdd(2, 128, 128);
  }

  /** A shifted field with another one below it. */
  lemma OrField(field: nat, size: nat, low: nat, k: nat, power: nat)
    requires power == Pow(2, k) && low < power && field < size && size * power <= MOD256
    ensures field * power % MOD256 == field * power
    ensures Or(field * power, low) == field * power + low
    ensures field * power + low < size * power
  {
    hide Or, Pow;
    OrIsSum(field, low, k);
    MulMonotone(field + 1, size, power, power);
    assert (field + 1) * power == field * power + power;
  }

  lemma DetailsIsSum(l: I32, u: I32, o: Owner)
    ensures PackDetails(l, u, o) == AsU32(l) * TWO192 + AsU32(u) * TWO160 + o
  {
    hide Or, Pow;
    PowersOfTwo();
    var lower, upper := AsU32(l), AsU32(u);
    OrField(upper, TWO32, 0, 160, TWO160);
    OrField(lower, TWO32, upper * TWO160, 192, TWO192);
    OrField(lower * TWO32 + upper, TWO64, o, 160, TWO160);
  }

  lemma TimesIsSum(s: U64, e: U64)
    ensures PackTimes(s, e) == s * TWO64 + e
  {
    hide Or, Pow;
    PowersOfTwo();
    OrField(s, TWO64, e, 64, TWO64);
  }

  lemma ExtrasIsSum(l: I32, u: I32, s: U64, e: U64)
    ensures PackExtras(l, u, s, e) == AsU32(l) * TWO160 + AsU32(u) * TWO128 + s * TWO64 + e
  {
    hide Or, Pow;
    PowersOfTwo();
    var lower, upper := AsU32(l), AsU32(u);
    OrField(upper, TWO32, 0, 128, TWO128);
    OrField(lower, TWO32, upper * TWO128, 160, TWO160);
    OrField(s, TWO64, 0, 64, TWO64);
    OrField(lower * TWO32 + upper, TWO64, s * TWO64, 128, TWO128);
    OrField((lower * TWO32 + upper) * TWO64 + s, TWO128, e, 64, TWO64);
  }

  // --- Round trips -----------------------------------------------------------------------------

  /** The field above a power of two and the rest below it. */
  lemma CutField(high: nat, low: nat, power: nat)
    requires low < power
    ensures (high * power + low) / power == high && (high * power + low) % power == low
  {
    var n := high * power + low;
    var q, r := n / power, n % power;
    assert n == q * power + r;
    if q < high {
      MulMonotone(q + 1, high, power, power);
      assert false;
    } else if high < q {
      MulMonotone(high + 1, q, power, power);
      assert false;
    }
  }

  /** Signed ticks and the owner come out of the details word as they went in. */
  lemma DetailsRoundTrip(tickLower: I32, tickUpper: I32, owner: Owner)
    ensures UnpackDetails(PackDetails(tickLower, tickUpper, owner)) == (tickLower, tickUpper, owner)
  {
    hide PackDetails, Int32, Int64;
    var l, u := AsU32(tickLower), AsU32(tickUpper);
    DetailsIsSum(tickLower, tickUpper, owner);
    CutField(l, u * TWO160 + owner, TWO192);
    CutField(l * TWO32 + u, owner, TWO160);
    CutField(l, u, TWO32);
    CutField(0, l, TWO32);
    TickRoundTrip(tickLower, l);
    TickRoundTrip(tickUpper, l * TWO32 + u);
  }

  lemma TimesRoundTrip(starting: U64, ending: U64)
    ensures UnpackTimes(PackTimes(starting, ending)) == (starting, ending)
  {
    hide PackTimes;
    TimesIsSum(starting, ending);
    CutField(starting, ending, TWO64);
    CutField(0, starting, TWO64);
  }

  /** Signed ticks and both times come out of the extras word as they went in. */
  lemma ExtrasRoundTrip(tickLower: I32, tickUpper: I32, starting: U64, ending: U64)
    ensures UnpackExtras(PackExtras(tickLower, tickUpper, starting, ending)) == (tickLower, tickUpper, starting, ending)
  {
    hide PackExtras, Int32, Int64;
    var l, u := AsU32(tickLower), AsU32(tickUpper);
    ExtrasIsSum(tickLower, tickUpper, starting, ending);
    CutField(l, u * TWO128 + starting * TWO64 + ending, TWO160);
    CutField(l * TWO32 + u, starting * TWO64 + ending, TWO128);
    CutField((l * TWO32 + u) * TWO64 + starting, ending, TWO64);
    CutField(l * TWO32 + u, starting, TWO64);
    CutField(l, u, TWO32);
    CutField(0, l, TWO32);
    TickRoundTrip(tickLower, l);
    TickRoundTrip(tickUpper, l * TWO32 + u);
  }

  /** The bits of a word up to a field and those of the field. */
  lemma TakeField(n: nat, power: nat, size: nat)
    requires 0 < power && 0 < size
    ensures n % (power * size) == n / power % size * power + n % power
    ensures n / (power * size) == n / power / size
  {
    var q: nat := n / power;
    var high: nat, field: nat, low: nat := q / size, q % size, n % power;
    Divided(n, power);
    Divided(q, size);
    Gathered(high, field, low, size, power);
    CutField(high, field * power + low, power * size);
  }

  lemma Divided(n: nat, d: nat)
    requires 0 < d
    ensures n == n / d * d + n % d && n % d < d
  {
  }

  lemma Gathered(high: nat, field: nat, low: nat, size: nat, power: nat)
    requires field < size && low < power
    ensures (high * size + field) * power + low == high * (power * size) + (field * power + low)
    ensures field * power + low < power * size
  {
    Associate(high, size, power);
    assert (high * size + field) * power == high * size * power + field * power;
    MulMonotone(field + 1, size, power, power);
    assert (field + 1) * power == field * power + power;
  }

  lemma Associate(a: nat, b: nat, c: nat)
    ensures a * b * c == a * (c * b)
  {
  }

  /** Unpacking and packing again gives the word back exactly when it uses no bit above the fields. */
  lemma DetailsWords(w: U256)
    ensures var (l, u, o) := UnpackDetails(w);
            PackDetails(l, u, o) == w <==> w < TWO224
  {
    hide PackDetails, Int32, Int64, AsU32;
    var (l, u, o) := UnpackDetails(w);
    DetailsIsSum(l, u, o);
    TickOfField(w / TWO192);
    TickOfField(w / TWO160);
    TakeField(w, TWO160, TWO32);
    TakeField(w, TWO192, TWO32);
    WholeWord(w, TWO224);
  }

  lemma TimesWords(w: U256)
    ensures var (s, e) := UnpackTimes(w);
            PackTimes(s, e) == w <==> w < TWO128
  {
    hide PackTimes;
    var (s, e) := UnpackTimes(w);
    TimesIsSum(s, e);
    TakeField(w, TWO64, TWO64);
    WholeWord(w, TWO128);
  }

  lemma ExtrasWords(w: U256)
    ensures var (l, u, s, e) := UnpackExtras(w);
            PackExtras(l, u, s, e) == w <==> w < TWO192
  {
    hide PackExtras, Int32, Int64, AsU32;
    var (l, u, s, e) := UnpackExtras(w);
    ExtrasIsSum(l, u, s, e);
    TickOfField(w / TWO160);
    TickOfField(w / TWO128);
    TakeField(w, TWO64, TWO64);
    TakeField(w, TWO128, TWO32);
    TakeField(w, TWO160, TWO32);
    WholeWord(w, TWO192);
  }

  lemma WholeWord(w: nat, power: nat)
    requires 0 < power
    ensures w % power == w <==> w < power
  {
  }
}
