/**
  Position keys: a printer and a parser for the pair of a pool address and a position id. Addresses are
  ASCII text, so letter case changes one character at a time and lengths count characters.
 */
module PositionKeys {
  import opened Outcomes
  import opened Powers

  /** Go's `int` on the platforms the program runs on. */
  const INT_LIMIT: int := 0x8000_0000_0000_0000

  predicate IsInt(id: int) { -INT_LIMIT <= id < INT_LIMIT }

  datatype Decoded = NotOk | Key(pool: string, id: int)

  datatype Parsed<T> = Bad | Good(value: T)

  const DIGITS: string := "0123456789abcdef"

  function LowerChar(c: char): char
  {
    if 'A' <= c <= 'Z' then ((c as int) + 32) as char else c
  }

  function Lower(s: string): string
  {
    seq(|s|, i requires 0 <= i < |s| => LowerChar(s[i]))
  }

  /** The `%x` verb on a magnitude: lower-case digits, most significant first, no leading zero. */
  function Hex(n: nat): string
  {
    if n < 16 then [DIGITS[n]] else Hex(n / 16) + [DIGITS[n % 16]]
  }

  /** The `%x` verb on a signed number. */
  function SignedHex(id: int): string
  {
    if id < 0 then "-" + Hex(-id) else Hex(id)
  }

  function EncodeId(pool: string, id: int): string
  {
    Lower(pool) + SignedHex(id)
  }

  function DigitValue(c: char): Parsed<nat>
  {
    if '0' <= c <= '9' then Good((c as int) - ('0' as int))
    else if 'a' <= c <= 'f' then Good((c as int) - ('a' as int) + 10)
    else if 'A' <= c <= 'F' then Good((c as int) - ('A' as int) + 10)
    else Bad
  }

  /** The number that a non-empty run of hexadecimal digits stands for. */
  function Magnitude(s: string): Parsed<nat>
  {
    if s == [] then Bad
    else
      var last := DigitValue(s[|s| - 1]);
      if last.Bad? || |s| == 1 then last
      else
        var rest := Magnitude(s[..|s| - 1]);
        if rest.Bad? then Bad else Good(rest.value * 16 + last.value)
  }

  /** strconv.ParseInt in base 16 with 64 bits: an optional sign, digits, and a range check. */
  function ParseInt(s: string): Parsed<int>
  {
    if s == [] then Bad
    else
      var negative := s[0] == '-';
      var magnitude := Magnitude(if negative || s[0] == '+' then s[1..] else s);
      if magnitude.Bad? then Bad
      else
        var id: int := if negative then -1 * magnitude.value else magnitude.value;
        if IsInt(id) then Good(id) else Bad
  }

  /** The length test is against 40, but the slice takes 42 characters: lengths 40 and 41 panic. */
  function DecodeId(x: string): Outcome<Decoded>
  {
    if |x| < 40 then Ok(NotOk)
    else if |x| < 42 then Panic
    else
      var id := ParseInt(x[42..]);
      if id.Bad? then Ok(NotOk) else Ok(Key(Lower(x[..42]), id.value))
  }

  // --- Letter case -----------------------------------------------------------------------------

  /** Lower case keeps the length, turns every capital into its small letter and leaves the rest alone. */
  lemma LowerMeaning(s: string)
    ensures |Lower(s)| == |s|
    ensures forall k :: 0 <= k < |s| ==> !('A' <= Lower(s)[k] <= 'Z')
    ensures forall k :: 0 <= k < |s| && 'A' <= s[k] <= 'Z' ==>
              Lower(s)[k] as int - 'a' as int == s[k] as int - 'A' as int
    ensures forall k :: 0 <= k < |s| && !('A' <= s[k] <= 'Z') ==> Lower(s)[k] == s[k]
  {
  }

  lemma {:induction false} DigitsCaseBlind(s: string)
    ensures Magnitude(Lower(s)) == Magnitude(s)
    decreases |s|
  {
    if s != [] {
      var init, last := s[..|s| - 1], s[|s| - 1];
      DigitsCaseBlind(init);
      LowerParts(s);
      LastCaseBlind(last);
      hide Lower, LowerChar, DigitValue;
    }
  }

  lemma LowerParts(s: string)
    requires s != []
    ensures |Lower(s)| == |s| && Lower(s)[|s| - 1] == LowerChar(s[|s| - 1]) && Lower(s)[0] == LowerChar(s[0])
    ensures Lower(s)[..|s| - 1] == Lower(s[..|s| - 1]) && Lower(s)[1..] == Lower(s[1..])
  {
  }

  lemma LastCaseBlind(c: char)
    ensures DigitValue(LowerChar(c)) == DigitValue(c)
    ensures (LowerChar(c) == '-' <==> c == '-') && (LowerChar(c) == '+' <==> c == '+')
  {
  }

  /** The parser does not care about the case of digits. */
  lemma CaseBlind(s: string)
    ensures ParseInt(Lower(s)) == ParseInt(s)
  {
    if s != [] {
      LowerParts(s);
      LastCaseBlind(s[0]);
      DigitsCaseBlind(s);
      DigitsCaseBlind(s[1..]);
      hide Lower, LowerChar, Magnitude;
    }
  }

  // --- What is parsed --------------------------------------------------------------------------

  predicate IsHexDigit(c: char)
  {
    '0' <= c <= '9' || 'a' <= c <= 'f' || 'A' <= c <= 'F'
  }

  /** A text stands for a magnitude exactly if it is a non-empty run of hexadecimal digits. */
  lemma {:induction false} MagnitudeDefined(s: string)
    ensures Magnitude(s).Good? <==> s != [] && forall k :: 0 <= k < |s| ==> IsHexDigit(s[k])
    decreases |s|
  {
    if s != [] {
      var rest := s[..|s| - 1];
      MagnitudeDefined(rest);
      assert s == rest + [s[|s| - 1]];
    }
  }

  /** Leading zeros change nothing. */
  lemma {:induction false} LeadingZero(s: string)
    requires s != []
    ensures Magnitude("0" + s) == Magnitude(s)
    decreases |s|
  {
    var all := "0" + s;
    assert all[..|all| - 1] == "0" + s[..|s| - 1] && all[|all| - 1] == s[|s| - 1];
    if |s| > 1 {
      LeadingZero(s[..|s| - 1]);
    } else {
      assert s[..0] == "" && Magnitude("0") == Good(0);
    }
  }

  /** The digits of a signed text. */
  function Unsigned(s: string): string
  {
    if s != [] && (s[0] == '-' || s[0] == '+') then s[1..] else s
  }

  /** Which texts the parser takes, and for which number. */
  lemma ParsedExactly(s: string)
    ensures var n := Magnitude(Unsigned(s));
            && (ParseInt(s).Good? <==>
                  n.Good? && (if s[0] == '-' then n.value <= INT_LIMIT else n.value < INT_LIMIT))
            && (ParseInt(s).Good? ==> ParseInt(s).value == if s[0] == '-' then 0 - n.value as int else n.value)
  {
  }

  /** Which keys decode, which are refused, and which panic. */
  lemma DecodedExactly(x: string)
    ensures DecodeId(x).Panic? <==> |x| == 40 || |x| == 41
    ensures DecodeId(x).Ok? && DecodeId(x).value.Key? <==> |x| >= 42 && ParseInt(x[42..]).Good?
  {
  }

  // --- Printing then parsing -------------------------------------------------------------------

  lemma {:induction false} DigitRoundTrip(d: nat)
    requires d < 16
    ensures DigitValue(DIGITS[d]) == Good(d) && DIGITS[d] != '-' && DIGITS[d] != '+'
  {
    assert d == 0 || d == 1 || d == 2 || d == 3 || d == 4 || d == 5 || d == 6 || d == 7 ||
           d == 8 || d == 9 || d == 10 || d == 11 || d == 12 || d == 13 || d == 14 || d == 15;
  }

  lemma {:induction false} HexRoundTrip(n: nat)
    ensures Magnitude(Hex(n)) == Good(n) && Hex(n) != []
    ensures Hex(n)[0] != '-' && Hex(n)[0] != '+'
  {
    if n < 16 {
      DigitRoundTrip(n);
    } else {
      HexRoundTrip(n / 16);
      DigitRoundTrip(n % 16);
      var s := Hex(n);
      assert s[..|s| - 1] == Hex(n / 16);
    }
  }

  lemma SignedRoundTrip(id: int)
    ensures SignedHex(id) != []
    ensures ParseInt(SignedHex(id)) == if IsInt(id) then Good(id) else Bad
  {
    hide Hex, Magnitude;
    var digits := Hex(if id < 0 then -id else id);
    HexRoundTrip(if id < 0 then -id else id);
    if id < 0 {
      assert SignedHex(id) == "-" + digits && SignedHex(id)[1..] == digits;
    }
  }

  lemma LowerTwice(s: string)
    ensures Lower(Lower(s)) == Lower(s)
  {
  }

  /** Decoding inverts encoding, up to lower case, for every 42-character address and every id. */
  lemma DecodeEncode(pool: string, id: int)
    requires |pool| == 42
    ensures DecodeId(EncodeId(pool, id)) == Ok(if IsInt(id) then Key(Lower(pool), id) else NotOk)
  {
    var x := EncodeId(pool, id);
    assert x[..42] == Lower(pool) && x[42..] == SignedHex(id);
    SignedRoundTrip(id);
    LowerTwice(pool);
  }

  lemma {:induction false} SignedHexInjective(i: int, j: int)
    ensures SignedHex(i) == SignedHex(j) <==> i == j
  {
    HexRoundTrip(if i < 0 then -i else i);
    HexRoundTrip(if j < 0 then -j else j);
    if SignedHex(i) == SignedHex(j) && i < 0 && j < 0 {
      assert SignedHex(i)[1..] == Hex(-i) && SignedHex(j)[1..] == Hex(-j);
    }
  }

  /** Among addresses of one length, two keys agree exactly when the lower-cased addresses and the ids agree. */
  lemma KeyInjective(p: string, i: int, q: string, j: int)
    requires |p| == |q|
    ensures EncodeId(p, i) == EncodeId(q, j) <==> Lower(p) == Lower(q) && i == j
  {
    assert EncodeId(p, i)[..|p|] == Lower(p) && EncodeId(p, i)[|p|..] == SignedHex(i);
    assert EncodeId(q, j)[..|q|] == Lower(q) && EncodeId(q, j)[|q|..] == SignedHex(j);
    SignedHexInjective(i, j);
  }

  // --- The order of the prints -----------------------------------------------------------------

  lemma DigitCode(d: nat)
    requires d < 16
    ensures DIGITS[d] as int == if d < 10 then '0' as int + d else 'a' as int + d - 10
  {
    assert d == 0 || d == 1 || d == 2 || d == 3 || d == 4 || d == 5 || d == 6 || d == 7 ||
           d == 8 || d == 9 || d == 10 || d == 11 || d == 12 || d == 13 || d == 14 || d == 15;
  }

  /** The texts agree before `k`, and there the first has the smaller character. */
  predicate ComesBefore(a: string, b: string, k: nat)
  {
    k < |a| == |b| && a[..k] == b[..k] && a[k] < b[k]
  }

  /**
    Among prints of one length, the smaller number comes first. With the sixteen characters a plain print
    may use, this leaves each digit only one character.
   */
  lemma {:induction false} PrintsInOrder(i: nat, j: nat) returns (k: nat)
    requires i < j && |Hex(i)| == |Hex(j)|
    ensures ComesBefore(Hex(i), Hex(j), k)
    decreases j
  {
    LastDigit(i);
    LastDigit(j);
    hide Hex;
    DigitCode(i % 16);
    DigitCode(j % 16);
    if i / 16 == j / 16 {
      k := LastDiffers(Leading(i), DIGITS[i % 16], DIGITS[j % 16]);
    } else {
      k := PrintsInOrder(i / 16, j / 16);
      OneMoreCharacter(Leading(i), Leading(j), DIGITS[i % 16], DIGITS[j % 16], k);
    }
  }

  /** All digits but the last. */
  function Leading(n: nat): string
  {
    if n < 16 then "" else Hex(n / 16)
  }

  lemma LastDigit(n: nat)
    ensures Hex(n) == Leading(n) + [DIGITS[n % 16]]
    ensures n < 16 <==> |Hex(n)| == 1
    ensures n >= 16 ==> Leading(n) == Hex(n / 16)
  {
    HexRoundTrip(n / 16);
  }

  lemma LastDiffers(a: string, x: char, y: char) returns (k: nat)
    requires x < y
    ensures ComesBefore(a + [x], a + [y], k)
  {
    k := |a|;
    assert (a + [x])[..k] == a == (a + [y])[..k];
  }

  lemma OneMoreCharacter(a: string, b: string, x: char, y: char, k: nat)
    requires ComesBefore(a, b, k)
    ensures ComesBefore(a + [x], b + [y], k)
  {
    assert (a + [x])[..k] == a[..k] && (b + [y])[..k] == b[..k];
  }

  // --- Addresses of different lengths ----------------------------------------------------------

  lemma {:induction false} HexAtMost(n: nat, d: nat)
    requires 0 < d && n < Pow(16, d)
    ensures 0 < |Hex(n)| <= d
    decreases d
  {
    if n >= 16 {
      assert d > 1 && Pow(16, d) == 16 * Pow(16, d - 1);
      HexAtMost(n / 16, d - 1);
    }
  }

  lemma {:induction false} HexAtLeast(n: nat, d: nat)
    requires 0 < d && Pow(16, d - 1) <= n
    ensures d <= |Hex(n)|
    decreases d
  {
    if d > 1 {
      PowPositive(16, d - 2);
      assert Pow(16, d - 1) == 16 * Pow(16, d - 2);
      HexAtLeast(n / 16, d - 1);
    } else {
      HexRoundTrip(n);
    }
  }

  lemma SixteenDigits()
    ensures Pow(16, 15) == 0x1000_0000_0000_0000 && Pow(16, 16) == 0x1_0000_0000_0000_0000
  {
    assert Pow(16, 2) == 256;
    PowAdd(16, 2, 2);
    PowAdd(16, 4, 4);
    PowAdd(16, 8, 4);
    PowAdd(16, 12, 2);
    PowAdd(16, 14, 1);
    PowAdd(16, 15, 1);
  }

  /** The print of a 64-bit id takes from one to seventeen characters. */
  lemma PrintLength(id: int)
    requires IsInt(id)
    ensures 1 <= |SignedHex(id)| <= 17
  {
    SixteenDigits();
    HexAtMost(if id < 0 then -id else id, 16);
  }

  /** An id whose print has exactly `d` digits after the sign. */
  lemma LongId(d: nat) returns (n: int)
    requires 1 <= d <= 16
    ensures 0 < n && IsInt(-n) && |Hex(n)| == d
  {
    n := 8 * Pow(16, d - 1);
    PowPositive(16, d - 1);
    assert Pow(16, d) == 16 * Pow(16, d - 1);
    HexAtMost(n, d);
    HexAtLeast(n, d);
    SixteenDigits();
    PowerOrder(d - 1, 15);
  }

  lemma {:induction false} PowerOrder(d: nat, e: nat)
    requires d <= e
    ensures Pow(16, d) <= Pow(16, e)
    decreases e
  {
    if d < e {
      PowerOrder(d, e - 1);
    }
  }

  lemma {:induction false} HexIsLower(n: nat)
    ensures Lower(Hex(n)) == Hex(n)
  {
    HexIsPlain(n);
  }

  lemma LowerConcat(a: string, b: string)
    ensures Lower(a + b) == Lower(a) + Lower(b)
  {
  }

  lemma LeadingIsLower(n: nat)
    ensures Lower("-" + Leading(n)) == "-" + Leading(n)
  {
    LowerConcat("-", Leading(n));
    assert Lower("-") == "-" && Lower("") == "";
    HexIsLower(n / 16);
  }

  /** Moving all of an id's print but its last digit into the address gives the same key. */
  lemma LastDigitAlone(p: string, n: nat) returns (q: string)
    requires 0 < n
    ensures |q| == |p| + |Hex(n)| && EncodeId(p, 0 - n) == EncodeId(q, n % 16)
  {
    q := p + ("-" + Leading(n));
    LowerConcat(p, "-" + Leading(n));
    LeadingIsLower(n);
    OneDigit(n % 16);
    assert Hex(n) == Leading(n) + [DIGITS[n % 16]];
    hide Lower, Hex, Leading;
    assert EncodeId(p, 0 - n) == Lower(p) + ("-" + (Leading(n) + [DIGITS[n % 16]]));
  }

  /** No two positions with addresses of lengths `m` and `n` and 64-bit ids share a key, unless they are the same. */
  ghost predicate NoCollision(m: nat, n: nat)
  {
    forall p: string, i: int, q: string, j: int ::
      |p| == m && |q| == n && IsInt(i) && IsInt(j) && EncodeId(p, i) == EncodeId(q, j) ==> Lower(p) == Lower(q) && i == j
  }

  lemma Collision(m: nat, n: nat) returns (p: string, i: int, q: string, j: int)
    requires m < n <= m + 16
    ensures |p| == m && |q| == n && IsInt(i) && IsInt(j) && EncodeId(p, i) == EncodeId(q, j)
  {
    var k := LongId(n - m);
    p := seq(m, x => '0');
    q := LastDigitAlone(p, k);
    i, j := -k, k % 16;
  }

  /**
    Exactly which lengths are safe together: equal ones, and those more than sixteen apart, the longest
    print of an id being sixteen characters longer than the shortest.
   */
  lemma LengthsThatCollide(m: nat, n: nat)
    ensures NoCollision(m, n) <==> m == n || m + 16 < n || n + 16 < m
  {
    hide EncodeId, Lower, SignedHex;
    if m < n <= m + 16 {
      var p, i, q, j := Collision(m, n);
      SameLower(p, q);
    } else if n < m <= n + 16 {
      var p, i, q, j := Collision(n, m);
      SameLower(p, q);
    } else {
      forall p: string, i: int, q: string, j: int
        | |p| == m && |q| == n && IsInt(i) && IsInt(j) && EncodeId(p, i) == EncodeId(q, j)
        ensures Lower(p) == Lower(q) && i == j
      {
        KeyLength(p, i);
        KeyLength(q, j);
        KeyInjective(p, i, q, j);
      }
    }
  }

  lemma SameLower(p: string, q: string)
    ensures Lower(p) == Lower(q) ==> |p| == |q|
  {
    assert |Lower(p)| == |p| && |Lower(q)| == |q|;
  }

  lemma KeyLength(p: string, i: int)
    requires IsInt(i)
    ensures |p| + 1 <= |EncodeId(p, i)| <= |p| + 17
  {
    PrintLength(i);
  }

  // --- Parsing then printing -------------------------------------------------------------------

  /** A text that is exactly what the printer writes: lower-case digits, no plus sign, no extra zero. */
  predicate Printed(s: string)
  {
    if s != [] && s[0] == '-' then Plain(s[1..]) && s[1..] != "0" else Plain(s)
  }

  predicate Plain(s: string)
  {
    && s != []
    && (s[0] == '0' ==> |s| == 1)
    && forall k :: 0 <= k < |s| ==> '0' <= s[k] <= '9' || 'a' <= s[k] <= 'f'
  }

  lemma {:induction false} HexIsPlain(n: nat)
    ensures Plain(Hex(n)) && (Hex(n)[0] == '0' ==> n == 0)
  {
    hide Plain;
    if n >= 16 {
      HexIsPlain(n / 16);
      PlainAppend(Hex(n / 16), n % 16);
    } else {
      PlainDigit(n);
    }
  }

  lemma PlainDigit(d: nat)
    requires d < 16
    ensures Plain([DIGITS[d]]) && (DIGITS[d] == '0' ==> d == 0)
  {
  }

  lemma PlainAppend(s: string, d: nat)
    requires Plain(s) && s[0] != '0' && d < 16
    ensures Plain(s + [DIGITS[d]])
  {
    PlainDigit(d);
  }

  lemma PlainPrefix(s: string)
    requires Plain(s) && |s| > 1
    ensures Plain(s[..|s| - 1]) && s[..|s| - 1] != "0"
  {
  }

  lemma DigitPrinted(c: char)
    requires '0' <= c <= '9' || 'a' <= c <= 'f'
    ensures DigitValue(c).Good? && DigitValue(c).value < 16 && DIGITS[DigitValue(c).value] == c
    ensures DigitValue(c).value == 0 ==> c == '0'
  {
    var d := DigitValue(c).value;
    assert d == 0 || d == 1 || d == 2 || d == 3 || d == 4 || d == 5 || d == 6 || d == 7 ||
           d == 8 || d == 9 || d == 10 || d == 11 || d == 12 || d == 13 || d == 14 || d == 15;
  }

  lemma {:induction false} PlainRoundTrip(s: string)
    requires Plain(s)
    ensures Magnitude(s).Good? && Hex(Magnitude(s).value) == s
    ensures Magnitude(s).value == 0 ==> s == "0"
  {
    var rest, last := s[..|s| - 1], s[|s| - 1];
    PlainLast(s);
    MagnitudeUnfold(rest, last);
    assert s == rest + [last];
    hide Plain, DigitValue, Hex, Magnitude;
    if rest == [] {
      OneDigit(DigitValue(last).value);
    } else {
      PlainRoundTrip(rest);
      AppendDigit(Magnitude(rest).value, DigitValue(last).value);
    }
  }

  lemma PlainLast(s: string)
    requires Plain(s)
    ensures var last := s[|s| - 1];
            && DigitValue(last).Good?
            && DigitValue(last).value < 16
            && DIGITS[DigitValue(last).value] == last
            && (DigitValue(last).value == 0 ==> last == '0')
    ensures |s| > 1 ==> Plain(s[..|s| - 1]) && s[..|s| - 1] != "0"
  {
    DigitPrinted(s[|s| - 1]);
    if |s| > 1 {
      PlainPrefix(s);
    }
  }

  lemma MagnitudeUnfold(s: string, c: char)
    requires DigitValue(c).Good?
    ensures s == [] ==> Magnitude(s + [c]) == DigitValue(c)
    ensures s != [] && Magnitude(s).Good? ==> Magnitude(s + [c]) == Good(Magnitude(s).value * 16 + DigitValue(c).value)
  {
    assert (s + [c])[..|s|] == s;
  }

  lemma OneDigit(d: nat)
    requires d < 16
    ensures Hex(d) == [DIGITS[d]]
  {
  }

  lemma AppendDigit(high: nat, low: nat)
    requires 0 < high && low < 16
    ensures Hex(high * 16 + low) == Hex(high) + [DIGITS[low]]
  {
    assert (high * 16 + low) / 16 == high && (high * 16 + low) % 16 == low;
  }

  /** Parsing then printing gives the text back exactly for the texts the printer writes. */
  lemma SignedPrinted(s: string)
    requires ParseInt(s).Good?
    ensures SignedHex(ParseInt(s).value) == s <==> Printed(s)
  {
    hide Hex, Magnitude, DigitValue;
    var id := ParseInt(s).value;
    var n := if id < 0 then -id else id;
    HexIsPlain(n);
    if SignedHex(id) == s && id < 0 {
      assert s[1..] == Hex(n);
    }
    if Printed(s) {
      var digits := if s[0] == '-' then s[1..] else s;
      PlainRoundTrip(digits);
      assert s[0] == '-' ==> s == "-" + digits;
      assert digits[0] != '+';
    }
  }

  /**
    Whatever key decodes, printing the result gives a key that decodes the same; it is the same text
    exactly when the address part is in lower case and the rest is in printed form.
   */
  lemma EncodeDecode(x: string)
    requires DecodeId(x).Ok? && DecodeId(x).value.Key?
    ensures var key := DecodeId(x).value;
            && DecodeId(EncodeId(key.pool, key.id)) == DecodeId(x)
            && (EncodeId(key.pool, key.id) == x <==> Lower(x[..42]) == x[..42] && Printed(x[42..]))
  {
    var key := DecodeId(x).value;
    DecodeEncode(key.pool, key.id);
    LowerTwice(x[..42]);
    SignedPrinted(x[42..]);
    var y := EncodeId(key.pool, key.id);
    assert y[..42] == Lower(x[..42]) && y[42..] == SignedHex(key.id);
    assert x == x[..42] + x[42..];
    hide Lower, SignedHex, Printed, ParseInt;
  }
}
