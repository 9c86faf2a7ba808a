/** Index keys: byte strings whose order is the order of the values they are built from. */
module IndexKey {
  type Bytes = seq<nat>

  const MIN_INT64 := -0x8000_0000_0000_0000
  const MAX_INT64 := 0x7FFF_FFFF_FFFF_FFFF
  const BEGINNING_OF_TIME_MICRO := -62135596800000000

  const MINUS: nat := 45
  const ZERO: nat := 48
  const SPACE: nat := 32

  /** The order in which the database compares strings. */
  predicate Less(a: Bytes, b: Bytes) {
    b != [] && (a == [] || a[0] < b[0] || (a[0] == b[0] && Less(a[1..], b[1..])))
  }

  lemma {:induction false} LessIsStrict(a: Bytes)
    ensures !Less(a, a)
  {
    if a != [] {
      LessIsStrict(a[1..]);
    }
  }

  lemma {:induction false} LessOfSum(a: Bytes, c: Bytes, b: Bytes, d: Bytes)
    requires |a| == |b|
    ensures Less(a + c, b + d) <==> Less(a, b) || (a == b && Less(c, d))
  {
    if a == [] {
      assert a + c == c && b + d == d;
      LessIsStrict([]);
    } else {
      LessOfSum(a[1..], c, b[1..], d);
      assert (a + c)[1..] == a[1..] + c && (b + d)[1..] == b[1..] + d;
      assert a == [a[0]] + a[1..] && b == [b[0]] + b[1..];
    }
  }

  lemma LessOfOne(x: nat, y: nat)
    ensures Less([x], [y]) <==> x < y
  {
    assert [x][1..] == [] && [y][1..] == [];
  }

  // ---------------------------------------------------------------- decimal digits

  function Pow10(w: nat): nat {
    if w == 0 then 1 else 10 * Pow10(w - 1)
  }

  /** The last `w` decimal digits. */
  function Digits(x: nat, w: nat): (out: Bytes)
    ensures |out| == w
  {
    if w == 0 then [] else Digits(x / 10, w - 1) + [ZERO + x % 10]
  }

  lemma {:induction false} DigitsOrder(x: nat, y: nat, w: nat)
    requires x < Pow10(w) && y < Pow10(w)
    ensures Less(Digits(x, w), Digits(y, w)) <==> x < y
    ensures Digits(x, w) == Digits(y, w) <==> x == y
  {
    if w > 0 {
      DigitsOrder(x / 10, y / 10, w - 1);
      LessOfSum(Digits(x / 10, w - 1), [ZERO + x % 10], Digits(y / 10, w - 1), [ZERO + y % 10]);
      LessOfOne(ZERO + x % 10, ZERO + y % 10);
      assert Digits(x, w)[w - 1] == ZERO + x % 10 && Digits(y, w)[w - 1] == ZERO + y % 10;
      assert Digits(x, w)[..w - 1] == Digits(x / 10, w - 1) && Digits(y, w)[..w - 1] == Digits(y / 10, w - 1);
    }
  }

  predicate AllDigits(s: Bytes) {
    forall i :: 0 <= i < |s| ==> ZERO <= s[i] <= ZERO + 9
  }

  lemma {:induction false} DigitsAreDigits(x: nat, w: nat)
    ensures AllDigits(Digits(x, w))
  {
    if w > 0 {
      DigitsAreDigits(x / 10, w - 1);
    }
  }

  /** Replaces every digit by its complement to nine, and leaves other bytes alone. */
  function Flip(s: Bytes): (out: Bytes)
    ensures |out| == |s|
  {
    if s == [] then []
    else [if ZERO <= s[0] <= ZERO + 9 then 2 * ZERO + 9 - s[0] else s[0]] + Flip(s[1..])
  }

  lemma {:induction false} FlipReverses(a: Bytes, b: Bytes)
    requires |a| == |b| && AllDigits(a) && AllDigits(b)
    ensures Less(Flip(a), Flip(b)) <==> Less(b, a)
  {
    if a != [] {
      FlipReverses(a[1..], b[1..]);
      assert Flip(a)[1..] == Flip(a[1..]) && Flip(b)[1..] == Flip(b[1..]);
    }
  }

  /** The decimal digits without leading zeros. */
  function Decimal(x: nat): Bytes {
    if x < 10 then [ZERO + x] else Decimal(x / 10) + [ZERO + x % 10]
  }

  function Zeros(n: int): Bytes {
    if n <= 0 then [] else [ZERO] + Zeros(n - 1)
  }

  lemma {:induction false} ZerosAreDigits(w: nat)
    ensures Zeros(w) == Digits(0, w)
  {
    if w > 0 {
      ZerosAreDigits(w - 1);
      ZerosEndInZero(w);
    }
  }

  lemma {:induction false} ZerosEndInZero(n: nat)
    requires n > 0
    ensures Zeros(n) == Zeros(n - 1) + [ZERO]
  {
    if n > 1 {
      ZerosEndInZero(n - 1);
    }
  }

  lemma {:induction false} DecimalIsDigits(x: nat, w: nat)
    requires x < Pow10(w) && w > 0
    ensures |Decimal(x)| <= w && Zeros(w - |Decimal(x)|) + Decimal(x) == Digits(x, w)
  {
    if x < 10 {
      ZerosAreDigits(w - 1);
    } else {
      DecimalIsDigits(x / 10, w - 1);
      var zeros := Zeros(w - |Decimal(x)|);
      assert zeros + (Decimal(x / 10) + [ZERO + x % 10]) == (zeros + Decimal(x / 10)) + [ZERO + x % 10];
    }
  }

  /** An integer padded with zeros to twenty characters, its sign included. */
  function Padded(x: int): Bytes {
    if x >= 0 then Zeros(20 - |Decimal(x)|) + Decimal(x) else [MINUS] + Zeros(19 - |Decimal(-x)|) + Decimal(-x)
  }

  lemma PaddedIs(x: int)
    requires IsInt64(x)
    ensures |Padded(x)| == 20 && Padded(x) == if x >= 0 then Digits(x, 20) else [MINUS] + Digits(-x, 19)
  {
    BigPowers();
    if x >= 0 {
      DecimalIsDigits(x, 20);
    } else {
      DecimalIsDigits(-x, 19);
      SignedIsDigits(-x, 19);
    }
  }

  lemma SignedIsDigits(x: nat, w: nat)
    requires |Decimal(x)| <= w && Zeros(w - |Decimal(x)|) + Decimal(x) == Digits(x, w)
    ensures [MINUS] + Zeros(w - |Decimal(x)|) + Decimal(x) == [MINUS] + Digits(x, w)
  {
    SumsAssociate([MINUS], Zeros(w - |Decimal(x)|), Decimal(x));
  }

  lemma SumsAssociate(a: Bytes, b: Bytes, c: Bytes)
    ensures a + b + c == a + (b + c)
  {
  }

  // ---------------------------------------------------------------- integers

  predicate IsInt64(x: int) {
    MIN_INT64 <= x <= MAX_INT64
  }

  /** The absolute value as 64-bit negation gives it: the least integer stays negative. */
  function Magnitude(n: int): int {
    if n == MIN_INT64 then n else if n < 0 then -n else n
  }

  function IntKey(n: int): Bytes {
    if n >= 0 then [ZERO] + Padded(Magnitude(n)) else [MINUS] + Flip(Padded(Magnitude(n)))
  }

  lemma BigPowers()
    ensures Pow10(19) == 10000000000000000000 && Pow10(20) == 100000000000000000000
  {
    assert Pow10(4) == 10000;
    assert Pow10(8) == 100000000;
    assert Pow10(12) == 1000000000000;
    assert Pow10(16) == 10000000000000000;
  }

  lemma LessAfter(x: nat, a: Bytes, y: nat, b: Bytes)
    requires |a| == |b|
    ensures Less([x] + a, [y] + b) <==> x < y || (x == y && Less(a, b))
  {
    LessOfSum([x], a, [y], b);
    LessOfOne(x, y);
  }

  /** Flipped digits after a minus sign are in reverse order. */
  lemma FlippedOrder(x: nat, y: nat, w: nat)
    requires x < Pow10(w) && y < Pow10(w)
    ensures Less([MINUS] + Flip(Digits(x, w)), [MINUS] + Flip(Digits(y, w))) <==> y < x
  {
    DigitsAreDigits(x, w);
    DigitsAreDigits(y, w);
    FlipReverses(Digits(x, w), Digits(y, w));
    DigitsOrder(y, x, w);
    LessAfter(MINUS, Flip(Digits(x, w)), MINUS, Flip(Digits(y, w)));
  }

  lemma NegativeOrder(n: int, m: int)
    requires MIN_INT64 < n < 0 && MIN_INT64 < m < 0
    ensures Less(IntKey(n), IntKey(m)) <==> n < m
  {
    BigPowers();
    PaddedIs(-n);
    PaddedIs(-m);
    FlippedOrder(-n, -m, 20);
  }

  lemma LeastIsLeast(m: int)
    requires MIN_INT64 < m < 0
    ensures Less(IntKey(MIN_INT64), IntKey(m)) && !Less(IntKey(m), IntKey(MIN_INT64))
  {
    PaddedIs(MIN_INT64);
    PaddedIs(-m);
    var a, b := Flip(Padded(MIN_INT64)), Flip(Digits(-m, 20));
    FlippedFirst(-m);
    assert a[0] == MINUS;
    LessAfter(MINUS, a, MINUS, b);
    LessAfter(MINUS, b, MINUS, a);
  }

  lemma FlippedFirst(x: nat)
    ensures Flip(Digits(x, 20))[0] > MINUS
  {
    DigitsAreDigits(x, 20);
    var digits := Digits(x, 20);
    assert ZERO <= digits[0] <= ZERO + 9;
  }

  lemma IntOrder(n: int, m: int)
    requires IsInt64(n) && IsInt64(m)
    ensures |IntKey(n)| == |IntKey(m)| && (Less(IntKey(n), IntKey(m)) <==> n < m)
  {
    PaddedIs(Magnitude(n));
    PaddedIs(Magnitude(m));
    if n >= 0 && m >= 0 {
      BigPowers();
      DigitsOrder(n, m, 20);
      LessAfter(ZERO, Digits(n, 20), ZERO, Digits(m, 20));
    } else if n >= 0 {
      LessAfter(ZERO, Padded(n), MINUS, Flip(Padded(Magnitude(m))));
    } else if m >= 0 {
      LessAfter(MINUS, Flip(Padded(Magnitude(n))), ZERO, Padded(m));
    } else if n == m {
      LessIsStrict(IntKey(n));
    } else if n == MIN_INT64 {
      LeastIsLeast(m);
    } else if m == MIN_INT64 {
      LeastIsLeast(n);
    } else {
      NegativeOrder(n, m);
    }
  }

  // ---------------------------------------------------------------- times, booleans, strings

  /** A time counts from the beginning of the year one, in microseconds. */
  function TimeKey(micros: int): Bytes {
    Padded(micros - BEGINNING_OF_TIME_MICRO)
  }

  predicate IsTime(micros: int) {
    IsInt64(micros) && IsInt64(micros - BEGINNING_OF_TIME_MICRO)
  }

  /** Times are in order, except that times before the year one are in reverse order among themselves. */
  lemma TimeOrder(a: int, b: int)
    requires IsTime(a) && IsTime(b)
    ensures var reversed := a < BEGINNING_OF_TIME_MICRO && b < BEGINNING_OF_TIME_MICRO;
            |TimeKey(a)| == |TimeKey(b)| && (Less(TimeKey(a), TimeKey(b)) <==> if reversed then b < a else a < b)
  {
    PaddedIs(a - BEGINNING_OF_TIME_MICRO);
    PaddedIs(b - BEGINNING_OF_TIME_MICRO);
    var x, y := a - BEGINNING_OF_TIME_MICRO, b - BEGINNING_OF_TIME_MICRO;
    BigPowers();
    if x >= 0 && y >= 0 {
      DigitsOrder(x, y, 20);
    } else if x < 0 && y < 0 {
      DigitsOrder(-x, -y, 19);
      LessAfter(MINUS, Digits(-x, 19), MINUS, Digits(-y, 19));
    } else {
      DigitsAreDigits(if x >= 0 then x else y, 20);
    }
  }

  function BoolKey(b: bool): Bytes {
    [if b then 84 else 70]
  }

  function Spaces(n: nat): (out: Bytes)
    ensures |out| == n
  {
    if n == 0 then [] else [SPACE] + Spaces(n - 1)
  }

  function Upper(s: Bytes): (out: Bytes)
    ensures |out| == |s|
  {
    if s == [] then [] else [if 97 <= s[0] <= 122 then s[0] - 32 else s[0]] + Upper(s[1..])
  }

  /** A string padded with spaces or cut to a fixed length. */
  function StringKey(s: Bytes, length: nat, ignoreCase: bool): (out: Bytes)
    ensures |out| == length
  {
    var padded := (if |s| >= length then s else s + Spaces(length - |s|))[..length];
    if ignoreCase then Upper(padded) else padded
  }

  /** The string without its trailing spaces. */
  function Trim(s: Bytes): (out: Bytes)
    ensures out == [] || out[|out| - 1] != SPACE
  {
    if s != [] && s[|s| - 1] == SPACE then Trim(s[..|s| - 1]) else s
  }

  /** What an index keeps of a string: its first bytes, without their case if so defined, and without
      trailing spaces. */
  function Seen(s: Bytes, length: nat, ignoreCase: bool): Bytes {
    var cut := if |s| >= length then s[..length] else s;
    Trim(if ignoreCase then Upper(cut) else cut)
  }

  function Pad(s: Bytes, n: nat): (out: Bytes)
    requires |s| <= n
    ensures |out| == n
  {
    s + Spaces(n - |s|)
  }

  lemma {:induction false} SpacesEndInSpace(n: nat)
    ensures [SPACE] + Spaces(n) == Spaces(n) + [SPACE]
  {
    if n > 0 {
      SpacesEndInSpace(n - 1);
    }
  }

  lemma {:induction false} PadOfTrim(s: Bytes, n: nat)
    requires |s| <= n
    ensures |Trim(s)| <= n && Pad(Trim(s), n) == Pad(s, n)
  {
    if s != [] && s[|s| - 1] == SPACE {
      var front := s[..|s| - 1];
      PadOfTrim(front, n);
      SpacesEndInSpace(n - |s|);
      SumsAssociate(front, [SPACE], Spaces(n - |s|));
      assert s == front + [SPACE];
    }
  }

  lemma {:induction false} UpperOfSum(a: Bytes, b: Bytes)
    ensures Upper(a + b) == Upper(a) + Upper(b)
  {
    if a == [] {
      assert a + b == b;
    } else {
      UpperOfSum(a[1..], b);
      assert (a + b)[1..] == a[1..] + b;
    }
  }

  lemma {:induction false} UpperOfSpaces(n: nat)
    ensures Upper(Spaces(n)) == Spaces(n)
  {
    if n > 0 {
      UpperOfSpaces(n - 1);
    }
  }

  lemma UpperOfPad(s: Bytes, n: nat)
    requires |s| <= n
    ensures Upper(Pad(s, n)) == Pad(Upper(s), n)
  {
    UpperOfSum(s, Spaces(n - |s|));
    UpperOfSpaces(n - |s|);
  }

  lemma CutIsPadded(s: Bytes, length: nat)
    ensures var cut := if |s| >= length then s[..length] else s;
            (if |s| >= length then s else s + Spaces(length - |s|))[..length] == Pad(cut, length)
  {
  }

  lemma StringKeyIs(s: Bytes, length: nat, ignoreCase: bool)
    ensures |Seen(s, length, ignoreCase)| <= length
    ensures StringKey(s, length, ignoreCase) == Pad(Seen(s, length, ignoreCase), length)
  {
    var cut := if |s| >= length then s[..length] else s;
    CutIsPadded(s, length);
    UpperOfPad(cut, length);
    PadOfTrim(if ignoreCase then Upper(cut) else cut, length);
  }

  /** The first byte that is not a space sorts before a space. */
  predicate Low(s: Bytes) {
    s != [] && (s[0] < SPACE || (s[0] == SPACE && Low(s[1..])))
  }

  /** `b` goes on after `a` with something that sorts before the spaces `a` is padded with. */
  predicate Undercuts(a: Bytes, b: Bytes) {
    |a| < |b| && b[..|a|] == a && Low(b[|a|..])
  }

  predicate IsTrimmed(s: Bytes) {
    s == [] || s[|s| - 1] != SPACE
  }

  lemma {:induction false} PaddedVersusSpaces(b: Bytes, n: nat)
    requires |b| <= n && IsTrimmed(b)
    ensures Less(Pad(b, n), Spaces(n)) <==> Low(b)
    ensures Less(Spaces(n), Pad(b, n)) <==> b != [] && !Low(b)
  {
    if b == [] {
      assert Pad(b, n) == Spaces(n);
      LessIsStrict(Spaces(n));
    } else {
      PaddedVersusSpaces(b[1..], n - 1);
      assert Pad(b, n)[1..] == Pad(b[1..], n - 1) && Spaces(n)[1..] == Spaces(n - 1);
    }
  }

  lemma UndercutsTail(a: Bytes, b: Bytes)
    requires a != [] && b != [] && a[0] == b[0]
    ensures Undercuts(a, b) <==> Undercuts(a[1..], b[1..])
  {
    if |a| < |b| {
      assert b[1..][..|a| - 1] == b[..|a|][1..] && b[1..][|a| - 1..] == b[|a|..];
      assert a == [a[0]] + a[1..] && b[..|a|] == [b[0]] + b[..|a|][1..];
    }
  }

  /** The comparison of two padded strings is exact about the strings. */
  ghost predicate Exact(a: Bytes, b: Bytes, n: nat)
    requires |a| <= n && |b| <= n
  {
    && ((Less(Pad(a, n), Pad(b, n)) <==> Less(a, b)) <==> !Undercuts(a, b) && !Undercuts(b, a))
    && (Pad(a, n) == Pad(b, n) <==> a == b)
  }

  lemma EmptyIsExact(b: Bytes, n: nat)
    requires |b| <= n && IsTrimmed(b)
    ensures Exact([], b, n) && Exact(b, [], n)
  {
    assert Pad([], n) == Spaces(n);
    PaddedVersusSpaces(b, n);
    LessIsStrict(Spaces(n));
    assert b[0..] == b;
  }

  lemma TailIsExact(a: Bytes, b: Bytes, n: nat)
    requires 0 < |a| <= n && 0 < |b| <= n && a[0] == b[0] && Exact(a[1..], b[1..], n - 1)
    ensures Exact(a, b, n)
  {
    PadIs(a, n);
    PadIs(b, n);
    UndercutsTail(a, b);
    UndercutsTail(b, a);
    assert a == [a[0]] + a[1..] && b == [b[0]] + b[1..];
  }

  lemma PadIs(a: Bytes, n: nat)
    requires 0 < |a| <= n
    ensures Pad(a, n)[0] == a[0] && Pad(a, n)[1..] == Pad(a[1..], n - 1) && Pad(a, n) == [a[0]] + Pad(a[1..], n - 1)
  {
  }

  lemma HeadIsExact(a: Bytes, b: Bytes, n: nat)
    requires 0 < |a| <= n && 0 < |b| <= n && a[0] != b[0]
    ensures Exact(a, b, n)
  {
    PadIs(a, n);
    PadIs(b, n);
    assert |a| < |b| ==> b[..|a|][0] == b[0];
    assert |b| < |a| ==> a[..|b|][0] == a[0];
  }

  /** Padded strings are in the order of the strings exactly if neither undercuts the other. */
  lemma {:induction false} PaddedOrder(a: Bytes, b: Bytes, n: nat)
    requires |a| <= n && |b| <= n && IsTrimmed(a) && IsTrimmed(b)
    ensures Exact(a, b, n)
  {
    if a == [] {
      EmptyIsExact(b, n);
    } else if b == [] {
      EmptyIsExact(a, n);
    } else if a[0] == b[0] {
      PaddedOrder(a[1..], b[1..], n - 1);
      TailIsExact(a, b, n);
    } else {
      HeadIsExact(a, b, n);
    }
  }

  /** No control characters: nothing sorts before a space. */
  predicate Printable(s: Bytes) {
    forall i :: 0 <= i < |s| ==> s[i] >= SPACE
  }

  lemma {:induction false} PrintableIsNotLow(s: Bytes)
    requires Printable(s)
    ensures !Low(s)
  {
    if s != [] && s[0] == SPACE {
      PrintableIsNotLow(s[1..]);
    }
  }

  lemma {:induction false} UpperIsPrintable(s: Bytes)
    requires Printable(s)
    ensures Printable(Upper(s))
  {
    if s != [] {
      UpperIsPrintable(s[1..]);
    }
  }

  lemma {:induction false} TrimIsPrintable(s: Bytes)
    requires Printable(s)
    ensures Printable(Trim(s))
  {
    if s != [] && s[|s| - 1] == SPACE {
      TrimIsPrintable(s[..|s| - 1]);
    }
  }

  lemma SeenIsPrintable(s: Bytes, length: nat, ignoreCase: bool)
    requires Printable(s)
    ensures Printable(Seen(s, length, ignoreCase))
  {
    var cut := if |s| >= length then s[..length] else s;
    UpperIsPrintable(cut);
    TrimIsPrintable(if ignoreCase then Upper(cut) else cut);
  }

  lemma SeenWhole(s: Bytes, length: nat)
    requires |s| <= length && IsTrimmed(s)
    ensures Seen(s, length, false) == s
  {
    assert s[..|s|] == s;
  }

  /** A string that goes on with a control character comes later, and its key comes first. */
  lemma ControlCharacterReverses(s: Bytes, x: nat, length: nat)
    requires |s| < length && IsTrimmed(s) && x < SPACE
    ensures Less(s, s + [x])
    ensures Less(StringKey(s + [x], length, false), StringKey(s, length, false))
  {
    var longer := s + [x];
    LessOfSum(s, [], s, [x]);
    assert s + [] == s;
    StringKeyIs(s, length, false);
    StringKeyIs(longer, length, false);
    SeenWhole(s, length);
    SeenWhole(longer, length);
    assert longer[..|s|] == s && longer[|s|..] == [x];
    PaddedOrder(longer, s, length);
    PaddedOrder(s, longer, length);
    NeitherLess(Pad(s, length), Pad(longer, length));
  }

  lemma {:induction false} NeitherLess(a: Bytes, b: Bytes)
    requires |a| == |b|
    ensures a == b <==> !Less(a, b) && !Less(b, a)
  {
    if a != [] {
      NeitherLess(a[1..], b[1..]);
      assert a == [a[0]] + a[1..] && b == [b[0]] + b[1..];
    }
  }

  // ---------------------------------------------------------------- descending order

  function HexDigit(x: nat): nat {
    if x < 10 then ZERO + x else 97 + x - 10
  }

  /** Every byte complemented, and written as two hexadecimal digits. */
  function Descending(s: Bytes): (out: Bytes)
    requires IsBytes(s)
    ensures |out| == 2 * |s|
  {
    if s == [] then [] else HexByte(255 - s[0]) + Descending(s[1..])
  }

  predicate IsBytes(s: Bytes) {
    forall i :: 0 <= i < |s| ==> s[i] < 256
  }

  lemma HexOrder(x: nat, y: nat)
    requires x < 256 && y < 256
    ensures Less(HexByte(x), HexByte(y)) <==> x < y
    ensures HexByte(x) == HexByte(y) <==> x == y
  {
    var a, b := [HexDigit(x / 16), HexDigit(x % 16)], [HexDigit(y / 16), HexDigit(y % 16)];
    assert a == [HexDigit(x / 16)] + [HexDigit(x % 16)] && b == [HexDigit(y / 16)] + [HexDigit(y % 16)];
    LessAfter(HexDigit(x / 16), [HexDigit(x % 16)], HexDigit(y / 16), [HexDigit(y % 16)]);
    LessOfOne(HexDigit(x % 16), HexDigit(y % 16));
    assert a[0] == HexDigit(x / 16) && a[1] == HexDigit(x % 16) && b[0] == HexDigit(y / 16) && b[1] == HexDigit(y % 16);
  }

  function HexByte(x: nat): (out: Bytes)
    ensures |out| == 2
  {
    [HexDigit(x / 16), HexDigit(x % 16)]
  }

  lemma {:induction false} DescendingReverses(a: Bytes, b: Bytes)
    requires |a| == |b| && IsBytes(a) && IsBytes(b)
    ensures Less(Descending(a), Descending(b)) <==> Less(b, a)
  {
    if a != [] {
      DescendingReverses(a[1..], b[1..]);
      HexOrder(255 - a[0], 255 - b[0]);
      LessOfSum(HexByte(255 - a[0]), Descending(a[1..]), HexByte(255 - b[0]), Descending(b[1..]));
    } else {
      LessIsStrict([]);
    }
  }

  // ---------------------------------------------------------------- keys of tuples

  datatype Value = IntV(num: int) | BoolV(flag: bool) | TimeV(micros: int) | StringV(bytes: Bytes)

  datatype FieldType = IntT | BoolT | TimeT | StringT(length: nat, ignoreCase: bool)

  datatype Component = Component(field: nat, fieldType: FieldType, desc: bool)

  predicate HasType(v: Value, t: FieldType) {
    (t.IntT? && v.IntV?) || (t.BoolT? && v.BoolV?) || (t.TimeT? && v.TimeV?) || (t.StringT? && v.StringV?)
  }

  /** 64-bit integers, times whose distance from the year one fits 64 bits, ASCII strings. */
  predicate InRange(v: Value) {
    match v
    case IntV(n) => IsInt64(n)
    case BoolV(_) => true
    case TimeV(t) => IsTime(t)
    case StringV(s) => forall i :: 0 <= i < |s| ==> s[i] < 128
  }

  function AscendingKey(t: FieldType, v: Value): Bytes
    requires HasType(v, t)
  {
    match v
    case IntV(n) => IntKey(n)
    case BoolV(b) => BoolKey(b)
    case TimeV(m) => TimeKey(m)
    case StringV(s) => StringKey(s, t.length, t.ignoreCase)
  }

  lemma {:induction false} SpacesAre(n: nat)
    ensures IsBytes(Spaces(n))
  {
    if n > 0 {
      SpacesAre(n - 1);
    }
  }

  lemma {:induction false} UpperIsBytes(s: Bytes)
    requires IsBytes(s)
    ensures IsBytes(Upper(s))
  {
    if s != [] {
      UpperIsBytes(s[1..]);
    }
  }

  lemma {:induction false} FlipIsBytes(s: Bytes)
    requires IsBytes(s)
    ensures IsBytes(Flip(s))
  {
    if s != [] {
      FlipIsBytes(s[1..]);
    }
  }

  lemma PaddedIsBytes(x: int)
    requires IsInt64(x)
    ensures IsBytes(Padded(x))
  {
    PaddedIs(x);
    if x >= 0 {
      DigitsAreDigits(x, 20);
    } else {
      DigitsAreDigits(-x, 19);
    }
  }

  lemma IntKeyIsBytes(n: int)
    requires IsInt64(n)
    ensures IsBytes(IntKey(n))
  {
    PaddedIsBytes(Magnitude(n));
    FlipIsBytes(Padded(Magnitude(n)));
  }

  lemma StringKeyIsBytes(s: Bytes, length: nat, ignoreCase: bool)
    requires IsBytes(s)
    ensures IsBytes(StringKey(s, length, ignoreCase))
  {
    var spaces := Spaces(if |s| >= length then 0 else length - |s|);
    SpacesAre(|spaces|);
    UpperIsBytes((if |s| >= length then s else s + spaces)[..length]);
  }

  lemma {:induction false} KeyIsBytes(t: FieldType, v: Value)
    requires HasType(v, t) && InRange(v)
    ensures IsBytes(AscendingKey(t, v))
  {
    match v
    case IntV(n) => IntKeyIsBytes(n);
    case BoolV(b) =>
    case TimeV(m) => PaddedIsBytes(m - BEGINNING_OF_TIME_MICRO);
    case StringV(s) => StringKeyIsBytes(s, t.length, t.ignoreCase);
  }

  function ComponentKey(c: Component, v: Value): Bytes
    requires HasType(v, c.fieldType) && InRange(v)
  {
    KeyIsBytes(c.fieldType, v);
    var key := AscendingKey(c.fieldType, v);
    if c.desc then Descending(key) else key
  }

  /** The order of the values themselves, of strings as far as the index keeps them. */
  predicate Before(t: FieldType, u: Value, v: Value)
    requires HasType(u, t) && HasType(v, t)
  {
    match u
    case IntV(n) => n < v.num
    case BoolV(b) => !b && v.flag
    case TimeV(m) => m < v.micros
    case StringV(s) => Less(Seen(s, t.length, t.ignoreCase), Seen(v.bytes, t.length, t.ignoreCase))
  }

  /** The index keeps the same of both values. */
  predicate Same(t: FieldType, u: Value, v: Value)
    requires HasType(u, t) && HasType(v, t)
  {
    match u
    case StringV(s) => Seen(s, t.length, t.ignoreCase) == Seen(v.bytes, t.length, t.ignoreCase)
    case _ => u == v
  }

  /** Not two different times before the year one, and not two strings one of which goes on with
      something that sorts before a space. */
  predicate Faithful(t: FieldType, u: Value, v: Value)
    requires HasType(u, t) && HasType(v, t)
  {
    match u
    case IntV(_) => true
    case BoolV(_) => true
    case TimeV(m) => u == v || m >= BEGINNING_OF_TIME_MICRO || v.micros >= BEGINNING_OF_TIME_MICRO
    case StringV(s) =>
      var a, b := Seen(s, t.length, t.ignoreCase), Seen(v.bytes, t.length, t.ignoreCase);
      !Undercuts(a, b) && !Undercuts(b, a)
  }

  lemma StringOrder(s: Bytes, z: Bytes, length: nat, ignoreCase: bool)
    ensures var a, b := Seen(s, length, ignoreCase), Seen(z, length, ignoreCase);
            var key, key' := StringKey(s, length, ignoreCase), StringKey(z, length, ignoreCase);
            && (key == key' <==> a == b)
            && ((Less(key, key') <==> Less(a, b)) <==> !Undercuts(a, b) && !Undercuts(b, a))
  {
    StringKeyIs(s, length, ignoreCase);
    StringKeyIs(z, length, ignoreCase);
    PaddedOrder(Seen(s, length, ignoreCase), Seen(z, length, ignoreCase), length);
  }

  lemma AscendingOrder(t: FieldType, u: Value, v: Value)
    requires HasType(u, t) && HasType(v, t) && InRange(u) && InRange(v)
    ensures |AscendingKey(t, u)| == |AscendingKey(t, v)|
    ensures (Less(AscendingKey(t, u), AscendingKey(t, v)) <==> Before(t, u, v)) <==> Faithful(t, u, v)
  {
    match u
    case IntV(n) => IntOrder(n, v.num);
    case BoolV(b) => LessOfOne(if b then 84 else 70, if v.flag then 84 else 70);
    case TimeV(m) => TimeOrder(m, v.micros);
    case StringV(s) => StringOrder(s, v.bytes, t.length, t.ignoreCase);
  }

  lemma SameKey(t: FieldType, u: Value, v: Value)
    requires HasType(u, t) && HasType(v, t) && InRange(u) && InRange(v)
    ensures AscendingKey(t, u) == AscendingKey(t, v) <==> Same(t, u, v)
  {
    match u
    case IntV(n) => IntOrder(n, v.num); IntOrder(v.num, n); LessIsStrict(IntKey(n));
    case BoolV(b) =>
    case TimeV(m) => TimeOrder(m, v.micros); TimeOrder(v.micros, m); LessIsStrict(TimeKey(m));
    case StringV(s) => StringOrder(s, v.bytes, t.length, t.ignoreCase);
  }

  /** The order of one component, in its direction. */
  predicate Precedes(c: Component, u: Value, v: Value)
    requires HasType(u, c.fieldType) && HasType(v, c.fieldType)
  {
    if c.desc then Before(c.fieldType, v, u) else Before(c.fieldType, u, v)
  }

  /** The keys of two values are in the order of the values exactly if the values are faithful, and
      equal exactly if the index keeps the same of both. */
  lemma ComponentOrder(c: Component, u: Value, v: Value)
    requires HasType(u, c.fieldType) && HasType(v, c.fieldType) && InRange(u) && InRange(v)
    ensures |ComponentKey(c, u)| == |ComponentKey(c, v)|
    ensures ComponentKey(c, u) == ComponentKey(c, v) <==> Same(c.fieldType, u, v)
    ensures (Less(ComponentKey(c, u), ComponentKey(c, v)) <==> Precedes(c, u, v)) <==> Faithful(c.fieldType, u, v)
  {
    AscendingOrder(c.fieldType, u, v);
    AscendingOrder(c.fieldType, v, u);
    SameKey(c.fieldType, u, v);
    KeyIsBytes(c.fieldType, u);
    KeyIsBytes(c.fieldType, v);
    if c.desc {
      var a, b := AscendingKey(c.fieldType, u), AscendingKey(c.fieldType, v);
      DescendingReverses(a, b);
      DescendingReverses(b, a);
      NeitherLess(a, b);
      NeitherLess(Descending(a), Descending(b));
    }
  }

  predicate Fits(comps: seq<Component>, row: seq<Value>) {
    |row| == |comps| && forall i :: 0 <= i < |comps| ==> HasType(row[i], comps[i].fieldType) && InRange(row[i])
  }

  /** Lexicographic order of the components from `i` on, each in its own direction. */
  predicate RowPrecedes(comps: seq<Component>, u: seq<Value>, v: seq<Value>, i: nat)
    requires Fits(comps, u) && Fits(comps, v) && i <= |comps|
    decreases |comps| - i
  {
    i < |comps|
    && if Same(comps[i].fieldType, u[i], v[i]) then RowPrecedes(comps, u, v, i + 1) else Precedes(comps[i], u[i], v[i])
  }

  /** The first component of which the index keeps a difference is faithful. */
  predicate RowFaithful(comps: seq<Component>, u: seq<Value>, v: seq<Value>, i: nat)
    requires Fits(comps, u) && Fits(comps, v) && i <= |comps|
    decreases |comps| - i
  {
    i < |comps| ==>
      if Same(comps[i].fieldType, u[i], v[i]) then RowFaithful(comps, u, v, i + 1)
      else Faithful(comps[i].fieldType, u[i], v[i])
  }

  function Concat(parts: seq<Bytes>, n: nat): Bytes
    requires n <= |parts|
  {
    if n == 0 then [] else Concat(parts, n - 1) + parts[n - 1]
  }

  function ConcatFrom(parts: seq<Bytes>, i: nat): Bytes
    requires i <= |parts|
    decreases |parts| - i
  {
    if i == |parts| then [] else parts[i] + ConcatFrom(parts, i + 1)
  }

  lemma {:induction false} ConcatSplit(parts: seq<Bytes>, i: nat)
    requires i <= |parts|
    ensures Concat(parts, |parts|) == Concat(parts, i) + ConcatFrom(parts, i)
    decreases |parts| - i
  {
    if i < |parts| {
      ConcatSplit(parts, i + 1);
      SumsAssociate(Concat(parts, i), parts[i], ConcatFrom(parts, i + 1));
    }
  }

  /** Two parts of a key tell what is known about the order of the values. */
  ghost predicate Tells(c: Component, u: Value, v: Value, a: Bytes, b: Bytes)
    requires HasType(u, c.fieldType) && HasType(v, c.fieldType)
  {
    && |a| == |b| && (a == b <==> Same(c.fieldType, u, v))
    && ((Less(a, b) <==> Precedes(c, u, v)) <==> Faithful(c.fieldType, u, v))
  }

  /** Concatenation compares lexicographically. */
  lemma {:induction false} PartsPreserveOrder(comps: seq<Component>, u: seq<Value>, v: seq<Value>, a: seq<Bytes>,
                                              b: seq<Bytes>, i: nat)
    requires Fits(comps, u) && Fits(comps, v) && i <= |comps| == |a| == |b|
    requires forall k :: 0 <= k < |comps| ==> Tells(comps[k], u[k], v[k], a[k], b[k])
    ensures (Less(ConcatFrom(a, i), ConcatFrom(b, i)) <==> RowPrecedes(comps, u, v, i)) <==> RowFaithful(comps, u, v, i)
    decreases |comps| - i
  {
    if i < |comps| {
      PartsPreserveOrder(comps, u, v, a, b, i + 1);
      assert Tells(comps[i], u[i], v[i], a[i], b[i]);
      LessIsStrict(a[i]);
      LessOfSum(a[i], ConcatFrom(a, i + 1), b[i], ConcatFrom(b, i + 1));
    }
  }

  // ---------------------------------------------------------------- building a key

  datatype Result = Key(key: Bytes) | Missing(field: nat) | WrongType(field: nat)

  /** The field is there, with the type the component asks for. */
  predicate Usable(fields: map<nat, Value>, c: Component) {
    c.field in fields && HasType(fields[c.field], c.fieldType)
  }

  ghost predicate AllInRange(fields: map<nat, Value>) {
    forall f :: f in fields ==> InRange(fields[f])
  }

  ghost predicate UsableUpTo(fields: map<nat, Value>, comps: seq<Component>, n: nat)
    requires n <= |comps|
  {
    AllInRange(fields) && forall i :: 0 <= i < n ==> Usable(fields, comps[i])
  }

  /** The values a key is built from. */
  ghost function RowOf(fields: map<nat, Value>, comps: seq<Component>): (row: seq<Value>)
    requires UsableUpTo(fields, comps, |comps|)
    ensures Fits(comps, row)
    ensures forall i :: 0 <= i < |comps| ==> comps[i].field in fields && row[i] == fields[comps[i].field]
  {
    seq(|comps|, i requires 0 <= i < |comps| => assert Usable(fields, comps[i]); fields[comps[i].field])
  }

  type Encoder = (Component, Value) -> Bytes

  /** What each component contributes to the key. */
  function PartsOf(encode: Encoder, fields: map<nat, Value>, comps: seq<Component>): (parts: seq<Bytes>)
    ensures |parts| == |comps|
  {
    seq(|comps|, i requires 0 <= i < |comps| =>
      if comps[i].field in fields then encode(comps[i], fields[comps[i].field]) else [])
  }

  method BuildKeyWith(encode: Encoder, fields: map<nat, Value>, comps: seq<Component>) returns (r: Result)
    requires AllInRange(fields)
    ensures r.Key? <==> UsableUpTo(fields, comps, |comps|)
    ensures r.Key? ==> r.key == Concat(PartsOf(encode, fields, comps), |comps|)
    ensures r.Missing? ==> r.field !in fields
    ensures r.WrongType? ==> r.field in fields
  {
    var keyBuffer: Bytes := [];
    for i := 0 to |comps|
      invariant UsableUpTo(fields, comps, i) && keyBuffer == Concat(PartsOf(encode, fields, comps), i)
    {
      var c := comps[i];
      if c.field !in fields {
        return Missing(c.field);
      }
      if !HasType(fields[c.field], c.fieldType) {
        return WrongType(c.field);
      }
      keyBuffer := keyBuffer + encode(c, fields[c.field]);
    }
    return Key(keyBuffer);
  }

  function Encode(c: Component, v: Value): Bytes {
    if HasType(v, c.fieldType) && InRange(v) then ComponentKey(c, v) else []
  }

  function KeyOf(fields: map<nat, Value>, comps: seq<Component>): Bytes {
    Concat(PartsOf(Encode, fields, comps), |comps|)
  }

  method BuildKey(fields: map<nat, Value>, comps: seq<Component>) returns (r: Result)
    requires AllInRange(fields)
    ensures r.Key? <==> UsableUpTo(fields, comps, |comps|)
    ensures r.Key? ==> r.key == KeyOf(fields, comps)
    ensures r.Missing? ==> r.field !in fields
    ensures r.WrongType? ==> r.field in fields
  {
    r := BuildKeyWith(Encode, fields, comps);
  }

  lemma EncodeTells(c: Component, u: Value, v: Value)
    requires HasType(u, c.fieldType) && HasType(v, c.fieldType) && InRange(u) && InRange(v)
    ensures Tells(c, u, v, Encode(c, u), Encode(c, v))
  {
    ComponentOrder(c, u, v);
  }

  lemma PartIs(encode: Encoder, x: map<nat, Value>, comps: seq<Component>, k: nat)
    requires UsableUpTo(x, comps, |comps|) && k < |comps|
    ensures PartsOf(encode, x, comps)[k] == encode(comps[k], RowOf(x, comps)[k])
  {
  }

  lemma PartsTell(x: map<nat, Value>, y: map<nat, Value>, comps: seq<Component>, k: nat)
    requires UsableUpTo(x, comps, |comps|) && UsableUpTo(y, comps, |comps|) && k < |comps|
    ensures Tells(comps[k], RowOf(x, comps)[k], RowOf(y, comps)[k], PartsOf(Encode, x, comps)[k],
            PartsOf(Encode, y, comps)[k])
  {
    var u, v := RowOf(x, comps)[k], RowOf(y, comps)[k];
    PartIs(Encode, x, comps, k);
    PartIs(Encode, y, comps, k);
    EncodeTells(comps[k], u, v);
  }

  lemma ConcatIs(parts: seq<Bytes>)
    ensures Concat(parts, |parts|) == ConcatFrom(parts, 0)
  {
    ConcatSplit(parts, 0);
    assert Concat(parts, 0) == [];
  }

  /** The keys of two sets of values compare as the values do, component by component, exactly if the
      first difference that the index keeps is faithful. */
  lemma KeysPreserveOrder(x: map<nat, Value>, y: map<nat, Value>, comps: seq<Component>)
    requires UsableUpTo(x, comps, |comps|) && UsableUpTo(y, comps, |comps|)
    ensures (Less(KeyOf(x, comps), KeyOf(y, comps)) <==> RowPrecedes(comps, RowOf(x, comps), RowOf(y, comps), 0))
            <==> RowFaithful(comps, RowOf(x, comps), RowOf(y, comps), 0)
  {
    var a, b := PartsOf(Encode, x, comps), PartsOf(Encode, y, comps);
    forall k | 0 <= k < |comps| ensures Tells(comps[k], RowOf(x, comps)[k], RowOf(y, comps)[k], a[k], b[k]) {
      PartsTell(x, y, comps, k);
    }
    PartsPreserveOrder(comps, RowOf(x, comps), RowOf(y, comps), a, b, 0);
    ConcatIs(a);
    ConcatIs(b);
  }

  /** Printable strings, and times from the year one on. */
  predicate Plain(v: Value) {
    (v.StringV? ==> Printable(v.bytes)) && (v.TimeV? ==> v.micros >= BEGINNING_OF_TIME_MICRO)
  }

  lemma PlainIsFaithful(t: FieldType, u: Value, v: Value)
    requires HasType(u, t) && HasType(v, t) && Plain(u) && Plain(v)
    ensures Faithful(t, u, v)
  {
    if t.StringT? {
      var a, b := Seen(u.bytes, t.length, t.ignoreCase), Seen(v.bytes, t.length, t.ignoreCase);
      SeenIsPrintable(u.bytes, t.length, t.ignoreCase);
      SeenIsPrintable(v.bytes, t.length, t.ignoreCase);
      PrintableIsNotLow(if |a| < |b| then b[|a|..] else a[|b|..]);
    }
  }

  lemma {:induction false} PlainRowIsFaithful(comps: seq<Component>, u: seq<Value>, v: seq<Value>, i: nat)
    requires Fits(comps, u) && Fits(comps, v) && i <= |comps|
    requires forall k :: 0 <= k < |comps| ==> Plain(u[k]) && Plain(v[k])
    ensures RowFaithful(comps, u, v, i)
    decreases |comps| - i
  {
    if i < |comps| {
      PlainRowIsFaithful(comps, u, v, i + 1);
      PlainIsFaithful(comps[i].fieldType, u[i], v[i]);
    }
  }

  /** Without control characters and without times before the year one, keys always keep the order. */
  lemma PlainKeysPreserveOrder(x: map<nat, Value>, y: map<nat, Value>, comps: seq<Component>)
    requires UsableUpTo(x, comps, |comps|) && UsableUpTo(y, comps, |comps|)
    requires forall f :: f in x ==> Plain(x[f])
    requires forall f :: f in y ==> Plain(y[f])
    ensures Less(KeyOf(x, comps), KeyOf(y, comps)) <==> RowPrecedes(comps, RowOf(x, comps), RowOf(y, comps), 0)
  {
    KeysPreserveOrder(x, y, comps);
    PlainRowIsFaithful(comps, RowOf(x, comps), RowOf(y, comps), 0);
  }
}
