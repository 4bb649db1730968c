/** The names a pipeline gives its uploads, and why no two of them collide. */
module ObjectName {
  import opened Types
  import opened UploadName

  const TIME_FACTOR: nat := 2654435761
  const COUNTER_FACTOR: nat := 2246822519

  /** What `gmtime` answers. */
  datatype Civil = Civil(year: nat, month: nat, day: nat, hour: nat, minute: nat, second: nat)

  predicate InRange(c: Civil) {
    && c.year <= 9999 && 1 <= c.month <= 12 && 1 <= c.day <= 31
    && c.hour <= 23 && c.minute <= 59 && c.second <= 59
  }

  function Pow10(n: nat): nat { if n == 0 then 1 else 10 * Pow10(n - 1) }

  /** `width` decimal digits of `n`, padded with zeros. */
  function Decimal(n: nat, width: nat): (s: string)
    ensures |s| == width
    ensures forall i :: 0 <= i < width ==> IsDigit(s[i])
  {
    if width == 0 then "" else Decimal(n / 10, width - 1) + ['0' + (n % 10) as char]
  }

  function HexChar(d: nat): char
    requires d < 16
  {
    if d < 10 then '0' + d as char else 'a' + (d - 10) as char
  }

  /** `width` lower-case hexadecimal digits of `n`, padded with zeros. */
  function Hex(n: nat, width: nat): (s: string)
    ensures |s| == width
    ensures forall i :: 0 <= i < width ==> IsLowerHex(s[i])
  {
    if width == 0 then "" else Hex(n / 16, width - 1) + [HexChar(n % 16)]
  }

  function Date(c: Civil): string { Decimal(c.year, 4) + Decimal(c.month, 2) + Decimal(c.day, 2) }

  function Time(c: Civil): string { Decimal(c.hour, 2) + Decimal(c.minute, 2) + Decimal(c.second, 2) }

  function Name(c: Civil, suffix: nat): string {
    "clip-" + Date(c) + "-" + Time(c) + "-" + Hex(suffix, 8) + ".png"
  }

  /** Exclusive or of the low `bits` bits. */
  function Xor(a: nat, b: nat, bits: nat): nat {
    if bits == 0 then 0 else (if a % 2 == b % 2 then 0 else 1) + 2 * Xor(a / 2, b / 2, bits - 1)
  }

  function Pow2(n: nat): nat { if n == 0 then 1 else 2 * Pow2(n - 1) }

  /** The u32 suffix of the upload made at `now` by a pipeline whose counter is
      `counter`; both products wrap modulo 2^32. */
  function Suffix(now: nat, counter: nat): nat {
    Xor(now % U32 * TIME_FACTOR % U32, counter * COUNTER_FACTOR % U32, 32)
  }

  function ObjectName(gmtime: nat -> Civil, now: nat, counter: nat): string {
    Name(gmtime(now), Suffix(now, counter))
  }

  // ----- printing is injective ------------------------------------------------

  lemma {:induction false} DecimalInjective(n: nat, m: nat, width: nat)
    requires n < Pow10(width) && m < Pow10(width) && Decimal(n, width) == Decimal(m, width)
    ensures n == m
  {
    if width > 0 {
      var s, t := Decimal(n, width), Decimal(m, width);
      assert s[..width - 1] == Decimal(n / 10, width - 1) && t[..width - 1] == Decimal(m / 10, width - 1);
      assert s[width - 1] == '0' + (n % 10) as char && t[width - 1] == '0' + (m % 10) as char;
      DecimalInjective(n / 10, m / 10, width - 1);
      assert (s[width - 1] - '0') as int == n % 10 && (t[width - 1] - '0') as int == m % 10;
    }
  }

  lemma {:induction false} HexInjective(n: nat, m: nat, width: nat)
    requires n < Pow2(4 * width) && m < Pow2(4 * width) && Hex(n, width) == Hex(m, width)
    ensures n == m
  {
    if width > 0 {
      var s, t := Hex(n, width), Hex(m, width);
      assert s[..width - 1] == Hex(n / 16, width - 1) && t[..width - 1] == Hex(m / 16, width - 1);
      assert s[width - 1] == HexChar(n % 16) && t[width - 1] == HexChar(m % 16);
      assert Pow2(4 * width) == 2 * Pow2(4 * width - 1) == 4 * Pow2(4 * width - 2)
          == 8 * Pow2(4 * width - 3) == 16 * Pow2(4 * (width - 1));
      HexInjective(n / 16, m / 16, width - 1);
    }
  }

  lemma Pow2Is32()
    ensures Pow2(32) == U32
  {
    assert Pow2(8) == 256 && Pow2(16) == 65536 && Pow2(24) == 16777216;
  }

  lemma DateInjective(c: Civil, d: Civil)
    requires InRange(c) && InRange(d) && Date(c) == Date(d)
    ensures c.year == d.year && c.month == d.month && c.day == d.day
  {
    assert Pow10(2) == 100 && Pow10(4) == 10000 by { assert Pow10(1) == 10 && Pow10(3) == 1000; }
    assert Date(c)[..4] == Decimal(c.year, 4) && Date(d)[..4] == Decimal(d.year, 4);
    assert Date(c)[4..6] == Decimal(c.month, 2) && Date(d)[4..6] == Decimal(d.month, 2);
    assert Date(c)[6..] == Decimal(c.day, 2) && Date(d)[6..] == Decimal(d.day, 2);
    DecimalInjective(c.year, d.year, 4);
    DecimalInjective(c.month, d.month, 2);
    DecimalInjective(c.day, d.day, 2);
  }

  lemma TimeInjective(c: Civil, d: Civil)
    requires InRange(c) && InRange(d) && Time(c) == Time(d)
    ensures c.hour == d.hour && c.minute == d.minute && c.second == d.second
  {
    assert Pow10(2) == 100 by { assert Pow10(1) == 10; }
    assert Time(c)[..2] == Decimal(c.hour, 2) && Time(d)[..2] == Decimal(d.hour, 2);
    assert Time(c)[2..4] == Decimal(c.minute, 2) && Time(d)[2..4] == Decimal(d.minute, 2);
    assert Time(c)[4..] == Decimal(c.second, 2) && Time(d)[4..] == Decimal(d.second, 2);
    DecimalInjective(c.hour, d.hour, 2);
    DecimalInjective(c.minute, d.minute, 2);
    DecimalInjective(c.second, d.second, 2);
  }

  lemma NameParts(c: Civil, x: nat)
    ensures var s := Name(c, x);
            && |s| == 33 && s[..5] == "clip-" && s[13] == '-' && s[20] == '-' && s[29..] == ".png"
            && s[5..13] == Date(c) && s[14..20] == Time(c) && s[21..29] == Hex(x, 8)
  {
  }

  lemma NameInjective(c: Civil, x: nat, d: Civil, y: nat)
    requires InRange(c) && InRange(d) && x < U32 && y < U32
    requires Name(c, x) == Name(d, y)
    ensures c == d && x == y
  {
    NameParts(c, x);
    NameParts(d, y);
    DateInjective(c, d);
    TimeInjective(c, d);
    Pow2Is32();
    HexInjective(x, y, 8);
  }

  // ----- every name is recognised, its temporary form is not -------------------

  lemma Dec2Reads(s: string, at: nat, n: nat)
    requires at + 2 <= |s| && n < 100 && s[at..at + 2] == Decimal(n, 2)
    ensures Dec2(s, at) == n
  {
    assert Decimal(n / 10, 1) == Decimal(n / 10 / 10, 0) + ['0' + (n / 10) as char];
    assert s[at] == s[at..at + 2][0] == '0' + (n / 10) as char;
    assert s[at + 1] == s[at..at + 2][1] == '0' + (n % 10) as char;
  }

  /** Every object name is accepted by the listing filter, and its temporary form is
      not, so a partial upload is invisible to retention. */
  lemma NameIsRecognised(c: Civil, x: nat)
    requires InRange(c)
    ensures IsUploadName(Name(c, x))
    ensures !IsUploadName(".tmp-" + Name(c, x))
  {
    var s := Name(c, x);
    ShapedIsRecognised(c, Hex(x, 8));
    assert (".tmp-" + s)[..5][0] == '.' && "clip-"[0] == 'c';
  }

  /** The number that lower-case hexadecimal digits stand for. */
  function HexValue(s: string): int {
    if s == [] then 0
    else
      var c := s[|s| - 1];
      16 * HexValue(s[..|s| - 1]) + if '0' <= c <= '9' then c as int - '0' as int else c as int - 'a' as int + 10
  }

  lemma {:induction false} HexReads(n: nat, width: nat)
    requires n < Pow2(4 * width)
    ensures HexValue(Hex(n, width)) == n
  {
    if width > 0 {
      assert Pow2(4 * width) == 2 * Pow2(4 * width - 1) == 4 * Pow2(4 * width - 2)
          == 8 * Pow2(4 * width - 3) == 16 * Pow2(4 * (width - 1));
      HexReads(n / 16, width - 1);
      var s := Hex(n, width);
      assert s[..width - 1] == Hex(n / 16, width - 1) && s[width - 1] == HexChar(n % 16);
    }
  }

  /** What can be read off a name: the year, the month and the day, then the hour, the minute and the
      second, and the suffix. */
  lemma NameReads(c: Civil, x: nat)
    requires InRange(c) && x < U32
    ensures var s := Name(c, x);
      && |s| == 33
      && Dec2(s, 5) * 100 + Dec2(s, 7) == c.year && Dec2(s, 9) == c.month && Dec2(s, 11) == c.day
      && Dec2(s, 14) == c.hour && Dec2(s, 16) == c.minute && Dec2(s, 18) == c.second
      && HexValue(s[21..29]) == x
  {
    var s := Name(c, x);
    NameParts(c, x);
    Pow2Is32();
    HexReads(x, 8);
    YearReads(c.year);
    assert s[5..7] == s[5..13][..2] == Decimal(c.year, 4)[..2];
    assert s[7..9] == s[5..13][2..4] == Decimal(c.year, 4)[2..];
    hide Decimal, Name, Hex, HexValue;
    Dec2Reads(s, 5, c.year / 100);
    Dec2Reads(s, 7, c.year % 100);
    TwoDigits(s, c);
  }

  lemma YearReads(n: nat)
    requires n < 10000
    ensures Decimal(n, 4)[..2] == Decimal(n / 100, 2) && Decimal(n, 4)[2..] == Decimal(n % 100, 2)
  {
    assert n / 10 / 10 == n / 100 && n % 100 / 10 % 10 == n / 10 % 10 && n % 100 % 10 == n % 10;
    assert Decimal(n, 4) == Decimal(n / 10, 3) + ['0' + (n % 10) as char];
    assert Decimal(n / 10, 3) == Decimal(n / 10 / 10, 2) + ['0' + (n / 10 % 10) as char];
    assert Decimal(n % 100, 2) == Decimal(n % 100 / 10, 1) + ['0' + (n % 100 % 10) as char];
    assert Decimal(n % 100 / 10, 1) == Decimal(n % 100 / 10 / 10, 0) + ['0' + (n % 100 / 10 % 10) as char];
  }

  /** A date, a time and hexadecimal digits in the shape of an upload name. */
  function Shaped(c: Civil, hex: string): string { "clip-" + Date(c) + "-" + Time(c) + "-" + hex + ".png" }

  ghost predicate Digits16(hex: string) {
    1 <= |hex| <= 64 && forall k :: 0 <= k < |hex| ==> '0' <= hex[k] <= '9' || 'a' <= hex[k] <= 'f'
  }

  lemma ShapedParts(c: Civil, hex: string)
    ensures var s := Shaped(c, hex);
      && |s| == 25 + |hex| && s[..5] == "clip-" && s[13] == '-' && s[20] == '-' && s[|s| - 4..] == ".png"
      && s[5..13] == Date(c) && s[14..20] == Time(c) && s[21..|s| - 4] == hex
  {
  }

  /** Whatever has the shape is recognised. */
  lemma ShapedIsRecognised(c: Civil, hex: string)
    requires InRange(c) && Digits16(hex)
    ensures IsUploadName(Shaped(c, hex))
  {
    var s := Shaped(c, hex);
    ShapedParts(c, hex);
    hide Shaped, Decimal;
    forall i | 5 <= i < 20 && i != 13 ensures IsDigit(s[i]) {
      if i < 13 { assert s[i] == s[5..13][i - 5]; } else { assert s[i] == s[14..20][i - 14]; }
    }
    forall i | 21 <= i < |s| - 4 ensures IsLowerHex(s[i]) {
      assert s[i] == s[21..|s| - 4][i - 21] == hex[i - 21];
    }
    TwoDigits(s, c);
  }

  lemma TwoDigits(s: string, c: Civil)
    requires InRange(c) && 20 <= |s| && s[5..13] == Date(c) && s[14..20] == Time(c)
    ensures Dec2(s, 9) == c.month && Dec2(s, 11) == c.day
    ensures Dec2(s, 14) == c.hour && Dec2(s, 16) == c.minute && Dec2(s, 18) == c.second
  {
    assert s[9..11] == s[5..13][4..6] == Decimal(c.month, 2);
    assert s[11..13] == s[5..13][6..] == Decimal(c.day, 2);
    assert s[14..16] == s[14..20][..2] == Decimal(c.hour, 2);
    assert s[16..18] == s[14..20][2..4] == Decimal(c.minute, 2);
    assert s[18..20] == s[14..20][4..] == Decimal(c.second, 2);
    hide Decimal;
    Dec2Reads(s, 9, c.month);
    Dec2Reads(s, 11, c.day);
    Dec2Reads(s, 14, c.hour);
    Dec2Reads(s, 16, c.minute);
    Dec2Reads(s, 18, c.second);
  }

  lemma Dec2Prints(s: string, at: nat)
    requires at + 2 <= |s| && IsDigit(s[at]) && IsDigit(s[at + 1])
    ensures 0 <= Dec2(s, at) < 100 && Decimal(Dec2(s, at), 2) == s[at..at + 2]
  {
    var n := Dec2(s, at);
    assert Decimal(n, 2) == Decimal(n / 10, 1) + ['0' + (n % 10) as char];
    assert Decimal(n / 10, 1) == Decimal(n / 10 / 10, 0) + ['0' + (n / 10 % 10) as char];
    assert n / 10 == s[at] as int - '0' as int && n % 10 == s[at + 1] as int - '0' as int;
  }

  /** The date and the time that a recognised name shows. */
  lemma RecognisedIsShaped(s: string) returns (c: Civil, hex: string)
    requires IsUploadName(s)
    ensures InRange(c) && Digits16(hex) && s == Shaped(c, hex)
  {
    hide Decimal, Dec2;
    forall i | 5 <= i < 20 && i != 13 ensures IsDigit(s[i]) {
    }
    Dec2Prints(s, 5);
    Dec2Prints(s, 7);
    Dec2Prints(s, 9);
    Dec2Prints(s, 11);
    Dec2Prints(s, 14);
    Dec2Prints(s, 16);
    Dec2Prints(s, 18);
    c := Civil(Dec2(s, 5) * 100 + Dec2(s, 7), Dec2(s, 9), Dec2(s, 11), Dec2(s, 14), Dec2(s, 16), Dec2(s, 18));
    hex := s[21..|s| - 4];
    YearReads(c.year);
    assert Date(c) == s[5..13] by { assert Decimal(c.year, 4) == s[5..7] + s[7..9]; }
    assert Time(c) == s[14..20];
    assert s == s[..5] + s[5..13] + [s[13]] + s[14..20] + [s[20]] + hex + s[|s| - 4..];
  }

  /** A name is recognised exactly when it shows a date and a time, with up to 64 hexadecimal digits. */
  lemma RecognisedAreDated(s: string)
    ensures IsUploadName(s) <==> exists c, hex :: InRange(c) && Digits16(hex) && s == Shaped(c, hex)
  {
    hide IsUploadName, InRange, Digits16, Shaped;
    if IsUploadName(s) {
      var c, hex := RecognisedIsShaped(s);
    }
    forall c, hex | InRange(c) && Digits16(hex) && s == Shaped(c, hex) ensures IsUploadName(s) {
      ShapedIsRecognised(c, hex);
    }
  }

  /** The `k`-th binary digit. */
  function BitAt(x: nat, k: nat): nat { if k == 0 then x % 2 else BitAt(x / 2, k - 1) }

  /** Bit by bit, exclusive or is the sum modulo 2. */
  lemma {:induction false} XorBits(a: nat, b: nat, bits: nat, k: nat)
    requires k < bits
    ensures BitAt(Xor(a, b, bits), k) == (BitAt(a, k) + BitAt(b, k)) % 2
  {
    if 0 < k {
      XorBits(a / 2, b / 2, bits - 1, k - 1);
      assert Xor(a, b, bits) / 2 == Xor(a / 2, b / 2, bits - 1);
    } else {
      assert Xor(a, b, bits) % 2 == (a % 2 + b % 2) % 2;
    }
  }

  /** The suffix of an upload is the exclusive or of two 32-bit products. */
  lemma SuffixBits(now: nat, counter: nat, k: nat)
    requires k < 32
    ensures Suffix(now, counter) < 0x1_0000_0000
    ensures BitAt(Suffix(now, counter), k) ==
      (BitAt(now % 0x1_0000_0000 * 2654435761 % 0x1_0000_0000, k) + BitAt(counter * 2246822519 % 0x1_0000_0000, k)) % 2
  {
    Pow2Is32();
    XorBelow(now % U32 * TIME_FACTOR % U32, counter * COUNTER_FACTOR % U32, 32);
    XorBits(now % U32 * TIME_FACTOR % U32, counter * COUNTER_FACTOR % U32, 32, k);
  }

  // ----- the suffix is injective in the counter ---------------------------------

  /** An odd factor is undone by its inverse modulo 2^32. */
  lemma FactorCancels(x: nat, y: nat, factor: nat, inverse: nat, quotient: nat)
    requires x < U32 && y < U32
    requires factor * inverse == 1 + quotient * U32
    requires x * factor % U32 == y * factor % U32
    ensures x == y
  {
    var p, q := x * factor / U32, y * factor / U32;
    assert (x - y) * factor == (p - q) * U32;
    assert (x - y) * factor * inverse == (p - q) * U32 * inverse;
    assert (x - y) * (factor * inverse) == (p - q) * inverse * U32;
    assert (x - y) * (1 + quotient * U32) == (x - y) + (x - y) * quotient * U32;
    var k := (p - q) * inverse - (x - y) * quotient;
    assert x - y == k * U32;
  }

  lemma {:induction false} XorBelow(a: nat, b: nat, bits: nat)
    ensures Xor(a, b, bits) < Pow2(bits)
  {
    if bits > 0 {
      XorBelow(a / 2, b / 2, bits - 1);
    }
  }

  lemma {:induction false} XorCancels(a: nat, x: nat, y: nat, bits: nat)
    requires x < Pow2(bits) && y < Pow2(bits)
    requires Xor(a, x, bits) == Xor(a, y, bits)
    ensures x == y
  {
    if bits > 0 {
      XorCancels(a / 2, x / 2, y / 2, bits - 1);
    }
  }

  lemma SuffixInjective(now: nat, i: nat, j: nat)
    requires i < U32 && j < U32 && Suffix(now, i) == Suffix(now, j)
    ensures i == j
  {
    Pow2Is32();
    XorCancels(now % U32 * TIME_FACTOR % U32, i * COUNTER_FACTOR % U32, j * COUNTER_FACTOR % U32, 32);
    FactorCancels(i, j, COUNTER_FACTOR, 3066638151, 1604247758);
  }

  /** One pipeline never gives two of its first 2^32 uploads the same name, whatever
      their times. */
  lemma NamesNeverCollide(gmtime: nat -> Civil, now: nat, i: nat, later: nat, j: nat)
    requires i < U32 && j < U32 && i != j
    requires InRange(gmtime(now)) && InRange(gmtime(later))
    requires gmtime(now) == gmtime(later) ==> now == later
    ensures ObjectName(gmtime, now, i) != ObjectName(gmtime, later, j)
  {
    if ObjectName(gmtime, now, i) == ObjectName(gmtime, later, j) {
      var x, y := Suffix(now, i), Suffix(later, j);
      Pow2Is32();
      XorBelow(now % U32 * TIME_FACTOR % U32, i * COUNTER_FACTOR % U32, 32);
      XorBelow(later % U32 * TIME_FACTOR % U32, j * COUNTER_FACTOR % U32, 32);
      NameInjective(gmtime(now), x, gmtime(later), y);
      SuffixInjective(now, i, j);
    }
  }
}
