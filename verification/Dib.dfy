/** Reading a device-independent bitmap in place: the parser, and the copy to BGRA pixels. */
module Dib {
  import opened Types

  const HEADER: nat := 40
  const V4_HEADER: nat := 108
  const BI_RGB: nat := 0
  const BI_BITFIELDS: nat := 3
  const MIN_INT: int := -0x8000_0000

  // ----- little-endian fields -------------------------------------------------------------------

  function U16At(d: Bytes, i: nat): nat
    requires i + 2 <= |d|
  {
    d[i] as nat + 0x100 * d[i + 1] as nat
  }

  function U32At(d: Bytes, i: nat): (r: nat)
    requires i + 4 <= |d|
    ensures r < U32
  {
    d[i] as nat + 0x100 * d[i + 1] as nat + 0x1_0000 * d[i + 2] as nat + 0x100_0000 * d[i + 3] as nat
  }

  function I32At(d: Bytes, i: nat): (r: int)
    requires i + 4 <= |d|
    ensures MIN_INT <= r < -MIN_INT
  {
    var u := U32At(d, i);
    if u < 0x8000_0000 then u else u - U32
  }

  /** `n` units, kept apart from other arithmetic. */
  function Times(n: nat, unit: nat): nat { n * unit }

  lemma TimesNext(n: nat, next: nat, unit: nat)
    requires n < next
    ensures Times(n, unit) + unit <= Times(next, unit)
  {
    ProductBound(n + 1, unit, next, unit);
    assert (n + 1) * unit == n * unit + unit;
  }

  // ----- bits --------------------------------------------------------------------------------------

  function Pow2(n: nat): (r: nat)
    ensures 1 <= r
  {
    if n == 0 then 1 else 2 * Pow2(n - 1)
  }

  function Bit(x: nat, i: nat): nat { x / Pow2(i) % 2 }

  /** The bitwise conjunction of the lowest `n` bits. */
  function And(a: nat, b: nat, n: nat): nat {
    if n == 0 then 0 else (a % 2) * (b % 2) + 2 * And(a / 2, b / 2, n - 1)
  }

  datatype Channel = Channel(mask: nat, shift: nat, bits: nat)

  const NO_CHANNEL := Channel(0, 0, 0)

  /** The mask is one run of `bits` ones above `shift` zeros. */
  ghost predicate Run(c: Channel) { 0 < c.bits && c.shift + c.bits <= 32 && c.mask == (Pow2(c.bits) - 1) * Pow2(c.shift) }

  /** The bits of the channel, read straight from their place. */
  function Field(pixel: nat, c: Channel): nat { pixel / Pow2(c.shift) % Pow2(c.bits) }

  lemma {:induction false} AndOnes(x: nat, bits: nat, n: nat)
    requires bits <= n
    ensures And(x, Pow2(bits) - 1, n) == x % Pow2(bits)
  {
    if bits == 0 {
      AndZero(x, n);
    } else {
      AndOnes(x / 2, bits - 1, n - 1);
      AndStep(x, Pow2(bits - 1) - 1, Pow2(bits - 1), n);
    }
  }

  lemma AndOdd(x: nat, b: nat, n: nat)
    requires n > 0 && b % 2 == 1
    ensures And(x, b, n) == x % 2 + 2 * And(x / 2, b / 2, n - 1)
  {
  }

  lemma AndStep(x: nat, half: nat, p: nat, n: nat)
    requires n > 0 && p > 0 && And(x / 2, half, n - 1) == x / 2 % p
    ensures And(x, 2 * half + 1, n) == x % (2 * p)
  {
    assert (2 * half + 1) % 2 == 1 && (2 * half + 1) / 2 == half;
    AndOdd(x, 2 * half + 1, n);
    hide And;
    ModHalves(x, p);
  }

  lemma {:induction false} AndZero(x: nat, n: nat)
    ensures And(x, 0, n) == 0
  {
    if n > 0 {
      AndZero(x / 2, n - 1);
    }
  }

  lemma HalfOfOnes(bits: nat)
    requires bits > 0
    ensures (Pow2(bits) - 1) % 2 == 1 && (Pow2(bits) - 1) / 2 == Pow2(bits - 1) - 1
  {
  }

  lemma ModHalves(x: nat, p: nat)
    requires p > 0
    ensures x % (2 * p) == x % 2 + 2 * (x / 2 % p)
  {
    var h := x / 2;
    var q, r := h / p, h % p;
    assert h == q * p + r;
    assert x == 2 * h + x % 2;
    assert x == q * (2 * p) + (2 * r + x % 2) by { assert 2 * (q * p) == q * (2 * p); }
    ModUnique(x, 2 * p, q, 2 * r + x % 2);
  }

  lemma MulGrows(d: int, m: int)
    requires m > 0
    ensures d > 0 ==> d * m >= m
    ensures d < 0 ==> d * m <= -m
  {
  }

  lemma ModUnique(x: nat, m: nat, q: nat, r: nat)
    requires m > 0 && x == q * m + r && r < m
    ensures x % m == r && x / m == q
  {
    var d := x / m - q;
    assert x == x / m * m + x % m;
    assert d * m == r - x % m;
    MulGrows(d, m);
  }

  lemma DivHalves(x: nat, p: nat)
    requires p > 0
    ensures x / (2 * p) == x / 2 / p
  {
    var h := x / 2;
    var q, r := h / p, h % p;
    assert h == q * p + r;
    assert x == q * (2 * p) + (2 * r + x % 2) by { assert 2 * (q * p) == q * (2 * p); }
    ModUnique(x, 2 * p, q, 2 * r + x % 2);
  }

  lemma AndEven(x: nat, b: nat, n: nat)
    requires n > 0
    ensures And(x, 2 * b, n) == 2 * And(x / 2, b, n - 1)
  {
    assert 2 * b % 2 == 0 && 2 * b / 2 == b;
  }

  /** Masking a pixel leaves the channel's bits in their place, so shifting reads them. */
  lemma {:induction false} MaskedIsField(pixel: nat, bits: nat, shift: nat, n: nat)
    requires shift + bits <= n
    ensures And(pixel, (Pow2(bits) - 1) * Pow2(shift), n) == pixel / Pow2(shift) % Pow2(bits) * Pow2(shift)
  {
    if shift == 0 {
      AndOnes(pixel, bits, n);
      assert (Pow2(bits) - 1) * Pow2(0) == Pow2(bits) - 1;
    } else {
      var ones, p := Pow2(bits) - 1, Pow2(shift - 1);
      MaskedIsField(pixel / 2, bits, shift - 1, n - 1);
      MaskStep(pixel, ones, p, n, pixel / 2 / p % Pow2(bits));
      DivHalves(pixel, p);
    }
  }

  lemma MaskStep(pixel: nat, ones: nat, p: nat, n: nat, f: nat)
    requires n > 0 && And(pixel / 2, ones * p, n - 1) == f * p
    ensures And(pixel, ones * (2 * p), n) == f * (2 * p)
  {
    AndEven(pixel, ones * p, n);
    Twice(ones, p);
    Twice(f, p);
  }

  lemma Twice(x: nat, p: nat)
    ensures x * (2 * p) == 2 * (x * p)
  {
  }

  lemma ExtractReadsTheField(pixel: nat, c: Channel)
    requires Run(c)
    ensures And(pixel, c.mask, 32) / Pow2(c.shift) == Field(pixel, c)
  {
    MaskedIsField(pixel, c.bits, c.shift, 32);
    ModUnique(Field(pixel, c) * Pow2(c.shift), Pow2(c.shift), Field(pixel, c), 0);
  }

  // ----- channels -----------------------------------------------------------------------------------

  lemma {:induction false} BitsOfOnes(bits: nat, i: nat)
    ensures Bit(Pow2(bits) - 1, i) == if i < bits then 1 else 0
  {
    if bits == 0 {
      ZeroBits(i);
    } else {
      hide Bit, Pow2;
      HalfOfOnes(bits);
      if i == 0 {
        BitZero(Pow2(bits) - 1);
      } else {
        BitHalves(Pow2(bits) - 1, i);
        BitsOfOnes(bits - 1, i - 1);
      }
    }
  }

  lemma {:induction false} BitsShifted(x: nat, shift: nat, i: nat)
    ensures Bit(x * Pow2(shift), i) == if i < shift then 0 else Bit(x, i - shift)
  {
    if shift == 0 {
      assert x * Pow2(0) == x;
    } else {
      var half := x * Pow2(shift - 1);
      Twice(x, Pow2(shift - 1));
      hide Bit;
      assert x * Pow2(shift) == 2 * half;
      if i == 0 {
        BitZero(2 * half);
      } else {
        BitHalves(2 * half, i);
        BitsShifted(x, shift - 1, i - 1);
      }
    }
  }

  /** The bits of a run are exactly those from `shift` up to `shift + bits`. */
  lemma RunBits(bits: nat, shift: nat, i: nat)
    ensures Bit((Pow2(bits) - 1) * Pow2(shift), i) == if shift <= i < shift + bits then 1 else 0
  {
    hide Bit, Pow2;
    BitsShifted(Pow2(bits) - 1, shift, i);
    if shift <= i {
      BitsOfOnes(bits, i - shift);
    }
  }

  lemma BitZero(x: nat)
    ensures Bit(x, 0) == x % 2
  {
  }

  lemma BitHalves(x: nat, i: nat)
    requires i > 0
    ensures Bit(x, i) == Bit(x / 2, i - 1)
  {
    DivHalves(x, Pow2(i - 1));
  }

  lemma ZeroBits(i: nat)
    ensures Bit(0, i) == 0
  {
  }

  lemma {:induction false} SomeBit(x: nat, n: nat)
    requires 0 < x < Pow2(n)
    ensures exists i: nat :: i < n && Bit(x, i) == 1
  {
    BitZero(x);
    if x % 2 == 0 {
      SomeBit(x / 2, n - 1);
      var i: nat :| i < n - 1 && Bit(x / 2, i) == 1;
      BitHalves(x, i + 1);
      assert Bit(x, i + 1) == 1;
    } else {
      assert Bit(x, 0) == 1;
    }
  }

  lemma Pow2Of32()
    ensures Pow2(32) == U32
  {
    assert Pow2(8) == 0x100;
    assert Pow2(16) == 0x1_0000;
    assert Pow2(24) == 0x100_0000;
  }

  ghost predicate IsRun(mask: nat) { exists shift, bits :: Run(Channel(mask, shift, bits)) }

  /** Shift and width of a mask, for masks that are one run of ones and for no other. */
  method DescribeChannel(mask: nat) returns (r: Option<Channel>)
    requires mask < U32
    ensures r.Some? ==> Run(r.value) && r.value.mask == mask
    ensures r.Some? <==> IsRun(mask)
  {
    if mask == 0 {
      NoEmptyRun();
      return None;
    }
    Pow2Of32();
    SomeBit(mask, 32);
    hide Pow2, Bit;
    var shift := 0;
    while shift < 32 && Bit(mask, shift) == 0
      invariant shift <= 32 && forall i :: 0 <= i < shift ==> Bit(mask, i) == 0
    {
      shift := shift + 1;
    }
    var bits := 0;
    while shift + bits < 32 && Bit(mask, shift + bits) == 1
      invariant shift + bits <= 32 && forall i :: shift <= i < shift + bits ==> Bit(mask, i) == 1
    {
      bits := bits + 1;
    }
    var reconstructed := (Pow2(bits) - 1) * Pow2(shift);
    if reconstructed != mask {
      forall s, b ensures !Run(Channel(mask, s, b)) {
        if Run(Channel(mask, s, b)) {
          OnlyRun(mask, shift, bits, s, b);
          assert false;
        }
      }
      return None;
    }
    r := Some(Channel(mask, shift, bits));
    assert Run(r.value);
  }

  lemma NoEmptyRun()
    ensures forall shift, bits :: !Run(Channel(0, shift, bits))
  {
    forall shift, bits ensures !Run(Channel(0, shift, bits)) {
      if bits > 0 {
        RunBits(bits, shift, shift);
        ZeroBits(shift);
      }
    }
  }

  /** The first run of ones in a mask is the only one it can be made of. */
  lemma OnlyRun(mask: nat, shift: nat, bits: nat, s: nat, b: nat)
    requires Run(Channel(mask, s, b))
    requires shift < 32 && shift + bits <= 32 && Bit(mask, shift) != 0
    requires forall i :: 0 <= i < shift ==> Bit(mask, i) == 0
    requires forall i :: shift <= i < shift + bits ==> Bit(mask, i) == 1
    requires shift + bits < 32 ==> Bit(mask, shift + bits) != 1
    ensures s == shift && b == bits
  {
    hide Pow2, Bit;
    RunBits(b, s, s);
    RunBits(b, s, shift);
    RunBits(b, s, shift + bits);
    RunBits(b, s, s + b);
    RunBits(b, s, s + b - 1);
  }

  /** A mask is a run in one way only. */
  lemma RunIsUnique(c: Channel, e: Channel)
    requires Run(c) && Run(e) && c.mask == e.mask
    ensures c == e
  {
    hide Pow2, Bit;
    RunBits(c.bits, c.shift, c.shift);
    RunBits(e.bits, e.shift, c.shift);
    RunBits(c.bits, c.shift, e.shift);
    RunBits(e.bits, e.shift, e.shift);
    RunBits(c.bits, c.shift, c.shift + c.bits);
    RunBits(e.bits, e.shift, c.shift + c.bits);
    RunBits(c.bits, c.shift, e.shift + e.bits);
    RunBits(e.bits, e.shift, e.shift + e.bits);
  }

  // ----- the parser -----------------------------------------------------------------------------------

  /** Where everything lies in the block; `pixels` and `palette` are offsets. */
  datatype Geometry = Geometry(
    width: nat, height: nat, bitcount: nat, stride: nat, topDown: bool, indexed: bool, hasAlpha: bool,
    pixels: nat, palette: nat, entries: nat, red: Channel, green: Channel, blue: Channel, alpha: Channel)

  datatype Header = Header(size: nat, width: nat, height: nat, topDown: bool, bitcount: nat, compression: nat, clrUsed: nat)

  /** The program keeps these sums in 32 bits. */
  function Low32(n: int): nat { n % U32 }

  method ParseDibHeader(d: Bytes) returns (r: Option<Header>)
    ensures r.Some? <==> HEADER <= |d| && HEADER <= U32At(d, 0) <= |d| && I32At(d, 4) != 0 && I32At(d, 8) != 0
    ensures r.Some? ==>
      && r.value.size == U32At(d, 0) && r.value.width == Low32(I32At(d, 4))
      && r.value.topDown == (I32At(d, 8) < 0)
      && r.value.height == (if I32At(d, 8) < 0 then -I32At(d, 8) else I32At(d, 8))
      && r.value.bitcount == U16At(d, 14) && r.value.compression == U32At(d, 16) && r.value.clrUsed == U32At(d, 32)
  {
    if |d| < HEADER {
      return None;
    }
    var size := U32At(d, 0);
    if size < HEADER || |d| < size {
      return None;
    }
    var rawHeight := I32At(d, 8);
    var width := Low32(I32At(d, 4));
    if width == 0 || rawHeight == 0 {
      return None;
    }
    r := Some(Header(size, width, if rawHeight < 0 then -rawHeight else rawHeight, rawHeight < 0,
                     U16At(d, 14), U32At(d, 16), U32At(d, 32)));
  }

  datatype Masks = Masks(red: nat, green: nat, blue: nat, alpha: nat, trailing: nat)

  const X8R8G8B8 := Masks(0x00FF_0000, 0xFF00, 0xFF, 0, 0)
  const X1R5G5B5 := Masks(0x7C00, 0x03E0, 0x001F, 0, 0)

  /** The colour masks stand inside a long header, or right behind a short one. */
  function MasksAt(d: Bytes, size: nat, compression: nat): Option<Masks>
    requires HEADER <= size <= |d|
  {
    if compression != BI_BITFIELDS then Some(Masks(0, 0, 0, 0, 0))
    else if V4_HEADER <= size then Some(Masks(U32At(d, 40), U32At(d, 44), U32At(d, 48), U32At(d, 52), 0))
    else if size != HEADER then Some(Masks(0, 0, 0, 0, 0))
    else if |d| < HEADER + 12 then None
    else Some(Masks(U32At(d, 40), U32At(d, 44), U32At(d, 48), 0, 12))
  }

  method ReadMasks(d: Bytes, h: Header) returns (r: Option<Masks>)
    requires HEADER <= h.size <= |d|
    ensures r == MasksAt(d, h.size, h.compression)
    ensures r.None? <==> h.compression == 3 && h.size == 40 && |d| < 52
    ensures r.Some? ==>
      if h.compression == 3 && (h.size == 40 || 108 <= h.size) then
        && r.value.red == U32At(d, 40) && r.value.green == U32At(d, 44) && r.value.blue == U32At(d, 48)
        && r.value.alpha == (if h.size == 40 then 0 else U32At(d, 52)) && r.value.trailing == (if h.size == 40 then 12 else 0)
      else r.value == Masks(0, 0, 0, 0, 0)
  {
    if V4_HEADER <= h.size && h.compression == BI_BITFIELDS {
      return Some(Masks(U32At(d, 40), U32At(d, 44), U32At(d, 48), U32At(d, 52), 0));
    }
    if h.size == HEADER && h.compression == BI_BITFIELDS {
      if |d| < HEADER + 12 {
        return None;
      }
      return Some(Masks(U32At(d, 40), U32At(d, 44), U32At(d, 48), 0, 12));
    }
    r := Some(Masks(0, 0, 0, 0, 0));
  }

  /** The layouts that are decoded: palettes of 2, 16 and 256 colours, and direct colour in 16,
      24 and 32 bits. */
  predicate Supported(bitcount: nat, compression: nat) {
    if bitcount <= 8 then compression == BI_RGB && (bitcount == 1 || bitcount == 4 || bitcount == 8)
    else (bitcount == 24 && compression == BI_RGB)
         || ((bitcount == 32 || bitcount == 16) && (compression == BI_RGB || compression == BI_BITFIELDS))
  }

  ghost predicate AreRuns(m: Masks) { IsRun(m.red) && IsRun(m.green) && IsRun(m.blue) && (m.alpha != 0 ==> IsRun(m.alpha)) }

  lemma FixedRuns()
    ensures Run(Channel(0x00FF_0000, 16, 8)) && Run(Channel(0xFF00, 8, 8)) && Run(Channel(0xFF, 0, 8))
    ensures Run(Channel(0x7C00, 10, 5)) && Run(Channel(0x03E0, 5, 5)) && Run(Channel(0x001F, 0, 5))
  {
    assert Pow2(5) == 32 && Pow2(8) == 256 && Pow2(10) == 1024;
    assert Pow2(16) == 256 * Pow2(8) by { assert Pow2(12) == 16 * Pow2(8); }
  }

  lemma FixedMasksAreRuns()
    ensures AreRuns(X8R8G8B8) && AreRuns(X1R5G5B5)
  {
    FixedRuns();
    hide Run;
  }

  /** The masks that direct colour is decoded with. */
  function MasksFor(d: Bytes, size: nat, bitcount: nat, compression: nat): Option<Masks>
    requires HEADER <= size <= |d|
  {
    if compression != BI_RGB then MasksAt(d, size, compression)
    else Some(if bitcount == 16 then X1R5G5B5 else X8R8G8B8)
  }

  method DescribeMasks(m: Masks) returns (r: Option<(Channel, Channel, Channel, Option<Channel>)>)
    requires m.red < U32 && m.green < U32 && m.blue < U32 && m.alpha < U32
    ensures r.Some? ==>
      var (red, green, blue, alpha) := r.value;
      && Run(red) && red.mask == m.red && Run(green) && green.mask == m.green && Run(blue) && blue.mask == m.blue
      && (alpha.Some? <==> m.alpha != 0) && (alpha.Some? ==> Run(alpha.value) && alpha.value.mask == m.alpha)
    ensures r.Some? <==> AreRuns(m)
  {
    hide Run, IsRun;
    var red := DescribeChannel(m.red);
    var green := DescribeChannel(m.green);
    var blue := DescribeChannel(m.blue);
    if red.None? || green.None? || blue.None? {
      return None;
    }
    if m.alpha == 0 {
      return Some((red.value, green.value, blue.value, None));
    }
    var alpha := DescribeChannel(m.alpha);
    if alpha.None? {
      return None;
    }
    r := Some((red.value, green.value, blue.value, alpha));
  }

  /** The channels can be read off a pixel. */
  ghost predicate Readable(g: Geometry) {
    !g.indexed ==> Run(g.red) && Run(g.green) && Run(g.blue) && (g.hasAlpha ==> Run(g.alpha))
  }

  function Trailing(size: nat, compression: nat): nat { if size == HEADER && compression == BI_BITFIELDS then 12 else 0 }

  function Entries(bitcount: nat, clrUsed: nat): nat { if clrUsed != 0 then clrUsed else Pow2(bitcount) }

  function PixelOffset(size: nat, bitcount: nat, compression: nat, clrUsed: nat): (r: nat)
    ensures r < U32
  {
    Low32(size + Trailing(size, compression) + if bitcount <= 8 then Low32(Entries(bitcount, clrUsed) * 4) else 0)
  }

  /** The layout is one that is decoded, and its channels are runs of bits. */
  ghost predicate Decodable(d: Bytes, size: nat, bitcount: nat, compression: nat)
    requires HEADER <= size <= |d|
  {
    Supported(bitcount, compression) &&
    (bitcount > 8 ==> MasksFor(d, size, bitcount, compression).Some? && AreRuns(MasksFor(d, size, bitcount, compression).value))
  }

  /** Palette, masks and the offset of the pixels. */
  method ResolveDibLayout(d: Bytes, h: Header) returns (r: Option<Geometry>)
    requires HEADER <= h.size <= |d|
    ensures r.Some? <==> Decodable(d, h.size, h.bitcount, h.compression)
    ensures r.Some? ==>
      var g := r.value;
      && g.width == h.width && g.height == h.height && g.topDown == h.topDown && g.bitcount == h.bitcount
      && (g.indexed <==> h.bitcount <= 8) && Readable(g)
      && (g.indexed ==> g.palette == h.size && g.entries == Entries(h.bitcount, h.clrUsed))
      && (!g.indexed ==> ColoursBy(g, MasksFor(d, h.size, h.bitcount, h.compression).value))
      && g.pixels == PixelOffset(h.size, h.bitcount, h.compression, h.clrUsed)
    ensures r.Some? && !r.value.indexed ==>
      var red, green, blue := r.value.red.mask, r.value.green.mask, r.value.blue.mask;
      if h.compression == 3 then 52 <= |d| && red == U32At(d, 40) && green == U32At(d, 44) && blue == U32At(d, 48)
      else if h.bitcount == 16 then red == 0x7C00 && green == 0x3E0 && blue == 0x1F
      else red == 0xFF_0000 && green == 0xFF00 && blue == 0xFF
  {
    NoEmptyRun();
    hide Run, AreRuns, Pow2;
    var masks := ReadMasks(d, h);
    if masks.None? {
      return None;
    }
    var m := masks.value;
    if !Supported(h.bitcount, h.compression) {
      return None;
    }
    var g := Geometry(h.width, h.height, h.bitcount, 0, h.topDown, false, false,
                      0, 0, 0, NO_CHANNEL, NO_CHANNEL, NO_CHANNEL, NO_CHANNEL);
    if h.bitcount <= 8 {
      var entries := if h.clrUsed != 0 then h.clrUsed else Pow2(h.bitcount);
      return Some(g.(indexed := true, palette := h.size, entries := entries,
                     pixels := Low32(h.size + m.trailing + Low32(entries * 4))));
    }
    FixedMasksAreRuns();
    if h.compression == BI_RGB {
      m := if h.bitcount == 16 then X1R5G5B5 else X8R8G8B8;
    }
    var channels := DescribeMasks(m);
    if channels.None? {
      return None;
    }
    var (red, green, blue, alpha) := channels.value;
    g := g.(red := red, green := green, blue := blue, hasAlpha := alpha.Some?);
    if alpha.Some? {
      g := g.(alpha := alpha.value);
    }
    r := Some(g.(pixels := Low32(h.size + masks.value.trailing)));
  }

  ghost predicate ColoursBy(g: Geometry, m: Masks) {
    && g.red.mask == m.red && g.green.mask == m.green && g.blue.mask == m.blue
    && (g.hasAlpha <==> m.alpha != 0) && (g.hasAlpha ==> g.alpha.mask == m.alpha)
  }

  function Stride(width: nat, bitcount: nat): nat { (width * bitcount + 31) / 32 * 4 }

  /** Bytes needed for the whole image, as the program sums them, in 64 bits. */
  function Needed(pixels: nat, stride: nat, height: nat): nat { (pixels + Times(height, stride)) % U64 }

  /** A block of ordinary size: none of the 32- and 64-bit sums wraps. */
  ghost predicate Ordinary(d: Bytes)
    requires HEADER <= |d|
  {
    |d| < 0x8000_0000 && 0 < I32At(d, 4) && MIN_INT < I32At(d, 8) && U32At(d, 32) <= 256
  }

  /** Rows, palette and pixels lie inside the block. */
  ghost predicate Inside(d: Bytes, g: Geometry) {
    && 0 < g.width && 0 < g.height
    && (g.bitcount == 1 || g.bitcount == 4 || g.bitcount == 8 || g.bitcount == 16 || g.bitcount == 24 || g.bitcount == 32)
    && (g.indexed <==> g.bitcount <= 8)
    && g.stride == Stride(g.width, g.bitcount)
    && g.pixels + Times(g.height, g.stride) <= |d|
    && (g.indexed ==> g.palette + 4 * g.entries <= g.pixels)
    && Readable(g)
  }

  /** The blocks that are accepted. */
  ghost predicate Accepted(d: Bytes) {
    && HEADER <= |d| && HEADER <= U32At(d, 0) <= |d| && I32At(d, 4) != 0 && I32At(d, 8) != 0
    && Decodable(d, U32At(d, 0), U16At(d, 14), U32At(d, 16))
    && var height := if I32At(d, 8) < 0 then -I32At(d, 8) else I32At(d, 8);
       Needed(PixelOffset(U32At(d, 0), U16At(d, 14), U32At(d, 16), U32At(d, 32)),
              Stride(Low32(I32At(d, 4)), U16At(d, 14)), height) <= |d|
  }

  method ParseDib(d: Bytes) returns (r: Option<Geometry>)
    ensures r.Some? <==> Accepted(d)
    ensures r.Some? && Ordinary(d) ==>
      && Inside(d, r.value)
      && r.value.width == I32At(d, 4) && r.value.topDown == (I32At(d, 8) < 0)
      && r.value.height == (if I32At(d, 8) < 0 then -I32At(d, 8) else I32At(d, 8))
      && r.value.bitcount == U16At(d, 14)
      && (r.value.indexed ==> r.value.palette == U32At(d, 0) && r.value.entries == Entries(U16At(d, 14), U32At(d, 32)))
      && (!r.value.indexed ==> ColoursBy(r.value, MasksFor(d, U32At(d, 0), U16At(d, 14), U32At(d, 16)).value))
    // where everything lies
    ensures r.Some? && Ordinary(d) ==> var g, size, bits := r.value, U32At(d, 0), U16At(d, 14);
      && g.stride % 4 == 0 && g.width * bits <= 8 * g.stride < g.width * bits + 32
      && (bits <= 8 ==> g.entries == if U32At(d, 32) != 0 then U32At(d, 32) else if bits == 1 then 2 else if bits == 4 then 16 else 256)
      && g.pixels == size + if bits <= 8 then 4 * g.entries else if size == 40 && U32At(d, 16) == 3 then 12 else 0
    // the masks of a block that brings its own
    ensures r.Some? && Ordinary(d) && U32At(d, 16) == 3 ==> var g := r.value;
      && 52 <= |d| && g.red.mask == U32At(d, 40) && g.green.mask == U32At(d, 44) && g.blue.mask == U32At(d, 48)
      && (108 <= U32At(d, 0) ==> 56 <= |d|)
      && (g.hasAlpha <==> 108 <= U32At(d, 0) && U32At(d, 52) != 0) && (g.hasAlpha ==> g.alpha.mask == U32At(d, 52))
    // the pixels of a block that brings none
    ensures r.Some? && Ordinary(d) && U32At(d, 16) == 0 && U16At(d, 14) == 32 ==> var g := r.value;
      forall row: nat, x: nat :: x < g.width && row + g.stride <= |d| ==>
        row + 4 * x + 4 <= |d| && PixelIn(d, g, row, x) == [d[row + 4 * x], d[row + 4 * x + 1], d[row + 4 * x + 2], 255]
    ensures r.Some? && Ordinary(d) && U32At(d, 16) == 0 && U16At(d, 14) == 16 ==> var g := r.value;
      forall row: nat, x: nat :: x < g.width && row + g.stride <= |d| ==>
        row + 2 * x + 2 <= |d| &&
        var px := d[row + 2 * x] as nat + 0x100 * d[row + 2 * x + 1] as nat;
        var p := PixelIn(d, g, row, x);
        && p[0] as nat == (px % 32 * 255 + 15) / 31
        && p[1] as nat == (px / 32 % 32 * 255 + 15) / 31
        && p[2] as nat == (px / 1024 % 32 * 255 + 15) / 31
        && p[3] == 255
  {
    hide Readable, ColoursBy, AreRuns, Entries, PixelOffset, Stride, Needed, Inside, Run, Pow2, PixelIn, MasksFor, Layout, U16At,
      U32At;
    var header := ParseDibHeader(d);
    if header.None? {
      return None;
    }
    var h := header.value;
    var layout := ResolveDibLayout(d, h);
    if layout.None? {
      return None;
    }
    var stride := Stride(layout.value.width, layout.value.bitcount);
    var needed := Needed(layout.value.pixels, stride, layout.value.height);
    if |d| < needed {
      return None;
    }
    var g := layout.value.(stride := Low32(stride));
    ReadableStays(layout.value, Low32(stride));
    if Ordinary(d) {
      SizesFit(g.width, g.bitcount, g.height, g.pixels, |d|);
      PaletteFits(h, g, |d|);
      AllInside(d, g);
      PlainLayout(d, g);
      PlainColours(d, g);
    }
    r := Some(g);
  }

  lemma StrideIsLeast(width: nat, bits: nat)
    ensures Stride(width, bits) % 4 == 0 && width * bits <= 8 * Stride(width, bits) < width * bits + 32
  {
    var n := width * bits;
    assert (n + 31) / 32 * 32 <= n + 31 < (n + 31) / 32 * 32 + 32;
  }

  lemma PlainLayout(d: Bytes, g: Geometry)
    requires HEADER <= |d| && HEADER <= U32At(d, 0) <= |d| && Ordinary(d) && Inside(d, g)
    requires Decodable(d, U32At(d, 0), U16At(d, 14), U32At(d, 16)) && g.bitcount == U16At(d, 14)
    requires g.indexed ==> g.entries == Entries(U16At(d, 14), U32At(d, 32))
    requires g.pixels == PixelOffset(U32At(d, 0), U16At(d, 14), U32At(d, 16), U32At(d, 32))
    ensures var size, bits := U32At(d, 0), U16At(d, 14);
      && g.stride % 4 == 0 && g.width * bits <= 8 * g.stride < g.width * bits + 32
      && (bits <= 8 ==> g.entries == if U32At(d, 32) != 0 then U32At(d, 32) else if bits == 1 then 2 else if bits == 4 then 16 else 256)
      && g.pixels == size + if bits <= 8 then 4 * g.entries else if size == 40 && U32At(d, 16) == 3 then 12 else 0
  {
    hide AreRuns, MasksFor, Readable, Times, Stride, U32At, U16At;
    StrideIsLeast(g.width, g.bitcount);
    assert Pow2(1) == 2 && Pow2(4) == 16 && Pow2(8) == 256;
  }

  /** The masks and the plain pixels, as the program promises them. */
  lemma PlainColours(d: Bytes, g: Geometry)
    requires HEADER <= |d| && HEADER <= U32At(d, 0) <= |d| && Ordinary(d) && Inside(d, g)
    requires Decodable(d, U32At(d, 0), U16At(d, 14), U32At(d, 16)) && g.bitcount == U16At(d, 14)
    requires !g.indexed ==> ColoursBy(g, MasksFor(d, U32At(d, 0), U16At(d, 14), U32At(d, 16)).value)
    ensures Layout(g, |d|)
    ensures U32At(d, 16) == 3 ==>
      && 52 <= |d| && g.red.mask == U32At(d, 40) && g.green.mask == U32At(d, 44) && g.blue.mask == U32At(d, 48)
      && (108 <= U32At(d, 0) ==> 56 <= |d|)
      && (g.hasAlpha <==> 108 <= U32At(d, 0) && U32At(d, 52) != 0) && (g.hasAlpha ==> g.alpha.mask == U32At(d, 52))
    ensures U32At(d, 16) == 0 && U16At(d, 14) == 32 ==>
      forall row: nat, x: nat :: x < g.width && row + g.stride <= |d| ==>
        row + 4 * x + 4 <= |d| && PixelIn(d, g, row, x) == [d[row + 4 * x], d[row + 4 * x + 1], d[row + 4 * x + 2], 255]
    ensures U32At(d, 16) == 0 && U16At(d, 14) == 16 ==>
      forall row: nat, x: nat :: x < g.width && row + g.stride <= |d| ==>
        row + 2 * x + 2 <= |d| &&
        var px := d[row + 2 * x] as nat + 0x100 * d[row + 2 * x + 1] as nat;
        var p := PixelIn(d, g, row, x);
        && p[0] as nat == (px % 32 * 255 + 15) / 31
        && p[1] as nat == (px / 32 % 32 * 255 + 15) / 31
        && p[2] as nat == (px / 1024 % 32 * 255 + 15) / 31
        && p[3] == 255
  {
    hide Run, PixelIn, U32At, U16At, Times, Pow2;
    LayoutInside(d, g);
    NoEmptyRun();
    if !g.indexed {
      forall row: nat, x: nat | x < g.width && row + g.stride <= |d| {
        PlainPixels(d, g, row, x);
      }
    }
  }

  /** With at most 256 colours the offset of the pixels has not wrapped. */
  lemma PaletteFits(h: Header, g: Geometry, size: nat)
    requires h.size <= size < 0x8000_0000 && h.clrUsed <= 256 && Supported(h.bitcount, h.compression)
    requires g.indexed <==> h.bitcount <= 8
    requires g.indexed ==> g.palette == h.size && g.entries == Entries(h.bitcount, h.clrUsed)
    requires g.pixels == PixelOffset(h.size, h.bitcount, h.compression, h.clrUsed)
    ensures g.indexed ==> g.palette + 4 * g.entries <= g.pixels
  {
    assert Pow2(1) == 2 && Pow2(4) == 16 && Pow2(8) == 256;
  }

  lemma AllInside(d: Bytes, g: Geometry)
    requires 0 < g.width && 0 < g.height && g.stride == Stride(g.width, g.bitcount) && Readable(g)
    requires g.bitcount == 1 || g.bitcount == 4 || g.bitcount == 8 || g.bitcount == 16 || g.bitcount == 24 || g.bitcount == 32
    requires g.indexed <==> g.bitcount <= 8
    requires g.pixels + Times(g.height, g.stride) <= |d| && (g.indexed ==> g.palette + 4 * g.entries <= g.pixels)
    ensures Inside(d, g)
  {
  }

  lemma ReadableStays(g: Geometry, stride: nat)
    ensures Readable(g.(stride := stride)) == Readable(g)
    ensures forall m :: ColoursBy(g.(stride := stride), m) == ColoursBy(g, m)
  {
  }

  lemma ProductBound(a: nat, b: nat, x: nat, y: nat)
    requires a <= x && b <= y
    ensures a * b <= x * y
  {
    assert a * b <= x * b;
    assert x * b <= x * y;
  }

  lemma StrideBound(width: nat, bitcount: nat)
    requires bitcount <= 32
    ensures Stride(width, bitcount) <= 4 * width
    ensures 0 < width * bitcount ==> 4 <= Stride(width, bitcount)
  {
    ProductBound(width, bitcount, width, 32);
  }

  /** With 31-bit sides no sum of an accepted block has wrapped. */
  lemma SizesFit(width: nat, bitcount: nat, height: nat, pixels: nat, size: nat)
    requires 0 < width < 0x8000_0000 && bitcount <= 32 && 0 < height < 0x8000_0000 && pixels < U32
    requires Needed(pixels, Stride(width, bitcount), height) <= size < 0x8000_0000
    ensures pixels + Times(height, Stride(width, bitcount)) <= size
    ensures Low32(Stride(width, bitcount)) == Stride(width, bitcount)
  {
    var stride := Stride(width, bitcount);
    StrideBound(width, bitcount);
    hide Stride, Times, Needed;
    TotalBound(stride, height);
    NeededIsExact(pixels, stride, height);
    assert stride < U32;
  }

  lemma TotalBound(stride: nat, height: nat)
    requires stride < 0x2_0000_0000 - 3 && 0 < height < 0x8000_0000
    ensures stride <= Times(height, stride) <= 0x7FFF_FFFF * 0x1_FFFF_FFFC
  {
    ProductBound(height, stride, 0x7FFF_FFFF, 0x1_FFFF_FFFC);
    ProductBound(1, stride, height, stride);
  }

  lemma NeededIsExact(pixels: nat, stride: nat, height: nat)
    requires pixels < U32 && Times(height, stride) <= 0x7FFF_FFFF * 0x1_FFFF_FFFC
    ensures Needed(pixels, stride, height) == pixels + Times(height, stride)
  {
    hide Times;
    SmallMod(pixels + Times(height, stride), U64);
  }

  lemma SmallMod(x: nat, m: nat)
    requires x < m
    ensures x % m == x
  {
  }

  // ----- pixels ---------------------------------------------------------------------------------------

  /** A channel of fewer than eight bits, spread over the whole byte. */
  function ScaleChannel(value: nat, bits: nat): byte {
    if bits == 0 then 0
    else if 8 <= bits then (value % 0x100) as byte
    else
      (ScaledTo255(value, Pow2(bits) - 1) % 0x100) as byte
  }

  /** `value` of `max`, as the nearest of 255. */
  function ScaledTo255(value: nat, max: nat): nat
    requires 0 < max
  {
    (value * 255 + max / 2) / max
  }

  function ExtractChannel(pixel: nat, c: Channel): byte {
    ScaleChannel(And(pixel, c.mask, 32) / Pow2(c.shift), c.bits)
  }

  /** The row of the block that holds image row `y`: bottom-up images start with the last. */
  function SourceRow(g: Geometry, y: nat): nat
    requires y < g.height
  {
    if g.topDown then y else g.height - 1 - y
  }

  /** A row holds whole pixels, and the palette ends inside the block. */
  predicate Layout(g: Geometry, size: nat) {
    && (g.bitcount == 1 || g.bitcount == 4 || g.bitcount == 8 || g.bitcount == 16 || g.bitcount == 24 || g.bitcount == 32)
    && (g.indexed <==> g.bitcount <= 8)
    && g.stride == Stride(g.width, g.bitcount)
    && (g.indexed ==> g.palette + 4 * g.entries <= size)
  }

  lemma LayoutInside(d: Bytes, g: Geometry)
    requires Inside(d, g)
    ensures Layout(g, |d|)
  {
  }

  lemma RowInside(d: Bytes, g: Geometry, y: nat)
    requires Inside(d, g) && y < g.height
    ensures RowStart(g, y) + g.stride <= |d|
  {
    hide Times;
    TimesNext(SourceRow(g, y), g.height, g.stride);
  }

  /** A pixel's bits lie inside its row. */
  lemma ColumnInside(g: Geometry, x: nat)
    requires x < g.width && g.stride == Stride(g.width, g.bitcount)
    ensures g.bitcount == 1 ==> x / 8 < g.stride
    ensures g.bitcount == 4 ==> x / 2 < g.stride
    ensures g.bitcount == 8 ==> x < g.stride
    ensures g.bitcount == 16 ==> 2 * x + 2 <= g.stride
    ensures g.bitcount == 24 ==> 3 * x + 3 <= g.stride
    ensures g.bitcount == 32 ==> 4 * x + 4 <= g.stride
  {
  }

  /** The palette index of the pixel at `x` in the row that starts at `row`. */
  function ReadIndex(d: Bytes, g: Geometry, row: nat, x: nat): nat
    requires g.bitcount == 1 || g.bitcount == 4 || g.bitcount == 8
    requires x < g.width && g.stride == Stride(g.width, g.bitcount) && row + g.stride <= |d|
  {
    ColumnInside(g, x);
    if g.bitcount == 8 then d[row + x] as nat
    else if g.bitcount == 4 then (if x % 2 == 0 then d[row + x / 2] as nat / 16 else d[row + x / 2] as nat % 16)
    else d[row + x / 8] as nat / Pow2(7 - x % 8) % 2
  }

  /** The pixel at `x` in the row that starts at `row`, as blue, green, red, alpha. */
  function PixelIn(d: Bytes, g: Geometry, row: nat, x: nat): (r: Bytes)
    requires x < g.width && row + g.stride <= |d| && Layout(g, |d|)
    ensures |r| == 4
  {
    ColumnInside(g, x);
    if g.indexed then
      var index := ReadIndex(d, g, row, x);
      if index < g.entries then
        var e := g.palette + 4 * index;
        [d[e], d[e + 1], d[e + 2], 255]
      else [0, 0, 0, 255]
    else if g.bitcount == 24 then [d[row + 3 * x], d[row + 3 * x + 1], d[row + 3 * x + 2], 255]
    else if g.bitcount == 16 then Channels(g, U16At(d, row + 2 * x), 255)
    else
      var px := U32At(d, row + 4 * x);
      Channels(g, px, if g.hasAlpha then ExtractChannel(px, g.alpha) else 255)
  }

  function Channels(g: Geometry, px: nat, alpha: byte): (r: Bytes)
    ensures |r| == 4
  {
    [ExtractChannel(px, g.blue), ExtractChannel(px, g.green), ExtractChannel(px, g.red), alpha]
  }

  function RowStart(g: Geometry, y: nat): nat
    requires y < g.height
  {
    g.pixels + Times(SourceRow(g, y), g.stride)
  }

  /** The pixel of the image at column `x` and row `y` from the top. Every byte it reads lies
      inside the block. */
  function Pixel(d: Bytes, g: Geometry, x: nat, y: nat): (r: Bytes)
    requires Inside(d, g) && x < g.width && y < g.height
    ensures |r| == 4
  {
    RowInside(d, g, y);
    LayoutInside(d, g);
    PixelIn(d, g, RowStart(g, y), x)
  }

  /** `w` pixels of row `y` from column `x` on. */
  function RowBytes(d: Bytes, g: Geometry, x: nat, w: nat, y: nat): (r: Bytes)
    requires Inside(d, g) && x + w <= g.width && y < g.height
    ensures |r| == 4 * w
  {
    if w == 0 then [] else RowBytes(d, g, x, w - 1, y) + Pixel(d, g, x + w - 1, y)
  }

  datatype Rect = Rect(x: int, y: int, width: int, height: int)

  function Patch(s: Bytes, at: nat, data: Bytes): Bytes
    requires at + |data| <= |s|
  {
    s[..at] + data + s[at + |data|..]
  }

  /** The buffer once the first `n` rows of the rectangle have been drawn into it. */
  ghost function Drawn(d: Bytes, g: Geometry, a: Rect, stride: nat, buffer: Bytes, n: nat): (r: Bytes)
    requires Inside(d, g) && InImage(g, a) && Roomy(a, stride, |buffer|) && n <= a.height
    ensures |r| == |buffer|
  {
    if n == 0 then buffer
    else
      RowFits(a, stride, |buffer|, n - 1);
      Patch(Drawn(d, g, a, stride, buffer, n - 1), Times(n - 1, stride), RowBytes(d, g, a.x, a.width, a.y + n - 1))
  }

  /** A rectangle of at least one pixel inside the image. */
  predicate InImage(g: Geometry, a: Rect) {
    0 <= a.x && 0 <= a.y && 0 < a.width && 0 < a.height && a.x + a.width <= g.width && a.y + a.height <= g.height
  }

  /** The caller's rows do not overlap and the last one ends inside the buffer. */
  predicate Roomy(a: Rect, stride: nat, size: nat) {
    0 < a.width && 0 < a.height && 4 * a.width <= stride && Times(a.height - 1, stride) + 4 * a.width <= size
  }

  lemma RowFits(a: Rect, stride: nat, size: nat, row: nat)
    requires Roomy(a, stride, size) && row < a.height
    ensures Times(row, stride) + 4 * a.width <= size
  {
    ProductBound(row, stride, a.height - 1, stride);
  }

  lemma RowNext(d: Bytes, g: Geometry, x: nat, w: nat, y: nat)
    requires Inside(d, g) && x + w + 1 <= g.width && y < g.height
    ensures RowBytes(d, g, x, w + 1, y) == RowBytes(d, g, x, w, y) + Pixel(d, g, x + w, y)
    ensures RowBytes(d, g, x, 0, y) == []
  {
  }

  lemma NothingDrawn(d: Bytes, g: Geometry, x: nat, y: nat, was: Bytes, at: nat)
    requires Inside(d, g) && x <= g.width && y < g.height && at <= |was|
    ensures Patch(was, at, RowBytes(d, g, x, 0, y)) == was
  {
  }

  lemma PatchPatch(was: Bytes, at: nat, done: Bytes, px: Bytes)
    requires at + |done| + |px| <= |was|
    ensures Patch(Patch(was, at, done), at + |done|, px) == Patch(was, at, done + px)
  {
  }

  /** Writes the four bytes of one pixel. */
  method PutPixel(buffer: array<byte>, to: nat, px: Bytes)
    requires |px| == 4 && to + 4 <= buffer.Length
    modifies buffer
    ensures buffer[..] == Patch(old(buffer[..]), to, px)
  {
    ghost var was := buffer[..];
    buffer[to], buffer[to + 1], buffer[to + 2], buffer[to + 3] := px[0], px[1], px[2], px[3];
    assert buffer[to..to + 4] == px && buffer[..to] == was[..to] && buffer[to + 4..] == was[to + 4..];
    assert buffer[..] == buffer[..to] + buffer[to..to + 4] + buffer[to + 4..];
  }

  /** Draws one row into the buffer at `at`. */
  method DrawRow(d: Bytes, g: Geometry, x: nat, w: nat, y: nat, buffer: array<byte>, at: nat)
    requires Inside(d, g) && x + w <= g.width && y < g.height && at + 4 * w <= buffer.Length
    modifies buffer
    ensures buffer[..] == Patch(old(buffer[..]), at, RowBytes(d, g, x, w, y))
  {
    hide Inside, Pixel, RowBytes, Patch;
    ghost var was := buffer[..];
    NothingDrawn(d, g, x, y, was, at);
    for col := 0 to w
      invariant buffer[..] == Patch(was, at, RowBytes(d, g, x, col, y))
    {
      RowNext(d, g, x, col, y);
      var px := Pixel(d, g, x + col, y);
      PatchPatch(was, at, RowBytes(d, g, x, col, y), px);
      PutPixel(buffer, at + 4 * col, px);
    }
  }

  /** `Overrun` is where the program writes behind the buffer; what comes of that is not modelled. */
  datatype Copied = Done | Refused | Overrun

  /** The area that is asked for: all of the image when no rectangle is given. */
  function Asked(g: Geometry, rect: Option<Rect>): Rect {
    if rect.Some? then rect.value else Rect(0, 0, g.width, g.height)
  }

  /** What the program checks of the buffer. */
  predicate Guarded(a: Rect, stride: nat, size: nat) { 4 * a.width <= stride && 4 * a.width * a.height <= size }

  /** Copies a rectangle of the image, or all of it, as rows of BGRA. */
  method CopyPixels(d: Bytes, g: Geometry, rect: Option<Rect>, stride: nat, size: nat, buffer: array<byte>)
    returns (r: Copied)
    requires Inside(d, g) && size <= buffer.Length
    modifies buffer
    ensures var a := Asked(g, rect);
      && (r.Refused? <==> 0 < a.width && 0 < a.height && !(InImage(g, a) && Guarded(a, stride, size)))
      && (r.Overrun? <==> InImage(g, a) && Guarded(a, stride, size) && !Roomy(a, stride, size))
      && buffer[..] == if r.Done? && InImage(g, a) then Drawn(d, g, a, stride, old(buffer[..]), a.height) else old(buffer[..])
  {
    hide Inside, Pixel, RowBytes, Patch, Times;
    var area := Asked(g, rect);
    if area.width <= 0 || area.height <= 0 {
      return Done;
    }
    if area.x < 0 || area.y < 0 || g.width < area.x + area.width || g.height < area.y + area.height {
      return Refused;
    }
    var rowBytes := 4 * area.width;
    if stride < rowBytes || size < rowBytes * area.height {
      return Refused;
    }
    if size < Times(area.height - 1, stride) + rowBytes {
      return Overrun;
    }
    DrawRows(d, g, area, stride, size, buffer);
    r := Done;
  }

  /** Draws the rows of a rectangle, one behind the other at the caller's stride. */
  method DrawRows(d: Bytes, g: Geometry, area: Rect, stride: nat, size: nat, buffer: array<byte>)
    requires Inside(d, g) && size <= buffer.Length && InImage(g, area) && Roomy(area, stride, size)
    modifies buffer
    ensures buffer[..] == Drawn(d, g, area, stride, old(buffer[..]), area.height)
  {
    hide Inside, Pixel, RowBytes, Patch, Times;
    ghost var was := buffer[..];
    for row := 0 to area.height
      invariant buffer[..] == Drawn(d, g, area, stride, was, row)
    {
      RowFits(area, stride, size, row);
      DrawRow(d, g, area.x, area.width, area.y + row, buffer, Times(row, stride));
    }
  }

  /** Every row of a guarded rectangle lies in the buffer exactly when the last one does. */
  lemma RowsFitExactly(g: Geometry, a: Rect, stride: nat, size: nat)
    requires InImage(g, a) && Guarded(a, stride, size)
    ensures (forall row: nat :: row < a.height ==> Times(row, stride) + 4 * a.width <= size) <==> Roomy(a, stride, size)
  {
    if Roomy(a, stride, size) {
      forall row: nat | row < a.height ensures Times(row, stride) + 4 * a.width <= size {
        RowFits(a, stride, size, row);
      }
    }
    hide Times;
  }

  /** With a stride of just one row the guard is enough. */
  lemma TightRowsFit(g: Geometry, a: Rect, size: nat)
    requires InImage(g, a) && Guarded(a, 4 * a.width, size)
    ensures Roomy(a, 4 * a.width, size)
  {
    var row := 4 * a.width;
    assert Times(a.height - 1, row) + row == Times(a.height, row) by {
      assert (a.height - 1) * row + row == a.height * row;
    }
    assert Times(a.height, row) == 4 * a.width * a.height;
    hide Times;
  }

  /** In general it is not: one pixel over two rows, eight bytes, a stride of a hundred. */
  lemma GuardIsNotEnough(g: Geometry)
    requires 1 <= g.width && 2 <= g.height
    ensures var a := Rect(0, 0, 1, 2);
      InImage(g, a) && Guarded(a, 100, 8) && !Roomy(a, 100, 8) && Times(1, 100) + 4 * a.width == 104
  {
  }

  // ----- what a copy shows ------------------------------------------------------------------------------

  /** The `n` bytes of a buffer from `at` on. */
  ghost function Span(s: Bytes, at: nat, n: nat): Bytes
    requires at + n <= |s|
  {
    s[at..at + n]
  }

  lemma PatchShows(s: Bytes, at: nat, data: Bytes, from: nat, n: nat)
    requires at + |data| <= |s| && from + n <= |s|
    ensures from == at && n == |data| ==> Span(Patch(s, at, data), from, n) == data
    ensures from + n <= at ==> Span(Patch(s, at, data), from, n) == Span(s, from, n)
  {
  }

  lemma DrawnNext(d: Bytes, g: Geometry, a: Rect, stride: nat, buffer: Bytes, n: nat)
    requires Inside(d, g) && InImage(g, a) && Roomy(a, stride, |buffer|) && n < a.height
    ensures Times(n, stride) + 4 * a.width <= |buffer|
    ensures Drawn(d, g, a, stride, buffer, n + 1)
            == Patch(Drawn(d, g, a, stride, buffer, n), Times(n, stride), RowBytes(d, g, a.x, a.width, a.y + n))
  {
    RowFits(a, stride, |buffer|, n);
    hide Inside, Times, RowBytes, Patch, Roomy;
  }

  /** Drawing a row leaves the rows before it. */
  lemma DrawnKeepsRow(d: Bytes, g: Geometry, a: Rect, stride: nat, buffer: Bytes, n: nat, row: nat)
    requires Inside(d, g) && InImage(g, a) && Roomy(a, stride, |buffer|) && row < n < a.height
    ensures Times(row, stride) + 4 * a.width <= |buffer|
    ensures Span(Drawn(d, g, a, stride, buffer, n + 1), Times(row, stride), 4 * a.width)
            == Span(Drawn(d, g, a, stride, buffer, n), Times(row, stride), 4 * a.width)
  {
    RowFits(a, stride, |buffer|, row);
    DrawnNext(d, g, a, stride, buffer, n);
    TimesNext(row, n, stride);
    hide Inside, Times, RowBytes, Patch, Span, Drawn;
    PatchShows(Drawn(d, g, a, stride, buffer, n), Times(n, stride), RowBytes(d, g, a.x, a.width, a.y + n),
               Times(row, stride), 4 * a.width);
  }

  lemma DrawnShowsLast(d: Bytes, g: Geometry, a: Rect, stride: nat, buffer: Bytes, row: nat)
    requires Inside(d, g) && InImage(g, a) && Roomy(a, stride, |buffer|) && row < a.height
    ensures Times(row, stride) + 4 * a.width <= |buffer|
    ensures Span(Drawn(d, g, a, stride, buffer, row + 1), Times(row, stride), 4 * a.width)
            == RowBytes(d, g, a.x, a.width, a.y + row)
  {
    DrawnNext(d, g, a, stride, buffer, row);
    hide Inside, Times, RowBytes, Patch, Span, Drawn;
    PatchShows(Drawn(d, g, a, stride, buffer, row), Times(row, stride), RowBytes(d, g, a.x, a.width, a.y + row),
               Times(row, stride), 4 * a.width);
  }

  /** Row `row` of the rectangle stands at its place in the buffer. */
  lemma {:induction false} DrawnShowsRow(d: Bytes, g: Geometry, a: Rect, stride: nat, buffer: Bytes, n: nat, row: nat)
    requires Inside(d, g) && InImage(g, a) && Roomy(a, stride, |buffer|) && row < n <= a.height
    ensures Times(row, stride) + 4 * a.width <= |buffer|
    ensures Span(Drawn(d, g, a, stride, buffer, n), Times(row, stride), 4 * a.width)
            == RowBytes(d, g, a.x, a.width, a.y + row)
  {
    hide Inside, Times, RowBytes, Patch, Span, Drawn, Roomy;
    if n == row + 1 {
      DrawnShowsLast(d, g, a, stride, buffer, row);
    } else {
      DrawnShowsRow(d, g, a, stride, buffer, n - 1, row);
      DrawnKeepsRow(d, g, a, stride, buffer, n - 1, row);
    }
  }

  lemma {:induction false} RowShowsPixel(d: Bytes, g: Geometry, x: nat, w: nat, y: nat, col: nat)
    requires Inside(d, g) && x + w <= g.width && y < g.height && col < w
    ensures RowBytes(d, g, x, w, y)[4 * col..4 * col + 4] == Pixel(d, g, x + col, y)
    decreases w
  {
    hide Inside, Pixel;
    if col < w - 1 {
      RowShowsPixel(d, g, x, w - 1, y, col);
      assert RowBytes(d, g, x, w, y)[..4 * (w - 1)] == RowBytes(d, g, x, w - 1, y);
      CutOfPrefix(RowBytes(d, g, x, w, y), 4 * (w - 1), 4 * col, 4 * col + 4);
    }
  }

  /** Pixel by pixel: the four bytes `4 * col` behind `row` strides are those of the image at the place
      that the rectangle says. */
  lemma DrawnShowsPixel(d: Bytes, g: Geometry, a: Rect, stride: nat, buffer: Bytes, row: nat, col: nat)
    requires Inside(d, g) && InImage(g, a) && Roomy(a, stride, |buffer|) && row < a.height && col < a.width
    ensures Times(row, stride) + 4 * col + 4 <= |buffer|
    ensures Span(Drawn(d, g, a, stride, buffer, a.height), Times(row, stride) + 4 * col, 4) == Pixel(d, g, a.x + col, a.y + row)
  {
    hide Inside, Times, RowBytes, Drawn, Pixel, Roomy;
    DrawnShowsRow(d, g, a, stride, buffer, a.height, row);
    RowShowsPixel(d, g, a.x, a.width, a.y + row, col);
    SpanOfSpan(Drawn(d, g, a, stride, buffer, a.height), Times(row, stride), 4 * a.width, 4 * col, 4);
  }

  /** A part of a row is cut out of the whole row. */
  lemma {:induction false} RowIsCut(d: Bytes, g: Geometry, x: nat, w: nat, whole: nat, y: nat)
    requires Inside(d, g) && x + w <= whole <= g.width && y < g.height
    ensures RowBytes(d, g, x, w, y) == Span(RowBytes(d, g, 0, whole, y), 4 * x, 4 * w)
    decreases whole, w
  {
    hide Inside, Pixel;
    if x + w < whole {
      RowIsCut(d, g, x, w, whole - 1, y);
      assert RowBytes(d, g, 0, whole, y)[..4 * (whole - 1)] == RowBytes(d, g, 0, whole - 1, y);
      CutOfPrefix(RowBytes(d, g, 0, whole, y), 4 * (whole - 1), 4 * x, 4 * (x + w));
    } else if w > 0 {
      RowIsCut(d, g, x, w - 1, whole - 1, y);
      var front := RowBytes(d, g, 0, whole - 1, y);
      assert front[4 * x..4 * (x + w - 1)] == front[4 * x..];
      assert (front + Pixel(d, g, whole - 1, y))[4 * x..] == front[4 * x..] + Pixel(d, g, whole - 1, y);
    }
  }

  lemma CutOfPrefix(s: Bytes, n: nat, from: nat, to: nat)
    requires from <= to <= n <= |s|
    ensures s[..n][from..to] == s[from..to]
  {
  }

  /** The buffer that a copy of the whole image leaves. */
  ghost function Whole(d: Bytes, g: Geometry, stride: nat, buffer: Bytes): (r: Bytes)
    requires Inside(d, g) && Roomy(Rect(0, 0, g.width, g.height), stride, |buffer|)
    ensures |r| == |buffer|
  {
    Drawn(d, g, Rect(0, 0, g.width, g.height), stride, buffer, g.height)
  }

  lemma WholeShowsRow(d: Bytes, g: Geometry, stride: nat, buffer: Bytes, y: nat)
    requires Inside(d, g) && Roomy(Rect(0, 0, g.width, g.height), stride, |buffer|) && y < g.height
    ensures Times(y, stride) + 4 * g.width <= |buffer|
    ensures Span(Whole(d, g, stride, buffer), Times(y, stride), 4 * g.width) == RowBytes(d, g, 0, g.width, y)
  {
    hide Times, RowBytes, Drawn, Span, Pixel;
    DrawnShowsRow(d, g, Rect(0, 0, g.width, g.height), stride, buffer, g.height, y);
  }

  /** Copying a rectangle gives exactly that crop of what copying the whole image gives. */
  lemma CopyIsACrop(d: Bytes, g: Geometry, a: Rect, stride: nat, buffer: Bytes, fullStride: nat, full: Bytes, row: nat)
    requires Inside(d, g) && InImage(g, a) && Roomy(a, stride, |buffer|) && row < a.height
    requires Roomy(Rect(0, 0, g.width, g.height), fullStride, |full|)
    ensures Times(row, stride) + 4 * a.width <= |buffer|
    ensures Times(a.y + row, fullStride) + 4 * a.x + 4 * a.width <= |full|
    ensures Span(Drawn(d, g, a, stride, buffer, a.height), Times(row, stride), 4 * a.width)
            == Span(Whole(d, g, fullStride, full), Times(a.y + row, fullStride) + 4 * a.x, 4 * a.width)
  {
    hide Inside, Times, RowBytes, Drawn, Span, Whole, Pixel, Roomy;
    DrawnShowsRow(d, g, a, stride, buffer, a.height, row);
    WholeShowsRow(d, g, fullStride, full, a.y + row);
    RowIsCut(d, g, a.x, a.width, g.width, a.y + row);
    SpanOfSpan(Whole(d, g, fullStride, full), Times(a.y + row, fullStride), 4 * g.width, 4 * a.x, 4 * a.width);
  }

  lemma SpanOfSpan(s: Bytes, at: nat, n: nat, from: nat, m: nat)
    requires at + n <= |s| && from + m <= n
    ensures |Span(s, at, n)| == n && Span(Span(s, at, n), from, m) == Span(s, at + from, m)
  {
    var cut := Span(Span(s, at, n), from, m);
    forall k | 0 <= k < m ensures cut[k] == Span(s, at + from, m)[k] {
      assert cut[k] == Span(s, at, n)[from + k] == s[at + (from + k)];
    }
  }

  /** The same block read bottom-up is the image upside down. */
  lemma BottomUpIsReversed(d: Bytes, g: Geometry, x: nat, y: nat)
    requires Inside(d, g) && x < g.width && y < g.height
    ensures var flipped := g.(topDown := !g.topDown);
            Inside(d, flipped) && Pixel(d, flipped, x, y) == Pixel(d, g, x, g.height - 1 - y)
  {
    var flipped := g.(topDown := !g.topDown);
    assert RowStart(flipped, y) == RowStart(g, g.height - 1 - y);
    hide And, Pow2, ScaleChannel, ReadIndex;
  }

  lemma NearestQuotient(value: nat, max: nat)
    requires value <= max
    requires max == 1 || max == 3 || max == 7 || max == 15 || max == 31 || max == 63 || max == 127
    ensures var q := ScaledTo255(value, max);
      && q <= 255
      && 2 * Times(q, max) <= 2 * Times(value, 255) + max && 2 * Times(value, 255) <= 2 * Times(q, max) + max
      && (value == 0 ==> q == 0) && (value == max ==> q == 255)
  {
    if max == 1 {
    } else if max == 3 {
    } else if max == 7 {
    } else if max == 15 {
    } else if max == 31 {
    } else if max == 63 {
    } else {
    }
  }

  lemma SmallPowers(bits: nat)
    requires 0 < bits < 8
    ensures Pow2(bits) - 1 in {1, 3, 7, 15, 31, 63, 127}
  {
    assert Pow2(4) == 16;
  }

  /** A narrow channel is scaled to the nearest byte: zero to zero, full to full. */
  lemma ScaleIsNearest(value: nat, bits: nat)
    requires 0 < bits < 8 && value < Pow2(bits)
    ensures var max, scaled := Pow2(bits) - 1, ScaleChannel(value, bits) as nat;
      && 2 * Times(scaled, max) <= 2 * Times(value, 255) + max
      && 2 * Times(value, 255) <= 2 * Times(scaled, max) + max
      && (value == 0 ==> scaled == 0) && (value == max ==> scaled == 255)
  {
    hide Pow2, ScaledTo255, Times;
    SmallPowers(bits);
    NearestQuotient(value, Pow2(bits) - 1);
  }

  // ----- what the bytes mean --------------------------------------------------------------------------

  /** A 32-bit value in its stored order. */
  function Le32(v: nat): Bytes
    requires v < U32
  {
    [(v % 0x100) as byte, (v / 0x100 % 0x100) as byte, (v / 0x1_0000 % 0x100) as byte, (v / 0x100_0000) as byte]
  }

  /** The fields of a block are little-endian, and the signed ones two's complement. */
  lemma FieldsAreLittleEndian(d: Bytes, i: nat)
    requires i + 4 <= |d|
    ensures U32At(d, i) == d[i] as nat + 0x100 * d[i + 1] as nat + 0x1_0000 * d[i + 2] as nat + 0x100_0000 * d[i + 3] as nat
    ensures d[i..i + 4] == Le32(U32At(d, i))
    ensures U32At(d, i) == U16At(d, i) + 0x1_0000 * U16At(d, i + 2)
    ensures (I32At(d, i) - U32At(d, i)) % U32 == 0
  {
    DigitsOf(d[i] as nat, d[i + 1] as nat, d[i + 2] as nat, d[i + 3] as nat);
  }

  lemma DigitsOf(a: nat, b: nat, c: nat, e: nat)
    requires a < 0x100 && b < 0x100 && c < 0x100 && e < 0x100
    ensures var v := a + 0x100 * b + 0x1_0000 * c + 0x100_0000 * e;
      && v % 0x100 == a && v / 0x100 % 0x100 == b && v / 0x1_0000 % 0x100 == c && v / 0x100_0000 == e
  {
    var v := a + 0x100 * b + 0x1_0000 * c + 0x100_0000 * e;
    assert v / 0x100 == b + 0x100 * c + 0x1_0000 * e;
    assert v / 0x1_0000 == c + 0x100 * e;
  }

  /** Palettes of 2, 16 and 256 colours, and direct colour in 16, 24 and 32 bits, where only 16
      and 32 may bring their own masks. */
  lemma SupportedLayouts(bitcount: nat, compression: nat)
    ensures Supported(bitcount, compression) <==>
      || (compression == BI_RGB && bitcount in {1, 4, 8, 16, 24, 32})
      || (compression == BI_BITFIELDS && bitcount in {16, 32})
  {
  }

  /** Indices are packed from the top of the byte down: together they make up the byte. */
  lemma IndicesMakeTheByte(d: Bytes, g: Geometry, row: nat, k: nat)
    requires g.stride == Stride(g.width, g.bitcount) && row + g.stride <= |d|
    ensures g.bitcount == 8 && k < g.width ==> d[row + k] as nat == ReadIndex(d, g, row, k)
    ensures g.bitcount == 4 && 2 * k + 1 < g.width ==>
      d[row + k] as nat == 16 * ReadIndex(d, g, row, 2 * k) + ReadIndex(d, g, row, 2 * k + 1)
    ensures g.bitcount == 1 && 8 * k + 7 < g.width ==>
      d[row + k] as nat == Packed(d, g, row, 8 * k, 8)
  {
    if g.bitcount == 8 && k < g.width {
      ColumnInside(g, k);
    } else if g.bitcount == 4 && 2 * k + 1 < g.width {
      ColumnInside(g, 2 * k + 1);
    } else if g.bitcount == 1 && 8 * k + 7 < g.width {
      ColumnInside(g, 8 * k + 7);
      PackedIsTheTop(d, g, row, k, 8);
    }
  }

  /** `n` one-bit indices from `x` on, the first one the most significant. */
  function Packed(d: Bytes, g: Geometry, row: nat, x: nat, n: nat): nat
    requires g.bitcount == 1 && g.stride == Stride(g.width, 1) && x + n <= g.width && row + g.stride <= |d|
  {
    if n == 0 then 0 else 2 * Packed(d, g, row, x, n - 1) + ReadIndex(d, g, row, x + n - 1)
  }

  lemma {:induction false} PackedIsTheTop(d: Bytes, g: Geometry, row: nat, k: nat, n: nat)
    requires g.bitcount == 1 && g.stride == Stride(g.width, 1) && 8 * k + 8 <= g.width && row + g.stride <= |d| && n <= 8
    ensures row + k < |d| && Packed(d, g, row, 8 * k, n) == d[row + k] as nat / Pow2(8 - n)
  {
    hide Pow2, Stride, ReadIndex;
    OneBitIndex(d, g, row, k, 0);
    if n == 0 {
      BytePowers();
    } else {
      PackedIsTheTop(d, g, row, k, n - 1);
      OneBitIndex(d, g, row, k, n - 1);
      TwicePow2(8 - n);
      HalvesOf(d[row + k] as nat, Pow2(8 - n));
    }
  }

  lemma TwicePow2(n: nat)
    ensures Pow2(n + 1) == 2 * Pow2(n)
  {
  }

  lemma OneBitIndex(d: Bytes, g: Geometry, row: nat, k: nat, bit: nat)
    requires g.bitcount == 1 && g.stride == Stride(g.width, 1) && 8 * k + 8 <= g.width && row + g.stride <= |d| && bit < 8
    ensures row + k < |d| && ReadIndex(d, g, row, 8 * k + bit) == d[row + k] as nat / Pow2(7 - bit) % 2
  {
    ColumnInside(g, 8 * k + bit);
    assert (8 * k + bit) / 8 == k && (8 * k + bit) % 8 == bit;
    hide Pow2, Stride;
  }

  lemma HalvesOf(b: nat, unit: nat)
    requires 0 < unit
    ensures 2 * (b / (2 * unit)) + b / unit % 2 == b / unit
  {
    var q, r := b / unit, b % unit;
    assert b == q * unit + r;
    var h := q / 2;
    assert q == 2 * h + q % 2;
    assert b == h * (2 * unit) + (q % 2 * unit + r) by {
      assert q * unit == (2 * h + q % 2) * unit == 2 * h * unit + q % 2 * unit;
      assert 2 * h * unit == h * (2 * unit);
    }
    assert q % 2 * unit + r < 2 * unit by {
      assert q % 2 == 0 || q % 2 == 1;
    }
    ModUnique(b, 2 * unit, h, q % 2 * unit + r);
  }

  /** The three colour bytes as they are stored, and a byte of alpha. */
  function Opaque(d: Bytes, at: nat, alpha: byte): Bytes
    requires at + 3 <= |d|
  {
    d[at..at + 3] + [alpha]
  }

  lemma Triple(d: Bytes, at: nat)
    requires at + 3 <= |d|
    ensures forall alpha :: Opaque(d, at, alpha) == [d[at], d[at + 1], d[at + 2], alpha]
  {
  }

  /** A channel of one whole byte reads that byte. */
  lemma WholeByte(d: Bytes, at: nat, k: nat, mask: nat)
    requires at + 4 <= |d| && k < 4
    requires mask == if k == 0 then 0xFF else if k == 1 then 0xFF00 else if k == 2 then 0xFF_0000 else 0xFF00_0000
    ensures ExtractChannel(U32At(d, at), Channel(mask, 8 * k, 8)) == d[at + k]
  {
    BytePowers();
    hide Pow2, And, U32At;
    var c, px := Channel(mask, 8 * k, 8), U32At(d, at);
    assert Run(c);
    ExtractReadsTheField(px, c);
    assert ExtractChannel(px, c) as nat == Field(px, c) % 0x100;
    ByteOfWord(d, at, k);
  }

  lemma ByteOfWord(d: Bytes, at: nat, k: nat)
    requires at + 4 <= |d| && k < 4
    ensures U32At(d, at) / Pow2(8 * k) % 0x100 == d[at + k] as nat
  {
    BytePowers();
    FieldsAreLittleEndian(d, at);
    assert d[at + k] == d[at..at + 4][k] == Le32(U32At(d, at))[k];
    hide Pow2, U32At;
  }

  /** The colours of a 24-bit pixel, of a palette entry and of a 32-bit pixel with the usual masks
      come out as their bytes stand; an index behind the palette is black. */
  lemma ColoursAsStored(d: Bytes, g: Geometry, row: nat, x: nat)
    requires x < g.width && row + g.stride <= |d| && Layout(g, |d|)
    ensures g.bitcount == 24 ==> row + 3 * x + 3 <= |d| && PixelIn(d, g, row, x) == Opaque(d, row + 3 * x, 255)
    ensures g.indexed ==>
      var index := ReadIndex(d, g, row, x);
      PixelIn(d, g, row, x) == if index < g.entries then Opaque(d, g.palette + 4 * index, 255) else [0, 0, 0, 255]
    ensures g.bitcount == 32 && g.red == Channel(0xFF_0000, 16, 8) && g.green == Channel(0xFF00, 8, 8)
            && g.blue == Channel(0xFF, 0, 8) && (g.hasAlpha ==> g.alpha == Channel(0xFF00_0000, 24, 8)) ==>
      row + 4 * x + 4 <= |d| &&
      PixelIn(d, g, row, x) == Opaque(d, row + 4 * x, if g.hasAlpha then d[row + 4 * x + 3] else 255)
  {
    hide ExtractChannel, ReadIndex, U32At;
    ColumnInside(g, x);
    if g.bitcount == 32 {
      var at := row + 4 * x;
      WholeByte(d, at, 0, 0xFF);
      WholeByte(d, at, 1, 0xFF00);
      WholeByte(d, at, 2, 0xFF_0000);
      WholeByte(d, at, 3, 0xFF00_0000);
      Triple(d, at);
    } else if g.bitcount == 24 {
      Triple(d, row + 3 * x);
    } else if g.indexed && ReadIndex(d, g, row, x) < g.entries {
      Triple(d, g.palette + 4 * ReadIndex(d, g, row, x));
    }
  }

  lemma FiveBits(px: nat)
    ensures ExtractChannel(px, Channel(0x7C00, 10, 5)) as nat == (px / 1024 % 32 * 255 + 15) / 31
    ensures ExtractChannel(px, Channel(0x03E0, 5, 5)) as nat == (px / 32 % 32 * 255 + 15) / 31
    ensures ExtractChannel(px, Channel(0x001F, 0, 5)) as nat == (px % 32 * 255 + 15) / 31
  {
    assert Pow2(5) == 32 && Pow2(10) == 1024;
    FiveBitsAt(px, Channel(0x7C00, 10, 5));
    FiveBitsAt(px, Channel(0x03E0, 5, 5));
    FiveBitsAt(px, Channel(0x001F, 0, 5));
    hide And, ScaleChannel, ExtractChannel;
    assert px / 1 == px;
  }

  lemma FiveBitsAt(px: nat, c: Channel)
    requires Run(c) && c.bits == 5
    ensures ExtractChannel(px, c) as nat == (px / Pow2(c.shift) % 32 * 255 + 15) / 31
  {
    assert Pow2(5) == 32;
    ExtractReadsTheField(px, c);
    hide And;
    var v := px / Pow2(c.shift) % 32;
    assert ScaledTo255(v, 31) == (v * 255 + 15) / 31 <= 255;
  }

  /** The channels of the layouts that bring no masks. */
  lemma FixedChannels(g: Geometry)
    requires !g.indexed && Readable(g)
    ensures ColoursBy(g, X8R8G8B8) ==>
      g.red == Channel(0xFF_0000, 16, 8) && g.green == Channel(0xFF00, 8, 8) && g.blue == Channel(0xFF, 0, 8) && !g.hasAlpha
    ensures ColoursBy(g, X1R5G5B5) ==>
      g.red == Channel(0x7C00, 10, 5) && g.green == Channel(0x03E0, 5, 5) && g.blue == Channel(0x001F, 0, 5)
  {
    FixedRuns();
    hide Run;
    if ColoursBy(g, X8R8G8B8) {
      RunIsUnique(g.red, Channel(0xFF_0000, 16, 8));
      RunIsUnique(g.green, Channel(0xFF00, 8, 8));
      RunIsUnique(g.blue, Channel(0xFF, 0, 8));
    }
    if ColoursBy(g, X1R5G5B5) {
      RunIsUnique(g.red, Channel(0x7C00, 10, 5));
      RunIsUnique(g.green, Channel(0x03E0, 5, 5));
      RunIsUnique(g.blue, Channel(0x001F, 0, 5));
    }
  }

  /** What a pixel of direct colour shows: blue, green and red in this order, and then the alpha
      channel when there is one in 32 bits. */
  lemma PixelShowsChannels(d: Bytes, g: Geometry, row: nat, x: nat)
    requires x < g.width && row + g.stride <= |d| && Layout(g, |d|)
    ensures g.bitcount == 16 ==>
      row + 2 * x + 2 <= |d| &&
      var px := d[row + 2 * x] as nat + 0x100 * d[row + 2 * x + 1] as nat;
      PixelIn(d, g, row, x) == [ExtractChannel(px, g.blue), ExtractChannel(px, g.green), ExtractChannel(px, g.red), 255]
    ensures g.bitcount == 32 ==>
      row + 4 * x + 4 <= |d| &&
      var px := d[row + 4 * x] as nat + 0x100 * d[row + 4 * x + 1] as nat
                + 0x1_0000 * d[row + 4 * x + 2] as nat + 0x100_0000 * d[row + 4 * x + 3] as nat;
      PixelIn(d, g, row, x) == [ExtractChannel(px, g.blue), ExtractChannel(px, g.green), ExtractChannel(px, g.red),
                                if g.hasAlpha then ExtractChannel(px, g.alpha) else 255]
  {
    hide ExtractChannel;
    ColumnInside(g, x);
  }

  /** The pixels of a block without masks: in 32 bits the three bytes as they stand, in 16 bits three
      fields of five bits, each scaled to the nearest byte. */
  lemma PlainPixels(d: Bytes, g: Geometry, row: nat, x: nat)
    requires x < g.width && row + g.stride <= |d| && Layout(g, |d|) && Readable(g)
    ensures g.bitcount == 32 && ColoursBy(g, X8R8G8B8) ==>
      row + 4 * x + 4 <= |d| && PixelIn(d, g, row, x) == [d[row + 4 * x], d[row + 4 * x + 1], d[row + 4 * x + 2], 255]
    ensures g.bitcount == 16 && ColoursBy(g, X1R5G5B5) ==>
      row + 2 * x + 2 <= |d| &&
      var px := d[row + 2 * x] as nat + 0x100 * d[row + 2 * x + 1] as nat;
      var p := PixelIn(d, g, row, x);
      && p[0] as nat == (px % 32 * 255 + 15) / 31
      && p[1] as nat == (px / 32 % 32 * 255 + 15) / 31
      && p[2] as nat == (px / 1024 % 32 * 255 + 15) / 31
      && p[3] == 255
  {
    hide Run, PixelIn, ExtractChannel, Pow2;
    if !g.indexed {
      FixedChannels(g);
      PixelShowsChannels(d, g, row, x);
      ColoursAsStored(d, g, row, x);
      if g.bitcount == 16 {
        FiveBits(d[row + 2 * x] as nat + 0x100 * d[row + 2 * x + 1] as nat);
      }
    }
  }

  lemma BytePowers()
    ensures Pow2(0) == 1 && Pow2(8) == 0x100 && Pow2(16) == 0x1_0000 && Pow2(24) == 0x100_0000
  {
    assert Pow2(4) == 16;
    assert Pow2(12) == 16 * Pow2(8);
    assert Pow2(20) == 16 * Pow2(16);
  }

  /** The `k`-th stored row shows row `k` of a top-down image, and of a bottom-up one the row that
      is `k` above the last. */
  lemma StoredRows(d: Bytes, g: Geometry, x: nat, k: nat)
    requires Inside(d, g) && x < g.width && k < g.height
    ensures var at := g.pixels + Times(k, g.stride);
      at + g.stride <= |d| && Layout(g, |d|)
      && Pixel(d, g, x, if g.topDown then k else g.height - 1 - k) == PixelIn(d, g, at, x)
  {
    var y := if g.topDown then k else g.height - 1 - k;
    RowInside(d, g, y);
    LayoutInside(d, g);
    assert RowStart(g, y) == g.pixels + Times(k, g.stride);
    hide PixelIn, Times;
  }
}
