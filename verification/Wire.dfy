/** The SFTP v3 codec: bounds-checked big-endian fields and the ATTRS structure of
    section 5 of draft-ietf-secsh-filexfer-02. */
module Wire {
  import opened Types

  // ----- big-endian words -------------------------------------------------------

  function Be16(v: nat): (b: Bytes)
    requires v < 0x1_0000
    ensures |b| == 2
  {
    [(v / 256) as byte, (v % 256) as byte]
  }

  function GetBe16(b: Bytes): (v: nat)
    requires 2 <= |b|
    ensures v < 0x1_0000 && Be16(v) == b[..2]
  {
    b[0] as nat * 256 + b[1] as nat
  }

  function Be32(v: nat): (b: Bytes)
    requires v < U32
    ensures |b| == 4
  {
    Be16(v / 0x1_0000) + Be16(v % 0x1_0000)
  }

  function Be64(v: nat): (b: Bytes)
    requires v < U64
    ensures |b| == 8
  {
    Be32(v / U32) + Be32(v % U32)
  }

  function GetBe32(b: Bytes): (v: nat)
    requires 4 <= |b|
    ensures v < U32
  {
    GetBe16(b) * 0x1_0000 + GetBe16(b[2..])
  }

  function GetBe64(b: Bytes): (v: nat)
    requires 8 <= |b|
    ensures v < U64
  {
    GetBe32(b) * U32 + GetBe32(b[4..])
  }

  lemma Be16RoundTrip(v: nat, rest: Bytes)
    requires v < 0x1_0000
    ensures GetBe16(Be16(v) + rest) == v && (Be16(v) + rest)[2..] == rest
  {
  }

  lemma Be32RoundTrip(v: nat, rest: Bytes)
    requires v < U32
    ensures GetBe32(Be32(v) + rest) == v && (Be32(v) + rest)[4..] == rest
  {
    var hi, lo := v / 0x1_0000, v % 0x1_0000;
    assert Be32(v) + rest == Be16(hi) + (Be16(lo) + rest);
    Be16RoundTrip(hi, Be16(lo) + rest);
    Be16RoundTrip(lo, rest);
  }

  lemma Be64RoundTrip(v: nat, rest: Bytes)
    requires v < U64
    ensures GetBe64(Be64(v) + rest) == v && (Be64(v) + rest)[8..] == rest
  {
    var hi, lo := v / U32, v % U32;
    assert Be64(v) + rest == Be32(hi) + (Be32(lo) + rest);
    Be32RoundTrip(hi, Be32(lo) + rest);
    Be32RoundTrip(lo, rest);
  }

  /** The most significant byte comes first. */
  lemma Be32Weights(b: Bytes)
    requires 4 <= |b|
    ensures GetBe32(b) ==
      0x100_0000 * b[0] as nat + 0x1_0000 * b[1] as nat + 0x100 * b[2] as nat + b[3] as nat
  {
  }

  lemma Be64Weights(b: Bytes)
    requires 8 <= |b|
    ensures GetBe64(b) ==
      0x100_0000_0000_0000 * b[0] as nat + 0x1_0000_0000_0000 * b[1] as nat + 0x100_0000_0000 * b[2] as nat
      + 0x1_0000_0000 * b[3] as nat + 0x100_0000 * b[4] as nat + 0x1_0000 * b[5] as nat + 0x100 * b[6] as nat + b[7] as nat
  {
    Be32Weights(b);
    Be32Weights(b[4..]);
  }

  lemma Be32Sound(b: Bytes)
    requires 4 <= |b|
    ensures b == Be32(GetBe32(b)) + b[4..]
  {
    var hi, lo := GetBe16(b), GetBe16(b[2..]);
    assert (hi * 0x1_0000 + lo) / 0x1_0000 == hi && (hi * 0x1_0000 + lo) % 0x1_0000 == lo;
    assert b == b[..2] + (b[2..][..2] + b[4..]);
  }

  lemma Be64Sound(b: Bytes)
    requires 8 <= |b|
    ensures b == Be64(GetBe64(b)) + b[8..]
  {
    var hi, lo := GetBe32(b), GetBe32(b[4..]);
    assert (hi * U32 + lo) / U32 == hi && (hi * U32 + lo) % U32 == lo;
    Be32Sound(b);
    Be32Sound(b[4..]);
    assert b[4..][4..] == b[8..];
    assert Be32(hi) + (Be32(lo) + b[8..]) == Be64(GetBe64(b)) + b[8..];
  }

  // ----- the writer -------------------------------------------------------------

  /** Appends fields to a caller-owned buffer; the first field that does not fit
      latches `ok` to false and nothing is written from then on. */
  class BufferWriter {
    const buf: array<byte>
    var len: nat
    var ok: bool

    ghost predicate Valid() reads this { len <= buf.Length }

    ghost function Contents(): Bytes
      requires Valid()
      reads this, buf
    {
      buf[..len]
    }

    constructor (data: array<byte>)
      ensures Valid() && ok && buf == data && Contents() == []
    {
      buf := data;
      len := 0;
      ok := true;
    }

    method WriteBytes(data: Bytes) returns (fit: bool)
      requires Valid()
      modifies this, buf
      ensures Valid() && fit == ok
      ensures fit <==> old(ok) && old(len) + |data| <= buf.Length
      ensures Contents() == if fit then old(Contents()) + data else old(Contents())
    {
      if !ok || len + |data| > buf.Length {
        ok := false;
        return false;
      }
      forall i | 0 <= i < |data| {
        buf[len + i] := data[i];
      }
      len := len + |data|;
      fit := true;
    }

    method WriteU32(v: nat) returns (fit: bool)
      requires Valid() && v < U32
      modifies this, buf
      ensures Valid() && fit == ok
      ensures fit <==> old(ok) && old(len) + 4 <= buf.Length
      ensures Contents() == if fit then old(Contents()) + Be32(v) else old(Contents())
      ensures fit ==> var c, n := Contents(), old(len);
        && |c| == n + 4 && c[..n] == old(Contents())
        && v == 0x100_0000 * c[n] as nat + 0x1_0000 * c[n + 1] as nat + 0x100 * c[n + 2] as nat + c[n + 3] as nat
    {
      Be32RoundTrip(v, []);
      Be32Weights(Be32(v) + []);
      fit := WriteBytes(Be32(v));
    }

    method WriteU64(v: nat) returns (fit: bool)
      requires Valid() && v < U64
      modifies this, buf
      ensures Valid() && fit == ok
      ensures fit <==> old(ok) && old(len) + 8 <= buf.Length
      ensures Contents() == if fit then old(Contents()) + Be64(v) else old(Contents())
      ensures fit ==> var c, n := Contents(), old(len);
        && |c| == n + 8 && c[..n] == old(Contents())
        && v == 0x100_0000_0000_0000 * c[n] as nat + 0x1_0000_0000_0000 * c[n + 1] as nat
                + 0x100_0000_0000 * c[n + 2] as nat + 0x1_0000_0000 * c[n + 3] as nat
                + 0x100_0000 * c[n + 4] as nat + 0x1_0000 * c[n + 5] as nat + 0x100 * c[n + 6] as nat + c[n + 7] as nat
    {
      hide Be64, GetBe64;
      Be64RoundTrip(v, []);
      assert Be64(v) + [] == Be64(v);
      Be64Weights(Be64(v));
      fit := WriteBytes(Be64(v));
    }

    /** The length word is written even when the bytes behind it do not fit; the latch
        then keeps the frame from being sent. */
    method WriteString(s: Bytes) returns (fit: bool)
      requires Valid() && |s| < U32
      modifies this, buf
      ensures Valid() && fit == ok
      ensures fit <==> old(ok) && old(len) + 4 + |s| <= buf.Length
      ensures fit ==> Contents() == old(Contents()) + Str(s)
      ensures fit ==> var c, n := Contents(), old(len);
        && |c| == n + 4 + |s| && c[..n] == old(Contents()) && c[n + 4..] == s
        && |s| == 0x100_0000 * c[n] as nat + 0x1_0000 * c[n + 1] as nat + 0x100 * c[n + 2] as nat + c[n + 3] as nat
      ensures !fit ==> Contents() == old(Contents()) || Contents() == old(Contents()) + Be32(|s|)
    {
      ghost var before := Contents();
      fit := WriteU32(|s|);
      if fit {
        fit := WriteBytes(s);
        assert fit ==> before + Be32(|s|) + s == before + Str(s);
      }
    }

    /** `s` is the memory behind a C string: a terminator within `limit` bytes, or at
        least `limit` bytes to look at. */
    method WriteCString(s: Bytes, limit: nat) returns (fit: bool)
      requires Valid() && limit < U32
      requires 0 in s || limit <= |s|
      modifies this, buf
      ensures Valid() && fit == ok
      ensures fit ==> exists n :: 0 <= n < limit && n < |s| && s[n] == 0 && 0 !in s[..n] &&
                                  Contents() == old(Contents()) + Str(s[..n])
      ensures !fit && old(ok) && old(len) + 4 + limit <= buf.Length ==> limit <= |s| && 0 !in s[..limit]
    {
      var n: nat := 0;
      while n < limit && s[n] != 0
        invariant n <= limit && n <= |s| && 0 !in s[..n]
        invariant n < limit ==> n < |s|
      {
        n := n + 1;
      }
      if n == limit {
        ok := false;
        return false;
      }
      fit := WriteString(s[..n]);
    }
  }

  // ----- the reader -------------------------------------------------------------

  function Str(s: Bytes): Bytes
    requires |s| < U32
  {
    Be32(|s|) + s
  }

  /** A field taken from the front of the unread bytes, with what is left. */
  datatype Taken<T> = Short | Took(value: T, rest: Bytes)

  function TakeU32(s: Bytes): Taken<nat> {
    if |s| < 4 then Short else Took(GetBe32(s), s[4..])
  }

  function TakeU64(s: Bytes): Taken<nat> {
    if |s| < 8 then Short else Took(GetBe64(s), s[8..])
  }

  function TakeString(s: Bytes): Taken<Bytes> {
    if |s| < 4 || |s| < 4 + GetBe32(s) then Short
    else Took(s[4..4 + GetBe32(s)], s[4 + GetBe32(s)..])
  }

  /** A bounds-checked cursor over a received frame. */
  class BufferReader {
    const buf: Bytes
    var pos: nat
    ghost var rest: Bytes   // what the cursor has not passed yet

    ghost predicate Valid() reads this { pos <= |buf| && rest == buf[pos..] }

    constructor (data: Bytes)
      ensures Valid() && buf == data && rest == data
    {
      buf := data;
      pos := 0;
      rest := data;
    }

    method ReadU32() returns (ok: bool, v: nat)
      requires Valid()
      modifies this
      ensures Valid()
      ensures match TakeU32(old(rest))
              case Short => !ok && rest == old(rest)
              case Took(w, r) => ok && v == w && rest == r
      ensures ok <==> 4 <= |old(rest)|
      ensures ok ==> var b := old(rest);
        && rest == b[4..]
        && v == 0x100_0000 * b[0] as nat + 0x1_0000 * b[1] as nat + 0x100 * b[2] as nat + b[3] as nat
    {
      if pos + 4 > |buf| {
        return false, 0;
      }
      v := GetBe32(buf[pos..]);
      Be32Weights(buf[pos..]);
      pos, rest := pos + 4, rest[4..];
      ok := true;
    }

    method ReadU64() returns (ok: bool, v: nat)
      requires Valid()
      modifies this
      ensures Valid()
      ensures match TakeU64(old(rest))
              case Short => !ok && rest == old(rest)
              case Took(w, r) => ok && v == w && rest == r
      ensures ok <==> 8 <= |old(rest)|
      ensures ok ==> var b := old(rest);
        && rest == b[8..]
        && v == 0x100_0000_0000_0000 * b[0] as nat + 0x1_0000_0000_0000 * b[1] as nat
                + 0x100_0000_0000 * b[2] as nat + 0x1_0000_0000 * b[3] as nat
                + 0x100_0000 * b[4] as nat + 0x1_0000 * b[5] as nat + 0x100 * b[6] as nat + b[7] as nat
    {
      if pos + 8 > |buf| {
        return false, 0;
      }
      v := GetBe64(buf[pos..]);
      Be64Weights(buf[pos..]);
      pos, rest := pos + 8, rest[8..];
      ok := true;
    }

    method ReadBytes(n: nat) returns (ok: bool, out: Bytes)
      requires Valid()
      modifies this
      ensures Valid()
      ensures ok <==> n <= |old(rest)|
      ensures if ok then out == old(rest)[..n] && rest == old(rest)[n..] else rest == old(rest)
    {
      if pos + n > |buf| {
        return false, [];
      }
      out := buf[pos..pos + n];
      pos, rest := pos + n, rest[n..];
      ok := true;
    }

    /** A string whose bytes are cut short fails with the cursor behind its length word. */
    method ReadString() returns (ok: bool, out: Bytes)
      requires Valid()
      modifies this
      ensures Valid()
      ensures match TakeString(old(rest))
              case Short => !ok && rest == if |old(rest)| < 4 then old(rest) else old(rest)[4..]
              case Took(s, r) => ok && out == s && rest == r
      ensures ok ==> var b := old(rest);
        && 4 + |out| <= |b| && out == b[4..4 + |out|] && rest == b[4 + |out|..]
        && |out| == 0x100_0000 * b[0] as nat + 0x1_0000 * b[1] as nat + 0x100 * b[2] as nat + b[3] as nat
      ensures !ok && 4 <= |old(rest)| ==> var b := old(rest);
        |b| < 4 + 0x100_0000 * b[0] as nat + 0x1_0000 * b[1] as nat + 0x100 * b[2] as nat + b[3] as nat
    {
      ghost var before := rest;
      var n;
      ok, n := ReadU32();
      if !ok {
        return false, [];
      }
      ok, out := ReadBytes(n);
      if ok {
        assert before[4..][..n] == before[4..4 + n] && before[4..][n..] == before[4 + n..];
      }
    }
  }

  lemma StringRoundTrip(s: Bytes, rest: Bytes)
    requires |s| < U32
    ensures TakeString(Str(s) + rest) == Took(s, rest)
  {
    assert Str(s) + rest == Be32(|s|) + (s + rest);
    Be32RoundTrip(|s|, s + rest);
  }

  lemma StringSound(s: Bytes)
    requires TakeString(s).Took?
    ensures |TakeString(s).value| < U32 && s == Str(TakeString(s).value) + TakeString(s).rest
  {
    Be32Sound(s);
  }
}
