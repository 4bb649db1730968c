/** The ATTRS structure of section 5 of draft-ietf-secsh-filexfer-02. */
module AttrsCodec {
  import opened Types
  import opened Wire

  /** An attribute block: a group is present exactly when its flag is set. */
  datatype Attrs = Attrs(size: Option<nat>, owner: Option<(nat, nat)>, perms: Option<nat>,
                         times: Option<(nat, nat)>, extended: Option<seq<(Bytes, Bytes)>>)

  predicate Word(o: Option<nat>, bound: nat) { o.Some? ==> o.value < bound }

  predicate WordPair(o: Option<(nat, nat)>) { o.Some? ==> o.value.0 < U32 && o.value.1 < U32 }

  predicate AllFit(ps: seq<(Bytes, Bytes)>) { forall i :: 0 <= i < |ps| ==> |ps[i].0| < U32 && |ps[i].1| < U32 }

  predicate PairsFit(ps: seq<(Bytes, Bytes)>) { |ps| < U32 && AllFit(ps) }

  predicate Encodable(a: Attrs) {
    && Word(a.size, U64) && WordPair(a.owner) && Word(a.perms, U32) && WordPair(a.times)
    && (a.extended.Some? ==> PairsFit(a.extended.value))
  }

  const EXTENDED_FLAG: nat := 0x8000_0000

  function Flags(a: Attrs): nat {
    (if a.size.Some? then 1 else 0) + (if a.owner.Some? then 2 else 0) + (if a.perms.Some? then 4 else 0)
    + (if a.times.Some? then 8 else 0) + (if a.extended.Some? then EXTENDED_FLAG else 0)
  }

  predicate Bit(flags: nat, b: nat)
    requires 0 < b
  {
    flags / b % 2 == 1
  }

  /** No flag outside the five groups is set. */
  predicate Known(flags: nat) { flags % EXTENDED_FLAG < 16 }

  function EncodeWord(o: Option<nat>): Bytes
    requires Word(o, U32)
  {
    if o.Some? then Be32(o.value) else []
  }

  function EncodeSize(o: Option<nat>): Bytes
    requires Word(o, U64)
  {
    if o.Some? then Be64(o.value) else []
  }

  function EncodeWordPair(o: Option<(nat, nat)>): Bytes
    requires WordPair(o)
  {
    if o.Some? then Be32(o.value.0) + Be32(o.value.1) else []
  }

  function EncodePair(p: (Bytes, Bytes)): Bytes
    requires |p.0| < U32 && |p.1| < U32
  {
    Str(p.0) + Str(p.1)
  }

  function EncodePairs(ps: seq<(Bytes, Bytes)>): Bytes
    requires AllFit(ps)
  {
    if ps == [] then [] else EncodePair(ps[0]) + EncodePairs(ps[1..])
  }

  function EncodeExtended(o: Option<seq<(Bytes, Bytes)>>): Bytes
    requires o.Some? ==> PairsFit(o.value)
  {
    if o.Some? then Be32(|o.value|) + EncodePairs(o.value) else []
  }

  function EncodeTail(a: Attrs): Bytes
    requires Encodable(a)
  {
    EncodeWordPair(a.times) + EncodeExtended(a.extended)
  }

  function EncodeGroups(a: Attrs): Bytes
    requires Encodable(a)
  {
    EncodeSize(a.size) + (EncodeWordPair(a.owner) + (EncodeWord(a.perms) + EncodeTail(a)))
  }

  function Encode(a: Attrs): Bytes
    requires Encodable(a)
  {
    Be32(Flags(a)) + EncodeGroups(a)
  }

  // ----- decoding -----------------------------------------------------------------

  function TakeWordPair(s: Bytes): Taken<(nat, nat)> {
    match TakeU32(s)
    case Short => Short
    case Took(x, rest) =>
      match TakeU32(rest)
      case Short => Short
      case Took(y, rest') => Took((x, y), rest')
  }

  function TakePair(s: Bytes): Taken<(Bytes, Bytes)> {
    match TakeString(s)
    case Short => Short
    case Took(k, rest) =>
      match TakeString(rest)
      case Short => Short
      case Took(v, rest') => Took((k, v), rest')
  }

  function TakePairs(s: Bytes, count: nat): Taken<seq<(Bytes, Bytes)>>
    decreases count
  {
    if count == 0 then Took([], s) else
      match TakePair(s)
      case Short => Short
      case Took(p, rest) =>
        match TakePairs(rest, count - 1)
        case Short => Short
        case Took(ps, rest') => Took([p] + ps, rest')
  }

  function TakeExtended(s: Bytes): Taken<seq<(Bytes, Bytes)>> {
    match TakeU32(s)
    case Short => Short
    case Took(count, rest) => TakePairs(rest, count)
  }

  function Maybe<T>(on: bool, s: Bytes, t: Taken<T>): Taken<Option<T>> {
    if !on then Took(None, s)
    else match t
      case Short => Short
      case Took(x, rest) => Took(Some(x), rest)
  }

  function DecodeTail(flags: nat, s: Bytes): Taken<(Option<(nat, nat)>, Option<seq<(Bytes, Bytes)>>)> {
    var times := Maybe(Bit(flags, 8), s, TakeWordPair(s));
    if times.Short? then Short else
    var extended := Maybe(Bit(flags, EXTENDED_FLAG), times.rest, TakeExtended(times.rest));
    if extended.Short? then Short else
    Took((times.value, extended.value), extended.rest)
  }

  function DecodeGroups(flags: nat, s: Bytes): Taken<Attrs> {
    var size := Maybe(Bit(flags, 1), s, TakeU64(s));
    if size.Short? then Short else
    var owner := Maybe(Bit(flags, 2), size.rest, TakeWordPair(size.rest));
    if owner.Short? then Short else
    var perms := Maybe(Bit(flags, 4), owner.rest, TakeU32(owner.rest));
    if perms.Short? then Short else
    var tail := DecodeTail(flags, perms.rest);
    if tail.Short? then Short else
    Took(Attrs(size.value, owner.value, perms.value, tail.value.0, tail.value.1), tail.rest)
  }

  function Decode(s: Bytes): Taken<Attrs> {
    match TakeU32(s)
    case Short => Short
    case Took(flags, rest) => if Known(flags) then DecodeGroups(flags, rest) else Short
  }

  // ----- decoding inverts encoding --------------------------------------------------

  lemma WordPairSound(s: Bytes)
    requires TakeWordPair(s).Took?
    ensures var t := TakeWordPair(s);
            t.value.0 < U32 && t.value.1 < U32 && s == Be32(t.value.0) + Be32(t.value.1) + t.rest
  {
    Be32Sound(s);
    Be32Sound(s[4..]);
  }

  lemma PairSound(s: Bytes)
    requires TakePair(s).Took?
    ensures var t := TakePair(s);
            |t.value.0| < U32 && |t.value.1| < U32 && s == EncodePair(t.value) + t.rest
  {
    var k := TakeString(s);
    StringSound(s);
    StringSound(k.rest);
    Concat2(Str(k.value), Str(TakePair(s).value.1), TakePair(s).rest);
  }

  lemma PairRoundTrip(p: (Bytes, Bytes), rest: Bytes)
    requires |p.0| < U32 && |p.1| < U32
    ensures TakePair(EncodePair(p) + rest) == Took(p, rest)
  {
    Concat2(Str(p.0), Str(p.1), rest);
    StringRoundTrip(p.0, Str(p.1) + rest);
    StringRoundTrip(p.1, rest);
  }

  lemma {:induction false} PairsFitSound(s: Bytes, count: nat)
    requires TakePairs(s, count).Took?
    ensures |TakePairs(s, count).value| == count && AllFit(TakePairs(s, count).value)
    decreases count
  {
    hide TakePair, EncodePair;
    if count > 0 {
      PairSound(s);
      PairsFitSound(TakePair(s).rest, count - 1);
    }
  }

  lemma {:induction false} PairsSound(s: Bytes, count: nat)
    requires TakePairs(s, count).Took? && AllFit(TakePairs(s, count).value)
    ensures s == EncodePairs(TakePairs(s, count).value) + TakePairs(s, count).rest
    decreases count
  {
    hide TakePair, EncodePair;
    if count == 0 {
      assert EncodePairs([]) + s == s;
    } else {
      var p := TakePair(s);
      var ps := TakePairs(p.rest, count - 1);
      PairSound(s);
      PairsFitSound(p.rest, count - 1);
      PairsSound(p.rest, count - 1);
      EncodeCons(p.value, ps.value);
      Concat2(EncodePair(p.value), EncodePairs(ps.value), ps.rest);
    }
  }

  lemma EncodeCons(p: (Bytes, Bytes), ps: seq<(Bytes, Bytes)>)
    requires AllFit(ps) && |p.0| < U32 && |p.1| < U32
    ensures AllFit([p] + ps)
    ensures EncodePairs([p] + ps) == EncodePair(p) + EncodePairs(ps)
  {
    assert ([p] + ps)[1..] == ps;
  }

  lemma {:induction false} PairsRoundTrip(ps: seq<(Bytes, Bytes)>, rest: Bytes)
    requires AllFit(ps)
    ensures TakePairs(EncodePairs(ps) + rest, |ps|) == Took(ps, rest)
    decreases |ps|
  {
    if ps == [] {
      assert EncodePairs(ps) + rest == rest;
    } else {
      Concat2(EncodePair(ps[0]), EncodePairs(ps[1..]), rest);
      PairRoundTrip(ps[0], EncodePairs(ps[1..]) + rest);
      PairsRoundTrip(ps[1..], rest);
      assert [ps[0]] + ps[1..] == ps;
    }
  }

  lemma FlagsAreExact(flags: nat, a: Attrs)
    requires flags < U32 && Known(flags)
    requires a.size.Some? <==> Bit(flags, 1)
    requires a.owner.Some? <==> Bit(flags, 2)
    requires a.perms.Some? <==> Bit(flags, 4)
    requires a.times.Some? <==> Bit(flags, 8)
    requires a.extended.Some? <==> Bit(flags, EXTENDED_FLAG)
    ensures Flags(a) == flags
  {
    var low := flags % EXTENDED_FLAG;
    assert flags == flags / EXTENDED_FLAG * EXTENDED_FLAG + low;
    assert flags / EXTENDED_FLAG < 2;
    assert flags % 16 == low;
  }

  lemma FlagBits(a: Attrs)
    ensures Flags(a) < U32 && Known(Flags(a))
    ensures Bit(Flags(a), 1) <==> a.size.Some?
    ensures Bit(Flags(a), 2) <==> a.owner.Some?
    ensures Bit(Flags(a), 4) <==> a.perms.Some?
    ensures Bit(Flags(a), 8) <==> a.times.Some?
    ensures Bit(Flags(a), EXTENDED_FLAG) <==> a.extended.Some?
  {
  }

  /** Whatever is accepted encodes back to exactly the bytes consumed. */
  lemma DecodeSound(s: Bytes)
    requires Decode(s).Took?
    ensures Encodable(Decode(s).value) && s == Encode(Decode(s).value) + Decode(s).rest
  {
    var flags := GetBe32(s);
    var s0 := s[4..];
    var size := Maybe(Bit(flags, 1), s0, TakeU64(s0));
    var owner := Maybe(Bit(flags, 2), size.rest, TakeWordPair(size.rest));
    var perms := Maybe(Bit(flags, 4), owner.rest, TakeU32(owner.rest));
    var a := Decode(s).value;
    SizeStage(Bit(flags, 1), s0);
    WordPairStage(Bit(flags, 2), size.rest);
    WordStage(Bit(flags, 4), owner.rest);
    TailStage(flags, perms.rest, a);
    FlagsAreExact(flags, a);
    Be32Sound(s);
    Regroup(a, Decode(s).rest);
    Concat2(Be32(flags), EncodeGroups(a), Decode(s).rest);
  }

  lemma TailStage(flags: nat, s: Bytes, a: Attrs)
    requires DecodeTail(flags, s).Took? && DecodeTail(flags, s).value == (a.times, a.extended)
    requires Word(a.size, U64) && WordPair(a.owner) && Word(a.perms, U32)
    ensures a.times.Some? <==> Bit(flags, 8)
    ensures a.extended.Some? <==> Bit(flags, EXTENDED_FLAG)
    ensures Encodable(a) && s == EncodeTail(a) + DecodeTail(flags, s).rest
  {
    var times := Maybe(Bit(flags, 8), s, TakeWordPair(s));
    WordPairStage(Bit(flags, 8), s);
    ExtendedStage(Bit(flags, EXTENDED_FLAG), times.rest);
    Concat2(EncodeWordPair(a.times), EncodeExtended(a.extended), DecodeTail(flags, s).rest);
  }

  lemma Concat2(x: Bytes, y: Bytes, rest: Bytes)
    ensures x + (y + rest) == x + y + rest
  {
  }

  lemma SizeStage(on: bool, s: Bytes)
    requires Maybe(on, s, TakeU64(s)).Took?
    ensures var t := Maybe(on, s, TakeU64(s));
            (t.value.Some? <==> on) && Word(t.value, U64) && s == EncodeSize(t.value) + t.rest
  {
    if on { Be64Sound(s); }
  }

  lemma WordStage(on: bool, s: Bytes)
    requires Maybe(on, s, TakeU32(s)).Took?
    ensures var t := Maybe(on, s, TakeU32(s));
            (t.value.Some? <==> on) && Word(t.value, U32) && s == EncodeWord(t.value) + t.rest
  {
    if on { Be32Sound(s); }
  }

  lemma WordPairStage(on: bool, s: Bytes)
    requires Maybe(on, s, TakeWordPair(s)).Took?
    ensures var t := Maybe(on, s, TakeWordPair(s));
            (t.value.Some? <==> on) && WordPair(t.value) && s == EncodeWordPair(t.value) + t.rest
  {
    if on { WordPairSound(s); }
  }

  lemma ExtendedStage(on: bool, s: Bytes)
    requires Maybe(on, s, TakeExtended(s)).Took?
    ensures var t := Maybe(on, s, TakeExtended(s));
            && (t.value.Some? <==> on)
            && (t.value.Some? ==> PairsFit(t.value.value))
            && s == EncodeExtended(t.value) + t.rest
  {
    if on {
      Be32Sound(s);
      PairsFitSound(s[4..], GetBe32(s));
      PairsSound(s[4..], GetBe32(s));
      var t := TakeExtended(s);
      Concat2(Be32(|t.value|), EncodePairs(t.value), t.rest);
    }
  }

  lemma Regroup(a: Attrs, rest: Bytes)
    requires Encodable(a)
    ensures EncodeGroups(a) + rest ==
            EncodeSize(a.size) + (EncodeWordPair(a.owner) + (EncodeWord(a.perms) + (EncodeTail(a) + rest)))
  {
    var perms := EncodeWord(a.perms) + EncodeTail(a);
    Concat2(EncodeWord(a.perms), EncodeTail(a), rest);
    Concat2(EncodeWordPair(a.owner), perms, rest);
    Concat2(EncodeSize(a.size), EncodeWordPair(a.owner) + perms, rest);
  }

  lemma SizeRoundTrip(o: Option<nat>, rest: Bytes)
    requires Word(o, U64)
    ensures var s := EncodeSize(o) + rest; Maybe(o.Some?, s, TakeU64(s)) == Took(o, rest)
  {
    if o.Some? { Be64RoundTrip(o.value, rest); } else { assert EncodeSize(o) + rest == rest; }
  }

  lemma WordRoundTrip(o: Option<nat>, rest: Bytes)
    requires Word(o, U32)
    ensures var s := EncodeWord(o) + rest; Maybe(o.Some?, s, TakeU32(s)) == Took(o, rest)
  {
    if o.Some? { Be32RoundTrip(o.value, rest); } else { assert EncodeWord(o) + rest == rest; }
  }

  lemma WordPairRoundTrip(o: Option<(nat, nat)>, rest: Bytes)
    requires WordPair(o)
    ensures var s := EncodeWordPair(o) + rest; Maybe(o.Some?, s, TakeWordPair(s)) == Took(o, rest)
  {
    var s := EncodeWordPair(o) + rest;
    if o.Some? {
      Concat2(Be32(o.value.0), Be32(o.value.1), rest);
      Be32RoundTrip(o.value.0, Be32(o.value.1) + rest);
      Be32RoundTrip(o.value.1, rest);
    } else {
      assert s == rest;
    }
  }

  lemma ExtendedRoundTrip(o: Option<seq<(Bytes, Bytes)>>, rest: Bytes)
    requires o.Some? ==> PairsFit(o.value)
    ensures var s := EncodeExtended(o) + rest; Maybe(o.Some?, s, TakeExtended(s)) == Took(o, rest)
  {
    var s := EncodeExtended(o) + rest;
    if o.Some? {
      var ps := o.value;
      Concat2(Be32(|ps|), EncodePairs(ps), rest);
      Be32RoundTrip(|ps|, EncodePairs(ps) + rest);
      PairsRoundTrip(ps, rest);
    } else {
      assert s == rest;
    }
  }

  lemma TailRoundTrip(flags: nat, a: Attrs, rest: Bytes)
    requires Encodable(a)
    requires a.times.Some? <==> Bit(flags, 8)
    requires a.extended.Some? <==> Bit(flags, EXTENDED_FLAG)
    ensures DecodeTail(flags, EncodeTail(a) + rest) == Took((a.times, a.extended), rest)
  {
    Concat2(EncodeWordPair(a.times), EncodeExtended(a.extended), rest);
    WordPairRoundTrip(a.times, EncodeExtended(a.extended) + rest);
    ExtendedRoundTrip(a.extended, rest);
  }

  lemma GroupsRoundTrip(flags: nat, a: Attrs, rest: Bytes)
    requires Encodable(a)
    requires a.size.Some? <==> Bit(flags, 1)
    requires a.owner.Some? <==> Bit(flags, 2)
    requires a.perms.Some? <==> Bit(flags, 4)
    requires DecodeTail(flags, rest).Took? && DecodeTail(flags, rest).value == (a.times, a.extended)
    ensures DecodeGroups(flags, EncodeSize(a.size) + (EncodeWordPair(a.owner) + (EncodeWord(a.perms) + rest)))
            == Took(a, DecodeTail(flags, rest).rest)
  {
    hide EncodeSize, EncodeWordPair, EncodeWord, TakeU32, TakeU64, TakeWordPair, Bit, DecodeTail, Maybe;
    var s2 := EncodeWord(a.perms) + rest;
    var s1 := EncodeWordPair(a.owner) + s2;
    SizeRoundTrip(a.size, s1);
    WordPairRoundTrip(a.owner, s2);
    WordRoundTrip(a.perms, rest);
  }

  lemma DecodeFlagged(flags: nat, s: Bytes)
    requires flags < U32 && Known(flags)
    ensures Decode(Be32(flags) + s) == DecodeGroups(flags, s)
  {
    Be32RoundTrip(flags, s);
  }

  lemma GroupsInvert(flags: nat, a: Attrs, rest: Bytes)
    requires Encodable(a)
    requires a.size.Some? <==> Bit(flags, 1)
    requires a.owner.Some? <==> Bit(flags, 2)
    requires a.perms.Some? <==> Bit(flags, 4)
    requires a.times.Some? <==> Bit(flags, 8)
    requires a.extended.Some? <==> Bit(flags, EXTENDED_FLAG)
    ensures DecodeGroups(flags, EncodeGroups(a) + rest) == Took(a, rest)
  {
    TailRoundTrip(flags, a, rest);
    GroupsRoundTrip(flags, a, EncodeTail(a) + rest);
    Regroup(a, rest);
  }

  /** Decoding an encoded block gives it back and consumes exactly its bytes. */
  lemma DecodeInvertsEncode(a: Attrs, rest: Bytes)
    requires Encodable(a)
    ensures Decode(Encode(a) + rest) == Took(a, rest)
  {
    FlagBits(a);
    GroupsInvert(Flags(a), a, rest);
    DecodeFlagged(Flags(a), EncodeGroups(a) + rest);
    Concat2(Be32(Flags(a)), EncodeGroups(a), rest);
  }

  /** No strict prefix of an encoded block is accepted. */
  lemma StrictPrefixRejected(a: Attrs, n: nat)
    requires Encodable(a) && n < |Encode(a)|
    ensures Decode(Encode(a)[..n]).Short?
  {
    var whole := Encode(a);
    if Decode(whole[..n]).Took? {
      var t := Decode(whole[..n]);
      DecodeSound(whole[..n]);
      PrefixSplits(whole, n, Encode(t.value), t.rest);
      DecodeInvertsEncode(t.value, t.rest + whole[n..]);
      DecodeInvertsEncode(a, []);
      assert false;
    }
  }

  lemma PrefixSplits(whole: Bytes, n: nat, front: Bytes, rest: Bytes)
    requires n < |whole| && whole[..n] == front + rest
    ensures whole + [] == whole == front + (rest + whole[n..]) && |rest + whole[n..]| > 0
  {
    assert whole == whole[..n] + whole[n..];
  }

  // ----- the parser -----------------------------------------------------------------

  /** What callers see of an attribute block: each field with its `has` flag. */
  datatype AttrsInfo = AttrsInfo(size: Option<nat>, owner: Option<(nat, nat)>, perms: Option<nat>,
                                 times: Option<(nat, nat)>)

  function Or<T>(x: Option<T>, otherwise: Option<T>): Option<T> { if x.Some? then x else otherwise }

  /** `before` with the groups present in `a` stored over it. */
  function Overlay(before: AttrsInfo, a: Attrs): AttrsInfo {
    AttrsInfo(Or(a.size, before.size), Or(a.owner, before.owner), Or(a.perms, before.perms), Or(a.times, before.times))
  }

  method ReadWordPair(r: BufferReader) returns (ok: bool, x: nat, y: nat)
    requires r.Valid()
    modifies r
    ensures r.Valid()
    ensures match TakeWordPair(old(r.rest))
            case Short => !ok
            case Took(p, rest) => ok && (x, y) == p && r.rest == rest
  {
    y := 0;
    ok, x := r.ReadU32();
    if ok {
      ok, y := r.ReadU32();
    }
  }

  method ParseExtendedAttrs(r: BufferReader) returns (ok: bool)
    requires r.Valid()
    modifies r
    ensures r.Valid()
    ensures match TakeExtended(old(r.rest))
            case Short => !ok
            case Took(_, rest) => ok && r.rest == rest
  {
    var count;
    ok, count := r.ReadU32();
    if !ok {
      return false;
    }
    ghost var pairs := r.rest;
    for i := 0 to count
      invariant r.Valid()
      invariant TakePairs(pairs, count).Short? <==> TakePairs(r.rest, count - i).Short?
      invariant TakePairs(pairs, count).Took? ==> TakePairs(pairs, count).rest == TakePairs(r.rest, count - i).rest
    {
      var s;
      ok, s := r.ReadString();
      if ok {
        ok, s := r.ReadString();
      }
      if !ok {
        return false;
      }
    }
    return true;
  }

  method ParseSizeAttr(r: BufferReader, flags: nat, before: AttrsInfo) returns (ok: bool, out: AttrsInfo)
    requires r.Valid()
    modifies r
    ensures r.Valid()
    ensures match Maybe(Bit(flags, 1), old(r.rest), TakeU64(old(r.rest)))
            case Short => !ok
            case Took(n, rest) => ok && out == before.(size := Or(n, before.size)) && r.rest == rest
  {
    out := before;
    if !Bit(flags, 1) {
      return true, out;
    }
    var n;
    ok, n := r.ReadU64();
    if ok {
      out := before.(size := Some(n));
    }
  }

  method ParseUidGidAttr(r: BufferReader, flags: nat, before: AttrsInfo) returns (ok: bool, out: AttrsInfo)
    requires r.Valid()
    modifies r
    ensures r.Valid()
    ensures match Maybe(Bit(flags, 2), old(r.rest), TakeWordPair(old(r.rest)))
            case Short => !ok
            case Took(p, rest) => ok && out == before.(owner := Or(p, before.owner)) && r.rest == rest
  {
    out := before;
    if !Bit(flags, 2) {
      return true, out;
    }
    var x, y;
    ok, x, y := ReadWordPair(r);
    if ok {
      out := before.(owner := Some((x, y)));
    }
  }

  method ParsePermsAttr(r: BufferReader, flags: nat, before: AttrsInfo) returns (ok: bool, out: AttrsInfo)
    requires r.Valid()
    modifies r
    ensures r.Valid()
    ensures match Maybe(Bit(flags, 4), old(r.rest), TakeU32(old(r.rest)))
            case Short => !ok
            case Took(n, rest) => ok && out == before.(perms := Or(n, before.perms)) && r.rest == rest
  {
    out := before;
    if !Bit(flags, 4) {
      return true, out;
    }
    var n;
    ok, n := r.ReadU32();
    if ok {
      out := before.(perms := Some(n));
    }
  }

  method ParseAcmodTimeAttr(r: BufferReader, flags: nat, before: AttrsInfo) returns (ok: bool, out: AttrsInfo)
    requires r.Valid()
    modifies r
    ensures r.Valid()
    ensures match Maybe(Bit(flags, 8), old(r.rest), TakeWordPair(old(r.rest)))
            case Short => !ok
            case Took(p, rest) => ok && out == before.(times := Or(p, before.times)) && r.rest == rest
  {
    out := before;
    if !Bit(flags, 8) {
      return true, out;
    }
    var x, y;
    ok, x, y := ReadWordPair(r);
    if ok {
      out := before.(times := Some((x, y)));
    }
  }

  function DecodeHead(flags: nat, s: Bytes): Taken<(Option<nat>, Option<(nat, nat)>)> {
    var size := Maybe(Bit(flags, 1), s, TakeU64(s));
    if size.Short? then Short else
    var owner := Maybe(Bit(flags, 2), size.rest, TakeWordPair(size.rest));
    if owner.Short? then Short else
    Took((size.value, owner.value), owner.rest)
  }

  /** The first two groups; each is parsed only while everything before it was complete. */
  method ParseHead(r: BufferReader, flags: nat, before: AttrsInfo) returns (ok: bool, out: AttrsInfo)
    requires r.Valid()
    modifies r
    ensures r.Valid()
    ensures match DecodeHead(flags, old(r.rest))
            case Short => !ok
            case Took(v, rest) =>
              ok && r.rest == rest && out == before.(size := Or(v.0, before.size), owner := Or(v.1, before.owner))
  {
    ok, out := ParseSizeAttr(r, flags, before);
    if ok {
      ok, out := ParseUidGidAttr(r, flags, out);
    }
  }

  /** The other three groups. */
  method ParseTail(r: BufferReader, flags: nat, before: AttrsInfo) returns (ok: bool, out: AttrsInfo)
    requires r.Valid()
    modifies r
    ensures r.Valid()
    ensures var perms := Maybe(Bit(flags, 4), old(r.rest), TakeU32(old(r.rest)));
            if perms.Short? || DecodeTail(flags, perms.rest).Short? then !ok
            else var tail := DecodeTail(flags, perms.rest);
                 ok && r.rest == tail.rest &&
                 out == before.(perms := Or(perms.value, before.perms), times := Or(tail.value.0, before.times))
  {
    ok, out := ParsePermsAttr(r, flags, before);
    if ok {
      ok, out := ParseAcmodTimeAttr(r, flags, out);
    }
    if ok && Bit(flags, EXTENDED_FLAG) {
      ok := ParseExtendedAttrs(r);
    }
  }

  lemma DecodeInTwo(flags: nat, s: Bytes)
    ensures DecodeGroups(flags, s) ==
            var head := DecodeHead(flags, s);
            if head.Short? then Short else
            var perms := Maybe(Bit(flags, 4), head.rest, TakeU32(head.rest));
            if perms.Short? then Short else
            var tail := DecodeTail(flags, perms.rest);
            if tail.Short? then Short else
            Took(Attrs(head.value.0, head.value.1, perms.value, tail.value.0, tail.value.1), tail.rest)
  {
  }

  // ----- the fields, read off the bytes -----------------------------------------------

  /** The word at `at`, as far as there is one. */
  function At32(b: Bytes, at: nat): nat {
    if |b| < at + 4 then 0
    else 0x100_0000 * b[at] as nat + 0x1_0000 * b[at + 1] as nat + 0x100 * b[at + 2] as nat + b[at + 3] as nat
  }

  // Where the groups begin behind these flags, and where they end.
  function OwnerAt(flags: nat): nat { 4 + flags % 2 * 8 }
  function PermsAt(flags: nat): nat { OwnerAt(flags) + flags / 2 % 2 * 8 }
  function TimesAt(flags: nat): nat { PermsAt(flags) + flags / 4 % 2 * 4 }
  function PairsAt(flags: nat): nat { TimesAt(flags) + flags / 8 % 2 * 8 }

  /** Where `n` strings end of which the first begins at `at`. */
  function Past(b: Bytes, at: nat, n: nat): (end: Option<nat>)
    requires at <= |b|
    ensures end.Some? ==> at <= end.value <= |b|
    decreases n
  {
    if n == 0 then Some(at)
    else if |b| < at + 4 || |b| < at + 4 + At32(b, at) then None
    else Past(b, at + 4 + At32(b, at), n - 1)
  }

  /** The end of a block with these flags, when it is complete. */
  function BlockEnd(b: Bytes, flags: nat): (end: Option<nat>)
    ensures end.Some? ==> PairsAt(flags) <= end.value <= |b|
  {
    if |b| < PairsAt(flags) then None
    else if flags < 0x8000_0000 then Some(PairsAt(flags))
    else if |b| < PairsAt(flags) + 4 then None
    else Past(b, PairsAt(flags) + 4, 2 * At32(b, PairsAt(flags)))
  }

  /** These are the fields of a complete block. */
  ghost predicate FieldsAt(b: Bytes, a: Attrs) {
    var flags := At32(b, 0);
    && a.size == (if flags % 2 == 1 then Some(At32(b, 4) * 0x1_0000_0000 + At32(b, 8)) else None)
    && a.owner == (if flags / 2 % 2 == 1 then Some((At32(b, OwnerAt(flags)), At32(b, OwnerAt(flags) + 4))) else None)
    && a.perms == (if flags / 4 % 2 == 1 then Some(At32(b, PermsAt(flags))) else None)
    && a.times == (if flags / 8 % 2 == 1 then Some((At32(b, TimesAt(flags)), At32(b, TimesAt(flags) + 4))) else None)
    && (a.extended.Some? <==> 0x8000_0000 <= flags)
  }

  lemma At32Here(b: Bytes, at: nat)
    requires at + 4 <= |b|
    ensures GetBe32(b[at..]) == At32(b, at) && b[at..][4..] == b[at + 4..]
  {
    Be32Weights(b[at..]);
  }

  lemma SizeHere(b: Bytes)
    requires 12 <= |b|
    ensures TakeU64(b[4..]) == Took(At32(b, 4) * 0x1_0000_0000 + At32(b, 8), b[12..])
  {
    hide At32, GetBe32;
    At32Here(b, 4);
    At32Here(b, 8);
  }

  lemma WordsHere(b: Bytes, at: nat)
    requires at + 8 <= |b|
    ensures TakeWordPair(b[at..]) == Took((At32(b, at), At32(b, at + 4)), b[at + 8..])
  {
    hide At32, GetBe32;
    At32Here(b, at);
    At32Here(b, at + 4);
  }

  lemma TakeStringHere(b: Bytes, at: nat)
    requires at <= |b|
    ensures TakeString(b[at..]).Took? <==> Past(b, at, 1).Some?
    ensures TakeString(b[at..]).Took? ==> TakeString(b[at..]).rest == b[Past(b, at, 1).value..]
  {
    if at + 4 <= |b| {
      At32Here(b, at);
      var end := at + 4 + At32(b, at);
      assert end <= |b| ==> Past(b, end, 0) == Some(end);
    }
  }

  lemma {:induction false} TakePairsHere(b: Bytes, at: nat, count: nat)
    requires at <= |b|
    ensures TakePairs(b[at..], count).Took? <==> Past(b, at, 2 * count).Some?
    ensures TakePairs(b[at..], count).Took? ==>
      TakePairs(b[at..], count).rest == b[Past(b, at, 2 * count).value..]
    decreases count
  {
    hide TakeString, At32;
    if count > 0 {
      TakeStringHere(b, at);
      if Past(b, at, 1).Some? {
        var mid := Past(b, at, 1).value;
        TakeStringHere(b, mid);
        assert Past(b, at, 2 * count) == Past(b, mid, 2 * count - 1);
        if Past(b, mid, 1).Some? {
          assert Past(b, mid, 2 * count - 1) == Past(b, Past(b, mid, 1).value, 2 * (count - 1));
          TakePairsHere(b, Past(b, mid, 1).value, count - 1);
        }
      }
    }
  }

  lemma TailHere(b: Bytes, flags: nat)
    requires TimesAt(flags) <= |b| && flags < U32
    ensures DecodeTail(flags, b[TimesAt(flags)..]).Took? <==> BlockEnd(b, flags).Some?
    ensures DecodeTail(flags, b[TimesAt(flags)..]).Took? ==>
      var t := DecodeTail(flags, b[TimesAt(flags)..]);
      && t.value.0 == (if flags / 8 % 2 == 1 then Some((At32(b, TimesAt(flags)), At32(b, TimesAt(flags) + 4))) else None)
      && (t.value.1.Some? <==> 0x8000_0000 <= flags)
      && t.rest == b[BlockEnd(b, flags).value..]
  {
    hide At32, Past, TakePairs, GetBe32;
    var at, end := TimesAt(flags), PairsAt(flags);
    assert Bit(flags, 0x8000_0000) <==> 0x8000_0000 <= flags;
    if flags / 8 % 2 == 1 && at + 8 <= |b| {
      WordsHere(b, at);
    }
    if end <= |b| && 0x8000_0000 <= flags && end + 4 <= |b| {
      At32Here(b, end);
      TakePairsHere(b, end + 4, At32(b, end));
    }
  }

  lemma HeadHere(b: Bytes, flags: nat)
    requires 4 <= |b|
    ensures DecodeHead(flags, b[4..]).Took? <==> PermsAt(flags) <= |b|
    ensures DecodeHead(flags, b[4..]).Took? ==>
      var t := DecodeHead(flags, b[4..]);
      && t.value.0 == (if flags % 2 == 1 then Some(At32(b, 4) * 0x1_0000_0000 + At32(b, 8)) else None)
      && t.value.1 == (if flags / 2 % 2 == 1 then Some((At32(b, OwnerAt(flags)), At32(b, OwnerAt(flags) + 4))) else None)
      && t.rest == b[PermsAt(flags)..]
  {
    hide At32, GetBe32, GetBe64;
    if flags % 2 == 1 && 12 <= |b| {
      SizeHere(b);
    }
    if flags / 2 % 2 == 1 && OwnerAt(flags) + 8 <= |b| {
      WordsHere(b, OwnerAt(flags));
    }
  }

  lemma PermsHere(b: Bytes, flags: nat)
    requires PermsAt(flags) <= |b|
    ensures var t := Maybe(Bit(flags, 4), b[PermsAt(flags)..], TakeU32(b[PermsAt(flags)..]));
      && (t.Took? <==> TimesAt(flags) <= |b|)
      && (t.Took? ==> t.value == (if flags / 4 % 2 == 1 then Some(At32(b, PermsAt(flags))) else None) && t.rest == b[TimesAt(flags)..])
  {
    hide At32, GetBe32;
    if flags / 4 % 2 == 1 && PermsAt(flags) + 4 <= |b| {
      At32Here(b, PermsAt(flags));
    }
  }

  /** What a block decodes to, byte by byte: it is accepted exactly when it is complete and no other
      flag is set, and each field is the big-endian word at its place. */
  lemma DecodeReads(b: Bytes)
    ensures Decode(b).Took? <==>
      4 <= |b| && At32(b, 0) % 0x8000_0000 < 16 && BlockEnd(b, At32(b, 0)).Some?
    ensures Decode(b).Took? ==>
      && FieldsAt(b, Decode(b).value)
      && Decode(b).rest == b[BlockEnd(b, At32(b, 0)).value..]
  {
    hide DecodeHead, DecodeTail, DecodeGroups, At32, Past, BlockEnd, GetBe32, Bit, Maybe, OwnerAt;
    if 4 <= |b| {
      assert b[0..] == b;
      At32Here(b, 0);
      var flags := At32(b, 0);
      DecodeInTwo(flags, b[4..]);
      HeadHere(b, flags);
      if PermsAt(flags) <= |b| {
        PermsHere(b, flags);
      }
      if TimesAt(flags) <= |b| {
        TailHere(b, flags);
      }
    }
  }

  method ParseAttrs(r: BufferReader, before: AttrsInfo) returns (ok: bool, out: AttrsInfo)
    requires r.Valid()
    modifies r
    ensures r.Valid()
    ensures match Decode(old(r.rest))
            case Short => !ok
            case Took(a, rest) => ok && out == Overlay(before, a) && r.rest == rest
    ensures var b := old(r.rest);
      ok <==> 4 <= |b| && At32(b, 0) % 0x8000_0000 < 16 && BlockEnd(b, At32(b, 0)).Some?
    ensures ok ==> var b := old(r.rest); var flags := At32(b, 0);
      && r.rest == b[BlockEnd(b, flags).value..]
      && out.size == (if flags % 2 == 1 then Some(At32(b, 4) * 0x1_0000_0000 + At32(b, 8)) else before.size)
      && out.owner == (if flags / 2 % 2 == 1 then Some((At32(b, OwnerAt(flags)), At32(b, OwnerAt(flags) + 4))) else before.owner)
      && out.perms == (if flags / 4 % 2 == 1 then Some(At32(b, PermsAt(flags))) else before.perms)
      && out.times == (if flags / 8 % 2 == 1 then Some((At32(b, TimesAt(flags)), At32(b, TimesAt(flags) + 4))) else before.times)
  {
    hide At32, Past, BlockEnd;
    DecodeReads(r.rest);
    out := before;
    var flags;
    ok, flags := r.ReadU32();
    DecodeInTwo(flags, r.rest);
    if ok {
      ok, out := ParseHead(r, flags, out);
    }
    if ok {
      ok, out := ParseTail(r, flags, out);
    }
    ok := ok && Known(flags);
  }
}
