/** Choosing a version and packing segments into data codewords, and the decoder that undoes it. */
module QrEncoding {
  import opened Integers
  import opened Wrappers
  import opened GaloisField
  import opened QrTables
  import opened QrSymbol
  import opened QrSegments

  // ----- the least version that fits

  /** The bits that the segments need at a version, or -1 if a count field or an int is too narrow. */
  function TotalBits(segs: seq<Segment>, v: Version): int
  {
    if segs == [] then 0
    else
      var before := TotalBits(segs[..|segs| - 1], v);
      var seg := segs[|segs| - 1];
      var cc := seg.mode.CountBits(v);
      if before == -1 || seg.numChars >= Pow2(cc) || 4 + cc > INT_MAX - before then -1
      else if |seg.data| > INT_MAX - (before + 4 + cc) then -1
      else before + 4 + cc + |seg.data|
  }

  method GetTotalBits(segs: seq<Segment>, v: Version) returns (result: int)
    ensures result == TotalBits(segs, v)
  {
    hide Pow2;
    result := 0;
    for i := 0 to |segs|
      invariant result >= 0 && result == TotalBits(segs[..i], v)
    {
      assert segs[..i + 1][..i] == segs[..i];
      var seg := segs[i];
      var ccbits := seg.mode.CountBits(v);
      if seg.numChars >= Pow2(ccbits) || 4 + ccbits > INT_MAX - result || |seg.data| > INT_MAX - (result + 4 + ccbits) {
        TotalBitsTooLong(segs, v, i + 1);
        return -1;
      }
      result := result + 4 + ccbits + |seg.data|;
    }
    assert segs[..|segs|] == segs;
  }

  lemma {:induction false} TotalBitsTooLong(segs: seq<Segment>, v: Version, i: nat)
    requires i <= |segs| && TotalBits(segs[..i], v) == -1
    ensures TotalBits(segs, v) == -1
    decreases |segs| - i
  {
    if i == |segs| {
      assert segs[..i] == segs;
    } else {
      assert segs[..i + 1][..i] == segs[..i];
      TotalBitsTooLong(segs, v, i + 1);
    }
  }

  predicate Fits(segs: seq<Segment>, v: Version, ecl: Ecc)
  {
    TotalBits(segs, v) != -1 && TotalBits(segs, v) <= NumDataCodewords(v, ecl) * 8
  }

  function Rank(ecl: Ecc): nat
  {
    match ecl
    case Low => 0
    case Medium => 1
    case Quartile => 2
    case High => 3
  }

  /** The highest level, at least ecl, at which the segments still fit. */
  ghost predicate Boosted(segs: seq<Segment>, v: Version, ecl: Ecc, best: Ecc)
  {
    && Fits(segs, v, best)
    && Rank(ecl) <= Rank(best)
    && forall e :: Rank(e) > Rank(best) ==> !Fits(segs, v, e)
  }

  // ----- the data bits

  function SegmentBits(segs: seq<Segment>, v: Version): (bits: seq<bool>)
  {
    if segs == [] then []
    else
      var seg := segs[|segs| - 1];
      SegmentBits(segs[..|segs| - 1], v)
      + Bits(seg.mode.ModeBits(), 4) + Bits(seg.numChars, seg.mode.CountBits(v)) + seg.data
  }

  lemma {:induction false} SegmentBitsLength(segs: seq<Segment>, v: Version)
    requires TotalBits(segs, v) != -1
    ensures |SegmentBits(segs, v)| == TotalBits(segs, v)
    ensures forall i :: 0 <= i < |segs| ==> segs[i].numChars < Pow2(segs[i].mode.CountBits(v))
  {
    hide Pow2, Bits, Mode.CountBits, Mode.ModeBits;
    if segs != [] {
      var n := |segs| - 1;
      SegmentBitsLength(segs[..n], v);
      forall i | 0 <= i < |segs| ensures segs[i].numChars < Pow2(segs[i].mode.CountBits(v)) {
        if i < n {
          assert segs[..n][i] == segs[i];
        }
      }
    }
  }

  const PAD_EC: Byte := [true, true, true, false, true, true, false, false]
  const PAD_11: Byte := [false, false, false, true, false, false, false, true]

  /** The alternating bytes 0xEC, 0x11 that fill up the capacity. */
  function PadBytes(n: nat): (bits: seq<bool>)
    ensures |bits| == 8 * n
  {
    if n == 0 then [] else PadBytes(n - 1) + (if n % 2 == 1 then PAD_EC else PAD_11)
  }

  function Zeros(n: nat): (bits: seq<bool>)
    ensures |bits| == n
    ensures forall i :: 0 <= i < n ==> !bits[i]
  {
    seq(n, _ => false)
  }

  /** The terminator, the padding to a whole byte, and the pad bytes. */
  function Padding(used: nat, codewords: nat): (bits: seq<bool>)
    requires used <= 8 * codewords
    ensures |bits| == 8 * codewords - used
  {
    var terminator := Min(4, 8 * codewords - used);
    var toByte := (8 - (used + terminator) % 8) % 8;
    Zeros(terminator) + Zeros(toByte) + PadBytes(codewords - (used + terminator + toByte) / 8)
  }

  datatype EncodeError = InvalidRange | DataTooLong
  datatype Encoding = Encoding(version: Version, ecl: Ecc, codewords: seq<Byte>)

  method EncodeSegments(segs: seq<Segment>, ecl: Ecc, minVersion: int, maxVersion: int, mask: int, boostEcl: bool)
    returns (r: Result<Encoding, EncodeError>)
    ensures var valid := MIN_VERSION <= minVersion <= maxVersion <= MAX_VERSION && -1 <= mask <= 7;
            && (!valid ==> r == Err(InvalidRange))
            && (valid && (forall v: Version :: minVersion <= v <= maxVersion ==> !Fits(segs, v, ecl)) ==> r == Err(DataTooLong))
            && (valid && (exists v: Version :: minVersion <= v <= maxVersion && Fits(segs, v, ecl)) ==> r.Ok?)
    ensures r.Ok? ==>
              var v, best := r.value.version, r.value.ecl;
              && minVersion <= v <= maxVersion && Fits(segs, v, ecl)
              && (forall w: Version :: minVersion <= w < v ==> !Fits(segs, w, ecl))
              && (if boostEcl then Boosted(segs, v, ecl, best) else best == ecl)
              && |SegmentBits(segs, v)| <= 8 * NumDataCodewords(v, best)
              && CodewordBits(r.value.codewords) ==
                 SegmentBits(segs, v) + Padding(|SegmentBits(segs, v)|, NumDataCodewords(v, best))
  {
    if !(MIN_VERSION <= minVersion <= maxVersion <= MAX_VERSION) || mask < -1 || mask > 7 {
      return Err(InvalidRange);
    }
    hide NumDataCodewords, TotalBits, SegmentBits, Padding, Boosted, Pow2, Mode.CountBits;
    var found := FindVersion(segs, ecl, minVersion, maxVersion);
    if found.None? {
      return Err(DataTooLong);
    }
    var version := found.value;
    var best := ecl;
    if boostEcl {
      best := Boost(segs, version, ecl);
    }
    SegmentBitsLength(segs, version);
    var codewords := PackSegments(segs, version, NumDataCodewords(version, best));
    r := Ok(Encoding(version, best, codewords));
  }

  /** The versions are tried upwards, so the first that fits is the least. */
  method FindVersion(segs: seq<Segment>, ecl: Ecc, minVersion: Version, maxVersion: Version) returns (r: Option<Version>)
    requires minVersion <= maxVersion
    ensures r.None? ==> forall v: Version :: minVersion <= v <= maxVersion ==> !Fits(segs, v, ecl)
    ensures r.Some? ==> minVersion <= r.value <= maxVersion && Fits(segs, r.value, ecl)
    ensures r.Some? ==> forall w: Version :: minVersion <= w < r.value ==> !Fits(segs, w, ecl)
  {
    hide NumDataCodewords, TotalBits;
    var version := minVersion;
    while true
      invariant minVersion <= version <= maxVersion
      invariant forall w: Version :: minVersion <= w < version ==> !Fits(segs, w, ecl)
      decreases maxVersion - version
    {
      var dataCapacityBits := NumDataCodewords(version, ecl) * 8;
      var dataUsedBits := GetTotalBits(segs, version);
      if dataUsedBits != -1 && dataUsedBits <= dataCapacityBits {
        return Some(version);
      }
      if version >= maxVersion {
        return None;
      }
      version := version + 1;
    }
  }

  method Boost(segs: seq<Segment>, v: Version, ecl: Ecc) returns (best: Ecc)
    requires Fits(segs, v, ecl)
    ensures Boosted(segs, v, ecl, best)
  {
    hide NumDataCodewords, TotalBits;
    var used := GetTotalBits(segs, v);
    best := ecl;
    var levels := [Medium, Quartile, High];
    for k := 0 to 3
      invariant Fits(segs, v, best)
      invariant Rank(ecl) <= Rank(best) || Rank(ecl) > k
      invariant forall e :: Rank(best) < Rank(e) <= k ==> !Fits(segs, v, e)
    {
      if used <= NumDataCodewords(v, levels[k]) * 8 {
        best := levels[k];
      }
    }
  }

  method PackSegments(segs: seq<Segment>, v: Version, capacity: nat) returns (codewords: seq<Byte>)
    requires |SegmentBits(segs, v)| <= 8 * capacity
    requires forall i :: 0 <= i < |segs| ==> segs[i].numChars < Pow2(segs[i].mode.CountBits(v))
    ensures |codewords| == capacity
    ensures CodewordBits(codewords) == SegmentBits(segs, v) + Padding(|SegmentBits(segs, v)|, capacity)
  {
    hide Pow2, Padding, SegmentBits;
    var bb := new BitBuffer();
    ConcatSegments(bb, segs, v);
    PadToCapacity(bb, capacity);
    codewords := PackBits(bb.bits);
    UnpackBits(bb.bits);
  }

  /** Every segment contributes its mode, its count and its payload. */
  method ConcatSegments(bb: BitBuffer, segs: seq<Segment>, v: Version)
    requires bb.bits == []
    requires forall i :: 0 <= i < |segs| ==> segs[i].numChars < Pow2(segs[i].mode.CountBits(v))
    modifies bb
    ensures bb.bits == SegmentBits(segs, v)
  {
    assert Pow2(4) == 16;
    hide Bits, Pow2;
    for i := 0 to |segs|
      invariant bb.bits == SegmentBits(segs[..i], v)
    {
      assert segs[..i + 1][..i] == segs[..i];
      var seg := segs[i];
      var ok := bb.AppendBits(seg.mode.ModeBits(), 4);
      ok := bb.AppendBits(seg.numChars, seg.mode.CountBits(v));
      bb.bits := bb.bits + seg.data;
    }
    assert segs[..|segs|] == segs;
  }

  method PadToCapacity(bb: BitBuffer, capacity: nat)
    requires |bb.bits| <= 8 * capacity
    modifies bb
    ensures bb.bits == old(bb.bits) + Padding(|old(bb.bits)|, capacity)
  {
    hide Bits, Pow2, Zeros, PadBytes;
    ghost var used := |bb.bits|;
    var terminator := Min(4, 8 * capacity - |bb.bits|);
    ZeroBits(terminator);
    var ok := bb.AppendBits(0, terminator);
    ToByteBoundary(used + terminator, capacity);
    var toByte := (8 - |bb.bits| % 8) % 8;
    ZeroBits(toByte);
    ok := bb.AppendBits(0, toByte);
    PadWholeBytes(bb, capacity - |bb.bits| / 8, capacity);
  }

  lemma ToByteBoundary(n: nat, capacity: nat)
    requires n <= 8 * capacity
    ensures var m := n + (8 - n % 8) % 8; m <= 8 * capacity && m + 8 * (capacity - m / 8) == 8 * capacity
  {
  }

  /** The missing whole bytes, 0xEC first. */
  method PadWholeBytes(bb: BitBuffer, ghost missing: nat, capacity: nat)
    requires |bb.bits| + 8 * missing == 8 * capacity
    modifies bb
    ensures bb.bits == old(bb.bits) + PadBytes(missing)
  {
    PadByteBits();
    hide Bits, Pow2, PAD_EC, PAD_11;
    ghost var n := 0;
    var padEc := true;
    while |bb.bits| < 8 * capacity
      invariant n <= missing && |bb.bits| == |old(bb.bits)| + 8 * n
      invariant bb.bits == old(bb.bits) + PadBytes(n) && padEc == (n % 2 == 0)
      decreases 8 * capacity - |bb.bits|
    {
      var ok := bb.AppendBits(if padEc then 0xEC else 0x11, 8);
      padEc := !padEc;
      n := n + 1;
    }
  }

  lemma PadByteBits()
    ensures Bits(0xEC, 8) == PAD_EC && Bits(0x11, 8) == PAD_11
    ensures Pow2(8) == 256
  {
    assert Bits(0xE, 4) == [true, true, true, false];
    assert Bits(0xEC, 8) == Bits(0xE, 4) + [true, true, false, false];
    assert Bits(0x1, 4) == [false, false, false, true];
    assert Bits(0x11, 8) == Bits(0x1, 4) + [false, false, false, true];
  }

  lemma {:induction false} ZeroBits(n: nat)
    ensures Bits(0, n) == Zeros(n) && 0 < Pow2(n)
  {
    if n > 0 {
      ZeroBits(n - 1);
    }
  }

  lemma UnpackBits(bits: seq<bool>)
    requires |bits| % 8 == 0
    ensures CodewordBits(PackBits(bits)) == bits
  {
    var data := PackBits(bits);
    forall i | 0 <= i < |bits| ensures CodewordBits(data)[i] == bits[i] {
      CodewordBitAt(data, i);
    }
  }
}
