/** Format and version information: the divisions that the code computes give the tables of ISO/IEC 18004:2015. */
module QrInformation {
  import opened QrTables
  import opened FunctionModules
  import opened QrPatterns

  /** The format information of each level and mask (table C.1). */
  function FormatCode(ecl: Ecc, mask: nat): bv32
    requires mask < 8
  {
    match ecl
    case Low =>
      (match mask
       case 0 => 0x77C4 case 1 => 0x72F3 case 2 => 0x7DAA case 3 => 0x789D
       case 4 => 0x662F case 5 => 0x6318 case 6 => 0x6C41 case _ => 0x6976)
    case Medium =>
      (match mask
       case 0 => 0x5412 case 1 => 0x5125 case 2 => 0x5E7C case 3 => 0x5B4B
       case 4 => 0x45F9 case 5 => 0x40CE case 6 => 0x4F97 case _ => 0x4AA0)
    case Quartile =>
      (match mask
       case 0 => 0x355F case 1 => 0x3068 case 2 => 0x3F31 case 3 => 0x3A06
       case 4 => 0x24B4 case 5 => 0x2183 case 6 => 0x2EDA case _ => 0x2BED)
    case High =>
      (match mask
       case 0 => 0x1689 case 1 => 0x13BE case 2 => 0x1CE7 case 3 => 0x19D0
       case 4 => 0x0762 case 5 => 0x0255 case 6 => 0x0D0C case _ => 0x083B)
  }

  /** The version information from version 7 on (table D.1). */
  function VersionCode(v: Version): bv32
    requires v >= 7
  {
    match v
    case 7 => 0x07C94 case 8 => 0x085BC case 9 => 0x09A99 case 10 => 0x0A4D3 case 11 => 0x0BBF6
    case 12 => 0x0C762 case 13 => 0x0D847 case 14 => 0x0E60D case 15 => 0x0F928 case 16 => 0x10B78
    case 17 => 0x1145D case 18 => 0x12A17 case 19 => 0x13532 case 20 => 0x149A6 case 21 => 0x15683
    case 22 => 0x168C9 case 23 => 0x177EC case 24 => 0x18EC4 case 25 => 0x191E1 case 26 => 0x1AFAB
    case 27 => 0x1B08E case 28 => 0x1CC1A case 29 => 0x1D33F case 30 => 0x1ED75 case 31 => 0x1F250
    case 32 => 0x209D5 case 33 => 0x216F0 case 34 => 0x228BA case 35 => 0x2379F case 36 => 0x24B0B
    case 37 => 0x2542E case 38 => 0x26A64 case 39 => 0x27541 case _ => 0x28C69
  }

  // ----- format information

  lemma LowRows(mask: nat)
    requires mask < 8
    ensures FormatBits(Low, mask) == FormatCode(Low, mask)
  {
    assert FormatRemainder(8, 5) == 0x100 && FormatRemainder(8, 10) == 0x3D6;
    assert FormatRemainder(9, 5) == 0x120 && FormatRemainder(9, 10) == 0x2E1;
    assert FormatRemainder(10, 5) == 0x140 && FormatRemainder(10, 10) == 0x1B8;
    assert FormatRemainder(11, 5) == 0x160 && FormatRemainder(11, 10) == 0x08F;
    assert FormatRemainder(12, 5) == 0x180 && FormatRemainder(12, 10) == 0x23D;
    assert FormatRemainder(13, 5) == 0x1A0 && FormatRemainder(13, 10) == 0x30A;
    assert FormatRemainder(14, 5) == 0x1C0 && FormatRemainder(14, 10) == 0x053;
    assert FormatRemainder(15, 5) == 0x1E0 && FormatRemainder(15, 10) == 0x164;
    hide FormatRemainder;
    match mask
    case 0 => case 1 => case 2 => case 3 => case 4 => case 5 => case 6 => case 7 =>
  }

  lemma MediumRows(mask: nat)
    requires mask < 8
    ensures FormatBits(Medium, mask) == FormatCode(Medium, mask)
  {
    assert FormatRemainder(0, 5) == 0x000 && FormatRemainder(0, 10) == 0x000;
    assert FormatRemainder(1, 5) == 0x020 && FormatRemainder(1, 10) == 0x137;
    assert FormatRemainder(2, 5) == 0x040 && FormatRemainder(2, 10) == 0x26E;
    assert FormatRemainder(3, 5) == 0x060 && FormatRemainder(3, 10) == 0x359;
    assert FormatRemainder(4, 5) == 0x080 && FormatRemainder(4, 10) == 0x1EB;
    assert FormatRemainder(5, 5) == 0x0A0 && FormatRemainder(5, 10) == 0x0DC;
    assert FormatRemainder(6, 5) == 0x0C0 && FormatRemainder(6, 10) == 0x385;
    assert FormatRemainder(7, 5) == 0x0E0 && FormatRemainder(7, 10) == 0x2B2;
    hide FormatRemainder;
    match mask
    case 0 => case 1 => case 2 => case 3 => case 4 => case 5 => case 6 => case 7 =>
  }

  lemma QuartileRows(mask: nat)
    requires mask < 8
    ensures FormatBits(Quartile, mask) == FormatCode(Quartile, mask)
  {
    assert FormatRemainder(24, 5) == 0x300 && FormatRemainder(24, 10) == 0x14D;
    assert FormatRemainder(25, 5) == 0x320 && FormatRemainder(25, 10) == 0x07A;
    assert FormatRemainder(26, 5) == 0x340 && FormatRemainder(26, 10) == 0x323;
    assert FormatRemainder(27, 5) == 0x360 && FormatRemainder(27, 10) == 0x214;
    assert FormatRemainder(28, 5) == 0x380 && FormatRemainder(28, 10) == 0x0A6;
    assert FormatRemainder(29, 5) == 0x3A0 && FormatRemainder(29, 10) == 0x191;
    assert FormatRemainder(30, 5) == 0x3C0 && FormatRemainder(30, 10) == 0x2C8;
    assert FormatRemainder(31, 5) == 0x3E0 && FormatRemainder(31, 10) == 0x3FF;
    hide FormatRemainder;
    match mask
    case 0 => case 1 => case 2 => case 3 => case 4 => case 5 => case 6 => case 7 =>
  }

  lemma HighRows(mask: nat)
    requires mask < 8
    ensures FormatBits(High, mask) == FormatCode(High, mask)
  {
    assert FormatRemainder(16, 5) == 0x200 && FormatRemainder(16, 10) == 0x29B;
    assert FormatRemainder(17, 5) == 0x220 && FormatRemainder(17, 10) == 0x3AC;
    assert FormatRemainder(18, 5) == 0x240 && FormatRemainder(18, 10) == 0x0F5;
    assert FormatRemainder(19, 5) == 0x260 && FormatRemainder(19, 10) == 0x1C2;
    assert FormatRemainder(20, 5) == 0x280 && FormatRemainder(20, 10) == 0x370;
    assert FormatRemainder(21, 5) == 0x2A0 && FormatRemainder(21, 10) == 0x247;
    assert FormatRemainder(22, 5) == 0x2C0 && FormatRemainder(22, 10) == 0x11E;
    assert FormatRemainder(23, 5) == 0x2E0 && FormatRemainder(23, 10) == 0x029;
    hide FormatRemainder;
    match mask
    case 0 => case 1 => case 2 => case 3 => case 4 => case 5 => case 6 => case 7 =>
  }

  lemma FormatTable(ecl: Ecc, mask: nat)
    requires mask < 8
    ensures FormatBits(ecl, mask) == FormatCode(ecl, mask)
  {
    hide FormatBits, FormatCode;
    match ecl
    case Low => LowRows(mask);
    case Medium => MediumRows(mask);
    case Quartile => QuartileRows(mask);
    case High => HighRows(mask);
  }

  // ----- version information

  lemma VersionRows7()
    ensures WithRemainder(7) == 0x07C94
    ensures WithRemainder(8) == 0x085BC
    ensures WithRemainder(9) == 0x09A99
    ensures WithRemainder(10) == 0x0A4D3
    ensures WithRemainder(11) == 0x0BBF6
    ensures WithRemainder(12) == 0x0C762
  {
    assert VersionRemainder(7, 6) == 0x1C0 && VersionRemainder(7, 12) == 0xC94;
    assert VersionRemainder(8, 6) == 0x200 && VersionRemainder(8, 12) == 0x5BC;
    assert VersionRemainder(9, 6) == 0x240 && VersionRemainder(9, 12) == 0xA99;
    assert VersionRemainder(10, 6) == 0x280 && VersionRemainder(10, 12) == 0x4D3;
    assert VersionRemainder(11, 6) == 0x2C0 && VersionRemainder(11, 12) == 0xBF6;
    assert VersionRemainder(12, 6) == 0x300 && VersionRemainder(12, 12) == 0x762;
    hide VersionRemainder;
  }

  lemma VersionsFrom7(v: Version)
    requires 7 <= v <= 12
    ensures VersionBits(v) == VersionCode(v)
  {
    hide WithRemainder;
    VersionRows7();
    match v
    case 7 => case 8 => case 9 => case 10 => case 11 => case _ =>
  }

  lemma VersionRows13()
    ensures WithRemainder(13) == 0x0D847
    ensures WithRemainder(14) == 0x0E60D
    ensures WithRemainder(15) == 0x0F928
    ensures WithRemainder(16) == 0x10B78
    ensures WithRemainder(17) == 0x1145D
    ensures WithRemainder(18) == 0x12A17
  {
    assert VersionRemainder(13, 6) == 0x340 && VersionRemainder(13, 12) == 0x847;
    assert VersionRemainder(14, 6) == 0x380 && VersionRemainder(14, 12) == 0x60D;
    assert VersionRemainder(15, 6) == 0x3C0 && VersionRemainder(15, 12) == 0x928;
    assert VersionRemainder(16, 6) == 0x400 && VersionRemainder(16, 12) == 0xB78;
    assert VersionRemainder(17, 6) == 0x440 && VersionRemainder(17, 12) == 0x45D;
    assert VersionRemainder(18, 6) == 0x480 && VersionRemainder(18, 12) == 0xA17;
    hide VersionRemainder;
  }

  lemma VersionsFrom13(v: Version)
    requires 13 <= v <= 18
    ensures VersionBits(v) == VersionCode(v)
  {
    hide WithRemainder;
    VersionRows13();
    match v
    case 13 => case 14 => case 15 => case 16 => case 17 => case _ =>
  }

  lemma VersionRows19()
    ensures WithRemainder(19) == 0x13532
    ensures WithRemainder(20) == 0x149A6
    ensures WithRemainder(21) == 0x15683
    ensures WithRemainder(22) == 0x168C9
    ensures WithRemainder(23) == 0x177EC
    ensures WithRemainder(24) == 0x18EC4
  {
    assert VersionRemainder(19, 6) == 0x4C0 && VersionRemainder(19, 12) == 0x532;
    assert VersionRemainder(20, 6) == 0x500 && VersionRemainder(20, 12) == 0x9A6;
    assert VersionRemainder(21, 6) == 0x540 && VersionRemainder(21, 12) == 0x683;
    assert VersionRemainder(22, 6) == 0x580 && VersionRemainder(22, 12) == 0x8C9;
    assert VersionRemainder(23, 6) == 0x5C0 && VersionRemainder(23, 12) == 0x7EC;
    assert VersionRemainder(24, 6) == 0x600 && VersionRemainder(24, 12) == 0xEC4;
    hide VersionRemainder;
  }

  lemma VersionsFrom19(v: Version)
    requires 19 <= v <= 24
    ensures VersionBits(v) == VersionCode(v)
  {
    hide WithRemainder;
    VersionRows19();
    match v
    case 19 => case 20 => case 21 => case 22 => case 23 => case _ =>
  }

  lemma VersionRows25()
    ensures WithRemainder(25) == 0x191E1
    ensures WithRemainder(26) == 0x1AFAB
    ensures WithRemainder(27) == 0x1B08E
    ensures WithRemainder(28) == 0x1CC1A
    ensures WithRemainder(29) == 0x1D33F
    ensures WithRemainder(30) == 0x1ED75
  {
    assert VersionRemainder(25, 6) == 0x640 && VersionRemainder(25, 12) == 0x1E1;
    assert VersionRemainder(26, 6) == 0x680 && VersionRemainder(26, 12) == 0xFAB;
    assert VersionRemainder(27, 6) == 0x6C0 && VersionRemainder(27, 12) == 0x08E;
    assert VersionRemainder(28, 6) == 0x700 && VersionRemainder(28, 12) == 0xC1A;
    assert VersionRemainder(29, 6) == 0x740 && VersionRemainder(29, 12) == 0x33F;
    assert VersionRemainder(30, 6) == 0x780 && VersionRemainder(30, 12) == 0xD75;
    hide VersionRemainder;
  }

  lemma VersionsFrom25(v: Version)
    requires 25 <= v <= 30
    ensures VersionBits(v) == VersionCode(v)
  {
    hide WithRemainder;
    VersionRows25();
    match v
    case 25 => case 26 => case 27 => case 28 => case 29 => case _ =>
  }

  lemma VersionRows31()
    ensures WithRemainder(31) == 0x1F250
    ensures WithRemainder(32) == 0x209D5
    ensures WithRemainder(33) == 0x216F0
    ensures WithRemainder(34) == 0x228BA
    ensures WithRemainder(35) == 0x2379F
  {
    assert VersionRemainder(31, 6) == 0x7C0 && VersionRemainder(31, 12) == 0x250;
    assert VersionRemainder(32, 6) == 0x800 && VersionRemainder(32, 12) == 0x9D5;
    assert VersionRemainder(33, 6) == 0x840 && VersionRemainder(33, 12) == 0x6F0;
    assert VersionRemainder(34, 6) == 0x880 && VersionRemainder(34, 12) == 0x8BA;
    assert VersionRemainder(35, 6) == 0x8C0 && VersionRemainder(35, 12) == 0x79F;
    hide VersionRemainder;
  }

  lemma VersionsFrom31(v: Version)
    requires 31 <= v <= 35
    ensures VersionBits(v) == VersionCode(v)
  {
    hide WithRemainder;
    VersionRows31();
    match v
    case 31 => case 32 => case 33 => case 34 => case _ =>
  }

  lemma VersionRows36()
    ensures WithRemainder(36) == 0x24B0B
    ensures WithRemainder(37) == 0x2542E
    ensures WithRemainder(38) == 0x26A64
    ensures WithRemainder(39) == 0x27541
    ensures WithRemainder(40) == 0x28C69
  {
    assert VersionRemainder(36, 6) == 0x900 && VersionRemainder(36, 12) == 0xB0B;
    assert VersionRemainder(37, 6) == 0x940 && VersionRemainder(37, 12) == 0x42E;
    assert VersionRemainder(38, 6) == 0x980 && VersionRemainder(38, 12) == 0xA64;
    assert VersionRemainder(39, 6) == 0x9C0 && VersionRemainder(39, 12) == 0x541;
    assert VersionRemainder(40, 6) == 0xA00 && VersionRemainder(40, 12) == 0xC69;
    hide VersionRemainder;
  }

  lemma VersionsFrom36(v: Version)
    requires 36 <= v <= 40
    ensures VersionBits(v) == VersionCode(v)
  {
    hide WithRemainder;
    VersionRows36();
    match v
    case 36 => case 37 => case 38 => case 39 => case _ =>
  }

  lemma VersionTable(v: Version)
    requires v >= 7
    ensures VersionBits(v) == VersionCode(v)
  {
    hide VersionBits, VersionCode;
    if v <= 12 {
      VersionsFrom7(v);
    } else if v <= 18 {
      VersionsFrom13(v);
    } else if v <= 24 {
      VersionsFrom19(v);
    } else if v <= 30 {
      VersionsFrom25(v);
    } else if v <= 35 {
      VersionsFrom31(v);
    } else {
      VersionsFrom36(v);
    }
  }

  // ----- the format information names its level and mask

  /** Bit i of the format information, without the fixed pattern that is laid over it. */
  function PlainBit(bits: bv32, i: nat): bool
    requires i < 32
  {
    GetBit(bits, i) != GetBit(0x5412, i)
  }

  predicate Names(bits: bv32, ecl: Ecc, mask: nat)
  {
    && PlainBit(bits, 14) == (ecl == Quartile || ecl == High) && PlainBit(bits, 13) == (ecl == Low || ecl == Quartile)
    && PlainBit(bits, 12) == (mask / 4 % 2 == 1) && PlainBit(bits, 11) == (mask / 2 % 2 == 1)
    && PlainBit(bits, 10) == (mask % 2 == 1)
  }

  lemma FormatNames(ecl: Ecc, mask: nat)
    requires mask < 8
    ensures Names(FormatBits(ecl, mask), ecl, mask)
  {
    FormatTable(ecl, mask);
    hide FormatBits, FormatCode, Names;
    match ecl
    case Low => LowNames(mask);
    case Medium => MediumNames(mask);
    case Quartile => QuartileNames(mask);
    case High => HighNames(mask);
  }

  lemma LowNames(mask: nat)
    requires mask < 8
    ensures Names(FormatCode(Low, mask), Low, mask)
  {
    match mask
    case 0 => case 1 => case 2 => case 3 => case 4 => case 5 => case 6 => case 7 =>
  }

  lemma MediumNames(mask: nat)
    requires mask < 8
    ensures Names(FormatCode(Medium, mask), Medium, mask)
  {
    match mask
    case 0 => case 1 => case 2 => case 3 => case 4 => case 5 => case 6 => case 7 =>
  }

  lemma QuartileNames(mask: nat)
    requires mask < 8
    ensures Names(FormatCode(Quartile, mask), Quartile, mask)
  {
    match mask
    case 0 => case 1 => case 2 => case 3 => case 4 => case 5 => case 6 => case 7 =>
  }

  lemma HighNames(mask: nat)
    requires mask < 8
    ensures Names(FormatCode(High, mask), High, mask)
  {
    match mask
    case 0 => case 1 => case 2 => case 3 => case 4 => case 5 => case 6 => case 7 =>
  }
}
