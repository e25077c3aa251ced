/** What the function modules of a QR code show, and how they are drawn. */
module QrPatterns {
  import opened QrTables
  import opened Zigzag
  import opened FunctionModules

  // ----- format and version information

  /** The two format bits of an error correction level. */
  function FormatNumber(ecl: Ecc): bv32
  {
    match ecl
    case Low => 1
    case Medium => 0
    case Quartile => 3
    case High => 2
  }

  /** One step of polynomial division over GF(2) by 0x537: shift, and subtract the generator if a bit was shifted out. */
  function FormatDivide(rem: bv32): bv32
  {
    (rem << 1) ^ (if rem & 0x200 != 0 then 0x537 else 0)
  }

  function FormatRemainder(data: bv32, steps: nat): bv32
  {
    if steps == 0 then data else FormatDivide(FormatRemainder(data, steps - 1))
  }

  function FormatBits(ecl: Ecc, mask: nat): bv32
    requires mask < 8
  {
    var data := (FormatNumber(ecl) << 3) | (mask as bv32);
    ((data << 10) | FormatRemainder(data, 10)) ^ 0x5412
  }

  /** The same by 0x1F25. */
  function VersionDivide(rem: bv32): bv32
  {
    (rem << 1) ^ (if rem & 0x800 != 0 then 0x1F25 else 0)
  }

  function VersionRemainder(v: bv32, steps: nat): bv32
  {
    if steps == 0 then v else VersionDivide(VersionRemainder(v, steps - 1))
  }

  function Joined(v: bv32, rem: bv32): bv32
  {
    (v << 12) | rem
  }

  function WithRemainder(v: bv32): bv32
  {
    Joined(v, VersionRemainder(v, 12))
  }

  function VersionBits(v: Version): bv32
  {
    WithRemainder(v as bv32)
  }

  /** Bit i of a number, the lowest being bit 0. */
  function GetBit(bits: bv32, i: nat): bool
    requires i < 32
  {
    (bits >> i) & 1 != 0
  }

  /** The format bit a module shows; the module above the lower left finder is always dark. */
  function FormatDark(n: nat, bits: bv32, p: Place): bool
    requires n >= 21 && InFormat(n, p)
  {
    if p.x == 8 then
      if p.y <= 5 then GetBit(bits, p.y)
      else if p.y <= 8 then GetBit(bits, p.y - 1)
      else p.y == n - 8 || GetBit(bits, p.y - (n - 15))
    else if p.x == 7 then GetBit(bits, 8)
    else if p.x <= 5 then GetBit(bits, 14 - p.x)
    else GetBit(bits, n - 1 - p.x)
  }

  function VersionDark(v: Version, p: Place): bool
    requires InVersion(v, p)
  {
    var n := Size(v);
    if p.x >= n - 11 then GetBit(VersionBits(v), 3 * p.y + p.x - (n - 11))
    else GetBit(VersionBits(v), 3 * p.x + p.y - (n - 11))
  }

  // ----- finders, alignment patterns and timing lines

  /** The dark rings of a finder pattern centred on (x, y). */
  predicate FinderRing(p: Place, x: int, y: int)
  {
    Distance(p, x, y) != 2 && Distance(p, x, y) != 4
  }

  predicate FinderDark(n: nat, p: Place)
  {
    if NearFinder(p, 3, n - 4) then FinderRing(p, 3, n - 4)
    else if NearFinder(p, n - 4, 3) then FinderRing(p, n - 4, 3)
    else FinderRing(p, 3, 3)
  }

  /** A module of an alignment pattern is light exactly at distance one from the centre. */
  predicate AlignLight(pos: seq<int>, p: Place, i: int, j: int)
  {
    var a := |pos|;
    exists k, l :: 0 <= k < a && 0 <= l < a && (k < i || (k == i && l < j)) && !FinderCorner(k, l, a) &&
                   Distance(p, pos[k], pos[l]) == 1
  }

  predicate InPatterns(v: Version, p: Place)
  {
    InTiming(p) || InFinders(Size(v), p) || InAlign(AlignPositions(v), p, NumAlign(v), 0)
  }

  /** What the patterns that do not depend on the data show. */
  function PatternDark(v: Version, p: Place): bool
    requires InPatterns(v, p)
  {
    if InAlign(AlignPositions(v), p, NumAlign(v), 0) then !AlignLight(AlignPositions(v), p, NumAlign(v), 0)
    else if InFinders(Size(v), p) then FinderDark(Size(v), p)
    else if p.y == 6 then p.x % 2 == 0
    else p.y % 2 == 0
  }

  /** What every function module shows once the code is complete. */
  function FunctionDark(v: Version, ecl: Ecc, mask: nat, p: Place): bool
    requires mask < 8 && IsFunction(v, p)
  {
    if InFormat(Size(v), p) then FormatDark(Size(v), FormatBits(ecl, mask), p)
    else if InVersion(v, p) then VersionDark(v, p)
    else PatternDark(v, p)
  }
}
