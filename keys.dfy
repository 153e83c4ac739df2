/**
 * Object-store key naming used by the export and load steps.
 *
 * The export pre-deletes, and the load statement names, the unsuffixed key
 * `export/<target>.psv.gz`; every uploaded chunk is stored under
 * `export/<target>.psv.gz.<n>`, with `<n>` written in decimal.
 */
module ObjectKeys {

  type Key = string

  predicate IsDigit(c: char) {
    '0' <= c <= '9'
  }

  function DigitChar(d: nat): (c: char)
    requires d < 10
    ensures IsDigit(c)
  {
    (d + '0' as int) as char
  }

  function DigitValue(c: char): nat {
    if IsDigit(c) then c as int - '0' as int else 0
  }

  /** Decimal rendering of a chunk number, as Ruby string interpolation writes it. */
  function Decimal(n: nat): (s: string)
    ensures |s| >= 1
    ensures s[0] == '0' ==> n == 0
    ensures forall i :: 0 <= i < |s| ==> IsDigit(s[i])
    decreases n
  {
    if n < 10 then [DigitChar(n)] else Decimal(n / 10) + [DigitChar(n % 10)]
  }

  /** Reads a string of decimal digits back as a number (the reference for Decimal). */
  function ParseDecimal(s: string): nat {
    if s == [] then 0 else ParseDecimal(s[..|s| - 1]) * 10 + DigitValue(s[|s| - 1])
  }

  lemma {:induction false} DecimalRoundTrip(n: nat)
    ensures ParseDecimal(Decimal(n)) == n
    decreases n
  {
    var s := Decimal(n);
    if n >= 10 {
      assert s[..|s| - 1] == Decimal(n / 10);
      DecimalRoundTrip(n / 10);
    }
  }

  /** The unsuffixed key a table is exported under (pre-delete and load). */
  function ExportKey(target: string): (k: Key) {
    "export/" + target + ".psv.gz"
  }

  /** The key chunk number `chunk` of a table is uploaded under. */
  function ChunkKey(target: string, chunk: nat): (k: Key) {
    ExportKey(target) + "." + Decimal(chunk)
  }

  /** The export key is the target name between the `export/` prefix and the `.psv.gz` suffix. */
  lemma ExportKeyShape(target: string)
    ensures var k := ExportKey(target);
      && |k| == |target| + 14
      && k[..7] == "export/" && k[7..|k| - 7] == target && k[|k| - 7..] == ".psv.gz"
      && !IsDigit(k[|k| - 1])
  {
  }

  /**
   * A chunk key is the export key, a dot, and the chunk number in decimal,
   * which reads back as the chunk number; so it ends in a digit.
   */
  lemma ChunkKeyShape(target: string, chunk: nat)
    ensures var k, p := ChunkKey(target, chunk), ExportKey(target) + ".";
      && |p| < |k| && k[..|p|] == p
      && ParseDecimal(k[|p|..]) == chunk
      && IsDigit(k[|k| - 1])
  {
    var k, p := ChunkKey(target, chunk), ExportKey(target) + ".";
    assert k[|p|..] == Decimal(chunk);
    DecimalRoundTrip(chunk);
    assert k[|k| - 1] == Decimal(chunk)[|Decimal(chunk)| - 1];
  }

  /** No chunk key of any table is the unsuffixed key of any table. */
  lemma ChunkKeyIsNotExportKey(target: string, other: string, chunk: nat)
    ensures ChunkKey(target, chunk) != ExportKey(other)
  {
    ChunkKeyShape(target, chunk);
    ExportKeyShape(other);
  }

  /** Different chunk numbers of one table give different keys. */
  lemma ChunkKeyInjective(target: string, n: nat, m: nat)
    requires ChunkKey(target, n) == ChunkKey(target, m)
    ensures n == m
  {
    ChunkKeyShape(target, n);
    ChunkKeyShape(target, m);
  }
}
