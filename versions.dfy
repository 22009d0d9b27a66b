/// Decoding of the packed version number that `libraw_versionNumber()`
/// returns, and the compatibility test the binding's constructor applies to it.
///
/// Python's `v >> k` is floor division by 2^k and `x & 0xff` is the
/// non-negative remainder modulo 256, for negative `v` as well; Dafny's `/`
/// and `%` by a positive constant are exactly those operations.
module Versions {
  import opened Arith

  type Octet = b: int | 0 <= b < 0x100

  datatype VersionTriple = VersionTriple(major: Octet, minor: Octet, patch: Octet)

  /** The structure mirrors of the binding follow the LibRaw 0.20 headers. */
  const SupportedMinor: Octet := 20

  /** `versionNumber()`: the three low bytes of `v`, most significant first. */
  function VersionNumber(v: int): (r: VersionTriple)
    ensures r.major * 0x1_0000 + r.minor * 0x100 + r.patch == v % 0x100_0000
  {
    var r := VersionTriple((v / 0x1_0000) % 0x100, (v / 0x100) % 0x100, v % 0x100);
    assert v / 0x100 == (v / 0x1_0000) * 0x100 + r.minor;
    assert v == (v / 0x100) * 0x100 + r.patch;
    assert v == (v / 0x1_0000) * 0x1_0000 + r.minor * 0x100 + r.patch;
    assert v / 0x1_0000 == (v / 0x100_0000) * 0x100 + r.major;
    r
  }

  /** The packing the native library uses: major, minor and patch in consecutive bytes. */
  function Packed(t: VersionTriple): (v: int)
    ensures 0 <= v < 0x100_0000
  {
    t.major * 0x1_0000 + t.minor * 0x100 + t.patch
  }

  /** Decoding a packed version gives back its three components. */
  lemma VersionRoundTrip(t: VersionTriple)
    ensures VersionNumber(Packed(t)) == t
  {
    var v := Packed(t);
    assert v == (t.major * 0x100 + t.minor) * 0x100 + t.patch;
    DivMod(t.major * 0x100 + t.minor, t.patch, 0x100);
    DivMod(t.major, t.minor, 0x100);
    assert v == t.major * 0x1_0000 + (t.minor * 0x100 + t.patch);
    DivMod(t.major, t.minor * 0x100 + t.patch, 0x1_0000);
    DivMod(0, t.major, 0x100);
  }

  /** Bits above the third byte never influence the decoded version. */
  lemma HighBitsIgnored(v: int, k: int)
    ensures VersionNumber(v + k * 0x100_0000) == VersionNumber(v)
  {
    var w := v + k * 0x100_0000;
    assert w == (v / 0x100 + k * 0x1_0000) * 0x100 + v % 0x100;
    DivMod(v / 0x100 + k * 0x1_0000, v % 0x100, 0x100);
    assert w == (v / 0x1_0000 + k * 0x100) * 0x1_0000 + v % 0x1_0000;
    DivMod(v / 0x1_0000 + k * 0x100, v % 0x1_0000, 0x1_0000);
    var hi := v / 0x100;
    assert hi + k * 0x1_0000 == (hi / 0x100 + k * 0x100) * 0x100 + hi % 0x100;
    DivMod(hi / 0x100 + k * 0x100, hi % 0x100, 0x100);
    var top := v / 0x1_0000;
    assert top + k * 0x100 == (top / 0x100 + k) * 0x100 + top % 0x100;
    DivMod(top / 0x100 + k, top % 0x100, 0x100);
  }

  /** The constructor's test: the decoded minor version is the one the mirrors were written for. */
  predicate Compatible(v: int) {
    VersionNumber(v).minor == SupportedMinor
  }

  /** Exactly the 0.20 family of any major and patch level passes the test. */
  lemma CompatibleReleases(t: VersionTriple)
    ensures Compatible(Packed(t)) <==> t.minor == 20
  {
    VersionRoundTrip(t);
  }
}
