/** Decoding of the MotoROS_PlatformLib version number (lib/MotoROS_PlatformLib.h),
    a base-10 integer laid out as XXXYYYZZ: major, minor, patch. */
module PlatformLib {

  /** `MOTOROS_PLATFORM_LIB_VERSION` */
  const Version: int := 212

  datatype SemVer = SemVer(major: int, minor: int, patch: int)

  /** `MOTOROS_PLATFORM_LIB_MAJOR`, `_MINOR` and `_PATCH` applied to `v`. For a
      non-negative `v` the C truncating division is Dafny's division. */
  function Decode(v: nat): (s: SemVer)
    ensures 0 <= s.patch < 100 && 0 <= s.minor < 1000 && 0 <= s.major
    ensures v == s.major * 100000 + s.minor * 100 + s.patch
  {
    SemVer(v / 100000, v / 100 % 1000, v % 100)
  }

  /** Inverse of `Decode` on well-formed triples. */
  function Encode(s: SemVer): (v: int)
    requires 0 <= s.major && 0 <= s.minor < 1000 && 0 <= s.patch < 100
    ensures v >= 0
  {
    s.major * 100000 + s.minor * 100 + s.patch
  }

  /** Decoding then encoding gives back the version number. */
  lemma EncodeDecode(v: nat)
    ensures Encode(Decode(v)) == v
  {
  }

  /** Encoding then decoding gives back the triple: the layout is a bijection
      between versions and triples with a 3-digit minor and 2-digit patch. */
  lemma DecodeEncode(s: SemVer)
    requires 0 <= s.major && 0 <= s.minor < 1000 && 0 <= s.patch < 100
    ensures Decode(Encode(s)) == s
  {
    var v := Encode(s);
    assert v == (s.major * 1000 + s.minor) * 100 + s.patch;
    assert v / 100 == s.major * 1000 + s.minor;
    assert (s.major * 1000 + s.minor) / 1000 == s.major;
  }

  /** The shipped version 212 is 0.2.12. */
  lemma ShippedVersion()
    ensures Decode(Version) == SemVer(0, 2, 12)
  {
  }
}
