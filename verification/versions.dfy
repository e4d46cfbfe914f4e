/**
 * The `major.minor` protocol version. The current codec (src/network/message.rs)
 * and the older one (src/network.rs) define the same `Version` with the same
 * parse and format code, so both codecs use this one module.
 */
module Versions {
  import opened Basics
  import opened Text

  type u8 = n: nat | n < 256

  datatype Version = Version(major: u8, minor: u8)

  /** The version both the client and the server implement. */
  const ProtocolVersion := Version(1, 0)

  /** Why a version string was refused; the integer parse error's detail is not kept. */
  datatype ParseVersionError =
    | NoMajor
    | NoMinor
    | ExtraStuff(rest: string)
    | MajorParseError
    | MinorParseError

  /** `Version::from_str`: split on '.', exactly two pieces, each a `u8`. */
  function ParseVersion(s: string): (r: Result<Version, ParseVersionError>)
    ensures r.Ok? ==> |Split(s, '.')| == 2
    ensures r == Err(NoMinor) <==> |Split(s, '.')| == 1
  {
    var parts := Split(s, '.');
    if |parts| < 1 then Err(NoMajor)
    else if |parts| < 2 then Err(NoMinor)
    else if |parts| > 2 then Err(ExtraStuff(parts[2]))
    else
      match ParseUnsigned(parts[0], 255)
      case None => Err(MajorParseError)
      case Some(major) =>
        match ParseUnsigned(parts[1], 255)
        case None => Err(MinorParseError)
        case Some(minor) => Ok(Version(major, minor))
  }

  /** `Display for Version`: `"<major>.<minor>"`. */
  function FormatVersion(v: Version): string {
    NatToString(v.major) + "." + NatToString(v.minor)
  }

  /** Parsing a formatted version gives the version back. */
  lemma ParseFormatVersion(v: Version)
    ensures ParseVersion(FormatVersion(v)) == Ok(v)
  {
    NatToStringIsWord(v.major);
    NatToStringIsWord(v.minor);
    var a, b := NatToString(v.major), NatToString(v.minor);
    assert FormatVersion(v) == Join([a, b], '.');
    SplitJoin([a, b], '.');
    ParseUnsignedOfNatToString(v.major, 255);
    ParseUnsignedOfNatToString(v.minor, 255);
  }

  /** A formatted version is one whitespace-free word without spaces or line breaks. */
  lemma FormatVersionIsWord(v: Version)
    ensures IsWord(FormatVersion(v))
    ensures ' ' !in FormatVersion(v) && '\n' !in FormatVersion(v)
  {
    NatToStringIsWord(v.major);
    NatToStringIsWord(v.minor);
    var s := FormatVersion(v);
    var a, b := NatToString(v.major), NatToString(v.minor);
    assert forall k :: 0 <= k < |s| ==> s[k] == '.' || s[k] in a || s[k] in b by {
      forall k | 0 <= k < |s| ensures s[k] == '.' || s[k] in a || s[k] in b {
        if k < |a| { assert s[k] == a[k]; }
        else if k > |a| { assert s[k] == b[k - |a| - 1]; }
      }
    }
  }

  /** `split` always yields a first piece, so `NoMajor` is never produced. */
  lemma ParseVersionNeverNoMajor(s: string)
    ensures ParseVersion(s) != Err(NoMajor)
  {
  }

  /** The documented examples: "1.2" parses; "1", ".1", "foo" and "1.0.3" do not. */
  lemma ParseVersionGood()
    ensures ParseVersion("1.2") == Ok(Version(1, 2))
  {
    SplitJoin(["1", "2"], '.');
    assert Join(["1", "2"], '.') == "1.2";
    assert DigitsValue("1") == 1;
    assert DigitsValue("2") == 2;
  }

  lemma ParseVersionMissingMinor()
    ensures ParseVersion("1") == Err(NoMinor)
    ensures ParseVersion("foo") == Err(NoMinor)
  {
    SplitNone("1", '.');
    SplitNone("foo", '.');
  }

  lemma ParseVersionEmptyMajor()
    ensures ParseVersion(".1") == Err(MajorParseError)
  {
    SplitJoin(["", "1"], '.');
    assert Join(["", "1"], '.') == ".1";
  }

  lemma ParseVersionExtra()
    ensures ParseVersion("1.0.3") == Err(ExtraStuff("3"))
  {
    SplitJoin(["1", "0", "3"], '.');
    assert Join(["1", "0", "3"], '.') == "1.0.3";
  }
}
