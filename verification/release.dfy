/** The release table: which (operating system, architecture) pairs have a
    gitleaks release asset, and the URL and archive format of each. This is
    the reference the scripts' nested `if` chains are proved against. */
module Release {
  import opened Outcomes
  import opened Platform
  import Text

  /** The gitleaks release both scripts download. */
  const GitleaksVersion := "8.17.0"

  /** The two CPU architectures with a release asset. */
  datatype Arch = X64 | Arm64

  /** The two archive formats of the release assets. */
  datatype Format = TarGz | Zip

  /** The `platform.machine()` value the table accepts for an architecture:
      Linux reports 64-bit ARM as "aarch64", macOS and Windows as "arm64". */
  function MachineName(os: Os, a: Arch): string {
    match a
    case X64 => "x86_64"
    case Arm64 => if os == Linux then "aarch64" else "arm64"
  }

  /** The architecture a raw machine name denotes on a given family, if any. */
  function ParseArch(os: Os, machine: string): (r: Option<Arch>)
    ensures r.Some? ==> MachineName(os, r.value) == machine
    ensures forall a :: machine == MachineName(os, a) ==> r == Some(a)
  {
    if machine == "x86_64" then Some(X64)
    else if machine == (if os == Linux then "aarch64" else "arm64") then Some(Arm64)
    else None
  }

  /** The architecture token in an asset name. */
  function ArchToken(a: Arch): string {
    match a
    case X64 => "x64"
    case Arm64 => "arm64"
  }

  /** The operating-system token in an asset name: the lower-cased family name. */
  function OsSlug(os: Os): string {
    match os
    case Linux => "linux"
    case Darwin => "darwin"
    case Windows => "windows"
  }

  /** Windows assets are zip archives; all others are gzip-compressed tarballs. */
  function ArchiveFormat(os: Os): Format {
    if os == Windows then Zip else TarGz
  }

  function Extension(f: Format): string {
    match f
    case TarGz => ".tar.gz"
    case Zip => ".zip"
  }

  /** The name the archive is downloaded to before extraction. */
  function TempName(f: Format): string {
    "gitleaks" + Extension(f)
  }

  /** Where every asset of a release lives. */
  function BaseUrl(version: string): string {
    "https://github.com/gitleaks/gitleaks/releases/download/v" + version
  }

  /** Everything before the platform tag: `{base}/gitleaks_{V}`. */
  function Prefix(version: string): string {
    BaseUrl(version) + "/gitleaks_" + version
  }

  /** The platform-dependent tail of an asset URL: `_{os}_{tok}{ext}`. */
  function PlatformTag(os: Os, a: Arch): string {
    "_" + OsSlug(os) + "_" + ArchToken(a) + Extension(ArchiveFormat(os))
  }

  function ReleaseUrl(version: string, os: Os, a: Arch): string {
    Prefix(version) + PlatformTag(os, a)
  }

  /** The table as data: the OS name is checked first, then the machine name. */
  function Lookup(version: string, osType: string, machine: string): Result<string, Abort> {
    match ParseOs(osType)
    case None => Failure(OsNotSupported(osType))
    case Some(os) =>
      match ParseArch(os, machine)
      case None => Failure(ArchitectureNotSupported(machine))
      case Some(a) => Success(ReleaseUrl(version, os, a))
  }

  /** The (OS name, machine name) pairs that have a release asset. */
  const SupportedPairs: set<(string, string)> := {
    ("Linux", "x86_64"), ("Linux", "aarch64"),
    ("Darwin", "arm64"), ("Darwin", "x86_64"),
    ("Windows", "arm64"), ("Windows", "x86_64")
  }

  /** There are exactly six supported pairs. */
  lemma SixSupportedPairs()
    ensures |SupportedPairs| == 6
  {
  }

  /** Lookup succeeds on exactly the supported pairs, for every version. */
  lemma LookupSucceedsIffSupported(version: string, osType: string, machine: string)
    ensures Lookup(version, osType, machine).Success? <==> (osType, machine) in SupportedPairs
  {
  }

  /** Lookup fails on an unknown OS name with that name, and on a known OS
      with an unknown machine name with the machine name. */
  lemma LookupErrors(version: string, osType: string, machine: string)
    ensures ParseOs(osType).None? ==> Lookup(version, osType, machine) == Failure(OsNotSupported(osType))
    ensures ParseOs(osType).Some? && (osType, machine) !in SupportedPairs ==>
              Lookup(version, osType, machine) == Failure(ArchitectureNotSupported(machine))
  {
  }

  /** A release URL spelled out part by part. */
  lemma ReleaseUrlParts(version: string, os: Os, a: Arch)
    ensures ReleaseUrl(version, os, a)
            == BaseUrl(version) + "/gitleaks_" + version + "_" + OsSlug(os) + "_" + ArchToken(a)
               + Extension(ArchiveFormat(os))
  {
    Text.AppendRegroup(Prefix(version), "_" , OsSlug(os), "_" + ArchToken(a), Extension(ArchiveFormat(os)));
    Text.AppendAssoc(Prefix(version) + "_" + OsSlug(os), "_", ArchToken(a));
  }

  /** Every resolved URL has the fixed shape
      `https://github.com/gitleaks/gitleaks/releases/download/v{V}/gitleaks_{V}_{os}_{tok}{ext}`
      with the OS token lower case and the extension chosen by the family. */
  lemma LookupShape(version: string, osType: string, machine: string)
    requires Lookup(version, osType, machine).Success?
    ensures exists os: Os, a: Arch ::
              && OsName(os) == osType && MachineName(os, a) == machine
              && Lookup(version, osType, machine).value
                 == BaseUrl(version) + "/gitleaks_" + version + "_" + OsSlug(os) + "_" + ArchToken(a)
                    + Extension(ArchiveFormat(os))
  {
    var os := ParseOs(osType).value;
    var a := ParseArch(os, machine).value;
    ReleaseUrlParts(version, os, a);
  }

  /** Different platforms have different tags. */
  lemma PlatformTagInjective(o1: Os, a1: Arch, o2: Os, a2: Arch)
    requires PlatformTag(o1, a1) == PlatformTag(o2, a2)
    ensures o1 == o2 && a1 == a2
  {
    var t1, t2 := PlatformTag(o1, a1), PlatformTag(o2, a2);
    // the second letter tells the family apart, the length the architecture
    assert t1[1] == t2[1];
    assert |t1| == |t2|;
  }

  /** Within one release, different platforms download from different URLs. */
  lemma ReleaseUrlInjective(version: string, o1: Os, a1: Arch, o2: Os, a2: Arch)
    requires ReleaseUrl(version, o1, a1) == ReleaseUrl(version, o2, a2)
    ensures o1 == o2 && a1 == a2
  {
    Text.CancelPrefix(Prefix(version), PlatformTag(o1, a1), PlatformTag(o2, a2));
    PlatformTagInjective(o1, a1, o2, a2);
  }

  /** The table is injective: two supported pairs with the same URL are the same pair. */
  lemma LookupInjective(version: string, t1: string, m1: string, t2: string, m2: string)
    requires Lookup(version, t1, m1).Success? && Lookup(version, t2, m2).Success?
    requires Lookup(version, t1, m1).value == Lookup(version, t2, m2).value
    ensures t1 == t2 && m1 == m2
  {
    var o1, o2 := ParseOs(t1).value, ParseOs(t2).value;
    var a1, a2 := ParseArch(o1, m1).value, ParseArch(o2, m2).value;
    ReleaseUrlInjective(version, o1, a1, o2, a2);
  }

  /** A URL ends in its family's archive extension. */
  lemma ReleaseUrlEndsWithExtension(version: string, os: Os, a: Arch)
    ensures Text.EndsWith(ReleaseUrl(version, os, a), Extension(ArchiveFormat(os)))
  {
    var head := "_" + OsSlug(os) + "_" + ArchToken(a);
    Text.AppendAssoc(Prefix(version), head, Extension(ArchiveFormat(os)));
    Text.EndsWithAppend(Prefix(version) + head, Extension(ArchiveFormat(os)));
  }

  /** A URL ends in ".zip" exactly for Windows, and in ".tar.gz" exactly
      for the other families. */
  lemma ReleaseUrlExtension(version: string, os: Os, a: Arch)
    ensures Text.EndsWith(ReleaseUrl(version, os, a), ".zip") <==> os == Windows
    ensures Text.EndsWith(ReleaseUrl(version, os, a), ".tar.gz") <==> os != Windows
  {
    var u := ReleaseUrl(version, os, a);
    ReleaseUrlEndsWithExtension(version, os, a);
    // ".zip" and ".tar.gz" differ in their last character
    Text.EndsWithLast(u, Extension(ArchiveFormat(os)));
    if Text.EndsWith(u, ".zip") {
      Text.EndsWithLast(u, ".zip");
    }
    if Text.EndsWith(u, ".tar.gz") {
      Text.EndsWithLast(u, ".tar.gz");
    }
  }
}
