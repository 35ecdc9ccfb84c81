/** pre-commit-hook-implementation.py: the URL table of `install_gitleaks`
    as written, the whole install routine, and the OS detection `main` does
    before calling it. */
module HookScript {
  import opened Outcomes
  import opened Platform
  import opened Release
  import opened GitConfig
  import opened Installer
  import Text

  /** The nested `if` chain of `install_gitleaks`, branch by branch. The OS
      name is compared first; an unknown architecture and an unknown OS each end
      the process with status 1. */
  function ResolveUrl(version: string, osType: string, arch: string): Result<string, Abort> {
    var base := "https://github.com/gitleaks/gitleaks/releases/download/v" + version;
    if osType == "Linux" then
      if arch == "x86_64" then Success(base + "/gitleaks_" + version + "_linux_x64.tar.gz")
      else if arch == "aarch64" then Success(base + "/gitleaks_" + version + "_linux_arm64.tar.gz")
      else Failure(ArchitectureNotSupported(arch))
    else if osType == "Darwin" then
      if arch == "arm64" then Success(base + "/gitleaks_" + version + "_darwin_arm64.tar.gz")
      else if arch == "x86_64" then Success(base + "/gitleaks_" + version + "_darwin_x64.tar.gz")
      else Failure(ArchitectureNotSupported(arch))
    else if osType == "Windows" then
      if arch == "arm64" then Success(base + "/gitleaks_" + version + "_windows_arm64.zip")
      else if arch == "x86_64" then Success(base + "/gitleaks_" + version + "_windows_x64.zip")
      else Failure(ArchitectureNotSupported(arch))
    else
      Failure(OsNotSupported(osType))
  }

  /** The literal tail each branch of the chain appends after the version. */
  function BranchTail(os: Os, a: Arch): string {
    match os
    case Linux => (if a == X64 then "_linux_x64.tar.gz" else "_linux_arm64.tar.gz")
    case Darwin => (if a == Arm64 then "_darwin_arm64.tar.gz" else "_darwin_x64.tar.gz")
    case Windows => (if a == Arm64 then "_windows_arm64.zip" else "_windows_x64.zip")
  }

  /** Each literal tail spells the table's `_{os}_{tok}{ext}`. The six
      string comparisons are kept in separate lemmas, one per branch, so that
      each is a small proof of its own. */
  lemma BranchTailIsTag(os: Os, a: Arch)
    ensures BranchTail(os, a) == PlatformTag(os, a)
  {
    match (os, a)
    case (Linux, X64) => LinuxX64Tail();
    case (Linux, Arm64) => LinuxArm64Tail();
    case (Darwin, X64) => DarwinX64Tail();
    case (Darwin, Arm64) => DarwinArm64Tail();
    case (Windows, X64) => WindowsX64Tail();
    case (Windows, Arm64) => WindowsArm64Tail();
  }

  lemma LinuxX64Tail()
    ensures BranchTail(Linux, X64) == PlatformTag(Linux, X64)
  {
  }

  lemma LinuxArm64Tail()
    ensures BranchTail(Linux, Arm64) == PlatformTag(Linux, Arm64)
  {
  }

  lemma DarwinX64Tail()
    ensures BranchTail(Darwin, X64) == PlatformTag(Darwin, X64)
  {
  }

  lemma DarwinArm64Tail()
    ensures BranchTail(Darwin, Arm64) == PlatformTag(Darwin, Arm64)
  {
  }

  lemma WindowsX64Tail()
    ensures BranchTail(Windows, X64) == PlatformTag(Windows, X64)
  {
  }

  lemma WindowsArm64Tail()
    ensures BranchTail(Windows, Arm64) == PlatformTag(Windows, Arm64)
  {
  }

  /** The branch the chain takes for a supported platform. */
  lemma BranchTaken(version: string, os: Os, a: Arch)
    ensures ResolveUrl(version, OsName(os), MachineName(os, a)) == Success(Prefix(version) + BranchTail(os, a))
  {
  }

  /** One branch of the chain builds the URL the table gives for its platform. */
  lemma BranchIsReleaseUrl(version: string, os: Os, a: Arch)
    ensures ResolveUrl(version, OsName(os), MachineName(os, a)) == Success(ReleaseUrl(version, os, a))
  {
    BranchTaken(version, os, a);
    BranchTailIsTag(os, a);
  }

  /** The chain and the table agree on every input: same URLs on the six
      supported pairs, same failures, in the same order, everywhere else. */
  lemma ResolveUrlIsLookup(version: string, osType: string, arch: string)
    ensures ResolveUrl(version, osType, arch) == Lookup(version, osType, arch)
  {
    match ParseOs(osType)
    case None =>
    case Some(os) =>
      match ParseArch(os, arch)
      case None =>
      case Some(a) => BranchIsReleaseUrl(version, os, a);
  }

  /** Resolution succeeds for exactly the six supported pairs; Linux takes
      "aarch64" and not "arm64", Darwin and Windows the other way round. */
  lemma ResolveSucceedsIffSupported(version: string, osType: string, arch: string)
    ensures ResolveUrl(version, osType, arch).Success? <==> (osType, arch) in SupportedPairs
  {
    ResolveUrlIsLookup(version, osType, arch);
    LookupSucceedsIffSupported(version, osType, arch);
  }

  /** Every resolved URL is
      `https://github.com/gitleaks/gitleaks/releases/download/v{V}/gitleaks_{V}_{os}_{tok}{ext}`
      with `os` the lower-cased OS name, `tok` "x64" for "x86_64" and "arm64"
      for both ARM names, and `ext` the family's archive extension. */
  lemma ResolveUrlShape(version: string, osType: string, arch: string)
    requires ResolveUrl(version, osType, arch).Success?
    ensures exists os: Os, a: Arch ::
              && OsName(os) == osType && MachineName(os, a) == arch
              && ResolveUrl(version, osType, arch).value
                 == BaseUrl(version) + "/gitleaks_" + version + "_" + OsSlug(os) + "_" + ArchToken(a)
                    + Extension(ArchiveFormat(os))
  {
    ResolveUrlIsLookup(version, osType, arch);
    LookupShape(version, osType, arch);
  }

  /** Distinct supported pairs resolve to distinct URLs. */
  lemma ResolveUrlInjective(version: string, t1: string, m1: string, t2: string, m2: string)
    requires ResolveUrl(version, t1, m1).Success? && ResolveUrl(version, t2, m2).Success?
    requires ResolveUrl(version, t1, m1).value == ResolveUrl(version, t2, m2).value
    ensures t1 == t2 && m1 == m2
  {
    ResolveUrlIsLookup(version, t1, m1);
    ResolveUrlIsLookup(version, t2, m2);
    LookupInjective(version, t1, m1, t2, m2);
  }

  /** A resolved URL ends in ".zip" exactly when the OS is Windows, and in
      ".tar.gz" exactly when it is not. */
  lemma ResolvedExtension(version: string, osType: string, arch: string)
    requires ResolveUrl(version, osType, arch).Success?
    ensures var url := ResolveUrl(version, osType, arch).value;
            && (Text.EndsWith(url, ".zip") <==> osType == "Windows")
            && (Text.EndsWith(url, ".tar.gz") <==> osType != "Windows")
  {
    ResolveUrlIsLookup(version, osType, arch);
    var os := ParseOs(osType).value;
    ReleaseUrlExtension(version, os, ParseArch(os, arch).value);
  }

  /** The extraction branch, picked on its own by comparing the OS name with
      "Windows", expects the archive format the resolved URL names. */
  lemma ResolvedFormatAgrees(version: string, osType: string, arch: string)
    requires ResolveUrl(version, osType, arch).Success?
    ensures Text.EndsWith(ResolveUrl(version, osType, arch).value, Extension(ExtractionFormat(osType)))
  {
    ResolveUrlIsLookup(version, osType, arch);
    var os := ParseOs(osType).value;
    assert ExtractionFormat(osType) == ArchiveFormat(os);
    ReleaseUrlEndsWithExtension(version, os, ParseArch(os, arch).value);
  }

  /** Linux on x86_64 fetches the Linux x64 tarball. */
  lemma LinuxExample(version: string)
    ensures ResolveUrl(version, "Linux", "x86_64") == Success(Prefix(version) + "_linux_x64.tar.gz")
    ensures ResolveUrl(version, "Linux", "x86_64") == Lookup(version, "Linux", "x86_64")
  {
    ResolveUrlIsLookup(version, "Linux", "x86_64");
  }

  /** Windows on arm64 fetches the Windows arm64 zip and unpacks it as zip. */
  lemma WindowsExample(version: string)
    ensures ResolveUrl(version, "Windows", "arm64") == Success(Prefix(version) + "_windows_arm64.zip")
    ensures ResolveUrl(version, "Windows", "arm64") == Lookup(version, "Windows", "arm64")
    ensures ExtractionFormat("Windows") == Zip
  {
    ResolveUrlIsLookup(version, "Windows", "arm64");
  }

  /** No OS accepts "riscv64". */
  lemma RiscvRejected(osType: string)
    ensures ResolveUrl(GitleaksVersion, osType, "riscv64").Failure?
  {
  }

  /** `install_gitleaks(os_type, os_architecture, destination_dir)` with the
      pinned version: resolve the URL, then fetch, unpack, mark executable,
      report the version and apply the enable-flag rule. */
  function Install(osType: string, arch: string, dest: string, host: Host): Run {
    match ResolveUrl(GitleaksVersion, osType, arch)
    case Failure(e) => Run([], Some(e), host.config)
    case Success(url) => AfterResolve(url, osType, dest, host)
  }

  /** An unsupported OS or architecture ends the run with status 1 before
      any step is taken: nothing is downloaded and the configuration is left
      alone. */
  lemma InstallUnsupportedStopsEarly(osType: string, arch: string, dest: string, host: Host)
    requires (osType, arch) !in SupportedPairs
    ensures var r := Install(osType, arch, dest, host);
            && r.steps == []
            && Status(r) == 1
            && r.config == host.config
  {
    ResolveSucceedsIffSupported(GitleaksVersion, osType, arch);
  }

  /** A supported pair downloads exactly once, the table's URL, to the
      temporary name of the archive format that URL names; the run ends with
      status 0 exactly when none of the installer's actions raises. */
  lemma InstallSupportedDownloads(osType: string, arch: string, dest: string, host: Host)
    requires ResolveUrl(GitleaksVersion, osType, arch).Success?
    ensures var r := Install(osType, arch, dest, host);
            var url := ResolveUrl(GitleaksVersion, osType, arch).value;
            var format := ExtractionFormat(osType);
            && Lookup(GitleaksVersion, osType, arch) == Success(url)
            && Only(r.steps, DownloadStep) == [Download(url, TempName(format))]
            && Text.EndsWith(url, Extension(format))
            && (Status(r) == 0 <==> host.fault == NoFault)
  {
    ResolveUrlIsLookup(GitleaksVersion, osType, arch);
    ResolvedFormatAgrees(GitleaksVersion, osType, arch);
    var url := ResolveUrl(GitleaksVersion, osType, arch).value;
    AfterResolveDownloadsOnce(url, osType, dest, host);
    AfterResolveStatus(url, osType, dest, host);
  }

  /** The configuration after an install is the enable-flag rule applied
      once when the run succeeds, and untouched when it stops early. */
  lemma InstallConfig(osType: string, arch: string, dest: string, host: Host)
    ensures var r := Install(osType, arch, dest, host);
            r.config == (if Status(r) == 0 then EnableIfUnset(host.config) else host.config)
  {
    match ResolveUrl(GitleaksVersion, osType, arch)
    case Failure(_) =>
    case Success(url) => AfterResolveConfig(url, osType, dest, host);
  }

  /** `main`'s path to the installer: detect the OS name, then install with
      the machine name as the architecture. */
  function DetectAndInstall(system: string, machine: string, dest: string, host: Host): Run {
    match GetOsType(system)
    case Failure(e) => Run([], Some(e), host.config)
    case Success(osType) => Install(osType, machine, dest, host)
  }

  /** URL resolution as `main` reaches it. */
  function DetectAndResolve(version: string, system: string, machine: string): Result<string, Abort> {
    match GetOsType(system)
    case Failure(e) => Failure(e)
    case Success(osType) => ResolveUrl(version, osType, machine)
  }

  /** When the OS name comes from get_os_type, the table's "Operational
      system not supported" branch cannot be reached: every failure is the
      detection's own or an unsupported architecture. */
  lemma DetectedOsNeverUnsupported(version: string, system: string, machine: string)
    ensures DetectAndResolve(version, system, machine).Failure? ==>
              DetectAndResolve(version, system, machine).error
              in {OsRejected(system), ArchitectureNotSupported(machine)}
  {
  }

  /** The same holds of the whole install run started by `main`. */
  lemma DetectAndInstallAborts(system: string, machine: string, dest: string, host: Host)
    ensures var r := DetectAndInstall(system, machine, dest, host);
            r.abort.Some? ==> !r.abort.value.OsNotSupported?
  {
    match GetOsType(system)
    case Failure(_) =>
    case Success(osType) =>
      DetectedOsNeverUnsupported(GitleaksVersion, system, machine);
      var resolved := ResolveUrl(GitleaksVersion, osType, machine);
      if resolved.Success? {
        AfterResolveAborts(resolved.value, osType, dest, host);
      }
  }

  /** The repository `main` clones the hooks from. */
  const HooksRepo := "https://github.com/TheTopDog1/gitleaks-hooks"

  /** `os.path.join(dir, name)` for a directory without a trailing separator. */
  function JoinPath(dir: string, name: string): string {
    dir + "/" + name
  }

  /** The directories after `main` removes any old `gitleaks-hooks`
      directory (`devsecops_dir`, `.git/hooks/gitleaks-hooks`), clones the
      hooks repository into it and removes the clone's `.git`
      (lines 118-131). The clone creates `devsecops_dir`; a failing clone
      raises. The set tracks directories by path only: removing `devsecopsDir`
      stands for `shutil.rmtree`, and anything below it other than `.git`
      is not tracked. */
  function CloneHooks(dirs: set<string>, devsecopsDir: string, cloneOk: bool): (r: Result<set<string>, Abort>)
    ensures r.Success? <==> cloneOk
    ensures r.Success? ==> devsecopsDir in r.value && JoinPath(devsecopsDir, ".git") !in r.value
  {
    if !cloneOk then Failure(CloneFailed(HooksRepo))
    else
      var git := JoinPath(devsecopsDir, ".git");
      assert |git| > |devsecopsDir|;
      Success((dirs - {devsecopsDir}) + {devsecopsDir, git} - {git})
  }

  /** `os.makedirs(path)` without `exist_ok`: raises when the directory is
      already there. Only `path` is added, which is what `os.makedirs` does
      when the parent exists, as `.git/hooks` does here. */
  function MakeDirs(dirs: set<string>, path: string): Result<set<string>, Abort> {
    if path in dirs then Failure(DirectoryExists(path)) else Success(dirs + {path})
  }

  /** The install block of `main` as written (lines 111-142): detect the OS,
      clone the hooks, then `os.makedirs` the `devsecops_dir` and install
      into it. Copying the hook file is not traced. */
  function InstallBlockAsWritten(system: string, machine: string, dirs: set<string>, devsecopsDir: string,
                                 cloneOk: bool, host: Host): Run
  {
    match GetOsType(system)
    case Failure(e) => Run([], Some(e), host.config)
    case Success(osType) =>
      match CloneHooks(dirs, devsecopsDir, cloneOk)
      case Failure(e) => Run([], Some(e), host.config)
      case Success(cloned) =>
        match MakeDirs(cloned, devsecopsDir)
        case Failure(e) => Run([], Some(e), host.config)
        case Success(_) => Install(osType, machine, devsecopsDir, host)
  }

  /** As written, the block never reaches install_gitleaks: whatever the
      platform and the directories, it ends with status 1 before any step,
      and a successful clone always leads to `os.makedirs` raising on the
      directory the clone has just created. */
  lemma InstallBlockAsWrittenNeverInstalls(system: string, machine: string, dirs: set<string>, devsecopsDir: string,
                                           cloneOk: bool, host: Host)
    ensures var r := InstallBlockAsWritten(system, machine, dirs, devsecopsDir, cloneOk, host);
            && r.steps == []
            && Status(r) == 1
            && r.config == host.config
            && (GetOsType(system).Success? && cloneOk ==> r.abort == Some(DirectoryExists(devsecopsDir)))
  {
  }

  /** The install block with the directory created only when it is
      missing, as my_pre_commit_with_windows.py does at lines 128-129. */
  function InstallBlock(system: string, machine: string, dirs: set<string>, devsecopsDir: string,
                        cloneOk: bool, host: Host): Run
  {
    match GetOsType(system)
    case Failure(e) => Run([], Some(e), host.config)
    case Success(osType) =>
      match CloneHooks(dirs, devsecopsDir, cloneOk)
      case Failure(e) => Run([], Some(e), host.config)
      case Success(cloned) =>
        // The clone always leaves devsecopsDir in place, so, as with the
        // existence test after the clone in the source, MakeDirs is never reached.
        var made := if devsecopsDir in cloned then Success(cloned) else MakeDirs(cloned, devsecopsDir);
        match made
        case Failure(e) => Run([], Some(e), host.config)
        case Success(_) => Install(osType, machine, devsecopsDir, host)
  }

  /** With that change a successful clone always leads to install_gitleaks
      on `devsecops_dir`, with the OS name get_os_type detected. */
  lemma InstallBlockInstalls(system: string, machine: string, dirs: set<string>, devsecopsDir: string,
                             cloneOk: bool, host: Host)
    ensures var r := InstallBlock(system, machine, dirs, devsecopsDir, cloneOk, host);
            && (cloneOk ==> r == DetectAndInstall(system, machine, devsecopsDir, host))
            && (!cloneOk ==> r.steps == [] && Status(r) == 1 && r.config == host.config)
  {
  }
}
