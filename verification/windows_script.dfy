/** my_pre_commit_with_windows.py: the same installer, except that
    `install_gitleaks` detects the OS and the machine itself instead of
    taking them as arguments. Its URL table is a second copy of the one in
    pre-commit-hook-implementation.py; the lemmas here show that this
    `install_gitleaks` chooses the same URL and takes the same steps as the
    other script's detection followed by its `install_gitleaks`, for every
    input. */
module WindowsScript {
  import opened Outcomes
  import opened Platform
  import opened Release
  import opened GitConfig
  import opened Installer
  import HookScript
  import Text

  /** This script's copy of the URL table, branch by branch. */
  function UrlTable(version: string, osType: string, arch: string): Result<string, Abort> {
    var base := "https://github.com/gitleaks/gitleaks/releases/download/v" + version;
    if osType == "Linux" then
      if arch == "x86_64" then Success(base + "/gitleaks_" + version + "_linux_x64.tar.gz")
      else if arch == "aarch64" then Success(base + "/gitleaks_" + version + "_linux_arm64.tar.gz")
      else Failure(ArchitectureNotSupported(arch))
    else if osType == "Darwin" then
      if arch == "arm64" then Success(base + "/gitleaks_" + version + "_darwin_arm64.tar.gz")
      else if arch == "x86_64" then Success(base + "/gitleaks_" + version + "_darwin_x64.tar.gz")
      else Failure(ArchitectureNotSupported(arch))
    else if osType == "Windows" then
      if arch == "arm64" then Success(base + "/gitleaks_" + version + "_windows_arm64.zip")
      else if arch == "x86_64" then Success(base + "/gitleaks_" + version + "_windows_x64.zip")
      else Failure(ArchitectureNotSupported(arch))
    else
      Failure(OsNotSupported(osType))
  }

  /** URL resolution inside `install_gitleaks`: detect, then look up. A
      rejected OS name raises before the table is consulted. */
  function ResolveUrl(version: string, system: string, machine: string): Result<string, Abort> {
    match GetOsType(system)
    case Failure(e) => Failure(e)
    case Success(osType) => UrlTable(version, osType, machine)
  }

  /** `install_gitleaks(destination_dir)` with the pinned version. */
  function Install(system: string, machine: string, dest: string, host: Host): Run {
    match GetOsType(system)
    case Failure(e) => Run([], Some(e), host.config)
    case Success(osType) =>
      match UrlTable(GitleaksVersion, osType, machine)
      case Failure(e) => Run([], Some(e), host.config)
      case Success(url) => AfterResolve(url, osType, dest, host)
  }

  /** The two copies of the URL table agree on every input. */
  lemma TablesAgree(version: string, osType: string, arch: string)
    ensures UrlTable(version, osType, arch) == HookScript.ResolveUrl(version, osType, arch)
  {
  }

  /** For every raw OS and machine name, this script resolves the same URL,
      or fails for the same reason, as the other script's `main` followed by
      its `install_gitleaks`. */
  lemma ResolveAgreesWithHookScript(version: string, system: string, machine: string)
    ensures ResolveUrl(version, system, machine) == HookScript.DetectAndResolve(version, system, machine)
  {
    if GetOsType(system).Success? {
      TablesAgree(version, GetOsType(system).value, machine);
    }
  }

  /** This `install_gitleaks` takes the same steps, ends with the same
      status and leaves the same configuration as the other script's
      detection followed by its `install_gitleaks`. */
  lemma InstallAgreesWithHookScript(system: string, machine: string, dest: string, host: Host)
    ensures Install(system, machine, dest, host) == HookScript.DetectAndInstall(system, machine, dest, host)
  {
    if GetOsType(system).Success? {
      TablesAgree(GitleaksVersion, GetOsType(system).value, machine);
    }
  }

  /** Resolution succeeds exactly when the OS name is recognised and the
      normalised name and the machine name form one of the six supported
      pairs; "MINGW" behaves as "Windows". */
  lemma ResolveSucceedsIffSupported(version: string, system: string, machine: string)
    ensures ResolveUrl(version, system, machine).Success?
            <==> GetOsType(system).Success? && (GetOsType(system).value, machine) in SupportedPairs
  {
    if GetOsType(system).Success? {
      TablesAgree(version, GetOsType(system).value, machine);
      HookScript.ResolveSucceedsIffSupported(version, GetOsType(system).value, machine);
    }
  }

  /** A resolved URL names a zip archive exactly for Windows, and the
      extraction branch expects the format the URL names. */
  lemma ResolvedFormatAgrees(version: string, system: string, machine: string)
    requires ResolveUrl(version, system, machine).Success?
    ensures var url := ResolveUrl(version, system, machine).value;
            var osType := GetOsType(system).value;
            && (Text.EndsWith(url, ".zip") <==> osType == "Windows")
            && Text.EndsWith(url, Extension(ExtractionFormat(osType)))
  {
    var osType := GetOsType(system).value;
    TablesAgree(version, osType, machine);
    HookScript.ResolvedExtension(version, osType, machine);
    HookScript.ResolvedFormatAgrees(version, osType, machine);
  }

  /** An unsupported OS or architecture ends the run with status 1 before
      anything is downloaded, and leaves the configuration alone. */
  lemma InstallUnsupportedStopsEarly(system: string, machine: string, dest: string, host: Host)
    requires ResolveUrl(GitleaksVersion, system, machine).Failure?
    ensures var r := Install(system, machine, dest, host);
            && r.steps == []
            && Status(r) == 1
            && r.config == host.config
  {
  }

  /** A resolved URL is downloaded exactly once, to the temporary name of
      the format it names, and the configuration ends as the enable-flag rule
      leaves it when the run succeeds. */
  lemma InstallSupportedDownloads(system: string, machine: string, dest: string, host: Host)
    requires ResolveUrl(GitleaksVersion, system, machine).Success?
    ensures var r := Install(system, machine, dest, host);
            var url := ResolveUrl(GitleaksVersion, system, machine).value;
            var format := ExtractionFormat(GetOsType(system).value);
            && Only(r.steps, DownloadStep) == [Download(url, TempName(format))]
            && Text.EndsWith(url, Extension(format))
            && r.config == (if Status(r) == 0 then EnableIfUnset(host.config) else host.config)
  {
    var osType := GetOsType(system).value;
    var url := ResolveUrl(GitleaksVersion, system, machine).value;
    ResolvedFormatAgrees(GitleaksVersion, system, machine);
    AfterResolveDownloadsOnce(url, osType, dest, host);
    AfterResolveConfig(url, osType, dest, host);
  }
}
