/** What both scripts do once the download URL is known (the part of
    `install_gitleaks` after the URL table): fetch the archive into the
    destination directory, unpack it, delete it, make the binary executable,
    ask it for its version, apply the enable-flag rule and return to the
    original directory. External commands are recorded as a trace of steps;
    which of them raises, if any, is an input. */
module Installer {
  import opened Outcomes
  import opened Release
  import opened GitConfig

  /** `0o755`: owner may read, write and execute; everyone else may read and execute. */
  const ExecutableMode: int := 7 * 64 + 5 * 8 + 5

  /** The file the archive unpacks to. */
  const BinaryName := "gitleaks"

  /** One externally visible action of the installer. */
  datatype Step =
    | ChangeDir(dir: string)                   // os.chdir
    | Download(url: string, dest: string)      // curl -sL url -o dest
    | Extract(format: Format, archive: string) // tarfile / zipfile extractall
    | Delete(file: string)                     // os.remove
    | SetMode(file: string, mode: int)         // os.chmod
    | QueryVersion(binary: string)             // ./gitleaks version
    | ConfigGet(key: string)                   // git config --get key
    | ConfigSetBool(key: string, value: string) // git config --bool key value

  /** The kinds of step, for selecting the steps of one kind from a trace. */
  datatype Kind = DirStep | DownloadStep | ExtractStep | DeleteStep | ModeStep | QueryStep | ConfigReadStep | ConfigWriteStep

  function KindOf(s: Step): Kind {
    match s
    case ChangeDir(_) => DirStep
    case Download(_, _) => DownloadStep
    case Extract(_, _) => ExtractStep
    case Delete(_) => DeleteStep
    case SetMode(_, _) => ModeStep
    case QueryVersion(_) => QueryStep
    case ConfigGet(_) => ConfigReadStep
    case ConfigSetBool(_, _) => ConfigWriteStep
  }

  /** The first action of the install sequence that raises, if any. None of
      them is caught, so the first one that raises ends the process. */
  datatype Fault =
    | NoFault
    | DownloadFault // curl exits non-zero (check=True)
    | ExtractFault  // the archive is corrupt or incomplete
    | RemoveFault   // os.remove of the archive fails
    | ModeFault     // the archive held no file named gitleaks
    | LaunchFault   // ./gitleaks cannot be executed

  /** What the installer finds around it: the working directory to return to,
      the action that raises (if any), and the repository configuration. */
  datatype Host = Host(cwd: string, fault: Fault, config: Config)

  /** The steps taken, why the run stopped early (if it did), and the
      configuration afterwards. */
  datatype Run = Run(steps: seq<Step>, abort: Option<Abort>, config: Config)

  /** The process exit status a run ends with. */
  function Status(r: Run): int {
    match r.abort
    case None => 0
    case Some(a) => ExitStatus(a)
  }

  /** The extraction branch is picked by comparing the OS name with "Windows". */
  function ExtractionFormat(osType: string): Format {
    if osType != "Windows" then TarGz else Zip
  }

  /** Windows downloads to "gitleaks.zip" and unpacks it as zip; every other
      OS name downloads to "gitleaks.tar.gz" and unpacks it as a gzip tarball. */
  lemma ExtractionNames(osType: string)
    ensures ExtractionFormat(osType) == Zip <==> osType == "Windows"
    ensures TempName(ExtractionFormat(osType)) == (if osType == "Windows" then "gitleaks.zip" else "gitleaks.tar.gz")
  {
  }

  /** The configuration commands of the enable-flag rule: one read, and a
      write only when the read came back empty. */
  function FlagSteps(unset: bool): seq<Step> {
    [ConfigGet(EnableKey)] + (if unset then [ConfigSetBool(EnableKey, "true")] else [])
  }

  /** The steps after the fetch: unpack, clean up, mark executable, report
      the version. */
  function InstallSteps(format: Format, archive: string): seq<Step> {
    [Extract(format, archive), Delete(archive), SetMode(BinaryName, ExecutableMode), QueryVersion("./" + BinaryName)]
  }

  /** How many of the install steps a run attempts: all four unless one of
      them raises, which is then the last step taken. */
  function Attempted(fault: Fault): nat {
    match fault
    case NoFault => 4
    case DownloadFault => 0
    case ExtractFault => 1
    case RemoveFault => 2
    case ModeFault => 3
    case LaunchFault => 4
  }

  /** The steps taken once the URL is known, given the archive's format and
      name, the destination and original directories, the action that raises
      and whether the flag reads back empty. The trace stops at the step
      that raises; only a run without a fault reaches the flag rule and the
      return to the original directory. */
  function Trace(url: string, format: Format, archive: string, dest: string, cwd: string,
                 fault: Fault, unset: bool): seq<Step>
  {
    [ChangeDir(dest), Download(url, archive)]
    + InstallSteps(format, archive)[..Attempted(fault)]
    + (if fault == NoFault then FlagSteps(unset) + [ChangeDir(cwd)] else [])
  }

  /** Why a run with the given fault stops. */
  function FaultAbort(fault: Fault, url: string, archive: string): Option<Abort> {
    match fault
    case NoFault => None
    case DownloadFault => Some(DownloadFailed(url))
    case ExtractFault => Some(ExtractionFailed(archive))
    case RemoveFault => Some(RemoveFailed(archive))
    case ModeFault => Some(ModeFailed(BinaryName))
    case LaunchFault => Some(LaunchFailed("./" + BinaryName))
  }

  /** Download, unpack, delete the archive, mark executable, report the
      version, enable scanning if unset, and return to the original
      directory. An action that raises ends the process where it stands. */
  function AfterResolve(url: string, osType: string, dest: string, host: Host): Run {
    var format := ExtractionFormat(osType);
    var archive := TempName(format);
    Run(Trace(url, format, archive, dest, host.cwd, host.fault, FlagUnset(host.config)),
        FaultAbort(host.fault, url, archive),
        if host.fault == NoFault then EnableIfUnset(host.config) else host.config)
  }

  /** A step, if it is of the given kind. */
  function Pick(s: Step, kind: Kind): seq<Step> {
    if KindOf(s) == kind then [s] else []
  }

  /** The steps of one kind, in order. */
  function Only(steps: seq<Step>, kind: Kind): seq<Step>
    decreases |steps|
  {
    if steps == [] then [] else Pick(steps[0], kind) + Only(steps[1..], kind)
  }

  lemma {:induction false} OnlyAppend(a: seq<Step>, b: seq<Step>, kind: Kind)
    ensures Only(a + b, kind) == Only(a, kind) + Only(b, kind)
    decreases |a|
  {
    if a == [] {
      assert a + b == b;
    } else {
      var ab := a + b;
      assert ab[0] == a[0];
      assert ab[1..] == a[1..] + b;
      OnlyAppend(a[1..], b, kind);
      var h := Pick(a[0], kind);
      assert Only(ab, kind) == h + (Only(a[1..], kind) + Only(b, kind));
      assert h + (Only(a[1..], kind) + Only(b, kind)) == (h + Only(a[1..], kind)) + Only(b, kind);
    }
  }

  lemma OnlySingleton(s: Step, kind: Kind)
    ensures Only([s], kind) == Pick(s, kind)
  {
    assert [s][1..] == [];
  }

  /** The steps that fetch the archive, by kind. */
  lemma FetchOnly(dest: string, url: string, archive: string, kind: Kind)
    ensures Only([ChangeDir(dest), Download(url, archive)], kind)
            == if kind == DirStep then [ChangeDir(dest)]
               else if kind == DownloadStep then [Download(url, archive)]
               else []
  {
    assert [ChangeDir(dest), Download(url, archive)] == [ChangeDir(dest)] + [Download(url, archive)];
    OnlyAppend([ChangeDir(dest)], [Download(url, archive)], kind);
    OnlySingleton(ChangeDir(dest), kind);
    OnlySingleton(Download(url, archive), kind);
  }

  /** Where a kind's step sits among the install steps; 4 for the kinds
      that are not among them. */
  function InstallIndex(kind: Kind): nat {
    match kind
    case ExtractStep => 0
    case DeleteStep => 1
    case ModeStep => 2
    case QueryStep => 3
    case _ => 4
  }

  /** The install step at a position is of exactly one kind. */
  lemma InstallKinds(format: Format, archive: string, i: nat, kind: Kind)
    requires i < 4
    ensures KindOf(InstallSteps(format, archive)[i]) == kind <==> InstallIndex(kind) == i
  {
  }

  /** The first `k` install steps, by kind: the kind's one step if it is
      among them, nothing otherwise. */
  lemma {:induction false} InstallPrefixOnly(format: Format, archive: string, k: nat, kind: Kind)
    requires k <= 4
    ensures Only(InstallSteps(format, archive)[..k], kind)
            == if InstallIndex(kind) < k then [InstallSteps(format, archive)[InstallIndex(kind)]] else []
    decreases k
  {
    var s := InstallSteps(format, archive);
    if k == 0 {
      assert s[..0] == [];
    } else {
      assert s[..k] == s[..k - 1] + [s[k - 1]];
      OnlyAppend(s[..k - 1], [s[k - 1]], kind);
      OnlySingleton(s[k - 1], kind);
      InstallKinds(format, archive, k - 1, kind);
      InstallPrefixOnly(format, archive, k - 1, kind);
    }
  }

  /** The steps of the enable-flag rule, by kind: one read, and one write
      exactly when the flag is unset. */
  lemma FlagStepsOnly(unset: bool, kind: Kind)
    ensures Only(FlagSteps(unset), kind)
            == if kind == ConfigReadStep then [ConfigGet(EnableKey)]
               else if kind == ConfigWriteStep && unset then [ConfigSetBool(EnableKey, "true")]
               else []
  {
    var write := if unset then [ConfigSetBool(EnableKey, "true")] else [];
    OnlyAppend([ConfigGet(EnableKey)], write, kind);
    OnlySingleton(ConfigGet(EnableKey), kind);
    if unset {
      OnlySingleton(ConfigSetBool(EnableKey, "true"), kind);
    }
  }

  /** The steps after the install steps, by kind: the flag rule and the
      return, on a run without a fault, and nothing otherwise. */
  lemma ClosingOnly(cwd: string, fault: Fault, unset: bool, kind: Kind)
    ensures Only(if fault == NoFault then FlagSteps(unset) + [ChangeDir(cwd)] else [], kind)
            == if fault != NoFault then []
               else if kind == DirStep then [ChangeDir(cwd)]
               else if kind == ConfigReadStep then [ConfigGet(EnableKey)]
               else if kind == ConfigWriteStep && unset then [ConfigSetBool(EnableKey, "true")]
               else []
  {
    if fault == NoFault {
      OnlyAppend(FlagSteps(unset), [ChangeDir(cwd)], kind);
      FlagStepsOnly(unset, kind);
      OnlySingleton(ChangeDir(cwd), kind);
    }
  }

  /** A trace's steps of one kind, segment by segment. */
  lemma TraceOnly(url: string, format: Format, archive: string, dest: string, cwd: string,
                  fault: Fault, unset: bool, kind: Kind)
    ensures Only(Trace(url, format, archive, dest, cwd, fault, unset), kind)
            == Only([ChangeDir(dest), Download(url, archive)], kind)
               + Only(InstallSteps(format, archive)[..Attempted(fault)], kind)
               + Only(if fault == NoFault then FlagSteps(unset) + [ChangeDir(cwd)] else [], kind)
  {
    var fetch := [ChangeDir(dest), Download(url, archive)];
    var middle := InstallSteps(format, archive)[..Attempted(fault)];
    var closing := if fault == NoFault then FlagSteps(unset) + [ChangeDir(cwd)] else [];
    OnlyAppend(fetch + middle, closing, kind);
    OnlyAppend(fetch, middle, kind);
  }

  /** A trace's steps of a kind outside the install steps. */
  lemma TraceOuterOnly(url: string, format: Format, archive: string, dest: string, cwd: string,
                       fault: Fault, unset: bool, kind: Kind)
    requires InstallIndex(kind) == 4
    ensures Only(Trace(url, format, archive, dest, cwd, fault, unset), kind)
            == Only([ChangeDir(dest), Download(url, archive)], kind)
               + Only(if fault == NoFault then FlagSteps(unset) + [ChangeDir(cwd)] else [], kind)
  {
    TraceOnly(url, format, archive, dest, cwd, fault, unset, kind);
    InstallPrefixOnly(format, archive, Attempted(fault), kind);
  }

  /** A trace's steps of one of the install kinds: its step when the run
      got that far, nothing otherwise. */
  lemma TraceInstallOnly(url: string, format: Format, archive: string, dest: string, cwd: string,
                         fault: Fault, unset: bool, kind: Kind)
    requires InstallIndex(kind) < 4
    ensures Only(Trace(url, format, archive, dest, cwd, fault, unset), kind)
            == if InstallIndex(kind) < Attempted(fault) then [InstallSteps(format, archive)[InstallIndex(kind)]] else []
  {
    TraceOnly(url, format, archive, dest, cwd, fault, unset, kind);
    FetchOnly(dest, url, archive, kind);
    InstallPrefixOnly(format, archive, Attempted(fault), kind);
    ClosingOnly(cwd, fault, unset, kind);
  }

  /** Every trace downloads exactly once. */
  lemma TraceDownloadsOnce(url: string, format: Format, archive: string, dest: string, cwd: string,
                           fault: Fault, unset: bool)
    ensures Only(Trace(url, format, archive, dest, cwd, fault, unset), DownloadStep)
            == [Download(url, archive)]
  {
    TraceOuterOnly(url, format, archive, dest, cwd, fault, unset, DownloadStep);
    FetchOnly(dest, url, archive, DownloadStep);
    ClosingOnly(cwd, fault, unset, DownloadStep);
  }

  /** When the run gets as far as the version query, the binary is made
      executable in the step just before; a run without a fault ends by
      returning to the original directory. */
  lemma TraceModeThenQuery(url: string, format: Format, archive: string, dest: string, cwd: string,
                           fault: Fault, unset: bool)
    ensures var steps := Trace(url, format, archive, dest, cwd, fault, unset);
            && (Attempted(fault) == 4 ==>
                  && 5 < |steps|
                  && steps[4] == SetMode(BinaryName, ExecutableMode)
                  && steps[5] == QueryVersion("./" + BinaryName))
            && (fault == NoFault ==> steps != [] && steps[|steps| - 1] == ChangeDir(cwd))
  {
    var s := InstallSteps(format, archive);
    if Attempted(fault) == 4 {
      var head := [ChangeDir(dest), Download(url, archive)] + s[..4];
      assert s[..4] == s;
      assert |head| == 6;
      assert head[4] == SetMode(BinaryName, ExecutableMode);
      assert head[5] == QueryVersion("./" + BinaryName);
    }
  }

  /** A trace writes the configuration once when the run has no fault and
      the flag was unset, and never otherwise. */
  lemma TraceConfigWrites(url: string, format: Format, archive: string, dest: string, cwd: string,
                          fault: Fault, unset: bool)
    ensures Only(Trace(url, format, archive, dest, cwd, fault, unset), ConfigWriteStep)
            == if fault == NoFault && unset then [ConfigSetBool(EnableKey, "true")] else []
  {
    TraceOuterOnly(url, format, archive, dest, cwd, fault, unset, ConfigWriteStep);
    FetchOnly(dest, url, archive, ConfigWriteStep);
    ClosingOnly(cwd, fault, unset, ConfigWriteStep);
  }

  /** A trace changes into the destination first, and changes back to the
      original directory only when the run has no fault. */
  lemma TraceDirectories(url: string, format: Format, archive: string, dest: string, cwd: string,
                         fault: Fault, unset: bool)
    ensures Only(Trace(url, format, archive, dest, cwd, fault, unset), DirStep)
            == if fault == NoFault then [ChangeDir(dest), ChangeDir(cwd)] else [ChangeDir(dest)]
  {
    TraceOuterOnly(url, format, archive, dest, cwd, fault, unset, DirStep);
    FetchOnly(dest, url, archive, DirStep);
    ClosingOnly(cwd, fault, unset, DirStep);
  }

  /** A run after URL resolution ends with status 0 exactly when none of
      its actions raises, and with status 1 otherwise. */
  lemma AfterResolveStatus(url: string, osType: string, dest: string, host: Host)
    ensures var r := AfterResolve(url, osType, dest, host);
            && (Status(r) == 0 <==> host.fault == NoFault)
            && (Status(r) != 0 ==> Status(r) == 1)
  {
  }

  /** Every fault stops the run with the failure of its own action. */
  lemma FaultAbortKinds(fault: Fault, url: string, archive: string)
    ensures FaultAbort(fault, url, archive).Some? <==> fault != NoFault
    ensures FaultAbort(fault, url, archive).Some? ==>
              FaultAbort(fault, url, archive).value
              in {DownloadFailed(url), ExtractionFailed(archive), RemoveFailed(archive),
                  ModeFailed(BinaryName), LaunchFailed("./" + BinaryName)}
  {
  }

  /** A run after URL resolution can only stop because one of its own
      actions raised: the download, the unpacking, the removal of the
      archive, the chmod or the launch of the binary. */
  lemma AfterResolveAborts(url: string, osType: string, dest: string, host: Host)
    ensures var r := AfterResolve(url, osType, dest, host);
            var archive := TempName(ExtractionFormat(osType));
            r.abort.Some? ==>
              r.abort.value in {DownloadFailed(url), ExtractionFailed(archive), RemoveFailed(archive),
                                ModeFailed(BinaryName), LaunchFailed("./" + BinaryName)}
  {
    var archive := TempName(ExtractionFormat(osType));
    FaultAbortKinds(host.fault, url, archive);
    assert AfterResolve(url, osType, dest, host).abort == FaultAbort(host.fault, url, archive);
  }

  /** Whatever the host, a run after URL resolution downloads exactly once:
      the given URL, to the temporary archive name its extraction format
      dictates. */
  lemma AfterResolveDownloadsOnce(url: string, osType: string, dest: string, host: Host)
    ensures Only(AfterResolve(url, osType, dest, host).steps, DownloadStep)
            == [Download(url, TempName(ExtractionFormat(osType)))]
  {
    var format := ExtractionFormat(osType);
    TraceDownloadsOnce(url, format, TempName(format), dest, host.cwd, host.fault, FlagUnset(host.config));
  }

  /** Once the download succeeds the archive is unpacked exactly once; once
      the unpacking succeeds the archive is deleted exactly once. */
  lemma TraceUnpacks(url: string, format: Format, archive: string, dest: string, cwd: string,
                     fault: Fault, unset: bool)
    ensures var steps := Trace(url, format, archive, dest, cwd, fault, unset);
            && Only(steps, ExtractStep) == (if fault == DownloadFault then [] else [Extract(format, archive)])
            && Only(steps, DeleteStep) == (if fault in {DownloadFault, ExtractFault} then [] else [Delete(archive)])
  {
    TraceInstallOnly(url, format, archive, dest, cwd, fault, unset, ExtractStep);
    TraceInstallOnly(url, format, archive, dest, cwd, fault, unset, DeleteStep);
  }

  /** Once the archive is deleted the binary's mode is set once; once that
      succeeds the binary is run once. */
  lemma TraceRuns(url: string, format: Format, archive: string, dest: string, cwd: string,
                  fault: Fault, unset: bool)
    ensures var steps := Trace(url, format, archive, dest, cwd, fault, unset);
            && Only(steps, ModeStep)
               == (if fault in {DownloadFault, ExtractFault, RemoveFault} then [] else [SetMode(BinaryName, ExecutableMode)])
            && Only(steps, QueryStep)
               == (if fault in {NoFault, LaunchFault} then [QueryVersion("./" + BinaryName)] else [])
  {
    TraceInstallOnly(url, format, archive, dest, cwd, fault, unset, ModeStep);
    TraceInstallOnly(url, format, archive, dest, cwd, fault, unset, QueryStep);
  }

  /** Once the download succeeds the archive is unpacked exactly once, in
      the format that chose its name; once the unpacking succeeds exactly
      that archive is deleted. */
  lemma AfterResolveUnpacksOnce(url: string, osType: string, dest: string, host: Host)
    ensures var r := AfterResolve(url, osType, dest, host);
            var archive := TempName(ExtractionFormat(osType));
            && Only(r.steps, ExtractStep)
               == (if host.fault == DownloadFault then [] else [Extract(ExtractionFormat(osType), archive)])
            && Only(r.steps, DeleteStep)
               == (if host.fault in {DownloadFault, ExtractFault} then [] else [Delete(archive)])
  {
    var format := ExtractionFormat(osType);
    TraceUnpacks(url, format, TempName(format), dest, host.cwd, host.fault, FlagUnset(host.config));
  }

  /** Once the archive is deleted, "gitleaks" is set to mode 0o755; once that
      succeeds the binary is run once, right after it was made executable;
      and a run without a fault ends back in the original directory. */
  lemma AfterResolveRunsExecutable(url: string, osType: string, dest: string, host: Host)
    ensures var r := AfterResolve(url, osType, dest, host);
            && Only(r.steps, ModeStep)
               == (if host.fault in {DownloadFault, ExtractFault, RemoveFault} then []
                   else [SetMode(BinaryName, ExecutableMode)])
            && Only(r.steps, QueryStep)
               == (if host.fault in {NoFault, LaunchFault} then [QueryVersion("./" + BinaryName)] else [])
            && (host.fault in {NoFault, LaunchFault} ==>
                  exists i :: 0 <= i < |r.steps| - 1 && r.steps[i] == SetMode(BinaryName, ExecutableMode)
                                                     && r.steps[i + 1] == QueryVersion("./" + BinaryName))
            && (host.fault == NoFault ==> r.steps[|r.steps| - 1] == ChangeDir(host.cwd))
  {
    var format := ExtractionFormat(osType);
    TraceRuns(url, format, TempName(format), dest, host.cwd, host.fault, FlagUnset(host.config));
    TraceModeThenQuery(url, format, TempName(format), dest, host.cwd, host.fault, FlagUnset(host.config));
  }

  /** The configuration changes only on a run without a fault, and then by
      the enable-flag rule: one write of "true" when the flag was unset, none
      otherwise. */
  lemma AfterResolveConfig(url: string, osType: string, dest: string, host: Host)
    ensures var r := AfterResolve(url, osType, dest, host);
            && r.config == (if Status(r) == 0 then EnableIfUnset(host.config) else host.config)
            && Only(r.steps, ConfigWriteStep)
               == (if Status(r) == 0 && FlagUnset(host.config) then [ConfigSetBool(EnableKey, "true")] else [])
  {
    var format := ExtractionFormat(osType);
    var unset := FlagUnset(host.config);
    var r := AfterResolve(url, osType, dest, host);
    TraceConfigWrites(url, format, TempName(format), dest, host.cwd, host.fault, unset);
    assert r.steps == Trace(url, format, TempName(format), dest, host.cwd, host.fault, unset);
    AfterResolveStatus(url, osType, dest, host);
  }

  /** Every run enters the destination directory; only a run without a
      fault returns to the original one, since an action that raises ends
      the process before the final `os.chdir`. */
  lemma AfterResolveDirectories(url: string, osType: string, dest: string, host: Host)
    ensures var r := AfterResolve(url, osType, dest, host);
            Only(r.steps, DirStep)
            == if Status(r) == 0 then [ChangeDir(dest), ChangeDir(host.cwd)] else [ChangeDir(dest)]
  {
    var format := ExtractionFormat(osType);
    TraceDirectories(url, format, TempName(format), dest, host.cwd, host.fault, FlagUnset(host.config));
    AfterResolveStatus(url, osType, dest, host);
  }
}
