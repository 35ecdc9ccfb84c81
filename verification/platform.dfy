/** Operating-system detection: the raw name reported by `platform.system()`
    and its normalisation to one of the three families the installer knows. */
module Platform {
  import opened Outcomes

  /** The three operating-system families with a release asset. */
  datatype Os = Linux | Darwin | Windows

  /** The name the installer uses for a family, both as the value returned by
      get_os_type and as the string its URL table compares against. */
  function OsName(os: Os): string {
    match os
    case Linux => "Linux"
    case Darwin => "Darwin"
    case Windows => "Windows"
  }

  /** The family a normalised name denotes, by exact comparison. */
  function ParseOs(osType: string): (r: Option<Os>)
    ensures r.Some? <==> osType in {"Linux", "Darwin", "Windows"}
    ensures r.Some? ==> OsName(r.value) == osType
  {
    if osType == "Linux" then Some(Linux)
    else if osType == "Darwin" then Some(Darwin)
    else if osType == "Windows" then Some(Windows)
    else None
  }

  /** ParseOs undoes OsName, so distinct families have distinct names. */
  lemma ParseOsName(os: Os)
    ensures ParseOs(OsName(os)) == Some(os)
  {
  }

  /** get_os_type: "Linux" and "Darwin" pass through unchanged, exactly
      "Windows" and "MINGW" become "Windows", and every other name raises. */
  function GetOsType(system: string): (r: Result<string, Abort>)
    ensures r.Success? <==> system in {"Linux", "Darwin", "Windows", "MINGW"}
    ensures system == "Linux" || system == "Darwin" ==> r == Success(system)
    ensures system == "Windows" || system == "MINGW" ==> r == Success("Windows")
    ensures r.Success? ==> ParseOs(r.value).Some?
    ensures r.Failure? ==> r.error == OsRejected(system)
  {
    if system in ["Linux", "Darwin"] then Success(system)
    else if system in ["Windows", "MINGW"] then Success("Windows")
    else Failure(OsRejected(system))
  }
}
