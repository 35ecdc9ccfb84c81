/** Failure-carrying datatypes shared by the installer model, and the ways an
    installation attempt can stop early. */
module Outcomes {

  /** An optional value. */
  datatype Option<+T> = None | Some(value: T)

  /** Either a computed value or the reason the computation stopped. */
  datatype Result<+T, +E> = Success(value: T) | Failure(error: E)

  /** Every way the installer gives up. The installer prints a sentence and
      ends the process; it never recovers from any of these. */
  datatype Abort =
    | OsRejected(system: string)             // the exception raised by get_os_type
    | ArchitectureNotSupported(arch: string) // sys.exit(1) inside the URL table
    | OsNotSupported(osType: string)         // sys.exit(1) in the table's last branch
    | DownloadFailed(url: string)            // curl run with check=True failed
    | ExtractionFailed(archive: string)      // tarfile / zipfile raised
    | RemoveFailed(file: string)             // os.remove of the archive raised
    | ModeFailed(file: string)               // os.chmod found no such file
    | LaunchFailed(binary: string)           // the unpacked binary could not be run
    | CloneFailed(repo: string)              // git clone run with check=True failed
    | DirectoryExists(path: string)          // os.makedirs without exist_ok

  /** The process exit status each abort leads to: `sys.exit(1)` for the
      table's own exits, and 1 as well for an uncaught Python exception. */
  function ExitStatus(a: Abort): int {
    1
  }
}
