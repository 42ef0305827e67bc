/** Failure-carrying values shared by the whole model: Python's exceptions become `Error` values. */
module Results {

  datatype Option<+T> = None | Some(value: T)

  datatype Result<+R> = Success(value: R) | Failure(error: Error)

  /** The exceptions the report script can raise on its own paths. */
  datatype Error =
    | KeyError(key: string)              // a dictionary lookup of a missing key
    | NoScan(scanId: string)             // next() on an empty scan query
    | NoAssessor(scanId: string)         // next() on an empty assessor query
    | TemplateUnreadable(path: string)   // open() of the template failed
    | SnapshotFailed(url: string)        // the browser could not load or print the page
}
