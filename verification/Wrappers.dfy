/** Results of the operations that the sources end with a value or an exception. */
module Wrappers {

  datatype Option<+T> = None | Some(value: T)

  /** ArchiveError, GitHubAPIError and the other exceptions are not told apart: a failure carries
  only the place that raised it. */
  datatype Result<+T> = Ok(value: T) | Failure(reason: string)
}
