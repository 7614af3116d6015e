/** Failure-compatible wrappers shared by every module, and the error causes
    the modelled code produces or passes on. */
module Wrappers {

  datatype Option<+T> = None | Some(value: T) {
    function GetOr(default: T): T {
      match this
      case Some(v) => v
      case None => default
    }
  }

  /** The cause of a failure. `Remote` stands for any error an oracle (network
      transport, JSON decoder, file system) hands back; the other constructors
      are the errors the modelled code builds itself. */
  datatype Error =
    | Remote(msg: string)
    | PageFetchFailed(page: nat, cause: Error)     // request of a list page exhausted its retries
    | PageDecodeFailed(page: nat, cause: Error)    // a list page could not be decoded
    | DataFileMissing                              // the snapshot file does not exist
    | RepoNotFound(id: int)
    | RequestFailed(cause: Error)                  // the chat request could not be built or sent
    | StatusNotOk(code: int, body: string)         // chat endpoint answered a non-200 status
    | ResponseInvalid(cause: Error)                // the chat response did not decode
    | ApiReportedError(msg: string)                // chat response carries error.message
    | NoChoices                                    // chat response has an empty choices list
    | AICallFailed(cause: Error)
    | NoJsonFound                                  // no '{' ... '}' block in the model's answer
    | JsonBlockInvalid                             // the extracted block did not decode
    | EmptyCategory
    | EmptyTags
    | NoCookie

  datatype Result<+T> = Ok(value: T) | Err(error: Error)
}
