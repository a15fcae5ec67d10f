/** The two wrappers the model uses: Option for JavaScript's null/undefined, Result for a thrown error. */
module Wrappers {

  datatype Option<+T> = None | Some(value: T)

  datatype Result<+T, +E> = Ok(value: T) | Err(error: E)
}

/** Identifiers shared by every part of the model. */
module Ids {
  /** A Telegram chat or user id (`ctx.from.id`); chats of groups and channels are negative. */
  type TgId = int
  /** `users.id`, a serial key of the users table. */
  type UserId = nat
  /** `cashback_requests.id`, a serial key of the requests table. */
  type RequestId = nat
  /** A Telegram file id of an uploaded photo or document. */
  type FileId = string
  /** An instant, standing for the ISO timestamp `new Date().toISOString()` produces. */
  type Time = int
}
