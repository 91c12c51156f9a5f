/**
 * The outcome of a request made by a page, as the page's `try`/`catch` sees
 * it, and the error-text idiom the pages share.
 */
module Replies {
  import opened Wrappers
  import Text

  /** The request succeeded, or it failed and the error body may carry a `message`. */
  datatype Reply = Success | Failure(message: Option<string>)

  /** `err.response?.data?.message || fallback`. */
  function ErrorText(message: Option<string>, fallback: string): (t: string)
    ensures Text.Truthy(message) ==> t == message.value
    ensures !Text.Truthy(message) ==> t == fallback
  {
    if message.Some? && message.value != "" then message.value else fallback
  }
}
