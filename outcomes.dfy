/** Outcomes of calls into services the model does not look inside (tokenizers,
    summarisation models, translators, language detection, HTTP). */
module Outcomes {

  /** A value that may be absent: JavaScript `undefined`/`null`, Python `None`. */
  datatype Option<T> = None | Some(value: T)

  /** A call that either returns a value or raises; `error` is the exception's text. */
  datatype Result<T> = Success(value: T) | Failure(error: string)
}
