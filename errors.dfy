/**
 * The two error codes of the autoloader and the error objects that carry them.
 *
 * index.js:57 and index.js:89 build their errors with `new Error({code: ...})`. The `Error`
 * constructor takes a message, not an options bag: it turns the object into the message
 * "[object Object]" and sets no `code` property, so a caller cannot tell the two codes apart.
 * `ErrorAsWritten` models that; `ErrorWithCode` is the evidently intended error, which the rest
 * of the model returns.
 */
module Errors {

  datatype Option<T> = None | Some(value: T)

  datatype ErrorCode = ComposantPathNotFound | ComposantNotFound

  /** The parts of a JavaScript `Error` a caller can inspect. */
  datatype JsError = JsError(message: string, code: Option<ErrorCode>)

  function CodeName(code: ErrorCode): string
  {
    match code
    case ComposantPathNotFound => "COMPOSANT_PATH_NOT_FOUND"
    case ComposantNotFound => "COMPOSANT_NOT_FOUND"
  }

  /** `new Error({code: CodeName(code)})`: the argument is converted to a string, its `code` is dropped. */
  function ErrorAsWritten(code: ErrorCode): (e: JsError)
    ensures e.code == None && e.message != CodeName(code)
  {
    JsError("[object Object]", None)
  }

  /** The two errors index.js can return are equal as written: the code is lost. */
  lemma AsWrittenLosesCode()
    ensures ErrorAsWritten(ComposantPathNotFound) == ErrorAsWritten(ComposantNotFound)
    ensures ErrorAsWritten(ComposantNotFound).code == None
  {
  }

  /** The intended error: a `code` property set to the code (and its name as the message). */
  function ErrorWithCode(code: ErrorCode): (e: JsError)
    ensures e.code == Some(code)
  {
    JsError(CodeName(code), Some(code))
  }

  /** With the code kept, distinct codes give distinct errors and the code can be read back. */
  lemma ErrorWithCodeDistinguishes(c1: ErrorCode, c2: ErrorCode)
    ensures ErrorWithCode(c1) == ErrorWithCode(c2) <==> c1 == c2
    ensures ErrorWithCode(c1).message != ErrorWithCode(c2).message <==> c1 != c2
  {
  }
}
