/** Small failure-carrying datatypes shared by the summariser modules. */
module Wrappers {

  datatype Option<+T> = None | Some(value: T)

  /** The one exception the summariser lets escape: NLTK's LookupError,
      raised by `word_tokenize` when its tokenizer resource is missing. */
  datatype Error = LookupError

  datatype Result<+T> = Ok(value: T) | Failure(error: Error)
}
