/** Failure-carrying values shared by every module of the model. */
module Wrappers {

  datatype Option<+T> = None | Some(value: T)

  datatype Result<+T, +E> = Ok(value: T) | Err(error: E)

  /** The exceptions the library throws, one constructor per distinct `throw`. */
  datatype Error =
    | Empty             // `max` / `longest` on an empty list
    | NonUniqueValues   // `reverseUniq` saw a value twice
    | WeirdIndex        // `mainlineKeys` out of range
    | InvalidSynonyms   // `sentenceToGraph` after `validateSynonyms` said no
    | SynonymNotFound   // `parseSynonyms` found no occurrence of a source
    | BadStartKey       // `followGreedy` start key does not match the input
    | MissingKey        // a key without text: the lookup yields undefined and kata2hira fails
}
