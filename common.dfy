/** Values shared by every module of the model. */
module Common {

  /** Python's `None` or a present value. */
  datatype Option<+T> = None | Some(value: T)

  /** An interaction as the source builds it: a pair of protein identifiers. */
  type Pair = (string, string)
}
