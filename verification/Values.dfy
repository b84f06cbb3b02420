/** Values shared by the protocols. */
module Values {
  datatype Option<T> = None | Some(value: T)

  /** What a function returned or raised, in its serialized form. */
  datatype Outcome = Output(value: string) | Error(error: string)
}
