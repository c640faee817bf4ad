/** What several parts of the model share. */
module Options {
  datatype Option<+T> = None | Some(value: T)
}

/** The bindings. */
module Languages {
  datatype Lang = Go | Python | TypeScript
}
