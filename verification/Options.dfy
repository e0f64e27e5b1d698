/** The Some/None type for values that the TypeScript source spells `undefined`
    or `null`. */
module Options {
  datatype Option<+T> = None | Some(value: T)
}
