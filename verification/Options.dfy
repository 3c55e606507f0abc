/** The stock optional value, used wherever the ledger code returns "maybe". */
module Options {
  datatype Option<+T> = None | Some(value: T)
}
