/** An optional value, where the source uses None or an absent dictionary key. */
module Options {
  datatype Option<+T> = None | Some(value: T)
}
