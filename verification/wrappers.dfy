/** Optional values, used wherever the modelled program has `None` or an absent field. */
module Options {
  datatype Option<+T> = None | Some(value: T)
}
