/** Optional values, standing in for the game's `null`-or-value slots. */
module Optional {
  datatype Option<+T> = None | Some(value: T)
}
