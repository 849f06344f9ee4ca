/** Optional values, standing for Python's `None` where the compressor uses it. */
module Maybe {

  datatype Option<+T> = None | Some(value: T)
}
