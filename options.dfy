/** Optional values, used where the source uses an iterator that may be `end()`
    or a position that may be `npos`. */
module Options {

  datatype Option<T> = None | Some(value: T)
}
