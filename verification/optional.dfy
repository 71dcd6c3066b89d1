/** A value that may be absent: a pandas cell that holds NaN / NaT, or a coercion that failed. */
module Optional {

  datatype Option<+T> = None | Some(value: T)

}
