/** A value that may be missing: an absent dictionary key, or a builder that returns `None`. */
module Optional {
  datatype Option<T> = None | Some(value: T)

  /** `d.get(key, fallback)`: the value when present, the fallback otherwise. */
  function GetOr<T>(o: Option<T>, fallback: T): T
  {
    match o
    case Some(v) => v
    case None => fallback
  }
}
