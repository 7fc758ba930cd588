/** Small shared vocabulary: an optional value (SQL NULL, "no row found")
    and the timestamps that the portal stamps with the current time. */
module Common {

  /** A value that may be absent: a nullable column or a lookup that found nothing. */
  datatype Option<+T> = None | Some(value: T) {

    /** The value if present, otherwise the given default. */
    function GetOr(default: T): (v: T) {
      match this
      case Some(v) => v
      case None => default
    }
  }

  /** A point in time as read from the system clock (seconds since the epoch). */
  type Timestamp = nat
}
