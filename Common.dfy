/** Small shared vocabulary: an optional value (a JSON field that may be absent). */
module Common {

  datatype Option<T> = None | Some(value: T)

}
