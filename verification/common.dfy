/** Small shared vocabulary: an optional value, used wherever the source
    returns a null pointer, `npos` or `-1` to mean "not found". */
module Common {

  datatype Option<+T> = None | Some(value: T)

}
