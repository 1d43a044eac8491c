/** The nullable references of the server (a map lookup that may miss, a
    session's current room) are modelled with this Some/None datatype. */
module Optional {

  datatype Option<+T> = None | Some(value: T)
}
