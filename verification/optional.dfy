/** A value that may be absent. Used for the emoji position currently shown
    and for the menu-item style props that React drops when they are `false`. */
module Optional {

  datatype Option<+T> = None | Some(value: T)
}
