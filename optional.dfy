/** The absent-or-present value returned by a lookup (`find` yields `undefined`,
    a resolver returns `null`). */
module Optional {

  datatype Option<+T> = None | Some(value: T)
}
