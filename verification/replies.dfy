/** An optional value, used where the C code signals "nothing" with -1 or a
    rejected end pointer. */
module Options {

  datatype Option<+T> = None | Some(value: T)
}

/** The `ReturnValue` every store operation hands back to its caller: an
    acknowledgement, nil, an integer, a string or an error message. */
module Replies {

  datatype Reply =
    | Ok
    | Nil
    | Integer(n: int)
    | Str(text: string)
    | Error(message: string)
}
