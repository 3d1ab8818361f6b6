/** The usual optional value, standing for a Java reference that may be null,
    and a result that is either a value or the exception the source throws. */
module Options {

  datatype Option<+T> = None | Some(value: T)

  datatype Result<+T> = Ok(value: T) | Unsupported(message: string)
}
