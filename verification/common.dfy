/** Shared vocabulary: optional values, the exceptions the server code can
    raise, and Java's nullable strings. */
module Common {

  /** The conventional Some/None datatype, used where the source may hold null. */
  datatype Option<+T> = None | Some(value: T)

  /** The unchecked exceptions the modelled code throws. */
  datatype Error =
    | NullPointer       // a null reference was dereferenced or rejected
    | NumberFormat      // Integer.parseInt refused its argument
    | IllegalArgument   // Random.nextInt was given a non-positive bound

  /** Either the value a call returns or the exception it throws. */
  datatype Result<+T> = Ok(value: T) | Err(error: Error)

  /** A Java String reference: None stands for null. */
  type Name = Option<string>

  /** How String.format's "%s" and string concatenation render a nullable string. */
  function Show(n: Name): string
  {
    match n
    case Some(v) => v
    case None => "null"
  }
}
