/** Values shared by every layer of the model. */
module Common {

  /** A row that a query may or may not find (SQLAlchemy's `.first()` returning `None`). */
  datatype Option<+T> = None | Some(value: T)

  /** What a validator does with a value: returns it, or raises with a message. */
  datatype Checked<+T> = Accepted(value: T) | Rejected(reason: string)

  predicate AsciiLetter(c: char)
  {
    'a' <= c <= 'z' || 'A' <= c <= 'Z'
  }

  predicate AsciiAlnum(c: char)
  {
    AsciiLetter(c) || '0' <= c <= '9'
  }
}
