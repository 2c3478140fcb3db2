/** Values that cross the request boundary of the social-feed store. */
module Values {

  datatype Option<T> = None | Some(value: T)

  /** What JavaScript's parseInt yields for a request parameter: a whole number, or NaN when the
      parameter is missing or does not start with a number. */
  datatype ParsedInt = NaN | Int(value: int)

  /** JavaScript strict equality between a request id and a stored id: NaN equals nothing. */
  predicate SameId(x: ParsedInt, id: int)
  {
    x.Int? && x.value == id
  }

  /** JavaScript strict equality between two request ids (NaN === NaN is false). */
  predicate StrictEquals(x: ParsedInt, y: ParsedInt)
  {
    x.Int? && y.Int? && x.value == y.value
  }

  /** `!x` for a request id: NaN and 0 are the falsy numbers. */
  predicate Falsy(x: ParsedInt)
  {
    x.NaN? || x.value == 0
  }

  /** The failures a handler reports, one per HTTP error family of the API. */
  datatype Error =
    | MissingFields       // 400, a required field or id is absent
    | Duplicate           // 400, username exists, already following, already liked
    | NotFound            // 404, user or post absent
    | Forbidden           // 403, a non-owner deletes a post
    | InvalidCredentials  // 401, login only
    | InvalidState        // 400, self-follow, not following, not liked yet

  /** A handler's reply: the success payload, or the error it returned before changing anything. */
  datatype Result<T> = Ok(value: T) | Err(error: Error)
}
