/** Optional values, results and the errors the /extract_data handler can end in. */
module Results {

  datatype Option<+T> = None | Some(value: T)

  datatype Result<+R, +E> = Success(value: R) | Failure(error: E)

  /** Why a request ends without a spreadsheet.
      ImageRequired: the body's `image` field is missing or falsy (answered with status 400).
      TypeError: a JavaScript runtime error thrown while the table is read, e.g. reading a
        property of `null`, calling `forEach` or `map` on something that is not an array,
        or `Object.keys(null)` (answered with status 500).
      InvalidFormat: the parsed JSON is neither a structured table nor an array
        ("Invalid JSON format received from Gemini.", answered with status 500). */
  datatype Error = ImageRequired | TypeError | InvalidFormat
}
