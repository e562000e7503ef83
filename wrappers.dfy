/** Small helper datatypes shared by the other modules. */
module Wrappers {

  /** A value that may be absent. */
  datatype Option<+T> = None | Some(value: T)
}

/** The answers of the two serverless endpoints. */
module Http {

  /** One endpoint's answer to one request: `Body` is the 200 JSON body, `Error` the 400 error. */
  datatype Response<Body, Error> =
    | Ok(body: Body)                  // 200 with a JSON body
    | Preflight                       // 200 with an empty body, for OPTIONS
    | MethodNotAllowed(allow: string) // 405 with header Allow
    | BadRequest(error: Error)        // 400 with a JSON error
    | Unanswered                      // no answer: the code generator ran out of fuel
}
