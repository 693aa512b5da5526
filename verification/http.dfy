/** The shape of a controller's answer: an HTTP status with either an error
    message or a JSON body, together with the state the handler leaves behind. */
module Http {

  /** Ids arrive as strings: route parameters, body fields and the id the
      authentication middleware attaches to the request. */
  type UserId = string

  /** `res.status(s).json({message})` on an error path, or `res.status(s).json(body)`. */
  datatype Reply<+T> = Fail(status: nat, message: string) | Ok(status: nat, body: T)

  /** What a handler returns to the caller, and the store it writes back. */
  datatype Step<+T, +S> = Step(reply: Reply<T>, state: S)
}
