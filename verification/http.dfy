/** `NextResponse.json(body, { status })`: a status code and a JSON body that
    is either `{ error: ... }` or the route's own success payload. */
module Http {

  datatype Payload<+T> = ErrorMessage(error: string) | Json(value: T)

  datatype Reply<+T> = Reply(status: nat, payload: Payload<T>)
}
