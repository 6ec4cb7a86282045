/**
 * How an Express middleware ends: it calls next(), answers the request with
 * a status and an error message, or throws (an Express 500).
 */
module Express {
  datatype Outcome =
    | Next
    | Reject(status: int, error: string)
    | Thrown
}
