/** What an Express handler sends: a status with a JSON body, or a status
    with `{ message }` for an error. */
module Http {

  datatype Response<T> = Reply(status: nat, body: T) | Error(status: nat, message: string)
}
