/** The JSON envelope every endpoint answers with. */
module Http {
  /** `{ success: true, data }` (status 200), or `{ success: false, error }`
      with the status code set. */
  datatype Response<T> = Success(data: T) | Failure(status: int, error: string)
}
