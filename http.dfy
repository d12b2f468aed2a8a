/** Request fields and handler outcomes as the Express layer sees them. */
module Http {

  /** A field of a JSON request body: absent (`undefined`) or present. */
  datatype Option<+T> = None | Some(value: T)

  /** JavaScript truthiness of an optional string field: present and not empty. */
  predicate Truthy(field: Option<string>) {
    field.Some? && field.value != ""
  }

  /** What a handler produces: a success status with its JSON payload, or an error
      that the global error handler sends as `{error: message}` with its status. */
  datatype Outcome<+T> = Success(status: nat, value: T) | Failure(status: nat, message: string)
}
