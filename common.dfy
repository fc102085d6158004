/** Outcome types shared by the validators and the store operations. */
module Common {

  datatype Option<T> = None | Some(value: T)

  /** The error kinds the API reports; HTTP status codes and response bodies are not modelled. */
  datatype Error =
    | ValidationError(message: string)  // raised explicitly, with this message (400)
    | FieldError(field: string)         // a framework field validator rejected this field (400)
    | NotFound                          // get_object_or_404 or exceptions.NotFound (404)

  datatype Result<T> = Ok(value: T) | Err(error: Error)
}
