/**
 * Shared vocabulary of the foodgram backend model: optional values,
 * results, the HTTP statuses the views answer with, and the value bounds
 * that both the serializers and the models use.
 */
module Common {

  datatype Option<T> = None | Some(value: T)

  datatype Result<T, E> = Success(value: T) | Failure(error: E)

  /** The HTTP statuses the modelled views and serializers produce. */
  datatype Status =
    | OK           // 200
    | Created      // 201
    | NoContent    // 204
    | BadRequest   // 400: a ValidationError, or an explicit 400 response
    | NotFound     // 404: get_object_or_404 found nothing
    | ServerError  // 500: an exception no handler catches

  /** The two request methods the membership and subscription actions accept. */
  datatype Verb = Post | Delete

  /** MIN_VALUE and MAX_VALUE of both serializers.py and recipes/models.py. */
  const MIN_VALUE: int := 1
  const MAX_VALUE: int := 32000

  /** An amount or a cooking time that the validators accept. */
  predicate InRange(v: int)
  {
    MIN_VALUE <= v <= MAX_VALUE
  }
}
