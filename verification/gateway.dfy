/**
 The remote store as the pages see it: the requests they send and the
 outcome of each, plus the record of what one user action did.
 */
module Gateway {
  import opened Options
  import opened Entities

  /**
   The error a failed service call rejects with. The pages never inspect
   it: they catch it and pass it unchanged to the error reporter, so it is
   kept opaque here.
   */
  datatype GatewayError = GatewayError(description: string)

  /** The settled outcome of one awaited service call. */
  datatype Response<T> = Success(value: T) | Failure(error: GatewayError)

  datatype Request =
    | CreateFlashcard(categoryId: int, input: FlashcardInput)
    | UpdateFlashcard(flashcardId: int, patch: FlashcardPatch)
    | DeleteFlashcard(flashcardId: int)
    | RetrieveCategory(categoryId: int)
    | RetrieveCategories
    | CreateCategory(name: string)
    | UpdateCategory(categoryId: int, name: string)
    | DeleteCategory(categoryId: int)

  /**
   What a page handler does with one user action: the request it sends (if
   any), the page state while that request is awaited, the state once it
   has settled, and the failure handed to the error reporter (if any).
   */
  datatype Effect<S> = Effect(
    sent: Option<Request>,
    inFlight: S,
    settled: S,
    reported: Option<GatewayError>)

  /** An action that sends nothing and changes nothing. */
  function NoEffect<S>(s: S): (e: Effect<S>)
    ensures e.sent.None? && e.reported.None?
    ensures e.inFlight == s && e.settled == s
  {
    Effect(None, s, s, None)
  }

  /** The failure a response carries, for the error reporter. */
  function Reported<T>(response: Response<T>): (r: Option<GatewayError>)
    ensures r.Some? <==> response.Failure?
    ensures response.Failure? ==> r.value == response.error
  {
    match response
    case Success(_) => None
    case Failure(e) => Some(e)
  }
}
