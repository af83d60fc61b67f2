/**
 * The data the list screen receives from the catalog API, and the repository
 * wrapper that turns every failed call into one fixed error message.
 */
module Repository {

  /** The result wrapper: a payload on success, a message on failure. */
  datatype Resource<T> = Success(data: T) | Error(message: string)

  /** One raw entry of a page: the creature's name and its resource URL. */
  datatype ResultItem = ResultItem(name: string, url: string)

  /** One page of the list endpoint: the catalog's total count and the page's entries. */
  datatype PokemonList = PokemonList(count: int, results: seq<ResultItem>)

  /** What the underlying HTTP call did: returned a parsed response, or threw. */
  datatype ApiOutcome<T> = Returned(response: T) | Threw

  /** The message every failure collapses to (spelled as in the repository). */
  const UnknownError := "An unknown Error occured"

  /** `getPokemonList`: a thrown exception becomes `Error(UnknownError)`, a response becomes `Success`. */
  function GetPokemonList(call: ApiOutcome<PokemonList>): (r: Resource<PokemonList>)
    ensures r.Success? <==> call.Returned?
    ensures r.Success? ==> r.data == call.response
    ensures r.Error? ==> r.message == UnknownError
  {
    match call
    case Returned(response) => Success(response)
    case Threw => Error(UnknownError)
  }
}
