/** What a `RestTemplate` call hands back to a service. */
module Http {

  /** The call threw (network error, HTTP error status), or it returned a
      body of type `B`. */
  datatype Reply<+B> = CallFailed | Answered(body: B)
}
