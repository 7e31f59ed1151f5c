/** The one piece of Laravel's HTTP client both services consult. */
module Http {

  /** `$response->successful()`: a 2xx status. */
  predicate Successful(status: int) {
    200 <= status < 300
  }
}
