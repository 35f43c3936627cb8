/** What both HTTP clients read off a response. */
module Http {
  /** `HttpResponseMessage.IsSuccessStatusCode`: a status in the 2xx range. */
  predicate IsSuccessStatusCode(status: int) { 200 <= status <= 299 }
}
