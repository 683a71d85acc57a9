/** The exceptions the services throw, and the HTTP responses they read. */
module Faults {

  /** The exception kinds that reach the controller. */
  datatype Fault =
    | ArgumentError(message: string)   // System.ArgumentException
    | KeyNotFound(message: string)     // System.Collections.Generic.KeyNotFoundException
    | HttpFailure(status: int)         // the plain Exception thrown on a non-success status
    | JsonSyntax                       // System.Text.Json.JsonException escaping JsonDocument.Parse
    | InvalidOperation                 // InvalidOperationException from a JsonElement accessor

  /** What an upstream HTTP call returned: its status code and its body as text. */
  datatype HttpResponse = HttpResponse(status: int, body: string)

  /** HttpResponseMessage.IsSuccessStatusCode: a status in 200-299. */
  predicate IsSuccessStatusCode(response: HttpResponse) {
    200 <= response.status <= 299
  }
}
