/** The boundary to the text-generation service.

    A call to the service is an oracle: the model receives it as a function
    value that yields `Some(text)` for a response whose first choice carries
    text, and `None` for a call that throws (network, rate limit, a missing
    choice).  `JSON.parse` is an abstract partial function `string -> Option<T>`
    supplied the same way.  What can go wrong with one attempt is one of the
    two cases below. */
module Gateway {

  datatype CallError =
    | GatewayFailed   // the service call itself threw
    | ParseFailed     // the response text did not parse
}
