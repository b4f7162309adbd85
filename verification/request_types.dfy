/** The closed set of HTTP methods a request can be built with (the `RequestTypes` enum). */
module RequestTypes {

  /** The enum constants, in declaration order. */
  datatype RequestType = POST | GET

  /** `Enum.name()`: the constant's identifier, which is also the HTTP verb sent on the wire. */
  function Name(t: RequestType): (s: string)
    ensures s == "POST" <==> t == POST
    ensures s == "GET" <==> t == GET
    ensures |s| > 0 && forall i :: 0 <= i < |s| ==> 'A' <= s[i] <= 'Z'
  {
    match t
    case POST => "POST"
    case GET => "GET"
  }

}
