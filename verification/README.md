# Swiftlet request builder — a Dafny model

Swiftlet is a thin fluent wrapper over Java's `java.net.http` client. A caller
creates a `Request` for a URI and an HTTP method (`GET` or `POST`). The caller then
chains `header`, `body` and `json` calls onto it and finally sends it. The only logic
the library owns is the builder state:

- an insertion-ordered header multimap (`LinkedHashMap<String, List<String>>`);
- an optional text body;
- the fixed URI and method;
- the way that state is handed to the transport. Each stored value becomes one
  header line, names are walked in insertion order and each name's values in
  order. An absent body becomes "no body".

The project models that state and proves what the builder promises about it.

- `wrappers.dfy`: module `Wrappers`, an `Option` type that stands for Java's nullable body.
- `request_types.dfy`: module `RequestTypes`. The `RequestTypes` enum is a two-constructor
  datatype, and `Name` gives `Enum.name()`.
- `headers.dfy`: module `Headers`. The header map is modelled as its entry sequence
  `seq<(string, seq<string>)>` in insertion order. `WellFormed` says that names are
  distinct and that no value list is empty. `AddValue` is
  `computeIfAbsent(k, …).add(v)`. `Flatten` is the nested `forEach` that yields the
  header lines. The lemmas state insertion order, multiplicity, the frame on other
  names and the shape of the flattened lines.
- `request.dfy`: module `Requests`. `Request` is a class whose fields `verb`, `uri`,
  `body` and `headers` hold the Java fields `method`, `uri`, `body` and `headers`.
  Its mutators have `modifies this` and state the whole new state. `BuildHttpRequest`
  runs the nested loop and is proved equal to `Flatten`. `Call`, `Apply` and the lemmas
  beside them describe any chain of mutator calls, including last-write-wins for the
  body and the `json` duplication quirk.

The URI is an opaque type `Uri`, because parsing it is done by `java.net.URI`. The
method is stored as a string, as the source stores `method.name()`.

## Model

| member | source | states |
|---|---|---|
| RequestTypes.Name | src/main/java/com/whxismou/RequestTypes.java:14-25 | the stored verb is "POST" exactly for POST and "GET" exactly for GET, and is a non-empty upper-case token |
| Requests.Request.constructor | src/main/java/com/whxismou/Request.java:50-53 | a new request has the given URI, the enum constant's name as verb, an empty header map and no body |
| Requests.Request.Header | src/main/java/com/whxismou/Request.java:62-65 | appends the value to the end of the name's list, creating it when absent; other names' lists, the key order (new name last), URI, verb and body are unchanged; exactly one line (name, value) is added; returns the same request |
| Requests.Request.Json | src/main/java/com/whxismou/Request.java:91-95 | sets the body to the text and appends one more `Content-Type: application/json` value without deduplication, so that line is present afterwards; URI and verb unchanged |
| Requests.Request.Body | src/main/java/com/whxismou/Request.java:103-106 | replaces the body with the text and leaves headers, URI and verb unchanged |
| Requests.Request.BuildHttpRequest | src/main/java/com/whxismou/Request.java:117-127 | the outgoing request carries the URI, the verb, the chosen body publisher and exactly the flattened header lines, walked name by name and value by value |
| Requests.Publisher | src/main/java/com/whxismou/Request.java:118-119 | an absent body gives "no body" and a present body gives a publisher of exactly that text, and conversely |
| Headers.IndexOf | src/main/java/com/whxismou/Request.java:63 | finds the first (and, in a well-formed map, only) entry with the name, or reports that no entry has it |
| Headers.AddValueWellFormed | src/main/java/com/whxismou/Request.java:63 | adding a value keeps names distinct and value lists non-empty |
| Headers.AddValueLookup | src/main/java/com/whxismou/Request.java:62-64 | after adding, the name's list is its old list (empty if absent) followed by the value; every other name's lookup is unchanged |
| Headers.AddValue | src/main/java/com/whxismou/Request.java:63 | insertion order: a new name goes last, and an existing name keeps its position |
| Headers.AddValueFlatten | src/main/java/com/whxismou/Request.java:124 | once flattened, the new line sits right after the name's earlier lines, or at the very end for a new name; all other lines keep their order |
| Headers.AddValueOneMoreLine | src/main/java/com/whxismou/Request.java:124 | each added value adds exactly one line, the new one, and removes none (length and multiset) |
| Headers.Flatten | src/main/java/com/whxismou/Request.java:124 | there is one flattened line per stored value |
| Headers.FlattenAt | src/main/java/com/whxismou/Request.java:124 | value j of entry i is line number (values in the entries before i) + j: entries come out in insertion order, each as one contiguous block of its values in order |
| Headers.FlattenValuesNamed | src/main/java/com/whxismou/Request.java:124 | the lines named k carry exactly the values stored under k, in the order they were added: repeated names are repeated lines, not merged |
| Headers.FlattenKeyOrder | src/main/java/com/whxismou/Request.java:124 | keeping each line name at its first appearance gives the map's names in insertion order |
| Requests.LastWriteWins | src/main/java/com/whxismou/Request.java:91-106 | after any chain of calls, the body is the text of the last `body` or `json` call, or is unchanged when there is none |
| Requests.AddAllKeepsLines | src/main/java/com/whxismou/Request.java:62-106 | a chain never removes header lines: it adds exactly the lines of its `header` and `json` calls, one each |
| Requests.AddAllValues | src/main/java/com/whxismou/Request.java:62-106 | after any chain of added lines, the values under a name are its old values followed by the chain's values for that name, in the order they were added |
| Requests.AddAllKeys | src/main/java/com/whxismou/Request.java:62-106 | after any chain of added lines on a well-formed map, the names are the old names followed by the chain's names, each kept at its first appearance |
| Requests.JsonTwice | src/main/java/com/whxismou/Request.java:91-95 | two `json` calls leave two more `application/json` values under `Content-Type`, and the second text as body |
| Requests.Apply | src/main/java/com/whxismou/Request.java:62-106 | a chain of calls on one request leaves the body and the header map that the individual calls prescribe, in call order; URI and verb unchanged |

## Left out

- `asString` (src/main/java/com/whxismou/Request.java:75-80) is not modelled. It is a blocking network send through `HttpClient`, and its `IOException` and `InterruptedException` come from the transport.
- `HttpRequest.newBuilder(uri).method(...).header(...).build()` is not modelled beyond its inputs. `BuildHttpRequest` returns what is handed to the builder. Any validation the builder does, such as rejecting restricted or malformed header names, is part of the platform library.
- `Swiftlet.get` and `Swiftlet.post` (src/main/java/com/whxismou/Swiftlet.java) are not modelled. They only compose `URI.create`, a foreign parser, with the constructor. The URI is an opaque value here.
- Java `null` arguments are not modelled: names, values and texts are always strings. In the source, `body(null)` would reset the body to "no body", and a null header name or value would be stored as is.
- Concurrent mutation or sending of one request is not modelled. The source has no locking, and every method here runs on its own.
- The object identity that the fluent methods return is modelled (`self == this`), but aliasing of the value lists is not, because the lists never leave the object.
- The end-to-end tests in src/test/java/com/whxismou/SwiftletTest.java call a remote service and state nothing about the builder state beyond what the model covers.
