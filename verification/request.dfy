/**
 * The request builder: a target URI and HTTP method fixed at construction, a
 * header multimap and an optional body that the fluent mutators change in place,
 * and the assembly of the outgoing request from that state.
 */
module Requests {
  import opened Wrappers
  import opened RequestTypes
  import opened Headers

  /** A parsed `java.net.URI`; the model only stores it and passes it on. */
  type Uri(==)

  /** The body handed to the transport: none at all, or a text payload. */
  datatype BodyPublisher = NoBody | OfString(text: string)

  /** The outgoing request: URI, verb, body and header lines in sending order. */
  datatype HttpRequest = HttpRequest(uri: Uri, verb: string, publisher: BodyPublisher, headers: seq<Line>)

  /** The header entry that `Json` adds. */
  const ContentType: string := "Content-Type"
  const ApplicationJson: string := "application/json"

  /** Body selection: an absent body is sent as no body, a present one as exactly its text. */
  function Publisher(body: Option<string>): (p: BodyPublisher)
    ensures p == NoBody <==> body == None
    ensures forall t :: body == Some(t) <==> p == OfString(t)
  {
    if body == None then NoBody else OfString(body.value)
  }

  class Request {
    var verb: string
    var uri: Uri
    var body: Option<string>
    var headers: HeaderMap

    /** The header map only ever holds distinct names with non-empty value lists. */
    ghost predicate Valid()
      reads this
    {
      WellFormed(headers)
    }

    /** A new request for `url` with the verb of `m`, no headers and no body. */
    constructor (url: Uri, m: RequestType)
      ensures Valid()
      ensures uri == url && verb == Name(m)
      ensures headers == [] && body == None
    {
      uri := url;
      verb := Name(m);
      body := None;
      headers := [];
    }

    /** Adds one value under `key` and returns this same request. */
    method Header(key: string, value: string) returns (self: Request)
      requires Valid()
      modifies this
      ensures Valid() && self == this
      ensures headers == AddValue(old(headers), key, value)
      ensures Lookup(headers, key) == Some(ValuesOf(old(headers), key) + [value])
      ensures forall k :: k != key ==> Lookup(headers, k) == Lookup(old(headers), k)
      ensures Keys(headers) == if key in Keys(old(headers)) then Keys(old(headers)) else Keys(old(headers)) + [key]
      ensures multiset(Flatten(headers)) == multiset(Flatten(old(headers))) + multiset{(key, value)}
      ensures uri == old(uri) && verb == old(verb) && body == old(body)
    {
      AddValueWellFormed(headers, key, value);
      AddValueLookup(headers, key, value);
      AddValueOneMoreLine(headers, key, value);
      headers := AddValue(headers, key, value);
      self := this;
    }

    /** Sets the body to `json` and adds a `Content-Type: application/json` line, without deduplication. */
    method Json(json: string) returns (self: Request)
      requires Valid()
      modifies this
      ensures Valid() && self == this
      ensures body == Some(json)
      ensures headers == AddValue(old(headers), ContentType, ApplicationJson)
      ensures ValuesOf(headers, ContentType) == ValuesOf(old(headers), ContentType) + [ApplicationJson]
      ensures multiset(Flatten(headers)) == multiset(Flatten(old(headers))) + multiset{(ContentType, ApplicationJson)}
      ensures (ContentType, ApplicationJson) in Flatten(headers)
      ensures uri == old(uri) && verb == old(verb)
    {
      var _ := Header(ContentType, ApplicationJson);
      assert (ContentType, ApplicationJson) in multiset(Flatten(headers));
      body := Some(json);
      self := this;
    }

    /** Replaces the body with `text`; the headers are left as they are. */
    method Body(text: string) returns (self: Request)
      requires Valid()
      modifies this
      ensures Valid() && self == this
      ensures body == Some(text)
      ensures headers == old(headers) && uri == old(uri) && verb == old(verb)
    {
      body := Some(text);
      self := this;
    }

    /**
     * The part of building the transport request that this library decides:
     * the body choice and one header line per stored value, walking the names
     * in insertion order and each name's values in order.
     */
    method BuildHttpRequest() returns (req: HttpRequest)
      ensures req.uri == uri && req.verb == verb
      ensures req.publisher == Publisher(body)
      ensures req.headers == Flatten(headers)
    {
      var lines: seq<Line> := [];
      var i := 0;
      while i < |headers|
        invariant 0 <= i <= |headers|
        invariant lines == Flatten(headers[..i])
      {
        var (k, vs) := headers[i];
        var j := 0;
        while j < |vs|
          invariant 0 <= j <= |vs|
          invariant lines == Flatten(headers[..i]) + Lines(k, vs[..j])
        {
          lines := lines + [(k, vs[j])];
          j := j + 1;
        }
        assert vs[..j] == vs;
        FlattenSnoc(headers[..i], headers[i]);
        assert headers[..i] + [headers[i]] == headers[..i + 1];
        i := i + 1;
      }
      assert headers[..i] == headers;
      req := HttpRequest(uri, verb, Publisher(body), lines);
    }
  }

  // ---------------------------------------------------------------------------
  // Chains of mutator calls

  /** One fluent mutator call that a caller chains onto a request. */
  datatype Call = HeaderCall(name: string, value: string) | BodyCall(text: string) | JsonCall(text: string)

  /** The body after the calls, starting from `b`: a body or JSON call replaces it, a header call keeps it. */
  function BodyAfter(b: Option<string>, calls: seq<Call>): Option<string> {
    if calls == [] then b
    else
      var c := calls[|calls| - 1];
      if c.HeaderCall? then BodyAfter(b, calls[..|calls| - 1]) else Some(c.text)
  }

  /** The header line one call adds, if any. */
  function LineAdded(c: Call): seq<Line> {
    match c
    case HeaderCall(k, v) => [(k, v)]
    case BodyCall(_) => []
    case JsonCall(_) => [(ContentType, ApplicationJson)]
  }

  /** The header lines the calls add, in call order. */
  function LinesAdded(calls: seq<Call>): seq<Line> {
    if calls == [] then [] else LinesAdded(calls[..|calls| - 1]) + LineAdded(calls[|calls| - 1])
  }

  /** The header map after adding the lines one after the other. */
  function AddAll(h: HeaderMap, lines: seq<Line>): HeaderMap {
    if lines == [] then h
    else
      var l := lines[|lines| - 1];
      AddValue(AddAll(h, lines[..|lines| - 1]), l.0, l.1)
  }

  /** Call `i` writes the body and no later call does. */
  predicate IsLastBodyWrite(calls: seq<Call>, i: nat)
    requires i < |calls|
  {
    !calls[i].HeaderCall? && forall j | i < j < |calls| :: calls[j].HeaderCall?
  }

  /**
   * Last write wins: after any chain of calls the body is the argument of the
   * last body or JSON call, and is unchanged when there is none.
   */
  lemma {:induction false} LastWriteWins(b: Option<string>, calls: seq<Call>)
    ensures (forall i | 0 <= i < |calls| :: calls[i].HeaderCall?) ==> BodyAfter(b, calls) == b
    ensures forall i: nat | i < |calls| && IsLastBodyWrite(calls, i) :: BodyAfter(b, calls) == Some(calls[i].text)
  {
    if calls != [] {
      var init := calls[..|calls| - 1];
      LastWriteWins(b, init);
      forall i: nat | i < |calls| && IsLastBodyWrite(calls, i)
        ensures BodyAfter(b, calls) == Some(calls[i].text)
      {
        if i < |init| {
          assert IsLastBodyWrite(init, i);
        }
      }
    }
  }

  /** A chain never removes a header line: it adds exactly the lines of its header and JSON calls. */
  lemma {:induction false} AddAllKeepsLines(h: HeaderMap, lines: seq<Line>)
    ensures multiset(Flatten(AddAll(h, lines))) == multiset(Flatten(h)) + multiset(lines)
    ensures |Flatten(AddAll(h, lines))| == |Flatten(h)| + |lines|
  {
    if lines != [] {
      var init, l := lines[..|lines| - 1], lines[|lines| - 1];
      assert init + [l] == lines;
      AddAllKeepsLines(h, init);
      AddAllSnoc(h, init, l);
      AddOneKeepsLines(h, init, l, AddAll(h, init));
    }
  }

  /** One more added line, on top of a map that already holds `h`'s lines plus `init`. */
  lemma AddOneKeepsLines(h: HeaderMap, init: seq<Line>, l: Line, before: HeaderMap)
    requires multiset(Flatten(before)) == multiset(Flatten(h)) + multiset(init)
    ensures multiset(Flatten(AddValue(before, l.0, l.1))) == multiset(Flatten(h)) + multiset(init + [l])
    ensures |Flatten(AddValue(before, l.0, l.1))| == |Flatten(h)| + |init| + 1
  {
    AddValueOneMoreLine(before, l.0, l.1);
    assert multiset(init + [l]) == multiset(init) + multiset{l};
    assert |multiset(Flatten(before))| == |Flatten(before)|;
  }

  /** One more call adds its own line after the lines of the earlier calls. */
  lemma LinesAddedSnoc(calls: seq<Call>, c: Call)
    ensures LinesAdded(calls + [c]) == LinesAdded(calls) + LineAdded(c)
  {
    assert (calls + [c])[..|calls|] == calls;
  }

  /** Adding one more line adds its value to the map built so far. */
  lemma AddAllSnoc(h: HeaderMap, lines: seq<Line>, l: Line)
    ensures AddAll(h, lines + [l]) == AddValue(AddAll(h, lines), l.0, l.1)
  {
    assert (lines + [l])[..|lines|] == lines;
  }

  /**
   * Multiplicity and order per name over a chain: after adding the lines, the
   * values under `k` are the old ones followed by the added lines' values for `k`,
   * in the order they were added.
   */
  lemma {:induction false} AddAllValues(h: HeaderMap, lines: seq<Line>, k: string)
    ensures ValuesOf(AddAll(h, lines), k) == ValuesOf(h, k) + ValuesNamed(lines, k)
  {
    if lines != [] {
      var init, l := lines[..|lines| - 1], lines[|lines| - 1];
      AddAllValues(h, init, k);
      AddValueLookup(AddAll(h, init), l.0, l.1);
    }
  }

  /**
   * Order of names over a chain: the map's names are the old names followed by
   * the added lines' names, each name kept at its first appearance.
   */
  lemma {:induction false} AddAllKeys(h: HeaderMap, lines: seq<Line>)
    requires WellFormed(h)
    ensures Keys(AddAll(h, lines)) == FirstOccurrences(Keys(h) + Names(lines))
  {
    if lines == [] {
      assert Keys(h) + Names(lines) == Keys(h);
      FirstOccurrencesDistinct(Keys(h));
    } else {
      var init, l := lines[..|lines| - 1], lines[|lines| - 1];
      assert lines == init + [l];
      AddAllKeys(h, init);
      AddAllSnoc(h, init, l);
      NamesConcat(init, [l]);
      assert Keys(h) + Names(lines) == (Keys(h) + Names(init)) + [l.0];
      AddValueFirstOccurrences(AddAll(h, init), Keys(h) + Names(init), l.0, l.1);
    }
  }

  /** Two JSON calls add the JSON content-type line twice. */
  lemma LinesAddedJsonJson(first: string, second: string)
    ensures LinesAdded([JsonCall(first), JsonCall(second)]) == [(ContentType, ApplicationJson), (ContentType, ApplicationJson)]
  {
    LinesAddedSnoc([], JsonCall(first));
    assert [] + [JsonCall(first)] == [JsonCall(first)];
    LinesAddedSnoc([JsonCall(first)], JsonCall(second));
    assert [JsonCall(first)] + [JsonCall(second)] == [JsonCall(first), JsonCall(second)];
  }

  /** Two copies of a line carry its value twice under its name. */
  lemma ValuesNamedTwice(l: Line)
    ensures ValuesNamed([l, l], l.0) == [l.1, l.1]
  {
    assert [l][..0] == [];
    assert ValuesNamed([l], l.0) == [] + [l.1] == [l.1];
    assert [l, l][..1] == [l];
    assert ValuesNamed([l, l], l.0) == [l.1] + [l.1];
  }

  /** The JSON quirk: two JSON calls leave two `Content-Type: application/json` values, and the second body. */
  lemma JsonTwice(h: HeaderMap, b: Option<string>, first: string, second: string)
    ensures var calls := [JsonCall(first), JsonCall(second)];
      && BodyAfter(b, calls) == Some(second)
      && ValuesOf(AddAll(h, LinesAdded(calls)), ContentType) == ValuesOf(h, ContentType) + [ApplicationJson, ApplicationJson]
  {
    var json := (ContentType, ApplicationJson);
    LinesAddedJsonJson(first, second);
    ValuesNamedTwice(json);
    AddAllValues(h, [json, json], ContentType);
  }

  /** Adding two runs of lines is adding the first and then the second. */
  lemma {:induction false} AddAllConcat(h: HeaderMap, a: seq<Line>, b: seq<Line>)
    ensures AddAll(h, a + b) == AddAll(AddAll(h, a), b)
  {
    if b == [] {
      assert a + b == a;
    } else {
      var b', l := b[..|b| - 1], b[|b| - 1];
      assert a + b == (a + b') + [l] && b == b' + [l];
      AddAllConcat(h, a, b');
      AddAllSnoc(h, a + b', l);
      AddAllSnoc(AddAll(h, a), b', l);
    }
  }

  /** Call `i` of a chain acts on the state the calls before it left. */
  lemma ChainStep(h: HeaderMap, b: Option<string>, calls: seq<Call>, i: nat, before: HeaderMap, after: HeaderMap, bodyBefore: Option<string>, bodyAfter: Option<string>)
    requires i < |calls|
    requires before == AddAll(h, LinesAdded(calls[..i])) && after == AddAll(before, LineAdded(calls[i]))
    requires bodyBefore == BodyAfter(b, calls[..i]) && bodyAfter == BodyAfter(bodyBefore, [calls[i]])
    ensures after == AddAll(h, LinesAdded(calls[..i + 1]))
    ensures bodyAfter == BodyAfter(b, calls[..i + 1])
  {
    var init, c := calls[..i], calls[i];
    assert calls[..i + 1] == init + [c];
    assert (init + [c])[..|init|] == init && [c][..0] == [];
    LinesAddedSnoc(init, c);
    AddAllConcat(h, LinesAdded(init), LineAdded(c));
  }

  /** Performs one call of a chain on `r`. */
  method Perform(r: Request, c: Call)
    requires r.Valid()
    modifies r
    ensures r.Valid()
    ensures r.body == BodyAfter(old(r.body), [c])
    ensures r.headers == AddAll(old(r.headers), LineAdded(c))
    ensures r.uri == old(r.uri) && r.verb == old(r.verb)
  {
    assert [c][..0] == [];
    match c {
      case HeaderCall(k, v) =>
        var _ := r.Header(k, v);
        assert [(k, v)][..0] == [];
      case BodyCall(t) =>
        var _ := r.Body(t);
      case JsonCall(t) =>
        var _ := r.Json(t);
        assert [(ContentType, ApplicationJson)][..0] == [];
    }
  }

  /** A caller's chain `r.m1(..).m2(..)…`: every call acts on the same request, in order. */
  method Apply(r: Request, calls: seq<Call>)
    requires r.Valid()
    modifies r
    ensures r.Valid()
    ensures r.body == BodyAfter(old(r.body), calls)
    ensures r.headers == AddAll(old(r.headers), LinesAdded(calls))
    ensures r.uri == old(r.uri) && r.verb == old(r.verb)
  {
    ghost var h, b := r.headers, r.body;
    var i := 0;
    while i < |calls|
      invariant 0 <= i <= |calls| && r.Valid()
      invariant r.body == BodyAfter(b, calls[..i])
      invariant r.headers == AddAll(h, LinesAdded(calls[..i]))
      invariant r.uri == old(r.uri) && r.verb == old(r.verb)
    {
      ghost var before, bodyBefore := r.headers, r.body;
      Perform(r, calls[i]);
      ChainStep(h, b, calls, i, before, r.headers, bodyBefore, r.body);
      i := i + 1;
    }
    assert calls[..i] == calls;
  }
}
