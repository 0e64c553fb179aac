/**
 Usage of Anthropic responses: a JSON document, or a stream whose `message_start` carries the input side
 and whose last `message_delta` carries the output tokens. JSON decoding is an arbitrary partial function.
 */
module Anthropic {
  import opened GoInt
  import opened Sse
  import opened Wrappers

  datatype Start = Start(model: string, input: int64, cacheRead: int64, cacheCreation: int64)

  datatype Response = Response(start: Start, output: int64)

  datatype Metrics = Metrics(model: string, inputTokens: int64, outputTokens: int64, cachedTokens: int64,
                             cacheCreationTokens: int64)

  /** How JSON texts are read as the three shapes the parser knows. */
  datatype Json = Json(response: string -> Option<Response>, start: string -> Option<Start>,
                       delta: string -> Option<int64>)

  datatype ParseError = NotJson

  /** Input tokens count cache reads and cache creation as well. */
  function BuildMetrics(r: Response): Metrics {
    Metrics(r.start.model, Wrap(Wrap(r.start.input + r.start.cacheRead) + r.start.cacheCreation), r.output,
            r.start.cacheRead, r.start.cacheCreation)
  }

  const NO_START := Start("", 0, 0, 0)

  /** The message a stream amounts to: its last readable start with its last readable output count. */
  function Assembled(events: seq<Event>, json: Json): Response {
    var start := Last(events, "message_start", json.start);
    var delta := Last(events, "message_delta", json.delta);
    Response(if start.Some? then start.value else NO_START, if delta.Some? then delta.value else 0)
  }

  /** Field by field: what the metrics of a message show. */
  predicate Reports(m: Metrics, start: Start, output: int64) {
    && m.model == start.model && m.outputTokens == output
    && m.inputTokens == Wrap(start.input + start.cacheRead + start.cacheCreation)
    && m.cachedTokens == start.cacheRead && m.cacheCreationTokens == start.cacheCreation
  }

  /** The last readable start and the last readable output count, or zeros (see `Sse.LastIsLastReadable`). */
  ghost predicate ReportsStream(m: Metrics, events: seq<Event>, json: Json) {
    var start, output := Last(events, "message_start", json.start), Last(events, "message_delta", json.delta);
    Reports(m, if start.Some? then start.value else Start("", 0, 0, 0), if output.Some? then output.value else 0)
  }

  lemma BuiltReports(r: Response)
    ensures Reports(BuildMetrics(r), r.start, r.output)
  {
    WrapCancels(r.start.input + r.start.cacheRead, r.start.cacheCreation);
  }

  method ParseStreamingResponse(body: string, json: Json) returns (m: Metrics)
    ensures m == BuildMetrics(Assembled(EventsOf(body), json))
    ensures ReportsStream(m, EventsOf(body), json)
  {
    var model := "";
    var input, output, cacheRead, cacheCreation := 0, 0, 0, 0;
    var events := ScanEvents(body);
    for i := 0 to |events|
      invariant Assembled(events[..i], json) == Response(Start(model, input, cacheRead, cacheCreation), output)
    {
      assert events[..i + 1][..i] == events[..i];
      var e := events[i];
      match e.name {
        case "message_start" =>
          var event := json.start(e.data);
          if event.Some? {
            model, input := event.value.model, event.value.input;
            cacheRead, cacheCreation := event.value.cacheRead, event.value.cacheCreation;
          }
        case "message_delta" =>
          var event := json.delta(e.data);
          if event.Some? {
            output := event.value;
          }
        case _ =>
      }
    }
    assert events[..|events|] == events;
    var total := Wrap(Wrap(input as int + cacheRead as int) + cacheCreation);
    BuiltReports(Assembled(events, json));
    return Metrics(model, total, output, cacheRead, cacheCreation);
  }

  /** What `ParseResponse` answers for a body. */
  function MetricsOf(body: string, json: Json): Result<Metrics, ParseError> {
    if IsSse(body) then Ok(BuildMetrics(Assembled(EventsOf(body), json)))
    else if json.response(body).Some? then Ok(BuildMetrics(json.response(body).value))
    else Err(NotJson)
  }

  method ParseResponse(body: string, json: Json) returns (r: Result<Metrics, ParseError>)
    ensures r == MetricsOf(body, json)
    ensures IsSse(body) ==> r.Ok? && ReportsStream(r.value, EventsOf(body), json)
    ensures !IsSse(body) ==> (r.Ok? <==> json.response(body).Some?)
    ensures !IsSse(body) && r.Ok? ==>
      Reports(r.value, json.response(body).value.start, json.response(body).value.output)
  {
    if IsSse(body) {
      var m := ParseStreamingResponse(body, json);
      return Ok(m);
    }
    var resp := json.response(body);
    if resp.None? {
      return Err(NotJson);
    }
    BuiltReports(resp.value);
    return Ok(BuildMetrics(resp.value));
  }

  /**
   Streaming agrees with JSON. Take any printable stream in which event `s` is the last readable
   `message_start` and event `d` the last readable `message_delta`, among any other events. Its metrics
   are those of the JSON document with the same start and that output count.
   */
  lemma StreamingAgreesWithJson(events: seq<Event>, s: nat, d: nat, document: string, json: Json)
    requires forall e <- events :: Printable(e)
    requires s < |events| && events[s].name == "message_start" && json.start(events[s].data).Some?
    requires forall j :: s < j < |events| ==>
      events[j].name != "message_start" || json.start(events[j].data).None?
    requires d < |events| && events[d].name == "message_delta" && json.delta(events[d].data).Some?
    requires forall j :: d < j < |events| ==> events[j].name != "message_delta" || json.delta(events[j].data).None?
    requires !IsSse(document)
    requires json.response(document) == Some(Response(json.start(events[s].data).value,
      json.delta(events[d].data).value))
    ensures MetricsOf(Print(events), json) == MetricsOf(document, json)
    ensures MetricsOf(document, json).Ok?
  {
    PrintedIsSse(events);
    ParseInvertsPrint(events, "");
    LastIs(events, "message_start", json.start, s);
    LastIs(events, "message_delta", json.delta, d);
  }

  /** A stream cut off by an overlong line reports the output count of what came before it. */
  lemma OverlongLineLosesTheDelta(events: seq<Event>, long: string, rest: string, json: Json)
    requires events != [] && forall e <- events :: Printable(e)
    requires '\n' !in long && |long| > MAX_LINE
    ensures MetricsOf(Print(events) + (long + "\n" + rest), json) == Ok(BuildMetrics(Assembled(events, json)))
  {
    OverlongLineHidesTheRest(events, "", long, rest);
    PrintedIsSse(events);
    var body := Print(events) + (long + "\n" + rest);
    assert body[0] == Print(events)[0] == 'e' && body[..6] == Print(events)[..6] == EVENT_PREFIX[..6];
    assert EVENT_PREFIX[..6] == "event:";
  }
}
