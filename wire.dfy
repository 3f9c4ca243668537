/**
 * What the stats clients put on the wire and read back: the body of a
 * recorded hit, the query of a stats request, the outcome of an HTTP call
 * and the JSON a response carries. The functions here are the
 * specifications the three client implementations are proved against.
 */
module Wire {
  import opened Wrappers
  import opened Text

  // ---------------------------------------------------------------------
  // HTTP outcomes and JSON
  // ---------------------------------------------------------------------

  /** A JSON value as Jackson reads it into java.lang.Object. */
  datatype Json =
    | Null
    | Bool(b: bool)
    | Int(n: int)
    | Dec(r: real)
    | Str(s: string)
    | Arr(items: seq<Json>)
    | Obj(fields: map<string, Json>)

  /** A response body: none at all, a JSON document, or text that is not JSON. */
  datatype Payload = NoPayload | Parsed(json: Json) | Unparsable

  /**
   * The outcome of one HTTP call: the server answered with a status and a
   * body, or the call threw before any answer (connection refused, timeout).
   */
  datatype Exchange = Responded(status: int, body: Payload) | Unreachable

  predicate Is2xx(status: int) {
    200 <= status <= 299
  }

  /**
   * The statuses on which the default error handlers of RestTemplate and
   * RestClient throw instead of returning the response.
   */
  predicate IsError(status: int) {
    400 <= status <= 599
  }

  /** `isAvailable`: the health call answered with a 2xx status; anything else is false. */
  function Available(ex: Exchange): (r: bool)
    ensures r <==> ex.Responded? && Is2xx(ex.status)
  {
    ex.Responded? && Is2xx(ex.status)
  }

  // ---------------------------------------------------------------------
  // The recorded hit
  // ---------------------------------------------------------------------

  /** A value of the body map: a (nullable) string, or a LocalDateTime formatted as yyyy-MM-dd HH:mm:ss. */
  datatype Field = StringField(s: Option<string>) | TimeField(t: int)

  /** The body of `saveHit`: app, uri and ip as given, and the call time. */
  function HitBody(app: Option<string>, uri: Option<string>, ip: Option<string>, now: int)
    : map<string, Field>
  {
    map["app" := StringField(app), "uri" := StringField(uri), "ip" := StringField(ip),
        "timestamp" := TimeField(now)]
  }

  /** What `saveHit` logs: a debug line on success, an error line otherwise. */
  datatype SaveLog = Saved | Rejected(status: int) | Errored

  // ---------------------------------------------------------------------
  // The stats query
  // ---------------------------------------------------------------------

  /** A query parameter value before percent-encoding: a formatted time, text, or a Boolean. */
  datatype Value = Time(t: int) | Text(s: string) | Flag(b: bool)

  datatype Param = Param(name: string, value: Value)

  /** True when the client sends the `uris` parameter. */
  predicate SendsUris(uris: Option<seq<string>>) {
    uris.Some? && |uris.value| > 0
  }

  /**
   * The query of `getStats`, in order: start and end always; uris,
   * comma-joined, only for a present non-empty list; unique only when present.
   */
  function StatsQuery(start: int, end: int, uris: Option<seq<string>>, unique: Option<bool>)
    : seq<Param>
  {
    [Param("start", Time(start)), Param("end", Time(end))] + OptionalParams(uris, unique)
  }

  function OptionalParams(uris: Option<seq<string>>, unique: Option<bool>): seq<Param> {
    (if SendsUris(uris) then [Param("uris", Text(Join(uris.value)))] else [])
    + (if unique.Some? then [Param("unique", Flag(unique.value))] else [])
  }

  /** The value of the first parameter called `name`, as a server reads it. */
  function Lookup(ps: seq<Param>, name: string): Option<Value> {
    if ps == [] then None
    else if ps[0].name == name then Some(ps[0].value)
    else Lookup(ps[1..], name)
  }

  function Names(ps: seq<Param>): seq<string> {
    if ps == [] then [] else [ps[0].name] + Names(ps[1..])
  }

  lemma OptionalParamsCarryArguments(uris: Option<seq<string>>, unique: Option<bool>)
    ensures var rest := OptionalParams(uris, unique);
      && Lookup(rest, "uris") == (if SendsUris(uris) then Some(Text(Join(uris.value))) else None)
      && Lookup(rest, "unique") == (if unique.Some? then Some(Flag(unique.value)) else None)
      && Names(rest) == (if SendsUris(uris) then ["uris"] else [])
                        + (if unique.Some? then ["unique"] else [])
  {
    var rest := OptionalParams(uris, unique);
    if SendsUris(uris) {
      var p2 := Param("uris", Text(Join(uris.value)));
      if unique.Some? {
        var p3 := Param("unique", Flag(unique.value));
        assert rest == [p2, p3] && rest[1..] == [p3] && rest[1..][1..] == [];
        assert Names(rest[1..]) == ["unique"];
      } else {
        assert rest == [p2] && rest[1..] == [];
      }
    } else if unique.Some? {
      var p3 := Param("unique", Flag(unique.value));
      assert rest == [p3] && rest[1..] == [];
    } else {
      assert rest == [];
    }
  }

  /**
   * The query carries every argument recoverably: start and end always,
   * unique exactly when given, and the uri list exactly when it is non-empty,
   * in which case splitting the joined text at commas gives the list back
   * (provided no uri contains a comma). Each name occurs at most once, and
   * the order is start, end, uris, unique.
   */
  lemma StatsQueryCarriesArguments(start: int, end: int, uris: Option<seq<string>>, unique: Option<bool>)
    requires uris.Some? ==> CommaFree(uris.value)
    ensures var q := StatsQuery(start, end, uris, unique);
      && Lookup(q, "start") == Some(Time(start))
      && Lookup(q, "end") == Some(Time(end))
      && (Lookup(q, "unique").Some? <==> unique.Some?)
      && (unique.Some? ==> Lookup(q, "unique") == Some(Flag(unique.value)))
      && (Lookup(q, "uris").Some? <==> SendsUris(uris))
      && (SendsUris(uris) ==>
            Lookup(q, "uris").value.Text? && Split(Lookup(q, "uris").value.s) == uris.value)
      && Names(q) == ["start", "end"] + (if SendsUris(uris) then ["uris"] else [])
                     + (if unique.Some? then ["unique"] else [])
  {
    var q := StatsQuery(start, end, uris, unique);
    var rest := OptionalParams(uris, unique);
    assert q[1..] == [Param("end", Time(end))] + rest;
    assert q[1..][1..] == rest;
    OptionalParamsCarryArguments(uris, unique);
    if SendsUris(uris) {
      SplitJoin(uris.value);
    }
  }

  /**
   * The URL template of the RestTemplate client: `/stats?` followed by a
   * `name={name}` placeholder per parameter, joined by `&`.
   */
  function Template(ps: seq<Param>): string
    requires |ps| > 0
  {
    "/stats?" + Placeholder(ps[0].name) + Placeholders(ps[1..])
  }

  /** `name={name}`: a parameter filled from the variable of the same name. */
  function Placeholder(name: string): string {
    name + "={" + name + "}"
  }

  function Placeholders(ps: seq<Param>): string {
    if ps == [] then "" else "&" + Placeholder(ps[0].name) + Placeholders(ps[1..])
  }

  /** The variables map the RestTemplate client fills the placeholders from. */
  function Variables(ps: seq<Param>): map<string, Value> {
    if ps == [] then map[] else Variables(ps[1..])[ps[0].name := ps[0].value]
  }

  /** Appending a parameter appends its placeholder to the template. */
  lemma {:induction false} TemplateAppend(ps: seq<Param>, p: Param)
    requires |ps| > 0
    ensures Template(ps + [p]) == Template(ps) + "&" + Placeholder(p.name)
  {
    var head := "/stats?" + Placeholder(ps[0].name);
    var tail := "&" + Placeholder(p.name);
    assert (ps + [p])[1..] == ps[1..] + [p];
    PlaceholdersAppend(ps[1..], p);
    calc {
      Template(ps + [p]);
      head + Placeholders(ps[1..] + [p]);
      head + (Placeholders(ps[1..]) + tail);
      (head + Placeholders(ps[1..])) + tail;
    }
  }

  lemma {:induction false} PlaceholdersAppend(ps: seq<Param>, p: Param)
    ensures Placeholders(ps + [p]) == Placeholders(ps) + "&" + Placeholder(p.name)
  {
    var tail := "&" + Placeholder(p.name);
    if ps == [] {
      assert ps + [p] == [p] && [p][1..] == [];
    } else {
      var head := "&" + Placeholder(ps[0].name);
      assert (ps + [p])[1..] == ps[1..] + [p];
      PlaceholdersAppend(ps[1..], p);
      calc {
        Placeholders(ps + [p]);
        head + Placeholders(ps[1..] + [p]);
        head + (Placeholders(ps[1..]) + tail);
        (head + Placeholders(ps[1..])) + tail;
      }
    }
  }

  /** Appending a parameter with a new name adds one entry to the variables map. */
  lemma {:induction false} VariablesAppend(ps: seq<Param>, p: Param)
    requires forall i :: 0 <= i < |ps| ==> ps[i].name != p.name
    ensures Variables(ps + [p]) == Variables(ps)[p.name := p.value]
  {
    if ps == [] {
      assert ps + [p] == [p];
    } else {
      VariablesAppend(ps[1..], p);
      assert (ps + [p])[1..] == ps[1..] + [p];
    }
  }

  /** The variables map holds exactly the parameters of the query, with their values. */
  lemma {:induction false} VariablesAgreeWithLookup(ps: seq<Param>, name: string)
    ensures name in Variables(ps) <==> Lookup(ps, name).Some?
    ensures name in Variables(ps) ==> Lookup(ps, name) == Some(Variables(ps)[name])
  {
    if ps != [] {
      VariablesAgreeWithLookup(ps[1..], name);
    }
  }

  // ---------------------------------------------------------------------
  // Reading a view count out of a stats response
  // ---------------------------------------------------------------------

  const LongMin: int := -0x8000_0000_0000_0000
  const LongMax: int := 0x7FFF_FFFF_FFFF_FFFF

  /** BigInteger.longValue: the low 64 bits, read as a signed long. */
  function WrapToLong(n: int): (r: int)
    ensures LongMin <= r <= LongMax
    ensures (n - r) % 0x1_0000_0000_0000_0000 == 0
    ensures LongMin <= n <= LongMax ==> r == n
  {
    var m := n % 0x1_0000_0000_0000_0000;
    if m > LongMax then m - 0x1_0000_0000_0000_0000 else m
  }

  /** Double.longValue: rounds toward zero and saturates at the bounds of long. */
  function TruncateToLong(r: real): (n: int)
    ensures LongMin <= n <= LongMax
    ensures r >= LongMax as real ==> n == LongMax
    ensures r <= LongMin as real ==> n == LongMin
    ensures LongMin as real < r < LongMax as real && r >= 0.0 ==> n as real <= r < n as real + 1.0
    ensures LongMin as real < r < LongMax as real && r < 0.0 ==> n as real - 1.0 < r <= n as real
  {
    if r >= LongMax as real then LongMax
    else if r <= LongMin as real then LongMin
    else if r >= 0.0 then r.Floor
    else -((-r).Floor)
  }

  predicate IsNumber(j: Json) {
    j.Int? || j.Dec?
  }

  /** Number.longValue of what Jackson produced for a JSON number. */
  function LongValue(j: Json): int
    requires IsNumber(j)
  {
    if j.Int? then WrapToLong(j.n) else TruncateToLong(j.r)
  }

  /** A stats entry that names `uri` (as a string equal to it) and carries a numeric `hits`. */
  predicate IsEntryFor(stat: Json, uri: string) {
    && stat.Obj?
    && "uri" in stat.fields && stat.fields["uri"] == Str(uri)
    && "hits" in stat.fields && IsNumber(stat.fields["hits"])
  }

  function HitsOf(stat: Json): int
    requires stat.Obj? && "hits" in stat.fields && IsNumber(stat.fields["hits"])
  {
    LongValue(stat.fields["hits"])
  }

  /** The hits of the first entry for `uri`, or 0 when there is none. */
  function FirstHits(uri: string, stats: seq<Json>): int {
    if stats == [] then 0
    else if IsEntryFor(stats[0], uri) then HitsOf(stats[0])
    else FirstHits(uri, stats[1..])
  }

  /**
   * FirstHits is a first-match search: either some entry for `uri` exists and
   * the result is that of the earliest one, or none exists and the result is 0.
   */
  lemma {:induction false} FirstHitsIsFirstMatch(uri: string, stats: seq<Json>)
    ensures || (exists i :: 0 <= i < |stats| && IsEntryFor(stats[i], uri)
                 && (forall j :: 0 <= j < i ==> !IsEntryFor(stats[j], uri))
                 && FirstHits(uri, stats) == HitsOf(stats[i]))
            || ((forall i :: 0 <= i < |stats| ==> !IsEntryFor(stats[i], uri))
                 && FirstHits(uri, stats) == 0)
  {
    if stats != [] && !IsEntryFor(stats[0], uri) {
      FirstHitsIsFirstMatch(uri, stats[1..]);
      if i :| 0 <= i < |stats[1..]| && IsEntryFor(stats[1..][i], uri)
             && (forall j :: 0 <= j < i ==> !IsEntryFor(stats[1..][j], uri))
             && FirstHits(uri, stats[1..]) == HitsOf(stats[1..][i]) {
        assert forall j :: 1 <= j < i + 1 ==> stats[j] == stats[1..][j - 1];
        assert IsEntryFor(stats[i + 1], uri);
      } else {
        assert forall i :: 1 <= i < |stats| ==> stats[i] == stats[1..][i - 1];
      }
    }
  }

  // ---------------------------------------------------------------------
  // Event URIs
  // ---------------------------------------------------------------------

  /** The uri recorded for a view of the event list. */
  const EventsUri := "/events"

  /** "/events/" + eventId, where a null Long prints as "null". */
  function EventUri(eventId: Option<int>): string {
    "/events/" + (if eventId.Some? then LongToString(eventId.value) else "null")
  }

  /** Reads the event id back from an event uri. */
  function ParseEventUri(uri: string): Option<Option<int>> {
    if |uri| < 8 || uri[..8] != "/events/" then None
    else if uri[8..] == "null" then Some(None)
    else match ParseLong(uri[8..])
      case Some(n) => Some(Some(n))
      case None => None
  }

  /**
   * Event uris are read back to the id they were built from, so views of two
   * different events are never counted under one uri, and none of them is the
   * event-list uri.
   */
  lemma EventUriRoundTrip(eventId: Option<int>)
    ensures ParseEventUri(EventUri(eventId)) == Some(eventId)
    ensures EventUri(eventId) != EventsUri
  {
    var uri := EventUri(eventId);
    assert uri[..8] == "/events/";
    if eventId.Some? {
      var digits := LongToString(eventId.value);
      assert uri[8..] == digits;
      LongToStringRoundTrip(eventId.value);
      assert digits != "null" by {
        if eventId.value < 0 {
          assert digits[0] == '-';
        } else {
          assert IsDigit(digits[0]);
        }
      }
    } else {
      assert uri[8..] == "null";
    }
  }

  lemma EventUriInjective(a: Option<int>, b: Option<int>)
    requires EventUri(a) == EventUri(b)
    ensures a == b
  {
    EventUriRoundTrip(a);
    EventUriRoundTrip(b);
  }

  /** The arguments the helpers pass to `getViewsForUri`. */
  datatype ViewsCall = ViewsCall(uri: string, start: int, end: int, unique: Option<bool>)

  /**
   * The call `getEventViews` delegates: the event's uri; a window from the
   * event date, or when there is none from one year before the first clock
   * reading (`yearAgo`), to the second clock reading (`now`); unique counting.
   */
  function EventViewsCall(eventId: Option<int>, eventDate: Option<int>, yearAgo: int, now: int)
    : (c: ViewsCall)
    ensures ParseEventUri(c.uri) == Some(eventId) && c.uri != EventsUri
    ensures c.unique == Some(true)
    ensures eventDate.Some? ==> c.start == eventDate.value
    ensures eventDate.None? ==> c.start == yearAgo
    ensures c.end == now
  {
    EventUriRoundTrip(eventId);
    ViewsCall(EventUri(eventId), if eventDate.Some? then eventDate.value else yearAgo, now, Some(true))
  }
}
