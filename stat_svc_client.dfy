/**
 * The RestTemplate client of the stats service (the stat_svc_client
 * module): `saveHit`, `getStats`, `getViewsForUri`. Each HTTP call is
 * the `Exchange` the server answered it with; `isAvailable` is
 * `Wire.Available` of the health call.
 */
module StatSvcClient {
  import opened Wrappers
  import opened Text
  import opened Wire

  // ---------------------------------------------------------------------
  // saveHit
  // ---------------------------------------------------------------------

  /**
   * What `saveHit` logs for the answer to its POST. postForEntity throws on
   * an error status and on a body it cannot read; both are caught and logged.
   */
  function SaveReport(ex: Exchange): (r: SaveLog)
    ensures r == Saved <==> ex.Responded? && Is2xx(ex.status) && !ex.body.Unparsable?
    ensures r.Rejected? ==> ex.Responded? && r.status == ex.status
                            && !Is2xx(ex.status) && !IsError(ex.status)
    ensures ex.Responded? && !Is2xx(ex.status) && !IsError(ex.status) && !ex.body.Unparsable? ==>
              r == Rejected(ex.status)
    ensures ex.Responded? && (IsError(ex.status) || ex.body.Unparsable?) ==> r == Errored
    ensures ex.Unreachable? ==> r == Errored
  {
    if ex.Unreachable? || IsError(ex.status) || ex.body.Unparsable? then Errored
    else if Is2xx(ex.status) then Saved
    else Rejected(ex.status)
  }

  /**
   * Posts app, uri and ip unchanged with the call time, and never lets an
   * exception out: every outcome of the call ends in a log line.
   */
  method SaveHit(app: Option<string>, uri: Option<string>, ip: Option<string>, now: int,
                 ex: Exchange)
    returns (sent: map<string, Field>, report: SaveLog)
    ensures sent.Keys == {"app", "uri", "ip", "timestamp"}
    ensures sent["app"] == StringField(app) && sent["uri"] == StringField(uri)
    ensures sent["ip"] == StringField(ip) && sent["timestamp"] == TimeField(now)
    ensures sent == HitBody(app, uri, ip, now)
    ensures report == SaveReport(ex)
  {
    var hitData: map<string, Field> := map[];
    hitData := hitData["app" := StringField(app)];
    hitData := hitData["uri" := StringField(uri)];
    hitData := hitData["ip" := StringField(ip)];
    hitData := hitData["timestamp" := TimeField(now)];
    sent := hitData;
    if ex.Unreachable? || IsError(ex.status) || ex.body.Unparsable? {
      report := Errored;
    } else if Is2xx(ex.status) {
      report := Saved;
    } else {
      report := Rejected(ex.status);
    }
  }

  // ---------------------------------------------------------------------
  // getStats
  // ---------------------------------------------------------------------

  /**
   * The URL template and the variables map of a stats request, filled step
   * by step: start and end first, then uris and unique when present.
   */
  method BuildStatsRequest(start: int, end: int, uris: Option<seq<string>>, unique: Option<bool>)
    returns (url: string, parameters: map<string, Value>)
    ensures url == Template(StatsQuery(start, end, uris, unique))
    ensures parameters == Variables(StatsQuery(start, end, uris, unique))
  {
    BaseRequest(start, end);
    parameters := map[];
    parameters := parameters["start" := Time(start)];
    parameters := parameters["end" := Time(end)];
    url := "/stats?start={start}&end={end}";
    // `added` is the query built so far
    ghost var added := [Param("start", Time(start)), Param("end", Time(end))];
    ghost var optional: seq<Param> := [];
    if uris.Some? && |uris.value| > 0 {
      var p := Param("uris", Text(Join(uris.value)));
      url, parameters := AddParameter(url, parameters, added, p);
      added, optional := added + [p], optional + [p];
    }
    if unique.Some? {
      var p := Param("unique", Flag(unique.value));
      url, parameters := AddParameter(url, parameters, added, p);
      added, optional := added + [p], optional + [p];
    }
    assert optional == OptionalParams(uris, unique);
    assert added == StatsQuery(start, end, uris, unique);
  }

  /** Appends one `&name={name}` placeholder to the template and puts its variable. */
  method AddParameter(url: string, parameters: map<string, Value>, ghost added: seq<Param>, p: Param)
    returns (url': string, parameters': map<string, Value>)
    requires |added| > 0 && url == Template(added) && parameters == Variables(added)
    requires forall i :: 0 <= i < |added| ==> added[i].name != p.name
    ensures url' == Template(added + [p]) && parameters' == Variables(added + [p])
  {
    TemplateAppend(added, p);
    VariablesAppend(added, p);
    parameters' := parameters[p.name := p.value];
    url' := url + "&" + Placeholder(p.name);
  }

  /** The request the client starts from is the query of start and end. */
  lemma BaseRequest(start: int, end: int)
    ensures var base := [Param("start", Time(start)), Param("end", Time(end))];
      && Template(base) == "/stats?start={start}&end={end}"
      && Variables(base) == map["start" := Time(start), "end" := Time(end)]
  {
    var base := [Param("start", Time(start)), Param("end", Time(end))];
    assert base[1..] == [Param("end", Time(end))] && base[1..][1..] == [];
    assert Placeholders(base[1..]) == "&" + Placeholder("end") + Placeholders(base[1..][1..]);
    assert Template(base) == "/stats?" + Placeholder("start") + ("&" + Placeholder("end") + "");
    BaseTemplateText();
    assert Variables(base[1..]) == map["end" := Time(end)];
  }

  /** The literal the client starts from is the template of start and end. */
  lemma BaseTemplateText()
    ensures "/stats?" + Placeholder("start") + ("&" + Placeholder("end") + "")
         == "/stats?start={start}&end={end}"
  {
    assert Placeholder("start") == "start={start}";
    assert "&" + Placeholder("end") + "" == "&end={end}";
  }

  /**
   * `getStats` as written: the parsed list on a 2xx response with a body and
   * the empty list whenever anything fails, except that a body holding the
   * JSON literal null is read by Jackson as a null list, which is returned
   * as is (None).
   */
  function StatsAsWritten(ex: Exchange): (r: Option<seq<Json>>)
    ensures r.None? <==> ex.Responded? && Is2xx(ex.status) && ex.body == Parsed(Null)
    ensures r.Some? && r.value != [] ==>
              ex.Responded? && Is2xx(ex.status) && ex.body == Parsed(Arr(r.value))
  {
    if ex.Responded? && Is2xx(ex.status) && ex.body.Parsed? then
      match ex.body.json
      case Arr(items) => Some(items)
      case Null => None
      case _ => Some([])
    else Some([])
  }

  /**
   * `getStats` as the interface means it: the parsed list on a 2xx response
   * whose body is a JSON array, and otherwise, the JSON null included, the
   * empty list.
   */
  function Stats(ex: Exchange): (r: seq<Json>)
    ensures r != [] ==> ex.Responded? && Is2xx(ex.status) && ex.body == Parsed(Arr(r))
    ensures ex.Responded? && Is2xx(ex.status) && ex.body.Parsed? && ex.body.json.Arr? ==>
              r == ex.body.json.items
  {
    if ex.Responded? && Is2xx(ex.status) && ex.body.Parsed? && ex.body.json.Arr? then
      ex.body.json.items
    else []
  }

  /** The input that separates the two: a 2xx answer whose body is `null`. */
  lemma NullBodyReturnsNull()
    ensures StatsAsWritten(Responded(200, Parsed(Null))) == None
    ensures Stats(Responded(200, Parsed(Null))) == []
  {
  }

  /** On every other answer the written code already returns the corrected list. */
  lemma StatsAsWrittenAgreesOtherwise(ex: Exchange)
    ensures StatsAsWritten(ex).Some? ==> StatsAsWritten(ex).value == Stats(ex)
  {
  }

  /** `getStats` as written, null result included. */
  method GetStatsAsWritten(start: int, end: int, uris: Option<seq<string>>, unique: Option<bool>,
                           ex: Exchange)
    returns (url: string, parameters: map<string, Value>, stats: Option<seq<Json>>)
    ensures url == Template(StatsQuery(start, end, uris, unique))
    ensures parameters == Variables(StatsQuery(start, end, uris, unique))
    ensures stats == StatsAsWritten(ex)
  {
    url, parameters := BuildStatsRequest(start, end, uris, unique);
    stats := Some([]);
    if ex.Responded? && !IsError(ex.status) && Is2xx(ex.status) && !ex.body.NoPayload? {
      match ex.body {
        case Parsed(Arr(items)) => stats := Some(items);
        case Parsed(Null) => stats := None;
        case _ =>
      }
    }
  }

  /** `getStats` with a null parse result returned as the empty list. */
  method GetStats(start: int, end: int, uris: Option<seq<string>>, unique: Option<bool>,
                  ex: Exchange)
    returns (url: string, parameters: map<string, Value>, stats: seq<Json>)
    ensures url == Template(StatsQuery(start, end, uris, unique))
    ensures parameters == Variables(StatsQuery(start, end, uris, unique))
    ensures stats == Stats(ex)
  {
    url, parameters := BuildStatsRequest(start, end, uris, unique);
    stats := [];
    if ex.Responded? && !IsError(ex.status) && Is2xx(ex.status) && !ex.body.NoPayload? {
      match ex.body {
        case Parsed(Arr(items)) => stats := items;
        case _ =>
      }
    }
  }

  // ---------------------------------------------------------------------
  // getViewsForUri
  // ---------------------------------------------------------------------

  /**
   * Queries with the one-element list [uri], then returns the hits of the
   * first entry for `uri`, or 0. Iterating the null list the written
   * `getStats` can return throws, which is caught and gives 0 as well, so the
   * count is that of the corrected `getStats`.
   */
  method GetViewsForUri(uri: string, start: int, end: int, unique: Option<bool>, ex: Exchange)
    returns (url: string, parameters: map<string, Value>, views: int)
    ensures url == Template(StatsQuery(start, end, Some([uri]), unique))
    ensures parameters == Variables(StatsQuery(start, end, Some([uri]), unique))
    ensures views == FirstHits(uri, Stats(ex))
  {
    var result;
    url, parameters, result := GetStatsAsWritten(start, end, Some([uri]), unique, ex);
    views := 0;
    if result.None? {
      return;
    }
    var stats := result.value;
    var i := 0;
    while i < |stats|
      invariant 0 <= i <= |stats|
      invariant FirstHits(uri, stats[i..]) == FirstHits(uri, stats)
    {
      var stat := stats[i];
      if stat.Obj? {
        var statUri := if "uri" in stat.fields then Some(stat.fields["uri"]) else None;
        var hits := if "hits" in stat.fields then Some(stat.fields["hits"]) else None;
        if statUri == Some(Str(uri)) && hits.Some? && IsNumber(hits.value) {
          views := LongValue(hits.value);
          return;
        }
      }
      assert stats[i..][1..] == stats[i + 1..];
      i := i + 1;
    }
  }
}
