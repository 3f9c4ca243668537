/**
 * The RestClient implementation of the stats client. The repository holds
 * it twice with the same `saveHit` and `getStats`: the standalone client
 * (src/main/java/ru/practicum/statsclient/config/StatsClientImpl.java, which
 * adds `getViewsForUri`, `extractHitsFromStats` and `isAvailable`) and the
 * stats-client module (stats/stats-client/.../impl/StatsClientImpl.java).
 * `isAvailable` is `Wire.Available` of the health call.
 */
module RestStatsClient {
  import opened Wrappers
  import opened Text
  import opened Wire

  // ---------------------------------------------------------------------
  // saveHit
  // ---------------------------------------------------------------------

  /**
   * What `saveHit` logs. `retrieve()` throws on an error status, which is
   * caught; `toBodilessEntity` never reads the body.
   */
  function SaveReport(ex: Exchange): (r: SaveLog)
    ensures r == Saved <==> ex.Responded? && Is2xx(ex.status)
    ensures r.Rejected? ==> ex.Responded? && r.status == ex.status
                            && !Is2xx(ex.status) && !IsError(ex.status)
    ensures ex.Responded? && !Is2xx(ex.status) && !IsError(ex.status) ==> r == Rejected(ex.status)
    ensures ex.Responded? && IsError(ex.status) ==> r == Errored
    ensures ex.Unreachable? ==> r == Errored
  {
    if ex.Unreachable? || IsError(ex.status) then Errored
    else if Is2xx(ex.status) then Saved
    else Rejected(ex.status)
  }

  /**
   * Posts app, uri and ip unchanged with the call time, and never lets an
   * exception out.
   */
  method SaveHit(app: Option<string>, uri: Option<string>, ip: Option<string>, now: int,
                 ex: Exchange)
    returns (sent: map<string, Field>, report: SaveLog)
    ensures sent.Keys == {"app", "uri", "ip", "timestamp"}
    ensures sent["app"] == StringField(app) && sent["uri"] == StringField(uri)
    ensures sent["ip"] == StringField(ip) && sent["timestamp"] == TimeField(now)
    ensures sent == HitBody(app, uri, ip, now)
    ensures report == SaveReport(ex)
  {
    var hitData: map<string, Field> := map[];
    hitData := hitData["app" := StringField(app)];
    hitData := hitData["uri" := StringField(uri)];
    hitData := hitData["ip" := StringField(ip)];
    hitData := hitData["timestamp" := TimeField(now)];
    sent := hitData;
    if ex.Unreachable? || IsError(ex.status) {
      report := Errored;
    } else if Is2xx(ex.status) {
      report := Saved;
    } else {
      report := Rejected(ex.status);
    }
  }

  // ---------------------------------------------------------------------
  // getStats
  // ---------------------------------------------------------------------

  /**
   * The list `getStats` returns: the elements of a JSON array body of any
   * response `retrieve()` lets through (there is no 2xx check), and the
   * empty list for an error status, a missing body, the JSON null, a
   * non-array body and a failed call.
   */
  function Stats(ex: Exchange): (r: seq<Json>)
    ensures r != [] ==> ex.Responded? && !IsError(ex.status) && ex.body == Parsed(Arr(r))
    ensures ex.Responded? && !IsError(ex.status) && ex.body.Parsed? && ex.body.json.Arr? ==>
              r == ex.body.json.items
  {
    if ex.Responded? && !IsError(ex.status) && ex.body.Parsed? && ex.body.json.Arr? then
      ex.body.json.items
    else []
  }

  /**
   * Appends start and end, then uris (comma-joined) when the list is present
   * and non-empty, then unique when present, as UriComponentsBuilder query
   * parameters; then reads the answer.
   */
  method GetStats(start: int, end: int, uris: Option<seq<string>>, unique: Option<bool>,
                  ex: Exchange)
    returns (query: seq<Param>, stats: seq<Json>)
    ensures query == StatsQuery(start, end, uris, unique)
    ensures stats == Stats(ex)
  {
    query := [Param("start", Time(start))];
    query := query + [Param("end", Time(end))];
    ghost var base := query;
    if uris.Some? && |uris.value| > 0 {
      query := query + [Param("uris", Text(Join(uris.value)))];
    }
    if unique.Some? {
      query := query + [Param("unique", Flag(unique.value))];
    }
    assert query == base + OptionalParams(uris, unique);
    stats := [];
    if ex.Responded? && !IsError(ex.status) {
      match ex.body {
        case Parsed(Arr(items)) => stats := items;
        case _ =>
      }
    }
  }

  // ---------------------------------------------------------------------
  // getViewsForUri
  // ---------------------------------------------------------------------

  /** The hits of the first entry for `uri` that carries a numeric count, or 0. */
  method ExtractHitsFromStats(uri: string, stats: seq<Json>) returns (hits: int)
    ensures hits == FirstHits(uri, stats)
  {
    var i := 0;
    while i < |stats|
      invariant 0 <= i <= |stats|
      invariant FirstHits(uri, stats[i..]) == FirstHits(uri, stats)
    {
      var stat := stats[i];
      if stat.Obj? {
        var statUri := if "uri" in stat.fields then Some(stat.fields["uri"]) else None;
        var count := if "hits" in stat.fields then Some(stat.fields["hits"]) else None;
        if statUri == Some(Str(uri)) && count.Some? && IsNumber(count.value) {
          return LongValue(count.value);
        }
      }
      assert stats[i..][1..] == stats[i + 1..];
      i := i + 1;
    }
    return 0;
  }

  /** Queries with the one-element list [uri] and extracts that uri's count. */
  method GetViewsForUri(uri: string, start: int, end: int, unique: Option<bool>, ex: Exchange)
    returns (query: seq<Param>, views: int)
    ensures query == StatsQuery(start, end, Some([uri]), unique)
    ensures views == FirstHits(uri, Stats(ex))
  {
    var stats;
    query, stats := GetStats(start, end, Some([uri]), unique, ex);
    views := ExtractHitsFromStats(uri, stats);
  }
}
