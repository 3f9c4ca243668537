/**
 * The two StatsClientHelper classes: thin façades that compute the
 * arguments of one client call (a fixed uri for the event list, an event's
 * uri and view window) and return what the client returns. Each helper is
 * bound to the client implementation its constructor wires in.
 */

/** stat_svc_client's helper, over the RestTemplate client. */
module SvcClientHelper {
  import opened Wrappers
  import opened Text
  import opened Wire
  import Client = StatSvcClient

  /** One saveHit with app, uri and ip as given. */
  method RecordEventView(app: Option<string>, uri: Option<string>, ip: Option<string>, now: int,
                         ex: Exchange)
    returns (sent: map<string, Field>, report: SaveLog)
    ensures sent == HitBody(app, uri, ip, now)
    ensures report == Client.SaveReport(ex)
  {
    sent, report := Client.SaveHit(app, uri, ip, now, ex);
  }

  /** One saveHit with the uri of the event list. */
  method RecordEventListViews(app: Option<string>, ip: Option<string>, now: int, ex: Exchange)
    returns (sent: map<string, Field>, report: SaveLog)
    ensures sent == HitBody(app, Some(EventsUri), ip, now)
    ensures report == Client.SaveReport(ex)
  {
    sent, report := Client.SaveHit(app, Some(EventsUri), ip, now, ex);
  }

  /**
   * The event's unique views in its window: the client's count for the
   * event's uri, unchanged. `yearAgo` and `now` are the two clock readings.
   */
  method GetEventViews(eventId: Option<int>, eventDate: Option<int>, yearAgo: int, now: int,
                       ex: Exchange)
    returns (url: string, parameters: map<string, Value>, views: int)
    ensures var c := EventViewsCall(eventId, eventDate, yearAgo, now);
      && url == Template(StatsQuery(c.start, c.end, Some([c.uri]), c.unique))
      && parameters == Variables(StatsQuery(c.start, c.end, Some([c.uri]), c.unique))
      && views == FirstHits(c.uri, Client.Stats(ex))
  {
    var eventUri := EventUri(eventId);
    var start := if eventDate.Some? then eventDate.value else yearAgo;
    var end := now;
    url, parameters, views := Client.GetViewsForUri(eventUri, start, end, Some(true), ex);
  }

  /** `isStatsServiceAvailable`: the client's health check, unchanged. */
  function IsStatsServiceAvailable(health: Exchange): (r: bool)
    ensures r <==> health.Responded? && Is2xx(health.status)
  {
    Available(health)
  }
}

/** The standalone helper, over the RestClient client. */
module StandaloneClientHelper {
  import opened Wrappers
  import opened Text
  import opened Wire
  import Client = RestStatsClient

  /** One saveHit with app, uri and ip as given. */
  method RecordEventView(app: Option<string>, uri: Option<string>, ip: Option<string>, now: int,
                         ex: Exchange)
    returns (sent: map<string, Field>, report: SaveLog)
    ensures sent == HitBody(app, uri, ip, now)
    ensures report == Client.SaveReport(ex)
  {
    sent, report := Client.SaveHit(app, uri, ip, now, ex);
  }

  /** One saveHit with the uri of the event list. */
  method RecordEventListViews(app: Option<string>, ip: Option<string>, now: int, ex: Exchange)
    returns (sent: map<string, Field>, report: SaveLog)
    ensures sent == HitBody(app, Some(EventsUri), ip, now)
    ensures report == Client.SaveReport(ex)
  {
    sent, report := Client.SaveHit(app, Some(EventsUri), ip, now, ex);
  }

  /** The event's unique views in its window: the client's count, unchanged. */
  method GetEventViews(eventId: Option<int>, eventDate: Option<int>, yearAgo: int, now: int,
                       ex: Exchange)
    returns (query: seq<Param>, views: int)
    ensures var c := EventViewsCall(eventId, eventDate, yearAgo, now);
      && query == StatsQuery(c.start, c.end, Some([c.uri]), c.unique)
      && views == FirstHits(c.uri, Client.Stats(ex))
  {
    var eventUri := EventUri(eventId);
    var start := if eventDate.Some? then eventDate.value else yearAgo;
    var end := now;
    query, views := Client.GetViewsForUri(eventUri, start, end, Some(true), ex);
  }

  /** `isStatsServiceAvailable`: the client's health check, unchanged. */
  function IsStatsServiceAvailable(health: Exchange): (r: bool)
    ensures r <==> health.Responded? && Is2xx(health.status)
  {
    Available(health)
  }
}
