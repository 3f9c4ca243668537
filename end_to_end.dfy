/**
 * The clients against the stats server: what the server makes of the body
 * `saveHit` posts, and what `getEventViews` reads out of the server's answer
 * to the query it sends.
 */
module EndToEnd {
  import opened Wrappers
  import opened Text
  import opened Wire
  import opened HitDtos
  import opened Hits
  import HitMapper
  import opened StatsRepository
  import opened StatsService
  import SvcClient = StatSvcClient
  import RestClient = RestStatsClient

  // ---------------------------------------------------------------------
  // saveHit against POST /hit
  // ---------------------------------------------------------------------

  function StringAt(body: map<string, Field>, key: string): Option<string> {
    if key in body && body[key].StringField? then body[key].s else None
  }

  /**
   * The server's JSON binding of a posted body into a HitDto: absent keys are
   * null, and the timestamp is parsed with the pattern it was formatted with.
   */
  function ReadHitBody(body: map<string, Field>): HitDto {
    HitDto(None, StringAt(body, "app"), StringAt(body, "uri"), StringAt(body, "ip"),
           if "timestamp" in body && body["timestamp"].TimeField? then Some(body["timestamp"].t)
           else None)
  }

  /**
   * The server reads back exactly what the client sent, with no id; it is
   * valid exactly when app, uri and ip are not blank; and the stored hit
   * carries the client's clock reading, not the server's.
   */
  lemma SavedHitIsReadAsSent(app: Option<string>, uri: Option<string>, ip: Option<string>,
                             now: int, serverNow: int)
    ensures ReadHitBody(HitBody(app, uri, ip, now)) == HitDto(None, app, uri, ip, Some(now))
    ensures IsValid(ReadHitBody(HitBody(app, uri, ip, now))) <==>
              NotBlank(app) && NotBlank(uri) && NotBlank(ip)
    ensures HitMapper.ToHit(ReadHitBody(HitBody(app, uri, ip, now)), serverNow)
              == Hit(None, app, ip, uri, Some(now))
  {
    var d := HitDto(None, app, uri, ip, Some(now));
    assert ReadHitBody(HitBody(app, uri, ip, now)) == d;
    assert AppBlank != UriBlank && UriBlank != IpBlank && AppBlank != IpBlank;
    assert IsValid(d) ==> NotBlank(app) && NotBlank(uri) && NotBlank(ip) by {
      if !NotBlank(app) {
        assert AppBlank in Violations(d);
      } else if !NotBlank(uri) {
        assert UriBlank in Violations(d);
      } else if !NotBlank(ip) {
        assert IpBlank in Violations(d);
      }
    }
  }

  // ---------------------------------------------------------------------
  // getStats against GET /stats
  // ---------------------------------------------------------------------

  function NullableText(s: Option<string>): Json {
    if s.Some? then Str(s.value) else Null
  }

  /** A stats row as Jackson writes it: app, uri and hits. */
  function StatsJson(e: StatsDto): Json {
    Obj(map["app" := NullableText(e.app), "uri" := NullableText(e.uri), "hits" := Int(e.hits)])
  }

  function Render(rows: seq<StatsDto>): seq<Json> {
    seq(|rows|, i requires 0 <= i < |rows| => StatsJson(rows[i]))
  }

  /**
   * The server's answer to a stats query. The controller reads start and end,
   * splits uris at commas, and takes unique as false unless it is sent as
   * true; the service's exception and a missing bound come back as an error
   * status.
   */
  function StatsAnswer(svc: StatsServiceImpl, q: seq<Param>, errorStatus: int): Exchange
    reads svc
  {
    match (Lookup(q, "start"), Lookup(q, "end"))
    case (Some(Time(start)), Some(Time(end))) =>
      var uris := if Lookup(q, "uris").Some? && Lookup(q, "uris").value.Text?
                  then Some(Split(Lookup(q, "uris").value.s)) else None;
      var unique := Lookup(q, "unique") == Some(Flag(true));
      (match svc.Get(start, end, uris, unique)
       case Success(rows) => Responded(200, Parsed(Arr(Render(rows))))
       case Failure(_) => Responded(errorStatus, NoPayload))
    case _ => Responded(errorStatus, NoPayload)
  }

  /** A rendered row is an entry for `uri` exactly when its uri is `uri`, and reads back its count. */
  lemma RenderedRow(e: StatsDto, uri: string)
    requires e.hits <= LongMax
    ensures IsEntryFor(StatsJson(e), uri) <==> e.uri == Some(uri)
    ensures HitsOf(StatsJson(e)) == e.hits
  {
  }

  /**
   * Reading a uri's count out of rows sorted by hits gives the largest count
   * any row for that uri has (over all apps), and 0 when there is none.
   */
  lemma ViewsAreTopCount(rows: seq<StatsDto>, uri: string)
    requires SortedByHitsDesc(rows)
    requires forall i :: 0 <= i < |rows| ==> rows[i].hits <= LongMax
    ensures forall i :: 0 <= i < |rows| && rows[i].uri == Some(uri) ==>
              FirstHits(uri, Render(rows)) >= rows[i].hits
    ensures || FirstHits(uri, Render(rows)) == 0
            || exists i :: 0 <= i < |rows| && rows[i].uri == Some(uri)
                          && FirstHits(uri, Render(rows)) == rows[i].hits
  {
    var js := Render(rows);
    var v := FirstHits(uri, js);
    assert |js| == |rows|;
    forall i | 0 <= i < |rows|
      ensures IsEntryFor(js[i], uri) <==> rows[i].uri == Some(uri)
      ensures IsEntryFor(js[i], uri) ==> HitsOf(js[i]) == rows[i].hits
    {
      assert js[i] == StatsJson(rows[i]);
      RenderedRow(rows[i], uri);
    }
    FirstHitsIsFirstMatch(uri, js);
    if i :| 0 <= i < |js| && IsEntryFor(js[i], uri)
           && (forall j :: 0 <= j < i ==> !IsEntryFor(js[j], uri))
           && v == HitsOf(js[i]) {
      assert v == rows[i].hits;
      forall j | 0 <= j < |rows| && rows[j].uri == Some(uri)
        ensures v >= rows[j].hits
      {
        assert IsEntryFor(js[j], uri);
        assert i <= j;
        assert i == j || rows[i].hits >= rows[j].hits;
      }
    }
  }

  lemma {:induction false} RawCountAtMostRows(hits: seq<Hit>, c: Criteria, k: Key)
    ensures RawCount(hits, c, k) <= |hits|
  {
    if hits != [] {
      RawCountAtMostRows(hits[..|hits| - 1], c, k);
    }
  }

  lemma DistinctVisitorsAtMostRows(hits: seq<Hit>, c: Criteria, k: Key)
    ensures |DistinctIps(hits, c, k)| <= |hits|
  {
    IpsOfIsDistinctIps(hits, c, k);
    DistinctAtMostRaw(hits, c, k);
    RawCountAtMostRows(hits, c, k);
  }

  /** A group with a visitor ip is a group of some qualifying hit. */
  lemma VisitedKeyQualifies(hits: seq<Hit>, c: Criteria, k: Key)
    ensures DistinctIps(hits, c, k) != {} ==> k in QualifyingKeys(hits, c)
  {
    if DistinctIps(hits, c, k) != {} {
      var ip :| ip in DistinctIps(hits, c, k);
      var j :| 0 <= j < |hits| && Counted(hits[j], c, k) && hits[j].ip.value == ip;
      assert KeyOf(hits[j]) == k;
    }
  }

  /** An event uri contains no comma, so the uris parameter carries it intact. */
  lemma EventUriCommaFree(eventId: Option<int>)
    ensures ',' !in EventUri(eventId)
  {
    var tail := if eventId.Some? then LongToString(eventId.value) else "null";
    assert EventUri(eventId) == "/events/" + tail;
    if eventId.Some? {
      var n := eventId.value;
      var digits := if n < 0 then Digits(-n) else Digits(n);
      assert ',' !in digits by {
        forall i | 0 <= i < |digits| ensures digits[i] != ',' {
          assert IsDigit(digits[i]);
        }
      }
      assert tail == if n < 0 then "-" + digits else digits;
    }
  }

  /**
   * The server's answer to a unique-count query for one comma-free uri, as
   * both clients read it: the rendered rows of the distinct-ip query for a
   * valid window, and nothing for an inverted one.
   */
  lemma AnswerIsRenderedRows(svc: StatsServiceImpl, start: int, end: int, uri: string, errorStatus: int)
    requires IsError(errorStatus) && ',' !in uri
    ensures var answer := StatsAnswer(svc, StatsQuery(start, end, Some([uri]), Some(true)), errorStatus);
      && SvcClient.Stats(answer) == RestClient.Stats(answer)
      && (start > end ==> SvcClient.Stats(answer) == [])
      && (start <= end ==>
            SvcClient.Stats(answer)
            == Render(FindUniqueStatsByUrisAndTimestampBetween(svc.hits, start, end, Some([uri]))))
  {
    StatsQueryCarriesArguments(start, end, Some([uri]), Some(true));
    assert Join([uri]) == uri;
  }

  /** No distinct-ip count exceeds the number of stored hits, so each fits in a long. */
  lemma RowsFitInLong(hits: seq<Hit>, start: int, end: int, uris: Option<seq<string>>)
    requires |hits| <= LongMax
    ensures var rows := FindUniqueStatsByUrisAndTimestampBetween(hits, start, end, uris);
      forall i :: 0 <= i < |rows| ==> rows[i].hits <= LongMax
  {
    var rows := FindUniqueStatsByUrisAndTimestampBetween(hits, start, end, uris);
    forall i | 0 <= i < |rows| ensures rows[i].hits <= LongMax {
      DistinctVisitorsAtMostRows(hits, Criteria(start, end, uris), EntryKey(rows[i]));
    }
  }

  /** The count read for `uri` is at least the distinct visitors of every app. */
  lemma TopCountBoundsVisitors(hits: seq<Hit>, start: int, end: int, uri: string)
    requires |hits| <= LongMax
    ensures var crit := Criteria(start, end, Some([uri]));
      var views := FirstHits(uri, Render(FindUniqueStatsByUrisAndTimestampBetween(hits, start, end, Some([uri]))));
      forall app :: views >= |DistinctIps(hits, crit, Key(app, Some(uri)))|
  {
    var crit := Criteria(start, end, Some([uri]));
    var rows := FindUniqueStatsByUrisAndTimestampBetween(hits, start, end, Some([uri]));
    RowsFitInLong(hits, start, end, Some([uri]));
    ViewsAreTopCount(rows, uri);
    var views := FirstHits(uri, Render(rows));
    forall app ensures views >= |DistinctIps(hits, crit, Key(app, Some(uri)))| {
      var k := Key(app, Some(uri));
      VisitedKeyQualifies(hits, crit, k);
      if k in QualifyingKeys(hits, crit) {
        assert k in EntryKeys(rows);
        var i :| 0 <= i < |rows| && EntryKey(rows[i]) == k;
        assert rows[i].uri == Some(uri);
      }
    }
  }

  /**
   * A positive count read for `uri` is the distinct-visitor count of some app,
   * so some hit for the uri in the window has an ip.
   */
  lemma TopCountIsSomeGroup(hits: seq<Hit>, start: int, end: int, uri: string)
    requires |hits| <= LongMax
    ensures var crit := Criteria(start, end, Some([uri]));
      var views := FirstHits(uri, Render(FindUniqueStatsByUrisAndTimestampBetween(hits, start, end, Some([uri]))));
      views != 0 ==>
        && (exists app :: views == |DistinctIps(hits, crit, Key(app, Some(uri)))|)
        && (exists i :: 0 <= i < |hits| && Qualifies(hits[i], crit) && hits[i].ip.Some?)
  {
    var crit := Criteria(start, end, Some([uri]));
    var rows := FindUniqueStatsByUrisAndTimestampBetween(hits, start, end, Some([uri]));
    RowsFitInLong(hits, start, end, Some([uri]));
    ViewsAreTopCount(rows, uri);
    var views := FirstHits(uri, Render(rows));
    if views != 0 {
      var i :| 0 <= i < |rows| && rows[i].uri == Some(uri) && views == rows[i].hits;
      var k := EntryKey(rows[i]);
      assert views == |DistinctIps(hits, crit, Key(k.app, Some(uri)))|;
      var ip :| ip in DistinctIps(hits, crit, k);
      var j :| 0 <= j < |hits| && Counted(hits[j], crit, k) && hits[j].ip.value == ip;
      assert Qualifies(hits[j], crit) && hits[j].ip.Some?;
    }
  }

  /**
   * The count read for `uri` out of the distinct-ip query's rows: at least the
   * distinct visitors of every app, equal to one of them or 0, and positive
   * exactly when some hit for the uri in the window has an ip.
   */
  lemma TopCountIsDistinctVisitors(hits: seq<Hit>, start: int, end: int, uri: string)
    requires |hits| <= LongMax
    ensures var crit := Criteria(start, end, Some([uri]));
      var views := FirstHits(uri, Render(FindUniqueStatsByUrisAndTimestampBetween(hits, start, end, Some([uri]))));
      && (forall app :: views >= |DistinctIps(hits, crit, Key(app, Some(uri)))|)
      && (views == 0 || exists app :: views == |DistinctIps(hits, crit, Key(app, Some(uri)))|)
      && (views > 0 <==> exists i :: 0 <= i < |hits| && Qualifies(hits[i], crit) && hits[i].ip.Some?)
  {
    var crit := Criteria(start, end, Some([uri]));
    TopCountBoundsVisitors(hits, start, end, uri);
    TopCountIsSomeGroup(hits, start, end, uri);
    var views := FirstHits(uri, Render(FindUniqueStatsByUrisAndTimestampBetween(hits, start, end, Some([uri]))));
    if j :| 0 <= j < |hits| && Qualifies(hits[j], crit) && hits[j].ip.Some? {
      var k := Key(hits[j].app, Some(uri));
      assert Counted(hits[j], crit, k);
      assert hits[j].ip.value in DistinctIps(hits, crit, k);
      assert views >= |DistinctIps(hits, crit, k)| > 0;
    }
  }

  /**
   * `getEventViews` against the server: with an inverted window (an event
   * date later than now) the server fails and the count is 0; otherwise the
   * count is the largest number of distinct visitor ips any app recorded for
   * the event's uri within the window, bounds included, and it is positive
   * exactly when some hit for that uri in the window has an ip. Both client
   * implementations read the same count.
   */
  lemma EventViewsCountDistinctVisitors(svc: StatsServiceImpl, eventId: Option<int>,
                                        eventDate: Option<int>, yearAgo: int, now: int,
                                        errorStatus: int)
    requires IsError(errorStatus)
    requires |svc.hits| <= LongMax
    ensures var c := EventViewsCall(eventId, eventDate, yearAgo, now);
      var crit := Criteria(c.start, c.end, Some([c.uri]));
      var answer := StatsAnswer(svc, StatsQuery(c.start, c.end, Some([c.uri]), c.unique), errorStatus);
      var views := FirstHits(c.uri, SvcClient.Stats(answer));
      && views == FirstHits(c.uri, RestClient.Stats(answer))
      && (c.start > c.end ==> views == 0)
      && (c.start <= c.end ==>
            forall app :: views >= |DistinctIps(svc.hits, crit, Key(app, Some(c.uri)))|)
      && (c.start <= c.end ==>
            views == 0 || exists app :: views == |DistinctIps(svc.hits, crit, Key(app, Some(c.uri)))|)
      && (views > 0 <==>
            c.start <= c.end
            && (exists i :: 0 <= i < |svc.hits| && Qualifies(svc.hits[i], crit) && svc.hits[i].ip.Some?))
  {
    var c := EventViewsCall(eventId, eventDate, yearAgo, now);
    EventUriCommaFree(eventId);
    AnswerIsRenderedRows(svc, c.start, c.end, c.uri, errorStatus);
    if c.start <= c.end {
      TopCountIsDistinctVisitors(svc.hits, c.start, c.end, c.uri);
    }
  }
}
