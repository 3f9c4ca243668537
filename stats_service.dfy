/**
 * The stats service: records hits into the store and answers the two
 * aggregation queries after checking the time window.
 */
module StatsService {
  import opened Wrappers
  import opened HitDtos
  import opened Hits
  import opened HitMapper
  import opened StatsRepository

  /**
   * jakarta.validation.ValidationException thrown by `get`, or the error of
   * the repository query it runs.
   */
  datatype ServiceError = ValidationException(message: string) | QueryFailed(error: QueryError)

  const InvertedWindow := "The start date must be earlier than the end date."

  /**
   * The service over the hits table. `hits` lists the rows in insertion
   * order; `nextId` is the database's identity generator.
   */
  class StatsServiceImpl {
    var hits: seq<Hit>
    var nextId: int

    /** Every row has a generated id, ids grow with insertion order, and every row has a timestamp. */
    ghost predicate Valid()
      reads this
    {
      && (forall i :: 0 <= i < |hits| ==>
            hits[i].id.Some? && hits[i].id.value < nextId && hits[i].timestamp.Some?)
      && (forall i, j :: 0 <= i < j < |hits| ==> hits[i].id.value < hits[j].id.value)
    }

    constructor ()
      ensures Valid() && hits == []
    {
      hits := [];
      nextId := 1;
    }

    /**
     * `create`: converts the DTO (stamping it with `now` when it has no
     * timestamp), appends it as a new row with a fresh id, and returns the
     * stored row as a DTO.
     */
    method Create(hitDto: HitDto, now: int) returns (r: HitDto)
      requires Valid()
      modifies this
      ensures Valid()
      ensures |hits| == |old(hits)| + 1 && hits[..|old(hits)|] == old(hits)
      ensures hits[|hits| - 1] == ToHit(hitDto, now).(id := Some(old(nextId)))
      ensures r.id == Some(old(nextId)) && r.id !in set i | 0 <= i < |old(hits)| :: old(hits)[i].id
      ensures r.app == hitDto.app && r.uri == hitDto.uri && r.ip == hitDto.ip
      ensures hitDto.timestamp.Some? ==> r.timestamp == hitDto.timestamp
      ensures hitDto.timestamp.None? ==> r.timestamp == Some(now)
    {
      var createdHit := ToHit(hitDto, now);
      var hit := createdHit.(id := Some(nextId));
      hits := hits + [hit];
      nextId := nextId + 1;
      r := ToHitDto(hit);
    }

    /**
     * `get`: refuses an inverted window, whatever is stored, without running
     * a query; otherwise runs the distinct-ip query when `unique` holds and
     * the plain one when it does not. Reading the store changes nothing.
     */
    function Get(start: int, end: int, uris: Option<seq<string>>, unique: bool)
      : (r: Result<seq<StatsDto>, ServiceError>)
      reads this
      ensures r.Failure? <==> start > end
      ensures r.Failure? ==> r.error == ValidationException(InvertedWindow)
      ensures r.Success? && unique ==>
        r.value == FindUniqueStatsByUrisAndTimestampBetween(hits, start, end, uris)
      ensures r.Success? && !unique ==>
        r.value == FindStatsByUrisAndTimestampBetween(hits, start, end, uris)
    {
      if start > end then Failure(ValidationException(InvertedWindow))
      else AsServiceResult(RunStatsQuery(CorrectedConstructors, hits, start, end, uris, unique))
    }

    /**
     * `get` as written: the same window check, then a query whose
     * constructor expression matches no constructor StatsDto declares, so
     * no window, however many hits it holds, yields rows.
     */
    function GetAsWritten(start: int, end: int, uris: Option<seq<string>>, unique: bool)
      : (r: Result<seq<StatsDto>, ServiceError>)
      reads this
      ensures r.Failure?
      ensures start > end ==> r.error == ValidationException(InvertedWindow)
      ensures start <= end ==> r.error == QueryFailed(NoMatchingConstructor(ProjectionSignature))
    {
      if start > end then Failure(ValidationException(InvertedWindow))
      else AsServiceResult(RunStatsQuery(DeclaredConstructors, hits, start, end, uris, unique))
    }
  }

  /** The query's rows, or its error thrown on through `get`. */
  function AsServiceResult(q: Result<seq<StatsDto>, QueryError>): (r: Result<seq<StatsDto>, ServiceError>)
    ensures r.Success? <==> q.Success?
    ensures r.Success? ==> r.value == q.value
    ensures r.Failure? ==> r.error == QueryFailed(q.error)
  {
    match q
    case Success(rows) => Success(rows)
    case Failure(error) => Failure(QueryFailed(error))
  }

  /**
   * A stored hit with an ip inside a valid window: the corrected `get`
   * reports its (app, uri), while the written one fails.
   */
  lemma QueryFailsWhereRowsExist(svc: StatsServiceImpl, start: int, end: int,
                                 uris: Option<seq<string>>, unique: bool, i: int)
    requires 0 <= i < |svc.hits| && svc.hits[i].ip.Some?
    requires Qualifies(svc.hits[i], Criteria(start, end, uris))
    ensures svc.GetAsWritten(start, end, uris, unique).Failure?
    ensures var r := svc.Get(start, end, uris, unique);
      r.Success? && exists j :: 0 <= j < |r.value| && EntryKey(r.value[j]) == KeyOf(svc.hits[i])
  {
    QualifyingHitIsReported(svc.hits, start, end, uris, i, unique);
  }

  /**
   * Recording a hit and then querying a window that contains its timestamp,
   * with a uri filter that admits it, reports its (app, uri) with a count of
   * at least one, whichever counting is asked for.
   */
  method RecordThenQuery(
    svc: StatsServiceImpl, hitDto: HitDto, now: int,
    start: int, end: int, uris: Option<seq<string>>, unique: bool)
    returns (r: Result<seq<StatsDto>, ServiceError>)
    requires svc.Valid()
    requires hitDto.ip.Some? && hitDto.uri.Some?
    requires var t := if hitDto.timestamp.Some? then hitDto.timestamp.value else now; start <= t <= end
    requires uris.None? || hitDto.uri.value in uris.value
    modifies svc
    ensures r.Success?
    ensures exists j :: 0 <= j < |r.value| && r.value[j].app == hitDto.app
                        && r.value[j].uri == hitDto.uri && r.value[j].hits >= 1
  {
    var _ := svc.Create(hitDto, now);
    r := svc.Get(start, end, uris, unique);
    var last := |svc.hits| - 1;
    assert Qualifies(svc.hits[last], Criteria(start, end, uris));
    QualifyingHitIsReported(svc.hits, start, end, uris, last, unique);
  }

  /**
   * Two hits on /events/1 from 1.1.1.1 and one from 2.2.2.2: the unique query
   * reports two visitors, the plain one three hits.
   */
  method RepeatedVisitorScenario() returns (unique: Result<seq<StatsDto>, ServiceError>,
                                            plain: Result<seq<StatsDto>, ServiceError>)
    ensures unique == Success([StatsDto(Some("svc"), Some("/events/1"), 2)])
    ensures plain == Success([StatsDto(Some("svc"), Some("/events/1"), 3)])
  {
    var svc := new StatsServiceImpl();
    var a := HitDto(None, Some("svc"), Some("/events/1"), Some("1.1.1.1"), Some(10));
    var b := HitDto(None, Some("svc"), Some("/events/1"), Some("2.2.2.2"), Some(20));
    var _ := svc.Create(a, 100);
    ghost var first := svc.hits[0];
    var _ := svc.Create(a, 100);
    ghost var second := svc.hits[1];
    assert svc.hits[0] == first;
    var _ := svc.Create(b, 100);
    assert svc.hits[0] == first && svc.hits[1] == second;
    assert |svc.hits| == 3;
    ScenarioCounts(svc.hits);
    unique := svc.Get(0, 30, Some(["/events/1"]), true);
    plain := svc.Get(0, 30, Some(["/events/1"]), false);
  }

  lemma ScenarioCounts(hits: seq<Hit>)
    requires |hits| == 3
    requires hits[0].app == hits[1].app == hits[2].app == Some("svc")
    requires hits[0].uri == hits[1].uri == hits[2].uri == Some("/events/1")
    requires hits[0].ip == hits[1].ip == Some("1.1.1.1") && hits[2].ip == Some("2.2.2.2")
    requires hits[0].timestamp == hits[1].timestamp == Some(10) && hits[2].timestamp == Some(20)
    ensures FindUniqueStatsByUrisAndTimestampBetween(hits, 0, 30, Some(["/events/1"]))
         == [StatsDto(Some("svc"), Some("/events/1"), 2)]
    ensures FindStatsByUrisAndTimestampBetween(hits, 0, 30, Some(["/events/1"]))
         == [StatsDto(Some("svc"), Some("/events/1"), 3)]
  {
    var c := Criteria(0, 30, Some(["/events/1"]));
    var k := Key(Some("svc"), Some("/events/1"));
    assert hits[..0] == [] && hits[..1] == [hits[0]] && hits[..2] == [hits[0], hits[1]];
    assert hits[..1][..0] == [] && hits[..2][..1] == [hits[0]];
    assert GroupKeys(hits[..1], c) == [k];
    assert GroupKeys(hits[..2], c) == [k];
    assert GroupKeys(hits, c) == [k];
    assert RawCount(hits[..1], c, k) == 1;
    assert RawCount(hits[..2], c, k) == 2;
    assert RawCount(hits, c, k) == 3;
    assert IpsOf(hits[..1], c, k) == {"1.1.1.1"};
    assert IpsOf(hits[..2], c, k) == {"1.1.1.1"};
    assert IpsOf(hits, c, k) == {"1.1.1.1", "2.2.2.2"};
    assert |IpsOf(hits, c, k)| == 2;
    var u := StatsDto(Some("svc"), Some("/events/1"), 2);
    var p := StatsDto(Some("svc"), Some("/events/1"), 3);
    assert Groups([k], hits, c, CountDistinctIp) == [u];
    assert Groups([k], hits, c, CountIp) == [p];
    assert [u][1..] == [] && [p][1..] == [];
    assert SortByHitsDesc([u]) == [u];
    assert SortByHitsDesc([p]) == [p];
  }
}
