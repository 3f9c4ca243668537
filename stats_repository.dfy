/**
 * The two aggregation queries of the stats repository, as functions of the
 * stored hits. Both select the hits whose timestamp lies in [start, end] and
 * whose uri is in `uris` (every uri when `uris` is null), group them by
 * (app, uri), count ip values -- all of them, or only distinct ones -- and
 * order the groups by that count, largest first.
 *
 * SQL's treatment of null is kept: a null timestamp is never BETWEEN the
 * bounds, a null uri is never IN the list, and COUNT skips null ip values.
 * The database leaves the order of equal counts open; the model fixes it to
 * the order in which the groups first occur in the store.
 */
module StatsRepository {
  import opened Wrappers
  import opened Hits

  /** The bound parameters of the WHERE clause. */
  datatype Criteria = Criteria(start: int, end: int, uris: Option<seq<string>>)

  /** A GROUP BY key. */
  datatype Key = Key(app: Option<string>, uri: Option<string>)

  /** One row of either query's result. */
  datatype StatsDto = StatsDto(app: Option<string>, uri: Option<string>, hits: nat)

  /** Which COUNT the SELECT clause applies. */
  datatype Counting = CountIp | CountDistinctIp

  function KeyOf(h: Hit): Key {
    Key(h.app, h.uri)
  }

  function EntryKey(e: StatsDto): Key {
    Key(e.app, e.uri)
  }

  /** The WHERE clause: timestamp BETWEEN start AND end, and uri IN uris OR uris IS NULL. */
  predicate Qualifies(h: Hit, c: Criteria) {
    && h.timestamp.Some? && c.start <= h.timestamp.value <= c.end
    && (c.uris.None? || (h.uri.Some? && h.uri.value in c.uris.value))
  }

  /** A row that COUNT(ip) counts in group `k`. */
  predicate Counted(h: Hit, c: Criteria, k: Key) {
    Qualifies(h, c) && KeyOf(h) == k && h.ip.Some?
  }

  // ---------------------------------------------------------------------
  // Reference definitions: what the SQL means, stated over row indices
  // ---------------------------------------------------------------------

  /** The groups the query produces: keys of the rows that pass the WHERE clause. */
  ghost function QualifyingKeys(hits: seq<Hit>, c: Criteria): set<Key> {
    set i | 0 <= i < |hits| && Qualifies(hits[i], c) :: KeyOf(hits[i])
  }

  /** The rows COUNT(ip) counts for group `k`. */
  ghost function CountedRows(hits: seq<Hit>, c: Criteria, k: Key): set<int> {
    set i | 0 <= i < |hits| && Counted(hits[i], c, k)
  }

  /** The values COUNT(DISTINCT ip) counts for group `k`. */
  ghost function DistinctIps(hits: seq<Hit>, c: Criteria, k: Key): set<string> {
    set i | 0 <= i < |hits| && Counted(hits[i], c, k) :: hits[i].ip.value
  }

  ghost predicate SortedByHitsDesc(s: seq<StatsDto>) {
    forall i, j :: 0 <= i < j < |s| ==> s[i].hits >= s[j].hits
  }

  ghost predicate DistinctKeys(s: seq<StatsDto>) {
    forall i, j :: 0 <= i < j < |s| ==> EntryKey(s[i]) != EntryKey(s[j])
  }

  ghost function EntryKeys(s: seq<StatsDto>): set<Key> {
    set i | 0 <= i < |s| :: EntryKey(s[i])
  }

  // ---------------------------------------------------------------------
  // The computation, one pass over the rows in store order
  // ---------------------------------------------------------------------

  /** The number of rows COUNT(ip) counts in group `k`. */
  function RawCount(hits: seq<Hit>, c: Criteria, k: Key): nat {
    if hits == [] then 0
    else RawCount(hits[..|hits| - 1], c, k) + (if Counted(hits[|hits| - 1], c, k) then 1 else 0)
  }

  /** The ip values COUNT(DISTINCT ip) counts in group `k`. */
  function IpsOf(hits: seq<Hit>, c: Criteria, k: Key): set<string> {
    if hits == [] then {}
    else
      var last := hits[|hits| - 1];
      IpsOf(hits[..|hits| - 1], c, k) + (if Counted(last, c, k) then {last.ip.value} else {})
  }

  function Count(hits: seq<Hit>, c: Criteria, k: Key, mode: Counting): nat {
    match mode
    case CountIp => RawCount(hits, c, k)
    case CountDistinctIp => |IpsOf(hits, c, k)|
  }

  /** The groups, each listed once, in the order of their first qualifying row. */
  function GroupKeys(hits: seq<Hit>, c: Criteria): seq<Key> {
    if hits == [] then []
    else
      var keys := GroupKeys(hits[..|hits| - 1], c);
      var last := hits[|hits| - 1];
      if Qualifies(last, c) && KeyOf(last) !in keys then keys + [KeyOf(last)] else keys
  }

  /** One result row per group, before ordering. */
  function Groups(keys: seq<Key>, hits: seq<Hit>, c: Criteria, mode: Counting): (r: seq<StatsDto>)
    ensures |r| == |keys|
    ensures forall i :: 0 <= i < |r| ==> EntryKey(r[i]) == keys[i]
  {
    seq(|keys|, i requires 0 <= i < |keys| =>
      StatsDto(keys[i].app, keys[i].uri, Count(hits, c, keys[i], mode)))
  }

  /** A row no smaller than every row of a sorted list can go in front of it. */
  lemma PrependKeepsSorted(x: StatsDto, s: seq<StatsDto>)
    requires SortedByHitsDesc(s)
    requires forall y :: y in s ==> y.hits <= x.hits
    ensures SortedByHitsDesc([x] + s)
  {
    var r := [x] + s;
    forall i, j | 0 <= i < j < |r| ensures r[i].hits >= r[j].hits {
      assert r[j] == s[j - 1];
      if i > 0 {
        assert r[i] == s[i - 1];
      }
    }
  }

  /** The head of a sorted list is its largest row, and its tail is sorted. */
  lemma SortedHeadAndTail(s: seq<StatsDto>)
    requires SortedByHitsDesc(s)
    ensures s != [] ==> forall y :: y in s ==> y.hits <= s[0].hits
    ensures s != [] ==> SortedByHitsDesc(s[1..])
  {
    if s != [] {
      forall y | y in s ensures y.hits <= s[0].hits {
        var j :| 0 <= j < |s| && s[j] == y;
      }
      forall i, j | 0 <= i < j < |s[1..]| ensures s[1..][i].hits >= s[1..][j].hits {
        assert s[1..][i] == s[i + 1] && s[1..][j] == s[j + 1];
      }
    }
  }

  /** `e`, no smaller than the head of a sorted list, goes in front of it. */
  lemma InsertInFront(e: StatsDto, s: seq<StatsDto>)
    requires SortedByHitsDesc(s)
    requires s == [] || s[0].hits <= e.hits
    ensures SortedByHitsDesc([e] + s)
    ensures multiset([e] + s) == multiset(s) + multiset{e}
  {
    SortedHeadAndTail(s);
    PrependKeepsSorted(e, s);
  }

  /** `e`, smaller than the head, goes into the tail; the head stays in front. */
  lemma InsertBehindHead(e: StatsDto, s: seq<StatsDto>, rest: seq<StatsDto>)
    requires SortedByHitsDesc(s) && s != [] && e.hits < s[0].hits
    requires SortedByHitsDesc(rest) && multiset(rest) == multiset(s[1..]) + multiset{e}
    ensures SortedByHitsDesc([s[0]] + rest)
    ensures multiset([s[0]] + rest) == multiset(s) + multiset{e}
  {
    SortedHeadAndTail(s);
    forall y | y in rest ensures y.hits <= s[0].hits {
      assert y in multiset(rest);
      assert y == e || y in multiset(s[1..]);
    }
    PrependKeepsSorted(s[0], rest);
    assert s == [s[0]] + s[1..];
  }

  /**
   * ORDER BY hits DESC: `e` goes in front of the first row whose count is not
   * larger than its own.
   */
  function InsertByHits(e: StatsDto, s: seq<StatsDto>): (r: seq<StatsDto>)
    requires SortedByHitsDesc(s)
    ensures SortedByHitsDesc(r)
    ensures multiset(r) == multiset(s) + multiset{e}
  {
    if s == [] || s[0].hits <= e.hits then
      InsertInFront(e, s);
      [e] + s
    else
      SortedHeadAndTail(s);
      var rest := InsertByHits(e, s[1..]);
      InsertBehindHead(e, s, rest);
      [s[0]] + rest
  }

  function SortByHitsDesc(s: seq<StatsDto>): (r: seq<StatsDto>)
    ensures SortedByHitsDesc(r)
    ensures multiset(r) == multiset(s)
  {
    if s == [] then []
    else
      assert s == [s[0]] + s[1..];
      InsertByHits(s[0], SortByHitsDesc(s[1..]))
  }

  function Aggregate(hits: seq<Hit>, c: Criteria, mode: Counting): seq<StatsDto> {
    SortByHitsDesc(Groups(GroupKeys(hits, c), hits, c, mode))
  }

  // ---------------------------------------------------------------------
  // The two queries
  // ---------------------------------------------------------------------

  /**
   * SELECT app, uri, COUNT(DISTINCT ip) AS hits ... GROUP BY app, uri ORDER BY
   * hits DESC: one row per group of qualifying hits, none for any other
   * (app, uri), each counting the distinct ip values of its group.
   */
  function FindUniqueStatsByUrisAndTimestampBetween(
    hits: seq<Hit>, start: int, end: int, uris: Option<seq<string>>): (r: seq<StatsDto>)
    ensures SortedByHitsDesc(r)
    ensures DistinctKeys(r)
    ensures EntryKeys(r) == QualifyingKeys(hits, Criteria(start, end, uris))
    ensures forall i :: 0 <= i < |r| ==>
      r[i].hits == |DistinctIps(hits, Criteria(start, end, uris), EntryKey(r[i]))|
  {
    var c := Criteria(start, end, uris);
    AggregateShape(hits, c, CountDistinctIp);
    var r := Aggregate(hits, c, CountDistinctIp);
    forall i | 0 <= i < |r|
      ensures r[i].hits == |DistinctIps(hits, c, EntryKey(r[i]))|
    {
      IpsOfIsDistinctIps(hits, c, EntryKey(r[i]));
    }
    r
  }

  /**
   * SELECT app, uri, COUNT(ip) AS hits ... GROUP BY app, uri ORDER BY hits
   * DESC: as above, but each row counts every qualifying hit of its group
   * whose ip is not null, repeats included.
   */
  function FindStatsByUrisAndTimestampBetween(
    hits: seq<Hit>, start: int, end: int, uris: Option<seq<string>>): (r: seq<StatsDto>)
    ensures SortedByHitsDesc(r)
    ensures DistinctKeys(r)
    ensures EntryKeys(r) == QualifyingKeys(hits, Criteria(start, end, uris))
    ensures forall i :: 0 <= i < |r| ==>
      r[i].hits == |CountedRows(hits, Criteria(start, end, uris), EntryKey(r[i]))|
  {
    var c := Criteria(start, end, uris);
    AggregateShape(hits, c, CountIp);
    var r := Aggregate(hits, c, CountIp);
    forall i | 0 <= i < |r|
      ensures r[i].hits == |CountedRows(hits, c, EntryKey(r[i]))|
    {
      RawCountIsCountedRows(hits, c, EntryKey(r[i]));
    }
    r
  }

  // ---------------------------------------------------------------------
  // The constructor expression of the SELECT clause
  // ---------------------------------------------------------------------

  /** A Java constructor signature: its parameter types in order. */
  type Signature = seq<string>

  /** What `SELECT new ru.practicum.StatsDto(app, uri, COUNT(...))` calls. */
  const ProjectionSignature: Signature := ["String", "String", "Long"]

  /**
   * The constructors StatsDto declares: Lombok's @Data adds only a
   * required-arguments constructor, which without final or @NonNull fields
   * takes no arguments.
   */
  const DeclaredConstructors: set<Signature> := {[]}

  /** The constructors the query needs: the declared one and (app, uri, hits). */
  const CorrectedConstructors: set<Signature> := {[], ProjectionSignature}

  /** Hibernate's refusal of a constructor expression that no constructor matches. */
  datatype QueryError = NoMatchingConstructor(signature: Signature)

  /**
   * One of the two queries run against a StatsDto with the given
   * constructors: the rows when the constructor expression resolves, and
   * the error otherwise.
   */
  function RunStatsQuery(constructors: set<Signature>, hits: seq<Hit>, start: int, end: int,
                         uris: Option<seq<string>>, unique: bool)
    : (r: Result<seq<StatsDto>, QueryError>)
    ensures r.Failure? <==> ProjectionSignature !in constructors
    ensures r.Failure? ==> r.error == NoMatchingConstructor(ProjectionSignature)
    ensures r.Success? && unique ==>
      r.value == FindUniqueStatsByUrisAndTimestampBetween(hits, start, end, uris)
    ensures r.Success? && !unique ==>
      r.value == FindStatsByUrisAndTimestampBetween(hits, start, end, uris)
  {
    if ProjectionSignature !in constructors then Failure(NoMatchingConstructor(ProjectionSignature))
    else if unique then Success(FindUniqueStatsByUrisAndTimestampBetween(hits, start, end, uris))
    else Success(FindStatsByUrisAndTimestampBetween(hits, start, end, uris))
  }

  /**
   * As StatsDto is declared, both queries fail on every store and every
   * window; with the (app, uri, hits) constructor they never do.
   */
  lemma ProjectionResolvesOnlyWhenCorrected(hits: seq<Hit>, start: int, end: int,
                                            uris: Option<seq<string>>, unique: bool)
    ensures RunStatsQuery(DeclaredConstructors, hits, start, end, uris, unique)
            == Failure(NoMatchingConstructor(ProjectionSignature))
    ensures RunStatsQuery(CorrectedConstructors, hits, start, end, uris, unique).Success?
  {
    assert |ProjectionSignature| == 3;
  }

  // ---------------------------------------------------------------------
  // Proofs that the computation meets the reference definitions
  // ---------------------------------------------------------------------

  lemma {:induction false} GroupKeysAreQualifyingKeys(hits: seq<Hit>, c: Criteria)
    ensures NoRepeats(GroupKeys(hits, c))
    ensures (set k | k in GroupKeys(hits, c)) == QualifyingKeys(hits, c)
    decreases |hits|
  {
    if hits != [] {
      var init := hits[..|hits| - 1];
      var last := hits[|hits| - 1];
      GroupKeysAreQualifyingKeys(init, c);
      assert forall i :: 0 <= i < |init| ==> init[i] == hits[i];
      assert QualifyingKeys(hits, c)
          == QualifyingKeys(init, c) + (if Qualifies(last, c) then {KeyOf(last)} else {});
    }
  }

  lemma {:induction false} RawCountIsCountedRows(hits: seq<Hit>, c: Criteria, k: Key)
    ensures RawCount(hits, c, k) == |CountedRows(hits, c, k)|
    decreases |hits|
  {
    if hits != [] {
      var n := |hits| - 1;
      var init := hits[..n];
      RawCountIsCountedRows(init, c, k);
      assert forall i :: 0 <= i < n ==> init[i] == hits[i];
      assert CountedRows(hits, c, k)
          == CountedRows(init, c, k) + (if Counted(hits[n], c, k) then {n} else {});
      assert n !in CountedRows(init, c, k);
    }
  }

  lemma {:induction false} IpsOfIsDistinctIps(hits: seq<Hit>, c: Criteria, k: Key)
    ensures IpsOf(hits, c, k) == DistinctIps(hits, c, k)
    decreases |hits|
  {
    if hits != [] {
      var n := |hits| - 1;
      var init := hits[..n];
      IpsOfIsDistinctIps(init, c, k);
      assert forall i :: 0 <= i < n ==> init[i] == hits[i];
      assert DistinctIps(hits, c, k)
          == DistinctIps(init, c, k) + (if Counted(hits[n], c, k) then {hits[n].ip.value} else {});
    }
  }

  ghost predicate NoRepeats<T>(s: seq<T>) {
    forall i, j :: 0 <= i < j < |s| ==> s[i] != s[j]
  }

  /** Two rows of a sequence that are equal as values make a multiset count of at least two. */
  lemma RepeatedValueCountsTwice<T>(s: seq<T>, i: int, j: int)
    requires 0 <= i < j < |s| && s[i] == s[j]
    ensures multiset(s)[s[i]] >= 2
  {
    assert s == s[..j] + s[j..];
    assert s[i] in s[..j];
    assert s[j] in s[j..];
    assert multiset(s) == multiset(s[..j]) + multiset(s[j..]);
  }

  lemma {:induction false} NoRepeatsCountsOnce<T>(s: seq<T>)
    requires NoRepeats(s)
    ensures forall x :: multiset(s)[x] <= 1
    decreases |s|
  {
    if s != [] {
      assert s == [s[0]] + s[1..];
      assert NoRepeats(s[1..]) by {
        forall i, j | 0 <= i < j < |s[1..]| ensures s[1..][i] != s[1..][j] {
          assert s[1..][i] == s[i + 1] && s[1..][j] == s[j + 1];
        }
      }
      NoRepeatsCountsOnce(s[1..]);
      assert s[0] !in s[1..];
    }
  }

  /** A permutation of a sequence without repeats has none either. */
  lemma PermutationNoRepeats<T>(s: seq<T>, t: seq<T>)
    requires NoRepeats(s) && multiset(s) == multiset(t)
    ensures NoRepeats(t)
  {
    NoRepeatsCountsOnce(s);
    forall i, j | 0 <= i < j < |t| ensures t[i] != t[j] {
      if t[i] == t[j] {
        RepeatedValueCountsTwice(t, i, j);
      }
    }
  }

  /** Distinct group keys give distinct result rows. */
  lemma GroupsNoRepeats(keys: seq<Key>, hits: seq<Hit>, c: Criteria, mode: Counting)
    requires NoRepeats(keys)
    ensures NoRepeats(Groups(keys, hits, c, mode))
  {
    var g := Groups(keys, hits, c, mode);
    forall i, j | 0 <= i < j < |g| ensures g[i] != g[j] {
      assert EntryKey(g[i]) == keys[i] && EntryKey(g[j]) == keys[j];
    }
  }

  /** A permutation keeps the set of keys. */
  lemma PermutationEntryKeys(s: seq<StatsDto>, t: seq<StatsDto>)
    requires multiset(s) == multiset(t)
    ensures EntryKeys(s) == EntryKeys(t)
  {
    forall k | k in EntryKeys(s) ensures k in EntryKeys(t) {
      var i :| 0 <= i < |s| && EntryKey(s[i]) == k;
      assert s[i] in multiset(t);
      var j :| 0 <= j < |t| && t[j] == s[i];
    }
    forall k | k in EntryKeys(t) ensures k in EntryKeys(s) {
      var i :| 0 <= i < |t| && EntryKey(t[i]) == k;
      assert t[i] in multiset(s);
      var j :| 0 <= j < |s| && s[j] == t[i];
    }
  }

  /** The ordered result has one row per qualifying group, each carrying that group's count. */
  lemma AggregateShape(hits: seq<Hit>, c: Criteria, mode: Counting)
    ensures SortedByHitsDesc(Aggregate(hits, c, mode))
    ensures DistinctKeys(Aggregate(hits, c, mode))
    ensures EntryKeys(Aggregate(hits, c, mode)) == QualifyingKeys(hits, c)
    ensures forall i :: 0 <= i < |Aggregate(hits, c, mode)| ==>
      Aggregate(hits, c, mode)[i].hits == Count(hits, c, EntryKey(Aggregate(hits, c, mode)[i]), mode)
  {
    var keys := GroupKeys(hits, c);
    var g := Groups(keys, hits, c, mode);
    var r := Aggregate(hits, c, mode);
    GroupKeysAreQualifyingKeys(hits, c);
    assert multiset(r) == multiset(g);
    assert forall i :: 0 <= i < |r| ==> r[i].hits == Count(hits, c, EntryKey(r[i]), mode) by {
      forall i | 0 <= i < |r| ensures r[i].hits == Count(hits, c, EntryKey(r[i]), mode) {
        assert r[i] in multiset(g);
        var j :| 0 <= j < |g| && g[j] == r[i];
        assert EntryKey(g[j]) == keys[j];
      }
    }
    assert DistinctKeys(r) by {
      GroupsNoRepeats(keys, hits, c, mode);
      PermutationNoRepeats(g, r);
      forall i, j | 0 <= i < j < |r| ensures EntryKey(r[i]) != EntryKey(r[j]) {
        assert EntryKey(r[i]) == EntryKey(r[j]) ==> r[i].hits == r[j].hits;
      }
    }
    assert EntryKeys(r) == QualifyingKeys(hits, c) by {
      PermutationEntryKeys(g, r);
      forall k | k in keys ensures k in EntryKeys(g) {
        var i :| 0 <= i < |keys| && keys[i] == k;
        assert EntryKey(g[i]) == k;
      }
    }
  }

  // ---------------------------------------------------------------------
  // Properties of the two queries
  // ---------------------------------------------------------------------

  lemma {:induction false} DistinctAtMostRaw(hits: seq<Hit>, c: Criteria, k: Key)
    ensures |IpsOf(hits, c, k)| <= RawCount(hits, c, k)
    decreases |hits|
  {
    if hits != [] {
      DistinctAtMostRaw(hits[..|hits| - 1], c, k);
    }
  }

  /**
   * For the same arguments, a group's distinct-ip count never exceeds its
   * plain count.
   */
  lemma UniqueAtMostNonUnique(hits: seq<Hit>, start: int, end: int, uris: Option<seq<string>>)
    ensures var unique := FindUniqueStatsByUrisAndTimestampBetween(hits, start, end, uris);
      var plain := FindStatsByUrisAndTimestampBetween(hits, start, end, uris);
      forall i, j :: 0 <= i < |unique| && 0 <= j < |plain| && EntryKey(unique[i]) == EntryKey(plain[j])
        ==> unique[i].hits <= plain[j].hits
  {
    var c := Criteria(start, end, uris);
    var unique := FindUniqueStatsByUrisAndTimestampBetween(hits, start, end, uris);
    var plain := FindStatsByUrisAndTimestampBetween(hits, start, end, uris);
    forall i, j | 0 <= i < |unique| && 0 <= j < |plain| && EntryKey(unique[i]) == EntryKey(plain[j])
      ensures unique[i].hits <= plain[j].hits
    {
      var k := EntryKey(plain[j]);
      IpsOfIsDistinctIps(hits, c, k);
      RawCountIsCountedRows(hits, c, k);
      DistinctAtMostRaw(hits, c, k);
    }
  }

  /** With no null ip among the qualifying hits, every group of either query counts at least one. */
  lemma CountsArePositive(hits: seq<Hit>, start: int, end: int, uris: Option<seq<string>>)
    requires forall i :: 0 <= i < |hits| && Qualifies(hits[i], Criteria(start, end, uris)) ==> hits[i].ip.Some?
    ensures forall e :: e in FindStatsByUrisAndTimestampBetween(hits, start, end, uris) ==> e.hits >= 1
    ensures forall e :: e in FindUniqueStatsByUrisAndTimestampBetween(hits, start, end, uris) ==> e.hits >= 1
  {
    var c := Criteria(start, end, uris);
    var raw := FindStatsByUrisAndTimestampBetween(hits, start, end, uris);
    var uniq := FindUniqueStatsByUrisAndTimestampBetween(hits, start, end, uris);
    forall e | e in raw ensures e.hits >= 1 {
      var p :| 0 <= p < |raw| && raw[p] == e;
      assert EntryKey(e) in EntryKeys(raw);
      var i :| 0 <= i < |hits| && Qualifies(hits[i], c) && KeyOf(hits[i]) == EntryKey(e);
      assert i in CountedRows(hits, c, EntryKey(e));
    }
    forall e | e in uniq ensures e.hits >= 1 {
      var p :| 0 <= p < |uniq| && uniq[p] == e;
      assert EntryKey(e) in EntryKeys(uniq);
      var i :| 0 <= i < |hits| && Qualifies(hits[i], c) && KeyOf(hits[i]) == EntryKey(e);
      assert hits[i].ip.value in DistinctIps(hits, c, EntryKey(e));
    }
  }

  /** A group whose ip values are all null is still reported, with a count of zero. */
  lemma NullIpGroupCountsZero(app: string, uri: string, t: int)
    ensures FindStatsByUrisAndTimestampBetween([Hit(Some(1), Some(app), None, Some(uri), Some(t))], t, t, None)
         == [StatsDto(Some(app), Some(uri), 0)]
  {
    var hits := [Hit(Some(1), Some(app), None, Some(uri), Some(t))];
    var c := Criteria(t, t, None);
    var k := Key(Some(app), Some(uri));
    assert hits[..0] == [];
    assert GroupKeys(hits, c) == [k];
    assert RawCount(hits, c, k) == 0;
    var row := StatsDto(Some(app), Some(uri), 0);
    assert Groups([k], hits, c, CountIp) == [row];
    assert [row][1..] == [];
    assert SortByHitsDesc([row]) == [row];
  }

  /** Either query answers with no rows exactly when no stored hit passes the WHERE clause. */
  lemma EmptyIffNothingQualifies(hits: seq<Hit>, start: int, end: int, uris: Option<seq<string>>, unique: bool)
    ensures var r := if unique then FindUniqueStatsByUrisAndTimestampBetween(hits, start, end, uris)
                     else FindStatsByUrisAndTimestampBetween(hits, start, end, uris);
            r == [] <==> forall i :: 0 <= i < |hits| ==> !Qualifies(hits[i], Criteria(start, end, uris))
  {
    var c := Criteria(start, end, uris);
    var r := if unique then FindUniqueStatsByUrisAndTimestampBetween(hits, start, end, uris)
             else FindStatsByUrisAndTimestampBetween(hits, start, end, uris);
    if r != [] {
      assert EntryKey(r[0]) in EntryKeys(r);
    }
    if i :| 0 <= i < |hits| && Qualifies(hits[i], c) {
      assert KeyOf(hits[i]) in QualifyingKeys(hits, c);
    }
  }

  /**
   * A stored hit that passes the WHERE clause and has an ip makes its group
   * appear in the result of either query with a count of at least one.
   */
  lemma QualifyingHitIsReported(hits: seq<Hit>, start: int, end: int, uris: Option<seq<string>>, i: int, unique: bool)
    requires 0 <= i < |hits| && hits[i].ip.Some? && Qualifies(hits[i], Criteria(start, end, uris))
    ensures var r := if unique then FindUniqueStatsByUrisAndTimestampBetween(hits, start, end, uris)
                     else FindStatsByUrisAndTimestampBetween(hits, start, end, uris);
            exists j :: 0 <= j < |r| && EntryKey(r[j]) == KeyOf(hits[i]) && r[j].hits >= 1
  {
    var c := Criteria(start, end, uris);
    var r := if unique then FindUniqueStatsByUrisAndTimestampBetween(hits, start, end, uris)
             else FindStatsByUrisAndTimestampBetween(hits, start, end, uris);
    assert KeyOf(hits[i]) in QualifyingKeys(hits, c);
    var j :| 0 <= j < |r| && EntryKey(r[j]) == KeyOf(hits[i]);
    if unique {
      assert hits[i].ip.value in DistinctIps(hits, c, KeyOf(hits[i]));
    } else {
      assert i in CountedRows(hits, c, KeyOf(hits[i]));
    }
  }

  /**
   * BETWEEN includes both bounds: a hit stamped exactly at `start` or at `end`
   * (with an ip, and a uri the filter admits) is counted.
   */
  lemma BoundsAreInclusive(hits: seq<Hit>, start: int, end: int, uris: Option<seq<string>>, i: int, unique: bool)
    requires 0 <= i < |hits| && hits[i].ip.Some? && hits[i].uri.Some?
    requires hits[i].timestamp == Some(start) || hits[i].timestamp == Some(end)
    requires start <= end
    requires uris.None? || hits[i].uri.value in uris.value
    ensures var r := if unique then FindUniqueStatsByUrisAndTimestampBetween(hits, start, end, uris)
                     else FindStatsByUrisAndTimestampBetween(hits, start, end, uris);
            exists j :: 0 <= j < |r| && EntryKey(r[j]) == KeyOf(hits[i]) && r[j].hits >= 1
  {
    QualifyingHitIsReported(hits, start, end, uris, i, unique);
  }

  /**
   * One visitor seen many times: when every counted hit of a group carries the
   * same ip, the distinct count of that group is one.
   */
  lemma SingleVisitorCountsOnce(hits: seq<Hit>, c: Criteria, k: Key, ip: string)
    requires exists i :: 0 <= i < |hits| && Counted(hits[i], c, k)
    requires forall i :: 0 <= i < |hits| && Counted(hits[i], c, k) ==> hits[i].ip == Some(ip)
    ensures |DistinctIps(hits, c, k)| == 1
  {
    assert DistinctIps(hits, c, k) == {ip};
  }
}
