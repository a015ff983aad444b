/**
 * The read side of the test records: a page of one battery's records, optionally limited
 * to a range of cycles, and all records of one cycle for plotting. The record table is a
 * sequence; the repository queries are filters on it, ordered as their ORDER BY says.
 */
module BatteryRecords {
  import opened Wrappers
  import opened Entities

  /** The page size used when the query gives none or a non-positive one. */
  const DefaultPageSize: int := 50
  /** The largest page size served. */
  const MaxPageSize: int := 500

  /** BatteryRecordQuery: page number, page size and the optional cycle bounds. */
  datatype RecordQuery = RecordQuery(page: Option<int>, size: Option<int>, cycleStart: Option<int>, cycleEnd: Option<int>)

  /** BatteryRecordDto: the record as the client sees it. */
  datatype RecordDto = RecordDto(
    id: Option<int>,
    batteryId: Option<int>,
    cycle: int,
    timeMin: real,
    current: real,
    temp: Option<real>,
    capacity: Option<real>,
    sourceFile: Option<string>,
    uploadBatch: Option<string>)

  /** One page of the result: its records, the page request and the number of matching records. */
  datatype RecordPage = RecordPage(content: seq<RecordDto>, page: nat, size: int, totalElements: nat)

  datatype RecordError =
    | BatteryNotFound  // no battery with that id
    | BatteryDeleted   // the battery is soft-deleted
    | CycleRequired    // getBatteryRecordsByCycle without a cycle

  // ================================================================ paging

  /** The page number: the requested one if given and not negative, else 0. */
  function NormalizePage(page: Option<int>): nat
  {
    if page.Some? && page.value >= 0 then page.value else 0
  }

  /** The page size: 50 unless a positive size is given, and never more than 500. */
  function NormalizeSize(size: Option<int>): (s: int)
    ensures 1 <= s <= MaxPageSize
  {
    var s := if size.Some? && size.value > 0 then size.value else DefaultPageSize;
    if s > MaxPageSize then MaxPageSize else s
  }

  /**
   * Normalisation keeps a valid request as it is, and normalising a normalised value
   * changes nothing.
   */
  lemma NormalizationKeepsValid(page: Option<int>, size: Option<int>)
    ensures page.Some? && page.value >= 0 ==> NormalizePage(page) == page.value
    ensures size.Some? && 1 <= size.value <= MaxPageSize ==> NormalizeSize(size) == size.value
    ensures size.Some? && size.value > MaxPageSize ==> NormalizeSize(size) == MaxPageSize
    ensures NormalizePage(Some(NormalizePage(page))) == NormalizePage(page)
    ensures NormalizeSize(Some(NormalizeSize(size))) == NormalizeSize(size)
  {
  }

  // ================================================================ cycle range

  /** The four repository queries queryBatteryRecords chooses between. */
  datatype CycleQuery =
    | Between(lo: int, hi: int)   // findByBatteryIdAndCycleBetween
    | AtLeast(lo: int)            // findByBatteryIdAndCycleGreaterThanEqual
    | AtMost(hi: int)             // findByBatteryIdAndCycleLessThanEqual
    | AllCycles                   // all records of the battery

  /** The query for the given bounds; reversed bounds are swapped first. */
  function ChooseQuery(cycleStart: Option<int>, cycleEnd: Option<int>): CycleQuery
  {
    if cycleStart.Some? && cycleEnd.Some? then
      if cycleStart.value > cycleEnd.value then Between(cycleEnd.value, cycleStart.value)
      else Between(cycleStart.value, cycleEnd.value)
    else if cycleStart.Some? then AtLeast(cycleStart.value)
    else if cycleEnd.Some? then AtMost(cycleEnd.value)
    else AllCycles
  }

  /** The cycles a query lets through. */
  predicate Admits(q: CycleQuery, cycle: int)
  {
    match q
    case Between(lo, hi) => lo <= cycle <= hi
    case AtLeast(lo) => lo <= cycle
    case AtMost(hi) => cycle <= hi
    case AllCycles => true
  }

  /**
   * The between query always gets its bounds in order; the branch taken depends only on
   * which bounds are given; and the cycles let through are those between the two bounds,
   * whichever order they come in.
   */
  lemma ChooseQuerySpec(cycleStart: Option<int>, cycleEnd: Option<int>, cycle: int)
    ensures var q := ChooseQuery(cycleStart, cycleEnd);
            (q.Between? ==> q.lo <= q.hi) &&
            (q.Between? <==> cycleStart.Some? && cycleEnd.Some?) &&
            (q.AtLeast? <==> cycleStart.Some? && cycleEnd.None?) &&
            (q.AtMost? <==> cycleStart.None? && cycleEnd.Some?) &&
            (q.AllCycles? <==> cycleStart.None? && cycleEnd.None?)
    ensures cycleStart.Some? && cycleEnd.Some? ==>
              (Admits(ChooseQuery(cycleStart, cycleEnd), cycle) <==>
                 (cycleStart.value <= cycle <= cycleEnd.value || cycleEnd.value <= cycle <= cycleStart.value))
    ensures cycleStart.Some? && cycleEnd.Some? ==>
              ChooseQuery(cycleStart, cycleEnd) == ChooseQuery(cycleEnd, cycleStart)
  {
  }

  // ================================================================ query results

  /** The records of one battery that a query lets through, in table order. */
  function Matching(table: seq<BatteryRecord>, batteryId: int, q: CycleQuery): (r: seq<BatteryRecord>)
    ensures |r| <= |table|
  {
    if table == [] then []
    else
      var last := table[|table| - 1];
      Matching(table[..|table| - 1], batteryId, q) +
      (if last.batteryId == Some(batteryId) && Admits(q, last.cycle) then [last] else [])
  }

  /**
   * The matching records are exactly the table's records of that battery that the query
   * lets through, each as often as it occurs in the table.
   */
  lemma {:induction false} MatchingSpec(table: seq<BatteryRecord>, batteryId: int, q: CycleQuery)
    ensures forall x :: x in Matching(table, batteryId, q) <==>
                          x in table && x.batteryId == Some(batteryId) && Admits(q, x.cycle)
    ensures forall x: BatteryRecord :: x.batteryId == Some(batteryId) && Admits(q, x.cycle) ==>
                          multiset(Matching(table, batteryId, q))[x] == multiset(table)[x]
  {
    if table != [] {
      var pre := table[..|table| - 1];
      var last := table[|table| - 1];
      assert table == pre + [last];
      MatchingSpec(pre, batteryId, q);
    }
  }

  /** The order a repository query returns records in. */
  datatype SortOrder =
    | ByCycleThenTime  // Sort.by(asc("cycle"), asc("timeMin"))
    | ByTime           // OrderByTimeMinAsc

  /** a may come before b in that order. */
  predicate NotAfter(a: BatteryRecord, b: BatteryRecord, o: SortOrder)
  {
    match o
    case ByTime => a.timeMin <= b.timeMin
    case ByCycleThenTime => a.cycle < b.cycle || (a.cycle == b.cycle && a.timeMin <= b.timeMin)
  }

  predicate Sorted(s: seq<BatteryRecord>, o: SortOrder)
  {
    forall i, j :: 0 <= i < j < |s| ==> NotAfter(s[i], s[j], o)
  }

  function Insert(x: BatteryRecord, s: seq<BatteryRecord>, o: SortOrder): seq<BatteryRecord>
  {
    if s == [] then [x]
    else if NotAfter(x, s[0], o) then [x] + s
    else [s[0]] + Insert(x, s[1..], o)
  }

  /** The records in the order the database returns them; records that tie keep their table order. */
  function SortRecords(s: seq<BatteryRecord>, o: SortOrder): seq<BatteryRecord>
  {
    if s == [] then [] else Insert(s[0], SortRecords(s[1..], o), o)
  }

  /** Putting a record first keeps the order when it may come before all the others. */
  lemma ConsSorted(a: BatteryRecord, t: seq<BatteryRecord>, o: SortOrder)
    requires Sorted(t, o)
    requires forall j :: 0 <= j < |t| ==> NotAfter(a, t[j], o)
    ensures Sorted([a] + t, o)
  {
    var u := [a] + t;
    forall i, j | 0 <= i < j < |u|
      ensures NotAfter(u[i], u[j], o)
    {
      assert u[j] == t[j - 1];
      if i > 0 {
        assert u[i] == t[i - 1];
      }
    }
  }

  lemma {:induction false} InsertPermutes(x: BatteryRecord, s: seq<BatteryRecord>, o: SortOrder)
    ensures multiset(Insert(x, s, o)) == multiset(s) + multiset{x}
  {
    if s != [] && !NotAfter(x, s[0], o) {
      InsertPermutes(x, s[1..], o);
      assert s == [s[0]] + s[1..];
    }
  }

  lemma {:induction false} InsertSorted(x: BatteryRecord, s: seq<BatteryRecord>, o: SortOrder)
    requires Sorted(s, o)
    ensures Sorted(Insert(x, s, o), o)
  {
    if s == [] {
    } else if NotAfter(x, s[0], o) {
      forall j | 0 <= j < |s|
        ensures NotAfter(x, s[j], o)
      {
        if j > 0 {
          assert NotAfter(s[0], s[j], o);
        }
      }
      ConsSorted(x, s, o);
    } else {
      var rest := s[1..];
      assert Sorted(rest, o) by {
        forall i, j | 0 <= i < j < |rest|
          ensures NotAfter(rest[i], rest[j], o)
        {
          assert rest[i] == s[i + 1] && rest[j] == s[j + 1];
        }
      }
      var t := Insert(x, rest, o);
      InsertSorted(x, rest, o);
      InsertPermutes(x, rest, o);
      forall j | 0 <= j < |t|
        ensures NotAfter(s[0], t[j], o)
      {
        assert t[j] in multiset(t);
        if t[j] != x {
          assert t[j] in multiset(rest);
          var m :| 0 <= m < |rest| && rest[m] == t[j];
          assert s[m + 1] == t[j];
        }
      }
      ConsSorted(s[0], t, o);
    }
  }

  /** Sorting orders the records and keeps every one of them, as often as it occurs. */
  lemma {:induction false} SortRecordsSpec(s: seq<BatteryRecord>, o: SortOrder)
    ensures Sorted(SortRecords(s, o), o)
    ensures multiset(SortRecords(s, o)) == multiset(s)
  {
    if s != [] {
      SortRecordsSpec(s[1..], o);
      InsertSorted(s[0], SortRecords(s[1..], o), o);
      InsertPermutes(s[0], SortRecords(s[1..], o), o);
      assert s == [s[0]] + s[1..];
    }
  }

  /** Where a page starts: its first index, clamped to the length of rows. */
  function SliceStart(rows: seq<BatteryRecord>, from: nat): nat
  {
    if from <= |rows| then from else |rows|
  }

  /** Rows from..until of rows, with both ends clamped to its length. */
  function Slice(rows: seq<BatteryRecord>, from: nat, until: nat): (r: seq<BatteryRecord>)
  {
    var a := SliceStart(rows, from);
    var b := if until <= a then a else if until <= |rows| then until else |rows|;
    rows[a..b]
  }

  /** A slice is a run of at most until - from consecutive rows starting at SliceStart. */
  lemma SliceSpec(rows: seq<BatteryRecord>, from: nat, until: nat)
    requires from <= until
    ensures var sl := Slice(rows, from, until);
            |sl| <= until - from && SliceStart(rows, from) + |sl| <= |rows| &&
            forall k :: 0 <= k < |sl| ==> sl[k] == rows[SliceStart(rows, from) + k]
  {
  }

  /** toRecordDto: every field copied; a record without a battery gives a null batteryId. */
  function ToRecordDto(r: BatteryRecord): RecordDto
  {
    RecordDto(r.id, r.batteryId, r.cycle, r.timeMin, r.current, r.temp, r.capacity, r.sourceFile, r.uploadBatch)
  }

  /** The record a DTO was made from. */
  function FromRecordDto(d: RecordDto): BatteryRecord
  {
    BatteryRecord(d.id, d.batteryId, d.cycle, d.timeMin, d.current, d.temp, d.capacity, d.sourceFile, d.uploadBatch)
  }

  /** toRecordDto loses nothing: the record can be read back from its DTO. */
  lemma RecordDtoRoundTrip(r: BatteryRecord)
    ensures FromRecordDto(ToRecordDto(r)) == r
    ensures ToRecordDto(r).batteryId == r.batteryId
  {
  }

  /** `stream().map(this::toRecordDto)`. */
  function ToDtos(rs: seq<BatteryRecord>): (r: seq<RecordDto>)
  {
    seq(|rs|, k requires 0 <= k < |rs| => ToRecordDto(rs[k]))
  }

  /** Reading each DTO of a list back gives the list of records it was made from. */
  lemma DtosBack(rs: seq<BatteryRecord>)
    ensures var dtos := ToDtos(rs);
            seq(|dtos|, k requires 0 <= k < |dtos| => FromRecordDto(dtos[k])) == rs
  {
    var dtos := ToDtos(rs);
    forall k | 0 <= k < |rs|
      ensures FromRecordDto(dtos[k]) == rs[k]
    {
      RecordDtoRoundTrip(rs[k]);
    }
  }

  /** Records all of one battery and cycle range, ordered by cycle and then time. */
  predicate OrderedFor(rows: seq<BatteryRecord>, batteryId: int, q: CycleQuery)
  {
    Sorted(rows, ByCycleThenTime) &&
    forall k :: 0 <= k < |rows| ==> rows[k].batteryId == Some(batteryId) && Admits(q, rows[k].cycle)
  }

  /** A slice of ordered records of one battery and range is one as well. */
  lemma SliceKeepsOrder(rows: seq<BatteryRecord>, from: nat, until: nat, batteryId: int, q: CycleQuery)
    requires from <= until
    requires OrderedFor(rows, batteryId, q)
    ensures OrderedFor(Slice(rows, from, until), batteryId, q)
  {
    var sl := Slice(rows, from, until);
    var a := SliceStart(rows, from);
    SliceSpec(rows, from, until);
    forall i, j | 0 <= i < j < |sl|
      ensures NotAfter(sl[i], sl[j], ByCycleThenTime)
    {
      assert sl[i] == rows[a + i] && sl[j] == rows[a + j];
    }
    forall k | 0 <= k < |sl|
      ensures sl[k].batteryId == Some(batteryId) && Admits(q, sl[k].cycle)
    {
      assert sl[k] == rows[a + k];
    }
  }

  /** The DTOs of ordered records of one battery and range carry the same order and range. */
  lemma DtosKeepOrder(rs: seq<BatteryRecord>, batteryId: int, q: CycleQuery)
    requires OrderedFor(rs, batteryId, q)
    ensures var content := ToDtos(rs);
            (forall k :: 0 <= k < |content| ==>
               content[k].batteryId == Some(batteryId) && Admits(q, content[k].cycle)) &&
            (forall i, j :: 0 <= i < j < |content| ==>
               NotAfter(FromRecordDto(content[i]), FromRecordDto(content[j]), ByCycleThenTime))
  {
    DtosBack(rs);
    var content := ToDtos(rs);
    forall k | 0 <= k < |content|
      ensures FromRecordDto(content[k]) == rs[k]
    {
    }
  }

  /** The battery check both queries make: the battery exists and is not soft-deleted. */
  function CheckBattery(batteries: map<int, Battery>, batteryId: int): Result<Battery, RecordError>
  {
    if batteryId !in batteries then Err(BatteryNotFound)
    else if IsDeleted(batteries[batteryId]) then Err(BatteryDeleted)
    else Ok(batteries[batteryId])
  }

  /** `PageRequest.of(page, size)` applied to rows: the page-th run of size rows, and their count. */
  function PageOf(rows: seq<BatteryRecord>, page: nat, size: nat): RecordPage
  {
    RecordPage(ToDtos(Slice(rows, page * size, page * size + size)), page, size, |rows|)
  }

  /**
   * queryBatteryRecords: the battery check, then the normalised page of the chosen query's
   * records ordered by cycle and time, with the number of all matching records.
   */
  function QueryBatteryRecords(batteries: map<int, Battery>, table: seq<BatteryRecord>, batteryId: int,
                               query: RecordQuery): Result<RecordPage, RecordError>
  {
    match CheckBattery(batteries, batteryId)
    case Err(e) => Err(e)
    case Ok(_) =>
      var rows := SortRecords(Matching(table, batteryId, ChooseQuery(query.cycleStart, query.cycleEnd)), ByCycleThenTime);
      Ok(PageOf(rows, NormalizePage(query.page), NormalizeSize(query.size)))
  }

  /** A missing or deleted battery is refused before any record is read; any other is served. */
  lemma QueryRecordsGuard(batteries: map<int, Battery>, table: seq<BatteryRecord>, batteryId: int, query: RecordQuery)
    ensures QueryBatteryRecords(batteries, table, batteryId, query) == Err(BatteryNotFound) <==> batteryId !in batteries
    ensures QueryBatteryRecords(batteries, table, batteryId, query) == Err(BatteryDeleted) <==>
              batteryId in batteries && IsDeleted(batteries[batteryId])
    ensures QueryBatteryRecords(batteries, table, batteryId, query).Ok? <==>
              batteryId in batteries && !IsDeleted(batteries[batteryId])
  {
  }

  /**
   * A query's records in the database's order: sorted, all of the battery and inside the
   * query's cycle range, and a permutation of the matching records.
   */
  lemma SortedMatching(table: seq<BatteryRecord>, batteryId: int, q: CycleQuery, o: SortOrder)
    ensures var rows := SortRecords(Matching(table, batteryId, q), o);
            Sorted(rows, o) && multiset(rows) == multiset(Matching(table, batteryId, q)) &&
            forall k :: 0 <= k < |rows| ==> rows[k].batteryId == Some(batteryId) && Admits(q, rows[k].cycle)
    ensures o == ByCycleThenTime ==> OrderedFor(SortRecords(Matching(table, batteryId, q), o), batteryId, q)
  {
    var matching := Matching(table, batteryId, q);
    var rows := SortRecords(matching, o);
    SortRecordsSpec(matching, o);
    MatchingSpec(table, batteryId, q);
    forall k | 0 <= k < |rows|
      ensures rows[k].batteryId == Some(batteryId) && Admits(q, rows[k].cycle)
    {
      assert rows[k] in multiset(rows);
      assert rows[k] in matching;
    }
  }

  /**
   * A served page holds at most the normalised page size of records, and its total counts
   * every matching record of the table.
   */
  lemma QueryRecordsPageShape(batteries: map<int, Battery>, table: seq<BatteryRecord>, batteryId: int, query: RecordQuery)
    requires QueryBatteryRecords(batteries, table, batteryId, query).Ok?
    ensures var p := QueryBatteryRecords(batteries, table, batteryId, query).value;
            1 <= p.size <= MaxPageSize && |p.content| <= p.size &&
            p.totalElements == |Matching(table, batteryId, ChooseQuery(query.cycleStart, query.cycleEnd))|
  {
    var p := QueryBatteryRecords(batteries, table, batteryId, query).value;
    var rows := SortRecords(Matching(table, batteryId, ChooseQuery(query.cycleStart, query.cycleEnd)), ByCycleThenTime);
    SortRecordsSpec(Matching(table, batteryId, ChooseQuery(query.cycleStart, query.cycleEnd)), ByCycleThenTime);
    SliceSpec(rows, p.page * p.size, p.page * p.size + p.size);
  }

  /**
   * Every record of a served page is of the requested battery and inside the requested
   * cycle range, and the page is ordered by cycle and then time.
   */
  lemma QueryRecordsPageContent(batteries: map<int, Battery>, table: seq<BatteryRecord>, batteryId: int, query: RecordQuery)
    requires QueryBatteryRecords(batteries, table, batteryId, query).Ok?
    ensures var p := QueryBatteryRecords(batteries, table, batteryId, query).value;
            var q := ChooseQuery(query.cycleStart, query.cycleEnd);
            (forall k :: 0 <= k < |p.content| ==>
               p.content[k].batteryId == Some(batteryId) && Admits(q, p.content[k].cycle)) &&
            (forall i, j :: 0 <= i < j < |p.content| ==>
               NotAfter(FromRecordDto(p.content[i]), FromRecordDto(p.content[j]), ByCycleThenTime))
  {
    var p := QueryBatteryRecords(batteries, table, batteryId, query).value;
    var q := ChooseQuery(query.cycleStart, query.cycleEnd);
    var rows := SortRecords(Matching(table, batteryId, q), ByCycleThenTime);
    SortedMatching(table, batteryId, q, ByCycleThenTime);
    var from := NormalizePage(query.page) * NormalizeSize(query.size);
    SliceKeepsOrder(rows, from, from + NormalizeSize(query.size), batteryId, q);
    DtosKeepOrder(Slice(rows, from, from + NormalizeSize(query.size)), batteryId, q);
    assert p == PageOf(rows, NormalizePage(query.page), NormalizeSize(query.size));
  }

  /**
   * getBatteryRecordsByCycle: a null cycle is refused before the battery is looked up;
   * then the battery check, then every record of that battery and cycle, by time.
   */
  function GetBatteryRecordsByCycle(batteries: map<int, Battery>, table: seq<BatteryRecord>, batteryId: int,
                                    cycle: Option<int>): Result<seq<RecordDto>, RecordError>
  {
    if cycle.None? then Err(CycleRequired)
    else match CheckBattery(batteries, batteryId)
      case Err(e) => Err(e)
      case Ok(_) => Ok(ToDtos(SortRecords(Matching(table, batteryId, Between(cycle.value, cycle.value)), ByTime)))
  }

  /** The plot query refuses a null cycle whatever the battery, then makes the battery check. */
  lemma RecordsByCycleGuard(batteries: map<int, Battery>, table: seq<BatteryRecord>, batteryId: int, cycle: Option<int>)
    ensures cycle.None? ==> GetBatteryRecordsByCycle(batteries, table, batteryId, cycle) == Err(CycleRequired)
    ensures cycle.Some? ==>
              (GetBatteryRecordsByCycle(batteries, table, batteryId, cycle).Ok? <==>
                 batteryId in batteries && !IsDeleted(batteries[batteryId]))
  {
  }

  /**
   * A served plot holds each record of that battery and cycle, as often as it is stored,
   * and nothing else, ordered by time.
   */
  lemma RecordsByCycleContent(batteries: map<int, Battery>, table: seq<BatteryRecord>, batteryId: int, cycle: Option<int>)
    requires GetBatteryRecordsByCycle(batteries, table, batteryId, cycle).Ok?
    ensures var dtos := GetBatteryRecordsByCycle(batteries, table, batteryId, cycle).value;
            var rs := seq(|dtos|, k requires 0 <= k < |dtos| => FromRecordDto(dtos[k]));
            (forall x: BatteryRecord :: x.batteryId == Some(batteryId) && x.cycle == cycle.value ==>
               multiset(rs)[x] == multiset(table)[x]) &&
            (forall k :: 0 <= k < |rs| ==> rs[k].batteryId == Some(batteryId) && rs[k].cycle == cycle.value) &&
            Sorted(rs, ByTime)
  {
    var q := Between(cycle.value, cycle.value);
    SortedMatching(table, batteryId, q, ByTime);
    MatchingSpec(table, batteryId, q);
    var sorted := SortRecords(Matching(table, batteryId, q), ByTime);
    DtosBack(sorted);
    assert GetBatteryRecordsByCycle(batteries, table, batteryId, cycle).value == ToDtos(sorted);
  }
}
