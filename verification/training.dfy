/** The training-session endpoints of `training.controller.js`: create and update
    with their date guard, delete guarded by existing attendances, the filtered
    and paginated listing, the "upcoming" list and the mandatory list annotated
    with the caller's own attendance. Dates in the request are already parsed
    into timestamps; `None` is a field or parameter the request leaves out. */
module TrainingController {
  import opened Basics
  import opened Strings
  import opened Seqs
  import opened Models
  import opened Errors
  import opened Outcomes

  /** The request body of create and update. `status` is read by update only. */
  datatype TrainingInput = TrainingInput(
    title: Option<string>,
    description: Option<string>,
    startDate: Option<Timestamp>,
    endDate: Option<Timestamp>,
    location: Option<string>,
    isVirtual: Option<bool>,
    meetingLink: Option<string>,
    prerequisite: Option<string>,
    capacity: Option<int>,
    isMandatory: Option<bool>,
    facilitatorName: Option<string>,
    facilitatorContact: Option<string>,
    vendorId: Option<Id>,
    status: Option<string>)

  /** Both dates given and the start is not before the end. */
  predicate DatesOutOfOrder(input: TrainingInput) {
    input.startDate.Some? && input.endDate.Some? && input.startDate.value >= input.endDate.value
  }

  // ------------------------------------------------------------------ create

  /** `createTraining`. The date guard comes first; a missing title or date then
      fails the NOT NULL columns. The new session is always `Scheduled`, and the
      two flags default to false. */
  function CreateTraining(s: Store, input: TrainingInput): (o: Outcome<Training>)
    ensures o.outbox == []
    ensures DatesOutOfOrder(input) ==> o == Fail(s, InvalidDateRange)
    ensures !DatesOutOfOrder(input) && (input.title.None? || input.startDate.None? || input.endDate.None?) ==>
      o == Fail(s, MissingRequiredField)
    ensures o.result.Ok? <==> input.title.Some? && input.startDate.Some? && input.endDate.Some? && !DatesOutOfOrder(input)
    ensures o.result.Err? ==> o.store == s
    ensures o.result.Ok? ==>
      var t := o.result.value;
      && t.startDate < t.endDate
      && t.status == Scheduled
      && t.id == s.nextId
      && input.title == Some(t.title) && input.startDate == Some(t.startDate) && input.endDate == Some(t.endDate)
      && t.isVirtual == input.isVirtual.GetOr(false) && t.isMandatory == input.isMandatory.GetOr(false)
      && t.capacity == input.capacity && t.location == input.location && t.meetingLink == input.meetingLink
      && t.description == input.description && t.facilitatorName == input.facilitatorName
      && t.prerequisite == input.prerequisite && t.vendorId == input.vendorId
      && t.facilitatorContact == input.facilitatorContact
      && o.store == s.(trainings := s.trainings + [t], nextId := s.nextId + 1)
  {
    if DatesOutOfOrder(input) then Fail(s, InvalidDateRange)
    else if input.title.None? || input.startDate.None? || input.endDate.None? then Fail(s, MissingRequiredField)
    else
      var t := Training(s.nextId, input.title.value, input.description, input.startDate.value, input.endDate.value,
                        input.location, input.isVirtual.GetOr(false), input.meetingLink, input.prerequisite,
                        input.capacity, input.isMandatory.GetOr(false), Scheduled, input.vendorId,
                        input.facilitatorName, input.facilitatorContact);
      Outcome(s.(trainings := s.trainings + [t], nextId := s.nextId + 1), Ok(t), [])
  }

  lemma CreateTrainingPreservesValid(s: Store, input: TrainingInput)
    requires Valid(s)
    ensures Valid(CreateTraining(s, input).store)
  {
    var o := CreateTraining(s, input);
    if o.result.Ok? {
      ValidAfterInsertTraining(s, o.result.value);
    }
  }

  // ------------------------------------------------------------------ update

  /** A nullable column under `update`: a value the body leaves out is kept. */
  function Overlay<T>(patch: Option<T>, current: Option<T>): Option<T> {
    if patch.Some? then patch else current
  }

  /** A required field after `update`: the supplied value, else the stored one. */
  predicate Updated<T(==)>(patch: Option<T>, before: T, after: T) {
    (patch.Some? ==> after == patch.value) && (patch.None? ==> after == before)
  }

  /** A nullable column after `update`: the supplied value, else the stored one. */
  predicate UpdatedColumn<T(==)>(patch: Option<T>, before: Option<T>, after: Option<T>) {
    (patch.Some? ==> after == patch) && (patch.None? ==> after == before)
  }

  /** `training.update(body)`: every field the body supplies replaces the stored
      one, the others stay, the key never changes. */
  function Patched(t: Training, input: TrainingInput, st: TrainingStatus): (r: Training)
    ensures r.id == t.id && r.status == st
    ensures Updated(input.title, t.title, r.title) && UpdatedColumn(input.description, t.description, r.description)
    ensures Updated(input.startDate, t.startDate, r.startDate) && Updated(input.endDate, t.endDate, r.endDate)
    ensures UpdatedColumn(input.location, t.location, r.location) && Updated(input.isVirtual, t.isVirtual, r.isVirtual)
    ensures UpdatedColumn(input.meetingLink, t.meetingLink, r.meetingLink)
    ensures UpdatedColumn(input.prerequisite, t.prerequisite, r.prerequisite)
    ensures UpdatedColumn(input.capacity, t.capacity, r.capacity) && Updated(input.isMandatory, t.isMandatory, r.isMandatory)
    ensures UpdatedColumn(input.vendorId, t.vendorId, r.vendorId)
    ensures UpdatedColumn(input.facilitatorName, t.facilitatorName, r.facilitatorName)
    ensures UpdatedColumn(input.facilitatorContact, t.facilitatorContact, r.facilitatorContact)
  {
    Training(t.id, input.title.GetOr(t.title), Overlay(input.description, t.description),
             input.startDate.GetOr(t.startDate), input.endDate.GetOr(t.endDate),
             Overlay(input.location, t.location), input.isVirtual.GetOr(t.isVirtual),
             Overlay(input.meetingLink, t.meetingLink), Overlay(input.prerequisite, t.prerequisite),
             Overlay(input.capacity, t.capacity), input.isMandatory.GetOr(t.isMandatory), st,
             Overlay(input.vendorId, t.vendorId), Overlay(input.facilitatorName, t.facilitatorName),
             Overlay(input.facilitatorContact, t.facilitatorContact))
  }

  /** Position of `Training.findByPk(id)`, or `|ts|`. */
  function TrainingIndex(ts: seq<Training>, id: Id): (i: nat)
    ensures i <= |ts|
    ensures i < |ts| ==> ts[i].id == id
    ensures i == |ts| <==> FindTraining(ts, id).None?
  {
    FirstIndex(ts, (t: Training) => t.id == id)
  }

  /** `updateTraining`. The date guard runs only when the body carries both dates;
      a status outside the ENUM fails the write. */
  function UpdateTraining(s: Store, id: Id, input: TrainingInput): (o: Outcome<Training>)
    ensures o.outbox == []
    ensures FindTraining(s.trainings, id).None? ==> o == Fail(s, TrainingNotFound)
    ensures FindTraining(s.trainings, id).Some? && DatesOutOfOrder(input) ==> o == Fail(s, InvalidDateRange)
    ensures o.result.Err? ==> o.store == s
    ensures o.result.Ok? <==>
      FindTraining(s.trainings, id).Some? && !DatesOutOfOrder(input)
      && (input.status.Some? ==> ParseTrainingStatus(input.status.value).Some?)
    ensures o.result.Ok? ==>
      var i := TrainingIndex(s.trainings, id);
      var t := o.result.value;
      && i < |s.trainings|
      && t.id == id
      && (input.status.Some? ==> TrainingStatusName(t.status) == input.status.value)
      && (input.status.None? ==> t.status == s.trainings[i].status)
      && t == Patched(s.trainings[i], input, t.status)
      && o.store == s.(trainings := s.trainings[i := t])
  {
    var i := TrainingIndex(s.trainings, id);
    if i == |s.trainings| then Fail(s, TrainingNotFound)
    else if DatesOutOfOrder(input) then Fail(s, InvalidDateRange)
    else
      var st := if input.status.Some? then ParseTrainingStatus(input.status.value) else Some(s.trainings[i].status);
      if st.None? then Fail(s, InvalidEnumValue)
      else
        var t := Patched(s.trainings[i], input, st.value);
        Outcome(s.(trainings := s.trainings[i := t]), Ok(t), [])
  }

  lemma UpdateTrainingPreservesValid(s: Store, id: Id, input: TrainingInput)
    requires Valid(s)
    ensures Valid(UpdateTraining(s, id, input).store)
  {
    var o := UpdateTraining(s, id, input);
    if o.result.Ok? {
      ValidAfterUpdateTraining(s, TrainingIndex(s.trainings, id), o.result.value);
    }
  }

  /** An update that carries both dates leaves them in order. */
  lemma UpdateWithBothDatesKeepsOrder(s: Store, id: Id, input: TrainingInput)
    requires input.startDate.Some? && input.endDate.Some?
    requires UpdateTraining(s, id, input).result.Ok?
    ensures UpdateTraining(s, id, input).result.value.startDate < UpdateTraining(s, id, input).result.value.endDate
  {
  }

  /** The guard does not look at the stored dates: an update that moves only the
      start past the stored end is accepted. */
  lemma UpdateWithOneDateIsUnchecked(s: Store, id: Id, input: TrainingInput)
    requires FindTraining(s.trainings, id).Some?
    requires input.startDate.Some? && input.endDate.None? && input.status.None?
    requires input.startDate.value >= FindTraining(s.trainings, id).value.endDate
    ensures UpdateTraining(s, id, input).result.Ok?
    ensures UpdateTraining(s, id, input).result.value.startDate >= UpdateTraining(s, id, input).result.value.endDate
  {
    var i := TrainingIndex(s.trainings, id);
    assert s.trainings[i].id == id;
    assert s.trainings[i] in s.trainings;
  }

  // ------------------------------------------------------------------ delete

  /** `deleteTraining`: refused while any attendance record, of any status,
      references the session. */
  function DeleteTraining(s: Store, id: Id): (o: Outcome<()>)
    ensures o.outbox == []
    ensures FindTraining(s.trainings, id).None? ==> o == Fail(s, TrainingNotFound)
    ensures FindTraining(s.trainings, id).Some? && |RecordsOf(s.attendances, id)| > 0 ==>
      o == Fail(s, TrainingHasAttendances)
    ensures o.result.Ok? <==> FindTraining(s.trainings, id).Some? && |RecordsOf(s.attendances, id)| == 0
    ensures o.result.Err? ==> o.store == s
    ensures o.result.Ok? ==>
      var i := TrainingIndex(s.trainings, id);
      i < |s.trainings| && o.store == s.(trainings := s.trainings[..i] + s.trainings[i + 1..])
  {
    var i := TrainingIndex(s.trainings, id);
    if i == |s.trainings| then Fail(s, TrainingNotFound)
    else if |RecordsOf(s.attendances, id)| > 0 then Fail(s, TrainingHasAttendances)
    else Outcome(s.(trainings := s.trainings[..i] + s.trainings[i + 1..]), Ok(()), [])
  }

  /** On a valid store a successful delete removes exactly the session with that
      key, keeps every other one, and keeps the invariant. */
  lemma DeleteRemovesExactlyThat(s: Store, id: Id)
    requires Valid(s)
    requires DeleteTraining(s, id).result.Ok?
    ensures var ts := DeleteTraining(s, id).store.trainings;
            |ts| == |s.trainings| - 1 && forall t :: t in ts <==> t in s.trainings && t.id != id
    ensures Valid(DeleteTraining(s, id).store)
  {
    var i := TrainingIndex(s.trainings, id);
    RemoveAtMembers(s.trainings, i);
    assert forall a :: a in s.attendances ==> a.trainingId != s.trainings[i].id;
    ValidAfterRemoveTraining(s, i);
  }

  // ----------------------------------------------------------------- listing

  /** The filter parameters of `getAllTrainingSessions`. A date is `Some` when its
      parameter is a non-empty string; `status` is the raw string. */
  datatype ListFilter = ListFilter(
    status: Option<string>,
    startDate: Option<Timestamp>,
    endDate: Option<Timestamp>,
    isVirtual: Option<string>,
    isMandatory: Option<string>,
    search: Option<string>)

  /** The whole query string. `page` and `limit` are the `parseInt` results,
      `None` standing for `NaN`. */
  datatype ListQuery = ListQuery(filter: ListFilter, page: Option<int>, limit: Option<int>)

  /** `parseInt(x) || d`: `NaN` and `0` fall back to the default. */
  function OrDefault(n: Option<int>, d: int): (r: int)
    ensures n.Some? && n.value != 0 ==> r == n.value
    ensures n.None? || n.value == 0 ==> r == d
  {
    if n.Some? && n.value != 0 then n.value else d
  }

  /** The start-date clause: `between` both bounds, `>=` the lower one alone,
      `<=` the upper one alone. */
  predicate InDateWindow(t: Training, from: Option<Timestamp>, to: Option<Timestamp>) {
    if from.Some? && to.Some? then from.value <= t.startDate <= to.value
    else if from.Some? then from.value <= t.startDate
    else if to.Some? then t.startDate <= to.value
    else true
  }

  /** The three branches amount to one inclusive bound per supplied parameter. */
  lemma DateWindowBounds(t: Training, from: Option<Timestamp>, to: Option<Timestamp>)
    ensures InDateWindow(t, from, to) <==>
      (from.None? || from.value <= t.startDate) && (to.None? || t.startDate <= to.value)
  {
  }

  /** `isVirtual === 'true'` once the parameter is present. */
  predicate FlagMatches(param: Option<string>, value: bool) {
    param.None? || value == (param.value == "true")
  }

  /** `ILIKE '%term%'` on a nullable column: a null never matches. */
  predicate ColumnContains(column: Option<string>, term: string) {
    column.Some? && ContainsFolded(column.value, term)
  }

  /** The `[Op.or]` of the search: title, description, location or facilitator. */
  predicate SearchMatches(t: Training, term: string) {
    || ContainsFolded(t.title, term)
    || ColumnContains(t.description, term)
    || ColumnContains(t.location, term)
    || ColumnContains(t.facilitatorName, term)
  }

  /** The status parameter: absent or empty means no condition; otherwise it
      must name a status. */
  function StatusParam(f: ListFilter): Result<Option<TrainingStatus>, ApiError> {
    if !Truthy(f.status) then Ok(None)
    else match ParseTrainingStatus(f.status.value)
      case None => Err(InvalidEnumValue)
      case Some(st) => Ok(Some(st))
  }

  /** The whole `where` clause, with the status parameter already parsed. */
  predicate Matches(t: Training, status: Option<TrainingStatus>, f: ListFilter) {
    && (status.None? || t.status == status.value)
    && InDateWindow(t, f.startDate, f.endDate)
    && FlagMatches(f.isVirtual, t.isVirtual)
    && FlagMatches(f.isMandatory, t.isMandatory)
    && (!Truthy(f.search) || SearchMatches(t, f.search.value))
  }

  function MatchesWhere(status: Option<TrainingStatus>, f: ListFilter): Training -> bool {
    (t: Training) => Matches(t, status, f)
  }

  function StartKey(t: Training): int {
    t.startDate
  }

  /** The sessions satisfying `p`, ascending by start date
      (`order: [['startDate', 'ASC']]`). */
  function SortedSelection(ts: seq<Training>, p: Training -> bool): (r: seq<Training>)
    ensures SortedBy(r, StartKey)
    ensures multiset(r) == multiset(Filter(ts, p))
    ensures forall t :: t in r <==> t in ts && p(t)
    ensures |r| == Count(ts, p)
  {
    var f := Filter(ts, p);
    var r := SortBy(f, StartKey);
    SameMultisetSameMembers(r, f);
    r
  }

  /** `Math.ceil(a / b)` for a positive divisor. */
  function CeilDiv(a: nat, b: int): (r: nat)
    requires b > 0
    ensures (r - 1) * b < a <= r * b
  {
    var q := (a + b - 1) / b;
    assert q * b <= a + b - 1 < q * b + b;
    q
  }

  datatype Pagination = Pagination(totalItems: nat, totalPages: nat, currentPage: int, itemsPerPage: int)

  datatype TrainingPage = TrainingPage(rows: seq<Training>, pagination: Pagination)

  /** Page and page size after the defaults, and the row offset they give. */
  function PageOf(q: ListQuery): int { OrDefault(q.page, 1) }
  function LimitOf(q: ListQuery): int { OrDefault(q.limit, 10) }
  function OffsetOf(q: ListQuery): int { (PageOf(q) - 1) * LimitOf(q) }

  /** One page of an ordered result of `count` rows. */
  function PageFrom(all: seq<Training>, page: int, offset: nat, limit: int): (r: TrainingPage)
    requires limit > 0
    ensures r.pagination.totalItems == |all|
    ensures (r.pagination.totalPages - 1) * limit < |all| <= r.pagination.totalPages * limit
    ensures r.pagination.currentPage == page && r.pagination.itemsPerPage == limit
    ensures |r.rows| == if offset + limit <= |all| then limit else if offset <= |all| then |all| - offset else 0
    ensures forall k :: 0 <= k < |r.rows| ==> r.rows[k] == all[offset + k]
  {
    TrainingPage(LimitOffset(all, offset, limit), Pagination(|all|, CeilDiv(|all|, limit), page, limit))
  }

  /** `getAllTrainingSessions`: the filtered sessions in start-date order, one
      page of them, and the page arithmetic. A status outside the ENUM and a
      negative LIMIT or OFFSET are refused by the database. */
  function ListTrainings(ts: seq<Training>, q: ListQuery): (r: Result<TrainingPage, ApiError>)
    ensures StatusParam(q.filter).Err? ==> r == Err(InvalidEnumValue)
    ensures r.Err? <==> StatusParam(q.filter).Err? || LimitOf(q) < 0 || OffsetOf(q) < 0
    ensures r.Ok? ==> StatusParam(q.filter).Ok? && LimitOf(q) > 0 && OffsetOf(q) >= 0
    ensures r.Ok? ==>
      r.value == PageFrom(SortedSelection(ts, MatchesWhere(StatusParam(q.filter).value, q.filter)),
                          PageOf(q), OffsetOf(q), LimitOf(q))
  {
    match StatusParam(q.filter)
    case Err(e) => Err(e)
    case Ok(status) =>
      var limit := LimitOf(q);
      var offset := OffsetOf(q);
      if limit < 0 || offset < 0 then Err(NegativeLimitOrOffset)
      else Ok(PageFrom(SortedSelection(ts, MatchesWhere(status, q.filter)), PageOf(q), offset, limit))
  }

  /** A listing returns matching sessions only, in start-date order. */
  lemma ListedRowsMatch(ts: seq<Training>, q: ListQuery)
    requires ListTrainings(ts, q).Ok?
    ensures var rows := ListTrainings(ts, q).value.rows;
            && SortedBy(rows, StartKey)
            && forall t :: t in rows ==> t in ts && Matches(t, StatusParam(q.filter).value, q.filter)
  {
    var all := SortedSelection(ts, MatchesWhere(StatusParam(q.filter).value, q.filter));
    var rows := ListTrainings(ts, q).value.rows;
    forall t | t in rows ensures t in ts && Matches(t, StatusParam(q.filter).value, q.filter) {
      var k :| 0 <= k < |rows| && rows[k] == t;
      assert all[OffsetOf(q) + k] in all;
    }
  }

  /** Position `k` of an ordering lies on page `k / limit + 1`, whose offset is
      `(k / limit) * limit`, as row `k % limit`. */
  lemma PagePosition(f: ListFilter, limit: int, k: nat) returns (off: nat, m: nat)
    requires limit > 0
    ensures off + m == k && m == k % limit && m < limit
    ensures var q := ListQuery(f, Some(k / limit + 1), Some(limit));
      PageOf(q) == k / limit + 1 && LimitOf(q) == limit && OffsetOf(q) == off
  {
    var d := k / limit;
    m := k % limit;
    off := d * limit;
  }

  /** Row `m` of a page that starts at `offset` is element `offset + m` of the
      ordering, whenever both exist. */
  lemma PageRow(all: seq<Training>, page: int, offset: nat, limit: int, m: nat)
    requires limit > 0 && m < limit && offset + m < |all|
    ensures var rows := PageFrom(all, page, offset, limit).rows;
      m < |rows| && rows[m] == all[offset + m]
  {
  }

  /** Paging covers the result: the matching session at position `k` of the
      ordering is row `k % limit` of page `k / limit + 1`. Sessions that share a
      start date keep store order here, on every page request. */
  lemma {:induction false} EveryMatchOnItsPage(ts: seq<Training>, f: ListFilter, limit: int, k: nat)
    requires limit > 0
    requires StatusParam(f).Ok?
    requires k < |SortedSelection(ts, MatchesWhere(StatusParam(f).value, f))|
    ensures var r := ListTrainings(ts, ListQuery(f, Some(k / limit + 1), Some(limit)));
            && r.Ok?
            && k % limit < |r.value.rows|
            && r.value.rows[k % limit] == SortedSelection(ts, MatchesWhere(StatusParam(f).value, f))[k]
  {
    var q := ListQuery(f, Some(k / limit + 1), Some(limit));
    var all := SortedSelection(ts, MatchesWhere(StatusParam(f).value, f));
    var off, m := PagePosition(f, limit, k);
    PageRow(all, k / limit + 1, off, limit, m);
    assert ListTrainings(ts, q) == Ok(PageFrom(all, k / limit + 1, off, limit));
  }

  // -------------------------------------------------------- upcoming sessions

  const UpcomingLimit: nat := 10

  predicate Upcoming(t: Training, now: Timestamp) {
    t.status == Scheduled && t.startDate >= now
  }

  function UpcomingAt(now: Timestamp): Training -> bool {
    (t: Training) => Upcoming(t, now)
  }

  /** `getUpcomingTrainings`: the ten soonest scheduled sessions that have not
      started. Every scheduled future session left out starts no earlier than
      every one returned. */
  function UpcomingTrainings(ts: seq<Training>, now: Timestamp): (r: seq<Training>)
    ensures |r| == if Count(ts, UpcomingAt(now)) < UpcomingLimit then Count(ts, UpcomingAt(now)) else UpcomingLimit
    ensures SortedBy(r, StartKey)
    ensures forall t :: t in r ==> t in ts && Upcoming(t, now)
    ensures forall t, x :: t in ts && Upcoming(t, now) && t !in r && x in r ==> x.startDate <= t.startDate
    ensures multiset(r) <= multiset(Filter(ts, UpcomingAt(now)))
  {
    TakeSelectionFacts(ts, UpcomingAt(now), UpcomingLimit);
    TakeMultiset(SortedSelection(ts, UpcomingAt(now)), UpcomingLimit);
    Take(SortedSelection(ts, UpcomingAt(now)), UpcomingLimit)
  }

  /** The first `n` sessions of a sorted selection are selected sessions, in start
      order, and start no later than any selected session they leave out. */
  lemma TakeSelectionFacts(ts: seq<Training>, p: Training -> bool, n: nat)
    ensures var r := Take(SortedSelection(ts, p), n);
      && |r| == (if Count(ts, p) < n then Count(ts, p) else n)
      && SortedBy(r, StartKey)
      && (forall t :: t in r ==> t in ts && p(t))
      && (forall t, x :: t in ts && p(t) && t !in r && x in r ==> x.startDate <= t.startDate)
  {
    var all := SortedSelection(ts, p);
    var r := Take(all, n);
    TakeSortedIsSmallest(all, n, StartKey);
    assert forall k :: 0 <= k < |r| ==> r[k] == all[k];
    assert forall t :: t in r ==> t in all;
  }

  // ------------------------------------------------------ mandatory sessions

  /** A mandatory session annotated with the caller's record, if any. */
  datatype MandatoryEntry = MandatoryEntry(training: Training, attendanceStatus: Option<AttendanceStatus>,
                                           attendanceId: Option<Id>)

  predicate MandatoryAhead(t: Training, now: Timestamp) {
    t.isMandatory && t.status == Scheduled && t.startDate >= now
  }

  function MandatoryAheadAt(now: Timestamp): Training -> bool {
    (t: Training) => MandatoryAhead(t, now)
  }

  /** `attendances.find(a => a.TrainingId === training.id)` over the caller's records. */
  function Annotate(recs: seq<Attendance>, userId: Id, t: Training): (e: MandatoryEntry)
    ensures e.training == t
    ensures e.attendanceId.Some? <==> HasRecord(recs, userId, t.id)
    ensures e.attendanceStatus.Some? <==> HasRecord(recs, userId, t.id)
    ensures HasRecord(recs, userId, t.id) ==>
      var a := recs[PairIndex(recs, userId, t.id)];
      e.attendanceId == Some(a.id) && e.attendanceStatus == Some(a.status)
  {
    var i := PairIndex(recs, userId, t.id);
    if i < |recs| then MandatoryEntry(t, Some(recs[i].status), Some(recs[i].id))
    else MandatoryEntry(t, None, None)
  }

  function AnnotateAll(recs: seq<Attendance>, userId: Id, ts: seq<Training>): (r: seq<MandatoryEntry>)
    ensures |r| == |ts|
    ensures forall k :: 0 <= k < |ts| ==> r[k] == Annotate(recs, userId, ts[k])
    ensures forall k :: 0 <= k < |ts| ==> r[k].training == ts[k]
  {
    if |ts| == 0 then [] else [Annotate(recs, userId, ts[0])] + AnnotateAll(recs, userId, ts[1..])
  }

  /** The selection behind `getMandatoryTrainings`, in start-date order. */
  lemma MandatorySelectionFacts(ts: seq<Training>, now: Timestamp)
    ensures var o := SortedSelection(ts, MandatoryAheadAt(now));
      && (forall k :: 0 <= k < |o| ==> o[k] in ts && MandatoryAhead(o[k], now))
      && (forall k, j :: 0 <= k < j < |o| ==> o[k].startDate <= o[j].startDate)
  {
    var o := SortedSelection(ts, MandatoryAheadAt(now));
    forall k | 0 <= k < |o| ensures o[k] in ts && MandatoryAhead(o[k], now) {
      assert o[k] in o;
      assert MandatoryAheadAt(now)(o[k]);
    }
    forall k, j | 0 <= k < j < |o| ensures o[k].startDate <= o[j].startDate {
      assert StartKey(o[k]) <= StartKey(o[j]);
    }
  }

  /** `getMandatoryTrainings`: one entry per mandatory scheduled session that has
      not started, in start-date order, carrying the caller's status and record
      key, or nulls when the caller has no record. */
  function MandatoryTrainings(s: Store, userId: Id, now: Timestamp): (r: seq<MandatoryEntry>)
    ensures |r| == Count(s.trainings, MandatoryAheadAt(now))
    ensures forall k :: 0 <= k < |r| ==> r[k].training in s.trainings && MandatoryAhead(r[k].training, now)
    ensures forall k, j :: 0 <= k < j < |r| ==> r[k].training.startDate <= r[j].training.startDate
    ensures forall k :: 0 <= k < |r| ==> r[k] == Annotate(s.attendances, userId, r[k].training)
  {
    var ordered := SortedSelection(s.trainings, MandatoryAheadAt(now));
    MandatorySelectionFacts(s.trainings, now);
    AnnotateAll(s.attendances, userId, ordered)
  }

  /** No mandatory scheduled session that has not started is left out of the list. */
  lemma MandatoryTrainingsComplete(s: Store, userId: Id, now: Timestamp, t: Training)
    requires t in s.trainings && MandatoryAhead(t, now)
    ensures exists k :: 0 <= k < |MandatoryTrainings(s, userId, now)| && MandatoryTrainings(s, userId, now)[k].training == t
  {
    var ordered := SortedSelection(s.trainings, MandatoryAheadAt(now));
    assert MandatoryAheadAt(now)(t);
    var k :| 0 <= k < |ordered| && ordered[k] == t;
    var r := MandatoryTrainings(s, userId, now);
    assert r == AnnotateAll(s.attendances, userId, ordered);
    assert r[k].training == t;
  }
}
