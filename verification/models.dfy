/** The persisted entities (the Sequelize models) and the in-memory store that
    replaces the database. Timestamps are integer milliseconds since the epoch;
    identifiers are natural numbers drawn from a counter in the store, which
    stands for the UUIDv4 primary keys. */
module Models {
  import opened Basics
  import opened Seqs

  type Timestamp = int
  type Id = nat

  /** Attendance status; the column defaults to `Registered`. */
  datatype AttendanceStatus = Registered | Attended | Missed | Canceled

  function AttendanceStatusName(s: AttendanceStatus): string {
    match s
    case Registered => "registered"
    case Attended => "attended"
    case Missed => "missed"
    case Canceled => "canceled"
  }

  /** The ENUM column's check: a request string is stored only if it names a status. */
  function ParseAttendanceStatus(name: string): (r: Option<AttendanceStatus>)
    ensures r.Some? ==> AttendanceStatusName(r.value) == name
    ensures r.None? ==> forall s :: AttendanceStatusName(s) != name
  {
    if name == "registered" then Some(Registered)
    else if name == "attended" then Some(Attended)
    else if name == "missed" then Some(Missed)
    else if name == "canceled" then Some(Canceled)
    else None
  }

  /** How an attendance was recorded. */
  datatype AttendanceMethod = QrCode | Manual | Virtual | SelfDeclared

  function AttendanceMethodName(m: AttendanceMethod): string {
    match m
    case QrCode => "qr-code"
    case Manual => "manual"
    case Virtual => "virtual"
    case SelfDeclared => "self-declared"
  }

  function ParseAttendanceMethod(name: string): (r: Option<AttendanceMethod>)
    ensures r.Some? ==> AttendanceMethodName(r.value) == name
    ensures r.None? ==> forall m :: AttendanceMethodName(m) != name
  {
    if name == "qr-code" then Some(QrCode)
    else if name == "manual" then Some(Manual)
    else if name == "virtual" then Some(Virtual)
    else if name == "self-declared" then Some(SelfDeclared)
    else None
  }

  /** Training lifecycle status; the column defaults to `Scheduled`. */
  datatype TrainingStatus = Scheduled | InProgress | Completed | Cancelled

  function TrainingStatusName(s: TrainingStatus): string {
    match s
    case Scheduled => "scheduled"
    case InProgress => "in-progress"
    case Completed => "completed"
    case Cancelled => "cancelled"
  }

  function ParseTrainingStatus(name: string): (r: Option<TrainingStatus>)
    ensures r.Some? ==> TrainingStatusName(r.value) == name
    ensures r.None? ==> forall s :: TrainingStatusName(s) != name
  {
    if name == "scheduled" then Some(Scheduled)
    else if name == "in-progress" then Some(InProgress)
    else if name == "completed" then Some(Completed)
    else if name == "cancelled" then Some(Cancelled)
    else None
  }

  /** Each enum name parses back to its value, so the three ENUM columns accept
      exactly their listed names. */
  lemma EnumNamesRoundTrip(a: AttendanceStatus, m: AttendanceMethod, t: TrainingStatus)
    ensures ParseAttendanceStatus(AttendanceStatusName(a)) == Some(a)
    ensures ParseAttendanceMethod(AttendanceMethodName(m)) == Some(m)
    ensures ParseTrainingStatus(TrainingStatusName(t)) == Some(t)
  {
  }

  datatype Role = Role(id: Id, name: string)

  /** A person; `roleId` is the `belongsTo(Role)` foreign key. */
  datatype User = User(
    id: Id,
    firstName: string,
    lastName: string,
    email: string,
    roleId: Option<Id>,
    isActive: bool)

  /** A training session. `title`, `startDate` and `endDate` are required; a
      `capacity` of `None` means no limit. */
  datatype Training = Training(
    id: Id,
    title: string,
    description: Option<string>,
    startDate: Timestamp,
    endDate: Timestamp,
    location: Option<string>,
    isVirtual: bool,
    meetingLink: Option<string>,
    prerequisite: Option<string>,
    capacity: Option<int>,
    isMandatory: bool,
    status: TrainingStatus,
    vendorId: Option<Id>,
    facilitatorName: Option<string>,
    facilitatorContact: Option<string>)

  /** One person's record for one training. Every field but the keys and the
      status is nullable. */
  datatype Attendance = Attendance(
    id: Id,
    userId: Id,
    trainingId: Id,
    status: AttendanceStatus,
    checkInTime: Option<Timestamp>,
    checkOutTime: Option<Timestamp>,
    notes: Option<string>,
    attendanceMethod: Option<AttendanceMethod>,
    verifiedBy: Option<Id>,
    verifiedAt: Option<Timestamp>)

  /** A compliance declaration for one attendance. `content` and `submittedAt`
      are required; `isCompliant` defaults to true. */
  datatype Declaration = Declaration(
    id: Id,
    attendanceId: Id,
    content: string,
    submittedAt: Timestamp,
    ipAddress: Option<string>,
    userAgent: Option<string>,
    signature: Option<string>,
    isCompliant: bool,
    complianceNotes: Option<string>)

  /** A fresh attendance row as `Attendance.create` writes it: the column defaults
      (status `Registered`, every nullable field `null`). */
  function NewAttendance(id: Id, userId: Id, trainingId: Id): (a: Attendance)
    ensures a.status == Registered && a.checkInTime.None? && a.attendanceMethod.None?
    ensures a.verifiedBy.None? && a.verifiedAt.None? && a.notes.None?
  {
    Attendance(id, userId, trainingId, Registered, None, None, None, None, None, None)
  }

  /** A fresh declaration with the column defaults: compliant, no compliance notes. */
  function NewDeclaration(id: Id, attendanceId: Id, content: string, submittedAt: Timestamp,
                          ip: Option<string>, agent: Option<string>, signature: Option<string>): (d: Declaration)
    ensures d.isCompliant && d.complianceNotes.None?
  {
    Declaration(id, attendanceId, content, submittedAt, ip, agent, signature, true, None)
  }

  /** The database: one sequence per table, in insertion order, plus the source of
      fresh primary keys. */
  datatype Store = Store(
    users: seq<User>,
    roles: seq<Role>,
    trainings: seq<Training>,
    attendances: seq<Attendance>,
    declarations: seq<Declaration>,
    nextId: Id)

  // ---------------------------------------------------------------- lookups

  /** `Training.findByPk(id)`. */
  function FindTraining(ts: seq<Training>, id: Id): (r: Option<Training>)
    ensures r.Some? ==> r.value in ts && r.value.id == id
    ensures r.None? <==> forall t :: t in ts ==> t.id != id
  {
    var i := FirstIndex(ts, (t: Training) => t.id == id);
    if i < |ts| then Some(ts[i]) else None
  }

  /** `User.findByPk(id)`. */
  function FindUser(us: seq<User>, id: Id): (r: Option<User>)
    ensures r.Some? ==> r.value in us && r.value.id == id
    ensures r.None? <==> forall u :: u in us ==> u.id != id
  {
    var i := FirstIndex(us, (u: User) => u.id == id);
    if i < |us| then Some(us[i]) else None
  }

  function FindRole(rs: seq<Role>, id: Id): (r: Option<Role>)
    ensures r.Some? ==> r.value in rs && r.value.id == id
    ensures r.None? <==> forall x :: x in rs ==> x.id != id
  {
    var i := FirstIndex(rs, (x: Role) => x.id == id);
    if i < |rs| then Some(rs[i]) else None
  }

  predicate IsPair(a: Attendance, userId: Id, trainingId: Id) {
    a.userId == userId && a.trainingId == trainingId
  }

  /** Position of `Attendance.findOne({ where: { UserId, TrainingId } })`, or
      `|recs|` when there is no such record. */
  function PairIndex(recs: seq<Attendance>, userId: Id, trainingId: Id): (i: nat)
    ensures i <= |recs|
    ensures i < |recs| ==> IsPair(recs[i], userId, trainingId)
    ensures i == |recs| <==> forall a :: a in recs ==> !IsPair(a, userId, trainingId)
  {
    FirstIndex(recs, (a: Attendance) => IsPair(a, userId, trainingId))
  }

  /** The pair already has a record. */
  predicate HasRecord(recs: seq<Attendance>, userId: Id, trainingId: Id) {
    PairIndex(recs, userId, trainingId) < |recs|
  }

  /** Records belonging to one training, whatever their status. */
  function RecordsOf(recs: seq<Attendance>, trainingId: Id): seq<Attendance> {
    Filter(recs, (a: Attendance) => a.trainingId == trainingId)
  }

  /** `Declaration.findOne({ where: { AttendanceId } })` found something. */
  predicate HasDeclaration(ds: seq<Declaration>, attendanceId: Id) {
    exists d :: d in ds && d.attendanceId == attendanceId
  }

  // ---------------------------------------------------------- store invariant

  predicate TrainingIdsUnique(ts: seq<Training>) {
    forall i, j :: 0 <= i < j < |ts| ==> ts[i].id != ts[j].id
  }

  predicate AttendanceIdsUnique(recs: seq<Attendance>) {
    forall i, j :: 0 <= i < j < |recs| ==> recs[i].id != recs[j].id
  }

  predicate DeclarationIdsUnique(ds: seq<Declaration>) {
    forall i, j :: 0 <= i < j < |ds| ==> ds[i].id != ds[j].id
  }

  /** Every key handed out so far is below the counter. */
  predicate IdsBelow(s: Store) {
    && (forall t :: t in s.trainings ==> t.id < s.nextId)
    && (forall a :: a in s.attendances ==> a.id < s.nextId)
    && (forall d :: d in s.declarations ==> d.id < s.nextId)
  }

  /** At most one attendance record per (user, training) pair. */
  predicate OneRecordPerPair(recs: seq<Attendance>) {
    forall i, j :: 0 <= i < j < |recs| ==>
      !(recs[i].userId == recs[j].userId && recs[i].trainingId == recs[j].trainingId)
  }

  /** At most one declaration per attendance (`Attendance.hasOne(Declaration)`). */
  predicate OneDeclarationPerAttendance(ds: seq<Declaration>) {
    forall i, j :: 0 <= i < j < |ds| ==> ds[i].attendanceId != ds[j].attendanceId
  }

  /** Each attendance belongs to an existing training and user; each declaration to
      an existing attendance (the `belongsTo` foreign keys). */
  predicate ForeignKeysHold(s: Store) {
    && (forall a :: a in s.attendances ==> FindTraining(s.trainings, a.trainingId).Some?)
    && (forall a :: a in s.attendances ==> FindUser(s.users, a.userId).Some?)
    && (forall d :: d in s.declarations ==>
          exists a :: a in s.attendances && a.id == d.attendanceId)
  }

  /** The invariant every controller operation preserves. */
  predicate Valid(s: Store) {
    && TrainingIdsUnique(s.trainings)
    && AttendanceIdsUnique(s.attendances)
    && DeclarationIdsUnique(s.declarations)
    && IdsBelow(s)
    && OneRecordPerPair(s.attendances)
    && OneDeclarationPerAttendance(s.declarations)
    && ForeignKeysHold(s)
  }

  /** The empty database satisfies the invariant. */
  lemma EmptyStoreValid(users: seq<User>, roles: seq<Role>)
    ensures Valid(Store(users, roles, [], [], [], 0))
  {
  }

  /** Under the invariant a (user, training) pair has either no record or exactly one. */
  lemma {:induction false} AtMostOneRecord(recs: seq<Attendance>, userId: Id, trainingId: Id)
    requires OneRecordPerPair(recs)
    ensures Count(recs, (a: Attendance) => IsPair(a, userId, trainingId)) <= 1
  {
    var p := (a: Attendance) => IsPair(a, userId, trainingId);
    if |recs| > 0 {
      var rest := recs[1..];
      assert OneRecordPerPair(rest) by {
        forall i, j | 0 <= i < j < |rest|
          ensures !(rest[i].userId == rest[j].userId && rest[i].trainingId == rest[j].trainingId)
        {
          assert rest[i] == recs[i + 1] && rest[j] == recs[j + 1];
        }
      }
      AtMostOneRecord(rest, userId, trainingId);
      if p(recs[0]) {
        assert forall k :: 0 <= k < |rest| ==> !p(rest[k]) by {
          forall k | 0 <= k < |rest| ensures !p(rest[k]) {
            assert rest[k] == recs[k + 1];
          }
        }
        assert forall x :: x in rest ==> !p(x);
        FilterNone(rest, p);
      }
    }
  }

  // ------------------------------------------------ invariant-keeping writes

  /** Appending a record whose key is above every existing one and whose pair
      is new keeps keys and pairs distinct. */
  lemma AppendAttendanceKeys(recs: seq<Attendance>, a: Attendance)
    requires AttendanceIdsUnique(recs) && OneRecordPerPair(recs)
    requires forall b :: b in recs ==> b.id < a.id && !IsPair(b, a.userId, a.trainingId)
    ensures AttendanceIdsUnique(recs + [a]) && OneRecordPerPair(recs + [a])
  {
    var recs' := recs + [a];
    forall i, j | 0 <= i < j < |recs'|
      ensures recs'[i].id != recs'[j].id
      ensures !(recs'[i].userId == recs'[j].userId && recs'[i].trainingId == recs'[j].trainingId)
    {
      assert recs'[i] == recs[i] && recs[i] in recs;
      if j < |recs| {
        assert recs'[j] == recs[j];
      } else {
        assert recs'[j] == a;
      }
    }
  }

  /** Appending a record for an existing training and user keeps every reference
      resolvable and every key below the advanced counter. */
  lemma AppendAttendanceRefs(s: Store, a: Attendance)
    requires IdsBelow(s) && ForeignKeysHold(s)
    requires a.id == s.nextId
    requires FindTraining(s.trainings, a.trainingId).Some? && FindUser(s.users, a.userId).Some?
    ensures var s' := s.(attendances := s.attendances + [a], nextId := s.nextId + 1);
      IdsBelow(s') && ForeignKeysHold(s')
  {
    var s' := s.(attendances := s.attendances + [a], nextId := s.nextId + 1);
    var recs := s'.attendances;
    forall b | b in recs
      ensures b.id < s'.nextId
      ensures FindTraining(s'.trainings, b.trainingId).Some? && FindUser(s'.users, b.userId).Some?
    {
      if b != a {
        assert b in s.attendances;
      }
    }
    forall d | d in s'.declarations
      ensures exists b :: b in recs && b.id == d.attendanceId
    {
      var b :| b in s.attendances && b.id == d.attendanceId;
      assert b in recs;
    }
  }

  /** Inserting a record with a fresh key, for a pair that has none, whose
      training and user exist, keeps the invariant. */
  lemma ValidAfterInsertAttendance(s: Store, a: Attendance)
    requires Valid(s)
    requires a.id == s.nextId
    requires !HasRecord(s.attendances, a.userId, a.trainingId)
    requires FindTraining(s.trainings, a.trainingId).Some? && FindUser(s.users, a.userId).Some?
    ensures Valid(s.(attendances := s.attendances + [a], nextId := s.nextId + 1))
  {
    var s' := s.(attendances := s.attendances + [a], nextId := s.nextId + 1);
    assert forall b :: b in s.attendances ==> b.id < a.id && !IsPair(b, a.userId, a.trainingId);
    AppendAttendanceKeys(s.attendances, a);
    AppendAttendanceRefs(s, a);
    assert TrainingIdsUnique(s'.trainings) && DeclarationIdsUnique(s'.declarations)
      && OneDeclarationPerAttendance(s'.declarations);
  }

  /** Rewriting a record's non-key fields keeps keys and pairs distinct. */
  lemma UpdateAttendanceKeys(recs: seq<Attendance>, i: nat, a: Attendance)
    requires AttendanceIdsUnique(recs) && OneRecordPerPair(recs)
    requires i < |recs| && a.id == recs[i].id && a.userId == recs[i].userId && a.trainingId == recs[i].trainingId
    ensures AttendanceIdsUnique(recs[i := a]) && OneRecordPerPair(recs[i := a])
  {
    var recs' := recs[i := a];
    assert forall k :: 0 <= k < |recs| ==>
      recs'[k].id == recs[k].id && recs'[k].userId == recs[k].userId && recs'[k].trainingId == recs[k].trainingId;
  }

  /** Rewriting a record's non-key fields leaves every declaration's attendance
      in place. */
  lemma UpdateAttendanceDeclarations(ds: seq<Declaration>, recs: seq<Attendance>, i: nat, a: Attendance)
    requires forall d :: d in ds ==> exists b :: b in recs && b.id == d.attendanceId
    requires i < |recs| && a.id == recs[i].id
    ensures forall d :: d in ds ==> exists b :: b in recs[i := a] && b.id == d.attendanceId
  {
    var recs' := recs[i := a];
    forall d | d in ds
      ensures exists b :: b in recs' && b.id == d.attendanceId
    {
      var b :| b in recs && b.id == d.attendanceId;
      var k := PositionOf(recs, b);
      assert recs'[k] in recs' && recs'[k].id == b.id;
    }
  }

  /** Rewriting a record's non-key fields keeps every reference resolvable. */
  lemma UpdateAttendanceRefs(s: Store, i: nat, a: Attendance)
    requires IdsBelow(s) && ForeignKeysHold(s)
    requires i < |s.attendances|
    requires a.id == s.attendances[i].id
    requires a.userId == s.attendances[i].userId && a.trainingId == s.attendances[i].trainingId
    ensures var s' := s.(attendances := s.attendances[i := a]);
      IdsBelow(s') && ForeignKeysHold(s')
  {
    var s' := s.(attendances := s.attendances[i := a]);
    var recs, recs' := s.attendances, s'.attendances;
    UpdateAttendanceDeclarations(s.declarations, recs, i, a);
    forall b | b in recs'
      ensures b.id < s'.nextId && FindTraining(s'.trainings, b.trainingId).Some? && FindUser(s'.users, b.userId).Some?
    {
      var k := PositionOf(recs', b);
      assert recs[k] in recs;
    }
  }

  /** Rewriting a record's non-key fields in place keeps the invariant. */
  lemma ValidAfterUpdateAttendance(s: Store, i: nat, a: Attendance)
    requires Valid(s)
    requires i < |s.attendances|
    requires a.id == s.attendances[i].id
    requires a.userId == s.attendances[i].userId && a.trainingId == s.attendances[i].trainingId
    ensures Valid(s.(attendances := s.attendances[i := a]))
  {
    var s' := s.(attendances := s.attendances[i := a]);
    UpdateAttendanceKeys(s.attendances, i, a);
    UpdateAttendanceRefs(s, i, a);
    assert TrainingIdsUnique(s'.trainings) && DeclarationIdsUnique(s'.declarations)
      && OneDeclarationPerAttendance(s'.declarations);
  }

  /** Inserting a declaration with a fresh key for an existing, undeclared
      attendance keeps the invariant. */
  lemma ValidAfterInsertDeclaration(s: Store, d: Declaration)
    requires Valid(s)
    requires d.id == s.nextId
    requires exists a :: a in s.attendances && a.id == d.attendanceId
    requires !HasDeclaration(s.declarations, d.attendanceId)
    ensures Valid(s.(declarations := s.declarations + [d], nextId := s.nextId + 1))
  {
    var s' := s.(declarations := s.declarations + [d], nextId := s.nextId + 1);
    var ds := s'.declarations;
    assert DeclarationIdsUnique(ds) && OneDeclarationPerAttendance(ds) by {
      forall i, j | 0 <= i < j < |ds|
        ensures ds[i].id != ds[j].id && ds[i].attendanceId != ds[j].attendanceId
      {
        assert ds[i] == s.declarations[i] && s.declarations[i] in s.declarations;
        if j < |s.declarations| {
          assert ds[j] == s.declarations[j];
        } else {
          assert ds[j] == d;
        }
      }
    }
    assert IdsBelow(s') by {
      forall e | e in ds ensures e.id < s'.nextId {
        if e != d {
          assert e in s.declarations;
        }
      }
    }
    assert ForeignKeysHold(s') by {
      forall e | e in ds
        ensures exists a :: a in s'.attendances && a.id == e.attendanceId
      {
        if e != d {
          assert e in s.declarations;
        }
      }
    }
  }

  /** Adding a training with a fresh key keeps the invariant. */
  lemma ValidAfterInsertTraining(s: Store, t: Training)
    requires Valid(s)
    requires t.id == s.nextId
    ensures Valid(s.(trainings := s.trainings + [t], nextId := s.nextId + 1))
  {
    var s' := s.(trainings := s.trainings + [t], nextId := s.nextId + 1);
    var ts := s'.trainings;
    assert TrainingIdsUnique(ts) by {
      forall i, j | 0 <= i < j < |ts| ensures ts[i].id != ts[j].id {
        assert ts[i] == s.trainings[i] && s.trainings[i] in s.trainings;
        if j < |s.trainings| {
          assert ts[j] == s.trainings[j];
        }
      }
    }
    assert IdsBelow(s') by {
      forall x | x in ts ensures x.id < s'.nextId {
        if x != t {
          assert x in s.trainings;
        }
      }
    }
    assert ForeignKeysHold(s') by {
      forall a | a in s'.attendances ensures FindTraining(ts, a.trainingId).Some? {
        assert FindTraining(s.trainings, a.trainingId).value in ts;
      }
    }
  }

  /** Rewriting a training's non-key fields in place keeps the invariant. */
  lemma ValidAfterUpdateTraining(s: Store, i: nat, t: Training)
    requires Valid(s)
    requires i < |s.trainings| && t.id == s.trainings[i].id
    ensures Valid(s.(trainings := s.trainings[i := t]))
  {
    var s' := s.(trainings := s.trainings[i := t]);
    var ts := s'.trainings;
    assert s.trainings[i] in s.trainings;
    assert IdsBelow(s') by {
      forall x | x in ts ensures x.id < s'.nextId {
        var k :| 0 <= k < |ts| && ts[k] == x;
        assert s.trainings[k] in s.trainings;
      }
    }
    assert ForeignKeysHold(s') by {
      forall a | a in s'.attendances ensures FindTraining(ts, a.trainingId).Some? {
        var x := FindTraining(s.trainings, a.trainingId).value;
        var k :| 0 <= k < |s.trainings| && s.trainings[k] == x;
        assert ts[k] in ts;
      }
    }
  }

  /** With distinct keys, cutting out position `i` removes exactly the training
      with that key. */
  lemma RemoveAtMembers(ts: seq<Training>, i: nat)
    requires TrainingIdsUnique(ts)
    requires i < |ts|
    ensures |ts[..i] + ts[i + 1..]| == |ts| - 1
    ensures forall t :: t in ts[..i] + ts[i + 1..] <==> t in ts && t.id != ts[i].id
  {
    var r := ts[..i] + ts[i + 1..];
    assert forall k :: 0 <= k < |r| ==> r[k] == ts[if k < i then k else k + 1];
    forall t | t in ts && t.id != ts[i].id ensures t in r {
      var k :| 0 <= k < |ts| && ts[k] == t;
      assert r[if k < i then k else k - 1] == t;
    }
    forall t | t in r ensures t.id != ts[i].id {
      var k :| 0 <= k < |r| && r[k] == t;
      var k' := if k < i then k else k + 1;
      assert ts[k'] == t && k' != i;
    }
  }

  /** Cutting out one position keeps the remaining keys distinct. */
  lemma RemoveTrainingKeys(ts: seq<Training>, i: nat)
    requires TrainingIdsUnique(ts) && i < |ts|
    ensures TrainingIdsUnique(ts[..i] + ts[i + 1..])
  {
    var r := ts[..i] + ts[i + 1..];
    forall p, q | 0 <= p < q < |r| ensures r[p].id != r[q].id {
      var p' := if p < i then p else p + 1;
      var q' := if q < i then q else q + 1;
      assert r[p] == ts[p'] && r[q] == ts[q'];
    }
  }

  /** A record that does not reference the removed training still finds its own. */
  lemma RemoveTrainingRefs(ts: seq<Training>, i: nat, recs: seq<Attendance>)
    requires TrainingIdsUnique(ts) && i < |ts|
    requires forall a :: a in recs ==> FindTraining(ts, a.trainingId).Some?
    requires forall a :: a in recs ==> a.trainingId != ts[i].id
    ensures forall a :: a in recs ==> FindTraining(ts[..i] + ts[i + 1..], a.trainingId).Some?
  {
    RemoveAtMembers(ts, i);
    forall a | a in recs ensures FindTraining(ts[..i] + ts[i + 1..], a.trainingId).Some? {
      var x := FindTraining(ts, a.trainingId).value;
      assert x in ts && x.id == a.trainingId;
    }
  }

  /** Removing the training at position `i`, which no attendance references,
      keeps the invariant. */
  lemma ValidAfterRemoveTraining(s: Store, i: nat)
    requires Valid(s)
    requires i < |s.trainings|
    requires forall a :: a in s.attendances ==> a.trainingId != s.trainings[i].id
    ensures Valid(s.(trainings := s.trainings[..i] + s.trainings[i + 1..]))
  {
    var ts := s.trainings[..i] + s.trainings[i + 1..];
    var s' := s.(trainings := ts);
    RemoveTrainingKeys(s.trainings, i);
    RemoveTrainingRefs(s.trainings, i, s.attendances);
    RemoveAtMembers(s.trainings, i);
    assert IdsBelow(s');
    assert ForeignKeysHold(s');
  }
}
