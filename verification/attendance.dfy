/** The attendance lifecycle of `attendance.controller.js`: registration, walk-up
    check-in, declaration submission and the administrator's manual override,
    each a transition of the store with the same checks in the same order as the
    controller. `now` stands for `new Date()`; `delivered` says whether the mail
    transport accepts the confirmation. */
module AttendanceController {
  import opened Basics
  import opened Strings
  import opened Seqs
  import opened Models
  import opened Errors
  import opened Notifications
  import opened Outcomes

  /** `Attendance.create({ UserId, TrainingId, status: 'registered' })`. The
      `belongsTo` foreign keys reject a row whose training or user is missing. */
  function CreateAttendance(s: Store, userId: Id, trainingId: Id): (r: Result<Store, ApiError>)
    ensures r.Err? <==> FindTraining(s.trainings, trainingId).None? || FindUser(s.users, userId).None?
    ensures r.Err? ==> r.error == ForeignKeyViolation
    ensures r.Ok? ==> r.value == s.(attendances := s.attendances + [NewAttendance(s.nextId, userId, trainingId)],
                                     nextId := s.nextId + 1)
  {
    if FindTraining(s.trainings, trainingId).None? || FindUser(s.users, userId).None? then Err(ForeignKeyViolation)
    else Ok(s.(attendances := s.attendances + [NewAttendance(s.nextId, userId, trainingId)], nextId := s.nextId + 1))
  }

  /** Appending the pair's first record makes that record the one `findOne` returns. */
  lemma PairIndexAfterAppend(recs: seq<Attendance>, a: Attendance)
    requires !HasRecord(recs, a.userId, a.trainingId)
    ensures PairIndex(recs + [a], a.userId, a.trainingId) == |recs|
  {
    var r := recs + [a];
    assert r[|recs|] == a;
    assert forall k :: 0 <= k < |recs| ==> r[k] == recs[k] && recs[k] in recs;
  }

  /** Rewriting the pair's record in place leaves it where `findOne` finds it. */
  lemma PairIndexAfterUpdate(recs: seq<Attendance>, i: nat, a: Attendance)
    requires i == PairIndex(recs, a.userId, a.trainingId) < |recs|
    ensures PairIndex(recs[i := a], a.userId, a.trainingId) == i
  {
    var r := recs[i := a];
    assert r[i] == a && IsPair(a, a.userId, a.trainingId);
    assert forall k :: 0 <= k < i ==> r[k] == recs[k] && !IsPair(r[k], a.userId, a.trainingId);
  }

  /** The `findOne`-then-`create` step of check-in and of the manual override:
      the store afterwards and the position of the pair's record in it. */
  function FindOrCreate(s: Store, userId: Id, trainingId: Id): (r: Result<(Store, nat), ApiError>)
    ensures r.Err? <==> !HasRecord(s.attendances, userId, trainingId)
                        && (FindTraining(s.trainings, trainingId).None? || FindUser(s.users, userId).None?)
    ensures r.Err? ==> r.error == ForeignKeyViolation
    ensures r.Ok? ==> r.value.1 == PairIndex(r.value.0.attendances, userId, trainingId) < |r.value.0.attendances|
    ensures r.Ok? && HasRecord(s.attendances, userId, trainingId) ==> r.value.0 == s
    ensures r.Ok? && !HasRecord(s.attendances, userId, trainingId) ==>
      r.value.0 == s.(attendances := s.attendances + [NewAttendance(s.nextId, userId, trainingId)], nextId := s.nextId + 1)
  {
    var i := PairIndex(s.attendances, userId, trainingId);
    if i < |s.attendances| then Ok((s, i))
    else match CreateAttendance(s, userId, trainingId)
      case Err(e) => Err(e)
      case Ok(s1) =>
        PairIndexAfterAppend(s.attendances, NewAttendance(s.nextId, userId, trainingId));
        Ok((s1, i))
  }

  // ------------------------------------------------------------ registration

  /** `if (training.capacity)`: a capacity of `null` or `0` means no limit. */
  predicate CapacityLimited(t: Training) {
    t.capacity.Some? && t.capacity.value != 0
  }

  /** `Attendance.count({ where: { TrainingId } }) >= training.capacity`: records of
      every status count, canceled ones included. */
  predicate AtCapacity(recs: seq<Attendance>, t: Training) {
    CapacityLimited(t) && |RecordsOf(recs, t.id)| >= t.capacity.value
  }

  /** `registerForTraining`. The checks run in this order: the training exists,
      it has not started, it is not full, the caller has no record for it. The
      record is written before the confirmation is sent, so a failed send reports
      an error but the registration stays. */
  function Register(s: Store, userId: Id, trainingId: Id, now: Timestamp, delivered: bool): (o: Outcome<Attendance>)
    ensures FindTraining(s.trainings, trainingId).None? ==> o == Fail(s, TrainingNotFound)
    ensures FindTraining(s.trainings, trainingId).Some? ==>
      var t := FindTraining(s.trainings, trainingId).value;
      && (t.startDate < now ==> o == Fail(s, PastTraining))
      && (now <= t.startDate && AtCapacity(s.attendances, t) ==> o == Fail(s, FullCapacity))
      && (now <= t.startDate && !AtCapacity(s.attendances, t) && HasRecord(s.attendances, userId, trainingId) ==>
            o == Fail(s, AlreadyRegistered))
      && (now <= t.startDate && !AtCapacity(s.attendances, t) && !HasRecord(s.attendances, userId, trainingId) ==>
            |o.outbox| <= 1 && (o.outbox != [] <==> FindUser(s.users, userId).Some?)
            && (o.outbox != [] ==> o.outbox[0] == RegistrationNotice(t, FindUser(s.users, userId).value)))
    // every check passed: an unknown user is refused by the foreign key, a known
    // one gets the record, kept whether or not the confirmation goes out
    ensures FindTraining(s.trainings, trainingId).Some? ==>
      var t := FindTraining(s.trainings, trainingId).value;
      now <= t.startDate && !AtCapacity(s.attendances, t) && !HasRecord(s.attendances, userId, trainingId) ==>
        && (FindUser(s.users, userId).None? ==> o == Fail(s, ForeignKeyViolation))
        && (FindUser(s.users, userId).Some? ==>
              && o.store == s.(attendances := s.attendances + [NewAttendance(s.nextId, userId, trainingId)],
                               nextId := s.nextId + 1)
              && o.result == (if delivered then Ok(NewAttendance(s.nextId, userId, trainingId)) else Err(DeliveryFailed)))
    ensures o.store == s || o.store == s.(attendances := s.attendances + [NewAttendance(s.nextId, userId, trainingId)],
                                          nextId := s.nextId + 1)
    ensures o.result.Ok? ==> o.store != s && o.result.value == NewAttendance(s.nextId, userId, trainingId)
    ensures o.result.Ok? <==> o.store != s && delivered
    ensures o.store != s && o.result.Err? ==> o.result.error == DeliveryFailed
  {
    var ot := FindTraining(s.trainings, trainingId);
    if ot.None? then Fail(s, TrainingNotFound)
    else
      var t := ot.value;
      if t.startDate < now then Fail(s, PastTraining)
      else if AtCapacity(s.attendances, t) then Fail(s, FullCapacity)
      else if HasRecord(s.attendances, userId, trainingId) then Fail(s, AlreadyRegistered)
      else match CreateAttendance(s, userId, trainingId)
        case Err(e) => Fail(s, e)
        case Ok(s1) =>
          var a := NewAttendance(s.nextId, userId, trainingId);
          var n := RegistrationNotice(t, FindUser(s.users, userId).value);
          match SendNotification(n, delivered)
          case Ok(_) => Outcome(s1, Ok(a), [n])
          case Err(e) => Outcome(s1, Err(e), [n])
  }

  /** Registration keeps the store invariant, so in particular a pair never gets
      a second record. */
  lemma RegisterPreservesValid(s: Store, userId: Id, trainingId: Id, now: Timestamp, delivered: bool)
    requires Valid(s)
    ensures Valid(Register(s, userId, trainingId, now, delivered).store)
  {
    var o := Register(s, userId, trainingId, now, delivered);
    if o.store != s {
      ValidAfterInsertAttendance(s, NewAttendance(s.nextId, userId, trainingId));
    }
  }

  /** A registration that writes a record never takes a limited session past its
      capacity. */
  lemma {:induction false} RegisterRespectsCapacity(s: Store, userId: Id, trainingId: Id, now: Timestamp, delivered: bool)
    requires FindTraining(s.trainings, trainingId).Some?
    requires CapacityLimited(FindTraining(s.trainings, trainingId).value)
    requires Register(s, userId, trainingId, now, delivered).store != s
    ensures |RecordsOf(Register(s, userId, trainingId, now, delivered).store.attendances, trainingId)|
            <= FindTraining(s.trainings, trainingId).value.capacity.value
  {
    var t := FindTraining(s.trainings, trainingId).value;
    var a := NewAttendance(s.nextId, userId, trainingId);
    FilterSnoc(s.attendances, a, (b: Attendance) => b.trainingId == trainingId);
  }

  /** Once a registration has written its record, registering the same pair
      again fails and writes nothing, whatever the time or the transport. */
  lemma RegisterTwiceFails(s: Store, userId: Id, trainingId: Id, now: Timestamp, now': Timestamp, d: bool, d': bool)
    requires Register(s, userId, trainingId, now, d).store != s
    ensures var s1 := Register(s, userId, trainingId, now, d).store;
            var o := Register(s1, userId, trainingId, now', d');
            o.result.Err? && o.store == s1 && o.outbox == []
  {
    var s1 := Register(s, userId, trainingId, now, d).store;
    PairIndexAfterAppend(s.attendances, NewAttendance(s.nextId, userId, trainingId));
    assert HasRecord(s1.attendances, userId, trainingId);
  }

  // ---------------------------------------------------------------- check-in

  /** `method || 'manual'`, then the ENUM column's check at `save()`. */
  function CheckInMethod(requested: Option<string>): (r: Option<AttendanceMethod>)
    ensures !Truthy(requested) ==> r == Some(Manual)
    ensures Truthy(requested) ==> (r.Some? <==> exists m :: AttendanceMethodName(m) == requested.value)
    ensures Truthy(requested) && r.Some? ==> AttendanceMethodName(r.value) == requested.value
  {
    if Truthy(requested) then
      var r := ParseAttendanceMethod(requested.value);
      assert r.Some? ==> AttendanceMethodName(r.value) == requested.value;
      r
    else Some(Manual)
  }

  /** The fields `checkInToTraining` assigns before `save()`. */
  function CheckedIn(a: Attendance, m: AttendanceMethod, now: Timestamp): Attendance {
    a.(status := Attended, checkInTime := Some(now), attendanceMethod := Some(m))
  }

  /** `checkInToTraining`. A walk-up without a record gets one, with no capacity
      check; an existing record is re-stamped even when already attended. An
      unknown method string fails at `save()`, after a walk-up record was
      written. */
  function CheckIn(s: Store, userId: Id, trainingId: Id, requested: Option<string>, now: Timestamp): (o: Outcome<Attendance>)
    ensures FindTraining(s.trainings, trainingId).None? ==> o == Fail(s, TrainingNotFound)
    ensures o.outbox == []
    ensures o.result.Ok? <==>
      && FindTraining(s.trainings, trainingId).Some?
      && CheckInMethod(requested).Some?
      && (HasRecord(s.attendances, userId, trainingId) || FindUser(s.users, userId).Some?)
    ensures o.result.Ok? ==>
      var a := o.result.value;
      var i := PairIndex(o.store.attendances, userId, trainingId);
      && IsPair(a, userId, trainingId)
      && a.status == Attended && a.checkInTime == Some(now) && a.attendanceMethod == CheckInMethod(requested)
      && i < |o.store.attendances| && o.store.attendances[i] == a
      && (HasRecord(s.attendances, userId, trainingId) ==>
            a == CheckedIn(s.attendances[PairIndex(s.attendances, userId, trainingId)], CheckInMethod(requested).value, now))
    ensures o.result.Err? && HasRecord(s.attendances, userId, trainingId) ==> o.store == s
    ensures o.result.Err? && !HasRecord(s.attendances, userId, trainingId)
            && FindTraining(s.trainings, trainingId).Some? && FindUser(s.users, userId).Some? ==>
      o.result.error == InvalidEnumValue
      && o.store == s.(attendances := s.attendances + [NewAttendance(s.nextId, userId, trainingId)], nextId := s.nextId + 1)
  {
    if FindTraining(s.trainings, trainingId).None? then Fail(s, TrainingNotFound)
    else match FindOrCreate(s, userId, trainingId)
      case Err(e) => Fail(s, e)
      case Ok((s1, i)) =>
        match CheckInMethod(requested)
        case None => Outcome(s1, Err(InvalidEnumValue), [])
        case Some(m) =>
          var a := CheckedIn(s1.attendances[i], m, now);
          PairIndexAfterUpdate(s1.attendances, i, a);
          Outcome(s1.(attendances := s1.attendances[i := a]), Ok(a), [])
  }

  /** Check-in leaves the other tables alone and adds a record only when the
      pair had none, with the next key. */
  lemma CheckInFrame(s: Store, userId: Id, trainingId: Id, requested: Option<string>, now: Timestamp)
    ensures var o := CheckIn(s, userId, trainingId, requested, now);
      && o.store.trainings == s.trainings && o.store.users == s.users && o.store.declarations == s.declarations
      && |s.attendances| <= |o.store.attendances| <= |s.attendances| + 1
      && (|o.store.attendances| == |s.attendances| + 1 ==>
            !HasRecord(s.attendances, userId, trainingId) && o.store.nextId == s.nextId + 1
            && o.store.attendances[|s.attendances|].id == s.nextId)
  {
    if FindTraining(s.trainings, trainingId).Some? {
      var r := FindOrCreate(s, userId, trainingId);
      if r.Ok? {
        var (s1, i) := r.value;
        var m := CheckInMethod(requested);
        if m.Some? {
          var a := CheckedIn(s1.attendances[i], m.value, now);
          assert CheckIn(s, userId, trainingId, requested, now).store == s1.(attendances := s1.attendances[i := a]);
        }
      }
    }
  }

  /** Check-in rewrites only the pair's record: every record of another pair
      keeps its place and its contents. */
  lemma CheckInKeepsOthers(s: Store, userId: Id, trainingId: Id, requested: Option<string>, now: Timestamp)
    ensures var o := CheckIn(s, userId, trainingId, requested, now);
      forall k :: 0 <= k < |s.attendances| && !IsPair(s.attendances[k], userId, trainingId) ==>
        k < |o.store.attendances| && o.store.attendances[k] == s.attendances[k]
  {
    if FindTraining(s.trainings, trainingId).Some? {
      var r := FindOrCreate(s, userId, trainingId);
      if r.Ok? {
        var (s1, i) := r.value;
        assert IsPair(s1.attendances[i], userId, trainingId);
        assert forall k :: 0 <= k < |s.attendances| ==> k < |s1.attendances| && s1.attendances[k] == s.attendances[k];
        var m := CheckInMethod(requested);
        if m.Some? {
          var a := CheckedIn(s1.attendances[i], m.value, now);
          assert CheckIn(s, userId, trainingId, requested, now).store == s1.(attendances := s1.attendances[i := a]);
        }
      }
    }
  }

  lemma CheckInPreservesValid(s: Store, userId: Id, trainingId: Id, requested: Option<string>, now: Timestamp)
    requires Valid(s)
    ensures Valid(CheckIn(s, userId, trainingId, requested, now).store)
  {
    if FindTraining(s.trainings, trainingId).Some? {
      var r := FindOrCreate(s, userId, trainingId);
      if r.Ok? {
        var (s1, i) := r.value;
        if !HasRecord(s.attendances, userId, trainingId) {
          ValidAfterInsertAttendance(s, NewAttendance(s.nextId, userId, trainingId));
        }
        if CheckInMethod(requested).Some? {
          ValidAfterUpdateAttendance(s1, i, CheckedIn(s1.attendances[i], CheckInMethod(requested).value, now));
        }
      }
    }
  }

  // ------------------------------------------------------------- declaration

  /** `Attendance.findOne({ where: { id, UserId } })`: the caller's own record with that key. */
  function OwnRecordIndex(recs: seq<Attendance>, callerId: Id, attendanceId: Id): (i: nat)
    ensures i <= |recs|
    ensures i < |recs| ==> recs[i].id == attendanceId && recs[i].userId == callerId
    ensures i == |recs| <==> forall a :: a in recs ==> !(a.id == attendanceId && a.userId == callerId)
  {
    FirstIndex(recs, (a: Attendance) => a.id == attendanceId && a.userId == callerId)
  }

  /** The status repair after a declaration: a record that is not yet attended
      becomes attended and self-declared, keeping any check-in time it had. */
  function DeclarationRepair(a: Attendance, now: Timestamp): (r: Attendance)
    ensures a.status == Attended ==> r == a
    ensures a.status != Attended ==>
      r == a.(status := Attended, checkInTime := Some(a.checkInTime.GetOr(now)), attendanceMethod := Some(SelfDeclared))
  {
    if a.status != Attended then
      a.(status := Attended, checkInTime := Some(a.checkInTime.GetOr(now)), attendanceMethod := Some(SelfDeclared))
    else a
  }

  /** `submitDeclaration`. The record must be the caller's; a second declaration
      is refused; `content` is a required column. On success the new declaration
      is stored and the record repaired as `DeclarationRepair` says. */
  function SubmitDeclaration(s: Store, callerId: Id, attendanceId: Id, content: Option<string>, signature: Option<string>,
                             ip: Option<string>, agent: Option<string>, now: Timestamp): (o: Outcome<Declaration>)
    ensures o.outbox == []
    ensures OwnRecordIndex(s.attendances, callerId, attendanceId) == |s.attendances| ==> o == Fail(s, AttendanceNotFound)
    ensures OwnRecordIndex(s.attendances, callerId, attendanceId) < |s.attendances| ==>
      && (HasDeclaration(s.declarations, attendanceId) ==> o == Fail(s, DeclarationExists))
      && (!HasDeclaration(s.declarations, attendanceId) && content.None? ==> o == Fail(s, MissingRequiredField))
      && (!HasDeclaration(s.declarations, attendanceId) && content.Some? ==> o.result.Ok?)
    ensures o.result.Err? ==> o.store == s
    ensures o.result.Ok? ==>
      var d := o.result.value;
      var i := OwnRecordIndex(s.attendances, callerId, attendanceId);
      && i < |s.attendances| && !HasDeclaration(s.declarations, attendanceId) && content.Some?
      && d == NewDeclaration(s.nextId, attendanceId, content.value, now, ip, agent, signature)
      && o.store.declarations == s.declarations + [d]
      && o.store.attendances == s.attendances[i := DeclarationRepair(s.attendances[i], now)]
      && o.store.trainings == s.trainings && o.store.users == s.users
  {
    var i := OwnRecordIndex(s.attendances, callerId, attendanceId);
    if i == |s.attendances| then Fail(s, AttendanceNotFound)
    else if HasDeclaration(s.declarations, attendanceId) then Fail(s, DeclarationExists)
    else if content.None? then Fail(s, MissingRequiredField)
    else
      var d := NewDeclaration(s.nextId, attendanceId, content.value, now, ip, agent, signature);
      var s1 := s.(declarations := s.declarations + [d], nextId := s.nextId + 1);
      Outcome(s1.(attendances := s.attendances[i := DeclarationRepair(s.attendances[i], now)]), Ok(d), [])
  }

  lemma SubmitDeclarationPreservesValid(s: Store, callerId: Id, attendanceId: Id, content: Option<string>,
                                        signature: Option<string>, ip: Option<string>, agent: Option<string>, now: Timestamp)
    requires Valid(s)
    ensures Valid(SubmitDeclaration(s, callerId, attendanceId, content, signature, ip, agent, now).store)
  {
    var o := SubmitDeclaration(s, callerId, attendanceId, content, signature, ip, agent, now);
    if o.result.Ok? {
      var i := OwnRecordIndex(s.attendances, callerId, attendanceId);
      var d := o.result.value;
      assert s.attendances[i] in s.attendances;
      ValidAfterInsertDeclaration(s, d);
      var s1 := s.(declarations := s.declarations + [d], nextId := s.nextId + 1);
      ValidAfterUpdateAttendance(s1, i, DeclarationRepair(s.attendances[i], now));
    }
  }

  /** After a successful submission the record has its declaration, so a second
      submission for it fails and changes nothing, and the first declaration is
      kept as it was. */
  lemma SecondDeclarationRefused(s: Store, callerId: Id, attendanceId: Id, content: Option<string>,
                                 signature: Option<string>, ip: Option<string>, agent: Option<string>, now: Timestamp,
                                 content': Option<string>, signature': Option<string>, now': Timestamp)
    requires SubmitDeclaration(s, callerId, attendanceId, content, signature, ip, agent, now).result.Ok?
    ensures var o := SubmitDeclaration(s, callerId, attendanceId, content, signature, ip, agent, now);
            var o' := SubmitDeclaration(o.store, callerId, attendanceId, content', signature', ip, agent, now');
            o' == Fail(o.store, DeclarationExists)
  {
    var o := SubmitDeclaration(s, callerId, attendanceId, content, signature, ip, agent, now);
    var i := OwnRecordIndex(s.attendances, callerId, attendanceId);
    var d := o.result.value;
    assert d in o.store.declarations;
    assert HasDeclaration(o.store.declarations, attendanceId);
    assert o.store.attendances[i].id == attendanceId && o.store.attendances[i].userId == callerId;
    assert o.store.attendances[i] in o.store.attendances;
  }

  // ---------------------------------------------------------- manual override

  /** The fields `markAttendanceManually` assigns before `save()`. Marking a record
      attended that has no check-in time stamps it now, as a manual check-in. */
  function Marked(a: Attendance, st: AttendanceStatus, notes: Option<string>, verifier: Id, now: Timestamp): (r: Attendance)
    ensures r.id == a.id && IsPair(r, a.userId, a.trainingId)
    ensures r.status == st && r.notes == notes && r.verifiedBy == Some(verifier) && r.verifiedAt == Some(now)
    ensures st == Attended && a.checkInTime.None? ==> r.checkInTime == Some(now) && r.attendanceMethod == Some(Manual)
    ensures !(st == Attended && a.checkInTime.None?) ==>
      r.checkInTime == a.checkInTime && r.attendanceMethod == a.attendanceMethod
    ensures r.checkOutTime == a.checkOutTime
  {
    var r := a.(status := st, notes := notes, verifiedBy := Some(verifier), verifiedAt := Some(now));
    if st == Attended && a.checkInTime.None? then r.(checkInTime := Some(now), attendanceMethod := Some(Manual))
    else r
  }

  /** `markAttendanceManually`. Any status may be set from any status, so the
      override also revives a canceled record; only a string outside the ENUM
      fails, after a missing record was already created. */
  function MarkManually(s: Store, verifier: Id, trainingId: Id, userId: Id, status: string, notes: Option<string>,
                        now: Timestamp): (o: Outcome<Attendance>)
    ensures o.outbox == []
    ensures o.result.Ok? <==>
      && ParseAttendanceStatus(status).Some?
      && (HasRecord(s.attendances, userId, trainingId)
          || (FindTraining(s.trainings, trainingId).Some? && FindUser(s.users, userId).Some?))
    ensures o.result.Err? && HasRecord(s.attendances, userId, trainingId) ==> o.store == s
    ensures o.result.Err? && !HasRecord(s.attendances, userId, trainingId)
            && FindTraining(s.trainings, trainingId).Some? && FindUser(s.users, userId).Some? ==>
      o.result.error == InvalidEnumValue
      && o.store == s.(attendances := s.attendances + [NewAttendance(s.nextId, userId, trainingId)], nextId := s.nextId + 1)
    ensures o.result.Ok? ==>
      var a := o.result.value;
      var i := PairIndex(o.store.attendances, userId, trainingId);
      && AttendanceStatusName(a.status) == status
      && i < |o.store.attendances| && o.store.attendances[i] == a
      && (HasRecord(s.attendances, userId, trainingId) ==>
            a == Marked(s.attendances[PairIndex(s.attendances, userId, trainingId)], a.status, notes, verifier, now))
      && (!HasRecord(s.attendances, userId, trainingId) ==>
            a == Marked(NewAttendance(s.nextId, userId, trainingId), a.status, notes, verifier, now))
    ensures o.store.trainings == s.trainings && o.store.users == s.users && o.store.declarations == s.declarations
    ensures |s.attendances| <= |o.store.attendances| <= |s.attendances| + 1
    ensures |o.store.attendances| == |s.attendances| + 1 ==>
      !HasRecord(s.attendances, userId, trainingId) && o.store.nextId == s.nextId + 1
      && o.store.attendances[|s.attendances|].id == s.nextId
    ensures forall k :: 0 <= k < |s.attendances| && !IsPair(s.attendances[k], userId, trainingId) ==>
      o.store.attendances[k] == s.attendances[k]
  {
    match FindOrCreate(s, userId, trainingId)
    case Err(e) => Fail(s, e)
    case Ok((s1, i)) =>
      match ParseAttendanceStatus(status)
      case None => Outcome(s1, Err(InvalidEnumValue), [])
      case Some(st) =>
        var a := Marked(s1.attendances[i], st, notes, verifier, now);
        PairIndexAfterUpdate(s1.attendances, i, a);
        Outcome(s1.(attendances := s1.attendances[i := a]), Ok(a), [])
  }

  lemma MarkManuallyPreservesValid(s: Store, verifier: Id, trainingId: Id, userId: Id, status: string,
                                   notes: Option<string>, now: Timestamp)
    requires Valid(s)
    ensures Valid(MarkManually(s, verifier, trainingId, userId, status, notes, now).store)
  {
    var r := FindOrCreate(s, userId, trainingId);
    if r.Ok? {
      var (s1, i) := r.value;
      if !HasRecord(s.attendances, userId, trainingId) {
        ValidAfterInsertAttendance(s, NewAttendance(s.nextId, userId, trainingId));
      }
      if ParseAttendanceStatus(status).Some? {
        ValidAfterUpdateAttendance(s1, i, Marked(s1.attendances[i], ParseAttendanceStatus(status).value, notes, verifier, now));
      }
    }
  }
}
