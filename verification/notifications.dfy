/** The notification service: template dispatch for one message, the two reminder
    sweeps as pure selections over the store, and the sequential send loop. The
    mail transport is a parameter: for each attempted send it answers delivered
    or not. HTML bodies and locale date formatting are not modelled; dates are
    carried as timestamps. */
module Notifications {
  import opened Basics
  import opened Seqs
  import opened Models
  import opened Errors

  const HourMs: int := 60 * 60 * 1000
  const DayMs: int := 24 * HourMs
  /** The session sweep looks this far ahead of `now`. */
  const ReminderLookahead: int := DayMs
  /** The declaration sweep looks this far back from `now`. */
  const DeclarationLookback: int := 7 * DayMs

  /** The `data` payload handed to a template. */
  datatype TemplateData =
    | SessionDetails(userName: string, trainingTitle: string, trainingDate: Timestamp,
                     trainingTime: Timestamp, trainingLocation: string, trainingLink: Option<string>)
    | DeclarationDetails(userName: string, trainingTitle: string, trainingDate: Timestamp)

  /** The options object passed to `sendNotification`. */
  datatype Notification = Notification(kind: string, to: string, subject: string, template: string, data: TemplateData)

  /** The email templates, plus the generic fallback body. */
  datatype Template = RegistrationTemplate | ReminderTemplate | DeclarationReminderTemplate | GenericTemplate

  /** Template lookup by name; an unknown name falls back to the generic body. */
  function TemplateNamed(name: string): (t: Template)
    ensures t == RegistrationTemplate <==> name == "training-registration"
    ensures t == ReminderTemplate <==> name == "training-reminder"
    ensures t == DeclarationReminderTemplate <==> name == "declaration-reminder"
  {
    if name == "training-registration" then RegistrationTemplate
    else if name == "training-reminder" then ReminderTemplate
    else if name == "declaration-reminder" then DeclarationReminderTemplate
    else GenericTemplate
  }

  /** A message handed to the mail transport. */
  datatype Mail = Mail(to: string, subject: string, template: Template, data: TemplateData)

  /** `sendNotification(options)`: an email goes to the transport, whose failure
      is re-thrown; any other kind sends nothing and succeeds. */
  function SendNotification(n: Notification, delivered: bool): (r: Result<Option<Mail>, ApiError>)
    ensures n.kind != "email" ==> r == Ok(None)
    ensures n.kind == "email" ==> (r.Ok? <==> delivered)
    ensures r.Err? ==> r.error == DeliveryFailed
    ensures r.Ok? && r.value.Some? ==>
      r.value.value == Mail(n.to, n.subject, TemplateNamed(n.template), n.data)
  {
    if n.kind == "email" then
      if delivered then Ok(Some(Mail(n.to, n.subject, TemplateNamed(n.template), n.data)))
      else Err(DeliveryFailed)
    else Ok(None)
  }

  /** `training.location || 'Virtual'`. */
  function LocationLabel(location: Option<string>): (r: string)
    ensures location.Some? && location.value != "" ==> r == location.value
    ensures location.None? || location.value == "" ==> r == "Virtual"
  {
    if location.Some? && location.value != "" then location.value else "Virtual"
  }

  /** `training.isVirtual ? training.meetingLink : null`. */
  function MeetingLinkFor(t: Training): (r: Option<string>)
    ensures r.Some? ==> t.isVirtual && r == t.meetingLink
    ensures t.isVirtual ==> r == t.meetingLink
  {
    if t.isVirtual then t.meetingLink else None
  }

  function FullName(u: User): string {
    u.firstName + " " + u.lastName
  }

  function SessionDetailsFor(t: Training, u: User): TemplateData {
    SessionDetails(FullName(u), t.title, t.startDate, t.startDate, LocationLabel(t.location), MeetingLinkFor(t))
  }

  /** The confirmation sent right after a registration. */
  function RegistrationNotice(t: Training, u: User): Notification {
    Notification("email", u.email, "Registration Confirmation: " + t.title, "training-registration",
                 SessionDetailsFor(t, u))
  }

  /** The reminder for one upcoming session. */
  function ReminderFor(t: Training, u: User): Notification {
    Notification("email", u.email, "Reminder: " + t.title, "training-reminder", SessionDetailsFor(t, u))
  }

  /** The "declaration missing" reminder. */
  function DeclarationReminderFor(t: Training, u: User): Notification {
    Notification("email", u.email, "Action Required: Declaration Form for " + t.title,
                 "declaration-reminder", DeclarationDetails(FullName(u), t.title, t.startDate))
  }

  /** `attendance.User && attendance.User.email`. */
  predicate Reachable(users: seq<User>, userId: Id) {
    FindUser(users, userId).Some? && FindUser(users, userId).value.email != ""
  }

  // ------------------------------------------------------ session reminders

  /** Inclusive window `[now, now + 24h]`, and only scheduled sessions. */
  predicate DueForReminder(t: Training, now: Timestamp) {
    t.status == Scheduled && now <= t.startDate <= now + ReminderLookahead
  }

  /** The first query of `scheduleTrainingReminders`. */
  function DueTrainings(ts: seq<Training>, now: Timestamp): (r: seq<Training>)
    ensures IsSubsequence(r, ts)
    ensures forall t :: t in r <==> t in ts && DueForReminder(t, now)
  {
    Filter(ts, (t: Training) => DueForReminder(t, now))
  }

  /** One reminder for each of `recs` whose user has an email, in order. */
  function RemindEach(t: Training, recs: seq<Attendance>, users: seq<User>): (r: seq<Notification>)
    ensures |r| == Count(recs, (a: Attendance) => Reachable(users, a.userId))
  {
    if |recs| == 0 then []
    else
      var a := recs[0];
      assert recs == [a] + recs[1..];
      FilterCons(a, recs[1..], (a: Attendance) => Reachable(users, a.userId));
      (if Reachable(users, a.userId) then [ReminderFor(t, FindUser(users, a.userId).value)] else [])
        + RemindEach(t, recs[1..], users)
  }

  /** Reminders for one session: every record of that session, whatever its status. */
  function RemindersFor(t: Training, s: Store): seq<Notification> {
    RemindEach(t, RecordsOf(s.attendances, t.id), s.users)
  }

  function RemindersForAll(ts: seq<Training>, s: Store): seq<Notification> {
    if |ts| == 0 then [] else RemindersFor(ts[0], s) + RemindersForAll(ts[1..], s)
  }

  /** The messages `scheduleTrainingReminders` sends, in order: session by due
      session, one reminder email per record of it whose user has an email.
      `SessionReminderSelection` says exactly which messages these are. */
  function SessionReminders(s: Store, now: Timestamp): (r: seq<Notification>)
    ensures forall n :: n in r ==> n.kind == "email" && n.template == "training-reminder" && n.data.SessionDetails?
  {
    var r := RemindersForAll(DueTrainings(s.trainings, now), s);
    assert forall n :: n in r ==> n.kind == "email" && n.template == "training-reminder" && n.data.SessionDetails? by {
      forall n | n in r ensures n.kind == "email" && n.template == "training-reminder" && n.data.SessionDetails? {
        RemindersForAllMembership(DueTrainings(s.trainings, now), s, n);
      }
    }
    r
  }

  /** A record of a session yields a reminder for that session exactly when its
      user has an email. */
  predicate RemindedBy(t: Training, a: Attendance, s: Store, n: Notification) {
    a.trainingId == t.id && Reachable(s.users, a.userId) && n == ReminderFor(t, FindUser(s.users, a.userId).value)
  }

  /** Every reminder of the list comes from some record. */
  lemma {:induction false} RemindEachSound(t: Training, recs: seq<Attendance>, s: Store, n: Notification)
    requires forall a :: a in recs ==> a.trainingId == t.id
    requires n in RemindEach(t, recs, s.users)
    ensures exists a :: a in recs && RemindedBy(t, a, s, n)
  {
    var a := recs[0];
    assert a in recs;
    if !RemindedBy(t, a, s, n) {
      assert forall b :: b in recs[1..] ==> b in recs;
      RemindEachSound(t, recs[1..], s, n);
      var b :| b in recs[1..] && RemindedBy(t, b, s, n);
      assert b in recs;
    }
  }

  /** Every record whose user has an email contributes its reminder. */
  lemma {:induction false} RemindEachComplete(t: Training, recs: seq<Attendance>, s: Store, a: Attendance, n: Notification)
    requires a in recs && RemindedBy(t, a, s, n)
    ensures n in RemindEach(t, recs, s.users)
  {
    if a != recs[0] {
      RemindEachComplete(t, recs[1..], s, a, n);
    }
  }

  lemma RemindEachMembership(t: Training, recs: seq<Attendance>, s: Store, n: Notification)
    requires forall a :: a in recs ==> a.trainingId == t.id
    ensures n in RemindEach(t, recs, s.users) <==> exists a :: a in recs && RemindedBy(t, a, s, n)
  {
    if n in RemindEach(t, recs, s.users) {
      RemindEachSound(t, recs, s, n);
    }
    if exists a :: a in recs && RemindedBy(t, a, s, n) {
      var a :| a in recs && RemindedBy(t, a, s, n);
      RemindEachComplete(t, recs, s, a, n);
    }
  }

  /** Every reminder of the sweep comes from a session of the list and one of
      its records. */
  lemma {:induction false} RemindersForAllSound(ts: seq<Training>, s: Store, n: Notification)
    requires n in RemindersForAll(ts, s)
    ensures exists t, a :: t in ts && a in s.attendances && RemindedBy(t, a, s, n)
  {
    var t := ts[0];
    assert t in ts;
    if n in RemindersFor(t, s) {
      var recs := RecordsOf(s.attendances, t.id);
      RemindEachSound(t, recs, s, n);
      var a :| a in recs && RemindedBy(t, a, s, n);
      assert a in s.attendances;
    } else {
      RemindersForAllSound(ts[1..], s, n);
      var u, a :| u in ts[1..] && a in s.attendances && RemindedBy(u, a, s, n);
      assert u in ts;
    }
  }

  /** Every record of a listed session whose user has an email gets its reminder. */
  lemma {:induction false} RemindersForAllComplete(ts: seq<Training>, s: Store, t: Training, a: Attendance, n: Notification)
    requires t in ts && a in s.attendances && RemindedBy(t, a, s, n)
    ensures n in RemindersForAll(ts, s)
  {
    if t == ts[0] {
      RemindEachComplete(t, RecordsOf(s.attendances, t.id), s, a, n);
    } else {
      RemindersForAllComplete(ts[1..], s, t, a, n);
    }
  }

  lemma RemindersForAllMembership(ts: seq<Training>, s: Store, n: Notification)
    ensures n in RemindersForAll(ts, s) <==>
      exists t, a :: t in ts && a in s.attendances && RemindedBy(t, a, s, n)
  {
    if n in RemindersForAll(ts, s) {
      RemindersForAllSound(ts, s, n);
    }
    if exists t, a :: t in ts && a in s.attendances && RemindedBy(t, a, s, n) {
      var t, a :| t in ts && a in s.attendances && RemindedBy(t, a, s, n);
      RemindersForAllComplete(ts, s, t, a, n);
    }
  }

  /** The session sweep emits exactly one kind of message: a reminder for a
      scheduled session starting in `[now, now + 24h]`, addressed to the user of
      one of that session's records (any status) who has an email. */
  lemma SessionReminderSelection(s: Store, now: Timestamp, n: Notification)
    ensures n in SessionReminders(s, now) <==>
      exists t, a :: t in s.trainings && DueForReminder(t, now) && a in s.attendances && RemindedBy(t, a, s, n)
  {
    RemindersForAllMembership(DueTrainings(s.trainings, now), s, n);
  }

  /** Every message of the session sweep uses the reminder template. */
  lemma {:induction false} SessionRemindersUseReminderTemplate(s: Store, now: Timestamp, n: Notification)
    requires n in SessionReminders(s, now)
    ensures n.kind == "email" && TemplateNamed(n.template) == ReminderTemplate
    ensures n.data.SessionDetails?
  {
    SessionReminderSelection(s, now, n);
  }

  /** `RemindEach` only looks at a record's user: records that agree on their
      users give the same reminders. */
  lemma {:induction false} RemindEachUsersOnly(t: Training, recs: seq<Attendance>, recs': seq<Attendance>, users: seq<User>)
    requires |recs| == |recs'|
    requires forall k :: 0 <= k < |recs| ==> recs[k].userId == recs'[k].userId
    ensures RemindEach(t, recs, users) == RemindEach(t, recs', users)
  {
    if |recs| > 0 {
      RemindEachUsersOnly(t, recs[1..], recs'[1..], users);
    }
  }

  /** Filtering by session commutes with changing a record's status. */
  lemma {:induction false} RecordsOfStatusBlind(recs: seq<Attendance>, recs': seq<Attendance>, tid: Id)
    requires |recs| == |recs'|
    requires forall k :: 0 <= k < |recs| ==>
      recs[k].userId == recs'[k].userId && recs[k].trainingId == recs'[k].trainingId
    ensures |RecordsOf(recs, tid)| == |RecordsOf(recs', tid)|
    ensures forall k :: 0 <= k < |RecordsOf(recs, tid)| ==>
      RecordsOf(recs, tid)[k].userId == RecordsOf(recs', tid)[k].userId
  {
    if |recs| > 0 {
      RecordsOfStatusBlind(recs[1..], recs'[1..], tid);
      FilterCons(recs[0], recs[1..], (a: Attendance) => a.trainingId == tid);
      FilterCons(recs'[0], recs'[1..], (a: Attendance) => a.trainingId == tid);
      assert recs == [recs[0]] + recs[1..];
      assert recs' == [recs'[0]] + recs'[1..];
    }
  }

  /** Session reminders do not depend on attendance status: setting any record's
      status to anything leaves the sweep's messages unchanged. */
  lemma SessionRemindersIgnoreStatus(s: Store, now: Timestamp, i: nat, st: AttendanceStatus)
    requires i < |s.attendances|
    ensures SessionReminders(s.(attendances := s.attendances[i := s.attendances[i].(status := st)]), now)
         == SessionReminders(s, now)
  {
    var s' := s.(attendances := s.attendances[i := s.attendances[i].(status := st)]);
    var due := DueTrainings(s.trainings, now);
    AllStatusBlind(due, s, s');
  }

  lemma {:induction false} AllStatusBlind(ts: seq<Training>, s: Store, s': Store)
    requires s'.users == s.users && |s'.attendances| == |s.attendances|
    requires forall k :: 0 <= k < |s.attendances| ==>
      s.attendances[k].userId == s'.attendances[k].userId && s.attendances[k].trainingId == s'.attendances[k].trainingId
    ensures RemindersForAll(ts, s') == RemindersForAll(ts, s)
  {
    if |ts| > 0 {
      AllStatusBlind(ts[1..], s, s');
      RecordsOfStatusBlind(s.attendances, s'.attendances, ts[0].id);
      RemindEachUsersOnly(ts[0], RecordsOf(s.attendances, ts[0].id), RecordsOf(s'.attendances, ts[0].id), s.users);
    }
  }

  // -------------------------------------------------- declaration reminders

  /** Attended, checked in within `[now - 7 days, now]`, and no declaration of any
      kind, compliant or not. */
  predicate AwaitingDeclaration(s: Store, a: Attendance, now: Timestamp) {
    && a.status == Attended
    && a.checkInTime.Some?
    && now - DeclarationLookback <= a.checkInTime.value <= now
    && !HasDeclaration(s.declarations, a.id)
  }

  /** The query of `sendDeclarationReminders`. */
  function DeclarationSelection(s: Store, now: Timestamp): (r: seq<Attendance>)
    ensures IsSubsequence(r, s.attendances)
    ensures forall a :: a in r <==> a in s.attendances && AwaitingDeclaration(s, a, now)
  {
    Filter(s.attendances, (a: Attendance) => AwaitingDeclaration(s, a, now))
  }

  /** Any declaration for a record, whatever its compliance flag, keeps that record
      out of the declaration sweep. */
  lemma DeclaredNeverSelected(s: Store, now: Timestamp, a: Attendance, d: Declaration)
    requires d in s.declarations && d.attendanceId == a.id
    ensures a !in DeclarationSelection(s, now)
  {
  }

  predicate TrainingsResolve(s: Store) {
    forall a :: a in s.attendances ==> FindTraining(s.trainings, a.trainingId).Some?
  }

  function DeclarationNotices(recs: seq<Attendance>, s: Store): (r: seq<Notification>)
    requires forall a :: a in recs ==> FindTraining(s.trainings, a.trainingId).Some?
    ensures |r| == Count(recs, (a: Attendance) => Reachable(s.users, a.userId))
  {
    if |recs| == 0 then []
    else
      var a := recs[0];
      assert recs == [a] + recs[1..];
      FilterCons(a, recs[1..], (a: Attendance) => Reachable(s.users, a.userId));
      (if Reachable(s.users, a.userId)
       then [DeclarationReminderFor(FindTraining(s.trainings, a.trainingId).value, FindUser(s.users, a.userId).value)]
       else [])
        + DeclarationNotices(recs[1..], s)
  }

  /** The messages `sendDeclarationReminders` sends, in order: one per selected
      record whose user has an email. The record's training always resolves
      because of the foreign key. */
  function DeclarationReminders(s: Store, now: Timestamp): (r: seq<Notification>)
    requires TrainingsResolve(s)
    ensures |r| == Count(DeclarationSelection(s, now), (a: Attendance) => Reachable(s.users, a.userId))
  {
    DeclarationNotices(DeclarationSelection(s, now), s)
  }

  /** A selected record yields a "declaration missing" message when its user has
      an email. */
  predicate DeclarationRemindedBy(a: Attendance, s: Store, n: Notification) {
    && FindTraining(s.trainings, a.trainingId).Some?
    && Reachable(s.users, a.userId)
    && n == DeclarationReminderFor(FindTraining(s.trainings, a.trainingId).value, FindUser(s.users, a.userId).value)
  }

  /** Every message of the list comes from some record. */
  lemma {:induction false} DeclarationNoticesSound(recs: seq<Attendance>, s: Store, n: Notification)
    requires forall a :: a in recs ==> FindTraining(s.trainings, a.trainingId).Some?
    requires n in DeclarationNotices(recs, s)
    ensures exists a :: a in recs && DeclarationRemindedBy(a, s, n)
  {
    var a := recs[0];
    if !DeclarationRemindedBy(a, s, n) {
      assert forall b :: b in recs[1..] ==> b in recs;
      DeclarationNoticesSound(recs[1..], s, n);
      var b :| b in recs[1..] && DeclarationRemindedBy(b, s, n);
      assert b in recs;
    }
  }

  /** Every reachable record contributes its message. */
  lemma {:induction false} DeclarationNoticesComplete(recs: seq<Attendance>, s: Store, a: Attendance, n: Notification)
    requires forall b :: b in recs ==> FindTraining(s.trainings, b.trainingId).Some?
    requires a in recs && DeclarationRemindedBy(a, s, n)
    ensures n in DeclarationNotices(recs, s)
  {
    if a != recs[0] {
      assert forall b :: b in recs[1..] ==> b in recs;
      DeclarationNoticesComplete(recs[1..], s, a, n);
    }
  }

  lemma DeclarationNoticesMembership(recs: seq<Attendance>, s: Store, n: Notification)
    requires forall a :: a in recs ==> FindTraining(s.trainings, a.trainingId).Some?
    ensures n in DeclarationNotices(recs, s) <==> exists a :: a in recs && DeclarationRemindedBy(a, s, n)
  {
    if n in DeclarationNotices(recs, s) {
      DeclarationNoticesSound(recs, s, n);
    }
    if exists a :: a in recs && DeclarationRemindedBy(a, s, n) {
      var a :| a in recs && DeclarationRemindedBy(a, s, n);
      DeclarationNoticesComplete(recs, s, a, n);
    }
  }

  /** The declaration sweep emits exactly the "declaration missing" messages for
      records that are attended, checked in during the last 7 days, without any
      declaration, and whose user has an email. */
  lemma DeclarationReminderSelection(s: Store, now: Timestamp, n: Notification)
    requires TrainingsResolve(s)
    ensures n in DeclarationReminders(s, now) <==>
      exists a :: a in s.attendances && AwaitingDeclaration(s, a, now) && DeclarationRemindedBy(a, s, n)
  {
    DeclarationNoticesMembership(DeclarationSelection(s, now), s, n);
  }

  // ---------------------------------------------------------------- sending

  /** The position of the first failing send among the first `n` messages, or
      `n` when none of them fails. */
  function FirstFailureIn(plan: seq<Notification>, delivered: seq<bool>, n: nat): (k: nat)
    requires |delivered| >= |plan| && n <= |plan|
    ensures k <= n
    ensures forall i :: 0 <= i < k ==> SendNotification(plan[i], delivered[i]).Ok?
    ensures k < n ==> SendNotification(plan[k], delivered[k]).Err?
  {
    if n == 0 then 0
    else
      var k := FirstFailureIn(plan, delivered, n - 1);
      if k < n - 1 then k
      else if SendNotification(plan[n - 1], delivered[n - 1]).Err? then n - 1
      else n
  }

  /** The position of the first send that fails, or `|plan|` when none does. */
  function FirstFailure(plan: seq<Notification>, delivered: seq<bool>): (k: nat)
    requires |delivered| >= |plan|
    ensures k <= |plan|
    ensures forall i :: 0 <= i < k ==> SendNotification(plan[i], delivered[i]).Ok?
    ensures k < |plan| ==> SendNotification(plan[k], delivered[k]).Err?
  {
    FirstFailureIn(plan, delivered, |plan|)
  }

  /** The mails the transport accepts for the first `n` messages of `plan`, in
      the order they are sent. */
  function MailsOf(plan: seq<Notification>, delivered: seq<bool>, n: nat): (r: seq<Mail>)
    requires |delivered| >= |plan| && n <= |plan|
    ensures |r| <= n
  {
    if n == 0 then []
    else
      var sent := SendNotification(plan[n - 1], delivered[n - 1]);
      MailsOf(plan, delivered, n - 1) + (if sent.Ok? && sent.value.Some? then [sent.value.value] else [])
  }

  /** Every accepted mail is the transport's answer to one of the first `n` messages. */
  lemma {:induction false} MailsOfMembers(plan: seq<Notification>, delivered: seq<bool>, n: nat)
    requires |delivered| >= |plan| && n <= |plan|
    ensures forall m :: m in MailsOf(plan, delivered, n) ==>
      exists i :: 0 <= i < n && SendNotification(plan[i], delivered[i]) == Ok(Some(m))
  {
    if n > 0 {
      MailsOfMembers(plan, delivered, n - 1);
      forall m | m in MailsOf(plan, delivered, n)
        ensures exists i :: 0 <= i < n && SendNotification(plan[i], delivered[i]) == Ok(Some(m))
      {
        if m !in MailsOf(plan, delivered, n - 1) {
          assert SendNotification(plan[n - 1], delivered[n - 1]) == Ok(Some(m));
        }
      }
    }
  }

  /** When the first `n` messages are emails and every send succeeds, each one
      yields a mail. */
  lemma {:induction false} MailsOfAllEmails(plan: seq<Notification>, delivered: seq<bool>, n: nat)
    requires |delivered| >= |plan| && n <= |plan|
    requires forall i :: 0 <= i < n ==> plan[i].kind == "email" && SendNotification(plan[i], delivered[i]).Ok?
    ensures |MailsOf(plan, delivered, n)| == n
  {
    if n > 0 {
      MailsOfAllEmails(plan, delivered, n - 1);
    }
  }

  /** A sweep stopped by the failure of send `i` has sent only mails of the plan. */
  lemma StoppedAt(plan: seq<Notification>, delivered: seq<bool>, i: nat)
    requires i < |plan| <= |delivered|
    requires forall j :: 0 <= j < i ==> SendNotification(plan[j], delivered[j]).Ok?
    requires SendNotification(plan[i], delivered[i]).Err?
    ensures FirstFailure(plan, delivered) == i
    ensures forall m :: m in MailsOf(plan, delivered, i) ==>
      exists j :: 0 <= j < |plan| && SendNotification(plan[j], delivered[j]) == Ok(Some(m))
  {
    MailsOfMembers(plan, delivered, i);
  }

  /** The send loop of both sweeps: messages go out one at a time, and the first
      failed send is re-thrown, so nothing after it is attempted. `delivered[i]`
      is the transport's answer for `plan[i]`; `sent` counts the messages that
      went through before the sweep stopped. */
  method Dispatch(plan: seq<Notification>, delivered: seq<bool>) returns (mails: seq<Mail>, failed: bool, sent: nat)
    requires |delivered| >= |plan|
    ensures sent == FirstFailure(plan, delivered)
    ensures failed <==> sent < |plan|
    ensures mails == MailsOf(plan, delivered, sent)
    ensures !failed <==> forall i :: 0 <= i < |plan| ==> SendNotification(plan[i], delivered[i]).Ok?
    ensures forall m :: m in mails ==> exists i :: 0 <= i < |plan| && SendNotification(plan[i], delivered[i]) == Ok(Some(m))
    ensures !failed && (forall i :: 0 <= i < |plan| ==> plan[i].kind == "email") ==> |mails| == |plan|
  {
    mails := [];
    failed := false;
    var i := 0;
    while i < |plan|
      invariant 0 <= i <= |plan|
      invariant forall j :: 0 <= j < i ==> SendNotification(plan[j], delivered[j]).Ok?
      invariant mails == MailsOf(plan, delivered, i)
    {
      var r := SendNotification(plan[i], delivered[i]);
      if r.Err? {
        failed := true;
        sent := i;
        StoppedAt(plan, delivered, i);
        return;
      }
      if r.value.Some? {
        mails := mails + [r.value.value];
      }
      i := i + 1;
    }
    sent := i;
    MailsOfMembers(plan, delivered, i);
    if forall j :: 0 <= j < |plan| ==> plan[j].kind == "email" {
      MailsOfAllEmails(plan, delivered, i);
    }
  }
}
