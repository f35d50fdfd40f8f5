/** The admin training list: the filter/search effect, clearing the filters, and
    the list edits after add, edit and delete. Dates are integer milliseconds;
    "today" (local midnight) and the same day next month are parameters because
    they depend on the time zone and the calendar. */
module TrainingManagementPage {
  import opened Basics
  import opened Strings
  import opened Seqs

  const DayMs: int := 86400000

  /** A training as the page holds it. */
  datatype PageTraining = PageTraining(
    id: string,
    title: string,
    description: Option<string>,
    startDate: int,
    endDate: int,
    location: Option<string>,
    facilitatorName: Option<string>,
    status: string,
    isMandatory: bool,
    isVirtual: bool)

  /** The three dropdowns; the empty string means "no filter". */
  datatype Filters = Filters(status: string, trainingType: string, date: string)

  /** The controls the effect reads. */
  datatype View = View(searchTerm: string, filters: Filters, showPast: bool)

  /** The clock readings the effect uses: the current instant, local midnight,
      and the same time one calendar month after that midnight. */
  datatype Clock = Clock(now: int, today: int, nextMonth: int)

  datatype Page = Page(trainings: seq<PageTraining>, filtered: seq<PageTraining>, view: View)

  // ------------------------------------------------------------ the filters

  /** Kept when past trainings are hidden: not yet ended, or still scheduled. */
  predicate NotPast(t: PageTraining, now: int) {
    t.endDate >= now || t.status == "scheduled"
  }

  predicate FieldMatches(field: Option<string>, term: string) {
    Truthy(field) && ContainsFolded(field.value, term)
  }

  /** The search: the title, or any present description, facilitator or location. */
  predicate SearchMatches(t: PageTraining, term: string) {
    ContainsFolded(t.title, term) || FieldMatches(t.description, term)
    || FieldMatches(t.facilitatorName, term) || FieldMatches(t.location, term)
  }

  /** The type dropdown; an unknown value filters nothing. */
  predicate TypeMatches(t: PageTraining, trainingType: string) {
    if trainingType == "mandatory" then t.isMandatory
    else if trainingType == "optional" then !t.isMandatory
    else if trainingType == "virtual" then t.isVirtual
    else if trainingType == "physical" then !t.isVirtual
    else true
  }

  /** The end of the date window opened at `today`, if `date` names one. */
  function WindowEnd(date: string, clock: Clock): Option<int> {
    if date == "today" then Some(clock.today + DayMs)
    else if date == "week" then Some(clock.today + 7 * DayMs)
    else if date == "month" then Some(clock.nextMonth)
    else None
  }

  /** The date dropdown: the start lies in `[today, end)`. */
  predicate DateMatches(t: PageTraining, date: string, clock: Clock) {
    WindowEnd(date, clock).None? || (clock.today <= t.startDate < WindowEnd(date, clock).value)
  }

  /** Every test the effect applies, taken together. */
  predicate Shown(t: PageTraining, v: View, clock: Clock) {
    && (v.showPast || NotPast(t, clock.now))
    && (v.searchTerm == "" || SearchMatches(t, v.searchTerm))
    && (v.filters.status == "" || t.status == v.filters.status)
    && (v.filters.trainingType == "" || TypeMatches(t, v.filters.trainingType))
    && (v.filters.date == "" || DateMatches(t, v.filters.date, clock))
  }

  /** One conditional `result.filter(...)` of the effect. */
  function Stage(xs: seq<PageTraining>, active: bool, keep: PageTraining -> bool): (r: seq<PageTraining>)
    ensures IsSubsequence(r, xs)
    ensures forall t :: t in r <==> t in xs && (!active || keep(t))
  {
    if active then Filter(xs, keep)
    else
      SubsequenceReflexive(xs);
      xs
  }

  /** The effect's pipeline: past, search, status, type, date, in that order. */
  function ApplyFilters(ts: seq<PageTraining>, v: View, clock: Clock): (r: seq<PageTraining>)
    ensures IsSubsequence(r, ts)
    ensures forall t :: t in r <==> t in ts && Shown(t, v, clock)
  {
    var r1 := Stage(ts, !v.showPast, t => NotPast(t, clock.now));
    var r2 := Stage(r1, v.searchTerm != "", t => SearchMatches(t, v.searchTerm));
    var r3 := Stage(r2, v.filters.status != "", (t: PageTraining) => t.status == v.filters.status);
    var r4 := Stage(r3, v.filters.trainingType != "", t => TypeMatches(t, v.filters.trainingType));
    var r5 := Stage(r4, v.filters.date != "", t => DateMatches(t, v.filters.date, clock));
    SubsequenceTransitive(r2, r1, ts);
    SubsequenceTransitive(r3, r2, ts);
    SubsequenceTransitive(r4, r3, ts);
    SubsequenceTransitive(r5, r4, ts);
    r5
  }

  // -------------------------------------------------------------- the effect

  /** The effect as written: it returns early when the training list is empty,
      leaving the previous filtered list on screen. */
  function RefreshAsWritten(p: Page, clock: Clock): (q: Page)
    ensures q.trainings == p.trainings && q.view == p.view
    ensures |p.trainings| == 0 ==> q.filtered == p.filtered
    ensures |p.trainings| > 0 ==> forall t :: t in q.filtered <==> t in p.trainings && Shown(t, p.view, clock)
  {
    if |p.trainings| == 0 then p
    else p.(filtered := ApplyFilters(p.trainings, p.view, clock))
  }

  /** The effect as evidently intended: the filtered list is always recomputed,
      so it never shows a training the page no longer holds. */
  function Refresh(p: Page, clock: Clock): (q: Page)
    ensures q.trainings == p.trainings && q.view == p.view
    ensures IsSubsequence(q.filtered, q.trainings)
    ensures forall t :: t in q.filtered <==> t in p.trainings && Shown(t, p.view, clock)
  {
    p.(filtered := ApplyFilters(p.trainings, p.view, clock))
  }

  /** `clearFilters`: empty search and dropdowns; the past toggle stays. */
  function ClearFilters(v: View): (w: View)
    ensures w.searchTerm == "" && w.filters == Filters("", "", "")
    ensures w.showPast == v.showPast
  {
    View("", Filters("", "", ""), v.showPast)
  }

  /** With the filters cleared, only the past toggle still hides anything. */
  lemma ClearedShowsAllButPast(p: Page, clock: Clock)
    ensures var q := Refresh(p.(view := ClearFilters(p.view)), clock);
      forall t :: t in q.filtered <==> t in p.trainings && (p.view.showPast || NotPast(t, clock.now))
  {
  }

  // ---------------------------------------------------------- list edits

  function DropId(ts: seq<PageTraining>, id: string): seq<PageTraining> {
    Filter(ts, (t: PageTraining) => t.id != id)
  }

  /** `handleDeleteConfirm`: removes every training with the selected id and keeps
      the rest in order; the filtered list follows at the next refresh. */
  function Delete(p: Page, id: string): (q: Page)
    ensures IsSubsequence(q.trainings, p.trainings)
    ensures forall t :: t in q.trainings <==> t in p.trainings && t.id != id
    ensures q.filtered == p.filtered && q.view == p.view
  {
    p.(trainings := DropId(p.trainings, id))
  }

  function ReplaceById(ts: seq<PageTraining>, nt: PageTraining): (r: seq<PageTraining>)
    ensures |r| == |ts|
    ensures forall k :: 0 <= k < |ts| ==> r[k] == if ts[k].id == nt.id then nt else ts[k]
  {
    if |ts| == 0 then [] else [if ts[0].id == nt.id then nt else ts[0]] + ReplaceById(ts[1..], nt)
  }

  /** `handleTrainingChange`. When editing, every training with the submitted id,
      in both lists, becomes the submitted one and the rest stay in place. When
      adding, the training gets the fresh id `newId` and goes first in both lists. */
  function TrainingChange(p: Page, editing: bool, nt: PageTraining, newId: string): (q: Page)
    ensures q.view == p.view
    ensures editing ==> |q.trainings| == |p.trainings| && |q.filtered| == |p.filtered|
    ensures editing ==> forall k :: 0 <= k < |p.trainings| ==>
      (p.trainings[k].id == nt.id ==> q.trainings[k] == nt) && (p.trainings[k].id != nt.id ==> q.trainings[k] == p.trainings[k])
    ensures editing ==> forall k :: 0 <= k < |p.filtered| ==>
      (p.filtered[k].id == nt.id ==> q.filtered[k] == nt) && (p.filtered[k].id != nt.id ==> q.filtered[k] == p.filtered[k])
    ensures !editing ==> q.trainings == [nt.(id := newId)] + p.trainings
    ensures !editing ==> q.filtered == [nt.(id := newId)] + p.filtered
  {
    if editing then p.(trainings := ReplaceById(p.trainings, nt), filtered := ReplaceById(p.filtered, nt))
    else
      var added := nt.(id := newId);
      p.(trainings := [added] + p.trainings, filtered := [added] + p.filtered)
  }

  /** The discrepancy: with one training on screen, deleting it and letting the
      effect run leaves that training in the filtered list although the page no
      longer holds it. */
  lemma StaleAfterDeletingLast(t: PageTraining, v: View, clock: Clock)
    ensures var q := RefreshAsWritten(Delete(Page([t], [t], v), t.id), clock);
      q.trainings == [] && q.filtered == [t]
  {
    assert [t][1..] == [];
  }

  /** The corrected effect after the same delete shows nothing. */
  lemma EmptyAfterDeletingLast(t: PageTraining, v: View, clock: Clock)
    ensures Refresh(Delete(Page([t], [t], v), t.id), clock).filtered == []
  {
    assert [t][1..] == [];
    assert Delete(Page([t], [t], v), t.id).trainings == [];
  }
}
