/** The user's attendance history: search, status dropdown, the four tabs and the
    summary counts. */
module MyAttendancePage {
  import opened Strings
  import opened Seqs
  import TrainingListPage

  datatype AttendanceRecord = AttendanceRecord(id: string, trainingTitle: string, status: string)

  /** The tabs: 0 All, 1 Completed, 2 Upcoming, 3 Missed. */
  function TabStatus(tab: int): string
    requires 1 <= tab <= 3
  {
    if tab == 1 then "completed" else if tab == 2 then "upcoming" else "missed"
  }

  /** Whether a record is listed: the search looks at the training title only; the
      dropdown (`all` for everything) applies on the first tab and on any
      unknown tab, while tabs 1 to 3 ignore it and fix the status. */
  predicate Listed(r: AttendanceRecord, term: string, filterStatus: string, tab: int) {
    var matchesSearch := ContainsFolded(r.trainingTitle, term);
    var matchesFilter := filterStatus == "all" || r.status == filterStatus;
    if 1 <= tab <= 3 then matchesSearch && r.status == TabStatus(tab)
    else matchesSearch && matchesFilter
  }

  function ListedIn(term: string, filterStatus: string, tab: int): AttendanceRecord -> bool {
    (r: AttendanceRecord) => Listed(r, term, filterStatus, tab)
  }

  /** `filteredRecords`. */
  function FilteredRecords(records: seq<AttendanceRecord>, term: string, filterStatus: string, tab: int): (r: seq<AttendanceRecord>)
    ensures IsSubsequence(r, records)
    ensures forall x :: x in r <==> x in records && Listed(x, term, filterStatus, tab)
  {
    Filter(records, ListedIn(term, filterStatus, tab))
  }

  /** The status tabs do not look at the dropdown. */
  lemma TabsIgnoreDropdown(records: seq<AttendanceRecord>, term: string, a: string, b: string, tab: int)
    requires 1 <= tab <= 3
    ensures FilteredRecords(records, term, a, tab) == FilteredRecords(records, term, b, tab)
  {
    FilterCongruent(records, ListedIn(term, a, tab), ListedIn(term, b, tab));
  }

  function HasStatus(status: string): AttendanceRecord -> bool {
    (r: AttendanceRecord) => r.status == status
  }

  /** The figure on a summary card: the records with that status. */
  function StatusCount(records: seq<AttendanceRecord>, status: string): (n: nat)
    ensures n <= |records|
    ensures n == |Filter(records, HasStatus(status))|
  {
    Count(records, HasStatus(status))
  }

  /** With an empty search, tab 1 lists exactly as many records as the completed
      card counts, and tab 2 as many as the upcoming card. */
  lemma TabsAgreeWithCards(records: seq<AttendanceRecord>, filterStatus: string)
    ensures |FilteredRecords(records, "", filterStatus, 1)| == StatusCount(records, "completed")
    ensures |FilteredRecords(records, "", filterStatus, 2)| == StatusCount(records, "upcoming")
  {
    forall x | x in records ensures ListedIn("", filterStatus, 1)(x) == HasStatus("completed")(x) {
      ContainsFoldedEmpty(x.trainingTitle);
    }
    FilterCongruent(records, ListedIn("", filterStatus, 1), HasStatus("completed"));
    forall x | x in records ensures ListedIn("", filterStatus, 2)(x) == HasStatus("upcoming")(x) {
      ContainsFoldedEmpty(x.trainingTitle);
    }
    FilterCongruent(records, ListedIn("", filterStatus, 2), HasStatus("upcoming"));
  }

  /** This page's badge variant is the catalogue's. */
  function StatusVariant(status: string): (v: string)
    ensures v in TrainingListPage.Variants
    ensures Lower(status) in TrainingListPage.Variants ==> v == Lower(status)
    ensures Lower(status) !in TrainingListPage.Variants ==> v == "inactive"
  {
    TrainingListPage.StatusVariant(status)
  }
}
