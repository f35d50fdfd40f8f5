/** The user-facing training catalogue: its filters, the id given to a training
    added from it, and the badge variant of a status. */
module TrainingListPage {
  import opened Basics
  import opened Strings
  import opened Seqs

  /** A catalogue entry. */
  datatype ListTraining = ListTraining(
    id: int,
    title: string,
    description: string,
    instructor: string,
    category: string,
    status: string,
    trainingType: string,
    totalSeats: int,
    availableSeats: int,
    imageUrl: string)

  /** The dropdowns; the empty string means "no filter". The date dropdown exists
      but is not applied. */
  datatype Filters = Filters(status: string, trainingType: string, date: string)

  /** Case-insensitive match on title, description, instructor or category. */
  predicate SearchMatches(t: ListTraining, term: string) {
    ContainsFolded(t.title, term) || ContainsFolded(t.description, term)
    || ContainsFolded(t.instructor, term) || ContainsFolded(t.category, term)
  }

  predicate Kept(t: ListTraining, term: string, f: Filters) {
    && (term == "" || SearchMatches(t, term))
    && (f.status == "" || t.status == f.status)
    && (f.trainingType == "" || t.trainingType == f.trainingType)
  }

  /** `applyFilters`: search, then status, then type; the date filter is ignored. */
  function ApplyFilters(ts: seq<ListTraining>, term: string, f: Filters): (r: seq<ListTraining>)
    ensures IsSubsequence(r, ts)
    ensures forall t :: t in r <==> t in ts && Kept(t, term, f)
  {
    var r1 := if term != "" then Filter(ts, (t: ListTraining) => SearchMatches(t, term)) else ts;
    var r2 := if f.status != "" then Filter(r1, (t: ListTraining) => t.status == f.status) else r1;
    var r3 := if f.trainingType != "" then Filter(r2, (t: ListTraining) => t.trainingType == f.trainingType) else r2;
    SubsequenceReflexive(ts);
    SubsequenceReflexive(r1);
    SubsequenceReflexive(r2);
    SubsequenceTransitive(r2, r1, ts);
    SubsequenceTransitive(r3, r2, ts);
    r3
  }

  /** The date dropdown has no effect on the result. */
  lemma DateFilterIgnored(ts: seq<ListTraining>, term: string, f: Filters, date: string)
    ensures ApplyFilters(ts, term, f.(date := date)) == ApplyFilters(ts, term, f)
  {
  }

  /** `trainings.reduce((max, t) => Math.max(max, t.id), 0)`. */
  function MaxId(ts: seq<ListTraining>, acc: int): (m: int)
    ensures m >= acc
    ensures forall t :: t in ts ==> t.id <= m
    ensures m == acc || exists t :: t in ts && t.id == m
    decreases |ts|
  {
    if |ts| == 0 then acc
    else
      var m := MaxId(ts[1..], if ts[0].id > acc then ts[0].id else acc);
      assert forall t :: t in ts ==> t == ts[0] || t in ts[1..];
      m
  }

  /** The id `handleAddTraining` gives a new training: one above the largest id,
      and 1 for an empty catalogue. */
  function NextId(ts: seq<ListTraining>): (id: int)
    ensures id >= 1
    ensures forall t :: t in ts ==> t.id < id
    ensures |ts| == 0 ==> id == 1
    ensures (forall t :: t in ts ==> t.id <= 0) ==> id == 1
    ensures id == 1 || exists t :: t in ts && id == t.id + 1
  {
    MaxId(ts, 0) + 1
  }

  const DefaultImageUrl: string := "https://images.unsplash.com/photo-1573167507387-6b4b98cb7c13?q=80&w=2069&auto=format&fit=crop"

  /** `handleAddTraining`: the new entry, with a fresh id, all seats free and
      status `upcoming`, goes first; the filtered list is recomputed. */
  function AddTraining(ts: seq<ListTraining>, nt: ListTraining, term: string, f: Filters): (r: (seq<ListTraining>, seq<ListTraining>))
    ensures |r.0| == |ts| + 1 && r.0[1..] == ts
    ensures r.0[0].id == NextId(ts) && r.0[0].id !in set t | t in ts :: t.id
    ensures r.0[0].availableSeats == nt.totalSeats && r.0[0].status == "upcoming"
    ensures r.0[0] == nt.(id := r.0[0].id, availableSeats := nt.totalSeats, status := "upcoming", imageUrl := DefaultImageUrl)
    ensures forall t :: t in r.1 <==> t in r.0 && Kept(t, term, f)
  {
    var added := nt.(id := NextId(ts), availableSeats := nt.totalSeats, status := "upcoming", imageUrl := DefaultImageUrl);
    var all := [added] + ts;
    assert all[1..] == ts;
    (all, ApplyFilters(all, term, f))
  }

  /** The badge variants a status can map to. */
  const Variants: seq<string> := ["completed", "pending", "upcoming", "cancelled", "active", "inactive", "expired"]

  /** `getStatusVariant`: a known status, in any letter case, maps to its lower-case
      name; anything else to `inactive`. */
  function StatusVariant(status: string): (v: string)
    ensures v in Variants
    ensures Lower(status) in Variants ==> v == Lower(status)
    ensures Lower(status) !in Variants ==> v == "inactive"
  {
    var s := Lower(status);
    if s == "completed" then "completed"
    else if s == "pending" then "pending"
    else if s == "upcoming" then "upcoming"
    else if s == "cancelled" then "cancelled"
    else if s == "active" then "active"
    else if s == "inactive" then "inactive"
    else if s == "expired" then "expired"
    else "inactive"
  }

  /** A variant is its own variant. */
  lemma {:induction false} StatusVariantIdempotent(status: string)
    ensures StatusVariant(StatusVariant(status)) == StatusVariant(status)
  {
    var v := StatusVariant(status);
    assert Lower(v) == v by {
      if Lower(status) in Variants {
        LowerIdempotent(status);
      } else {
        var w := "inactive";
        assert forall i :: 0 <= i < |w| ==> 'a' <= w[i] <= 'z';
      }
    }
    assert Lower(v) in Variants;
  }
}
