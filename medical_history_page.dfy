/**
 * The medical-history page: the records shown under the active tab and the
 * search query, sorted by date or by record type; the tab counters; and the
 * page-number window of its pagination bar.
 */
module MedicalHistoryPage {
  import opened Wrappers
  import opened Strings
  import opened Seqs

  /** The fields of a medical record the page reads; absent values are None. */
  datatype MedicalRecord = MedicalRecord(
    recordDate: Option<string>,
    diagnosis: Option<string>,
    symptoms: Option<string>,
    treatments: Option<string>,
    doctorName: Option<string>,
    hospital: Option<string>,
    notes: Option<string>,
    recordType: Option<string>)

  const AllTab := "all"
  const TypeOrder: seq<string> := ["checkup", "hospitalization", "surgery", "other"]

  /** `field && field.toLowerCase().includes(query)`. */
  predicate FieldMatches(field: Option<string>, query: string) {
    field.Some? && field.value != "" && Contains(Lower(field.value), query)
  }

  /** A searched field that is present and not empty. */
  predicate Filled(field: Option<string>) {
    field.Some? && field.value != ""
  }

  /** The search looks at diagnosis, symptoms, doctor and hospital only: a
      record with none of them filled never matches, and an empty query
      matches every record with one of them filled. */
  function MatchesQuery(r: MedicalRecord, query: string): (b: bool)
    ensures b ==> Filled(r.diagnosis) || Filled(r.symptoms) || Filled(r.doctorName) || Filled(r.hospital)
    ensures query == "" ==> (b <==> Filled(r.diagnosis) || Filled(r.symptoms) || Filled(r.doctorName) || Filled(r.hospital))
  {
    var q := Lower(query);
    EveryContainsEmpty();
    assert query == "" ==> q == "";
    FieldMatches(r.diagnosis, q) || FieldMatches(r.symptoms, q) ||
    FieldMatches(r.doctorName, q) || FieldMatches(r.hospital, q)
  }

  /** The filter callback: the tab first, then a non-blank (untrimmed) query. */
  predicate Shown(r: MedicalRecord, activeTab: string, searchQuery: string) {
    (activeTab == AllTab || r.recordType == Some(activeTab)) &&
    (JsTrim(searchQuery) != "" ==> MatchesQuery(r, searchQuery))
  }

  /** typeOrder.indexOf(record_type || 'other'): -1 for an unlisted type. */
  function TypeIndex(recordType: Option<string>): (r: int)
    ensures -1 <= r < |TypeOrder|
    ensures 0 <= r ==> TypeOrder[r] == (if recordType.Some? && recordType.value != "" then recordType.value else "other")
  {
    var t := if recordType.Some? && recordType.value != "" then recordType.value else "other";
    if t == "checkup" then 0
    else if t == "hospitalization" then 1
    else if t == "surgery" then 2
    else if t == "other" then 3
    else -1
  }

  /** The sort key: ascending order of this key is the order of the comparator
      the page passes to sort. `timeOf` stands for new Date(record_date || '').getTime(). */
  function SortKey(r: MedicalRecord, sortBy: string, sortOrder: string, timeOf: string -> int): int {
    var k := if sortBy == "date" then timeOf(if r.recordDate.Some? then r.recordDate.value else "")
             else TypeIndex(r.recordType);
    if sortOrder == "desc" then -k else k
  }

  /** filteredAndSortedRecords. */
  function FilteredAndSorted(records: seq<MedicalRecord>, activeTab: string, searchQuery: string,
                             sortBy: string, sortOrder: string, timeOf: string -> int): (r: seq<MedicalRecord>)
    ensures multiset(r) == multiset(Filter(records, x => Shown(x, activeTab, searchQuery)))
    ensures SortedBy(r, x => SortKey(x, sortBy, sortOrder, timeOf))
  {
    var f := Filter(records, x => Shown(x, activeTab, searchQuery));
    SortByPermutation(f, x => SortKey(x, sortBy, sortOrder, timeOf));
    SortBySorted(f, x => SortKey(x, sortBy, sortOrder, timeOf));
    SortBy(f, x => SortKey(x, sortBy, sortOrder, timeOf))
  }

  /** A record is shown exactly when it is one of the records, it belongs to
      the active tab (or the tab is 'all') and, for a non-blank query, the
      lower-cased query occurs in one of the four searched fields. */
  lemma ShownIff(records: seq<MedicalRecord>, activeTab: string, searchQuery: string,
                 sortBy: string, sortOrder: string, timeOf: string -> int, r: MedicalRecord)
    ensures r in FilteredAndSorted(records, activeTab, searchQuery, sortBy, sortOrder, timeOf) <==>
      r in records &&
      (activeTab == AllTab || r.recordType == Some(activeTab)) &&
      (JsTrim(searchQuery) != "" ==> MatchesQuery(r, searchQuery))
  {
    var p := (x: MedicalRecord) => Shown(x, activeTab, searchQuery);
    var f := Filter(records, p);
    SortByPermutation(f, x => SortKey(x, sortBy, sortOrder, timeOf));
    FilterMembers(records, p, r);
    assert r in f <==> r in multiset(f);
  }

  /** The output is ordered by the chosen key and direction. */
  lemma OutputSorted(records: seq<MedicalRecord>, activeTab: string, searchQuery: string,
                     sortBy: string, sortOrder: string, timeOf: string -> int)
    ensures SortedBy(FilteredAndSorted(records, activeTab, searchQuery, sortBy, sortOrder, timeOf),
                     r => SortKey(r, sortBy, sortOrder, timeOf))
  {
    SortBySorted(Filter(records, r => Shown(r, activeTab, searchQuery)), r => SortKey(r, sortBy, sortOrder, timeOf));
  }

  /** Records with the same sort key keep the order they have among the
      shown records. */
  lemma OutputStable(records: seq<MedicalRecord>, activeTab: string, searchQuery: string,
                     sortBy: string, sortOrder: string, timeOf: string -> int, k: int)
    ensures var key := (x: MedicalRecord) => SortKey(x, sortBy, sortOrder, timeOf);
      Filter(FilteredAndSorted(records, activeTab, searchQuery, sortBy, sortOrder, timeOf), KeyIs(key, k)) ==
      Filter(Filter(records, x => Shown(x, activeTab, searchQuery)), KeyIs(key, k))
  {
    SortByStable(Filter(records, x => Shown(x, activeTab, searchQuery)), x => SortKey(x, sortBy, sortOrder, timeOf), k);
  }

  /** Under the 'all' tab with a blank query the page shows a permutation of
      all records. */
  lemma AllTabIsPermutation(records: seq<MedicalRecord>, searchQuery: string,
                            sortBy: string, sortOrder: string, timeOf: string -> int)
    requires JsTrim(searchQuery) == ""
    ensures multiset(FilteredAndSorted(records, AllTab, searchQuery, sortBy, sortOrder, timeOf)) == multiset(records)
  {
    var p := (x: MedicalRecord) => Shown(x, AllTab, searchQuery);
    FilterAll(records, p);
    SortByPermutation(records, x => SortKey(x, sortBy, sortOrder, timeOf));
  }

  /** Treatments and notes play no part in the search. */
  lemma SearchIgnoresTreatmentsAndNotes(r: MedicalRecord, treatments: Option<string>, notes: Option<string>,
                                         activeTab: string, searchQuery: string)
    ensures Shown(r.(treatments := treatments, notes := notes), activeTab, searchQuery) == Shown(r, activeTab, searchQuery)
  {
  }

  /** The type order is checkup < hospitalization < surgery < other, a
      missing or empty type ranks as 'other' and an unlisted one before all. */
  lemma TypeRanks()
    ensures TypeIndex(Some("checkup")) < TypeIndex(Some("hospitalization")) < TypeIndex(Some("surgery")) < TypeIndex(Some("other"))
    ensures TypeIndex(None) == TypeIndex(Some("")) == TypeIndex(Some("other"))
    ensures forall t :: t !in TypeOrder && t != "" ==> TypeIndex(Some(t)) == -1
  {
  }

  /** getTabCount. */
  function TabCount(records: seq<MedicalRecord>, tabType: string): nat {
    if tabType == AllTab then |records| else Count(records, (r: MedicalRecord) => r.recordType == Some(tabType))
  }

  /** A tab's counter is the number of records the page shows under that tab
      with a blank search. */
  lemma TabCountIsShownCount(records: seq<MedicalRecord>, tabType: string, searchQuery: string,
                             sortBy: string, sortOrder: string, timeOf: string -> int)
    requires JsTrim(searchQuery) == ""
    ensures TabCount(records, tabType) == |FilteredAndSorted(records, tabType, searchQuery, sortBy, sortOrder, timeOf)|
  {
    var p := (x: MedicalRecord) => Shown(x, tabType, searchQuery);
    if tabType == AllTab {
      FilterAll(records, p);
    } else {
      FilterCount(records, p);
      CountSame(records, p, (r: MedicalRecord) => r.recordType == Some(tabType));
    }
  }

  /** The numbered buttons of the page bar: min(5, totalPages) slots from
      max(1, page - 2); a slot past the last page renders nothing. */
  function PageSlots(page: int, totalPages: int): (r: seq<Option<int>>)
    ensures |r| == (if totalPages < 0 then 0 else if totalPages < 5 then totalPages else 5)
  {
    var n := if totalPages < 0 then 0 else if totalPages < 5 then totalPages else 5;
    var first := if 1 > page - 2 then 1 else page - 2;
    seq(n, i requires 0 <= i < n => if i + first <= totalPages then Some(i + first) else None)
  }

  /** The rendered buttons start at max(1, page - 2) and are consecutive
      pages inside 1..totalPages, the valid current page among them; a slot
      is empty exactly when its page would pass the last one. */
  lemma PageSlotsWindow(page: int, totalPages: int)
    requires 1 <= page <= totalPages
    ensures var r, start := PageSlots(page, totalPages), if 1 > page - 2 then 1 else page - 2;
      |r| >= 1 && r[0] == Some(start) &&
      (forall i :: 0 <= i < |r| ==> (r[i].None? <==> start + i > totalPages)) &&
      (forall i :: 0 <= i < |r| && r[i].Some? ==> r[i].value == start + i) &&
      (forall i :: 0 <= i < |r| && r[i].Some? ==> 1 <= r[i].value <= totalPages) &&
      (forall i :: 0 < i < |r| && r[i].Some? ==> r[i - 1] == Some(r[i].value - 1)) &&
      (exists i :: 0 <= i < |r| && r[i] == Some(page))
  {
    var first := if 1 > page - 2 then 1 else page - 2;
    var r := PageSlots(page, totalPages);
    assert r[page - first] == Some(page);
  }
}
