/**
 * The catalog collector of `download_annotations.py` (and of its translated copy
 * `download_mixamo_annotations.py`): field-level comparison of two records,
 * the page loop of one search query, the merge of a query's records into a
 * deduplicated catalog, and the loop over the fixed query list with its two
 * early-stop rules.
 *
 * Each page request is an input: `Some(page)` for a decoded reply, `None` for a
 * failed request (or an empty JSON object, which Python also treats as failure).
 */
module Annotations {
  import opened Wrappers
  import opened JsonValues

  /** One decoded page of search results; `None` marks a missing `pagination` field. */
  datatype Page = Page(results: seq<Record>, numPages: Option<int>, numResults: Option<int>)

  /** One entry of the list `compare_animations` returns. */
  datatype FieldDiff = FieldDiff(field: string, value1: Json, value2: Json)

  /** One appearance of an id: the query that returned it and the record as returned. */
  datatype Occurrence = Occurrence(query: string, data: Record)

  /** One entry of `different_duplicates`. */
  datatype DivergentDuplicate = DivergentDuplicate(id: Json, name: Json, queries: seq<string>, differences: seq<FieldDiff>)

  /**
   * The collector's state: `all_animations`, `duplicate_info`, `different_duplicates`
   * and `total_fetched`.
   */
  datatype Collector = Collector(
    catalog: map<Json, Record>,
    occurrences: map<Json, seq<Occurrence>>,
    divergent: seq<DivergentDuplicate>,
    totalFetched: nat)

  /** The statistics kept per executed query (`letter_stats`). */
  datatype QueryStat = QueryStat(query: string, fetched: nat, added: nat, duplicate: nat)

  /** What `download_all_annotations` has gathered when it stops enumerating. */
  datatype Enumeration = Enumeration(totalResults: int, collector: Collector, stats: seq<QueryStat>)

  /** Stop after this many consecutive queries that brought nothing new (`max_no_new`). */
  const MaxNoNew: nat := 5

  /** The query fragments, in order: the 26 lower-case letters, the 10 digits, then the empty query. */
  const SearchQueries: seq<string> := [
    "a", "b", "c", "d", "e", "f", "g", "h", "i", "j", "k", "l", "m",
    "n", "o", "p", "q", "r", "s", "t", "u", "v", "w", "x", "y", "z",
    "0", "1", "2", "3", "4", "5", "6", "7", "8", "9", ""]

  // ---------------------------------------------------------------------------
  // compare_animations

  /** The differing fields of two records over the union of their keys, with `.get` semantics. */
  function Differences(a: Record, b: Record): set<FieldDiff>
  {
    set k | k in a.Keys + b.Keys && Get(a, k) != Get(b, k) :: FieldDiff(k, Get(a, k), Get(b, k))
  }

  function Swap(d: FieldDiff): FieldDiff
  {
    FieldDiff(d.field, d.value2, d.value1)
  }

  /**
   * `compare_animations`: walks the union of both key sets (in Python's set order,
   * which is unspecified and so chosen arbitrarily here) and lists every field
   * whose values differ.
   */
  method CompareAnimations(a: Record, b: Record) returns (same: bool, differences: seq<FieldDiff>)
    ensures same <==> differences == []
    ensures same <==> forall k :: Get(a, k) == Get(b, k)
    ensures forall d :: d in differences <==> d in Differences(a, b)
    ensures forall i, j :: 0 <= i < j < |differences| ==> differences[i].field != differences[j].field
  {
    var keys := a.Keys + b.Keys;
    ghost var seen: set<string> := {};
    differences := [];
    while keys != {}
      invariant keys !! seen && keys + seen == a.Keys + b.Keys
      invariant forall d :: d in differences <==> d in Differences(a, b) && d.field in seen
      invariant forall i :: 0 <= i < |differences| ==> differences[i].field in seen
      invariant forall i, j :: 0 <= i < j < |differences| ==> differences[i].field != differences[j].field
      decreases keys
    {
      var key :| key in keys;
      var val1 := Get(a, key);
      var val2 := Get(b, key);
      if val1 != val2 {
        differences := differences + [FieldDiff(key, val1, val2)];
      }
      keys := keys - {key};
      seen := seen + {key};
    }
    same := |differences| == 0;
    DifferencesEmptyIff(a, b);
    if Differences(a, b) != {} {
      var d :| d in Differences(a, b);
      assert d in differences;
    }
    if differences != [] {
      assert differences[0] in Differences(a, b);
    }
  }

  /** Two records compare as the same exactly when `.get` agrees on every key. */
  lemma DifferencesEmptyIff(a: Record, b: Record)
    ensures Differences(a, b) == {} <==> forall k :: Get(a, k) == Get(b, k)
  {
    forall k | Get(a, k) != Get(b, k) ensures FieldDiff(k, Get(a, k), Get(b, k)) in Differences(a, b) {
    }
  }

  /** A record compares as the same as itself. */
  lemma DifferencesReflexive(a: Record)
    ensures Differences(a, a) == {}
  {
  }

  /** Swapping the arguments keeps the verdict and swaps `value1` and `value2` in every entry. */
  lemma DifferencesSymmetric(a: Record, b: Record)
    ensures Differences(b, a) == set d | d in Differences(a, b) :: Swap(d)
  {
    var l := Differences(b, a);
    var r := set d | d in Differences(a, b) :: Swap(d);
    forall d | d in l ensures d in r {
      var e := Swap(d);
      assert e in Differences(a, b);
      assert Swap(e) == d;
    }
  }

  /** An explicit null and a missing key compare as equal. */
  lemma NullMatchesMissing(a: Record, key: string)
    requires key !in a
    ensures Differences(a[key := JNull], a) == {}
  {
    DifferencesEmptyIff(a[key := JNull], a);
  }

  // ---------------------------------------------------------------------------
  // fetch_by_letter

  /** The reply for the page with 0-based index `i`; pages past the given replies fail. */
  function PageReply(replies: seq<Option<Page>>, i: nat): Option<Page>
  {
    if i < |replies| then replies[i] else None
  }

  /** `pagination.get("num_pages", 1)` as `fetch_by_letter` reads it. */
  function PagesAnnounced(p: Page): int
  {
    p.numPages.GetOr(1)
  }

  /** The results of the given successful pages, concatenated in page order. */
  function ResultsOf(pages: seq<Option<Page>>): seq<Record>
  {
    if pages == [] then []
    else ResultsOf(pages[..|pages| - 1]) + (match pages[|pages| - 1] case Some(p) => p.results case None => [])
  }

  /**
   * The number of pages `fetch_by_letter` reads successfully when it is about to request
   * the page with 0-based index `i`: none more if that request fails, this one only if its
   * reply announces no further page, otherwise this one and those after it.
   */
  function PagesFrom(replies: seq<Option<Page>>, i: nat): (n: nat)
    requires i <= |replies|
    ensures i <= n <= |replies|
    decreases |replies| - i
  {
    if i == |replies| || replies[i].None? then i
    else if i + 1 >= PagesAnnounced(replies[i].value) then i + 1
    else PagesFrom(replies, i + 1)
  }

  /** The records `fetch_by_letter` returns for the given page replies. */
  function Fetched(replies: seq<Option<Page>>): seq<Record>
  {
    ResultsOf(replies[..PagesFrom(replies, 0)])
  }

  /**
   * `fetch_by_letter`: requests pages 1, 2, ... while the page number does not exceed the
   * page count announced by the latest reply, and stops at the first failed page.
   * `pagesRead` counts the pages that were read successfully.
   */
  method FetchByLetter(replies: seq<Option<Page>>) returns (animations: seq<Record>, pagesRead: nat)
    ensures pagesRead == PagesFrom(replies, 0) && animations == Fetched(replies)
    ensures pagesRead <= |replies|
    ensures forall i :: 0 <= i < pagesRead ==> replies[i].Some?
    ensures animations == ResultsOf(replies[..pagesRead])
    ensures forall i :: 0 <= i < pagesRead - 1 ==> i + 1 < PagesAnnounced(replies[i].value)
    ensures PageReply(replies, pagesRead).None?
            || (pagesRead >= 1 && pagesRead >= PagesAnnounced(replies[pagesRead - 1].value))
  {
    animations := [];
    var page := 1;
    var totalPages := 1;
    while page <= totalPages
      invariant 1 <= page <= |replies| + 1
      invariant forall i :: 0 <= i < page - 1 ==> replies[i].Some?
      invariant animations == ResultsOf(replies[..page - 1])
      invariant forall i :: 0 <= i < page - 2 ==> i + 1 < PagesAnnounced(replies[i].value)
      invariant page == 1 ==> totalPages == 1
      invariant page > 1 ==> totalPages == PagesAnnounced(replies[page - 2].value)
      invariant PagesFrom(replies, 0) == if page <= totalPages then PagesFrom(replies, page - 1) else page - 1
      decreases |replies| + 1 - page
    {
      var pageData := PageReply(replies, page - 1);
      if pageData.None? {
        break;
      }
      assert replies[..page] == replies[..page - 1] + [replies[page - 1]];
      animations := animations + pageData.value.results;
      totalPages := PagesAnnounced(pageData.value);
      page := page + 1;
    }
    pagesRead := page - 1;
  }

  // ---------------------------------------------------------------------------
  // The merge loop of download_all_annotations

  /** `animation.get("id")`. */
  function IdOf(r: Record): Json
  {
    Get(r, "id")
  }

  /** A record whose id is present and truthy; the others are skipped. */
  predicate HasId(r: Record)
  {
    IdOf(r).Truthy()
  }

  /** The ids carried by the first `n` records, skipping those without one. */
  function IdsIn(rs: seq<Record>, n: nat): set<Json>
    requires n <= |rs|
  {
    if n == 0 then {} else IdsIn(rs, n - 1) + (if HasId(rs[n - 1]) then {IdOf(rs[n - 1])} else {})
  }

  /** How many of the first `n` records carry an id. */
  function CountIds(rs: seq<Record>, n: nat): nat
    requires n <= |rs|
  {
    if n == 0 then 0 else CountIds(rs, n - 1) + (if HasId(rs[n - 1]) then 1 else 0)
  }

  /** The occurrences of `id` that the first `n` records of one query add, in order. */
  function OccurrencesIn(query: string, rs: seq<Record>, n: nat, id: Json): seq<Occurrence>
    requires n <= |rs|
  {
    if n == 0 then []
    else OccurrencesIn(query, rs, n - 1, id) + (if HasId(rs[n - 1]) && IdOf(rs[n - 1]) == id then [Occurrence(query, rs[n - 1])] else [])
  }

  function OccurrencesOf(c: Collector, id: Json): seq<Occurrence>
  {
    if id in c.occurrences then c.occurrences[id] else []
  }

  function QueriesOf(os: seq<Occurrence>): seq<string>
  {
    seq(|os|, i requires 0 <= i < |os| => os[i].query)
  }

  function Length(os: seq<Occurrence>): nat
  {
    |os|
  }

  /** How many occurrences after the first differ from the first. */
  function CountDiffering(os: seq<Occurrence>): nat
  {
    if |os| <= 1 then 0
    else CountDiffering(os[..|os| - 1]) + (if Differences(os[0].data, os[|os| - 1].data) != {} then 1 else 0)
  }

  /** The sum of `f` over the values of a map. */
  ghost function SumBy(m: map<Json, seq<Occurrence>>, f: seq<Occurrence> -> nat): nat
    decreases |m|
  {
    if m == map[] then 0
    else
      var k :| k in m;
      f(m[k]) + SumBy(m - {k}, f)
  }

  lemma {:induction false} SumByRemove(m: map<Json, seq<Occurrence>>, f: seq<Occurrence> -> nat, k: Json)
    requires k in m
    ensures SumBy(m, f) == f(m[k]) + SumBy(m - {k}, f)
    decreases |m|
  {
    var k' :| k' in m && SumBy(m, f) == f(m[k']) + SumBy(m - {k'}, f);
    if k' != k {
      assert (m - {k'}).Keys == m.Keys - {k'};
      assert (m - {k}).Keys == m.Keys - {k};
      SumByRemove(m - {k'}, f, k);
      SumByRemove(m - {k}, f, k');
      assert m - {k'} - {k} == m - {k} - {k'};
    }
  }

  /** Replacing (or adding) one value changes the sum by the difference. */
  lemma SumByUpdate(m: map<Json, seq<Occurrence>>, f: seq<Occurrence> -> nat, k: Json, v: seq<Occurrence>)
    ensures SumBy(m[k := v], f) + (if k in m then f(m[k]) else 0) == SumBy(m, f) + f(v)
  {
    SumByRemove(m[k := v], f, k);
    assert m[k := v] - {k} == m - {k};
    if k in m {
      SumByRemove(m, f, k);
    } else {
      assert m - {k} == m;
    }
  }

  /** The first occurrence of an id is the catalog's record for it, and every occurrence carries that id. */
  predicate OccurrencesAgree(id: Json, os: seq<Occurrence>, first: Record)
  {
    |os| >= 1 && os[0].data == first && forall j :: 0 <= j < |os| ==> IdOf(os[j].data) == id
  }

  /**
   * A divergent-duplicate entry stands for one later occurrence of its id: it lists the
   * queries seen up to and including that occurrence, and exactly the fields in which
   * that occurrence differs from the first-seen record, first-seen values as `value1`.
   */
  ghost predicate EntryAgrees(c: Collector, e: DivergentDuplicate)
  {
    && e.id in c.occurrences && e.id in c.catalog
    && 2 <= |e.queries| <= |c.occurrences[e.id]|
    && e.queries == QueriesOf(c.occurrences[e.id][..|e.queries|])
    && e.name == Get(c.occurrences[e.id][|e.queries| - 1].data, "name")
    && e.differences != []
    && forall d :: d in e.differences <==> d in Differences(c.catalog[e.id], c.occurrences[e.id][|e.queries| - 1].data)
  }

  /** Every id has a nonempty occurrence list that starts with its catalog record. */
  ghost predicate OccurrencesValid(c: Collector)
  {
    && c.catalog.Keys == c.occurrences.Keys
    && forall id :: id in c.occurrences ==> OccurrencesAgree(id, c.occurrences[id], c.catalog[id])
  }

  /** `total_fetched` counts every occurrence, and there is one entry per later occurrence that differs. */
  ghost predicate CountsValid(c: Collector)
  {
    && c.totalFetched == SumBy(c.occurrences, Length)
    && |c.divergent| == SumBy(c.occurrences, CountDiffering)
  }

  ghost predicate EntriesValid(c: Collector)
  {
    forall i :: 0 <= i < |c.divergent| ==> EntryAgrees(c, c.divergent[i])
  }

  /** No two entries stand for the same occurrence. */
  predicate EntriesDistinct(ds: seq<DivergentDuplicate>)
  {
    forall i, j :: 0 <= i < j < |ds| ==> ds[i].id != ds[j].id || |ds[i].queries| != |ds[j].queries|
  }

  /** The invariant the merge loop keeps. */
  ghost predicate Valid(c: Collector)
  {
    OccurrencesValid(c) && CountsValid(c) && EntriesValid(c) && EntriesDistinct(c.divergent)
  }

  /** The state before the first query. */
  lemma EmptyValid()
    ensures Valid(Collector(map[], map[], [], 0))
  {
  }

  /** The collector after recording the first occurrence of a record's id. */
  function AddFirst(c: Collector, query: string, a: Record): Collector
  {
    Collector(c.catalog[IdOf(a) := a], c.occurrences[IdOf(a) := [Occurrence(query, a)]], c.divergent, c.totalFetched + 1)
  }

  /** The entry `download_all_annotations` appends for a differing later occurrence. */
  function EntryFor(c: Collector, query: string, a: Record, differences: seq<FieldDiff>): DivergentDuplicate
  {
    DivergentDuplicate(IdOf(a), Get(a, "name"), QueriesOf(OccurrencesOf(c, IdOf(a)) + [Occurrence(query, a)]), differences)
  }

  /** The collector after recording a later occurrence, with its entry when it differs. */
  function AddLater(c: Collector, query: string, a: Record, differences: seq<FieldDiff>): Collector
  {
    Collector(c.catalog, c.occurrences[IdOf(a) := OccurrencesOf(c, IdOf(a)) + [Occurrence(query, a)]],
              c.divergent + (if differences == [] then [] else [EntryFor(c, query, a, differences)]), c.totalFetched + 1)
  }

  /**
   * One iteration of the merge loop for a record that carries an id: record the occurrence,
   * then either add the record to the catalog or compare it with the first-seen one.
   */
  method MergeRecord(c: Collector, query: string, animation: Record) returns (c': Collector, isNew: bool)
    requires Valid(c) && HasId(animation)
    ensures Valid(c')
    ensures isNew <==> IdOf(animation) !in c.catalog
    ensures c'.catalog == if isNew then c.catalog[IdOf(animation) := animation] else c.catalog
    ensures c'.occurrences == c.occurrences[IdOf(animation) := OccurrencesOf(c, IdOf(animation)) + [Occurrence(query, animation)]]
    ensures c'.totalFetched == c.totalFetched + 1
    ensures c.divergent <= c'.divergent
    ensures |c'.divergent| == |c.divergent| + if !isNew && Differences(c.catalog[IdOf(animation)], animation) != {} then 1 else 0
  {
    var id := IdOf(animation);
    isNew := id !in c.catalog;
    if isNew {
      c' := AddFirst(c, query, animation);
      ValidFirst(c, query, animation);
      assert OccurrencesOf(c, id) + [Occurrence(query, animation)] == [Occurrence(query, animation)];
    } else {
      var same, differences := CompareAnimations(c.catalog[id], animation);
      DifferencesEmptyIff(c.catalog[id], animation);
      c' := AddLater(c, query, animation, differences);
      ValidLater(c, query, animation, differences);
    }
  }

  /** Recording the first occurrence of an id keeps `Valid`. */
  lemma ValidFirst(c: Collector, query: string, a: Record)
    requires Valid(c) && HasId(a) && IdOf(a) !in c.catalog
    ensures Valid(AddFirst(c, query, a))
    ensures OccurrencesOf(c, IdOf(a)) == []
  {
    var c' := AddFirst(c, query, a);
    OccurrencesFirst(c, query, a);
    SumByUpdate(c.occurrences, Length, IdOf(a), [Occurrence(query, a)]);
    SumByUpdate(c.occurrences, CountDiffering, IdOf(a), [Occurrence(query, a)]);
    EntriesFirst(c, query, a);
  }

  lemma OccurrencesFirst(c: Collector, query: string, a: Record)
    requires OccurrencesValid(c) && HasId(a) && IdOf(a) !in c.catalog
    ensures OccurrencesValid(AddFirst(c, query, a))
  {
  }

  lemma EntriesFirst(c: Collector, query: string, a: Record)
    requires OccurrencesValid(c) && EntriesValid(c) && HasId(a) && IdOf(a) !in c.catalog
    ensures EntriesValid(AddFirst(c, query, a))
  {
    var c' := AddFirst(c, query, a);
    forall i | 0 <= i < |c'.divergent| ensures EntryAgrees(c', c'.divergent[i]) {
      assert EntryAgrees(c, c.divergent[i]);
    }
  }

  /** Recording a later occurrence of an id, and the entry for it when it differs, keeps `Valid`. */
  lemma ValidLater(c: Collector, query: string, a: Record, differences: seq<FieldDiff>)
    requires Valid(c) && HasId(a) && IdOf(a) in c.catalog
    requires differences == [] <==> Differences(c.catalog[IdOf(a)], a) == {}
    requires forall d :: d in differences <==> d in Differences(c.catalog[IdOf(a)], a)
    ensures Valid(AddLater(c, query, a, differences))
  {
    var id := IdOf(a);
    var occ := OccurrencesOf(c, id) + [Occurrence(query, a)];
    OccurrencesLater(c, query, a, differences);
    CountsLater(c, query, a, differences);
    EntriesLater(c, query, a, differences);
    DistinctLater(c, query, a, differences);
  }

  lemma OccurrencesLater(c: Collector, query: string, a: Record, differences: seq<FieldDiff>)
    requires OccurrencesValid(c) && HasId(a) && IdOf(a) in c.catalog
    ensures OccurrencesValid(AddLater(c, query, a, differences))
  {
  }

  lemma CountsLater(c: Collector, query: string, a: Record, differences: seq<FieldDiff>)
    requires OccurrencesValid(c) && CountsValid(c) && HasId(a) && IdOf(a) in c.catalog
    requires differences == [] <==> Differences(c.catalog[IdOf(a)], a) == {}
    ensures CountsValid(AddLater(c, query, a, differences))
  {
    var id := IdOf(a);
    var occ := OccurrencesOf(c, id) + [Occurrence(query, a)];
    assert occ[..|occ| - 1] == c.occurrences[id];
    SumByUpdate(c.occurrences, Length, id, occ);
    SumByUpdate(c.occurrences, CountDiffering, id, occ);
  }

  lemma EntriesLater(c: Collector, query: string, a: Record, differences: seq<FieldDiff>)
    requires OccurrencesValid(c) && EntriesValid(c) && HasId(a) && IdOf(a) in c.catalog
    requires differences == [] <==> Differences(c.catalog[IdOf(a)], a) == {}
    requires forall d :: d in differences <==> d in Differences(c.catalog[IdOf(a)], a)
    ensures EntriesValid(AddLater(c, query, a, differences))
  {
    var id := IdOf(a);
    var occ := OccurrencesOf(c, id) + [Occurrence(query, a)];
    var c' := AddLater(c, query, a, differences);
    forall i | 0 <= i < |c'.divergent| ensures EntryAgrees(c', c'.divergent[i]) {
      if i < |c.divergent| {
        var e := c.divergent[i];
        assert EntryAgrees(c, e);
        if e.id == id {
          assert c'.occurrences[id][..|e.queries|] == c.occurrences[id][..|e.queries|];
        }
      } else {
        assert occ[..|occ|] == occ;
      }
    }
  }

  lemma DistinctLater(c: Collector, query: string, a: Record, differences: seq<FieldDiff>)
    requires OccurrencesValid(c) && EntriesValid(c) && EntriesDistinct(c.divergent) && HasId(a) && IdOf(a) in c.catalog
    ensures EntriesDistinct(AddLater(c, query, a, differences).divergent)
  {
    var c' := AddLater(c, query, a, differences);
    if differences != [] {
      forall i | 0 <= i < |c.divergent| ensures c.divergent[i].id != IdOf(a) || |c.divergent[i].queries| != |c'.divergent[|c.divergent|].queries| {
        assert EntryAgrees(c, c.divergent[i]);
      }
    }
  }

  /**
   * The inner loop of `download_all_annotations` for one query: every record that carries an
   * id is recorded as an occurrence and counted either as new (and kept) or as a duplicate.
   */
  method MergeQuery(c: Collector, query: string, animations: seq<Record>)
    returns (c': Collector, newCount: nat, duplicateCount: nat)
    requires Valid(c)
    ensures Valid(c')
    ensures Extends(c.catalog, c'.catalog)
    ensures c'.catalog.Keys == c.catalog.Keys + IdsIn(animations, |animations|)
    ensures |c'.catalog| == |c.catalog| + newCount
    ensures newCount + duplicateCount == CountIds(animations, |animations|)
    ensures c'.totalFetched == c.totalFetched + CountIds(animations, |animations|)
    ensures forall id :: OccurrencesOf(c', id) == OccurrencesOf(c, id) + OccurrencesIn(query, animations, |animations|, id)
    ensures c.divergent <= c'.divergent
  {
    c', newCount, duplicateCount := c, 0, 0;
    ProgressStart(c, query, animations);
    var i := 0;
    while i < |animations|
      invariant 0 <= i <= |animations|
      invariant Valid(c')
      invariant Progress(c, c', query, animations, i, newCount, duplicateCount)
    {
      c', newCount, duplicateCount := MergeNext(c, c', query, animations, i, newCount, duplicateCount);
      i := i + 1;
    }
  }

  /** The body of the loop of `MergeQuery`: merge record `i` unless it has no id. */
  method MergeNext(c: Collector, c1: Collector, query: string, animations: seq<Record>, i: nat, newCount: nat, duplicateCount: nat)
    returns (c2: Collector, newCount': nat, duplicateCount': nat)
    requires i < |animations|
    requires Valid(c1) && Progress(c, c1, query, animations, i, newCount, duplicateCount)
    ensures Valid(c2) && Progress(c, c2, query, animations, i + 1, newCount', duplicateCount')
  {
    var animation := animations[i];
    if HasId(animation) {
      var isNew;
      c2, isNew := MergeRecord(c1, query, animation);
      ProgressStep(c, c1, c2, query, animations, i, isNew, newCount, duplicateCount);
      if isNew {
        newCount', duplicateCount' := newCount + 1, duplicateCount;
      } else {
        newCount', duplicateCount' := newCount, duplicateCount + 1;
      }
    } else {
      c2, newCount', duplicateCount' := c1, newCount, duplicateCount;
      ProgressSkip(c, c1, query, animations, i, newCount, duplicateCount);
    }
  }

  lemma ProgressStart(c: Collector, query: string, rs: seq<Record>)
    ensures Progress(c, c, query, rs, 0, 0, 0)
  {
    forall id ensures OccurrencesOf(c, id) == OccurrencesOf(c, id) + OccurrencesIn(query, rs, 0, id) {
      assert OccurrencesOf(c, id) + [] == OccurrencesOf(c, id);
    }
  }

  lemma ProgressSkip(c: Collector, c1: Collector, query: string, rs: seq<Record>, n: nat, newCount: nat, duplicateCount: nat)
    requires n < |rs| && !HasId(rs[n])
    requires Progress(c, c1, query, rs, n, newCount, duplicateCount)
    ensures Progress(c, c1, query, rs, n + 1, newCount, duplicateCount)
  {
    OccurrencesSkip(query, rs, n);
  }

  /** A record without an id adds no occurrence. */
  lemma OccurrencesSkip(query: string, rs: seq<Record>, n: nat)
    requires n < |rs| && !HasId(rs[n])
    ensures forall id :: OccurrencesIn(query, rs, n + 1, id) == OccurrencesIn(query, rs, n, id)
  {
    forall id ensures OccurrencesIn(query, rs, n + 1, id) == OccurrencesIn(query, rs, n, id) {
      assert OccurrencesIn(query, rs, n, id) + [] == OccurrencesIn(query, rs, n, id);
    }
  }

  /** What the first `n` records of one query have done to the collector. */
  ghost predicate Progress(c: Collector, c': Collector, query: string, rs: seq<Record>, n: nat, newCount: nat, duplicateCount: nat)
    requires n <= |rs|
  {
    && Extends(c.catalog, c'.catalog)
    && c'.catalog.Keys == c.catalog.Keys + IdsIn(rs, n)
    && |c'.catalog| == |c.catalog| + newCount
    && newCount + duplicateCount == CountIds(rs, n)
    && c'.totalFetched == c.totalFetched + CountIds(rs, n)
    && (forall id :: OccurrencesOf(c', id) == OccurrencesOf(c, id) + OccurrencesIn(query, rs, n, id))
    && c.divergent <= c'.divergent
  }

  /** Merging record `n`, which carries an id, keeps `Progress`. */
  lemma ProgressStep(c: Collector, c1: Collector, c2: Collector, query: string, rs: seq<Record>, n: nat,
                     isNew: bool, newCount: nat, duplicateCount: nat)
    requires n < |rs| && HasId(rs[n])
    requires Progress(c, c1, query, rs, n, newCount, duplicateCount)
    requires isNew <==> IdOf(rs[n]) !in c1.catalog
    requires c2.catalog == if isNew then c1.catalog[IdOf(rs[n]) := rs[n]] else c1.catalog
    requires c2.occurrences == c1.occurrences[IdOf(rs[n]) := OccurrencesOf(c1, IdOf(rs[n])) + [Occurrence(query, rs[n])]]
    requires c2.totalFetched == c1.totalFetched + 1
    requires c1.divergent <= c2.divergent
    ensures Progress(c, c2, query, rs, n + 1, newCount + (if isNew then 1 else 0), duplicateCount + (if isNew then 0 else 1))
  {
    var a := rs[n];
    assert IdsIn(rs, n + 1) == IdsIn(rs, n) + {IdOf(a)};
    assert CountIds(rs, n + 1) == CountIds(rs, n) + 1;
    OccurrencesStep(c, c1, c2, query, rs, n);
    CatalogStep(c.catalog, c1.catalog, c2.catalog, IdsIn(rs, n), IdOf(a), a, isNew, newCount);
  }

  /** Every entry of `m` is still in `m'`, unchanged. */
  predicate Extends<K, V(==)>(m: map<K, V>, m': map<K, V>)
  {
    forall k :: k in m ==> k in m' && m'[k] == m[k]
  }

  /** The catalog part of `ProgressStep`. */
  lemma CatalogStep<K, V>(m: map<K, V>, m1: map<K, V>, m2: map<K, V>, ks: set<K>, k: K, v: V, isNew: bool, newCount: nat)
    requires Extends(m, m1)
    requires m1.Keys == m.Keys + ks
    requires |m1| == |m| + newCount
    requires isNew <==> k !in m1
    requires m2 == if isNew then m1[k := v] else m1
    ensures Extends(m, m2)
    ensures m2.Keys == m.Keys + (ks + {k})
    ensures |m2| == |m| + newCount + (if isNew then 1 else 0)
  {
    CatalogKeysStep(m, m1, m2, ks, k, v, isNew);
    CatalogSizeStep(m1, m2, k, v, isNew);
  }

  lemma CatalogKeysStep<K, V>(m: map<K, V>, m1: map<K, V>, m2: map<K, V>, ks: set<K>, k: K, v: V, isNew: bool)
    requires Extends(m, m1)
    requires m1.Keys == m.Keys + ks
    requires isNew <==> k !in m1
    requires m2 == if isNew then m1[k := v] else m1
    ensures Extends(m, m2)
    ensures m2.Keys == m.Keys + (ks + {k})
  {
  }

  lemma CatalogSizeStep<K, V>(m1: map<K, V>, m2: map<K, V>, k: K, v: V, isNew: bool)
    requires isNew <==> k !in m1
    requires m2 == if isNew then m1[k := v] else m1
    ensures |m2| == |m1| + (if isNew then 1 else 0)
  {
    if isNew {
      assert m2.Keys == m1.Keys + {k};
    }
  }

  /** The occurrence part of `ProgressStep`. */
  lemma OccurrencesStep(c: Collector, c1: Collector, c2: Collector, query: string, rs: seq<Record>, n: nat)
    requires n < |rs| && HasId(rs[n])
    requires forall id :: OccurrencesOf(c1, id) == OccurrencesOf(c, id) + OccurrencesIn(query, rs, n, id)
    requires c2.occurrences == c1.occurrences[IdOf(rs[n]) := OccurrencesOf(c1, IdOf(rs[n])) + [Occurrence(query, rs[n])]]
    ensures forall id :: OccurrencesOf(c2, id) == OccurrencesOf(c, id) + OccurrencesIn(query, rs, n + 1, id)
  {
    forall id ensures OccurrencesOf(c2, id) == OccurrencesOf(c, id) + OccurrencesIn(query, rs, n + 1, id) {
      var extra := if HasId(rs[n]) && IdOf(rs[n]) == id then [Occurrence(query, rs[n])] else [];
      assert OccurrencesOf(c2, id) == OccurrencesOf(c1, id) + extra;
      assert (OccurrencesOf(c, id) + OccurrencesIn(query, rs, n, id)) + extra
          == OccurrencesOf(c, id) + (OccurrencesIn(query, rs, n, id) + extra);
    }
  }

  // ---------------------------------------------------------------------------
  // The query loop and its termination policy

  /** The stop rule checked before each query: the catalog is complete, or too many barren queries in a row. */
  predicate ShouldStop(unique: int, totalResults: int, noNewCount: nat)
  {
    unique >= totalResults || noNewCount >= MaxNoNew
  }

  /** Unique records gathered by the given queries. */
  function SumNew(stats: seq<QueryStat>): nat
  {
    if stats == [] then 0 else SumNew(stats[..|stats| - 1]) + stats[|stats| - 1].added
  }

  /** `no_new_count` after the given queries: the length of the trailing run of queries with nothing new. */
  function BarrenRun(stats: seq<QueryStat>): nat
  {
    if stats == [] then 0
    else if stats[|stats| - 1].added == 0 then BarrenRun(stats[..|stats| - 1]) + 1
    else 0
  }

  /** The executed queries are a prefix of the fixed list, and each was started only when the stop rule did not hold. */
  ghost predicate StartedUnderRule(stats: seq<QueryStat>, totalResults: int)
  {
    && |stats| <= |SearchQueries|
    && forall k :: 0 <= k < |stats| ==>
         stats[k].query == SearchQueries[k] && !ShouldStop(SumNew(stats[..k]), totalResults, BarrenRun(stats[..k]))
  }

  /** As `StartedUnderRule`, and a run that skips the rest of the list does so because the rule held. */
  ghost predicate FollowsStopRule(stats: seq<QueryStat>, totalResults: int)
  {
    && StartedUnderRule(stats, totalResults)
    && (|stats| < |SearchQueries| ==> ShouldStop(SumNew(stats), totalResults, BarrenRun(stats)))
  }

  /** Starting the next query of the list while the stop rule does not hold keeps `StartedUnderRule`. */
  lemma StartedStep(stats: seq<QueryStat>, stat: QueryStat, totalResults: int)
    requires StartedUnderRule(stats, totalResults) && |stats| < |SearchQueries|
    requires stat.query == SearchQueries[|stats|]
    requires !ShouldStop(SumNew(stats), totalResults, BarrenRun(stats))
    ensures StartedUnderRule(stats + [stat], totalResults)
    ensures SumNew(stats + [stat]) == SumNew(stats) + stat.added
    ensures BarrenRun(stats + [stat]) == if stat.added == 0 then BarrenRun(stats) + 1 else 0
  {
    StatTotals(stats, stat);
    var s := stats + [stat];
    forall k | 0 <= k < |s|
      ensures s[k].query == SearchQueries[k] && !ShouldStop(SumNew(s[..k]), totalResults, BarrenRun(s[..k]))
    {
      StartedAt(stats, stat, totalResults, k);
    }
  }

  /** The k-th query of the extended run was started under the rule. */
  lemma StartedAt(stats: seq<QueryStat>, stat: QueryStat, totalResults: int, k: nat)
    requires StartedUnderRule(stats, totalResults) && |stats| < |SearchQueries|
    requires stat.query == SearchQueries[|stats|]
    requires !ShouldStop(SumNew(stats), totalResults, BarrenRun(stats))
    requires k <= |stats|
    ensures var s := stats + [stat];
            s[k].query == SearchQueries[k] && !ShouldStop(SumNew(s[..k]), totalResults, BarrenRun(s[..k]))
  {
    var s := stats + [stat];
    if k < |stats| {
      assert s[k] == stats[k];
      assert s[..k] == stats[..k];
    } else {
      assert s[..k] == stats;
    }
  }

  /** Appending one query's statistics adds its new count and extends or resets the barren run. */
  lemma StatTotals(stats: seq<QueryStat>, stat: QueryStat)
    ensures SumNew(stats + [stat]) == SumNew(stats) + stat.added
    ensures BarrenRun(stats + [stat]) == if stat.added == 0 then BarrenRun(stats) + 1 else 0
  {
    assert (stats + [stat])[..|stats|] == stats;
  }

  function RepliesFor(replies: seq<seq<Option<Page>>>, k: nat): seq<Option<Page>>
  {
    if k < |replies| then replies[k] else []
  }

  /** The records fetched for the k-th query of the list. */
  function QueryRecords(replies: seq<seq<Option<Page>>>, k: nat): seq<Record>
  {
    Fetched(RepliesFor(replies, k))
  }

  /** The ids the first `n` queries of the list bring, skipping records without one. */
  function IdsAfter(replies: seq<seq<Option<Page>>>, n: nat): set<Json>
    requires n <= |SearchQueries|
  {
    if n == 0 then {}
    else IdsAfter(replies, n - 1) + IdsIn(QueryRecords(replies, n - 1), |QueryRecords(replies, n - 1)|)
  }

  /** Every occurrence of `id` in the first `n` queries of the list, in query order and page order. */
  function OccurrencesAfter(replies: seq<seq<Option<Page>>>, n: nat, id: Json): seq<Occurrence>
    requires n <= |SearchQueries|
  {
    if n == 0 then []
    else OccurrencesAfter(replies, n - 1, id)
         + OccurrencesIn(SearchQueries[n - 1], QueryRecords(replies, n - 1), |QueryRecords(replies, n - 1)|, id)
  }

  /**
   * The statistics of the k-th query agree with its replies: `fetched` counts every record
   * fetched, `new` the ids no earlier query brought, and `new + duplicate` the records
   * that carry an id.
   */
  predicate StatAgrees(replies: seq<seq<Option<Page>>>, k: nat, stat: QueryStat)
    requires k < |SearchQueries|
  {
    && stat.query == SearchQueries[k]
    && stat.fetched == |QueryRecords(replies, k)|
    && |IdsAfter(replies, k + 1)| == |IdsAfter(replies, k)| + stat.added
    && stat.added + stat.duplicate == CountIds(QueryRecords(replies, k), |QueryRecords(replies, k)|)
  }

  predicate StatsMatch(replies: seq<seq<Option<Page>>>, stats: seq<QueryStat>)
  {
    |stats| <= |SearchQueries| && forall k :: 0 <= k < |stats| ==> StatAgrees(replies, k, stats[k])
  }

  /**
   * The collector and the statistics are what the executed queries make of their replies:
   * the catalog holds exactly the ids fetched so far, each id's occurrences are all its
   * records in query and page order, and every query's statistics agree with its replies.
   */
  ghost predicate Gathered(replies: seq<seq<Option<Page>>>, stats: seq<QueryStat>, c: Collector)
  {
    && StatsMatch(replies, stats)
    && c.catalog.Keys == IdsAfter(replies, |stats|)
    && forall id :: OccurrencesOf(c, id) == OccurrencesAfter(replies, |stats|, id)
  }

  /**
   * One query of the loop of `download_all_annotations`: fetch its pages, merge the records
   * and report the query's statistics.
   */
  method RunQuery(c: Collector, query: string, pageReplies: seq<Option<Page>>) returns (c': Collector, stat: QueryStat)
    requires Valid(c)
    ensures Valid(c')
    ensures stat.query == query
    ensures stat.fetched == |Fetched(pageReplies)|
    ensures stat.added + stat.duplicate == CountIds(Fetched(pageReplies), |Fetched(pageReplies)|)
    ensures |c'.catalog| == |c.catalog| + stat.added
    ensures c'.catalog.Keys == c.catalog.Keys + IdsIn(Fetched(pageReplies), |Fetched(pageReplies)|)
    ensures forall id :: OccurrencesOf(c', id) == OccurrencesOf(c, id) + OccurrencesIn(query, Fetched(pageReplies), |Fetched(pageReplies)|, id)
    ensures Extends(c.catalog, c'.catalog)
    ensures c.divergent <= c'.divergent
  {
    var animations, _ := FetchByLetter(pageReplies);
    var newCount, duplicateCount;
    c', newCount, duplicateCount := MergeQuery(c, query, animations);
    stat := QueryStat(query, |animations|, newCount, duplicateCount);
  }

  /**
   * The enumeration part of `download_all_annotations`: the first page gives the server's
   * total (`num_results`, 0 when missing); then each query of the fixed list is fetched and
   * merged until the stop rule holds. `replies[k]` are the page replies for the k-th query.
   */
  method DownloadAllAnnotations(firstPage: Option<Page>, replies: seq<seq<Option<Page>>>) returns (r: Option<Enumeration>)
    ensures r.None? <==> firstPage.None?
    ensures r.Some? ==> r.value.totalResults == firstPage.value.numResults.GetOr(0)
    ensures r.Some? ==> Valid(r.value.collector)
    ensures r.Some? ==> FollowsStopRule(r.value.stats, r.value.totalResults)
    ensures r.Some? ==> |r.value.collector.catalog| == SumNew(r.value.stats)
    ensures r.Some? ==> Gathered(replies, r.value.stats, r.value.collector)
  {
    if firstPage.None? {
      return None;
    }
    var totalResults := firstPage.value.numResults.GetOr(0);
    var c := Collector(map[], map[], [], 0);
    EmptyValid();
    var stats: seq<QueryStat> := [];
    var noNewCount: nat := 0;
    var idx := 0;
    while idx < |SearchQueries|
      invariant idx == |stats| <= |SearchQueries|
      invariant Valid(c)
      invariant |c.catalog| == SumNew(stats)
      invariant noNewCount == BarrenRun(stats)
      invariant StartedUnderRule(stats, totalResults)
      invariant Gathered(replies, stats, c)
    {
      if |c.catalog| >= totalResults {
        break;
      }
      if noNewCount >= MaxNoNew {
        break;
      }
      var next, stat := RunQuery(c, SearchQueries[idx], RepliesFor(replies, idx));
      StartedStep(stats, stat, totalResults);
      QueryStep(replies, stats, c, next, stat);
      stats := stats + [stat];
      noNewCount := if stat.added == 0 then noNewCount + 1 else 0;
      c := next;
      idx := idx + 1;
    }
    r := Some(Enumeration(totalResults, c, stats));
  }

  /** Merging the next query of the list extends the fold over the replies by one query. */
  lemma QueryStep(replies: seq<seq<Option<Page>>>, stats: seq<QueryStat>, c: Collector, c': Collector, stat: QueryStat)
    requires |stats| < |SearchQueries| && Gathered(replies, stats, c)
    requires var rs := QueryRecords(replies, |stats|);
             && stat.query == SearchQueries[|stats|]
             && stat.fetched == |rs|
             && stat.added + stat.duplicate == CountIds(rs, |rs|)
             && |c'.catalog| == |c.catalog| + stat.added
             && c'.catalog.Keys == c.catalog.Keys + IdsIn(rs, |rs|)
             && forall id :: OccurrencesOf(c', id) == OccurrencesOf(c, id) + OccurrencesIn(stat.query, rs, |rs|, id)
    ensures Gathered(replies, stats + [stat], c')
  {
    var n := |stats|;
    var rs := QueryRecords(replies, n);
    assert |stats + [stat]| == n + 1;
    assert c'.catalog.Keys == IdsAfter(replies, n + 1);
    assert |c.catalog.Keys| == |c.catalog| && |c'.catalog.Keys| == |c'.catalog|;
    assert StatAgrees(replies, n, stat);
    StatsStep(replies, stats, stat);
    forall id ensures OccurrencesOf(c', id) == OccurrencesAfter(replies, n + 1, id) {
    }
  }

  lemma StatsStep(replies: seq<seq<Option<Page>>>, stats: seq<QueryStat>, stat: QueryStat)
    requires |stats| < |SearchQueries| && StatsMatch(replies, stats) && StatAgrees(replies, |stats|, stat)
    ensures StatsMatch(replies, stats + [stat])
  {
    var s := stats + [stat];
    forall k | 0 <= k < |s| ensures StatAgrees(replies, k, s[k]) {
      if k < |stats| {
        assert s[k] == stats[k];
      }
    }
  }

  /** In a gathered collector each catalog record is the first occurrence of its id over the executed queries. */
  lemma CatalogKeepsFirst(replies: seq<seq<Option<Page>>>, stats: seq<QueryStat>, c: Collector)
    requires Valid(c) && Gathered(replies, stats, c)
    ensures forall id :: id in c.catalog ==>
              && |OccurrencesAfter(replies, |stats|, id)| >= 1
              && c.catalog[id] == OccurrencesAfter(replies, |stats|, id)[0].data
  {
    forall id | id in c.catalog
      ensures && |OccurrencesAfter(replies, |stats|, id)| >= 1
              && c.catalog[id] == OccurrencesAfter(replies, |stats|, id)[0].data
    {
      assert OccurrencesOf(c, id) == c.occurrences[id];
    }
  }

  /** Once the unique count has reached the server's total, no further query is made. */
  lemma NoQueryAfterTotalReached(stats: seq<QueryStat>, totalResults: int, k: nat)
    requires FollowsStopRule(stats, totalResults)
    requires k <= |stats| && SumNew(stats[..k]) >= totalResults
    ensures |stats| == k
  {
  }

  /** After five queries in a row that brought nothing new, no further query is made. */
  lemma {:induction false} NoQueryAfterBarrenRun(stats: seq<QueryStat>, totalResults: int, k: nat)
    requires FollowsStopRule(stats, totalResults)
    requires MaxNoNew <= k <= |stats|
    requires forall j :: k - MaxNoNew <= j < k ==> stats[j].added == 0
    ensures |stats| == k
  {
    BarrenRunCounts(stats[..k], MaxNoNew);
  }

  lemma {:induction false} BarrenRunCounts(stats: seq<QueryStat>, n: nat)
    requires n <= |stats|
    requires forall j :: |stats| - n <= j < |stats| ==> stats[j].added == 0
    ensures BarrenRun(stats) >= n
  {
    if n > 0 {
      var init := stats[..|stats| - 1];
      assert forall j :: |init| - (n - 1) <= j < |init| ==> init[j].added == stats[j].added;
      BarrenRunCounts(init, n - 1);
    }
  }
}
