/** The job index kept as one JSON blob and as a SQLite table (utils/job_storage.py:107-140, 398-447,
    510-648, 714-743): the same listings from both. */
module JobIndex {
  import opened Collections

  datatype Status = Pending | Running | Completed | Failed | Cancelled

  /** A job summary; the fields no query looks at are kept together. */
  datatype Summary = Summary(jobId: string, org: string, user: string, status: Status, submittedAt: int, rest: string)

  /** A query; absent parts do not restrict. */
  datatype Filter = Filter(org: string, user: Option<string>, ids: Option<set<string>>, statuses: Option<set<Status>>)

  predicate Terminal(s: Status) {
    s == Completed || s == Failed || s == Cancelled
  }

  // ---- the order of a listing --------------------------------------------------------------

  /** Comparison of ids by code point, as both Python and SQLite do it. */
  predicate Less(a: string, b: string) {
    b != [] && (a == [] || a[0] < b[0] || (a[0] == b[0] && Less(a[1..], b[1..])))
  }

  lemma {:induction false} LessTotal(a: string, b: string)
    ensures a == b || Less(a, b) || Less(b, a)
    ensures !(Less(a, b) && Less(b, a)) && !Less(a, a)
  {
    if a != [] {
      LessTotal(a[1..], a[1..]);
      if b != [] {
        LessTotal(a[1..], b[1..]);
        assert a == [a[0]] + a[1..] && b == [b[0]] + b[1..];
      }
    }
  }

  lemma {:induction false} LessTransitive(a: string, b: string, c: string)
    requires Less(a, b) && Less(b, c)
    ensures Less(a, c)
  {
    if a != [] && a[0] == b[0] == c[0] {
      LessTransitive(a[1..], b[1..], c[1..]);
    }
  }

  /** Newest first; jobs of the same moment by descending id. */
  predicate Newer(a: Summary, b: Summary) {
    a.submittedAt > b.submittedAt || (a.submittedAt == b.submittedAt && Less(b.jobId, a.jobId))
  }

  lemma NewerTotal(a: Summary, b: Summary)
    requires a.jobId != b.jobId
    ensures Newer(a, b) <==> !Newer(b, a)
  {
    LessTotal(a.jobId, b.jobId);
  }

  lemma NewerTransitive(a: Summary, b: Summary, c: Summary)
    requires Newer(a, b) && Newer(b, c)
    ensures Newer(a, c)
  {
    if a.submittedAt == b.submittedAt == c.submittedAt {
      LessTransitive(c.jobId, b.jobId, a.jobId);
    }
  }

  ghost predicate Descending(s: seq<Summary>) {
    forall i, j :: 0 <= i < j < |s| ==> Newer(s[i], s[j])
  }

  ghost predicate UniqueIds(rows: set<Summary>) {
    forall a, b :: a in rows && b in rows && a.jobId == b.jobId ==> a == b
  }

  /** What `ORDER BY submitted_at_ts DESC, job_id DESC` makes of a set of rows. */
  ghost predicate IsListing(s: seq<Summary>, rows: set<Summary>) {
    Elems(s) == rows && Descending(s)
  }

  lemma {:induction false} ListingUnique(a: seq<Summary>, b: seq<Summary>, rows: set<Summary>)
    requires IsListing(a, rows) && IsListing(b, rows) && UniqueIds(rows)
    ensures a == b
  {
    DescendingDistinct(a);
    DescendingDistinct(b);
    DistinctSize(a);
    DistinctSize(b);
    if a != [] {
      assert a[0] in Elems(b) && b[0] in Elems(a);
      if a[0] != b[0] {
        NewerTotal(a[0], b[0]);
      }
      SameTail(a, b);
      ListingUnique(a[1..], b[1..], Elems(a[1..]));
      assert a == [a[0]] + a[1..] && b == [b[0]] + b[1..];
    }
  }

  lemma DescendingDistinct(s: seq<Summary>)
    requires Descending(s)
    ensures Distinct(s)
  {
    forall i, j | 0 <= i < j < |s| ensures s[i] != s[j] {
      LessTotal(s[i].jobId, s[i].jobId);
    }
  }

  function InsertByAge(x: Summary, s: seq<Summary>): (r: seq<Summary>)
    requires Descending(s) && forall i :: 0 <= i < |s| ==> s[i].jobId != x.jobId
    ensures Descending(r) && Elems(r) == Elems(s) + {x}
  {
    if s == [] then [x]
    else if Newer(x, s[0]) then
      assert Descending([x] + s) by { ConsDescending(x, s); }
      ElemsAppend([x], s);
      [x] + s
    else
      NewerTotal(x, s[0]);
      var rest := InsertByAge(x, s[1..]);
      ElemsAppend([s[0]], s[1..]);
      ElemsAppend([s[0]], rest);
      assert s == [s[0]] + s[1..];
      assert Descending([s[0]] + rest) by { HeadDescending(s, x, rest); }
      [s[0]] + rest
  }

  lemma ConsDescending(x: Summary, s: seq<Summary>)
    requires Descending(s) && s != [] && Newer(x, s[0])
    ensures Descending([x] + s)
  {
    forall j | 0 <= j < |s| ensures Newer(x, s[j]) {
      if j > 0 {
        NewerTransitive(x, s[0], s[j]);
      }
    }
  }

  lemma HeadDescending(s: seq<Summary>, x: Summary, rest: seq<Summary>)
    requires Descending(s) && s != [] && Newer(s[0], x) && Descending(rest) && Elems(rest) == Elems(s[1..]) + {x}
    ensures Descending([s[0]] + rest)
  {
    forall j | 0 <= j < |rest| ensures Newer(s[0], rest[j]) {
      assert rest[j] in Elems(rest);
      if rest[j] != x {
        assert rest[j] in Elems(s[1..]);
        var i :| 0 <= i < |s[1..]| && s[1..][i] == rest[j];
      }
    }
  }

  /** `sorted(..., reverse=True)` on entries of distinct jobs. */
  function SortByAge(s: seq<Summary>): (r: seq<Summary>)
    requires forall i, j :: 0 <= i < j < |s| ==> s[i].jobId != s[j].jobId
    ensures IsListing(r, Elems(s))
  {
    if s == [] then []
    else
      var n := |s| - 1;
      var front := SortByAge(s[..n]);
      ElemsSnoc(s, n);
      assert s[..n + 1] == s;
      assert forall i :: 0 <= i < |front| ==> front[i] in Elems(front);
      InsertByAge(s[n], front)
  }

  // ---- filters -----------------------------------------------------------------------------

  /** What `_filter_summaries` keeps: an empty set of statuses does not restrict, an empty set of ids does. */
  predicate Passes(f: Filter, s: Summary) {
    s.org == f.org && (f.user.Some? ==> s.user == f.user.value) && (f.ids.Some? ==> s.jobId in f.ids.value) &&
    (f.statuses.Some? && f.statuses.value != {} ==> s.status in f.statuses.value)
  }

  datatype Clause = Never | OrgIs(org: string) | UserIs(user: string) | IdIn(ids: set<string>) | StatusIn(statuses: set<Status>)

  predicate Holds(c: Clause, s: Summary) {
    match c
    case Never => false
    case OrgIs(org) => s.org == org
    case UserIs(user) => s.user == user
    case IdIn(ids) => s.jobId in ids
    case StatusIn(statuses) => s.status in statuses
  }

  predicate HoldAll(where: seq<Clause>, s: Summary) {
    forall i :: 0 <= i < |where| ==> Holds(where[i], s)
  }

  /** `_where`: its conditions select exactly the rows that the blob's filter keeps. */
  method Where(f: Filter) returns (where: seq<Clause>)
    ensures forall s :: HoldAll(where, s) <==> Passes(f, s)
  {
    where := [OrgIs(f.org)];
    HoldOneMore([], OrgIs(f.org));
    assert [] + [OrgIs(f.org)] == where;
    if f.user.Some? {
      HoldOneMore(where, UserIs(f.user.value));
      where := where + [UserIs(f.user.value)];
    }
    assert forall s :: HoldAll(where, s) <==> Passes(f.(ids := None, statuses := None), s);
    if f.ids.Some? {
      if f.ids.value == {} {
        NeverHolds();
        return [Never];
      }
      HoldOneMore(where, IdIn(f.ids.value));
      where := where + [IdIn(f.ids.value)];
    }
    assert forall s :: HoldAll(where, s) <==> Passes(f.(statuses := None), s);
    if f.statuses.Some? && f.statuses.value != {} {
      HoldOneMore(where, StatusIn(f.statuses.value));
      where := where + [StatusIn(f.statuses.value)];
    }
  }

  lemma HoldOneMore(where: seq<Clause>, c: Clause)
    ensures forall s :: HoldAll(where + [c], s) <==> HoldAll(where, s) && Holds(c, s)
  {
    forall s ensures HoldAll(where + [c], s) <==> HoldAll(where, s) && Holds(c, s) {
      assert (where + [c])[|where|] == c;
      assert forall i :: 0 <= i < |where| ==> (where + [c])[i] == where[i];
    }
  }

  lemma NeverHolds()
    ensures forall s :: !HoldAll([Never], s)
  {
    forall s ensures !HoldAll([Never], s) {
      assert !Holds([Never][0], s);
    }
  }

  // ---- pages -------------------------------------------------------------------------------

  /** The rows `(page - 1) * size` up to `page * size`, as far as there are any. */
  function Page(s: seq<Summary>, page: nat, size: nat): (r: seq<Summary>)
    requires page >= 1
  {
    var start := (page - 1) * size;
    if start >= |s| then []
    else if start + size >= |s| then s[start..]
    else s[start..start + size]
  }

  function Pages(s: seq<Summary>, count: nat, size: nat): (r: seq<Summary>) {
    if count == 0 then [] else Pages(s, count - 1, size) + Page(s, count, size)
  }

  function Part(s: seq<Summary>, start: nat, size: nat): (r: seq<Summary>) {
    if start >= |s| then [] else if start + size >= |s| then s[start..] else s[start..start + size]
  }

  lemma PageIsPart(s: seq<Summary>, page: nat, size: nat, start: nat)
    requires page >= 1 && start == (page - 1) * size
    ensures Page(s, page, size) == Part(s, start, size)
  {
  }

  lemma JoinParts(s: seq<Summary>, start: nat, size: nat)
    ensures (if start >= |s| then s else s[..start]) + Part(s, start, size) ==
            if start + size >= |s| then s else s[..start + size]
  {
  }

  /** The pages put together are the listing, without loss or repetition; further pages are empty. */
  lemma {:induction false} PagesAreTheListing(s: seq<Summary>, count: nat, size: nat)
    ensures Pages(s, count, size) == if count * size >= |s| then s else s[..count * size]
    ensures count * size >= |s| ==> Page(s, count + 1, size) == []
  {
    var end := count * size;
    PageIsPart(s, count + 1, size, end);
    if count > 0 {
      PagesAreTheListing(s, count - 1, size);
      var start := (count - 1) * size;
      assert end == start + size;
      PageIsPart(s, count, size, start);
      JoinParts(s, start, size);
    } else {
      assert end == 0;
    }
    hide Page, Pages;
  }

  // ---- listings ----------------------------------------------------------------------------

  ghost function Matching(rows: set<Summary>, f: Filter): (r: set<Summary>) {
    set s | s in rows && Passes(f, s)
  }

  /** A page of the ordered matching rows, and how many rows match. */
  ghost predicate IsAnswer(rows: set<Summary>, f: Filter, page: nat, size: nat, items: seq<Summary>, total: nat) {
    page >= 1 && exists listing ::
      IsListing(listing, Matching(rows, f)) && items == Page(listing, page, size) && total == |listing|
  }

  /** A query has one answer. */
  lemma AnswersAgree(rows: set<Summary>, f: Filter, page: nat, size: nat, a: seq<Summary>, m: nat, b: seq<Summary>, n: nat)
    requires UniqueIds(rows) && IsAnswer(rows, f, page, size, a, m) && IsAnswer(rows, f, page, size, b, n)
    ensures a == b && m == n
  {
    var k :| IsListing(k, Matching(rows, f)) && a == Page(k, page, size) && m == |k|;
    var l :| IsListing(l, Matching(rows, f)) && b == Page(l, page, size) && n == |l|;
    ListingUnique(k, l, Matching(rows, f));
  }

  /** Newest first: moments never rise along a page, and jobs of the same moment go by falling id, by code points. */
  ghost predicate NewestFirst(items: seq<Summary>) {
    forall i, j :: 0 <= i < j < |items| ==>
      items[i].submittedAt > items[j].submittedAt ||
      (items[i].submittedAt == items[j].submittedAt && After(items[i].jobId, items[j].jobId))
  }

  /** At the first place where the ids differ, `a` has the greater character, or it goes on where `b` ends. */
  ghost predicate After(a: string, b: string) {
    exists n: nat :: n <= |a| && n <= |b| && a[..n] == b[..n] && n < |a| && (n == |b| || a[n] > b[n])
  }

  lemma {:induction false} LessIsAfter(b: string, a: string)
    requires Less(b, a)
    ensures After(a, b)
  {
    if b == [] || b[0] < a[0] {
      assert a[..0] == b[..0];
    } else {
      LessIsAfter(b[1..], a[1..]);
      var n: nat :| n <= |a[1..]| && n <= |b[1..]| && a[1..][..n] == b[1..][..n] && n < |a[1..]| &&
                    (n == |b[1..]| || a[1..][n] > b[1..][n]);
      assert a[..n + 1] == [a[0]] + a[1..][..n] && b[..n + 1] == [b[0]] + b[1..][..n];
    }
  }

  /** Every page of an answer is newest first, and so are consecutive pages. */
  lemma AnswersNewestFirst(rows: set<Summary>, f: Filter, page: nat, size: nat, items: seq<Summary>, total: nat)
    requires IsAnswer(rows, f, page, size, items, total)
    ensures NewestFirst(items) && forall s :: s in items ==> s in rows && Passes(f, s)
  {
    var listing :| IsListing(listing, Matching(rows, f)) && items == Page(listing, page, size) && total == |listing|;
    var start := PageStart(listing, page, size);
    hide Page, Less, After, Passes;
    forall i | 0 <= i < |items| ensures items[i] in rows && Passes(f, items[i]) {
      assert listing[start + i] in Elems(listing);
    }
    forall i, j | 0 <= i < j < |items|
      ensures items[i].submittedAt > items[j].submittedAt ||
              (items[i].submittedAt == items[j].submittedAt && After(items[i].jobId, items[j].jobId))
    {
      assert Newer(listing[start + i], listing[start + j]);
      if items[i].submittedAt == items[j].submittedAt {
        LessIsAfter(items[j].jobId, items[i].jobId);
      }
    }
  }

  /** A page is a part of the listing. */
  lemma PageStart(listing: seq<Summary>, page: nat, size: nat) returns (start: nat)
    requires page >= 1
    ensures start + |Page(listing, page, size)| <= |listing|
    ensures forall i :: 0 <= i < |Page(listing, page, size)| ==> Page(listing, page, size)[i] == listing[start + i]
  {
    start := (page - 1) * size;
    if start >= |listing| {
      start := 0;
    }
  }

  /** Rows are kept under their own ids. */
  ghost predicate Keyed(index: map<string, Summary>) {
    forall id :: id in index ==> index[id].jobId == id
  }

  lemma KeyedUnique(index: map<string, Summary>)
    requires Keyed(index)
    ensures UniqueIds(index.Values)
  {
    forall a, b | a in index.Values && b in index.Values && a.jobId == b.jobId ensures a == b {
      var i :| i in index && index[i] == a;
      var j :| j in index && index[j] == b;
    }
  }

  class BlobIndex {
    var index: map<string, Summary>
    /** The keys in insertion order. */
    var keys: seq<string>

    ghost predicate Valid()
      reads this
    {
      Keyed(index) && Distinct(keys) && Elems(keys) == index.Keys
    }

    constructor ()
      ensures Valid() && index == map[]
    {
      index, keys := map[], [];
    }

    /** The index update of `save`. */
    method Save(s: Summary)
      requires Valid()
      modifies this
      ensures Valid() && index == old(index)[s.jobId := s]
    {
      if s.jobId !in index {
        ElemsAppend(keys, [s.jobId]);
        assert s.jobId !in Elems(keys);
        keys := keys + [s.jobId];
      }
      index := index[s.jobId := s];
    }

    /** `list_summaries`. */
    method ListSummaries(f: Filter, page: nat, size: nat) returns (items: seq<Summary>, total: nat)
      requires Valid() && page >= 1
      ensures IsAnswer(index.Values, f, page, size, items, total)
    {
      var filtered: seq<Summary> := [];
      for i := 0 to |keys|
        invariant Filtered(filtered, keys[..i], index, f)
      {
        FilteredNext(filtered, keys, i, index, f);
        if Passes(f, index[keys[i]]) {
          filtered := filtered + [index[keys[i]]];
        }
      }
      assert keys[..|keys|] == keys;
      AllFiltered(filtered, keys, index, f);
      var sorted := SortByAge(filtered);
      DescendingDistinct(sorted);
      items, total := Page(sorted, page, size), |sorted|;
    }
  }

  /** The entries of these keys that pass, each job once. */
  ghost predicate Filtered(filtered: seq<Summary>, keys: seq<string>, index: map<string, Summary>, f: Filter) {
    (forall i :: 0 <= i < |keys| ==> keys[i] in index) &&
    (forall s :: s in filtered <==> s.jobId in keys && s.jobId in index && index[s.jobId] == s && Passes(f, s)) &&
    forall i, j :: 0 <= i < j < |filtered| ==> filtered[i].jobId != filtered[j].jobId
  }

  lemma FilteredNext(filtered: seq<Summary>, keys: seq<string>, i: nat, index: map<string, Summary>, f: Filter)
    requires i < |keys| && Distinct(keys) && Elems(keys) == index.Keys && Keyed(index)
    requires Filtered(filtered, keys[..i], index, f)
    ensures keys[i] in index
    ensures Filtered(if Passes(f, index[keys[i]]) then filtered + [index[keys[i]]] else filtered, keys[..i + 1], index, f)
  {
    assert keys[i] in Elems(keys);
    assert keys[..i + 1] == keys[..i] + [keys[i]];
    assert keys[i] !in keys[..i];
    var all := if Passes(f, index[keys[i]]) then filtered + [index[keys[i]]] else filtered;
    forall a, b | 0 <= a < b < |all| ensures all[a].jobId != all[b].jobId {
      assert a < |filtered| ==> all[a] in filtered;
    }
  }

  lemma AllFiltered(filtered: seq<Summary>, keys: seq<string>, index: map<string, Summary>, f: Filter)
    requires Elems(keys) == index.Keys && Keyed(index) && Filtered(filtered, keys, index, f)
    ensures Elems(filtered) == Matching(index.Values, f)
  {
    forall s ensures s in filtered <==> s in Matching(index.Values, f) {
      if s in Matching(index.Values, f) {
        var id :| id in index && index[id] == s;
        assert id in Elems(keys);
      }
    }
  }

  class SqliteIndex {
    /** The table, by primary key. */
    var table: map<string, Summary>

    ghost predicate Valid()
      reads this
    {
      Keyed(table)
    }

    /** A new table takes over the blob index. */
    constructor (blob: map<string, Summary>)
      requires Keyed(blob)
      ensures Valid() && table == blob
    {
      table := blob;
    }

    /** The upsert of `save`. */
    method Save(s: Summary)
      requires Valid()
      modifies this
      ensures Valid() && table == old(table)[s.jobId := s]
    {
      table := table[s.jobId := s];
    }

    /** `_maybe_prune`, when it is due. */
    method Prune(cutoff: int)
      requires Valid()
      modifies this
      ensures Valid() && table == Pruned(old(table), cutoff)
    {
      table := map id | id in table && !(table[id].submittedAt < cutoff && Terminal(table[id].status)) :: table[id];
    }

    /** `list_summaries`. */
    method ListSummaries(f: Filter, page: nat, size: nat) returns (items: seq<Summary>, total: nat)
      requires Valid() && page >= 1
      ensures IsAnswer(table.Values, f, page, size, items, total)
    {
      var where := Where(f);
      var matched := set id | id in table && HoldAll(where, table[id]) :: table[id];
      assert matched == Matching(table.Values, f);
      KeyedUnique(table);
      var ordered := SelectOrdered(matched);
      items, total := Page(ordered, page, size), |ordered|;
    }
  }

  ghost function Pruned(table: map<string, Summary>, cutoff: int): (r: map<string, Summary>) {
    map id | id in table && (table[id].submittedAt >= cutoff || table[id].status == Pending || table[id].status == Running) ::
      table[id]
  }

  /** The query engine: the rows in the order of the query. */
  method SelectOrdered(rows: set<Summary>) returns (s: seq<Summary>)
    requires UniqueIds(rows)
    ensures IsListing(s, rows)
  {
    s := [];
    var todo := rows;
    while todo != {}
      invariant todo <= rows && Elems(s) == rows - todo && Descending(s)
    {
      var x :| x in todo;
      todo := todo - {x};
      forall i | 0 <= i < |s| ensures s[i].jobId != x.jobId {
        assert s[i] in Elems(s);
      }
      s := InsertByAge(x, s);
    }
  }

  // ---- the two indexes over any history ----------------------------------------------------

  datatype Event = Saved(s: Summary) | PrunedAt(cutoff: int)

  ghost function BlobAfter(start: map<string, Summary>, history: seq<Event>): (r: map<string, Summary>)
    requires Keyed(start)
    ensures Keyed(r)
  {
    if history == [] then start
    else
      var before, last := BlobAfter(start, history[..|history| - 1]), history[|history| - 1];
      if last.Saved? then before[last.s.jobId := last.s] else before
  }

  ghost function TableAfter(start: map<string, Summary>, history: seq<Event>): (r: map<string, Summary>)
    requires Keyed(start)
    ensures Keyed(r)
  {
    if history == [] then start
    else
      var before, last := TableAfter(start, history[..|history| - 1]), history[|history| - 1];
      if last.Saved? then before[last.s.jobId := last.s] else Pruned(before, last.cutoff)
  }

  /** A prune since the last save of the job reached it. */
  ghost predicate PrunedSince(history: seq<Event>, s: Summary) {
    exists i :: PrunedBy(history, s, i)
  }

  ghost predicate PrunedBy(history: seq<Event>, s: Summary, i: nat) {
    i < |history| && history[i].PrunedAt? && s.submittedAt < history[i].cutoff &&
    s.status != Pending && s.status != Running &&
    forall j :: i < j < |history| && history[j].Saved? ==> history[j].s.jobId != s.jobId
  }

  /** The table holds the blob's rows but for finished jobs older than a later prune: no other row is ever
      missing, and none differs. */
  lemma {:induction false} TableRefinesBlob(start: map<string, Summary>, history: seq<Event>, id: string)
    requires Keyed(start)
    ensures id in TableAfter(start, history) <==>
            id in BlobAfter(start, history) && !PrunedSince(history, BlobAfter(start, history)[id])
    ensures id in TableAfter(start, history) ==> TableAfter(start, history)[id] == BlobAfter(start, history)[id]
  {
    if history != [] {
      var n := |history| - 1;
      TableRefinesBlob(start, history[..n], id);
      var blob := BlobAfter(start, history);
      if id in blob {
        PrunedSinceNext(history, n, blob[id]);
      }
    }
  }

  lemma PrunedSinceNext(history: seq<Event>, n: nat, s: Summary)
    requires |history| == n + 1
    ensures history[n].Saved? && history[n].s.jobId == s.jobId ==> !PrunedSince(history, s)
    ensures history[n].Saved? && history[n].s.jobId != s.jobId ==> (PrunedSince(history, s) <==> PrunedSince(history[..n], s))
    ensures history[n].PrunedAt? ==> (PrunedSince(history, s) <==>
              PrunedSince(history[..n], s) || (s.submittedAt < history[n].cutoff && Terminal(s.status)))
  {
    forall i: nat | i < n && !(history[n].Saved? && history[n].s.jobId == s.jobId)
      ensures PrunedBy(history, s, i) <==> PrunedBy(history[..n], s, i)
    {
      assert forall j :: 0 <= j < n ==> history[..n][j] == history[j];
    }
    assert history[n].PrunedAt? ==> (PrunedBy(history, s, n) <==> s.submittedAt < history[n].cutoff && Terminal(s.status));
  }

  /** No row that the query asks for was pruned since its last save. */
  ghost predicate NonePruned(start: map<string, Summary>, history: seq<Event>, f: Filter)
    requires Keyed(start)
  {
    forall s :: s in Matching(BlobAfter(start, history).Values, f) ==> !PrunedSince(history, s)
  }

  /** What the table has for a query. */
  lemma TableMatches(start: map<string, Summary>, history: seq<Event>, f: Filter, s: Summary)
    requires Keyed(start)
    ensures s in Matching(TableAfter(start, history).Values, f) <==>
              s in Matching(BlobAfter(start, history).Values, f) && !PrunedSince(history, s)
  {
    var blob, table := BlobAfter(start, history), TableAfter(start, history);
    TableRefinesBlob(start, history, s.jobId);
    hide PrunedSince, Passes, BlobAfter, TableAfter;
    if s in blob.Values {
      var id :| id in blob && blob[id] == s;
    }
    if s in table.Values {
      var id :| id in table && table[id] == s;
    }
  }

  lemma TotalIsMatches(rows: set<Summary>, f: Filter, page: nat, size: nat, items: seq<Summary>, total: nat)
    requires IsAnswer(rows, f, page, size, items, total)
    ensures total == |Matching(rows, f)|
  {
    var listing :| IsListing(listing, Matching(rows, f)) && total == |listing|;
    DescendingDistinct(listing);
    DistinctSize(listing);
  }

  /** After any saves and prunes, both indexes give one query the same page and the same total exactly when no row
      that it asks for was pruned since its last save; without prunes they always do. */
  lemma IndexesAgreeIff(start: map<string, Summary>, history: seq<Event>, f: Filter, page: nat, size: nat,
                        a: seq<Summary>, m: nat, b: seq<Summary>, n: nat)
    requires Keyed(start)
    requires IsAnswer(BlobAfter(start, history).Values, f, page, size, a, m)
    requires IsAnswer(TableAfter(start, history).Values, f, page, size, b, n)
    ensures a == b && m == n <==> NonePruned(start, history, f)
    ensures (forall i :: 0 <= i < |history| ==> history[i].Saved?) ==> a == b && m == n
  {
    var blob, table := BlobAfter(start, history).Values, TableAfter(start, history).Values;
    KeyedUnique(BlobAfter(start, history));
    TotalIsMatches(blob, f, page, size, a, m);
    TotalIsMatches(table, f, page, size, b, n);
    hide IsAnswer, Keyed, BlobAfter, TableAfter, UniqueIds, Matching;
    forall s ensures s in Matching(table, f) <==> s in Matching(blob, f) && !PrunedSince(history, s) {
      TableMatches(start, history, f, s);
    }
    assert (forall i :: 0 <= i < |history| ==> history[i].Saved?) ==> NonePruned(start, history, f);
    SubsetSize(Matching(table, f), Matching(blob, f));
    if NonePruned(start, history, f) {
      assert Matching(table, f) == Matching(blob, f);
      SameMatches(blob, table, f, page, size, b, n);
      AnswersAgree(blob, f, page, size, a, m, b, n);
    } else {
      var s :| s in Matching(blob, f) && PrunedSince(history, s);
      assert s !in Matching(table, f);
    }
  }

  lemma SameMatches(rows: set<Summary>, others: set<Summary>, f: Filter, page: nat, size: nat, items: seq<Summary>,
                    total: nat)
    requires Matching(rows, f) == Matching(others, f) && IsAnswer(others, f, page, size, items, total)
    ensures IsAnswer(rows, f, page, size, items, total)
  {
  }

  // ---- iter_summaries ----------------------------------------------------------------------

  ghost function BlobIter(rows: set<Summary>, statuses: Option<set<Status>>): (r: set<Summary>) {
    set s | s in rows && (statuses == None || s.status in statuses.value)
  }

  ghost function TableIter(rows: set<Summary>, statuses: Option<set<Status>>): (r: set<Summary>) {
    set s | s in rows && (statuses == None || statuses.value == {} || s.status in statuses.value)
  }

  /** The two `iter_summaries` agree unless they are asked for an empty set of statuses over some rows: one
      reads it as no status, the other as any. */
  lemma IterAgreesIff(rows: set<Summary>, statuses: Option<set<Status>>)
    ensures BlobIter(rows, statuses) == TableIter(rows, statuses) <==> !(statuses == Some({}) && rows != {})
  {
    if statuses == Some({}) && rows != {} {
      var s :| s in rows;
      assert s in TableIter(rows, statuses) && s !in BlobIter(rows, statuses);
    }
  }
}
