/** The read side of the customer backend (lib/mock-api.ts `customers.list`
    and `customers.getById`): filtering by status and search text, a stable
    newest-first sort, and page slicing with JavaScript `slice` semantics. */
module Directory {

  import opened Wrappers
  import opened Store
  import Seqs
  import Text

  /** The optional arguments of `customers.list`. */
  datatype ListQuery = ListQuery(
    query: Option<string>,
    verified: Option<bool>,
    page: Option<int>,
    pageSize: Option<int>)

  datatype ListResult = ListResult(data: seq<Customer>, total: nat, page: int, pageSize: int)

  const DefaultPage: int := 1
  const DefaultPageSize: int := 20

  /** A record matches an already lower-cased search text when its
      lower-cased name or email contains it. */
  predicate MatchesSearch(c: Customer, lowerQuery: string)
  {
    Text.Includes(Text.ToLower(c.name), lowerQuery) ||
    Text.Includes(Text.ToLower(c.email), lowerQuery)
  }

  /** The filters of `list`: the status filter applies when `verified` is
      given; the text filter only for a non-empty `query` (JavaScript treats
      "" as false). */
  predicate Selected(c: Customer, q: ListQuery)
  {
    && (q.verified.None? || c.verified == q.verified.value)
    && (q.query.None? || q.query.value == "" || MatchesSearch(c, Text.ToLower(q.query.value)))
  }

  function FilterByStatus(cs: seq<Customer>, verified: Option<bool>): seq<Customer>
  {
    match verified
    case None => cs
    case Some(v) => Seqs.Filter((c: Customer) => c.verified == v, cs)
  }

  function FilterBySearch(cs: seq<Customer>, query: Option<string>): seq<Customer>
  {
    if query.None? || query.value == "" then cs
    else
      var lowerQuery := Text.ToLower(query.value);
      Seqs.Filter((c: Customer) => MatchesSearch(c, lowerQuery), cs)
  }

  /** The records `list` keeps before sorting: exactly those of `cs` that
      pass both filters, in storage order. */
  function Filtered(cs: seq<Customer>, q: ListQuery): (r: seq<Customer>)
    ensures |r| <= |cs|
    ensures forall i :: 0 <= i < |r| ==> r[i] in cs && Selected(r[i], q)
    ensures forall i :: 0 <= i < |cs| && Selected(cs[i], q) ==> cs[i] in r
  {
    FilterBySearch(FilterByStatus(cs, q.verified), q.query)
  }

  /** The filters only delete records; they never reorder them. */
  lemma FilteredIsSubsequence(cs: seq<Customer>, q: ListQuery)
    ensures Seqs.IsSubsequence(Filtered(cs, q), cs)
  {
    var byStatus := FilterByStatus(cs, q.verified);
    match q.verified {
      case None => Seqs.SubsequenceReflexive(cs);
      case Some(v) => Seqs.FilterIsSubsequence((c: Customer) => c.verified == v, cs);
    }
    if q.query.None? || q.query.value == "" {
      Seqs.SubsequenceReflexive(byStatus);
    } else {
      var lowerQuery := Text.ToLower(q.query.value);
      Seqs.FilterIsSubsequence((c: Customer) => MatchesSearch(c, lowerQuery), byStatus);
    }
    Seqs.SubsequenceTransitive(Filtered(cs, q), byStatus, cs);
  }

  /** The two filters together are a single pass keeping exactly the
      selected records, every copy of each, in storage order. */
  lemma FilteredIsOneFilter(cs: seq<Customer>, q: ListQuery)
    ensures Filtered(cs, q) == Seqs.Filter((c: Customer) => Selected(c, q), cs)
  {
    var selected := (c: Customer) => Selected(c, q);
    var searchOnly := (c: Customer) => q.query.None? || q.query.value == "" || MatchesSearch(c, Text.ToLower(q.query.value));
    var byStatus := FilterByStatus(cs, q.verified);
    assert FilterBySearch(byStatus, q.query) == Seqs.Filter(searchOnly, byStatus) by {
      if q.query.None? || q.query.value == "" {
        Seqs.FilterAllPass(searchOnly, byStatus);
      } else {
        var lowerQuery := Text.ToLower(q.query.value);
        Seqs.FilterExtensional((c: Customer) => MatchesSearch(c, lowerQuery), searchOnly, byStatus);
      }
    }
    match q.verified {
      case None =>
        Seqs.FilterExtensional(searchOnly, selected, cs);
      case Some(v) =>
        Seqs.FilterFilter((c: Customer) => c.verified == v, searchOnly, selected, cs);
    }
  }

  /** Non-increasing `createdAt`: the order of `list`'s output. */
  predicate NewestFirst(s: seq<Customer>)
  {
    forall i, j :: 0 <= i < j < |s| ==> s[i].createdAt >= s[j].createdAt
  }

  /** Insert `c` before the first record that is not newer than it. */
  function InsertNewestFirst(c: Customer, s: seq<Customer>): (r: seq<Customer>)
    ensures multiset(r) == multiset(s) + multiset{c}
    decreases |s|
  {
    if |s| == 0 || s[0].createdAt <= c.createdAt then
      [c] + s
    else
      assert s == [s[0]] + s[1..];
      [s[0]] + InsertNewestFirst(c, s[1..])
  }

  lemma {:induction false} InsertKeepsOrder(c: Customer, s: seq<Customer>)
    requires NewestFirst(s)
    ensures NewestFirst(InsertNewestFirst(c, s))
    decreases |s|
  {
    if !(|s| == 0 || s[0].createdAt <= c.createdAt) {
      var rest := InsertNewestFirst(c, s[1..]);
      InsertKeepsOrder(c, s[1..]);
      var r := [s[0]] + rest;
      forall i, j | 0 <= i < j < |r|
        ensures r[i].createdAt >= r[j].createdAt
      {
        assert r[j] == rest[j - 1];
        if i == 0 {
          assert rest[j - 1] in multiset(rest);
          assert rest[j - 1] == c || rest[j - 1] in multiset(s[1..]);
        } else {
          assert r[i] == rest[i - 1];
        }
      }
    }
  }

  /** The `Array.prototype.sort` call of `list`: an insertion sort that keeps
      equal timestamps in storage order. */
  function SortNewestFirst(s: seq<Customer>): (r: seq<Customer>)
    ensures multiset(r) == multiset(s)
    ensures |r| == |s|
    ensures NewestFirst(r)
    decreases |s|
  {
    if |s| == 0 then []
    else
      assert s == [s[0]] + s[1..];
      var sorted := SortNewestFirst(s[1..]);
      InsertKeepsOrder(s[0], sorted);
      InsertNewestFirst(s[0], sorted)
  }

  /** The records with timestamp `t`, as a filter predicate. */
  function CreatedAt(t: Timestamp): Customer -> bool
  {
    (c: Customer) => c.createdAt == t
  }

  lemma {:induction false} InsertStable(c: Customer, s: seq<Customer>, t: Timestamp)
    ensures Seqs.Filter(CreatedAt(t), InsertNewestFirst(c, s)) == Seqs.Filter(CreatedAt(t), [c] + s)
    decreases |s|
  {
    if |s| == 0 || s[0].createdAt <= c.createdAt {
    } else {
      var rest := InsertNewestFirst(c, s[1..]);
      InsertStable(c, s[1..], t);
      assert ([s[0]] + rest)[1..] == rest;
      assert ([c] + s)[1..] == s;
      assert ([c] + s[1..])[1..] == s[1..];
    }
  }

  /** Stability: for every timestamp, the records carrying it appear in the
      sorted output in the same order as in the input. */
  lemma {:induction false} SortStable(s: seq<Customer>, t: Timestamp)
    ensures Seqs.Filter(CreatedAt(t), SortNewestFirst(s)) == Seqs.Filter(CreatedAt(t), s)
    decreases |s|
  {
    if |s| > 0 {
      var sorted := SortNewestFirst(s[1..]);
      SortStable(s[1..], t);
      InsertStable(s[0], sorted, t);
      assert ([s[0]] + sorted)[1..] == sorted;
    }
  }

  /** A JavaScript relative index (`slice` semantics) into a sequence of
      length `n`: negative values count from the end, and the result is
      clamped to `[0, n]`. */
  function RelativeIndex(i: int, n: nat): (k: nat)
    ensures k <= n
  {
    if i < 0 then (if n + i < 0 then 0 else n + i)
    else if i > n then n
    else i
  }

  /** `s.slice(start, end)`. */
  function Slice<T>(s: seq<T>, start: int, end: int): (r: seq<T>)
    ensures |r| <= |s|
  {
    var b := RelativeIndex(start, |s|);
    var e := RelativeIndex(end, |s|);
    if b < e then s[b..e] else []
  }

  /** `i` clamped into `[0, n]`. */
  function Clip(i: int, n: nat): (k: nat)
    ensures k <= n
  {
    if i < 0 then 0 else if i > n then n else i
  }

  /** The slice of `list` for one page: `[(page-1)*pageSize, page*pageSize)`. */
  function PageSlice<T>(s: seq<T>, page: int, pageSize: int): (r: seq<T>)
    ensures |r| <= |s|
  {
    var start := (page - 1) * pageSize;
    Slice(s, start, start + pageSize)
  }

  lemma MulNonNegative(a: int, b: int)
    requires a >= 0 && b >= 0
    ensures a * b >= 0
  {
  }

  /** From page 1 on, a page is its window clipped to the sequence. */
  lemma PageWindow<T>(s: seq<T>, page: int, pageSize: int)
    requires page >= 1 && pageSize >= 0
    ensures var start := (page - 1) * pageSize;
            PageSlice(s, page, pageSize) == s[Clip(start, |s|)..Clip(start + pageSize, |s|)]
  {
    MulNonNegative(page - 1, pageSize);
  }

  /** A page holds only records of the list it was cut from, and keeps its
      order. */
  lemma PageSliceWithin(s: seq<Customer>, page: int, pageSize: int)
    ensures forall i :: 0 <= i < |PageSlice(s, page, pageSize)| ==> PageSlice(s, page, pageSize)[i] in s
    ensures NewestFirst(s) ==> NewestFirst(PageSlice(s, page, pageSize))
    ensures exists b, e :: 0 <= b <= e <= |s| && PageSlice(s, page, pageSize) == s[b..e]
  {
    var start := (page - 1) * pageSize;
    var b := RelativeIndex(start, |s|);
    var e := RelativeIndex(start + pageSize, |s|);
    var r := PageSlice(s, page, pageSize);
    if b < e {
      assert r == s[b..e];
      assert forall i :: 0 <= i < |r| ==> r[i] == s[b + i];
    } else {
      assert r == [] == s[0..0];
    }
  }

  /** From page 1 on, a page is no longer than `pageSize`. */
  lemma PageSliceBound<T>(s: seq<T>, page: int, pageSize: int)
    ensures page >= 1 && pageSize >= 0 ==> |PageSlice(s, page, pageSize)| <= pageSize
  {
    if page >= 1 && pageSize >= 0 {
      PageWindow(s, page, pageSize);
    }
  }

  /** The filtered records in the order `list` returns them. */
  function Ordered(cs: seq<Customer>, q: ListQuery): (r: seq<Customer>)
    ensures |r| == |Filtered(cs, q)|
    ensures forall i :: 0 <= i < |r| ==> r[i] in cs && Selected(r[i], q)
    ensures NewestFirst(r)
  {
    var filtered := Filtered(cs, q);
    var sorted := SortNewestFirst(filtered);
    assert forall i :: 0 <= i < |sorted| ==> sorted[i] in multiset(filtered);
    sorted
  }

  /** `customers.list` over the records it read. */
  function Query(cs: seq<Customer>, q: ListQuery): (r: ListResult)
    ensures r.page == q.page.GetOr(DefaultPage)
    ensures r.pageSize == q.pageSize.GetOr(DefaultPageSize)
    ensures r.total == |Filtered(cs, q)| <= |cs|
    ensures |r.data| <= r.total
    ensures forall i :: 0 <= i < |r.data| ==> r.data[i] in cs && Selected(r.data[i], q)
    ensures NewestFirst(r.data)
    ensures r.page >= 1 && r.pageSize >= 0 ==> |r.data| <= r.pageSize
  {
    var page := q.page.GetOr(DefaultPage);
    var pageSize := q.pageSize.GetOr(DefaultPageSize);
    var ordered := Ordered(cs, q);
    PageSliceWithin(ordered, page, pageSize);
    PageSliceBound(ordered, page, pageSize);
    ListResult(PageSlice(ordered, page, pageSize), |ordered|, page, pageSize)
  }

  /** For a page from 1 on, `data` is the window
      `[(page-1)*pageSize, page*pageSize)` of the ordered records, clipped to
      their length. */
  lemma QueryWindow(cs: seq<Customer>, q: ListQuery)
    requires q.page.GetOr(DefaultPage) >= 1 && q.pageSize.GetOr(DefaultPageSize) >= 0
    ensures var ordered := Ordered(cs, q);
            var page := q.page.GetOr(DefaultPage);
            var pageSize := q.pageSize.GetOr(DefaultPageSize);
            var start := (page - 1) * pageSize;
            Query(cs, q).data == ordered[Clip(start, |ordered|)..Clip(start + pageSize, |ordered|)]
  {
    var page := q.page.GetOr(DefaultPage);
    var pageSize := q.pageSize.GetOr(DefaultPageSize);
    var ordered := Ordered(cs, q);
    assert Query(cs, q).data == PageSlice(ordered, page, pageSize);
    PageWindow(ordered, page, pageSize);
  }

  lemma PageIndex(pageSize: int, k: int)
    requires pageSize >= 1 && k >= 0
    ensures var start := (k / pageSize + 1 - 1) * pageSize;
            start >= 0 && start + k % pageSize == k && 0 <= k % pageSize < pageSize
  {
    MulNonNegative(k / pageSize, pageSize);
  }

  /** Paging looks only at `page` and `pageSize`: the ordered records do
      not depend on them. */
  lemma OrderedIgnoresPaging(cs: seq<Customer>, q: ListQuery, page: Option<int>, pageSize: Option<int>)
    ensures Ordered(cs, q.(page := page, pageSize := pageSize)) == Ordered(cs, q)
  {
    assert Filtered(cs, q.(page := page, pageSize := pageSize)) == Filtered(cs, q);
  }

  /** Item `i` of the clipped window starting at `start` is item
      `start + i` of the sequence. */
  lemma WindowItem<T>(s: seq<T>, start: int, size: int, i: int)
    requires 0 <= start && 0 <= i < size && start + i < |s|
    ensures var w := s[Clip(start, |s|)..Clip(start + size, |s|)];
            i < |w| && w[i] == s[start + i]
  {
  }

  /** Item `i` of page `page` is record `start + i` of the ordered result,
      where `start` is `(page-1)*pageSize`. */
  lemma PageItem(cs: seq<Customer>, q: ListQuery, page: int, pageSize: int, start: int, i: int)
    requires page >= 1 && 0 <= i < pageSize
    requires 0 <= start == (page - 1) * pageSize
    requires start + i < |Ordered(cs, q)|
    ensures var r := Query(cs, q.(page := Some(page), pageSize := Some(pageSize)));
            i < |r.data| && r.data[i] == Ordered(cs, q)[start + i]
  {
    var q' := q.(page := Some(page), pageSize := Some(pageSize));
    OrderedIgnoresPaging(cs, q, Some(page), Some(pageSize));
    QueryWindow(cs, q');
    WindowItem(Ordered(cs, q), start, pageSize, i);
  }

  /** Every record of the ordered result sits on exactly one page: the
      `k`-th is item `k % pageSize` of page `k / pageSize + 1`. */
  lemma PageOf(cs: seq<Customer>, q: ListQuery, pageSize: int, k: int)
    requires pageSize >= 1 && 0 <= k < |Ordered(cs, q)|
    ensures var r := Query(cs, q.(page := Some(k / pageSize + 1), pageSize := Some(pageSize)));
            k % pageSize < |r.data| && r.data[k % pageSize] == Ordered(cs, q)[k]
  {
    PageIndex(pageSize, k);
    PageItem(cs, q, k / pageSize + 1, pageSize, (k / pageSize + 1 - 1) * pageSize, k % pageSize);
  }

  /** `total` counts every match, whichever page is asked for. */
  lemma TotalIgnoresPaging(cs: seq<Customer>, q: ListQuery, page: Option<int>, pageSize: Option<int>)
    ensures Query(cs, q.(page := page, pageSize := pageSize)).total == Query(cs, q).total
  {
    assert Filtered(cs, q.(page := page, pageSize := pageSize)) == Filtered(cs, q);
  }

  /** The status filter splits the store: verified plus pending matches
      add up to the unfiltered total. */
  lemma StatusTotalsSplit(cs: seq<Customer>, query: Option<string>)
    ensures Query(cs, ListQuery(query, Some(true), None, None)).total +
            Query(cs, ListQuery(query, Some(false), None, None)).total ==
            Query(cs, ListQuery(query, None, None, None)).total
  {
    var yes := (c: Customer) => c.verified == true;
    var no := (c: Customer) => c.verified == false;
    if query.None? || query.value == "" {
      Seqs.FilterComplementLength(yes, no, cs);
    } else {
      var lowerQuery := Text.ToLower(query.value);
      var m := (c: Customer) => MatchesSearch(c, lowerQuery);
      Seqs.FilterCommutes(m, yes, cs);
      Seqs.FilterCommutes(m, no, cs);
      Seqs.FilterComplementLength(yes, no, Seqs.Filter(m, cs));
    }
  }

  /** `customers.list`: seed storage if needed, then query the records. */
  function List(st: Storage, q: ListQuery): (r: (Storage, ListResult))
    ensures r.0 == Initialize(st)
    ensures r.1 == Query(Load(st), q)
    ensures r.1.total == |Filtered(Load(st), q)| <= |Load(st)|
    ensures forall i :: 0 <= i < |r.1.data| ==> r.1.data[i] in Load(st) && Selected(r.1.data[i], q)
    ensures NewestFirst(r.1.data)
  {
    (Initialize(st), Query(Load(st), q))
  }

  /** `customers.getById`: the first record with this id, or null. */
  function GetById(st: Storage, id: string): (r: (Storage, Option<Customer>))
    ensures r.0 == Initialize(st)
    ensures r.1.Some? ==> r.1.value in Load(st) && r.1.value.id == id
    ensures r.1.None? <==> forall j :: 0 <= j < |Load(st)| ==> Load(st)[j].id != id
    ensures r.1.Some? ==> exists k :: 0 <= k < |Load(st)| && Load(st)[k] == r.1.value &&
                                     forall j :: 0 <= j < k ==> Load(st)[j].id != id
  {
    var cs := Load(st);
    match FindById(cs, id)
    case None => (Initialize(st), None)
    case Some(k) => (Initialize(st), Some(cs[k]))
  }
}
