/** Worked runs of the backend: the paging example and the
    verify-one-customer flow the dashboard drives, over any records shaped
    like the seed data and, where stated, over the seed data itself. */
module Scenarios {

  import opened Wrappers
  import opened Store
  import Seqs
  import Directory
  import Workflow

  /** Strictly increasing creation times, as in the seed set. */
  predicate OldestFirstStrict(s: seq<Customer>)
  {
    forall i, j :: 0 <= i < j < |s| ==> s[i].createdAt < s[j].createdAt
  }

  function Reverse<T>(s: seq<T>): (r: seq<T>)
    ensures |r| == |s|
    ensures forall i :: 0 <= i < |s| ==> r[i] == s[|s| - 1 - i]
  {
    if |s| == 0 then [] else Reverse(s[1..]) + [s[0]]
  }

  lemma {:induction false} InsertOldest(c: Customer, t: seq<Customer>)
    requires forall i :: 0 <= i < |t| ==> t[i].createdAt > c.createdAt
    ensures Directory.InsertNewestFirst(c, t) == t + [c]
    decreases |t|
  {
    if |t| > 0 {
      InsertOldest(c, t[1..]);
      assert [t[0]] + (t[1..] + [c]) == t + [c];
    }
  }

  /** On records created strictly oldest first, newest-first order is the
      reverse of storage order. */
  lemma {:induction false} SortReverses(s: seq<Customer>)
    requires OldestFirstStrict(s)
    ensures Directory.SortNewestFirst(s) == Reverse(s)
    decreases |s|
  {
    if |s| > 0 {
      SortReverses(s[1..]);
      InsertOldest(s[0], Reverse(s[1..]));
    }
  }

  /** The seed records were created strictly oldest first, so the paging
      facts below apply to storage that was never written. */
  lemma SeedOldestFirst()
    ensures OldestFirstStrict(SeedCustomers())
  {
  }

  /** Without a status or a search, `list` orders every record. */
  lemma UnfilteredOrder(s: seq<Customer>, page: Option<int>, pageSize: Option<int>)
    ensures Directory.Ordered(s, Directory.ListQuery(None, None, page, pageSize)) == Directory.SortNewestFirst(s)
  {
    assert Directory.Filtered(s, Directory.ListQuery(None, None, page, pageSize)) == s;
  }

  /** Unfiltered, records created strictly oldest first are listed in
      reverse storage order. */
  lemma OldestFirstListed(s: seq<Customer>, page: Option<int>, pageSize: Option<int>)
    requires OldestFirstStrict(s)
    ensures Directory.Ordered(s, Directory.ListQuery(None, None, page, pageSize)) == Reverse(s)
  {
    UnfilteredOrder(s, page, pageSize);
    SortReverses(s);
  }

  /** Page 2 of size 2 over six records created oldest first holds the
      fourth and third. */
  lemma SecondPageOfSix(s: seq<Customer>)
    requires |s| == 6 && OldestFirstStrict(s)
    ensures var r := Directory.Query(s, Directory.ListQuery(None, None, Some(2), Some(2)));
            r.data == [s[3], s[2]] && r.total == 6
  {
    var q := Directory.ListQuery(None, None, Some(2), Some(2));
    var ordered := Directory.Ordered(s, q);
    OldestFirstListed(s, Some(2), Some(2));
    Directory.QueryWindow(s, q);
    assert Directory.Query(s, q).data == ordered[2..4];
  }

  function VerifiedQuery(v: bool): Directory.ListQuery
  {
    Directory.ListQuery(None, Some(v), None, None)
  }

  /** The status totals of records whose first `k` are verified and the
      rest pending. */
  lemma StatusTotals(cs: seq<Customer>, k: nat)
    requires k <= |cs|
    requires forall i :: 0 <= i < k ==> cs[i].verified
    requires forall i :: k <= i < |cs| ==> !cs[i].verified
    ensures Directory.Query(cs, VerifiedQuery(true)).total == k
    ensures Directory.Query(cs, VerifiedQuery(false)).total == |cs| - k
  {
    var yes := (c: Customer) => c.verified == true;
    var no := (c: Customer) => c.verified == false;
    assert cs == cs[..k] + cs[k..];
    Seqs.FilterAllPass(yes, cs[..k]);
    Seqs.FilterNonePass(yes, cs[k..]);
    Seqs.FilterAppend(yes, cs[..k], cs[k..]);
    Seqs.FilterNonePass(no, cs[..k]);
    Seqs.FilterAllPass(no, cs[k..]);
    Seqs.FilterAppend(no, cs[..k], cs[k..]);
  }

  /** Verifying the third of six records, of which the first two are
      verified, leaves three verified and three pending. */
  lemma VerifyThirdOfSix(s: seq<Customer>, id: string, now: Timestamp)
    requires |s| == 6 && s[2].id == id && s[0].id != id && s[1].id != id
    requires forall i :: 0 <= i < 2 ==> s[i].verified
    requires forall i :: 2 <= i < 6 ==> !s[i].verified
    ensures Workflow.VerifyRecords(s, id, now).Ok?
    ensures var after := Workflow.VerifyRecords(s, id, now).value.records;
            Directory.Query(after, VerifiedQuery(true)).total == 3 &&
            Directory.Query(after, VerifiedQuery(false)).total == 3
  {
    assert FindById(s, id) == Some(2);
    var after := Workflow.VerifyRecords(s, id, now).value.records;
    StatusTotals(after, 3);
  }

  /** Fresh storage lists two verified and four pending customers. */
  lemma SeedStatusTotals()
    ensures Directory.List(Storage(None, None), VerifiedQuery(true)).1.total == 2
    ensures Directory.List(Storage(None, None), VerifiedQuery(false)).1.total == 4
  {
    var s := SeedCustomers();
    assert forall i :: 0 <= i < 2 ==> s[i].verified;
    assert forall i :: 2 <= i < 6 ==> !s[i].verified;
    StatusTotals(s, 2);
  }

  /** After verifying cust-003 on fresh storage, three customers are
      listed as verified and three as pending. */
  lemma VerifyThirdCustomer(now: Timestamp)
    ensures var st := Workflow.Verify(Storage(None, None), "cust-003", now).storage;
            && Directory.List(st, VerifiedQuery(true)).1.total == 3
            && Directory.List(st, VerifiedQuery(false)).1.total == 3
  {
    var s := SeedCustomers();
    assert s[0].id[7] != '3' && s[1].id[7] != '3';
    VerifyThirdOfSix(s, "cust-003", now);
    var after := Workflow.VerifyRecords(s, "cust-003", now).value.records;
    var st := Workflow.Verify(Storage(None, None), "cust-003", now).storage;
    assert Load(st) == after;
  }
}
