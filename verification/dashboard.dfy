/** The decision logic of the owner dashboard (app/owner/dashboard/page.tsx)
    on top of the backend: the tab and search filter, the selection
    checkboxes, the status counters, bulk verification and the guard of the
    create-customer form. Rendering, toasts and navigation are not modelled. */
module Dashboard {

  import opened Wrappers
  import opened Store
  import Seqs
  import Text
  import Directory
  import Workflow

  /** The records the dashboard shows: `customers.list({ pageSize: 100 })`. */
  const LoadPageSize: int := 100

  /** The number of records one load returns: all of them up to 100. */
  function LoadCount(n: nat): nat
  {
    if n < LoadPageSize then n else LoadPageSize
  }

  /** `loadCustomers`: seeds storage and reads the newest 100 stored
      records, newest first; every record when there are at most 100. */
  function LoadCustomers(st: Storage): (r: (Storage, seq<Customer>))
    ensures r.0 == Initialize(st)
    ensures |r.1| <= LoadPageSize
    ensures |Load(st)| <= LoadPageSize ==> |r.1| == |Load(st)|
    ensures r.1 == Directory.SortNewestFirst(Load(st))[..LoadCount(|Load(st)|)]
  {
    var q := Directory.ListQuery(None, None, None, Some(LoadPageSize));
    FirstPageIsNewest(Load(st), q);
    var (st', result) := Directory.List(st, q);
    (st', result.data)
  }

  /** Unfiltered, the first page of `list` is the newest records. */
  lemma FirstPageIsNewest(cs: seq<Customer>, q: Directory.ListQuery)
    requires q == Directory.ListQuery(None, None, None, Some(LoadPageSize))
    ensures Directory.Query(cs, q).data == Directory.SortNewestFirst(cs)[..LoadCount(|cs|)]
  {
    assert Directory.Filtered(cs, q) == cs;
    Directory.QueryWindow(cs, q);
  }

  /** Which records a tab admits: "verified", "unverified", anything else all. */
  predicate TabAdmits(tab: string, c: Customer)
  {
    if tab == "verified" then c.verified
    else if tab == "unverified" then !c.verified
    else true
  }

  predicate Shown(tab: string, search: string, c: Customer)
  {
    TabAdmits(tab, c) && (search == "" || Directory.MatchesSearch(c, Text.ToLower(search)))
  }

  function FilterByTab(cs: seq<Customer>, tab: string): seq<Customer>
  {
    if tab == "verified" then Seqs.Filter((c: Customer) => c.verified, cs)
    else if tab == "unverified" then Seqs.Filter((c: Customer) => !c.verified, cs)
    else cs
  }

  /** `filterCustomers`: exactly the loaded records the active tab and the
      search box admit. */
  function FilterCustomers(all: seq<Customer>, tab: string, search: string): (r: seq<Customer>)
    ensures |r| <= |all|
    ensures forall i :: 0 <= i < |r| ==> r[i] in all && Shown(tab, search, r[i])
    ensures forall i :: 0 <= i < |all| && Shown(tab, search, all[i]) ==> all[i] in r
  {
    var byTab := FilterByTab(all, tab);
    if search == "" then byTab
    else
      var query := Text.ToLower(search);
      Seqs.Filter((c: Customer) => Directory.MatchesSearch(c, query), byTab)
  }

  /** The filter never reorders: its result is a subsequence of the loaded
      records. */
  lemma FilterCustomersIsSubsequence(all: seq<Customer>, tab: string, search: string)
    ensures Seqs.IsSubsequence(FilterCustomers(all, tab, search), all)
  {
    var byTab := FilterByTab(all, tab);
    if tab == "verified" {
      Seqs.FilterIsSubsequence((c: Customer) => c.verified, all);
    } else if tab == "unverified" {
      Seqs.FilterIsSubsequence((c: Customer) => !c.verified, all);
    } else {
      Seqs.SubsequenceReflexive(all);
    }
    if search == "" {
      Seqs.SubsequenceReflexive(byTab);
    } else {
      var query := Text.ToLower(search);
      Seqs.FilterIsSubsequence((c: Customer) => Directory.MatchesSearch(c, query), byTab);
    }
    Seqs.SubsequenceTransitive(FilterCustomers(all, tab, search), byTab, all);
  }

  /** The tab and the search box together are a single pass keeping
      exactly the shown records, every copy of each, in loaded order. */
  lemma FilterCustomersIsOneFilter(all: seq<Customer>, tab: string, search: string)
    ensures FilterCustomers(all, tab, search) == Seqs.Filter((c: Customer) => Shown(tab, search, c), all)
  {
    var shown := (c: Customer) => Shown(tab, search, c);
    var tabOnly := (c: Customer) => TabAdmits(tab, c);
    var searchOnly := (c: Customer) => search == "" || Directory.MatchesSearch(c, Text.ToLower(search));
    var byTab := FilterByTab(all, tab);
    assert byTab == Seqs.Filter(tabOnly, all) by {
      if tab == "verified" {
        Seqs.FilterExtensional((c: Customer) => c.verified, tabOnly, all);
      } else if tab == "unverified" {
        Seqs.FilterExtensional((c: Customer) => !c.verified, tabOnly, all);
      } else {
        Seqs.FilterAllPass(tabOnly, all);
      }
    }
    assert FilterCustomers(all, tab, search) == Seqs.Filter(searchOnly, byTab) by {
      if search == "" {
        Seqs.FilterAllPass(searchOnly, byTab);
      } else {
        var query := Text.ToLower(search);
        Seqs.FilterExtensional((c: Customer) => Directory.MatchesSearch(c, query), searchOnly, byTab);
      }
    }
    Seqs.FilterFilter(tabOnly, searchOnly, shown, all);
  }

  /** The dashboard's tab filter selects what `customers.list` selects for
      the matching `verified` argument, record for record. */
  lemma TabAgreesWithList(all: seq<Customer>, search: string, tab: string)
    ensures tab == "verified" ==>
              FilterCustomers(all, tab, search) ==
              Directory.Filtered(all, Directory.ListQuery(Some(search), Some(true), None, None))
    ensures tab == "unverified" ==>
              FilterCustomers(all, tab, search) ==
              Directory.Filtered(all, Directory.ListQuery(Some(search), Some(false), None, None))
  {
    if tab == "verified" {
      Seqs.FilterExtensional((c: Customer) => c.verified, (c: Customer) => c.verified == true, all);
    } else if tab == "unverified" {
      Seqs.FilterExtensional((c: Customer) => !c.verified, (c: Customer) => c.verified == false, all);
    }
  }

  function VerifiedCount(all: seq<Customer>): nat
  {
    |Seqs.Filter((c: Customer) => c.verified, all)|
  }

  function UnverifiedCount(all: seq<Customer>): nat
  {
    |Seqs.Filter((c: Customer) => !c.verified, all)|
  }

  /** The two counters add up to the number of loaded records. */
  lemma CountsPartition(all: seq<Customer>)
    ensures VerifiedCount(all) + UnverifiedCount(all) == |all|
  {
    Seqs.FilterComplementLength((c: Customer) => c.verified, (c: Customer) => !c.verified, all);
  }

  /** `toggleSelect`: remove every occurrence of a selected id, or append
      an unselected one at the end. */
  function ToggleSelect(selected: seq<string>, id: string): (r: seq<string>)
    ensures id in selected ==> id !in r && Seqs.IsSubsequence(r, selected)
    ensures id in selected ==> forall x :: x != id ==> (x in r <==> x in selected)
    ensures id !in selected ==> |r| == |selected| + 1 && r[..|selected|] == selected && r[|selected|] == id
    ensures forall x :: x != id ==> multiset(r)[x] == multiset(selected)[x]
  {
    if id in selected then
      var keep := (i: string) => i != id;
      Seqs.FilterIsSubsequence(keep, selected);
      Seqs.FilterCount(keep, selected);
      Seqs.Filter(keep, selected)
    else selected + [id]
  }

  /** Ticking an unticked box twice restores the selection. */
  lemma ToggleTwice(selected: seq<string>, id: string)
    requires id !in selected
    ensures ToggleSelect(ToggleSelect(selected, id), id) == selected
  {
    var keep := (i: string) => i != id;
    Seqs.FilterAppend(keep, selected, [id]);
    Seqs.FilterAllPass(keep, selected);
    assert Seqs.Filter(keep, [id]) == [];
  }

  /** `toggleSelectAll`: clear when the selection is as long as the shown
      list, otherwise select exactly the shown ids in order. */
  function ToggleSelectAll(selected: seq<string>, shown: seq<Customer>): (r: seq<string>)
    ensures |selected| == |shown| ==> r == []
    ensures |selected| != |shown| ==> |r| == |shown| && forall i :: 0 <= i < |shown| ==> r[i] == shown[i].id
  {
    if |selected| == |shown| then [] else Workflow.Ids(shown)
  }

  /** Pressing select-all twice from a selection of another length selects
      every shown id and then clears the selection. */
  lemma SelectAllTwice(selected: seq<string>, shown: seq<Customer>)
    requires |selected| != |shown|
    ensures ToggleSelectAll(ToggleSelectAll(selected, shown), shown) == []
  {
  }

  /** The select-all box compares lengths only: a selection of other ids
      that happens to be as long as the shown list is cleared, not
      replaced. */
  lemma SelectAllComparesLengthsOnly(c: Customer)
    requires c.id != "x"
    ensures ToggleSelectAll(["x"], [c]) == []
    ensures "x" !in Workflow.Ids([c])
  {
  }

  /** Outcome of "Verify Selected": the storage after the calls, the
      selection afterwards, and whether a call threw. */
  datatype BulkOutcome = BulkOutcome(storage: Storage, selected: seq<string>, failed: bool)

  /** The `forEach` of `handleBulkVerify`: verify the ids in order and stop
      at the first one that throws. Every call uses the same `now`. */
  function VerifyEach(st: Storage, ids: seq<string>, now: Timestamp): (r: (Storage, bool))
    ensures r.0.authUser == st.authUser
    decreases |ids|
  {
    if |ids| == 0 then (st, true)
    else
      var resp := Workflow.Verify(st, ids[0], now);
      if resp.result.Err? then (resp.storage, false)
      else VerifyEach(resp.storage, ids[1..], now)
  }

  /** `handleBulkVerify`: on success the selection is cleared and the
      list is reloaded, which seeds storage; when a call throws, the
      selection stays. */
  function BulkVerify(st: Storage, selected: seq<string>, now: Timestamp): (r: BulkOutcome)
    ensures r.failed ==> r.selected == selected
    ensures !r.failed ==> r.selected == [] && r.storage.customers.Some?
    ensures r.storage.authUser == st.authUser
  {
    var (st', ok) := VerifyEach(st, selected, now);
    if ok then BulkOutcome(Initialize(st'), [], false)
    else BulkOutcome(st', selected, true)
  }

  /** The same run on the records alone: the records after verifying the
      ids in order, and whether every id was found. */
  function VerifyAll(cs: seq<Customer>, ids: seq<string>, now: Timestamp): (r: (seq<Customer>, bool))
    decreases |ids|
  {
    if |ids| == 0 then (cs, true)
    else match Workflow.VerifyRecords(cs, ids[0], now)
      case Err(_) => (cs, false)
      case Ok(u) => VerifyAll(u.records, ids[1..], now)
  }

  /** The id is carried by some record. */
  predicate Known(cs: seq<Customer>, id: string)
  {
    FindById(cs, id).Some?
  }

  /** The first record with `id` is verified at `now`. */
  predicate VerifiedAt(cs: seq<Customer>, id: string, now: Timestamp)
  {
    match FindById(cs, id)
    case None => false
    case Some(k) => cs[k].verified && cs[k].verifiedAt == Some(now)
  }

  /** One `customers.verify` call: it succeeds exactly for a known id, and
      then the stored records are those of the record-level update. */
  lemma VerifyStep(st: Storage, id: string, now: Timestamp)
    ensures Workflow.Verify(st, id, now).result.Ok? <==> Known(Load(st), id)
    ensures Known(Load(st), id) ==>
              Workflow.Verify(st, id, now).storage.customers ==
              Some(Workflow.VerifyRecords(Load(st), id, now).value.records)
    ensures !Known(Load(st), id) ==> Workflow.Verify(st, id, now).storage == Initialize(st)
  {
  }

  /** The storage-level run is the record-level run on the records read;
      once it has made a call the collection is stored. */
  lemma {:induction false} EachIsVerifyAll(st: Storage, ids: seq<string>, now: Timestamp)
    ensures Load(VerifyEach(st, ids, now).0) == VerifyAll(Load(st), ids, now).0
    ensures VerifyEach(st, ids, now).1 == VerifyAll(Load(st), ids, now).1
    ensures |ids| > 0 ==> VerifyEach(st, ids, now).0.customers.Some?
    decreases |ids|
  {
    if |ids| > 0 {
      VerifyStep(st, ids[0], now);
      if Known(Load(st), ids[0]) {
        var next := Workflow.Verify(st, ids[0], now).storage;
        EachIsVerifyAll(next, ids[1..], now);
        if |ids| == 1 {
          assert VerifyEach(st, ids, now) == (next, true);
        }
      }
    }
  }

  lemma IdsKeepKnown(a: seq<Customer>, b: seq<Customer>, id: string)
    requires Workflow.Ids(a) == Workflow.Ids(b)
    ensures Known(a, id) <==> Known(b, id)
    ensures FindById(a, id) == FindById(b, id)
  {
    assert forall j :: 0 <= j < |a| ==> a[j].id == Workflow.Ids(b)[j];
  }

  lemma IdsKeepKnownAll(a: seq<Customer>, b: seq<Customer>, ids: seq<string>)
    requires Workflow.Ids(a) == Workflow.Ids(b)
    ensures forall i :: 0 <= i < |ids| ==> (Known(a, ids[i]) <==> Known(b, ids[i]))
  {
    forall i | 0 <= i < |ids|
      ensures Known(a, ids[i]) <==> Known(b, ids[i])
    {
      IdsKeepKnown(a, b, ids[i]);
    }
  }

  /** Verifying one id keeps every other id's first record verified at
      `now`, and verifies its own. */
  lemma VerifyKeepsStamps(cs: seq<Customer>, id: string, other: string, now: Timestamp)
    requires Workflow.VerifyRecords(cs, id, now).Ok?
    ensures VerifiedAt(Workflow.VerifyRecords(cs, id, now).value.records, id, now)
    ensures VerifiedAt(cs, other, now) ==>
              VerifiedAt(Workflow.VerifyRecords(cs, id, now).value.records, other, now)
  {
    var after := Workflow.VerifyRecords(cs, id, now).value.records;
    IdsKeepKnown(cs, after, id);
    IdsKeepKnown(cs, after, other);
  }

  lemma {:induction false} AllKeepsIds(cs: seq<Customer>, ids: seq<string>, now: Timestamp)
    ensures Workflow.Ids(VerifyAll(cs, ids, now).0) == Workflow.Ids(cs)
    decreases |ids|
  {
    if |ids| > 0 {
      var r := Workflow.VerifyRecords(cs, ids[0], now);
      if r.Ok? {
        AllKeepsIds(r.value.records, ids[1..], now);
      }
    }
  }

  lemma {:induction false} AllSucceedsWhenKnown(cs: seq<Customer>, ids: seq<string>, now: Timestamp)
    requires forall i :: 0 <= i < |ids| ==> Known(cs, ids[i])
    ensures VerifyAll(cs, ids, now).1
    decreases |ids|
  {
    if |ids| > 0 {
      var r := Workflow.VerifyRecords(cs, ids[0], now);
      assert r.Ok?;
      IdsKeepKnownAll(cs, r.value.records, ids);
      assert forall i :: 0 <= i < |ids| - 1 ==> ids[1..][i] == ids[i + 1];
      AllSucceedsWhenKnown(r.value.records, ids[1..], now);
    }
  }

  lemma {:induction false} AllFailsOnUnknown(cs: seq<Customer>, ids: seq<string>, now: Timestamp, k: nat)
    requires k < |ids| && !Known(cs, ids[k])
    ensures !VerifyAll(cs, ids, now).1
    decreases k
  {
    var r := Workflow.VerifyRecords(cs, ids[0], now);
    if k > 0 && r.Ok? {
      IdsKeepKnown(cs, r.value.records, ids[k]);
      assert ids[1..][k - 1] == ids[k];
      AllFailsOnUnknown(r.value.records, ids[1..], now, k - 1);
    }
  }

  /** The run gets through exactly when every id is known. */
  lemma AllSucceedsIffKnown(cs: seq<Customer>, ids: seq<string>, now: Timestamp)
    ensures VerifyAll(cs, ids, now).1 <==> forall i :: 0 <= i < |ids| ==> Known(cs, ids[i])
  {
    if forall i :: 0 <= i < |ids| ==> Known(cs, ids[i]) {
      AllSucceedsWhenKnown(cs, ids, now);
    } else {
      var k :| 0 <= k < |ids| && !Known(cs, ids[k]);
      AllFailsOnUnknown(cs, ids, now, k);
    }
  }

  /** A record verified at `now` stays so through a run of verifications
      at the same `now`. */
  lemma {:induction false} AllKeepsStamp(cs: seq<Customer>, ids: seq<string>, id: string, now: Timestamp)
    requires VerifiedAt(cs, id, now)
    ensures VerifiedAt(VerifyAll(cs, ids, now).0, id, now)
    decreases |ids|
  {
    if |ids| > 0 {
      var r := Workflow.VerifyRecords(cs, ids[0], now);
      if r.Ok? {
        VerifyKeepsStamps(cs, ids[0], id, now);
        AllKeepsStamp(r.value.records, ids[1..], id, now);
      }
    }
  }

  /** A run that gets through leaves every id's first record verified at
      `now`. */
  lemma {:induction false} AllStamps(cs: seq<Customer>, ids: seq<string>, now: Timestamp)
    ensures VerifyAll(cs, ids, now).1 ==>
              forall i :: 0 <= i < |ids| ==> VerifiedAt(VerifyAll(cs, ids, now).0, ids[i], now)
    decreases |ids|
  {
    if |ids| > 0 {
      var r := Workflow.VerifyRecords(cs, ids[0], now);
      if r.Ok? {
        var next := r.value.records;
        var final := VerifyAll(next, ids[1..], now);
        AllStamps(next, ids[1..], now);
        VerifyKeepsStamps(cs, ids[0], ids[0], now);
        AllKeepsStamp(next, ids[1..], ids[0], now);
        forall i | 0 <= i < |ids| && final.1
          ensures VerifiedAt(final.0, ids[i], now)
        {
          if i > 0 {
            assert ids[i] == ids[1..][i - 1];
          }
        }
      }
    }
  }

  /** Records whose id is not in the run are untouched, whether or not the
      run stopped early. */
  lemma {:induction false} AllFrame(cs: seq<Customer>, ids: seq<string>, now: Timestamp)
    ensures |VerifyAll(cs, ids, now).0| == |cs|
    ensures forall j :: 0 <= j < |cs| && cs[j].id !in ids ==> VerifyAll(cs, ids, now).0[j] == cs[j]
    decreases |ids|
  {
    if |ids| > 0 {
      var r := Workflow.VerifyRecords(cs, ids[0], now);
      if r.Ok? {
        var next := r.value.records;
        AllFrame(next, ids[1..], now);
        forall j | 0 <= j < |cs| && cs[j].id !in ids
          ensures VerifyAll(cs, ids, now).0[j] == cs[j]
        {
          assert cs[j].id != ids[0] && cs[j].id !in ids[1..];
          assert next[j] == cs[j];
        }
      }
    }
  }

  /** Each call touches only the two status fields of the first record
      with its id. So a run keeps every other field of every record, and a
      record that repeats an earlier record's id is never touched. */
  lemma {:induction false} AllSameButStatus(cs: seq<Customer>, ids: seq<string>, now: Timestamp)
    ensures |VerifyAll(cs, ids, now).0| == |cs|
    ensures forall j :: 0 <= j < |cs| ==> Workflow.SameButStatus(cs[j], VerifyAll(cs, ids, now).0[j])
    ensures forall j :: 0 <= j < |cs| && FindById(cs, cs[j].id) != Some(j) ==> VerifyAll(cs, ids, now).0[j] == cs[j]
    decreases |ids|
  {
    if |ids| > 0 {
      var r := Workflow.VerifyRecords(cs, ids[0], now);
      if r.Ok? {
        var next := r.value.records;
        var k := FindById(cs, ids[0]).value;
        AllSameButStatus(next, ids[1..], now);
        forall j | 0 <= j < |cs| && FindById(cs, cs[j].id) != Some(j)
          ensures VerifyAll(cs, ids, now).0[j] == cs[j]
        {
          assert j != k;
          assert next[j] == cs[j];
          IdsKeepKnown(cs, next, cs[j].id);
        }
      }
    }
  }

  /** When the `k`-th id is the first unknown one, the ids before it are
      verified and the ones after it are never attempted. */
  lemma {:induction false} AllStopsAtFirstFailure(cs: seq<Customer>, ids: seq<string>, now: Timestamp, k: nat)
    requires k < |ids| && !Known(cs, ids[k])
    requires forall i :: 0 <= i < k ==> Known(cs, ids[i])
    ensures VerifyAll(cs, ids, now) == (VerifyAll(cs, ids[..k], now).0, false)
    decreases k
  {
    var r := Workflow.VerifyRecords(cs, ids[0], now);
    if k > 0 {
      assert r.Ok?;
      var next := r.value.records;
      var rest := ids[1..];
      assert ids[..k][1..] == rest[..k - 1];
      IdsKeepKnownAll(cs, next, ids);
      assert rest[k - 1] == ids[k];
      assert forall i :: 0 <= i < k - 1 ==> rest[i] == ids[i + 1];
      AllStopsAtFirstFailure(next, rest, now, k - 1);
    }
  }

  /** The bulk action succeeds exactly when every selected id exists; then
      each selected customer is verified at `now`. Either way records whose
      id was not selected, and records repeating an earlier record's id,
      are untouched; every record keeps all fields but its status; and no
      record is added, removed or reordered. */
  lemma BulkVerifySucceeds(st: Storage, ids: seq<string>, now: Timestamp)
    ensures !BulkVerify(st, ids, now).failed <==> forall i :: 0 <= i < |ids| ==> Known(Load(st), ids[i])
    ensures var after := Load(BulkVerify(st, ids, now).storage);
            && Workflow.Ids(after) == Workflow.Ids(Load(st))
            && (forall j :: 0 <= j < |after| && after[j].id !in ids ==> after[j] == Load(st)[j])
    ensures !BulkVerify(st, ids, now).failed ==>
              forall i :: 0 <= i < |ids| ==> VerifiedAt(Load(BulkVerify(st, ids, now).storage), ids[i], now)
    ensures var after := Load(BulkVerify(st, ids, now).storage);
            && |after| == |Load(st)|
            && (forall j :: 0 <= j < |after| ==> Workflow.SameButStatus(Load(st)[j], after[j]))
            && (forall j :: 0 <= j < |after| && FindById(Load(st), Load(st)[j].id) != Some(j) ==>
                  after[j] == Load(st)[j])
  {
    var cs := Load(st);
    EachIsVerifyAll(st, ids, now);
    AllSucceedsIffKnown(cs, ids, now);
    AllKeepsIds(cs, ids, now);
    AllFrame(cs, ids, now);
    AllStamps(cs, ids, now);
    AllSameButStatus(cs, ids, now);
  }

  /** When the `k`-th selected id is the first unknown one, the ids before
      it are verified, the ones after it are never attempted, the storage
      is what the calls before it left, and the selection is kept. */
  lemma BulkVerifyStopsAtFirstFailure(st: Storage, ids: seq<string>, now: Timestamp, k: nat)
    requires k < |ids| && !Known(Load(st), ids[k])
    requires forall i :: 0 <= i < k ==> Known(Load(st), ids[i])
    ensures BulkVerify(st, ids, now) ==
            BulkOutcome(Initialize(VerifyEach(st, ids[..k], now).0), ids, true)
  {
    var cs := Load(st);
    EachIsVerifyAll(st, ids, now);
    EachIsVerifyAll(st, ids[..k], now);
    AllStopsAtFirstFailure(cs, ids, now, k);
    var (full, ok) := VerifyEach(st, ids, now);
    var prefix := VerifyEach(st, ids[..k], now).0;
    assert full == Initialize(full);
    assert Load(full) == Load(prefix);
  }

  /** The create-customer form: the source calls `customers.create`, which
      the backend does not define, so every call that passes the guard
      throws and lands in the error branch. */
  datatype NewUserForm = NewUserForm(name: string, email: string, phone: string, notes: string)

  datatype CreateOutcome = RequiredFieldsMissing | CreateFailed

  /** `handleCreateUser`: empty name or email is a validation error; anything
      else ends in the catch branch. Storage is never touched. */
  function HandleCreateUser(st: Storage, form: NewUserForm): (r: (Storage, CreateOutcome))
    ensures r.0 == st
    ensures r.1 == RequiredFieldsMissing <==> form.name == "" || form.email == ""
    ensures r.1 == CreateFailed <==> form.name != "" && form.email != ""
  {
    if form.name == "" || form.email == "" then (st, RequiredFieldsMissing)
    else (st, CreateFailed)
  }
}
