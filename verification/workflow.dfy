/** The write side of the customer backend (lib/mock-api.ts
    `customers.verify`, `revoke` and `updateNotes`). Each finds the first
    record with the id, throws "Customer not found" when there is none, and
    otherwise changes that one record and writes the whole collection back. */
module Workflow {

  import opened Wrappers
  import opened Store
  import Seqs

  /** The collection to write back and the changed record the call returns. */
  datatype Updated = Updated(records: seq<Customer>, customer: Customer)

  /** `after` differs from `before` at most at position `k`. */
  ghost predicate ChangedOnlyAt(before: seq<Customer>, after: seq<Customer>, k: nat)
  {
    |after| == |before| &&
    forall j :: 0 <= j < |before| && j != k ==> after[j] == before[j]
  }

  /** Identity, contact data, creation time and notes agree. */
  predicate SameButStatus(a: Customer, b: Customer)
  {
    a.id == b.id && a.name == b.name && a.email == b.email && a.phone == b.phone &&
    a.createdAt == b.createdAt && a.notes == b.notes
  }

  /** The ids of a collection, in order. */
  function Ids(cs: seq<Customer>): (r: seq<string>)
    ensures |r| == |cs|
    ensures forall i :: 0 <= i < |cs| ==> r[i] == cs[i].id
  {
    Seqs.Map((c: Customer) => c.id, cs)
  }

  function Stamped(c: Customer, now: Timestamp): Customer
  {
    c.(verified := true, verifiedAt := Some(now))
  }

  function Cleared(c: Customer): Customer
  {
    c.(verified := false, verifiedAt := None)
  }

  /** `verify` on the records read: flag the first record with `id` verified
      and stamp it with `now`. */
  function VerifyRecords(cs: seq<Customer>, id: string, now: Timestamp): (r: Result<Updated, Error>)
    ensures r.Err? <==> forall j :: 0 <= j < |cs| ==> cs[j].id != id
    ensures r.Err? ==> r.error == CustomerNotFound
    ensures r.Ok? ==> FindById(cs, id).Some?
    ensures r.Ok? ==> var k := FindById(cs, id).value;
                      ChangedOnlyAt(cs, r.value.records, k) &&
                      r.value.records[k] == r.value.customer &&
                      SameButStatus(cs[k], r.value.customer) &&
                      r.value.customer.verified &&
                      r.value.customer.verifiedAt == Some(now)
    ensures r.Ok? ==> Ids(r.value.records) == Ids(cs)
    ensures r.Ok? && AllConsistent(cs) ==> AllConsistent(r.value.records)
  {
    match FindById(cs, id)
    case None => Err(CustomerNotFound)
    case Some(k) =>
      var c := Stamped(cs[k], now);
      Ok(Updated(cs[k := c], c))
  }

  /** `revoke` on the records read: clear the flag and drop the timestamp of
      the first record with `id` (JSON drops an `undefined` field). */
  function RevokeRecords(cs: seq<Customer>, id: string): (r: Result<Updated, Error>)
    ensures r.Err? <==> forall j :: 0 <= j < |cs| ==> cs[j].id != id
    ensures r.Err? ==> r.error == CustomerNotFound
    ensures r.Ok? ==> FindById(cs, id).Some?
    ensures r.Ok? ==> var k := FindById(cs, id).value;
                      ChangedOnlyAt(cs, r.value.records, k) &&
                      r.value.records[k] == r.value.customer &&
                      SameButStatus(cs[k], r.value.customer) &&
                      !r.value.customer.verified &&
                      r.value.customer.verifiedAt.None?
    ensures r.Ok? ==> Ids(r.value.records) == Ids(cs)
    ensures r.Ok? && AllConsistent(cs) ==> AllConsistent(r.value.records)
  {
    match FindById(cs, id)
    case None => Err(CustomerNotFound)
    case Some(k) =>
      var c := Cleared(cs[k]);
      Ok(Updated(cs[k := c], c))
  }

  /** `updateNotes` on the records read: replace the notes of the first
      record with `id`, with no validation of the text. */
  function UpdateNotesRecords(cs: seq<Customer>, id: string, notes: string): (r: Result<Updated, Error>)
    ensures r.Err? <==> forall j :: 0 <= j < |cs| ==> cs[j].id != id
    ensures r.Err? ==> r.error == CustomerNotFound
    ensures r.Ok? ==> FindById(cs, id).Some?
    ensures r.Ok? ==> var k := FindById(cs, id).value;
                      ChangedOnlyAt(cs, r.value.records, k) &&
                      r.value.records[k] == r.value.customer &&
                      r.value.customer == cs[k].(notes := Some(notes))
    ensures r.Ok? ==> Ids(r.value.records) == Ids(cs)
    ensures r.Ok? && AllConsistent(cs) ==> AllConsistent(r.value.records)
  {
    match FindById(cs, id)
    case None => Err(CustomerNotFound)
    case Some(k) =>
      var c := cs[k].(notes := Some(notes));
      Ok(Updated(cs[k := c], c))
  }

  /** Seed if needed, run the record-level update, and write the collection
      back only when it succeeded. */
  function Commit(st: Storage, r: Result<Updated, Error>): (resp: Response<Customer>)
    ensures resp.storage.authUser == st.authUser
    ensures r.Err? ==> resp.storage == Initialize(st) && resp.result == Err(r.error)
    ensures r.Ok? ==> resp.storage.customers == Some(r.value.records) &&
                      resp.result == Ok(r.value.customer)
  {
    match r
    case Err(e) => Response(Initialize(st), Err(e))
    case Ok(u) => Response(Save(Initialize(st), u.records), Ok(u.customer))
  }

  /** `customers.verify`. */
  function Verify(st: Storage, id: string, now: Timestamp): (r: Response<Customer>)
    ensures r.storage.authUser == st.authUser
    ensures r.result.Err? <==> forall j :: 0 <= j < |Load(st)| ==> Load(st)[j].id != id
    ensures r.result.Err? ==> r.storage == Initialize(st)
    ensures r.result.Ok? ==> r.result.value.id == id && r.result.value.verified &&
                             r.result.value.verifiedAt == Some(now)
    ensures r.result.Ok? ==> r.storage.customers.Some? &&
                             Ids(r.storage.customers.value) == Ids(Load(st))
  {
    Commit(st, VerifyRecords(Load(st), id, now))
  }

  /** `customers.revoke`. */
  function Revoke(st: Storage, id: string): (r: Response<Customer>)
    ensures r.storage.authUser == st.authUser
    ensures r.result.Err? <==> forall j :: 0 <= j < |Load(st)| ==> Load(st)[j].id != id
    ensures r.result.Err? ==> r.storage == Initialize(st)
    ensures r.result.Ok? ==> r.result.value.id == id && !r.result.value.verified &&
                             r.result.value.verifiedAt.None?
    ensures r.result.Ok? ==> r.storage.customers.Some? &&
                             Ids(r.storage.customers.value) == Ids(Load(st))
  {
    Commit(st, RevokeRecords(Load(st), id))
  }

  /** `customers.updateNotes`. */
  function UpdateNotes(st: Storage, id: string, notes: string): (r: Response<Customer>)
    ensures r.storage.authUser == st.authUser
    ensures r.result.Err? <==> forall j :: 0 <= j < |Load(st)| ==> Load(st)[j].id != id
    ensures r.result.Err? ==> r.storage == Initialize(st)
    ensures r.result.Ok? ==> r.result.value.id == id && r.result.value.notes == Some(notes)
    ensures r.result.Ok? ==> r.storage.customers.Some? &&
                             Ids(r.storage.customers.value) == Ids(Load(st))
  {
    Commit(st, UpdateNotesRecords(Load(st), id, notes))
  }

  /** Storage whose records all satisfy the consistency invariant (or that
      has not been seeded yet). */
  predicate ValidStorage(st: Storage)
  {
    st.customers.Some? ==> AllConsistent(st.customers.value)
  }

  /** Every mutation keeps `verified` and `verifiedAt` in step. */
  lemma MutationsPreserveConsistency(st: Storage, id: string, now: Timestamp, notes: string)
    requires ValidStorage(st)
    ensures ValidStorage(Verify(st, id, now).storage)
    ensures ValidStorage(Revoke(st, id).storage)
    ensures ValidStorage(UpdateNotes(st, id, notes).storage)
  {
    LoadConsistent(st);
  }

  /** Revoking right after verifying restores a pending record. */
  lemma RevokeUndoesVerify(cs: seq<Customer>, id: string, now: Timestamp)
    requires AllConsistent(cs)
    requires forall j :: 0 <= j < |cs| && cs[j].id == id ==> !cs[j].verified
    ensures match VerifyRecords(cs, id, now)
            case Err(_) => true
            case Ok(u) => RevokeRecords(u.records, id).Ok? &&
                          RevokeRecords(u.records, id).value.records == cs
  {
    match VerifyRecords(cs, id, now)
    case Err(_) =>
    case Ok(u) =>
      var k := FindById(cs, id).value;
      assert FindById(u.records, id) == Some(k) by {
        assert forall j :: 0 <= j < k ==> u.records[j].id != id;
      }
      var back := RevokeRecords(u.records, id).value.records;
      assert back[k] == cs[k];
      assert back == cs;
  }

  /** Verifying twice at the same instant is the same as verifying once. */
  lemma VerifyIdempotent(cs: seq<Customer>, id: string, now: Timestamp)
    ensures match VerifyRecords(cs, id, now)
            case Err(_) => true
            case Ok(u) => VerifyRecords(u.records, id, now) == Ok(u)
  {
    match VerifyRecords(cs, id, now)
    case Err(_) =>
    case Ok(u) =>
      var k := FindById(cs, id).value;
      assert FindById(u.records, id) == Some(k) by {
        assert forall j :: 0 <= j < k ==> u.records[j].id != id;
      }
      assert u.records[k := u.customer] == u.records;
  }

  /** The last note written wins. */
  lemma UpdateNotesLastWins(cs: seq<Customer>, id: string, first: string, second: string)
    ensures match UpdateNotesRecords(cs, id, first)
            case Err(_) => UpdateNotesRecords(cs, id, second).Err?
            case Ok(u) => UpdateNotesRecords(u.records, id, second) == UpdateNotesRecords(cs, id, second)
  {
    match UpdateNotesRecords(cs, id, first)
    case Err(_) =>
    case Ok(u) =>
      var k := FindById(cs, id).value;
      assert FindById(u.records, id) == Some(k) by {
        assert forall j :: 0 <= j < k ==> u.records[j].id != id;
      }
      assert u.records[k := u.records[k].(notes := Some(second))] ==
             cs[k := cs[k].(notes := Some(second))];
  }
}
