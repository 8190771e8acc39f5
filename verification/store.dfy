/** The persisted state of the mock backend (lib/mock-api.ts): the customer
    records kept under the "customers" storage key, the signed-in user kept
    under "authUser", the seed records and the seeding step every
    directory and workflow call starts with. */
module Store {

  import opened Wrappers
  import Seqs

  /** Milliseconds since the epoch, as `Date.prototype.getTime` returns. */
  type Timestamp = int

  datatype Customer = Customer(
    id: string,
    name: string,
    email: string,
    phone: Option<string>,
    createdAt: Timestamp,
    verified: bool,
    verifiedAt: Option<Timestamp>,
    notes: Option<string>)

  datatype Role = CustomerRole | OwnerRole

  /** The session record stored under "authUser". */
  datatype AuthUser = AuthUser(id: string, email: string, role: Role, name: string)

  /** The errors the backend throws, by message. */
  datatype Error = InvalidCredentials | CustomerNotFound {
    function Message(): string {
      match this
      case InvalidCredentials => "Invalid credentials"
      case CustomerNotFound => "Customer not found"
    }
  }

  /** The reply of an API call: the storage after it, and its value or the
      error it threw. */
  datatype Response<+T> = Response(storage: Storage, result: Result<T, Error>)

  /** Browser storage: `None` is a key that was never written. */
  datatype Storage = Storage(customers: Option<seq<Customer>>, authUser: Option<AuthUser>)

  /** The verification timestamp is present exactly while the flag is set. */
  predicate Consistent(c: Customer)
  {
    c.verified <==> c.verifiedAt.Some?
  }

  predicate AllConsistent(cs: seq<Customer>)
  {
    forall i :: 0 <= i < |cs| ==> Consistent(cs[i])
  }

  function SeedCustomers(): seq<Customer>
  {
    [ Customer("cust-001", "Marco Rossi", "marco.rossi@example.com", Some("+39 06 1234 5678"),
               1736937000000, true, Some(1737037200000), Some("Regular player, prefers table 3")),
      Customer("cust-002", "Giulia Bianchi", "giulia.bianchi@example.com", Some("+39 06 2345 6789"),
               1737387900000, true, Some(1737450600000), Some("Tournament player")),
      Customer("cust-003", "Luca Ferrari", "luca.ferrari@example.com", Some("+39 06 3456 7890"),
               1738408800000, false, None, Some("New member")),
      Customer("cust-004", "Sofia Romano", "sofia.romano@example.com", Some("+39 06 4567 8901"),
               1738773000000, false, None, None),
      Customer("cust-005", "Alessandro Conti", "alessandro.conti@example.com", Some("+39 06 5678 9012"),
               1739193300000, false, None, Some("Interested in lessons")),
      Customer("cust-006", "Francesca Marino", "francesca.marino@example.com", Some("+39 06 6789 0123"),
               1739354400000, false, None, None) ]
  }

  predicate IsVerified(c: Customer) { c.verified }

  predicate IsPending(c: Customer) { !c.verified }

  /** Every seed record satisfies the consistency invariant. */
  lemma SeedConsistent()
    ensures |SeedCustomers()| == 6
    ensures AllConsistent(SeedCustomers())
  {
  }

  /** Exactly the first two seed records are verified. */
  lemma SeedVerified()
    ensures Seqs.Filter(IsVerified, SeedCustomers()) == SeedCustomers()[..2]
  {
    var s := SeedCustomers();
    assert s == s[..2] + s[2..];
    Seqs.FilterAllPass(IsVerified, s[..2]);
    Seqs.FilterNonePass(IsVerified, s[2..]);
    Seqs.FilterAppend(IsVerified, s[..2], s[2..]);
  }

  /** Exactly the last four seed records are pending. */
  lemma SeedPending()
    ensures Seqs.Filter(IsPending, SeedCustomers()) == SeedCustomers()[2..]
  {
    var s := SeedCustomers();
    assert s == s[..2] + s[2..];
    Seqs.FilterNonePass(IsPending, s[..2]);
    Seqs.FilterAllPass(IsPending, s[2..]);
    Seqs.FilterAppend(IsPending, s[..2], s[2..]);
  }

  /** No two seed records share an id or an email. */
  lemma SeedDistinct()
    ensures forall i, j :: 0 <= i < j < |SeedCustomers()| ==>
              SeedCustomers()[i].id != SeedCustomers()[j].id &&
              SeedCustomers()[i].email != SeedCustomers()[j].email
  {
    var s := SeedCustomers();
    forall i, j | 0 <= i < j < |s|
      ensures s[i].id != s[j].id && s[i].email != s[j].email
    {
      assert s[i].id[7] != s[j].id[7];
      assert s[i].email[0] != s[j].email[0];
    }
  }

  /** `initializeStorage`: write the seed records when the "customers" key
      holds nothing, otherwise leave storage alone. */
  function Initialize(st: Storage): (r: Storage)
    ensures r.customers.Some?
    ensures r.authUser == st.authUser
    ensures st.customers.Some? ==> r == st
    ensures st.customers.None? ==> r.customers == Some(SeedCustomers())
  {
    if st.customers.None? then st.(customers := Some(SeedCustomers())) else st
  }

  /** Seeding a second time changes nothing. */
  lemma InitializeIdempotent(st: Storage)
    ensures Initialize(Initialize(st)) == Initialize(st)
  {
  }

  /** The records a call reads after seeding:
      `JSON.parse(localStorage.getItem("customers") || "[]")`. */
  function Load(st: Storage): (cs: seq<Customer>)
    ensures st.customers.Some? ==> cs == st.customers.value
    ensures st.customers.None? ==> cs == SeedCustomers()
  {
    Initialize(st).customers.value
  }

  /** Seeding establishes the consistency invariant for fresh storage. */
  lemma LoadConsistent(st: Storage)
    requires st.customers.Some? ==> AllConsistent(st.customers.value)
    ensures AllConsistent(Load(st))
  {
    SeedConsistent();
  }

  /** Overwrite the "customers" key. */
  function Save(st: Storage, cs: seq<Customer>): (r: Storage)
    ensures r.customers == Some(cs) && r.authUser == st.authUser
  {
    st.(customers := Some(cs))
  }

  /** Writing back what was read is a no-op on seeded storage. */
  lemma SaveLoad(st: Storage)
    ensures Save(Initialize(st), Load(st)) == Initialize(st)
  {
  }

  /** Position of the first record with this id (`customers.find` by id). */
  function FindById(cs: seq<Customer>, id: string): (r: Option<nat>)
    ensures r.Some? ==> r.value < |cs| && cs[r.value].id == id
    ensures r.Some? ==> forall j :: 0 <= j < r.value ==> cs[j].id != id
    ensures r.None? <==> forall j :: 0 <= j < |cs| ==> cs[j].id != id
  {
    Seqs.FindIndex((c: Customer) => c.id == id, cs)
  }
}
