/** The session gate of the mock backend (lib/mock-api.ts `auth` and `me`):
    a length-only password check against the stored customers, a single
    hardcoded owner identity, and the "authUser" storage key as session. */
module Auth {

  import opened Wrappers
  import opened Store
  import Seqs

  const MinPasswordLength: nat := 8
  const OwnerEmail: string := "owner@15palle.it"
  const OwnerUser: AuthUser := AuthUser("owner-001", OwnerEmail, OwnerRole, "Club Owner")

  /** Position of the first record with this email (`customers.find`). */
  function FindByEmail(cs: seq<Customer>, email: string): (r: Option<nat>)
    ensures r.Some? ==> r.value < |cs| && cs[r.value].email == email
    ensures r.Some? ==> forall j :: 0 <= j < r.value ==> cs[j].email != email
    ensures r.None? <==> forall j :: 0 <= j < |cs| ==> cs[j].email != email
  {
    Seqs.FindIndex((c: Customer) => c.email == email, cs)
  }

  /** The customer session of a record. */
  function SessionOf(c: Customer): AuthUser
  {
    AuthUser(c.id, c.email, CustomerRole, c.name)
  }

  /** `auth.loginCustomer`: seed storage, then accept any password of at
      least eight characters for an email some record has, signing in as
      the first such record. */
  function LoginCustomer(st: Storage, email: string, password: string): (r: Response<AuthUser>)
    ensures r.result.Ok? <==>
              |password| >= MinPasswordLength &&
              exists j :: 0 <= j < |Load(st)| && Load(st)[j].email == email
    ensures r.result.Err? ==> r.result.error == InvalidCredentials && r.storage == Initialize(st)
    ensures r.result.Ok? ==>
              var u := r.result.value;
              && u.role == CustomerRole
              && u.email == email
              && (exists k :: 0 <= k < |Load(st)| && Load(st)[k].email == email &&
                              (forall j :: 0 <= j < k ==> Load(st)[j].email != email) &&
                              u.id == Load(st)[k].id && u.name == Load(st)[k].name)
              && r.storage == Initialize(st).(authUser := Some(u))
  {
    var seeded := Initialize(st);
    if |password| < MinPasswordLength then Response(seeded, Err(InvalidCredentials))
    else
      var cs := Load(st);
      match FindByEmail(cs, email)
      case None => Response(seeded, Err(InvalidCredentials))
      case Some(k) =>
        var u := SessionOf(cs[k]);
        Response(seeded.(authUser := Some(u)), Ok(u))
  }

  /** `auth.loginOwner`: the fixed owner email with any password of at least
      eight characters; storage is not seeded. */
  function LoginOwner(st: Storage, email: string, password: string): (r: Response<AuthUser>)
    ensures r.result.Ok? <==> email == OwnerEmail && |password| >= MinPasswordLength
    ensures r.result.Ok? ==> r.result.value.id == "owner-001" &&
                             r.result.value.role == OwnerRole &&
                             r.storage == st.(authUser := Some(r.result.value))
    ensures r.result.Err? ==> r.result.error == InvalidCredentials && r.storage == st
  {
    if email == OwnerEmail && |password| >= MinPasswordLength then
      Response(st.(authUser := Some(OwnerUser)), Ok(OwnerUser))
    else
      Response(st, Err(InvalidCredentials))
  }

  /** `auth.logout`: forget the session, keep the customers. */
  function Logout(st: Storage): (r: Storage)
    ensures r.authUser.None?
    ensures r.customers == st.customers
  {
    st.(authUser := None)
  }

  /** `me.get`: the stored session, or null. */
  function Me(st: Storage): (r: Option<AuthUser>)
    ensures r.Some? <==> st.authUser.Some?
  {
    st.authUser
  }

  /** A successful login is what `me.get` reports next, and a logout ends it. */
  lemma SessionLifecycle(st: Storage, email: string, password: string)
    ensures LoginCustomer(st, email, password).result.Ok? ==>
              Me(LoginCustomer(st, email, password).storage) == Some(LoginCustomer(st, email, password).result.value)
    ensures LoginOwner(st, email, password).result.Ok? ==>
              Me(LoginOwner(st, email, password).storage) == Some(OwnerUser)
    ensures Me(Logout(LoginCustomer(st, email, password).storage)).None?
    ensures Me(Logout(LoginOwner(st, email, password).storage)).None?
  {
  }

  /** A failed login leaves the previous session in place. */
  lemma FailedLoginKeepsSession(st: Storage, email: string, password: string)
    ensures LoginCustomer(st, email, password).result.Err? ==>
              Me(LoginCustomer(st, email, password).storage) == Me(st)
    ensures LoginOwner(st, email, password).result.Err? ==>
              Me(LoginOwner(st, email, password).storage) == Me(st)
  {
  }

  /** The seed customers can sign in by email with any long enough password. */
  lemma SeedCustomerLogin(password: string)
    requires |password| >= MinPasswordLength
    ensures LoginCustomer(Storage(None, None), "luca.ferrari@example.com", password).result ==
            Ok(AuthUser("cust-003", "luca.ferrari@example.com", CustomerRole, "Luca Ferrari"))
  {
    var s := SeedCustomers();
    assert s[0].email != "luca.ferrari@example.com";
    assert s[1].email != "luca.ferrari@example.com";
    assert s[2].email == "luca.ferrari@example.com";
  }
}
