/** The in-memory authentication backend used by the login page: a list of
    users that registration appends to and login searches.
 */
module AuthMock {
  import opened Outcomes

  /** A stored user. */
  datatype StoredUser = StoredUser(id: nat, name: string, email: string, password: string)

  /** The `users` array. */
  type Store = seq<StoredUser>

  /** The store the module starts with. */
  const InitialStore: Store := [StoredUser(1, "Viviana", "vivi@test.com", "123")]

  const BadCredentials := "Credenciales incorrectas. Intenta de nuevo."
  const EmailTaken := "El correo ya está registrado"
  const TokenPrefix := "fake-jwt-token-"

  /** The decimal digit for 0..9. */
  function Digit(d: nat): (c: char)
    requires d < 10
    ensures '0' <= c <= '9' && (c as int) - ('0' as int) == d
  {
    "0123456789"[d]
  }

  /** A natural number written in decimal, as JavaScript turns a number into a
      string: digits only, and no leading zero except for 0 itself. */
  function Decimal(n: nat): (s: string)
    ensures |s| > 0
    ensures forall i :: 0 <= i < |s| ==> '0' <= s[i] <= '9'
    ensures s[0] == '0' ==> n == 0
    decreases n
  {
    if n < 10 then [Digit(n)] else Decimal(n / 10) + [Digit(n % 10)]
  }

  /** Reads a string of decimal digits back as a number. */
  function ParseDecimal(s: string): nat
    requires forall i :: 0 <= i < |s| ==> '0' <= s[i] <= '9'
    decreases |s|
  {
    if |s| == 0 then 0
    else ParseDecimal(s[..|s| - 1]) * 10 + ((s[|s| - 1] as int) - ('0' as int))
  }

  /** Writing a number in decimal loses nothing: reading it back gives the number. */
  lemma {:induction false} DecimalRoundTrip(n: nat)
    ensures ParseDecimal(Decimal(n)) == n
    decreases n
  {
    var s := Decimal(n);
    if n >= 10 {
      assert s[..|s| - 1] == Decimal(n / 10);
      DecimalRoundTrip(n / 10);
    }
  }

  /** The session token issued for a user id: the fixed prefix followed by a
      decimal text without leading zeros that reads back as the id. */
  function Token(id: nat): (t: string)
    ensures |t| > |TokenPrefix| && t[..|TokenPrefix|] == TokenPrefix
    ensures forall i :: |TokenPrefix| <= i < |t| ==> '0' <= t[i] <= '9'
    ensures ParseDecimal(t[|TokenPrefix|..]) == id
    ensures t[|TokenPrefix|] == '0' ==> id == 0
  {
    DecimalRoundTrip(id);
    var t := TokenPrefix + Decimal(id);
    assert t[|TokenPrefix|..] == Decimal(id);
    t
  }

  /** Distinct ids get distinct tokens. */
  lemma TokensDistinct(a: nat, b: nat)
    requires a != b
    ensures Token(a) != Token(b)
  {
  }

  /** The user a successful login returns, with its token. */
  datatype Session = Session(name: string, email: string, token: string)

  /** The user matches both the e-mail and the password. */
  predicate Matches(u: StoredUser, email: string, password: string) {
    u.email == email && u.password == password
  }

  /** The first stored user matching both credentials (`find`), if any. */
  function FindUser(store: Store, email: string, password: string): (r: Option<nat>)
    ensures r.Some? ==> r.value < |store| && Matches(store[r.value], email, password)
    ensures r.Some? ==> forall j :: 0 <= j < r.value ==> !Matches(store[j], email, password)
    ensures r.None? ==> forall j :: 0 <= j < |store| ==> !Matches(store[j], email, password)
    decreases |store|
  {
    if |store| == 0 then None
    else if Matches(store[0], email, password) then Some(0)
    else match FindUser(store[1..], email, password)
      case None => None
      case Some(k) => Some(k + 1)
  }

  /** `loginUser`: succeeds exactly when some stored user matches both the
      e-mail and the password, returning the first such user's name and e-mail
      with the token for its id; otherwise fails with the credentials message. */
  function Login(store: Store, email: string, password: string): (r: Outcome<Session>)
    ensures r.Ok? <==> exists i :: 0 <= i < |store| && Matches(store[i], email, password)
    ensures r.Err? ==> r.message == BadCredentials
    ensures r.Ok? ==> exists i :: 0 <= i < |store| && Matches(store[i], email, password)
                         && (forall j :: 0 <= j < i ==> !Matches(store[j], email, password))
                         && r.value == Session(store[i].name, store[i].email, Token(store[i].id))
  {
    match FindUser(store, email, password)
    case None => Err(BadCredentials)
    case Some(i) =>
      var u := store[i];
      Ok(Session(u.name, u.email, Token(u.id)))
  }

  /** Some stored user has this e-mail (`some`), scanning from the front. */
  predicate EmailTakenIn(store: Store, email: string): (b: bool)
    ensures b <==> exists i :: 0 <= i < |store| && store[i].email == email
    decreases |store|
  {
    |store| > 0 && (store[0].email == email || EmailTakenIn(store[1..], email))
  }

  /** The store after a registration attempt, and its reply. */
  datatype Registration = Registration(store: Store, reply: Outcome<string>)

  /** `registerUser`: a taken e-mail fails and changes nothing; otherwise one
      user with id = previous length + 1 is appended and the greeting returned. */
  function Register(store: Store, name: string, email: string, password: string): (r: Registration)
    ensures EmailTakenIn(store, email) ==> r == Registration(store, Err(EmailTaken))
    ensures !EmailTakenIn(store, email) ==>
              && r.store == store + [StoredUser(|store| + 1, name, email, password)]
              && r.reply == Ok("Usuario " + name + " registrado correctamente")
  {
    if EmailTakenIn(store, email) then Registration(store, Err(EmailTaken))
    else
      Registration(store + [StoredUser(|store| + 1, name, email, password)],
                   Ok("Usuario " + name + " registrado correctamente"))
  }

  /** Ids are 1, 2, ..., n in store order. */
  ghost predicate SequentialIds(store: Store) {
    forall i :: 0 <= i < |store| ==> store[i].id == i + 1
  }

  /** No two stored users share an e-mail. */
  ghost predicate UniqueEmails(store: Store) {
    forall i, j :: 0 <= i < j < |store| ==> store[i].email != store[j].email
  }

  /** Registration keeps ids sequential and e-mails unique, and never alters a
      user already stored. */
  lemma RegisterPreservesStore(store: Store, name: string, email: string, password: string)
    requires SequentialIds(store) && UniqueEmails(store)
    ensures var r := Register(store, name, email, password).store;
            && SequentialIds(r) && UniqueEmails(r)
            && |store| <= |r| <= |store| + 1
            && r[..|store|] == store
  {
    var r := Register(store, name, email, password).store;
    assert r[..|store|] == store;
  }

  /** The starting store already satisfies both store invariants. */
  lemma InitialStoreWellFormed()
    ensures SequentialIds(InitialStore) && UniqueEmails(InitialStore)
  {
  }

  /** After a successful registration, logging in with the same e-mail and
      password returns the new user with the token for id = old length + 1. */
  lemma LoginAfterRegister(store: Store, name: string, email: string, password: string)
    requires Register(store, name, email, password).reply.Ok?
    ensures Login(Register(store, name, email, password).store, email, password)
            == Ok(Session(name, email, Token(|store| + 1)))
  {
    var r := Register(store, name, email, password).store;
    var found := FindUser(r, email, password);
    assert Matches(r[|store|], email, password);
    assert found.Some?;
  }
}
