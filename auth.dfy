/**
  The `/register` and `/login` handlers of the authentication routes, over a user
  store that is a sequence of records. The store's `findOne` is a search from the
  front of the sequence; `save` appends.

  bcrypt is not modelled: a `Crypto` value carries the hash and compare functions,
  and the one property the handlers rely on, that a password compares equal to its
  own salted hash, is the hypothesis `CompareAcceptsOwnHash`.
*/
module Auth {

  import opened Wrappers

  type Salt = string

  datatype Crypto = Crypto(hash: (string, Salt) -> string, compare: (string, string) -> bool)

  /** bcrypt's correctness: `compare(p, hash(p, s))` for every password and salt. */
  ghost predicate CompareAcceptsOwnHash(crypto: Crypto) {
    forall p, s :: crypto.compare(p, crypto.hash(p, s))
  }

  /** A stored user record; `password` holds the salted hash. */
  datatype User = User(username: string, email: string, password: string)

  /** A user record with the password field removed, as login sends it back. */
  datatype PublicUser = PublicUser(username: string, email: string)

  function WithoutPassword(u: User): PublicUser {
    PublicUser(u.username, u.email)
  }

  const UsernameInUse := "Username is already in use."
  const EmailInUse := "Email is already in use."
  const WrongCredentials := "Wrong Credentials!"

  /** 200 with the saved record, or 400 with `{ message }`. */
  datatype RegisterResponse = Registered(user: User) | RegisterConflict(message: string) {
    function Status(): int {
      if Registered? then 200 else 400
    }
  }

  /** 200 with the record minus its password, or 400 with a plain string body. */
  datatype LoginResponse = LoggedIn(user: PublicUser) | LoginRejected(body: string) {
    function Status(): int {
      if LoggedIn? then 200 else 400
    }
  }

  predicate UsernameTaken(records: seq<User>, username: string) {
    exists i :: 0 <= i < |records| && records[i].username == username
  }

  predicate EmailTaken(records: seq<User>, email: string) {
    exists i :: 0 <= i < |records| && records[i].email == email
  }

  /** No two records share a username, and no two share an email. */
  ghost predicate UniqueCredentials(records: seq<User>) {
    forall i, j :: 0 <= i < j < |records| ==>
      records[i].username != records[j].username && records[i].email != records[j].email
  }

  /** `findOne({ username })`: the first record with that username. */
  function FindByUsername(records: seq<User>, username: string): (r: Option<User>)
    ensures r.None? <==> !UsernameTaken(records, username)
    ensures r.Some? ==> r.value in records && r.value.username == username
  {
    if records == [] then None
    else if records[0].username == username then Some(records[0])
    else
      var rest := FindByUsername(records[1..], username);
      assert UsernameTaken(records, username) <==> UsernameTaken(records[1..], username) by {
        if UsernameTaken(records, username) {
          var i :| 0 <= i < |records| && records[i].username == username;
          assert records[1..][i - 1] == records[i];
        }
        if UsernameTaken(records[1..], username) {
          var i :| 0 <= i < |records[1..]| && records[1..][i].username == username;
          assert records[i + 1] == records[1..][i];
        }
      }
      rest
  }

  /** `findOne({ email })`: the first record with that email. */
  function FindByEmail(records: seq<User>, email: string): (r: Option<User>)
    ensures r.None? <==> !EmailTaken(records, email)
    ensures r.Some? ==> r.value in records && r.value.email == email
  {
    if records == [] then None
    else if records[0].email == email then Some(records[0])
    else
      var rest := FindByEmail(records[1..], email);
      assert EmailTaken(records, email) <==> EmailTaken(records[1..], email) by {
        if EmailTaken(records, email) {
          var i :| 0 <= i < |records| && records[i].email == email;
          assert records[1..][i - 1] == records[i];
        }
        if EmailTaken(records[1..], email) {
          var i :| 0 <= i < |records[1..]| && records[1..][i].email == email;
          assert records[i + 1] == records[1..][i];
        }
      }
      rest
  }

  /** In a store without duplicate usernames, the lookup finds the one record with that name. */
  lemma {:induction false} FindUnique(records: seq<User>, i: nat)
    requires UniqueCredentials(records) && i < |records|
    ensures FindByUsername(records, records[i].username) == Some(records[i])
  {
    if i > 0 {
      assert records[0].username != records[i].username;
      assert UniqueCredentials(records[1..]) by {
        forall a, b | 0 <= a < b < |records[1..]|
          ensures records[1..][a].username != records[1..][b].username && records[1..][a].email != records[1..][b].email
        {
          assert records[1..][a] == records[a + 1] && records[1..][b] == records[b + 1];
        }
      }
      FindUnique(records[1..], i - 1);
    }
  }

  /** A record appended under a fresh username is what the lookup then finds. */
  lemma {:induction false} FindAppended(records: seq<User>, u: User)
    requires !UsernameTaken(records, u.username)
    ensures FindByUsername(records + [u], u.username) == Some(u)
  {
    if records != [] {
      assert (records + [u])[1..] == records[1..] + [u];
      forall i | 0 <= i < |records[1..]| ensures records[1..][i].username != u.username {
        assert records[1..][i] == records[i + 1];
      }
      assert records[0].username != u.username;
      FindAppended(records[1..], u);
    }
  }

  /** Appending a record with a fresh username and a fresh email keeps both unique. */
  lemma AppendKeepsUnique(records: seq<User>, u: User)
    requires UniqueCredentials(records)
    requires !UsernameTaken(records, u.username) && !EmailTaken(records, u.email)
    ensures UniqueCredentials(records + [u])
  {
    var s := records + [u];
    forall i, j | 0 <= i < j < |s|
      ensures s[i].username != s[j].username && s[i].email != s[j].email
    {
      assert s[i] == records[i];
      if j == |records| {
        assert s[j] == u;
      } else {
        assert s[j] == records[j];
      }
    }
  }

  /** The user collection, updated one request at a time. */
  class UserStore {

    var records: seq<User>

    constructor (records: seq<User>)
      ensures this.records == records
    {
      this.records := records;
    }

    /**
      `POST /register`: the username check comes first, then the email check; only
      when both are free is one record appended, holding the salted hash.
    */
    method Register(username: string, email: string, password: string, salt: Salt, crypto: Crypto)
      returns (res: RegisterResponse)
      modifies this
      ensures UsernameTaken(old(records), username) ==>
        res == RegisterConflict(UsernameInUse) && records == old(records)
      ensures !UsernameTaken(old(records), username) && EmailTaken(old(records), email) ==>
        res == RegisterConflict(EmailInUse) && records == old(records)
      ensures !UsernameTaken(old(records), username) && !EmailTaken(old(records), email) ==>
        res == Registered(User(username, email, crypto.hash(password, salt))) &&
        records == old(records) + [res.user]
      ensures UniqueCredentials(old(records)) ==> UniqueCredentials(records)
      ensures res.Registered? && CompareAcceptsOwnHash(crypto) ==>
        Login(username, password, crypto) == LoggedIn(PublicUser(username, email))
    {
      var existingUsername := FindByUsername(records, username);
      if existingUsername.Some? {
        return RegisterConflict(UsernameInUse);
      }
      var existingEmail := FindByEmail(records, email);
      if existingEmail.Some? {
        return RegisterConflict(EmailInUse);
      }
      var hashedPass := crypto.hash(password, salt);
      var newUser := User(username, email, hashedPass);
      if UniqueCredentials(records) {
        AppendKeepsUnique(records, newUser);
      }
      FindAppended(records, newUser);
      records := records + [newUser];
      res := Registered(newUser);
    }

    /**
      `POST /login`: an unknown username and a wrong password get the same 400
      body; success sends the record back without its password.
    */
    function Login(username: string, password: string, crypto: Crypto): (r: LoginResponse)
      reads this
      ensures r.LoginRejected? ==> r == LoginRejected(WrongCredentials)
      ensures !UsernameTaken(records, username) ==> r == LoginRejected(WrongCredentials)
      ensures r.LoggedIn? ==>
        exists i :: (0 <= i < |records| && records[i].username == username &&
                     crypto.compare(password, records[i].password) && r.user == WithoutPassword(records[i]))
      ensures UniqueCredentials(records) ==>
        (r.LoggedIn? <==>
          exists i :: (0 <= i < |records| && records[i].username == username &&
                       crypto.compare(password, records[i].password)))
    {
      var user := FindByUsername(records, username);
      if user.None? then LoginRejected(WrongCredentials)
      else if !crypto.compare(password, user.value.password) then LoginRejected(WrongCredentials)
      else LoggedIn(WithoutPassword(user.value))
    }
  }

  /**
    The registration example `alice01` / `a@example.com` / `Abcdef1!`, as a client
    of the store: a first registration succeeds, a second one under the same
    username meets the username conflict, and the stored password then logs in.
  */
  method RegistrationScenario(crypto: Crypto, salt1: Salt, salt2: Salt)
    requires CompareAcceptsOwnHash(crypto)
  {
    var store := new UserStore([]);
    var first := store.Register("alice01", "a@example.com", "Abcdef1!", salt1, crypto);
    assert first == Registered(User("alice01", "a@example.com", crypto.hash("Abcdef1!", salt1)));
    assert first.Status() == 200;
    var second := store.Register("alice01", "b@example.com", "Abcdef1!", salt2, crypto);
    assert store.records[0].username == "alice01";
    assert second == RegisterConflict(UsernameInUse) && second.Status() == 400;
    assert store.Login("alice01", "Abcdef1!", crypto) == LoggedIn(PublicUser("alice01", "a@example.com"));
    assert store.Login("bob0001", "Abcdef1!", crypto) == LoginRejected(WrongCredentials);
  }
}
