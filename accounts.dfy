/** The user controller: registration, login, logout, deletion and profile
    update over three collections (users, banks, tokens).

    bcrypt's compare is the store's `matches` relation; everything it is fed
    by bcrypt's hash is a parameter that `matches` accepts. Fresh ObjectIds
    and token strings are parameters not yet in use. A `findOne` with an
    `$or` filter may return any matching document, so the operations'
    contracts are relations: they say what holds for every document the
    database might return. */
module Accounts {
  import opened Common
  import Auth
  import Bank

  // ---------------------------------------------------------------------------
  // Request-body schemas (zod). The e-mail syntax check is an input flag; an
  // accepted e-mail is never empty.

  /** JavaScript's `s.length`: UTF-16 code units, two for a character outside
      the Basic Multilingual Plane. */
  function Utf16Length(s: string): (n: nat)
    ensures |s| <= n <= 2 * |s|
  {
    UnitsBound(s, 0);
    UnitsFrom(s, 0)
  }

  /** Code units of `s[i..]`. */
  function UnitsFrom(s: string, i: nat): nat
    requires i <= |s|
    decreases |s| - i
  {
    if i == |s| then 0
    else (if s[i] as int < 0x1_0000 then 1 else 2) + UnitsFrom(s, i + 1)
  }

  /** Each character is one or two code units. */
  lemma {:induction false} UnitsBound(s: string, i: nat)
    requires i <= |s|
    ensures |s| - i <= UnitsFrom(s, i) <= 2 * (|s| - i)
    decreases |s| - i
  {
    if i < |s| {
      UnitsBound(s, i + 1);
    }
  }

  /** Within the Basic Multilingual Plane the length is the number of
      characters. */
  lemma BmpLength(s: string)
    requires forall i :: 0 <= i < |s| ==> s[i] as int < 0x1_0000
    ensures Utf16Length(s) == |s|
  {
    BmpUnitsFrom(s, 0);
  }

  lemma {:induction false} BmpUnitsFrom(s: string, i: nat)
    requires i <= |s|
    requires forall j :: 0 <= j < |s| ==> s[j] as int < 0x1_0000
    ensures UnitsFrom(s, i) == |s| - i
    decreases |s| - i
  {
    if i < |s| {
      BmpUnitsFrom(s, i + 1);
    }
  }

  /** Two astral characters are four code units: long enough for a username,
      though only two characters. */
  lemma AstralCharactersCountTwice()
    ensures Utf16Length("\U{1F600}\U{1F600}") == 4
    ensures UsernameOk("\U{1F600}\U{1F600}")
  {
  }

  /** zod's `.min(3)`. */
  predicate UsernameOk(username: string) { Utf16Length(username) >= 3 }

  /** zod's `.min(5)`. */
  predicate PasswordOk(password: string) { Utf16Length(password) >= 5 }

  predicate EmailOk(email: string, wellFormed: bool) { wellFormed && email != "" }

  predicate RegisterSchemaOk(username: string, password: string, email: string, emailWellFormed: bool)
  {
    UsernameOk(username) && PasswordOk(password) && EmailOk(email, emailWellFormed)
  }

  predicate LoginSchemaOk(username: Option<string>, password: string, email: Option<string>, emailWellFormed: bool)
  {
    && (username.Some? ==> UsernameOk(username.value))
    && PasswordOk(password)
    && (email.Some? ==> EmailOk(email.value, emailWellFormed))
  }

  predicate UpdateSchemaOk(username: Option<string>, currentPassword: Option<string>,
                           newPassword: Option<string>, email: Option<string>, emailWellFormed: bool)
  {
    && (username.Some? ==> UsernameOk(username.value))
    && (currentPassword.Some? ==> PasswordOk(currentPassword.value))
    && (newPassword.Some? ==> PasswordOk(newPassword.value))
    && (email.Some? ==> EmailOk(email.value, emailWellFormed))
  }

  /** A schema-valid optional field is supplied exactly when it is truthy. */
  lemma SchemaFieldsAreTruthy(username: Option<string>, currentPassword: Option<string>,
                              newPassword: Option<string>, email: Option<string>, emailWellFormed: bool)
    requires UpdateSchemaOk(username, currentPassword, newPassword, email, emailWellFormed)
    ensures Given(username) <==> username.Some?
    ensures Given(currentPassword) <==> currentPassword.Some?
    ensures Given(newPassword) <==> newPassword.Some?
    ensures Given(email) <==> email.Some?
  {
  }

  // ---------------------------------------------------------------------------
  // Pure checks of updateUser.

  /** `!username && !currentPassword && !newPassword && !email` fails. */
  predicate AnyField(username: Option<string>, currentPassword: Option<string>,
                     newPassword: Option<string>, email: Option<string>)
  {
    Given(username) || Given(currentPassword) || Given(newPassword) || Given(email)
  }

  /** The two password fields travel together: the error for one without the
      other, in the order the controller tests them. */
  function PairingError(currentPassword: Option<string>, newPassword: Option<string>): (e: Option<string>)
    ensures e.None? <==> (Given(currentPassword) <==> Given(newPassword))
    ensures e == Some("Please provide new password") <==> Given(currentPassword) && !Given(newPassword)
    ensures e == Some("Please provide current password") <==> Given(newPassword) && !Given(currentPassword)
  {
    if Given(currentPassword) && !Given(newPassword) then Some("Please provide new password")
    else if Given(newPassword) && !Given(currentPassword) then Some("Please provide current password")
    else None
  }

  // ---------------------------------------------------------------------------
  // Queries over the users collection.

  /** The filter `{ $or: [{ username }, { email }] }`. A field that was not
      supplied is sent as null and matches no user, since every user has
      both. */
  predicate Hit(user: User, username: Option<string>, email: Option<string>)
  {
    (username.Some? && user.username == username.value) || (email.Some? && user.email == email.value)
  }

  /** Some user matches the filter. */
  predicate Taken(users: map<UserId, User>, username: Option<string>, email: Option<string>)
  {
    exists id :: id in users && Hit(users[id], username, email)
  }

  /** Some user other than `self` matches the filter. */
  predicate TakenByOther(users: map<UserId, User>, self: UserId, username: Option<string>, email: Option<string>)
  {
    exists id :: id in users && id != self && Hit(users[id], username, email)
  }

  /** `User.findOne(filter)`: none exactly when nothing matches, otherwise
      some matching user (which one is the database's choice). */
  method FindOne(users: map<UserId, User>, username: Option<string>, email: Option<string>)
    returns (found: Option<UserId>)
    ensures found.None? <==> !Taken(users, username, email)
    ensures found.Some? ==> found.value in users && Hit(users[found.value], username, email)
  {
    if Taken(users, username, email) {
      var id :| id in users && Hit(users[id], username, email);
      found := Some(id);
    } else {
      found := None;
    }
  }

  // ---------------------------------------------------------------------------
  // Invariants of the three collections that every operation keeps.

  /** The unique indexes on username and email. */
  predicate UniqueCredentials(users: map<UserId, User>)
  {
    forall a, b :: a in users && b in users && a != b ==>
      users[a].username != users[b].username && users[a].email != users[b].email
  }

  /** Every user owns exactly the one bank created at registration. */
  predicate BanksLinked(users: map<UserId, User>, banks: map<BankId, Account>)
  {
    && (forall u :: u in users ==>
          |users[u].bankIds| == 1 && users[u].bankIds[0] in banks && banks[users[u].bankIds[0]].owner == u)
    && (forall b :: b in banks ==> banks[b].owner in users && users[banks[b].owner].bankIds == [b])
  }

  /** Every token belongs to an existing user. */
  predicate TokensOwned(users: map<UserId, User>, tokens: map<string, TokenRecord>)
  {
    forall t :: t in tokens ==> tokens[t].user in users
  }

  /** Replacing one user's document keeps the invariants when the banks stay
      the same and the new username and e-mail are nobody else's. */
  lemma ReplaceUserKeepsInvariants(users: map<UserId, User>, banks: map<BankId, Account>,
                                   tokens: map<string, TokenRecord>, id: UserId, user: User)
    requires UniqueCredentials(users) && BanksLinked(users, banks) && TokensOwned(users, tokens)
    requires id in users && user.bankIds == users[id].bankIds
    requires forall v :: v in users && v != id ==> users[v].username != user.username && users[v].email != user.email
    ensures UniqueCredentials(users[id := user])
    ensures BanksLinked(users[id := user], banks)
    ensures TokensOwned(users[id := user], tokens)
  {
  }

  /** A user whose username and e-mail nobody has keeps the credentials
      unique. */
  lemma AddUserKeepsUnique(users: map<UserId, User>, id: UserId, user: User)
    requires UniqueCredentials(users) && id !in users
    requires !Taken(users, Some(user.username), Some(user.email))
    ensures UniqueCredentials(users[id := user])
  {
    var after := users[id := user];
    forall a, b | a in after && b in after && a != b
      ensures after[a].username != after[b].username && after[a].email != after[b].email
    {
      if a == id {
        assert !Hit(users[b], Some(user.username), Some(user.email));
      } else if b == id {
        assert !Hit(users[a], Some(user.username), Some(user.email));
      }
    }
  }

  /** A fresh user with a fresh bank of its own keeps users and banks linked. */
  lemma AddUserKeepsLinks(users: map<UserId, User>, banks: map<BankId, Account>,
                          id: UserId, user: User, bank: BankId, balance: int)
    requires BanksLinked(users, banks)
    requires id !in users && bank !in banks && user.bankIds == [bank]
    ensures BanksLinked(users[id := user], banks[bank := Account(id, balance)])
  {
  }

  /** The tokens left by `Token.deleteMany({ user })`. */
  function TokensNotOwnedBy(tokens: map<string, TokenRecord>, user: UserId): (r: map<string, TokenRecord>)
    ensures forall t :: t in r <==> t in tokens && tokens[t].user != user
    ensures forall t :: t in r ==> r[t] == tokens[t]
  {
    map t | t in tokens && tokens[t].user != user :: tokens[t]
  }

  /** Deleting a user together with every token they own keeps every
      remaining token owned by a remaining user. */
  lemma DeleteKeepsTokensOwned(users: map<UserId, User>, tokens: map<string, TokenRecord>, id: UserId)
    requires TokensOwned(users, tokens)
    ensures TokensOwned(users - {id}, TokensNotOwnedBy(tokens, id))
    ensures forall t :: t in tokens && t !in TokensNotOwnedBy(tokens, id) ==> tokens[t].user == id
  {
    var left := TokensNotOwnedBy(tokens, id);
    forall t | t in left
      ensures left[t].user in users - {id}
    {
      assert left[t] == tokens[t];
    }
  }

  /** `$unset: { tokens: "" }` on one user, when that user exists. */
  function WithoutTokenList(users: map<UserId, User>, id: UserId): (r: map<UserId, User>)
    ensures r.Keys == users.Keys
    ensures forall u :: u in users && u != id ==> r[u] == users[u]
    ensures id in users ==>
              && r[id].tokens == []
              && r[id].username == users[id].username && r[id].email == users[id].email
              && r[id].passwordHash == users[id].passwordHash && r[id].bankIds == users[id].bankIds
  {
    if id in users then users[id := users[id].(tokens := [])] else users
  }

  /** Clearing a user's token list keeps the three invariants: the token
      documents themselves keep their owner. */
  lemma WithoutTokenListKeepsInvariants(users: map<UserId, User>, banks: map<BankId, Account>,
                                        tokens: map<string, TokenRecord>, id: UserId)
    requires UniqueCredentials(users) && BanksLinked(users, banks) && TokensOwned(users, tokens)
    ensures UniqueCredentials(WithoutTokenList(users, id))
    ensures BanksLinked(WithoutTokenList(users, id), banks)
    ensures TokensOwned(WithoutTokenList(users, id), tokens)
  {
    if id in users {
      ReplaceUserKeepsInvariants(users, banks, tokens, id, users[id].(tokens := []));
    }
  }

  /** Everything updateUser checks before it writes, apart from clashes with
      other users: a caller whose record exists, a body the schema accepts
      with at least one field, both password fields or neither, and the
      current password when a new one is given. */
  predicate UpdateAllowed(users: map<UserId, User>, matches: (string, string) -> bool, caller: Option<UserId>,
                          username: Option<string>, currentPassword: Option<string>,
                          newPassword: Option<string>, email: Option<string>, emailWellFormed: bool)
  {
    && caller.Some?
    && UpdateSchemaOk(username, currentPassword, newPassword, email, emailWellFormed)
    && AnyField(username, currentPassword, newPassword, email)
    && PairingError(currentPassword, newPassword).None?
    && caller.value in users
    && (Given(newPassword) ==> matches(currentPassword.value, users[caller.value].passwordHash))
  }

  /** The fields `updateUser` collected to write. */
  datatype Updates = Updates(username: Option<string>, passwordHash: Option<string>, email: Option<string>)

  /** The stored document after `findByIdAndUpdate(id, updates)`: each field
      that `updates` carries is replaced and every other field is kept. */
  function Apply(user: User, updates: Updates): User
  {
    user.(username := if updates.username.Some? then updates.username.value else user.username,
          passwordHash := if updates.passwordHash.Some? then updates.passwordHash.value else user.passwordHash,
          email := if updates.email.Some? then updates.email.value else user.email)
  }

  /** The `updates` object updateUser builds: the new password's hash when
      both password fields are truthy, and the username and e-mail when
      truthy. */
  function Collect(username: Option<string>, currentPassword: Option<string>, newPassword: Option<string>,
                   email: Option<string>, newHash: string): Updates
  {
    Updates(if Given(username) then username else None,
            if Given(newPassword) && Given(currentPassword) then Some(newHash) else None,
            if Given(email) then email else None)
  }

  /** Once the password fields are paired, the updates carry exactly the
      truthy fields, and the written document is the user with exactly those
      fields replaced (the password by its new hash). */
  lemma CollectReplacesGivenFields(user: User, username: Option<string>, currentPassword: Option<string>,
                                   newPassword: Option<string>, email: Option<string>, newHash: string)
    requires PairingError(currentPassword, newPassword).None?
    ensures var u := Collect(username, currentPassword, newPassword, email, newHash);
      && (u.username.Some? <==> Given(username))
      && (u.email.Some? <==> Given(email))
      && (u.passwordHash.Some? <==> Given(newPassword))
      && Apply(user, u) == User(if Given(username) then username.value else user.username,
                                if Given(email) then email.value else user.email,
                                if Given(newPassword) then newHash else user.passwordHash,
                                user.bankIds, user.tokens)
  {
  }

  /** The bank collection seen as the transfer engine sees it: each user's
      balance, found through the owner field of their bank. */
  function BalancesByOwner(users: map<UserId, User>, banks: map<BankId, Account>): (r: map<UserId, int>)
    requires BanksLinked(users, banks)
    ensures r.Keys == users.Keys
    ensures forall b :: b in banks ==> banks[b].owner in r && r[banks[b].owner] == banks[b].balance
  {
    var r := map u | u in users :: banks[users[u].bankIds[0]].balance;
    assert forall b :: b in banks ==> users[banks[b].owner].bankIds[0] == b;
    r
  }

  /** A transfer between the balances of linked users, written back to the
      banks the users own, is what the transfer engine computes. */
  lemma TransferOnLinkedBanks(users: map<UserId, User>, banks: map<BankId, Account>,
                             caller: UserId, to: UserId, amount: int)
    requires BanksLinked(users, banks)
    requires caller in users && to in users && amount <= banks[users[caller].bankIds[0]].balance
    ensures var o := Bank.Transfer(BalancesByOwner(users, banks), Some(caller), to, amount);
      && o.result == Bank.Done(Bank.Receipt(caller, to, amount))
      && (caller != to ==>
            && o.accounts[caller] == banks[users[caller].bankIds[0]].balance - amount
            && o.accounts[to] == banks[users[to].bankIds[0]].balance + amount)
  {
  }

  /** Payload of a successful registration. */
  datatype Registered = Registered(id: UserId, username: string, email: string, bankId: BankId, balance: int)

  /** Payload of a successful login. */
  datatype Session = Session(id: UserId, username: string, email: string, token: string,
                             bankIds: seq<BankId>, balance: int)

  /** A user document without its password, as returned by deletion and update. */
  datatype Profile = Profile(id: UserId, username: string, email: string)

  /** Smallest and largest opening balance, in cents: 1.00 and 1001.00. */
  const MinOpening: int := 100
  const MaxOpening: int := 100_100

  class Store {
    var users: map<UserId, User>
    var banks: map<BankId, Account>
    var tokens: map<string, TokenRecord>
    /** bcrypt.compare(password, hash). */
    const matches: (string, string) -> bool

    ghost predicate Valid()
      reads this
    {
      UniqueCredentials(users) && BanksLinked(users, banks) && TokensOwned(users, tokens)
    }

    constructor (matches: (string, string) -> bool)
      ensures Valid() && this.matches == matches
      ensures users == map[] && banks == map[] && tokens == map[]
    {
      this.matches := matches;
      users, banks, tokens := map[], map[], map[];
    }

    /** registerUser. `hashed` is bcrypt's hash of the password, `draw` the
        random part of the opening balance, `Math.random() * 1000` rounded to
        cents. */
    method RegisterUser(username: string, password: string, email: string, emailWellFormed: bool,
                        newUser: UserId, newBank: BankId, hashed: string, draw: int)
      returns (reply: Reply<Registered>)
      requires Valid()
      requires newUser !in users && newBank !in banks
      requires matches(password, hashed)
      requires 0 <= draw <= 100_000
      modifies this
      ensures Valid()
      ensures !RegisterSchemaOk(username, password, email, emailWellFormed) ==>
                reply == Fail(400, "Please provide correct Schema")
      ensures RegisterSchemaOk(username, password, email, emailWellFormed) &&
              Taken(old(users), Some(username), Some(email)) ==>
                reply == Fail(400, "User already exists")
      ensures reply.Succeeded() <==>
                RegisterSchemaOk(username, password, email, emailWellFormed) &&
                !Taken(old(users), Some(username), Some(email))
      ensures !reply.Succeeded() ==> unchanged(this)
      ensures reply.Succeeded() ==>
                && users == old(users)[newUser := User(username, email, hashed, [newBank], [])]
                && banks == old(banks)[newBank := Account(newUser, MinOpening + draw)]
                && tokens == old(tokens)
                && MinOpening <= banks[newBank].balance <= MaxOpening
                && reply == Ok(201, "User registered Successfully",
                               Registered(newUser, username, email, newBank, MinOpening + draw))
    {
      if !RegisterSchemaOk(username, password, email, emailWellFormed) {
        return Fail(400, "Please provide correct Schema");
      }
      var existing := FindOne(users, Some(username), Some(email));
      if existing.Some? {
        return Fail(400, "User already exists");
      }
      var balance := MinOpening + draw;
      CreateWithBank(newUser, User(username, email, hashed, [], []), newBank, balance);
      reply := Ok(201, "User registered Successfully", Registered(newUser, username, email, newBank, balance));
    }

    /** `User.create`, `Bank.create` and the `$push` of the bank's id on the
        new user's bank list. */
    method CreateWithBank(id: UserId, user: User, bank: BankId, balance: int)
      requires Valid() && id !in users && bank !in banks && user.bankIds == []
      requires !Taken(users, Some(user.username), Some(user.email))
      modifies this
      ensures Valid()
      ensures users == old(users)[id := user.(bankIds := [bank])]
      ensures banks == old(banks)[bank := Account(id, balance)] && tokens == old(tokens)
    {
      ghost var before := users;
      var pushed := user.(bankIds := user.bankIds + [bank]);
      assert pushed == user.(bankIds := [bank]);
      AddUserKeepsUnique(users, id, pushed);
      AddUserKeepsLinks(users, banks, id, pushed, bank, balance);
      users := users[id := user];
      banks := banks[bank := Account(id, balance)];
      users := users[id := users[id].(bankIds := users[id].bankIds + [bank])];
      assert users == before[id := pushed];
    }

    /** The checks of loginUser, in their order: the reply that ends the
        request early, or the user whose password was verified. */
    method CheckLogin(username: Option<string>, password: string, email: Option<string>, emailWellFormed: bool)
      returns (refusal: Option<Reply<Session>>, id: UserId)
      ensures refusal.Some? ==> !refusal.value.Succeeded()
      ensures !LoginSchemaOk(username, password, email, emailWellFormed) ==>
                refusal == Some(Fail(400, "Please provide correct schema"))
      ensures LoginSchemaOk(username, password, email, emailWellFormed) && !Given(username) && !Given(email) ==>
                refusal == Some(Fail(400, "Please provide username or email"))
      ensures LoginSchemaOk(username, password, email, emailWellFormed) && (Given(username) || Given(email)) &&
              !Taken(users, username, email) ==>
                refusal == Some(Fail(400, "User does not exist"))
      ensures LoginSchemaOk(username, password, email, emailWellFormed) && (Given(username) || Given(email)) &&
              Taken(users, username, email) ==>
                refusal.None? || refusal == Some(Fail(400, "Invalid credentials"))
      ensures refusal == Some(Fail(400, "Invalid credentials")) ==>
                id in users && Hit(users[id], username, email) && !matches(password, users[id].passwordHash)
      ensures refusal.None? ==>
                && LoginSchemaOk(username, password, email, emailWellFormed)
                && id in users && Hit(users[id], username, email) && matches(password, users[id].passwordHash)
      ensures LoginSchemaOk(username, password, email, emailWellFormed) && Taken(users, username, email) &&
              (forall v :: v in users && Hit(users[v], username, email) ==> matches(password, users[v].passwordHash)) ==>
                refusal.None?
    {
      id := 0;
      if !LoginSchemaOk(username, password, email, emailWellFormed) {
        return Some(Fail(400, "Please provide correct schema")), id;
      }
      if !Given(username) && !Given(email) {
        return Some(Fail(400, "Please provide username or email")), id;
      }
      var found := FindOne(users, username, email);
      if found.None? {
        return Some(Fail(400, "User does not exist")), id;
      }
      id := found.value;
      if !matches(password, users[id].passwordHash) {
        return Some(Fail(400, "Invalid credentials")), id;
      }
      refusal := None;
    }

    /** loginUser. `token` is the fresh random token generateToken draws and
        `now` the current instant; the token expires one day later. */
    method LoginUser(username: Option<string>, password: string, email: Option<string>,
                     emailWellFormed: bool, token: string, now: int)
      returns (reply: Reply<Session>)
      requires Valid()
      requires token !in tokens
      modifies this
      ensures Valid()
      ensures !reply.Succeeded() ==> unchanged(this)
      ensures !LoginSchemaOk(username, password, email, emailWellFormed) ==>
                reply == Fail(400, "Please provide correct schema")
      ensures LoginSchemaOk(username, password, email, emailWellFormed) && !Given(username) && !Given(email) ==>
                reply == Fail(400, "Please provide username or email")
      ensures LoginSchemaOk(username, password, email, emailWellFormed) && (Given(username) || Given(email)) &&
              !Taken(old(users), username, email) ==>
                reply == Fail(400, "User does not exist")
      ensures LoginSchemaOk(username, password, email, emailWellFormed) && (Given(username) || Given(email)) &&
              Taken(old(users), username, email) ==>
                reply.Succeeded() || reply == Fail(400, "Invalid credentials")
      ensures LoginSchemaOk(username, password, email, emailWellFormed) && Taken(old(users), username, email) &&
              (forall v :: v in old(users) && Hit(old(users)[v], username, email) ==>
                             matches(password, old(users)[v].passwordHash)) ==>
                reply.Succeeded()
      ensures reply.Succeeded() ==>
                && reply.Json? && reply.code == 200 && reply.body.data.Some?
                && var s := reply.body.data.value;
                && s.id in old(users) && Hit(old(users)[s.id], username, email)
                && matches(password, old(users)[s.id].passwordHash)
                && s.token == token
                && tokens == old(tokens)[token := TokenRecord(s.id, now + DayMs)]
                && users == old(users)[s.id := old(users)[s.id].(tokens := old(users)[s.id].tokens + [token])]
                && banks == old(banks)
                && s.bankIds == old(users)[s.id].bankIds
                && s.balance == old(banks)[s.bankIds[0]].balance
    {
      var refusal, id := CheckLogin(username, password, email, emailWellFormed);
      if refusal.Some? {
        return refusal.value;
      }
      var user := users[id];
      // Bank.findById(user.bankId) with the id array matches any of the user's
      // banks; the invariant gives each user exactly one, so the "Bank not
      // found" reply cannot occur.
      var bankId :| bankId in user.bankIds && bankId in banks;
      var balance := banks[bankId].balance;
      GenerateToken(id, token, now);
      reply := Ok(200, "Logged in Successfully", Session(id, user.username, user.email, token, user.bankIds, balance));
    }

    /** generateToken: a token document for `id` expiring one day after
        `now`, and its id pushed on the user's token list. */
    method GenerateToken(id: UserId, token: string, now: int)
      requires Valid() && id in users && token !in tokens
      modifies this
      ensures Valid()
      ensures tokens == old(tokens)[token := TokenRecord(id, now + DayMs)]
      ensures users == old(users)[id := old(users)[id].(tokens := old(users)[id].tokens + [token])]
      ensures banks == old(banks)
    {
      var user := users[id];
      ReplaceUserKeepsInvariants(users, banks, tokens, id, user.(tokens := user.tokens + [token]));
      tokens := tokens[token := TokenRecord(id, now + DayMs)];
      users := users[id := user.(tokens := user.tokens + [token])];
    }

    /** `User.findByIdAndUpdate(id, updates)` for an update that keeps the
        user's banks and clashes with no other user's username or e-mail. */
    method ReplaceUser(id: UserId, user: User)
      requires Valid() && id in users && user.bankIds == users[id].bankIds
      requires forall v :: v in users && v != id ==> users[v].username != user.username && users[v].email != user.email
      modifies this
      ensures Valid()
      ensures users == old(users)[id := user] && banks == old(banks) && tokens == old(tokens)
    {
      ReplaceUserKeepsInvariants(users, banks, tokens, id, user);
      users := users[id := user];
    }

    /** logoutUser, for the request's Authorization header and the caller the
        gate bound (`req.user`). */
    method LogoutUser(authorization: Option<string>, caller: Option<UserId>) returns (reply: Reply<()>)
      requires Valid()
      modifies this
      ensures Valid()
      ensures var t := Auth.ExtractToken(authorization);
        && (!Given(t) ==> reply == Fail(401, "Unauthorized") && unchanged(this))
        && (Given(t) && t.value !in old(tokens) ==>
              reply == Fail(404, "Token is invalid or expired") && unchanged(this))
        && (Given(t) && t.value in old(tokens) ==>
              && tokens == old(tokens) - {t.value}
              && banks == old(banks)
              && (caller.None? ==> reply == Fail(500, "Internal server error") && users == old(users))
              && (caller.Some? ==>
                    reply == Acknowledge(200, "User logged out successfully") &&
                    users == WithoutTokenList(old(users), caller.value)))
    {
      var token := Auth.ExtractToken(authorization);
      if !Given(token) {
        return Fail(401, "Unauthorized");
      }
      if token.value !in tokens {
        return Fail(404, "Token is invalid or expired");
      }
      tokens := tokens - {token.value};
      if caller.None? {
        // `req.user._id` throws; the handler's own catch answers 500.
        return Fail(500, "Internal server error");
      }
      WithoutTokenListKeepsInvariants(users, banks, tokens, caller.value);
      users := WithoutTokenList(users, caller.value);
      reply := Acknowledge(200, "User logged out successfully");
    }

    /** deleteUser: the user's first bank, the user, and every token the user
        owns go. */
    method DeleteUser(caller: Option<UserId>) returns (reply: Reply<Profile>)
      requires Valid()
      modifies this
      ensures Valid()
      ensures caller.None? ==> reply == Uncaught && unchanged(this)
      ensures caller.Some? && caller.value !in old(users) ==>
                reply == Fail(404, "User not found") && unchanged(this)
      ensures caller.Some? && caller.value in old(users) ==>
                var id := caller.value;
                var user := old(users)[id];
                && users == old(users) - {id}
                && banks == old(banks) - {user.bankIds[0]}
                && tokens == TokensNotOwnedBy(old(tokens), id)
                && (forall b :: b in banks ==> banks[b].owner != id)
                && (forall t :: t in tokens ==> tokens[t].user != id)
                && reply == Ok(200, "User deleted successfully", Profile(id, user.username, user.email))
    {
      if caller.None? {
        // `req.user._id` on a missing user throws out of the handler.
        return Uncaught;
      }
      var id := caller.value;
      if id !in users {
        return Fail(404, "User not found");
      }
      var user := users[id];
      banks := banks - {user.bankIds[0]};
      users := users - {id};
      tokens := TokensNotOwnedBy(tokens, id);
      reply := Ok(200, "User deleted successfully", Profile(id, user.username, user.email));
    }

    /** The first three checks of updateUser, which read only the request: a
        caller, a body the schema accepts, at least one field. */
    method CheckUpdateForm(caller: Option<UserId>, username: Option<string>, currentPassword: Option<string>,
                           newPassword: Option<string>, email: Option<string>, emailWellFormed: bool)
      returns (refusal: Option<Reply<Profile>>)
      ensures refusal.None? <==>
                && caller.Some?
                && UpdateSchemaOk(username, currentPassword, newPassword, email, emailWellFormed)
                && AnyField(username, currentPassword, newPassword, email)
      ensures refusal.Some? ==> !refusal.value.Succeeded()
      ensures caller.None? ==> refusal == Some(Fail(403, "Please login to update"))
      ensures caller.Some? && !UpdateSchemaOk(username, currentPassword, newPassword, email, emailWellFormed) ==>
                refusal == Some(Fail(400, "Please provide correct schema"))
      ensures caller.Some? && UpdateSchemaOk(username, currentPassword, newPassword, email, emailWellFormed) &&
              !AnyField(username, currentPassword, newPassword, email) ==>
                refusal == Some(Fail(400, "Please provide at least one field to update"))
    {
      if caller.None? {
        return Some(Fail(403, "Please login to update"));
      }
      if !UpdateSchemaOk(username, currentPassword, newPassword, email, emailWellFormed) {
        return Some(Fail(400, "Please provide correct schema"));
      }
      if !AnyField(username, currentPassword, newPassword, email) {
        return Some(Fail(400, "Please provide at least one field to update"));
      }
      refusal := None;
    }

    /** The checks of updateUser up to the password comparison, in their
        order: the reply that ends the request early, if any. */
    method CheckUpdate(caller: Option<UserId>, username: Option<string>, currentPassword: Option<string>,
                       newPassword: Option<string>, email: Option<string>, emailWellFormed: bool)
      returns (refusal: Option<Reply<Profile>>)
      ensures refusal.Some? ==> !refusal.value.Succeeded()
      ensures caller.None? ==> refusal == Some(Fail(403, "Please login to update"))
      ensures caller.Some? && !UpdateSchemaOk(username, currentPassword, newPassword, email, emailWellFormed) ==>
                refusal == Some(Fail(400, "Please provide correct schema"))
      ensures caller.Some? && UpdateSchemaOk(username, currentPassword, newPassword, email, emailWellFormed) &&
              !AnyField(username, currentPassword, newPassword, email) ==>
                refusal == Some(Fail(400, "Please provide at least one field to update"))
      ensures refusal == Some(Fail(400, "User already exists")) ==>
                caller.Some? && TakenByOther(users, caller.value, username, email)
      ensures caller.Some? && UpdateSchemaOk(username, currentPassword, newPassword, email, emailWellFormed) &&
              AnyField(username, currentPassword, newPassword, email) &&
              !TakenByOther(users, caller.value, username, email) ==>
                && (PairingError(currentPassword, newPassword).Some? ==>
                      refusal == Some(Fail(400, PairingError(currentPassword, newPassword).value)))
                && (PairingError(currentPassword, newPassword).None? && caller.value !in users ==>
                      refusal == Some(Fail(404, "User not found")))
                && (PairingError(currentPassword, newPassword).None? && caller.value in users &&
                    Given(newPassword) && !matches(currentPassword.value, users[caller.value].passwordHash) ==>
                      refusal == Some(Fail(400, "Invalid credentials")))
      ensures refusal.None? ==>
                UpdateAllowed(users, matches, caller, username, currentPassword, newPassword, email, emailWellFormed)
      ensures UpdateAllowed(users, matches, caller, username, currentPassword, newPassword, email, emailWellFormed) &&
              !TakenByOther(users, caller.value, username, email) ==>
                refusal.None?
    {
      refusal := CheckUpdateForm(caller, username, currentPassword, newPassword, email, emailWellFormed);
      if refusal.Some? {
        return;
      }
      SchemaFieldsAreTruthy(username, currentPassword, newPassword, email, emailWellFormed);
      var existing := FindOne(users, username, email);
      if existing.Some? && existing.value != caller.value {
        return Some(Fail(400, "User already exists"));
      }
      var id := caller.value;
      var pairing := PairingError(currentPassword, newPassword);
      if pairing.Some? {
        return Some(Fail(400, pairing.value));
      }
      if id !in users {
        return Some(Fail(404, "User not found"));
      }
      if Given(newPassword) && Given(currentPassword) && !matches(currentPassword.value, users[id].passwordHash) {
        return Some(Fail(400, "Invalid credentials"));
      }
      refusal := None;
    }

    /** updateUser. `newHash` is bcrypt's hash of the new password. */
    method UpdateUser(caller: Option<UserId>, username: Option<string>, currentPassword: Option<string>,
                      newPassword: Option<string>, email: Option<string>, emailWellFormed: bool,
                      newHash: string)
      returns (reply: Reply<Profile>)
      requires Valid()
      requires newPassword.Some? ==> matches(newPassword.value, newHash)
      modifies this
      ensures Valid()
      ensures !reply.Succeeded() ==> unchanged(this)
      ensures caller.None? ==> reply == Fail(403, "Please login to update")
      ensures caller.Some? && !UpdateSchemaOk(username, currentPassword, newPassword, email, emailWellFormed) ==>
                reply == Fail(400, "Please provide correct schema")
      ensures caller.Some? && UpdateSchemaOk(username, currentPassword, newPassword, email, emailWellFormed) &&
              !AnyField(username, currentPassword, newPassword, email) ==>
                reply == Fail(400, "Please provide at least one field to update")
      ensures reply == Uncaught ==> caller.Some? && TakenByOther(old(users), caller.value, username, email)
      ensures reply.Succeeded() <==>
                && UpdateAllowed(old(users), matches, caller, username, currentPassword, newPassword, email, emailWellFormed)
                && !TakenByOther(old(users), caller.value, username, email)
      ensures reply.Succeeded() ==>
                var id := caller.value;
                var user := old(users)[id];
                && users == old(users)[id := User(if Given(username) then username.value else user.username,
                                                  if Given(email) then email.value else user.email,
                                                  if Given(newPassword) then newHash else user.passwordHash,
                                                  user.bankIds, user.tokens)]
                && banks == old(banks) && tokens == old(tokens)
                && reply == Ok(200, "User updated successfully", Profile(id, users[id].username, users[id].email))
    {
      var refusal := CheckUpdate(caller, username, currentPassword, newPassword, email, emailWellFormed);
      if refusal.Some? {
        return refusal.value;
      }
      var id := caller.value;
      var user := users[id];
      SchemaFieldsAreTruthy(username, currentPassword, newPassword, email, emailWellFormed);
      var updates := Collect(username, currentPassword, newPassword, email, newHash);
      CollectReplacesGivenFields(user, username, currentPassword, newPassword, email, newHash);
      // The unique indexes refuse a write that duplicates another user's
      // username or e-mail; the duplicate-key error escapes the handler.
      if TakenByOther(users, id, updates.username, updates.email) {
        return Uncaught;
      }
      ReplaceUser(id, Apply(user, updates));
      reply := Ok(200, "User updated successfully",
                  Profile(id, if updates.username.Some? then updates.username.value else user.username,
                              if updates.email.Some? then updates.email.value else user.email));
    }
  }

  /** Registering and then logging in with the same username and password
      succeeds and hands out the session token for the new user. */
  method RegisterThenLogin(matches: (string, string) -> bool, username: string, password: string,
                           email: string, hashed: string, draw: int, token: string, now: int)
    returns (registered: Reply<Registered>, login: Reply<Session>)
    requires RegisterSchemaOk(username, password, email, true)
    requires matches(password, hashed)
    requires 0 <= draw <= 100_000
    ensures registered.Succeeded() && login.Succeeded()
    ensures login.body.data.Some? && login.body.data.value.id == 0 && login.body.data.value.token == token
    ensures login.body.data.value.balance == MinOpening + draw
  {
    var store := new Store(matches);
    registered := store.RegisterUser(username, password, email, true, 0, 0, hashed, draw);
    login := store.LoginUser(Some(username), password, None, true, token, now);
  }
}
