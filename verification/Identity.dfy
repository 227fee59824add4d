/** Users, their bearer tokens and their public keys. */
module Identity {
  import opened Texts
  import opened Authz
  import opened Rfc3339
  import Validate

  const MAX_TOKEN_TTL := 365 * 24 * HOUR
  const SELECTOR_ATTEMPTS := 8
  const USER_PREFIX := "usr"
  const TOKEN_PREFIX := "tok"
  const KEY_PREFIX := "key"

  // Secrets ----------------------------------------------------------------------------------

  datatype Secret = Secret(selector: string, verifier: string)

  /** Both halves are non-empty texts over an alphabet without the underscore. */
  predicate Genuine(s: Secret) { s.selector != "" && s.verifier != "" && '_' !in s.selector && '_' !in s.verifier }

  function SecretText(s: Secret): string { Join(["mat", s.selector, s.verifier], '_') }

  function ParseSecret(text: string): Option<Secret> {
    var parts := Split(text, '_');
    if |parts| != 3 then None
    else if parts[0] != "mat" || parts[1] == "" || parts[2] == "" then None
    else Some(Secret(parts[1], parts[2]))
  }

  /** Parsing undoes printing, and accepts nothing but printed secrets. */
  lemma ParseSecretInverse(text: string, s: Secret)
    ensures ParseSecret(text) == Some(s) <==> Genuine(s) && text == SecretText(s)
  {
    var parts := ["mat", s.selector, s.verifier];
    if Genuine(s) && text == SecretText(s) {
      SplitOfJoin(parts, '_');
    }
    if ParseSecret(text) == Some(s) {
      JoinOfSplit(text, '_');
      var split := Split(text, '_');
      assert split[1] in split && split[2] in split;
      assert split == parts;
    }
  }

  // Tables -----------------------------------------------------------------------------------

  datatype User = User(name: string, role: string, disabled: bool)
  datatype Token = Token(userID: string, selector: string, verifierHash: string, expiresAt: Option<string>)
  datatype Key = Key(userID: string, name: string, fingerprint: string)

  /** The tables `users`, `tokens` and `user_keys`, by primary key. */
  datatype Table = Table(users: map<string, User>, tokens: map<string, Token>, keys: map<string, Key>)

  const EMPTY := Table(map[], map[], map[])

  type Hash = string -> string

  /** The statements that change the tables, each one atomic. */
  datatype Statement =
    | UserInserted(id: string, user: User)
    | UserDeleted(id: string)
    | TokenInserted(id: string, userID: string, secret: Secret, expires: Option<nat>)
    | TokenDeleted(id: string)
    | KeyInserted(id: string, key: Key)
    | KeyDeleted(id: string)

  predicate NameTaken(t: Table, name: string) { exists id <- t.users :: t.users[id].name == name }

  predicate SelectorTaken(t: Table, selector: string) { exists id <- t.tokens :: t.tokens[id].selector == selector }

  predicate FingerprintTaken(t: Table, fingerprint: string) {
    exists id <- t.keys :: t.keys[id].fingerprint == fingerprint
  }

  predicate KeyNameTaken(t: Table, userID: string, name: string) {
    exists id <- t.keys :: t.keys[id].userID == userID && t.keys[id].name == name
  }

  /** Primary keys, unique indexes and foreign keys; a deletion of nothing changes nothing. */
  predicate Accepts(t: Table, s: Statement) {
    match s
    case UserInserted(id, user) => id !in t.users && !NameTaken(t, user.name)
    case UserDeleted(id) => id in t.users
    case TokenInserted(id, userID, secret, _) =>
      id !in t.tokens && userID in t.users && !SelectorTaken(t, secret.selector)
    case TokenDeleted(id) => id in t.tokens
    case KeyInserted(id, key) =>
      (&& id !in t.keys && key.userID in t.users
       && !FingerprintTaken(t, key.fingerprint) && !KeyNameTaken(t, key.userID, key.name))
    case KeyDeleted(id) => id in t.keys
  }

  function TokenRow(userID: string, secret: Secret, expires: Option<nat>, hash: Hash): Token {
    Token(userID, secret.selector, hash(secret.verifier), if expires.Some? then Some(Format(expires.value)) else None)
  }

  /** What a statement makes of the tables. Deleting a user deletes its tokens and keys. */
  function Exec(t: Table, s: Statement, hash: Hash): Table {
    if !Accepts(t, s) then t
    else
      match s
      case UserInserted(id, user) => t.(users := t.users[id := user])
      case UserDeleted(id) =>
        Table(t.users - {id}, (map k <- t.tokens | t.tokens[k].userID != id :: t.tokens[k]),
              (map k <- t.keys | t.keys[k].userID != id :: t.keys[k]))
      case TokenInserted(id, userID, secret, expires) =>
        t.(tokens := t.tokens[id := TokenRow(userID, secret, expires, hash)])
      case TokenDeleted(id) => t.(tokens := t.tokens - {id})
      case KeyInserted(id, key) => t.(keys := t.keys[id := key])
      case KeyDeleted(id) => t.(keys := t.keys - {id})
  }

  ghost predicate UsersKept(t: Table) {
    forall i <- t.users, j <- t.users :: t.users[i].name == t.users[j].name ==> i == j
  }

  ghost predicate TokensKept(t: Table) {
    && (forall i <- t.tokens, j <- t.tokens :: t.tokens[i].selector == t.tokens[j].selector ==> i == j)
    && (forall i <- t.tokens :: t.tokens[i].userID in t.users)
  }

  ghost predicate KeysKept(t: Table) {
    && (forall i <- t.keys, j <- t.keys :: t.keys[i].fingerprint == t.keys[j].fingerprint ==> i == j)
    && (forall i <- t.keys, j <- t.keys ::
          t.keys[i].userID == t.keys[j].userID && t.keys[i].name == t.keys[j].name ==> i == j)
    && (forall i <- t.keys :: t.keys[i].userID in t.users)
  }

  /** Names, selectors, fingerprints and each user's key names are unique, and every token and
      key has an owner. */
  ghost predicate Kept(t: Table) { UsersKept(t) && TokensKept(t) && KeysKept(t) }

  lemma ExecKeeps(t: Table, s: Statement, hash: Hash)
    requires Kept(t)
    ensures Kept(Exec(t, s, hash))
  {
    hide TokenRow;
    ExecKeepsUsers(t, s, hash);
    ExecKeepsTokens(t, s, hash);
    ExecKeepsKeys(t, s, hash);
  }

  lemma ExecKeepsUsers(t: Table, s: Statement, hash: Hash)
    requires UsersKept(t)
    ensures UsersKept(Exec(t, s, hash))
  {
  }

  lemma ExecKeepsTokens(t: Table, s: Statement, hash: Hash)
    requires TokensKept(t)
    ensures TokensKept(Exec(t, s, hash))
  {
    hide Format;
    match s
    case TokenInserted(id, userID, secret, expires) =>
      assert TokenRow(userID, secret, expires, hash).selector == secret.selector;
    case _ =>
  }

  lemma ExecKeepsKeys(t: Table, s: Statement, hash: Hash)
    requires KeysKept(t)
    ensures KeysKept(Exec(t, s, hash))
  {
  }

  // Runs --------------------------------------------------------------------------------------

  /** The operations of the service read before they write, and other operations may come in
      between, so a run is any sequence of statements. */
  function After(run: seq<Statement>, hash: Hash): Table {
    if run == [] then EMPTY else Exec(After(run[..|run| - 1], hash), run[|run| - 1], hash)
  }

  lemma {:induction false} RunKeeps(run: seq<Statement>, hash: Hash)
    ensures Kept(After(run, hash))
  {
    hide Exec;
    if run == [] {
    } else {
      RunKeeps(run[..|run| - 1], hash);
      hide Kept;
      ExecKeeps(After(run[..|run| - 1], hash), run[|run| - 1], hash);
    }
  }

  /** Statement i issued this token, and nothing after it revoked the token or deleted the
      user it was issued to. */
  ghost predicate Stands(run: seq<Statement>, hash: Hash, i: nat, id: string) {
    && i < |run| && run[i].TokenInserted? && run[i].id == id && Accepts(After(run[..i], hash), run[i])
    && forall j :: i < j < |run| ==> run[j] != TokenDeleted(id) && run[j] != UserDeleted(run[i].userID)
  }

  lemma StandsOneMore(run: seq<Statement>, hash: Hash, i: nat, id: string)
    requires run != []
    ensures var most, s := run[..|run| - 1], run[|run| - 1];
      Stands(run, hash, i, id) <==>
        if i == |most| then s.TokenInserted? && s.id == id && Accepts(After(most, hash), s)
        else Stands(most, hash, i, id) && s != TokenDeleted(id) && s != UserDeleted(most[i].userID)
  {
    hide Accepts, After;
    var most := run[..|run| - 1];
    if i < |most| { assert most[..i] == run[..i]; }
    if i < |most| && Stands(run, hash, i, id) {
      assert run[|most|] != TokenDeleted(id);
      forall j | i < j < |most| ensures most[j] != TokenDeleted(id) && most[j] != UserDeleted(most[i].userID) {
        assert most[j] == run[j];
      }
    }
  }

  lemma RowOneMore(t: Table, s: Statement, hash: Hash, id: string)
    requires Kept(t)
    ensures var u := Exec(t, s, hash);
      && (id in u.tokens <==>
          || (id in t.tokens && s != TokenDeleted(id) && s != UserDeleted(t.tokens[id].userID))
          || (s.TokenInserted? && s.id == id && Accepts(t, s)))
      && (id in t.tokens && id in u.tokens ==> u.tokens[id] == t.tokens[id])
      && (s.TokenInserted? && s.id == id && Accepts(t, s) ==>
          id !in t.tokens && u.tokens[id] == TokenRow(s.userID, s.secret, s.expires, hash))
  {
    hide TokenRow;
  }

  ghost predicate RowStands(run: seq<Statement>, hash: Hash, i: nat, id: string) {
    && Stands(run, hash, i, id)
    && id in After(run, hash).tokens
    && After(run, hash).tokens[id] == TokenRow(run[i].userID, run[i].secret, run[i].expires, hash)
  }

  /** The token rows are exactly the tokens that were issued and still stand. */
  lemma {:induction false} RowsAreStanding(run: seq<Statement>, hash: Hash, id: string)
    ensures id in After(run, hash).tokens ==> exists i :: RowStands(run, hash, i, id)
    ensures forall i :: Stands(run, hash, i, id) ==> RowStands(run, hash, i, id)
  {
    if run != [] {
      var most, s := run[..|run| - 1], run[|run| - 1];
      var t := After(most, hash);
      RowsAreStanding(most, hash, id);
      RunKeeps(most, hash);
      RowOneMore(t, s, hash, id);
      assert After(run, hash) == Exec(t, s, hash);
      hide Accepts, Exec, TokenRow, Kept, After, Stands;
      forall i ensures Stands(run, hash, i, id) ==> RowStands(run, hash, i, id) {
        StandsOneMore(run, hash, i, id);
        assert Stands(most, hash, i, id) ==> RowStands(most, hash, i, id);
      }
      if id in After(run, hash).tokens {
        if id in t.tokens {
          var i :| RowStands(most, hash, i, id);
          StandsOneMore(run, hash, i, id);
          assert RowStands(run, hash, i, id);
        } else {
          StandsOneMore(run, hash, |most|, id);
          assert RowStands(run, hash, |most|, id);
        }
      }
    }
  }

  // Who a credential stands for -----------------------------------------------------------------

  datatype Auth = Known(identity: Identity) | Rejected | Broken

  /** SELECT ... WHERE t.selector = ?; the index makes the row unique. */
  ghost function TokenFor(t: Table, selector: string): Option<string> {
    if SelectorTaken(t, selector) then
      var id :| id in t.tokens && t.tokens[id].selector == selector;
      Some(id)
    else None
  }

  function IdentityOf(t: Table, userID: string, credentialID: string): Identity
    requires userID in t.users
  {
    Identity(userID, t.users[userID].name, t.users[userID].role, credentialID)
  }

  predicate HasOwner(t: Table, id: string) { id in t.tokens && t.tokens[id].userID in t.users }

  /** The joined row is scanned first, then the verifier, the expiry and the owner are checked. */
  function Judge(t: Table, id: string, verifier: string, now: Instant, hash: Hash): Auth
    requires HasOwner(t, id)
  {
    var row := t.tokens[id];
    var expires := if row.expiresAt.None? then Some(ZERO_TIME) else Parse(row.expiresAt.value);
    if expires.None? then Broken
    else if row.verifierHash != hash(verifier) then Rejected
    else if expires.value != ZERO_TIME && now >= expires.value then Rejected
    else if t.users[row.userID].disabled then Rejected
    else Known(IdentityOf(t, row.userID, id))
  }

  ghost function AuthOf(t: Table, text: string, now: Instant, hash: Hash): Auth
    requires Kept(t)
  {
    match ParseSecret(text)
    case None => Rejected
    case Some(secret) =>
      match TokenFor(t, secret.selector)
      case None => Rejected
      case Some(id) => Judge(t, id, secret.verifier, now, hash)
  }

  ghost predicate Injective(hash: Hash) { forall x, y :: hash(x) == hash(y) ==> x == y }

  /** What the service issues: genuine secrets, and expiries whose stored text has a year of
      four digits and is after the zero time. */
  ghost predicate GenuineRun(run: seq<Statement>) {
    && (forall s <- run :: s.TokenInserted? ==> Genuine(s.secret))
    && (forall s <- run :: s.TokenInserted? && s.expires.Some? ==>
          InRange(s.expires.value) && Floor(s.expires.value) != ZERO_TIME)
  }

  predicate Unexpired(expires: Option<nat>, now: Instant) { expires.None? || now < Floor(expires.value) }

  /** The user is enabled, and the identity carries its name and role. */
  predicate IsEnabledAs(user: User, who: Identity) { !user.disabled && who.name == user.name && who.role == user.role }

  /** Statement i issued this very secret; the token has been neither revoked nor cut off with
      its owner since, is not past its stored expiry, and its owner is there and enabled. */
  ghost predicate Vouches(run: seq<Statement>, hash: Hash, i: nat, text: string, now: Instant, who: Identity) {
    && Stands(run, hash, i, who.credentialID)
    && text == SecretText(run[i].secret) && Unexpired(run[i].expires, now)
    && who.userID == run[i].userID && who.userID in After(run, hash).users
    && IsEnabledAs(After(run, hash).users[who.userID], who)
  }

  lemma JudgeRow(t: Table, id: string, userID: string, secret: Secret, expires: Option<nat>, verifier: string,
                 now: Instant, hash: Hash)
    requires HasOwner(t, id) && t.tokens[id] == TokenRow(userID, secret, expires, hash) && Injective(hash)
    requires expires.Some? ==> InRange(expires.value) && Floor(expires.value) != ZERO_TIME
    ensures (Judge(t, id, verifier, now, hash) ==
      if verifier == secret.verifier && Unexpired(expires, now) && !t.users[userID].disabled
      then Known(IdentityOf(t, userID, id)) else Rejected)
  {
    hide Parse, Format, InRange;
    if expires.Some? { ParseOfFormat(expires.value); }
  }

  /** A secret authenticates as a user exactly if it was issued to that user and still counts. */
  lemma AuthenticatesExactly(run: seq<Statement>, hash: Hash, text: string, now: Instant, who: Identity)
    requires GenuineRun(run) && Injective(hash)
    ensures Kept(After(run, hash))
    ensures AuthOf(After(run, hash), text, now, hash) == Known(who) <==> exists i :: Vouches(run, hash, i, text, now, who)
    ensures AuthOf(After(run, hash), text, now, hash) != Broken
  {
    RunKeeps(run, hash);
    var t := After(run, hash);
    hide After, Exec, Judge, Accepts, ParseSecret, TokenRow, Unexpired, Injective;
    match ParseSecret(text) {
      case None =>
        forall i: nat | Vouches(run, hash, i, text, now, who) ensures false {
          assert run[i] in run;
          ParseSecretInverse(text, run[i].secret);
        }
      case Some(secret) =>
        ParseSecretInverse(text, secret);
        if TokenFor(t, secret.selector).Some? {
          FoundToken(run, hash, text, secret, TokenFor(t, secret.selector).value, now, who);
        } else {
          forall i: nat | Vouches(run, hash, i, text, now, who) ensures false {
            VouchedRow(run, hash, i, text, secret, now, who);
          }
        }
    }
  }

  lemma VouchedRow(run: seq<Statement>, hash: Hash, i: nat, text: string, secret: Secret, now: Instant, who: Identity)
    requires GenuineRun(run) && Vouches(run, hash, i, text, now, who) && ParseSecret(text) == Some(secret)
    ensures RowStands(run, hash, i, who.credentialID) && run[i].secret == secret
    ensures After(run, hash).tokens[who.credentialID].selector == secret.selector
  {
    hide After, Accepts, ParseSecret;
    RowsAreStanding(run, hash, who.credentialID);
    assert run[i] in run;
    ParseSecretInverse(text, run[i].secret);
  }

  lemma FoundToken(run: seq<Statement>, hash: Hash, text: string, secret: Secret, id: string,
                   now: Instant, who: Identity)
    requires GenuineRun(run) && Injective(hash) && Kept(After(run, hash)) && ParseSecret(text) == Some(secret)
    requires id in After(run, hash).tokens && After(run, hash).tokens[id].selector == secret.selector
    ensures Judge(After(run, hash), id, secret.verifier, now, hash) != Broken
    ensures (Judge(After(run, hash), id, secret.verifier, now, hash) == Known(who) <==>
      exists i :: Vouches(run, hash, i, text, now, who))
  {
    var t := After(run, hash);
    hide After, Exec, Judge, Accepts, ParseSecret, Injective;
    RowsAreStanding(run, hash, id);
    ParseSecretInverse(text, secret);
    var i: nat :| RowStands(run, hash, i, id);
    var s := run[i];
    assert s in run;
    JudgeRow(t, id, s.userID, s.secret, s.expires, secret.verifier, now, hash);
    hide InRange, Unexpired, Floor, Kept, GenuineRun;
    if Judge(t, id, secret.verifier, now, hash) == Known(who) {
      assert s.secret == secret;
      assert Vouches(run, hash, i, text, now, who);
    }
    forall j: nat | Vouches(run, hash, j, text, now, who)
      ensures Judge(t, id, secret.verifier, now, hash) == Known(who)
    {
      VouchedJudge(run, hash, j, text, secret, id, now, who);
    }
  }

  lemma VouchedJudge(run: seq<Statement>, hash: Hash, j: nat, text: string, secret: Secret, id: string,
                     now: Instant, who: Identity)
    requires GenuineRun(run) && Injective(hash) && Kept(After(run, hash)) && ParseSecret(text) == Some(secret)
    requires id in After(run, hash).tokens && After(run, hash).tokens[id].selector == secret.selector
    requires Vouches(run, hash, j, text, now, who)
    ensures Judge(After(run, hash), id, secret.verifier, now, hash) == Known(who)
  {
    hide After, Judge, Accepts, ParseSecret, Injective, Unexpired, TokenRow, Kept, GenuineRun;
    VouchedRow(run, hash, j, text, secret, now, who);
    OneSelector(After(run, hash), who.credentialID, id);
    JudgedAlike(After(run, hash), id, run, j, secret, now, hash);
  }

  lemma OneSelector(t: Table, i: string, j: string)
    requires Kept(t) && i in t.tokens && j in t.tokens && t.tokens[i].selector == t.tokens[j].selector
    ensures i == j && HasOwner(t, i)
  {
  }

  lemma JudgedAlike(t: Table, id: string, run: seq<Statement>, j: nat, secret: Secret, now: Instant, hash: Hash)
    requires HasOwner(t, id) && j < |run| && run[j].TokenInserted? && GenuineRun(run) && Injective(hash)
    requires t.tokens[id] == TokenRow(run[j].userID, run[j].secret, run[j].expires, hash)
    requires run[j].secret == secret && Unexpired(run[j].expires, now) && !t.users[run[j].userID].disabled
    ensures Judge(t, id, secret.verifier, now, hash) == Known(IdentityOf(t, run[j].userID, id))
  {
    hide Judge, InRange, Floor, Unexpired;
    assert run[j] in run;
    JudgeRow(t, id, run[j].userID, secret, run[j].expires, secret.verifier, now, hash);
  }

  /** The key lookup: an enabled owner of the one key row with the fingerprint. */
  ghost predicate OwnsKey(t: Table, fingerprint: string, who: Identity) {
    && who.credentialID in t.keys && t.keys[who.credentialID].fingerprint == fingerprint
    && who.userID == t.keys[who.credentialID].userID && who.userID in t.users
    && IsEnabledAs(t.users[who.userID], who)
  }

  /** A public key resolves to one identity at most, in every run. */
  lemma KeyResolvesToOne(run: seq<Statement>, hash: Hash, fingerprint: string, a: Identity, b: Identity)
    requires OwnsKey(After(run, hash), fingerprint, a) && OwnsKey(After(run, hash), fingerprint, b)
    ensures a == b
  {
    RunKeeps(run, hash);
    hide After;
  }

  // The repository ------------------------------------------------------------------------------

  datatype Inserted = Inserted | NameWasTaken | FingerprintWasTaken | Failed

  class Repository {
    const hash: Hash
    var db: Table

    constructor (hash: Hash)
      ensures this.hash == hash && db == EMPTY && Kept(db)
    {
      this.hash := hash;
      db := EMPTY;
    }

    /** Looks for the name and inserts in one transaction; a taken id fails in the index. */
    method InsertUser(id: string, user: User) returns (r: Inserted)
      modifies this
      ensures db == Exec(old(db), UserInserted(id, user), hash)
      ensures r == Inserted <==> Accepts(old(db), UserInserted(id, user))
      ensures r == NameWasTaken <==> NameTaken(old(db), user.name)
      ensures r != FingerprintWasTaken
    {
      if NameTaken(db, user.name) {
        return NameWasTaken;
      }
      if id in db.users {
        return Failed;
      }
      db := db.(users := db.users[id := user]);
      return Inserted;
    }

    method DeleteUser(id: string) returns (deleted: bool)
      modifies this
      ensures db == Exec(old(db), UserDeleted(id), hash) && (deleted <==> id in old(db).users)
    {
      deleted := id in db.users;
      if deleted {
        db := Table(db.users - {id}, map k <- db.tokens | db.tokens[k].userID != id :: db.tokens[k],
                    map k <- db.keys | db.keys[k].userID != id :: db.keys[k]);
      }
    }

    method SelectorIsTaken(selector: string) returns (taken: bool)
      ensures taken <==> SelectorTaken(db, selector)
    {
      taken := SelectorTaken(db, selector);
    }

    method InsertToken(id: string, userID: string, secret: Secret, expires: Option<nat>) returns (ok: bool)
      modifies this
      ensures db == Exec(old(db), TokenInserted(id, userID, secret, expires), hash)
      ensures ok <==> Accepts(old(db), TokenInserted(id, userID, secret, expires))
    {
      ok := id !in db.tokens && userID in db.users && !SelectorTaken(db, secret.selector);
      if ok {
        var expiresAt := if expires.Some? then Some(Format(expires.value)) else None;
        db := db.(tokens := db.tokens[id := Token(userID, secret.selector, hash(secret.verifier), expiresAt)]);
      }
    }

    method DeleteToken(id: string) returns (deleted: bool)
      modifies this
      ensures db == Exec(old(db), TokenDeleted(id), hash) && (deleted <==> id in old(db).tokens)
    {
      deleted := id in db.tokens;
      db := db.(tokens := db.tokens - {id});
      assert !deleted ==> db.tokens == old(db.tokens);
    }

    method InsertKey(id: string, key: Key) returns (r: Inserted)
      modifies this
      ensures db == Exec(old(db), KeyInserted(id, key), hash)
      ensures r == Inserted <==> Accepts(old(db), KeyInserted(id, key))
      ensures r == FingerprintWasTaken <==> FingerprintTaken(old(db), key.fingerprint)
      ensures (r == NameWasTaken <==>
        !FingerprintTaken(old(db), key.fingerprint) && KeyNameTaken(old(db), key.userID, key.name))
    {
      if FingerprintTaken(db, key.fingerprint) {
        return FingerprintWasTaken;
      }
      if KeyNameTaken(db, key.userID, key.name) {
        return NameWasTaken;
      }
      if id in db.keys || key.userID !in db.users {
        return Failed;
      }
      db := db.(keys := db.keys[id := key]);
      return Inserted;
    }

    method DeleteKey(id: string) returns (deleted: bool)
      modifies this
      ensures db == Exec(old(db), KeyDeleted(id), hash) && (deleted <==> id in old(db).keys)
    {
      deleted := id in db.keys;
      db := db.(keys := db.keys - {id});
      assert !deleted ==> db.keys == old(db.keys);
    }

    method TokenBySelector(selector: string) returns (r: Option<string>)
      requires Kept(db)
      ensures r == TokenFor(db, selector)
    {
      if id :| id in db.tokens && db.tokens[id].selector == selector {
        return Some(id);
      }
      return None;
    }

    method UserByKeyFingerprint(fingerprint: string) returns (r: Option<string>)
      requires Kept(db)
      ensures r.Some? ==> r.value in db.keys && db.keys[r.value].fingerprint == fingerprint
      ensures r.None? ==> !FingerprintTaken(db, fingerprint)
    {
      if id :| id in db.keys && db.keys[id].fingerprint == fingerprint {
        return Some(id);
      }
      return None;
    }
  }

  // The service ---------------------------------------------------------------------------------

  datatype Fault =
    | InvalidName | InvalidRole | InvalidID | InvalidTTL
    | UserNotFound | TokenNotFound | KeyNotFound
    | UserNameTaken | KeyNameWasTaken | PublicKeyRegistered
    | InternalFault

  datatype Result<T> = Ok(value: T) | Err(fault: Fault)

  function CheckUser(t: Table, id: string): Option<Fault> {
    if !Validate.HasPrefix(id, USER_PREFIX) then Some(InvalidID)
    else if id !in t.users then Some(UserNotFound)
    else None
  }

  predicate FirstUnused(t: Table, minted: seq<Secret>, k: int) {
    && 0 <= k < |minted| && !SelectorTaken(t, minted[k].selector)
    && forall j :: 0 <= j < k ==> SelectorTaken(t, minted[j].selector)
  }

  class Service {
    const repo: Repository

    constructor (repo: Repository)
      ensures this.repo == repo
    {
      this.repo := repo;
    }

    method CreateUser(name: string, role: string, id: string) returns (r: Result<User>)
      requires Kept(repo.db)
      modifies repo
      ensures Kept(repo.db)
      ensures (r.Ok? <==>
        Validate.Name(name) && role in ROLES && Accepts(old(repo.db), UserInserted(id, User(name, role, false))))
      ensures r.Ok? ==> r.value == User(name, role, false)
      ensures r.Ok? ==> repo.db == Exec(old(repo.db), UserInserted(id, r.value), repo.hash)
      ensures r.Err? ==> repo.db == old(repo.db)
      ensures r == Err(UserNameTaken) <==> Validate.Name(name) && role in ROLES && NameTaken(old(repo.db), name)
    {
      hide Kept, Validate.Name;
      if !Validate.Name(name) {
        return Err(InvalidName);
      }
      if role !in ROLES {
        return Err(InvalidRole);
      }
      var user := User(name, role, false);
      ExecKeeps(repo.db, UserInserted(id, user), repo.hash);
      var done := repo.InsertUser(id, user);
      match done {
        case NameWasTaken => r := Err(UserNameTaken);
        case Inserted => r := Ok(user);
        case _ => r := Err(InternalFault);
      }
    }

    method DeleteUser(id: string) returns (fault: Option<Fault>)
      requires Kept(repo.db)
      modifies repo
      ensures Kept(repo.db)
      ensures Validate.HasPrefix(id, USER_PREFIX) ==> repo.db == Exec(old(repo.db), UserDeleted(id), repo.hash)
      ensures fault == CheckUser(old(repo.db), id)
      ensures fault.Some? ==> repo.db == old(repo.db)
    {
      hide Kept;
      fault := CheckUser(repo.db, id);
      if fault.None? {
        ExecKeeps(repo.db, UserDeleted(id), repo.hash);
        var deleted := repo.DeleteUser(id);
      }
    }

    /** Tries up to eight fresh secrets until one has a selector that is not in use. */
    method MintUnusedSecret(minted: seq<Secret>) returns (r: Option<Secret>)
      requires |minted| == SELECTOR_ATTEMPTS
      ensures r.None? <==> forall s <- minted :: SelectorTaken(repo.db, s.selector)
      ensures r.Some? ==> exists k :: FirstUnused(repo.db, minted, k) && r.value == minted[k]
    {
      for i := 0 to SELECTOR_ATTEMPTS
        invariant forall j :: 0 <= j < i ==> SelectorTaken(repo.db, minted[j].selector)
      {
        var taken := repo.SelectorIsTaken(minted[i].selector);
        if !taken {
          assert minted[i] in minted && FirstUnused(repo.db, minted, i);
          return Some(minted[i]);
        }
      }
      return None;
    }

    /** The printed secret is what the owner gets; only its selector and the hash of its
        verifier are stored. A TTL of zero never expires. */
    method IssueToken(userID: string, ttl: int, id: string, minted: seq<Secret>, now: nat) returns (r: Result<string>)
      requires Kept(repo.db) && |minted| == SELECTOR_ATTEMPTS
      modifies repo
      ensures Kept(repo.db)
      ensures (r.Ok? ==> exists s <- minted ::
        var expires := if ttl > 0 then Some(now + ttl) else None;
        r.value == SecretText(s) && CheckUser(old(repo.db), userID).None? && 0 <= ttl <= MAX_TOKEN_TTL &&
        Accepts(old(repo.db), TokenInserted(id, userID, s, expires)) &&
        repo.db == Exec(old(repo.db), TokenInserted(id, userID, s, expires), repo.hash))
      ensures r.Err? ==> repo.db == old(repo.db)
      ensures CheckUser(old(repo.db), userID).Some? ==> r == Err(CheckUser(old(repo.db), userID).value)
      ensures CheckUser(old(repo.db), userID).None? && !(0 <= ttl <= MAX_TOKEN_TTL) ==> r == Err(InvalidTTL)
      ensures (r == Err(InternalFault) ==>
        id in old(repo.db).tokens || forall s <- minted :: SelectorTaken(old(repo.db), s.selector))
    {
      hide Kept, Format, TokenRow;
      var fault := CheckUser(repo.db, userID);
      if fault.Some? {
        return Err(fault.value);
      }
      if ttl < 0 || ttl > MAX_TOKEN_TTL {
        return Err(InvalidTTL);
      }
      var unused := MintUnusedSecret(minted);
      if unused.None? {
        return Err(InternalFault);
      }
      var expires: Option<nat> := if ttl > 0 then Some(now + ttl) else None;
      var s := unused.value;
      ExecKeeps(repo.db, TokenInserted(id, userID, s, expires), repo.hash);
      var ok := repo.InsertToken(id, userID, s, expires);
      if !ok {
        return Err(InternalFault);
      }
      assert s in minted;
      return Ok(SecretText(s));
    }

    method RevokeToken(id: string) returns (fault: Option<Fault>)
      requires Kept(repo.db)
      modifies repo
      ensures Kept(repo.db)
      ensures Validate.HasPrefix(id, TOKEN_PREFIX) ==> repo.db == Exec(old(repo.db), TokenDeleted(id), repo.hash)
      ensures fault.None? <==> Validate.HasPrefix(id, TOKEN_PREFIX) && id in old(repo.db).tokens
      ensures fault.Some? ==> repo.db == old(repo.db)
    {
      hide Kept;
      if !Validate.HasPrefix(id, TOKEN_PREFIX) {
        return Some(InvalidID);
      }
      ExecKeeps(repo.db, TokenDeleted(id), repo.hash);
      var deleted := repo.DeleteToken(id);
      return if deleted then None else Some(TokenNotFound);
    }

    method Authenticate(text: string, now: Instant) returns (r: Auth)
      requires Kept(repo.db)
      ensures r == AuthOf(repo.db, text, now, repo.hash)
    {
      var parts := ParseSecret(text);
      if parts.None? {
        return Rejected;
      }
      var id := repo.TokenBySelector(parts.value.selector);
      if id.None? {
        return Rejected;
      }
      r := Judge(repo.db, id.value, parts.value.verifier, now, repo.hash);
    }

    /** `fingerprint` stands for the parsed key; a key that does not parse is refused before. */
    method AddKey(userID: string, name: string, fingerprint: string, id: string) returns (r: Result<Key>)
      requires Kept(repo.db)
      modifies repo
      ensures Kept(repo.db)
      ensures (r.Ok? <==>
        && CheckUser(old(repo.db), userID).None? && Validate.Name(name)
        && Accepts(old(repo.db), KeyInserted(id, Key(userID, name, fingerprint))))
      ensures r.Ok? ==> r.value == Key(userID, name, fingerprint)
      ensures r.Ok? ==> repo.db == Exec(old(repo.db), KeyInserted(id, r.value), repo.hash)
      ensures r.Err? ==> repo.db == old(repo.db)
      ensures r == Err(PublicKeyRegistered) ==> FingerprintTaken(old(repo.db), fingerprint)
      ensures r == Err(KeyNameWasTaken) ==> KeyNameTaken(old(repo.db), userID, name)
    {
      hide Kept, Validate.Name;
      var fault := CheckUser(repo.db, userID);
      if fault.Some? {
        return Err(fault.value);
      }
      if !Validate.Name(name) {
        return Err(InvalidName);
      }
      var key := Key(userID, name, fingerprint);
      ExecKeeps(repo.db, KeyInserted(id, key), repo.hash);
      var done := repo.InsertKey(id, key);
      match done {
        case FingerprintWasTaken => r := Err(PublicKeyRegistered);
        case NameWasTaken => r := Err(KeyNameWasTaken);
        case Inserted => r := Ok(key);
        case Failed => r := Err(InternalFault);
      }
    }

    method RemoveKey(id: string) returns (fault: Option<Fault>)
      requires Kept(repo.db)
      modifies repo
      ensures Kept(repo.db)
      ensures Validate.HasPrefix(id, KEY_PREFIX) ==> repo.db == Exec(old(repo.db), KeyDeleted(id), repo.hash)
      ensures fault.None? <==> Validate.HasPrefix(id, KEY_PREFIX) && id in old(repo.db).keys
      ensures fault.Some? ==> repo.db == old(repo.db)
    {
      hide Kept;
      if !Validate.HasPrefix(id, KEY_PREFIX) {
        return Some(InvalidID);
      }
      ExecKeeps(repo.db, KeyDeleted(id), repo.hash);
      var deleted := repo.DeleteKey(id);
      return if deleted then None else Some(KeyNotFound);
    }

    method ByPublicKey(fingerprint: string) returns (r: Auth)
      requires Kept(repo.db)
      ensures forall who :: r == Known(who) <==> fingerprint != "" && OwnsKey(repo.db, fingerprint, who)
      ensures r != Broken
    {
      if fingerprint == "" {
        return Rejected;
      }
      var id := repo.UserByKeyFingerprint(fingerprint);
      if id.None? {
        return Rejected;
      }
      var userID := repo.db.keys[id.value].userID;
      if repo.db.users[userID].disabled {
        return Rejected;
      }
      return Known(IdentityOf(repo.db, userID, id.value));
    }
  }
}
