/**
 * Passwords, the sessions minted under them, and API tokens. Each call is atomic.
 *
 * Verification, hashing and the drawing of secrets are parameters: a new hash and a new secret are ones
 * never stored before. A fingerprint is the SHA-256 of the stored hash and a stored secret is its digest;
 * both are taken to be collision-free, so a digest is the secret itself.
 */
module Sessions {
  import opened Prelude

  datatype Hash = NoHash | Hashed(text: string)

  datatype User = User(hash: Hash, banned: bool, forced: bool)

  datatype Print = NoPrint | Sha(of: string)

  datatype Secret = Secret(text: string)

  datatype Session = Session(user: int, mark: Print, expires: int)

  datatype ApiToken = ApiToken(user: int, expires: int)

  datatype Purpose = ForVerify | ForReset | ForEmailChange

  datatype EmailToken = EmailToken(purpose: Purpose, user: int, expires: int, consumed: bool)

  datatype Check = Check(ok: bool, rehash: bool)

  // accounts.Verify, on a stored hash and a password.
  type Verifier = (string, string) -> Check

  datatype Refusal = NoUser | BadCredentials | HashRefused | TokenInvalid

  const SESSION_TTL := 7 * 24 * 3600

  function Fingerprint(h: Hash): Print {
    match h
    case NoHash => NoPrint
    case Hashed(text) => Sha(text)
  }

  function Last(written: seq<string>): Hash {
    if written == [] then NoHash else Hashed(written[|written| - 1])
  }

  class Accounts {
    var users: map<int, User>
    var sessions: map<Secret, Session>
    var tokens: map<Secret, ApiToken>
    var mail: map<Secret, EmailToken>

    // Every hash each user's row has held, in order; and for each session how many it had held then.
    ghost var written: map<int, seq<string>>
    ghost var mintedAt: map<Secret, nat>

    ghost predicate UserOk(u: int)
      reads this`users, this`written
      requires u in users
    {
      u in written && users[u].hash == Last(written[u]) && Distinct(written[u])
    }

    ghost predicate SessionOk(s: Secret)
      reads this`users, this`sessions, this`written, this`mintedAt
      requires s in sessions
    {
      var u := sessions[s].user;
      && u in users && u in written && s in mintedAt
      && 1 <= mintedAt[s] <= |written[u]|
      && sessions[s].mark == Sha(written[u][mintedAt[s] - 1])
    }

    ghost predicate Valid()
      reads this`users, this`sessions, this`written, this`mintedAt, this`mail
    {
      && (forall m :: m in mail ==> mail[m].user in users)
      && (forall u :: u in users ==> UserOk(u))
      && (forall s :: s in sessions ==> SessionOk(s))
    }

    /** The session's user still has the hash it was minted under: no write since. */
    ghost predicate Current(s: Secret)
      reads this`users, this`sessions, this`written, this`mintedAt, this`mail
      requires Valid() && s in sessions
    {
      assert SessionOk(s);
      mintedAt[s] == |written[sessions[s].user]|
    }

    ghost predicate NeverStored(h: string)
      reads this`written
    {
      forall u :: u in written ==> h !in written[u]
    }

    /** A session authenticates exactly while it is unexpired and its password hash has not been rewritten. */
    method AuthenticateSession(s: Secret, now: int) returns (who: NullId)
      requires Valid()
      ensures who == if s in sessions && now < sessions[s].expires && Current(s) then Id(sessions[s].user) else Null
    {
      if s !in sessions || now >= sessions[s].expires { return Null; }
      assert SessionOk(s);
      var row := sessions[s];
      assert UserOk(row.user);
      if Fingerprint(users[row.user].hash) != row.mark { return Null; }
      who := Id(row.user);
    }

    // UPDATE users SET password_hash: the user's rows of `written` grow by one.
    method WriteHash(u: int, h: string, clearForced: bool)
      requires Valid() && u in users && NeverStored(h)
      modifies this`users, this`written
      ensures Valid()
      ensures users == old(users)[u := User(Hashed(h), old(users)[u].banned, !clearForced && old(users)[u].forced)]
      ensures written == old(written)[u := old(written)[u] + [h]]
      ensures forall o :: o in sessions ==> (Current(o) <==> old(Current(o)) && sessions[o].user != u)
    {
      assert UserOk(u);
      users := users[u := User(Hashed(h), users[u].banned, !clearForced && users[u].forced)];
      written := written[u := written[u] + [h]];
      forall v | v in users ensures UserOk(v) {
        if v != u { assert old(UserOk(v)); }
      }
      forall s | s in sessions ensures SessionOk(s) { assert old(SessionOk(s)); }
      forall o | o in sessions ensures Current(o) <==> old(Current(o)) && sessions[o].user != u { assert old(SessionOk(o)); }
    }

    // INSERT INTO sessions, fingerprinted on the hash in the row.
    method Mint(u: int, h: string, s: Secret, now: int)
      requires Valid() && u in users && users[u].hash == Hashed(h) && s !in sessions
      modifies this`sessions, this`mintedAt
      ensures Valid()
      ensures sessions == old(sessions)[s := Session(u, Sha(h), now + SESSION_TTL)]
      ensures u in written && mintedAt == old(mintedAt)[s := |written[u]|]
      ensures Current(s)
      ensures forall o :: o in old(sessions) ==> (Current(o) <==> old(Current(o)))
    {
      assert UserOk(u);
      sessions := sessions[s := Session(u, Fingerprint(Hashed(h)), now + SESSION_TTL)];
      mintedAt := mintedAt[s := |written[u]|];
      forall r | r in sessions ensures SessionOk(r) {
        if r != s { assert old(SessionOk(r)); }
      }
    }

    /**
     * Logs in exactly on a right password of an unbanned user with one. The returned session
     * authenticates, also when the login rewrote the hash; that rewrite logs every other session of the
     * user out and leaves a forced change pending.
     */
    method Login(who: NullId, password: string, verify: Verifier, upgraded: Hash, persisted: bool, s: Secret, now: int)
        returns (r: Result<Secret, Refusal>)
      requires Valid() && s !in sessions
      requires upgraded.Hashed? ==> NeverStored(upgraded.text)
      modifies this`users, this`sessions, this`written, this`mintedAt
      ensures Valid()
      ensures r.Ok? <==> && who.Id? && who.id in old(users) && old(users)[who.id].hash.Hashed?
                         && verify(old(users)[who.id].hash.text, password).ok && !old(users)[who.id].banned
      ensures r.Err? ==> users == old(users) && sessions == old(sessions) && mintedAt == old(mintedAt) && written == old(written)
      ensures r.Ok? ==> r.value == s && s in sessions && sessions[s].user == who.id && Current(s)
                        && sessions[s].expires == now + SESSION_TTL
      ensures r.Ok? ==> forall o :: o in old(sessions) ==> o in sessions && sessions[o] == old(sessions)[o]
      ensures r.Ok? ==> forall o :: o in sessions ==> o == s || o in old(sessions)
      ensures r.Ok? ==> var rewrote := verify(old(users)[who.id].hash.text, password).rehash && upgraded.Hashed? && persisted;
                        && (forall o :: o in old(sessions) ==>
                              (Current(o) <==> old(Current(o)) && !(rewrote && sessions[o].user == who.id)))
                        && users == if rewrote then old(users)[who.id := old(users)[who.id].(hash := upgraded)] else old(users)
    {
      if who.Null? || who.id !in users { return Err(BadCredentials); }
      var u := users[who.id];
      if u.hash.NoHash? { return Err(BadCredentials); }
      var check := verify(u.hash.text, password);
      if !check.ok || u.banned { return Err(BadCredentials); }
      var hash := u.hash.text;
      if check.rehash && upgraded.Hashed? && persisted {
        WriteHash(who.id, upgraded.text, false);
        hash := upgraded.text;
      }
      Mint(who.id, hash, s, now);
      r := Ok(s);
    }

    method Logout(s: Secret)
      requires Valid()
      modifies this`sessions
      ensures Valid()
      ensures s !in sessions
      ensures forall o :: o != s ==> (o in sessions <==> o in old(sessions)) && (o in sessions ==> sessions[o] == old(sessions)[o])
    {
      sessions := sessions - {s};
      forall o | o in sessions ensures SessionOk(o) { assert old(SessionOk(o)); }
    }

    // DELETE FROM api_tokens WHERE user_id = u, with the row count.
    method DeleteTokens(u: int) returns (n: nat)
      modifies this`tokens
      ensures forall t :: t in tokens <==> t in old(tokens) && old(tokens)[t].user != u
      ensures forall t :: t in tokens ==> tokens[t] == old(tokens)[t]
      ensures n == |set t | t in old(tokens) && old(tokens)[t].user == u|
    {
      n := |set t | t in tokens && tokens[t].user == u|;
      tokens := map t | t in tokens && tokens[t].user != u :: tokens[t];
    }

    // What a change and a reset share: the new hash, no forced change, no API token left.
    method Replace(u: int, h: string) returns (revoked: nat)
      requires Valid() && u in users && NeverStored(h)
      modifies this`users, this`tokens, this`written
      ensures Valid()
      ensures users == old(users)[u := User(Hashed(h), old(users)[u].banned, false)]
      ensures written == old(written)[u := old(written)[u] + [h]]
      ensures forall o :: o in sessions ==> (Current(o) <==> old(Current(o)) && sessions[o].user != u)
      ensures forall t :: t in tokens <==> t in old(tokens) && old(tokens)[t].user != u
      ensures forall t :: t in tokens ==> tokens[t] == old(tokens)[t]
      ensures revoked == |set t | t in old(tokens) && old(tokens)[t].user == u|
    {
      WriteHash(u, h, true);
      revoked := DeleteTokens(u);
    }

    /**
     * A change needs the current password. It kills every session of the user and every API token,
     * discharges a forced change, touches nobody else, and the session it returns authenticates.
     */
    method ChangePassword(u: int, current: string, verify: Verifier, next: Hash, s: Secret, now: int)
        returns (r: Result<nat, Refusal>)
      requires Valid() && s !in sessions
      requires next.Hashed? ==> NeverStored(next.text)
      modifies this`users, this`sessions, this`tokens, this`written, this`mintedAt
      ensures Valid()
      ensures r.Ok? <==> && u in old(users) && old(users)[u].hash.Hashed?
                         && verify(old(users)[u].hash.text, current).ok && next.Hashed?
      ensures r.Err? ==> users == old(users) && sessions == old(sessions) && tokens == old(tokens)
                         && mintedAt == old(mintedAt) && written == old(written)
      ensures r.Ok? ==> && users == old(users)[u := User(next, old(users)[u].banned, false)]
                        && s in sessions && sessions[s] == Session(u, Fingerprint(next), now + SESSION_TTL) && Current(s)
      ensures r.Ok? ==> forall o :: o in sessions <==> o in old(sessions) || o == s
      ensures r.Ok? ==> forall o :: o in old(sessions) ==>
                          sessions[o] == old(sessions)[o] && (Current(o) <==> old(Current(o)) && sessions[o].user != u)
      ensures r.Ok? ==> && (forall t :: t in tokens <==> t in old(tokens) && old(tokens)[t].user != u)
                        && (forall t :: t in tokens ==> tokens[t] == old(tokens)[t])
                        && r.value == |set t | t in old(tokens) && old(tokens)[t].user == u|
    {
      if u !in users { return Err(NoUser); }
      if users[u].hash.NoHash? { return Err(BadCredentials); }
      if !verify(users[u].hash.text, current).ok { return Err(BadCredentials); }
      if next.NoHash? { return Err(HashRefused); }
      var revoked := Replace(u, next.text);
      Mint(u, next.text, s, now);
      r := Ok(revoked);
    }

    /**
     * A reset spends an unspent, unexpired reset token, once. Afterwards no session of the user
     * authenticates and no API token of theirs is left; nobody else is touched.
     */
    method ResetPassword(token: Secret, next: Hash, now: int) returns (r: Result<nat, Refusal>)
      requires Valid()
      requires next.Hashed? ==> NeverStored(next.text)
      modifies this`users, this`tokens, this`mail, this`written
      ensures Valid()
      ensures r.Ok? <==> && next.Hashed? && token in old(mail) && old(mail)[token].purpose == ForReset
                         && !old(mail)[token].consumed && now < old(mail)[token].expires
      ensures r.Err? ==> users == old(users) && tokens == old(tokens) && mail == old(mail) && written == old(written)
      ensures r.Ok? ==> && mail == old(mail)[token := old(mail)[token].(consumed := true)]
                        && var u := old(mail)[token].user;
                        && users == old(users)[u := User(next, old(users)[u].banned, false)]
                        && (forall o :: o in sessions ==> (Current(o) <==> old(Current(o)) && sessions[o].user != u))
                        && (forall t :: t in tokens <==> t in old(tokens) && old(tokens)[t].user != u)
                        && (forall t :: t in tokens ==> tokens[t] == old(tokens)[t])
                        && r.value == |set t | t in old(tokens) && old(tokens)[t].user == u|
    {
      if next.NoHash? { return Err(HashRefused); }
      if token !in mail { return Err(TokenInvalid); }
      var row := mail[token];
      if row.purpose != ForReset || row.consumed || now >= row.expires { return Err(TokenInvalid); }
      mail := mail[token := row.(consumed := true)];
      var revoked := Replace(row.user, next.text);
      r := Ok(revoked);
    }

    /** Registration: the new account is stored, and its first session minted. */
    method CreateUser(u: int, h: string, s: Secret, now: int)
      requires Valid() && u !in users && u !in written && s !in sessions
      modifies this`users, this`sessions, this`written, this`mintedAt
      ensures Valid() && users == old(users)[u := User(Hashed(h), false, false)]
      ensures sessions == old(sessions)[s := Session(u, Sha(h), now + SESSION_TTL)] && Current(s)
      ensures forall o :: o in old(sessions) ==> (Current(o) <==> old(Current(o)))
    {
      users := users[u := User(Hashed(h), false, false)];
      written := written[u := [h]];
      forall v | v in users ensures UserOk(v) {
        if v != u { assert old(UserOk(v)); }
      }
      forall o | o in sessions ensures SessionOk(o) { assert old(SessionOk(o)); }
      Mint(u, h, s, now);
    }
  }
}
