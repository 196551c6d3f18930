/** One-time codes over whole runs: each lookup finds at most one user, every issued activation code is
    either still stored or was used, and a login proves knowledge of the password last set. */
module AccountCodes {
  import opened Wrappers
  import opened Base64
  import opened AccountEffects
  import opened Accounts
  import opened AccountInvariants
  import opened AccountHistory
  import opened PasswordHash

  // ---------- lookups ----------

  /** In every reachable database a lookup by code matches the rows of at most one user, and at most one row. */
  lemma LookupIsUnique(cfg: Config, states: seq<State>, evs: seq<Event>, i: nat, code: string,
                       row: int, uid: int, row': int, uid': int)
    requires Run(cfg, states, evs) && Consistent(states[0].db) && i <= |evs|
    ensures forall table :: table in [states[i].db.activation, states[i].db.verification, states[i].db.reset] ==>
      (HoldsCode(table, row, code, uid) && HoldsCode(table, row', code, uid') ==> row == row' && uid == uid')
    ensures HoldsSecondFactor(states[i].db, row, code, uid) && HoldsSecondFactor(states[i].db, row', code, uid') ==>
      row == row' && uid == uid'
  {
    RunConsistent(cfg, states, evs, i);
    hide Complete, UniqueUsers, UniqueDevices, DevicesLinked, Run;
  }

  // ---------- activation codes ----------

  function Count(holds: Event -> bool, evs: seq<Event>, i: nat, j: nat): nat
    requires i <= j <= |evs|
    decreases j
  {
    if i == j then 0 else Count(holds, evs, i, j - 1) + if holds(evs[j - 1]) then 1 else 0
  }

  lemma {:induction false} CountZero(holds: Event -> bool, evs: seq<Event>, i: nat, j: nat)
    requires i <= j <= |evs| && forall k :: i <= k < j ==> !holds(evs[k])
    ensures Count(holds, evs, i, j) == 0
    decreases j
  {
    if i < j {
      CountZero(holds, evs, i, j - 1);
    }
  }

  function Issues(code: string): Event -> bool {
    (ev: Event) => ev.Registered? && ev.code == code
  }

  function Uses(code: string): Event -> bool {
    (ev: Event) => ev.Activated? && ev.code == code
  }

  function Stored(db: Database, code: string): nat {
    if CodeFree(db.activation, code) then 0 else 1
  }

  lemma ActivationStep(cfg: Config, db: Database, ev: Event, db': Database, code: string)
    requires DbStep(cfg, db, ev, db')
    ensures Stored(db, code) + (if Issues(code)(ev) then 1 else 0)
      == Stored(db', code) + (if Uses(code)(ev) then 1 else 0)
  {
    hide NewUsers, NewSettings, NewDetails, NewDevices, NewVerification, NewReset, NewSecondFactor;
    if ev.Registered? {
      assert db'.activation[ev.rows.activation].value == ev.code;
      if ev.code != code && !CodeFree(db.activation, code) {
        var r :| r in db.activation && db.activation[r].value == code;
        assert r in db'.activation && db'.activation[r].value == code;
      }
    } else if ev.Activated? && ev.code != code && !CodeFree(db.activation, code) {
      var r :| r in db.activation && db.activation[r].value == code;
      assert r in db'.activation && db'.activation[r].value == code;
    }
  }

  /** Conservation, over any stretch of any run: what was stored and what was issued is what was used and
      what is still stored. */
  lemma {:induction false} ActivationConserved(cfg: Config, states: seq<State>, evs: seq<Event>, i: nat, j: nat,
                                               code: string)
    requires Run(cfg, states, evs) && i <= j <= |evs|
    ensures Stored(states[i].db, code) + Count(Issues(code), evs, i, j)
      == Count(Uses(code), evs, i, j) + Stored(states[j].db, code)
    decreases j
  {
    hide DbStep, NewCache, Stored;
    if i < j {
      ActivationConserved(cfg, states, evs, i, j - 1, code);
      ActivationStep(cfg, states[j - 1].db, evs[j - 1], states[j].db, code);
    }
  }

  /** A code that activated an account does so again only after it was issued again. */
  lemma ActivatesOncePerIssue(cfg: Config, states: seq<State>, evs: seq<Event>, i: nat, j: nat)
    requires Run(cfg, states, evs) && i < j < |evs|
    requires evs[i].Activated? && evs[j].Activated? && evs[i].code == evs[j].code
    ensures exists k :: i < k < j && evs[k].Registered? && evs[k].code == evs[i].code
  {
    var code := evs[i].code;
    ActivationStep(cfg, states[i].db, evs[i], states[i + 1].db, code);
    ActivationConserved(cfg, states, evs, i + 1, j, code);
    ActivationStep(cfg, states[j].db, evs[j], states[j + 1].db, code);
    if forall k :: i < k < j ==> !(evs[k].Registered? && evs[k].code == code) {
      CountZero(Issues(code), evs, i + 1, j);
    }
  }

  // ---------- verification codes ----------

  lemma {:induction false} VerificationGone(cfg: Config, states: seq<State>, evs: seq<Event>, i: nat, j: nat,
                                            code: string)
    requires Run(cfg, states, evs) && i <= j <= |evs|
    requires forall r :: r in states[i].db.verification ==> states[i].db.verification[r].value != code
    ensures forall r :: r in states[j].db.verification ==> states[j].db.verification[r].value != code
    decreases j
  {
    if i < j {
      VerificationGone(cfg, states, evs, i, j - 1, code);
      hide NewUsers, NewSettings, NewDetails, NewDevices, NewActivation, NewReset, NewSecondFactor, NewCache;
      assert DbStep(cfg, states[j - 1].db, evs[j - 1], states[j].db);
    }
  }

  /** A verification code is used up by the call that commits, also by one that panics: no later one takes it. */
  lemma VerifiesOnce(cfg: Config, states: seq<State>, evs: seq<Event>, i: nat, j: nat)
    requires Run(cfg, states, evs) && i < j < |evs| && evs[i].Verified? && evs[j].Verified?
    ensures evs[i].code != evs[j].code
  {
    VerifiedEffect(cfg, states[i].db, evs[i], states[i + 1].db);
    if evs[i].code == evs[j].code {
      VerificationGone(cfg, states, evs, i + 1, j, evs[i].code);
      VerifiedEffect(cfg, states[j].db, evs[j], states[j + 1].db);
    }
  }

  // ---------- passwords ----------

  /** The password and the salt that events i to j - 1 set last for a user. */
  function LastPassword(evs: seq<Event>, uid: int, j: nat): Option<(string, seq<Byte>)>
    requires j <= |evs|
  {
    if j == 0 then None
    else if evs[j - 1].Registered? && evs[j - 1].rows.user == uid then Some((evs[j - 1].password, evs[j - 1].salt))
    else if evs[j - 1].PasswordChanged? && evs[j - 1].uid == uid then Some((evs[j - 1].password, evs[j - 1].salt))
    else LastPassword(evs, uid, j - 1)
  }

  lemma PasswordStep(cfg: Config, db: Database, ev: Event, db': Database, uid: int)
    requires DbStep(cfg, db, ev, db')
    ensures ev.Registered? && ev.rows.user == uid ==>
      uid in db'.users && db'.users[uid].password == cfg.hash(ev.password, ev.salt)
    ensures ev.PasswordChanged? && ev.uid == uid ==>
      uid in db'.users && db'.users[uid].password == cfg.hash(ev.password, ev.salt)
    ensures !(ev.Registered? && ev.rows.user == uid) && !(ev.PasswordChanged? && ev.uid == uid) && uid in db.users ==>
      uid in db'.users && db'.users[uid].password == db.users[uid].password
  {
    hide NewSettings, NewDetails, NewDevices, NewActivation, NewVerification, NewReset, NewSecondFactor;
  }

  lemma {:induction false} StoredPassword(cfg: Config, states: seq<State>, evs: seq<Event>, uid: int, j: nat)
    requires Run(cfg, states, evs) && j <= |evs| && LastPassword(evs, uid, j).Some?
    ensures uid in states[j].db.users
    ensures var (password, salt) := LastPassword(evs, uid, j).value;
      states[j].db.users[uid].password == cfg.hash(password, salt)
  {
    PasswordStep(cfg, states[j - 1].db, evs[j - 1], states[j].db, uid);
    hide DbStep;
    if LastPassword(evs, uid, j - 1).Some? {
      StoredPassword(cfg, states, evs, uid, j - 1);
    }
  }

  /** The configuration of the service: hashes are printed and compared as in module PasswordHash. */
  ghost predicate Derives(cfg: Config, kdf: Kdf) {
    && KeepsLength(kdf)
    && (forall password, salt :: cfg.hash(password, salt) == HashPassword(kdf, password, salt))
    && (forall stored, password :: cfg.accepts(stored, password) <==> CompareHashes(kdf, stored, password) == Accepted)
  }

  function Key(kdf: Kdf, password: string, salt: seq<Byte>): seq<Byte> {
    kdf(password, salt, TIME, MEMORY, THREADS, KEY_LENGTH)
  }

  /** Who logs in presented a password that derives the same key as the one that was last set. */
  lemma LoginKnowsPassword(cfg: Config, kdf: Kdf, states: seq<State>, evs: seq<Event>, j: nat)
    requires Run(cfg, states, evs) && Derives(cfg, kdf)
    requires j < |evs| && evs[j].LoggedIn? && LastPassword(evs, evs[j].uid, j).Some?
    ensures var (password, salt) := LastPassword(evs, evs[j].uid, j).value;
      Key(kdf, evs[j].password, salt) == Key(kdf, password, salt)
  {
    var (password, salt) := LastPassword(evs, evs[j].uid, j).value;
    StoredPassword(cfg, states, evs, evs[j].uid, j);
    assert DbStep(cfg, states[j].db, evs[j], states[j + 1].db);
    assert cfg.accepts(states[j].db.users[evs[j].uid].password, evs[j].password);
    hide Run, DbStep, HashPassword, CompareHashes;
    CompareOwnHash(kdf, password, salt, evs[j].password);
    assert cfg.hash(password, salt) == HashPassword(kdf, password, salt);
  }

  /** And so did whoever started the login that a second factor token completes. */
  lemma SecondFactorKnowsPassword(cfg: Config, kdf: Kdf, states: seq<State>, evs: seq<Event>, j: nat) returns (i: nat)
    requires Run(cfg, states, evs) && Derives(cfg, kdf)
    requires Consistent(states[0].db) && states[0].db.secondFactor == map[]
    requires j < |evs| && evs[j].CodeVerified?
    ensures i < j && SentBy(cfg, states, evs, i, evs[j].row, evs[j].code, evs[j].uid)
    ensures LastPassword(evs, evs[j].uid, i).Some? ==>
      var (password, salt) := LastPassword(evs, evs[j].uid, i).value;
      Key(kdf, evs[i].password, salt) == Key(kdf, password, salt)
  {
    SecondFactorTokenHasLogin(cfg, states, evs, j);
    i :| i < j && SentBy(cfg, states, evs, i, evs[j].row, evs[j].code, evs[j].uid);
    if LastPassword(evs, evs[j].uid, i).Some? {
      LoginKnowsPassword(cfg, kdf, states, evs, i);
    }
  }
}
