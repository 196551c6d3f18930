/** The account calls of app/services/auth_service.go and app/services/users_service.go, composed of the
    repository's transactions.

    Every call, wherever it fails, extends the recorded run: the old events and states stay, and what the call
    did is appended.  So what is proved of runs holds of the running service, within a call and across calls.
    Each contract also says exactly when the call succeeds. */
module AuthService {
  import opened Wrappers
  import opened Base64
  import opened AccountEffects
  import opened Accounts
  import opened AccountInvariants
  import opened AccountHistory
  import opened UsersRepository
  import CacheKeys
  import Codes

  /** What a call meets: failing queries and statements, generated row ids, random draws, the clock, hashing,
      the signing of tokens and the sending of notices. */
  datatype Env = Env(lookupFails: bool, hashFails: bool, jwtFails: bool, noticeFails: bool,
                     fault: Faults, deviceFault: Faults, resetFault: Faults,
                     codeRow: int, deviceRow: int, draws: seq<nat>, lost: Faults, now: int, expiresAt: int)

  datatype Answer = Refused | Accepted | SecondFactorRequired | NoticeFailed | Panic | Token(uid: int, device: int)

  datatype Call =
    | DoRegister(rows: NewRows, mail: string, name: string, password: string, salt: seq<Byte>, token: string)
    | DoActivate(code: string)
    | DoLogin(mail: string, password: string, token: string)
    | DoVerifySecondFactor(code: string)
    | DoVerify(code: string, token: string)
    | DoRequestReset(mail: string)
    | DoCancelReset(mail: string)
    | DoConfirmReset(code: string, password: string, salt: seq<Byte>)
    | DoUpdateUser(uid: int, mail: string, phone: string)
    | DoUpdateSettings(uid: int, twoFactor: bool)
    | DoRemoveAccount(uid: int)
    | RemovalRuns(i: nat)

  /** A code that has not expired, of a visible user, with its device. */
  predicate CodeUsable(db: Database, code: string, row: int, uid: int, now: int, device: int) {
    && HoldsSecondFactor(db, row, code, uid) && Visible(db, uid) && now <= db.secondFactor[row].expiresAt
    && device in db.devices && db.devices[device].secondFactor == Some(row)
  }

  predicate CodeTooLate(db: Database, code: string, row: int, uid: int, now: int) {
    HoldsSecondFactor(db, row, code, uid) && Visible(db, uid) && now > db.secondFactor[row].expiresAt
  }

  /** The code that a login sends. */
  function DrawnCode(db: Database, env: Env): Option<string> {
    Codes.FirstFree(env.draws, SecondFactorCodes(db))
  }

  /** Whether CreateSecondFactorCode commits. */
  predicate CodeReady(db: Database, uid: int, env: Env) {
    NoFault(env.fault, 4) && DrawnCode(db, env).Some?
    && SecondFactorFree(db, env.codeRow, DrawnCode(db, env).value, uid)
  }

  ghost predicate SecondFactorOn(db: Database, uid: int) {
    exists r :: r in db.settings && db.settings[r].owner == uid && db.settings[r].value
  }

  lemma SameCodes(db: Database, db': Database, uid: int, env: Env)
    requires db'.secondFactor == db.secondFactor
    ensures SecondFactorCodes(db') == SecondFactorCodes(db) && DrawnCode(db', env) == DrawnCode(db, env)
    ensures forall code :: SecondFactorFree(db', env.codeRow, code, uid) == SecondFactorFree(db, env.codeRow, code, uid)
  {
    hide Codes.FirstFree;
  }

  /** Who gets a token from a password: active, with this mail, and without a settings row that asks for more. */
  ghost predicate TokenColumns(db: Database, uid: int, mail: string)
    requires uid in db.users
  {
    db.users[uid].active && db.users[uid].mail == mail && !SecondFactorOn(db, uid)
  }

  /** Whether the transaction of VerifyAccount commits. */
  ghost predicate Verifies(cfg: Config, db: Database, code: string, env: Env) {
    NoFault(env.fault, 3) && !env.fault(4) && exists row, uid :: Allowed(cfg, db, Verified(code, row, uid, NoDevice))
  }

  lemma CodeUsableOnce(db: Database, code: string, row: int, uid: int, now: int)
    requires UniqueSecondFactors(db.secondFactor) && DevicesLinked(db.devices, db.secondFactor)
    requires HoldsSecondFactor(db, row, code, uid)
    ensures forall r, u, d :: CodeUsable(db, code, r, u, now, d) ==> r == row && u == uid
    ensures forall d, e :: CodeUsable(db, code, row, uid, now, d) && CodeUsable(db, code, row, uid, now, e) ==> d == e
  {
  }

  lemma InvalidatedTwice(cache: Cache, uid: int, mail: string)
    ensures Invalidate(Invalidate(cache, uid, mail), uid, mail) == Invalidate(cache, uid, mail)
  {
  }

  lemma CachedStep(cfg: Config, s: State, uid: int, t: State)
    requires uid in s.db.users && t.db == s.db
    requires t.cache == WriteKeys(s.cache, CacheKeys.GetUserKeys(uid, s.db.users[uid].mail, false),
                                  Snapshot(uid, Exported(s.db.users[uid])))
    ensures Step(cfg, s, Cached(uid, false), t)
  {
    hide WriteKeys, CacheKeys.GetUserKeys;
  }

  lemma InvalidatedStep(cfg: Config, s: State, uid: int)
    requires uid in s.db.users
    ensures Step(cfg, s, Invalidated(uid), State(s.db, Invalidate(s.cache, uid, s.db.users[uid].mail)))
  {
    hide Invalidate;
  }

  /** What FindOrCreateDevice leaves behind. */
  ghost predicate DeviceTaken(s: State, uid: int, token: string, device: int, t: State) {
    && uid in s.db.users && DeviceFor(s.db, uid, token, device)
    && t.db == s.db.(devices := AddDevice(s.db.devices, uid, token, device))
    && t.cache == if device in s.db.devices then s.cache else Invalidate(s.cache, uid, s.db.users[uid].mail)
  }

  lemma LoginStep(cfg: Config, s: State, mail: string, password: string, uid: int, token: string, device: int,
                  end: LoginEnd, t: State)
    requires PassesLogin(cfg, s.db, uid, mail, password) && DeviceTaken(s, uid, token, device, t)
    requires end.DeviceOnly? || (end.LoginToken? && !TwoFactor(s.db, uid))
    ensures Step(cfg, s, LoggedIn(mail, password, uid, token, device, end), t)
  {
    hide DeviceFor, Invalidate, AddDevice, TwoFactor;
  }

  lemma CodeStep(cfg: Config, s: State, mail: string, password: string, uid: int, token: string, device: int,
                 end: LoginEnd, t: State, t': State)
    requires PassesLogin(cfg, s.db, uid, mail, password) && DeviceTaken(s, uid, token, device, t)
    requires end.CodeSent? && TwoFactor(s.db, uid)
    requires SecondFactorFree(s.db, end.row, end.code, uid) && Codes.TokenFormat(end.code)
    requires t'.db == t.db.(devices := LinkDevice(t.db.devices, device, end.row),
                            secondFactor := t.db.secondFactor[end.row :=
                              SecondFactor(end.code, Some(uid), end.expiresAt)])
    requires t'.cache == Invalidate(t.cache, uid, s.db.users[uid].mail)
    ensures Step(cfg, s, LoggedIn(mail, password, uid, token, device, end), t')
  {
    InvalidatedTwice(s.cache, uid, s.db.users[uid].mail);
    hide DeviceFor, Invalidate, TwoFactor, SecondFactorFree, Codes.TokenFormat;
  }

  lemma VerifiedStep(cfg: Config, s: State, code: string, row: int, uid: int, t: State, token: string, device: int,
                     issued: bool, t': State)
    requires Step(cfg, s, Verified(code, row, uid, NoDevice), t) && DeviceTaken(t, uid, token, device, t')
    ensures Step(cfg, s, Verified(code, row, uid, VerifiedDevice(token, device, issued)), t')
  {
    assert t.db.users[uid].mail == s.db.users[uid].mail;
    InvalidatedTwice(s.cache, uid, s.db.users[uid].mail);
    hide Invalidate, AddDevice, DeleteCode;
  }

  lemma CodeUsedStep(cfg: Config, s: State, code: string, row: int, uid: int, now: int, device: int, removed: bool,
                  t: State)
    requires CodeUsable(s.db, code, row, uid, now, device)
    requires if removed then
               && cfg.ownerNullable
               && t.db == s.db.(secondFactor := Unowned(s.db.secondFactor, uid))
               && t.cache == Invalidate(s.cache, uid, s.db.users[uid].mail)
             else t == s
    ensures Step(cfg, s, CodeVerified(code, row, uid, now, device, removed), t)
  {
    hide Invalidate, Unowned;
  }

  lemma ClearedStep(cfg: Config, s: State, uid: int, mail: string)
    requires uid in s.db.users && (cfg.ownerNullable || OwnsNone(s.db.secondFactor, uid))
    ensures Step(cfg, s, CodeCleared(uid, mail),
                 State(s.db.(secondFactor := Unowned(s.db.secondFactor, uid)), Invalidate(s.cache, uid, mail)))
  {
    hide Invalidate, Unowned;
  }

  /** After VerifyAccount committed there is no key of the user left to delete, and its devices are as before. */
  lemma VerifiedState(cfg: Config, s: State, code: string, row: int, uid: int, t: State)
    requires Step(cfg, s, Verified(code, row, uid, NoDevice), t)
    ensures uid in t.db.users && Invalidate(t.cache, uid, t.db.users[uid].mail) == t.cache
    ensures t.db.devices == s.db.devices && Visible(s.db, uid) && Visible(t.db, uid)
  {
    assert t.db.users[uid].mail == s.db.users[uid].mail;
    InvalidatedTwice(s.cache, uid, s.db.users[uid].mail);
    hide Invalidate, DeleteCode;
  }

  lemma ConsistentParts(db: Database)
    requires Consistent(db)
    ensures UniqueUsers(db.users) && UniqueDevices(db.devices) && UniqueSecondFactors(db.secondFactor)
    ensures UniqueCodes(db.activation) && UniqueCodes(db.verification) && UniqueCodes(db.reset)
    ensures DevicesLinked(db.devices, db.secondFactor)
    ensures forall uid :: uid in db.users ==> HasRow(db.settings, uid)
  {
  }

  class AuthService {
    const repo: UsersRepository

    /** The removals of expired codes that were started and have not run yet: user and mail. */
    var pending: seq<(int, string)>

    ghost predicate Valid()
      reads this, repo
    {
      repo.Valid()
    }

    /** The run so far is a beginning of the present one. */
    ghost predicate Extends(states: seq<State>, evs: seq<Event>)
      reads this, repo
    {
      states <= repo.states && evs <= repo.evs
    }

    /** Nothing happened. */
    ghost predicate Same(states: seq<State>, evs: seq<Event>, db: Database, cache: Cache)
      reads this, repo
    {
      states == repo.states && evs == repo.evs && db == repo.db && cache == repo.cache
    }

    constructor (repo: UsersRepository)
      requires repo.Valid()
      ensures this.repo == repo && Valid() && pending == []
    {
      this.repo := repo;
      pending := [];
    }

    /** The database the service runs on is consistent at all times. */
    lemma AlwaysConsistent()
      requires Valid()
      ensures Consistent(repo.db)
    {
      RunConsistent(repo.cfg, repo.states, repo.evs, |repo.evs|);
    }

    /** Whoever was registered at some point of the run is still there, with every flag that was set. */
    lemma FlagsKept(n: nat, uid: int)
      requires Valid() && n <= |repo.evs| && uid in repo.states[n].db.users
      ensures uid in repo.db.users
      ensures var u, u' := repo.states[n].db.users[uid], repo.db.users[uid];
        (u.active ==> u'.active) && (u.verified ==> u'.verified) && (u.removed ==> u'.removed)
    {
      hide Consistent, Step;
      FlagsStay(repo.cfg, repo.states, repo.evs, n, |repo.evs|, uid);
    }

    /** A registration commits exactly when no statement fails and every constraint holds. */
    method Register(rows: NewRows, mail: string, name: string, password: string, salt: seq<Byte>, token: string,
                    env: Env)
      returns (answer: Answer)
      requires Valid() && Codes.AllDraws(env.draws)
      modifies repo
      ensures Valid() && Extends(old(repo.states), old(repo.evs))
      ensures !answer.Refused? <==>
        var drawn := Drawn(old(repo.db.activation), env.draws, env.lost);
        && !env.hashFails && NoFault(env.fault, 5) && !env.fault(6) && drawn.Some?
        && Allowed(repo.cfg, old(repo.db), Registered(rows, mail, name, password, salt, token, drawn.value))
      ensures !answer.Refused? ==> answer == if env.fault(5) then Panic else Accepted
      ensures answer.Refused? ==> Same(old(repo.states), old(repo.evs), old(repo.db), old(repo.cache))
      ensures !answer.Refused? ==>
        repo.evs == old(repo.evs) +
          [Registered(rows, mail, name, password, salt, token,
                      Drawn(old(repo.db.activation), env.draws, env.lost).value)]
    {
      AlwaysConsistent();
      ConsistentParts(repo.db);
      hide Consistent, UniqueUsers, UniqueDevices, UniqueSecondFactors, UniqueCodes, DevicesLinked, NoFault, Run, Drawn,
        PasswordFree, CodeFree, Codes.TokenFormat;
      var found := repo.GetUserByMail(mail, env.lookupFails);
      if found.Ok? || env.hashFails {
        return Refused;
      }
      var created := repo.CreateUser(rows, mail, name, password, salt, token, env.draws, env.lost, env.fault);
      if created.Err? {
        return Refused;
      }
      repo.Record(Registered(rows, mail, name, password, salt, token, created.value.value));
      return if created.value.panics then Panic else Accepted;
    }

    method ActivateAccount(code: string, env: Env) returns (answer: Answer)
      requires Valid()
      modifies repo
      ensures Valid() && Extends(old(repo.states), old(repo.evs))
      ensures answer == Accepted <==>
        NoFault(env.fault, 5) && exists row, uid :: Allowed(repo.cfg, old(repo.db), Activated(code, row, uid))
      ensures answer == Accepted || answer == Refused
      ensures answer.Refused? ==> Same(old(repo.states), old(repo.evs), old(repo.db), old(repo.cache))
      ensures answer.Accepted? ==> exists row, uid :: repo.evs == old(repo.evs) + [Activated(code, row, uid)]
    {
      AlwaysConsistent();
      ConsistentParts(repo.db);
      hide Consistent, Step, Run, Allowed, NoFault, UniqueUsers, UniqueDevices, UniqueSecondFactors, UniqueCodes,
        DevicesLinked;
      var r := repo.ActivateAccount(code, env.fault);
      if r.Err? {
        return Refused;
      }
      repo.Record(Activated(code, r.value.0, r.value.1));
      return Accepted;
    }

    /** The code of a two-factor login. */
    method SendCode(ghost s: State, mail: string, password: string, uid: int, token: string, device: int, env: Env)
      returns (answer: Answer)
      requires Run(repo.cfg, repo.states, repo.evs) && Consistent(repo.states[0].db) && repo.states[|repo.evs|] == s
      requires PassesLogin(repo.cfg, s.db, uid, mail, password) && TwoFactor(s.db, uid)
      requires DeviceTaken(s, uid, token, device, State(repo.db, repo.cache)) && Codes.AllDraws(env.draws)
      modifies repo
      ensures Valid() && Extends(old(repo.states), old(repo.evs))
      ensures answer ==
        if !CodeReady(s.db, uid, env) then Refused else if env.noticeFails then NoticeFailed else SecondFactorRequired
      ensures answer.Refused? ==>
        repo.evs == old(repo.evs) + [LoggedIn(mail, password, uid, token, device, DeviceOnly)]
      ensures !answer.Refused? ==>
        && DrawnCode(s.db, env).Some?
        && repo.evs == old(repo.evs) + [LoggedIn(mail, password, uid, token, device,
                                                 CodeSent(env.codeRow, DrawnCode(s.db, env).value, env.expiresAt))]
    {
      ghost var t := State(repo.db, repo.cache);
      SameCodes(s.db, repo.db, uid, env);
      hide DeviceFor, AddDevice, LinkDevice, TwoFactor, PassesLogin, Consistent, Step, SecondFactorFree, Run,
        Codes.AllDraws, NoFault, Invalidate, SecondFactorCodes, Codes.FirstFree, Codes.TokenFormat;
      assert uid in repo.db.users && device in repo.db.devices;
      var code := repo.CreateSecondFactorCode(uid, device, env.codeRow, env.expiresAt, env.draws, env.fault);
      if code.Err? {
        LoginStep(repo.cfg, s, mail, password, uid, token, device, DeviceOnly, t);
        repo.Record(LoggedIn(mail, password, uid, token, device, DeviceOnly));
        return Refused;
      }
      var end := CodeSent(env.codeRow, code.value, env.expiresAt);
      CodeStep(repo.cfg, s, mail, password, uid, token, device, end, t, State(repo.db, repo.cache));
      repo.Record(LoggedIn(mail, password, uid, token, device, end));
      return if env.noticeFails then NoticeFailed else SecondFactorRequired;
    }

    /** Once the password is right and the device is there: a code for a two-factor account, else a token. */
    method FinishLogin(ghost s: State, mail: string, password: string, uid: int, token: string, device: int,
                       twoFactor: bool, env: Env)
      returns (answer: Answer)
      requires Run(repo.cfg, repo.states, repo.evs) && Consistent(repo.states[0].db) && repo.states[|repo.evs|] == s
      requires PassesLogin(repo.cfg, s.db, uid, mail, password) && twoFactor == TwoFactor(s.db, uid)
      requires DeviceTaken(s, uid, token, device, State(repo.db, repo.cache)) && Codes.AllDraws(env.draws)
      modifies repo
      ensures Valid() && Extends(old(repo.states), old(repo.evs))
      ensures answer ==
        if twoFactor then
          if !CodeReady(s.db, uid, env) then Refused else if env.noticeFails then NoticeFailed else SecondFactorRequired
        else if env.jwtFails then Refused else Token(uid, device)
      ensures answer.Refused? ==>
        repo.evs == old(repo.evs) + [LoggedIn(mail, password, uid, token, device, DeviceOnly)]
      ensures answer.Token? ==>
        repo.evs == old(repo.evs) + [LoggedIn(mail, password, uid, token, device, LoginToken)]
      ensures answer.SecondFactorRequired? || answer.NoticeFailed? ==>
        && DrawnCode(s.db, env).Some?
        && repo.evs == old(repo.evs) + [LoggedIn(mail, password, uid, token, device,
                                                 CodeSent(env.codeRow, DrawnCode(s.db, env).value, env.expiresAt))]
    {
      ghost var t := State(repo.db, repo.cache);
      SameCodes(s.db, repo.db, uid, env);
      hide DeviceFor, AddDevice, LinkDevice, TwoFactor, PassesLogin, Consistent, Step, SecondFactorFree, Run,
        Codes.AllDraws, NoFault, Invalidate, SecondFactorCodes, Codes.FirstFree, WithoutKeys;
      if twoFactor {
        answer := SendCode(s, mail, password, uid, token, device, env);
        return;
      }
      if env.jwtFails {
        LoginStep(repo.cfg, s, mail, password, uid, token, device, DeviceOnly, t);
        repo.Record(LoggedIn(mail, password, uid, token, device, DeviceOnly));
        return Refused;
      }
      LoginStep(repo.cfg, s, mail, password, uid, token, device, LoginToken, t);
      repo.Record(LoggedIn(mail, password, uid, token, device, LoginToken));
      return Token(uid, device);
    }

    /** What Login answers to a user whose password is right and whose device is there. */
    ghost predicate AnswersLogin(answer: Answer, db: Database, uid: int, env: Env) {
      if TwoFactor(db, uid) then
        answer == if !CodeReady(db, uid, env) then Refused
                  else if env.noticeFails then NoticeFailed
                  else SecondFactorRequired
      else if env.jwtFails then answer == Refused
      else answer.Token? && answer.uid == uid
    }

    /** The one active user with this mail and this password. */
    method CheckPassword(mail: string, password: string, env: Env) returns (r: Option<int>)
      requires Valid()
      ensures r.Some? ==> !env.lookupFails && PassesLogin(repo.cfg, repo.db, r.value, mail, password)
      ensures r.Some? ==> forall uid :: PassesLogin(repo.cfg, repo.db, uid, mail, password) ==> uid == r.value
      ensures r.None? ==> env.lookupFails || forall uid :: !PassesLogin(repo.cfg, repo.db, uid, mail, password)
    {
      AlwaysConsistent();
      ConsistentParts(repo.db);
      hide Consistent, Run, UniqueDevices, UniqueSecondFactors, UniqueCodes, DevicesLinked;
      var found := repo.GetUserByMail(mail, env.lookupFails);
      if found.Err? {
        return None;
      }
      var user := repo.db.users[found.value];
      if user.blacklisted || !user.active || !repo.cfg.accepts(user.password, password) {
        return None;
      }
      return Some(found.value);
    }

    /** The login of a user whose password is right. */
    method LoginAs(uid: int, mail: string, password: string, token: string, env: Env) returns (answer: Answer)
      requires Valid() && Codes.AllDraws(env.draws) && PassesLogin(repo.cfg, repo.db, uid, mail, password)
      modifies repo
      ensures Valid() && Extends(old(repo.states), old(repo.evs))
      ensures DeviceReady(old(repo.db), uid, token, env.deviceRow, env.deviceFault) ==>
        AnswersLogin(answer, old(repo.db), uid, env)
      ensures !DeviceReady(old(repo.db), uid, token, env.deviceRow, env.deviceFault) ==>
        (answer.Refused? || answer.Panic?)
      ensures repo.evs == old(repo.evs) ==> Same(old(repo.states), old(repo.evs), old(repo.db), old(repo.cache))
      ensures answer.Refused? || answer.Panic? ==>
        || repo.evs == old(repo.evs)
        || repo.evs == old(repo.evs) + [Invalidated(uid)]
        || (exists device ::
              repo.evs == old(repo.evs) + [LoggedIn(mail, password, uid, token, device, DeviceOnly)])
      ensures answer.Token? ==> answer.uid == uid && !TwoFactor(old(repo.db), uid)
      ensures answer.Token? ==>
        repo.evs == old(repo.evs) + [LoggedIn(mail, password, uid, token, answer.device, LoginToken)]
      ensures answer.SecondFactorRequired? || answer.NoticeFailed? ==>
        TwoFactor(old(repo.db), uid) && DrawnCode(old(repo.db), env).Some?
      ensures answer.SecondFactorRequired? || answer.NoticeFailed? ==> exists device ::
        repo.evs == old(repo.evs) + [LoggedIn(mail, password, uid, token, device,
                                              CodeSent(env.codeRow, DrawnCode(old(repo.db), env).value, env.expiresAt))]
      ensures !answer.Accepted?
    {
      AlwaysConsistent();
      ConsistentParts(repo.db);
      assert uid in repo.db.users;
      ghost var s := State(repo.db, repo.cache);
      hide Consistent, Run, Step, TwoFactor, DeviceReady, CodeReady, Codes.AllDraws, Invalidate, DeviceFor, AddDevice,
        PassesLogin, UniqueUsers, UniqueDevices, UniqueSecondFactors, UniqueCodes, DevicesLinked, Visible, TookDevice,
        DeviceExists, NoFault, DrawnCode;
      var twoFactor := TwoFactor(repo.db, uid);
      var device := repo.FindOrCreateDevice(uid, token, env.deviceRow, env.deviceFault);
      if device.Err? {
        if repo.cache != old(repo.cache) {
          InvalidatedStep(repo.cfg, s, uid);
          repo.Record(Invalidated(uid));
        }
        return if device.error == NilUser then Panic else Refused;
      }
      assert DeviceTaken(s, uid, token, device.value, State(repo.db, repo.cache));
      hide DeviceTaken;
      answer := FinishLogin(s, mail, password, uid, token, device.value, twoFactor, env);
    }

    /** A token only without two-factor; with it, at most a code is sent. */
    method Login(mail: string, password: string, token: string, env: Env) returns (answer: Answer)
      requires Valid() && Codes.AllDraws(env.draws)
      modifies repo
      ensures Valid() && Extends(old(repo.states), old(repo.evs))
      ensures !env.lookupFails ==> forall uid ::
        PassesLogin(repo.cfg, old(repo.db), uid, mail, password)
        && DeviceReady(old(repo.db), uid, token, env.deviceRow, env.deviceFault) ==>
          AnswersLogin(answer, old(repo.db), uid, env)
      ensures answer.Token? || answer.SecondFactorRequired? || answer.NoticeFailed? ==> !env.lookupFails
      ensures answer.Token? || answer.SecondFactorRequired? || answer.NoticeFailed? ==> exists uid ::
        PassesLogin(repo.cfg, old(repo.db), uid, mail, password)
        && DeviceReady(old(repo.db), uid, token, env.deviceRow, env.deviceFault)
      ensures (forall uid :: !PassesLogin(repo.cfg, old(repo.db), uid, mail, password)) ==>
        answer == Refused && Same(old(repo.states), old(repo.evs), old(repo.db), old(repo.cache))
      ensures repo.evs == old(repo.evs) ==> Same(old(repo.states), old(repo.evs), old(repo.db), old(repo.cache))
      ensures answer.Refused? || answer.Panic? ==>
        || repo.evs == old(repo.evs)
        || (exists uid :: repo.evs == old(repo.evs) + [Invalidated(uid)])
        || (exists uid, device ::
              repo.evs == old(repo.evs) + [LoggedIn(mail, password, uid, token, device, DeviceOnly)])
      ensures answer.Token? ==>
        repo.evs == old(repo.evs) + [LoggedIn(mail, password, answer.uid, token, answer.device, LoginToken)]
      ensures answer.SecondFactorRequired? || answer.NoticeFailed? ==> DrawnCode(old(repo.db), env).Some?
      ensures answer.SecondFactorRequired? || answer.NoticeFailed? ==> exists uid, device ::
        repo.evs == old(repo.evs) + [LoggedIn(mail, password, uid, token, device,
                                              CodeSent(env.codeRow, DrawnCode(old(repo.db), env).value, env.expiresAt))]
      ensures answer.SecondFactorRequired? || answer.NoticeFailed? ==> exists uid ::
        && UserThere(old(repo.db), uid) && SecondFactorOn(old(repo.db), uid)
        && old(repo.db).users[uid].active && old(repo.db).users[uid].mail == mail
        && repo.cfg.accepts(old(repo.db).users[uid].password, password)
      ensures answer.Token? ==> UserThere(old(repo.db), answer.uid) && TokenColumns(old(repo.db), answer.uid, mail)
      ensures answer.Token? ==> repo.cfg.accepts(old(repo.db).users[answer.uid].password, password)
    {
      var checked := CheckPassword(mail, password, env);
      if checked.None? {
        return Refused;
      }
      LoginAccepted(repo.cfg, repo.db, checked.value, mail, password);
      hide Consistent, Run, Step, TwoFactor, DeviceReady, CodeReady, Codes.AllDraws, PassesLogin, SecondFactorOn,
        UserThere, DrawnCode;
      answer := LoginAs(checked.value, mail, password, token, env);
    }

    /** The token is issued whether or not the code can be removed.  An expired code is refused, and its removal
        started on its own thread. */
    method VerifySecondFactor(code: string, env: Env) returns (answer: Answer)
      requires Valid()
      modifies repo, this`pending
      ensures Valid() && Extends(old(repo.states), old(repo.evs))
      ensures answer.Token? || answer.Refused?
      ensures answer.Token? <==> !env.lookupFails && !env.jwtFails && exists row, uid, device ::
        CodeUsable(old(repo.db), code, row, uid, env.now, device)
      ensures answer.Token? ==> exists row ::
        && CodeUsable(old(repo.db), code, row, answer.uid, env.now, answer.device)
        && repo.evs == old(repo.evs) + [CodeVerified(code, row, answer.uid, env.now, answer.device,
                                                     repo.cfg.ownerNullable && NoFault(env.fault, 2))]
      ensures answer.Refused? ==> Same(old(repo.states), old(repo.evs), old(repo.db), old(repo.cache))
      ensures pending != old(pending) ==> answer.Refused? && exists row, uid ::
        CodeTooLate(old(repo.db), code, row, uid, env.now)
        && pending == old(pending) + [(uid, old(repo.db).users[uid].mail)]
    {
      AlwaysConsistent();
      ConsistentParts(repo.db);
      hide Consistent, Run, Step, UniqueUsers, UniqueDevices, UniqueCodes, NoFault, Invalidate, Unowned;
      var found := repo.GetUserBySecondFactor(code, env.lookupFails);
      if found.Err? {
        return Refused;
      }
      var (row, uid) := found.value;
      CodeUsableOnce(repo.db, code, row, uid, env.now);
      hide UniqueSecondFactors, DevicesLinked;
      var mail := repo.db.users[uid].mail;
      if env.now > repo.db.secondFactor[row].expiresAt {
        assert CodeTooLate(repo.db, code, row, uid, env.now);
        pending := pending + [(uid, mail)];
        return Refused;
      }
      if device :| device in repo.db.devices && repo.db.devices[device].secondFactor == Some(row) {
        assert CodeUsable(repo.db, code, row, uid, env.now, device);
        if env.jwtFails {
          return Refused;
        }
        ghost var s := State(repo.db, repo.cache);
        assert !OwnsNone(repo.db.secondFactor, uid);
        var removed := repo.RemoveSecondFactorCode(uid, mail, env.fault);
        hide CodeUsable, OwnsNone;
        CodeUsedStep(repo.cfg, s, code, row, uid, env.now, device, removed, State(repo.db, repo.cache));
        repo.Record(CodeVerified(code, row, uid, env.now, device, removed));
        return Token(uid, device);
      }
      return Refused;
    }

    /** One of the started removals runs, after whatever else has happened since. */
    method RunRemoval(i: nat, env: Env)
      requires Valid() && i < |pending|
      modifies repo, this`pending
      ensures Valid() && Extends(old(repo.states), old(repo.evs))
      ensures pending == old(pending)[..i] + old(pending)[i + 1..]
      ensures repo.evs == old(repo.evs) ==> Same(old(repo.states), old(repo.evs), old(repo.db), old(repo.cache))
      ensures repo.evs != old(repo.evs) ==>
        repo.evs == old(repo.evs) + [CodeCleared(old(pending)[i].0, old(pending)[i].1)]
      ensures repo.evs != old(repo.evs) <==> var uid := old(pending)[i].0;
        && uid in old(repo.db.users) && NoFault(env.fault, 2)
        && (repo.cfg.ownerNullable || OwnsNone(old(repo.db.secondFactor), uid))
    {
      var (uid, mail) := pending[i];
      pending := pending[..i] + pending[i + 1..];
      if uid !in repo.db.users {
        return;
      }
      ghost var s := State(repo.db, repo.cache);
      hide Consistent, Run, Step, NoFault, Invalidate, Unowned, OwnsNone;
      var ok := repo.RemoveSecondFactorCode(uid, mail, env.fault);
      if ok {
        ClearedStep(repo.cfg, s, uid, mail);
        repo.Record(CodeCleared(uid, mail));
      }
    }

    /** Once the account is verified: the device, then the token. */
    method FinishVerification(ghost s: State, code: string, row: int, uid: int, token: string, env: Env)
      returns (answer: Answer)
      requires Run(repo.cfg, repo.states, repo.evs) && Consistent(repo.states[0].db) && repo.states[|repo.evs|] == s
      requires Step(repo.cfg, s, Verified(code, row, uid, NoDevice), State(repo.db, repo.cache))
      requires UniqueDevices(s.db.devices)
      modifies repo
      ensures Valid() && Extends(old(repo.states), old(repo.evs))
      ensures answer.Token? <==> !env.jwtFails && DeviceReady(s.db, uid, token, env.deviceRow, env.deviceFault)
      ensures answer.Token? ==> answer.uid == uid
      ensures answer.Token? ==>
        repo.evs == old(repo.evs) + [Verified(code, row, uid, VerifiedDevice(token, answer.device, true))]
      ensures answer.Token? || answer.Refused? || answer.Panic?
      ensures exists end :: repo.evs == old(repo.evs) + [Verified(code, row, uid, end)]
    {
      ghost var t := State(repo.db, repo.cache);
      VerifiedState(repo.cfg, s, code, row, uid, t);
      assert DeviceReady(t.db, uid, token, env.deviceRow, env.deviceFault) ==
        DeviceReady(s.db, uid, token, env.deviceRow, env.deviceFault);
      hide Consistent, Step, Run, UniqueDevices, Invalidate, NoFault, DeviceFor, AddDevice, DeviceReady, Visible,
        DeviceExists, TookDevice;
      var device := repo.FindOrCreateDevice(uid, token, env.deviceRow, env.deviceFault);
      if device.Err? {
        repo.Record(Verified(code, row, uid, NoDevice));
        return if device.error == NilUser then Panic else Refused;
      }
      VerifiedStep(repo.cfg, s, code, row, uid, t, token, device.value, !env.jwtFails, State(repo.db, repo.cache));
      repo.Record(Verified(code, row, uid, VerifiedDevice(token, device.value, !env.jwtFails)));
      return if env.jwtFails then Refused else Token(uid, device.value);
    }

    method VerifyAccount(code: string, token: string, env: Env) returns (answer: Answer)
      requires Valid()
      modifies repo
      ensures Valid() && Extends(old(repo.states), old(repo.evs))
      ensures answer.Token? || answer.Panic? || answer.Refused?
      ensures answer.Panic? ==> exists row, uid :: Allowed(repo.cfg, old(repo.db), Verified(code, row, uid, NoDevice))
      ensures answer.Token? <==>
        && Verifies(repo.cfg, old(repo.db), code, env) && !env.fault(3) && !env.jwtFails
        && exists row, uid ::
             && Allowed(repo.cfg, old(repo.db), Verified(code, row, uid, NoDevice))
             && DeviceReady(old(repo.db), uid, token, env.deviceRow, env.deviceFault)
      ensures repo.evs != old(repo.evs) <==> Verifies(repo.cfg, old(repo.db), code, env)
      ensures repo.evs == old(repo.evs) ==> Same(old(repo.states), old(repo.evs), old(repo.db), old(repo.cache))
      ensures repo.evs != old(repo.evs) ==> exists row, uid, end ::
        repo.evs == old(repo.evs) + [Verified(code, row, uid, end)]
      ensures answer.Token? ==> exists row ::
        repo.evs == old(repo.evs) + [Verified(code, row, answer.uid, VerifiedDevice(token, answer.device, true))]
    {
      AlwaysConsistent();
      ConsistentParts(repo.db);
      OneVerification(repo.cfg, repo.db, code);
      hide Consistent, Run, UniqueUsers, UniqueCodes, UniqueDevices, UniqueSecondFactors, DevicesLinked, Step, Allowed,
        NoFault, DeviceReady;
      var done := repo.VerifyAccount(code, env.fault);
      if done.Err? {
        return if done.error == NilUser then Panic else Refused;
      }
      var (row, uid) := done.value.value;
      assert Allowed(repo.cfg, old(repo.db), Verified(code, row, uid, NoDevice)) by {
        VerifiedAllowed(repo.cfg, old(State(repo.db, repo.cache)), code, row, uid, done.value.panics,
                        State(repo.db, repo.cache));
      }
      if done.value.panics {
        repo.Record(Verified(code, row, uid, Panicked));
        return Panic;
      }
      answer := FinishVerification(old(State(repo.db, repo.cache)), code, row, uid, token, env);
    }

    lemma VerifiedAllowed(cfg: Config, s: State, code: string, row: int, uid: int, panics: bool, t: State)
      requires Step(cfg, s, Verified(code, row, uid, if panics then Panicked else NoDevice), t)
      ensures Allowed(cfg, s.db, Verified(code, row, uid, NoDevice))
    {
    }

    lemma OneVerification(cfg: Config, db: Database, code: string)
      requires UniqueCodes(db.verification)
      ensures forall r, u, r', u' ::
        Allowed(cfg, db, Verified(code, r, u, NoDevice)) && Allowed(cfg, db, Verified(code, r', u', NoDevice)) ==>
          r == r' && u == u'
    {
    }

    lemma OneRequest(cfg: Config, db: Database, mail: string, uid: int)
      requires UniqueUsers(db.users) && Visible(db, uid) && db.users[uid].mail == mail
      ensures forall u, row, code :: Allowed(cfg, db, ResetRequested(mail, u, row, code)) ==> u == uid
    {
    }

    method RequestPasswordReset(mail: string, env: Env) returns (answer: Answer)
      requires Valid() && Codes.AllDraws(env.draws)
      modifies repo
      ensures Valid() && Extends(old(repo.states), old(repo.evs))
      ensures !answer.Refused? <==>
        var drawn := Drawn(old(repo.db.reset), env.draws, env.lost);
        && !env.lookupFails && NoFault(env.fault, 2) && drawn.Some?
        && exists uid :: Allowed(repo.cfg, old(repo.db), ResetRequested(mail, uid, env.codeRow, drawn.value))
      ensures !answer.Refused? ==> answer == if env.noticeFails then NoticeFailed else Accepted
      ensures answer.Refused? ==> Same(old(repo.states), old(repo.evs), old(repo.db), old(repo.cache))
      ensures !answer.Refused? ==> exists uid ::
        repo.evs == old(repo.evs) +
          [ResetRequested(mail, uid, env.codeRow, Drawn(old(repo.db.reset), env.draws, env.lost).value)]
    {
      AlwaysConsistent();
      ConsistentParts(repo.db);
      hide Consistent, Run, UniqueDevices, UniqueSecondFactors, UniqueCodes, DevicesLinked, NoFault, Drawn, CodeFree,
        OwnerFree, Codes.TokenFormat;
      var found := repo.GetUserByMail(mail, env.lookupFails);
      if found.Err? {
        return Refused;
      }
      OneRequest(repo.cfg, repo.db, mail, found.value);
      hide UniqueUsers, Allowed, Visible, NewDatabase;
      var created := repo.CreateResetCode(found.value, env.codeRow, env.draws, env.lost, env.fault);
      if created.Err? {
        return Refused;
      }
      hide Step;
      repo.Record(ResetRequested(mail, found.value, env.codeRow, created.value));
      return if env.noticeFails then NoticeFailed else Accepted;
    }

    /** Removes the reset code a user was loaded with. */
    method FinishReset(uid: int, edge: Option<int>, env: Env) returns (answer: Answer)
      requires Valid() && uid in repo.db.users
      requires edge.Some? && edge.value in repo.db.reset ==> repo.db.reset[edge.value].owner == uid
      modifies repo
      ensures Valid() && Extends(old(repo.states), old(repo.evs))
      ensures answer == Accepted <==>
        NoFault(env.resetFault, 3) && edge.Some? && edge.value in old(repo.db.reset) && Visible(old(repo.db), uid)
      ensures answer == Accepted || answer == Refused
      ensures answer.Refused? ==> Same(old(repo.states), old(repo.evs), old(repo.db), old(repo.cache))
      ensures answer.Accepted? ==> repo.evs == old(repo.evs) + [ResetRemoved(uid, edge.value)]
    {
      hide Consistent, Run, Step, NoFault;
      var r := repo.RemoveResetCode(uid, edge, env.resetFault);
      if r.Err? {
        return Refused;
      }
      repo.Record(ResetRemoved(uid, edge.value));
      return Accepted;
    }

    /** Never succeeds: the user is looked up by mail, which does not load its reset code. */
    method CancelPasswordReset(mail: string, env: Env) returns (answer: Answer)
      requires Valid()
      modifies repo
      ensures Valid() && answer == Refused
      ensures Same(old(repo.states), old(repo.evs), old(repo.db), old(repo.cache))
    {
      AlwaysConsistent();
      ConsistentParts(repo.db);
      hide Consistent, Run, Step, UniqueUsers, UniqueDevices, UniqueSecondFactors, UniqueCodes, DevicesLinked, NoFault;
      var found := repo.GetUserByMail(mail, env.lookupFails);
      if found.Err? {
        return Refused;
      }
      var edge := repo.LoadResetCode(found.value, FunctionalData);
      answer := FinishReset(found.value, edge, env);
    }

    /** Sets the password and never succeeds all the same: the user is looked up by its reset code, but without
        loading it, so that there is none to remove. */
    method ConfirmPasswordReset(code: string, password: string, salt: seq<Byte>, env: Env) returns (answer: Answer)
      requires Valid()
      modifies repo
      ensures Valid() && Extends(old(repo.states), old(repo.evs))
      ensures answer == Refused
      ensures repo.evs == old(repo.evs) ==> Same(old(repo.states), old(repo.evs), old(repo.db), old(repo.cache))
      ensures |repo.evs| > |old(repo.evs)| + 1 <==>
        && !env.lookupFails && !env.hashFails && NoFault(env.fault, 2)
        && exists row, uid :: Allowed(repo.cfg, old(repo.db), PasswordChanged(code, row, uid, password, salt))
      ensures repo.evs != old(repo.evs) ==> exists row, uid ::
        && HoldsCode(old(repo.db.reset), row, code, uid)
        && (|| repo.evs == old(repo.evs) + [Cached(uid, false)]
            || repo.evs == old(repo.evs) + [Cached(uid, false)] + [PasswordChanged(code, row, uid, password, salt)])
    {
      AlwaysConsistent();
      ConsistentParts(repo.db);
      hide Consistent, Run, Step, UniqueUsers, UniqueDevices, UniqueSecondFactors, DevicesLinked, NoFault, WriteKeys;
      var found := repo.GetUserByCode(repo.db.reset, code, env.lookupFails);
      if found.Err? {
        return Refused;
      }
      var row := found.value;
      var uid := repo.db.reset[row].owner;
      assert HoldsCode(repo.db.reset, row, code, uid);
      OneReset(repo.cfg, repo.db, code, row, uid, password, salt);
      hide UniqueCodes, Allowed, Visible, HoldsCode;
      var edge := repo.LoadResetCode(uid, SettingsOnly);
      repo.UpdateCache(uid, false);
      CachedStep(repo.cfg, old(State(repo.db, repo.cache)), uid, State(repo.db, repo.cache));
      repo.Record(Cached(uid, false));
      answer := SetPassword(code, row, uid, edge, password, salt, env);
    }

    lemma OneReset(cfg: Config, db: Database, code: string, row: int, uid: int, password: string, salt: seq<Byte>)
      requires UniqueCodes(db.reset) && HoldsCode(db.reset, row, code, uid)
      ensures forall r, u :: Allowed(cfg, db, PasswordChanged(code, r, u, password, salt)) ==> r == row && u == uid
    {
    }

    /** The new password, and then the removal of the reset code that was loaded. */
    method SetPassword(code: string, row: int, uid: int, edge: Option<int>, password: string, salt: seq<Byte>, env: Env)
      returns (answer: Answer)
      requires Valid() && HoldsCode(repo.db.reset, row, code, uid) && Visible(repo.db, uid)
      requires edge.Some? ==> edge == Some(row)
      modifies repo
      ensures Valid() && Extends(old(repo.states), old(repo.evs))
      ensures edge.None? ==> answer == Refused
      ensures repo.evs != old(repo.evs) <==>
        && !env.hashFails && NoFault(env.fault, 2)
        && Allowed(repo.cfg, old(repo.db), PasswordChanged(code, row, uid, password, salt))
      ensures answer == Accepted <==> repo.evs != old(repo.evs) && edge.Some? && NoFault(env.resetFault, 3)
      ensures answer == Accepted || answer == Refused
      ensures answer.Accepted? ==>
        repo.evs == old(repo.evs) + [PasswordChanged(code, row, uid, password, salt)] + [ResetRemoved(uid, row)]
      ensures answer.Refused? && repo.evs != old(repo.evs) ==>
        repo.evs == old(repo.evs) + [PasswordChanged(code, row, uid, password, salt)]
    {
      hide Consistent, Run, NoFault;
      if env.hashFails {
        return Refused;
      }
      ghost var s := State(repo.db, repo.cache);
      var r := repo.UpdateUsersPassword(code, row, uid, password, salt, env.fault);
      if r.Err? {
        return Refused;
      }
      PasswordKeeps(repo.cfg, s, code, row, uid, password, salt, State(repo.db, repo.cache));
      hide Step, Allowed, HoldsCode, Visible;
      repo.Record(PasswordChanged(code, row, uid, password, salt));
      answer := FinishReset(uid, edge, env);
    }

    lemma PasswordKeeps(cfg: Config, s: State, code: string, row: int, uid: int, password: string, salt: seq<Byte>,
                        t: State)
      requires Step(cfg, s, PasswordChanged(code, row, uid, password, salt), t)
      ensures t.db.reset == s.db.reset && row in t.db.reset && t.db.reset[row].owner == uid && Visible(t.db, uid)
      ensures uid in t.db.users
    {
    }

    method UpdateUser(uid: int, mail: string, phone: string, env: Env) returns (answer: Answer)
      requires Valid()
      modifies repo
      ensures Valid() && Extends(old(repo.states), old(repo.evs))
      ensures !answer.Refused? <==>
        && !env.lookupFails && !env.fault(2) && Allowed(repo.cfg, old(repo.db), ProfileChanged(uid, mail, phone))
        && (!env.fault(0) ||
            (mail == old(repo.db).users[uid].mail && phone == PhoneText(old(repo.db).users[uid].phone)))
      ensures !answer.Refused? ==>
        answer == if env.fault(1) then Panic else if env.noticeFails then NoticeFailed else Accepted
      ensures answer.Refused? ==> Same(old(repo.states), old(repo.evs), old(repo.db), old(repo.cache))
      ensures !answer.Refused? ==> repo.evs == old(repo.evs) + [ProfileChanged(uid, mail, phone)]
    {
      if env.lookupFails || !Visible(repo.db, uid) {
        return Refused;
      }
      AlwaysConsistent();
      hide Consistent, Step, Run, MailFree, PhoneFree;
      var r := repo.UpdateUser(uid, mail, phone, env.fault);
      if r.Err? {
        return Refused;
      }
      repo.Record(ProfileChanged(uid, mail, phone));
      return if r.value.panics then Panic else if env.noticeFails then NoticeFailed else Accepted;
    }

    method UpdateSettings(uid: int, twoFactor: bool, env: Env) returns (answer: Answer)
      requires Valid()
      modifies repo
      ensures Valid() && Extends(old(repo.states), old(repo.evs))
      ensures answer == Accepted <==> !env.lookupFails && Visible(old(repo.db), uid) && NoFault(env.fault, 2)
      ensures answer == Accepted || answer == Refused
      ensures answer.Refused? ==> Same(old(repo.states), old(repo.evs), old(repo.db), old(repo.cache))
      ensures answer.Accepted? ==> exists row :: repo.evs == old(repo.evs) + [SettingsChanged(uid, row, twoFactor)]
    {
      if env.lookupFails || !Visible(repo.db, uid) {
        return Refused;
      }
      AlwaysConsistent();
      ConsistentParts(repo.db);
      hide Consistent, Step, Run, NoFault;
      var row :| row in repo.db.settings && repo.db.settings[row].owner == uid;
      var r := repo.UpdateUsersSettings(uid, row, twoFactor, env.fault);
      if r.Err? {
        return Refused;
      }
      repo.Record(SettingsChanged(uid, row, twoFactor));
      return Accepted;
    }

    method RemoveAccount(uid: int, env: Env) returns (answer: Answer)
      requires Valid()
      modifies repo
      ensures Valid() && Extends(old(repo.states), old(repo.evs))
      ensures answer == Accepted <==> !env.lookupFails && Visible(old(repo.db), uid) && NoFault(env.fault, 2)
      ensures answer == Panic <==> !env.lookupFails && Visible(old(repo.db), uid) && env.fault(0)
      ensures answer.Accepted? || answer.Panic? || answer.Refused?
      ensures !answer.Accepted? ==> Same(old(repo.states), old(repo.evs), old(repo.db), old(repo.cache))
      ensures answer.Accepted? ==> repo.evs == old(repo.evs) + [AccountRemoved(uid)]
    {
      if env.lookupFails || !Visible(repo.db, uid) {
        return Refused;
      }
      hide Consistent, Step, Run;
      var r := repo.RemoveAccount(uid, env.fault);
      if r.Err? {
        return if r.error == NilUser then Panic else Refused;
      }
      repo.Record(AccountRemoved(uid));
      return Accepted;
    }

    // ---------- any calls, one after another ----------

    /** A request, or one of the started removals having its turn. */
    method Serve(call: Call, env: Env) returns (answer: Answer)
      requires Valid() && Codes.AllDraws(env.draws)
      modifies repo, this`pending
      ensures Valid() && Extends(old(repo.states), old(repo.evs))
      ensures answer.Token? ==>
        |repo.evs| > |old(repo.evs)| && TokenOf(repo.evs[|old(repo.evs)|]) == Some((answer.uid, answer.device))
    {
      hide Consistent, Run, Step, Allowed, NoFault, Codes.AllDraws, CodeUsable, DeviceReady, Verifies, PassesLogin,
        AnswersLogin, Drawn;
      match call {
        case DoRegister(rows, mail, name, password, salt, token) =>
          answer := Register(rows, mail, name, password, salt, token, env);
        case DoActivate(code) => answer := ActivateAccount(code, env);
        case DoLogin(mail, password, token) => answer := Login(mail, password, token, env);
        case DoVerifySecondFactor(code) => answer := VerifySecondFactor(code, env);
        case DoVerify(code, token) => answer := VerifyAccount(code, token, env);
        case DoRequestReset(mail) => answer := RequestPasswordReset(mail, env);
        case DoCancelReset(mail) => answer := CancelPasswordReset(mail, env);
        case DoConfirmReset(code, password, salt) => answer := ConfirmPasswordReset(code, password, salt, env);
        case DoUpdateUser(uid, mail, phone) => answer := UpdateUser(uid, mail, phone, env);
        case DoUpdateSettings(uid, twoFactor) => answer := UpdateSettings(uid, twoFactor, env);
        case DoRemoveAccount(uid) => answer := RemoveAccount(uid, env);
        case RemovalRuns(i) =>
          if i < |pending| {
            RunRemoval(i, env);
          }
          answer := Accepted;
      }
    }

    /** After an account was removed, no calls, whatever they are, answer with a token for it. */
    method RemoveThenServe(uid: int, env: Env, calls: seq<(Call, Env)>) returns (removed: Answer, answers: seq<Answer>)
      requires Valid() && forall k :: 0 <= k < |calls| ==> Codes.AllDraws(calls[k].1.draws)
      modifies repo, this`pending
      ensures Valid() && Extends(old(repo.states), old(repo.evs))
      ensures |answers| == |calls|
      ensures removed.Accepted? ==> forall k :: 0 <= k < |answers| && answers[k].Token? ==> answers[k].uid != uid
    {
      hide Consistent, Run, Step, Codes.AllDraws;
      removed := RemoveAccount(uid, env);
      ghost var at := |old(repo.evs)|;
      answers := [];
      for k := 0 to |calls|
        invariant Valid() && Extends(old(repo.states), old(repo.evs)) && |answers| == k
        invariant removed.Accepted? ==> at < |repo.evs| && repo.evs[at] == AccountRemoved(uid)
        invariant removed.Accepted? ==> forall i :: 0 <= i < k && answers[i].Token? ==> answers[i].uid != uid
      {
        ghost var before := repo.evs;
        var answer := Serve(calls[k].0, calls[k].1);
        if removed.Accepted? {
          assert repo.evs[at] == before[at];
          if answer.Token? {
            NoTokenAfterRemoval(repo.cfg, repo.states, repo.evs, at, |before|);
          }
        }
        answers := answers + [answer];
      }
    }
  }
}
