/** Several calls of the account service in a row, as its users make them, with what they are answered in the
    end: each call does for the next one what it is there for. */
module AccountJourneys {
  import opened Wrappers
  import opened Base64
  import opened Accounts
  import opened AccountEffects
  import opened AccountInvariants
  import opened UsersRepository
  import opened AuthService
  import Codes

  /** The last call of a service appended one event: how it changed the state. */
  lemma LastStep(service: AuthService, states: seq<State>, evs: seq<Event>, ev: Event)
    requires service.Valid() && service.Extends(states, evs) && |states| == |evs| + 1
    requires service.repo.evs == evs + [ev]
    ensures Step(service.repo.cfg, states[|evs|], ev, State(service.repo.db, service.repo.cache))
  {
    hide Consistent, Step;
    assert service.repo.evs[|evs|] == ev;
  }

  // ---------- register, activate, log in ----------

  /** A user as registration leaves it, activated or not. */
  ghost predicate Newcomer(db: Database, rows: NewRows, mail: string, hash: string, token: string, active: bool) {
    && rows.user in db.users && rows.device in db.devices
    && db.users[rows.user].mail == mail && db.users[rows.user].password == hash
    && db.users[rows.user].active == active
    && !db.users[rows.user].blacklisted && !db.users[rows.user].removed
    && db.devices[rows.device].owner == rows.user && db.devices[rows.device].token == token
    && forall r :: r in db.settings && db.settings[r].owner == rows.user ==> !db.settings[r].value
  }

  lemma RegisteredNewcomer(cfg: Config, db: Database, ev: Event, db': Database)
    requires DbStep(cfg, db, ev, db') && ev.Registered? && Consistent(db)
    ensures Newcomer(db', ev.rows, ev.mail, cfg.hash(ev.password, ev.salt), ev.token, false)
    ensures ev.rows.activation in db'.activation
    ensures db'.activation[ev.rows.activation] == Owned(ev.rows.user, ev.code)
  {
    RegisteredEffect(cfg, db, ev, db');
    assert forall r :: r in db.settings ==> db.settings[r].owner in db.users.Keys;
    hide DbStep, Consistent;
  }

  lemma ActivatedNewcomer(cfg: Config, db: Database, ev: Event, db': Database, rows: NewRows, mail: string,
                          hash: string, token: string)
    requires DbStep(cfg, db, ev, db') && ev.Activated? && Consistent(db)
    requires Newcomer(db, rows, mail, hash, token, false)
    requires rows.activation in db.activation && db.activation[rows.activation] == Owned(rows.user, ev.code)
    ensures Newcomer(db', rows, mail, hash, token, true)
  {
    ActivatedEffect(cfg, db, ev, db');
    hide DbStep;
    assert UniqueCodes(db.activation);
    assert ev.row == rows.activation;
  }

  lemma InactivePasses(cfg: Config, db: Database, rows: NewRows, mail: string, hash: string, token: string,
                       active: bool, password: string)
    requires Newcomer(db, rows, mail, hash, token, active) && UniqueUsers(db.users)
    ensures forall uid :: PassesLogin(cfg, db, uid, mail, password) <==>
      uid == rows.user && active && cfg.accepts(hash, password)
    ensures !TwoFactor(db, rows.user)
  {
  }

  /** Nothing fails in a login from a known device. */
  predicate SmoothLogin(env: Env) {
    !env.lookupFails && !env.jwtFails && !env.deviceFault(0) && !env.deviceFault(3)
  }

  /** The login of a newcomer: a token for the user and the device of the registration, or nothing. */
  method NewcomerLogin(service: AuthService, rows: NewRows, mail: string, ghost hash: string, password: string,
                       token: string, ghost active: bool, env: Env)
    returns (answer: Answer)
    requires service.Valid() && Codes.AllDraws(env.draws)
    requires Newcomer(service.repo.db, rows, mail, hash, token, active)
    modifies service.repo
    ensures service.Valid() && service.Extends(old(service.repo.states), old(service.repo.evs))
    ensures !active || !service.repo.cfg.accepts(hash, password) ==>
      && answer == Refused
      && service.Same(old(service.repo.states), old(service.repo.evs), old(service.repo.db), old(service.repo.cache))
    ensures active && service.repo.cfg.accepts(hash, password) && SmoothLogin(env) ==>
      answer == Token(rows.user, rows.device)
  {
    ghost var cfg, db, states, evs := service.repo.cfg, service.repo.db, service.repo.states, service.repo.evs;
    service.AlwaysConsistent();
    ConsistentParts(db);
    InactivePasses(cfg, db, rows, mail, hash, token, active, password);
    assert DeviceExists(db, rows.user, token);
    assert SmoothLogin(env) ==> DeviceReady(db, rows.user, token, env.deviceRow, env.deviceFault);
    assert PassesLogin(cfg, db, rows.user, mail, password) <==> active && cfg.accepts(hash, password);
    hide Consistent, Run, Step, PassesLogin, TwoFactor, UniqueUsers, UniqueSecondFactors, UniqueCodes, DevicesLinked,
      CodeReady, UserThere, TokenColumns, DeviceReady;
    answer := service.Login(mail, password, token, env);
    if answer.Token? {
      var ev := LoggedIn(mail, password, answer.uid, token, answer.device, LoginToken);
      LastStep(service, states, evs, ev);
      TokenDevice(cfg, State(db, old(service.repo.cache)), ev, State(service.repo.db, service.repo.cache), rows.device);
    }
  }

  lemma TokenDevice(cfg: Config, s: State, ev: Event, t: State, device: int)
    requires Step(cfg, s, ev, t) && ev.LoggedIn? && ev.loginEnd.LoginToken? && UniqueDevices(s.db.devices)
    requires device in s.db.devices && s.db.devices[device].owner == ev.uid && s.db.devices[device].token == ev.token
    ensures ev.device == device
  {
    assert DeviceFor(s.db, ev.uid, ev.token, ev.device);
    hide Step;
  }

  /** Who registers is refused until the account is activated with the issued code, and then gets a token for
      the device of the registration. */
  method RegisterActivateLogin(service: AuthService, rows: NewRows, mail: string, name: string, password: string,
                               salt: seq<Byte>, token: string, envs: seq<Env>)
    returns (registered: Answer, early: Answer, activated: Answer, late: Answer)
    requires service.Valid() && |envs| == 4 && forall i :: 0 <= i < 4 ==> Codes.AllDraws(envs[i].draws)
    modifies service.repo
    ensures service.Valid()
    ensures early == Refused
    ensures registered.Accepted? ==> (activated == Accepted <==> NoFault(envs[2].fault, 5))
    ensures var cfg := service.repo.cfg;
      activated.Accepted? && SmoothLogin(envs[3]) && cfg.accepts(cfg.hash(password, salt), password) ==>
        late == Token(rows.user, rows.device)
  {
    early, activated, late := Refused, Refused, Refused;
    ghost var cfg, states, evs := service.repo.cfg, service.repo.states, service.repo.evs;
    ghost var hash := cfg.hash(password, salt);
    service.AlwaysConsistent();
    var code := Codes.DrawCode(envs[0].draws, CodesOf(service.repo.db.activation), envs[0].lost);
    hide Consistent, Run, Step, Newcomer, NoFault, Allowed, UserThere, CodeThere, WithoutCode, Codes.AllDraws;
    registered := service.Register(rows, mail, name, password, salt, token, envs[0]);
    if !registered.Accepted? {
      return;
    }
    var ev := Registered(rows, mail, name, password, salt, token, code.value);
    LastStep(service, states, evs, ev);
    RegisteredNewcomerStep(cfg, states[|evs|], ev, State(service.repo.db, service.repo.cache));
    early := NewcomerLogin(service, rows, mail, hash, password, token, false, envs[1]);

    service.AlwaysConsistent();
    ghost var db, states', evs' := service.repo.db, service.repo.states, service.repo.evs;
    NewcomerCode(cfg, db, rows, mail, hash, token, code.value);
    activated := service.ActivateAccount(code.value, envs[2]);
    if !activated.Accepted? {
      return;
    }
    ActivatedNewcomerStep(service, states', evs', db, rows, mail, hash, token, code.value);
    late := NewcomerLogin(service, rows, mail, hash, password, token, true, envs[3]);
  }

  lemma RegisteredNewcomerStep(cfg: Config, s: State, ev: Event, t: State)
    requires Step(cfg, s, ev, t) && ev.Registered? && Consistent(s.db)
    ensures Newcomer(t.db, ev.rows, ev.mail, cfg.hash(ev.password, ev.salt), ev.token, false)
    ensures ev.rows.activation in t.db.activation
    ensures t.db.activation[ev.rows.activation] == Owned(ev.rows.user, ev.code)
  {
    assert DbStep(cfg, s.db, ev, t.db);
    hide Step, DbStep, Consistent;
    RegisteredNewcomer(cfg, s.db, ev, t.db);
  }

  lemma NewcomerCode(cfg: Config, db: Database, rows: NewRows, mail: string, hash: string, token: string,
                     code: string)
    requires Newcomer(db, rows, mail, hash, token, false)
    requires rows.activation in db.activation && db.activation[rows.activation] == Owned(rows.user, code)
    ensures exists row, uid :: Allowed(cfg, db, Activated(code, row, uid))
  {
    assert Allowed(cfg, db, Activated(code, rows.activation, rows.user));
  }

  lemma ActivatedNewcomerStep(service: AuthService, states: seq<State>, evs: seq<Event>, db: Database, rows: NewRows,
                              mail: string, hash: string, token: string, code: string)
    requires service.Valid() && service.Extends(states, evs) && |states| == |evs| + 1
    requires exists row, uid :: service.repo.evs == evs + [Activated(code, row, uid)]
    requires states[|evs|].db == db && Consistent(db) && Newcomer(db, rows, mail, hash, token, false)
    requires rows.activation in db.activation && db.activation[rows.activation] == Owned(rows.user, code)
    ensures Newcomer(service.repo.db, rows, mail, hash, token, true)
  {
    var row, uid :| service.repo.evs == evs + [Activated(code, row, uid)];
    LastStep(service, states, evs, Activated(code, row, uid));
    hide Consistent, Newcomer, Run;
    ActivatedNewcomer(service.repo.cfg, db, Activated(code, row, uid), service.repo.db, rows, mail, hash, token);
  }

  // ---------- two-factor login ----------

  lemma SentState(cfg: Config, s: State, ev: Event, t: State)
    requires Step(cfg, s, ev, t) && SendsCode(ev)
    ensures t.db.devices.Keys == s.db.devices.Keys + {ev.device}
    ensures t.db.devices[ev.device] == Device(ev.uid, ev.token, Some(ev.loginEnd.row))
    ensures ev.loginEnd.row in t.db.secondFactor
    ensures t.db.secondFactor[ev.loginEnd.row] == SecondFactor(ev.loginEnd.code, Some(ev.uid), ev.loginEnd.expiresAt)
    ensures Visible(t.db, ev.uid) && t.db.users[ev.uid].mail == ev.mail
  {
    SentEffect(cfg, s.db, ev, t.db);
  }

  /** After a login that sent a code, the code is usable from the device of that login exactly until it expires,
      and from no other one. */
  lemma SentCodeUsable(cfg: Config, s: State, ev: Event, t: State, now: int)
    requires Step(cfg, s, ev, t) && SendsCode(ev) && Consistent(s.db)
    ensures ev.device in t.db.devices
    ensures t.db.devices[ev.device] == Device(ev.uid, ev.token, Some(ev.loginEnd.row))
    ensures now <= ev.loginEnd.expiresAt <==>
      CodeUsable(t.db, ev.loginEnd.code, ev.loginEnd.row, ev.uid, now, ev.device)
    ensures forall r, u, d :: CodeUsable(t.db, ev.loginEnd.code, r, u, now, d) ==>
      r == ev.loginEnd.row && u == ev.uid && d == ev.device
  {
    var code, row := ev.loginEnd.code, ev.loginEnd.row;
    SentState(cfg, s, ev, t);
    assert UniqueSecondFactors(t.db.secondFactor) && DevicesLinked(t.db.devices, t.db.secondFactor) by {
      StepConsistent(cfg, s.db, ev, t.db);
      ConsistentParts(t.db);
    }
    hide Step, Consistent;
    CodeUsableOnce(t.db, code, row, ev.uid, now);
    hide UniqueSecondFactors, DevicesLinked;
    forall r, u, d | CodeUsable(t.db, code, r, u, now, d)
      ensures r == row && u == ev.uid && d == ev.device
    {
      assert CodeUsable(t.db, code, row, ev.uid, now, ev.device);
    }
  }

  /** A two-factor login and then the code it sent: a token, for the device of this owner and this token, exactly
      when the code has not expired and lookup and signing succeed. */
  method LoginThenSecondFactor(service: AuthService, mail: string, password: string, token: string, login: Env,
                               later: Env)
    returns (first: Answer, second: Answer)
    requires service.Valid() && Codes.AllDraws(login.draws)
    modifies service.repo, service`pending
    ensures service.Valid()
    ensures first.SecondFactorRequired? || first.NoticeFailed? ==>
      (second.Token? <==> later.now <= login.expiresAt && !later.lookupFails && !later.jwtFails)
    ensures second.Token? ==>
      && second.uid in service.repo.db.users && service.repo.db.users[second.uid].mail == mail
      && second.device in service.repo.db.devices
      && service.repo.db.devices[second.device].owner == second.uid
      && service.repo.db.devices[second.device].token == token
  {
    second := Refused;
    ghost var cfg, states, evs := service.repo.cfg, service.repo.states, service.repo.evs;
    ghost var s := State(service.repo.db, service.repo.cache);
    service.AlwaysConsistent();
    var code := Codes.DrawCode(login.draws, SecondFactorCodes(service.repo.db), _ => false);
    hide Consistent, Run, Step, PassesLogin, TwoFactor, CodeReady, UserThere, TokenColumns, DeviceReady, CodeUsable,
      Codes.FirstUnreported, Codes.AllDraws;
    first := service.Login(mail, password, token, login);
    if !first.SecondFactorRequired? && !first.NoticeFailed? {
      return;
    }
    assert code == DrawnCode(s.db, login);
    ghost var uid, device :| service.repo.evs == evs + [LoggedIn(mail, password, uid, token, device,
                                                                 CodeSent(login.codeRow, code.value, login.expiresAt))];
    ghost var ev := LoggedIn(mail, password, uid, token, device,
                             CodeSent(login.codeRow, code.value, login.expiresAt));
    ghost var t := State(service.repo.db, service.repo.cache);
    LastStep(service, states, evs, ev);
    SentCodeUsable(cfg, s, ev, t, later.now);
    SentState(cfg, s, ev, t);
    ghost var states', evs' := service.repo.states, service.repo.evs;
    second := service.VerifySecondFactor(code.value, later);
    if second.Token? {
      ghost var row :| service.repo.evs == evs' + [CodeVerified(code.value, row, second.uid, later.now, second.device,
                                                                cfg.ownerNullable && NoFault(later.fault, 2))];
      ghost var used := CodeVerified(code.value, row, second.uid, later.now, second.device,
                                     cfg.ownerNullable && NoFault(later.fault, 2));
      LastStep(service, states', evs', used);
      TokenKeepsUsers(cfg, t, used, State(service.repo.db, service.repo.cache));
    }
  }

  lemma TokenKeepsUsers(cfg: Config, s: State, ev: Event, t: State)
    requires Step(cfg, s, ev, t) && ev.CodeVerified?
    ensures t.db.users == s.db.users && t.db.devices == s.db.devices
  {
    if ev.removed {
      ClearedEffect(cfg, s.db, ev, t.db);
    } else {
      TokenEffect(cfg, s.db, ev, t.db);
    }
    hide Step;
  }

  // ---------- settings and verification ----------

  lemma SettingsRow(cfg: Config, s: State, ev: Event, t: State)
    requires Step(cfg, s, ev, t) && ev.SettingsChanged? && Consistent(s.db)
    ensures t.db.users == s.db.users
    ensures SecondFactorOn(t.db, ev.uid) <==> ev.twoFactor
  {
    SettingsEffect(cfg, s.db, ev, t.db);
    assert OneRowEach(s.db.users.Keys, s.db.settings);
    hide Step, Consistent;
    if ev.twoFactor {
      assert t.db.settings[ev.row].owner == ev.uid;
    }
  }

  /** What the settings ask for is what the next login does: a token only with two-factor off, and a code only
      with it on. */
  method SetTwoFactorThenLogin(service: AuthService, uid: int, on: bool, mail: string, password: string, token: string,
                               settings: Env, login: Env)
    returns (first: Answer, second: Answer)
    requires service.Valid() && Codes.AllDraws(login.draws)
    modifies service.repo
    ensures service.Valid()
    ensures first.Accepted? && second.Token? && second.uid == uid ==> !on
    ensures first.Accepted? ==> uid in old(service.repo.db).users
    ensures first.Accepted? && (second.SecondFactorRequired? || second.NoticeFailed?) ==>
      (old(service.repo.db).users[uid].mail == mail ==> on)
  {
    second := Refused;
    ghost var cfg, states, evs := service.repo.cfg, service.repo.states, service.repo.evs;
    ghost var s := State(service.repo.db, service.repo.cache);
    service.AlwaysConsistent();
    hide Consistent, Run, Step, PassesLogin, TwoFactor, CodeReady, DeviceReady, Codes.AllDraws, SecondFactorOn;
    first := service.UpdateSettings(uid, on, settings);
    if !first.Accepted? {
      return;
    }
    ghost var row :| service.repo.evs == evs + [SettingsChanged(uid, row, on)];
    LastStep(service, states, evs, SettingsChanged(uid, row, on));
    SettingsRow(cfg, s, SettingsChanged(uid, row, on), State(service.repo.db, service.repo.cache));
    service.AlwaysConsistent();
    ConsistentParts(service.repo.db);
    second := service.Login(mail, password, token, login);
  }

  lemma CodeUsedUp(cfg: Config, s: State, ev: Event, t: State)
    requires Step(cfg, s, ev, t) && ev.Verified?
    ensures ev.uid in t.db.users && t.db.users[ev.uid].verified
    ensures forall row, uid :: !Allowed(cfg, t.db, Verified(ev.code, row, uid, NoDevice))
  {
    VerifiedEffect(cfg, s.db, ev, t.db);
  }

  /** A verification code that was committed, with or without a panic, is refused from then on. */
  method VerifyTwice(service: AuthService, code: string, token: string, env: Env, again: Env)
    returns (first: Answer, second: Answer)
    requires service.Valid()
    modifies service.repo
    ensures service.Valid()
    ensures Verifies(service.repo.cfg, old(service.repo.db), code, env) ==> second == Refused
    ensures first.Token? ==>
      first.uid in service.repo.db.users && service.repo.db.users[first.uid].verified && second == Refused
  {
    ghost var cfg, states, evs := service.repo.cfg, service.repo.states, service.repo.evs;
    ghost var s := State(service.repo.db, service.repo.cache);
    hide Consistent, Run, Step, Allowed, NoFault, DeviceReady;
    first := service.VerifyAccount(code, token, env);
    if service.repo.evs != evs {
      ghost var row, uid, end :| service.repo.evs == evs + [Verified(code, row, uid, end)];
      LastStep(service, states, evs, Verified(code, row, uid, end));
      CodeUsedUp(cfg, s, Verified(code, row, uid, end), State(service.repo.db, service.repo.cache));
      assert first.Token? ==> first.uid == uid by {
        if first.Token? {
          var row' :| service.repo.evs ==
            evs + [Verified(code, row', first.uid, VerifiedDevice(token, first.device, true))];
          assert service.repo.evs[|evs|].uid == first.uid;
        }
      }
    }
    second := service.VerifyAccount(code, token, again);
  }
}
