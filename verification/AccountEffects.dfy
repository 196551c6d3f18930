/** What each event of the account life cycle leaves behind, column by column and key by key: the contents of
    the tables before and after, without the functions that the machine is made of. */
module AccountEffects {
  import opened Wrappers
  import opened Text
  import opened Base64
  import opened Accounts
  import opened AccountInvariants
  import Codes
  import CacheKeys

  // ---------- users ----------

  /** A new user is neither active nor verified, has no phone and no subscriptions, has two-factor off, one
      device without a code, and the activation code; nobody else is touched. */
  lemma RegisteredEffect(cfg: Config, db: Database, ev: Event, db': Database)
    requires DbStep(cfg, db, ev, db') && ev.Registered?
    ensures var id := ev.rows.user;
      && id !in db.users && db'.users.Keys == db.users.Keys + {id}
      && (forall u :: u in db.users ==> db'.users[u] == db.users[u])
      && db'.users[id].mail == ev.mail && db'.users[id].phone == None
      && db'.users[id].password == cfg.hash(ev.password, ev.salt)
      && !db'.users[id].active && !db'.users[id].verified
      && !db'.users[id].blacklisted && !db'.users[id].removed
      && db'.users[id].subscriptions == []
    ensures db' == db.(users := db'.users,
                       settings := db.settings[ev.rows.settings := Owned(ev.rows.user, false)],
                       details := db.details[ev.rows.details := Owned(ev.rows.user, ev.name)],
                       devices := db.devices[ev.rows.device := Device(ev.rows.user, ev.token, None)],
                       activation := db.activation[ev.rows.activation := Owned(ev.rows.user, ev.code)])
  {
  }

  /** The rows of a table without those of one code. */
  ghost predicate WithoutCode(table: CodeTable, code: string, table': CodeTable) {
    && (forall r :: r in table' <==> r in table && table[r].value != code)
    && (forall r :: r in table' ==> table'[r] == table[r])
  }

  /** The user is active, the code is used up, and nothing else changes. */
  lemma ActivatedEffect(cfg: Config, db: Database, ev: Event, db': Database)
    requires DbStep(cfg, db, ev, db') && ev.Activated?
    ensures ev.uid in db.users && ev.row in db.activation && db.activation[ev.row] == Owned(ev.uid, ev.code)
    ensures db' == db.(users := db.users[ev.uid := db.users[ev.uid].(active := true)], activation := db'.activation)
    ensures WithoutCode(db.activation, ev.code, db'.activation)
  {
  }

  /** The user is verified, the code is used up, and nothing else changes but for the device of the call. */
  lemma VerifiedEffect(cfg: Config, db: Database, ev: Event, db': Database)
    requires DbStep(cfg, db, ev, db') && ev.Verified?
    ensures ev.uid in db.users && ev.row in db.verification && db.verification[ev.row] == Owned(ev.uid, ev.code)
    ensures db' == db.(users := db.users[ev.uid := db.users[ev.uid].(verified := true)],
                       verification := db'.verification, devices := db'.devices)
    ensures WithoutCode(db.verification, ev.code, db'.verification)
    ensures !ev.verifyEnd.VerifiedDevice? ==> db'.devices == db.devices
    ensures ev.verifyEnd.VerifiedDevice? ==>
      TookDevice(db.devices, ev.uid, ev.verifyEnd.token, ev.verifyEnd.device, db'.devices)
  {
  }

  /** The device belongs to the user and has the token; it was there, or it is new and points at no code. */
  ghost predicate TookDevice(devices: Devices, uid: int, token: string, device: int, devices': Devices) {
    && device in devices' && devices'[device].owner == uid && devices'[device].token == token
    && devices'.Keys == devices.Keys + {device}
    && (forall d :: d in devices ==> devices'[d] == devices[d])
    && (device !in devices ==> devices'[device].secondFactor == None)
  }

  lemma ProfileEffect(cfg: Config, db: Database, ev: Event, db': Database)
    requires DbStep(cfg, db, ev, db') && ev.ProfileChanged?
    ensures ev.uid in db.users && ev.uid in db'.users
    ensures db'.users[ev.uid].mail == ev.mail
    ensures db'.users[ev.uid].phone == Some(ev.phone) || (ev.phone == "" && db'.users[ev.uid].phone == None)
    ensures db.users[ev.uid].phone.Some? ==> db'.users[ev.uid].phone == Some(ev.phone)
    ensures db' == db.(users := db.users[ev.uid := db.users[ev.uid].(mail := ev.mail,
                                                                     phone := db'.users[ev.uid].phone)])
  {
  }

  lemma OtherUserEffects(cfg: Config, db: Database, ev: Event, db': Database)
    requires DbStep(cfg, db, ev, db')
    ensures ev.PasswordChanged? ==>
      && ev.uid in db.users
      && db' == db.(users := db.users[ev.uid := db.users[ev.uid].(password := cfg.hash(ev.password, ev.salt))])
    ensures ev.SubscriptionsChanged? ==>
      && ev.uid in db.users
      && db' == db.(users := db.users[ev.uid := db.users[ev.uid].(subscriptions := ev.subscriptions)])
    ensures ev.AccountRemoved? ==>
      && ev.uid in db.users
      && db' == db.(users := db.users[ev.uid := db.users[ev.uid].(removed := true)])
    ensures ev.Cached? || ev.Invalidated? || ev.Dropped? ==> db' == db
  {
  }

  lemma SettingsEffect(cfg: Config, db: Database, ev: Event, db': Database)
    requires DbStep(cfg, db, ev, db') && ev.SettingsChanged?
    ensures ev.row in db.settings && db.settings[ev.row].owner == ev.uid
    ensures db' == db.(settings := db.settings[ev.row := Owned(ev.uid, ev.twoFactor)])
  {
  }

  // ---------- codes and devices ----------

  lemma ResetEffects(cfg: Config, db: Database, ev: Event, db': Database)
    requires DbStep(cfg, db, ev, db')
    ensures ev.ResetRequested? ==>
      && ev.row !in db.reset
      && db' == db.(reset := db.reset[ev.row := Owned(ev.uid, ev.code)])
    ensures ev.ResetRemoved? ==>
      && ev.row in db.reset && db.reset[ev.row].owner == ev.uid
      && db' == db.(reset := db'.reset) && db'.reset.Keys == db.reset.Keys - {ev.row}
      && forall r :: r in db'.reset ==> db'.reset[r] == db.reset[r]
  {
  }

  /** A login that sends no code changes nothing but for the device of the call. */
  lemma LoginEffect(cfg: Config, db: Database, ev: Event, db': Database)
    requires DbStep(cfg, db, ev, db') && ev.LoggedIn? && !ev.loginEnd.CodeSent?
    ensures db' == db.(devices := db'.devices)
    ensures TookDevice(db.devices, ev.uid, ev.token, ev.device, db'.devices)
  {
  }

  /** A code that is sent is stored for the user with its expiry, and the device of the login points at it:
      the device of this owner and this token, and no other one changes. */
  lemma SentEffect(cfg: Config, db: Database, ev: Event, db': Database)
    requires DbStep(cfg, db, ev, db') && ev.LoggedIn? && ev.loginEnd.CodeSent?
    ensures var end := ev.loginEnd;
      && end.row !in db.secondFactor
      && db' == db.(devices := db'.devices,
                    secondFactor := db.secondFactor[end.row := SecondFactor(end.code, Some(ev.uid), end.expiresAt)])
      && db'.devices.Keys == db.devices.Keys + {ev.device}
      && db'.devices[ev.device] == Device(ev.uid, ev.token, Some(end.row))
      && forall d :: d in db.devices && d != ev.device ==> db'.devices[d] == db.devices[d]
  {
  }

  /** A removal takes the user's codes from the user; code, expiry, and the rows of others stay. */
  lemma ClearedEffect(cfg: Config, db: Database, ev: Event, db': Database)
    requires DbStep(cfg, db, ev, db') && (ev.CodeCleared? || (ev.CodeVerified? && ev.removed))
    ensures db' == db.(secondFactor := db'.secondFactor) && db'.secondFactor.Keys == db.secondFactor.Keys
    ensures forall r :: r in db.secondFactor ==>
      var row, row' := db.secondFactor[r], db'.secondFactor[r];
      && row'.code == row.code && row'.expiresAt == row.expiresAt
      && row'.owner == if row.owner == Some(ev.uid) then None else row.owner
  {
  }

  lemma TokenEffect(cfg: Config, db: Database, ev: Event, db': Database)
    requires DbStep(cfg, db, ev, db') && ev.CodeVerified? && !ev.removed
    ensures db' == db
  {
  }

  // ---------- cache ----------

  /** The three keys under which a user can be cached, as they are spelled. */
  ghost predicate IsKeyOf(key: string, uid: int, mail: string) {
    key == "user-public:" + Signed(uid) || key == "user:" + Signed(uid) || key == "user:email:" + mail
  }

  ghost predicate WithoutKeys(cache: Cache, uid: int, mail: string, cache': Cache) {
    && (forall k :: k in cache' <==> k in cache && !IsKeyOf(k, uid, mail))
    && (forall k :: k in cache' ==> cache'[k] == cache[k])
  }

  lemma InvalidatedKeys(cache: Cache, uid: int, mail: string)
    ensures WithoutKeys(cache, uid, mail, Invalidate(cache, uid, mail))
  {
    hide Signed;
  }

  /** The events whose calls write a row of a user, or add a device, and then invalidate. */
  predicate Writes(s: State, ev: Event) {
    || ev.Activated? || (ev.Verified? && !ev.verifyEnd.Panicked?)
    || (ev.LoggedIn? && (ev.loginEnd.CodeSent? || ev.device !in s.db.devices)) || (ev.CodeVerified? && ev.removed)
    || ev.ResetRequested? || ev.ResetRemoved? || ev.PasswordChanged? || ev.SettingsChanged? || ev.ProfileChanged?
    || ev.SubscriptionsChanged? || ev.AccountRemoved? || ev.Invalidated?
  }

  /** They delete the keys of the user as it was read, and only these; the one exception is the verification
      that panics.  Whatever else happens leaves the cache alone, but for filling it and expiry. */
  lemma MutatorsInvalidate(cfg: Config, s: State, ev: Event, t: State)
    requires Step(cfg, s, ev, t)
    ensures Writes(s, ev) ==>
      ev.uid in s.db.users && WithoutKeys(s.cache, ev.uid, s.db.users[ev.uid].mail, t.cache)
    ensures ev.CodeCleared? ==> WithoutKeys(s.cache, ev.uid, ev.mail, t.cache)
    ensures ev.Dropped? ==> t.cache == s.cache - {ev.key}
    ensures !Writes(s, ev) && !ev.CodeCleared? && !ev.Cached? && !ev.Dropped? ==> t.cache == s.cache
  {
    hide NewDatabase, Invalidate, WithoutKeys, WriteKeys;
    if Invalidates(s, ev).Some? {
      InvalidatedKeys(s.cache, ev.uid, if ev.CodeCleared? then ev.mail else s.db.users[ev.uid].mail);
    }
  }

  /** The user as a reader of the cache sees it: every column but the password. */
  ghost predicate Shows(entry: Snapshot, uid: int, user: User) {
    && entry.uid == uid
    && entry.user.mail == user.mail && entry.user.phone == user.phone && entry.user.password == ""
    && entry.user.active == user.active && entry.user.verified == user.verified
    && entry.user.blacklisted == user.blacklisted && entry.user.removed == user.removed
    && entry.user.subscriptions == user.subscriptions
  }

  /** Without its details a user is shown under the public key and nowhere else; with them, under the key of the
      id and the key of the mail and nowhere else. */
  ghost predicate ShownUnder(cache: Cache, uid: int, user: User, hasDetails: bool, cache': Cache) {
    forall k ::
      if (if hasDetails then k == "user:" + Signed(uid) || k == "user:email:" + user.mail
          else k == "user-public:" + Signed(uid))
      then k in cache' && Shows(cache'[k], uid, user)
      else (k in cache' <==> k in cache) && (k in cache ==> cache'[k] == cache[k])
  }

  lemma WrittenOne(cache: Cache, key: string, entry: Snapshot)
    ensures WriteKeys(cache, [key], entry) == cache[key := entry]
  {
    assert [key][1..] == [];
  }

  lemma WrittenTwo(cache: Cache, key: string, key': string, entry: Snapshot)
    ensures WriteKeys(cache, [key, key'], entry) == cache[key := entry][key' := entry]
  {
    assert [key, key'][1..] == [key'];
    WrittenOne(cache[key := entry], key', entry);
  }

  lemma UserKeysShown(cache: Cache, uid: int, user: User, hasDetails: bool)
    ensures ShownUnder(cache, uid, user, hasDetails,
      WriteKeys(cache, CacheKeys.GetUserKeys(uid, user.mail, hasDetails), Snapshot(uid, Exported(user))))
  {
    var entry := Snapshot(uid, Exported(user));
    WrittenOne(cache, "user-public:" + Signed(uid), entry);
    WrittenTwo(cache, "user:" + Signed(uid), "user:email:" + user.mail, entry);
    hide WriteKeys, Signed;
  }

  lemma CachedEffect(cfg: Config, s: State, ev: Event, t: State)
    requires Step(cfg, s, ev, t) && ev.Cached?
    ensures t.db == s.db && ev.uid in s.db.users
    ensures ShownUnder(s.cache, ev.uid, s.db.users[ev.uid], ev.hasDetails, t.cache)
  {
    UserKeysShown(s.cache, ev.uid, s.db.users[ev.uid], ev.hasDetails);
    hide WriteKeys, ShownUnder, Signed;
  }

  // ---------- what the calls ask for, in columns ----------

  ghost predicate UserThere(db: Database, uid: int) {
    uid in db.users && !db.users[uid].blacklisted && !db.users[uid].removed
  }

  /** Some row of the table holds the code, and its owner is there. */
  ghost predicate CodeThere(db: Database, table: CodeTable, code: string) {
    exists row :: row in table && table[row].value == code && UserThere(db, table[row].owner)
  }

  lemma CodesAccepted(cfg: Config, db: Database, code: string)
    ensures (exists row, uid :: Allowed(cfg, db, Activated(code, row, uid))) <==> CodeThere(db, db.activation, code)
    ensures (exists row, uid :: Allowed(cfg, db, Verified(code, row, uid, NoDevice))) <==>
      CodeThere(db, db.verification, code)
  {
    if CodeThere(db, db.activation, code) {
      var row :| row in db.activation && db.activation[row].value == code && UserThere(db, db.activation[row].owner);
      assert Allowed(cfg, db, Activated(code, row, db.activation[row].owner));
    }
    if CodeThere(db, db.verification, code) {
      var table := db.verification;
      var row :| row in table && table[row].value == code && UserThere(db, table[row].owner);
      assert Allowed(cfg, db, Verified(code, row, table[row].owner, NoDevice));
    }
  }

  /** A registration is possible exactly with fresh row ids, a mail and a password hash that no user has, and a
      code of six digits that is not stored. */
  lemma RegistrationAccepted(cfg: Config, db: Database, rows: NewRows, mail: string, name: string, password: string,
                             salt: seq<Byte>, token: string, code: string)
    ensures Allowed(cfg, db, Registered(rows, mail, name, password, salt, token, code)) <==>
      && rows.user !in db.users && rows.settings !in db.settings && rows.details !in db.details
      && rows.device !in db.devices && rows.activation !in db.activation
      && (forall v :: v in db.users ==> db.users[v].mail != mail && db.users[v].password != cfg.hash(password, salt))
      && (forall r :: r in db.activation ==> db.activation[r].value != code)
      && |code| == 6 && forall i :: 0 <= i < 6 ==> '0' <= code[i] <= '9'
  {
  }

  lemma ChangesAccepted(cfg: Config, db: Database, uid: int, mail: string, phone: string)
    ensures Allowed(cfg, db, ProfileChanged(uid, mail, phone)) <==>
      && UserThere(db, uid)
      && (forall v :: v in db.users && v != uid ==> db.users[v].mail != mail)
      && (var same := if db.users[uid].phone.Some? then phone == db.users[uid].phone.value else phone == "";
          var phone' := if same then db.users[uid].phone else Some(phone);
          phone'.Some? ==> forall v :: v in db.users && v != uid ==> db.users[v].phone != phone')
    ensures Allowed(cfg, db, AccountRemoved(uid)) <==> UserThere(db, uid)
  {
  }

  /** Who can log in: an active user that is there, with this mail and a hash that accepts the password; straight
      to a token exactly without a settings row that asks for a second factor. */
  lemma LoginAccepted(cfg: Config, db: Database, uid: int, mail: string, password: string)
    ensures PassesLogin(cfg, db, uid, mail, password) <==>
      && UserThere(db, uid) && db.users[uid].active && db.users[uid].mail == mail
      && cfg.accepts(db.users[uid].password, password)
    ensures TwoFactor(db, uid) <==> exists r :: r in db.settings && db.settings[r].owner == uid && db.settings[r].value
  {
    if r :| r in db.settings && db.settings[r].owner == uid && db.settings[r].value {
      assert db.settings[r] == Owned(uid, true);
    }
  }

  /** A reset code is possible exactly for a user that is there and has none, with a fresh row and six digits that
      are not stored; a new password exactly with a stored code and a hash that no other user has. */
  lemma ResetsAccepted(cfg: Config, db: Database, mail: string, uid: int, row: int, code: string, password: string,
                       salt: seq<Byte>)
    ensures Allowed(cfg, db, ResetRequested(mail, uid, row, code)) <==>
      && UserThere(db, uid) && db.users[uid].mail == mail && row !in db.reset
      && (forall r :: r in db.reset ==> db.reset[r].owner != uid && db.reset[r].value != code)
      && |code| == 6 && forall i :: 0 <= i < 6 ==> '0' <= code[i] <= '9'
    ensures Allowed(cfg, db, PasswordChanged(code, row, uid, password, salt)) <==>
      && UserThere(db, uid) && row in db.reset && db.reset[row] == Owned(uid, code)
      && forall v :: v in db.users && v != uid ==> db.users[v].password != cfg.hash(password, salt)
  {
  }

  /** A token from a code exactly when the row is stored for a user that is there, has not expired, and the device
      points at it. */
  lemma TokenAccepted(cfg: Config, db: Database, code: string, row: int, uid: int, now: int, device: int)
    ensures Allowed(cfg, db, CodeVerified(code, row, uid, now, device, false)) <==>
      && UserThere(db, uid) && row in db.secondFactor
      && db.secondFactor[row].code == code && db.secondFactor[row].owner == Some(uid)
      && now <= db.secondFactor[row].expiresAt
      && device in db.devices && db.devices[device].secondFactor == Some(row)
  {
  }
}
