/** What every reachable database satisfies: one settings row, one details row and a device for each user,
    owners that exist, codes that are unique and well formed.

    Each invariant speaks of the tables it needs; each write is shown to keep them, then each event, then
    every run. */
module AccountInvariants {
  import opened Wrappers
  import opened Accounts
  import Codes

  type Devices = map<int, Device>
  type SecondFactors = map<int, SecondFactor>

  // ---------- the invariants ----------

  ghost predicate HasRow<T>(table: map<int, Owned<T>>, uid: int) {
    exists r :: r in table && table[r].owner == uid
  }

  /** Exactly one row for each user. */
  ghost predicate OneRowEach<T>(users: set<int>, table: map<int, Owned<T>>) {
    && (forall uid :: uid in users ==> HasRow(table, uid))
    && (forall r, q :: r in table && q in table && table[r].owner == table[q].owner ==> r == q)
  }

  ghost predicate HasDevice(devices: Devices, uid: int) {
    exists d :: d in devices && devices[d].owner == uid
  }

  ghost predicate DeviceEach(users: set<int>, devices: Devices) {
    forall uid :: uid in users ==> HasDevice(devices, uid)
  }

  ghost predicate OwnersIn<T>(users: set<int>, table: map<int, Owned<T>>) {
    forall r :: r in table ==> table[r].owner in users
  }

  ghost predicate DeviceOwnersIn(users: set<int>, devices: Devices) {
    forall d :: d in devices ==> devices[d].owner in users
  }

  ghost predicate UniqueCodes(table: CodeTable) {
    forall r, q :: r in table && q in table && table[r].value == table[q].value ==> r == q
  }

  ghost predicate CodesWellFormed(table: CodeTable) {
    forall r :: r in table ==> Codes.TokenFormat(table[r].value)
  }

  ghost predicate UniqueSecondFactors(secondFactor: SecondFactors) {
    forall r, q :: r in secondFactor && q in secondFactor && r != q ==>
      && secondFactor[r].code != secondFactor[q].code
      && (secondFactor[r].owner.Some? ==> secondFactor[r].owner != secondFactor[q].owner)
  }

  ghost predicate SecondFactorsWellFormed(users: set<int>, secondFactor: SecondFactors) {
    forall r :: r in secondFactor ==>
      && Codes.TokenFormat(secondFactor[r].code)
      && (secondFactor[r].owner.Some? ==> secondFactor[r].owner.value in users)
  }

  ghost predicate UniqueUsers(users: map<int, User>) {
    forall u, v :: u in users && v in users && u != v ==>
      && users[u].mail != users[v].mail
      && users[u].password != users[v].password
      && (users[u].phone.Some? ==> users[u].phone != users[v].phone)
  }

  ghost predicate UniqueDevices(devices: Devices) {
    forall d, e :: d in devices && e in devices && d != e ==>
      !(devices[d].owner == devices[e].owner && devices[d].token == devices[e].token)
  }

  /** A device points at a stored second factor of its own user, and no two devices at the same one. */
  ghost predicate DevicesLinked(devices: Devices, secondFactor: SecondFactors) {
    && (forall d :: d in devices && devices[d].secondFactor.Some? ==>
          var r := devices[d].secondFactor.value;
          r in secondFactor && (secondFactor[r].owner.Some? ==> secondFactor[r].owner.value == devices[d].owner))
    && (forall d, e :: d in devices && e in devices && d != e && devices[d].secondFactor.Some? ==>
          devices[d].secondFactor != devices[e].secondFactor)
  }

  /** Registration is complete for every user, and every code belongs to a user. */
  ghost predicate Complete(db: Database) {
    var uids := db.users.Keys;
    && OneRowEach(uids, db.settings) && OneRowEach(uids, db.details) && DeviceEach(uids, db.devices)
    && OwnersIn(uids, db.settings) && OwnersIn(uids, db.details) && DeviceOwnersIn(uids, db.devices)
    && OwnersIn(uids, db.activation) && OwnersIn(uids, db.verification) && OwnersIn(uids, db.reset)
  }

  ghost predicate CodesSound(db: Database) {
    && UniqueCodes(db.activation) && UniqueCodes(db.verification) && UniqueCodes(db.reset)
    && CodesWellFormed(db.activation) && CodesWellFormed(db.reset)
    && UniqueSecondFactors(db.secondFactor) && SecondFactorsWellFormed(db.users.Keys, db.secondFactor)
  }

  ghost predicate Consistent(db: Database) {
    && Complete(db) && CodesSound(db)
    && UniqueUsers(db.users) && UniqueDevices(db.devices) && DevicesLinked(db.devices, db.secondFactor)
  }

  // ---------- one table ----------

  lemma RowAdded<T>(users: set<int>, table: map<int, Owned<T>>, row: int, owner: int, value: T)
    requires OneRowEach(users, table) && OwnersIn(users, table) && row !in table && owner !in users
    ensures OneRowEach(users + {owner}, table[row := Owned(owner, value)])
    ensures OwnersIn(users + {owner}, table[row := Owned(owner, value)])
  {
    var table' := table[row := Owned(owner, value)];
    forall uid | uid in users + {owner}
      ensures HasRow(table', uid)
    {
      if uid == owner {
        assert table'[row].owner == uid;
      } else {
        var r :| r in table && table[r].owner == uid;
        assert table'[r].owner == uid;
      }
    }
  }

  lemma RowUpdated<T>(users: set<int>, table: map<int, Owned<T>>, row: int, value: T)
    requires OneRowEach(users, table) && OwnersIn(users, table) && row in table
    ensures OneRowEach(users, table[row := Owned(table[row].owner, value)])
    ensures OwnersIn(users, table[row := Owned(table[row].owner, value)])
  {
    var table' := table[row := Owned(table[row].owner, value)];
    forall uid | uid in users
      ensures HasRow(table', uid)
    {
      var r :| r in table && table[r].owner == uid;
      assert table'[r].owner == uid;
    }
  }

  lemma CodeAdded(users: set<int>, table: CodeTable, row: int, owner: int, code: string)
    requires OwnersIn(users, table) && UniqueCodes(table) && CodesWellFormed(table)
    requires row !in table && CodeFree(table, code) && Codes.TokenFormat(code)
    ensures OwnersIn(users + {owner}, table[row := Owned(owner, code)])
    ensures UniqueCodes(table[row := Owned(owner, code)]) && CodesWellFormed(table[row := Owned(owner, code)])
  {
  }

  lemma CodeDeleted(users: set<int>, table: CodeTable, code: string)
    requires OwnersIn(users, table) && UniqueCodes(table)
    ensures OwnersIn(users, DeleteCode(table, code)) && UniqueCodes(DeleteCode(table, code))
    ensures CodesWellFormed(table) ==> CodesWellFormed(DeleteCode(table, code))
  {
  }

  lemma RowDropped(users: set<int>, table: CodeTable, row: int)
    requires OwnersIn(users, table) && UniqueCodes(table) && CodesWellFormed(table)
    ensures OwnersIn(users, table - {row}) && UniqueCodes(table - {row}) && CodesWellFormed(table - {row})
  {
  }

  lemma MoreUsers<T>(users: set<int>, users': set<int>, table: map<int, Owned<T>>, secondFactor: SecondFactors)
    requires users <= users'
    ensures OwnersIn(users, table) ==> OwnersIn(users', table)
    ensures SecondFactorsWellFormed(users, secondFactor) ==> SecondFactorsWellFormed(users', secondFactor)
  {
  }

  lemma DeviceAdded(users: set<int>, devices: Devices, secondFactor: SecondFactors, device: int, uid: int,
                    token: string)
    requires DeviceEach(users, devices) && DeviceOwnersIn(users, devices)
    requires UniqueDevices(devices) && DevicesLinked(devices, secondFactor)
    requires device !in devices
    requires forall d :: d in devices ==> !(devices[d].owner == uid && devices[d].token == token)
    ensures var devices' := devices[device := Device(uid, token, None)];
      && DeviceEach(users + {uid}, devices') && DeviceOwnersIn(users + {uid}, devices')
      && UniqueDevices(devices') && DevicesLinked(devices', secondFactor)
  {
    var devices' := devices[device := Device(uid, token, None)];
    forall u | u in users + {uid}
      ensures HasDevice(devices', u)
    {
      if u == uid {
        assert devices'[device].owner == u;
      } else {
        var d :| d in devices && devices[d].owner == u;
        assert devices'[d].owner == u;
      }
    }
  }

  lemma DeviceLinked(users: set<int>, devices: Devices, secondFactor: SecondFactors, device: int, row: int,
                     code: string, expiresAt: int)
    requires DeviceEach(users, devices) && DeviceOwnersIn(users, devices)
    requires UniqueDevices(devices) && DevicesLinked(devices, secondFactor)
    requires device in devices && row !in secondFactor
    ensures var devices' := devices[device := devices[device].(secondFactor := Some(row))];
      && DeviceEach(users, devices') && DeviceOwnersIn(users, devices') && UniqueDevices(devices')
      && DevicesLinked(devices', secondFactor[row := SecondFactor(code, Some(devices[device].owner), expiresAt)])
  {
    var devices' := devices[device := devices[device].(secondFactor := Some(row))];
    forall u | u in users
      ensures HasDevice(devices', u)
    {
      var d :| d in devices && devices[d].owner == u;
      assert devices'[d].owner == u;
    }
  }

  lemma SecondFactorAdded(users: set<int>, db: Database, row: int, code: string, uid: int, expiresAt: int)
    requires UniqueSecondFactors(db.secondFactor) && SecondFactorsWellFormed(users, db.secondFactor) && uid in users
    requires SecondFactorFree(db, row, code, uid) && Codes.TokenFormat(code)
    ensures var secondFactor' := db.secondFactor[row := SecondFactor(code, Some(uid), expiresAt)];
      UniqueSecondFactors(secondFactor') && SecondFactorsWellFormed(users, secondFactor')
  {
  }

  lemma OwnerCleared(users: set<int>, devices: Devices, secondFactor: SecondFactors, uid: int)
    requires UniqueSecondFactors(secondFactor) && SecondFactorsWellFormed(users, secondFactor)
    requires DevicesLinked(devices, secondFactor)
    ensures var secondFactor' := Unowned(secondFactor, uid);
      && UniqueSecondFactors(secondFactor') && SecondFactorsWellFormed(users, secondFactor')
      && DevicesLinked(devices, secondFactor')
  {
  }

  lemma UserAdded(db: Database, uid: int, user: User)
    requires UniqueUsers(db.users)
    requires MailFree(db, uid, user.mail) && PasswordFree(db, uid, user.password) && PhoneFree(db, uid, user.phone)
    ensures UniqueUsers(db.users[uid := user])
  {
  }

  /** A user's own mail, phone and password are free for that user. */
  lemma OwnColumnsFree(db: Database, uid: int)
    requires Consistent(db) && uid in db.users
    ensures MailFree(db, uid, db.users[uid].mail)
    ensures PhoneFree(db, uid, db.users[uid].phone)
    ensures PasswordFree(db, uid, db.users[uid].password)
  {
    hide Complete, CodesSound, UniqueDevices, DevicesLinked;
  }

  // ---------- one event, and every run ----------

  lemma StepUsers(cfg: Config, db: Database, ev: Event, db': Database)
    requires Consistent(db) && DbStep(cfg, db, ev, db')
    ensures UniqueUsers(db'.users)
    ensures db'.users.Keys == if ev.Registered? then db.users.Keys + {ev.rows.user} else db.users.Keys
  {
    hide NewSettings, NewDetails, NewDevices, NewActivation, NewVerification, NewReset, NewSecondFactor,
      Complete, CodesSound, UniqueDevices, DevicesLinked, CodeFree, OwnerFree, DeviceFor, SecondFactorFree;
    if ev.Registered? {
      UserAdded(db, ev.rows.user, db'.users[ev.rows.user]);
    } else if ChangesUser(ev) {
      OwnColumnsFree(db, ev.uid);
      UserAdded(db, ev.uid, db'.users[ev.uid]);
    }
  }

  lemma StepSettings(cfg: Config, db: Database, ev: Event, db': Database)
    requires Consistent(db) && DbStep(cfg, db, ev, db')
    ensures OneRowEach(db'.users.Keys, db'.settings) && OwnersIn(db'.users.Keys, db'.settings)
    ensures OneRowEach(db'.users.Keys, db'.details) && OwnersIn(db'.users.Keys, db'.details)
  {
    StepUsers(cfg, db, ev, db');
    hide CodesSound, UniqueUsers, UniqueDevices, DevicesLinked, DeviceEach, OneRowEach, OwnersIn,
      NewUsers, NewDevices, NewActivation, NewVerification, NewReset, NewSecondFactor;
    if ev.Registered? {
      RowAdded(db.users.Keys, db.settings, ev.rows.settings, ev.rows.user, false);
      RowAdded(db.users.Keys, db.details, ev.rows.details, ev.rows.user, ev.name);
    } else if ev.SettingsChanged? {
      RowUpdated(db.users.Keys, db.settings, ev.row, ev.twoFactor);
    }
  }

  lemma StepCodes(cfg: Config, db: Database, ev: Event, db': Database)
    requires Consistent(db) && DbStep(cfg, db, ev, db')
    ensures OwnersIn(db'.users.Keys, db'.activation) && UniqueCodes(db'.activation) && CodesWellFormed(db'.activation)
    ensures OwnersIn(db'.users.Keys, db'.verification) && UniqueCodes(db'.verification)
    ensures OwnersIn(db'.users.Keys, db'.reset) && UniqueCodes(db'.reset) && CodesWellFormed(db'.reset)
  {
    StepUsers(cfg, db, ev, db');
    var uids := db.users.Keys;
    hide UniqueUsers, UniqueDevices, DevicesLinked, DeviceEach, OneRowEach, OwnersIn, UniqueCodes, CodesWellFormed,
      UniqueSecondFactors, NewUsers, NewSettings, NewDetails, NewDevices, NewSecondFactor, DeleteCode;
    if ev.Registered? {
      CodeAdded(uids, db.activation, ev.rows.activation, ev.rows.user, ev.code);
      MoreUsers(uids, db'.users.Keys, db.verification, db.secondFactor);
      MoreUsers(uids, db'.users.Keys, db.reset, db.secondFactor);
    } else if ev.Activated? {
      CodeDeleted(uids, db.activation, ev.code);
    } else if ev.Verified? {
      CodeDeleted(uids, db.verification, ev.code);
    } else if ev.ResetRequested? {
      assert uids + {ev.uid} == uids;
      CodeAdded(uids, db.reset, ev.row, ev.uid, ev.code);
    } else if ev.ResetRemoved? {
      RowDropped(uids, db.reset, ev.row);
    }
  }

  ghost predicate DevicesSound(users: set<int>, devices: Devices, secondFactor: SecondFactors) {
    && DeviceEach(users, devices) && DeviceOwnersIn(users, devices)
    && UniqueDevices(devices) && DevicesLinked(devices, secondFactor)
    && UniqueSecondFactors(secondFactor) && SecondFactorsWellFormed(users, secondFactor)
  }

  lemma AddDeviceKeeps(db: Database, uid: int, token: string, device: int)
    requires DevicesSound(db.users.Keys, db.devices, db.secondFactor)
    requires uid in db.users && DeviceFor(db, uid, token, device)
    ensures DevicesSound(db.users.Keys, AddDevice(db.devices, uid, token, device), db.secondFactor)
    ensures AddDevice(db.devices, uid, token, device)[device].owner == uid
  {
    hide DeviceEach, DeviceOwnersIn, UniqueDevices, DevicesLinked, UniqueSecondFactors, SecondFactorsWellFormed;
    if device !in db.devices {
      assert db.users.Keys + {uid} == db.users.Keys;
      DeviceAdded(db.users.Keys, db.devices, db.secondFactor, device, uid, token);
    }
  }

  lemma LoginKeeps(cfg: Config, db: Database, ev: Event, db': Database)
    requires DevicesSound(db.users.Keys, db.devices, db.secondFactor) && DbStep(cfg, db, ev, db') && ev.LoggedIn?
    ensures DevicesSound(db.users.Keys, db'.devices, db'.secondFactor)
  {
    hide DeviceEach, DeviceOwnersIn, UniqueDevices, DevicesLinked, UniqueSecondFactors, SecondFactorsWellFormed,
      NewUsers, NewSettings, NewDetails, NewActivation, NewVerification, NewReset, TwoFactor, DeviceFor;
    AddDeviceKeeps(db, ev.uid, ev.token, ev.device);
    if SendsCode(ev) {
      var end := ev.loginEnd;
      var devices := AddDevice(db.devices, ev.uid, ev.token, ev.device);
      SecondFactorAdded(db.users.Keys, db, end.row, end.code, ev.uid, end.expiresAt);
      DeviceLinked(db.users.Keys, devices, db.secondFactor, ev.device, end.row, end.code, end.expiresAt);
    }
  }

  lemma StepDevices(cfg: Config, db: Database, ev: Event, db': Database)
    requires Consistent(db) && DbStep(cfg, db, ev, db')
    ensures DevicesSound(db'.users.Keys, db'.devices, db'.secondFactor)
  {
    StepUsers(cfg, db, ev, db');
    var uids := db.users.Keys;
    assert ev.Registered? ==> forall d :: d in db.devices ==> db.devices[d].owner != ev.rows.user;
    hide DeviceEach, DeviceOwnersIn, UniqueDevices, DevicesLinked, UniqueSecondFactors, SecondFactorsWellFormed,
      OneRowEach, OwnersIn, UniqueCodes, UniqueUsers, DeviceFor,
      NewUsers, NewSettings, NewDetails, NewActivation, NewVerification, NewReset, Unowned;
    if ev.Registered? {
      DeviceAdded(uids, db.devices, db.secondFactor, ev.rows.device, ev.rows.user, ev.token);
      MoreUsers(uids, db'.users.Keys, db.reset, db.secondFactor);
    } else if ev.Verified? && ev.verifyEnd.VerifiedDevice? {
      AddDeviceKeeps(db, ev.uid, ev.verifyEnd.token, ev.verifyEnd.device);
    } else if ev.LoggedIn? {
      LoginKeeps(cfg, db, ev, db');
    } else if RemovesCode(ev) {
      OwnerCleared(uids, db.devices, db.secondFactor, ev.uid);
    }
  }

  /** Whatever the event, a consistent database stays consistent. */
  lemma StepConsistent(cfg: Config, db: Database, ev: Event, db': Database)
    requires Consistent(db) && DbStep(cfg, db, ev, db')
    ensures Consistent(db')
  {
    hide DbStep;
    StepUsers(cfg, db, ev, db');
    StepSettings(cfg, db, ev, db');
    StepCodes(cfg, db, ev, db');
    StepDevices(cfg, db, ev, db');
    hide OneRowEach, DeviceEach, OwnersIn, DeviceOwnersIn, UniqueCodes, CodesWellFormed, UniqueSecondFactors,
      SecondFactorsWellFormed, UniqueUsers, UniqueDevices, DevicesLinked;
  }

  /** Every reachable database is consistent. */
  lemma {:induction false} RunConsistent(cfg: Config, states: seq<State>, evs: seq<Event>, i: nat)
    requires Run(cfg, states, evs) && Consistent(states[0].db) && i <= |evs|
    ensures Consistent(states[i].db)
  {
    hide Consistent;
    if i > 0 {
      RunConsistent(cfg, states, evs, i - 1);
      StepConsistent(cfg, states[i - 1].db, evs[i - 1], states[i].db);
    }
  }
}
