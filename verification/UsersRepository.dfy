/** The transactions of app/repositories/users_repository.go and WithTransaction, UpdateCache and
    InvalidateCache of app/repositories/handlers.go.

    A transaction works on its own copy of the tables and replaces the committed ones only at the end.  Any
    of its statements can fail: fault(i) says that statement i does, the commit being the last one.  The row
    ids that the database generates and the random draws are parameters too.  Each contract says exactly when
    the transaction commits, and that it then has its full effect and otherwise none. */
module UsersRepository {
  import opened Wrappers
  import opened Base64
  import opened AccountEffects
  import opened Accounts
  import opened AccountInvariants
  import Codes
  import CacheKeys

  /** NilUser: a nil dereference inside the transaction, which is rolled back before the panic goes on. */
  datatype DbError = NotFound | NotSingular | ConstraintFailed | QueryFailed | NoCodeDrawn | NoResetCode | NilUser

  /** A committed transaction; panics: its caller goes on to dereference a user that could not be read back. */
  datatype Commit<+T> = Commit(value: T, panics: bool)

  type Faults = nat -> bool

  predicate NoFault(fault: Faults, n: nat) {
    forall i :: 0 <= i < n ==> !fault(i)
  }

  /** The edges a user query loads; those it does not load are nil. */
  datatype Query = FullData | FunctionalData | FunctionalDetails | SettingsOnly | CodesOnly | RolesOnly

  predicate LoadsResetCode(query: Query) {
    query.FullData? || query.CodesOnly?
  }

  function CodesOf(table: CodeTable): set<string> {
    set r | r in table :: table[r].value
  }

  /** The code that ends the loops of CreateUser and CreateResetCode, which ignore errors of their query. */
  function Drawn(table: CodeTable, draws: seq<nat>, lost: Faults): Option<string> {
    Codes.FirstUnreported(draws, CodesOf(table), lost, 0)
  }

  lemma DrawnFormat(table: CodeTable, draws: seq<nat>, lost: Faults)
    requires Codes.AllDraws(draws)
    ensures Drawn(table, draws, lost).Some? ==> Codes.TokenFormat(Drawn(table, draws, lost).value)
  {
    Codes.FirstUnreportedIsFirst(draws, CodesOf(table), lost, 0);
  }

  function SecondFactorCodes(db: Database): set<string> {
    set r | r in db.secondFactor :: db.secondFactor[r].code
  }

  predicate DeviceExists(db: Database, uid: int, token: string) {
    exists d :: d in db.devices && db.devices[d].owner == uid && db.devices[d].token == token
  }

  /** Whether FindOrCreateDevice ends with a device: statement 1 inserts, 2 reads the user back. */
  predicate DeviceReady(db: Database, uid: int, token: string, row: int, fault: Faults) {
    && !fault(0) && !fault(3)
    && (DeviceExists(db, uid, token) || (!fault(1) && !fault(2) && row !in db.devices && Visible(db, uid)))
  }

  class UsersRepository {
    const cfg: Config
    var db: Database
    var cache: Cache
    ghost var states: seq<State>
    ghost var evs: seq<Event>

    /** The history is a run from a consistent database to the committed tables and the present cache. */
    ghost predicate Valid()
      reads this
    {
      Run(cfg, states, evs) && Consistent(states[0].db) && states[|evs|] == State(db, cache)
    }

    constructor (cfg: Config, db: Database)
      requires Consistent(db)
      ensures Valid() && this.cfg == cfg && this.db == db && cache == map[] && evs == []
    {
      this.cfg, this.db, this.cache := cfg, db, map[];
      this.states, this.evs := [State(db, map[])], [];
    }

    ghost method Record(ev: Event)
      requires Run(cfg, states, evs) && Consistent(states[0].db)
      requires Step(cfg, states[|evs|], ev, State(db, cache))
      modifies `states, `evs
      ensures Valid() && evs == old(evs) + [ev] && states == old(states) + [State(db, cache)]
    {
      hide Consistent, Step;
      states, evs := states + [State(db, cache)], evs + [ev];
    }

    // ---------- cache ----------

    method UpdateCache(uid: int, hasDetails: bool)
      requires uid in db.users
      modifies `cache
      ensures cache == WriteKeys(old(cache), CacheKeys.GetUserKeys(uid, db.users[uid].mail, hasDetails),
                                 Snapshot(uid, Exported(db.users[uid])))
      ensures ShownUnder(old(cache), uid, db.users[uid], hasDetails, cache)
    {
      UserKeysShown(cache, uid, db.users[uid], hasDetails);
      hide ShownUnder;
      var payload := Snapshot(uid, Exported(db.users[uid]));
      var cacheKeys := CacheKeys.GetUserKeys(uid, db.users[uid].mail, hasDetails);
      for i := 0 to |cacheKeys|
        invariant WriteKeys(cache, cacheKeys[i..], payload) == WriteKeys(old(cache), cacheKeys, payload)
      {
        assert cacheKeys[i..][1..] == cacheKeys[i + 1..];
        cache := cache[cacheKeys[i] := payload];
      }
    }

    method InvalidateCache(uid: int, mail: string)
      modifies `cache
      ensures cache == Invalidate(old(cache), uid, mail)
      ensures WithoutKeys(old(cache), uid, mail, cache)
    {
      InvalidatedKeys(cache, uid, mail);
      hide WithoutKeys;
      var cacheKeys := CacheKeys.GetAllUserKeys(uid, mail);
      for i := 0 to |cacheKeys|
        invariant cache == map k | k in old(cache) && k !in cacheKeys[..i] :: old(cache)[k]
      {
        assert cacheKeys[..i + 1] == cacheKeys[..i] + [cacheKeys[i]];
        cache := cache - {cacheKeys[i]};
      }
      assert cacheKeys[..|cacheKeys|] == cacheKeys;
    }

    // ---------- lookups ----------

    static method Only(found: set<int>) returns (r: Result<int, DbError>)
      ensures r.Ok? ==> r.value in found && forall x :: x in found ==> x == r.value
      ensures r.Err? ==> r.error == NotFound || r.error == NotSingular
      ensures r == Err(NotFound) ==> forall x :: x !in found
      ensures r == Err(NotSingular) ==> exists x, y :: x in found && y in found && x != y
    {
      if x :| x in found {
        if y :| y in found && y != x {
          return Err(NotSingular);
        }
        return Ok(x);
      }
      return Err(NotFound);
    }

    /** The only visible user with this mail. */
    method GetUserByMail(mail: string, failed: bool) returns (r: Result<int, DbError>)
      requires UniqueUsers(db.users)
      ensures r.Ok? ==> !failed && Visible(db, r.value) && db.users[r.value].mail == mail
      ensures r.Err? ==> failed || forall uid :: Visible(db, uid) ==> db.users[uid].mail != mail
    {
      if failed {
        return Err(QueryFailed);
      }
      var found := set uid | uid in db.users && Visible(db, uid) && db.users[uid].mail == mail;
      r := Only(found);
      if r.Err? {
        forall uid | Visible(db, uid)
          ensures db.users[uid].mail != mail
        {
          assert uid !in found;
        }
      }
    }

    /** The only row of the table with this code, if its owner is visible. */
    method GetUserByCode(table: CodeTable, code: string, failed: bool) returns (r: Result<int, DbError>)
      requires UniqueCodes(table)
      ensures r.Ok? ==> !failed && r.value in table && Visible(db, table[r.value].owner) && table[r.value].value == code
      ensures r.Err? ==> failed || forall row, uid :: HoldsCode(table, row, code, uid) ==> !Visible(db, uid)
    {
      if failed {
        return Err(QueryFailed);
      }
      var found := set row | row in table && Visible(db, table[row].owner) && table[row].value == code;
      r := Only(found);
      if r.Err? {
        forall row, uid | HoldsCode(table, row, code, uid)
          ensures !Visible(db, uid)
        {
          assert row !in found;
        }
      }
    }

    /** The row and the user of a second factor code. */
    method GetUserBySecondFactor(code: string, failed: bool) returns (r: Result<(int, int), DbError>)
      requires UniqueSecondFactors(db.secondFactor)
      ensures r.Ok? ==> !failed && HoldsSecondFactor(db, r.value.0, code, r.value.1) && Visible(db, r.value.1)
      ensures r.Err? ==> failed || forall row, uid :: HoldsSecondFactor(db, row, code, uid) ==> !Visible(db, uid)
    {
      if failed {
        return Err(QueryFailed);
      }
      var found := set row | row in db.secondFactor && db.secondFactor[row].code == code
        && db.secondFactor[row].owner.Some? && Visible(db, db.secondFactor[row].owner.value);
      var only := Only(found);
      if only.Ok? {
        assert only.value in found;
        return Ok((only.value, db.secondFactor[only.value].owner.value));
      }
      forall row, uid | HoldsSecondFactor(db, row, code, uid)
        ensures !Visible(db, uid)
      {
        assert row !in found;
      }
      r := Err(only.error);
    }

    /** The reset code edge of a loaded user. */
    method LoadResetCode(uid: int, query: Query) returns (edge: Option<int>)
      ensures edge.None? <==> !LoadsResetCode(query) || OwnerFree(db.reset, uid)
      ensures edge.Some? ==> edge.value in db.reset && db.reset[edge.value].owner == uid
    {
      edge := None;
      if LoadsResetCode(query) {
        if row :| row in db.reset && db.reset[row].owner == uid {
          edge := Some(row);
        }
      }
    }

    // ---------- transactions ----------

    /** Registration: all five rows, or none.  The error of the re-read, statement 5, is dropped. */
    method CreateUser(rows: NewRows, mail: string, name: string, password: string, salt: seq<Byte>, token: string,
                      draws: seq<nat>, lost: Faults, fault: Faults)
      returns (r: Result<Commit<string>, DbError>)
      requires Codes.AllDraws(draws)
      modifies `db
      ensures r.Ok? <==>
        var drawn := Drawn(old(db.activation), draws, lost);
        && NoFault(fault, 5) && !fault(6) && drawn.Some?
        && Allowed(cfg, old(db), Registered(rows, mail, name, password, salt, token, drawn.value))
      ensures r.Err? ==> db == old(db)
      ensures r.Ok? ==> r.value == Commit(Drawn(old(db.activation), draws, lost).value, fault(5))
      ensures r.Ok? ==> DbStep(cfg, old(db), Registered(rows, mail, name, password, salt, token, r.value.value), db)
    {
      var tx := db;
      var hash := cfg.hash(password, salt);
      if fault(0) {
        return Err(QueryFailed);
      }
      if rows.user in tx.users || !MailFree(tx, rows.user, mail) || !PasswordFree(tx, rows.user, hash) {
        return Err(ConstraintFailed);
      }
      tx := tx.(users := tx.users[rows.user := User(mail, None, hash, false, false, false, false, [])]);
      if fault(1) {
        return Err(QueryFailed);
      }
      if rows.settings in tx.settings {
        return Err(ConstraintFailed);
      }
      tx := tx.(settings := tx.settings[rows.settings := Owned(rows.user, false)]);
      if fault(2) {
        return Err(QueryFailed);
      }
      if rows.details in tx.details {
        return Err(ConstraintFailed);
      }
      tx := tx.(details := tx.details[rows.details := Owned(rows.user, name)]);
      if fault(3) {
        return Err(QueryFailed);
      }
      if rows.device in tx.devices {
        return Err(ConstraintFailed);
      }
      tx := tx.(devices := tx.devices[rows.device := Device(rows.user, token, None)]);
      var codeStr := Codes.DrawCode(draws, CodesOf(tx.activation), lost);
      assert codeStr == Drawn(db.activation, draws, lost);
      DrawnFormat(db.activation, draws, lost);
      hide Drawn, Codes.TokenFormat;
      if codeStr.None? {
        return Err(NoCodeDrawn);
      }
      if fault(4) {
        return Err(QueryFailed);
      }
      if rows.activation in tx.activation || !CodeFree(tx.activation, codeStr.value) {
        return Err(ConstraintFailed);
      }
      tx := tx.(activation := tx.activation[rows.activation := Owned(rows.user, codeStr.value)]);
      if fault(6) {
        return Err(QueryFailed);
      }
      db := tx;
      r := Ok(Commit(codeStr.value, fault(5)));
    }

    method ActivateAccount(code: string, fault: Faults) returns (r: Result<(int, int), DbError>)
      requires UniqueCodes(db.activation)
      modifies `db, `cache
      ensures r.Ok? <==> NoFault(fault, 5) && exists row, uid :: Allowed(cfg, old(db), Activated(code, row, uid))
      ensures r.Err? ==> db == old(db) && cache == old(cache)
      ensures r.Ok? ==>
        Step(cfg, old(State(db, cache)), Activated(code, r.value.0, r.value.1), State(db, cache))
      ensures r.Ok? ==> var uid := r.value.1;
        && uid in old(db.users)
        && db == old(db).(users := old(db.users)[uid := old(db.users)[uid].(active := true)],
                          activation := db.activation)
        && WithoutCode(old(db.activation), code, db.activation)
    {
      var tx := db;
      var found := GetUserByCode(tx.activation, code, fault(0));
      if found.Err? {
        return Err(found.error);
      }
      var row := found.value;
      var uid := tx.activation[row].owner;
      assert Allowed(cfg, db, Activated(code, row, uid));
      if fault(1) {
        return Err(QueryFailed);
      }
      tx := tx.(users := tx.users[uid := tx.users[uid].(active := true)]);
      if fault(2) {
        return Err(QueryFailed);
      }
      tx := tx.(activation := DeleteCode(tx.activation, code));
      if fault(3) {
        return Err(NotFound);
      }
      if fault(4) {
        return Err(QueryFailed);
      }
      db := tx;
      InvalidateCache(uid, db.users[uid].mail);
      r := Ok((row, uid));
    }

    /** A failed save leaves no user, whose id the error path then reads.  The error of the re-read, statement
        3, is dropped: the transaction commits, and only then the missing user is dereferenced. */
    method VerifyAccount(code: string, fault: Faults) returns (r: Result<Commit<(int, int)>, DbError>)
      requires UniqueCodes(db.verification)
      modifies `db, `cache
      ensures r.Ok? <==>
        && NoFault(fault, 3) && !fault(4)
        && exists row, uid :: Allowed(cfg, old(db), Verified(code, row, uid, NoDevice))
      ensures r == Err(NilUser) <==>
        !fault(0) && fault(1) && exists row, uid :: Allowed(cfg, old(db), Verified(code, row, uid, NoDevice))
      ensures r.Err? ==> db == old(db) && cache == old(cache)
      ensures r.Ok? ==> r.value.panics == fault(3)
      ensures r.Ok? ==>
        Step(cfg, old(State(db, cache)),
             Verified(code, r.value.value.0, r.value.value.1, if r.value.panics then Panicked else NoDevice),
             State(db, cache))
    {
      var tx := db;
      var found := GetUserByCode(tx.verification, code, fault(0));
      hide UniqueCodes, DeleteCode, Invalidate;
      if found.Err? {
        return Err(NotFound);
      }
      var row := found.value;
      var uid := tx.verification[row].owner;
      assert Allowed(cfg, db, Verified(code, row, uid, NoDevice));
      if fault(1) {
        return Err(NilUser);
      }
      tx := tx.(users := tx.users[uid := tx.users[uid].(verified := true)]);
      if fault(2) {
        return Err(QueryFailed);
      }
      tx := tx.(verification := DeleteCode(tx.verification, code));
      if fault(4) {
        return Err(QueryFailed);
      }
      db := tx;
      if !fault(3) {
        InvalidateCache(uid, db.users[uid].mail);
      }
      r := Ok(Commit((row, uid), fault(3)));
    }

    /** The device of the user with this token. */
    method FindDevice(uid: int, token: string) returns (r: Option<int>)
      requires UniqueDevices(db.devices)
      ensures r.Some? <==> DeviceExists(db, uid, token)
      ensures r.Some? ==> r.value in db.devices && DeviceFor(db, uid, token, r.value)
      ensures r.None? ==> forall d | d !in db.devices :: DeviceFor(db, uid, token, d)
    {
      var found := set d | d in db.devices && db.devices[d].owner == uid && db.devices[d].token == token;
      var only := Only(found);
      match only {
        case Ok(d) =>
          assert d in found;
          assert db.devices[d].owner == uid && db.devices[d].token == token;
          return Some(d);
        case Err(_) =>
          assert forall d :: d in db.devices && db.devices[d].owner == uid && db.devices[d].token == token ==>
            d in found;
          return None;
      }
    }

    /** The user is read back and its keys are deleted inside the transaction: without a user that is a panic,
        and with one it is not yet known whether the transaction commits. */
    method FindOrCreateDevice(uid: int, token: string, row: int, fault: Faults) returns (r: Result<int, DbError>)
      requires uid in db.users && UniqueDevices(db.devices)
      modifies `db, `cache
      ensures r.Ok? <==> DeviceReady(old(db), uid, token, row, fault)
      ensures r == Err(NilUser) <==>
        && !fault(0) && !DeviceExists(old(db), uid, token) && !fault(1) && row !in old(db.devices)
        && (fault(2) || !Visible(old(db), uid))
      ensures r == Err(NilUser) ==> cache == old(cache)
      ensures r.Err? ==> db == old(db)
      ensures r.Err? ==> cache in {old(cache), Invalidate(old(cache), uid, old(db.users[uid].mail))}
      ensures r.Ok? ==>
        && DeviceFor(old(db), uid, token, r.value)
        && db == old(db).(devices := AddDevice(old(db.devices), uid, token, r.value))
        && TookDevice(old(db.devices), uid, token, r.value, db.devices)
        && cache == if r.value in old(db.devices) then old(cache)
                    else Invalidate(old(cache), uid, old(db.users[uid].mail))
    {
      var tx := db;
      if fault(0) {
        return Err(QueryFailed);
      }
      var found := FindDevice(uid, token);
      hide DeviceExists, UniqueDevices, Invalidate, WithoutKeys;
      if found.None? {
        if fault(1) {
          return Err(QueryFailed);
        }
        if row in tx.devices {
          return Err(ConstraintFailed);
        }
        tx := tx.(devices := tx.devices[row := Device(uid, token, None)]);
        if fault(2) || !Visible(tx, uid) {
          return Err(NilUser);
        }
        InvalidateCache(uid, tx.users[uid].mail);
        if fault(3) {
          return Err(QueryFailed);
        }
        db := tx;
        return Ok(row);
      }
      if fault(3) {
        return Err(QueryFailed);
      }
      return Ok(found.value);
    }

    /** Statement 2 links the device to the new row. */
    method CreateSecondFactorCode(uid: int, device: int, row: int, expiresAt: int, draws: seq<nat>, fault: Faults)
      returns (r: Result<string, DbError>)
      requires Codes.AllDraws(draws) && uid in db.users && device in db.devices
      modifies `db, `cache
      ensures r.Ok? <==>
        var drawn := Codes.FirstFree(draws, SecondFactorCodes(old(db)));
        NoFault(fault, 4) && drawn.Some? && SecondFactorFree(old(db), row, drawn.value, uid)
      ensures r.Err? ==> db == old(db) && cache == old(cache)
      ensures r.Ok? ==> r == Ok(Codes.FirstFree(draws, SecondFactorCodes(old(db))).value)
      ensures r.Ok? ==>
        && SecondFactorFree(old(db), row, r.value, uid) && Codes.TokenFormat(r.value)
        && db.devices == old(db.devices)[device := Device(old(db.devices[device]).owner, old(db.devices[device]).token,
                                                          Some(row))]
        && db == old(db).(devices := LinkDevice(old(db.devices), device, row),
                          secondFactor := old(db.secondFactor)[row := SecondFactor(r.value, Some(uid), expiresAt)])
        && cache == Invalidate(old(cache), uid, old(db.users[uid].mail))
    {
      var tx := db;
      if fault(0) {
        return Err(QueryFailed);
      }
      var codeStr := Codes.DrawCode(draws, SecondFactorCodes(tx), _ => false);
      Codes.FirstUnreportedIsFirst(draws, SecondFactorCodes(tx), _ => false, 0);
      if codeStr.None? {
        return Err(NoCodeDrawn);
      }
      if fault(1) {
        return Err(QueryFailed);
      }
      if row in tx.secondFactor || !OwnsNone(tx.secondFactor, uid) {
        return Err(ConstraintFailed);
      }
      tx := tx.(secondFactor := tx.secondFactor[row := SecondFactor(codeStr.value, Some(uid), expiresAt)]);
      if fault(2) {
        return Err(ConstraintFailed);
      }
      tx := tx.(devices := tx.devices[device := tx.devices[device].(secondFactor := Some(row))]);
      if fault(3) {
        return Err(QueryFailed);
      }
      db := tx;
      InvalidateCache(uid, db.users[uid].mail);
      r := Ok(codeStr.value);
    }

    /** Clears the owner of whatever row the user owns, which the schema has to permit.  The mail is the one
        the user was loaded with. */
    method RemoveSecondFactorCode(uid: int, mail: string, fault: Faults) returns (ok: bool)
      requires uid in db.users
      modifies `db, `cache
      ensures ok <==> NoFault(fault, 2) && (cfg.ownerNullable || OwnsNone(old(db.secondFactor), uid))
      ensures !ok ==> db == old(db) && cache == old(cache)
      ensures ok ==>
        && db == old(db).(secondFactor := Unowned(old(db.secondFactor), uid))
        && cache == Invalidate(old(cache), uid, mail)
    {
      var tx := db;
      if fault(0) || (!cfg.ownerNullable && !OwnsNone(tx.secondFactor, uid)) {
        return false;
      }
      tx := tx.(secondFactor := Unowned(tx.secondFactor, uid));
      if fault(1) {
        return false;
      }
      db := tx;
      InvalidateCache(uid, mail);
      ok := true;
    }

    method CreateResetCode(uid: int, row: int, draws: seq<nat>, lost: Faults, fault: Faults)
      returns (r: Result<string, DbError>)
      requires Codes.AllDraws(draws) && Visible(db, uid)
      modifies `db, `cache
      ensures r.Ok? <==>
        var drawn := Drawn(old(db.reset), draws, lost);
        && NoFault(fault, 2) && drawn.Some?
        && Allowed(cfg, old(db), ResetRequested(old(db.users[uid].mail), uid, row, drawn.value))
      ensures r.Ok? ==> r.value == Drawn(old(db.reset), draws, lost).value
      ensures r.Err? ==> db == old(db) && cache == old(cache)
      ensures r.Ok? ==>
        Step(cfg, old(State(db, cache)), ResetRequested(old(db.users[uid].mail), uid, row, r.value), State(db, cache))
    {
      var tx := db;
      var codeStr := Codes.DrawCode(draws, CodesOf(tx.reset), lost);
      assert codeStr == Drawn(db.reset, draws, lost);
      DrawnFormat(db.reset, draws, lost);
      hide Drawn, Codes.TokenFormat;
      if codeStr.None? {
        return Err(NoCodeDrawn);
      }
      if fault(0) {
        return Err(QueryFailed);
      }
      if row in tx.reset || !OwnerFree(tx.reset, uid) || !CodeFree(tx.reset, codeStr.value) {
        return Err(ConstraintFailed);
      }
      tx := tx.(reset := tx.reset[row := Owned(uid, codeStr.value)]);
      if fault(1) {
        return Err(QueryFailed);
      }
      db := tx;
      InvalidateCache(uid, db.users[uid].mail);
      r := Ok(codeStr.value);
    }

    /** Deletes the row of the user's reset code edge; a user loaded without that edge has none to delete. */
    method RemoveResetCode(uid: int, edge: Option<int>, fault: Faults) returns (r: Result<(), DbError>)
      requires uid in db.users && (edge.Some? && edge.value in db.reset ==> db.reset[edge.value].owner == uid)
      modifies `db, `cache
      ensures r.Ok? <==> NoFault(fault, 3) && edge.Some? && edge.value in old(db.reset) && Visible(old(db), uid)
      ensures r.Err? ==> db == old(db) && cache == old(cache)
      ensures r.Ok? ==> Step(cfg, old(State(db, cache)), ResetRemoved(uid, edge.value), State(db, cache))
    {
      var tx := db;
      if edge.None? {
        return Err(NoResetCode);
      }
      if fault(0) {
        return Err(QueryFailed);
      }
      if edge.value !in tx.reset {
        return Err(NotFound);
      }
      tx := tx.(reset := tx.reset - {edge.value});
      if fault(1) {
        return Err(QueryFailed);
      }
      if !Visible(tx, uid) {
        return Err(NotFound);
      }
      if fault(2) {
        return Err(QueryFailed);
      }
      db := tx;
      InvalidateCache(uid, db.users[uid].mail);
      r := Ok(());
    }

    /** Writes only what differs, and invalidates with the mail from before the update.  The error of the
        re-read, statement 1, is dropped. */
    method UpdateUser(uid: int, mail: string, phone: string, fault: Faults) returns (r: Result<Commit<()>, DbError>)
      requires Visible(db, uid) && Consistent(db)
      modifies `db, `cache
      ensures r.Ok? <==>
        && !fault(2) && Allowed(cfg, old(db), ProfileChanged(uid, mail, phone))
        && (!fault(0) || (mail == old(db.users[uid].mail) && phone == PhoneText(old(db.users[uid].phone))))
      ensures r.Err? ==> db == old(db) && cache == old(cache)
      ensures r.Ok? ==> r.value.panics == fault(1)
      ensures r.Ok? ==> Step(cfg, old(State(db, cache)), ProfileChanged(uid, mail, phone), State(db, cache))
    {
      var tx := db;
      var targetUser := tx.users[uid];
      var updatedUser := targetUser;
      if phone != PhoneText(targetUser.phone) {
        updatedUser := updatedUser.(phone := Some(phone));
      }
      if mail != targetUser.mail {
        updatedUser := updatedUser.(mail := mail);
      }
      OwnColumnsFree(tx, uid);
      hide Consistent;
      if mail != targetUser.mail || phone != PhoneText(targetUser.phone) {
        if fault(0) {
          return Err(QueryFailed);
        }
        if !MailFree(tx, uid, updatedUser.mail) || !PhoneFree(tx, uid, updatedUser.phone) {
          return Err(ConstraintFailed);
        }
        tx := tx.(users := tx.users[uid := updatedUser]);
      }
      if fault(2) {
        return Err(QueryFailed);
      }
      db := tx;
      InvalidateCache(uid, targetUser.mail);
      r := Ok(Commit((), fault(1)));
    }

    method UpdateUsersPassword(code: string, row: int, uid: int, password: string, salt: seq<Byte>, fault: Faults)
      returns (r: Result<(), DbError>)
      requires HoldsCode(db.reset, row, code, uid) && Visible(db, uid)
      modifies `db, `cache
      ensures r.Ok? <==>
        NoFault(fault, 2) && Allowed(cfg, old(db), PasswordChanged(code, row, uid, password, salt))
      ensures r.Err? ==> db == old(db) && cache == old(cache)
      ensures r.Ok? ==>
        Step(cfg, old(State(db, cache)), PasswordChanged(code, row, uid, password, salt), State(db, cache))
    {
      var tx := db;
      var hash := cfg.hash(password, salt);
      if fault(0) {
        return Err(QueryFailed);
      }
      if !PasswordFree(tx, uid, hash) {
        return Err(ConstraintFailed);
      }
      tx := tx.(users := tx.users[uid := tx.users[uid].(password := hash)]);
      if fault(1) {
        return Err(QueryFailed);
      }
      db := tx;
      InvalidateCache(uid, db.users[uid].mail);
      r := Ok(());
    }

    method UpdateUsersSettings(uid: int, row: int, twoFactor: bool, fault: Faults) returns (r: Result<(), DbError>)
      requires Visible(db, uid) && row in db.settings && db.settings[row].owner == uid
      modifies `db, `cache
      ensures r.Ok? <==> NoFault(fault, 2)
      ensures r.Err? ==> db == old(db) && cache == old(cache)
      ensures r.Ok? ==> Step(cfg, old(State(db, cache)), SettingsChanged(uid, row, twoFactor), State(db, cache))
    {
      var tx := db;
      if fault(0) {
        return Err(QueryFailed);
      }
      tx := tx.(settings := tx.settings[row := tx.settings[row].(value := twoFactor)]);
      if fault(1) {
        return Err(QueryFailed);
      }
      db := tx;
      InvalidateCache(uid, db.users[uid].mail);
      r := Ok(());
    }

    /** A failed save leaves no user, whose id the error path then reads. */
    method RemoveAccount(uid: int, fault: Faults) returns (r: Result<(), DbError>)
      requires Visible(db, uid)
      modifies `db, `cache
      ensures r.Ok? <==> NoFault(fault, 2)
      ensures r == Err(NilUser) <==> fault(0)
      ensures r.Err? ==> db == old(db) && cache == old(cache)
      ensures r.Ok? ==> Step(cfg, old(State(db, cache)), AccountRemoved(uid), State(db, cache))
    {
      var tx := db;
      if fault(0) {
        return Err(NilUser);
      }
      tx := tx.(users := tx.users[uid := tx.users[uid].(removed := true)]);
      if fault(1) {
        return Err(QueryFailed);
      }
      db := tx;
      InvalidateCache(uid, db.users[uid].mail);
      r := Ok(());
    }
  }
}
