/** Whole runs of the account life cycle: who can be issued a token, what each one-time code is good for,
    and what never comes back. */
module AccountHistory {
  import opened Wrappers
  import opened Accounts
  import opened AccountInvariants

  // ---------- flags and removal ----------

  lemma StepFlags(cfg: Config, db: Database, ev: Event, db': Database, uid: int)
    requires DbStep(cfg, db, ev, db') && uid in db.users
    ensures uid in db'.users
    ensures var u, u' := db.users[uid], db'.users[uid];
      && (u.active ==> u'.active) && (u.verified ==> u'.verified) && (u.removed ==> u'.removed)
      && u'.blacklisted == u.blacklisted
  {
    hide NewSettings, NewDetails, NewDevices, NewActivation, NewVerification, NewReset, NewSecondFactor;
  }

  /** Users are never deleted, and active, verified and removed never return to false. */
  lemma {:induction false} FlagsStay(cfg: Config, states: seq<State>, evs: seq<Event>, i: nat, j: nat, uid: int)
    requires Run(cfg, states, evs) && i <= j <= |evs| && uid in states[i].db.users
    ensures uid in states[j].db.users
    ensures var u, u' := states[i].db.users[uid], states[j].db.users[uid];
      && (u.active ==> u'.active) && (u.verified ==> u'.verified) && (u.removed ==> u'.removed)
      && u'.blacklisted == u.blacklisted
    decreases j
  {
    if i < j {
      FlagsStay(cfg, states, evs, i, j - 1, uid);
      StepFlags(cfg, states[j - 1].db, evs[j - 1], states[j].db, uid);
    }
  }

  lemma TokenStep(cfg: Config, db: Database, ev: Event, db': Database)
    requires DbStep(cfg, db, ev, db') && TokenOf(ev).Some?
    ensures Visible(db, TokenOf(ev).value.0)
  {
  }

  lemma RemovalStep(cfg: Config, db: Database, ev: Event, db': Database)
    requires DbStep(cfg, db, ev, db') && ev.AccountRemoved?
    ensures ev.uid in db'.users && db'.users[ev.uid].removed
  {
  }

  /** Once the removal of an account has committed, no later call issues a token for it. */
  lemma NoTokenAfterRemoval(cfg: Config, states: seq<State>, evs: seq<Event>, i: nat, j: nat)
    requires Run(cfg, states, evs) && i < j < |evs|
    requires evs[i].AccountRemoved? && TokenOf(evs[j]).Some?
    ensures TokenOf(evs[j]).value.0 != evs[i].uid
  {
    RemovalStep(cfg, states[i].db, evs[i], states[i + 1].db);
    FlagsStay(cfg, states, evs, i + 1, j, evs[i].uid);
    TokenStep(cfg, states[j].db, evs[j], states[j + 1].db);
  }

  lemma TokenDeviceStep(cfg: Config, db: Database, ev: Event, db': Database)
    requires DbStep(cfg, db, ev, db') && TokenOf(ev).Some? && DevicesLinked(db.devices, db.secondFactor)
    ensures TokenOf(ev).value.1 in db'.devices
    ensures db'.devices[TokenOf(ev).value.1].owner == TokenOf(ev).value.0
  {
  }

  /** Every token is for a device of its own user. */
  lemma TokenDeviceIsOwned(cfg: Config, states: seq<State>, evs: seq<Event>, j: nat)
    requires Run(cfg, states, evs) && Consistent(states[0].db) && j < |evs| && TokenOf(evs[j]).Some?
    ensures TokenOf(evs[j]).value.1 in states[j + 1].db.devices
    ensures states[j + 1].db.devices[TokenOf(evs[j]).value.1].owner == TokenOf(evs[j]).value.0
  {
    RunConsistent(cfg, states, evs, j);
    TokenDeviceStep(cfg, states[j].db, evs[j], states[j + 1].db);
  }

  // ---------- second factor ----------

  /** How an event changes the second factor rows, and the devices that point at them. */
  lemma SecondFactorStep(cfg: Config, db: Database, ev: Event, db': Database)
    requires DbStep(cfg, db, ev, db')
    ensures SendsCode(ev) ==>
      && ev.loginEnd.row !in db.secondFactor
      && OwnsNone(db.secondFactor, ev.uid)
      && db'.secondFactor ==
        db.secondFactor[ev.loginEnd.row := SecondFactor(ev.loginEnd.code, Some(ev.uid), ev.loginEnd.expiresAt)]
    ensures RemovesCode(ev) ==>
      && (cfg.ownerNullable || OwnsNone(db.secondFactor, ev.uid))
      && db'.secondFactor == Unowned(db.secondFactor, ev.uid)
    ensures !SendsCode(ev) && !RemovesCode(ev) ==> db'.secondFactor == db.secondFactor
    ensures forall d :: d in db'.devices && db'.devices[d].secondFactor.Some? ==>
      || (SendsCode(ev) && d == ev.device && db'.devices[d].secondFactor == Some(ev.loginEnd.row))
      || (d in db.devices && db.devices[d].secondFactor == db'.devices[d].secondFactor)
  {
    hide NewUsers, NewSettings, NewDetails, NewActivation, NewVerification, NewReset, MailFree, PhoneFree,
      PasswordFree, CodeFree, OwnerFree, DeviceFor, TwoFactor, PassesLogin;
  }

  lemma SendStep(cfg: Config, db: Database, ev: Event, db': Database)
    requires DbStep(cfg, db, ev, db') && SendsCode(ev)
    ensures PassesLogin(cfg, db, ev.uid, ev.mail, ev.password) && TwoFactor(db, ev.uid)
    ensures TokenOf(ev).None?
  {
  }

  lemma TokenCodeStep(cfg: Config, db: Database, ev: Event, db': Database)
    requires DbStep(cfg, db, ev, db') && ev.CodeVerified?
    ensures HoldsSecondFactor(db, ev.row, ev.code, ev.uid)
    ensures ev.device in db.devices && db.devices[ev.device].secondFactor == Some(ev.row)
    ensures ev.now <= db.secondFactor[ev.row].expiresAt
  {
  }

  ghost predicate LinkedOnly(devices: map<int, Device>, row: int, device: int) {
    forall d :: d in devices && devices[d].secondFactor == Some(row) ==> d == device
  }

  /** A row that an event did not send is an old one with its code and expiry, and no device came to it. */
  lemma OldRowStep(cfg: Config, db: Database, ev: Event, db': Database, row: int, device: int)
    requires DbStep(cfg, db, ev, db') && row in db'.secondFactor
    requires !(SendsCode(ev) && ev.loginEnd.row == row)
    ensures row in db.secondFactor
    ensures var r, r' := db.secondFactor[row], db'.secondFactor[row];
      r'.code == r.code && r'.expiresAt == r.expiresAt && (r'.owner == None || r'.owner == r.owner)
    ensures LinkedOnly(db.devices, row, device) ==> LinkedOnly(db'.devices, row, device)
  {
    SecondFactorStep(cfg, db, ev, db');
    hide DbStep;
  }

  lemma NewRowStep(cfg: Config, db: Database, ev: Event, db': Database)
    requires DbStep(cfg, db, ev, db') && SendsCode(ev) && DevicesLinked(db.devices, db.secondFactor)
    ensures ev.loginEnd.row in db'.secondFactor
    ensures db'.secondFactor[ev.loginEnd.row] == SecondFactor(ev.loginEnd.code, Some(ev.uid), ev.loginEnd.expiresAt)
    ensures LinkedOnly(db'.devices, ev.loginEnd.row, ev.device)
  {
    SecondFactorStep(cfg, db, ev, db');
    hide DbStep;
  }

  /** Event i is a login that passed the password check on an active two-factor account and sent this code. */
  ghost predicate SentBy(cfg: Config, states: seq<State>, evs: seq<Event>, i: nat, row: int, code: string, uid: int)
    requires Run(cfg, states, evs)
  {
    && i < |evs| && SendsCode(evs[i])
    && evs[i].loginEnd.row == row && evs[i].loginEnd.code == code && evs[i].uid == uid
    && PassesLogin(cfg, states[i].db, uid, evs[i].mail, evs[i].password)
    && TwoFactor(states[i].db, uid)
  }

  /** Every stored second factor was sent by one login, and only the device of that login points at it. */
  lemma {:induction false} SecondFactorOrigin(cfg: Config, states: seq<State>, evs: seq<Event>, k: nat, row: int)
    returns (i: nat)
    requires Run(cfg, states, evs) && Consistent(states[0].db) && states[0].db.secondFactor == map[]
    requires k <= |evs| && row in states[k].db.secondFactor
    ensures i < k && SendsCode(evs[i])
    ensures SentBy(cfg, states, evs, i, row, states[k].db.secondFactor[row].code, evs[i].uid)
    ensures states[k].db.secondFactor[row].expiresAt == evs[i].loginEnd.expiresAt
    ensures states[k].db.secondFactor[row].owner in {None, Some(evs[i].uid)}
    ensures LinkedOnly(states[k].db.devices, row, evs[i].device)
  {
    var db, ev, db' := states[k - 1].db, evs[k - 1], states[k].db;
    assert DbStep(cfg, db, ev, db');
    if SendsCode(ev) && ev.loginEnd.row == row {
      RunConsistent(cfg, states, evs, k - 1);
      NewRowStep(cfg, db, ev, db');
      SendStep(cfg, db, ev, db');
      i := k - 1;
    } else {
      hide Consistent, DbStep, LinkedOnly, PassesLogin, TwoFactor;
      OldRowStep(cfg, db, ev, db', row, 0);
      i := SecondFactorOrigin(cfg, states, evs, k - 1, row);
      OldRowStep(cfg, db, ev, db', row, evs[i].device);
    }
  }

  /** Every token that VerifySecondFactor issues is for the user and the device of an earlier login that
      passed the password check on an active two-factor account and sent the code that was presented, and
      that code had not expired. */
  lemma SecondFactorTokenHasLogin(cfg: Config, states: seq<State>, evs: seq<Event>, j: nat)
    requires Run(cfg, states, evs) && Consistent(states[0].db) && states[0].db.secondFactor == map[]
    requires j < |evs| && evs[j].CodeVerified?
    ensures exists i: nat ::
      && i < j && SentBy(cfg, states, evs, i, evs[j].row, evs[j].code, evs[j].uid)
      && evs[i].device == evs[j].device && evs[j].now <= evs[i].loginEnd.expiresAt && TokenOf(evs[i]).None?
  {
    TokenCodeStep(cfg, states[j].db, evs[j], states[j + 1].db);
    var i := SecondFactorOrigin(cfg, states, evs, j, evs[j].row);
    SendStep(cfg, states[i].db, evs[i], states[i + 1].db);
  }

  lemma {:induction false} RowStays(cfg: Config, states: seq<State>, evs: seq<Event>, i: nat, j: nat, row: int)
    requires Run(cfg, states, evs) && i <= j <= |evs| && row in states[i].db.secondFactor
    ensures row in states[j].db.secondFactor
    ensures states[i].db.secondFactor[row].owner.None? ==> states[j].db.secondFactor[row].owner.None?
    decreases j
  {
    if i < j {
      RowStays(cfg, states, evs, i, j - 1, row);
      SecondFactorStep(cfg, states[j - 1].db, evs[j - 1], states[j].db);
      hide DbStep;
    }
  }

  /** Two logins never send the same row, so a row names its login. */
  lemma SendsDistinctRows(cfg: Config, states: seq<State>, evs: seq<Event>, i: nat, j: nat)
    requires Run(cfg, states, evs) && i < j < |evs| && SendsCode(evs[i]) && SendsCode(evs[j])
    ensures evs[i].loginEnd.row != evs[j].loginEnd.row
  {
    SecondFactorStep(cfg, states[i].db, evs[i], states[i + 1].db);
    RowStays(cfg, states, evs, i + 1, j, evs[i].loginEnd.row);
    SecondFactorStep(cfg, states[j].db, evs[j], states[j + 1].db);
  }

  /** Of the tokens issued for one login, only the last can have removed its code: once a removal commits,
      the login yields no further token. */
  lemma OneTokenPerRemoval(cfg: Config, states: seq<State>, evs: seq<Event>, i: nat, j: nat)
    requires Run(cfg, states, evs) && i < j < |evs|
    requires evs[i].CodeVerified? && evs[j].CodeVerified? && evs[i].row == evs[j].row
    ensures !evs[i].removed
  {
    SecondFactorStep(cfg, states[i].db, evs[i], states[i + 1].db);
    TokenCodeStep(cfg, states[i].db, evs[i], states[i + 1].db);
    RowStays(cfg, states, evs, i + 1, j, evs[i].row);
    TokenCodeStep(cfg, states[j].db, evs[j], states[j + 1].db);
  }

  /** Further calls with the code of an event, at the given times, whose removals do not commit. */
  function Calls(ev: Event, times: seq<int>): seq<Event>
    requires ev.CodeVerified?
  {
    seq(|times|, i requires 0 <= i < |times| => CodeVerified(ev.code, ev.row, ev.uid, times[i], ev.device, false))
  }

  lemma CallAllowed(cfg: Config, s: State, ev: Event, t: State, now: int)
    requires Step(cfg, s, ev, t) && ev.CodeVerified? && !ev.removed
    ensures t == s && ev.row in t.db.secondFactor
    ensures Step(cfg, t, CodeVerified(ev.code, ev.row, ev.uid, now, ev.device, false), t) <==>
      now <= t.db.secondFactor[ev.row].expiresAt
  {
  }

  lemma NeverRemoved(cfg: Config, s: State, ev: Event, t: State)
    requires Step(cfg, s, ev, t) && ev.CodeVerified? && !cfg.ownerNullable
    ensures !ev.removed
  {
  }

  /** A code that gave a token without being removed keeps giving tokens until it expires: further calls with
      it, any number of them and at any times, are a run if and only if none is later than its expiry.  With
      the schema as it is, where the owner of a second factor cannot be NULL, that is so after every token. */
  lemma ReuseWhileNotRemoved(cfg: Config, states: seq<State>, evs: seq<Event>, times: seq<int>)
    requires Run(cfg, states, evs) && evs != [] && evs[|evs| - 1].CodeVerified?
    requires !cfg.ownerNullable || !evs[|evs| - 1].removed
    ensures var ev, last := evs[|evs| - 1], states[|evs|];
      && ev.row in last.db.secondFactor
      && (Run(cfg, states + seq(|times|, _ => last), evs + Calls(ev, times)) <==>
          forall i :: 0 <= i < |times| ==> times[i] <= last.db.secondFactor[ev.row].expiresAt)
  {
    var n := |evs|;
    var s, ev, t := states[n - 1], evs[n - 1], states[n];
    assert Step(cfg, s, ev, t);
    if !cfg.ownerNullable {
      NeverRemoved(cfg, s, ev, t);
    }
    CallAllowed(cfg, s, ev, t, ev.now);
    var states', evs' := states + seq(|times|, _ => t), evs + Calls(ev, times);
    forall i | 0 <= i < |times|
      ensures Step(cfg, states'[n + i], evs'[n + i], states'[n + i + 1]) <==>
        times[i] <= t.db.secondFactor[ev.row].expiresAt
    {
      CallAllowed(cfg, s, ev, t, times[i]);
      assert states'[n + i] == t && states'[n + i + 1] == t;
    }
    hide Step;
    forall j | 0 <= j < n
      ensures Step(cfg, states'[j], evs'[j], states'[j + 1])
    {
      assert Step(cfg, states[j], evs[j], states[j + 1]);
    }
    if Run(cfg, states', evs') {
      forall i | 0 <= i < |times|
        ensures times[i] <= t.db.secondFactor[ev.row].expiresAt
      {
        assert Step(cfg, states'[n + i], evs'[n + i], states'[n + i + 1]);
      }
    } else {
      var j :| 0 <= j < |evs'| && !Step(cfg, states'[j], evs'[j], states'[j + 1]);
      assert j >= n && !(times[j - n] <= t.db.secondFactor[ev.row].expiresAt);
    }
  }

  /** No run that goes on from here issues another token for this row. */
  ghost predicate NoFurtherToken(cfg: Config, states: seq<State>, evs: seq<Event>, row: int) {
    forall states': seq<State>, evs': seq<Event> | Run(cfg, states', evs') && states <= states' && evs <= evs' ::
      forall j :: |evs| <= j < |evs'| ==> !(evs'[j].CodeVerified? && evs'[j].row == row)
  }

  /** A login has given its last token, whatever happens later, if and only if the removal of its code
      committed with that token. */
  lemma LastTokenIffRemoved(cfg: Config, states: seq<State>, evs: seq<Event>)
    requires Run(cfg, states, evs) && evs != [] && evs[|evs| - 1].CodeVerified?
    ensures NoFurtherToken(cfg, states, evs, evs[|evs| - 1].row) <==> evs[|evs| - 1].removed
  {
    var last := |evs| - 1;
    var ev := evs[last];
    if ev.removed {
      forall states': seq<State>, evs': seq<Event>, j |
          Run(cfg, states', evs') && states <= states' && evs <= evs' && |evs| <= j < |evs'|
        ensures !(evs'[j].CodeVerified? && evs'[j].row == ev.row)
      {
        assert evs'[last] == ev;
        if evs'[j].CodeVerified? && evs'[j].row == ev.row {
          OneTokenPerRemoval(cfg, states', evs', last, j);
        }
      }
    } else {
      TokenCodeStep(cfg, states[last].db, ev, states[last + 1].db);
      CallAllowed(cfg, states[last], ev, states[last + 1], ev.now);
      ReuseWhileNotRemoved(cfg, states, evs, [ev.now]);
      var states', evs' := states + seq(1, _ => states[|evs|]), evs + Calls(ev, [ev.now]);
      assert states <= states' && evs <= evs';
      assert evs'[|evs|].CodeVerified? && evs'[|evs|].row == ev.row;
    }
  }

  /** A second factor row stays as it is until its user's removal. */
  lemma {:induction false} OwnerStays(cfg: Config, states: seq<State>, evs: seq<Event>, i: nat, j: nat, row: int)
    requires Run(cfg, states, evs) && i <= j <= |evs| && row in states[i].db.secondFactor
    requires forall k :: i <= k < j && RemovesCode(evs[k]) ==>
      Some(evs[k].uid) != states[i].db.secondFactor[row].owner
    ensures row in states[j].db.secondFactor
    ensures states[j].db.secondFactor[row] == states[i].db.secondFactor[row]
    decreases j
  {
    if i < j {
      OwnerStays(cfg, states, evs, i, j - 1, row);
      SecondFactorStep(cfg, states[j - 1].db, evs[j - 1], states[j].db);
      hide DbStep;
    }
  }

  /** An owner that is gone was cleared by a removal, which the schema had to permit. */
  lemma {:induction false} RemovedBetween(cfg: Config, states: seq<State>, evs: seq<Event>, i: nat, j: nat, row: int,
                                          uid: int)
    returns (k: nat)
    requires Run(cfg, states, evs) && i <= j <= |evs| && row in states[i].db.secondFactor
    requires states[i].db.secondFactor[row].owner == Some(uid)
    requires row in states[j].db.secondFactor && states[j].db.secondFactor[row].owner != Some(uid)
    ensures i <= k < j && RemovesCode(evs[k]) && evs[k].uid == uid && cfg.ownerNullable
    decreases j
  {
    SecondFactorStep(cfg, states[j - 1].db, evs[j - 1], states[j].db);
    RowStays(cfg, states, evs, i, j - 1, row);
    hide DbStep;
    if states[j - 1].db.secondFactor[row].owner == Some(uid) {
      k := j - 1;
    } else {
      k := RemovedBetween(cfg, states, evs, i, j - 1, row, uid);
    }
  }

  /** A user is sent a second code only after the first one was removed; with the shipped schema, never. */
  lemma SecondCodeNeedsRemoval(cfg: Config, states: seq<State>, evs: seq<Event>, i: nat, j: nat)
    requires Run(cfg, states, evs) && i < j < |evs|
    requires SendsCode(evs[i]) && SendsCode(evs[j]) && evs[i].uid == evs[j].uid
    ensures cfg.ownerNullable
    ensures exists k :: i < k < j && RemovesCode(evs[k]) && evs[k].uid == evs[i].uid
  {
    var row, uid := evs[i].loginEnd.row, evs[i].uid;
    SecondFactorStep(cfg, states[i].db, evs[i], states[i + 1].db);
    SecondFactorStep(cfg, states[j].db, evs[j], states[j + 1].db);
    RowStays(cfg, states, evs, i + 1, j, row);
    var k := RemovedBetween(cfg, states, evs, i + 1, j, row, uid);
  }
}
