/** The user cache beside the database: every live entry equals the current columns of its user, because each
    mutator deletes all keys under which its user can be cached. */
module AccountCache {
  import opened Wrappers
  import opened Accounts
  import opened AccountInvariants
  import opened CacheKeys

  /** Every entry is under a key of its own user, as that user's mail is now, and shows the current columns. */
  ghost predicate Coherent(s: State) {
    forall k :: k in s.cache ==> EntryCurrent(s, k)
  }

  ghost predicate EntryCurrent(s: State, k: string)
    requires k in s.cache
  {
    var entry := s.cache[k];
    && entry.uid in s.db.users
    && k in GetAllUserKeys(entry.uid, s.db.users[entry.uid].mail)
    && entry.user == Exported(s.db.users[entry.uid])
  }

  /** What a reader gets under any key of a user is that user's current row, never another's. */
  lemma CoherentReads(s: State, uid: int, key: string)
    requires Coherent(s) && Consistent(s.db) && uid in s.db.users
    requires key in GetAllUserKeys(uid, s.db.users[uid].mail) && key in s.cache
    ensures s.cache[key] == Snapshot(uid, Exported(s.db.users[uid]))
  {
    hide Complete, CodesSound, UniqueDevices, DevicesLinked, PublicKey, IdKey, MailKey;
    assert EntryCurrent(s, key);
    var other := s.cache[key].uid;
    if other != uid {
      NoSharedKey(uid, s.db.users[uid].mail, other, s.db.users[other].mail, key);
    }
  }

  lemma {:induction false} WrittenKeys(cache: Cache, keys: seq<string>, entry: Snapshot, k: string)
    requires k in WriteKeys(cache, keys, entry)
    ensures (k in keys && WriteKeys(cache, keys, entry)[k] == entry)
      || (k in cache && WriteKeys(cache, keys, entry)[k] == cache[k])
    decreases |keys|
  {
    if |keys| > 0 {
      WrittenKeys(cache[keys[0] := entry], keys[1..], entry, k);
    }
  }

  /** The row of one user is what changes at most: the one the event is for. */
  lemma UsersStep(cfg: Config, db: Database, ev: Event, db': Database, uid: int)
    requires DbStep(cfg, db, ev, db') && uid in db.users
    ensures uid in db'.users
    ensures !(ChangesUser(ev) && ev.uid == uid) ==> db'.users[uid] == db.users[uid]
  {
    hide NewSettings, NewDetails, NewDevices, NewActivation, NewVerification, NewReset, NewSecondFactor;
  }

  lemma PanicStep(cfg: Config, db: Database, ev: Event, db': Database)
    requires DbStep(cfg, db, ev, db') && ev.Verified?
    ensures ev.uid in db.users && ev.uid in db'.users && db'.users[ev.uid] == db.users[ev.uid].(verified := true)
  {
    hide NewSettings, NewDetails, NewDevices, NewActivation, NewVerification, NewReset, NewSecondFactor;
  }

  predicate Panics(ev: Event) {
    ev.Verified? && ev.verifyEnd.Panicked?
  }

  /** An entry that is left after an event is current again, unless the event changed its user and panicked
      before it could invalidate. */
  lemma EntryStep(cfg: Config, s: State, ev: Event, t: State, k: string)
    requires Coherent(s) && Step(cfg, s, ev, t) && k in t.cache
    requires !(Panics(ev) && k in s.cache && s.cache[k].uid == ev.uid)
    ensures EntryCurrent(t, k)
  {
    assert k in s.cache ==> EntryCurrent(s, k);
    if ev.Cached? {
      var user := s.db.users[ev.uid];
      var keys := GetUserKeys(ev.uid, user.mail, ev.hasDetails);
      UsersStep(cfg, s.db, ev, t.db, ev.uid);
      hide Allowed, NewDatabase, GetUserKeys, GetAllUserKeys;
      WrittenKeys(s.cache, keys, Snapshot(ev.uid, Exported(user)), k);
      if k in keys {
        InvalidationCoversUpdate(ev.uid, user.mail, ev.hasDetails, k);
      }
      if t.cache[k] != Snapshot(ev.uid, Exported(user)) {
        UsersStep(cfg, s.db, ev, t.db, s.cache[k].uid);
      } else if k !in keys {
        assert k in s.cache && s.cache[k] == t.cache[k];
      }
    } else {
      UsersStep(cfg, s.db, ev, t.db, s.cache[k].uid);
      hide NewDatabase, Allowed, PublicKey, IdKey, MailKey;
    }
  }

  /** The one way to leave the cache stale: VerifyAccount commits, fails to read the user back and panics on
      the missing user before it has deleted a key, while that user, not verified before, has a live entry. */
  ghost predicate LeavesStale(s: State, ev: Event) {
    && Panics(ev)
    && ev.uid in s.db.users && !s.db.users[ev.uid].verified
    && exists k :: k in s.cache && s.cache[k].uid == ev.uid
  }

  /** A coherent cache stays coherent if and only if the event is not such a panic. */
  lemma StepCoherent(cfg: Config, s: State, ev: Event, t: State)
    requires Coherent(s) && Step(cfg, s, ev, t)
    ensures Coherent(t) <==> !LeavesStale(s, ev)
  {
    if LeavesStale(s, ev) {
      var k :| k in s.cache && s.cache[k].uid == ev.uid;
      PanicStep(cfg, s.db, ev, t.db);
      hide DbStep, PublicKey, IdKey, MailKey;
      assert EntryCurrent(s, k);
      assert t.cache[k] == s.cache[k];
      assert !EntryCurrent(t, k);
    } else {
      forall k | k in t.cache
        ensures EntryCurrent(t, k)
      {
        if Panics(ev) && k in s.cache && s.cache[k].uid == ev.uid {
          PanicStep(cfg, s.db, ev, t.db);
          hide DbStep, PublicKey, IdKey, MailKey;
          assert EntryCurrent(s, k);
          assert t.cache == s.cache;
          assert s.db.users[ev.uid].verified;
        } else {
          EntryStep(cfg, s, ev, t, k);
        }
      }
    }
  }

  /** From any state in which a visible user is not verified and has a verification code: cached, and then
      verified by a call that panics. */
  lemma StaleEntryReachable(cfg: Config, s: State, code: string, row: int, uid: int)
    returns (states: seq<State>, evs: seq<Event>)
    requires Coherent(s) && HoldsCode(s.db.verification, row, code, uid) && Visible(s.db, uid)
    requires !s.db.users[uid].verified
    ensures Run(cfg, states, evs) && states[0] == s && !Coherent(states[|evs|])
  {
    evs := [Cached(uid, false), Verified(code, row, uid, Panicked)];
    var keys, entry := [PublicKey(uid)], Snapshot(uid, Exported(s.db.users[uid]));
    assert WriteKeys(s.cache, keys, entry) == s.cache[PublicKey(uid) := entry];
    var s1 := State(NewDatabase(cfg, s.db, evs[0]), NewCache(cfg, s, evs[0]));
    assert s1.db == s.db;
    assert Allowed(cfg, s1.db, evs[1]);
    var s2 := State(NewDatabase(cfg, s1.db, evs[1]), NewCache(cfg, s1, evs[1]));
    states := [s, s1, s2];
    StepCoherent(cfg, s, evs[0], s1);
    assert s1.cache[PublicKey(uid)].uid == uid;
    StepCoherent(cfg, s1, evs[1], s2);
  }

  /** One registered user who has a verification code. */
  function OneUser(uid: int, mail: string, password: string, name: string, token: string, code: string): Database {
    Database(map[uid := User(mail, None, password, true, false, false, false, [])],
             map[uid := Owned(uid, false)], map[uid := Owned(uid, name)],
             map[uid := Device(uid, token, None)], map[], map[uid := Owned(uid, code)], map[], map[])
  }

  lemma OneUserConsistent(uid: int, mail: string, password: string, name: string, token: string, code: string)
    ensures Consistent(OneUser(uid, mail, password, name, token, code))
  {
    var db := OneUser(uid, mail, password, name, token, code);
    assert db.settings[uid].owner == uid && db.details[uid].owner == uid && db.devices[uid].owner == uid;
  }

  /** It happens, from a consistent database and an empty cache. */
  lemma StaleEntryHappens(cfg: Config, uid: int, mail: string, password: string, name: string, token: string,
                          code: string)
    ensures var s := State(OneUser(uid, mail, password, name, token, code), map[]);
      && Consistent(s.db) && Coherent(s)
      && exists states, evs :: Run(cfg, states, evs) && states[0] == s && !Coherent(states[|evs|])
  {
    OneUserConsistent(uid, mail, password, name, token, code);
    var s := State(OneUser(uid, mail, password, name, token, code), map[]);
    hide Consistent;
    var states, evs := StaleEntryReachable(cfg, s, code, uid, uid);
  }

  /** In every run without such a panic, the cache is coherent all along. */
  lemma {:induction false} RunCoherent(cfg: Config, states: seq<State>, evs: seq<Event>, i: nat)
    requires Run(cfg, states, evs) && Coherent(states[0]) && i <= |evs|
    requires forall j :: 0 <= j < i ==> !LeavesStale(states[j], evs[j])
    ensures Coherent(states[i])
  {
    hide Coherent, LeavesStale, Step;
    if i > 0 {
      RunCoherent(cfg, states, evs, i - 1);
      StepCoherent(cfg, states[i - 1], evs[i - 1], states[i]);
    }
  }
}
