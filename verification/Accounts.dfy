/** The account and code life cycle: the tables of app/models/ent/migrate/schema.go and what each call of
    app/services/auth_service.go and app/services/users_service.go does to them and to the user cache.

    A run is a sequence of events: what a service call changed, the tokens it issued, and what happens to the
    cache meanwhile.  An event holds every choice the call left open: generated row ids, drawn codes, the
    clock, and how far the call got.  A call that is refused or rolled back before it changed anything is no
    event. */
module Accounts {
  import opened Wrappers
  import opened Base64
  import Codes
  import CacheKeys

  // ---------- tables ----------

  datatype User = User(mail: string, phone: Option<string>, password: string, active: bool, verified: bool,
                       blacklisted: bool, removed: bool, subscriptions: seq<int>)

  /** A row of a table with a unique foreign key to its user. */
  datatype Owned<+T> = Owned(owner: int, value: T)

  datatype Device = Device(owner: int, token: string, secondFactor: Option<int>)

  datatype SecondFactor = SecondFactor(code: string, owner: Option<int>, expiresAt: int)

  type CodeTable = map<int, Owned<string>>

  datatype Database = Database(
    users: map<int, User>,
    settings: map<int, Owned<bool>>,      // two_factor
    details: map<int, Owned<string>>,     // name
    devices: map<int, Device>,
    activation: CodeTable,
    verification: CodeTable,
    reset: CodeTable,
    secondFactor: map<int, SecondFactor>)

  /** A cached user: the columns that JSON exports. */
  datatype Snapshot = Snapshot(uid: int, user: User)

  type Cache = map<string, Snapshot>

  datatype State = State(db: Database, cache: Cache)

  /** hash prints a password with its salt, accepts compares a printed hash with a password (module
      PasswordHash).  ownerNullable: may second_factor_codes.user_second_factor_code be NULL?  In the
      schema it may not. */
  datatype Config = Config(hash: (string, seq<Byte>) -> string, accepts: (string, string) -> bool,
                           ownerNullable: bool)

  // ---------- events ----------

  datatype NewRows = NewRows(user: int, settings: int, details: int, device: int, activation: int)

  datatype VerifyEnd = Panicked | NoDevice | VerifiedDevice(token: string, device: int, issued: bool)

  datatype LoginEnd = DeviceOnly | CodeSent(row: int, code: string, expiresAt: int) | LoginToken

  datatype Event =
    | Registered(rows: NewRows, mail: string, name: string, password: string, salt: seq<Byte>, token: string,
                 code: string)
    | Activated(code: string, row: int, uid: int)
    | Verified(code: string, row: int, uid: int, verifyEnd: VerifyEnd)
    | LoggedIn(mail: string, password: string, uid: int, token: string, device: int, loginEnd: LoginEnd)
    | CodeVerified(code: string, row: int, uid: int, now: int, device: int, removed: bool)
    | CodeCleared(uid: int, mail: string)   // the removal an expired code started on its own thread, whenever it runs
    | ResetRequested(mail: string, uid: int, row: int, code: string)
    | ResetRemoved(uid: int, row: int)
    | PasswordChanged(code: string, row: int, uid: int, password: string, salt: seq<Byte>)
    | SettingsChanged(uid: int, row: int, twoFactor: bool)
    | ProfileChanged(uid: int, mail: string, phone: string)
    | SubscriptionsChanged(uid: int, subscriptions: seq<int>)
    | AccountRemoved(uid: int)
    | Cached(uid: int, hasDetails: bool)
    | Invalidated(uid: int)
    | Dropped(key: string)

  /** The (user, device) a token was issued for. */
  function TokenOf(ev: Event): Option<(int, int)> {
    match ev
    case Verified(_, _, uid, VerifiedDevice(_, device, true)) => Some((uid, device))
    case LoggedIn(_, _, uid, _, device, LoginToken) => Some((uid, device))
    case CodeVerified(_, _, uid, _, device, _) => Some((uid, device))
    case _ => None
  }

  // ---------- lookups and constraints ----------

  /** The filter every with*() query starts with. */
  predicate Visible(db: Database, uid: int) {
    uid in db.users && !db.users[uid].blacklisted && !db.users[uid].removed
  }

  predicate CodeFree(table: CodeTable, code: string) {
    forall r :: r in table ==> table[r].value != code
  }

  predicate OwnerFree<T>(table: map<int, Owned<T>>, uid: int) {
    forall r :: r in table ==> table[r].owner != uid
  }

  predicate HoldsCode(table: CodeTable, row: int, code: string, uid: int) {
    row in table && table[row].value == code && table[row].owner == uid
  }

  predicate MailFree(db: Database, uid: int, mail: string) {
    forall v :: v in db.users && v != uid ==> db.users[v].mail != mail
  }

  predicate PhoneFree(db: Database, uid: int, phone: Option<string>) {
    phone.Some? ==> forall v :: v in db.users && v != uid ==> db.users[v].phone != phone
  }

  predicate PasswordFree(db: Database, uid: int, password: string) {
    forall v :: v in db.users && v != uid ==> db.users[v].password != password
  }

  predicate TwoFactor(db: Database, uid: int) {
    exists r :: r in db.settings && db.settings[r] == Owned(uid, true)
  }

  /** The row FindOrCreateDevice ends with: the one with this owner and token, or else a new one. */
  predicate DeviceFor(db: Database, uid: int, token: string, device: int) {
    if device in db.devices then db.devices[device].owner == uid && db.devices[device].token == token
    else forall d :: d in db.devices ==> !(db.devices[d].owner == uid && db.devices[d].token == token)
  }

  predicate HoldsSecondFactor(db: Database, row: int, code: string, uid: int) {
    row in db.secondFactor && db.secondFactor[row].code == code && db.secondFactor[row].owner == Some(uid)
  }

  predicate OwnsNone(secondFactor: map<int, SecondFactor>, uid: int) {
    forall r :: r in secondFactor ==> secondFactor[r].owner != Some(uid)
  }

  predicate SecondFactorFree(db: Database, row: int, code: string, uid: int) {
    && row !in db.secondFactor && OwnsNone(db.secondFactor, uid)
    && forall r :: r in db.secondFactor ==> db.secondFactor[r].code != code
  }

  /** What Login checks before it does anything. */
  predicate PassesLogin(cfg: Config, db: Database, uid: int, mail: string, password: string) {
    && Visible(db, uid)
    && db.users[uid].mail == mail
    && db.users[uid].active
    && cfg.accepts(db.users[uid].password, password)
  }

  function PhoneText(phone: Option<string>): string {
    if phone.Some? then phone.value else ""
  }

  /** An empty request phone leaves a missing one missing. */
  function NewPhone(stored: Option<string>, phone: string): Option<string> {
    if phone != PhoneText(stored) then Some(phone) else stored
  }

  // ---------- when an event can happen ----------

  predicate Allowed(cfg: Config, db: Database, ev: Event) {
    match ev
    case Registered(rows, mail, _, password, salt, _, code) =>
      && rows.user !in db.users && rows.settings !in db.settings && rows.details !in db.details
      && rows.device !in db.devices && rows.activation !in db.activation
      && MailFree(db, rows.user, mail)
      && PasswordFree(db, rows.user, cfg.hash(password, salt))
      && CodeFree(db.activation, code) && Codes.TokenFormat(code)
    case Activated(code, row, uid) => HoldsCode(db.activation, row, code, uid) && Visible(db, uid)
    case Verified(code, row, uid, end) =>
      && HoldsCode(db.verification, row, code, uid) && Visible(db, uid)
      && (end.VerifiedDevice? ==> DeviceFor(db, uid, end.token, end.device))
    case LoggedIn(mail, password, uid, token, device, end) =>
      && PassesLogin(cfg, db, uid, mail, password)
      && DeviceFor(db, uid, token, device)
      && (end.LoginToken? ==> !TwoFactor(db, uid))
      && (end.CodeSent? ==> TwoFactor(db, uid) && SecondFactorFree(db, end.row, end.code, uid)
                            && Codes.TokenFormat(end.code))
    case CodeVerified(code, row, uid, now, device, removed) =>
      && HoldsSecondFactor(db, row, code, uid) && Visible(db, uid)
      && now <= db.secondFactor[row].expiresAt
      && device in db.devices && db.devices[device].secondFactor == Some(row)
      && (removed ==> cfg.ownerNullable)
    case CodeCleared(uid, _) => uid in db.users && (cfg.ownerNullable || OwnsNone(db.secondFactor, uid))
    case ResetRequested(mail, uid, row, code) =>
      && Visible(db, uid) && db.users[uid].mail == mail
      && row !in db.reset && OwnerFree(db.reset, uid) && CodeFree(db.reset, code) && Codes.TokenFormat(code)
    case ResetRemoved(uid, row) => Visible(db, uid) && row in db.reset && db.reset[row].owner == uid
    case PasswordChanged(code, row, uid, password, salt) =>
      && HoldsCode(db.reset, row, code, uid) && Visible(db, uid)
      && PasswordFree(db, uid, cfg.hash(password, salt))
    case SettingsChanged(uid, row, _) => Visible(db, uid) && row in db.settings && db.settings[row].owner == uid
    case ProfileChanged(uid, mail, phone) =>
      Visible(db, uid) && MailFree(db, uid, mail) && PhoneFree(db, uid, NewPhone(db.users[uid].phone, phone))
    case SubscriptionsChanged(uid, _) => Visible(db, uid)
    case AccountRemoved(uid) => Visible(db, uid)
    case Cached(uid, _) => uid in db.users
    case Invalidated(uid) => uid in db.users
    case Dropped(_) => true
  }

  // ---------- what an event does, table by table ----------

  /** The columns of its user that an event writes. */
  function Changed(cfg: Config, user: User, ev: Event): User {
    match ev
    case Activated(_, _, _) => user.(active := true)
    case Verified(_, _, _, _) => user.(verified := true)
    case PasswordChanged(_, _, _, password, salt) => user.(password := cfg.hash(password, salt))
    case ProfileChanged(_, mail, phone) => user.(mail := mail, phone := NewPhone(user.phone, phone))
    case SubscriptionsChanged(_, subscriptions) => user.(subscriptions := subscriptions)
    case AccountRemoved(_) => user.(removed := true)
    case _ => user
  }

  predicate ChangesUser(ev: Event) {
    ev.Activated? || ev.Verified? || ev.PasswordChanged? || ev.ProfileChanged? || ev.SubscriptionsChanged?
    || ev.AccountRemoved?
  }

  function NewUsers(cfg: Config, db: Database, ev: Event): map<int, User>
    requires Allowed(cfg, db, ev)
  {
    if ev.Registered? then
      db.users[ev.rows.user := User(ev.mail, None, cfg.hash(ev.password, ev.salt), false, false, false, false, [])]
    else if ChangesUser(ev) then db.users[ev.uid := Changed(cfg, db.users[ev.uid], ev)]
    else db.users
  }

  function NewSettings(db: Database, ev: Event): map<int, Owned<bool>> {
    if ev.Registered? then db.settings[ev.rows.settings := Owned(ev.rows.user, false)]
    else if ev.SettingsChanged? then db.settings[ev.row := Owned(ev.uid, ev.twoFactor)]
    else db.settings
  }

  function NewDetails(db: Database, ev: Event): map<int, Owned<string>> {
    if ev.Registered? then db.details[ev.rows.details := Owned(ev.rows.user, ev.name)] else db.details
  }

  function AddDevice(devices: map<int, Device>, uid: int, token: string, device: int): map<int, Device> {
    if device in devices then devices else devices[device := Device(uid, token, None)]
  }

  function LinkDevice(devices: map<int, Device>, device: int, row: int): map<int, Device>
    requires device in devices
  {
    devices[device := devices[device].(secondFactor := Some(row))]
  }

  function NewDevices(db: Database, ev: Event): map<int, Device> {
    if ev.Registered? then db.devices[ev.rows.device := Device(ev.rows.user, ev.token, None)]
    else if ev.Verified? && ev.verifyEnd.VerifiedDevice? then
      AddDevice(db.devices, ev.uid, ev.verifyEnd.token, ev.verifyEnd.device)
    else if ev.LoggedIn? then
      var devices := AddDevice(db.devices, ev.uid, ev.token, ev.device);
      if SendsCode(ev) then LinkDevice(devices, ev.device, ev.loginEnd.row) else devices
    else db.devices
  }

  function DeleteCode(table: CodeTable, code: string): CodeTable {
    map r | r in table && table[r].value != code :: table[r]
  }

  function NewActivation(db: Database, ev: Event): CodeTable {
    if ev.Registered? then db.activation[ev.rows.activation := Owned(ev.rows.user, ev.code)]
    else if ev.Activated? then DeleteCode(db.activation, ev.code)
    else db.activation
  }

  function NewVerification(db: Database, ev: Event): CodeTable {
    if ev.Verified? then DeleteCode(db.verification, ev.code) else db.verification
  }

  function NewReset(db: Database, ev: Event): CodeTable {
    if ev.ResetRequested? then db.reset[ev.row := Owned(ev.uid, ev.code)]
    else if ev.ResetRemoved? then db.reset - {ev.row}
    else db.reset
  }

  predicate SendsCode(ev: Event) {
    ev.LoggedIn? && ev.loginEnd.CodeSent?
  }

  predicate RemovesCode(ev: Event) {
    ev.CodeCleared? || (ev.CodeVerified? && ev.removed)
  }

  /** Removal clears the owner of whatever row the user owns by then: the row itself stays. */
  function Unowned(secondFactor: map<int, SecondFactor>, uid: int): map<int, SecondFactor> {
    map r | r in secondFactor ::
      if secondFactor[r].owner == Some(uid) then secondFactor[r].(owner := None) else secondFactor[r]
  }

  function NewSecondFactor(db: Database, ev: Event): map<int, SecondFactor> {
    if SendsCode(ev) then
      db.secondFactor[ev.loginEnd.row := SecondFactor(ev.loginEnd.code, Some(ev.uid), ev.loginEnd.expiresAt)]
    else if RemovesCode(ev) then Unowned(db.secondFactor, ev.uid)
    else db.secondFactor
  }

  function NewDatabase(cfg: Config, db: Database, ev: Event): Database
    requires Allowed(cfg, db, ev)
  {
    Database(NewUsers(cfg, db, ev), NewSettings(db, ev), NewDetails(db, ev), NewDevices(db, ev),
             NewActivation(db, ev), NewVerification(db, ev), NewReset(db, ev), NewSecondFactor(db, ev))
  }

  function Exported(user: User): User {
    user.(password := "")
  }

  function Invalidate(cache: Cache, uid: int, mail: string): Cache {
    map k | k in cache && k !in CacheKeys.GetAllUserKeys(uid, mail) :: cache[k]
  }

  function WriteKeys(cache: Cache, keys: seq<string>, entry: Snapshot): Cache
    decreases |keys|
  {
    if |keys| == 0 then cache else WriteKeys(cache[keys[0] := entry], keys[1..], entry)
  }

  /** The user whose keys the call deletes, with the snapshot it read before its update. */
  function Invalidates(s: State, ev: Event): Option<int> {
    match ev
    case Activated(_, _, uid) => Some(uid)
    case Verified(_, _, uid, end) => if end.Panicked? then None else Some(uid)
    case LoggedIn(_, _, uid, _, device, end) =>
      if end.CodeSent? || device !in s.db.devices then Some(uid) else None
    case CodeVerified(_, _, uid, _, _, removed) => if removed then Some(uid) else None
    case CodeCleared(uid, _) => Some(uid)
    case ResetRequested(_, uid, _, _) => Some(uid)
    case ResetRemoved(uid, _) => Some(uid)
    case PasswordChanged(_, _, uid, _, _) => Some(uid)
    case SettingsChanged(uid, _, _) => Some(uid)
    case ProfileChanged(uid, _, _) => Some(uid)
    case SubscriptionsChanged(uid, _) => Some(uid)
    case AccountRemoved(uid) => Some(uid)
    case Invalidated(uid) => Some(uid)
    case _ => None
  }

  function NewCache(cfg: Config, s: State, ev: Event): Cache
    requires Allowed(cfg, s.db, ev)
  {
    if Invalidates(s, ev).Some? then
      var uid := Invalidates(s, ev).value;
      Invalidate(s.cache, uid, if ev.CodeCleared? then ev.mail else s.db.users[uid].mail)
    else if ev.Cached? then
      var user := s.db.users[ev.uid];
      WriteKeys(s.cache, CacheKeys.GetUserKeys(ev.uid, user.mail, ev.hasDetails), Snapshot(ev.uid, Exported(user)))
    else if ev.Dropped? then s.cache - {ev.key}
    else s.cache
  }

  // ---------- runs ----------

  ghost predicate DbStep(cfg: Config, db: Database, ev: Event, db': Database) {
    Allowed(cfg, db, ev) && db' == NewDatabase(cfg, db, ev)
  }

  ghost predicate Step(cfg: Config, s: State, ev: Event, t: State) {
    DbStep(cfg, s.db, ev, t.db) && t.cache == NewCache(cfg, s, ev)
  }

  /** evs leads from states[0] through all the states. */
  ghost predicate Run(cfg: Config, states: seq<State>, evs: seq<Event>) {
    && |states| == |evs| + 1
    && forall i :: 0 <= i < |evs| ==> Step(cfg, states[i], evs[i], states[i + 1])
  }
}
