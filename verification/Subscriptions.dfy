/** The subscription event log: the poll, handle and commit loop of app/config/kafka.go, the handler of
    app/services/subscription_event_handler.go, and the repository calls it drives.

    A run is a sequence of steps over one partition's append-only log.  A crash, or a partition handed to
    another consumer, restarts delivery from the committed offset. */
module Subscriptions {
  import opened Wrappers

  datatype Event = Event(eventType: string, action: string, user: int, ids: seq<int>)

  /** The stored subscription lists of the users the handler's lookup can see. */
  type Store = map<int, seq<int>>

  datatype HandleError = UserNotFound | InvalidAction

  // ---------- specification of the handler ----------

  const PREFIX := "user.subscription."

  predicate IsSubscriptionEvent(eventType: string) {
    |eventType| >= 18 && eventType[..18] == PREFIX
  }

  function Remaining(subIDs: seq<int>, remIDs: seq<int>): seq<int> {
    if subIDs == [] then []
    else
      var rest := Remaining(subIDs[..|subIDs| - 1], remIDs);
      var last := subIDs[|subIDs| - 1];
      if last in remIDs then rest else rest + [last]
  }

  /** The ids of a request that the stored list lacks.  The test is against the stored list alone, so an
      id repeated in the request is repeated in the result. */
  function Missing(stored: seq<int>, subIDs: seq<int>): seq<int> {
    if subIDs == [] then []
    else
      var rest := Missing(stored, subIDs[..|subIDs| - 1]);
      var last := subIDs[|subIDs| - 1];
      if last in stored then rest else rest + [last]
  }

  function Handled(store: Store, e: Event): Store {
    if !IsSubscriptionEvent(e.eventType) || e.user !in store then store
    else if e.action == "remove" then store[e.user := Remaining(store[e.user], e.ids)]
    else if e.action == "add" then store[e.user := store[e.user] + Missing(store[e.user], e.ids)]
    else store
  }

  function Outcome(store: Store, e: Event): Option<HandleError> {
    if !IsSubscriptionEvent(e.eventType) then None
    else if e.user !in store then Some(UserNotFound)
    else if e.action == "remove" || e.action == "add" then None
    else Some(InvalidAction)
  }

  function HandledAll(store: Store, log: seq<Event>): Store {
    if log == [] then store
    else Handled(HandledAll(store, log[..|log| - 1]), log[|log| - 1])
  }

  // ---------- specification of the delivery protocol ----------

  /** `highest` is the highest offset ever delivered; the code does not store it. */
  datatype Delivery = Delivery(position: nat, committed: nat, highest: nat, store: Store)

  datatype Move =
    | Poll(commitFails: bool)   // take the next message, handle it, commit if the handler succeeded
    | CommitAt(offset: nat)     // any commit up to the position, such as the one on partition revocation
    | Crash                     // delivery restarts at the committed offset

  function Max(a: nat, b: nat): nat {
    if a < b then b else a
  }

  function Moved(log: seq<Event>, d: Delivery, m: Move): Delivery {
    match m
    case Poll(commitFails) =>
      if d.position >= |log| then d
      else
        var e := log[d.position];
        var next := d.position + 1;
        Delivery(next, if Outcome(d.store, e).None? && !commitFails then next else d.committed,
                 Max(d.highest, next), Handled(d.store, e))
    case CommitAt(offset) => if offset <= d.position then d.(committed := offset) else d
    case Crash => d.(position := d.committed)
  }

  function MovedAll(log: seq<Event>, d: Delivery, moves: seq<Move>): Delivery {
    if moves == [] then d else Moved(log, MovedAll(log, d, moves[..|moves| - 1]), moves[|moves| - 1])
  }

  // ---------- the consumer ----------

  /** The handler of an event succeeds: the event is none of its own, or the user is there and the action is one
      of the two. */
  predicate Succeeds(store: Store, e: Event) {
    !("user.subscription." <= e.eventType) || (e.user in store && (e.action == "add" || e.action == "remove"))
  }

  lemma SucceedsIff(store: Store, e: Event)
    ensures Outcome(store, e).None? <==> Succeeds(store, e)
  {
    OwnEvents(e);
  }

  lemma OwnEvents(e: Event)
    ensures IsSubscriptionEvent(e.eventType) <==> "user.subscription." <= e.eventType
  {
    if IsSubscriptionEvent(e.eventType) {
      assert e.eventType[..18] <= e.eventType;
    }
  }

  class Consumer {
    const log: seq<Event>
    var position: nat
    var committed: nat
    var store: Store
    ghost var highest: nat

    ghost function Snapshot(): Delivery
      reads this
    {
      Delivery(position, committed, highest, store)
    }

    constructor (log: seq<Event>, store: Store)
      ensures this.log == log && this.store == store && position == 0 && committed == 0
      ensures Snapshot() == Delivery(0, 0, 0, store)
    {
      this.log := log;
      this.store := store;
      position, committed, highest := 0, 0, 0;
    }

    method RemoveIDs(subIDs: seq<int>, remIDs: seq<int>) returns (result: seq<int>)
      ensures result == Remaining(subIDs, remIDs)
    {
      var remMap: map<int, bool> := map[];
      for i := 0 to |remIDs|
        invariant forall id :: id in remMap <==> id in remIDs[..i]
        invariant forall id :: id in remMap ==> remMap[id]
      {
        remMap := remMap[remIDs[i] := true];
      }
      result := [];
      for i := 0 to |subIDs|
        invariant result == Remaining(subIDs[..i], remIDs)
      {
        assert subIDs[..i + 1][..i] == subIDs[..i];
        assert remIDs[..|remIDs|] == remIDs;
        if subIDs[i] !in remMap || !remMap[subIDs[i]] {
          result := result + [subIDs[i]];
        }
      }
      assert subIDs[..|subIDs|] == subIDs;
    }

    method RemoveSubscriptions(user: int, subIDs: seq<int>)
      requires user in store
      modifies this`store
      ensures store == old(store)[user := Remaining(old(store)[user], subIDs)]
    {
      var newSubIDs := RemoveIDs(store[user], subIDs);
      store := store[user := newSubIDs];
    }

    method AddSubscriptions(user: int, subIDs: seq<int>)
      requires user in store
      modifies this`store
      ensures store == old(store)[user := old(store)[user] + Missing(old(store)[user], subIDs)]
    {
      var toAppend := [];
      for i := 0 to |subIDs|
        invariant store == old(store)
        invariant toAppend == Missing(store[user], subIDs[..i])
      {
        assert subIDs[..i + 1][..i] == subIDs[..i];
        if subIDs[i] !in store[user] {
          toAppend := toAppend + [subIDs[i]];
        }
      }
      assert subIDs[..|subIDs|] == subIDs;
      if |toAppend| == 0 {
        assert store[user] + [] == store[user];
        return;
      }
      store := store[user := store[user] + toAppend];
    }

    method Handle(e: Event) returns (error: Option<HandleError>)
      modifies this`store
      ensures store == Handled(old(store), e)
      ensures error == Outcome(old(store), e)
      ensures error.None? <==> Succeeds(old(store), e)
      ensures store.Keys == old(store).Keys && forall u :: u in store && u != e.user ==> store[u] == old(store)[u]
      ensures error.Some? || !("user.subscription." <= e.eventType) ==> store == old(store)
      ensures error.Some? ==> error == Some(if e.user in store then InvalidAction else UserNotFound)
      ensures error.None? && "user.subscription." <= e.eventType ==>
        && e.user in store
        && (forall id :: id in store[e.user] <==>
              if e.action == "add" then id in old(store)[e.user] || id in e.ids
              else id in old(store)[e.user] && id !in e.ids)
        && (e.action == "add" ==> old(store)[e.user] <= store[e.user])
    {
      SucceedsIff(store, e);
      OwnEvents(e);
      if e.user in store {
        ghost var list := store[e.user];
        forall id
          ensures id in Remaining(list, e.ids) <==> id in list && id !in e.ids
          ensures id in Missing(list, e.ids) <==> id in e.ids && id !in list
        {
          RemainingMembers(list, e.ids, id);
          MissingMembers(list, e.ids, id);
        }
      }
      if |e.eventType| >= 18 && e.eventType[..18] == PREFIX {
        if e.user !in store {
          return Some(UserNotFound);
        }
        if e.action == "remove" {
          RemoveSubscriptions(e.user, e.ids);
          return None;
        } else if e.action == "add" {
          AddSubscriptions(e.user, e.ids);
          return None;
        } else {
          return Some(InvalidAction);
        }
      }
      return None;
    }

    /** One turn of the loop; `commitFails` is the broker's answer to the commit. */
    method PollOnce(commitFails: bool)
      modifies this
      ensures Snapshot() == Moved(log, old(Snapshot()), Poll(commitFails))
      ensures position == if old(position) < |log| then old(position) + 1 else old(position)
      ensures committed ==
        if old(position) < |log| && Succeeds(old(store), log[old(position)]) && !commitFails then old(position) + 1
        else old(committed)
      ensures old(position) >= |log| ==> store == old(store)
    {
      if position >= |log| {
        return;
      }
      var e := log[position];
      position := position + 1;
      highest := Max(highest, position);
      var error := Handle(e);
      if error.Some? {
        return;
      }
      if !commitFails {
        committed := position;
      }
    }

    method CommitOffset(offset: nat)
      requires offset <= position
      modifies this
      ensures Snapshot() == Moved(log, old(Snapshot()), CommitAt(offset))
      ensures committed == offset && position == old(position) && store == old(store)
    {
      committed := offset;
    }

    method Restart()
      modifies this
      ensures Snapshot() == Moved(log, old(Snapshot()), Crash)
      ensures position == committed == old(committed) && store == old(store)
    {
      position := committed;
    }

    /** A restart right after an accepted commit redelivers nothing: the next message is the one after. */
    method PollThenRestart()
      modifies this
      ensures old(position) < |log| && Succeeds(old(store), log[old(position)]) ==>
        position == committed == old(position) + 1
    {
      PollOnce(false);
      Restart();
    }
  }

  // ---------- what one event does to one user's subscription to one id ----------

  ghost predicate SameSubscriptions(a: Store, b: Store) {
    a.Keys == b.Keys && forall u, id :: u in a ==> (id in a[u] <==> id in b[u])
  }

  datatype Effect = Keeps | Adds | Removes

  function EffectOn(e: Event, u: int, id: int): Effect {
    if !IsSubscriptionEvent(e.eventType) || e.user != u || id !in e.ids then Keeps
    else if e.action == "remove" then Removes
    else if e.action == "add" then Adds
    else Keeps
  }

  predicate Result(effect: Effect, had: bool) {
    effect.Adds? || (effect.Keeps? && had)
  }

  /** Which ids are appended, how often and in which order: each requested one that the list lacks, as the request
      has them. */
  lemma {:induction false} MissingInOrder(stored: seq<int>, a: seq<int>, b: seq<int>, x: int)
    ensures Missing(stored, a + b) == Missing(stored, a) + Missing(stored, b)
    ensures Missing(stored, [x]) == (if x in stored then [] else [x]) && Missing(stored, []) == []
  {
    assert [x][..0] == [];
    if b == [] {
      assert a + b == a;
    } else {
      MissingInOrder(stored, a, b[..|b| - 1], x);
      assert (a + b)[..|a + b| - 1] == a + b[..|b| - 1];
    }
  }

  /** Which ids are left, how often and in which order. */
  lemma {:induction false} RemainingInOrder(a: seq<int>, b: seq<int>, remIDs: seq<int>, x: int)
    ensures Remaining(a + b, remIDs) == Remaining(a, remIDs) + Remaining(b, remIDs)
    ensures Remaining([x], remIDs) == (if x in remIDs then [] else [x]) && Remaining([], remIDs) == []
  {
    assert [x][..0] == [];
    if b == [] {
      assert a + b == a;
    } else {
      RemainingInOrder(a, b[..|b| - 1], remIDs, x);
      assert (a + b)[..|a + b| - 1] == a + b[..|b| - 1];
    }
  }

  /** The last event of the log that names the user and the id wins. */
  function LastEffect(log: seq<Event>, u: int, id: int): Effect {
    if log == [] then Keeps
    else
      var e := EffectOn(log[|log| - 1], u, id);
      if e.Keeps? then LastEffect(log[..|log| - 1], u, id) else e
  }

  lemma {:induction false} RemainingMembers(subIDs: seq<int>, remIDs: seq<int>, id: int)
    ensures id in Remaining(subIDs, remIDs) <==> id in subIDs && id !in remIDs
  {
    if subIDs != [] {
      RemainingMembers(subIDs[..|subIDs| - 1], remIDs, id);
      assert subIDs == subIDs[..|subIDs| - 1] + [subIDs[|subIDs| - 1]];
    }
  }

  lemma {:induction false} MissingMembers(stored: seq<int>, subIDs: seq<int>, id: int)
    ensures id in Missing(stored, subIDs) <==> id in subIDs && id !in stored
  {
    if subIDs != [] {
      MissingMembers(stored, subIDs[..|subIDs| - 1], id);
      assert subIDs == subIDs[..|subIDs| - 1] + [subIDs[|subIDs| - 1]];
    }
  }

  lemma HandledMember(store: Store, e: Event, u: int, id: int)
    requires u in store
    ensures Handled(store, e).Keys == store.Keys
    ensures id in Handled(store, e)[u] <==> Result(EffectOn(e, u, id), id in store[u])
  {
    if e.user in store {
      RemainingMembers(store[e.user], e.ids, id);
      MissingMembers(store[e.user], e.ids, id);
    }
  }

  /** Last operation per id wins: a user ends up subscribed exactly when the last event naming the id
      adds it, or when no event names it and the subscription was there before. */
  lemma {:induction false} LastOperationWins(store: Store, log: seq<Event>, u: int, id: int)
    requires u in store
    ensures HandledAll(store, log).Keys == store.Keys
    ensures id in HandledAll(store, log)[u] <==> Result(LastEffect(log, u, id), id in store[u])
  {
    if log != [] {
      LastOperationWins(store, log[..|log| - 1], u, id);
      HandledMember(HandledAll(store, log[..|log| - 1]), log[|log| - 1], u, id);
    }
  }

  lemma {:induction false} KeysKept(store: Store, log: seq<Event>)
    ensures HandledAll(store, log).Keys == store.Keys
  {
    if log != [] {
      KeysKept(store, log[..|log| - 1]);
    }
  }

  lemma {:induction false} LastEffectConcat(a: seq<Event>, b: seq<Event>, u: int, id: int)
    ensures LastEffect(a + b, u, id) ==
      if LastEffect(b, u, id).Keeps? then LastEffect(a, u, id) else LastEffect(b, u, id)
  {
    if b == [] {
      assert a + b == a;
    } else {
      LastEffectConcat(a, b[..|b| - 1], u, id);
      assert (a + b)[..|a + b| - 1] == a + b[..|b| - 1];
    }
  }

  lemma {:induction false} HandledConcat(store: Store, a: seq<Event>, b: seq<Event>)
    ensures HandledAll(store, a + b) == HandledAll(HandledAll(store, a), b)
  {
    if b == [] {
      assert a + b == a;
    } else {
      HandledConcat(store, a, b[..|b| - 1]);
      assert (a + b)[..|a + b| - 1] == a + b[..|b| - 1];
    }
  }

  // ---------- redelivery converges to one pass ----------

  /** Delivering again what lies between the position and the highest offset would leave every user
      with the subscriptions of one pass over the log. */
  ghost predicate Converging(log: seq<Event>, initial: Store, d: Delivery) {
    && d.committed <= d.position <= d.highest <= |log|
    && SameSubscriptions(HandledAll(d.store, log[d.position..d.highest]), HandledAll(initial, log[..d.highest]))
  }

  lemma HandledRespectsSame(a: Store, b: Store, e: Event)
    requires SameSubscriptions(a, b)
    ensures SameSubscriptions(Handled(a, e), Handled(b, e))
  {
    assert Handled(a, e).Keys == a.Keys && Handled(b, e).Keys == b.Keys;
    forall u, id | u in a
      ensures id in Handled(a, e)[u] <==> id in Handled(b, e)[u]
    {
      HandledMember(a, e, u, id);
      HandledMember(b, e, u, id);
    }
  }

  lemma PollKeeps(log: seq<Event>, initial: Store, d: Delivery, commitFails: bool)
    requires Converging(log, initial, d)
    ensures Converging(log, initial, Moved(log, d, Poll(commitFails)))
  {
    if d.position < |log| {
      var e := log[d.position];
      var store' := Handled(d.store, e);
      if d.position < d.highest {
        assert log[d.position..d.highest] == [e] + log[d.position + 1..d.highest];
        HandledConcat(d.store, [e], log[d.position + 1..d.highest]);
        assert [e][..0] == [];
        assert HandledAll(d.store, [e]) == store';
      } else {
        assert log[d.position..d.highest] == [];
        assert log[d.position + 1..d.highest + 1] == [];
        assert log[..d.highest + 1] == log[..d.highest] + [e];
        assert log[..d.highest + 1][..d.highest] == log[..d.highest];
        HandledRespectsSame(d.store, HandledAll(initial, log[..d.highest]), e);
      }
    }
  }

  lemma CrashKeeps(log: seq<Event>, initial: Store, d: Delivery)
    requires Converging(log, initial, d)
    ensures Converging(log, initial, Moved(log, d, Crash))
  {
    var again, ahead := log[d.committed..d.position], log[d.position..d.highest];
    assert log[d.committed..d.highest] == again + ahead;
    assert log[..d.highest] == log[..d.committed] + again + ahead;
    KeysKept(d.store, again + ahead);
    KeysKept(d.store, ahead);
    forall u, id | u in HandledAll(d.store, again + ahead)
      ensures id in HandledAll(d.store, again + ahead)[u] <==> id in HandledAll(initial, log[..d.highest])[u]
    {
      KeysKept(initial, log[..d.highest]);
      LastOperationWins(d.store, again + ahead, u, id);
      LastOperationWins(d.store, ahead, u, id);
      LastOperationWins(initial, log[..d.highest], u, id);
      LastEffectConcat(again, ahead, u, id);
      LastEffectConcat(log[..d.committed] + again, ahead, u, id);
      LastEffectConcat(log[..d.committed], again, u, id);
    }
  }

  /** For every log and every schedule of polls, commits and crashes: whenever the position is back at
      the highest offset delivered, each user's subscription set is the one of a single pass. */
  lemma {:induction false} EveryScheduleConverges(log: seq<Event>, initial: Store, moves: seq<Move>)
    ensures var d := MovedAll(log, Delivery(0, 0, 0, initial), moves);
      && Converging(log, initial, d)
      && (d.position == d.highest ==> SameSubscriptions(d.store, HandledAll(initial, log[..d.highest])))
  {
    var d := MovedAll(log, Delivery(0, 0, 0, initial), moves);
    if moves == [] {
      assert log[0..0] == [] && log[..0] == [];
    } else {
      EveryScheduleConverges(log, initial, moves[..|moves| - 1]);
      var before, last := MovedAll(log, Delivery(0, 0, 0, initial), moves[..|moves| - 1]), moves[|moves| - 1];
      match last {
        case Poll(commitFails) => PollKeeps(log, initial, before, commitFails);
        case CommitAt(_) =>
        case Crash => CrashKeeps(log, initial, before);
      }
    }
    if d.position == d.highest {
      assert log[d.position..d.highest] == [];
    }
  }

  // ---------- the order of the list under redelivery ----------

  function Outside(xs: seq<int>, ids: set<int>): seq<int> {
    if xs == [] then []
    else
      var rest := Outside(xs[..|xs| - 1], ids);
      if xs[|xs| - 1] in ids then rest else rest + [xs[|xs| - 1]]
  }

  function Inside(xs: seq<int>, ids: set<int>): seq<int> {
    if xs == [] then []
    else
      var rest := Inside(xs[..|xs| - 1], ids);
      if xs[|xs| - 1] in ids then rest + [xs[|xs| - 1]] else rest
  }

  function IdSet(ids: seq<int>): set<int> {
    set id | id in ids
  }

  predicate Concerns(e: Event, u: int, action: string) {
    IsSubscriptionEvent(e.eventType) && e.user == u && e.action == action
  }

  /** The ids that an event of the log removes from the user's list. */
  function RemovedIds(log: seq<Event>, u: int): set<int> {
    if log == [] then {}
    else
      var last := log[|log| - 1];
      RemovedIds(log[..|log| - 1], u) + (if Concerns(last, u, "remove") then IdSet(last.ids) else {})
  }

  lemma {:induction false} FilterMembers(xs: seq<int>, ids: set<int>, x: int)
    ensures x in Outside(xs, ids) <==> x in xs && x !in ids
    ensures x in Inside(xs, ids) <==> x in xs && x in ids
  {
    if xs != [] {
      FilterMembers(xs[..|xs| - 1], ids, x);
      assert xs == xs[..|xs| - 1] + [xs[|xs| - 1]];
    }
  }

  lemma {:induction false} FilterConcat(xs: seq<int>, ys: seq<int>, ids: set<int>)
    ensures Outside(xs + ys, ids) == Outside(xs, ids) + Outside(ys, ids)
    ensures Inside(xs + ys, ids) == Inside(xs, ids) + Inside(ys, ids)
  {
    if ys == [] {
      assert xs + ys == xs;
    } else {
      FilterConcat(xs, ys[..|ys| - 1], ids);
      assert (xs + ys)[..|xs + ys| - 1] == xs + ys[..|ys| - 1];
    }
  }

  lemma {:induction false} RemainingIsOutside(xs: seq<int>, remIDs: seq<int>)
    ensures Remaining(xs, remIDs) == Outside(xs, IdSet(remIDs))
  {
    if xs != [] {
      RemainingIsOutside(xs[..|xs| - 1], remIDs);
    }
  }

  lemma OutsideSnoc(xs: seq<int>, x: int, ids: set<int>)
    ensures Outside(xs + [x], ids) == Outside(xs, ids) + (if x in ids then [] else [x])
    ensures Inside(xs + [x], ids) == Inside(xs, ids) + (if x in ids then [x] else [])
  {
    assert (xs + [x])[..|xs|] == xs;
  }

  /** Filters commute, and two filters are one. */
  lemma {:induction false} FilterTwice(xs: seq<int>, a: set<int>, b: set<int>)
    ensures Outside(Outside(xs, a), b) == Outside(xs, a + b)
    ensures Outside(Inside(xs, a), b) == Inside(Outside(xs, b), a + b)
  {
    if xs != [] {
      var rest, x := xs[..|xs| - 1], xs[|xs| - 1];
      FilterTwice(rest, a, b);
      OutsideSnoc(Outside(rest, a), x, b);
      OutsideSnoc(Inside(rest, a), x, b);
      OutsideSnoc(Outside(rest, b), x, a + b);
    }
  }

  /** Two lists that agree on which of the requested ids they lack get the same ones appended. */
  lemma {:induction false} SameMissing(xs: seq<int>, ys: seq<int>, ids: seq<int>, out: set<int>, ins: set<int>)
    requires forall x :: x in ids ==> (x !in xs && x !in out <==> x !in ys && x in ins)
    ensures Outside(Missing(xs, ids), out) == Inside(Missing(ys, ids), ins)
  {
    if ids != [] {
      var rest, x := ids[..|ids| - 1], ids[|ids| - 1];
      assert forall y :: y in rest ==> y in ids;
      SameMissing(xs, ys, rest, out, ins);
      OutsideSnoc(Missing(xs, rest), x, out);
      OutsideSnoc(Missing(ys, rest), x, ins);
    }
  }

  lemma {:induction false} RemovedMonotone(log: seq<Event>, u: int, n: nat)
    requires n <= |log|
    ensures RemovedIds(log[..n], u) <= RemovedIds(log, u)
    decreases |log|
  {
    if n == |log| {
      assert log[..n] == log;
    } else {
      RemovedMonotone(log[..|log| - 1], u, n);
      assert log[..|log| - 1][..n] == log[..n];
    }
  }

  /** An id that the log adds and never removes is in the list at the end. */
  lemma {:induction false} AddedStays(log: seq<Event>, u: int, k: nat, id: int)
    requires k < |log| && Concerns(log[k], u, "add") && id in log[k].ids
    requires id !in RemovedIds(log, u)
    ensures LastEffect(log, u, id) == Adds
  {
    if k < |log| - 1 {
      AddedStays(log[..|log| - 1], u, k, id);
    }
  }

  /** What an event does to the list of one user. */
  function ListAfter(list: seq<int>, e: Event, u: int): seq<int> {
    if Concerns(e, u, "remove") then Remaining(list, e.ids)
    else if Concerns(e, u, "add") then list + Missing(list, e.ids)
    else list
  }

  function RemovedBy(e: Event, u: int): set<int> {
    if Concerns(e, u, "remove") then IdSet(e.ids) else {}
  }

  lemma OneMoreEvent(store: Store, log: seq<Event>, e: Event, u: int)
    requires u in store
    ensures u in HandledAll(store, log) && u in HandledAll(store, log + [e])
    ensures HandledAll(store, log + [e])[u] == ListAfter(HandledAll(store, log)[u], e, u)
    ensures RemovedIds(log + [e], u) == RemovedIds(log, u) + RemovedBy(e, u)
  {
    assert (log + [e])[..|log|] == log;
    KeysKept(store, log);
    hide Remaining, Missing, IdSet;
  }

  /** One event keeps the relation of the second pass to the first one. */
  lemma SecondPassStep(again: seq<int>, once: seq<int>, first: seq<int>, e: Event, u: int, all: set<int>,
                       removed: set<int>)
    requires removed + RemovedBy(e, u) <= all
    requires Concerns(e, u, "add") ==> forall id :: id in e.ids && id !in all ==> id in first
    requires Outside(again, all - removed) == Outside(first, all) + Inside(once, removed)
    ensures Outside(ListAfter(again, e, u), all - (removed + RemovedBy(e, u))) ==
      Outside(first, all) + Inside(ListAfter(once, e, u), removed + RemovedBy(e, u))
  {
    hide Outside, Inside, Remaining, Missing, IdSet;
    if Concerns(e, u, "remove") {
      SecondPassRemoves(again, once, first, e.ids, all, removed);
    } else {
      assert removed + {} == removed;
      if Concerns(e, u, "add") {
        SecondPassAdds(again, once, first, e.ids, all, removed);
      }
    }
  }

  /** The state of the second pass against that of the first one after the same n events: what the log never
      removes stands first, in the order the first pass ended with, and then what has been removed so far, in
      the order that the first pass has it. */
  lemma {:induction false} SecondPassState(store: Store, log: seq<Event>, u: int, n: nat)
    requires u in store && n <= |log|
    ensures var again := HandledAll(HandledAll(store, log), log[..n]);
      var once := HandledAll(store, log[..n]);
      && u in again && u in once && u in HandledAll(store, log)
      && Outside(again[u], RemovedIds(log, u) - RemovedIds(log[..n], u)) ==
           Outside(HandledAll(store, log)[u], RemovedIds(log, u)) + Inside(once[u], RemovedIds(log[..n], u))
  {
    var first, all := HandledAll(store, log), RemovedIds(log, u);
    KeysKept(store, log);
    if n == 0 {
      assert all - {} == all;
      NothingInside(store[u]);
    } else {
      SecondPassState(store, log, u, n - 1);
      var e, before := log[n - 1], log[..n - 1];
      assert log[..n] == before + [e];
      OneMoreEvent(first, before, e, u);
      OneMoreEvent(store, before, e, u);
      RemovedMonotone(log, u, n);
      if Concerns(e, u, "add") {
        AddedIdsStay(store, log, u, n - 1);
      }
      hide HandledAll, RemovedIds, Outside, Inside, ListAfter, RemovedBy, Concerns;
      SecondPassStep(HandledAll(first, before)[u], HandledAll(store, before)[u], first[u], e, u, all,
                     RemovedIds(before, u));
    }
  }

  lemma AddedIdsStay(store: Store, log: seq<Event>, u: int, k: nat)
    requires u in store && k < |log| && Concerns(log[k], u, "add")
    ensures u in HandledAll(store, log)
    ensures forall id :: id in log[k].ids && id !in RemovedIds(log, u) ==> id in HandledAll(store, log)[u]
  {
    KeysKept(store, log);
    forall id | id in log[k].ids && id !in RemovedIds(log, u)
      ensures id in HandledAll(store, log)[u]
    {
      AddedStays(log, u, k, id);
      LastOperationWins(store, log, u, id);
    }
  }

  lemma {:induction false} NothingInside(xs: seq<int>)
    ensures Inside(xs, {}) == [] && Outside(xs, {}) == xs
  {
    if xs != [] {
      NothingInside(xs[..|xs| - 1]);
    }
  }

  lemma SecondPassRemoves(again: seq<int>, once: seq<int>, first: seq<int>, ids: seq<int>, all: set<int>,
                          removed: set<int>)
    requires IdSet(ids) <= all
    requires Outside(again, all - removed) == Outside(first, all) + Inside(once, removed)
    ensures Outside(Remaining(again, ids), all - (removed + IdSet(ids))) ==
      Outside(first, all) + Inside(Remaining(once, ids), removed + IdSet(ids))
  {
    var gone := IdSet(ids);
    RemainingIsOutside(again, ids);
    RemainingIsOutside(once, ids);
    FilterTwice(again, gone, all - (removed + gone));
    FilterTwice(again, all - removed, gone);
    assert gone + (all - (removed + gone)) == all - removed + gone;
    FilterConcat(Outside(first, all), Inside(once, removed), gone);
    FilterTwice(first, all, gone);
    assert all + gone == all;
    FilterTwice(once, removed, gone);
  }

  lemma SecondPassAdds(again: seq<int>, once: seq<int>, first: seq<int>, ids: seq<int>, all: set<int>,
                       removed: set<int>)
    requires removed <= all
    requires forall id :: id in ids && id !in all ==> id in first
    requires Outside(again, all - removed) == Outside(first, all) + Inside(once, removed)
    ensures Outside(again + Missing(again, ids), all - removed) ==
      Outside(first, all) + Inside(once + Missing(once, ids), removed)
  {
    FilterConcat(again, Missing(again, ids), all - removed);
    FilterConcat(once, Missing(once, ids), removed);
    hide Outside, Inside, Missing;
    forall x | x in ids
      ensures x !in again && x !in all - removed <==> x !in once && x in removed
    {
      SameLack(again, once, first, all, removed, x);
    }
    SameMissing(again, once, ids, all - removed, removed);
  }

  lemma SameLack(again: seq<int>, once: seq<int>, first: seq<int>, all: set<int>, removed: set<int>, x: int)
    requires removed <= all
    requires x !in all ==> x in first
    requires Outside(again, all - removed) == Outside(first, all) + Inside(once, removed)
    ensures x !in again && x !in all - removed <==> x !in once && x in removed
  {
    FilterMembers(again, all - removed, x);
    FilterMembers(first, all, x);
    FilterMembers(once, removed, x);
    hide Outside, Inside;
  }

  /** Handling a stretch again moves the ids that it removes, as far as they are back, behind all the others
      and leaves the order otherwise as it is. */
  lemma RedeliveredList(store: Store, log: seq<Event>, u: int)
    requires u in store
    ensures var first := HandledAll(store, log);
      && u in first && u in HandledAll(first, log)
      && HandledAll(first, log)[u] == Outside(first[u], RemovedIds(log, u)) + Inside(first[u], RemovedIds(log, u))
  {
    SecondPassState(store, log, u, |log|);
    assert log[..|log|] == log;
    var all := RemovedIds(log, u);
    assert all - all == {};
    NothingInside(HandledAll(HandledAll(store, log), log)[u]);
  }

  /** No id that the log removes stands before one that it does not remove. */
  ghost predicate MovedStandLast(xs: seq<int>, moved: set<int>) {
    forall i, j :: 0 <= i < j < |xs| && xs[i] in moved ==> xs[j] in moved
  }

  lemma PartedAt(xs: seq<int>, ids: set<int>, k: nat)
    requires k < |Outside(xs, ids)| + |Inside(xs, ids)|
    ensures (Outside(xs, ids) + Inside(xs, ids))[k] in ids <==> k >= |Outside(xs, ids)|
  {
    FilterMembers(xs, ids, (Outside(xs, ids) + Inside(xs, ids))[k]);
    if k < |Outside(xs, ids)| {
      assert (Outside(xs, ids) + Inside(xs, ids))[k] in Outside(xs, ids);
    } else {
      assert (Outside(xs, ids) + Inside(xs, ids))[k] in Inside(xs, ids);
    }
  }

  lemma PartedStandLast(xs: seq<int>, ids: set<int>)
    ensures MovedStandLast(Outside(xs, ids) + Inside(xs, ids), ids)
  {
    var parted := Outside(xs, ids) + Inside(xs, ids);
    forall i, j | 0 <= i < j < |parted| && parted[i] in ids
      ensures parted[j] in ids
    {
      PartedAt(xs, ids, i);
      PartedAt(xs, ids, j);
    }
  }

  lemma {:induction false} StandLastParted(xs: seq<int>, ids: set<int>)
    requires MovedStandLast(xs, ids)
    ensures Outside(xs, ids) + Inside(xs, ids) == xs
  {
    if xs != [] {
      var rest, x := xs[..|xs| - 1], xs[|xs| - 1];
      assert xs == rest + [x];
      if x in ids {
        StandLastParted(rest, ids);
        assert Outside(rest, ids) + (Inside(rest, ids) + [x]) == Outside(rest, ids) + Inside(rest, ids) + [x];
      } else {
        forall i | 0 <= i < |xs|
          ensures xs[i] !in ids
        {
          var last := |xs| - 1;
          if i < last && xs[i] in ids {
            assert false;
          }
        }
        NoneInside(xs, ids);
      }
    }
  }

  lemma {:induction false} NoneInside(xs: seq<int>, ids: set<int>)
    requires forall i :: 0 <= i < |xs| ==> xs[i] !in ids
    ensures Inside(xs, ids) == [] && Outside(xs, ids) == xs
  {
    if xs != [] {
      NoneInside(xs[..|xs| - 1], ids);
      assert xs == xs[..|xs| - 1] + [xs[|xs| - 1]];
    }
  }

  function Polls(n: nat): seq<Move> {
    if n == 0 then [] else Polls(n - 1) + [Poll(true)]
  }

  lemma {:induction false} PassDelivers(log: seq<Event>, d: Delivery, n: nat)
    requires n <= |log| && d.position == d.committed == 0
    ensures MovedAll(log, d, Polls(n)) == Delivery(n, 0, Max(d.highest, n), HandledAll(d.store, log[..n]))
  {
    if n > 0 {
      PassDelivers(log, d, n - 1);
      assert (Polls(n - 1) + [Poll(true)])[..|Polls(n)| - 1] == Polls(n - 1);
      assert log[..n][..n - 1] == log[..n - 1];
    }
  }

  lemma {:induction false} MovedConcat(log: seq<Event>, d: Delivery, a: seq<Move>, b: seq<Move>)
    ensures MovedAll(log, d, a + b) == MovedAll(log, MovedAll(log, d, a), b)
  {
    if b == [] {
      assert a + b == a;
    } else {
      MovedConcat(log, d, a, b[..|b| - 1]);
      assert (a + b)[..|a + b| - 1] == a + b[..|b| - 1];
    }
  }

  /** All of the log, a crash before any commit, and all of the log again. */
  function Redelivery(n: nat): seq<Move> {
    Polls(n) + ([Crash] + Polls(n))
  }

  lemma RedeliveryDelivers(log: seq<Event>, store: Store)
    ensures MovedAll(log, Delivery(0, 0, 0, store), Redelivery(|log|)).store == HandledAll(HandledAll(store, log), log)
  {
    var n, start := |log|, Delivery(0, 0, 0, store);
    assert log[..n] == log;
    PassDelivers(log, start, n);
    var once := MovedAll(log, start, Polls(n));
    MovedConcat(log, start, Polls(n), [Crash] + Polls(n));
    MovedConcat(log, once, [Crash], Polls(n));
    assert [Crash][..0] == [];
    var back := Moved(log, once, Crash);
    assert MovedAll(log, once, [Crash]) == back;
    PassDelivers(log, back, n);
  }

  /** Redelivery keeps a user's list as it is, order included, if and only if no id that an event of the
      redelivered log removes stands in it before one that none of them removes. */
  lemma OrderKeptIff(log: seq<Event>, store: Store, u: int)
    requires u in store
    ensures var once := HandledAll(store, log);
      var d := MovedAll(log, Delivery(0, 0, 0, store), Redelivery(|log|));
      && u in once && u in d.store
      && (d.store[u] == once[u] <==> MovedStandLast(once[u], RemovedIds(log, u)))
  {
    RedeliveryDelivers(log, store);
    RedeliveredList(store, log, u);
    var list, moved := HandledAll(store, log)[u], RemovedIds(log, u);
    PartedStandLast(list, moved);
    if MovedStandLast(list, moved) {
      StandLastParted(list, moved);
    }
  }

  /** One redelivery is as many: the list it leaves does not change any more. */
  lemma RedeliverySettles(store: Store, log: seq<Event>, u: int)
    requires u in store
    ensures var twice := HandledAll(HandledAll(store, log), log);
      u in twice && u in HandledAll(twice, log) && HandledAll(twice, log)[u] == twice[u]
  {
    var first, all := HandledAll(store, log), RemovedIds(log, u);
    RedeliveredList(store, log, u);
    KeysKept(store, log);
    RedeliveredList(first, log, u);
    PartedStandLast(first[u], all);
    StandLastParted(HandledAll(first, log)[u], all);
  }

  function Reordering(a: int, b: int): seq<Event> {
    [Event(PREFIX, "remove", 1, [a]), Event(PREFIX, "add", 1, [a]), Event(PREFIX, "add", 1, [b])]
  }

  lemma OneId(list: seq<int>, x: int)
    ensures Missing(list, [x]) == if x in list then [] else [x]
    ensures IdSet([x]) == {x}
  {
    assert [x][..0] == [];
  }

  lemma PrefixConcerns(e: Event)
    requires e.eventType == PREFIX
    ensures Concerns(e, e.user, "remove") <==> e.action == "remove"
    ensures Concerns(e, e.user, "add") <==> e.action == "add"
  {
    assert PREFIX[..18] == PREFIX;
  }

  lemma AddOne(list: seq<int>, x: int)
    ensures var e := Event(PREFIX, "add", 1, [x]);
      ListAfter(list, e, 1) == list + (if x in list then [] else [x]) && RemovedBy(e, 1) == {}
  {
    PrefixConcerns(Event(PREFIX, "add", 1, [x]));
    OneId(list, x);
    hide Concerns, Missing, IdSet, Remaining;
  }

  lemma RemoveOne(x: int)
    ensures var e := Event(PREFIX, "remove", 1, [x]);
      ListAfter([], e, 1) == [] && RemovedBy(e, 1) == {x}
  {
    PrefixConcerns(Event(PREFIX, "remove", 1, [x]));
    OneId([], x);
    assert Remaining([], [x]) == [];
    hide Concerns, Missing, IdSet, Remaining;
  }

  lemma ReorderingSteps(a: int, b: int)
    requires a != b
    ensures var log := Reordering(a, b);
      && ListAfter([], log[0], 1) == [] && ListAfter([], log[1], 1) == [a] && ListAfter([a], log[2], 1) == [a, b]
      && RemovedBy(log[0], 1) == {a} && RemovedBy(log[1], 1) == {} && RemovedBy(log[2], 1) == {}
  {
    hide ListAfter, RemovedBy;
    RemoveOne(a);
    AddOne([], a);
    AddOne([a], b);
    assert [] + [a] == [a] && [a] + [b] == [a, b];
  }

  lemma ReorderingList(a: int, b: int)
    requires a != b
    ensures RemovedIds(Reordering(a, b), 1) == {a}
    ensures var once := HandledAll(map[1 := []], Reordering(a, b)); 1 in once && once[1] == [a, b]
  {
    var log, store: Store := Reordering(a, b), map[1 := []];
    ReorderingSteps(a, b);
    assert RemovedIds([], 1) == {} && HandledAll(store, []) == store;
    var e0, e1, e2 := log[0], log[1], log[2];
    assert log == [] + [e0] + [e1] + [e2];
    hide HandledAll, RemovedIds, ListAfter, RemovedBy, Reordering;
    OneMoreEvent(store, [], e0, 1);
    OneMoreEvent(store, [] + [e0], e1, 1);
    OneMoreEvent(store, [] + [e0] + [e1], e2, 1);
  }

  /** It happens: an id is removed, added again, and another one is added after it. */
  lemma RedeliveryCanReorder(a: int, b: int)
    requires a != b
    ensures var d := MovedAll(Reordering(a, b), Delivery(0, 0, 0, map[1 := []]), Redelivery(3));
      var once := HandledAll(map[1 := []], Reordering(a, b));
      1 in once && 1 in d.store && d.store[1] != once[1]
  {
    ReorderingList(a, b);
    OrderKeptIff(Reordering(a, b), map[1 := []], 1);
    var list := [a, b];
    assert list[0] in {a} && list[1] !in {a};
  }
}
