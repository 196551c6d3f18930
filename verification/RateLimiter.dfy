/** The sliding-window request limiter of app/middlewares/limit_requests_middleware.go.

    Times and durations are nanoseconds.  The handler reads its stamp before it takes the mutex
    (lines 61 and 63), so requests enter the tracker in an order that need not follow their stamps:
    a history is therefore a sequence of steps in the order in which the mutex was taken. */
module RateLimiter {

  datatype Step =
    | Request(ip: string, stamp: int)
    | Sweep(now: int)

  type IpMap = map<string, seq<int>>

  // ---------- specification of one step ----------

  /** The stamps that `now` still counts: the ones at most `window` old. */
  function InWindow(window: int, now: int, stamps: seq<int>): seq<int> {
    if stamps == [] then []
    else
      var rest := InWindow(window, now, stamps[..|stamps| - 1]);
      var last := stamps[|stamps| - 1];
      if now - last <= window then rest + [last] else rest
  }

  function Stored(m: IpMap, ip: string): seq<int> {
    if ip in m then m[ip] else []
  }

  function Swept(window: int, now: int, m: IpMap): IpMap {
    map ip | ip in m && InWindow(window, now, m[ip]) != [] :: InWindow(window, now, m[ip])
  }

  function Apply(window: int, m: IpMap, step: Step): IpMap {
    match step
    case Request(ip, stamp) => m[ip := InWindow(window, stamp, Stored(m, ip)) + [stamp]]
    case Sweep(now) => Swept(window, now, m)
  }

  /** The tracker's map after a whole history. */
  function Run(window: int, history: seq<Step>): IpMap {
    if history == [] then map[]
    else Apply(window, Run(window, history[..|history| - 1]), history[|history| - 1])
  }

  lemma RunAppend(window: int, history: seq<Step>, step: Step)
    ensures Run(window, history + [step]) == Apply(window, Run(window, history), step)
  {
    assert (history + [step])[..|history|] == history;
  }

  /** The decision of the handler that makes the last step of a history. */
  predicate Admits(window: int, maxRequest: int, history: seq<Step>)
    requires history != [] && history[|history| - 1].Request?
  {
    |Stored(Run(window, history), history[|history| - 1].ip)| <= maxRequest
  }

  // ---------- the tracker ----------

  const MINUTE := 60_000_000_000

  class RequestTracker {
    var window: int
    var maxRequest: int
    var ipMap: IpMap
    ghost var history: seq<Step>

    ghost predicate Valid()
      reads this
    {
      ipMap == Run(window, history)
    }

    constructor (maxRequests: int)
      ensures Valid() && history == [] && window == MINUTE == 60 * 1000 * 1000 * 1000
      ensures maxRequest == if maxRequests == 0 then 20 else maxRequests
    {
      window := MINUTE;
      maxRequest := if maxRequests == 0 then 20 else maxRequests;
      ipMap := map[];
      history := [];
    }

    /** The loop both the handler and the sweeper run over one list of stamps. */
    method Prune(now: int, requests: seq<int>) returns (validRequests: seq<int>)
      ensures validRequests == InWindow(window, now, requests)
    {
      validRequests := [];
      for i := 0 to |requests|
        invariant validRequests == InWindow(window, now, requests[..i])
      {
        assert requests[..i + 1][..i] == requests[..i];
        if now - requests[i] <= window {
          validRequests := validRequests + [requests[i]];
        }
      }
      assert requests[..|requests|] == requests;
    }

    /** The body of the handler once the mutex is held; `now` was read before. */
    method Limit(clientIP: string, now: int) returns (admitted: bool)
      requires Valid()
      modifies this`ipMap, this`history
      ensures Valid() && history == old(history) + [Request(clientIP, now)]
      ensures ipMap.Keys == old(ipMap).Keys + {clientIP}
      ensures ipMap[clientIP] == InWindow(window, now, Stored(old(ipMap), clientIP)) + [now]
      ensures forall ip :: ip in old(ipMap) && ip != clientIP ==> ipMap[ip] == old(ipMap)[ip]
      ensures admitted == Admits(window, maxRequest, history)
    {
      RunAppend(window, history, Request(clientIP, now));
      hide Run, InWindow;
      var requests := [];
      if clientIP in ipMap {
        requests := ipMap[clientIP];
      }
      var validRequests := Prune(now, requests);
      validRequests := validRequests + [now];
      ipMap := ipMap[clientIP := validRequests];
      history := history + [Request(clientIP, now)];
      admitted := !(|validRequests| > maxRequest);
    }

    /** One tick of the background sweeper. */
    method Cleanup(now: int)
      requires Valid()
      modifies this`ipMap, this`history
      ensures Valid() && history == old(history) + [Sweep(now)]
      ensures forall ip :: ip in ipMap <==>
        ip in old(ipMap) && InWindow(window, now, old(ipMap)[ip]) != []
      ensures forall ip :: ip in ipMap ==> ipMap[ip] == InWindow(window, now, old(ipMap)[ip])
    {
      RunAppend(window, history, Sweep(now));
      hide Run, InWindow;
      var todo := ipMap.Keys;
      while todo != {}
        invariant history == old(history) && window == old(window)
        invariant todo <= ipMap.Keys <= old(ipMap).Keys
        invariant forall ip :: ip in todo ==> ipMap[ip] == old(ipMap)[ip]
        invariant forall ip :: ip in old(ipMap) && ip !in todo ==>
          (ip in ipMap <==> InWindow(window, now, old(ipMap)[ip]) != [])
        invariant forall ip :: ip in ipMap && ip !in todo ==>
          ipMap[ip] == InWindow(window, now, old(ipMap)[ip])
      {
        var ip :| ip in todo;
        var validRequests := Prune(now, ipMap[ip]);
        if |validRequests| > 0 {
          ipMap := ipMap[ip := validRequests];
        } else {
          ipMap := ipMap - {ip};
        }
        todo := todo - {ip};
      }
      history := history + [Sweep(now)];
      assert ipMap == Swept(window, now, old(ipMap));
    }
  }

  // ---------- the limit holds over every interleaving ----------

  predicate Touches(step: Step, ip: string) {
    step.Sweep? || step.ip == ip
  }

  function TimeOf(step: Step): int {
    match step
    case Request(_, stamp) => stamp
    case Sweep(now) => now
  }

  /** A request's stamp lags every time that an earlier step used on its address's list by at most d. */
  ghost predicate LagAtMost(history: seq<Step>, d: int) {
    forall i, j :: 0 <= i < j < |history| && history[j].Request? && Touches(history[i], history[j].ip) ==>
      TimeOf(history[i]) - d <= TimeOf(history[j])
  }

  function CountIn(lo: int, hi: int, stamps: seq<int>): nat {
    if stamps == [] then 0
    else
      CountIn(lo, hi, stamps[..|stamps| - 1]) + (if lo <= stamps[|stamps| - 1] <= hi then 1 else 0)
  }

  /** The stamps of every request an address made, refused ones included, in order of entry. */
  function Arrivals(history: seq<Step>, ip: string): seq<int> {
    if history == [] then []
    else
      var rest := Arrivals(history[..|history| - 1], ip);
      var last := history[|history| - 1];
      if last.Request? && last.ip == ip then rest + [last.stamp] else rest
  }

  /** How many requests of an address with a stamp in [lo, hi] were admitted. */
  function CountAdmitted(window: int, maxRequest: int, history: seq<Step>, ip: string, lo: int, hi: int): nat {
    if history == [] then 0
    else
      var rest := CountAdmitted(window, maxRequest, history[..|history| - 1], ip, lo, hi);
      var last := history[|history| - 1];
      if last.Request? && last.ip == ip && lo <= last.stamp <= hi && Admits(window, maxRequest, history)
      then rest + 1 else rest
  }

  lemma {:induction false} CountInBounds(lo: int, hi: int, stamps: seq<int>)
    ensures CountIn(lo, hi, stamps) <= |stamps|
  {
    if stamps != [] {
      CountInBounds(lo, hi, stamps[..|stamps| - 1]);
    }
  }

  lemma {:induction false} PruningKeepsInterval(window: int, now: int, lo: int, hi: int, stamps: seq<int>)
    requires now <= lo + window
    ensures CountIn(lo, hi, InWindow(window, now, stamps)) == CountIn(lo, hi, stamps)
  {
    if stamps != [] {
      PruningKeepsInterval(window, now, lo, hi, stamps[..|stamps| - 1]);
      var rest := InWindow(window, now, stamps[..|stamps| - 1]);
      var last := stamps[|stamps| - 1];
      assert (rest + [last])[..|rest|] == rest;
    }
  }

  lemma StoredAfter(window: int, m: IpMap, step: Step, ip: string)
    ensures Stored(Apply(window, m, step), ip) ==
      if !Touches(step, ip) then Stored(m, ip)
      else InWindow(window, TimeOf(step), Stored(m, ip)) + (if step.Request? then [step.stamp] else [])
  {
  }

  /** While no time used on an address's list exceeds lo + window, the list has lost no stamp in [lo, hi]. */
  lemma {:induction false} StoredKeepsInterval(window: int, history: seq<Step>, ip: string, lo: int, hi: int)
    requires forall i :: 0 <= i < |history| && Touches(history[i], ip) ==> TimeOf(history[i]) <= lo + window
    ensures CountIn(lo, hi, Stored(Run(window, history), ip)) == CountIn(lo, hi, Arrivals(history, ip))
  {
    if history != [] {
      var before, last := history[..|history| - 1], history[|history| - 1];
      StoredKeepsInterval(window, before, ip, lo, hi);
      var list := Stored(Run(window, before), ip);
      StoredAfter(window, Run(window, before), last, ip);
      if Touches(last, ip) {
        assert TimeOf(history[|history| - 1]) <= lo + window;
        PruningKeepsInterval(window, TimeOf(last), lo, hi, list);
        if last.Request? {
          var kept := InWindow(window, last.stamp, list);
          assert (kept + [last.stamp])[..|kept|] == kept;
          assert (Arrivals(before, ip) + [last.stamp])[..|Arrivals(before, ip)|] == Arrivals(before, ip);
        }
      }
    }
  }

  lemma {:induction false} AdmittedWithinArrivals(
    window: int, maxRequest: int, history: seq<Step>, ip: string, lo: int, hi: int)
    ensures CountAdmitted(window, maxRequest, history, ip, lo, hi) <= CountIn(lo, hi, Arrivals(history, ip))
  {
    if history != [] {
      var before, last := history[..|history| - 1], history[|history| - 1];
      AdmittedWithinArrivals(window, maxRequest, before, ip, lo, hi);
      if last.Request? && last.ip == ip {
        var rest := Arrivals(before, ip);
        assert (rest + [last.stamp])[..|rest|] == rest;
      }
    }
  }

  /** The limit: with stamps that lag by at most d, every interval of length window - d holds at most
      maxRequest admitted requests of one address.  With d = 0 it is the plain sliding-window limit. */
  lemma {:induction false} WindowLimit(
    window: int, maxRequest: int, d: int, history: seq<Step>, ip: string, lo: int, hi: int)
    requires 0 <= d && 0 <= maxRequest
    requires LagAtMost(history, d)
    requires hi - lo <= window - d
    ensures CountAdmitted(window, maxRequest, history, ip, lo, hi) <= maxRequest
  {
    if history != [] {
      var n := |history| - 1;
      var before, last := history[..n], history[n];
      assert LagAtMost(before, d);
      WindowLimit(window, maxRequest, d, before, ip, lo, hi);
      if last.Request? && last.ip == ip && lo <= last.stamp <= hi && Admits(window, maxRequest, history) {
        forall i | 0 <= i < |history| && Touches(history[i], ip)
          ensures TimeOf(history[i]) <= lo + window
        {
          if i < n {
            assert TimeOf(history[i]) - d <= TimeOf(history[n]);
          }
        }
        StoredKeepsInterval(window, history, ip, lo, hi);
        AdmittedWithinArrivals(window, maxRequest, history, ip, lo, hi);
        CountInBounds(lo, hi, Stored(Run(window, history), ip));
      }
    }
  }

  // ---------- the bound window - d cannot be improved ----------

  /** maxRequest requests at time 0, a sweep just after they leave the window, and one that lags. */
  function LateRequest(window: int, maxRequest: nat, late: int, ip: string): seq<Step> {
    Burst(maxRequest, ip) + [Sweep(window + 1)] + [Request(ip, late)]
  }

  function Burst(n: nat, ip: string): (steps: seq<Step>)
    ensures |steps| == n && forall i :: 0 <= i < n ==> steps[i] == Request(ip, 0)
  {
    if n == 0 then [] else Burst(n - 1, ip) + [Request(ip, 0)]
  }

  lemma {:induction false} BurstRun(window: int, maxRequest: int, n: nat, ip: string, hi: int)
    requires 0 <= window && 0 <= hi && n <= maxRequest
    ensures Stored(Run(window, Burst(n, ip)), ip) == Repeat(n, 0)
    ensures CountAdmitted(window, maxRequest, Burst(n, ip), ip, 0, hi) == n
  {
    if n > 0 {
      BurstRun(window, maxRequest, n - 1, ip, hi);
      AllInWindow(window, 0, Repeat(n - 1, 0));
      AppendStep(window, maxRequest, Burst(n - 1, ip), Request(ip, 0), ip, 0, hi);
    }
  }

  function Repeat(n: nat, x: int): (xs: seq<int>)
    ensures |xs| == n && forall i :: 0 <= i < n ==> xs[i] == x
  {
    if n == 0 then [] else Repeat(n - 1, x) + [x]
  }

  lemma {:induction false} AllInWindow(window: int, now: int, stamps: seq<int>)
    requires forall i :: 0 <= i < |stamps| ==> now - stamps[i] <= window
    ensures InWindow(window, now, stamps) == stamps
  {
    if stamps != [] {
      AllInWindow(window, now, stamps[..|stamps| - 1]);
    }
  }

  lemma {:induction false} NoneInWindow(window: int, now: int, stamps: seq<int>)
    requires forall i :: 0 <= i < |stamps| ==> now - stamps[i] > window
    ensures InWindow(window, now, stamps) == []
  {
    if stamps != [] {
      NoneInWindow(window, now, stamps[..|stamps| - 1]);
    }
  }

  lemma LateRequestLags(window: int, maxRequest: nat, d: int, late: int, ip: string)
    requires 0 <= d && 0 <= window && 0 <= late && window + 1 - d <= late
    ensures LagAtMost(LateRequest(window, maxRequest, late, ip), d)
  {
  }

  lemma LateRequestAdmitted(window: int, maxRequest: nat, late: int, hi: int, ip: string)
    requires 0 <= window && 0 <= late <= hi && 1 <= maxRequest
    ensures CountAdmitted(window, maxRequest, LateRequest(window, maxRequest, late, ip), ip, 0, hi) == maxRequest + 1
  {
    var swept := Burst(maxRequest, ip) + [Sweep(window + 1)];
    BurstThenSweep(window, maxRequest, ip, hi);
    AppendStep(window, maxRequest, swept, Request(ip, late), ip, 0, hi);
  }

  /** No history with lag at most d admits more than maxRequest requests of an address in an interval of the
      given length. */
  ghost predicate LimitHolds(window: int, maxRequest: int, d: int, length: nat) {
    forall history, ip, lo, hi | LagAtMost(history, d) && hi - lo <= length ::
      CountAdmitted(window, maxRequest, history, ip, lo, hi) <= maxRequest
  }

  lemma {:induction false} NoneAdmitted(window: int, history: seq<Step>, ip: string, lo: int, hi: int)
    ensures CountAdmitted(window, 0, history, ip, lo, hi) == 0
  {
    if history != [] {
      NoneAdmitted(window, history[..|history| - 1], ip, lo, hi);
    }
  }

  /** The exact limit: it holds in the intervals of a length, over every interleaving with lag at most d, if and
      only if the length is at most window - d, or no request is admitted at all. */
  lemma WindowLimitExact(window: int, maxRequest: int, d: int, length: nat)
    requires 0 <= window && 0 <= maxRequest && 0 <= d
    ensures LimitHolds(window, maxRequest, d, length) <==> length <= window - d || maxRequest == 0
  {
    if length <= window - d {
      forall history, ip, lo, hi | LagAtMost(history, d) && hi - lo <= length
        ensures CountAdmitted(window, maxRequest, history, ip, lo, hi) <= maxRequest
      {
        WindowLimit(window, maxRequest, d, history, ip, lo, hi);
      }
    } else if maxRequest == 0 {
      forall history, ip, lo, hi | LagAtMost(history, d) && hi - lo <= length
        ensures CountAdmitted(window, maxRequest, history, ip, lo, hi) <= maxRequest
      {
        NoneAdmitted(window, history, ip, lo, hi);
      }
    } else {
      var late, ip := if d > window then 0 else window + 1 - d, "";
      LateRequestLags(window, maxRequest, d, late, ip);
      LateRequestAdmitted(window, maxRequest, late, length, ip);
    }
  }

  lemma BurstThenSweep(window: int, maxRequest: nat, ip: string, hi: int)
    requires 0 <= window && 0 <= hi
    ensures var swept := Burst(maxRequest, ip) + [Sweep(window + 1)];
      Stored(Run(window, swept), ip) == [] && CountAdmitted(window, maxRequest, swept, ip, 0, hi) == maxRequest
  {
    BurstRun(window, maxRequest, maxRequest, ip, hi);
    NoneInWindow(window, window + 1, Repeat(maxRequest, 0));
    AppendStep(window, maxRequest, Burst(maxRequest, ip), Sweep(window + 1), ip, 0, hi);
  }

  lemma AppendStep(window: int, maxRequest: int, history: seq<Step>, step: Step, ip: string, lo: int, hi: int)
    ensures var list := Stored(Run(window, history), ip);
      var list' := Stored(Run(window, history + [step]), ip);
      && list' == (if !Touches(step, ip) then list
                   else InWindow(window, TimeOf(step), list) + (if step.Request? then [step.stamp] else []))
      && CountAdmitted(window, maxRequest, history + [step], ip, lo, hi)
         == CountAdmitted(window, maxRequest, history, ip, lo, hi)
            + (if step.Request? && step.ip == ip && lo <= step.stamp <= hi && |list'| <= maxRequest then 1 else 0)
  {
    assert (history + [step])[..|history|] == history;
    StoredAfter(window, Run(window, history), step, ip);
  }

  // ---------- with a nondecreasing clock the tracker is the specification ----------

  ghost predicate Monotone(history: seq<Step>) {
    forall i, j :: 0 <= i < j < |history| ==> TimeOf(history[i]) <= TimeOf(history[j])
  }

  predicate Touched(history: seq<Step>, ip: string) {
    history != [] && (Touches(history[|history| - 1], ip) || Touched(history[..|history| - 1], ip))
  }

  /** The last time at which a list was pruned: by its own address's request or by a sweep. */
  function LastTouch(history: seq<Step>, ip: string): int
    requires Touched(history, ip)
  {
    var last := history[|history| - 1];
    if Touches(last, ip) then TimeOf(last) else LastTouch(history[..|history| - 1], ip)
  }

  lemma {:induction false} PruneTwice(window: int, earlier: int, later: int, stamps: seq<int>)
    requires earlier <= later
    ensures InWindow(window, later, InWindow(window, earlier, stamps)) == InWindow(window, later, stamps)
  {
    if stamps != [] {
      PruneTwice(window, earlier, later, stamps[..|stamps| - 1]);
      var rest := InWindow(window, earlier, stamps[..|stamps| - 1]);
      var last := stamps[|stamps| - 1];
      assert (rest + [last])[..|rest|] == rest;
    }
  }

  lemma {:induction false} UntouchedIsEmpty(window: int, history: seq<Step>, ip: string)
    requires !Touched(history, ip)
    ensures Arrivals(history, ip) == [] && Stored(Run(window, history), ip) == []
  {
    if history != [] {
      UntouchedIsEmpty(window, history[..|history| - 1], ip);
    }
  }

  lemma {:induction false} LastTouchBound(history: seq<Step>, ip: string)
    requires Monotone(history)
    requires Touched(history, ip)
    ensures LastTouch(history, ip) <= TimeOf(history[|history| - 1])
  {
    if !Touches(history[|history| - 1], ip) {
      LastTouchBound(history[..|history| - 1], ip);
    }
  }

  /** The stored list is exactly the in-window part of the full arrival history, refused requests
      included, as of the last time the list was pruned. */
  lemma {:induction false} StoredIsWindowOfArrivals(window: int, history: seq<Step>, ip: string)
    requires 0 <= window && Monotone(history)
    requires Touched(history, ip)
    ensures Stored(Run(window, history), ip) == InWindow(window, LastTouch(history, ip), Arrivals(history, ip))
  {
    var n := |history| - 1;
    var before, last := history[..n], history[n];
    StoredAfter(window, Run(window, before), last, ip);
    if Touched(before, ip) {
      assert Monotone(before);
      StoredIsWindowOfArrivals(window, before, ip);
      if Touches(last, ip) {
        LastTouchBound(before, ip);
        assert TimeOf(history[n - 1]) <= TimeOf(history[n]);
        PruneTwice(window, LastTouch(before, ip), TimeOf(last), Arrivals(before, ip));
      }
    } else {
      UntouchedIsEmpty(window, before, ip);
      assert Touches(last, ip);
    }
    if last.Request? && last.ip == ip {
      var rest := Arrivals(before, ip);
      assert (rest + [last.stamp])[..|rest|] == rest;
    }
  }

  /** A request is admitted exactly when the arrivals of its address inside the window, itself
      included, number at most maxRequest. */
  lemma AdmissionIsWindowCount(window: int, maxRequest: int, history: seq<Step>)
    requires 0 <= window && Monotone(history)
    requires history != [] && history[|history| - 1].Request?
    ensures var last := history[|history| - 1];
      Admits(window, maxRequest, history) <==>
      |InWindow(window, last.stamp, Arrivals(history, last.ip))| <= maxRequest
  {
    var last := history[|history| - 1];
    assert Touches(history[|history| - 1], last.ip);
    StoredIsWindowOfArrivals(window, history, last.ip);
  }

  // ---------- sweeps change no decision ----------

  function WithoutSweeps(history: seq<Step>): seq<Step> {
    if history == [] then []
    else
      var rest := WithoutSweeps(history[..|history| - 1]);
      var last := history[|history| - 1];
      if last.Sweep? then rest else rest + [last]
  }

  function Decisions(window: int, maxRequest: int, history: seq<Step>): seq<bool> {
    if history == [] then []
    else
      var rest := Decisions(window, maxRequest, history[..|history| - 1]);
      if history[|history| - 1].Sweep? then rest else rest + [Admits(window, maxRequest, history)]
  }

  lemma {:induction false} WithoutSweepsKeeps(history: seq<Step>, ip: string, bound: int)
    requires Monotone(history)
    requires forall i :: 0 <= i < |history| ==> TimeOf(history[i]) <= bound
    ensures Monotone(WithoutSweeps(history))
    ensures Arrivals(WithoutSweeps(history), ip) == Arrivals(history, ip)
    ensures forall i :: 0 <= i < |WithoutSweeps(history)| ==>
      WithoutSweeps(history)[i].Request? && TimeOf(WithoutSweeps(history)[i]) <= bound
  {
    if history != [] {
      var n := |history| - 1;
      var before, last := history[..n], history[n];
      assert Monotone(before);
      forall i | 0 <= i < |before|
        ensures TimeOf(before[i]) <= TimeOf(last)
      {
        assert TimeOf(history[i]) <= TimeOf(history[n]);
      }
      WithoutSweepsKeeps(before, ip, TimeOf(last));
      var rest := WithoutSweeps(before);
      assert (rest + [last])[..|rest|] == rest;
    }
  }

  /** Erasing the sweeps from a run, or inserting any others, leaves the decisions as they are. */
  lemma {:induction false} SweepsChangeNoDecision(window: int, maxRequest: int, history: seq<Step>)
    requires 0 <= window && Monotone(history)
    ensures Decisions(window, maxRequest, history) == Decisions(window, maxRequest, WithoutSweeps(history))
  {
    if history != [] {
      var n := |history| - 1;
      var before, last := history[..n], history[n];
      assert Monotone(before);
      SweepsChangeNoDecision(window, maxRequest, before);
      if last.Request? {
        var bare := WithoutSweeps(history);
        assert bare[..|bare| - 1] == WithoutSweeps(before);
        forall i | 0 <= i < |history|
          ensures TimeOf(history[i]) <= TimeOf(last)
        {
          assert i < n ==> TimeOf(history[i]) <= TimeOf(history[n]);
        }
        WithoutSweepsKeeps(history, last.ip, TimeOf(last));
        AdmissionIsWindowCount(window, maxRequest, history);
        AdmissionIsWindowCount(window, maxRequest, bare);
      }
    }
  }

  /** After a sweep the map holds exactly the addresses with an arrival inside the window. */
  lemma SweepKeepsLiveAddresses(window: int, history: seq<Step>, now: int, ip: string)
    requires 0 <= window && Monotone(history + [Sweep(now)])
    ensures ip in Run(window, history + [Sweep(now)]) <==> InWindow(window, now, Arrivals(history, ip)) != []
  {
    var swept := history + [Sweep(now)];
    assert swept[..|history|] == history;
    assert Touches(swept[|history|], ip);
    StoredIsWindowOfArrivals(window, swept, ip);
  }
}
