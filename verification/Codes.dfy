/** One-time codes: GenerateRandomCode and CheckTokenFormat of app/utils/controller_utils.go and the loop
    of app/repositories/users_repository.go that draws until a code is not in use. */
module Codes {
  import opened Wrappers
  import opened Text

  const DRAWS := 900000

  /** The text of a code from the random draw in [0, DRAWS). */
  function CodeText(draw: nat): string {
    Decimal(draw + 100000)
  }

  predicate TokenFormat(token: string) {
    |token| == 6 && AllDigits(token)
  }

  method CheckTokenFormat(token: string) returns (ok: bool)
    ensures ok <==> TokenFormat(token)
    ensures ok <==> |token| == 6 && forall i :: 0 <= i < 6 ==> '0' <= token[i] <= '9'
  {
    if |token| != 6 {
      return false;
    }
    for i := 0 to |token|
      invariant forall j :: 0 <= j < i ==> IsDigit(token[j])
    {
      if token[i] < '0' || token[i] > '9' {
        return false;
      }
    }
    return true;
  }

  /** Every code that can be drawn has the format the requests are checked for. */
  lemma DrawnCodesPass(draw: nat)
    requires draw < DRAWS
    ensures TokenFormat(CodeText(draw))
    ensures 100000 <= DigitsValue(CodeText(draw)) == draw + 100000 <= 999999
  {
    DecimalValue(draw + 100000);
    assert PowerOfTen(1) == 10 && PowerOfTen(2) == 100 && PowerOfTen(3) == 1000;
    assert PowerOfTen(4) == 10000 && PowerOfTen(5) == 100000 && PowerOfTen(6) == 1000000;
    DecimalLength(draw + 100000, 6);
  }

  lemma CodeTextInjective(a: nat, b: nat)
    requires CodeText(a) == CodeText(b)
    ensures a == b
  {
    DecimalValue(a + 100000);
    DecimalValue(b + 100000);
  }

  // ---------- drawing a code that is not in use ----------

  /** The code that ends the loop, from draw i on: the first one that the existence query does not report as
      taken; None while there was none.  lost(i) says that query i fails, which reports nothing. */
  function FirstUnreported(draws: seq<nat>, taken: set<string>, lost: nat -> bool, i: nat): Option<string>
    requires i <= |draws|
    decreases |draws| - i
  {
    if i == |draws| then None
    else if lost(i) || CodeText(draws[i]) !in taken then Some(CodeText(draws[i]))
    else FirstUnreported(draws, taken, lost, i + 1)
  }

  /** The loop of a caller that gives up when a query fails: every query answers. */
  function FirstFree(draws: seq<nat>, taken: set<string>): Option<string> {
    FirstUnreported(draws, taken, _ => false, 0)
  }

  method DrawCode(draws: seq<nat>, taken: set<string>, lost: nat -> bool) returns (code: Option<string>)
    ensures code == FirstUnreported(draws, taken, lost, 0)
  {
    for i := 0 to |draws|
      invariant FirstUnreported(draws, taken, lost, 0) == FirstUnreported(draws, taken, lost, i)
    {
      var codeStr := CodeText(draws[i]);
      if lost(i) || codeStr !in taken {
        return Some(codeStr);
      }
    }
    return None;
  }

  ghost predicate AllDraws(draws: seq<nat>) {
    forall i :: 0 <= i < |draws| ==> draws[i] < DRAWS
  }

  /** The loop ends at the first draw not reported as taken, and only there: with a code of the checked format,
      which is free unless its own query failed. */
  lemma {:induction false} FirstUnreportedIsFirst(draws: seq<nat>, taken: set<string>, lost: nat -> bool, i: nat)
    requires AllDraws(draws) && i <= |draws|
    ensures var code := FirstUnreported(draws, taken, lost, i);
      && (code.None? <==> forall k :: i <= k < |draws| ==> !lost(k) && CodeText(draws[k]) in taken)
      && (code.Some? ==>
            && TokenFormat(code.value)
            && exists k :: i <= k < |draws| && code.value == CodeText(draws[k]) && (lost(k) || code.value !in taken)
                 && forall j :: i <= j < k ==> !lost(j) && CodeText(draws[j]) in taken)
    decreases |draws| - i
  {
    hide CodeText, TokenFormat;
    if i < |draws| {
      DrawnCodesPass(draws[i]);
      FirstUnreportedIsFirst(draws, taken, lost, i + 1);
      var code := FirstUnreported(draws, taken, lost, i);
      if !lost(i) && CodeText(draws[i]) in taken && code.Some? {
        var k :| i + 1 <= k < |draws| && code.value == CodeText(draws[k]) && (lost(k) || code.value !in taken)
          && forall j :: i + 1 <= j < k ==> !lost(j) && CodeText(draws[j]) in taken;
        assert forall j :: i <= j < k ==> !lost(j) && CodeText(draws[j]) in taken;
      }
    }
  }

  ghost function CodesBelow(n: nat): set<string> {
    set d | 0 <= d < n :: CodeText(d)
  }

  lemma NextCodeIsNew(n: nat)
    ensures CodeText(n) !in CodesBelow(n)
  {
    if CodeText(n) in CodesBelow(n) {
      var d :| 0 <= d < n && CodeText(d) == CodeText(n);
      CodeTextInjective(d, n);
    }
  }

  lemma CodesBelowNext(n: nat)
    ensures CodesBelow(n + 1) == CodesBelow(n) + {CodeText(n)}
  {
    hide CodeText;
  }

  lemma {:induction false} CountCodes(n: nat)
    ensures |CodesBelow(n)| == n
  {
    if n == 0 {
      assert CodesBelow(0) == {};
    } else {
      CountCodes(n - 1);
      NextCodeIsNew(n - 1);
      CodesBelowNext(n - 1);
      hide CodesBelow, CodeText;
    }
  }

  lemma {:induction false} SubsetSize<T>(a: set<T>, b: set<T>)
    requires a <= b
    ensures |a| <= |b|
  {
    if a != {} {
      var x :| x in a;
      SubsetSize(a - {x}, b - {x});
    }
  }

  /** While fewer than 900000 codes are stored, some draw ends the loop. */
  lemma FreeDrawExists(taken: set<string>)
    requires |taken| < 900000
    ensures exists draw: nat :: draw < DRAWS == 900000 && CodeText(draw) !in taken
  {
    CountCodes(DRAWS);
    if forall draw: nat :: draw < DRAWS ==> CodeText(draw) in taken {
      assert CodesBelow(DRAWS) <= taken;
      SubsetSize(CodesBelow(DRAWS), taken);
    }
  }
}
