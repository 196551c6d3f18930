/** The text operations of the Go standard library that the service's own formats rest on:
    decimal printing ("%d", strconv.Itoa) and strings.Split. */
module Text {
  // ---------- decimal numerals ----------

  predicate IsDigit(c: char) {
    '0' <= c <= '9'
  }

  predicate AllDigits(s: string) {
    forall i :: 0 <= i < |s| ==> IsDigit(s[i])
  }

  function Digit(n: nat): char
    requires n < 10
  {
    n as char + '0'
  }

  function Decimal(n: nat): (s: string)
    ensures s != [] && AllDigits(s)
    ensures |s| > 1 ==> s[0] != '0'
  {
    if n < 10 then [Digit(n)] else Decimal(n / 10) + [Digit(n % 10)]
  }

  function Signed(n: int): string {
    if n < 0 then "-" + Decimal(-n) else Decimal(n)
  }

  /** The value of a digit string, as strconv.ParseUint reads it. */
  function DigitsValue(s: string): nat
    requires AllDigits(s)
  {
    if s == [] then 0 else 10 * DigitsValue(s[..|s| - 1]) + (s[|s| - 1] - '0') as nat
  }

  lemma {:induction false} DecimalValue(n: nat)
    ensures DigitsValue(Decimal(n)) == n
  {
    if n >= 10 {
      DecimalValue(n / 10);
      assert Decimal(n)[..|Decimal(n)| - 1] == Decimal(n / 10);
    }
  }

  lemma SignedInjective(m: int, n: int)
    requires Signed(m) == Signed(n)
    ensures m == n
  {
    if m < 0 && n < 0 {
      assert Signed(m)[1..] == Decimal(-m) && Signed(n)[1..] == Decimal(-n);
    }
    DecimalValue(if m < 0 then -m else m);
    DecimalValue(if n < 0 then -n else n);
  }

  function PowerOfTen(k: nat): nat {
    if k == 0 then 1 else 10 * PowerOfTen(k - 1)
  }

  lemma {:induction false} DecimalLength(n: nat, digits: nat)
    requires digits > 1 && PowerOfTen(digits - 1) <= n < PowerOfTen(digits)
    ensures |Decimal(n)| == digits
    decreases digits
  {
    assert PowerOfTen(digits - 1) == 10 * PowerOfTen(digits - 2);
    if digits > 2 {
      assert PowerOfTen(digits - 2) <= n / 10 < PowerOfTen(digits - 1);
      DecimalLength(n / 10, digits - 1);
    } else {
      assert PowerOfTen(0) == 1;
    }
  }

  // ---------- splitting at a separator ----------

  function IndexOf(s: string, c: char): (i: nat)
    ensures i <= |s|
    ensures i < |s| ==> s[i] == c
    ensures forall j :: 0 <= j < i ==> s[j] != c
  {
    if s == [] || s[0] == c then 0 else 1 + IndexOf(s[1..], c)
  }

  function Split(s: string, sep: char): (parts: seq<string>)
    ensures |parts| >= 1
    decreases |s|
  {
    var i := IndexOf(s, sep);
    if i == |s| then [s] else [s[..i]] + Split(s[i + 1..], sep)
  }

  function Join(parts: seq<string>, sep: char): string
    requires |parts| >= 1
  {
    if |parts| == 1 then parts[0] else parts[0] + [sep] + Join(parts[1..], sep)
  }

  lemma {:induction false} JoinSplit(s: string, sep: char)
    ensures Join(Split(s, sep), sep) == s
    ensures forall k :: 0 <= k < |Split(s, sep)| ==> sep !in Split(s, sep)[k]
    decreases |s|
  {
    var i := IndexOf(s, sep);
    if i < |s| {
      JoinSplit(s[i + 1..], sep);
      assert Split(s, sep)[1..] == Split(s[i + 1..], sep);
      assert s == s[..i] + [sep] + s[i + 1..];
    }
  }

  lemma IndexOfFirst(a: string, b: string, c: char)
    requires c !in a
    ensures IndexOf(a + [c] + b, c) == |a|
  {
    var s := a + [c] + b;
    assert s[|a|] == c;
    assert forall j :: 0 <= j < |a| ==> s[j] == a[j];
  }

  /** Splitting undoes joining for parts that do not contain the separator. */
  lemma {:induction false} SplitJoin(parts: seq<string>, sep: char)
    requires |parts| >= 1
    requires forall k :: 0 <= k < |parts| ==> sep !in parts[k]
    ensures Split(Join(parts, sep), sep) == parts
  {
    var s := Join(parts, sep);
    if |parts| == 1 {
      assert IndexOf(s, sep) == |s|;
    } else {
      var rest := Join(parts[1..], sep);
      IndexOfFirst(parts[0], rest, sep);
      assert s[..|parts[0]|] == parts[0];
      assert s[|parts[0]| + 1..] == rest;
      SplitJoin(parts[1..], sep);
    }
  }

  lemma {:induction false} SplitSnoc(s: string, part: string, sep: char)
    requires sep !in part
    ensures Split(s + [sep] + part, sep) == Split(s, sep) + [part]
    decreases |s|
  {
    var t := s + [sep] + part;
    var i := IndexOf(s, sep);
    if i == |s| {
      IndexOfFirst(s, part, sep);
      assert t[..i] == s && t[i + 1..] == part;
      assert IndexOf(part, sep) == |part|;
    } else {
      assert s == s[..i] + [sep] + s[i + 1..];
      IndexOfFirst(s[..i], s[i + 1..] + [sep] + part, sep);
      assert t == s[..i] + [sep] + (s[i + 1..] + [sep] + part);
      assert t[..i] == s[..i] && t[i + 1..] == s[i + 1..] + [sep] + part;
      SplitSnoc(s[i + 1..], part, sep);
    }
  }

  lemma SplitAtOnly(a: string, b: string, sep: char)
    requires sep !in a && sep !in b
    ensures Split(a + [sep] + b, sep) == [a, b]
  {
    SplitJoin([a], sep);
    SplitSnoc(a, b, sep);
  }

  // ---------- digits ----------

  /** A single digit is printed as itself, and every other number as that of its tens and its last digit. */
  lemma DecimalText(n: int)
    requires n >= 0
    ensures n < 10 ==> Decimal(n) == ["0123456789"[n]]
    ensures n >= 10 ==> Decimal(n) == Decimal(n / 10) + ["0123456789"[n % 10]]
    ensures Signed(n) == Decimal(n) && (n > 0 ==> Signed(-n) == "-" + Decimal(n))
  {
  }
}
