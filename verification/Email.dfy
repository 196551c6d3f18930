/** CheckEmailFormat of app/utils/controller_utils.go: the regular expression, read as a nondeterministic
    match, and a deterministic scanner that accepts the same strings.  Characters stand for bytes: the
    expression admits ASCII only. */
module Email {
  import opened Text

  // ---------- regular expressions ----------

  datatype CharClass =
    | LocalChar          // [a-zA-Z0-9._%+-]
    | DomainChar         // [a-zA-Z0-9.-]
    | Letter             // [a-zA-Z]
    | Exactly(c: char)

  predicate IsLetter(c: char) {
    'a' <= c <= 'z' || 'A' <= c <= 'Z'
  }

  predicate InClass(cls: CharClass, c: char) {
    match cls
    case LocalChar => IsLetter(c) || IsDigit(c) || c == '.' || c == '_' || c == '%' || c == '+' || c == '-'
    case DomainChar => IsLetter(c) || IsDigit(c) || c == '.' || c == '-'
    case Letter => IsLetter(c)
    case Exactly(d) => c == d
  }

  predicate AllIn(cls: CharClass, s: string) {
    forall i :: 0 <= i < |s| ==> InClass(cls, s[i])
  }

  datatype Regex =
    | One(cls: CharClass)
    | Cat(first: Regex, second: Regex)
    | Plus(body: Regex)
    | Repeat(body: Regex, lo: nat, hi: nat)
  {
    function Size(): nat {
      match this
      case One(_) => 1
      case Cat(r, t) => 1 + r.Size() + t.Size()
      case Plus(r) => 1 + r.Size()
      case Repeat(r, _, hi) => 1 + r.Size() + hi
    }
  }

  function Less(lo: nat): nat {
    if lo == 0 then 0 else lo - 1
  }

  /** The expression matches the whole string: some way to split it fits the parts. */
  ghost predicate Matches(r: Regex, s: string)
    decreases r.Size(), |s|
  {
    match r
    case One(cls) => |s| == 1 && InClass(cls, s[0])
    case Cat(r1, r2) => exists i :: 0 <= i <= |s| && Matches(r1, s[..i]) && Matches(r2, s[i..])
    case Plus(b) =>
      Matches(b, s) || exists i :: 0 < i <= |s| && Matches(b, s[..i]) && Matches(r, s[i..])
    case Repeat(b, lo, hi) =>
      || (lo == 0 && s == [])
      || (hi > 0 && exists i :: 0 <= i <= |s| && Matches(b, s[..i]) && Matches(Repeat(b, Less(lo), hi - 1), s[i..]))
  }

  /** ^[a-zA-Z0-9._%+-]+\@[a-zA-Z0-9.-]+\.[a-zA-Z]{2,63}$ */
  const EMAIL := Cat(Plus(One(LocalChar)), Cat(One(Exactly('@')), DOMAIN))
  const DOMAIN := Cat(Plus(One(DomainChar)), Cat(One(Exactly('.')), Repeat(One(Letter), 2, 63)))

  ghost predicate MatchesEmail(mail: string) {
    Matches(EMAIL, mail)
  }

  // ---------- the source's check ----------

  predicate ContainsTwoDots(s: string) {
    exists i :: 0 <= i < |s| - 1 && s[i] == '.' && s[i + 1] == '.'
  }

  ghost predicate CheckEmailFormat(mail: string) {
    if |mail| == 0 || |mail| > 254 then false
    else if !MatchesEmail(mail) then false
    else
      var parts := Split(mail, '@');
      if |parts| != 2 then false
      else if |parts[0]| > 64 then false
      else !ContainsTwoDots(parts[1])
  }

  // ---------- a deterministic scanner ----------

  function LastIndexOf(s: string, c: char): (i: int)
    ensures -1 <= i < |s|
    ensures i >= 0 ==> s[i] == c
    ensures forall j :: i < j < |s| ==> s[j] != c
  {
    if s == [] then -1
    else if s[|s| - 1] == c then |s| - 1
    else LastIndexOf(s[..|s| - 1], c)
  }

  /** Split at the first '@', then at the last '.' of what follows, and test each piece. */
  predicate Scan(mail: string) {
    var at := IndexOf(mail, '@');
    && at < |mail|
    && 1 <= at && AllIn(LocalChar, mail[..at])
    && ScanDomain(mail[at + 1..])
  }

  predicate ScanDomain(domain: string) {
    var dot := LastIndexOf(domain, '.');
    && 1 <= dot && AllIn(DomainChar, domain[..dot])
    && 2 <= |domain| - dot - 1 <= 63 && AllIn(Letter, domain[dot + 1..])
  }

  // ---------- the two agree ----------

  lemma {:induction false} PlusClass(cls: CharClass, s: string)
    ensures Matches(Plus(One(cls)), s) <==> s != [] && AllIn(cls, s)
    decreases |s|
  {
    if Matches(Plus(One(cls)), s) && !Matches(One(cls), s) {
      var i :| 0 < i <= |s| && Matches(One(cls), s[..i]) && Matches(Plus(One(cls)), s[i..]);
      PlusClass(cls, s[i..]);
      assert s == s[..i] + s[i..];
    }
    if |s| > 1 && AllIn(cls, s) {
      PlusClass(cls, s[1..]);
      assert Matches(One(cls), s[..1]);
    }
  }

  lemma {:induction false} RepeatClassOnly(cls: CharClass, lo: nat, hi: nat, s: string)
    requires lo <= hi && Matches(Repeat(One(cls), lo, hi), s)
    ensures lo <= |s| <= hi && AllIn(cls, s)
    decreases hi
  {
    if !(lo == 0 && s == []) {
      var i :| 0 <= i <= |s| && Matches(One(cls), s[..i]) && Matches(Repeat(One(cls), Less(lo), hi - 1), s[i..]);
      RepeatClassOnly(cls, Less(lo), hi - 1, s[i..]);
      assert s == s[..i] + s[i..];
    }
  }

  lemma {:induction false} RepeatClassIf(cls: CharClass, lo: nat, hi: nat, s: string)
    requires lo <= |s| <= hi && AllIn(cls, s)
    ensures Matches(Repeat(One(cls), lo, hi), s)
    decreases hi
  {
    if s != [] {
      RepeatClassIf(cls, Less(lo), hi - 1, s[1..]);
      assert Matches(One(cls), s[..1]);
    }
  }

  lemma RepeatClass(cls: CharClass, lo: nat, hi: nat, s: string)
    requires lo <= hi
    ensures Matches(Repeat(One(cls), lo, hi), s) <==> lo <= |s| <= hi && AllIn(cls, s)
  {
    if Matches(Repeat(One(cls), lo, hi), s) {
      RepeatClassOnly(cls, lo, hi, s);
    }
    if lo <= |s| <= hi && AllIn(cls, s) {
      RepeatClassIf(cls, lo, hi, s);
    }
  }

  lemma LeadingChar(c: char, r: Regex, s: string)
    ensures Matches(Cat(One(Exactly(c)), r), s) <==> s != [] && s[0] == c && Matches(r, s[1..])
  {
    if s != [] && s[0] == c && Matches(r, s[1..]) {
      assert Matches(One(Exactly(c)), s[..1]);
    }
  }

  /** cls+ c r: the string has the character at some place, with cls before it and r after it. */
  ghost predicate FitsAt(cls: CharClass, c: char, r: Regex, s: string, i: int) {
    1 <= i < |s| && AllIn(cls, s[..i]) && s[i] == c && Matches(r, s[i + 1..])
  }

  lemma ClassThenChar(cls: CharClass, c: char, r: Regex, s: string)
    ensures Matches(Cat(Plus(One(cls)), Cat(One(Exactly(c)), r)), s) <==> exists i :: FitsAt(cls, c, r, s, i)
  {
    var rest := Cat(One(Exactly(c)), r);
    if Matches(Cat(Plus(One(cls)), rest), s) {
      var i :| 0 <= i <= |s| && Matches(Plus(One(cls)), s[..i]) && Matches(rest, s[i..]);
      PlusClass(cls, s[..i]);
      LeadingChar(c, r, s[i..]);
      assert s[i..][1..] == s[i + 1..];
      assert FitsAt(cls, c, r, s, i);
    }
    if i :| FitsAt(cls, c, r, s, i) {
      PlusClass(cls, s[..i]);
      assert s[i..][1..] == s[i + 1..];
      LeadingChar(c, r, s[i..]);
    }
  }

  /** With a class that lacks the character, the place is the first one; with a remainder that lacks it, the last. */
  lemma FirstPlace(cls: CharClass, c: char, r: Regex, s: string, i: int)
    requires FitsAt(cls, c, r, s, i) && !InClass(cls, c)
    ensures IndexOf(s, c) == i
  {
    assert forall j :: 0 <= j < i ==> s[j] == s[..i][j];
  }

  lemma LastPlace(cls: CharClass, c: char, r: Regex, s: string, i: int)
    requires FitsAt(cls, c, r, s, i) && c !in s[i + 1..]
    ensures LastIndexOf(s, c) == i
  {
    assert forall j :: i < j < |s| ==> s[j] == s[i + 1..][j - i - 1];
  }

  ghost predicate MatchesDomain(domain: string) {
    Matches(DOMAIN, domain)
  }

  lemma DomainAgrees(domain: string)
    ensures MatchesDomain(domain) <==> ScanDomain(domain)
  {
    var ending := Repeat(One(Letter), 2, 63);
    ClassThenChar(DomainChar, '.', ending, domain);
    if i :| FitsAt(DomainChar, '.', ending, domain, i) {
      RepeatClass(Letter, 2, 63, domain[i + 1..]);
      LastPlace(DomainChar, '.', ending, domain, i);
    }
    if ScanDomain(domain) {
      var dot := LastIndexOf(domain, '.');
      RepeatClass(Letter, 2, 63, domain[dot + 1..]);
      assert FitsAt(DomainChar, '.', ending, domain, dot);
    }
  }

  /** The regular expression accepts exactly the strings the scanner accepts. */
  lemma RegexIsScanner(mail: string)
    ensures MatchesEmail(mail) <==> Scan(mail)
  {
    ClassThenChar(LocalChar, '@', DOMAIN, mail);
    if i :| FitsAt(LocalChar, '@', DOMAIN, mail, i) {
      FirstPlace(LocalChar, '@', DOMAIN, mail, i);
      assert MatchesDomain(mail[i + 1..]);
      DomainAgrees(mail[i + 1..]);
    }
    if Scan(mail) {
      var at := IndexOf(mail, '@');
      DomainAgrees(mail[at + 1..]);
      assert FitsAt(LocalChar, '@', DOMAIN, mail, at);
    }
  }

  lemma DomainCharacter(domain: string, j: nat)
    requires ScanDomain(domain) && j < |domain|
    ensures InClass(DomainChar, domain[j])
  {
    var dot := LastIndexOf(domain, '.');
    if j < dot {
      assert domain[j] == domain[..dot][j];
    } else if j > dot {
      assert domain[j] == domain[dot + 1..][j - dot - 1];
    }
  }

  ghost predicate SplitsAt(mail: string, at: nat) {
    at < |mail| && Split(mail, '@') == [mail[..at], mail[at + 1..]]
  }

  /** A matched string has exactly one '@', so the later two-parts check never refuses it. */
  lemma TwoPartsCheckNeverFires(mail: string)
    requires MatchesEmail(mail)
    ensures SplitsAt(mail, IndexOf(mail, '@'))
  {
    RegexIsScanner(mail);
    var at := IndexOf(mail, '@');
    NoSecondAt(mail[at + 1..]);
    SplitMail(mail, at);
  }

  lemma SplitMail(mail: string, at: nat)
    requires at < |mail| && mail[at] == '@' && '@' !in mail[..at] && '@' !in mail[at + 1..]
    ensures SplitsAt(mail, at)
  {
    var a, b := mail[..at], mail[at + 1..];
    assert mail == a + ['@'] + b;
    SplitAtOnly(a, b, '@');
  }

  lemma NoSecondAt(domain: string)
    requires ScanDomain(domain)
    ensures '@' !in domain
  {
    forall j | 0 <= j < |domain|
      ensures domain[j] != '@'
    {
      DomainCharacter(domain, j);
    }
  }

  /** The whole check, without backtracking: scan, then the length of the part before the only '@' and
      the dots of the part after it. */
  lemma CheckedByScanner(mail: string)
    ensures CheckEmailFormat(mail) <==>
      && Scan(mail) && |mail| <= 254
      && IndexOf(mail, '@') <= 64 && !ContainsTwoDots(mail[IndexOf(mail, '@') + 1..])
  {
    RegexIsScanner(mail);
    if MatchesEmail(mail) {
      TwoPartsCheckNeverFires(mail);
    }
  }

  /** Accepted addresses are made of the local characters and '@' alone. */
  lemma AcceptedCharacters(mail: string, j: nat)
    requires CheckEmailFormat(mail) && j < |mail|
    ensures InClass(LocalChar, mail[j]) || mail[j] == '@'
    ensures '@' in mail
  {
    CheckedByScanner(mail);
    var at := IndexOf(mail, '@');
    assert mail[at] == '@';
    if j < at {
      assert mail[j] == mail[..at][j];
    } else if j > at {
      assert mail[j] == mail[at + 1..][j - at - 1];
      DomainCharacter(mail[at + 1..], j - at - 1);
    }
  }

  // ---------- the check in plain characters ----------

  predicate PlainLocal(s: string) {
    forall i :: 0 <= i < |s| ==>
      || 'a' <= s[i] <= 'z' || 'A' <= s[i] <= 'Z' || '0' <= s[i] <= '9'
      || s[i] == '.' || s[i] == '_' || s[i] == '%' || s[i] == '+' || s[i] == '-'
  }

  predicate PlainDomain(s: string) {
    forall i :: 0 <= i < |s| ==>
      'a' <= s[i] <= 'z' || 'A' <= s[i] <= 'Z' || '0' <= s[i] <= '9' || s[i] == '.' || s[i] == '-'
  }

  predicate PlainLetters(s: string) {
    forall i :: 0 <= i < |s| ==> 'a' <= s[i] <= 'z' || 'A' <= s[i] <= 'Z'
  }

  /** No dot follows another one, also not the one that ends the text. */
  predicate SingleDots(s: string) {
    forall i :: 0 <= i < |s| && s[i] == '.' ==> i + 1 < |s| && s[i + 1] != '.'
  }

  predicate IsAddress(mail: string, a: string, b: string, c: string) {
    && mail == a + "@" + b + "." + c && |mail| <= 254
    && 1 <= |a| <= 64 && PlainLocal(a)
    && 1 <= |b| && PlainDomain(b) && SingleDots(b)
    && 2 <= |c| <= 63 && PlainLetters(c)
  }

  lemma PlainClasses(s: string)
    ensures AllIn(LocalChar, s) <==> PlainLocal(s)
    ensures AllIn(DomainChar, s) <==> PlainDomain(s)
    ensures AllIn(Letter, s) <==> PlainLetters(s)
  {
  }

  lemma NoDotBehind(b: string, c: string, k: nat)
    requires PlainLetters(c) && |b| < k < |b + "." + c|
    ensures (b + "." + c)[k] != '.'
  {
    assert (b + "." + c)[k] == c[k - |b| - 1];
  }

  /** Dots stand alone in the domain exactly when they do before the last one. */
  lemma DotsOfDomain(b: string, c: string)
    requires PlainLetters(c)
    ensures ContainsTwoDots(b + "." + c) <==> !SingleDots(b)
  {
    var s := b + "." + c;
    assert s[|b|] == '.' && forall k :: 0 <= k < |b| ==> s[k] == b[k];
    forall k | |b| < k < |s|
      ensures s[k] != '.'
    {
      NoDotBehind(b, c, k);
    }
    if !SingleDots(b) {
      var i :| 0 <= i < |b| && b[i] == '.' && !(i + 1 < |b| && b[i + 1] != '.');
      assert s[i] == '.' && s[i + 1] == '.';
    }
    if ContainsTwoDots(s) {
      var i :| 0 <= i < |s| - 1 && s[i] == '.' && s[i + 1] == '.';
      assert b[i] == '.' && (i + 1 < |b| ==> b[i + 1] == '.');
    }
  }

  lemma LastDot(b: string, c: string)
    requires PlainLetters(c)
    ensures LastIndexOf(b + "." + c, '.') == |b|
  {
    var s := b + "." + c;
    assert s[|b|] == '.';
    forall k | |b| < k < |s|
      ensures s[k] != '.'
    {
      NoDotBehind(b, c, k);
    }
  }

  lemma CutAt(s: string, i: nat)
    requires i < |s|
    ensures s == s[..i] + [s[i]] + s[i + 1..]
  {
  }

  /** An address in two parts, as the scanner cuts it. */
  ghost predicate CutsInto(mail: string, a: string, b: string, c: string) {
    mail == a + "@" + (b + "." + c) && '@' !in a && '.' !in c
  }

  lemma CutScans(mail: string, a: string, b: string, c: string)
    requires CutsInto(mail, a, b, c)
    ensures IndexOf(mail, '@') == |a| && mail[..|a|] == a && mail[|a| + 1..] == b + "." + c
    ensures Scan(mail) <==>
      && 1 <= |a| && AllIn(LocalChar, a) && 1 <= |b| && AllIn(DomainChar, b)
      && 2 <= |c| <= 63 && AllIn(Letter, c)
  {
    var domain := b + "." + c;
    assert mail == a + ['@'] + domain;
    IndexOfFirst(a, domain, '@');
    DomainCuts(b, c);
  }

  lemma DomainCuts(b: string, c: string)
    requires '.' !in c
    ensures ScanDomain(b + "." + c) <==>
      1 <= |b| && AllIn(DomainChar, b) && 2 <= |c| <= 63 && AllIn(Letter, c)
  {
    var domain := b + "." + c;
    assert domain[|b|] == '.';
    forall k | |b| < k < |domain|
      ensures domain[k] != '.'
    {
      assert domain[k] == c[k - |b| - 1];
    }
    assert LastIndexOf(domain, '.') == |b|;
    assert domain[..|b|] == b && domain[|b| + 1..] == c;
  }

  lemma ScannedCuts(mail: string)
    requires Scan(mail)
    ensures exists a, b, c :: CutsInto(mail, a, b, c)
  {
    var at := IndexOf(mail, '@');
    var a, domain := mail[..at], mail[at + 1..];
    var dot := LastIndexOf(domain, '.');
    var b, c := domain[..dot], domain[dot + 1..];
    CutAt(mail, at);
    CutAt(domain, dot);
    forall k | 0 <= k < |c|
      ensures c[k] != '.'
    {
      assert c[k] == domain[dot + 1 + k];
    }
    assert CutsInto(mail, a, b, c);
  }

  lemma PlainHasNoSeparator(a: string, c: string)
    ensures PlainLocal(a) ==> '@' !in a
    ensures PlainLetters(c) ==> '.' !in c
  {
  }

  /** For a mail that is cut, the check and the plain description agree. */
  lemma CutAgrees(mail: string, a: string, b: string, c: string)
    requires CutsInto(mail, a, b, c)
    ensures CheckEmailFormat(mail) <==> IsAddress(mail, a, b, c)
  {
    CheckedByScanner(mail);
    CutScans(mail, a, b, c);
    PlainClasses(a);
    PlainClasses(b);
    PlainClasses(c);
    assert a + "@" + (b + "." + c) == a + "@" + b + "." + c;
    if PlainLetters(c) {
      DotsOfDomain(b, c);
    }
    hide CheckEmailFormat, Scan, IndexOf, AllIn, PlainLocal, PlainDomain, PlainLetters, ContainsTwoDots, SingleDots;
  }

  /** What the check accepts, in plain characters: a local part of 1 to 64 letters, digits and ._%+-, an '@', a
      domain of letters, digits, single dots and hyphens, a dot, and 2 to 63 letters; at most 254 in all. */
  lemma AcceptedExactly(mail: string)
    ensures CheckEmailFormat(mail) <==> exists a, b, c :: IsAddress(mail, a, b, c)
  {
    if CheckEmailFormat(mail) {
      CheckedByScanner(mail);
      ScannedCuts(mail);
      var a, b, c :| CutsInto(mail, a, b, c);
      CutAgrees(mail, a, b, c);
    } else if a, b, c :| IsAddress(mail, a, b, c) {
      PlainHasNoSeparator(a, c);
      assert a + "@" + (b + "." + c) == a + "@" + b + "." + c;
      CutAgrees(mail, a, b, c);
    }
  }
}
