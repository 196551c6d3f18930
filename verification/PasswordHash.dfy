/** The stored password hash: printing in HashPassword and parsing in CompareHashes of
    app/services/auth_service.go.  HMAC with the pepper followed by Argon2id is one uninterpreted
    key derivation of (password, salt, time, memory, threads, key length). */
module PasswordHash {
  import opened Wrappers
  import opened Text
  import opened Base64

  type Kdf = (string, seq<Byte>, nat, nat, nat, nat) -> seq<Byte>

  ghost predicate KeepsLength(kdf: Kdf) {
    forall password, salt, time, memory, threads, n: nat ::
      |kdf(password, salt, time, memory, threads, n)| == n
  }

  const TIME := 3
  const MEMORY := 128 * 1024
  const THREADS := 4
  const KEY_LENGTH := 32

  // The fixed parts of the printed hash; the salt and the key follow them.
  const ALGORITHM := "argon2id"
  const VERSION := "v=19"
  const PARAMS := "m=131072,t=3,p=4"

  function PrintHash(salt: seq<Byte>, hash: seq<Byte>): string {
    "$" + ALGORITHM + "$" + VERSION + "$" + PARAMS + "$" + Encode(salt, false) + "$" + Encode(hash, false)
  }

  function HashPassword(kdf: Kdf, password: string, salt: seq<Byte>): string {
    PrintHash(salt, kdf(password, salt, TIME, MEMORY, THREADS, KEY_LENGTH))
  }

  // ---------- scanning the parameters ----------

  datatype Params = Params(memory: nat, time: nat, threads: nat)

  function SkipBlanks(s: string): (r: string)
    ensures |r| <= |s|
  {
    if s != [] && (s[0] == ' ' || s[0] == '\t') then SkipBlanks(s[1..]) else s
  }

  function DigitRun(s: string): (n: nat)
    ensures n <= |s| && AllDigits(s[..n])
    ensures n < |s| ==> !IsDigit(s[n])
  {
    if s == [] || !IsDigit(s[0]) then 0
    else
      var n := DigitRun(s[1..]);
      assert s[..n + 1] == [s[0]] + s[1..][..n];
      n + 1
  }

  /** %d into an unsigned variable of the given range: at least one digit, no overflow. */
  function ScanUint(s: string, limit: nat): Option<(nat, string)> {
    var t := SkipBlanks(s);
    var n := DigitRun(t);
    if n == 0 || DigitsValue(t[..n]) >= limit then None else Some((DigitsValue(t[..n]), t[n..]))
  }

  function ScanLiteral(s: string, literal: string): Option<string> {
    if literal <= s then Some(s[|literal|..]) else None
  }

  function ScanField(s: string, literal: string, limit: nat): Option<(nat, string)> {
    match ScanLiteral(s, literal)
    case None => None
    case Some(rest) => ScanUint(rest, limit)
  }

  const UINT32 := 0x1_0000_0000
  const UINT8 := 0x100

  /** What follows the third number is ignored. */
  function ScanParams(s: string): Option<Params> {
    match ScanField(s, "m=", UINT32)
    case None => None
    case Some((memory, s1)) =>
      match ScanField(s1, ",t=", UINT32)
      case None => None
      case Some((time, s2)) =>
        match ScanField(s2, ",p=", UINT8)
        case None => None
        case Some((threads, _)) => Some(Params(memory, time, threads))
  }

  // ---------- CompareHashes ----------

  datatype Verdict = Accepted | InvalidCredentials | InvalidFormat | InvalidParams | InvalidSalt | InvalidHash

  function CompareHashes(kdf: Kdf, storedHash: string, password: string): Verdict {
    var parts := Split(storedHash, '$');
    if |parts| != 6 then InvalidFormat
    else
      match ScanParams(parts[3])
      case None => InvalidParams
      case Some(params) =>
        match Decode(parts[4], false)
        case None => InvalidSalt
        case Some(salt) =>
          match Decode(parts[5], false)
          case None => InvalidHash
          case Some(hash) =>
            if kdf(password, salt, params.time, params.memory, params.threads, |hash|) == hash
            then Accepted else InvalidCredentials
  }

  // ---------- the printed string parses back ----------

  lemma {:induction false} DigitRunOf(digits: string, rest: string)
    requires AllDigits(digits)
    requires rest != [] ==> !IsDigit(rest[0])
    ensures DigitRun(digits + rest) == |digits|
  {
    if digits == [] {
      assert digits + rest == rest;
    } else {
      DigitRunOf(digits[1..], rest);
      assert (digits + rest)[1..] == digits[1..] + rest;
    }
  }

  lemma ScanPrinted(n: nat, limit: nat, literal: string, rest: string)
    requires n < limit
    requires rest != [] ==> !IsDigit(rest[0])
    ensures ScanField(literal + Decimal(n) + rest, literal, limit) == Some((n, rest))
  {
    var s := literal + Decimal(n) + rest;
    assert s[|literal|..] == Decimal(n) + rest;
    DigitRunOf(Decimal(n), rest);
    assert (Decimal(n) + rest)[..|Decimal(n)|] == Decimal(n);
    assert (Decimal(n) + rest)[|Decimal(n)|..] == rest;
    DecimalValue(n);
  }

  /** Scanning undoes printing, for every setting of the three parameters that fits its variable. */
  lemma ScanPrintedParams(p: Params)
    requires p.memory < UINT32 && p.time < UINT32 && p.threads < UINT8
    ensures ScanParams("m=" + Decimal(p.memory) + (",t=" + Decimal(p.time) + (",p=" + Decimal(p.threads) + "")))
      == Some(p)
  {
    ScanPrinted(p.threads, UINT8, ",p=", "");
    ScanPrinted(p.time, UINT32, ",t=", ",p=" + Decimal(p.threads) + "");
    ScanPrinted(p.memory, UINT32, "m=", ",t=" + Decimal(p.time) + (",p=" + Decimal(p.threads) + ""));
  }

  lemma PrintedNumbers()
    ensures Decimal(MEMORY) == "131072" && Decimal(TIME) == "3" && Decimal(THREADS) == "4"
  {
    assert Decimal(13) == "13";
    assert Decimal(1310) == "1310";
  }

  /** The parameters HashPassword prints are the ones it derived the key with. */
  lemma PrintedParamsAreUsed()
    ensures ScanParams(PARAMS) == Some(Params(MEMORY, TIME, THREADS))
  {
    PrintedNumbers();
    assert PARAMS == "m=" + Decimal(MEMORY) + (",t=" + Decimal(TIME) + (",p=" + Decimal(THREADS) + ""));
    ScanPrintedParams(Params(MEMORY, TIME, THREADS));
  }

  ghost predicate SplitsInto(s: string, parts: seq<string>) {
    Split(s, '$') == parts
  }

  lemma SplitsIntoMore(s: string, parts: seq<string>, part: string)
    requires SplitsInto(s, parts) && '$' !in part
    ensures SplitsInto(s + "$" + part, parts + [part])
  {
    SplitSnoc(s, part, '$');
  }

  lemma PrintedHashSplits(salt: seq<Byte>, hash: seq<Byte>)
    ensures SplitsInto(PrintHash(salt, hash),
      [""] + [ALGORITHM] + [VERSION] + [PARAMS] + [Encode(salt, false)] + [Encode(hash, false)])
  {
    NoDollar(salt);
    NoDollar(hash);
    SplitJoin([""], '$');
    SplitsIntoMore("", [""], ALGORITHM);
    assert "" + "$" + ALGORITHM == "$" + ALGORITHM;
    SplitsIntoMore("$" + ALGORITHM, [""] + [ALGORITHM], VERSION);
    SplitsIntoMore("$" + ALGORITHM + "$" + VERSION, [""] + [ALGORITHM] + [VERSION], PARAMS);
    var s, parts := "$" + ALGORITHM + "$" + VERSION + "$" + PARAMS, [""] + [ALGORITHM] + [VERSION] + [PARAMS];
    SplitsIntoMore(s, parts, Encode(salt, false));
    SplitsIntoMore(s + "$" + Encode(salt, false), parts + [Encode(salt, false)], Encode(hash, false));
  }

  /** The printed string splits into exactly six parts. */
  lemma PrintedHashParts(salt: seq<Byte>, hash: seq<Byte>)
    ensures Split(PrintHash(salt, hash), '$') ==
      ["", ALGORITHM, VERSION, PARAMS, Encode(salt, false), Encode(hash, false)]
  {
    PrintedHashSplits(salt, hash);
  }

  /** A stored hash accepts exactly the passwords whose derived key equals the one it was made from;
      in particular it accepts its own password, and it is never refused for its format. */
  lemma CompareOwnHash(kdf: Kdf, password: string, salt: seq<Byte>, attempt: string)
    requires KeepsLength(kdf)
    ensures CompareHashes(kdf, HashPassword(kdf, password, salt), attempt) ==
      if kdf(attempt, salt, TIME, MEMORY, THREADS, KEY_LENGTH) == kdf(password, salt, TIME, MEMORY, THREADS, KEY_LENGTH)
      then Accepted else InvalidCredentials
  {
    var hash := kdf(password, salt, TIME, MEMORY, THREADS, KEY_LENGTH);
    PrintedHashParts(salt, hash);
    PrintedParamsAreUsed();
    DecodeEncode(salt, false);
    DecodeEncode(hash, false);
  }

  /** Two passwords stored with their own salts give the same string only if salt and key agree. */
  lemma PrintHashInjective(salt: seq<Byte>, hash: seq<Byte>, salt': seq<Byte>, hash': seq<Byte>)
    requires PrintHash(salt, hash) == PrintHash(salt', hash')
    ensures salt == salt' && hash == hash'
  {
    PrintedHashParts(salt, hash);
    PrintedHashParts(salt', hash');
    DecodeEncode(salt, false);
    DecodeEncode(salt', false);
    DecodeEncode(hash, false);
    DecodeEncode(hash', false);
  }

  /** The printed string and the parameters of the derivation, spelled out. */
  lemma PrintedText(kdf: Kdf, password: string, salt: seq<Byte>)
    ensures HashPassword(kdf, password, salt) ==
      "$argon2id$v=19$m=131072,t=3,p=4$" + Encode(salt, false) + "$"
      + Encode(kdf(password, salt, 3, 131072, 4, 32), false)
  {
    assert "$" + ALGORITHM + "$" == "$argon2id$";
    assert "$argon2id$" + VERSION + "$" == "$argon2id$v=19$";
    assert "$argon2id$v=19$" + PARAMS + "$" == "$argon2id$v=19$m=131072,t=3,p=4$";
    hide Encode;
  }
}
