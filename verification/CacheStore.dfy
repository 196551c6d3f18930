/** The encrypted cache of app/infrastructure/cache_store.go: the envelope around a payload, the two
    wrappings of a cached user, and the store with its expiry.

    The AEAD and the JSON codec of a user are parameters; of them only that opening inverts sealing and
    that decoding inverts encoding of the fields that are encoded at all is assumed. */
module CacheStore {
  import opened Wrappers
  import opened Text
  import opened Base64

  /** A user as loaded, and what JSON leaves out of it: the password and the one-time codes carry json:"-". */
  datatype LoadedUser = LoadedUser(id: int, mail: string, phone: string, active: bool, removed: bool,
                                   subscriptions: seq<int>, password: string, codes: seq<string>)

  function JsonFields(u: LoadedUser): LoadedUser {
    u.(password := "", codes := [])
  }

  datatype CacheError = NotFound | InvalidFormat | BadNonce | BadCipherText | OpenFailed | BadUser

  /** The functions the store is built on, for one cipher key. */
  datatype Codec = Codec(
    seal: (seq<Byte>, seq<Byte>) -> seq<Byte>,           // nonce, plaintext
    open: (seq<Byte>, seq<Byte>) -> Option<seq<Byte>>,   // nonce, ciphertext
    marshal: LoadedUser -> seq<Byte>,
    unmarshal: seq<Byte> -> Option<LoadedUser>)
  {
    ghost predicate Sound() {
      && (forall nonce, plain :: open(nonce, seal(nonce, plain)) == Some(plain))
      && (forall u :: unmarshal(marshal(u)) == Some(JsonFields(u)))
    }
  }

  // ---------- the envelope {"cipher_text":"...","nonce":"..."} ----------

  datatype CachePayload = CachePayload(cipherText: string, nonce: string)

  const HEAD := "{\"cipher_text\":\""
  const MIDDLE := "\",\"nonce\":\""
  const TAIL := "\"}"

  predicate IsByteText(s: string) {
    forall i :: 0 <= i < |s| ==> s[i] < 256 as char
  }

  function ToBytes(s: string): seq<Byte>
    requires IsByteText(s)
  {
    seq(|s|, i requires 0 <= i < |s| => s[i] as int)
  }

  function FromBytes(bytes: seq<Byte>): string {
    seq(|bytes|, i requires 0 <= i < |bytes| => bytes[i] as char)
  }

  function MarshalPayload(p: CachePayload): string {
    HEAD + p.cipherText + (MIDDLE + p.nonce + TAIL)
  }

  /** Reads the envelope as it is written; other spellings of the same JSON are not modelled. */
  function UnmarshalPayload(s: string): Option<CachePayload> {
    match Field(s, HEAD)
    case None => None
    case Some((cipherText, s1)) =>
      match Field(s1, MIDDLE)
      case None => None
      case Some((nonce, s2)) => if s2 == TAIL then Some(CachePayload(cipherText, nonce)) else None
  }

  /** The text up to the next quote after a literal opening, and the rest from that quote on. */
  function Field(s: string, opening: string): Option<(string, string)> {
    if !(opening <= s) then None
    else
      var rest := s[|opening|..];
      var i := IndexOf(rest, '"');
      Some((rest[..i], rest[i..]))
  }

  // ---------- encryption and wrapping ----------

  function Encrypt(codec: Codec, phrase: seq<Byte>, nonce: seq<Byte>): CachePayload {
    CachePayload(Encode(codec.seal(nonce, phrase), true), Encode(nonce, true))
  }

  function Decrypt(codec: Codec, p: CachePayload): Result<seq<Byte>, CacheError> {
    match Decode(p.nonce, true)
    case None => Err(BadNonce)
    case Some(nonce) =>
      match Decode(p.cipherText, true)
      case None => Err(BadCipherText)
      case Some(cipherText) =>
        match codec.open(nonce, cipherText)
        case None => Err(OpenFailed)
        case Some(plain) => Ok(plain)
  }

  function Wrap(codec: Codec, payload: seq<Byte>, nonce: seq<Byte>): seq<Byte> {
    WrappedIsByteText(codec, payload, nonce);
    ToBytes(MarshalPayload(Encrypt(codec, payload, nonce)))
  }

  function Unwrap(codec: Codec, bytes: seq<Byte>): Result<seq<Byte>, CacheError> {
    match UnmarshalPayload(FromBytes(bytes))
    case None => Err(InvalidFormat)
    case Some(p) => Decrypt(codec, p)
  }

  function CacheUser(codec: Codec, user: LoadedUser, nonce: seq<Byte>): seq<Byte> {
    Wrap(codec, codec.marshal(user), nonce)
  }

  function DecacheUser(codec: Codec, payload: seq<Byte>): Result<LoadedUser, CacheError> {
    match Unwrap(codec, payload)
    case Err(e) => Err(e)
    case Ok(plain) =>
      match codec.unmarshal(plain)
      case None => Err(BadUser)
      case Some(user) => Ok(user)
  }

  // ---------- the store ----------

  datatype Entry = Entry(bytes: seq<Byte>, expiresAt: int)

  type Redis = map<string, Entry>

  /** What a reader of a key gets at a time: a live entry unwrapped. */
  function Lookup(codec: Codec, redis: Redis, key: string, now: int): Result<seq<Byte>, CacheError> {
    if key in redis && now < redis[key].expiresAt then Unwrap(codec, redis[key].bytes) else Err(NotFound)
  }

  /** What GetUserByMailWithCodes makes of it: the user unwrapped a second time. */
  function LookupUser(codec: Codec, redis: Redis, key: string, now: int): Result<LoadedUser, CacheError> {
    match Lookup(codec, redis, key, now)
    case Err(e) => Err(e)
    case Ok(payload) => DecacheUser(codec, payload)
  }

  datatype Write =
    | SetKey(key: string, payload: seq<Byte>, ttl: int, nonce: seq<Byte>, now: int)
    | DelKey(key: string)

  class CacheStore {
    const codec: Codec
    var redis: Redis

    constructor (codec: Codec)
      requires codec.Sound()
      ensures this.codec == codec && Valid()
      ensures forall key, now :: Lookup(codec, redis, key, now) == Err(NotFound)
    {
      this.codec := codec;
      redis := map[];
    }

    ghost predicate Valid()
      reads this
    {
      codec.Sound()
    }

    method Get(key: string, now: int) returns (r: Result<seq<Byte>, CacheError>)
      ensures r == Lookup(codec, redis, key, now)
    {
      if key !in redis || now >= redis[key].expiresAt {
        return Err(NotFound);
      }
      var cachePayload := UnmarshalPayload(FromBytes(redis[key].bytes));
      if cachePayload.None? {
        return Err(InvalidFormat);
      }
      return Decrypt(codec, cachePayload.value);
    }

    /** The key gives back the payload until it expires, and nothing after that; no other key changes. */
    method Set(key: string, payload: seq<Byte>, ttl: int, nonce: seq<Byte>, now: int)
      requires Valid()
      modifies this`redis
      ensures Valid()
      ensures forall t :: Lookup(codec, redis, key, t) == if t < now + ttl then Ok(payload) else Err(NotFound)
      ensures forall k, t | k != key :: Lookup(codec, redis, k, t) == Lookup(codec, old(redis), k, t)
    {
      var bytes := Wrap(codec, payload, nonce);
      UnwrapWrap(codec, payload, nonce);
      hide Wrap, Unwrap;
      redis := redis[key := Entry(bytes, now + ttl)];
    }

    method Del(key: string)
      requires Valid()
      modifies this`redis
      ensures Valid()
      ensures forall t :: Lookup(codec, redis, key, t) == Err(NotFound)
      ensures forall k, t | k != key :: Lookup(codec, redis, k, t) == Lookup(codec, old(redis), k, t)
    {
      hide Unwrap;
      redis := redis - {key};
    }

    /** CacheUser and then Set, as UpdateCache does for each of its keys. */
    method SetUser(key: string, user: LoadedUser, ttl: int, inner: seq<Byte>, outer: seq<Byte>, now: int)
      requires Valid()
      modifies this`redis
      ensures Valid()
      ensures forall t ::
        LookupUser(codec, redis, key, t) == if t < now + ttl then Ok(JsonFields(user)) else Err(NotFound)
      ensures forall k, t | k != key :: Lookup(codec, redis, k, t) == Lookup(codec, old(redis), k, t)
    {
      var payload := CacheUser(codec, user, inner);
      DecachedUser(codec, user, inner);
      hide CacheUser, DecacheUser;
      Set(key, payload, ttl, outer, now);
    }

    /** Get and then DecacheUser, as GetUserByMailWithCodes does. */
    method GetUser(key: string, now: int) returns (r: Result<LoadedUser, CacheError>)
      ensures r == LookupUser(codec, redis, key, now)
    {
      var payload := Get(key, now);
      match payload {
        case Err(e) => return Err(e);
        case Ok(bytes) => return DecacheUser(codec, bytes);
      }
    }

    method Perform(w: Write)
      requires Valid()
      modifies this`redis
      ensures Valid()
      ensures forall k, t | k != w.key :: Lookup(codec, redis, k, t) == Lookup(codec, old(redis), k, t)
    {
      match w {
        case SetKey(key, payload, ttl, nonce, now) => Set(key, payload, ttl, nonce, now);
        case DelKey(key) => Del(key);
      }
    }

    /** A cached user is read back, up to what JSON leaves out, whatever is set and deleted under other keys
        in between, until it expires; and not afterwards. */
    method SetThenGetUser(key: string, user: LoadedUser, ttl: int, inner: seq<Byte>, outer: seq<Byte>, now: int,
                          others: seq<Write>, later: int)
      returns (r: Result<LoadedUser, CacheError>)
      requires Valid() && forall i :: 0 <= i < |others| ==> others[i].key != key
      modifies this`redis
      ensures r == if later < now + ttl then Ok(JsonFields(user)) else Err(NotFound)
      ensures later < now + ttl ==> r == Ok(user.(password := "", codes := []))
    {
      SetUser(key, user, ttl, inner, outer, now);
      ghost var stored := Lookup(codec, redis, key, later);
      assert LookupUser(codec, redis, key, later) == if later < now + ttl then Ok(JsonFields(user)) else Err(NotFound);
      hide Lookup, DecacheUser, JsonFields;
      for i := 0 to |others|
        invariant Valid() && Lookup(codec, redis, key, later) == stored
      {
        Perform(others[i]);
      }
      assert LookupUser(codec, redis, key, later) == if later < now + ttl then Ok(JsonFields(user)) else Err(NotFound);
      r := GetUser(key, later);
    }
  }

  // ---------- round trips ----------

  lemma EncodedIsPlain(bytes: seq<Byte>)
    ensures '"' !in Encode(bytes, true) && IsByteText(Encode(bytes, true))
  {
    forall i | 0 <= i < |Encode(bytes, true)|
      ensures Encode(bytes, true)[i] != '"' && Encode(bytes, true)[i] < 256 as char
    {
      EncodedText(bytes, true, i);
    }
  }

  lemma WrappedIsByteText(codec: Codec, payload: seq<Byte>, nonce: seq<Byte>)
    ensures IsByteText(MarshalPayload(Encrypt(codec, payload, nonce)))
  {
    EncodedIsPlain(codec.seal(nonce, payload));
    EncodedIsPlain(nonce);
    assert IsByteText(HEAD) && IsByteText(MIDDLE) && IsByteText(TAIL);
  }

  lemma FieldPrinted(opening: string, text: string, rest: string)
    requires '"' !in text && rest != [] && rest[0] == '"'
    ensures Field(opening + text + rest, opening) == Some((text, rest))
  {
    var s := opening + text + rest;
    assert s[|opening|..] == text + rest;
    IndexOfFirst(text, rest[1..], '"');
    assert text + rest == text + ['"'] + rest[1..];
    assert (text + rest)[..|text|] == text && (text + rest)[|text|..] == rest;
  }

  /** Reading the envelope undoes writing it. */
  lemma UnmarshalMarshal(p: CachePayload)
    requires '"' !in p.cipherText && '"' !in p.nonce
    ensures UnmarshalPayload(MarshalPayload(p)) == Some(p)
  {
    FieldPrinted(HEAD, p.cipherText, MIDDLE + p.nonce + TAIL);
    FieldPrinted(MIDDLE, p.nonce, TAIL);
  }

  lemma FromToBytes(s: string)
    requires IsByteText(s)
    ensures FromBytes(ToBytes(s)) == s
  {
  }

  /** One wrapping is undone by one unwrapping, for every payload and every nonce. */
  lemma UnwrapWrap(codec: Codec, payload: seq<Byte>, nonce: seq<Byte>)
    requires codec.Sound()
    ensures Unwrap(codec, Wrap(codec, payload, nonce)) == Ok(payload)
  {
    var p := Encrypt(codec, payload, nonce);
    var cipherText := codec.seal(nonce, payload);
    WrappedIsByteText(codec, payload, nonce);
    FromToBytes(MarshalPayload(p));
    EncodedIsPlain(cipherText);
    EncodedIsPlain(nonce);
    UnmarshalMarshal(p);
    DecodeEncode(cipherText, true);
    DecodeEncode(nonce, true);
    assert codec.open(nonce, codec.seal(nonce, payload)) == Some(payload);
  }

  /** The inner wrapping is undone, up to the fields that are never exported. */
  lemma DecachedUser(codec: Codec, user: LoadedUser, inner: seq<Byte>)
    requires codec.Sound()
    ensures DecacheUser(codec, CacheUser(codec, user, inner)) == Ok(JsonFields(user))
  {
    UnwrapWrap(codec, codec.marshal(user), inner);
    assert codec.unmarshal(codec.marshal(user)) == Some(JsonFields(user));
    hide Wrap, Unwrap;
  }

  /** The user that CacheUser and then Set wrote, in two wrappings, is what Get and then DecacheUser
      return, up to the fields that are never exported. */
  lemma CachedUserRecovered(codec: Codec, user: LoadedUser, inner: seq<Byte>, outer: seq<Byte>)
    requires codec.Sound()
    ensures var stored := Wrap(codec, CacheUser(codec, user, inner), outer);
      Unwrap(codec, stored).Ok? && DecacheUser(codec, Unwrap(codec, stored).value) == Ok(JsonFields(user))
  {
    UnwrapWrap(codec, CacheUser(codec, user, inner), outer);
    DecachedUser(codec, user, inner);
    hide CacheUser, DecacheUser, Wrap, Unwrap;
  }

  /** The envelope, spelled out. */
  lemma EnvelopeText(p: CachePayload)
    ensures MarshalPayload(p) == "{\"cipher_text\":\"" + p.cipherText + "\",\"nonce\":\"" + p.nonce + "\"}"
  {
  }
}
