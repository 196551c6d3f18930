/** Base64 as the service uses it: encoding/base64's StdEncoding (padded) and RawStdEncoding (unpadded),
    sections 4 and 3.2 of RFC 4648.  Like the Go decoder, decoding skips CR and LF anywhere in the text
    and does not insist that the unused bits of the last character are zero. */
module Base64 {
  import opened Wrappers

  type Byte = b: int | 0 <= b < 256

  predicate IsSextet(v: int) {
    0 <= v < 64
  }

  function Symbol(v: int): char
    requires IsSextet(v)
  {
    if v < 26 then 'A' + v as char
    else if v < 52 then 'a' + (v - 26) as char
    else if v < 62 then '0' + (v - 52) as char
    else if v == 62 then '+'
    else '/'
  }

  function Value(c: char): Option<int> {
    if 'A' <= c <= 'Z' then Some((c - 'A') as int)
    else if 'a' <= c <= 'z' then Some((c - 'a') as int + 26)
    else if '0' <= c <= '9' then Some((c - '0') as int + 52)
    else if c == '+' then Some(62)
    else if c == '/' then Some(63)
    else None
  }

  /** The k-th of the four sextets that three bytes make. */
  function Sextet(b0: Byte, b1: Byte, b2: Byte, k: nat): (v: int)
    ensures IsSextet(v)
  {
    if k == 0 then b0 / 4
    else if k == 1 then b0 % 4 * 16 + b1 / 16
    else if k == 2 then b1 % 16 * 4 + b2 / 64
    else b2 % 64
  }

  /** The k-th of the three bytes that four sextets make. */
  function Octet(v0: int, v1: int, v2: int, v3: int, k: nat): Byte
    requires IsSextet(v0) && IsSextet(v1) && IsSextet(v2) && IsSextet(v3)
  {
    if k == 0 then v0 * 4 + v1 / 16
    else if k == 1 then v1 % 16 * 16 + v2 / 4
    else v2 % 4 * 64 + v3
  }

  /** The first n characters of the group of three bytes. */
  function Group(b0: Byte, b1: Byte, b2: Byte, n: nat): (s: string)
    ensures |s| == n
  {
    seq(n, k requires 0 <= k < n => Symbol(Sextet(b0, b1, b2, k)))
  }

  function Encode(bytes: seq<Byte>, padded: bool): string {
    if bytes == [] then []
    else if |bytes| == 1 then Group(bytes[0], 0, 0, 2) + (if padded then "==" else "")
    else if |bytes| == 2 then Group(bytes[0], bytes[1], 0, 3) + (if padded then "=" else "")
    else Group(bytes[0], bytes[1], bytes[2], 4) + Encode(bytes[3..], padded)
  }

  function WithoutBreaks(s: string): string {
    if s == [] then []
    else if s[0] == '\r' || s[0] == '\n' then WithoutBreaks(s[1..])
    else [s[0]] + WithoutBreaks(s[1..])
  }

  function Decode(s: string, padded: bool): Option<seq<Byte>> {
    DecodeGroups(WithoutBreaks(s), padded)
  }

  function DecodeGroups(s: string, padded: bool): Option<seq<Byte>> {
    if s == [] then Some([])
    else if |s| == 1 || Value(s[0]).None? || Value(s[1]).None? then None
    else
      var v0, v1 := Value(s[0]).value, Value(s[1]).value;
      if s[2..] == (if padded then "==" else "") then Some([Octet(v0, v1, 0, 0, 0)])
      else if |s| == 2 || Value(s[2]).None? then None
      else
        var v2 := Value(s[2]).value;
        if s[3..] == (if padded then "=" else "") then Some([Octet(v0, v1, v2, 0, 0), Octet(v0, v1, v2, 0, 1)])
        else if |s| == 3 || Value(s[3]).None? then None
        else
          var v3 := Value(s[3]).value;
          var rest := DecodeGroups(s[4..], padded);
          if rest.None? then None
          else Some([Octet(v0, v1, v2, v3, 0), Octet(v0, v1, v2, v3, 1), Octet(v0, v1, v2, v3, 2)] + rest.value)
  }

  /** The two regroupings of 24 bits are inverse to each other. */
  lemma Regrouping(b0: Byte, b1: Byte, b2: Byte)
    ensures var v := k requires k >= 0 => Sextet(b0, b1, b2, k);
      && Octet(v(0), v(1), v(2), v(3), 0) == b0
      && Octet(v(0), v(1), v(2), v(3), 1) == b1
      && Octet(v(0), v(1), v(2), v(3), 2) == b2
  {
  }

  lemma ValueOfSymbol(v: int)
    requires IsSextet(v)
    ensures Value(Symbol(v)) == Some(v)
  {
  }

  lemma GroupValue(b0: Byte, b1: Byte, b2: Byte, n: nat, k: nat)
    requires k < n
    ensures Value(Group(b0, b1, b2, n)[k]) == Some(Sextet(b0, b1, b2, k))
  {
    ValueOfSymbol(Sextet(b0, b1, b2, k));
  }

  /** Every character of an encoded text is in the alphabet, or is padding where there is any. */
  lemma {:induction false} EncodedText(bytes: seq<Byte>, padded: bool, i: nat)
    requires i < |Encode(bytes, padded)|
    ensures Value(Encode(bytes, padded)[i]).Some? || (padded && Encode(bytes, padded)[i] == '=')
  {
    if |bytes| == 1 {
      if i < 2 { GroupValue(bytes[0], 0, 0, 2, i); }
    } else if |bytes| == 2 {
      if i < 3 { GroupValue(bytes[0], bytes[1], 0, 3, i); }
    } else if i < 4 {
      GroupValue(bytes[0], bytes[1], bytes[2], 4, i);
    } else {
      EncodedText(bytes[3..], padded, i - 4);
    }
  }

  lemma {:induction false} NoBreaks(s: string)
    requires '\r' !in s && '\n' !in s
    ensures WithoutBreaks(s) == s
  {
    if s != [] {
      NoBreaks(s[1..]);
    }
  }

  lemma DecodeLastGroup(bytes: seq<Byte>, padded: bool)
    requires 1 <= |bytes| <= 2
    ensures DecodeGroups(Encode(bytes, padded), padded) == Some(bytes)
  {
    var s := Encode(bytes, padded);
    var b1: Byte := if |bytes| == 2 then bytes[1] else 0;
    Regrouping(bytes[0], b1, 0);
    var n := |bytes| + 1;
    forall k | 0 <= k < n
      ensures Value(s[k]) == Some(Sextet(bytes[0], b1, 0, k))
    {
      GroupValue(bytes[0], b1, 0, n, k);
    }
    assert s[n..] == if !padded then "" else if n == 2 then "==" else "=";
    if n == 3 {
      assert s[2..][0] == s[2] && s[2] != '=';
      assert bytes == [bytes[0], bytes[1]];
    } else {
      assert bytes == [bytes[0]];
    }
  }

  lemma DecodeFullGroup(v: seq<int>, g: string, rest: string, tail: seq<Byte>, padded: bool)
    requires |v| == |g| == 4
    requires forall k :: 0 <= k < 4 ==> IsSextet(v[k]) && Value(g[k]) == Some(v[k])
    requires DecodeGroups(rest, padded) == Some(tail)
    ensures DecodeGroups(g + rest, padded) ==
      Some([Octet(v[0], v[1], v[2], v[3], 0), Octet(v[0], v[1], v[2], v[3], 1), Octet(v[0], v[1], v[2], v[3], 2)]
           + tail)
  {
    var s := g + rest;
    assert s[4..] == rest;
    assert s[2..][0] == g[2] && g[2] != '=' && s[3..][0] == g[3] && g[3] != '=';
  }

  lemma {:induction false} DecodeEncodedGroups(bytes: seq<Byte>, padded: bool)
    ensures DecodeGroups(Encode(bytes, padded), padded) == Some(bytes)
  {
    if 1 <= |bytes| <= 2 {
      DecodeLastGroup(bytes, padded);
    } else if |bytes| >= 3 {
      var b0, b1, b2 := bytes[0], bytes[1], bytes[2];
      DecodeEncodedGroups(bytes[3..], padded);
      Regrouping(b0, b1, b2);
      var g := Group(b0, b1, b2, 4);
      forall k | 0 <= k < 4
        ensures Value(g[k]) == Some(Sextet(b0, b1, b2, k))
      {
        GroupValue(b0, b1, b2, 4, k);
      }
      DecodeFullGroup(seq(4, k requires 0 <= k < 4 => Sextet(b0, b1, b2, k)), g, Encode(bytes[3..], padded),
                      bytes[3..], padded);
      assert bytes == [b0, b1, b2] + bytes[3..];
    }
  }

  /** Decoding undoes encoding, padded and unpadded, for every byte sequence. */
  lemma DecodeEncode(bytes: seq<Byte>, padded: bool)
    ensures Decode(Encode(bytes, padded), padded) == Some(bytes)
  {
    forall i | 0 <= i < |Encode(bytes, padded)|
      ensures Encode(bytes, padded)[i] != '\r' && Encode(bytes, padded)[i] != '\n'
    {
      EncodedText(bytes, padded, i);
    }
    NoBreaks(Encode(bytes, padded));
    DecodeEncodedGroups(bytes, padded);
  }

  /** The unpadded text never contains the separator of the password hash format. */
  lemma NoDollar(bytes: seq<Byte>)
    ensures '$' !in Encode(bytes, false)
  {
    forall i | 0 <= i < |Encode(bytes, false)|
      ensures Encode(bytes, false)[i] != '$'
    {
      EncodedText(bytes, false, i);
    }
  }

  // ---------- the alphabet and the bit order ----------

  const UPPER := "ABCDEFGHIJKLMNOPQRSTUVWXYZ"
  const LOWER := "abcdefghijklmnopqrstuvwxyz"
  const DIGITS := "0123456789"

  /** The alphabet is the one of section 4 of RFC 4648: letters, digits, '+' and '/', in this order. */
  lemma AlphabetIsStandard(v: int)
    requires IsSextet(v)
    ensures |UPPER| == 26 && |LOWER| == 26 && |DIGITS| == 10
    ensures Symbol(v) ==
      if v < 26 then UPPER[v]
      else if v < 52 then LOWER[v - 26]
      else if v < 62 then DIGITS[v - 52]
      else if v == 62 then '+'
      else '/'
  {
  }

  /** The four sextets of a group are its 24 bits, the most significant first. */
  lemma GroupIsBigEndian(b0: Byte, b1: Byte, b2: Byte)
    ensures b0 * 65536 + b1 * 256 + b2 ==
      Sextet(b0, b1, b2, 0) * 262144 + Sextet(b0, b1, b2, 1) * 4096 + Sextet(b0, b1, b2, 2) * 64 + Sextet(b0, b1, b2, 3)
  {
  }

  /** Padding fills the last group up to four characters with '='. */
  lemma {:induction false} PaddingFills(bytes: seq<Byte>)
    ensures Encode(bytes, true) ==
      Encode(bytes, false) + (if |bytes| % 3 == 1 then "==" else if |bytes| % 3 == 2 then "=" else "")
    ensures |Encode(bytes, true)| % 4 == 0
  {
    if |bytes| >= 3 {
      PaddingFills(bytes[3..]);
      assert |bytes[3..]| % 3 == |bytes| % 3;
    }
  }
}
