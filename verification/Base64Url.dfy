/** Unpadded base64url, section 5 of RFC 4648, on strings of bytes. */
module Base64Url {
  import opened Options
  import opened Paths

  /** The alphabet: upper-case, lower-case, digits, then `-` and `_`. */
  function Digit(n: nat): char
    requires n < 64
  {
    if n < 26 then 'A' + n as char
    else if n < 52 then 'a' + (n - 26) as char
    else if n < 62 then '0' + (n - 52) as char
    else if n == 62 then '-'
    else '_'
  }

  function Value(c: char): Option<nat> {
    if 'A' <= c <= 'Z' then Some(c as int - 'A' as int)
    else if 'a' <= c <= 'z' then Some(c as int - 'a' as int + 26)
    else if '0' <= c <= '9' then Some(c as int - '0' as int + 52)
    else if c == '-' then Some(62)
    else if c == '_' then Some(63)
    else None
  }

  lemma ValueOfDigit(n: nat)
    requires n < 64
    ensures Value(Digit(n)) == Some(n) && Digit(n) != '/'
  {
  }

  /** The digits of one group of up to three bytes; missing bytes count as zero. */
  function Group(a: nat, b: nat, c: nat): string
    requires a < 256 && b < 256 && c < 256
  {
    [Digit(a / 4), Digit(a % 4 * 16 + b / 16), Digit(b % 16 * 4 + c / 64), Digit(c % 64)]
  }

  function ByteAt(s: string, i: nat): (n: nat)
    requires Bytes(s)
    ensures n < 256
  {
    if i < |s| then s[i] as int else 0
  }

  function FirstGroup(s: string): (g: string)
    requires Bytes(s)
    ensures |g| == 4
  {
    Group(ByteAt(s, 0), ByteAt(s, 1), ByteAt(s, 2))
  }

  function Encode(s: string): string
    requires Bytes(s)
  {
    if s == "" then ""
    else if |s| < 3 then FirstGroup(s)[..|s| + 1]
    else FirstGroup(s) + Encode(s[3..])
  }

  function Byte(n: nat): char {
    (n % 256) as char
  }

  /** The bytes of one group of four digits. */
  function Ungroup(d0: nat, d1: nat, d2: nat, d3: nat): string {
    [Byte(d0 * 4 + d1 / 16), Byte(d1 % 16 * 16 + d2 / 4), Byte(d2 % 4 * 64 + d3)]
  }

  function ValueAt(t: string, i: nat): Option<nat> {
    if i < |t| then Value(t[i]) else Some(0)
  }

  function Decode(t: string): Option<string> {
    var d0, d1, d2, d3 := ValueAt(t, 0), ValueAt(t, 1), ValueAt(t, 2), ValueAt(t, 3);
    if t == "" then Some("")
    else if d0 == None || d1 == None || d2 == None || d3 == None || |t| == 1 then None
    else
      var bytes := Ungroup(d0.value, d1.value, d2.value, d3.value);
      if |t| < 4 then Some(bytes[..|t| - 1])
      else match Decode(t[4..])
        case None => None
        case Some(rest) => Some(bytes + rest)
  }

  lemma GroupValues(a: nat, b: nat, c: nat)
    requires a < 256 && b < 256 && c < 256
    ensures var g := Group(a, b, c);
      && Value(g[0]) == Some(a / 4) && Value(g[1]) == Some(a % 4 * 16 + b / 16)
      && Value(g[2]) == Some(b % 16 * 4 + c / 64) && Value(g[3]) == Some(c % 64) && '/' !in g
  {
    ValueOfDigit(a / 4);
    ValueOfDigit(a % 4 * 16 + b / 16);
    ValueOfDigit(b % 16 * 4 + c / 64);
    ValueOfDigit(c % 64);
  }

  lemma UngroupGroup(a: nat, b: nat, c: nat)
    requires a < 256 && b < 256 && c < 256
    ensures Ungroup(a / 4, a % 4 * 16 + b / 16, b % 16 * 4 + c / 64, c % 64) == [a as char, b as char, c as char]
  {
    assert a / 4 * 4 + (a % 4 * 16 + b / 16) / 16 == a;
    assert (a % 4 * 16 + b / 16) % 16 * 16 + (b % 16 * 4 + c / 64) / 4 == b;
    assert (b % 16 * 4 + c / 64) % 4 * 64 + c % 64 == c;
  }

  /** What the digits of a group's encoding are worth. */
  lemma GroupAt(s: string, t: string)
    requires Bytes(s) && s != "" && |t| >= 2 && (|t| < 4 ==> |t| == |s| + 1)
    requires forall i :: 0 <= i < 4 && i < |t| ==> t[i] == FirstGroup(s)[i]
    ensures var a, b, c := ByteAt(s, 0), ByteAt(s, 1), ByteAt(s, 2);
      && ValueAt(t, 0) == Some(a / 4) && ValueAt(t, 1) == Some(a % 4 * 16 + b / 16)
      && ValueAt(t, 2) == Some(b % 16 * 4 + c / 64) && ValueAt(t, 3) == Some(c % 64)
  {
    var g := FirstGroup(s);
    GroupValues(ByteAt(s, 0), ByteAt(s, 1), ByteAt(s, 2));
    assert t[0] == g[0] && t[1] == g[1];
    if |t| == 2 {
      assert ByteAt(s, 1) == 0 && ByteAt(s, 2) == 0;
    } else if |t| == 3 {
      assert t[2] == g[2] && ByteAt(s, 2) == 0;
    } else {
      assert t[2] == g[2] && t[3] == g[3];
    }
  }

  lemma DecodeStep(t: string, d0: nat, d1: nat, d2: nat, d3: nat)
    requires ValueAt(t, 0) == Some(d0) && ValueAt(t, 1) == Some(d1) && ValueAt(t, 2) == Some(d2)
    requires ValueAt(t, 3) == Some(d3) && |t| >= 2
    ensures |t| < 4 ==> Decode(t) == Some(Ungroup(d0, d1, d2, d3)[..|t| - 1])
    ensures |t| >= 4 && Decode(t[4..]).Some? ==> Decode(t) == Some(Ungroup(d0, d1, d2, d3) + Decode(t[4..]).value)
  {
  }

  lemma DecodeGroup(s: string, t: string)
    requires Bytes(s) && s != "" && |t| >= 2 && (|t| < 4 ==> |t| == |s| + 1)
    requires forall i :: 0 <= i < 4 && i < |t| ==> t[i] == FirstGroup(s)[i]
    ensures var bytes := [ByteAt(s, 0) as char, ByteAt(s, 1) as char, ByteAt(s, 2) as char];
      && (|t| < 4 ==> Decode(t) == Some(bytes[..|t| - 1]))
      && (|t| >= 4 && Decode(t[4..]).Some? ==> Decode(t) == Some(bytes + Decode(t[4..]).value))
  {
    var a, b, c := ByteAt(s, 0), ByteAt(s, 1), ByteAt(s, 2);
    GroupAt(s, t);
    DecodeStep(t, a / 4, a % 4 * 16 + b / 16, b % 16 * 4 + c / 64, c % 64);
    UngroupGroup(a, b, c);
  }

  lemma ThreeBytes(s: string)
    requires Bytes(s)
    ensures var bytes := [ByteAt(s, 0) as char, ByteAt(s, 1) as char, ByteAt(s, 2) as char];
      if |s| < 3 then bytes[..|s|] == s else bytes + s[3..] == s
  {
  }

  lemma SplitNumber(d0: nat, d1: nat, d2: nat, d3: nat, n: nat)
    requires d1 < 64 && d2 < 64 && d3 < 64 && n == d0 * 262144 + d1 * 4096 + d2 * 64 + d3
    ensures n / 262144 == d0 && n / 4096 % 64 == d1 && n / 64 % 64 == d2 && n % 64 == d3
  {
    assert n / 4096 == d0 * 64 + d1;
    assert n / 64 == d0 * 4096 + d1 * 64 + d2;
  }

  /** The digits of a group are those of its three bytes read as one number, most significant first. */
  lemma GroupIsOneNumber(a: nat, b: nat, c: nat)
    requires a < 256 && b < 256 && c < 256
    ensures var n := (a * 256 + b) * 256 + c;
      && n / 262144 < 64
      && Group(a, b, c) == [Digit(n / 262144), Digit(n / 4096 % 64), Digit(n / 64 % 64), Digit(n % 64)]
  {
    var d0, d1, d2, d3 := a / 4, a % 4 * 16 + b / 16, b % 16 * 4 + c / 64, c % 64;
    SplitNumber(d0, d1, d2, d3, (a * 256 + b) * 256 + c);
  }

  /** Test vectors of section 10 of RFC 4648, group by group, and the two digits that are safe in URLs. */
  lemma TestVectors()
    ensures Group('f' as int, 'o' as int, 'o' as int) == "Zm9v" && Group('b' as int, 'a' as int, 'r' as int) == "YmFy"
    ensures Group('f' as int, 0, 0)[..2] == "Zg" && Group('f' as int, 'o' as int, 0)[..3] == "Zm8"
    ensures Group(0xfb, 0xff, 0)[..3] == "-_8"
  {
    assert Group('f' as int, 0, 0) == "ZgAA" && Group('f' as int, 'o' as int, 0) == "Zm8A";
    assert Group(0xfb, 0xff, 0) == "-_8A";
  }

  /** Decoding undoes encoding, so distinct paths have distinct encodings. */
  lemma {:induction false} RoundTrip(s: string)
    requires Bytes(s)
    ensures Decode(Encode(s)) == Some(s)
  {
    if s != "" {
      DecodeGroup(s, Encode(s));
      ThreeBytes(s);
      if |s| >= 3 {
        RoundTrip(s[3..]);
        assert Encode(s)[4..] == Encode(s[3..]);
      }
    }
  }

  lemma {:induction false} NoSlash(s: string)
    requires Bytes(s)
    ensures '/' !in Encode(s)
  {
    if s != "" {
      GroupValues(ByteAt(s, 0), ByteAt(s, 1), ByteAt(s, 2));
      if |s| >= 3 {
        NoSlash(s[3..]);
      }
    }
  }

  lemma {:induction false} EncodedLength(s: string)
    requires Bytes(s)
    ensures |Encode(s)| == (4 * |s| + 2) / 3
  {
    if |s| >= 3 {
      EncodedLength(s[3..]);
    }
  }

  lemma EncodeInjective(s: string, t: string)
    requires Bytes(s) && Bytes(t) && Encode(s) == Encode(t)
    ensures s == t
  {
    RoundTrip(s);
    RoundTrip(t);
  }
}
