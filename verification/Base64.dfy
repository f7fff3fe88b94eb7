/** The Base64 encoder of the Jenkins client and its Basic credentials. */
module Base64 {

  type Byte = bv8

  const UPPER := "ABCDEFGHIJKLMNOPQRSTUVWXYZ"
  const LOWER := "abcdefghijklmnopqrstuvwxyz"
  const OTHERS := "0123456789+/"
  const ALPHABET := UPPER + LOWER + OTHERS

  // The four 6-bit values of three bytes, with the masks of the encoder.
  function Sextet0(a: Byte): (v: Byte)
    ensures v < 64
  {
    (a & 0xfc) >> 2
  }

  function Sextet1(a: Byte, b: Byte): (v: Byte)
    ensures v < 64
  {
    ((a & 0x03) << 4) + ((b & 0xf0) >> 4)
  }

  function Sextet2(b: Byte, c: Byte): (v: Byte)
    ensures v < 64
  {
    ((b & 0x0f) << 2) + ((c & 0xc0) >> 6)
  }

  function Sextet3(c: Byte): (v: Byte)
    ensures v < 64
  {
    c & 0x3f
  }

  function CharOf(v: Byte): char
    requires v < 64
  {
    assert v as int < 64;
    ALPHABET[v as int]
  }

  // The position of a character in the alphabet is given by its class.
  function Rank(c: char): int {
    if 'A' <= c <= 'Z' then c as int - 65
    else if 'a' <= c <= 'z' then c as int - 71
    else if '0' <= c <= '9' then c as int + 4
    else if c == '+' then 62
    else if c == '/' then 63
    else -1
  }

  lemma AlphabetIsRanked(i: int)
    requires 0 <= i < 64
    ensures Rank(ALPHABET[i]) == i && ALPHABET[i] != '='
  {
    if i < 26 {
      UpperAt(i);
    } else if i < 52 {
      LowerAt(i - 26);
    } else {
      assert ALPHABET[i] == OTHERS[i - 52];
    }
  }

  lemma UpperAt(i: int)
    requires 0 <= i < 26
    ensures UPPER[i] as int == 65 + i
  {
  }

  lemma LowerAt(i: int)
    requires 0 <= i < 26
    ensures LOWER[i] as int == 97 + i
  {
  }

  lemma CharOfIsInjective(u: Byte, v: Byte)
    requires u < 64 && v < 64 && CharOf(u) == CharOf(v)
    ensures u == v
  {
    AlphabetIsRanked(u as int);
    AlphabetIsRanked(v as int);
  }

  function Sextets(a: Byte, b: Byte, c: Byte): (r: seq<Byte>)
    ensures |r| == 4 && forall k :: 0 <= k < 4 ==> r[k] < 64
  {
    [Sextet0(a), Sextet1(a, b), Sextet2(b, c), Sextet3(c)]
  }

  // The 6-bit values of three bytes, in the alphabet.
  function Quad(a: Byte, b: Byte, c: Byte): (s: string)
    ensures |s| == 4 && forall k :: 0 <= k < 4 ==> s[k] == CharOf(Sextets(a, b, c)[k])
  {
    seq(4, k requires 0 <= k < 4 => CharOf(Sextets(a, b, c)[k]))
  }

  /** Base64 of a byte string, three bytes at a time, padded at the end. */
  function EncodeText(s: seq<Byte>): (r: string)
    ensures |r| == 4 * ((|s| + 2) / 3)
  {
    if s == [] then ""
    else if |s| == 1 then Quad(s[0], 0, 0)[..2] + "=="
    else if |s| == 2 then Quad(s[0], s[1], 0)[..3] + "="
    else Quad(s[0], s[1], s[2]) + EncodeText(s[3..])
  }

  lemma {:induction false} EncodeSplits(s: seq<Byte>, t: seq<Byte>)
    requires |s| % 3 == 0
    ensures EncodeText(s + t) == EncodeText(s) + EncodeText(t)
    decreases |s|
  {
    hide Quad;
    if s == [] {
      assert s + t == t;
    } else {
      assert (s + t)[3..] == s[3..] + t;
      EncodeSplits(s[3..], t);
    }
  }

  // The sextets of a group, as the encoder's masks compute them.
  method FillQuad(a: array<Byte>, quad: array<Byte>)
    requires a.Length == 3 && quad.Length == 4 && a != quad
    modifies quad
    ensures quad[..] == Sextets(a[0], a[1], a[2])
  {
    quad[0] := (a[0] & 0xfc) >> 2;
    quad[1] := ((a[0] & 0x03) << 4) + ((a[1] & 0xf0) >> 4);
    quad[2] := ((a[1] & 0x0f) << 2) + ((a[2] & 0xc0) >> 6);
    quad[3] := a[2] & 0x3f;
  }

  /** The first n characters of the buffer's quad, appended. */
  method AppendQuad(a: array<Byte>, n: nat, ret: string) returns (r: string)
    requires a.Length == 3 && n <= 4
    ensures r == ret + Quad(a[0], a[1], a[2])[..n]
  {
    hide CharOf, Quad, Sextets;
    ghost var chars := Quad(a[0], a[1], a[2]);
    var quad := new Byte[4];
    FillQuad(a, quad);
    r := ret;
    for j := 0 to n
      invariant r == ret + chars[..j]
      invariant quad[..] == Sextets(a[0], a[1], a[2])
    {
      assert quad[j] == quad[..][j];
      r := r + [CharOf(quad[j])];
      PrefixGrows(ret, chars, j);
    }
  }

  lemma PrefixGrows(head: string, s: string, j: nat)
    requires j < |s|
    ensures head + s[..j] + [s[j]] == head + s[..j + 1]
  {
  }

  lemma EncodeGroup(bytes: seq<Byte>, p: nat)
    requires 2 <= p < |bytes| && p % 3 == 2
    ensures EncodeText(bytes[..p + 1])
         == EncodeText(bytes[..p - 2]) + Quad(bytes[p - 2], bytes[p - 1], bytes[p])[..4]
  {
    var before, group := bytes[..p - 2], bytes[p - 2..p + 1];
    assert EncodeText(group) == Quad(group[0], group[1], group[2])[..4] by {
      hide Quad;
      assert group[3..] == [];
    }
    hide Quad, EncodeText;
    assert bytes[..p + 1] == before + group;
    EncodeSplits(before, group);
  }

  lemma SplitsAt<T>(s: seq<T>, n: nat)
    requires n <= |s|
    ensures s == s[..n] + s[n..]
  {
  }

  lemma EncodeTail(bytes: seq<Byte>, n: nat)
    requires n <= |bytes| && n % 3 == 0
    ensures EncodeText(bytes) == EncodeText(bytes[..n]) + EncodeText(bytes[n..])
  {
    hide EncodeText;
    SplitsAt(bytes, n);
    EncodeSplits(bytes[..n], bytes[n..]);
  }

  /** The encoder: bytes are gathered three at a time in a buffer. */
  method EncodeBase64(bytes: seq<Byte>) returns (ret: string)
    ensures ret == EncodeText(bytes)
  {
    hide Quad, EncodeText, Sextets, CharOf;
    ret := "";
    var i := 0;
    var buffer := new Byte[3];
    EncodeNothing();
    for p := 0 to |bytes|
      invariant i == p % 3
      invariant forall k :: 0 <= k < i ==> buffer[k] == bytes[p - i + k]
      invariant ret == EncodeText(bytes[..p - i])
    {
      buffer[i] := bytes[p];
      i := i + 1;
      if i == 3 {
        EncodeGroup(bytes, p);
        assert buffer[0] == bytes[p - 2] && buffer[1] == bytes[p - 1] && buffer[2] == bytes[p];
        ret := AppendQuad(buffer, 4, ret);
        i := 0;
      }
    }
    EncodeTail(bytes, |bytes| - i);
    EncodeNothing();
    if i != 0 {
      ret := AppendTail(buffer, i, bytes[|bytes| - i..], ret);
    }
  }

  lemma EncodeNothing()
    ensures EncodeText([]) == ""
  {
  }

  /** The last one or two bytes, padded. */
  method AppendTail(buffer: array<Byte>, i: nat, ghost tail: seq<Byte>, ret: string) returns (r: string)
    requires buffer.Length == 3 && 1 <= i == |tail| <= 2
    requires forall k :: 0 <= k < i ==> buffer[k] == tail[k]
    modifies buffer
    ensures r == ret + EncodeText(tail)
  {
    hide Quad;
    for j := i to 3
      invariant forall k :: 0 <= k < i ==> buffer[k] == tail[k]
      invariant forall k :: i <= k < j ==> buffer[k] == 0
    {
      buffer[j] := 0;
    }
    r := AppendQuad(buffer, i + 1, ret);
    var n := i;
    ghost var pads := "";
    while n < 3
      invariant i <= n <= 3 && |pads| == n - i && forall k :: 0 <= k < |pads| ==> pads[k] == '='
      invariant r == ret + Quad(buffer[0], buffer[1], buffer[2])[..i + 1] + pads
    {
      r, pads := r + "=", pads + "=";
      n := n + 1;
    }
    assert pads == if i == 1 then "==" else "=";
  }

  // ---- Section 4 of RFC 4648 ---------------------------------------------

  // Three bytes as a 24-bit group, most significant first.
  function GroupOf(a: Byte, b: Byte, c: Byte): bv24 {
    (a as bv24 << 16) | (b as bv24 << 8) | (c as bv24)
  }

  // The k-th group of six bits, from the most significant.
  function SixBits(g: bv24, k: nat): bv24
    requires k < 4
  {
    (g >> (18 - 6 * k)) & 0x3f
  }

  /** The masks of the encoder cut the 24-bit group into its four groups of six
      bits, as section 4 of RFC 4648 asks. */
  lemma SextetsAreSixBitGroups(a: Byte, b: Byte, c: Byte)
    ensures var g := GroupOf(a, b, c);
            && Sextet0(a) as bv24 == SixBits(g, 0) && Sextet1(a, b) as bv24 == SixBits(g, 1)
            && Sextet2(b, c) as bv24 == SixBits(g, 2) && Sextet3(c) as bv24 == SixBits(g, 3)
  {
  }

  // The 6-bit value of an alphabet character at most v.
  function ValueUpTo(c: char, v: Byte): Byte
    requires v < 64
    decreases v as int
  {
    if v == 0 || CharOf(v) == c then v else ValueUpTo(c, v - 1)
  }

  function ValueOf(c: char): Byte {
    ValueUpTo(c, 63)
  }

  // The bytes that four 6-bit values join to.
  function Byte0(v: Byte, w: Byte): Byte {
    (v << 2) | (w >> 4)
  }

  function Byte1(w: Byte, x: Byte): Byte {
    ((w & 0x0f) << 4) | (x >> 2)
  }

  function Byte2(x: Byte, y: Byte): Byte {
    ((x & 0x03) << 6) | y
  }

  /** A decoder, by the same section: four characters to three bytes, fewer where
      the last of them are padding. */
  function Decode(s: string): seq<Byte> {
    if |s| < 4 then []
    else
      var v, w, x, y := ValueOf(s[0]), ValueOf(s[1]), ValueOf(s[2]), ValueOf(s[3]);
      if s[2] == '=' then [Byte0(v, w)]
      else if s[3] == '=' then [Byte0(v, w), Byte1(w, x)]
      else [Byte0(v, w), Byte1(w, x), Byte2(x, y)] + Decode(s[4..])
  }

  lemma {:induction false} ValueUpToFinds(v: Byte, top: Byte)
    requires v <= top < 64
    ensures ValueUpTo(CharOf(v), top) == v
    decreases top as int
  {
    if CharOf(top) == CharOf(v) {
      CharOfIsInjective(top, v);
    } else if top != 0 {
      ValueUpToFinds(v, top - 1);
    }
  }

  lemma ValueInvertsChar(v: Byte)
    requires v < 64
    ensures ValueOf(CharOf(v)) == v && CharOf(v) != '='
  {
    ValueUpToFinds(v, 63);
    AlphabetIsRanked(v as int);
  }

  lemma BitsJoin(a: Byte, b: Byte, c: Byte)
    ensures Byte0(Sextet0(a), Sextet1(a, b)) == a
    ensures Byte1(Sextet1(a, b), Sextet2(b, c)) == b
    ensures Byte2(Sextet2(b, c), Sextet3(c)) == c
  {
  }

  lemma QuadDecodes(a: Byte, b: Byte, c: Byte)
    ensures var q := Quad(a, b, c);
            && q[2] != '=' && q[3] != '='
            && Byte0(ValueOf(q[0]), ValueOf(q[1])) == a
            && Byte1(ValueOf(q[1]), ValueOf(q[2])) == b
            && Byte2(ValueOf(q[2]), ValueOf(q[3])) == c
  {
    hide ValueOf, CharOf, Byte0, Byte1, Byte2;
    ValueInvertsChar(Sextet0(a));
    ValueInvertsChar(Sextet1(a, b));
    ValueInvertsChar(Sextet2(b, c));
    ValueInvertsChar(Sextet3(c));
    BitsJoin(a, b, c);
  }

  /** Every byte string is recovered from its Base64. */
  lemma {:induction false} DecodeInvertsEncode(s: seq<Byte>)
    ensures Decode(EncodeText(s)) == s
    decreases |s|
  {
    hide ValueOf, Quad, Byte0, Byte1, Byte2;
    if |s| >= 3 {
      QuadDecodes(s[0], s[1], s[2]);
      DecodeInvertsEncode(s[3..]);
      var q, rest := Quad(s[0], s[1], s[2]), EncodeText(s[3..]);
      assert EncodeText(s) == q + rest && (q + rest)[4..] == rest;
      assert [s[0], s[1], s[2]] + s[3..] == s;
    } else if s != [] {
      QuadDecodes(s[0], if |s| == 2 then s[1] else 0, 0);
    }
  }

  // ---- Basic credentials -------------------------------------------------

  const COLON: Byte := 58

  // User name, colon, token.
  function Credentials(username: seq<Byte>, token: seq<Byte>): seq<Byte> {
    username + [COLON] + token
  }

  method PrepareAuthorization(username: seq<Byte>, token: seq<Byte>) returns (header: string)
    ensures header == "Basic " + EncodeText(Credentials(username, token))
  {
    var encoded := EncodeBase64(username + [COLON] + token);
    header := "Basic " + encoded;
  }

  // What a server reads: user and password, divided at the first colon.
  function FirstColon(s: seq<Byte>): (k: nat)
    ensures k <= |s| && COLON !in s[..k] && (k < |s| ==> s[k] == COLON)
  {
    if s == [] || s[0] == COLON then 0
    else
      var k := FirstColon(s[1..]);
      assert s[..k + 1] == [s[0]] + s[1..][..k];
      k + 1
  }

  function ReadCredentials(header: string): (seq<Byte>, seq<Byte>)
    requires |header| >= 6
  {
    var s := Decode(header[6..]);
    var k := FirstColon(s);
    if k < |s| then (s[..k], s[k + 1..]) else (s, [])
  }

  /** The header gives back user name and token exactly when the user name has no
      colon (section 2 of RFC 7617). */
  lemma CredentialsReadBackIff(username: seq<Byte>, token: seq<Byte>)
    ensures ReadCredentials("Basic " + EncodeText(Credentials(username, token))) == (username, token)
        <==> ':' as int as Byte !in username
  {
    assert COLON == ':' as int as Byte;
    var s := Credentials(username, token);
    var header := "Basic " + EncodeText(s);
    assert header[6..] == EncodeText(s);
    DecodeInvertsEncode(s);
    hide Decode, EncodeText;
    var k := FirstColon(s);
    assert s[..|username|] == username && s[|username|] == COLON && s[|username| + 1..] == token;
    if COLON !in username {
      assert k == |username| by {
        assert forall i :: 0 <= i < k ==> s[..k][i] != COLON;
        assert forall i :: 0 <= i < |username| ==> s[i] == username[i];
      }
    }
  }
}
