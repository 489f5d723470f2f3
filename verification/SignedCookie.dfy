/** Signed cookie values: base64url without padding (section 5 of RFC 4648) on both sides of a
    dot, the MAC taken over the signer's domain, a zero byte and the payload. The MAC itself is
    any function of a key and a message. */
module SignedCookie {
  import opened Prelude

  type Byte = b: int | 0 <= b < 256
  type Bytes = seq<Byte>
  type Mac = (Bytes, Bytes) -> Bytes

  // ---------------------------------------------------------------- base64url

  type Sextet = v: int | 0 <= v < 64

  function Digit(v: Sextet): char {
    if v < 26 then 'A' + v as char
    else if v < 52 then 'a' + (v - 26) as char
    else if v < 62 then '0' + (v - 52) as char
    else if v == 62 then '-' else '_'
  }

  function Undigit(c: char): Option<Sextet> {
    if 'A' <= c <= 'Z' then Some((c - 'A') as int)
    else if 'a' <= c <= 'z' then Some((c - 'a') as int + 26)
    else if '0' <= c <= '9' then Some((c - '0') as int + 52)
    else if c == '-' then Some(62)
    else if c == '_' then Some(63)
    else None
  }

  function Encode(b: Bytes): string {
    if |b| == 0 then ""
    else if |b| == 1 then [Digit(b[0] / 4), Digit(b[0] % 4 * 16)]
    else if |b| == 2 then [Digit(b[0] / 4), Digit(b[0] % 4 * 16 + b[1] / 16), Digit(b[1] % 16 * 4)]
    else [Digit(b[0] / 4), Digit(b[0] % 4 * 16 + b[1] / 16), Digit(b[1] % 16 * 4 + b[2] / 64), Digit(b[2] % 64)]
         + Encode(b[3..])
  }

  /** The decoder ignores line breaks anywhere in its input. */
  function Unbroken(s: string): string {
    if s == "" then "" else (if s[0] == '\r' || s[0] == '\n' then "" else [s[0]]) + Unbroken(s[1..])
  }

  /** A last group of two or three characters carries one or two bytes; its spare bits are not
      looked at. */
  function DecodeGroups(s: string): Option<Bytes> {
    if s == "" then Some([])
    else if |s| == 1 then None
    else
      match (Undigit(s[0]), Undigit(s[1]))
      case (Some(a), Some(b)) =>
        var x: Byte := a * 4 + b / 16;
        if |s| == 2 then Some([x])
        else (
          match Undigit(s[2])
          case None => None
          case Some(c) =>
            var y: Byte := b % 16 * 16 + c / 4;
            if |s| == 3 then Some([x, y])
            else
              match (Undigit(s[3]), DecodeGroups(s[4..]))
              case (Some(d), Some(rest)) =>
                var z: Byte := c % 4 * 64 + d;
                Some([x, y, z] + rest)
              case _ => None)
      case _ => None
  }

  function Decode(s: string): Option<Bytes> {
    DecodeGroups(Unbroken(s))
  }

  lemma DigitRoundTrip(v: Sextet)
    ensures Undigit(Digit(v)) == Some(v)
    ensures Digit(v) != '.' && Digit(v) != '\r' && Digit(v) != '\n'
  {
    if v < 26 {
      assert 'A' <= Digit(v) <= 'Z';
    } else if v < 52 {
      assert 'a' <= Digit(v) <= 'z';
    } else if v < 62 {
      assert '0' <= Digit(v) <= '9';
    }
  }

  /** Undigit is exactly the inverse: what no sextet is written as, it refuses. */
  lemma UndigitInverts(c: char, v: Sextet)
    ensures Undigit(c) == Some(v) <==> Digit(v) == c
  {
    DigitRoundTrip(v);
  }

  predicate IsDigit(c: char) {
    exists v: Sextet :: Digit(v) == c
  }

  lemma UndigitExactly(c: char)
    ensures Undigit(c).Some? <==> IsDigit(c)
  {
    if Undigit(c).Some? {
      UndigitInverts(c, Undigit(c).value);
    } else {
      forall v: Sextet ensures Digit(v) != c {
        UndigitInverts(c, v);
      }
    }
  }

  predicate AllDigits(s: string) {
    forall i :: 0 <= i < |s| ==> IsDigit(s[i])
  }

  predicate AllKnown(s: string) {
    forall i :: 0 <= i < |s| ==> Undigit(s[i]).Some?
  }

  lemma KnownAreDigits(s: string)
    ensures AllKnown(s) <==> AllDigits(s)
  {
    forall i | 0 <= i < |s| ensures Undigit(s[i]).Some? <==> IsDigit(s[i]) {
      UndigitExactly(s[i]);
    }
  }

  lemma KnownByGroups(s: string)
    requires |s| >= 4
    ensures AllKnown(s) <==> AllKnown(s[..4]) && AllKnown(s[4..])
  {
    assert s == s[..4] + s[4..];
  }

  /** What a text of so many characters, all of them known or not, should come to. */
  predicate Decodable(size: nat, known: bool) {
    size % 4 != 1 && known
  }

  lemma ShortGroup(s: string)
    requires |s| < 4
    ensures DecodeGroups(s).Some? <==> Decodable(|s|, AllKnown(s))
  {
  }

  lemma FirstGroup(s: string)
    requires |s| >= 4
    ensures AllKnown(s[..4]) <==>
      Undigit(s[0]).Some? && Undigit(s[1]).Some? && Undigit(s[2]).Some? && Undigit(s[3]).Some?
  {
  }

  lemma WholeGroup(s: string)
    requires |s| >= 4
    ensures DecodeGroups(s).Some? <==> AllKnown(s[..4]) && DecodeGroups(s[4..]).Some?
  {
    FirstGroup(s);
  }

  lemma FourMore(size: nat, known: bool, first: bool)
    ensures Decodable(size + 4, first && known) <==> first && Decodable(size, known)
  {
  }

  lemma {:induction false} GroupsDecodeExactly(s: string)
    ensures DecodeGroups(s).Some? <==> Decodable(|s|, AllKnown(s))
    decreases |s|
  {
    if |s| < 4 {
      ShortGroup(s);
    } else {
      var rest := s[4..];
      GroupsDecodeExactly(rest);
      WholeGroup(s);
      KnownByGroups(s);
      FourMore(|rest|, AllKnown(rest), AllKnown(s[..4]));
    }
  }

  /** Line breaks aside, a text decodes exactly if it has just the characters encoding writes, and is not
      one more than whole groups long. */
  lemma DecodesExactly(s: string)
    ensures Decode(s).Some? <==> |Unbroken(s)| % 4 != 1 && AllDigits(Unbroken(s))
  {
    GroupsDecodeExactly(Unbroken(s));
    KnownAreDigits(Unbroken(s));
  }

  /** Cutting bytes into sextets and putting them together again. */
  lemma Repack(x: Byte, y: Byte, z: Byte)
    ensures var a, b, c, d := x / 4, x % 4 * 16 + y / 16, y % 16 * 4 + z / 64, z % 64;
            && 0 <= a < 64 && 0 <= b < 64 && 0 <= c < 64 && 0 <= d < 64
            && a * 4 + b / 16 == x && b % 16 * 16 + c / 4 == y && c % 4 * 64 + d == z
  {
  }

  lemma RepackPartial(x: Byte, y: Byte)
    ensures x / 4 * 4 + (x % 4 * 16) / 16 == x
    ensures var b, c := x % 4 * 16 + y / 16, y % 16 * 4;
            x / 4 * 4 + b / 16 == x && b % 16 * 16 + c / 4 == y
  {
  }

  predicate Plain(s: string) {
    forall i :: 0 <= i < |s| ==> s[i] != '.' && s[i] != '\r' && s[i] != '\n'
  }

  lemma {:induction false} PlainIsUnbroken(s: string)
    requires Plain(s)
    ensures Unbroken(s) == s
  {
    if s != "" {
      PlainIsUnbroken(s[1..]);
    }
  }

  lemma {:induction false} GroupsRoundTrip(b: Bytes)
    ensures DecodeGroups(Encode(b)) == Some(b) && Plain(Encode(b))
  {
    if |b| == 1 {
      SingleRoundTrip(b[0]);
      assert b == [b[0]];
    } else if |b| == 2 {
      PairRoundTrip(b[0], b[1]);
      assert b == [b[0], b[1]];
    } else if |b| > 2 {
      GroupsRoundTrip(b[3..]);
      TripleRoundTrip(b[0], b[1], b[2], Encode(b[3..]), b[3..]);
      assert [b[0], b[1], b[2]] + b[3..] == b;
    }
  }

  lemma SingleRoundTrip(x: Byte)
    ensures var s := [Digit(x / 4), Digit(x % 4 * 16)]; DecodeGroups(s) == Some([x]) && Plain(s)
  {
    RepackPartial(x, 0);
    DigitRoundTrip(x / 4);
    DigitRoundTrip(x % 4 * 16);
  }

  lemma PairRoundTrip(x: Byte, y: Byte)
    ensures var s := [Digit(x / 4), Digit(x % 4 * 16 + y / 16), Digit(y % 16 * 4)];
            DecodeGroups(s) == Some([x, y]) && Plain(s)
  {
    RepackPartial(x, y);
    DigitRoundTrip(x / 4);
    DigitRoundTrip(x % 4 * 16 + y / 16);
    DigitRoundTrip(y % 16 * 4);
  }

  /** Four characters of a full group, and what follows them. */
  lemma FullGroup(a: Sextet, b: Sextet, c: Sextet, d: Sextet, tail: string, rest: Bytes)
    requires DecodeGroups(tail) == Some(rest)
    ensures DecodeGroups([Digit(a), Digit(b), Digit(c), Digit(d)] + tail) ==
      Some([a * 4 + b / 16, b % 16 * 16 + c / 4, c % 4 * 64 + d] + rest)
  {
    DigitRoundTrip(a);
    DigitRoundTrip(b);
    DigitRoundTrip(c);
    DigitRoundTrip(d);
    assert ([Digit(a), Digit(b), Digit(c), Digit(d)] + tail)[4..] == tail;
  }

  lemma TripleRoundTrip(x: Byte, y: Byte, z: Byte, tail: string, rest: Bytes)
    requires DecodeGroups(tail) == Some(rest) && Plain(tail)
    ensures var s := [Digit(x / 4), Digit(x % 4 * 16 + y / 16), Digit(y % 16 * 4 + z / 64), Digit(z % 64)] + tail;
            DecodeGroups(s) == Some([x, y, z] + rest) && Plain(s)
  {
    var a, b, c, d := x / 4, x % 4 * 16 + y / 16, y % 16 * 4 + z / 64, z % 64;
    Repack(x, y, z);
    FullGroup(a, b, c, d, tail, rest);
    DigitRoundTrip(a);
    DigitRoundTrip(b);
    DigitRoundTrip(c);
    DigitRoundTrip(d);
  }

  lemma Base64RoundTrip(b: Bytes)
    ensures Decode(Encode(b)) == Some(b) && Plain(Encode(b))
  {
    GroupsRoundTrip(b);
    PlainIsUnbroken(Encode(b));
  }

  // ---------------------------------------------------------------- signing

  datatype Signer = Signer(key: Bytes, domain: Bytes)

  function Message(domain: Bytes, payload: Bytes): Bytes {
    domain + [0] + payload
  }

  function Sign(s: Signer, payload: Bytes, mac: Mac): string {
    Encode(payload) + "." + Encode(mac(s.key, Message(s.domain, payload)))
  }

  /** Position of the first dot, or |s|. */
  function FirstDot(s: string): (n: nat)
    ensures n <= |s| && (n < |s| ==> s[n] == '.')
    ensures forall i :: 0 <= i < n ==> s[i] != '.'
  {
    if s == "" || s[0] == '.' then 0 else 1 + FirstDot(s[1..])
  }

  function Verify(s: Signer, value: string, mac: Mac): Option<Bytes> {
    var cut := FirstDot(value);
    if cut == |value| then None
    else
      match (Decode(value[..cut]), Decode(value[cut + 1..]))
      case (Some(payload), Some(presented)) =>
        if presented == mac(s.key, Message(s.domain, payload)) then Some(payload) else None
      case _ => None
  }

  lemma CutSigned(payload: string, sum: string)
    requires Plain(payload)
    ensures FirstDot(payload + "." + sum) == |payload|
  {
    var value := payload + "." + sum;
    var cut := FirstDot(value);
    assert value[|payload|] == '.';
    assert forall i :: 0 <= i < |payload| ==> value[i] == payload[i];
  }

  /** What was signed verifies, under the same key and domain, to the very payload. Under any
      other signer it verifies exactly when the two MACs agree. */
  lemma SignedVerifies(s: Signer, other: Signer, payload: Bytes, mac: Mac)
    ensures Verify(s, Sign(s, payload, mac), mac) == Some(payload)
    ensures Verify(other, Sign(s, payload, mac), mac) ==
            if mac(s.key, Message(s.domain, payload)) == mac(other.key, Message(other.domain, payload))
            then Some(payload) else None
  {
    var sum := mac(s.key, Message(s.domain, payload));
    Base64RoundTrip(payload);
    Base64RoundTrip(sum);
    CutSigned(Encode(payload), Encode(sum));
    var value := Sign(s, payload, mac);
    assert value[..|Encode(payload)|] == Encode(payload);
    assert value[|Encode(payload)| + 1..] == Encode(sum);
  }

  predicate ZeroFree(b: Bytes) {
    forall i :: 0 <= i < |b| ==> b[i] != 0
  }

  lemma FirstZero(d: Bytes, p: Bytes)
    requires ZeroFree(d)
    ensures Message(d, p)[|d|] == 0 && forall i :: 0 <= i < |d| ==> Message(d, p)[i] != 0
  {
  }

  /** The zero byte keeps the kinds of cookie apart: messages of different domains or payloads
      are different messages. */
  lemma DomainsSeparate(d1: Bytes, p1: Bytes, d2: Bytes, p2: Bytes)
    requires ZeroFree(d1) && ZeroFree(d2) && Message(d1, p1) == Message(d2, p2)
    ensures d1 == d2 && p1 == p2
  {
    FirstZero(d1, p1);
    FirstZero(d2, p2);
    var m := Message(d1, p1);
    assert m[..|d1|] == d1 && m[..|d2|] == d2;
    assert m[|d1| + 1..] == p1 && m[|d2| + 1..] == p2;
  }

  /** So a cookie accepted by any other signer, of another domain or another key, is a collision:
      two different inputs of the MAC with one result. */
  lemma NoCrossUse(s: Signer, other: Signer, payload: Bytes, mac: Mac)
    requires ZeroFree(s.domain) && ZeroFree(other.domain) && s != other
    requires Verify(other, Sign(s, payload, mac), mac).Some?
    ensures (s.key, Message(s.domain, payload)) != (other.key, Message(other.domain, payload))
    ensures mac(s.key, Message(s.domain, payload)) == mac(other.key, Message(other.domain, payload))
  {
    SignedVerifies(s, other, payload, mac);
    if Message(s.domain, payload) == Message(other.domain, payload) {
      DomainsSeparate(s.domain, payload, other.domain, payload);
    }
  }

  // ---------------------------------------------------------------- session cookies

  datatype Claims = Claims(id: string, subject: string, email: string, name: string, groups: seq<string>, expiry: int)

  /** A payload format: enc writes claims, dec reads them back. */
  datatype Format = Format(enc: Claims -> Bytes, dec: Bytes -> Option<Claims>)

  ghost predicate Faithful(f: Format) {
    forall c :: f.dec(f.enc(c)) == Some(c)
  }

  function EncodeSession(s: Signer, c: Claims, f: Format, mac: Mac): string {
    Sign(s, f.enc(c), mac)
  }

  /** nowUnix is the present in whole Unix seconds. */
  function DecodeSession(s: Signer, value: string, nowUnix: int, f: Format, mac: Mac): Option<Claims> {
    match Verify(s, value, mac)
    case None => None
    case Some(payload) =>
      match f.dec(payload)
      case None => None
      case Some(c) => if c.id == "" || c.subject == "" || nowUnix >= c.expiry then None else Some(c)
  }

  /** A session cookie reads back as the claims it was signed for, exactly until its deadline,
      and never if it carries no id or no subject. */
  lemma SessionRoundTrip(s: Signer, c: Claims, nowUnix: int, f: Format, mac: Mac)
    requires Faithful(f)
    ensures DecodeSession(s, EncodeSession(s, c, f, mac), nowUnix, f, mac) ==
            if c.id != "" && c.subject != "" && nowUnix < c.expiry then Some(c) else None
  {
    SignedVerifies(s, s, f.enc(c), mac);
  }
}
