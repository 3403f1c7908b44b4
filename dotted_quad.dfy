/**
 * The text form of a client's IPv4 address in the HTTP worker: the four bytes
 * of the host-order address, most significant first, each printed with `%hhu`
 * and joined by dots. The reader below is its partner: it accepts the dotted
 * quads the formatter prints and gives the address back.
 */
module DottedQuad {
  import opened Common
  import opened Bytes

  const DOT: uint8 := 0x2E

  /** `(unsigned char)(ip >> shift)`: the byte of `ip` at bit offset `shift`. */
  function Octet(ip: uint32, shift: nat): (b: nat)
    requires shift in {0, 8, 16, 24}
    ensures b < 0x100
  {
    var x := ip as int;
    var q := if shift == 0 then x
      else if shift == 8 then x / 0x100
      else if shift == 16 then x / 0x100 / 0x100
      else x / 0x100 / 0x100 / 0x100;
    q % 0x100
  }

  /** `ksnprintf(ipbuf, .., "%hhu.%hhu.%hhu.%hhu", ip >> 24, ip >> 16, ip >> 8, ip)`. */
  function FormatIp(ip: uint32): (r: seq<uint8>)
    ensures 7 <= |r| <= 15
  {
    DecimalOfByteLength(Octet(ip, 24));
    DecimalOfByteLength(Octet(ip, 16));
    DecimalOfByteLength(Octet(ip, 8));
    DecimalOfByteLength(Octet(ip, 0));
    Dotted(Decimal(Octet(ip, 24)), Decimal(Octet(ip, 16)), Decimal(Octet(ip, 8)), Decimal(Octet(ip, 0)))
  }

  /** Four fields joined by dots. */
  function Dotted(a: seq<uint8>, b: seq<uint8>, c: seq<uint8>, d: seq<uint8>): seq<uint8> {
    a + ([DOT] + (b + ([DOT] + (c + ([DOT] + d)))))
  }

  /** The longest run of digits at the front of `s`, and what follows it. */
  function TakeDigits(s: seq<uint8>): (r: (seq<uint8>, seq<uint8>))
    ensures AllDigits(r.0) && r.0 + r.1 == s
    ensures r.1 != [] ==> !IsDigit(r.1[0])
  {
    if s == [] || !IsDigit(s[0]) then ([], s)
    else
      var (d, rest) := TakeDigits(s[1..]);
      ([s[0]] + d, rest)
  }

  /** One field of a dotted quad: one to three digits worth less than 256. */
  function ReadOctet(s: seq<uint8>): (r: Option<(nat, seq<uint8>)>)
    ensures r.Some? ==> r.value.0 < 0x100 && |r.value.1| < |s|
  {
    var (d, rest) := TakeDigits(s);
    if 1 <= |d| <= 3 && DecimalValue(d) < 0x100 then Some((DecimalValue(d), rest)) else None
  }

  /** A field followed by a dot. */
  function ReadOctetDot(s: seq<uint8>): (r: Option<(nat, seq<uint8>)>)
    ensures r.Some? ==> r.value.0 < 0x100
  {
    match ReadOctet(s)
    case Some((v, rest)) =>
      if rest != [] && rest[0] == DOT then Some((v, rest[1..])) else None
    case None => None
  }

  /** Reads `a.b.c.d` with nothing after it. */
  function ParseIp(s: seq<uint8>): Option<uint32> {
    match ReadOctetDot(s)
    case None => None
    case Some((a, s1)) =>
      match ReadOctetDot(s1)
      case None => None
      case Some((b, s2)) =>
        match ReadOctetDot(s2)
        case None => None
        case Some((c, s3)) =>
          match ReadOctet(s3)
          case None => None
          case Some((d, s4)) =>
            if s4 != [] then None
            else Some(Combine(a, b, c, d))
  }

  /** The address whose bytes, most significant first, are `a`, `b`, `c`, `d`. */
  function Combine(a: nat, b: nat, c: nat, d: nat): uint32
    requires a < 0x100 && b < 0x100 && c < 0x100 && d < 0x100
  {
    var ab := a * 0x100 + b;
    assert ab < 0x1_0000;
    var abc := ab * 0x100 + c;
    assert abc < 0x100_0000;
    (abc * 0x100 + d) as uint32
  }

  /** The digits of a number stop at the first byte that is not a digit. */
  lemma {:induction false} TakeDigitsOfDecimal(n: nat, rest: seq<uint8>)
    requires rest == [] || !IsDigit(rest[0])
    ensures TakeDigits(Decimal(n) + rest) == (Decimal(n), rest)
  {
    TakeDigitsOfDigits(Decimal(n), rest);
  }

  lemma {:induction false} TakeDigitsOfDigits(d: seq<uint8>, rest: seq<uint8>)
    requires AllDigits(d) && (rest == [] || !IsDigit(rest[0]))
    ensures TakeDigits(d + rest) == (d, rest)
    decreases |d|
  {
    var s := d + rest;
    if d == [] {
      assert s == rest;
    } else {
      assert s[0] == d[0] && IsDigit(d[0]);
      assert s[1..] == d[1..] + rest;
      TakeDigitsOfDigits(d[1..], rest);
      assert TakeDigits(s) == ([s[0]] + d[1..], rest);
      assert [d[0]] + d[1..] == d;
    }
  }

  /** A printed byte reads back as itself. */
  lemma ReadOctetOfDecimal(n: nat, rest: seq<uint8>)
    requires n < 0x100 && (rest == [] || !IsDigit(rest[0]))
    ensures ReadOctet(Decimal(n) + rest) == Some((n, rest))
  {
    TakeDigitsOfDecimal(n, rest);
    DecimalOfByteLength(n);
  }

  /** The four printed bytes put together give the address back. */
  lemma OctetsRecombine(ip: uint32)
    ensures Combine(Octet(ip, 24), Octet(ip, 16), Octet(ip, 8), Octet(ip, 0)) == ip
  {
    var x := ip as int;
    var q1 := x / 0x100;
    var q2 := q1 / 0x100;
    var q3 := q2 / 0x100;
    assert x == q1 * 0x100 + x % 0x100;
    assert q1 == q2 * 0x100 + q1 % 0x100;
    assert q2 == q3 * 0x100 + q2 % 0x100;
    assert q3 < 0x100;
  }

  /** A printed byte followed by a dot reads back as itself. */
  lemma ReadOctetDotOfDecimal(n: nat, rest: seq<uint8>)
    requires n < 0x100
    ensures ReadOctetDot(Decimal(n) + ([DOT] + rest)) == Some((n, rest))
  {
    ReadOctetOfDecimal(n, [DOT] + rest);
    assert ([DOT] + rest)[1..] == rest;
  }

  /** Four printed bytes joined by dots read back as those bytes. */
  lemma ParseDottedDecimals(a: nat, b: nat, c: nat, d: nat)
    requires a < 0x100 && b < 0x100 && c < 0x100 && d < 0x100
    ensures ParseIp(Dotted(Decimal(a), Decimal(b), Decimal(c), Decimal(d))) == Some(Combine(a, b, c, d))
  {
    var t2 := Decimal(c) + ([DOT] + Decimal(d));
    var t1 := Decimal(b) + ([DOT] + t2);
    ReadOctetDotOfDecimal(a, t1);
    ReadOctetDotOfDecimal(b, t2);
    ReadOctetDotOfDecimal(c, Decimal(d));
    assert Decimal(d) + [] == Decimal(d);
    ReadOctetOfDecimal(d, []);
    ParseIpFields(Decimal(a) + ([DOT] + t1), t1, t2, Decimal(d), a, b, c, d);
  }

  /** `ParseIp` reads three dotted fields and a final one, and nothing may follow. */
  lemma ParseIpFields(s: seq<uint8>, s1: seq<uint8>, s2: seq<uint8>, s3: seq<uint8>, a: nat, b: nat, c: nat, d: nat)
    requires ReadOctetDot(s) == Some((a, s1)) && ReadOctetDot(s1) == Some((b, s2))
    requires ReadOctetDot(s2) == Some((c, s3)) && ReadOctet(s3) == Some((d, []))
    ensures ParseIp(s) == Some(Combine(a, b, c, d))
  {
  }

  /** Round trip: reading what `FormatIp` printed yields the same address. */
  lemma ParseFormatIp(ip: uint32)
    ensures ParseIp(FormatIp(ip)) == Some(ip)
  {
    ParseDottedDecimals(Octet(ip, 24), Octet(ip, 16), Octet(ip, 8), Octet(ip, 0));
    OctetsRecombine(ip);
  }

  /** Different addresses are printed differently. */
  lemma FormatIpInjective(x: uint32, y: uint32)
    requires FormatIp(x) == FormatIp(y)
    ensures x == y
  {
    ParseFormatIp(x);
    ParseFormatIp(y);
  }
}
