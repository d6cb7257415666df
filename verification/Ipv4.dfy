/** The IPv4 filters: dotted quads, integers, and the networks of CIDR notation
    (section 3.1 of RFC 4632). */
module Ipv4 {
  import opened PyData
  import opened Bits

  const SIZE := 0x1_0000_0000

  // ----- decimal -----

  predicate IsDigit(c: char) {
    '0' <= c <= '9'
  }

  predicate IsDigits(s: string) {
    s != "" && forall c | c in s :: IsDigit(c)
  }

  function Digit(d: int): char
    requires 0 <= d < 10
  {
    (48 + d) as char
  }

  function DigitValue(c: char): nat {
    if IsDigit(c) then c as int - 48 else 0
  }

  function ParseNat(s: string): nat {
    if s == "" then 0 else ParseNat(s[..|s| - 1]) * 10 + DigitValue(s[|s| - 1])
  }

  function PrintSmall(n: int): string
    requires 0 <= n < 1000
  {
    if n < 10 then [Digit(n)]
    else if n < 100 then [Digit(n / 10), Digit(n % 10)]
    else [Digit(n / 100), Digit(n / 10 % 10), Digit(n % 10)]
  }

  lemma DigitIs(d: int)
    requires 0 <= d < 10
    ensures IsDigit(Digit(d)) && DigitValue(Digit(d)) == d && (Digit(d) == '0' <==> d == 0)
  {
  }

  lemma DigitBack(c: char)
    requires IsDigit(c)
    ensures 0 <= DigitValue(c) < 10 && Digit(DigitValue(c)) == c
  {
  }

  lemma ParseSnoc(s: string, c: char)
    ensures ParseNat(s + [c]) == ParseNat(s) * 10 + DigitValue(c)
  {
    assert (s + [c])[..|s|] == s;
  }

  lemma ParseChars(x: char, y: char, z: char)
    ensures ParseNat([x]) == DigitValue(x)
    ensures ParseNat([x, y]) == DigitValue(x) * 10 + DigitValue(y)
    ensures ParseNat([x, y, z]) == (DigitValue(x) * 10 + DigitValue(y)) * 10 + DigitValue(z)
  {
    ParseSnoc("", x);
    ParseSnoc([x], y);
    ParseSnoc([x, y], z);
    assert "" + [x] == [x] && [x] + [y] == [x, y] && [x, y] + [z] == [x, y, z];
  }

  lemma ParseThree(a: int, b: int, c: int)
    requires 0 <= a < 10 && 0 <= b < 10 && 0 <= c < 10
    ensures ParseNat([Digit(c)]) == c
    ensures ParseNat([Digit(b), Digit(c)]) == b * 10 + c
    ensures ParseNat([Digit(a), Digit(b), Digit(c)]) == a * 100 + b * 10 + c
  {
    DigitIs(a);
    DigitIs(b);
    DigitIs(c);
    var x, y, z := Digit(a), Digit(b), Digit(c);
    ParseChars(x, y, z);
    ParseChars(y, z, z);
    ParseChars(z, z, z);
  }

  lemma Decimal(n: int, a: int, b: int, c: int)
    requires 0 <= n < 1000 && a == n / 100 && b == n / 10 % 10 && c == n % 10
    ensures n == a * 100 + b * 10 + c && (n < 100 ==> n / 10 == b) && (100 <= n ==> a > 0)
  {
  }

  lemma PrintParses(n: int)
    requires 0 <= n < 1000
    ensures ParseNat(PrintSmall(n)) == n && |PrintSmall(n)| <= 3
    ensures IsDigits(PrintSmall(n)) && (n < 10 || PrintSmall(n)[0] != '0')
  {
    var a, b, c := n / 100, n / 10 % 10, n % 10;
    Decimal(n, a, b, c);
    ParseThree(a, b, c);
    DigitIs(a);
    DigitIs(b);
    DigitIs(c);
    assert PrintSmall(n) ==
           if n < 10 then [Digit(c)] else if n < 100 then [Digit(b), Digit(c)] else [Digit(a), Digit(b), Digit(c)];
  }

  lemma PrintHasNo(n: int, c: char)
    requires 0 <= n < 1000 && !IsDigit(c)
    ensures c !in PrintSmall(n)
  {
    PrintParses(n);
  }

  lemma PrintsOne(c: char)
    requires IsDigit(c)
    ensures IsPrinted([c], ParseNat([c])) && ParseNat([c]) < 10
  {
    DigitBack(c);
    ParseChars(c, c, c);
  }

  lemma PrintsTwo(b: char, c: char)
    requires IsDigit(b) && IsDigit(c) && b != '0'
    ensures IsPrinted([b, c], ParseNat([b, c]))
  {
    DigitBack(b);
    DigitBack(c);
    ParseChars(b, c, c);
  }

  lemma PrintsThree(a: char, b: char, c: char)
    requires IsDigit(a) && IsDigit(b) && IsDigit(c) && a != '0'
    ensures IsPrinted([a, b, c], ParseNat([a, b, c]))
  {
    DigitBack(a);
    DigitBack(b);
    DigitBack(c);
    ParseChars(a, b, c);
    DigitsOf(DigitValue(a), DigitValue(b), DigitValue(c), (DigitValue(a) * 10 + DigitValue(b)) * 10 + DigitValue(c));
  }

  lemma DigitsOf(x: int, y: int, z: int, n: int)
    requires 1 <= x < 10 && 0 <= y < 10 && 0 <= z < 10 && n == (x * 10 + y) * 10 + z
    ensures 100 <= n < 1000 && n / 100 == x && n / 10 % 10 == y && n % 10 == z
  {
  }

  lemma DigitAt(s: string, i: nat)
    requires IsDigits(s) && i < |s|
    ensures IsDigit(s[i])
  {
    assert s[i] in s;
  }

  ghost predicate IsPrinted(s: string, n: nat) {
    n < 1000 && PrintSmall(n) == s
  }

  lemma ParsePrints(s: string, n: nat)
    requires IsDigits(s) && |s| <= 3 && (s == "0" || s[0] != '0') && n == ParseNat(s)
    ensures IsPrinted(s, n)
  {
    DigitAt(s, 0);
    if |s| == 1 {
      assert s == [s[0]];
      PrintsOne(s[0]);
    } else if |s| == 2 {
      DigitAt(s, 1);
      assert s == [s[0], s[1]];
      PrintsTwo(s[0], s[1]);
    } else {
      DigitAt(s, 1);
      DigitAt(s, 2);
      assert s == [s[0], s[1], s[2]];
      PrintsThree(s[0], s[1], s[2]);
    }
  }

  // ----- addresses -----

  function ParseOctet(s: string): Option<nat> {
    if IsDigits(s) && |s| <= 3 && (s == "0" || s[0] != '0') && ParseNat(s) <= 255 then Some(ParseNat(s)) else None
  }

  function IpToInt(ip: string): Outcome<nat> {
    var parts := Split(ip, '.');
    if |parts| != 4 then Raise("AddressValueError")
    else match (ParseOctet(parts[0]), ParseOctet(parts[1]), ParseOctet(parts[2]), ParseOctet(parts[3]))
      case (Some(a), Some(b), Some(c), Some(d)) => Ok(((a * 256 + b) * 256 + c) * 256 + d)
      case _ => Raise("AddressValueError")
  }

  function Octets(n: int): seq<string>
    requires 0 <= n < SIZE
  {
    [PrintSmall(n / 0x100_0000), PrintSmall(n / 0x1_0000 % 256), PrintSmall(n / 0x100 % 256), PrintSmall(n % 256)]
  }

  function IntToIp(n: int): Outcome<string> {
    if 0 <= n < SIZE then Ok(Join(Octets(n), '.')) else Raise("AddressValueError")
  }

  lemma Bytes(n: int, a: int, b: int, c: int, d: int)
    requires 0 <= a && 0 <= b < 256 && 0 <= c < 256 && 0 <= d < 256 && n == ((a * 256 + b) * 256 + c) * 256 + d
    ensures n / 0x100_0000 == a && n / 0x1_0000 == a * 256 + b && n / 0x100 == (a * 256 + b) * 256 + c && n % 256 == d
    ensures n / 0x1_0000 % 256 == b && n / 0x100 % 256 == c
  {
  }

  lemma OctetRoundTrip(n: int)
    requires 0 <= n < 256
    ensures ParseOctet(PrintSmall(n)) == Some(n)
  {
    PrintParses(n);
    assert n < 10 ==> PrintSmall(n) == [Digit(n)];
    DigitIs(if n < 10 then n else 0);
  }

  lemma OctetsPlain(n: int, c: char)
    requires 0 <= n < SIZE && !IsDigit(c)
    ensures forall p | p in Octets(n) :: c !in p
  {
    PrintHasNo(n / 0x100_0000, c);
    PrintHasNo(n / 0x1_0000 % 256, c);
    PrintHasNo(n / 0x100 % 256, c);
    PrintHasNo(n % 256, c);
  }

  lemma FourOctets(parts: seq<string>, ip: string, a: nat, b: nat, c: nat, d: nat)
    requires Split(ip, '.') == parts && |parts| == 4
    requires ParseOctet(parts[0]) == Some(a) && ParseOctet(parts[1]) == Some(b)
    requires ParseOctet(parts[2]) == Some(c) && ParseOctet(parts[3]) == Some(d)
    ensures IpToInt(ip) == Ok(((a * 256 + b) * 256 + c) * 256 + d)
  {
  }

  lemma OctetsRead(n: int, a: nat, b: nat, c: nat, d: nat)
    requires 0 <= n < SIZE && a < 256 && b < 256 && c < 256 && d < 256 && n == ((a * 256 + b) * 256 + c) * 256 + d
    ensures var parts := Octets(n);
            && ParseOctet(parts[0]) == Some(a) && ParseOctet(parts[1]) == Some(b)
            && ParseOctet(parts[2]) == Some(c) && ParseOctet(parts[3]) == Some(d)
  {
    Bytes(n, a, b, c, d);
    OctetRoundTrip(a);
    OctetRoundTrip(b);
    OctetRoundTrip(c);
    OctetRoundTrip(d);
  }

  lemma BytesOf(n: int) returns (a: nat, b: nat, c: nat, d: nat)
    requires 0 <= n < SIZE
    ensures a < 256 && b < 256 && c < 256 && d < 256 && n == ((a * 256 + b) * 256 + c) * 256 + d
  {
    var q, r := n / 256, n / 256 / 256;
    a, b, c, d := r / 256, r % 256, q % 256, n % 256;
  }

  lemma OctetsJoined(n: int)
    requires 0 <= n < SIZE
    ensures Split(Join(Octets(n), '.'), '.') == Octets(n) && '/' !in Join(Octets(n), '.')
  {
    OctetsPlain(n, '.');
    OctetsPlain(n, '/');
    SplitJoin(Octets(n), '.');
    JoinWithout(Octets(n), '.', '/');
  }

  lemma IntRoundTrip(n: int)
    requires 0 <= n < SIZE
    ensures IpToInt(IntToIp(n).value) == Ok(n)
    ensures '/' !in IntToIp(n).value
  {
    OctetsJoined(n);
    var a, b, c, d := BytesOf(n);
    OctetsRead(n, a, b, c, d);
    FourOctets(Octets(n), Join(Octets(n), '.'), a, b, c, d);
  }

  lemma {:induction false} JoinWithout(parts: seq<string>, sep: char, c: char)
    requires sep != c && forall p | p in parts :: c !in p
    ensures c !in Join(parts, sep)
  {
    if |parts| > 1 {
      JoinWithout(parts[1..], sep, c);
    }
  }

  /** Every address that is accepted is the one that is printed for its integer. */
  lemma TextRoundTrip(ip: string)
    requires IpToInt(ip).Ok?
    ensures 0 <= IpToInt(ip).value < SIZE && IntToIp(IpToInt(ip).value) == Ok(ip)
  {
    var parts := Split(ip, '.');
    JoinSplit(ip, '.');
    forall i | 0 <= i < 4 ensures ParseOctet(parts[i]).Some? && PrintSmall(ParseOctet(parts[i]).value) == parts[i] {
      ParsePrints(parts[i], ParseNat(parts[i]));
    }
    var a, b, c, d := ParseOctet(parts[0]).value, ParseOctet(parts[1]).value, ParseOctet(parts[2]).value,
                      ParseOctet(parts[3]).value;
    Bytes(IpToInt(ip).value, a, b, c, d);
    assert parts == [parts[0], parts[1], parts[2], parts[3]];
  }

  /** An address is its four bytes in decimal, the highest first. */
  lemma Quad(a: nat, b: nat, c: nat, d: nat)
    requires a < 256 && b < 256 && c < 256 && d < 256
    ensures var n := ((a * 256 + b) * 256 + c) * 256 + d;
            var text := PrintSmall(a) + "." + PrintSmall(b) + "." + PrintSmall(c) + "." + PrintSmall(d);
            0 <= n < SIZE && IntToIp(n) == Ok(text) && IpToInt(text) == Ok(n)
  {
    var n := ((a * 256 + b) * 256 + c) * 256 + d;
    OctetsOf(n, a, b, c, d);
    IntRoundTrip(n);
    JoinFour(PrintSmall(a), PrintSmall(b), PrintSmall(c), PrintSmall(d), Octets(n));
  }

  lemma OctetsOf(n: int, a: nat, b: nat, c: nat, d: nat)
    requires a < 256 && b < 256 && c < 256 && d < 256 && n == ((a * 256 + b) * 256 + c) * 256 + d
    ensures 0 <= n < SIZE && Octets(n) == [PrintSmall(a), PrintSmall(b), PrintSmall(c), PrintSmall(d)]
  {
    Bytes(n, a, b, c, d);
  }

  lemma JoinFour(a: string, b: string, c: string, d: string, parts: seq<string>)
    requires parts == [a, b, c, d]
    ensures Join(parts, '.') == a + "." + b + "." + c + "." + d
  {
    assert parts[1..] == [b, c, d] && parts[1..][1..] == [c, d] && parts[1..][1..][1..] == [d];
    assert Join(parts[1..][1..], '.') == c + "." + d;
    assert Join(parts[1..], '.') == b + "." + (c + "." + d);
  }

  /** The digits are those of the decimal system. */
  lemma DecimalDigit(d: nat)
    requires d < 10
    ensures PrintSmall(d) == ["0123456789"[d]] && DigitValue("0123456789"[d]) == d
  {
  }

  // ----- networks -----

  type Prefix = p: int | 0 <= p <= 32

  /** How many addresses a network has. */
  function Addresses(p: Prefix): int {
    Pow2(32 - p)
  }

  lemma {:induction false} Pow2Grows(j: nat, k: nat)
    requires j <= k
    ensures Pow2(j) <= Pow2(k) && Pow2(k) % Pow2(j) == 0
    decreases k - j
  {
    if j < k {
      Pow2Grows(j, k - 1);
      var q := Pow2(k - 1) / Pow2(j);
      Division(Pow2(k - 1), Pow2(j));
      assert Pow2(k) == (2 * q) * Pow2(j) + 0;
      MultipleMod(2 * q, Pow2(j), 0);
    }
  }

  /** Rounding down to a multiple of `m`, for an `x` below another multiple. */
  lemma RoundDown(x: int, m: int, size: int)
    requires 0 <= x < size && m > 0 && size % m == 0
    ensures 0 <= x - x % m <= x && (x - x % m) % m == 0 && x - x % m + m <= size
  {
    var q, k := x / m, size / m;
    Division(x, m);
    Division(size, m);
    MultipleMod(q, m, 0);
    if q >= k {
      TimesMonotone(k, q, m);
    } else {
      TimesMonotone(q + 1, k, m);
      assert (q + 1) * m == q * m + m;
    }
    assert q >= 0 by {
      if q < 0 { TimesMonotone(q + 1, 0, m); }
    }
    TimesMonotone(0, q, m);
  }

  /** From a multiple of `m`, going up by `n` stays in the block exactly when n is below m. */
  lemma SameBlock(x: int, m: int, n: nat)
    requires m > 0 && x % m == 0
    ensures x + n - (x + n) % m == x <==> n < m
  {
    Division(x, m);
    Division(x + n, m);
    if n < m {
      MultipleMod(x / m, m, n);
    }
  }

  lemma AddressesDivide(p: Prefix)
    ensures 0 < Addresses(p) <= SIZE && SIZE % Addresses(p) == 0
  {
    AllOnes();
    Pow2Grows(32 - p, 32);
  }

  lemma {:induction false} Pow2Sum(j: nat, k: nat)
    ensures Pow2(j + k) == Pow2(j) * Pow2(k)
  {
    if k > 0 {
      Pow2Sum(j, k - 1);
    }
  }

  datatype Interface = Interface(ip: nat, prefix: Prefix)

  const ALL_ONES := 0xFFFF_FFFF

  /** The masks and the ends of a network, made of bits as Python's `ipaddress` makes them. */
  function Netmask(p: Prefix): nat {
    Xor(ALL_ONES, ShiftRight(ALL_ONES, p))
  }

  function Hostmask(p: Prefix): nat {
    Xor(Netmask(p), ALL_ONES)
  }

  function NetworkAddress(i: Interface): nat {
    And(i.ip, Netmask(i.prefix))
  }

  function Broadcast(i: Interface): nat {
    Or(NetworkAddress(i), Hostmask(i.prefix))
  }

  lemma AllOnes()
    ensures ALL_ONES == Ones(32) && SIZE == Pow2(32)
  {
    assert Pow2(8) == 256;
    assert Pow2(16) == 65536 by { Pow2Sum(8, 8); }
    Pow2Sum(16, 16);
  }

  /** Netmask and wildcard of a prefix, as numbers. */
  lemma MasksAre(p: Prefix)
    ensures Netmask(p) == SIZE - Addresses(p) && Hostmask(p) == Addresses(p) - 1
  {
    AllOnes();
    OnesShifted(32, p);
    HighIs(32, 32 - p);
    XorHigh(32, 32 - p);
  }

  /** The ends of the network: the address rounded down, and that plus the wildcard. */
  lemma EndsAre(i: Interface)
    requires i.ip < SIZE
    ensures NetworkAddress(i) == i.ip - i.ip % Addresses(i.prefix)
    ensures Broadcast(i) == NetworkAddress(i) + Hostmask(i.prefix)
  {
    AllOnes();
    MasksAre(i.prefix);
    OnesShifted(32, i.prefix);
    AndHigh(i.ip, 32, 32 - i.prefix);
    RoundedDown(i.ip, Addresses(i.prefix));
    OrLow(NetworkAddress(i), Hostmask(i.prefix), 32 - i.prefix);
  }

  lemma RoundedDown(x: nat, m: nat)
    requires m > 0
    ensures (x - x % m) % m == 0
  {
    Division(x, m);
    MultipleMod(x / m, m, 0);
  }

  /** The prefix as a number, or as a dotted mask, which `dotted` reads. */
  function ParsePrefix(dotted: string -> Option<Prefix>, s: string): Option<Prefix> {
    if IsDigits(s) && ParseNat(s) <= 32 then Some(ParseNat(s)) else dotted(s)
  }

  /** `IPv4Interface(value)` and, as far as the network goes, `IPv4Network(value, strict=False)`. */
  function ParseInterface(dotted: string -> Option<Prefix>, value: string): Option<Interface> {
    var parts := Split(value, '/');
    if |parts| > 2 then None
    else
      var prefix := if |parts| == 1 then Some(32) else ParsePrefix(dotted, parts[1]);
      match (IpToInt(parts[0]), prefix)
      case (Ok(ip), Some(p)) => Some(Interface(ip, p))
      case _ => None
  }

  /** Without a slash a value is one address, with a prefix of 32. */
  lemma PlainInterface(dotted: string -> Option<Prefix>, ip: string, i: Interface)
    requires '/' !in ip
    ensures ParseInterface(dotted, ip) == Some(i) <==> IpToInt(ip) == Ok(i.ip) && i.prefix == 32
  {
    SplitOne(ip, '/');
  }

  /** With one slash a number up to 32 behind it is the prefix, and anything else a dotted mask;
      with two it is nothing. */
  lemma SlashInterface(dotted: string -> Option<Prefix>, ip: string, s: string, i: Interface)
    requires '/' !in ip
    ensures '/' !in s ==>
              (ParseInterface(dotted, ip + "/" + s) == Some(i)
               <==> IpToInt(ip) == Ok(i.ip)
                    && (if IsDigits(s) && ParseNat(s) <= 32 then i.prefix == ParseNat(s)
                        else dotted(s) == Some(i.prefix)))
    ensures '/' in s ==> ParseInterface(dotted, ip + "/" + s) == None
  {
    assert ip + "/" + s == ip + ['/'] + s;
    SplitCut(ip, s, '/');
    if '/' in s {
      SlashSplits(s);
    } else {
      SplitOne(s, '/');
    }
  }

  lemma SlashSplits(s: string)
    requires '/' in s
    ensures |Split(s, '/')| >= 2
  {
    var k :| 0 <= k < |s| && s[k] == '/';
    assert s == s[..k] + ['/'] + s[k + 1..];
    SplitBoth(s[..k], s[k + 1..], '/');
  }

  function CidrToWildcard(dotted: string -> Option<Prefix>, cidr: string): Outcome<string> {
    match ParseInterface(dotted, cidr)
    case None => Raise("ValueError")
    case Some(i) => IntToIp(Hostmask(i.prefix))
  }

  datatype Query = Address | Mask | Network | PrefixLength | BroadcastAddress | Nth(n: nat) | Unknown

  function ParseQuery(query: string): Query {
    if query == "address" then Address
    else if query == "netmask" then Mask
    else if query == "network" then Network
    else if query == "prefix" then PrefixLength
    else if query == "broadcast" then BroadcastAddress
    else if IsDigits(query) then Nth(ParseNat(query))
    else Unknown
  }

  /** The names a template uses for the queries. */
  lemma Queries()
    ensures ParseQuery("address") == Address && ParseQuery("prefix") == PrefixLength
    ensures ParseQuery("netmask") == Mask && ParseQuery("network") == Network
            && ParseQuery("broadcast") == BroadcastAddress
  {
  }

  lemma DigitsAreNth(query: string)
    requires IsDigits(query)
    ensures ParseQuery(query) == Nth(ParseNat(query))
  {
    assert query[0] in query;
  }

  function WithPrefix(host: int, p: Prefix): Outcome<string> {
    match IntToIp(host)
    case Raise(e) => Raise(e)
    case Ok(ip) => Ok(ip + "/" + PrintSmall(p))
  }

  function Answer(value: string, i: Interface, query: Query): Outcome<string> {
    match query
    case Address => IntToIp(i.ip)
    case Mask => IntToIp(Netmask(i.prefix))
    case Network => IntToIp(NetworkAddress(i))
    case PrefixLength => Ok(PrintSmall(i.prefix))
    case BroadcastAddress => IntToIp(Broadcast(i))
    case Nth(n) => WithPrefix(NetworkAddress(i) + n, i.prefix)
    case Unknown => Ok(value)
  }

  /** A value that is no interface is given back as it is. */
  function Filter(dotted: string -> Option<Prefix>, value: string, query: Query): Outcome<string> {
    match ParseInterface(dotted, value) case None => Ok(value) case Some(i) => Answer(value, i, query)
  }

  function Ipaddr(dotted: string -> Option<Prefix>, value: string, query: string): Outcome<string> {
    Filter(dotted, value, ParseQuery(query))
  }

  lemma NetworkInRange(i: Interface)
    requires 0 <= i.ip < SIZE
    ensures 0 <= NetworkAddress(i) <= i.ip && NetworkAddress(i) % Addresses(i.prefix) == 0
    ensures Broadcast(i) < SIZE && 0 <= Netmask(i.prefix) < SIZE && 0 <= Hostmask(i.prefix) < SIZE
  {
    AddressesDivide(i.prefix);
    MasksAre(i.prefix);
    EndsAre(i);
    RoundDown(i.ip, Addresses(i.prefix), SIZE);
  }

  lemma InRange(dotted: string -> Option<Prefix>, value: string, i: Interface)
    requires ParseInterface(dotted, value) == Some(i)
    ensures 0 <= i.ip < SIZE
  {
    TextRoundTrip(Split(value, '/')[0]);
  }

  /** The text `o` is there and is the address of `n`. */
  ghost predicate Reads(o: Outcome<string>, n: int) {
    o.Ok? && IpToInt(o.value) == Ok(n)
  }

  lemma PrintedReads(o: Outcome<string>, n: int)
    requires 0 <= n < SIZE && o == IntToIp(n)
    ensures Reads(o, n)
  {
    IntRoundTrip(n);
  }

  /** What each query answers for a value that is accepted. */
  lemma QueryReads(dotted: string -> Option<Prefix>, value: string, i: Interface, query: Query, n: int)
    requires ParseInterface(dotted, value) == Some(i)
    requires 0 <= n < SIZE && Answer(value, i, query) == IntToIp(n)
    ensures Reads(Filter(dotted, value, query), n)
  {
    PrintedReads(Answer(value, i, query), n);
  }

  lemma WildcardReads(dotted: string -> Option<Prefix>, value: string, i: Interface)
    requires ParseInterface(dotted, value) == Some(i) && 0 <= Hostmask(i.prefix) < SIZE
    ensures Reads(CidrToWildcard(dotted, value), Hostmask(i.prefix))
  {
    PrintedReads(CidrToWildcard(dotted, value), Hostmask(i.prefix));
  }

  lemma FilterMasks(dotted: string -> Option<Prefix>, value: string, i: Interface)
    requires ParseInterface(dotted, value) == Some(i)
    ensures Reads(Filter(dotted, value, Mask), Netmask(i.prefix))
    ensures Reads(CidrToWildcard(dotted, value), Hostmask(i.prefix))
  {
    InRange(dotted, value, i);
    NetworkInRange(i);
    QueryReads(dotted, value, i, Mask, Netmask(i.prefix));
    WildcardReads(dotted, value, i);
  }

  lemma FilterEnds(dotted: string -> Option<Prefix>, value: string, i: Interface)
    requires ParseInterface(dotted, value) == Some(i)
    ensures Reads(Filter(dotted, value, Network), NetworkAddress(i))
    ensures Reads(Filter(dotted, value, BroadcastAddress), Broadcast(i))
  {
    InRange(dotted, value, i);
    NetworkInRange(i);
    QueryReads(dotted, value, i, Network, NetworkAddress(i));
    QueryReads(dotted, value, i, BroadcastAddress, Broadcast(i));
  }

  lemma ReadsOnce(o: Outcome<string>, n: int, k: int)
    requires Reads(o, n)
    ensures Reads(o, k) <==> n == k
  {
  }

  lemma WithPrefixParses(dotted: string -> Option<Prefix>, host: int, p: Prefix, o: Outcome<string>)
    requires o == WithPrefix(host, p)
    ensures o.Ok? <==> 0 <= host < SIZE
    ensures o.Ok? ==> ParseInterface(dotted, o.value) == Some(Interface(host, p))
  {
    if 0 <= host < SIZE {
      var ip, prefix := IntToIp(host).value, PrintSmall(p);
      IntRoundTrip(host);
      PrintParses(p);
      PrintHasNo(p, '/');
      SplitCut(ip, prefix, '/');
      SplitOne(prefix, '/');
      assert ip + "/" + prefix == ip + ['/'] + prefix;
    }
  }

  lemma NetworkStarts(i: Interface, start: int, size: int, n: nat)
    requires 0 <= i.ip < SIZE && i.ip == start + n && size == Addresses(i.prefix) && size > 0 && start % size == 0
    ensures NetworkAddress(i) == start <==> n < size
  {
    EndsAre(i);
    SameBlock(start, size, n);
  }

  lemma BroadcastFollows(i: Interface, there: Interface)
    requires 0 <= i.ip < SIZE && 0 <= there.ip < SIZE && i.prefix == there.prefix
    ensures Broadcast(there) == Broadcast(i) <==> NetworkAddress(there) == NetworkAddress(i)
  {
    EndsAre(i);
    EndsAre(there);
  }

  /** The n-th host lies in the same network exactly when the network has that many addresses. */
  lemma HostInNetwork(i: Interface, there: Interface, n: nat)
    requires i.ip < SIZE && there.ip < SIZE && there == Interface(NetworkAddress(i) + n, i.prefix)
    ensures NetworkAddress(there) == NetworkAddress(i) <==> n < Addresses(i.prefix)
    ensures Broadcast(there) == Broadcast(i) <==> n < Addresses(i.prefix)
  {
    NetworkInRange(i);
    NetworkStarts(there, NetworkAddress(i), Addresses(i.prefix), n);
    BroadcastFollows(i, there);
  }

  lemma FilterIs(dotted: string -> Option<Prefix>, value: string, i: Interface, query: Query)
    requires ParseInterface(dotted, value) == Some(i)
    ensures Filter(dotted, value, query) == Answer(value, i, query)
  {
  }

  lemma AnswerNth(value: string, i: Interface, n: nat, host: int)
    requires host == NetworkAddress(i) + n
    ensures Answer(value, i, Nth(n)) == WithPrefix(host, i.prefix)
  {
  }

  // ----- the filter as templates call it -----

  lemma NamedQueries(dotted: string -> Option<Prefix>, value: string)
    ensures Ipaddr(dotted, value, "netmask") == Filter(dotted, value, Mask)
    ensures Ipaddr(dotted, value, "network") == Filter(dotted, value, Network)
    ensures Ipaddr(dotted, value, "broadcast") == Filter(dotted, value, BroadcastAddress)
    ensures Ipaddr(dotted, value, "address") == Filter(dotted, value, Address)
    ensures Ipaddr(dotted, value, "prefix") == Filter(dotted, value, PrefixLength)
  {
    Queries();
  }

  /** The filter gives back a value that is no interface, and any value for a query that it does not
      know; the wildcard of such a value is an error. */
  lemma GivenBack(dotted: string -> Option<Prefix>, value: string, query: string)
    ensures ParseInterface(dotted, value) == None ==>
              Ipaddr(dotted, value, query) == Ok(value) && CidrToWildcard(dotted, value).Raise?
    ensures query !in ["address", "netmask", "network", "prefix", "broadcast"] && !IsDigits(query) ==>
              Ipaddr(dotted, value, query) == Ok(value)
  {
  }

  lemma DigitQuery(dotted: string -> Option<Prefix>, value: string, digits: string)
    requires IsDigits(digits)
    ensures Ipaddr(dotted, value, digits) == Filter(dotted, value, Nth(ParseNat(digits)))
  {
    DigitsAreNth(digits);
  }

  lemma TextMasks(dotted: string -> Option<Prefix>, text: string, there: Interface, mask: int, wild: int)
    requires ParseInterface(dotted, text) == Some(there) && mask == Netmask(there.prefix)
             && wild == Hostmask(there.prefix)
    ensures Reads(Ipaddr(dotted, text, "netmask"), mask) && Reads(CidrToWildcard(dotted, text), wild)
  {
    FilterMasks(dotted, text, there);
    NamedQueries(dotted, text);
  }

  /** `ipaddr('netmask')` and `cidr_to_wildcard` answer with the masks of the prefix. */
  lemma MasksRead(dotted: string -> Option<Prefix>, value: string, i: Interface, size: int)
    requires ParseInterface(dotted, value) == Some(i) && size == Addresses(i.prefix)
    ensures Reads(Ipaddr(dotted, value, "netmask"), SIZE - size) && Reads(CidrToWildcard(dotted, value), size - 1)
  {
    MasksAre(i.prefix);
    TextMasks(dotted, value, i, SIZE - size, size - 1);
  }

  /** `ipaddr('network')` and `ipaddr('broadcast')` answer with the ends of the network. */
  lemma EndsRead(dotted: string -> Option<Prefix>, value: string, i: Interface, low: int)
    requires ParseInterface(dotted, value) == Some(i) && low == i.ip - i.ip % Addresses(i.prefix)
    ensures Reads(Ipaddr(dotted, value, "network"), low)
    ensures Reads(Ipaddr(dotted, value, "broadcast"), low + Addresses(i.prefix) - 1)
  {
    InRange(dotted, value, i);
    EndNumbers(i, low, low + Addresses(i.prefix) - 1);
    TextEnds(dotted, value, i, low, low + Addresses(i.prefix) - 1);
  }

  lemma EndNumbers(i: Interface, low: int, high: int)
    requires i.ip < SIZE && low == i.ip - i.ip % Addresses(i.prefix) && high == low + Addresses(i.prefix) - 1
    ensures NetworkAddress(i) == low && Broadcast(i) == high
  {
    MasksAre(i.prefix);
    EndsAre(i);
  }

  /** `ipaddr('address')` and `ipaddr('prefix')`, put together, are the value again. */
  lemma AddressAndPrefix(dotted: string -> Option<Prefix>, value: string, i: Interface)
    requires ParseInterface(dotted, value) == Some(i)
    ensures var ip, p := Ipaddr(dotted, value, "address"), Ipaddr(dotted, value, "prefix");
            ip.Ok? && p.Ok? && ParseInterface(dotted, ip.value + "/" + p.value) == Some(i)
  {
    NamedQueries(dotted, value);
    InRange(dotted, value, i);
    WithPrefixParses(dotted, i.ip, i.prefix, WithPrefix(i.ip, i.prefix));
  }

  /** Mask and wildcard complement each other, and the broadcast address is the network's
      plus the wildcard, for every value the filters accept. */
  lemma MasksComplement(dotted: string -> Option<Prefix>, value: string, mask: int, wild: int, net: int, cast: int)
    requires ParseInterface(dotted, value).Some?
    requires Reads(Ipaddr(dotted, value, "netmask"), mask) && Reads(CidrToWildcard(dotted, value), wild)
    requires Reads(Ipaddr(dotted, value, "network"), net) && Reads(Ipaddr(dotted, value, "broadcast"), cast)
    ensures mask + wild == SIZE - 1 && cast == net + wild
  {
    var i := ParseInterface(dotted, value).value;
    var low := i.ip - i.ip % Addresses(i.prefix);
    MasksRead(dotted, value, i, Addresses(i.prefix));
    EndsRead(dotted, value, i, low);
    ReadsOnce(Ipaddr(dotted, value, "netmask"), mask, SIZE - Addresses(i.prefix));
    ReadsOnce(CidrToWildcard(dotted, value), wild, Addresses(i.prefix) - 1);
    ReadsOnce(Ipaddr(dotted, value, "network"), net, low);
    ReadsOnce(Ipaddr(dotted, value, "broadcast"), cast, low + Addresses(i.prefix) - 1);
  }

  lemma NthAnswers(dotted: string -> Option<Prefix>, value: string, i: Interface, digits: string, n: nat, host: int,
                   o: Outcome<string>)
    requires ParseInterface(dotted, value) == Some(i) && IsDigits(digits) && n == ParseNat(digits)
    requires o == Ipaddr(dotted, value, digits) && host == NetworkAddress(i) + n
    ensures o == WithPrefix(host, i.prefix)
  {
    DigitQuery(dotted, value, digits);
    FilterIs(dotted, value, i, Nth(n));
    AnswerNth(value, i, n, host);
  }

  /** `ipaddr(n)` gives the n-th address with the prefix; it fails exactly past the last address. */
  lemma NthHost(dotted: string -> Option<Prefix>, value: string, i: Interface, digits: string, host: int,
                o: Outcome<string>)
    requires ParseInterface(dotted, value) == Some(i) && IsDigits(digits)
    requires o == Ipaddr(dotted, value, digits) && host == NetworkAddress(i) + ParseNat(digits)
    ensures o.Ok? <==> 0 <= host < SIZE
    ensures o.Ok? ==> ParseInterface(dotted, o.value) == Some(Interface(host, i.prefix))
  {
    NthAnswers(dotted, value, i, digits, ParseNat(digits), host, o);
    WithPrefixParses(dotted, host, i.prefix, o);
  }

  ghost predicate SameNetmask(dotted: string -> Option<Prefix>, text: string, i: Interface) {
    Reads(Ipaddr(dotted, text, "netmask"), Netmask(i.prefix))
  }

  ghost predicate SameEnds(dotted: string -> Option<Prefix>, text: string, i: Interface) {
    && Reads(Ipaddr(dotted, text, "network"), NetworkAddress(i))
    && Reads(Ipaddr(dotted, text, "broadcast"), Broadcast(i))
  }

  lemma TextNetmask(dotted: string -> Option<Prefix>, text: string, there: Interface, i: Interface)
    requires ParseInterface(dotted, text) == Some(there) && there.prefix == i.prefix
    ensures SameNetmask(dotted, text, i)
  {
    FilterMasks(dotted, text, there);
    NamedQueries(dotted, text);
  }

  lemma TextEnds(dotted: string -> Option<Prefix>, text: string, there: Interface, net: int, cast: int)
    requires ParseInterface(dotted, text) == Some(there)
    ensures Reads(Ipaddr(dotted, text, "network"), net) <==> NetworkAddress(there) == net
    ensures Reads(Ipaddr(dotted, text, "broadcast"), cast) <==> Broadcast(there) == cast
  {
    FilterEnds(dotted, text, there);
    NamedQueries(dotted, text);
    ReadsOnce(Ipaddr(dotted, text, "network"), NetworkAddress(there), net);
    ReadsOnce(Ipaddr(dotted, text, "broadcast"), Broadcast(there), cast);
  }

  /** When `ipaddr(n)` succeeds, its text has the netmask of the value, and its network and
      broadcast address exactly when n is below 2^(32 - prefix). */
  lemma NthHostExactly(dotted: string -> Option<Prefix>, value: string, i: Interface, digits: string, text: string)
    requires ParseInterface(dotted, value) == Some(i) && IsDigits(digits)
    requires Ipaddr(dotted, value, digits) == Ok(text)
    ensures SameNetmask(dotted, text, i)
    ensures SameEnds(dotted, text, i) <==> ParseNat(digits) < Addresses(i.prefix)
  {
    var there := Interface(NetworkAddress(i) + ParseNat(digits), i.prefix);
    NthHost(dotted, value, i, digits, there.ip, Ok(text));
    InRange(dotted, value, i);
    InRange(dotted, text, there);
    TextNetmask(dotted, text, there, i);
    TextEnds(dotted, text, there, NetworkAddress(i), Broadcast(i));
    HostInNetwork(i, there, ParseNat(digits));
  }

  lemma PrintInjective(a: int, b: int)
    requires 0 <= a < SIZE && 0 <= b < SIZE
    ensures IntToIp(a) == IntToIp(b) <==> a == b
  {
    IntRoundTrip(a);
    IntRoundTrip(b);
  }
}
