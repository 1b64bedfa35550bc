/** How iptables reads the address after `-d`, and how `iptables -S` lists the DNAT rules that
    src/network.rs inserts. */
module Iptables {
  import opened Wrappers
  import opened Decimal
  import opened Hosts

  // ---------- Numbers, as C's strtoul reads them with base 0 ----------

  function DigitValue(c: char): Option<nat> {
    if '0' <= c <= '9' then Some((c - '0') as nat)
    else if 'a' <= c <= 'f' then Some(10 + (c - 'a') as nat)
    else if 'A' <= c <= 'F' then Some(10 + (c - 'A') as nat)
    else None
  }

  function ReadInBase(s: string, base: nat): Option<nat> {
    if s == "" then None
    else
      var front, d := s[..|s| - 1], DigitValue(s[|s| - 1]);
      if d.None? || d.value >= base then None
      else if front == "" then d
      else
        match ReadInBase(front, base)
        case None => None
        case Some(n) => Some(Times(base, n) + d.value)
  }

  function Times(a: nat, b: nat): nat {
    a * b
  }

  /** After blanks and a plus sign: hexadecimal after `0x`, octal after `0`, otherwise decimal. */
  function ReadNumber(s: string): Option<nat> {
    if s != "" && IsBlank(s[0]) then ReadNumber(s[1..])
    else if s != "" && s[0] == '+' then ReadUnsigned(s[1..])
    else ReadUnsigned(s)
  }

  function ReadUnsigned(s: string): Option<nat> {
    if |s| > 2 && s[0] == '0' && (s[1] == 'x' || s[1] == 'X') then ReadInBase(s[2..], 16)
    else if |s| > 1 && s[0] == '0' then ReadInBase(s[1..], 8)
    else ReadInBase(s, 10)
  }

  // ---------- The argument of `-d` ----------

  /** Four octets. */
  type Quad = q: seq<nat> | |q| == 4 witness [0, 0, 0, 0]

  const NO_BITS: Quad := [0, 0, 0, 0]
  const ALL_BITS: Quad := [255, 255, 255, 255]

  function Split(s: string, sep: char): (parts: seq<string>)
    ensures parts != []
  {
    if s == "" then [""]
    else
      var rest := Split(s[1..], sep);
      if s[0] == sep then [""] + rest else [[s[0]] + rest[0]] + rest[1..]
  }

  function ReadOctet(s: string): Option<nat> {
    match ReadNumber(s)
    case Some(n) => if n <= 255 then Some(n) else None
    case None => None
  }

  function ReadQuad(s: string): Option<Quad> {
    var parts := Split(s, '.');
    if |parts| == 4 then ReadOctets(parts) else None
  }

  /** An address may be cut short; zeros follow. */
  function ReadAddress(s: string): Option<Quad> {
    var parts := Split(s, '.');
    if |parts| <= 4 then ReadOctets(parts + ["0", "0", "0"][..4 - |parts|]) else None
  }

  function ReadOctets(parts: seq<string>): Option<Quad>
    requires |parts| == 4
  {
    var a, b, c, d := ReadOctet(parts[0]), ReadOctet(parts[1]), ReadOctet(parts[2]), ReadOctet(parts[3]);
    if a.Some? && b.Some? && c.Some? && d.Some? then Some([a.value, b.value, c.value, d.value]) else None
  }

  /** The octet whose highest `bits` bits are set. */
  function OnesOctet(bits: int): nat {
    if bits <= 0 then 0 else if bits >= 8 then 255 else [0, 128, 192, 224, 240, 248, 252, 254][bits]
  }

  function PrefixMask(bits: nat): Quad {
    [OnesOctet(bits), OnesOctet(bits - 8), OnesOctet(bits - 16), OnesOctet(bits - 24)]
  }

  /** A mask is a dotted quad or a number of leading ones. */
  function ReadMask(s: string): Option<Quad> {
    match ReadQuad(s)
    case Some(q) => Some(q)
    case None =>
      match ReadNumber(s)
      case Some(n) => if n <= 32 then Some(PrefixMask(n)) else None
      case None => None
  }

  function And(a: nat, b: nat): nat {
    if a == 0 || b == 0 then 0 else 2 * And(a / 2, b / 2) + (a % 2) * (b % 2)
  }

  function Masked(a: Quad, m: Quad): Quad {
    [And(a[0], m[0]), And(a[1], m[1]), And(a[2], m[2]), And(a[3], m[3])]
  }

  /** An empty mask matches every address, whatever is written before it, like no `-d` at all. */
  datatype Dest = AnyAddress | Within(addr: Quad, mask: Quad) | Unread

  function LastSlash(s: string): (i: int)
    ensures -1 <= i < |s|
    ensures i < 0 <==> '/' !in s
  {
    if s == "" then -1
    else
      assert s == s[..|s| - 1] + [s[|s| - 1]];
      if s[|s| - 1] == '/' then |s| - 1 else LastSlash(s[..|s| - 1])
  }

  /** One numeric address, with or without a mask. Anything else is `Unread`. */
  function ReadDest(arg: string): Dest {
    var i := LastSlash(arg);
    if i < 0 then
      match ReadAddress(arg)
      case None => Unread
      case Some(a) => Within(a, ALL_BITS)
    else
      match ReadMask(arg[i + 1..])
      case None => Unread
      case Some(m) =>
        if m == NO_BITS then AnyAddress
        else
          match ReadAddress(arg[..i])
          case None => Unread
          case Some(a) => Within(Masked(a, m), m)
  }

  lemma {:induction false} LastSlashAt(addr: string, mask: string)
    requires '/' !in mask
    ensures LastSlash(addr + ("/" + mask)) == |addr|
    decreases |mask|
  {
    var s := addr + ("/" + mask);
    if mask != "" {
      assert s[..|s| - 1] == addr + ("/" + mask[..|mask| - 1]);
      LastSlashAt(addr, mask[..|mask| - 1]);
    }
  }

  lemma AfterSlash(addr: string, mask: string)
    ensures (addr + ("/" + mask))[|addr| + 1..] == mask
  {
  }

  lemma EmptyMaskExactly(mask: string)
    ensures ReadMask(mask) == Some(NO_BITS)
       <==> ReadQuad(mask) == Some(NO_BITS) || (ReadQuad(mask).None? && ReadNumber(mask) == Some(0))
  {
    if ReadNumber(mask).Some? && 0 < ReadNumber(mask).value <= 32 {
      assert OnesOctet(ReadNumber(mask).value) > 0;
    }
  }

  /** An argument matches every address exactly when it ends in an empty mask: a dotted quad of zeros,
      or the number zero, however written. Without a slash it never does. */
  lemma {:induction false} AnyAddressExactly(addr: string, mask: string)
    requires '/' !in mask
    ensures ReadDest(addr + ("/" + mask)).AnyAddress?
       <==> ReadQuad(mask) == Some(NO_BITS) || (ReadQuad(mask).None? && ReadNumber(mask) == Some(0))
    ensures !ReadDest(mask).AnyAddress?
  {
    LastSlashAt(addr, mask);
    AfterSlash(addr, mask);
    EmptyMaskExactly(mask);
  }

  // ---------- A written address is read back ----------

  lemma {:induction false} ShownInBaseTen(n: nat)
    ensures ReadInBase(Show(n), 10) == Some(n)
    ensures n > 0 ==> Show(n)[0] != '0'
  {
    var s := Show(n);
    if n >= 10 {
      ShownInBaseTen(n / 10);
      assert s[..|s| - 1] == Show(n / 10);
    } else {
      assert s[..|s| - 1] == "";
    }
  }

  lemma ShownNumber(n: nat)
    ensures ReadNumber(Show(n)) == Some(n)
  {
    ShownInBaseTen(n);
    assert IsDigit(Show(n)[0]);
  }

  lemma {:induction false} SplitAtFirst(s: string, rest: string)
    requires '.' !in s
    ensures Split(s + ("." + rest), '.') == [s] + Split(rest, '.')
  {
    if s == "" {
      assert s + ("." + rest) == "." + rest && ("." + rest)[1..] == rest;
    } else {
      assert s + ("." + rest) == [s[0]] + (s[1..] + ("." + rest));
      SplitAtFirst(s[1..], rest);
      SplitStep(s[0], s[1..] + ("." + rest), '.');
      assert [s[0]] + s[1..] == s;
    }
  }

  lemma {:induction false} SplitNone(s: string)
    requires '.' !in s
    ensures Split(s, '.') == [s]
  {
    if s != "" {
      SplitNone(s[1..]);
      assert [s[0]] + s[1..] == s;
    }
  }

  lemma ShownHasNoDot(n: nat)
    ensures '.' !in Show(n) && '/' !in Show(n)
  {
    assert forall i :: 0 <= i < |Show(n)| ==> IsDigit(Show(n)[i]);
  }

  function Dotted(a: string, b: string, c: string, d: string): string {
    a + ("." + (b + ("." + (c + ("." + d)))))
  }

  lemma SplitDotted(a: string, b: string, c: string, d: string)
    requires '.' !in a && '.' !in b && '.' !in c && '.' !in d
    ensures Split(Dotted(a, b, c, d), '.') == [a, b, c, d]
  {
    SplitNone(d);
    SplitAtFirst(c, d);
    SplitAtFirst(b, c + ("." + d));
    SplitAtFirst(a, b + ("." + (c + ("." + d))));
  }

  lemma ReadFourOctets(a: nat, b: nat, c: nat, d: nat)
    requires a <= 255 && b <= 255 && c <= 255 && d <= 255
    ensures ReadOctets([Show(a), Show(b), Show(c), Show(d)]) == Some([a, b, c, d])
  {
    ShownNumber(a);
    ShownNumber(b);
    ShownNumber(c);
    ShownNumber(d);
  }

  lemma QuadReadBack(a: nat, b: nat, c: nat, d: nat)
    requires a <= 255 && b <= 255 && c <= 255 && d <= 255
    ensures var s := Dotted(Show(a), Show(b), Show(c), Show(d));
      ReadAddress(s) == ReadQuad(s) == Some([a, b, c, d]) && '/' !in s
  {
    ShownHasNoDot(a);
    ShownHasNoDot(b);
    ShownHasNoDot(c);
    ShownHasNoDot(d);
    SplitDotted(Show(a), Show(b), Show(c), Show(d));
    ReadFourOctets(a, b, c, d);
    AddNone([Show(a), Show(b), Show(c), Show(d)]);
  }

  /** A dotted quad of numbers up to 255 names that address and no other. */
  lemma AddressReadBack(a: nat, b: nat, c: nat, d: nat)
    requires a <= 255 && b <= 255 && c <= 255 && d <= 255
    ensures ReadDest(Dotted(Show(a), Show(b), Show(c), Show(d))) == Within([a, b, c, d], [255, 255, 255, 255])
  {
    QuadReadBack(a, b, c, d);
  }

  /** A mask may be a quad too; a number is one up to 32, and an octet one up to 255. */
  lemma MasksReadBack(a: nat, b: nat, c: nat, d: nat, n: nat)
    requires a <= 255 && b <= 255 && c <= 255 && d <= 255
    ensures ReadMask(Dotted(Show(a), Show(b), Show(c), Show(d))) == Some([a, b, c, d])
    ensures ReadMask(Show(n)) == if n <= 32 then Some(PrefixMask(n)) else None
    ensures ReadOctet(Show(n)) == if n <= 255 then Some(n) else None
  {
    QuadReadBack(a, b, c, d);
    ShownHasNoDot(n);
    SplitNone(Show(n));
    ShownNumber(n);
  }

  /** An address cut short goes on with zeros. */
  lemma ShortAddress(a: nat)
    requires a <= 255
    ensures ReadDest(Show(a)) == Within([a, 0, 0, 0], [255, 255, 255, 255])
  {
    ShownHasNoDot(a);
    SplitNone(Show(a));
    ShownNumber(a);
    ReadZero();
    assert [Show(a)] + ["0", "0", "0"][..3] == [Show(a), "0", "0", "0"];
  }

  /** Two numbers in the other bases, after a blank and a plus. */
  lemma OtherBases()
    ensures ReadNumber(" +010") == Some(8) && ReadNumber("0x1F") == Some(31)
  {
    assert " +010"[1..] == "+010" && "+010"[1..] == "010" && "010"[1..] == "10";
    assert "10"[..1] == "1" && "1"[..0] == "";
    assert "0x1F"[2..] == "1F" && "1F"[..1] == "1";
  }

  lemma AddNone(parts: seq<string>)
    ensures parts + ["0", "0", "0"][..0] == parts
  {
  }

  // ---------- What a number as mask leaves of an octet ----------

  function PowerOfTwo(k: nat): nat
    requires k <= 8
  {
    [1, 2, 4, 8, 16, 32, 64, 128, 256][k]
  }

  lemma AndStep(a: nat, b: nat)
    ensures And(a, b) == 2 * And(a / 2, b / 2) + (a % 2) * (b % 2)
  {
  }

  lemma {:induction false} AndShifted(x: nat, k: nat, m: nat)
    requires k <= 8
    ensures And(x, PowerOfTwo(k) * m) == PowerOfTwo(k) * And(x / PowerOfTwo(k), m)
  {
    if k > 0 {
      Doubled(x, k, m);
      Doubled(x, k, And(x / PowerOfTwo(k), m));
      AndStep(x, 2 * (PowerOfTwo(k - 1) * m));
      AndShifted(x / 2, k - 1, m);
    }
  }

  lemma Doubled(x: nat, k: nat, m: nat)
    requires 0 < k <= 8
    ensures PowerOfTwo(k) * m == 2 * (PowerOfTwo(k - 1) * m)
    ensures x / 2 / PowerOfTwo(k - 1) == x / PowerOfTwo(k)
  {
  }

  lemma {:induction false} AndAll(x: nat, j: nat)
    requires j <= 8 && x < PowerOfTwo(j)
    ensures And(x, PowerOfTwo(j) - 1) == x
  {
    if j > 0 {
      AndStep(x, PowerOfTwo(j) - 1);
      AndAll(x / 2, j - 1);
    }
  }

  /** How many values of an octet agree in its highest `bits` bits. */
  function Agreeing(bits: int): (n: nat)
    ensures n > 0
  {
    if bits <= 0 then 256 else if bits >= 8 then 1 else [256, 128, 64, 32, 16, 8, 4, 2][bits]
  }

  lemma OnesAre(bits: int) returns (b: nat)
    ensures b <= 8 && OnesOctet(bits) == PowerOfTwo(8 - b) * (PowerOfTwo(b) - 1)
    ensures Agreeing(bits) == PowerOfTwo(8 - b)
  {
    b := if bits <= 0 then 0 else if bits >= 8 then 8 else bits;
    assert b == 0 || b == 1 || b == 2 || b == 3 || b == 4 || b == 5 || b == 6 || b == 7 || b == 8;
  }

  lemma HighPart(x: nat, b: nat)
    requires x <= 255 && b <= 8
    ensures x / PowerOfTwo(8 - b) < PowerOfTwo(b)
  {
    assert b == 0 || b == 1 || b == 2 || b == 3 || b == 4 || b == 5 || b == 6 || b == 7 || b == 8;
  }

  /** The mask keeps the highest `bits` bits: all of them from 8 on, none up to 0. */
  lemma OctetMasked(x: nat, bits: int)
    requires x <= 255
    ensures And(x, OnesOctet(bits)) == Agreeing(bits) * (x / Agreeing(bits))
  {
    var b := OnesAre(bits);
    AndShifted(x, 8 - b, PowerOfTwo(b) - 1);
    HighPart(x, b);
    AndAll(x / PowerOfTwo(8 - b), b);
  }

  lemma OctetsAgree(x: nat, y: nat, bits: int)
    requires x <= 255 && y <= 255
    ensures And(y, OnesOctet(bits)) == And(x, OnesOctet(bits)) <==> x / Agreeing(bits) == y / Agreeing(bits)
  {
    OctetMasked(x, bits);
    OctetMasked(y, bits);
    Cancel(Agreeing(bits), x / Agreeing(bits), y / Agreeing(bits));
  }

  lemma Cancel(k: nat, u: nat, v: nat)
    requires k > 0
    ensures k * u == k * v <==> u == v
  {
    if u != v {
      assert k * (u - v) != 0;
    }
  }

  /** A rule for address/n matches the addresses whose octets agree with its own in the first n bits. */
  lemma PrefixMatches(addr: Quad, dst: Quad, n: nat)
    requires n <= 32 && forall j :: 0 <= j < 4 ==> addr[j] <= 255 && dst[j] <= 255
    ensures Masked(dst, PrefixMask(n)) == Masked(addr, PrefixMask(n)) <==>
      && addr[0] / Agreeing(n) == dst[0] / Agreeing(n)
      && addr[1] / Agreeing(n - 8) == dst[1] / Agreeing(n - 8)
      && addr[2] / Agreeing(n - 16) == dst[2] / Agreeing(n - 16)
      && addr[3] / Agreeing(n - 24) == dst[3] / Agreeing(n - 24)
  {
    OctetsAgree(addr[0], dst[0], n);
    OctetsAgree(addr[1], dst[1], n - 8);
    OctetsAgree(addr[2], dst[2], n - 16);
    OctetsAgree(addr[3], dst[3], n - 24);
  }

  lemma MaskedRead(addr: string, a: Quad, mask: string, m: Quad)
    requires '/' !in mask && ReadMask(mask) == Some(m) && m != NO_BITS && ReadAddress(addr) == Some(a)
    ensures ReadDest(addr + ("/" + mask)) == Within(Masked(a, m), m)
  {
    LastSlashAt(addr, mask);
    AfterSlash(addr, mask);
    assert (addr + ("/" + mask))[..|addr|] == addr;
  }

  lemma SomeBits(n: nat)
    requires n > 0
    ensures PrefixMask(n) != NO_BITS
  {
    assert PrefixMask(n)[0] == OnesOctet(n) > 0;
  }

  /** An address with a number as mask is read as the masked address and the mask. */
  lemma PrefixReadBack(a: nat, b: nat, c: nat, d: nat, n: nat)
    requires a <= 255 && b <= 255 && c <= 255 && d <= 255 && 0 < n <= 32
    ensures ReadDest(Dotted(Show(a), Show(b), Show(c), Show(d)) + ("/" + Show(n)))
         == Within(Masked([a, b, c, d], PrefixMask(n)), PrefixMask(n))
  {
    ShownHasNoDot(n);
    MasksReadBack(a, b, c, d, n);
    QuadReadBack(a, b, c, d);
    SomeBits(n);
    MaskedRead(Dotted(Show(a), Show(b), Show(c), Show(d)), [a, b, c, d], Show(n), PrefixMask(n));
  }

  // ---------- Three arguments ----------

  lemma ReadZero()
    ensures ReadNumber("0") == Some(0)
  {
    assert "0"[..0] == "";
  }

  lemma SplitStep(c: char, rest: string, sep: char)
    ensures Split([c] + rest, sep)
         == if c == sep then [""] + Split(rest, sep) else [[c] + Split(rest, sep)[0]] + Split(rest, sep)[1..]
  {
    assert ([c] + rest)[1..] == rest;
  }

  lemma ReadZeroQuad()
    ensures ReadQuad("0.0.0.0") == ReadAddress("0.0.0.0") == Some(NO_BITS)
  {
    ReadZero();
    SplitZero("");
    SplitZero(".0");
    SplitZero(".0.0");
    SplitZero(".0.0.0");
    assert Split("0", '.') == ["0"];
    assert Split("0.0", '.') == ["0", "0"];
    assert Split("0.0.0", '.') == ["0", "0", "0"];
    assert Split("0.0.0.0", '.') == ["0", "0", "0", "0"];
    assert ["0", "0", "0"][..0] == [];
  }

  lemma SplitZero(rest: string)
    ensures rest == "" ==> Split("0", '.') == ["0"]
    ensures rest != "" && rest[0] == '.' ==> Split("0" + rest, '.') == ["0"] + Split(rest[1..], '.')
  {
    assert "0" + rest == ['0'] + rest;
    SplitStep('0', rest, '.');
    if rest == "" {
      assert "0" + rest == "0" && ['0'] + "" == "0";
    } else if rest[0] == '.' {
      assert ['0'] + "" == "0";
      assert ([""] + Split(rest[1..], '.'))[1..] == Split(rest[1..], '.');
    }
  }

  /** The default host address has a full mask; its two forms with an empty mask match everything. */
  lemma DestExamples()
    ensures ReadDest("0.0.0.0") == Within(NO_BITS, ALL_BITS)
    ensures ReadDest("0.0.0.0/0") == AnyAddress
    ensures ReadDest("0.0.0.0/0.0.0.0") == AnyAddress
  {
    ReadZero();
    ReadZeroQuad();
    assert "0.0.0.0" + ("/" + "0") == "0.0.0.0/0";
    assert "0.0.0.0" + ("/" + "0.0.0.0") == "0.0.0.0/0.0.0.0";
    SplitZero("");
    AnyAddressExactly("0.0.0.0", "0");
    AnyAddressExactly("0.0.0.0", "0.0.0.0");
  }

  // ---------- Listed rules ----------

  /** The line `iptables -S` prints for a DNAT rule without `-d`. */
  function DnatLine(chain: string, dport: nat, toIp: string, toPort: nat): string {
    LineStart(chain, dport) + toIp + (":" + Show(toPort))
  }

  function LineStart(chain: string, dport: nat): string {
    "-A " + chain + " -p tcp -m tcp --dport " + Show(dport) + " -j " + "DNAT" + " --to-destination "
  }

  predicate NatChain(chain: string) {
    chain == "PREROUTING" || chain == "OUTPUT"
  }

  predicate Contains(s: string, part: string) {
    exists i :: 0 <= i <= |s| && part <= s[i..]
  }

  lemma ContainsMiddle(a: string, part: string, b: string)
    ensures Contains(a + part + b, part)
  {
    assert (a + part + b)[|a|..] == part + b;
  }

  lemma ContainsHead(s: string, part: string)
    requires part != ""
    ensures Contains(s, part) ==> part[0] in s
  {
    if i :| 0 <= i <= |s| && part <= s[i..] {
      assert s[i..][0] == part[0];
    }
  }

  lemma LineStartHasNoDot(chain: string, dport: nat)
    requires NatChain(chain)
    ensures '.' !in LineStart(chain, dport)
    ensures var s := LineStart(chain, dport); s != "" && s[|s| - 1] == ' '
  {
    assert forall i :: 0 <= i < |Show(dport)| ==> IsDigit(Show(dport)[i]);
  }

  lemma DnatLineSaysDnat(chain: string, dport: nat, toIp: string, toPort: nat)
    ensures Contains(DnatLine(chain, dport, toIp, toPort), "DNAT")
  {
    var a := "-A " + chain + " -p tcp -m tcp --dport " + Show(dport) + " -j ";
    var b := " --to-destination " + toIp + (":" + Show(toPort));
    assert DnatLine(chain, dport, toIp, toPort) == a + "DNAT" + b;
    ContainsMiddle(a, "DNAT", b);
  }

  /** Where the dots of a line with the address 10.0.`third`.`last` are. */
  lemma DotsOfLine(chain: string, dport: nat, a: Address, toPort: nat, k: nat)
    requires NatChain(chain)
    ensures var line, p := DnatLine(chain, dport, AddressText(a), toPort), |LineStart(chain, dport)|;
      k < |line| && line[k] == '.' ==> k == p + 2 || k == p + 4 || k == p + 5 + |Show(a.third as nat)|
  {
    var start, third, last, port := LineStart(chain, dport), Show(a.third as nat), Show(a.last as nat), Show(toPort);
    LineStartHasNoDot(chain, dport);
    var line := DnatLine(chain, dport, AddressText(a), toPort);
    assert line == start + ("10.0." + third + "." + last) + (":" + port);
    DotFree(start, third, last, port, k);
  }

  lemma DotFree(start: string, third: string, last: string, port: string, k: nat)
    requires '.' !in start && AllDigits(third) && AllDigits(last) && AllDigits(port)
    ensures var line := start + ("10.0." + third + "." + last) + (":" + port);
      k < |line| && line[k] == '.' ==> k == |start| + 2 || k == |start| + 4 || k == |start| + 5 + |third|
  {
    var ip := "10.0." + third + "." + last;
    var line := start + ip + (":" + port);
    if k < |start| {
      assert line[k] == start[k];
    } else if k < |start| + |ip| {
      var j := k - |start|;
      assert line[k] == ip[j];
      if 5 <= j < 5 + |third| {
        assert ip[j] == third[j - 5] && IsDigit(third[j - 5]);
      } else if j > 5 + |third| {
        assert ip[j] == last[j - 6 - |third|] && IsDigit(last[j - 6 - |third|]);
      }
    } else if k < |line| {
      var j := k - |start| - |ip|;
      assert line[k] == (":" + port)[j];
      assert j > 0 ==> IsDigit(port[j - 1]);
    }
  }

  /** Such a line contains "10.0.42." only if its address does, in the third octet. */
  lemma {:induction false} ContainsBridge(chain: string, dport: nat, a: Address, toPort: nat)
    requires NatChain(chain)
    ensures Contains(DnatLine(chain, dport, AddressText(a), toPort), "10.0.42.") <==> a.third == 42
  {
    var line, start := DnatLine(chain, dport, AddressText(a), toPort), LineStart(chain, dport);
    ShowFortyTwo();
    if a.third == 42 {
      BridgeContained(start, Show(a.last as nat), ":" + Show(toPort));
    }
    if Contains(line, "10.0.42.") {
      var i :| 0 <= i <= |line| && "10.0.42." <= line[i..];
      PartOfLine(line, i);
      DotsOfLine(chain, dport, a, toPort, i + 2);
      DotsOfLine(chain, dport, a, toPort, i + 4);
      DotsOfLine(chain, dport, a, toPort, i + 7);
      ThirdInLine(start, Show(a.third as nat), Show(a.last as nat), Show(toPort));
      assert Show(a.third as nat) == "42";
      ShowValue(a.third as nat);
      ShowValue(42);
    }
  }

  lemma ShowFortyTwo()
    ensures Show(42) == "42"
  {
    assert Show(4) == "4" && DigitChar(2) == '2';
  }

  lemma BridgeContained(start: string, last: string, tail: string)
    ensures Contains(start + ("10.0." + "42" + "." + last) + tail, "10.0.42.")
  {
    assert start + ("10.0." + "42" + "." + last) + tail == start + "10.0.42." + (last + tail);
    ContainsMiddle(start, "10.0.42.", last + tail);
  }

  lemma PartOfLine(line: string, i: nat)
    requires i <= |line| && "10.0.42." <= line[i..]
    ensures i + 8 <= |line| && line[i + 2] == '.' && line[i + 4] == '.' && line[i + 7] == '.'
    ensures line[i + 5] == '4' && line[i + 6] == '2'
  {
    var part := "10.0.42.";
    assert line[i..][2] == part[2] && line[i..][4] == part[4] && line[i..][7] == part[7];
    assert line[i..][5] == part[5] && line[i..][6] == part[6];
  }

  lemma ThirdInLine(start: string, third: string, last: string, port: string)
    requires |third| == 2
    ensures var line := start + ("10.0." + third + "." + last) + (":" + port);
      third == [line[|start| + 5], line[|start| + 6]]
  {
    var ip := "10.0." + third + "." + last;
    assert ip[5] == third[0] && ip[6] == third[1];
  }
}
