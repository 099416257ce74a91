/** Instance names and the values derived from an instance index (`src/config.rs`). */
module InstanceNames {
  import opened Wrappers
  import opened RepoSlug

  // ---------------------------------------------------------------- decimal numerals

  function Digit(d: nat): (c: char)
    requires d < 10
    ensures '0' <= c <= '9'
  {
    ('0' as int + d) as char
  }

  function Decimal(n: nat): (s: string)
    ensures s != "" && forall i | 0 <= i < |s| :: '0' <= s[i] <= '9'
  {
    if n < 10 then [Digit(n)] else Decimal(n / 10) + [Digit(n % 10)]
  }

  function ParseDecimal(s: string): int {
    if s == "" then 0 else ParseDecimal(s[..|s| - 1]) * 10 + (s[|s| - 1] as int - '0' as int)
  }

  lemma {:induction false} ParseDecimalOf(n: nat)
    ensures ParseDecimal(Decimal(n)) == n
  {
    if n >= 10 {
      ParseDecimalOf(n / 10);
      assert Decimal(n)[..|Decimal(n)| - 1] == Decimal(n / 10);
    } else {
      assert Decimal(n)[..0] == "";
    }
  }

  lemma DecimalInjective(a: nat, b: nat)
    ensures Decimal(a) == Decimal(b) <==> a == b
  {
    ParseDecimalOf(a);
    ParseDecimalOf(b);
  }

  lemma DecimalLength(n: nat)
    ensures n < 100 ==> |Decimal(n)| <= 2
    ensures n < 1000 ==> |Decimal(n)| <= 3
  {
  }

  // ---------------------------------------------------------------- names

  predicate IsNameChar(c: char) {
    'a' <= c <= 'z' || 'A' <= c <= 'Z' || '0' <= c <= '9' || c == '-' || c == '_'
  }

  /** `validate_instance_name` */
  predicate IsInstanceName(name: string) {
    1 <= |name| <= 64 && forall i | 0 <= i < |name| :: IsNameChar(name[i])
  }

  /** Names are 1 to 64 letters, digits, dashes and underscores. */
  lemma InstanceNameExactly(name: string)
    ensures IsInstanceName(name) <==>
      && 0 < |name| < 65
      && forall c | c in name :: c in LOWER || c in UPPER || c in "0123456789" || c in "-_"
  {
    forall c: char ensures IsNameChar(c) <==> c in LOWER || c in UPPER || c in "0123456789" || c in "-_" {
      LettersBetween(c);
      DigitsBetween(c);
    }
    hide LOWER, UPPER, IsNameChar;
  }

  function SanitizeChar(c: char): char {
    if IsNameChar(c) then c else '-'
  }

  /** `sanitize_basename` */
  function SanitizeBasename(name: string): (base: string)
    ensures IsInstanceName(base) && |base| <= 60
    ensures IsInstanceName(name) && |name| <= 60 ==> base == name
    ensures name == "" ==> base == "workspace"
    ensures name != "" ==> |base| <= |name| && (|base| < |name| ==> |base| == 60)
    ensures name != "" ==> forall i | 0 <= i < |base| :: base[i] == name[i] || (base[i] == '-' && !IsNameChar(name[i]))
  {
    if name == "" then "workspace"
    else
      var max := if 60 < |name| then 60 else |name|;
      seq(max, i requires 0 <= i < max => SanitizeChar(name[i]))
  }

  /** The names the search tries, numbered from 1. */
  function Candidate(base: string, n: nat): string {
    if n <= 1 then base else base + "-" + Decimal(n)
  }

  /** The first candidate is the name itself; the others end in a dash and a number in plain
      digits. */
  lemma CandidateSpelling(base: string, n: nat)
    requires 1 <= n
    ensures n == 1 ==> Candidate(base, n) == base
    ensures n >= 2 ==>
      var name := Candidate(base, n);
      && |name| > |base| + 1 && name[..|base|] == base && name[|base|] == '-'
      && (forall i | |base| < i < |name| :: '0' <= name[i] <= '9')
      && name[|base| + 1] != '0' && ParseDecimal(name[|base| + 1..]) == n
  {
    if n >= 2 {
      ParseDecimalOf(n);
      NoLeadingZero(n);
      assert Candidate(base, n)[|base| + 1..] == Decimal(n);
    }
  }

  lemma {:induction false} NoLeadingZero(n: nat)
    requires n >= 1
    ensures Decimal(n)[0] != '0'
  {
    if n >= 10 { NoLeadingZero(n / 10); }
  }

  lemma CandidateIsName(base: string, n: nat)
    requires IsInstanceName(base) && |base| <= 60 && 1 <= n <= 99
    ensures IsInstanceName(Candidate(base, n)) && |Candidate(base, n)| <= 63
  {
    DecimalLength(n);
  }

  lemma CandidatesDiffer(base: string, m: nat, n: nat)
    requires 1 <= m && 1 <= n && Candidate(base, m) == Candidate(base, n)
    ensures m == n
  {
    if m > 1 && n > 1 {
      assert Candidate(base, m)[|base| + 1..] == Decimal(m);
      assert Candidate(base, n)[|base| + 1..] == Decimal(n);
      DecimalInjective(m, n);
    }
  }

  datatype NameError = Exhausted | Invalid

  /** `n` is the number of the first candidate that is not taken. */
  ghost predicate IsFirstFree(base: string, taken: set<string>, n: nat) {
    && 1 <= n <= 99 && Candidate(base, n) !in taken
    && forall m | 1 <= m < n :: Candidate(base, m) in taken
  }

  /** `unique_instance_name`: the first of 99 candidates that is not taken, if it is a name. */
  method UniqueInstanceName(base: string, taken: set<string>) returns (r: Result<string, NameError>)
    ensures r == Err(Exhausted) <==> forall n | 1 <= n <= 99 :: Candidate(base, n) in taken
    ensures r.Ok? ==> IsInstanceName(r.value) && r.value !in taken
    ensures forall n | IsFirstFree(base, taken, n) ::
      r == if IsInstanceName(Candidate(base, n)) then Ok(Candidate(base, n)) else Err(Invalid)
  {
    if base !in taken {
      assert Candidate(base, 1) == base;
      return if IsInstanceName(base) then Ok(base) else Err(Invalid);
    }
    for n := 2 to 100
      invariant forall m | 1 <= m < n :: Candidate(base, m) in taken
    {
      var candidate := base + "-" + Decimal(n);
      assert candidate == Candidate(base, n);
      if candidate !in taken {
        return if IsInstanceName(candidate) then Ok(candidate) else Err(Invalid);
      }
    }
    return Err(Exhausted);
  }

  function CandidatesUpTo(base: string, n: nat): set<string> {
    set m | 1 <= m <= n :: Candidate(base, m)
  }

  lemma {:induction false} CandidateCount(base: string, n: nat)
    ensures |CandidatesUpTo(base, n)| == n
  {
    if n == 0 {
      assert CandidatesUpTo(base, 0) == {};
    } else {
      CandidateCount(base, n - 1);
      forall m | 1 <= m <= n - 1 ensures Candidate(base, m) != Candidate(base, n) {
        if Candidate(base, m) == Candidate(base, n) { CandidatesDiffer(base, m, n); }
      }
      assert CandidatesUpTo(base, n) == CandidatesUpTo(base, n - 1) + {Candidate(base, n)};
    }
  }

  lemma SubsetSize<T>(a: set<T>, b: set<T>)
    requires a <= b
    ensures |a| <= |b|
    ensures |a| == |b| ==> a == b
  {
    assert b == a + (b - a);
  }

  /** With at most 98 names taken, one of the 99 candidates is free. */
  lemma CandidateIsFree(base: string, taken: set<string>)
    requires |taken| <= 98
    ensures exists n :: 1 <= n <= 99 && Candidate(base, n) !in taken
  {
    CandidateCount(base, 99);
    if forall n | 1 <= n <= 99 :: Candidate(base, n) in taken {
      SubsetSize(CandidatesUpTo(base, 99), taken);
    }
  }

  // ---------------------------------------------------------------- derived addresses

  const MAX_INDEX := 252

  /** `Ipv4Addr::from(u32)`, most significant octet first. */
  function Ipv4(n: nat): (nat, nat, nat, nat)
    requires n < 0x1_0000_0000
  {
    (n / 0x100_0000, n / 0x1_0000 % 0x100, n / 0x100 % 0x100, n % 0x100)
  }

  function GuestIp(index: nat): (nat, nat, nat, nat)
    requires index <= MAX_INDEX
  {
    Ipv4(172 * 0x100_0000 + 16 * 0x1_0000 + 2 + index)
  }

  function HexDigit(d: nat): char
    requires d < 16
  {
    if d < 10 then Digit(d) else ('a' as int + d - 10) as char
  }

  /** `{:02x}` for a value of one byte. */
  function Hex2(n: nat): string
    requires n < 0x100
  {
    [HexDigit(n / 16), HexDigit(n % 16)]
  }

  function GuestMac(index: nat): string
    requires index <= MAX_INDEX
  {
    "06:00:AC:10:00:" + Hex2(index + 2)
  }

  function TapDevice(index: nat): string {
    "tap" + Decimal(index)
  }

  function VsockCid(index: nat): nat {
    index + 3
  }

  function HexValue(c: char): int {
    if '0' <= c <= '9' then c as int - '0' as int
    else if 'a' <= c <= 'f' then c as int - 'a' as int + 10
    else c as int - 'A' as int + 10
  }

  /** The six octets of a MAC address in the usual form. */
  function MacOctets(mac: string): seq<int>
    requires |mac| == 17
  {
    seq(6, i requires 0 <= i < 6 => HexValue(mac[3 * i]) * 16 + HexValue(mac[3 * i + 1]))
  }

  /** The addresses of one instance belong together: the MAC holds the guest address behind the
      prefix 06:00, the TAP device is named after the index, and the CID, one above the last octet,
      is none of the reserved ones. */
  lemma AddressesBelongTogether(index: nat)
    requires index <= MAX_INDEX
    ensures |GuestMac(index)| == 17
    ensures
      var (a, b, c, d) := GuestIp(index);
      MacOctets(GuestMac(index)) == [6, 0, a, b, c, d] && VsockCid(index) == d + 1 && VsockCid(index) >= 3
    ensures
      var tap := TapDevice(index);
      tap[..3] == "tap" && ParseDecimal(tap[3..]) == index
    ensures forall i | 0 <= i < 5 :: GuestMac(index)[3 * i + 2] == ':'
  {
    IpOf(index);
    HexOctet(index + 2);
    ParseDecimalOf(index);
    assert TapDevice(index)[3..] == Decimal(index);
    hide Hex2, GuestIp, Decimal, ParseDecimal;
  }

  lemma HexOctet(n: nat)
    requires n < 0x100
    ensures |Hex2(n)| == 2 && HexValue(Hex2(n)[0]) * 16 + HexValue(Hex2(n)[1]) == n
  {
    HexDigitValue(n / 16);
    HexDigitValue(n % 16);
  }

  lemma HexDigitValue(d: nat)
    requires d < 16
    ensures HexValue(HexDigit(d)) == d
  {
  }

  /** Every address lies in the guest range of the host network, and tells the index apart. */
  lemma AddressesIdentify(a: nat, b: nat)
    requires a <= MAX_INDEX && b <= MAX_INDEX
    ensures GuestIp(a) == (172, 16, 0, a + 2) && 2 <= GuestIp(a).3 <= 254
    ensures GuestIp(a) == GuestIp(b) <==> a == b
    ensures GuestMac(a) == GuestMac(b) <==> a == b
    ensures TapDevice(a) == TapDevice(b) <==> a == b
    ensures VsockCid(a) == VsockCid(b) <==> a == b
  {
    hide GuestIp, GuestMac, TapDevice;
    MacsDiffer(a, b);
    TapsDiffer(a, b);
    IpOf(a);
    IpOf(b);
  }

  lemma IpOf(index: nat)
    requires index <= MAX_INDEX
    ensures GuestIp(index) == (172, 16, 0, index + 2)
  {
  }

  lemma TapsDiffer(a: nat, b: nat)
    ensures TapDevice(a) == TapDevice(b) <==> a == b
  {
    assert TapDevice(a)[3..] == Decimal(a) && TapDevice(b)[3..] == Decimal(b);
    DecimalInjective(a, b);
  }

  lemma MacsDiffer(a: nat, b: nat)
    requires a <= MAX_INDEX && b <= MAX_INDEX
    ensures GuestMac(a) == GuestMac(b) <==> a == b
  {
    hide Hex2;
    HexInjective(a + 2, b + 2);
    assert GuestMac(a)[15..] == Hex2(a + 2) && GuestMac(b)[15..] == Hex2(b + 2);
  }

  lemma HexInjective(m: nat, n: nat)
    requires m < 0x100 && n < 0x100
    ensures Hex2(m) == Hex2(n) <==> m == n
  {
    if Hex2(m) == Hex2(n) {
      assert Hex2(m)[0] == Hex2(n)[0] && Hex2(m)[1] == Hex2(n)[1];
      HexDigitInjective(m / 16, n / 16);
      HexDigitInjective(m % 16, n % 16);
    }
  }

  lemma HexDigitInjective(a: nat, b: nat)
    requires a < 16 && b < 16 && HexDigit(a) == HexDigit(b)
    ensures a == b
  {
  }
}
