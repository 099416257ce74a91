/** The hand-written encoder `base64_encode` of `src/devcontainer_oci.rs`, and a strict decoder
    written from section 4 of RFC 4648 that inverts it.

    The encoder works with shifts and masks on bytes; its specification and the decoder work with
    the 24-bit number a group stands for. */
module Base64 {
  import opened Wrappers

  type octet = n: int | 0 <= n < 256

  const UPPER := "ABCDEFGHIJKLMNOPQRSTUVWXYZ"
  const LOWER := "abcdefghijklmnopqrstuvwxyz"
  const DIGITS := "0123456789"
  const TABLE: string := UPPER + LOWER + DIGITS + "+/"

  // ---------------------------------------------------------------- the alphabet

  predicate IsSymbol(c: char) {
    'A' <= c <= 'Z' || 'a' <= c <= 'z' || '0' <= c <= '9' || c == '+' || c == '/'
  }

  /** The value of a symbol, by Table 1 of RFC 4648. */
  function ValueOf(c: char): (v: nat)
    requires IsSymbol(c)
    ensures v < 64
  {
    if 'A' <= c <= 'Z' then c as int - 'A' as int
    else if 'a' <= c <= 'z' then c as int - 'a' as int + 26
    else if '0' <= c <= '9' then c as int - '0' as int + 52
    else if c == '+' then 62
    else 63
  }

  /** The symbol of a value, by the same table. */
  function Symbol(v: nat): char
    requires v < 64
  {
    if v < 26 then ('A' as int + v) as char
    else if v < 52 then ('a' as int + (v - 26)) as char
    else if v < 62 then ('0' as int + (v - 52)) as char
    else if v == 62 then '+'
    else '/'
  }

  lemma TableParts()
    ensures |UPPER| == |LOWER| == 26 && |DIGITS| == 10
    ensures forall v: nat | v < 26 :: UPPER[v] as int == 'A' as int + v
    ensures forall v: nat | v < 26 :: LOWER[v] as int == 'a' as int + v
    ensures forall v: nat | v < 10 :: DIGITS[v] as int == '0' as int + v
  {
  }

  /** The encoder's table is that of the RFC, and its symbols have the decoder's values. */
  lemma TableMatchesValues(v: nat)
    requires v < 64
    ensures |TABLE| == 64 && TABLE[v] == Symbol(v)
    ensures IsSymbol(TABLE[v]) && ValueOf(TABLE[v]) == v
  {
    TableParts();
    hide UPPER, LOWER, DIGITS;
    if v < 26 {
      assert TABLE[v] == UPPER[v];
    } else if v < 52 {
      assert TABLE[v] == LOWER[v - 26];
    } else if v < 62 {
      assert TABLE[v] == DIGITS[v - 52];
    } else {
      assert TABLE[v] == "+/"[v - 62];
    }
  }

  /** Symbols and values are inverse to each other. */
  lemma SymbolsMatchValues()
    ensures forall v: nat | v < 64 :: IsSymbol(Symbol(v)) && ValueOf(Symbol(v)) == v
    ensures forall c | IsSymbol(c) :: Symbol(ValueOf(c)) == c
  {
  }

  // ---------------------------------------------------------------- specification and decoder

  function GroupNumber(group: seq<octet>): (n: nat)
    requires 1 <= |group| <= 3
    ensures n < 0x100_0000
  {
    var b0: int := group[0];
    var b1: int := if |group| > 1 then group[1] else 0;
    var b2: int := if |group| > 2 then group[2] else 0;
    b0 * 0x1_0000 + b1 * 0x100 + b2
  }

  /** The four sextets of a group, most significant first; missing bytes count as zero. */
  function Sextets(group: seq<octet>): (s: (nat, nat, nat, nat))
    requires 1 <= |group| <= 3
    ensures s.0 < 64 && s.1 < 64 && s.2 < 64 && s.3 < 64
    ensures GroupNumber(group) == s.0 * 0x4_0000 + s.1 * 0x1000 + s.2 * 64 + s.3
  {
    var x := group[0];
    var y := if |group| > 1 then group[1] else 0;
    var z := if |group| > 2 then group[2] else 0;
    (x / 4, x % 4 * 16 + y / 16, y % 16 * 4 + z / 64, z % 64)
  }

  function EncodeGroup(group: seq<octet>): (t: string)
    requires 1 <= |group| <= 3
    ensures |t| == 4
  {
    var s := Sextets(group);
    [ Symbol(s.0), Symbol(s.1),
      if |group| > 1 then Symbol(s.2) else '=',
      if |group| > 2 then Symbol(s.3) else '=' ]
  }

  function Encode(bytes: seq<octet>): string {
    if bytes == [] then ""
    else if |bytes| <= 3 then EncodeGroup(bytes)
    else EncodeGroup(bytes[..3]) + Encode(bytes[3..])
  }

  function BytesOf(n: nat, count: nat): (r: seq<octet>)
    requires n < 0x100_0000 && count <= 3
    ensures |r| == count
  {
    [n / 0x1_0000, n / 0x100 % 0x100, n % 0x100][..count]
  }

  /** One group of four characters. Padding is accepted in the last group only, and the bits it
      leaves over must be zero. */
  function DecodeGroup(t: string, last: bool): (r: Option<seq<octet>>)
    requires |t| == 4
  {
    if !IsSymbol(t[0]) || !IsSymbol(t[1]) then None
    else
      var high := ValueOf(t[0]) * 0x4_0000 + ValueOf(t[1]) * 0x1000;
      if last && t[2] == '=' && t[3] == '=' then
        if high % 0x1_0000 == 0 then Some(BytesOf(high, 1)) else None
      else if !IsSymbol(t[2]) then None
      else
        var middle := high + ValueOf(t[2]) * 64;
        if last && t[3] == '=' then
          if middle % 0x100 == 0 then Some(BytesOf(middle, 2)) else None
        else if !IsSymbol(t[3]) then None
        else Some(BytesOf(middle + ValueOf(t[3]), 3))
  }

  function Decode(t: string): Option<seq<octet>> {
    if t == "" then Some([])
    else if |t| < 4 then None
    else
      match DecodeGroup(t[..4], |t| == 4)
      case None => None
      case Some(group) =>
        match Decode(t[4..])
        case None => None
        case Some(rest) => Some(group + rest)
  }

  // ---------------------------------------------------------------- shifts and masks as arithmetic

  lemma BitsOfFirst(b: bv8)
    ensures (b >> 2) as int == b as int / 4
    ensures ((b & 3) << 4) as int == b as int % 4 * 16
  {
    assert (b & 3) as int == b as int % 4;
    ShiftFour(b & 3);
  }

  lemma BitsOfSecond(b: bv8)
    ensures (b >> 4) as int == b as int / 16
    ensures ((b & 15) << 2) as int == b as int % 16 * 4
  {
    assert (b & 15) as int == b as int % 16;
    ShiftTwo(b & 15);
  }

  lemma BitsOfThird(b: bv8)
    ensures (b >> 6) as int == b as int / 64 && (b & 63) as int == b as int % 64
  {
  }

  lemma ShiftFour(b: bv8)
    requires b < 4
    ensures (b << 4) as int == b as int * 16
  {
  }

  lemma ShiftTwo(b: bv8)
    requires b < 16
    ensures (b << 2) as int == b as int * 4
  {
  }

  lemma OrFour(x: bv8, y: bv8)
    requires x <= 63 && x & 15 == 0 && y <= 15
    ensures (x | y) as int == x as int + y as int
  {
  }

  lemma OrTwo(x: bv8, y: bv8)
    requires x <= 63 && x & 3 == 0 && y <= 3
    ensures (x | y) as int == x as int + y as int
  {
  }

  lemma FirstSextets(b0: bv8, b1: bv8)
    ensures (b0 >> 2) as int == b0 as int / 4
    ensures (((b0 & 3) << 4) | (b1 >> 4)) as int == b0 as int % 4 * 16 + b1 as int / 16
  {
    BitsOfFirst(b0);
    BitsOfSecond(b1);
    OrFour((b0 & 3) << 4, b1 >> 4);
  }

  lemma SecondSextets(b1: bv8, b2: bv8)
    ensures (((b1 & 15) << 2) | (b2 >> 6)) as int == b1 as int % 16 * 4 + b2 as int / 64
    ensures (b2 & 63) as int == b2 as int % 64
  {
    BitsOfSecond(b1);
    BitsOfThird(b2);
    OrTwo((b1 & 15) << 2, b2 >> 6);
  }

  lemma FourSextets(a: nat, b: nat, c: nat, d: nat)
    requires a < 64 && b < 64 && c < 64 && d < 64
    ensures
      var n := a * 0x4_0000 + b * 0x1000 + c * 64 + d;
      && n < 0x100_0000
      && n / 0x4_0000 == a && n / 0x1000 % 64 == b && n / 64 % 64 == c && n % 64 == d
  {
    var n := a * 0x4_0000 + b * 0x1000 + c * 64 + d;
    assert n / 0x1000 == a * 64 + b;
    assert n / 64 == (a * 64 + b) * 64 + c;
  }

  lemma ThreeOctets(x: nat, y: nat, z: nat)
    requires x < 256 && y < 256 && z < 256
    ensures
      var n := x * 0x1_0000 + y * 0x100 + z;
      && n < 0x100_0000
      && n / 0x1_0000 == x && n / 0x100 % 0x100 == y && n % 0x100 == z
  {
    var n := x * 0x1_0000 + y * 0x100 + z;
    assert n / 0x100 == x * 0x100 + y;
  }

  /** The values of machine bytes. */
  function Octets(bytes: seq<bv8>): (r: seq<octet>)
    ensures |r| == |bytes| && forall i :: 0 <= i < |r| ==> r[i] == bytes[i] as int
  {
    seq(|bytes|, i requires 0 <= i < |bytes| => bytes[i] as int)
  }

  /** The table indices that the shifts and masks compute are the sextets of the group. */
  lemma ShiftedSextets(group: seq<bv8>, b0: bv8, b1: bv8, b2: bv8)
    requires 1 <= |group| <= 3
    requires b0 == group[0]
    requires b1 == if |group| > 1 then group[1] else 0
    requires b2 == if |group| > 2 then group[2] else 0
    ensures
      var s := Sextets(Octets(group));
      && (b0 >> 2) as int == s.0
      && (((b0 & 3) << 4) | (b1 >> 4)) as int == s.1
      && (((b1 & 15) << 2) | (b2 >> 6)) as int == s.2
      && (b2 & 63) as int == s.3
  {
    FirstSextets(b0, b1);
    SecondSextets(b1, b2);
  }

  /** `base64_encode`, chunk by chunk. */
  method Base64Encode(bytes: seq<bv8>) returns (out: string)
    ensures out == Encode(Octets(bytes))
  {
    hide Symbol, Sextets, Encode, Octets, IsSymbol, ValueOf, TABLE, UPPER, LOWER, DIGITS;
    ghost var all := Octets(bytes);
    out := "";
    var i := 0;
    assert all[0..] == all;
    while i < |bytes|
      invariant 0 <= i <= |bytes|
      invariant out + Encode(all[i..]) == Encode(all)
    {
      var chunk := bytes[i..if i + 3 < |bytes| then i + 3 else |bytes|];
      var b0 := chunk[0];
      var b1 := if |chunk| > 1 then chunk[1] else 0;
      var b2 := if |chunk| > 2 then chunk[2] else 0;
      ShiftedSextets(chunk, b0, b1, b2);
      TableMatchesValues((b0 >> 2) as int);
      TableMatchesValues((((b0 & 3) << 4) | (b1 >> 4)) as int);
      TableMatchesValues((((b1 & 15) << 2) | (b2 >> 6)) as int);
      TableMatchesValues((b2 & 63) as int);
      var group := [TABLE[(b0 >> 2) as int], TABLE[(((b0 & 3) << 4) | (b1 >> 4)) as int]];
      if |chunk| > 1 {
        group := group + [TABLE[(((b1 & 15) << 2) | (b2 >> 6)) as int]];
      } else {
        group := group + ['='];
      }
      if |chunk| > 2 {
        group := group + [TABLE[(b2 & 63) as int]];
      } else {
        group := group + ['='];
      }
      assert group == EncodeGroup(Octets(chunk));
      assert Octets(chunk) == all[i..i + |chunk|];
      EncodeTail(all, i, |chunk|);
      Emit(out, group, Encode(all[i + |chunk|..]));
      out := out + group;
      i := i + |chunk|;
    }
    EncodeIsEmpty(all[i..]);
  }

  lemma Emit(out: string, group: string, rest: string)
    ensures out + (group + rest) == (out + group) + rest
  {
  }

  lemma EncodeTail(bytes: seq<octet>, i: nat, step: nat)
    requires i < |bytes| && step == (if i + 3 < |bytes| then 3 else |bytes| - i)
    ensures Encode(bytes[i..]) == EncodeGroup(bytes[i..i + step]) + Encode(bytes[i + step..])
  {
    hide EncodeGroup;
    var rest := bytes[i..];
    assert bytes[i..i + step] == rest[..step] && bytes[i + step..] == rest[step..];
    if |rest| <= 3 { assert rest[..step] == rest && rest[step..] == []; }
  }

  // ---------------------------------------------------------------- round trips

  lemma DecodeEncodeGroup(group: seq<octet>, last: bool)
    requires 1 <= |group| <= 3 && (|group| < 3 ==> last)
    ensures DecodeGroup(EncodeGroup(group), last) == Some(group)
  {
    hide Symbol, ValueOf, BytesOf;
    SymbolsMatchValues();
    BytesOfGroup(group);
    assert |group| == 1 ==> Sextets(group).2 == Sextets(group).3 == 0;
    assert |group| == 2 ==> Sextets(group).3 == 0;
  }

  lemma BytesOfGroup(group: seq<octet>)
    requires 1 <= |group| <= 3
    ensures BytesOf(GroupNumber(group), |group|) == group
    ensures |group| == 1 ==> GroupNumber(group) % 0x1_0000 == 0
    ensures |group| == 2 ==> GroupNumber(group) % 0x100 == 0
  {
    ThreeOctets(group[0], if |group| > 1 then group[1] else 0, if |group| > 2 then group[2] else 0);
  }

  /** Decoding inverts encoding. */
  lemma {:induction false} DecodeEncode(bytes: seq<octet>)
    ensures Decode(Encode(bytes)) == Some(bytes)
    decreases |bytes|
  {
    if bytes != [] {
      var group, rest := if |bytes| <= 3 then bytes else bytes[..3], if |bytes| <= 3 then [] else bytes[3..];
      assert |rest| < |bytes|;
      DecodeEncode(rest);
      EncodeIsEmpty(rest);
      assert Encode(bytes) == EncodeGroup(group) + Encode(rest);
      DecodeEncodeGroup(group, Encode(rest) == "");
      assert Encode(bytes)[..4] == EncodeGroup(group) && Encode(bytes)[4..] == Encode(rest);
      assert bytes == group + rest;
    }
  }

  lemma EncodeIsEmpty(bytes: seq<octet>)
    ensures Encode(bytes) == "" <==> bytes == []
  {
  }

  lemma EncodeDecodeGroup(t: string, last: bool)
    requires |t| == 4 && DecodeGroup(t, last).Some?
    ensures
      var group := DecodeGroup(t, last).value;
      1 <= |group| <= 3 && (|group| < 3 ==> last) && EncodeGroup(group) == t
  {
    hide Symbol, ValueOf, BytesOf;
    SymbolsMatchValues();
    var group := DecodeGroup(t, last).value;
    var a, b := ValueOf(t[0]), ValueOf(t[1]);
    var c, d := if t[2] == '=' then 0 else ValueOf(t[2]), if t[3] == '=' then 0 else ValueOf(t[3]);
    NumberOfBytes(a, b, c, d, |group|);
  }

  lemma NumberOfBytes(a: nat, b: nat, c: nat, d: nat, count: nat)
    requires a < 64 && b < 64 && c < 64 && d < 64 && 1 <= count <= 3
    requires count == 1 ==> (a * 0x4_0000 + b * 0x1000) % 0x1_0000 == 0 && c == d == 0
    requires count == 2 ==> (a * 0x4_0000 + b * 0x1000 + c * 64) % 0x100 == 0 && d == 0
    ensures
      var n := a * 0x4_0000 + b * 0x1000 + c * 64 + d;
      n < 0x100_0000 && |BytesOf(n, count)| == count && Sextets(BytesOf(n, count)) == (a, b, c, d)
  {
    var n := a * 0x4_0000 + b * 0x1000 + c * 64 + d;
    FourSextets(a, b, c, d);
    OctetsOf(n);
    assert GroupNumber(BytesOf(n, count)) == n;
    hide BytesOf, GroupNumber;
    var s := Sextets(BytesOf(n, count));
    FourSextets(s.0, s.1, s.2, s.3);
  }

  lemma OctetsOf(n: nat)
    requires n < 0x100_0000
    ensures n / 0x1_0000 * 0x1_0000 + n / 0x100 % 0x100 * 0x100 + n % 0x100 == n
    ensures n % 0x1_0000 == 0 ==> n / 0x1_0000 * 0x1_0000 == n
    ensures n % 0x100 == 0 ==> n / 0x1_0000 * 0x1_0000 + n / 0x100 % 0x100 * 0x100 == n
  {
  }

  /** A text the strict decoder accepts is the encoding of what it decodes to: the encoder is the
      only way to write a byte sequence. */
  lemma {:induction false} EncodeDecode(t: string)
    requires Decode(t).Some?
    ensures Encode(Decode(t).value) == t
    decreases |t|
  {
    if t != "" {
      var group, rest := DecodeGroup(t[..4], |t| == 4).value, Decode(t[4..]).value;
      EncodeDecodeGroup(t[..4], |t| == 4);
      EncodeDecode(t[4..]);
      EncodeIsEmpty(rest);
      assert t == t[..4] + t[4..];
      if |group| < 3 {
        assert rest == [] && group + rest == group;
      } else if rest == [] {
        assert group + rest == group;
      } else {
        assert (group + rest)[..3] == group && (group + rest)[3..] == rest;
      }
    }
  }

  /** Different byte sequences have different encodings. */
  lemma EncodeIsInjective(a: seq<octet>, b: seq<octet>)
    ensures Encode(a) == Encode(b) <==> a == b
  {
    DecodeEncode(a);
    DecodeEncode(b);
  }

  /** Symbols, then `padding` times the padding character. */
  ghost predicate IsPadded(t: string, padding: nat) {
    && padding <= |t|
    && forall i | 0 <= i < |t| :: if i < |t| - padding then IsSymbol(t[i]) else t[i] == '='
  }

  function PaddingFor(length: nat): nat {
    (3 - length % 3) % 3
  }

  /** Length, alphabet and place of the padding. */
  lemma {:induction false} EncodeShape(bytes: seq<octet>)
    ensures |Encode(bytes)| == (|bytes| + 2) / 3 * 4
    ensures IsPadded(Encode(bytes), PaddingFor(|bytes|))
  {
    if 0 < |bytes| <= 3 {
      hide EncodeGroup, IsPadded;
      GroupShape(bytes);
    } else if |bytes| > 3 {
      hide *;
      var rest := bytes[3..];
      GroupShape(bytes[..3]);
      EncodeShape(rest);
      assert bytes[0..] == bytes && bytes[0..3] == bytes[..3];
      EncodeTail(bytes, 0, 3);
      LongerByThree(|rest|);
      PaddedAppend(EncodeGroup(bytes[..3]), Encode(rest), PaddingFor(|bytes|));
    }
  }

  lemma LongerByThree(n: nat)
    ensures PaddingFor(n + 3) == PaddingFor(n) && PaddingFor(3) == 0
    ensures (n + 5) / 3 * 4 == 4 + (n + 2) / 3 * 4
  {
  }

  lemma PaddedAppend(a: string, b: string, padding: nat)
    requires IsPadded(a, 0) && IsPadded(b, padding)
    ensures IsPadded(a + b, padding)
  {
  }

  lemma GroupShape(group: seq<octet>)
    requires 1 <= |group| <= 3
    ensures PaddingFor(|group|) == 3 - |group| && IsPadded(EncodeGroup(group), PaddingFor(|group|))
  {
    hide Symbol;
    SymbolsMatchValues();
  }
}
