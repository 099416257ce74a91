/** What the JSONC conversion means, said in byte values: which commas the text that comes out can
    hold, how many it keeps of the input's, and what counts as a comment. */
module JsoncGrammar {
  import opened Jsonc

  /** Tab, newline, form feed, carriage return, space. */
  predicate IsBlank(b: byte) {
    b == 9 || b == 10 || b == 12 || b == 13 || b == 32
  }

  function SkipBlanks(t: seq<byte>): seq<byte> {
    if t != [] && IsBlank(t[0]) then SkipBlanks(t[1..]) else t
  }

  /** The code points of a text that holds none beyond 255. */
  function Codes(text: string): seq<byte>
    requires forall i | 0 <= i < |text| :: text[i] as int < 256
  {
    seq(|text|, i requires 0 <= i < |text| => text[i] as int as byte)
  }

  lemma CodesOfLatin1(t: seq<byte>)
    ensures Codes(Latin1(t)) == t
  {
  }

  // ---------------------------------------------------------------- the commas that are left

  /** Outside strings, whatever follows a comma past blanks is no `,`, no `]` and no `}`. */
  predicate CommasSeparate(t: seq<byte>, inString: bool)
    decreases |t|
  {
    if t == [] then true
    else if inString then
      if t[0] == 92 && |t| > 1 then CommasSeparate(t[2..], true) else CommasSeparate(t[1..], t[0] != 34)
    else
      && (t[0] == 44 ==>
            var rest := SkipBlanks(t[1..]);
            rest == [] || (rest[0] != 44 && rest[0] != 93 && rest[0] != 125))
      && CommasSeparate(t[1..], t[0] == 34)
  }

  lemma {:induction false} CleanCommasSeparate(t: seq<byte>, inString: bool)
    requires Clean(t, inString)
    ensures CommasSeparate(t, inString)
    decreases |t|
  {
    if t == [] {
    } else if inString && t[0] == 92 && |t| > 1 {
      CleanCommasSeparate(t[2..], true);
    } else {
      CleanCommasSeparate(t[1..], if inString then t[0] != 34 else t[0] == 34);
    }
  }

  // ---------------------------------------------------------------- the commas that are kept

  /** The text without the blanks outside strings. */
  function DropBlanks(t: seq<byte>, inString: bool): seq<byte>
    decreases |t|
  {
    if t == [] then []
    else if inString then
      if t[0] == 92 && |t| > 1 then t[..2] + DropBlanks(t[2..], true)
      else [t[0]] + DropBlanks(t[1..], t[0] != 34)
    else if IsBlank(t[0]) then DropBlanks(t[1..], false)
    else [t[0]] + DropBlanks(t[1..], t[0] == 34)
  }

  /** A text without blanks, without every comma directly in front of another one or a closer. */
  function OneComma(t: seq<byte>, inString: bool): seq<byte>
    decreases |t|
  {
    if t == [] then []
    else if inString then
      if t[0] == 92 && |t| > 1 then t[..2] + OneComma(t[2..], true)
      else [t[0]] + OneComma(t[1..], t[0] != 34)
    else if t[0] == 44 && |t| > 1 && (t[1] == 44 || t[1] == 93 || t[1] == 125) then OneComma(t[1..], false)
    else [t[0]] + OneComma(t[1..], t[0] == 34)
  }

  lemma DropOutside(b: byte, t: seq<byte>)
    ensures DropBlanks([b] + t, false) ==
      if IsBlank(b) then DropBlanks(t, false) else [b] + DropBlanks(t, b == 34)
  {
    assert ([b] + t)[1..] == t;
  }

  lemma DropInside(b: byte, t: seq<byte>)
    requires b == 92 ==> t == []
    ensures DropBlanks([b] + t, true) == [b] + DropBlanks(t, b != 34)
  {
    assert ([b] + t)[1..] == t;
  }

  lemma DropEscape(a: seq<byte>, t: seq<byte>)
    requires |a| == 2 && a[0] == 92
    ensures DropBlanks(a + t, true) == a + DropBlanks(t, true)
  {
    assert (a + t)[..2] == a && (a + t)[2..] == t;
  }

  lemma OneOutside(b: byte, t: seq<byte>)
    ensures OneComma([b] + t, false) ==
      if b == 44 && t != [] && (t[0] == 44 || t[0] == 93 || t[0] == 125) then OneComma(t, false)
      else [b] + OneComma(t, b == 34)
  {
    assert ([b] + t)[1..] == t;
  }

  lemma OneInside(b: byte, t: seq<byte>)
    requires b == 92 ==> t == []
    ensures OneComma([b] + t, true) == [b] + OneComma(t, b != 34)
  {
    assert ([b] + t)[1..] == t;
  }

  lemma OneEscape(a: seq<byte>, t: seq<byte>)
    requires |a| == 2 && a[0] == 92
    ensures OneComma(a + t, true) == a + OneComma(t, true)
  {
    assert (a + t)[..2] == a && (a + t)[2..] == t;
  }

  lemma {:induction false} GapIsDropped(t: seq<byte>, x: seq<byte>)
    ensures DropBlanks(Gap(t) + x, false) == DropBlanks(x, false)
  {
    if t == [] || !InRun(t[0]) {
      assert Gap(t) + x == x;
    } else {
      GapIsDropped(t[1..], x);
      if t[0] == COMMA {
        assert Gap(t) + x == Gap(t[1..]) + x;
      } else {
        assert Gap(t) + x == [t[0]] + (Gap(t[1..]) + x);
        DropOutside(t[0], Gap(t[1..]) + x);
      }
    }
  }

  /** A text that does not start with a blank keeps its first byte. */
  lemma FirstKept(t: seq<byte>)
    requires t != [] && !IsBlank(t[0])
    ensures DropBlanks(t, false) != [] && DropBlanks(t, false)[0] == t[0]
  {
  }

  /** A run with a comma in it counts as one comma in front of what follows. */
  lemma {:induction false} RunCounts(t: seq<byte>)
    ensures
      var rest := DropBlanks(AfterRun(t), false);
      var closes := rest != [] && (rest[0] == 93 || rest[0] == 125);
      OneComma([44] + DropBlanks(t, false), false) == (if closes then [] else [44]) + OneComma(rest, false)
  {
    if t == [] || !InRun(t[0]) {
      OneOutside(44, DropBlanks(t, false));
      if t != [] { FirstKept(t); }
      var rest := DropBlanks(t, false);
      assert [] + OneComma(rest, false) == OneComma(rest, false);
    } else {
      RunCounts(t[1..]);
      assert t == [t[0]] + t[1..];
      DropOutside(t[0], t[1..]);
      if t[0] == COMMA { OneOutside(44, [44] + DropBlanks(t[1..], false)); }
    }
  }

  /** The second pass keeps of the commas between two other tokens exactly one, and of those in
      front of a closer none. */
  lemma {:induction false} FixedCommasCount(t: seq<byte>, inString: bool)
    ensures DropBlanks(FixCommas(t, inString), inString) == OneComma(DropBlanks(t, inString), inString)
    decreases |t|
  {
    if t == [] {
    } else if inString {
      if t[0] == BACKSLASH && |t| > 1 {
        FixedCommasCount(t[2..], true);
        DropEscape(t[..2], FixCommas(t[2..], true));
        OneEscape(t[..2], DropBlanks(t[2..], true));
      } else {
        FixedCommasCount(t[1..], t[0] != QUOTE);
        DropInside(t[0], FixCommas(t[1..], t[0] != QUOTE));
        OneInside(t[0], DropBlanks(t[1..], t[0] != QUOTE));
      }
    } else if t[0] == COMMA {
      CommaRunCounts(t);
    } else {
      FixedCommasCount(t[1..], t[0] == QUOTE);
      assert t == [t[0]] + t[1..];
      DropOutside(t[0], FixCommas(t[1..], t[0] == QUOTE));
      DropOutside(t[0], t[1..]);
      OneOutside(t[0], DropBlanks(t[1..], t[0] == QUOTE));
    }
  }

  lemma CommaRunCounts(t: seq<byte>)
    requires t != [] && t[0] == COMMA
    ensures DropBlanks(FixCommas(t, false), false) == OneComma(DropBlanks(t, false), false)
    decreases |t|, 0
  {
    var rest := AfterRun(t);
    var u := FixCommas(rest, false);
    FixedCommasCount(rest, false);
    assert t == [44] + t[1..] && AfterRun(t) == AfterRun(t[1..]);
    DropOutside(44, t[1..]);
    RunCounts(t[1..]);
    if rest != [] { FirstKept(rest); }
    var closes := rest != [] && IsCloser(rest[0]);
    GapIsDropped(t, (if closes then [] else [COMMA]) + u);
    DropOutside(COMMA, u);
    assert [] + u == u;
  }

  /** What the conversion does to commas, said of the text that comes out: every comma outside
      strings separates two tokens (or ends the text), and between two tokens of the input there
      is one exactly when the input had at least one and no closer follows. */
  lemma OutputCommas(s: seq<byte>)
    ensures
      var out := Codes(Latin1(Convert(s)));
      && CommasSeparate(out, false)
      && DropBlanks(out, false) == OneComma(DropBlanks(EraseComments(s, false), false), false)
  {
    CodesOfLatin1(Convert(s));
    ConvertIsIdempotent(s);
    CleanCommasSeparate(Convert(s), false);
    FixedCommasCount(EraseComments(s, false), false);
  }

  // ---------------------------------------------------------------- what a comment is

  /** `//` up to the end of the line. */
  lemma LineComment(body: seq<byte>, rest: seq<byte>)
    requires forall i | 0 <= i < |body| :: body[i] != 10
    ensures EraseComments([47, 47] + (body + ([10] + rest)), false) == [10] + EraseComments(rest, false)
    ensures EraseComments([47, 47] + body, false) == []
  {
    LineEnds(body, [10] + rest);
    LineEnds(body, []);
    assert ([47, 47] + (body + ([10] + rest)))[2..] == body + ([10] + rest);
    assert ([47, 47] + body)[2..] == body && body + [] == body;
    assert ([10] + rest)[1..] == rest;
  }

  lemma {:induction false} LineEnds(body: seq<byte>, rest: seq<byte>)
    requires forall i | 0 <= i < |body| :: body[i] != 10
    requires rest == [] || rest[0] == 10
    ensures AfterLine(body + rest) == rest
  {
    if body == [] {
      assert body + rest == rest;
    } else {
      LineEnds(body[1..], rest);
      assert (body + rest)[1..] == body[1..] + rest;
    }
  }

  // No end of a block comment starts inside `body`, given what follows it.
  predicate StaysOpen(body: seq<byte>, rest: seq<byte>) {
    forall i | 0 <= i < |body| && i + 1 < |body + rest| :: !((body + rest)[i] == 42 && (body + rest)[i + 1] == 47)
  }

  lemma {:induction false} BlockEnds(body: seq<byte>, rest: seq<byte>)
    requires StaysOpen(body, rest) && |rest| >= 1
    ensures AfterBlock(body + rest) == AfterBlock(rest)
  {
    if body == [] {
      assert body + rest == rest;
    } else {
      var t := body[1..] + rest;
      assert (body + rest)[1..] == t;
      assert forall i | 0 <= i < |t| :: t[i] == (body + rest)[i + 1];
      BlockEnds(body[1..], rest);
      assert !((body + rest)[0] == 42 && (body + rest)[1] == 47);
    }
  }

  /** From the opener up to the first end behind it. */
  lemma BlockComment(body: seq<byte>, rest: seq<byte>)
    requires StaysOpen(body, [42, 47])
    ensures EraseComments([47, 42] + (body + ([42, 47] + rest)), false) == EraseComments(rest, false)
  {
    var end := [42, 47] + rest;
    assert end[2..] == rest;
    forall i | 0 <= i < |body| && i + 1 < |body + end|
      ensures !((body + end)[i] == 42 && (body + end)[i + 1] == 47)
    {
      assert (body + end)[i] == (body + [42, 47])[i] && (body + end)[i + 1] == (body + [42, 47])[i + 1];
    }
    BlockEnds(body, end);
    assert ([47, 42] + (body + end))[2..] == body + end;
  }

  /** Without an end, everything but the last byte. */
  lemma OpenComment(body: seq<byte>, last: byte)
    requires StaysOpen(body, [last])
    ensures EraseComments([47, 42] + (body + [last]), false) == [last]
  {
    BlockEnds(body, [last]);
    assert ([47, 42] + (body + [last]))[2..] == body + [last];
    assert [last][1..] == [] && EraseComments([], last == QUOTE) == [];
    assert EraseComments([last], false) == [last] + [];
  }

  /** Whatever holds no quote and no slash stays, up to a comment and elsewhere. */
  lemma {:induction false} PlainStays(a: seq<byte>, rest: seq<byte>)
    requires forall i | 0 <= i < |a| :: a[i] != 34 && a[i] != 47
    ensures EraseComments(a + rest, false) == a + EraseComments(rest, false)
  {
    if a == [] {
      assert a + rest == rest;
    } else {
      PlainStays(a[1..], rest);
      assert (a + rest)[1..] == a[1..] + rest;
      assert a == [a[0]] + a[1..];
      assert [a[0]] + (a[1..] + EraseComments(rest, false)) == a + EraseComments(rest, false);
    }
  }
}
