/** The JSONC-to-JSON scanner of `src/jsonc.rs`.

    The scanner is one loop over bytes that strips comments and trailing commas at the same time.
    Its specification here is the composition of two string-aware passes over whole sequences:
    `EraseComments` knows nothing about commas, and `FixCommas` knows nothing about comments and
    decides each run of commas by looking ahead instead of remembering a pending comma. */
module Jsonc {

  newtype byte = b: int | 0 <= b < 256

  const TAB: byte := 9
  const NEWLINE: byte := 10
  const FORM_FEED: byte := 12
  const RETURN: byte := 13
  const SPACE: byte := 32
  const QUOTE: byte := 34
  const STAR: byte := 42
  const COMMA: byte := 44
  const SLASH: byte := 47
  const CLOSE_BRACKET: byte := 93
  const BACKSLASH: byte := 92
  const CLOSE_BRACE: byte := 125

  /** Rust's `u8::is_ascii_whitespace`: form feed counts, vertical tab does not. */
  predicate IsWhitespace(b: byte) {
    b == TAB || b == NEWLINE || b == FORM_FEED || b == RETURN || b == SPACE
  }

  predicate IsCloser(b: byte) {
    b == CLOSE_BRACKET || b == CLOSE_BRACE
  }

  // ---------------------------------------------------------------- the two-pass specification

  /** What a line comment leaves: everything from its newline on. */
  function AfterLine(s: seq<byte>): (r: seq<byte>)
    ensures |r| <= |s|
  {
    if s == [] || s[0] == NEWLINE then s else AfterLine(s[1..])
  }

  /** What a block comment leaves, given the text behind its opener. Without a terminator the
      last byte survives. */
  function AfterBlock(s: seq<byte>): (r: seq<byte>)
    ensures |r| <= |s|
  {
    if |s| < 2 then s
    else if s[0] == STAR && s[1] == SLASH then s[2..]
    else AfterBlock(s[1..])
  }

  /** First pass: erase comments outside string literals. */
  function EraseComments(s: seq<byte>, inString: bool): seq<byte>
    decreases |s|
  {
    if s == [] then []
    else if inString then
      if s[0] == BACKSLASH && |s| > 1 then s[..2] + EraseComments(s[2..], true)
      else [s[0]] + EraseComments(s[1..], s[0] != QUOTE)
    else if s[0] == SLASH && |s| > 1 && s[1] == SLASH then EraseComments(AfterLine(s[2..]), false)
    else if s[0] == SLASH && |s| > 1 && s[1] == STAR then EraseComments(AfterBlock(s[2..]), false)
    else [s[0]] + EraseComments(s[1..], s[0] == QUOTE)
  }

  predicate InRun(b: byte) {
    b == COMMA || IsWhitespace(b)
  }

  /** The whitespace of the run of commas and whitespace that `t` starts with. */
  function Gap(t: seq<byte>): seq<byte> {
    if t == [] || !InRun(t[0]) then []
    else (if t[0] == COMMA then [] else [t[0]]) + Gap(t[1..])
  }

  /** What follows the run of commas and whitespace that `t` starts with. */
  function AfterRun(t: seq<byte>): (r: seq<byte>)
    ensures |r| <= |t|
    ensures r == [] || !InRun(r[0])
    ensures t != [] && InRun(t[0]) ==> |r| < |t|
  {
    if t == [] || !InRun(t[0]) then t else AfterRun(t[1..])
  }

  /** Second pass: a run that starts with a comma keeps its whitespace, and moves one comma to
      its end unless a closer follows. */
  function FixCommas(t: seq<byte>, inString: bool): seq<byte>
    decreases |t|
  {
    if t == [] then []
    else if inString then
      if t[0] == BACKSLASH && |t| > 1 then t[..2] + FixCommas(t[2..], true)
      else [t[0]] + FixCommas(t[1..], t[0] != QUOTE)
    else if t[0] == COMMA then
      var rest := AfterRun(t);
      Gap(t) + ((if rest != [] && IsCloser(rest[0]) then [] else [COMMA]) + FixCommas(rest, false))
    else [t[0]] + FixCommas(t[1..], t[0] == QUOTE)
  }

  /** The bytes the conversion yields. */
  function Convert(s: seq<byte>): seq<byte> {
    FixCommas(EraseComments(s, false), false)
  }

  // ---------------------------------------------------------------- the one-pass scanner

  function Latin1(bs: seq<byte>): (text: string)
    ensures |text| == |bs| && forall i :: 0 <= i < |bs| ==> text[i] == bs[i] as char
  {
    seq(|bs|, i requires 0 <= i < |bs| => bs[i] as char)
  }

  ghost function Pending(pendingComma: bool): seq<byte> {
    if pendingComma then [COMMA] else []
  }

  /** What the scanner still has to emit from index `i` on. */
  ghost function Todo(bytes: seq<byte>, i: nat, inString: bool, pendingComma: bool): seq<byte>
    requires i <= |bytes|
  {
    FixCommas(Pending(pendingComma) + EraseComments(bytes[i..], inString), inString)
  }

  lemma TodoInString(bytes: seq<byte>, i: nat)
    requires i < |bytes|
    ensures if bytes[i] == BACKSLASH && i + 1 < |bytes|
            then Todo(bytes, i, true, false) == [bytes[i], bytes[i + 1]] + Todo(bytes, i + 2, true, false)
            else Todo(bytes, i, true, false) == [bytes[i]] + Todo(bytes, i + 1, bytes[i] != QUOTE, false)
  {
    var s := bytes[i..];
    assert s[1..] == bytes[i + 1..];
    if bytes[i] == BACKSLASH && i + 1 < |bytes| {
      var t := EraseComments(bytes[i + 2..], true);
      assert s[2..] == bytes[i + 2..] && s[..2] == [bytes[i], bytes[i + 1]];
      assert [] + (s[..2] + t) == s[..2] + t && (s[..2] + t)[2..] == t && [] + t == t;
    } else {
      var t := EraseComments(bytes[i + 1..], bytes[i] != QUOTE);
      assert [] + ([s[0]] + t) == [s[0]] + t && ([s[0]] + t)[1..] == t && [] + t == t;
      if bytes[i] == BACKSLASH {
        assert bytes[i + 1..] == [] && t == [];
      }
    }
  }

  lemma TodoComment(bytes: seq<byte>, i: nat, j: nat, pendingComma: bool)
    requires i + 1 < |bytes| && bytes[i] == SLASH && j <= |bytes|
    requires || (bytes[i + 1] == SLASH && bytes[j..] == AfterLine(bytes[i..]))
             || (bytes[i + 1] == STAR && bytes[j..] == AfterBlock(bytes[i + 2..]))
    ensures i < j && Todo(bytes, i, false, pendingComma) == Todo(bytes, j, false, pendingComma)
  {
    var s := bytes[i..];
    assert s[2..] == bytes[i + 2..] && s[1..][1..] == s[2..];
    if bytes[i + 1] == SLASH {
      assert AfterLine(s) == AfterLine(s[1..]) == AfterLine(s[2..]);
    }
  }

  /** A byte outside strings that opens no comment, in the four ways the scanner treats it. */
  lemma TodoOutside(bytes: seq<byte>, i: nat, pendingComma: bool)
    requires i < |bytes|
    requires bytes[i] == SLASH && i + 1 < |bytes| ==> bytes[i + 1] != SLASH && bytes[i + 1] != STAR
    ensures
      var b := bytes[i];
      Todo(bytes, i, false, pendingComma) ==
        if b == COMMA then Todo(bytes, i + 1, false, true)
        else if IsCloser(b) then [b] + Todo(bytes, i + 1, false, false)
        else if IsWhitespace(b) then [b] + Todo(bytes, i + 1, false, pendingComma)
        else Pending(pendingComma) + [b] + Todo(bytes, i + 1, b == QUOTE, false)
  {
    var b, s := bytes[i], bytes[i..];
    assert s[1..] == bytes[i + 1..];
    var t := EraseComments(s[1..], b == QUOTE);
    assert EraseComments(s, false) == [b] + t;
    assert [] + t == t && [] + ([b] + t) == [b] + t;
    FixCommasStep(b, t, pendingComma);
  }

  lemma FixCommasStep(b: byte, t: seq<byte>, pendingComma: bool)
    ensures
      FixCommas(Pending(pendingComma) + ([b] + t), false) ==
        if b == COMMA then FixCommas([COMMA] + t, false)
        else if IsCloser(b) then [b] + FixCommas(t, false)
        else if IsWhitespace(b) then [b] + FixCommas(Pending(pendingComma) + t, false)
        else Pending(pendingComma) + [b] + FixCommas(t, b == QUOTE)
  {
    assert ([b] + t)[1..] == t;
    if !pendingComma {
      assert [] + t == t && [] + ([b] + t) == [b] + t;
    } else if InRun(b) {
      FixCommasInRun(b, t);
    } else {
      FixCommasOfRun([b] + t);
      assert Gap([b] + t) == [] && AfterRun([b] + t) == [b] + t;
      assert FixCommas([b] + t, false) == [b] + FixCommas(t, b == QUOTE);
    }
  }

  lemma FixCommasInRun(b: byte, t: seq<byte>)
    requires InRun(b)
    ensures FixCommas([COMMA] + ([b] + t), false) ==
            (if b == COMMA then [] else [b]) + FixCommas([COMMA] + t, false)
  {
    hide FixCommas, Gap, AfterRun;
    FixCommasOfRun([b] + t);
    FixCommasOfRun(t);
    ExtendRun(b, t);
    var rest := AfterRun(t);
    Assoc(if b == COMMA then [] else [b], Gap(t),
          (if rest != [] && IsCloser(rest[0]) then [] else [COMMA]) + FixCommas(rest, false));
  }

  lemma Assoc(a: seq<byte>, b: seq<byte>, c: seq<byte>)
    ensures a + (b + c) == (a + b) + c
  {
  }

  lemma ExtendRun(b: byte, t: seq<byte>)
    requires InRun(b)
    ensures AfterRun([b] + t) == AfterRun(t)
    ensures Gap([b] + t) == (if b == COMMA then [] else [b]) + Gap(t)
  {
    assert ([b] + t)[1..] == t;
  }

  lemma FixCommasOfRun(t: seq<byte>)
    ensures
      var rest := AfterRun(t);
      FixCommas([COMMA] + t, false) ==
        Gap(t) + ((if rest != [] && IsCloser(rest[0]) then [] else [COMMA]) + FixCommas(rest, false))
  {
    hide FixCommas, Gap, AfterRun;
    ExtendRun(COMMA, t);
    FixCommasUnfolds([COMMA] + t);
  }

  lemma FixCommasUnfolds(u: seq<byte>)
    requires u != [] && u[0] == COMMA
    ensures
      var rest := AfterRun(u);
      FixCommas(u, false) ==
        Gap(u) + ((if rest != [] && IsCloser(rest[0]) then [] else [COMMA]) + FixCommas(rest, false))
  {
    hide Gap, AfterRun;
  }

  lemma TodoAtEnds(bytes: seq<byte>, pendingComma: bool, inString: bool)
    ensures Todo(bytes, 0, false, false) == Convert(bytes)
    ensures inString ==> !pendingComma ==> Todo(bytes, |bytes|, inString, pendingComma) == []
    ensures !inString ==> Todo(bytes, |bytes|, inString, pendingComma) == Pending(pendingComma)
  {
    assert bytes[0..] == bytes && [] + EraseComments(bytes, false) == EraseComments(bytes, false);
    assert bytes[|bytes|..] == [];
    FixCommasOfRun([]);
  }

  method SkipLine(bytes: seq<byte>, start: nat) returns (i: nat)
    requires start <= |bytes|
    ensures start <= i <= |bytes| && bytes[i..] == AfterLine(bytes[start..])
  {
    i := start;
    while i < |bytes| && bytes[i] != NEWLINE
      invariant start <= i <= |bytes|
      invariant AfterLine(bytes[i..]) == AfterLine(bytes[start..])
    {
      assert bytes[i..][1..] == bytes[i + 1..];
      i := i + 1;
    }
  }

  method SkipBlock(bytes: seq<byte>, start: nat) returns (i: nat)
    requires start <= |bytes|
    ensures start <= i <= |bytes| && bytes[i..] == AfterBlock(bytes[start..])
  {
    i := start;
    while i + 1 < |bytes| && !(bytes[i] == STAR && bytes[i + 1] == SLASH)
      invariant start <= i <= |bytes|
      invariant AfterBlock(bytes[i..]) == AfterBlock(bytes[start..])
    {
      assert bytes[i..][1..] == bytes[i + 1..];
      i := i + 1;
    }
    if i + 1 < |bytes| {
      assert bytes[i..][2..] == bytes[i + 2..];
      i := i + 2;
    }
  }

  /** Emitting `more` keeps what is emitted and what is still to do in step. */
  lemma Emit(emitted: seq<byte>, more: seq<byte>, todo: seq<byte>)
    ensures emitted + (more + todo) == (emitted + more) + todo
    ensures Latin1(emitted + more) == Latin1(emitted) + Latin1(more)
    ensures |more| == 1 ==> Latin1(more) == [more[0] as char]
    ensures |more| == 2 ==> Latin1(more) == [more[0] as char, more[1] as char]
  {
  }

  /** `jsonc_to_json`: a single pass with two state bits. */
  method JsoncToJson(bytes: seq<byte>) returns (out: string)
    ensures out == Latin1(Convert(bytes))
  {
    hide EraseComments, FixCommas, AfterLine, AfterBlock, Todo, Latin1, Convert;
    out := "";
    ghost var emitted: seq<byte> := [];
    var i := 0;
    var pendingComma, inString := false, false;
    TodoAtEnds(bytes, false, false);
    while i < |bytes|
      invariant 0 <= i <= |bytes|
      invariant inString ==> !pendingComma
      invariant out == Latin1(emitted)
      invariant emitted + Todo(bytes, i, inString, pendingComma) == Convert(bytes)
      decreases |bytes| - i
    {
      var c := bytes[i];
      if inString {
        TodoInString(bytes, i);
        if pendingComma {
          out := out + ",";
          pendingComma := false;
        }
        if c == BACKSLASH && i + 1 < |bytes| {
          Emit(emitted, bytes[i..i + 2], Todo(bytes, i + 2, true, false));
          assert bytes[i..i + 2] == [c, bytes[i + 1]];
          out := out + [c as char, bytes[i + 1] as char];
          emitted := emitted + bytes[i..i + 2];
          i := i + 2;
          continue;
        }
        Emit(emitted, [c], Todo(bytes, i + 1, c != QUOTE, false));
        out := out + [c as char];
        emitted := emitted + [c];
        if c == QUOTE {
          inString := false;
        }
        i := i + 1;
        continue;
      }
      if c == SLASH && i + 1 < |bytes| && bytes[i + 1] == SLASH {
        var j := SkipLine(bytes, i);
        TodoComment(bytes, i, j, pendingComma);
        i := j;
      } else if c == SLASH && i + 1 < |bytes| && bytes[i + 1] == STAR {
        var j := SkipBlock(bytes, i + 2);
        TodoComment(bytes, i, j, pendingComma);
        i := j;
      } else {
        TodoOutside(bytes, i, pendingComma);
        if c == COMMA {
          pendingComma := true;
        } else if IsCloser(c) {
          Emit(emitted, [c], Todo(bytes, i + 1, false, false));
          pendingComma := false;
          out := out + [c as char];
          emitted := emitted + [c];
        } else if IsWhitespace(c) {
          Emit(emitted, [c], Todo(bytes, i + 1, false, pendingComma));
          out := out + [c as char];
          emitted := emitted + [c];
        } else {
          Emit(emitted, Pending(pendingComma) + [c], Todo(bytes, i + 1, c == QUOTE, false));
          emitted := emitted + (Pending(pendingComma) + [c]);
          if pendingComma {
            out := out + ",";
            pendingComma := false;
          }
          out := out + [c as char];
          inString := c == QUOTE;
        }
        i := i + 1;
      }
    }
    TodoAtEnds(bytes, pendingComma, inString);
    if pendingComma {
      Emit(emitted, [COMMA], []);
      out := out + ",";
      emitted := emitted + [COMMA];
    }
  }

  // ---------------------------------------------------------------- what a conversion leaves

  /** Text the scanner has nothing to do in: outside strings no comment opens, and a comma is
      followed by the token it separates (or by the end of the text). */
  predicate Clean(t: seq<byte>, inString: bool)
    decreases |t|
  {
    if t == [] then true
    else if inString then
      if t[0] == BACKSLASH && |t| > 1 then Clean(t[2..], true)
      else Clean(t[1..], t[0] != QUOTE)
    else
      && (t[0] == SLASH && |t| > 1 ==> t[1] != SLASH && t[1] != STAR)
      && (t[0] == COMMA && |t| > 1 ==> !InRun(t[1]) && !IsCloser(t[1]))
      && Clean(t[1..], t[0] == QUOTE)
  }

  /** `Clean` without the condition on commas. */
  predicate NoOpener(t: seq<byte>, inString: bool)
    decreases |t|
  {
    if t == [] then true
    else if inString then
      if t[0] == BACKSLASH && |t| > 1 then NoOpener(t[2..], true)
      else NoOpener(t[1..], t[0] != QUOTE)
    else
      && (t[0] == SLASH && |t| > 1 ==> t[1] != SLASH && t[1] != STAR)
      && NoOpener(t[1..], t[0] == QUOTE)
  }

  /** Erasing spans never creates a comment opener. */
  lemma {:induction false} ErasedHasNoOpener(s: seq<byte>, inString: bool)
    ensures NoOpener(EraseComments(s, inString), inString)
    decreases |s|
  {
    if s == [] {
    } else if inString {
      if s[0] == BACKSLASH && |s| > 1 {
        ErasedHasNoOpener(s[2..], true);
        assert (s[..2] + EraseComments(s[2..], true))[2..] == EraseComments(s[2..], true);
      } else {
        ErasedHasNoOpener(s[1..], s[0] != QUOTE);
        var t := EraseComments(s[1..], s[0] != QUOTE);
        assert ([s[0]] + t)[1..] == t;
        if s[0] == BACKSLASH { assert t == []; }
      }
    } else if s[0] == SLASH && |s| > 1 && s[1] == SLASH {
      ErasedHasNoOpener(AfterLine(s[2..]), false);
    } else if s[0] == SLASH && |s| > 1 && s[1] == STAR {
      ErasedHasNoOpener(AfterBlock(s[2..]), false);
    } else {
      ErasedHasNoOpener(s[1..], s[0] == QUOTE);
      var t := EraseComments(s[1..], s[0] == QUOTE);
      assert ([s[0]] + t)[1..] == t;
      if s[0] == SLASH && |s| > 1 { assert t[0] == s[1]; }
    }
  }

  lemma {:induction false} RunHasNoOpener(t: seq<byte>)
    requires NoOpener(t, false)
    ensures NoOpener(AfterRun(t), false)
  {
    if t != [] && InRun(t[0]) { RunHasNoOpener(t[1..]); }
  }

  lemma {:induction false} GapKeepsClean(t: seq<byte>, x: seq<byte>)
    requires Clean(x, false)
    ensures Clean(Gap(t) + x, false)
  {
    if t == [] || !InRun(t[0]) {
      assert Gap(t) + x == x;
    } else {
      GapKeepsClean(t[1..], x);
      if t[0] == COMMA {
        assert Gap(t) + x == Gap(t[1..]) + x;
      } else {
        assert Gap(t) + x == [t[0]] + (Gap(t[1..]) + x);
        assert ([t[0]] + (Gap(t[1..]) + x))[1..] == Gap(t[1..]) + x;
      }
    }
  }

  /** The second pass cleans comment-free text. */
  lemma {:induction false} FixedCommasAreClean(t: seq<byte>, inString: bool)
    requires NoOpener(t, inString)
    ensures Clean(FixCommas(t, inString), inString)
    decreases |t|
  {
    if t == [] {
    } else if inString {
      if t[0] == BACKSLASH && |t| > 1 {
        FixedCommasAreClean(t[2..], true);
        assert (t[..2] + FixCommas(t[2..], true))[2..] == FixCommas(t[2..], true);
      } else {
        FixedCommasAreClean(t[1..], t[0] != QUOTE);
        var u := FixCommas(t[1..], t[0] != QUOTE);
        assert ([t[0]] + u)[1..] == u;
        if t[0] == BACKSLASH { assert u == []; }
      }
    } else if t[0] == COMMA {
      RunHasNoOpener(t);
      var rest := AfterRun(t);
      FixedCommasAreClean(rest, false);
      var u := FixCommas(rest, false);
      if rest != [] && IsCloser(rest[0]) {
        GapKeepsClean(t, u);
        assert [] + u == u;
      } else {
        assert ([COMMA] + u)[1..] == u;
        if rest != [] { assert u[0] == rest[0]; }
        GapKeepsClean(t, [COMMA] + u);
      }
    } else {
      FixedCommasAreClean(t[1..], t[0] == QUOTE);
      var u := FixCommas(t[1..], t[0] == QUOTE);
      assert ([t[0]] + u)[1..] == u;
      if t[0] == SLASH && u != [] { FirstAfterFix(t[1..]); }
    }
  }

  lemma FirstAfterFix(t: seq<byte>)
    requires t != [] && FixCommas(t, false) != []
    ensures FixCommas(t, false)[0] == t[0] || t[0] == COMMA
    ensures t[0] == COMMA ==> var b := FixCommas(t, false)[0]; InRun(b) || IsCloser(b)
  {
    if t[0] == COMMA {
      GapIsBlank(t);
      var rest := AfterRun(t);
      if rest != [] && IsCloser(rest[0]) { assert FixCommas(rest, false)[0] == rest[0]; }
    }
  }

  lemma {:induction false} GapIsBlank(t: seq<byte>)
    ensures forall b <- Gap(t) :: IsWhitespace(b)
  {
    if t != [] && InRun(t[0]) { GapIsBlank(t[1..]); }
  }

  /** Neither pass touches clean text. */
  lemma {:induction false} CleanIsFixed(t: seq<byte>, inString: bool)
    requires Clean(t, inString)
    ensures EraseComments(t, inString) == t && FixCommas(t, inString) == t
    decreases |t|
  {
    if t == [] {
    } else if inString && t[0] == BACKSLASH && |t| > 1 {
      CleanIsFixed(t[2..], true);
      assert t == t[..2] + t[2..];
    } else {
      CleanIsFixed(t[1..], if inString then t[0] != QUOTE else t[0] == QUOTE);
      assert t == [t[0]] + t[1..];
      if !inString && t[0] == COMMA {
        assert AfterRun(t) == AfterRun(t[1..]) == t[1..] && Gap(t) == Gap(t[1..]) == [];
      }
    }
  }

  /** The fixed points of the conversion are exactly the clean texts, and one conversion reaches
      one: converting the bytes of a result again changes nothing. */
  lemma ConvertIsIdempotent(s: seq<byte>)
    ensures Clean(Convert(s), false)
    ensures Convert(Convert(s)) == Convert(s)
    ensures Convert(s) == s <==> Clean(s, false)
  {
    ErasedHasNoOpener(s, false);
    FixedCommasAreClean(EraseComments(s, false), false);
    CleanIsFixed(Convert(s), false);
    if Clean(s, false) { CleanIsFixed(s, false); }
  }

  // ---------------------------------------------------------------- string literals

  /** The bytes of the string literals outside comments, with their quotes, in order. */
  function StringBytes(s: seq<byte>, inString: bool): seq<byte>
    decreases |s|
  {
    if s == [] then []
    else if inString then
      if s[0] == BACKSLASH && |s| > 1 then s[..2] + StringBytes(s[2..], true)
      else [s[0]] + StringBytes(s[1..], s[0] != QUOTE)
    else if s[0] == SLASH && |s| > 1 && s[1] == SLASH then StringBytes(AfterLine(s[2..]), false)
    else if s[0] == SLASH && |s| > 1 && s[1] == STAR then StringBytes(AfterBlock(s[2..]), false)
    else if s[0] == QUOTE then [QUOTE] + StringBytes(s[1..], true)
    else StringBytes(s[1..], false)
  }

  lemma StringBytesEscape(a: seq<byte>, t: seq<byte>)
    requires |a| == 2 && a[0] == BACKSLASH
    ensures StringBytes(a + t, true) == a + StringBytes(t, true)
  {
    assert (a + t)[..2] == a && (a + t)[2..] == t;
  }

  lemma StringBytesInside(b: byte, t: seq<byte>)
    requires b == BACKSLASH ==> t == []
    ensures StringBytes([b] + t, true) == [b] + StringBytes(t, b != QUOTE)
  {
    assert ([b] + t)[1..] == t;
  }

  lemma StringBytesOutside(b: byte, t: seq<byte>)
    requires b == SLASH && t != [] ==> t[0] != SLASH && t[0] != STAR
    ensures StringBytes([b] + t, false) == (if b == QUOTE then [QUOTE] else []) + StringBytes(t, b == QUOTE)
  {
    assert ([b] + t)[1..] == t;
  }

  /** Erasing comments never moves a string boundary. */
  lemma {:induction false} ErasedKeepsStrings(s: seq<byte>, inString: bool)
    ensures StringBytes(EraseComments(s, inString), inString) == StringBytes(s, inString)
    decreases |s|
  {
    if s == [] {
    } else if inString {
      if s[0] == BACKSLASH && |s| > 1 {
        ErasedKeepsStrings(s[2..], true);
        StringBytesEscape(s[..2], EraseComments(s[2..], true));
      } else {
        ErasedKeepsStrings(s[1..], s[0] != QUOTE);
        StringBytesInside(s[0], EraseComments(s[1..], s[0] != QUOTE));
      }
    } else if s[0] == SLASH && |s| > 1 && s[1] == SLASH {
      ErasedKeepsStrings(AfterLine(s[2..]), false);
    } else if s[0] == SLASH && |s| > 1 && s[1] == STAR {
      ErasedKeepsStrings(AfterBlock(s[2..]), false);
    } else {
      ErasedKeepsStrings(s[1..], s[0] == QUOTE);
      ErasedHasNoOpener(s, false);
      var t := EraseComments(s[1..], s[0] == QUOTE);
      assert ([s[0]] + t)[1..] == t;
      StringBytesOutside(s[0], t);
    }
  }

  lemma {:induction false} RunHoldsNoString(t: seq<byte>)
    ensures StringBytes(t, false) == StringBytes(AfterRun(t), false)
  {
    if t != [] && InRun(t[0]) { RunHoldsNoString(t[1..]); }
  }

  lemma {:induction false} GapHoldsNoString(t: seq<byte>, x: seq<byte>)
    ensures StringBytes(Gap(t) + x, false) == StringBytes(x, false)
  {
    if t == [] || !InRun(t[0]) {
      assert Gap(t) + x == x;
    } else {
      GapHoldsNoString(t[1..], x);
      if t[0] == COMMA {
        assert Gap(t) + x == Gap(t[1..]) + x;
      } else {
        assert Gap(t) + x == [t[0]] + (Gap(t[1..]) + x);
        StringBytesOutside(t[0], Gap(t[1..]) + x);
      }
    }
  }

  /** Nor does moving commas. */
  lemma {:induction false} FixedCommasKeepStrings(t: seq<byte>, inString: bool)
    requires NoOpener(t, inString)
    ensures StringBytes(FixCommas(t, inString), inString) == StringBytes(t, inString)
    decreases |t|
  {
    if t == [] {
    } else if inString {
      if t[0] == BACKSLASH && |t| > 1 {
        FixedCommasKeepStrings(t[2..], true);
        StringBytesEscape(t[..2], FixCommas(t[2..], true));
      } else {
        FixedCommasKeepStrings(t[1..], t[0] != QUOTE);
        StringBytesInside(t[0], FixCommas(t[1..], t[0] != QUOTE));
      }
    } else if t[0] == COMMA {
      var rest := AfterRun(t);
      RunHasNoOpener(t);
      FixedCommasKeepStrings(rest, false);
      RunHoldsNoString(t);
      var u := FixCommas(rest, false);
      GapHoldsNoString(t, (if rest != [] && IsCloser(rest[0]) then [] else [COMMA]) + u);
      StringBytesOutside(COMMA, u);
      assert [] + u == u;
    } else {
      FixedCommasKeepStrings(t[1..], t[0] == QUOTE);
      FixedCommasAreClean(t, false);
      var u := FixCommas(t[1..], t[0] == QUOTE);
      assert ([t[0]] + u)[1..] == u;
      StringBytesOutside(t[0], u);
    }
  }

  /** Neither pass touches the bytes of a string literal: whatever looks like a comment or a
      trailing comma inside one stays, and no literal is lost, split or merged. What becomes of
      those bytes in the text is another matter. */
  lemma PassesKeepStrings(s: seq<byte>)
    ensures StringBytes(Convert(s), false) == StringBytes(s, false)
  {
    ErasedHasNoOpener(s, false);
    ErasedKeepsStrings(s, false);
    FixedCommasKeepStrings(EraseComments(s, false), false);
  }

  // ---------------------------------------------------------------- everything but commas

  function NonCommas(t: seq<byte>): seq<byte> {
    if t == [] then [] else (if t[0] == COMMA then [] else [t[0]]) + NonCommas(t[1..])
  }

  lemma {:induction false} NonCommasConcat(a: seq<byte>, b: seq<byte>)
    ensures NonCommas(a + b) == NonCommas(a) + NonCommas(b)
  {
    if a == [] {
      assert a + b == b;
    } else {
      NonCommasConcat(a[1..], b);
      assert (a + b)[1..] == a[1..] + b && (a + b)[0] == a[0];
      Assoc(if a[0] == COMMA then [] else [a[0]], NonCommas(a[1..]), NonCommas(b));
    }
  }

  lemma {:induction false} RunKeepsNonCommas(t: seq<byte>)
    ensures NonCommas(t) == NonCommas(Gap(t)) + NonCommas(AfterRun(t))
  {
    if t == [] || !InRun(t[0]) {
      assert [] + NonCommas(t) == NonCommas(t);
    } else {
      RunKeepsNonCommas(t[1..]);
      if t[0] == COMMA {
        assert NonCommas(t) == [] + NonCommas(t[1..]) == NonCommas(t[1..]);
        assert Gap(t) == [] + Gap(t[1..]) == Gap(t[1..]);
      } else {
        assert Gap(t)[1..] == Gap(t[1..]);
        Assoc([t[0]], NonCommas(Gap(t[1..])), NonCommas(AfterRun(t)));
      }
    }
  }

  /** The second pass drops, adds and moves nothing but commas. */
  lemma {:induction false} OnlyCommasChange(t: seq<byte>, inString: bool)
    ensures NonCommas(FixCommas(t, inString)) == NonCommas(t)
    decreases |t|
  {
    if t == [] {
    } else if inString && t[0] == BACKSLASH && |t| > 1 {
      OnlyCommasChange(t[2..], true);
      SamePrefix(t[..2], t[2..], FixCommas(t[2..], true));
      assert t == t[..2] + t[2..];
    } else if !inString && t[0] == COMMA {
      hide NonCommas;
      var rest := AfterRun(t);
      OnlyCommasChange(rest, false);
      RunKeepsNonCommas(t);
      MovedComma(Gap(t), rest != [] && IsCloser(rest[0]), FixCommas(rest, false));
    } else {
      var next := if inString then t[0] != QUOTE else t[0] == QUOTE;
      OnlyCommasChange(t[1..], next);
      SamePrefix([t[0]], t[1..], FixCommas(t[1..], next));
      assert t == [t[0]] + t[1..];
    }
  }

  lemma SamePrefix(prefix: seq<byte>, a: seq<byte>, b: seq<byte>)
    requires NonCommas(a) == NonCommas(b)
    ensures NonCommas(prefix + a) == NonCommas(prefix + b)
  {
    NonCommasConcat(prefix, a);
    NonCommasConcat(prefix, b);
  }

  lemma MovedComma(gap: seq<byte>, dropped: bool, rest: seq<byte>)
    ensures NonCommas(gap + ((if dropped then [] else [COMMA]) + rest)) == NonCommas(gap) + NonCommas(rest)
  {
    var comma: seq<byte> := if dropped then [] else [COMMA];
    NonCommasConcat(gap, comma + rest);
    NonCommasConcat(comma, rest);
    assert NonCommas(comma) == [] && [] + NonCommas(rest) == NonCommas(rest);
  }

  // ---------------------------------------------------------------- scanning the result text

  /** The UTF-8 bytes of a character below 256. */
  function Encoded(c: char): (r: seq<byte>)
    requires c as int < 256
    ensures c as int < 128 ==> r == [c as int as byte]
    ensures c as int >= 128 ==> |r| == 2 && r[0] >= 128 && r[1] >= 128
  {
    var n := c as int;
    if n < 128 then [n as byte] else [(192 + n / 64) as byte, (128 + n % 64) as byte]
  }

  function Utf8(text: string): seq<byte>
    requires forall i | 0 <= i < |text| :: text[i] as int < 256
  {
    if text == [] then [] else Encoded(text[0]) + Utf8(text[1..])
  }

  lemma Utf8First(t: seq<byte>)
    requires t != []
    ensures Utf8(Latin1(t)) == Encoded(t[0] as char) + Utf8(Latin1(t[1..]))
  {
    assert Latin1(t)[1..] == Latin1(t[1..]);
  }

  ghost predicate Ascii(t: seq<byte>) {
    forall i | 0 <= i < |t| :: t[i] < 128
  }

  /** Bytes beyond ASCII are never special. */
  lemma EncodedIsPlain(c: char, x: seq<byte>, inString: bool)
    requires 128 <= c as int < 256 && Clean(x, inString)
    ensures Clean(Encoded(c) + x, inString)
  {
    var w := Encoded(c) + x;
    assert w[1..] == [w[1]] + x && w[1..][1..] == x;
  }

  lemma EncodedEscape(c: char, x: seq<byte>)
    requires c as int < 256 && Clean(x, true)
    ensures Clean([BACKSLASH] + (Encoded(c) + x), true)
  {
    var w := [BACKSLASH] + (Encoded(c) + x);
    if c as int < 128 {
      assert w[2..] == x;
    } else {
      assert w[2..] == [w[2]] + x && w[2..][1..] == x;
    }
  }

  /** Reading a clean text's code points back as UTF-8 keeps it clean. */
  lemma {:induction false} Utf8KeepsClean(t: seq<byte>, inString: bool)
    requires Clean(t, inString)
    ensures Clean(Utf8(Latin1(t)), inString)
    decreases |t|
  {
    if t != [] {
      Utf8First(t);
      var w, x := Utf8(Latin1(t)), Utf8(Latin1(t[1..]));
      if |t| > 1 { Utf8First(t[1..]); }
      if t[0] >= 128 {
        Utf8KeepsClean(t[1..], inString);
        EncodedIsPlain(t[0] as char, x, inString);
      } else if inString && t[0] == BACKSLASH && |t| > 1 {
        Utf8KeepsClean(t[2..], true);
        assert t[1..][1..] == t[2..];
        EncodedEscape(t[1] as char, Utf8(Latin1(t[2..])));
      } else {
        Utf8KeepsClean(t[1..], if inString then t[0] != QUOTE else t[0] == QUOTE);
        assert w[1..] == x;
      }
    }
  }

  lemma {:induction false} Utf8Length(t: seq<byte>)
    ensures |Utf8(Latin1(t))| >= |t|
    ensures Ascii(t) <==> |Utf8(Latin1(t))| == |t|
    ensures Ascii(t) ==> Utf8(Latin1(t)) == t
  {
    if t != [] {
      Utf8First(t);
      Utf8Length(t[1..]);
      AsciiFirst(t);
      assert t == [t[0]] + t[1..];
    }
  }

  lemma AsciiFirst(t: seq<byte>)
    requires t != []
    ensures Ascii(t) <==> t[0] < 128 && Ascii(t[1..])
  {
    assert t == [t[0]] + t[1..];
  }

  lemma {:induction false} NonCommasAscii(t: seq<byte>)
    ensures Ascii(NonCommas(t)) <==> Ascii(t)
  {
    if t != [] {
      NonCommasAscii(t[1..]);
      AsciiFirst(t);
      if t[0] == COMMA {
        assert NonCommas(t) == NonCommas(t[1..]);
      } else {
        AsciiFirst(NonCommas(t));
        assert NonCommas(t)[1..] == NonCommas(t[1..]);
      }
    }
  }

  /** Scanning the text of a result again only re-encodes it, whatever the input. The text comes
      back unchanged exactly when no byte outside comments lies beyond ASCII: each such byte was
      turned into a character of its own, and grows to two. */
  lemma RescanText(s: seq<byte>)
    ensures
      var once := Latin1(Convert(s));
      var twice := Latin1(Convert(Utf8(once)));
      && Convert(Utf8(once)) == Utf8(once)
      && (twice == once <==> Ascii(EraseComments(s, false)))
  {
    var t := Convert(s);
    ConvertIsIdempotent(s);
    Utf8KeepsClean(t, false);
    CleanIsFixed(Utf8(Latin1(t)), false);
    Utf8Length(t);
    OnlyCommasChange(EraseComments(s, false), false);
    NonCommasAscii(t);
    NonCommasAscii(EraseComments(s, false));
  }

  /** The two bytes of `é` are two characters of the first result and four of the second. */
  lemma RescanGrows()
    ensures
      var once := Latin1(Convert([195, 169]));
      |once| == 2 && |Latin1(Convert(Utf8(once)))| == 4
  {
    var e: seq<byte> := [195, 169];
    assert e[1..] == [169] && e[1..][1..] == [];
    assert Clean(e, false);
    CleanIsFixed(e, false);
    RescanText(e);
    Utf8KeepsClean(e, false);
    CleanIsFixed(Utf8(Latin1(e)), false);
    Utf8First(e);
    Utf8First(e[1..]);
    assert Utf8(Latin1(e[1..][1..])) == [];
  }

  // ---------------------------------------------------------------- the strings of the text

  lemma StringBytesOfPlain(c: char, x: seq<byte>, inString: bool)
    requires 128 <= c as int < 256
    ensures StringBytes(Encoded(c) + x, inString) ==
      if inString then Encoded(c) + StringBytes(x, true) else StringBytes(x, false)
  {
    var e := Encoded(c);
    assert e + x == [e[0]] + ([e[1]] + x);
    if inString {
      StringBytesInsideAny(e[0], [e[1]] + x);
      StringBytesInsideAny(e[1], x);
      assert [e[0]] + ([e[1]] + StringBytes(x, true)) == e + StringBytes(x, true);
    } else {
      StringBytesOutside(e[0], [e[1]] + x);
      StringBytesOutside(e[1], x);
      assert [] + StringBytes(x, false) == StringBytes(x, false);
    }
  }

  lemma StringBytesInsideAny(b: byte, t: seq<byte>)
    requires b != BACKSLASH
    ensures StringBytes([b] + t, true) == [b] + StringBytes(t, b != QUOTE)
  {
    assert ([b] + t)[1..] == t;
  }

  lemma StringBytesOfEscape(c: char, x: seq<byte>)
    requires c as int < 256
    ensures StringBytes([BACKSLASH] + (Encoded(c) + x), true) == [BACKSLASH] + (Encoded(c) + StringBytes(x, true))
  {
    var e := Encoded(c);
    if |e| == 1 {
      assert [BACKSLASH] + (e + x) == [BACKSLASH, e[0]] + x;
      StringBytesEscape([BACKSLASH, e[0]], x);
    } else {
      assert [BACKSLASH] + (e + x) == [BACKSLASH, e[0]] + ([e[1]] + x);
      StringBytesEscape([BACKSLASH, e[0]], [e[1]] + x);
      StringBytesInsideAny(e[1], x);
      assert [BACKSLASH, e[0]] + ([e[1]] + StringBytes(x, true)) == [BACKSLASH] + (e + StringBytes(x, true));
    }
  }

  lemma Utf8Prepend(b: byte, t: seq<byte>)
    ensures Utf8(Latin1([b] + t)) == Encoded(b as char) + Utf8(Latin1(t))
  {
    Utf8First([b] + t);
    assert ([b] + t)[1..] == t;
  }

  lemma StringBytesOfPair(c: byte, x: seq<byte>)
    ensures StringBytes([BACKSLASH] + ([c] + x), true) == [BACKSLASH] + ([c] + StringBytes(x, true))
  {
    assert [BACKSLASH] + ([c] + x) == [BACKSLASH, c] + x;
    StringBytesEscape([BACKSLASH, c], x);
    assert [BACKSLASH, c] + StringBytes(x, true) == [BACKSLASH] + ([c] + StringBytes(x, true));
  }

  lemma Utf8OfPair(c: byte, x: seq<byte>)
    ensures Utf8(Latin1([BACKSLASH] + ([c] + x))) == [BACKSLASH] + (Encoded(c as char) + Utf8(Latin1(x)))
  {
    Utf8Prepend(BACKSLASH, [c] + x);
    Utf8Prepend(c, x);
    hide Utf8, Latin1;
  }

  lemma EscapeOfUtf8(c: byte, x: seq<byte>)
    requires StringBytes(Utf8(Latin1(x)), true) == Utf8(Latin1(StringBytes(x, true)))
    ensures
      var t := [BACKSLASH] + ([c] + x);
      StringBytes(Utf8(Latin1(t)), true) == Utf8(Latin1(StringBytes(t, true)))
  {
    hide StringBytes, Utf8, Encoded, Latin1;
    StringBytesOfPair(c, x);
    Utf8OfPair(c, x);
    StringBytesOfEscape(c as char, Utf8(Latin1(x)));
    Utf8OfPair(c, StringBytes(x, true));
  }

  /** Reading text back as UTF-8 re-encodes its literals and moves no boundary. */
  lemma {:induction false} StringBytesOfUtf8(t: seq<byte>, inString: bool)
    requires NoOpener(t, inString)
    ensures StringBytes(Utf8(Latin1(t)), inString) == Utf8(Latin1(StringBytes(t, inString)))
    decreases |t|
  {
    hide Encoded;
    if t != [] {
      var b, rest := t[0], t[1..];
      if inString && b == BACKSLASH && |t| > 1 {
        StringBytesOfUtf8(t[2..], true);
        EscapeOfUtf8(t[1], t[2..]);
        assert t == [BACKSLASH] + ([t[1]] + t[2..]);
      } else {
        StringBytesOfUtf8(rest, if b >= 128 then inString else if inString then b != QUOTE else b == QUOTE);
        assert t == [b] + rest;
        if b >= 128 { PlainOfUtf8(b, rest, inString); }
        else if inString { InsideOfUtf8(b, rest); }
        else { OutsideOfUtf8(b, rest); }
      }
    }
  }

  lemma PlainOfUtf8(b: byte, x: seq<byte>, inString: bool)
    requires b >= 128 && StringBytes(Utf8(Latin1(x)), inString) == Utf8(Latin1(StringBytes(x, inString)))
    ensures StringBytes(Utf8(Latin1([b] + x)), inString) == Utf8(Latin1(StringBytes([b] + x, inString)))
  {
    Utf8Prepend(b, x);
    StringBytesOfPlain(b as char, Utf8(Latin1(x)), inString);
    if inString {
      StringBytesInsideAny(b, x);
      Utf8Prepend(b, StringBytes(x, true));
    } else {
      StringBytesOutside(b, x);
      assert [] + StringBytes(x, false) == StringBytes(x, false);
    }
    hide StringBytes, Utf8, Latin1, Encoded;
  }

  lemma InsideOfUtf8(b: byte, x: seq<byte>)
    requires b < 128 && (b == BACKSLASH ==> x == [])
    requires StringBytes(Utf8(Latin1(x)), b != QUOTE) == Utf8(Latin1(StringBytes(x, b != QUOTE)))
    ensures StringBytes(Utf8(Latin1([b] + x)), true) == Utf8(Latin1(StringBytes([b] + x, true)))
  {
    Utf8Prepend(b, x);
    StringBytesInside(b, x);
    StringBytesInside(b, Utf8(Latin1(x)));
    Utf8Prepend(b, StringBytes(x, b != QUOTE));
    hide StringBytes, Utf8, Latin1;
  }

  lemma FirstOfUtf8(x: seq<byte>)
    requires x != []
    ensures Utf8(Latin1(x)) != [] && (Utf8(Latin1(x))[0] == x[0] || Utf8(Latin1(x))[0] >= 128)
  {
    Utf8First(x);
  }

  lemma OutsideOfUtf8(b: byte, x: seq<byte>)
    requires b < 128 && (b == SLASH && x != [] ==> x[0] != SLASH && x[0] != STAR)
    requires StringBytes(Utf8(Latin1(x)), b == QUOTE) == Utf8(Latin1(StringBytes(x, b == QUOTE)))
    ensures StringBytes(Utf8(Latin1([b] + x)), false) == Utf8(Latin1(StringBytes([b] + x, false)))
  {
    Utf8Prepend(b, x);
    EmptyUtf8();
    hide StringBytes, Utf8, Latin1;
    if x != [] { FirstOfUtf8(x); }
    StringBytesOutside(b, x);
    StringBytesOutside(b, Utf8(Latin1(x)));
    if b == QUOTE {
      Utf8Prepend(QUOTE, StringBytes(x, true));
    } else {
      assert [] + StringBytes(x, false) == StringBytes(x, false);
      assert [] + Utf8(Latin1(StringBytes(x, false))) == Utf8(Latin1(StringBytes(x, false)));
    }
  }

  lemma EmptyUtf8()
    ensures Utf8(Latin1([])) == []
  {
  }

  /** The string literals of the text that a conversion yields are those of the input with every
      byte beyond ASCII turned into a character of its own: they survive exactly when they are
      ASCII, however the rest of the input looks. */
  lemma StringsSurvive(s: seq<byte>)
    ensures
      var text := Utf8(Latin1(Convert(s)));
      && StringBytes(text, false) == Utf8(Latin1(StringBytes(s, false)))
      && (StringBytes(text, false) == StringBytes(s, false) <==> Ascii(StringBytes(s, false)))
  {
    PassesKeepStrings(s);
    ConvertIsIdempotent(s);
    CleanHasNoOpener(Convert(s), false);
    StringBytesOfUtf8(Convert(s), false);
    Utf8Length(StringBytes(s, false));
  }

  lemma {:induction false} CleanHasNoOpener(t: seq<byte>, inString: bool)
    requires Clean(t, inString)
    ensures NoOpener(t, inString)
    decreases |t|
  {
    if t == [] {
    } else if inString && t[0] == BACKSLASH && |t| > 1 {
      CleanHasNoOpener(t[2..], true);
    } else {
      CleanHasNoOpener(t[1..], if inString then t[0] != QUOTE else t[0] == QUOTE);
    }
  }

  lemma ShortLiteral(b: byte, c: byte)
    requires b != QUOTE && b != BACKSLASH && c != QUOTE && c != BACKSLASH
    ensures StringBytes([QUOTE, b, c, QUOTE], false) == [QUOTE, b, c, QUOTE]
  {
    StringBytesInsideAny(QUOTE, []);
    assert [QUOTE] + [] == [QUOTE];
    StringBytesInsideAny(c, [QUOTE]);
    assert [c] + [QUOTE] == [c, QUOTE];
    StringBytesInsideAny(b, [c, QUOTE]);
    assert [b] + [c, QUOTE] == [b, c, QUOTE];
    assert [QUOTE, b, c, QUOTE][1..] == [b, c, QUOTE];
  }

  lemma Utf8OfFour(a: byte, b: byte, c: byte, d: byte)
    ensures Utf8(Latin1([a, b, c, d])) ==
      Encoded(a as char) + (Encoded(b as char) + (Encoded(c as char) + (Encoded(d as char) + [])))
  {
    hide Encoded;
    assert [a, b, c, d] == [a] + [b, c, d] && [b, c, d] == [b] + [c, d] && [c, d] == [c] + [d] && [d] == [d] + [];
    Utf8Prepend(a, [b, c, d]);
    Utf8Prepend(b, [c, d]);
    Utf8Prepend(c, [d]);
    Utf8Prepend(d, []);
  }

  /** The literal `"é"` comes out as `"Ã©"`. */
  lemma AccentChanges()
    ensures
      var s: seq<byte> := [QUOTE, 195, 169, QUOTE];
      StringBytes(s, false) == s && StringBytes(Utf8(Latin1(Convert(s))), false) == [QUOTE, 195, 131, 194, 169, QUOTE]
  {
    hide StringBytes, Convert, Utf8, Latin1;
    ShortLiteral(195, 169);
    StringsSurvive([QUOTE, 195, 169, QUOTE]);
    Utf8OfFour(QUOTE, 195, 169, QUOTE);
  }
}
