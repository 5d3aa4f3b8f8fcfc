/** Text encodings: the four glyph scanners and the search for ASCII characters
    that is built on them (include/pqxx/internal/encodings.hxx). */
module Encodings {
  import opened Wrappers

  type Byte = b: int | 0 <= b < 256
  type Bytes = seq<Byte>

  /** The encoding groups that have a scanner.  The group "unknown" has none:
      asking for its finder is an error before any text is read. */
  datatype EncodingGroup = AsciiSafe | TwoTier | Gb18030 | Sjis

  datatype EncodingError = Truncated | Malformed

  predicate IsAscii(b: Byte) {
    b < 0x80
  }

  /** Offset just past the glyph that starts at `start`. */
  function GlyphEnd(enc: EncodingGroup, buffer: Bytes, start: nat): (r: Result<nat, EncodingError>)
    requires start < |buffer|
    ensures r.Success? ==> start < r.value <= |buffer|
    ensures IsAscii(buffer[start]) ==> r == Success(start + 1)
  {
    var byte1 := buffer[start];
    match enc
    case AsciiSafe =>
      Success(start + 1)
    case TwoTier =>
      if byte1 < 0x80 then Success(start + 1)
      else if start + 2 <= |buffer| then Success(start + 2)
      else Failure(Truncated)
    case Gb18030 =>
      if byte1 < 0x80 then Success(start + 1)
      else if byte1 == 0x80 then Failure(Malformed)
      else if start + 2 > |buffer| then Failure(Truncated)
      else
        var byte2 := buffer[start + 1];
        if 0x40 <= byte2 <= 0xfe then
          if byte2 == 0x7f then Failure(Malformed) else Success(start + 2)
        else if start + 4 > |buffer| then Failure(Truncated)
        else if && 0x30 <= byte2 <= 0x39
                && 0x81 <= buffer[start + 2] <= 0xfe
                && 0x30 <= buffer[start + 3] <= 0x39
        then Success(start + 4)
        else Failure(Malformed)
    case Sjis =>
      if byte1 < 0x80 then Success(start + 1)
      else if 0xa1 <= byte1 <= 0xdf then Success(start + 1)
      else if !(0x81 <= byte1 <= 0x9f) && !(0xe0 <= byte1 <= 0xfc) then Failure(Malformed)
      else if start + 2 > |buffer| then Failure(Truncated)
      else Success(start + 2)
  }

  /** `g` is exactly one glyph. */
  predicate IsGlyph(enc: EncodingGroup, g: Bytes) {
    g != [] && GlyphEnd(enc, g, 0) == Success(|g|)
  }

  /** Which strings of bytes are one character, group by group. */
  predicate IsCharacter(enc: EncodingGroup, g: Bytes) {
    match enc
    case AsciiSafe => |g| == 1
    case TwoTier => (|g| == 1 && g[0] <= 0x7f) || (|g| == 2 && g[0] >= 0x80)
    case Gb18030 =>
      || (|g| == 1 && g[0] <= 0x7f)
      || (|g| == 2 && g[0] >= 0x81 && (0x40 <= g[1] <= 0x7e || 0x80 <= g[1] <= 0xfe))
      || (&& |g| == 4 && g[0] >= 0x81 && 0x30 <= g[1] <= 0x39
          && 0x81 <= g[2] <= 0xfe && 0x30 <= g[3] <= 0x39)
    case Sjis =>
      || (|g| == 1 && (g[0] <= 0x7f || 0xa1 <= g[0] <= 0xdf))
      || (|g| == 2 && (0x81 <= g[0] <= 0x9f || 0xe0 <= g[0] <= 0xfc))
  }

  /** The scanner finds the end of a character wherever one starts, and only there;
      and it never matters what comes behind it. */
  lemma ScannerExactly(enc: EncodingGroup, s: Bytes, start: nat, end: nat)
    requires start < end <= |s|
    ensures GlyphEnd(enc, s, start) == Success(end) <==> IsCharacter(enc, s[start..end])
    ensures IsGlyph(enc, s[start..end]) <==> IsCharacter(enc, s[start..end])
  {
    var g := s[start..end];
    assert g[0] == s[start];
    if |g| >= 2 {
      assert g[1] == s[start + 1];
    }
    if |g| >= 4 {
      assert g[2] == s[start + 2] && g[3] == s[start + 3];
    }
  }

  predicate AllGlyphs(enc: EncodingGroup, gs: seq<Bytes>) {
    forall i :: 0 <= i < |gs| ==> IsGlyph(enc, gs[i])
  }

  function Flatten(gs: seq<Bytes>): Bytes {
    if gs == [] then [] else gs[0] + Flatten(gs[1..])
  }

  lemma FlattenOne(g: Bytes)
    ensures Flatten([g]) == g
  {
    assert [g][1..] == [];
  }

  lemma {:induction false} FlattenConcat(a: seq<Bytes>, b: seq<Bytes>)
    ensures Flatten(a + b) == Flatten(a) + Flatten(b)
  {
    if a == [] {
      assert a + b == b;
    } else {
      assert (a + b)[1..] == a[1..] + b;
      FlattenConcat(a[1..], b);
    }
  }

  /** A glyph's end depends on nothing before the glyph. */
  lemma GlyphSuffix(enc: EncodingGroup, s: Bytes, i: nat)
    requires i < |s|
    ensures var r := GlyphEnd(enc, s[i..], 0);
            GlyphEnd(enc, s, i) == if r.Success? then Success(i + r.value) else r
  {
    assert s[i..][0] == s[i];
    if i + 1 < |s| {
      assert s[i..][1] == s[i + 1];
    }
    if i + 3 < |s| {
      assert s[i..][2] == s[i + 2];
      assert s[i..][3] == s[i + 3];
    }
  }

  /** ... and on nothing after it. */
  lemma GlyphPrefix(enc: EncodingGroup, g: Bytes, rest: Bytes)
    requires IsGlyph(enc, g)
    ensures GlyphEnd(enc, g + rest, 0) == Success(|g|)
  {
    var s := g + rest;
    assert s[0] == g[0];
    if |g| >= 2 {
      assert s[1] == g[1];
    }
    if |g| >= 4 {
      assert s[2] == g[2] && s[3] == g[3];
    }
  }

  /** What the scanner steps over is itself a glyph. */
  lemma GlyphAt(enc: EncodingGroup, s: Bytes, i: nat)
    requires i < |s| && GlyphEnd(enc, s, i).Success?
    ensures IsGlyph(enc, s[i..GlyphEnd(enc, s, i).value])
  {
    var j := GlyphEnd(enc, s, i).value;
    var g := s[i..j];
    assert g[0] == s[i];
    if i + 1 < j {
      assert g[1] == s[i + 1];
    }
    if i + 3 < j {
      assert g[2] == s[i + 2] && g[3] == s[i + 3];
    }
  }

  /** The glyph that comes next, in a text of which some part has been read. */
  lemma NextGlyph(enc: EncodingGroup, done: Bytes, g: Bytes, rest: Bytes)
    requires IsGlyph(enc, g)
    ensures var s := done + (g + rest);
            && GlyphEnd(enc, s, |done|) == Success(|done + g|)
            && s[|done|] == g[0]
            && s == (done + g) + rest
  {
    hide GlyphEnd;
    var s := done + (g + rest);
    GlyphPrefix(enc, g, rest);
    GlyphSuffix(enc, s, |done|);
    assert s[|done|..] == g + rest;
  }

  /** An ASCII byte that starts a glyph is the whole glyph. */
  lemma AsciiGlyph(enc: EncodingGroup, g: Bytes)
    requires IsGlyph(enc, g) && IsAscii(g[0])
    ensures |g| == 1
  {
  }

  /** Cut a text into its glyphs. */
  function Split(enc: EncodingGroup, s: Bytes): (r: Result<seq<Bytes>, EncodingError>)
    ensures r.Success? ==> AllGlyphs(enc, r.value) && Flatten(r.value) == s
    decreases |s|
  {
    if s == [] then Success([])
    else
      var next :- GlyphEnd(enc, s, 0);
      var rest :- Split(enc, s[next..]);
      GlyphAt(enc, s, 0);
      var gs := [s[..next]] + rest;
      assert gs[1..] == rest;
      assert s == s[..next] + s[next..];
      Success(gs)
  }

  /** The first glyph of a text comes off first. */
  lemma SplitGlyph(enc: EncodingGroup, g: Bytes, rest: Bytes)
    requires IsGlyph(enc, g)
    ensures var r := Split(enc, rest);
            Split(enc, g + rest) == if r.Success? then Success([g] + r.value) else r
  {
    hide GlyphEnd;
    GlyphPrefix(enc, g, rest);
    var s := g + rest;
    assert s[|g|..] == rest && s[..|g|] == g;
  }

  /** The cut is unique: a text is one sequence of glyphs and no other. */
  lemma {:induction false} SplitFlatten(enc: EncodingGroup, gs: seq<Bytes>)
    requires AllGlyphs(enc, gs)
    ensures Split(enc, Flatten(gs)) == Success(gs)
  {
    if gs == [] {
    } else {
      hide GlyphEnd, Split;
      SplitFlatten(enc, gs[1..]);
      SplitGlyph(enc, gs[0], Flatten(gs[1..]));
      assert gs == [gs[0]] + gs[1..];
    }
  }

  // ---- Searching --------------------------------------------------------

  predicate AsciiNeedles(needles: set<Byte>) {
    forall b :: b in needles ==> IsAscii(b)
  }

  /** What a search from `here` finds, one glyph at a time: the offset of the
      first glyph that is one of the needles, or the size of the text. */
  function Find(enc: EncodingGroup, needles: set<Byte>, s: Bytes, here: nat): (r: Result<nat, EncodingError>)
    requires here <= |s|
    ensures r.Success? ==> here <= r.value <= |s|
    ensures r.Success? && r.value < |s| ==> s[r.value] in needles
    decreases |s| - here
  {
    if here == |s| then Success(|s|)
    else
      var next :- GlyphEnd(enc, s, here);
      if s[here] in needles then Success(here) else Find(enc, needles, s, next)
  }

  /** The finder itself. */
  method FindAsciiChar(enc: EncodingGroup, needles: set<Byte>, haystack: Bytes, start: nat)
    returns (r: Result<nat, EncodingError>)
    requires start <= |haystack|
    ensures r == Find(enc, needles, haystack, start)
  {
    var here := start;
    while here < |haystack|
      invariant start <= here <= |haystack|
      invariant Find(enc, needles, haystack, here) == Find(enc, needles, haystack, start)
    {
      var next := GlyphEnd(enc, haystack, here);
      if next.Failure? {
        return Failure(next.error);
      }
      if haystack[here] in needles {
        return Success(here);
      }
      here := next.value;
    }
    return Success(|haystack|);
  }

  /** A hit depends on nothing behind it. */
  lemma {:induction false} FindInPrefix(enc: EncodingGroup, needles: set<Byte>, s: Bytes, t: Bytes, i: nat)
    requires i <= |s| && AsciiNeedles(needles)
    requires var r := Find(enc, needles, s, i); r.Success? && r.value < |t| <= |s| && t <= s
    ensures Find(enc, needles, t, i) == Find(enc, needles, s, i)
    decreases |s| - i
  {
    hide GlyphEnd;
    var next := GlyphEnd(enc, s, i);
    if s[i] in needles {
      assert t[i] == s[i];
    } else {
      GlyphInPrefix(enc, s, t, i);
      FindInPrefix(enc, needles, s, t, next.value);
    }
  }

  lemma GlyphInPrefix(enc: EncodingGroup, s: Bytes, t: Bytes, i: nat)
    requires i < |t| <= |s| && t <= s
    requires var r := GlyphEnd(enc, s, i); r.Success? && r.value <= |t|
    ensures GlyphEnd(enc, t, i) == GlyphEnd(enc, s, i)
  {
  }

  /** Index of the first glyph that is a needle, or the number of glyphs. */
  function FirstHit(needles: set<Byte>, gs: seq<Bytes>): (k: nat)
    requires forall i :: 0 <= i < |gs| ==> gs[i] != []
    ensures k <= |gs|
    ensures forall i :: 0 <= i < k ==> gs[i][0] !in needles
    ensures k < |gs| ==> gs[k][0] in needles
  {
    if gs == [] then 0
    else if gs[0][0] in needles then 0
    else 1 + FirstHit(needles, gs[1..])
  }

  /** On a well-formed text a search never fails and stops exactly at the first
      glyph that is a needle; bytes inside longer glyphs are never hits. */
  lemma {:induction false} FindStopsAtFirstHit(
    enc: EncodingGroup, needles: set<Byte>, done: Bytes, gs: seq<Bytes>)
    requires AllGlyphs(enc, gs)
    ensures Find(enc, needles, done + Flatten(gs), |done|)
            == Success(|done| + |Flatten(gs[..FirstHit(needles, gs)])|)
    decreases |gs|
  {
    hide GlyphEnd;
    var s := done + Flatten(gs);
    if gs == [] {
      assert gs[..0] == [];
    } else {
      NextGlyph(enc, done, gs[0], Flatten(gs[1..]));
      var k := FirstHit(needles, gs);
      if k == 0 {
        assert gs[..0] == [];
      } else {
        var k' := FirstHit(needles, gs[1..]);
        var done' := done + gs[0];
        FindStopsAtFirstHit(enc, needles, done', gs[1..]);
        assert gs[..k][1..] == gs[1..][..k'];
        assert gs[..k][0] == gs[0];
      }
    }
  }

  // ---- Texts that are written in pieces ---------------------------------

  /** What was written so far, in front of what the rest gives. */
  function Prepend(a: Bytes, r: Result<Bytes, EncodingError>): Result<Bytes, EncodingError> {
    if r.Success? then Success(a + r.value) else r
  }

  lemma Assoc(a: Bytes, b: Bytes, c: Bytes)
    ensures a + b + c == a + (b + c)
    ensures a + [] == a
  {
  }

  lemma PrependFailure(a: Bytes, e: EncodingError)
    ensures Prepend(a, Failure(e)) == Failure(e)
  {
  }

  lemma PrependNothing(r: Result<Bytes, EncodingError>)
    ensures Prepend([], r) == r
  {
    if r.Success? {
      assert [] + r.value == r.value;
    }
  }

  lemma PrependTwice(a: Bytes, b: Bytes, r: Result<Bytes, EncodingError>)
    ensures Prepend(a, Prepend(b, r)) == Prepend(a + b, r)
  {
    if r.Success? {
      assert a + (b + r.value) == a + b + r.value;
    }
  }
}
