/** Trimming a cursor's query (find_query_end in src/sql_cursor.cxx). */
module QueryEnd {
  import opened Wrappers
  import opened Encodings

  /** Space, tab, newline, carriage return and semicolon. */
  const Useless: set<Byte> := {32, 9, 10, 13, 59}

  /** How many glyphs there are up to and including the last useful one.  The
      contract determines the number. */
  function UsefulCount(gs: seq<Bytes>): (k: nat)
    requires forall i :: 0 <= i < |gs| ==> gs[i] != []
    ensures k <= |gs|
    ensures k > 0 ==> gs[k - 1][0] !in Useless
    ensures forall i :: k <= i < |gs| ==> gs[i][0] in Useless
  {
    if gs == [] then 0
    else
      var k := UsefulCount(gs[1..]);
      assert forall i :: 1 <= i < |gs| ==> gs[i] == gs[1..][i - 1];
      if k > 0 then k + 1 else if gs[0][0] in Useless then 0 else 1
  }

  /** Where the query ends: after its last useful glyph. */
  function QueryEnd(enc: EncodingGroup, query: Bytes): Result<nat, EncodingError> {
    var gs :- Split(enc, query);
    Success(|Flatten(gs[..UsefulCount(gs)])|)
  }

  /** A space, tab, newline, carriage return or semicolon. */
  predicate IsBlankOrSemicolon(g: Bytes) {
    |g| == 1 && (g[0] == 0x20 || g[0] == 0x09 || g[0] == 0x0a || g[0] == 0x0d || g[0] == 0x3b)
  }

  lemma BlankGlyph(enc: EncodingGroup, g: Bytes)
    requires IsGlyph(enc, g)
    ensures IsBlankOrSemicolon(g) <==> g[0] in Useless
  {
    if IsAscii(g[0]) {
      AsciiGlyph(enc, g);
    }
  }

  /** What is cut off is blanks and semicolons, and what is left does not end in
      one.  That settles where the cut is. */
  lemma QueryEndExactly(enc: EncodingGroup, query: Bytes, k: nat)
    requires Split(enc, query).Success? && k <= |Split(enc, query).value|
    ensures var gs := Split(enc, query).value;
            (k == 0 || !IsBlankOrSemicolon(gs[k - 1])) && (forall i :: k <= i < |gs| ==> IsBlankOrSemicolon(gs[i]))
            <==> QueryEnd(enc, query) == Success(|Flatten(gs[..k])|)
  {
    hide Split, GlyphEnd, Flatten, UsefulCount, IsBlankOrSemicolon;
    var gs := Split(enc, query).value;
    var n := UsefulCount(gs);
    forall i | 0 <= i < |gs|
      ensures IsBlankOrSemicolon(gs[i]) <==> gs[i][0] in Useless
    {
      BlankGlyph(enc, gs[i]);
    }
    if k < n {
      LongerFlatten(enc, gs, k, n);
    } else if n < k {
      LongerFlatten(enc, gs, n, k);
    }
  }

  lemma LongerFlatten(enc: EncodingGroup, gs: seq<Bytes>, i: nat, j: nat)
    requires AllGlyphs(enc, gs) && i < j <= |gs|
    ensures |Flatten(gs[..i])| < |Flatten(gs[..j])|
  {
    assert gs[..j] == gs[..i] + gs[i..j];
    FlattenConcat(gs[..i], gs[i..j]);
  }

  /** The forward scan, one glyph at a time, from offset `i` with marker `end`. */
  function EndFrom(enc: EncodingGroup, s: Bytes, i: nat, end: nat): Result<nat, EncodingError>
    decreases |s| - i
  {
    if i >= |s| then Success(end)
    else
      var next :- GlyphEnd(enc, s, i);
      EndFrom(enc, s, next, if s[i] in Useless then end else next)
  }

  /** Jumping from one useless character to the next leaves the same marker. */
  lemma {:induction false} EndFromSkip(enc: EncodingGroup, s: Bytes, i: nat, end: nat)
    requires i <= |s|
    ensures var stop := Find(enc, Useless, s, i);
            EndFrom(enc, s, i, end) == if stop.Failure? then Failure(stop.error)
                                       else EndFrom(enc, s, stop.value + 1, if stop.value > i then stop.value else end)
    decreases |s| - i
  {
    if i < |s| && s[i] !in Useless {
      var next := GlyphEnd(enc, s, i);
      if next.Success? {
        EndFromSkip(enc, s, next.value, next.value);
      }
    } else if i < |s| {
      assert IsAscii(s[i]);
    }
  }

  lemma {:induction false} EndFromGlyphs(enc: EncodingGroup, done: Bytes, gs: seq<Bytes>, end: nat)
    requires AllGlyphs(enc, gs)
    ensures var k := UsefulCount(gs);
            EndFrom(enc, done + Flatten(gs), |done|, end)
            == Success(if k == 0 then end else |done| + |Flatten(gs[..k])|)
    decreases |gs|
  {
    hide GlyphEnd;
    var s := done + Flatten(gs);
    if gs != [] {
      NextGlyph(enc, done, gs[0], Flatten(gs[1..]));
      var done' := done + gs[0];
      EndFromGlyphs(enc, done', gs[1..], if gs[0][0] in Useless then end else |done'|);
      var k, k' := UsefulCount(gs), UsefulCount(gs[1..]);
      if k > 0 {
        assert gs[..k][0] == gs[0] && gs[..k][1..] == gs[1..][..k - 1];
      }
      if k' == 0 && k > 0 {
        assert gs[1..][..0] == [];
      }
    }
  }

  /** A scan fails exactly where cutting the text into glyphs fails. */
  lemma {:induction false} EndFromFails(enc: EncodingGroup, s: Bytes, i: nat, end: nat)
    requires i <= |s| && Split(enc, s[i..]).Failure?
    ensures EndFrom(enc, s, i, end) == Failure(Split(enc, s[i..]).error)
    decreases |s| - i
  {
    GlyphSuffix(enc, s, i);
    var next := GlyphEnd(enc, s, i);
    if next.Success? {
      assert s[i..][next.value - i..] == s[next.value..];
      EndFromFails(enc, s, next.value, if s[i] in Useless then end else next.value);
    }
  }

  lemma EndFromIsQueryEnd(enc: EncodingGroup, query: Bytes)
    ensures EndFrom(enc, query, 0, 0) == QueryEnd(enc, query)
  {
    var gs := Split(enc, query);
    assert query[0..] == query;
    if gs.Success? {
      EndFromGlyphs(enc, [], gs.value, 0);
      assert [] + Flatten(gs.value) == query;
      assert gs.value[..0] == [];
    } else {
      EndFromFails(enc, query, 0, 0);
    }
  }

  /** The scan for complex encodings. */
  method ScanForwards(enc: EncodingGroup, query: Bytes) returns (r: Result<nat, EncodingError>)
    ensures r == QueryEnd(enc, query)
  {
    hide GlyphEnd;
    EndFromIsQueryEnd(enc, query);
    var end: nat, here: nat := 0, 0;
    while here < |query|
      invariant 0 <= here <= |query| + 1
      invariant EndFrom(enc, query, here, end) == QueryEnd(enc, query)
    {
      EndFromSkip(enc, query, here, end);
      var next := FindAsciiChar(enc, Useless, query, here);
      if next.Failure? {
        return Failure(next.error);
      }
      if next.value - here > 0 {
        end := next.value;
      }
      here := next.value + 1;
    }
    return Success(end);
  }

  /** Trailing useless bytes do not move the marker. */
  lemma {:induction false} EndFromBytes(s: Bytes, i: nat, end: nat, k: nat)
    requires i <= k <= |s|
    requires forall j :: k <= j < |s| ==> s[j] in Useless
    ensures EndFrom(AsciiSafe, s, i, end)
            == if i == k then Success(end)
               else if s[k - 1] in Useless then EndFrom(AsciiSafe, s[..k], i, end)
               else Success(k)
    decreases |s| - i
  {
    if i == |s| {
    } else if i == k {
      EndFromBytes(s, i + 1, end, k + 1);
    } else {
      var end' := if s[i] in Useless then end else i + 1;
      EndFromBytes(s, i + 1, end', k);
    }
  }

  /** The scan for encodings in which every byte can be read on its own. */
  method ScanBackwards(query: Bytes) returns (end: nat)
    ensures QueryEnd(AsciiSafe, query) == Success(end)
  {
    EndFromIsQueryEnd(AsciiSafe, query);
    end := |query|;
    while end > 0 && query[end - 1] in Useless
      invariant end <= |query|
      invariant forall j :: end <= j < |query| ==> query[j] in Useless
    {
      end := end - 1;
    }
    EndFromBytes(query, 0, 0, end);
  }

  /** Both scans find the end of the last glyph that is neither blank nor a
      semicolon, or 0. */
  method FindQueryEnd(enc: EncodingGroup, query: Bytes) returns (r: Result<nat, EncodingError>)
    ensures r == QueryEnd(enc, query)
  {
    if enc == AsciiSafe {
      var end := ScanBackwards(query);
      r := Success(end);
    } else {
      r := ScanForwards(enc, query);
    }
  }

  /** For text that every scanner reads byte by byte, the two scans agree. */
  lemma {:induction false} ScansAgree(enc: EncodingGroup, query: Bytes)
    requires forall i :: 0 <= i < |query| ==> IsAscii(query[i])
    ensures QueryEnd(enc, query) == QueryEnd(AsciiSafe, query)
  {
    SplitAscii(enc, query);
    SplitAscii(AsciiSafe, query);
  }

  function Singles(s: Bytes): seq<Bytes> {
    if s == [] then [] else [[s[0]]] + Singles(s[1..])
  }

  lemma {:induction false} SplitAscii(enc: EncodingGroup, s: Bytes)
    requires forall i :: 0 <= i < |s| ==> IsAscii(s[i])
    ensures Split(enc, s) == Success(Singles(s))
  {
    if s != [] {
      SplitAscii(enc, s[1..]);
      assert s[..1] == [s[0]];
    }
  }
}
