/** Escaping text for use in a LIKE pattern (connection::esc_like in
    src/connection.cxx), and what the escaped text means as a pattern (section
    9.7.1 of the PostgreSQL manual). */
module LikeEscape {
  import opened Wrappers
  import opened Encodings

  const PERCENT: Byte := 0x25
  const UNDERSCORE: Byte := 0x5f
  const Wild: set<Byte> := {UNDERSCORE, PERCENT}

  // ---- What is written --------------------------------------------------

  /** The escape character goes in front of every wildcard, and nowhere else. */
  function EscGlyphs(gs: seq<Bytes>, escape: Byte): seq<Bytes>
    requires forall i :: 0 <= i < |gs| ==> gs[i] != []
  {
    if gs == [] then []
    else (if gs[0][0] in Wild then [[escape], gs[0]] else [gs[0]]) + EscGlyphs(gs[1..], escape)
  }

  function EscText(enc: EncodingGroup, s: Bytes, escape: Byte): Result<Bytes, EncodingError> {
    var gs :- Split(enc, s);
    Success(Flatten(EscGlyphs(gs, escape)))
  }

  lemma FlattenTwo(g: Bytes, h: Bytes)
    ensures Flatten([g, h]) == g + h
  {
    assert [g, h][1..] == [h];
    FlattenOne(h);
  }

  /** One glyph in the middle of a text. */
  lemma EscTextStep(enc: EncodingGroup, s: Bytes, i: nat, escape: Byte)
    requires i < |s|
    ensures var next := GlyphEnd(enc, s, i);
            EscText(enc, s[i..], escape)
            == if next.Failure? then Failure(next.error)
               else Prepend((if s[i] in Wild then [escape] else []) + s[i..next.value],
                            EscText(enc, s[next.value..], escape))
  {
    hide GlyphEnd;
    var next := GlyphEnd(enc, s, i);
    GlyphSuffix(enc, s, i);
    if next.Success? {
      var g := s[i..next.value];
      assert s[i..][..next.value - i] == g;
      assert s[i..][next.value - i..] == s[next.value..];
      var rest := Split(enc, s[next.value..]);
      if rest.Success? {
        var gs := [g] + rest.value;
        assert Split(enc, s[i..]) == Success(gs);
        assert EscGlyphs(gs, escape)
            == (if g[0] in Wild then [[escape], g] else [g]) + EscGlyphs(rest.value, escape);
        assert gs[1..] == rest.value;
        FlattenTwo([escape], g);
        FlattenOne(g);
        assert [] + g == g;
        FlattenConcat(if g[0] in Wild then [[escape], g] else [g], EscGlyphs(rest.value, escape));
      }
    }
  }

  /** Copying up to the next wildcard in one go writes the same bytes. */
  lemma {:induction false} EscTextSkip(enc: EncodingGroup, s: Bytes, i: nat, escape: Byte)
    requires i <= |s|
    ensures var stop := Find(enc, Wild, s, i);
            EscText(enc, s[i..], escape)
            == if stop.Failure? then Failure(stop.error)
               else Prepend(s[i..stop.value], EscText(enc, s[stop.value..], escape))
    decreases |s| - i
  {
    hide GlyphEnd, EscText;
    var stop := Find(enc, Wild, s, i);
    if i == |s| || s[i] in Wild {
      assert s[i..i] == [];
      PrependNothing(EscText(enc, s[i..], escape));
    } else {
      var next := GlyphEnd(enc, s, i);
      EscTextStep(enc, s, i, escape);
      if next.Success? {
        EscTextSkip(enc, s, next.value, escape);
        if stop.Success? {
          assert [] + s[i..next.value] == s[i..next.value];
          assert s[i..stop.value] == s[i..next.value] + s[next.value..stop.value];
          PrependTwice(s[i..next.value], s[next.value..stop.value], EscText(enc, s[stop.value..], escape));
        }
      }
    }
  }

  /** One turn of the loop: a wildcard and the unremarkable text behind it. */
  lemma EscTextTurn(enc: EncodingGroup, s: Bytes, i: nat, escape: Byte)
    requires i < |s| && s[i] in Wild
    ensures var stop := Find(enc, Wild, s, i + 1);
            EscText(enc, s[i..], escape)
            == if stop.Failure? then Failure(stop.error)
               else Prepend([escape] + s[i..stop.value], EscText(enc, s[stop.value..], escape))
  {
    hide GlyphEnd, EscText, Find;
    EscTextStep(enc, s, i, escape);
    EscTextSkip(enc, s, i + 1, escape);
    var stop := Find(enc, Wild, s, i + 1);
    if stop.Success? {
      PrependTwice([escape] + s[i..i + 1], s[i + 1..stop.value], EscText(enc, s[stop.value..], escape));
      assert [escape] + s[i..i + 1] + s[i + 1..stop.value] == [escape] + s[i..stop.value];
    }
  }

  /** esc_like, with its shortcuts for empty text and for text without wildcards. */
  method EscLike(enc: EncodingGroup, text: Bytes, escape: Byte) returns (r: Result<Bytes, EncodingError>)
    ensures r == EscText(enc, text, escape)
  {
    hide GlyphEnd, Find, EscGlyphs;
    assert text[0..] == text;
    EscTextSkip(enc, text, 0, escape);
    if |text| == 0 {
      EscNothing(enc, escape);
      return Success([]);
    }
    var found := FindAsciiChar(enc, Wild, text, 0);
    if found.Failure? {
      return Failure(found.error);
    }
    var next := found.value;
    if next >= |text| {
      assert text[next..] == [] && text[0..next] == text;
      assert text + [] == text;
      EscNothing(enc, escape);
      return Success(text);
    }
    var out: Bytes := [];
    out := out + text[..next];
    assert out == text[0..next];
    var here := next;
    while here < |text|
      invariant here <= |text| && (here < |text| ==> text[here] in Wild)
      invariant EscText(enc, text, escape) == Prepend(out, EscText(enc, text[here..], escape))
    {
      EscTextTurn(enc, text, here, escape);
      found := FindAsciiChar(enc, Wild, text, here + 1);
      if found.Failure? {
        return Failure(found.error);
      }
      next := found.value;
      PrependTwice(out, [escape] + text[here..next], EscText(enc, text[next..], escape));
      assert out + [escape] + text[here..next] == out + ([escape] + text[here..next]);
      out := out + [escape];
      out := out + text[here..next];
      here := next;
    }
    assert text[here..] == [] && out + [] == out;
    EscNothing(enc, escape);
    return Success(out);
  }

  lemma EscNothing(enc: EncodingGroup, escape: Byte)
    ensures EscText(enc, [], escape) == Success([])
  {
  }

  // ---- What it means ----------------------------------------------------

  /** LIKE over characters: the escape character takes the next one literally,
      `%` stands for any run of characters and `_` for any one character. */
  predicate Like(p: seq<Bytes>, escape: Byte, s: seq<Bytes>)
    decreases |p|, |s|
  {
    if p == [] then s == []
    else if p[0] == [escape] then |p| >= 2 && s != [] && s[0] == p[1] && Like(p[2..], escape, s[1..])
    else if p[0] == [0x25] then Like(p[1..], escape, s) || (s != [] && Like(p, escape, s[1..]))
    else if p[0] == [0x5f] then s != [] && Like(p[1..], escape, s[1..])
    else s != [] && s[0] == p[0] && Like(p[1..], escape, s[1..])
  }

  /** The pattern matches `u` and nothing else. */
  ghost predicate MatchesOnly(p: seq<Bytes>, escape: Byte, u: seq<Bytes>) {
    forall s :: Like(p, escape, s) <==> s == u
  }

  predicate Characters(gs: seq<Bytes>) {
    forall i :: 0 <= i < |gs| ==> gs[i] != [] && (gs[i][0] in Wild ==> |gs[i]| == 1)
  }

  /** A pattern that starts with a literal: `skip` pattern characters that stand
      for the one character `c`. */
  ghost predicate StartsWithLiteral(p: seq<Bytes>, escape: Byte, skip: nat, c: Bytes) {
    skip <= |p| && forall s :: Like(p, escape, s) <==> (s != [] && s[0] == c && Like(p[skip..], escape, s[1..]))
  }

  lemma PeelLiteral(p: seq<Bytes>, escape: Byte, skip: nat, c: Bytes, u: seq<Bytes>)
    requires StartsWithLiteral(p, escape, skip, c)
    ensures u != [] && u[0] == c && MatchesOnly(p[skip..], escape, u[1..]) ==> MatchesOnly(p, escape, u)
    ensures MatchesOnly(p, escape, u) ==> u != [] && u[0] == c && MatchesOnly(p[skip..], escape, u[1..])
  {
    if u != [] && u[0] == c && MatchesOnly(p[skip..], escape, u[1..]) {
      forall s
        ensures Like(p, escape, s) <==> s == u
      {
        if Like(p, escape, s) {
          assert s == [s[0]] + s[1..] && u == [u[0]] + u[1..];
        }
      }
    }
    if MatchesOnly(p, escape, u) {
      assert Like(p, escape, u);
      forall s
        ensures Like(p[skip..], escape, s) <==> s == u[1..]
      {
        var t := [c] + s;
        assert t[0] == c && t[1..] == s;
        assert Like(p, escape, t) <==> t == u;
        assert u == [u[0]] + u[1..];
      }
    }
  }

  /** The head of an escaped text, when it is not a bare escape character. */
  lemma EscHead(gs: seq<Bytes>, escape: Byte)
    requires Characters(gs) && gs != [] && (gs[0] != [escape] || escape in Wild)
    ensures var p := EscGlyphs(gs, escape);
            var skip := if gs[0][0] in Wild then 2 else 1;
            StartsWithLiteral(p, escape, skip, gs[0]) && p[skip..] == EscGlyphs(gs[1..], escape)
  {
    var p := EscGlyphs(gs, escape);
    if gs[0][0] in Wild {
      assert p[2..] == EscGlyphs(gs[1..], escape);
    } else {
      assert p[1..] == EscGlyphs(gs[1..], escape);
    }
  }

  /** Without a bare escape character in it, a text becomes a pattern for itself.  An
      escape character that is a wildcard is never bare. */
  lemma {:induction false} EscapedMatchesOnlyText(gs: seq<Bytes>, escape: Byte)
    requires Characters(gs) && (escape in Wild || [escape] !in gs)
    ensures MatchesOnly(EscGlyphs(gs, escape), escape, gs)
  {
    if gs != [] {
      assert gs[0] in gs;
      assert forall g :: g in gs[1..] ==> g in gs;
      EscapedMatchesOnlyText(gs[1..], escape);
      EscHead(gs, escape);
      var skip := if gs[0][0] in Wild then 2 else 1;
      PeelLiteral(EscGlyphs(gs, escape), escape, skip, gs[0], gs);
    }
  }

  /** A wildcard that is not escaped never leaves exactly one match. */
  lemma ActiveWildcard(p: seq<Bytes>, escape: Byte, u: seq<Bytes>)
    requires p != [] && escape !in Wild && (p[0] == [PERCENT] || p[0] == [UNDERSCORE])
    ensures !MatchesOnly(p, escape, u)
  {
    if Like(p, escape, u) {
      if p[0] == [PERCENT] {
        var t := [[PERCENT]] + u;
        assert t[1..] == u;
        assert Like(p, escape, t);
        assert |t| != |u|;
      } else {
        var other: Bytes := if u[0] == [PERCENT] then [UNDERSCORE] else [PERCENT];
        var t := [other] + u[1..];
        assert t[1..] == u[1..] && t[0] != u[0];
        assert Like(p, escape, t);
      }
    }
  }

  /** If an escaped text matches exactly one text, that text is no longer than
      the original, and shorter if the original holds the escape character. */
  lemma {:induction false} OnlyMatchIsShort(gs: seq<Bytes>, escape: Byte, u: seq<Bytes>)
    requires Characters(gs) && escape !in Wild
    requires MatchesOnly(EscGlyphs(gs, escape), escape, u)
    ensures |u| <= |gs| && ([escape] in gs ==> |u| < |gs|)
    decreases |gs|
  {
    var p := EscGlyphs(gs, escape);
    if gs == [] {
      assert Like(p, escape, u);
    } else if gs[0] != [escape] {
      EscHead(gs, escape);
      PeelLiteral(p, escape, if gs[0][0] in Wild then 2 else 1, gs[0], u);
      OnlyMatchIsShort(gs[1..], escape, u[1..]);
      assert gs == [gs[0]] + gs[1..];
    } else {
      EscapeInText(gs, escape, u);
      if |gs| >= 2 && gs[1][0] !in Wild {
        OnlyMatchIsShort(gs[2..], escape, u[1..]);
      }
    }
  }

  /** The escape character at the head of a text swallows what follows it. */
  lemma EscapeInText(gs: seq<Bytes>, escape: Byte, u: seq<Bytes>)
    requires Characters(gs) && escape !in Wild && gs != [] && gs[0] == [escape]
    requires MatchesOnly(EscGlyphs(gs, escape), escape, u)
    ensures |gs| >= 2 && gs[1][0] !in Wild && u != []
    ensures MatchesOnly(EscGlyphs(gs[2..], escape), escape, u[1..])
  {
    var p := EscGlyphs(gs, escape);
    assert p[0] == [escape] && p[1..] == EscGlyphs(gs[1..], escape);
    assert Like(p, escape, u);
    if |gs| == 1 {
      assert false;
    }
    var rest := gs[1..];
    assert rest[0] == gs[1] && rest[1..] == gs[2..];
    if gs[1][0] in Wild {
      assert p[1] == [escape] && p[2] == gs[1];
      assert StartsWithLiteral(p, escape, 2, [escape]);
      PeelLiteral(p, escape, 2, [escape], u);
      assert gs[1] == [gs[1][0]];
      ActiveWildcard(p[2..], escape, u[1..]);
      assert false;
    }
    assert p[1] == gs[1] && p[2..] == EscGlyphs(gs[2..], escape);
    assert StartsWithLiteral(p, escape, 2, gs[1]);
    PeelLiteral(p, escape, 2, gs[1], u);
  }

  lemma {:induction false} EscGlyphsAreGlyphs(enc: EncodingGroup, gs: seq<Bytes>, escape: Byte)
    requires AllGlyphs(enc, gs) && IsGlyph(enc, [escape])
    ensures AllGlyphs(enc, EscGlyphs(gs, escape)) && Characters(gs)
  {
    if gs != [] {
      EscGlyphsAreGlyphs(enc, gs[1..], escape);
      assert forall i :: 1 <= i < |gs| ==> gs[i] == gs[1..][i - 1];
    }
  }

  /** esc_like preserves meaning: when the escape character is a character of its
      own, the output used as a LIKE pattern matches the original text and no other
      string if and only if the escape character is a wildcard, or the text does
      not itself hold it. */
  lemma EscLikePreservesMeaning(enc: EncodingGroup, text: Bytes, escape: Byte)
    requires Split(enc, text).Success? && IsGlyph(enc, [escape])
    ensures EscText(enc, text, escape).Success?
    ensures Split(enc, EscText(enc, text, escape).value).Success?
    ensures var gs := Split(enc, text).value;
            var pattern := Split(enc, EscText(enc, text, escape).value).value;
            MatchesOnly(pattern, escape, gs) <==> escape == 0x25 || escape == 0x5f || [escape] !in gs
  {
    var gs := Split(enc, text).value;
    EscGlyphsAreGlyphs(enc, gs, escape);
    SplitFlatten(enc, EscGlyphs(gs, escape));
    if escape in Wild || [escape] !in gs {
      EscapedMatchesOnlyText(gs, escape);
    } else if MatchesOnly(EscGlyphs(gs, escape), escape, gs) {
      OnlyMatchIsShort(gs, escape, gs);
    }
  }
}
