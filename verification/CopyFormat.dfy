/** The server's side of COPY: how PostgreSQL reads a line in text format (the
    section "Text Format" of its documentation of COPY), and the proofs that it
    reads what the library prints, and that the library reads what it writes. */
module CopyFormat {
  import opened Wrappers
  import opened Encodings
  import opened CopyText

  /** What a backslash with character c behind it stands for, where that is settled
      by the character alone: the six control characters have letters, and any other
      character stands for itself.  Left out are octal digits and x, which start a number;
      N and a period, which mark a null and the end of the data; and the ends of
      lines. */
  function Escape(c: Byte): Option<Byte> {
    if c == 0x62 then Some(0x08)
    else if c == 0x66 then Some(0x0c)
    else if c == 0x6e then Some(0x0a)
    else if c == 0x72 then Some(0x0d)
    else if c == 0x74 then Some(0x09)
    else if c == 0x76 then Some(0x0b)
    else if 0x30 <= c <= 0x37 || c in {0x78, 0x4e, 0x2e, 0x0a, 0x0d} then None
    else Some(c)
  }

  /** Where the field ends that starts a line of these characters: at the first tab
      without a backslash. */
  function FieldEnd(line: seq<Bytes>): (n: nat)
    ensures n <= |line|
  {
    if line == [] || line[0] == [0x09] then 0
    else if line[0] == [0x5c] && |line| >= 2 then 2 + FieldEnd(line[2..])
    else 1 + FieldEnd(line[1..])
  }

  /** The text of a field, if it has one.  Backslashes come before characters of one
      byte only. */
  function FieldText(raw: seq<Bytes>): Option<Bytes> {
    if raw == [] then Some([])
    else if raw[0] == [0x5c] then
      if |raw| < 2 || |raw[1]| != 1 then None
      else
        var c, rest := Escape(raw[1][0]), FieldText(raw[2..]);
        if c.None? || rest.None? then None else Some([c.value] + rest.value)
    else if raw[0] in {[0x09], [0x0a], [0x0d]} then None
    else
      var rest := FieldText(raw[1..]);
      if rest.None? then None else Some(raw[0] + rest.value)
  }

  /** A field is null if it is a backslash and an N, and nothing else. */
  function FieldValue(raw: seq<Bytes>): Option<Field> {
    if raw == [[0x5c], [0x4e]] then Some(None)
    else
      var text := FieldText(raw);
      if text.None? then None else Some(text)
  }

  /** The fields of a line, if each of them means something. */
  function ReadLine(line: seq<Bytes>): Option<seq<Field>> {
    var n := FieldEnd(line);
    var first := FieldValue(line[..n]);
    if n == |line| then (if first.None? then None else Some([first.value]))
    else
      var rest := ReadLine(line[n + 1..]);
      if first.None? || rest.None? then None else Some([first.value] + rest.value)
  }

  // ---- The library reads what the server writes -------------------------

  /** A character that stands for itself. */
  lemma ParseItself(enc: EncodingGroup, g: Bytes, rest: Bytes, c: Bytes, done: seq<Field>)
    requires IsGlyph(enc, g) && g !in {[0x5c], [0x09]}
    ensures ParseFrom(enc, g + rest, Some(c), done) == ParseFrom(enc, rest, Some(c + g), done)
  {
    var s := g + rest;
    GlyphPrefix(enc, g, rest);
    assert s[0] == g[0] && s[..|g|] == g && s[|g|..] == rest;
    if IsAscii(g[0]) {
      AsciiGlyph(enc, g);
      assert g == [g[0]];
    }
  }

  lemma ParseEscape(enc: EncodingGroup, e: Byte, rest: Bytes, c: Bytes, done: seq<Field>)
    requires Escape(e).Some?
    ensures ParseFrom(enc, [0x5c] + ([e] + rest), Some(c), done)
            == ParseFrom(enc, rest, Some(c + [Escape(e).value]), done)
  {
    var s := [0x5c] + ([e] + rest);
    assert s[0] == 0x5c && s[1] == e && s[2..] == rest;
  }

  lemma {:induction false} ParseText(enc: EncodingGroup, raw: seq<Bytes>, rest: Bytes, c: Bytes, done: seq<Field>)
    requires AllGlyphs(enc, raw) && FieldText(raw).Some?
    ensures ParseFrom(enc, Flatten(raw) + rest, Some(c), done)
            == ParseFrom(enc, rest, Some(c + FieldText(raw).value), done)
    decreases |raw|
  {
    hide ParseFrom, GlyphEnd;
    if raw == [] {
      assert [] + rest == rest && c + [] == c;
    } else if raw[0] == [0x5c] {
      var e := raw[1][0];
      var more := Flatten(raw[2..]) + rest;
      assert raw[1..][0] == [e] && raw[1..][1..] == raw[2..];
      assert Flatten(raw) + rest == [0x5c] + ([e] + more);
      ParseEscape(enc, e, more, c, done);
      ParseText(enc, raw[2..], rest, c + [Escape(e).value], done);
      Assoc(c, [Escape(e).value], FieldText(raw[2..]).value);
    } else {
      var more := Flatten(raw[1..]) + rest;
      Assoc(raw[0], Flatten(raw[1..]), rest);
      ParseItself(enc, raw[0], more, c, done);
      ParseText(enc, raw[1..], rest, c + raw[0], done);
      Assoc(c, raw[0], FieldText(raw[1..]).value);
    }
  }

  lemma ParseValue(enc: EncodingGroup, raw: seq<Bytes>, rest: Bytes, done: seq<Field>)
    requires AllGlyphs(enc, raw) && FieldValue(raw).Some?
    ensures ParseFrom(enc, Flatten(raw) + rest, Some([]), done) == ParseFrom(enc, rest, FieldValue(raw).value, done)
  {
    if raw == [[0x5c], [0x4e]] {
      ParseNull(enc, raw, rest, done);
    } else {
      ParseText(enc, raw, rest, [], done);
      assert [] + FieldText(raw).value == FieldText(raw).value;
    }
  }

  lemma ParseNull(enc: EncodingGroup, raw: seq<Bytes>, rest: Bytes, done: seq<Field>)
    requires raw == [[0x5c], [0x4e]]
    ensures ParseFrom(enc, Flatten(raw) + rest, Some([]), done) == ParseFrom(enc, rest, None, done)
  {
    assert raw[1..] == [[0x4e]] && raw[1..][1..] == [];
    assert Flatten(raw) == [0x5c] + ([0x4e] + Flatten(raw[1..][1..]));
    var s := Flatten(raw) + rest;
    assert s[0] == 0x5c && s[1] == 0x4e && s[2..] == rest;
  }

  lemma {:induction false} ParseLines(enc: EncodingGroup, line: seq<Bytes>, done: seq<Field>)
    requires AllGlyphs(enc, line) && ReadLine(line).Some?
    ensures ParseFrom(enc, Flatten(line), Some([]), done) == Success(done + ReadLine(line).value)
    decreases |line|
  {
    hide ParseFrom, GlyphEnd, FieldEnd, FieldValue;
    var n := FieldEnd(line);
    var raw, f := line[..n], FieldValue(line[..n]).value;
    if n == |line| {
      assert line[..n] == line;
      assert Flatten(line) + [] == Flatten(line);
      ParseValue(enc, raw, [], done);
      ParseEnd(enc, f, done);
    } else {
      StopsAtTab(line);
      var rest := Flatten(line[n + 1..]);
      assert line == raw + line[n..];
      FlattenConcat(raw, line[n..]);
      assert line[n..][1..] == line[n + 1..];
      ParseValue(enc, raw, [0x09] + rest, done);
      ParseTab(enc, rest, f, done);
      ParseLines(enc, line[n + 1..], done + [f]);
      assert done + [f] + ReadLine(line[n + 1..]).value == done + ([f] + ReadLine(line[n + 1..]).value);
    }
  }

  lemma {:induction false} StopsAtTab(line: seq<Bytes>)
    ensures FieldEnd(line) < |line| ==> line[FieldEnd(line)] == [0x09]
  {
    if line == [] || line[0] == [0x09] {
    } else if line[0] == [0x5c] && |line| >= 2 {
      StopsAtTab(line[2..]);
    } else {
      StopsAtTab(line[1..]);
    }
  }

  /** Whatever line the server writes: if its text is well formed in the encoding,
      and it means a row in COPY's text format, the library reads that row. */
  lemma LibraryReads(enc: EncodingGroup, line: Bytes)
    requires Split(enc, line).Success? && ReadLine(Split(enc, line).value).Some?
    ensures ParseRow(enc, line) == Success(ReadLine(Split(enc, line).value).value)
  {
    hide ParseFrom, ReadLine, Split;
    var gs := Split(enc, line).value;
    ParseLines(enc, gs, []);
    assert [] + ReadLine(gs).value == ReadLine(gs).value;
  }

  /** A backslash in front of a character of several bytes is the one thing that the
      library reads differently.  It takes the first byte alone for the character, so
      that here the second one, a tab, starts a new field.  (The server puts no
      backslash there.) */
  lemma BackslashSplitsCharacter()
    ensures Split(TwoTier, [0x5c, 0x81, 0x09]) == Success([[0x5c], [0x81, 0x09]])
    ensures ParseRow(TwoTier, [0x5c, 0x81, 0x09]) == Success([Some([0x81]), Some([])])
  {
    var line: Bytes := [0x5c, 0x81, 0x09];
    assert line[0] == 0x5c && line[1] == 0x81 && line[2..] == [0x09];
    FlattenOne([0x81, 0x09]);
    assert [[0x5c], [0x81, 0x09]][1..] == [[0x81, 0x09]];
    assert Flatten([[0x5c], [0x81, 0x09]]) == [0x5c] + [0x81, 0x09] == line;
    SplitFlatten(TwoTier, [[0x5c], [0x81, 0x09]]);
    hide ParseFrom;
    ParseEscape(TwoTier, 0x81, [0x09] + [], [], []);
    assert [0x5c] + ([0x81] + ([0x09] + [])) == line && [] + [0x81] == [0x81];
    ParseTab(TwoTier, [], Some([0x81]), []);
    var first: seq<Field>, second: seq<Field> := [Some([0x81])], [Some([])];
    assert [] + first == first && first + second == [Some([0x81]), Some([])];
    ParseEnd(TwoTier, Some([]), [Some([0x81])]);
  }

  // ---- The server reads what the library prints -------------------------

  /** A printed text, in front of a tab or of the end of the line. */
  lemma {:induction false} PrintedText(enc: EncodingGroup, gs: seq<Bytes>, rest: seq<Bytes>)
    requires AllGlyphs(enc, gs) && (rest == [] || rest[0] == [0x09])
    ensures FieldEnd(EscapedGlyphs(gs) + rest) == |EscapedGlyphs(gs)|
    ensures FieldText(EscapedGlyphs(gs)) == Some(Flatten(gs))
    decreases |gs|
  {
    if gs == [] {
      assert EscapedGlyphs(gs) + rest == rest;
    } else {
      PrintedText(enc, gs[1..], rest);
      var more := EscapedGlyphs(gs[1..]);
      PrintedGlyph(enc, gs[0], more, rest);
      assert EscapedGlyphs(gs) == EscapedGlyph(gs[0]) + more;
    }
  }

  lemma PrintedGlyph(enc: EncodingGroup, g: Bytes, more: seq<Bytes>, rest: seq<Bytes>)
    requires IsGlyph(enc, g) && FieldEnd(more + rest) == |more| && FieldText(more).Some?
    ensures FieldEnd(EscapedGlyph(g) + more + rest) == |EscapedGlyph(g) + more|
    ensures FieldText(EscapedGlyph(g) + more) == Some(g + FieldText(more).value)
  {
    hide GlyphEnd;
    var head := EscapedGlyph(g);
    var raw := head + more;
    assert raw + rest == head + (more + rest);
    if |head| == 2 {
      AsciiGlyph(enc, g);
      assert g == [g[0]];
      assert raw[2..] == more && (raw + rest)[2..] == more + rest;
    } else {
      assert raw[1..] == more && (raw + rest)[1..] == more + rest;
    }
  }

  /** The characters of a row as it is sent. */
  function SentGlyphs(enc: EncodingGroup, fs: seq<Field>): seq<Bytes>
    requires fs != [] && forall i :: 0 <= i < |fs| ==> PrintField(enc, fs[i]).Success?
  {
    FieldGlyphs(enc, fs[0]) + if |fs| == 1 then [] else [[TAB]] + SentGlyphs(enc, fs[1..])
  }

  lemma {:induction false} SentIsPrinted(enc: EncodingGroup, fs: seq<Field>)
    requires fs != [] && WellFormed(enc, fs)
    ensures forall i :: 0 <= i < |fs| ==> PrintField(enc, fs[i]).Success?
    ensures PrintRow(enc, fs).Success? && AllGlyphs(enc, SentGlyphs(enc, fs))
    ensures Flatten(SentGlyphs(enc, fs)) == PrintRow(enc, fs).value
  {
    PrintsIffWellFormed(enc, fs);
    hide GlyphEnd, PrintRow, Split, FieldGlyphs;
    RowParts(enc, fs);
    FieldGlyphsShape(enc, fs[0]);
    var head := FieldGlyphs(enc, fs[0]);
    if |fs| == 1 {
      assert head + [] == head;
    } else {
      SentIsPrinted(enc, fs[1..]);
      var rest := SentGlyphs(enc, fs[1..]);
      FlattenConcat(head, [[TAB]] + rest);
      assert ([[TAB]] + rest)[1..] == rest;
    }
  }

  lemma PrintedField(enc: EncodingGroup, f: Field, rest: seq<Bytes>)
    requires PrintField(enc, f).Success? && (rest == [] || rest[0] == [0x09])
    ensures var raw := FieldGlyphs(enc, f);
            FieldEnd(raw + rest) == |raw| && FieldValue(raw) == Some(f)
  {
    match f
    case None =>
      var raw: seq<Bytes> := [[0x5c], [0x4e]];
      assert (raw + rest)[2..] == rest;
    case Some(data) =>
      var gs := Split(enc, data).value;
      PrintedText(enc, gs, rest);
      NullIsNoText();
  }

  lemma NullIsNoText()
    ensures FieldText([[0x5c], [0x4e]]).None?
  {
  }

  lemma {:induction false} PrintedRow(enc: EncodingGroup, fs: seq<Field>)
    requires fs != [] && forall i :: 0 <= i < |fs| ==> PrintField(enc, fs[i]).Success?
    ensures ReadLine(SentGlyphs(enc, fs)) == Some(fs)
    decreases |fs|
  {
    hide GlyphEnd, FieldGlyphs, PrintField, FieldEnd, FieldValue;
    var raw := FieldGlyphs(enc, fs[0]);
    if |fs| == 1 {
      PrintedField(enc, fs[0], []);
      assert raw + [] == raw && raw[..|raw|] == raw;
      assert fs == [fs[0]];
    } else {
      var more := SentGlyphs(enc, fs[1..]);
      var rest := [[TAB]] + more;
      PrintedField(enc, fs[0], rest);
      PrintedRow(enc, fs[1..]);
      var line := raw + rest;
      assert line[..|raw|] == raw && line[|raw| + 1..] == more;
      assert [fs[0]] + fs[1..] == fs;
    }
  }

  /** The server reads every row that the library prints as that row. */
  lemma ServerReads(enc: EncodingGroup, fs: seq<Field>)
    requires fs != [] && WellFormed(enc, fs)
    ensures PrintRow(enc, fs).Success? && Split(enc, PrintRow(enc, fs).value).Success?
    ensures ReadLine(Split(enc, PrintRow(enc, fs).value).value) == Some(fs)
  {
    hide GlyphEnd, Split, PrintRow, SentGlyphs, ReadLine;
    SentIsPrinted(enc, fs);
    SplitFlatten(enc, SentGlyphs(enc, fs));
    PrintedRow(enc, fs);
  }
}
