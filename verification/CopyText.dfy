/** COPY text rows: the printer of src/stream_to.cxx and the parser of
    src/stream_from.cxx, each proved against a one-glyph-at-a-time definition,
    and the proof that they undo each other. */
module CopyText {
  import opened Wrappers
  import opened Buffers
  import opened Encodings
  import opened Integers

  const BACKSPACE: Byte := 8
  const TAB: Byte := 9
  const NEWLINE: Byte := 10
  const VERTICAL_TAB: Byte := 11
  const FORM_FEED: Byte := 12
  const RETURN: Byte := 13
  const BACKSLASH: Byte := 0x5c
  const LETTER_N: Byte := 78
  const LETTER_b: Byte := 98
  const LETTER_f: Byte := 102
  const LETTER_n: Byte := 110
  const LETTER_r: Byte := 114
  const LETTER_t: Byte := 116
  const LETTER_v: Byte := 118

  /** The characters that the printer's finder looks for. */
  const Specials: set<Byte> := {BACKSPACE, FORM_FEED, NEWLINE, RETURN, TAB, VERTICAL_TAB, BACKSLASH}
  /** The characters that the parser's finder looks for. */
  const Stops: set<Byte> := {TAB, BACKSLASH}

  /** A nullable field. */
  type Field = Option<Bytes>

  datatype CopyError =
    | BadEncoding(error: EncodingError)
    | EndsInBackslash
    | NullInNonemptyField
    | LineTooLong

  // ---- Printing ---------------------------------------------------------

  function EscapeChar(special: Byte): Option<Byte> {
    if special == BACKSPACE then Some(LETTER_b)
    else if special == FORM_FEED then Some(LETTER_f)
    else if special == NEWLINE then Some(LETTER_n)
    else if special == RETURN then Some(LETTER_r)
    else if special == TAB then Some(LETTER_t)
    else if special == VERTICAL_TAB then Some(LETTER_v)
    else if special == BACKSLASH then Some(BACKSLASH)
    else None
  }

  /** The printer never meets a special character that it cannot escape. */
  lemma SpecialsEscape(b: Byte)
    requires b in Specials
    ensures EscapeChar(b).Some?
  {
  }

  function UnescapeChar(escaped: Byte): Byte {
    if escaped == LETTER_b then BACKSPACE
    else if escaped == LETTER_f then FORM_FEED
    else if escaped == LETTER_n then NEWLINE
    else if escaped == LETTER_r then RETURN
    else if escaped == LETTER_t then TAB
    else if escaped == LETTER_v then VERTICAL_TAB
    else escaped
  }

  /** One glyph as it is printed. */
  function PrintGlyph(g: Bytes): Bytes
    requires g != []
  {
    var e := EscapeChar(g[0]);
    if e.Some? then [BACKSLASH, e.value] else g
  }

  function PrintGlyphs(gs: seq<Bytes>): Bytes
    requires forall i :: 0 <= i < |gs| ==> gs[i] != []
  {
    if gs == [] then [] else PrintGlyph(gs[0]) + PrintGlyphs(gs[1..])
  }

  /** A text as it is printed. */
  function PrintText(enc: EncodingGroup, s: Bytes): Result<Bytes, EncodingError> {
    var gs :- Split(enc, s);
    Success(PrintGlyphs(gs))
  }

  /** A field as it is printed, without its tab. */
  function PrintField(enc: EncodingGroup, f: Field): Result<Bytes, EncodingError> {
    match f
    case None => Success([BACKSLASH, LETTER_N])
    case Some(data) => PrintText(enc, data)
  }

  /** Fields, each followed by a tab. */
  function PrintFields(enc: EncodingGroup, fs: seq<Field>): Result<Bytes, EncodingError> {
    if fs == [] then Success([])
    else
      var first :- PrintField(enc, fs[0]);
      var rest :- PrintFields(enc, fs[1..]);
      Success(first + [TAB] + rest)
  }

  function WithoutLast(s: Bytes): Bytes {
    if s == [] then [] else s[..|s| - 1]
  }

  /** A row as it is sent: tabs only between the fields. */
  function PrintRow(enc: EncodingGroup, fs: seq<Field>): Result<Bytes, EncodingError> {
    var line :- PrintFields(enc, fs);
    Success(WithoutLast(line))
  }

  /** Every field that is not null is a text of its encoding. */
  predicate WellFormed(enc: EncodingGroup, fs: seq<Field>) {
    forall i :: 0 <= i < |fs| && fs[i].Some? ==> Split(enc, fs[i].value).Success?
  }

  lemma PrintTextStep(enc: EncodingGroup, s: Bytes)
    requires s != []
    ensures var next := GlyphEnd(enc, s, 0);
            PrintText(enc, s) == if next.Failure? then Failure(next.error)
                                 else Prepend(PrintGlyph(s[..next.value]), PrintText(enc, s[next.value..]))
  {
    var next := GlyphEnd(enc, s, 0);
    if next.Success? && Split(enc, s[next.value..]).Success? {
      var gs := Split(enc, s).value;
      assert gs[0] == s[..next.value] && gs[1..] == Split(enc, s[next.value..]).value;
    }
  }

  /** The same step in the middle of a text. */
  lemma PrintTextStepAt(enc: EncodingGroup, s: Bytes, i: nat)
    requires i < |s|
    ensures var next := GlyphEnd(enc, s, i);
            PrintText(enc, s[i..]) == if next.Failure? then Failure(next.error)
                                      else Prepend(PrintGlyph(s[i..next.value]), PrintText(enc, s[next.value..]))
  {
    PrintTextStep(enc, s[i..]);
    GlyphSuffix(enc, s, i);
    var next := GlyphEnd(enc, s, i);
    if next.Success? {
      assert s[i..][..next.value - i] == s[i..next.value];
      assert s[i..][next.value - i..] == s[next.value..];
    }
  }

  /** Copying up to the next special character in one go prints the same bytes. */
  lemma {:induction false} PrintTextSkip(enc: EncodingGroup, s: Bytes, i: nat)
    requires i <= |s|
    ensures var stop := Find(enc, Specials, s, i);
            PrintText(enc, s[i..]) == if stop.Failure? then Failure(stop.error)
                                      else Prepend(s[i..stop.value], PrintText(enc, s[stop.value..]))
    decreases |s| - i
  {
    hide PrintText, GlyphEnd, Prepend;
    var stop := Find(enc, Specials, s, i);
    if i == |s| || s[i] in Specials {
      assert s[i..i] == [];
      PrependNothing(PrintText(enc, s[i..]));
    } else {
      var next := GlyphEnd(enc, s, i);
      PrintTextStepAt(enc, s, i);
      if next.Success? {
        PrintTextSkip(enc, s, next.value);
        if stop.Success? {
          assert s[i..stop.value] == s[i..next.value] + s[next.value..stop.value];
          PrependTwice(s[i..next.value], s[next.value..stop.value], PrintText(enc, s[stop.value..]));
        } else {
          PrependFailure(s[i..next.value], stop.error);
        }
      }
    }
  }

  /** The rest of a text from an offset that may lie one past its end. */
  function From(s: Bytes, i: nat): Bytes {
    if i <= |s| then s[i..] else []
  }

  /** One turn of the printer: a stretch of unremarkable characters and the
      special character that ended it, if any. */
  function Turn(s: Bytes, i: nat, stop: nat): Bytes
    requires i <= stop <= |s|
  {
    s[i..stop] + if stop < |s| then PrintGlyph([s[stop]]) else []
  }

  lemma PrintsNothing(enc: EncodingGroup)
    ensures PrintText(enc, []) == Success([])
  {
  }

  lemma PrintTextTurn(enc: EncodingGroup, s: Bytes, i: nat)
    requires i < |s|
    ensures var stop := Find(enc, Specials, s, i);
            PrintText(enc, s[i..]) == if stop.Failure? then Failure(stop.error)
                                      else Prepend(Turn(s, i, stop.value), PrintText(enc, From(s, stop.value + 1)))
  {
    hide PrintText, GlyphEnd, Find;
    PrintTextSkip(enc, s, i);
    var stop := Find(enc, Specials, s, i);
    if stop.Success? {
      var j := stop.value;
      if j < |s| {
        PrintTextStepAt(enc, s, j);
        assert s[j..j + 1] == [s[j]];
        PrependTwice(s[i..j], PrintGlyph([s[j]]), PrintText(enc, s[j + 1..]));
      } else {
        assert From(s, j + 1) == s[j..];
        assert Turn(s, i, j) == s[i..j];
      }
    }
  }

  lemma PrintFieldsStep(enc: EncodingGroup, fs: seq<Field>, i: nat, before: Bytes)
    requires i < |fs|
    ensures var field := PrintField(enc, fs[i]);
            Prepend(before, PrintFields(enc, fs[i..]))
            == if field.Failure? then Failure(field.error)
               else Prepend(before + field.value + [TAB], PrintFields(enc, fs[i + 1..]))
  {
    assert fs[i..][0] == fs[i] && fs[i..][1..] == fs[i + 1..];
    var field := PrintField(enc, fs[i]);
    if field.Success? {
      var head := field.value + [TAB];
      assert PrintFields(enc, fs[i..]) == Prepend(head, PrintFields(enc, fs[i + 1..]));
      PrependTwice(before, head, PrintFields(enc, fs[i + 1..]));
      Assoc(before, field.value, [TAB]);
    }
  }

  /** Text with nothing in it but digits and dashes. */
  predicate IsPlain(s: string) {
    forall i :: 0 <= i < |s| ==> IsDigit(s[i]) || s[i] == '-'
  }

  /** What a field that is not well formed leaves behind when it is printed, from
      offset i on: all up to its last special character in front of the fault.  The
      stretch behind that has not been copied yet. */
  function PartialFrom(enc: EncodingGroup, s: Bytes, i: nat): Bytes
    requires i <= |s|
    decreases |s| - i
  {
    var stop := Find(enc, Specials, s, i);
    if stop.Failure? || stop.value == |s| then []
    else Turn(s, i, stop.value) + PartialFrom(enc, s, stop.value + 1)
  }

  function Partial(enc: EncodingGroup, s: Bytes): Bytes {
    PartialFrom(enc, s, 0)
  }

  /** What a row leaves behind that cannot be printed. */
  function Leftover(enc: EncodingGroup, fs: seq<Field>): Bytes {
    if fs == [] then []
    else
      var field := PrintField(enc, fs[0]);
      if field.Success? then field.value + [TAB] + Leftover(enc, fs[1..])
      else Partial(enc, fs[0].value)
  }

  lemma LeftoverStep(enc: EncodingGroup, fs: seq<Field>, i: nat, before: Bytes)
    requires i < |fs|
    ensures var field := PrintField(enc, fs[i]);
            before + Leftover(enc, fs[i..])
            == if field.Success? then before + field.value + [TAB] + Leftover(enc, fs[i + 1..])
               else before + Partial(enc, fs[i].value)
  {
    hide Partial, PrintField;
    assert fs[i..][0] == fs[i] && fs[i..][1..] == fs[i + 1..];
    var field := PrintField(enc, fs[i]);
    if field.Success? {
      Assoc(before, field.value, [TAB]);
      Assoc(before, field.value + [TAB], Leftover(enc, fs[i + 1..]));
    }
  }

  function Ascii(s: string): Bytes
    requires IsPlain(s)
  {
    seq(|s|, i requires 0 <= i < |s| => s[i] as Byte)
  }

  lemma DecimalIsPlain(number: int)
    ensures IsPlain(Decimal(number))
  {
    hide Dec;
  }

  /** In every encoding, plain text is printed as it is. */
  lemma {:induction false} PlainTextPrints(enc: EncodingGroup, s: string)
    requires IsPlain(s)
    ensures PrintText(enc, Ascii(s)) == Success(Ascii(s))
  {
    if s == "" {
      PrintsNothing(enc);
    } else {
      hide PrintText;
      PlainTextPrints(enc, s[1..]);
      var text := Ascii(s);
      PrintTextStep(enc, text);
      assert text[..1] == [text[0]] && text[1..] == Ascii(s[1..]);
      assert text == text[..1] + text[1..];
    }
  }

  /** What an arithmetic field skips would have changed nothing: its text takes the
      search for special characters unharmed, whatever the encoding. */
  lemma NumbersNeedNoEscaping(enc: EncodingGroup, number: int)
    ensures IsPlain(Decimal(number))
    ensures PrintField(enc, Some(Ascii(Decimal(number)))) == Success(Ascii(Decimal(number)))
  {
    hide Decimal, PrintText;
    DecimalIsPlain(number);
    PlainTextPrints(enc, Decimal(number));
  }

  /** The source asserts that a byte is left over.  The lowest value of every signed
      type leaves none, nor does the highest of every unsigned one. */
  lemma ExtremesLeaveNoRoom(t: IntType, k: nat)
    requires t.signed || t.top + 1 == Pow2(k)
    ensures var number := if t.signed then t.Bottom() else t.top;
            t.Has(number) && !(|Decimal(number)| < SizeBuffer(t))
  {
    hide Decimal, SizeBuffer, Pow2;
    if t.signed {
      LowestFillsBuffer(t);
    } else {
      HighestFillsBuffer(t, k);
    }
  }

  /** Buffered row printer; `sent` collects the lines handed to the server. */
  class StreamTo {
    const enc: EncodingGroup
    var buffer: Bytes
    var sent: seq<Bytes>

    constructor (enc: EncodingGroup)
      ensures this.enc == enc && buffer == [] && sent == []
    {
      this.enc := enc;
      buffer, sent := [], [];
    }

    /** Appends the escaped field and its tab; stretches of unremarkable
        characters are copied in one go.  A field that is not well formed leaves
        by exception, with what was printed up to its last special character. */
    method EscapeFieldToBuffer(data: Bytes) returns (o: Outcome<CopyError>)
      modifies this`buffer
      ensures PrintField(enc, Some(data)).Success? ==>
                o.Pass? && buffer == old(buffer) + PrintField(enc, Some(data)).value + [TAB]
      ensures PrintField(enc, Some(data)).Failure? ==>
                o == Throw(BadEncoding(PrintField(enc, Some(data)).error))
                && buffer == old(buffer) + Partial(enc, data)
    {
      hide PrintText, GlyphEnd, Find, FirstHit;
      var end := |data|;
      var here := 0;
      ghost var printed: Bytes := [];
      assert data[0..] == data;
      PrependNothing(PrintText(enc, data));
      assert [] + Partial(enc, data) == Partial(enc, data);
      while here < end
        invariant 0 <= here <= end + 1
        invariant buffer == old(buffer) + printed
        invariant PrintText(enc, data) == Prepend(printed, PrintText(enc, From(data, here)))
        invariant here <= end ==> Partial(enc, data) == printed + PartialFrom(enc, data, here)
      {
        var stop := FindAsciiChar(enc, Specials, data, here);
        PrintTextTurn(enc, data, here);
        if stop.Failure? {
          assert printed + [] == printed;
          return Throw(BadEncoding(stop.error));
        }
        ghost var turn, before := Turn(data, here, stop.value), buffer;
        PrependTwice(printed, turn, PrintText(enc, From(data, stop.value + 1)));
        buffer := buffer + data[here..stop.value];
        if stop.value < end {
          // The internal error "unexpectedly stopped" is out of reach: e is not None.
          SpecialsEscape(data[stop.value]);
          var e := EscapeChar(data[stop.value]);
          buffer := buffer + [BACKSLASH, e.value];
          Assoc(before, data[here..stop.value], [BACKSLASH, e.value]);
          Assoc(printed, turn, PartialFrom(enc, data, stop.value + 1));
        } else {
          Assoc(before, data[here..stop.value], []);
        }
        Assoc(old(buffer), printed, turn);
        printed := printed + turn;
        here := stop.value + 1;
      }
      PrintsNothing(enc);
      assert From(data, here) == [];
      buffer := buffer + [TAB];
      o := Pass;
    }

    /** Appends an arithmetic field and its tab: the digits go straight into the
        buffer, without a search for special characters.  `asserted` is what the
        source asserts about the room that is left. */
    method AppendNumber(t: IntType, number: int) returns (asserted: bool)
      requires t.Has(number)
      modifies this`buffer
      ensures IsPlain(Decimal(number)) && buffer == old(buffer) + Ascii(Decimal(number)) + [TAB]
      ensures asserted <==> |Decimal(number)| < SizeBuffer(t)
    {
      hide Decimal, SizeBuffer;
      var budget := SizeBuffer(t);
      var room := new char[budget + 1];
      var end := IntoBuf(t, room, 0, budget + 1, number);
      asserted := end.value + 1 < budget + 1;
      DecimalIsPlain(number);
      assert room[..end.value] == Decimal(number);
      buffer := buffer + Ascii(room[..end.value]) + [TAB];
    }

    method AppendToBuffer(f: Field) returns (o: Outcome<CopyError>)
      modifies this`buffer
      ensures PrintField(enc, f).Success? ==>
                o.Pass? && buffer == old(buffer) + PrintField(enc, f).value + [TAB]
      ensures PrintField(enc, f).Failure? ==>
                o == Throw(BadEncoding(PrintField(enc, f).error)) && buffer == old(buffer) + Partial(enc, f.value)
    {
      if f.None? {
        buffer := buffer + [BACKSLASH, LETTER_N, TAB];
        o := Pass;
      } else {
        o := EscapeFieldToBuffer(f.value);
      }
    }

    /** Hands the buffer to the server without its last tab, and clears it. */
    method WriteBuffer()
      requires buffer != [] ==> buffer[|buffer| - 1] == TAB
      modifies this
      ensures buffer == []
      ensures sent == old(sent) + [WithoutLast(old(buffer))]
    {
      if buffer != [] {
        buffer := buffer[..|buffer| - 1];
      }
      sent := sent + [buffer];
      buffer := [];
    }

    /** Prints a whole row.  A row that fails is not sent, but what it left in the
        buffer is: the next row goes out behind it. */
    method WriteRow(fs: seq<Field>) returns (o: Outcome<CopyError>)
      requires fs == [] && buffer != [] ==> buffer[|buffer| - 1] == TAB
      modifies this
      ensures PrintRow(enc, fs).Success? ==>
                o.Pass? && buffer == []
                && sent == old(sent) + [WithoutLast(old(buffer) + PrintFields(enc, fs).value)]
      ensures PrintRow(enc, fs).Success? && old(buffer) == [] ==>
                sent == old(sent) + [PrintRow(enc, fs).value]
      ensures PrintRow(enc, fs).Failure? ==>
                o == Throw(BadEncoding(PrintRow(enc, fs).error))
                && sent == old(sent) && buffer == old(buffer) + Leftover(enc, fs)
    {
      hide PrintField, Partial;
      assert fs[0..] == fs;
      if buffer == [] {
        PrependNothing(PrintFields(enc, fs));
      }
      for i := 0 to |fs|
        invariant sent == old(sent) && old(buffer) + Leftover(enc, fs) == buffer + Leftover(enc, fs[i..])
        invariant Prepend(old(buffer), PrintFields(enc, fs)) == Prepend(buffer, PrintFields(enc, fs[i..]))
        invariant i > 0 ==> buffer != [] && buffer[|buffer| - 1] == TAB
      {
        PrintFieldsStep(enc, fs, i, buffer);
        LeftoverStep(enc, fs, i, buffer);
        o := AppendToBuffer(fs[i]);
        if o.Throw? {
          return o;
        }
      }
      assert fs[|fs|..] == [];
      Assoc(buffer, [], []);
      WriteBuffer();
      o := Pass;
    }
  }

  // ---- Parsing ----------------------------------------------------------

  /** The field under construction: its text so far, or null. */
  function Extend(cur: Field, more: Bytes): Field {
    match cur
    case None => None
    case Some(b) => Some(b + more)
  }

  lemma ExtendNothing(cur: Field)
    ensures Extend(cur, []) == cur
  {
    if cur.Some? {
      assert cur.value + [] == cur.value;
    }
  }

  lemma ExtendTwice(cur: Field, a: Bytes, b: Bytes)
    ensures Extend(Extend(cur, a), b) == Extend(cur, a + b)
  {
    if cur.Some? {
      assert cur.value + a + b == cur.value + (a + b);
    }
  }

  /** What a line means, one glyph at a time, when `done` holds the fields that
      are complete and `cur` the one that is being read. */
  function ParseFrom(enc: EncodingGroup, s: Bytes, cur: Field, done: seq<Field>): Result<seq<Field>, CopyError>
    decreases |s|
  {
    if s == [] then Success(done + [cur])
    else
      var next := GlyphEnd(enc, s, 0);
      if next.Failure? then Failure(BadEncoding(next.error))
      else if s[0] == TAB then ParseFrom(enc, s[1..], Some([]), done + [cur])
      else if s[0] == BACKSLASH then
        if |s| < 2 then Failure(EndsInBackslash)
        else if s[1] == LETTER_N then
          if cur != Some([]) then Failure(NullInNonemptyField)
          else ParseFrom(enc, s[2..], None, done)
        else ParseFrom(enc, s[2..], Extend(cur, [UnescapeChar(s[1])]), done)
      else ParseFrom(enc, s[next.value..], Extend(cur, s[..next.value]), done)
  }

  function ParseRow(enc: EncodingGroup, line: Bytes): Result<seq<Field>, CopyError> {
    ParseFrom(enc, line, Some([]), [])
  }

  /** One glyph that is neither a tab nor a backslash, in the middle of a line. */
  lemma ParseOrdinary(enc: EncodingGroup, s: Bytes, i: nat, cur: Field, done: seq<Field>)
    requires i < |s| && s[i] !in Stops
    ensures var next := GlyphEnd(enc, s, i);
            ParseFrom(enc, s[i..], cur, done)
            == if next.Failure? then Failure(BadEncoding(next.error))
               else ParseFrom(enc, s[next.value..], Extend(cur, s[i..next.value]), done)
  {
    var next := GlyphEnd(enc, s, i);
    GlyphSuffix(enc, s, i);
    assert s[i..][0] == s[i];
    if next.Success? {
      assert s[i..][..next.value - i] == s[i..next.value];
      assert s[i..][next.value - i..] == s[next.value..];
    }
  }

  /** Copying up to the next tab or backslash in one go reads the same fields. */
  lemma {:induction false} ParseSkip(enc: EncodingGroup, s: Bytes, i: nat, cur: Field, done: seq<Field>)
    requires i <= |s|
    ensures var stop := Find(enc, Stops, s, i);
            ParseFrom(enc, s[i..], cur, done)
            == if stop.Failure? then Failure(BadEncoding(stop.error))
               else ParseFrom(enc, s[stop.value..], Extend(cur, s[i..stop.value]), done)
    decreases |s| - i
  {
    hide GlyphEnd, ParseFrom, Extend;
    var stop := Find(enc, Stops, s, i);
    if i == |s| || s[i] in Stops {
      assert stop == Success(i);
      assert s[i..i] == [];
      ExtendNothing(cur);
    } else {
      var next := GlyphEnd(enc, s, i);
      ParseOrdinary(enc, s, i, cur, done);
      if next.Success? {
        var cur' := Extend(cur, s[i..next.value]);
        ParseSkip(enc, s, next.value, cur', done);
        if stop.Success? {
          assert s[i..stop.value] == s[i..next.value] + s[next.value..stop.value];
          ExtendTwice(cur, s[i..next.value], s[next.value..stop.value]);
        }
      }
    }
  }

  /** A view into the row buffer: where a field starts and how long it is, or
      null. */
  type View = Option<(nat, nat)>

  function Content(row: Bytes, v: View): (f: Field)
    requires v.Some? ==> v.value.0 + v.value.1 <= |row|
  {
    if v.None? then None else Some(row[v.value.0..v.value.0 + v.value.1])
  }

  predicate ViewsIn(views: seq<View>, size: nat) {
    forall i :: 0 <= i < |views| && views[i].Some? ==> views[i].value.0 + views[i].value.1 <= size
  }

  function Contents(row: Bytes, views: seq<View>): (fs: seq<Field>)
    requires ViewsIn(views, |row|)
    ensures |fs| == |views|
  {
    seq(|views|, i requires 0 <= i < |views| => Content(row, views[i]))
  }

  /** Views do not see what is written behind them. */
  lemma ContentsStable(row: Bytes, row': Bytes, views: seq<View>)
    requires ViewsIn(views, |row|) && row <= row'
    ensures ViewsIn(views, |row'|) && Contents(row', views) == Contents(row, views)
  {
    forall i | 0 <= i < |views|
      ensures Contents(row', views)[i] == Contents(row, views)[i]
    {
      if views[i].Some? {
        var (b, n) := views[i].value;
        assert row'[b..b + n] == row[b..b + n];
      }
    }
  }

  const SIZE_MAX: nat := 0xffff_ffff_ffff_ffff

  /** The text between two offsets of the row buffer, or null. */
  function Current(row: Bytes, fieldBegin: Option<nat>): Field
    requires fieldBegin.Some? ==> fieldBegin.value <= |row|
  {
    if fieldBegin.None? then None else Some(row[fieldBegin.value..])
  }

  /** The view of a field that ends where the next byte would be written. */
  function ViewTo(write: nat, fieldBegin: Option<nat>): View
    requires fieldBegin.Some? ==> fieldBegin.value <= write
  {
    if fieldBegin.None? then None else Some((fieldBegin.value, write - fieldBegin.value))
  }

  /** The state of the parser between two steps: `row` is the part of the row
      buffer that has been written.  It is never longer than what was read. */
  predicate Parsing(
    enc: EncodingGroup, line: Bytes, offset: nat, row: Bytes, fieldBegin: Option<nat>, views: seq<View>)
  {
    && |row| <= offset <= |line|
    && (fieldBegin.Some? ==> fieldBegin.value <= |row|)
    && ViewsIn(views, |row|)
    && ParseRow(enc, line) == ParseFrom(enc, line[offset..], Current(row, fieldBegin), Contents(row, views))
  }

  lemma CurrentExtended(row: Bytes, chunk: Bytes, fieldBegin: Option<nat>)
    requires fieldBegin.Some? ==> fieldBegin.value <= |row|
    ensures Current(row + chunk, fieldBegin) == Extend(Current(row, fieldBegin), chunk)
  {
    if fieldBegin.Some? {
      assert (row + chunk)[fieldBegin.value..] == row[fieldBegin.value..] + chunk;
    }
  }

  lemma StepStart(enc: EncodingGroup, line: Bytes)
    ensures Parsing(enc, line, 0, [], Some(0), [])
  {
    assert line[0..] == line;
    assert Contents([], []) == [];
  }

  lemma StepCopy(
    enc: EncodingGroup, line: Bytes, offset: nat, row: Bytes, fieldBegin: Option<nat>, views: seq<View>)
    requires Parsing(enc, line, offset, row, fieldBegin, views)
    ensures var stop := Find(enc, Stops, line, offset);
            if stop.Failure? then ParseRow(enc, line) == Failure(BadEncoding(stop.error))
            else Parsing(enc, line, stop.value, row + line[offset..stop.value], fieldBegin, views)
  {
    ParseSkip(enc, line, offset, Current(row, fieldBegin), Contents(row, views));
    var stop := Find(enc, Stops, line, offset);
    if stop.Success? {
      var chunk := line[offset..stop.value];
      CurrentExtended(row, chunk, fieldBegin);
      ContentsStable(row, row + chunk, views);
    }
  }

  lemma EndField(row: Bytes, fieldBegin: Option<nat>, views: seq<View>)
    requires (fieldBegin.Some? ==> fieldBegin.value <= |row|) && ViewsIn(views, |row|)
    ensures var views' := views + [ViewTo(|row|, fieldBegin)];
            ViewsIn(views', |row|)
            && Contents(row, views') == Contents(row, views) + [Current(row, fieldBegin)]
  {
    var view := ViewTo(|row|, fieldBegin);
    if fieldBegin.Some? {
      assert row[fieldBegin.value..|row|] == row[fieldBegin.value..];
    }
    assert Content(row, view) == Current(row, fieldBegin);
  }

  lemma StepTab(
    enc: EncodingGroup, line: Bytes, offset: nat, row: Bytes, fieldBegin: Option<nat>, views: seq<View>)
    requires Parsing(enc, line, offset, row, fieldBegin, views)
    requires offset < |line| && line[offset] == TAB
    ensures Parsing(enc, line, offset + 1, row, Some(|row|), views + [ViewTo(|row|, fieldBegin)])
  {
    EndField(row, fieldBegin, views);
    var s := line[offset..];
    assert s[0] == TAB && s[1..] == line[offset + 1..];
    assert row[|row|..] == [];
  }

  lemma StepEscape(
    enc: EncodingGroup, line: Bytes, offset: nat, row: Bytes, fieldBegin: Option<nat>, views: seq<View>)
    requires Parsing(enc, line, offset, row, fieldBegin, views)
    requires offset < |line| && line[offset] == BACKSLASH
    ensures offset + 1 == |line| ==> ParseRow(enc, line) == Failure(EndsInBackslash)
    ensures offset + 1 < |line| && line[offset + 1] == LETTER_N ==>
              if fieldBegin != Some(|row|) then ParseRow(enc, line) == Failure(NullInNonemptyField)
              else Parsing(enc, line, offset + 2, row + [UnescapeChar(LETTER_N)], None, views)
    ensures offset + 1 < |line| && line[offset + 1] != LETTER_N ==>
              Parsing(enc, line, offset + 2, row + [UnescapeChar(line[offset + 1])], fieldBegin, views)
  {
    var s := line[offset..];
    assert s[0] == BACKSLASH;
    if offset + 1 < |line| {
      var c := line[offset + 1];
      assert s[1] == c && s[2..] == line[offset + 2..];
      ContentsStable(row, row + [UnescapeChar(c)], views);
      if c != LETTER_N {
        CurrentExtended(row, [UnescapeChar(c)], fieldBegin);
      } else if fieldBegin == Some(|row|) {
        assert row[|row|..] == [];
      } else {
        assert Current(row, fieldBegin) != Some([]);
      }
    }
  }

  lemma StepEnd(
    enc: EncodingGroup, line: Bytes, offset: nat, row: Bytes, fieldBegin: Option<nat>, views: seq<View>)
    requires Parsing(enc, line, offset, row, fieldBegin, views)
    requires offset == |line|
    ensures var views' := views + [ViewTo(|row|, fieldBegin)];
            ViewsIn(views', |row|) && ParseRow(enc, line) == Success(Contents(row, views'))
  {
    EndField(row, fieldBegin, views);
    assert line[offset..] == [];
  }

  class StreamFrom {
    const enc: EncodingGroup
    var row: array<Byte>
    var fields: seq<View>

    constructor (enc: EncodingGroup)
      ensures this.enc == enc && fields == [] && fresh(row)
    {
      this.enc := enc;
      fields := [];
      row := new Byte[0];
    }

    /** Unescapes a line into the row buffer, which is exactly as long as the
        line, and leaves the fields as views into that buffer.  `consumed` and
        `written` are the read and write offsets when the call ends: the write
        offset never passes the read offset, so no write can leave the buffer. */
    method ParseLine(line: Bytes) returns (o: Outcome<CopyError>, consumed: nat, written: nat)
      modifies this
      ensures written <= consumed <= |line|
      ensures |line| >= 0x7fff_ffff_ffff_ffff ==> o == Throw(LineTooLong)
      ensures |line| < 0x7fff_ffff_ffff_ffff && ParseRow(enc, line).Success? ==>
                o.Pass? && written <= row.Length == |line| && ViewsIn(fields, written)
                && Contents(row[..written], fields) == ParseRow(enc, line).value
      ensures |line| < 0x7fff_ffff_ffff_ffff && ParseRow(enc, line).Failure? ==>
                o == Throw(ParseRow(enc, line).error)
    {
      hide Parsing, ParseRow, Find, UnescapeChar, Contents, ViewsIn, GlyphEnd;
      fields := [];
      if |line| >= SIZE_MAX / 2 {
        return Throw(LineTooLong), 0, 0;
      }
      row := new Byte[|line|];
      var write, offset := 0, 0;
      var fieldBegin: Option<nat> := Some(write);
      StepStart(enc, line);
      assert row[..0] == [];
      while offset < |line|
        invariant fresh(row) && row.Length == |line|
        invariant write <= offset <= |line|
        invariant Parsing(enc, line, offset, row[..write], fieldBegin, fields)
      {
        var stop := FindAsciiChar(enc, Stops, line, offset);
        ghost var before := row[..write];
        StepCopy(enc, line, offset, before, fieldBegin, fields);
        if stop.Failure? {
          return Throw(BadEncoding(stop.error)), offset, write;
        }
        CopyInto(row, write, line[offset..stop.value]);
        write := write + (stop.value - offset);
        offset := stop.value;
        if offset >= |line| {
          break;
        }
        var special := line[offset];
        before := row[..write];
        if special == TAB {
          StepTab(enc, line, offset, before, fieldBegin, fields);
          fields := fields + [ViewTo(write, fieldBegin)];
          fieldBegin := Some(write);
          offset := offset + 1;
        } else {
          StepEscape(enc, line, offset, before, fieldBegin, fields);
          offset := offset + 1;
          if offset >= |line| {
            return Throw(EndsInBackslash), offset, write;
          }
          var escaped := line[offset];
          offset := offset + 1;
          if escaped == LETTER_N {
            if fieldBegin != Some(write) {
              return Throw(NullInNonemptyField), offset, write;
            }
            fieldBegin := None;
          }
          CopyInto(row, write, [UnescapeChar(escaped)]);
          write := write + 1;
        }
      }
      StepEnd(enc, line, offset, row[..write], fieldBegin, fields);
      fields := fields + [ViewTo(write, fieldBegin)];
      return Pass, offset, write;
    }
  }

  // ---- The round trip ---------------------------------------------------

  /** Escaping and unescaping a single character. */
  lemma EscapeRoundTrip(b: Byte)
    ensures EscapeChar(b).Some? <==> b in Specials
    ensures EscapeChar(b).Some? ==>
              var e := EscapeChar(b).value; UnescapeChar(e) == b && e != LETTER_N && e !in {TAB, NEWLINE}
  {
  }

  /** Reading back one printed glyph appends that glyph to the current field. */
  lemma ParsePrintedGlyph(enc: EncodingGroup, g: Bytes, rest: Bytes, cur: Field, done: seq<Field>)
    requires IsGlyph(enc, g)
    ensures ParseFrom(enc, PrintGlyph(g) + rest, cur, done) == ParseFrom(enc, rest, Extend(cur, g), done)
  {
    var s := PrintGlyph(g) + rest;
    EscapeRoundTrip(g[0]);
    if g[0] in Specials {
      AsciiGlyph(enc, g);
      assert g == [g[0]];
      assert s[0] == BACKSLASH && s[1] == EscapeChar(g[0]).value && s[2..] == rest;
    } else {
      GlyphPrefix(enc, g, rest);
      assert s[0] == g[0] && s[..|g|] == g && s[|g|..] == rest;
    }
  }

  lemma {:induction false} ParsePrintedGlyphs(
    enc: EncodingGroup, gs: seq<Bytes>, rest: Bytes, cur: Field, done: seq<Field>)
    requires AllGlyphs(enc, gs)
    ensures ParseFrom(enc, PrintGlyphs(gs) + rest, cur, done) == ParseFrom(enc, rest, Extend(cur, Flatten(gs)), done)
    decreases |gs|
  {
    if gs == [] {
      assert PrintGlyphs(gs) + rest == rest;
      ExtendNothing(cur);
    } else {
      var more := PrintGlyphs(gs[1..]) + rest;
      assert PrintGlyphs(gs) + rest == PrintGlyph(gs[0]) + more;
      ParsePrintedGlyph(enc, gs[0], more, cur, done);
      ParsePrintedGlyphs(enc, gs[1..], rest, Extend(cur, gs[0]), done);
      ExtendTwice(cur, gs[0], Flatten(gs[1..]));
    }
  }

  /** A field that is read behind some text that is already there: a null there is
      an error. */
  function Merge(c: Bytes, f: Field): Option<Field> {
    match f
    case None => if c == [] then Some(None) else None
    case Some(data) => Some(Some(c + data))
  }

  lemma ParsePrintedField(enc: EncodingGroup, f: Field, c: Bytes, rest: Bytes, done: seq<Field>)
    requires PrintField(enc, f).Success?
    ensures ParseFrom(enc, PrintField(enc, f).value + rest, Some(c), done)
            == match Merge(c, f)
               case None => Failure(NullInNonemptyField)
               case Some(f') => ParseFrom(enc, rest, f', done)
  {
    match f
    case None =>
      var s := [BACKSLASH, LETTER_N] + rest;
      assert s[2..] == rest;
    case Some(data) =>
      ParsePrintedGlyphs(enc, Split(enc, data).value, rest, Some(c), done);
  }

  lemma MergeNothing(f: Field)
    ensures Merge([], f) == Some(f)
  {
    if f.Some? {
      assert [] + f.value == f.value;
    }
  }

  /** The print of a row, taken apart. */
  lemma RowParts(enc: EncodingGroup, fs: seq<Field>)
    requires fs != [] && PrintRow(enc, fs).Success?
    ensures PrintField(enc, fs[0]).Success? && PrintRow(enc, fs[1..]).Success?
    ensures PrintRow(enc, fs).value
            == PrintField(enc, fs[0]).value + if |fs| == 1 then [] else [TAB] + PrintRow(enc, fs[1..]).value
  {
    hide PrintField;
    var first, rest := PrintField(enc, fs[0]).value, PrintFields(enc, fs[1..]).value;
    assert PrintFields(enc, fs).value == first + [TAB] + rest;
    if |fs| == 1 {
      assert rest == [];
      assert WithoutLast(first + [TAB] + rest) == first + [];
    } else {
      assert rest != [];
      assert WithoutLast(first + [TAB] + rest) == first + ([TAB] + WithoutLast(rest));
    }
  }

  /** A row that is read behind some text and behind other fields. */
  lemma {:induction false} ParseRowBehind(enc: EncodingGroup, fs: seq<Field>, c: Bytes, done: seq<Field>)
    requires fs != [] && PrintRow(enc, fs).Success?
    ensures ParseFrom(enc, PrintRow(enc, fs).value, Some(c), done)
            == match Merge(c, fs[0])
               case None => Failure(NullInNonemptyField)
               case Some(f) => Success(done + [f] + fs[1..])
    decreases |fs|
  {
    hide ParseFrom, PrintField, PrintRow, Merge;
    RowParts(enc, fs);
    var f := Merge(c, fs[0]);
    if |fs| == 1 {
      ParsePrintedField(enc, fs[0], c, [], done);
      if f.Some? {
        ParseEnd(enc, f.value, done);
        assert done + [f.value] + fs[1..] == done + [f.value];
      }
    } else {
      var rest := PrintRow(enc, fs[1..]).value;
      ParsePrintedField(enc, fs[0], c, [TAB] + rest, done);
      if f.Some? {
        ParseTab(enc, rest, f.value, done);
        ParseRowBehind(enc, fs[1..], [], done + [f.value]);
        MergeNothing(fs[1]);
        RowJoins(done, f.value, fs);
      }
    }
  }

  lemma RowJoins(done: seq<Field>, f: Field, fs: seq<Field>)
    requires |fs| >= 2
    ensures done + [f] + [fs[1]] + fs[1..][1..] == done + [f] + fs[1..]
  {
    assert fs[1..] == [fs[1]] + fs[1..][1..];
  }

  lemma ParseEnd(enc: EncodingGroup, f: Field, done: seq<Field>)
    ensures ParseFrom(enc, [], f, done) == Success(done + [f])
  {
  }

  lemma ParseTab(enc: EncodingGroup, rest: Bytes, f: Field, done: seq<Field>)
    ensures ParseFrom(enc, [TAB] + rest, f, done) == ParseFrom(enc, rest, Some([]), done + [f])
  {
    assert ([TAB] + rest)[1..] == rest;
  }

  lemma {:induction false} PrintsIffWellFormed(enc: EncodingGroup, fs: seq<Field>)
    ensures PrintRow(enc, fs).Success? <==> WellFormed(enc, fs)
  {
    if fs != [] {
      PrintsIffWellFormed(enc, fs[1..]);
      assert forall i :: 0 < i < |fs| ==> fs[i] == fs[1..][i - 1];
      assert forall i :: 0 <= i < |fs| - 1 ==> fs[1..][i] == fs[i + 1];
    }
  }

  /** The parser undoes the printer, in every encoding group: a row of fields
      prints exactly when every field is well formed, and then it reads back as
      the same row exactly when it has at least one field.  (The empty row prints
      as an empty line, which reads as one empty field.) */
  lemma RowRoundTrip(enc: EncodingGroup, fs: seq<Field>)
    ensures PrintRow(enc, fs).Success? <==> WellFormed(enc, fs)
    ensures WellFormed(enc, fs) ==> (ParseRow(enc, PrintRow(enc, fs).value) == Success(fs) <==> fs != [])
    ensures fs == [] ==> ParseRow(enc, PrintRow(enc, fs).value) == Success([Some([])])
  {
    PrintsIffWellFormed(enc, fs);
    if fs == [] {
      assert PrintRow(enc, fs) == Success([]);
      var none: seq<Field>, one: seq<Field> := [], [Some([])];
      assert none + one == one;
    } else if WellFormed(enc, fs) {
      ParseRowBehind(enc, fs, [], []);
      MergeNothing(fs[0]);
      assert [] + [fs[0]] + fs[1..] == fs;
    }
  }

  // ---- What a failed row does to the next -------------------------------

  /** Where the text ends of which that is the print. */
  function PartialEnd(enc: EncodingGroup, s: Bytes, i: nat): (end: nat)
    requires i <= |s|
    ensures i <= end <= |s|
    decreases |s| - i
  {
    var stop := Find(enc, Specials, s, i);
    if stop.Failure? || stop.value == |s| then i else PartialEnd(enc, s, stop.value + 1)
  }

  function PartialText(enc: EncodingGroup, s: Bytes): Bytes {
    s[..PartialEnd(enc, s, 0)]
  }

  lemma {:induction false} PartialFromIsPrint(enc: EncodingGroup, s: Bytes, i: nat)
    requires i <= |s|
    ensures PrintText(enc, s[..PartialEnd(enc, s, i)][i..]) == Success(PartialFrom(enc, s, i))
    decreases |s| - i
  {
    hide PrintText, Find, Turn;
    var stop := Find(enc, Specials, s, i);
    var t := s[..PartialEnd(enc, s, i)];
    if stop.Failure? || stop.value == |s| {
      assert t[i..] == [];
      PrintsNothing(enc);
    } else {
      PartialFromIsPrint(enc, s, stop.value + 1);
      TurnPrints(enc, s, t, i, stop.value, PartialFrom(enc, s, stop.value + 1));
    }
  }

  lemma TurnPrints(enc: EncodingGroup, s: Bytes, t: Bytes, i: nat, j: nat, rest: Bytes)
    requires t <= s && i <= j < |t| && Find(enc, Specials, s, i) == Success(j)
    requires PrintText(enc, t[j + 1..]) == Success(rest)
    ensures PrintText(enc, t[i..]) == Success(Turn(s, i, j) + rest)
  {
    hide PrintText, Find, Turn;
    FindInPrefix(enc, Specials, s, t, i);
    PrintTextTurn(enc, t, i);
    TurnInPrefix(s, t, i, j);
  }

  lemma TurnInPrefix(s: Bytes, t: Bytes, i: nat, stop: nat)
    requires t <= s && i <= stop < |t|
    ensures Turn(t, i, stop) == Turn(s, i, stop)
  {
    hide PrintGlyph;
    assert t[i..stop] == s[i..stop] && t[stop] == s[stop];
  }

  lemma PartialIsPrint(enc: EncodingGroup, s: Bytes)
    ensures PrintText(enc, PartialText(enc, s)) == Success(Partial(enc, s))
  {
    hide PrintText, PartialFrom, PartialEnd;
    PartialFromIsPrint(enc, s, 0);
    var t := PartialText(enc, s);
    assert t[0..] == t;
  }

  lemma PartialNothing(enc: EncodingGroup, s: Bytes)
    ensures PartialText(enc, s) == [] <==> Partial(enc, s) == []
    ensures Split(enc, s).Failure? ==> (Partial(enc, s) == [] <==> Find(enc, Specials, s, 0).Failure?)
  {
    var stop := Find(enc, Specials, s, 0);
    assert PartialText(enc, s) == [] <==> stop.Failure? || stop.value == |s|;
    if stop == Success(|s|) {
      hide PrintText, PartialFrom, PartialEnd, Find, GlyphEnd;
      assert s[0..] == s && s[|s|..] == [];
      PrintTextSkip(enc, s, 0);
      PrintsNothing(enc);
      PrintsIfSplit(enc, s);
    }
  }

  lemma PrintsIfSplit(enc: EncodingGroup, s: Bytes)
    ensures PrintText(enc, s).Success? <==> Split(enc, s).Success?
  {
  }

  /** Where a reader stands: in a field, with other fields complete; or stuck. */
  datatype Reading = Stuck | At(cur: Bytes, done: seq<Field>)

  /** What a reader makes of what a failed row left behind. */
  function ReadLeftover(enc: EncodingGroup, fs: seq<Field>, c: Bytes, done: seq<Field>): Reading {
    if fs == [] then At(c, done)
    else if PrintField(enc, fs[0]).Failure? then At(c + PartialText(enc, fs[0].value), done)
    else
      match Merge(c, fs[0])
      case None => Stuck
      case Some(f) => ReadLeftover(enc, fs[1..], [], done + [f])
  }

  /** The reader goes on from there. */
  function GoOn(enc: EncodingGroup, at: Reading, rest: Bytes): Result<seq<Field>, CopyError> {
    match at
    case Stuck => Failure(NullInNonemptyField)
    case At(c, done) => ParseFrom(enc, rest, Some(c), done)
  }

  lemma {:induction false} LeftoverReads(
    enc: EncodingGroup, fs: seq<Field>, c: Bytes, rest: Bytes, done: seq<Field>)
    ensures ParseFrom(enc, Leftover(enc, fs) + rest, Some(c), done) == GoOn(enc, ReadLeftover(enc, fs, c, done), rest)
    decreases |fs|
  {
    hide ParseFrom, Partial, PartialText, PrintText, Merge;
    if fs == [] {
      assert [] + rest == rest;
    } else {
      var field := PrintField(enc, fs[0]);
      if field.Success? {
        var more := Leftover(enc, fs[1..]);
        assert field.value + [TAB] + more + rest == field.value + ([TAB] + (more + rest));
        ParsePrintedField(enc, fs[0], c, [TAB] + (more + rest), done);
        var f := Merge(c, fs[0]);
        if f.Some? {
          ParseTab(enc, more + rest, f.value, done);
          LeftoverReads(enc, fs[1..], [], rest, done + [f.value]);
        }
      } else {
        PartialReads(enc, fs[0].value, c, rest, done);
      }
    }
  }

  lemma PartialReads(enc: EncodingGroup, s: Bytes, c: Bytes, rest: Bytes, done: seq<Field>)
    ensures ParseFrom(enc, Partial(enc, s) + rest, Some(c), done)
            == ParseFrom(enc, rest, Some(c + PartialText(enc, s)), done)
  {
    hide ParseFrom, Partial, PartialText, PrintText;
    PartialIsPrint(enc, s);
    ParsePrintedField(enc, Some(PartialText(enc, s)), c, rest, done);
  }

  /** A reader that has read something from `at` on: more fields are complete, or
      the current one has grown. */
  ghost predicate Further(c: Bytes, done: seq<Field>, at: Reading) {
    at.Stuck? || |at.done| > |done| || (at.done == done && |at.cur| > |c|)
  }

  lemma {:induction false} LeftoverMoves(enc: EncodingGroup, fs: seq<Field>, c: Bytes, done: seq<Field>)
    ensures var at := ReadLeftover(enc, fs, c, done);
            if Leftover(enc, fs) == [] then at == At(c, done) else Further(c, done, at)
    ensures var at := ReadLeftover(enc, fs, c, done); at.At? ==> |at.done| >= |done|
    decreases |fs|
  {
    hide PrintText, Partial, PartialText, Merge;
    if fs != [] {
      if PrintField(enc, fs[0]).Failure? {
        PartialNothing(enc, fs[0].value);
        assert c + [] == c;
      } else if Merge(c, fs[0]).Some? {
        LeftoverMoves(enc, fs[1..], [], done + [Merge(c, fs[0]).value]);
      }
    }
  }

  /** The buffer after rows that failed, one after the other. */
  function Buffered(enc: EncodingGroup, rows: seq<seq<Field>>): Bytes {
    if rows == [] then [] else Leftover(enc, rows[0]) + Buffered(enc, rows[1..])
  }

  function ReadBuffered(enc: EncodingGroup, rows: seq<seq<Field>>, at: Reading): Reading
    decreases |rows|
  {
    if rows == [] || at.Stuck? then at
    else ReadBuffered(enc, rows[1..], ReadLeftover(enc, rows[0], at.cur, at.done))
  }

  lemma {:induction false} BufferedReads(enc: EncodingGroup, rows: seq<seq<Field>>, at: Reading, rest: Bytes)
    requires at.At?
    ensures ParseFrom(enc, Buffered(enc, rows) + rest, Some(at.cur), at.done)
            == GoOn(enc, ReadBuffered(enc, rows, at), rest)
    decreases |rows|
  {
    hide ParseFrom, Leftover, ReadLeftover;
    if rows == [] {
      assert [] + rest == rest;
    } else {
      var more := Buffered(enc, rows[1..]) + rest;
      Assoc(Leftover(enc, rows[0]), Buffered(enc, rows[1..]), rest);
      LeftoverReads(enc, rows[0], at.cur, more, at.done);
      var next := ReadLeftover(enc, rows[0], at.cur, at.done);
      if next.At? {
        BufferedReads(enc, rows[1..], next, rest);
      }
    }
  }

  lemma {:induction false} BufferedMoves(enc: EncodingGroup, rows: seq<seq<Field>>, at: Reading)
    requires at.At?
    ensures var to := ReadBuffered(enc, rows, at);
            if Buffered(enc, rows) == [] then to == at else Further(at.cur, at.done, to)
    decreases |rows|
  {
    hide Leftover, ReadLeftover;
    if rows != [] {
      LeftoverMoves(enc, rows[0], at.cur, at.done);
      var next := ReadLeftover(enc, rows[0], at.cur, at.done);
      if next.At? {
        BufferedMoves(enc, rows[1..], next);
      }
    }
  }

  /** What becomes of a row that is printed after others have failed. */
  function ReadBehind(at: Reading, fs: seq<Field>): Result<seq<Field>, CopyError>
    requires fs != []
  {
    if at.Stuck? then Failure(NullInNonemptyField)
    else
      match Merge(at.cur, fs[0])
      case None => Failure(NullInNonemptyField)
      case Some(f) => Success(at.done + [f] + fs[1..])
  }

  lemma ReadBehindItself(at: Reading, fs: seq<Field>)
    requires fs != [] && (at == At([], []) || Further([], [], at))
    ensures ReadBehind(at, fs) == Success(fs) <==> at == At([], [])
  {
    if at == At([], []) {
      MergeNothing(fs[0]);
      assert [] + [fs[0]] + fs[1..] == fs;
    } else if at.At? && Merge(at.cur, fs[0]).Some? {
      var f := Merge(at.cur, fs[0]).value;
      var r := at.done + [f] + fs[1..];
      assert |r| == |at.done| + |fs|;
      if at.done == [] {
        assert r[0] == f && f.Some? && |f.value| == |at.cur| + |fs[0].value|;
      }
    }
  }

  /** A row that fails leaves what it has printed in the buffer, and a later row goes
      out behind it.  However many rows have failed before, that row reads back as
      itself if and only if they have left nothing. */
  lemma RowAfterFailures(enc: EncodingGroup, rows: seq<seq<Field>>, fs: seq<Field>)
    requires fs != [] && WellFormed(enc, fs)
    ensures PrintFields(enc, fs).Success?
    ensures var line := WithoutLast(Buffered(enc, rows) + PrintFields(enc, fs).value);
            && ParseRow(enc, line) == ReadBehind(ReadBuffered(enc, rows, At([], [])), fs)
            && (ParseRow(enc, line) == Success(fs) <==> Buffered(enc, rows) == [])
  {
    hide ParseFrom, Buffered, ReadBuffered, ReadBehind, Split, PrintField;
    PrintsIffWellFormed(enc, fs);
    var b, p := Buffered(enc, rows), PrintFields(enc, fs).value;
    assert p != [];
    assert WithoutLast(b + p) == b + WithoutLast(p);
    BufferedReads(enc, rows, At([], []), WithoutLast(p));
    var at := ReadBuffered(enc, rows, At([], []));
    BehindReads(enc, at, fs);
    BufferedMoves(enc, rows, At([], []));
    ReadBehindItself(at, fs);
  }

  lemma BehindReads(enc: EncodingGroup, at: Reading, fs: seq<Field>)
    requires fs != [] && PrintRow(enc, fs).Success?
    ensures GoOn(enc, at, PrintRow(enc, fs).value) == ReadBehind(at, fs)
  {
    hide ParseFrom, PrintRow;
    if at.At? {
      ParseRowBehind(enc, fs, at.cur, at.done);
    }
  }

  /** Exactly then does a failed row leave nothing: its first field is the bad one,
      and the search for special characters meets the fault before it finds any. */
  lemma LeavesNothing(enc: EncodingGroup, fs: seq<Field>)
    requires !WellFormed(enc, fs)
    ensures Leftover(enc, fs) == []
            <==> fs[0].Some? && Split(enc, fs[0].value).Failure? && Find(enc, Specials, fs[0].value, 0).Failure?
  {
    hide Partial, Find, GlyphEnd;
    if PrintField(enc, fs[0]).Failure? {
      PartialNothing(enc, fs[0].value);
    }
  }

  /** "a", a tab, and half a character. */
  const HALF: Bytes := [0x61, TAB, 0x81]

  /** A row with that for a field is not printed.  The next row, "b", then reads back
      as "a", a tab and "b"; and a row that is a null does not read back at all. */
  lemma FailedRowSpoilsNext()
    ensures PrintRow(TwoTier, [Some(HALF)]).Failure?
    ensures PrintFields(TwoTier, [Some([0x62])]).Success? && PrintFields(TwoTier, [None]).Success?
    ensures ParseRow(TwoTier, WithoutLast(Leftover(TwoTier, [Some(HALF)]) + PrintFields(TwoTier, [Some([0x62])]).value))
            == Success([Some([0x61, TAB, 0x62])])
    ensures ParseRow(TwoTier, WithoutLast(Leftover(TwoTier, [Some(HALF)]) + PrintFields(TwoTier, [None]).value))
            == Failure(NullInNonemptyField)
  {
    HalfCharacter();
    hide PartialText, Find, GlyphEnd;
    var bad: seq<Field>, next: seq<Field>, nulls: seq<Field> := [Some(HALF)], [Some([0x62])], [None];
    var rows := [bad];
    assert rows[1..] == [] && Buffered(TwoTier, rows) == Leftover(TwoTier, bad) + [];
    assert Leftover(TwoTier, bad) + [] == Leftover(TwoTier, bad);
    assert ReadBuffered(TwoTier, rows, At([], [])) == At([0x61, TAB], []) by {
      assert [] + PartialText(TwoTier, HALF) == [0x61, TAB];
    }
    RowAfterFailures(TwoTier, rows, next);
    RowAfterFailures(TwoTier, rows, nulls);
    assert [0x61, TAB] + [0x62] == [0x61, TAB, 0x62];
    assert [] + [Some([0x61, TAB, 0x62])] + next[1..] == [Some([0x61, TAB, 0x62])];
  }

  lemma HalfCharacter()
    ensures Split(TwoTier, HALF).Failure? && PartialText(TwoTier, HALF) == [0x61, TAB]
    ensures Split(TwoTier, [0x62]).Success?
  {
    assert HALF[1..] == [TAB, 0x81] && [TAB, 0x81][1..] == [0x81];
    assert Find(TwoTier, Specials, HALF, 0) == Success(1);
    assert Find(TwoTier, Specials, HALF, 2).Failure?;
    assert PartialEnd(TwoTier, HALF, 0) == 2;
    assert [0x62][1..] == [];
  }

  // ---- What a printed line looks like -----------------------------------

  function EscapedGlyphs(gs: seq<Bytes>): seq<Bytes>
    requires forall i :: 0 <= i < |gs| ==> gs[i] != []
  {
    if gs == [] then [] else EscapedGlyph(gs[0]) + EscapedGlyphs(gs[1..])
  }

  function EscapedGlyph(g: Bytes): seq<Bytes>
    requires g != []
  {
    var e := EscapeChar(g[0]);
    if e.Some? then [[BACKSLASH], [e.value]] else [g]
  }

  function FieldGlyphs(enc: EncodingGroup, f: Field): seq<Bytes>
    requires PrintField(enc, f).Success?
  {
    match f
    case None => [[BACKSLASH], [LETTER_N]]
    case Some(data) => EscapedGlyphs(Split(enc, data).value)
  }

  /** The glyphs of a row that ends each field with a tab. */
  function RowGlyphs(enc: EncodingGroup, fs: seq<Field>): seq<Bytes>
    requires PrintFields(enc, fs).Success?
  {
    if fs == [] then [] else FieldGlyphs(enc, fs[0]) + [[TAB]] + RowGlyphs(enc, fs[1..])
  }

  predicate NoRaw(gs: seq<Bytes>, b: Byte) {
    forall i :: 0 <= i < |gs| ==> gs[i] != [b]
  }

  lemma EscapedGlyphShape(enc: EncodingGroup, g: Bytes)
    requires IsGlyph(enc, g)
    ensures AllGlyphs(enc, EscapedGlyph(g)) && Flatten(EscapedGlyph(g)) == PrintGlyph(g)
    ensures NoRaw(EscapedGlyph(g), TAB) && NoRaw(EscapedGlyph(g), NEWLINE)
  {
    EscapeRoundTrip(g[0]);
    var e := EscapeChar(g[0]);
    if e.Some? {
      FlattenConcat([[BACKSLASH]], [[e.value]]);
      assert [[BACKSLASH]] + [[e.value]] == EscapedGlyph(g);
      FlattenOne([BACKSLASH]);
      FlattenOne([e.value]);
    } else {
      FlattenOne(g);
    }
  }

  lemma {:induction false} EscapedGlyphsShape(enc: EncodingGroup, gs: seq<Bytes>)
    requires AllGlyphs(enc, gs)
    ensures AllGlyphs(enc, EscapedGlyphs(gs)) && Flatten(EscapedGlyphs(gs)) == PrintGlyphs(gs)
    ensures NoRaw(EscapedGlyphs(gs), TAB) && NoRaw(EscapedGlyphs(gs), NEWLINE)
  {
    if gs != [] {
      hide GlyphEnd, EscapedGlyph, PrintGlyph, Flatten;
      EscapedGlyphsShape(enc, gs[1..]);
      EscapedGlyphShape(enc, gs[0]);
      FlattenConcat(EscapedGlyph(gs[0]), EscapedGlyphs(gs[1..]));
    }
  }

  lemma FieldGlyphsShape(enc: EncodingGroup, f: Field)
    requires PrintField(enc, f).Success?
    ensures AllGlyphs(enc, FieldGlyphs(enc, f)) && Flatten(FieldGlyphs(enc, f)) == PrintField(enc, f).value
    ensures NoRaw(FieldGlyphs(enc, f), TAB) && NoRaw(FieldGlyphs(enc, f), NEWLINE)
  {
    match f
    case None =>
      var gs: seq<Bytes> := [[BACKSLASH], [LETTER_N]];
      assert gs[1..] == [[LETTER_N]] && gs[1..][1..] == [];
      assert Flatten(gs[1..]) == [LETTER_N];
    case Some(data) =>
      EscapedGlyphsShape(enc, Split(enc, data).value);
  }

  function Count(gs: seq<Bytes>, b: Byte): nat {
    if gs == [] then 0 else (if gs[0] == [b] then 1 else 0) + Count(gs[1..], b)
  }

  lemma {:induction false} CountConcat(a: seq<Bytes>, b: seq<Bytes>, x: Byte)
    ensures Count(a + b, x) == Count(a, x) + Count(b, x)
  {
    if a == [] {
      assert a + b == b;
    } else {
      assert (a + b)[1..] == a[1..] + b;
      CountConcat(a[1..], b, x);
    }
  }

  lemma {:induction false} CountNone(gs: seq<Bytes>, b: Byte)
    requires NoRaw(gs, b)
    ensures Count(gs, b) == 0
  {
    if gs != [] {
      CountNone(gs[1..], b);
    }
  }

  /** A field and its tab, in front of the glyphs of the rest of the row. */
  lemma FieldThenRow(enc: EncodingGroup, field: seq<Bytes>, rest: seq<Bytes>)
    requires AllGlyphs(enc, field) && NoRaw(field, TAB) && NoRaw(field, NEWLINE)
    requires AllGlyphs(enc, rest) && NoRaw(rest, NEWLINE)
    ensures var all := field + [[TAB]] + rest;
            && AllGlyphs(enc, all) && NoRaw(all, NEWLINE)
            && Flatten(all) == Flatten(field) + [TAB] + Flatten(rest)
            && Count(all, TAB) == 1 + Count(rest, TAB)
  {
    hide GlyphEnd;
    var tab: seq<Bytes> := [[TAB]];
    assert tab[1..] == [];
    assert Flatten(tab) == [TAB] + [];
    FlattenConcat(field, tab);
    FlattenConcat(field + tab, rest);
    CountNone(field, TAB);
    assert Count(tab, TAB) == 1;
    CountConcat(field, tab, TAB);
    CountConcat(field + tab, rest, TAB);
  }

  lemma {:induction false} RowGlyphsShape(enc: EncodingGroup, fs: seq<Field>)
    requires PrintFields(enc, fs).Success?
    ensures AllGlyphs(enc, RowGlyphs(enc, fs)) && Flatten(RowGlyphs(enc, fs)) == PrintFields(enc, fs).value
    ensures NoRaw(RowGlyphs(enc, fs), NEWLINE) && Count(RowGlyphs(enc, fs), TAB) == |fs|
    ensures fs != [] ==> RowGlyphs(enc, fs) != [] && RowGlyphs(enc, fs)[|RowGlyphs(enc, fs)| - 1] == [TAB]
  {
    if fs != [] {
      FieldGlyphsShape(enc, fs[0]);
      RowGlyphsShape(enc, fs[1..]);
      FieldThenRow(enc, FieldGlyphs(enc, fs[0]), RowGlyphs(enc, fs[1..]));
    }
  }

  /** A printed row is a well-formed text without a raw newline, and its raw tabs
      are exactly the separators: one fewer than there are fields. */
  lemma PrintedRowShape(enc: EncodingGroup, fs: seq<Field>)
    requires fs != [] && WellFormed(enc, fs)
    ensures PrintRow(enc, fs).Success?
    ensures var line := Split(enc, PrintRow(enc, fs).value);
            line.Success? && NoRaw(line.value, NEWLINE) && Count(line.value, TAB) == |fs| - 1
  {
    hide GlyphEnd, RowGlyphs, WellFormed, PrintFields, Split, Flatten;
    PrintsIffWellFormed(enc, fs);
    RowGlyphsShape(enc, fs);
    var all := RowGlyphs(enc, fs);
    var gs, tab: seq<Bytes> := all[..|all| - 1], [[TAB]];
    assert all == gs + tab;
    FlattenOne([TAB]);
    FlattenConcat(gs, tab);
    assert PrintRow(enc, fs).value == Flatten(gs);
    SplitFlatten(enc, gs);
    CountConcat(gs, tab, TAB);
    assert Count(tab, TAB) == 1 by { assert tab[1..] == []; }
  }

  // ---- Newlines as bytes ------------------------------------------------

  /** Some character of a well-formed text is longer than a byte and has byte b in
      it. */
  ghost predicate Hides(enc: EncodingGroup, s: Bytes, b: Byte)
    requires Split(enc, s).Success?
  {
    exists g :: g in Split(enc, s).value && |g| > 1 && b in g
  }

  lemma {:induction false} InFlatten(gs: seq<Bytes>, b: Byte)
    ensures b in Flatten(gs) <==> exists g :: g in gs && b in g
  {
    if gs != [] {
      InFlatten(gs[1..], b);
      assert gs == [gs[0]] + gs[1..];
      assert forall g :: g in gs <==> g == gs[0] || g in gs[1..];
    }
  }

  lemma {:induction false} InEscapedGlyphs(enc: EncodingGroup, gs: seq<Bytes>)
    requires AllGlyphs(enc, gs)
    ensures (exists g :: g in EscapedGlyphs(gs) && NEWLINE in g) <==> (exists g :: g in gs && |g| > 1 && NEWLINE in g)
  {
    if gs != [] {
      hide GlyphEnd, EscapedGlyph;
      InEscapedGlyphs(enc, gs[1..]);
      InEscapedGlyph(enc, gs[0]);
      var first, rest := EscapedGlyph(gs[0]), EscapedGlyphs(gs[1..]);
      assert forall g :: g in first + rest <==> g in first || g in rest;
      assert gs == [gs[0]] + gs[1..];
      assert forall g :: g in gs <==> g == gs[0] || g in gs[1..];
    }
  }

  lemma InEscapedGlyph(enc: EncodingGroup, g: Bytes)
    requires IsGlyph(enc, g)
    ensures (exists h :: h in EscapedGlyph(g) && NEWLINE in h) <==> |g| > 1 && NEWLINE in g
  {
    EscapeRoundTrip(g[0]);
    if EscapeChar(g[0]).Some? {
      AsciiGlyph(enc, g);
    } else {
      assert g in EscapedGlyph(g);
    }
  }

  /** A printed text has a newline byte in it exactly if the text hides one. */
  lemma TextNewline(enc: EncodingGroup, s: Bytes)
    requires Split(enc, s).Success?
    ensures NEWLINE in PrintText(enc, s).value <==> Hides(enc, s, NEWLINE)
  {
    var gs := Split(enc, s).value;
    hide Split, EscapedGlyphs, PrintGlyphs, GlyphEnd;
    EscapedGlyphsShape(enc, gs);
    InFlatten(EscapedGlyphs(gs), NEWLINE);
    InEscapedGlyphs(enc, gs);
  }

  ghost predicate SomeHides(enc: EncodingGroup, fs: seq<Field>, b: Byte)
    requires WellFormed(enc, fs)
  {
    exists i :: 0 <= i < |fs| && fs[i].Some? && Hides(enc, fs[i].value, b)
  }

  lemma {:induction false} FieldsNewline(enc: EncodingGroup, fs: seq<Field>)
    requires WellFormed(enc, fs)
    ensures PrintFields(enc, fs).Success?
    ensures NEWLINE in PrintFields(enc, fs).value <==> SomeHides(enc, fs, NEWLINE)
  {
    hide Split, Hides, PrintText;
    PrintsIffWellFormed(enc, fs);
    if fs != [] {
      assert forall i :: 0 <= i < |fs| - 1 ==> fs[1..][i] == fs[i + 1];
      FieldsNewline(enc, fs[1..]);
      if fs[0].Some? {
        TextNewline(enc, fs[0].value);
      }
      var first, rest := PrintField(enc, fs[0]).value, PrintFields(enc, fs[1..]).value;
      assert forall b :: b in first + [TAB] + rest <==> b in first || b == TAB || b in rest;
      if SomeHides(enc, fs, NEWLINE) && !(fs[0].Some? && Hides(enc, fs[0].value, NEWLINE)) {
        var i :| 0 <= i < |fs| && fs[i].Some? && Hides(enc, fs[i].value, NEWLINE);
        assert fs[1..][i - 1] == fs[i];
      }
    }
  }

  /** A printed row has a newline byte in it if and only if some field hides one in a
      longer character.  That is never so where bytes are characters, nor in GB18030. */
  lemma RowNewline(enc: EncodingGroup, fs: seq<Field>)
    requires WellFormed(enc, fs)
    ensures PrintRow(enc, fs).Success?
    ensures NEWLINE in PrintRow(enc, fs).value <==> SomeHides(enc, fs, NEWLINE)
    ensures enc in {AsciiSafe, Gb18030} ==> NEWLINE !in PrintRow(enc, fs).value
  {
    hide PrintFields, WellFormed, SomeHides;
    FieldsNewline(enc, fs);
    var p := PrintFields(enc, fs).value;
    if p != [] {
      LastIsTab(enc, fs);
      assert p == p[..|p| - 1] + [TAB];
    }
    if enc in {AsciiSafe, Gb18030} {
      NoneHides(enc, fs);
    }
  }

  lemma NoneHides(enc: EncodingGroup, fs: seq<Field>)
    requires enc in {AsciiSafe, Gb18030} && WellFormed(enc, fs)
    ensures !SomeHides(enc, fs, NEWLINE)
  {
    hide GlyphEnd;
    forall i | 0 <= i < |fs| && fs[i].Some?
      ensures !Hides(enc, fs[i].value, NEWLINE)
    {
      forall g | g in Split(enc, fs[i].value).value && |g| > 1
        ensures NEWLINE !in g
      {
        NeverHidden(enc, g);
      }
    }
  }

  lemma {:induction false} LastIsTab(enc: EncodingGroup, fs: seq<Field>)
    requires PrintFields(enc, fs).Success?
    ensures var p := PrintFields(enc, fs).value; p != [] ==> p[|p| - 1] == TAB
  {
    hide PrintField;
    if fs != [] {
      LastIsTab(enc, fs[1..]);
    }
  }

  lemma NeverHidden(enc: EncodingGroup, g: Bytes)
    requires enc in {AsciiSafe, Gb18030} && IsGlyph(enc, g) && |g| > 1
    ensures NEWLINE !in g
  {
  }

  /** It does happen in the other two. */
  lemma NewlineCanBeHidden(enc: EncodingGroup)
    requires enc in {TwoTier, Sjis}
    ensures WellFormed(enc, [Some([0x81, NEWLINE])]) && PrintRow(enc, [Some([0x81, NEWLINE])]).Success?
    ensures NEWLINE in PrintRow(enc, [Some([0x81, NEWLINE])]).value
  {
    var g: Bytes := [0x81, NEWLINE];
    assert IsGlyph(enc, g);
    SplitGlyph(enc, g, []);
    assert g + [] == g && [g] + [] == [g];
    assert g in Split(enc, g).value && |g| > 1 && NEWLINE in g;
    var fs: seq<Field> := [Some(g)];
    assert fs[0].Some? && Hides(enc, fs[0].value, NEWLINE);
    RowNewline(enc, fs);
  }
}
