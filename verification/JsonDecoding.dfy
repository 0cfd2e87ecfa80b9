/**
 What a failed extraction leaves in its target (internal/llm/json.go), for targets that are
 Go structs: ill-formed JSON leaves them alone, and a value of the wrong type is noted while
 the members that fit are still filled in.
 */
module JsonDecoding {
  import opened Results
  import opened JsonScan
  import opened JsonPrinting

  /** A struct's fields by name. */
  type Fields<V> = map<string, V>

  /** What decoding a member's value does to the field it is for: null changes nothing, a
      value of another type is an error. */
  datatype Effect<V> = Put(value: V) | Keep | Mismatch

  /** The struct's type: the field a member name selects, if any, and what values fit it. */
  datatype Shape<!V> = Shape(select: seq<Piece> -> Option<string>, convert: (string, Doc) -> Effect<V>)

  /** What a member is to the struct; a name it does not know is skipped. */
  function MemberEffect<V>(shape: Shape<V>, e: Entry, field: string): Effect<V> {
    if e.key.None? || shape.select(e.key.value.name) != Some(field) then Keep else shape.convert(field, e.value)
  }

  /** One member is decoded into the struct. */
  function FillMember<V>(shape: Shape<V>, e: Entry, out: Fields<V>): Decoded<Fields<V>> {
    var field := if e.key.None? then None else shape.select(e.key.value.name);
    if field.None? then Decoded(true, out)
    else
      match shape.convert(field.value, e.value)
      case Put(value) => Decoded(true, out[field.value := value])
      case Keep => Decoded(true, out)
      case Mismatch => Decoded(false, out)
  }

  /** The members in order; a mismatch is remembered and the rest still decoded. */
  function Fill<V>(shape: Shape<V>, es: Entries, out: Fields<V>): Decoded<Fields<V>> {
    var first := FillMember(shape, es.entry, out);
    match es
    case Last(_) => first
    case More(_, rest) =>
      var others := Fill(shape, rest, first.target);
      Decoded(first.ok && others.ok, others.target)
  }

  const NULL: seq<byte> := [0x6E, 0x75, 0x6C, 0x6C]

  /** A whole value decoded into the struct: only an object and null fit. */
  function DecodeDoc<V>(shape: Shape<V>, d: Doc, out: Fields<V>): Decoded<Fields<V>> {
    match d
    case Literal(t) => Decoded(t == NULL, out)
    case Text(_) => Decoded(false, out)
    case Empty(isObject, _) => Decoded(isObject, out)
    case Filled(isObject, entries) => if isObject then Fill(shape, entries, out) else Decoded(false, out)
  }

  type Parser = seq<byte> -> Option<Doc>

  /** text is d with insignificant whitespace around it. */
  ghost predicate Reads(text: seq<byte>, d: Doc) {
    exists lead, trail :: AllWhitespace(lead) && AllWhitespace(trail) && text == lead + Render(d) + trail
  }

  /** What the parser accepts is a printed value, which it reads alike without the whitespace. */
  ghost predicate Sound(parse: Parser) {
    forall text :: parse(text).Some? ==>
      var d := parse(text).value; Valid(d) && Reads(text, d) && parse(Render(d)) == Some(d)
  }

  /** json.Unmarshal into a struct: the whole text is parsed before anything is filled in. */
  function Unmarshal<V>(parse: Parser, shape: Shape<V>): Decoder<Fields<V>> {
    (text, out) => if parse(text).None? then Decoded(false, out) else DecodeDoc(shape, parse(text).value, out)
  }

  /** The value the last fitting member for the field puts there. */
  function LastPut<V>(shape: Shape<V>, es: Entries, field: string): Option<V> {
    var later := if es.More? then LastPut(shape, es.rest, field) else None;
    var own := MemberEffect(shape, es.entry, field);
    if later.Some? then later else if own.Put? then Some(own.value) else None
  }

  /** Filling in leaves every field with the last value put there, and the others as they were. */
  lemma {:induction false} FillIs<V>(shape: Shape<V>, es: Entries, out: Fields<V>, field: string)
    ensures var after := Fill(shape, es, out).target;
      match LastPut(shape, es, field)
      case Some(value) => field in after && after[field] == value
      case None => (field in after <==> field in out) && (field in out ==> after[field] == out[field])
  {
    if es.More? { FillIs(shape, es.rest, FillMember(shape, es.entry, out).target, field); }
  }

  /** Some member fits, and the struct holds something else in its field. */
  ghost predicate Disturbs<V(!new)>(shape: Shape<V>, es: Entries, out: Fields<V>) {
    exists field :: LastPut(shape, es, field).Some?
      && (field in out ==> out[field] != LastPut(shape, es, field).value)
  }

  lemma FillChanges<V(!new)>(shape: Shape<V>, es: Entries, out: Fields<V>)
    ensures Fill(shape, es, out).target != out <==> Disturbs(shape, es, out)
  {
    hide Fill, LastPut;
    var after := Fill(shape, es, out).target;
    forall field
      ensures LastPut(shape, es, field).Some? ==> field in after && after[field] == LastPut(shape, es, field).value
    {
      FillIs(shape, es, out, field);
    }
    if !Disturbs(shape, es, out) {
      forall field ensures (field in after <==> field in out) && (field in out ==> after[field] == out[field]) {
        FillIs(shape, es, out, field);
      }
    }
  }

  /** Decoding the same members again changes nothing more. */
  lemma FillTwice<V>(shape: Shape<V>, es: Entries, out: Fields<V>)
    ensures var first := Fill(shape, es, out); Fill(shape, es, first.target).target == first.target
  {
    hide Fill, LastPut;
    var once := Fill(shape, es, out).target;
    var twice := Fill(shape, es, once).target;
    forall field ensures (field in twice <==> field in once) && (field in once ==> twice[field] == once[field]) {
      FillIs(shape, es, out, field);
      FillIs(shape, es, once, field);
    }
  }

  predicate Bracketed(d: Doc) { d.Empty? || d.Filled? }

  /** A text that is a bracketed value and whitespace is decoded as its slice is. */
  lemma SliceReadsAlike(text: seq<byte>, parse: Parser, slice: Option<seq<byte>>)
    requires Sound(parse) && SliceOf(text, slice) && parse(text).Some? && Bracketed(parse(text).value)
    ensures slice.Some? && parse(slice.value) == parse(text)
  {
    hide Render, Valid, IsSlice;
    var d := parse(text).value;
    var lead, trail :| AllWhitespace(lead) && AllWhitespace(trail) && text == lead + Render(d) + trail;
    assert forall c :: c in lead ==> !IsOpener(c);
    ExtractedIsPrinted(lead, d, trail);
  }

  /** The members of the object that text is, if it is one. */
  ghost predicate ObjectWith(parse: Parser, text: seq<byte>, es: Entries) { parse(text) == Some(Filled(true, es)) }

  /** "out is left untouched when none was": when nothing decodes, the target has changed
      exactly when the slice is a well-formed object with a member that fits its field and is
      not what the field held. */
  lemma TargetChangesExactly<V(!new)>(
      text: seq<byte>, slice: Option<seq<byte>>, parse: Parser, shape: Shape<V>, out: Fields<V>)
    requires Sound(parse) && SliceOf(text, slice)
    requires !Extracted(text, slice, Unmarshal(parse, shape), out).ok
    ensures Extracted(text, slice, Unmarshal(parse, shape), out).target != out <==>
      slice.Some? && exists es :: ObjectWith(parse, slice.value, es) && Disturbs(shape, es, out)
  {
    hide Sound, SliceOf, Fill, Disturbs;
    if parse(text).Some? && Bracketed(parse(text).value) { SliceReadsAlike(text, parse, slice); }
    var d := if slice.Some? then parse(slice.value) else None;
    if d.Some? && d.value.Filled? && d.value.isObject {
      var es := d.value.entries;
      FillTwice(shape, es, out);
      FillChanges(shape, es, out);
      assert ObjectWith(parse, slice.value, es);
    }
  }

  /** ExtractJSON into a struct. */
  method ExtractStruct<V(!new)>(text: seq<byte>, parse: Parser, shape: Shape<V>, out: Fields<V>)
    returns (result: Decoded<Fields<V>>)
    requires Sound(parse)
    ensures forall slice :: SliceOf(text, slice) ==> result == Extracted(text, slice, Unmarshal(parse, shape), out)
    ensures !result.ok ==> forall slice :: SliceOf(text, slice) ==>
      (result.target != out <==>
         slice.Some? && exists es :: ObjectWith(parse, slice.value, es) && Disturbs(shape, es, out))
  {
    hide Sound, IsSlice, Extracted, Unmarshal, ObjectWith, Disturbs;
    result := ExtractJson(text, Unmarshal(parse, shape), out);
    forall slice | SliceOf(text, slice)
      ensures result == Extracted(text, slice, Unmarshal(parse, shape), out)
      ensures !result.ok ==>
        (result.target != out <==>
           slice.Some? && exists es :: ObjectWith(parse, slice.value, es) && Disturbs(shape, es, out))
    {
      if !result.ok { TargetChangesExactly(text, slice, parse, shape, out); }
    }
  }

  // ---- an instance ----

  /** struct { A, B int } */
  const TWO_INTS: Shape<int> := Shape(
    name => if name == [Plain(0x41)] then Some("A") else if name == [Plain(0x42)] then Some("B") else None,
    (field, value) =>
      if value == Literal(NULL) then Keep
      else if value.Literal? && |value.text| == 1 && IsDigit(value.text[0]) then Put(value.text[0] as int - 0x30)
      else Mismatch)

  function Member(name: byte, value: Doc): Entry { Entry([], Some(Key([Plain(name)], [], [])), value, []) }

  /** {"A":1,"B":"x"} */
  const MISTYPED: Entries := More(Member(0x41, Literal([0x31])), Last(Member(0x42, Text([Plain(0x78)]))))

  const MISTYPED_TEXT: seq<byte> :=
    [0x7B, 0x22, 0x41, 0x22, 0x3A, 0x31, 0x2C, 0x22, 0x42, 0x22, 0x3A, 0x22, 0x78, 0x22, 0x7D]

  lemma NamePrinted(c: byte)
    ensures RenderText([Plain(c)]) == [QUOTE, c, QUOTE]
  {
    assert [Plain(c)][1..] == [];
    assert RenderPieces([Plain(c)]) == [c] + RenderPieces([]);
  }

  lemma MemberPrinted(name: byte, value: Doc)
    ensures RenderEntry(Member(name, value)) == [QUOTE, name, QUOTE, COLON] + Render(value)
  {
    hide RenderText;
    NamePrinted(name);
  }

  lemma MistypedIsPrinted()
    ensures Valid(Filled(true, MISTYPED)) && Render(Filled(true, MISTYPED)) == MISTYPED_TEXT
  {
    NamePrinted(0x78);
    MemberPrinted(0x41, Literal([0x31]));
    MemberPrinted(0x42, Text([Plain(0x78)]));
    hide RenderEntry, RenderText;
  }

  /** A parser of that text. */
  const READER: Parser := text => if text == MISTYPED_TEXT then Some(Filled(true, MISTYPED)) else None

  lemma ReaderIsSound()
    ensures Sound(READER) && SliceOf(MISTYPED_TEXT, Some(MISTYPED_TEXT))
  {
    MistypedIsPrinted();
    hide Render, Valid, IsSlice;
    ExtractedIsPrinted([], Filled(true, MISTYPED), []);
    assert [] + MISTYPED_TEXT + [] == MISTYPED_TEXT && MISTYPED_TEXT[0..|MISTYPED_TEXT|] == MISTYPED_TEXT;
    assert AllWhitespace([]);
  }

  /** {"A":1,"B":"x"} does not decode into two ints, and leaves A set. */
  lemma TargetPartlyFilled()
    ensures Sound(READER) && SliceOf(MISTYPED_TEXT, Some(MISTYPED_TEXT))
    ensures Extracted(MISTYPED_TEXT, Some(MISTYPED_TEXT), Unmarshal(READER, TWO_INTS), map["A" := 0, "B" := 0])
         == Decoded(false, map["A" := 1, "B" := 0])
  {
    ReaderIsSound();
    hide Sound, SliceOf, Fill;
    var out, filled: Fields<int> := map["A" := 0, "B" := 0], map["A" := 1, "B" := 0];
    assert "A" != "B" by { assert "A"[0] != "B"[0]; }
    assert out["A" := 1] == filled && filled["A" := 1] == filled;
    MistypedFills(out);
    MistypedFills(filled);
  }

  lemma MistypedFills(out: Fields<int>)
    ensures Fill(TWO_INTS, MISTYPED, out) == Decoded(false, out["A" := 1])
  {
    assert [Plain(0x42)] != [Plain(0x41)] by { assert [Plain(0x42)][0] != [Plain(0x41)][0]; }
    assert FillMember(TWO_INTS, MISTYPED.entry, out) == Decoded(true, out["A" := 1]);
    assert FillMember(TWO_INTS, MISTYPED.rest.entry, out["A" := 1]) == Decoded(false, out["A" := 1]);
  }
}
