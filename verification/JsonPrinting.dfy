/**
 Printed JSON (RFC 8259) and its agreement with the scanner of internal/llm/json.go.
 A Doc is a JSON value together with every free choice a printer has: the insignificant
 whitespace of section 2 and how each string character is escaped (section 7).
 */
module JsonPrinting {
  import opened Results
  import opened JsonScan

  datatype Doc =
    | Literal(text: seq<byte>)                 // null, true, false or a number
    | Text(pieces: seq<Piece>)                 // section 7
    | Empty(isObject: bool, inside: seq<byte>) // [] or {} with whitespace inside
    | Filled(isObject: bool, entries: Entries) // sections 4 and 5

  datatype Piece = Plain(c: byte) | Escape(c: byte) | Unicode(hex: seq<byte>)

  datatype Entries = Last(entry: Entry) | More(entry: Entry, rest: Entries)

  /** An array element, or an object member when it has a key. */
  datatype Entry = Entry(before: seq<byte>, key: Option<Key>, value: Doc, after: seq<byte>)

  datatype Key = Key(name: seq<Piece>, beforeColon: seq<byte>, afterColon: seq<byte>)

  const COLON: byte := 0x3A
  const COMMA: byte := 0x2C
  const LITERAL_NAMES: set<seq<byte>> :=
    {[0x6E, 0x75, 0x6C, 0x6C], [0x74, 0x72, 0x75, 0x65], [0x66, 0x61, 0x6C, 0x73, 0x65]}

  predicate AllWhitespace(t: seq<byte>) {
    forall c :: c in t ==> c == 0x20 || c == 0x09 || c == 0x0A || c == 0x0D
  }

  predicate IsDigit(c: byte) { 0x30 <= c <= 0x39 }

  predicate IsHex(c: byte) { IsDigit(c) || 0x41 <= c <= 0x46 || 0x61 <= c <= 0x66 }

  /** Any run of the bytes of section 6: digits, sign, point and exponent mark. */
  predicate IsNumberText(t: seq<byte>) {
    t != [] && forall c :: c in t ==> IsDigit(c) || c in {0x2B, 0x2D, 0x2E, 0x45, 0x65}
  }

  predicate ValidPiece(p: Piece) {
    match p
    case Plain(c) => c >= 0x20 && c != QUOTE && c != BACKSLASH
    case Escape(c) => c in {QUOTE, BACKSLASH, 0x2F, 0x62, 0x66, 0x6E, 0x72, 0x74}
    case Unicode(hex) => |hex| == 4 && forall c :: c in hex ==> IsHex(c)
  }

  predicate ValidPieces(ps: seq<Piece>) { forall p :: p in ps ==> ValidPiece(p) }

  predicate Valid(d: Doc) {
    match d
    case Literal(t) => t in LITERAL_NAMES || IsNumberText(t)
    case Text(pieces) => ValidPieces(pieces)
    case Empty(_, inside) => AllWhitespace(inside)
    case Filled(isObject, entries) => ValidEntries(entries, isObject)
  }

  predicate ValidEntries(es: Entries, isObject: bool) {
    match es
    case Last(e) => ValidEntry(e, isObject)
    case More(e, rest) => ValidEntry(e, isObject) && ValidEntries(rest, isObject)
  }

  predicate ValidEntry(e: Entry, isObject: bool) {
    && AllWhitespace(e.before) && AllWhitespace(e.after)
    && (e.key.Some? <==> isObject)
    && (e.key.Some? ==>
          && ValidPieces(e.key.value.name)
          && AllWhitespace(e.key.value.beforeColon)
          && AllWhitespace(e.key.value.afterColon))
    && Valid(e.value)
  }

  function Render(d: Doc): seq<byte> {
    match d
    case Literal(t) => t
    case Text(pieces) => RenderText(pieces)
    case Empty(isObject, inside) => [Opener(isObject)] + inside + [Closer(isObject)]
    case Filled(isObject, entries) => [Opener(isObject)] + RenderEntries(entries) + [Closer(isObject)]
  }

  function RenderEntries(es: Entries): seq<byte> {
    match es
    case Last(e) => RenderEntry(e)
    case More(e, rest) => RenderEntry(e) + [COMMA] + RenderEntries(rest)
  }

  function RenderEntry(e: Entry): seq<byte> {
    e.before + RenderKey(e.key) + Render(e.value) + e.after
  }

  function RenderKey(key: Option<Key>): seq<byte> {
    match key
    case None => []
    case Some(k) => RenderText(k.name) + k.beforeColon + [COLON] + k.afterColon
  }

  function RenderText(pieces: seq<Piece>): seq<byte> { [QUOTE] + RenderPieces(pieces) + [QUOTE] }

  function RenderPieces(ps: seq<Piece>): seq<byte> {
    if ps == [] then [] else RenderPiece(ps[0]) + RenderPieces(ps[1..])
  }

  function RenderPiece(p: Piece): seq<byte> {
    match p
    case Plain(c) => [c]
    case Escape(c) => [BACKSLASH, c]
    case Unicode(hex) => [BACKSLASH, 0x75] + hex
  }

  function Opener(isObject: bool): byte { if isObject then LEFT_BRACE else LEFT_BRACKET }

  function Closer(isObject: bool): byte { if isObject then RIGHT_BRACE else RIGHT_BRACKET }

  /** The state outside any string, k brackets deep. */
  function Outside(k: int): Scan { Scan(k, false, false) }

  /** Scanning t from s neither stops nor changes the state. */
  predicate Neutral(t: seq<byte>, s: Scan) { Quiet(t, s) && Run(t, s) == s }

  lemma NeutralConcat(t: seq<byte>, u: seq<byte>, s: Scan)
    requires Neutral(t, s) && Neutral(u, s)
    ensures Neutral(t + u, s)
  {
    RunConcat(t, u, s);
    EndConcat(t, u, s);
  }

  /** Bytes the automaton ignores in state s. */
  lemma {:induction false} IgnoredNeutral(t: seq<byte>, s: Scan)
    requires forall c :: c in t ==> Step(s, c) == s && !Fires(s, c)
    ensures Neutral(t, s)
  {
    if t != [] { IgnoredNeutral(t[1..], s); }
  }

  lemma EscapeNeutral(c: byte, k: int)
    ensures Neutral([BACKSLASH, c], Scan(k, true, false))
  {
    RunConcat([BACKSLASH], [c], Scan(k, true, false));
    EndConcat([BACKSLASH], [c], Scan(k, true, false));
    assert [BACKSLASH] + [c] == [BACKSLASH, c];
  }

  lemma {:induction false} PiecesNeutral(ps: seq<Piece>, k: int)
    requires ValidPieces(ps)
    ensures Neutral(RenderPieces(ps), Scan(k, true, false))
  {
    if ps != [] {
      var s := Scan(k, true, false);
      assert ValidPiece(ps[0]);
      match ps[0] {
        case Plain(c) => IgnoredNeutral([c], s);
        case Escape(c) => EscapeNeutral(c, k);
        case Unicode(hex) =>
          IgnoredNeutral(hex, s);
          EscapeNeutral(0x75, k);
          NeutralConcat([BACKSLASH, 0x75], hex, s);
      }
      PiecesNeutral(ps[1..], k);
      NeutralConcat(RenderPiece(ps[0]), RenderPieces(ps[1..]), s);
    }
  }

  lemma TextNeutral(ps: seq<Piece>, k: int)
    requires ValidPieces(ps)
    ensures Neutral(RenderText(ps), Outside(k))
  {
    PiecesNeutral(ps, k);
    var body := RenderPieces(ps);
    assert RenderText(ps) == [QUOTE] + (body + [QUOTE]);
    RunConcat(body, [QUOTE], Scan(k, true, false));
    EndConcat(body, [QUOTE], Scan(k, true, false));
    RunConcat([QUOTE], body + [QUOTE], Outside(k));
    EndConcat([QUOTE], body + [QUOTE], Outside(k));
  }

  lemma KeyNeutral(key: Option<Key>, k: int)
    requires key.Some? ==> ValidPieces(key.value.name)
    requires key.Some? ==> AllWhitespace(key.value.beforeColon) && AllWhitespace(key.value.afterColon)
    ensures Neutral(RenderKey(key), Outside(k))
  {
    if key.Some? {
      var s, name, before, after := Outside(k), RenderText(key.value.name), key.value.beforeColon, key.value.afterColon;
      TextNeutral(key.value.name, k);
      IgnoredNeutral(before, s);
      IgnoredNeutral([COLON], s);
      IgnoredNeutral(after, s);
      NeutralConcat(name, before, s);
      NeutralConcat(name + before, [COLON], s);
      NeutralConcat(name + before + [COLON], after, s);
    }
  }

  /** A value printed inside at least one open bracket is passed over unchanged. */
  lemma {:induction false} DocNeutral(d: Doc, k: int)
    requires Valid(d) && k > 0
    ensures Neutral(Render(d), Outside(k))
    decreases d
  {
    match d
    case Literal(t) => IgnoredNeutral(t, Outside(k));
    case Text(pieces) => TextNeutral(pieces, k);
    case Empty(isObject, inside) =>
      IgnoredNeutral(inside, Outside(k + 1));
      BracketsNeutral(isObject, inside, k);
    case Filled(isObject, entries) =>
      EntriesNeutral(entries, isObject, k + 1);
      BracketsNeutral(isObject, RenderEntries(entries), k);
  }

  lemma {:induction false} EntriesNeutral(es: Entries, isObject: bool, k: int)
    requires ValidEntries(es, isObject) && k > 0
    ensures Neutral(RenderEntries(es), Outside(k))
    decreases es
  {
    var e, s := es.entry, Outside(k);
    IgnoredNeutral(e.before, s);
    KeyNeutral(e.key, k);
    DocNeutral(e.value, k);
    IgnoredNeutral(e.after, s);
    NeutralConcat(e.before, RenderKey(e.key), s);
    NeutralConcat(e.before + RenderKey(e.key), Render(e.value), s);
    NeutralConcat(e.before + RenderKey(e.key) + Render(e.value), e.after, s);
    if es.More? {
      IgnoredNeutral([COMMA], s);
      EntriesNeutral(es.rest, isObject, k);
      NeutralConcat(RenderEntry(e), [COMMA], s);
      NeutralConcat(RenderEntry(e) + [COMMA], RenderEntries(es.rest), s);
    }
  }

  /** Brackets around a body that is neutral one level deeper: the closing bracket fires
      exactly when the value is outermost. */
  lemma BracketsNeutral(isObject: bool, body: seq<byte>, k: int)
    requires k >= 0 && Neutral(body, Outside(k + 1))
    ensures var t := [Opener(isObject)] + body + [Closer(isObject)];
      if k == 0 then End(t, START) == |t| else Neutral(t, Outside(k))
  {
    var open, close := [Opener(isObject)], [Closer(isObject)];
    assert open + body + close == open + (body + close);
    assert open[1..] == [] && close[1..] == [] && End([], Outside(k)) == -1;
    assert IsCloser(close[0]) && (Fires(Outside(k + 1), close[0]) <==> k == 0);
    assert Run(open, Outside(k)) == Outside(k + 1) && Quiet(open, Outside(k));
    assert Run(close, Outside(k + 1)) == Outside(k);
    assert End(close, Outside(k + 1)) == if k == 0 then 1 else -1;
    RunConcat(body, close, Outside(k + 1));
    EndConcat(body, close, Outside(k + 1));
    RunConcat(open, body + close, Outside(k));
    EndConcat(open, body + close, Outside(k));
  }

  /** Printed on its own, a bracketed value ends exactly at its last byte. */
  lemma PrintedEnd(d: Doc)
    requires Valid(d) && (d.Empty? || d.Filled?)
    ensures Render(d) != [] && IsOpener(Render(d)[0])
    ensures End(Render(d), START) == |Render(d)|
  {
    if d.Empty? {
      IgnoredNeutral(d.inside, Outside(1));
      BracketsNeutral(d.isObject, d.inside, 0);
    } else {
      EntriesNeutral(d.entries, d.isObject, 1);
      BracketsNeutral(d.isObject, RenderEntries(d.entries), 0);
    }
  }

  /** Printer/scanner agreement: in prose + printed value + prose, the slice the scanner
      cuts is the printed value and nothing else, exactly when the leading prose opens no
      bracket of its own. */
  lemma ExtractedIsPrinted(prefix: seq<byte>, d: Doc, suffix: seq<byte>)
    requires Valid(d) && (d.Empty? || d.Filled?)
    ensures var text := prefix + Render(d) + suffix;
      && text[|prefix|..|prefix| + |Render(d)|] == Render(d)
      && (IsSlice(text, |prefix|, |prefix| + |Render(d)|) <==> forall c :: c in prefix ==> !IsOpener(c))
      && forall s: nat, e: nat :: (forall c :: c in prefix ==> !IsOpener(c)) && IsSlice(text, s, e) ==>
           s == |prefix| && e == |prefix| + |Render(d)|
  {
    var printed := Render(d);
    var text := prefix + printed + suffix;
    PrintedEnd(d);
    EndStable(printed, suffix, []);
    assert text[|prefix|..] == printed + suffix;
    assert text[|prefix|] == printed[0];
    assert forall i :: 0 <= i < |prefix| ==> text[i] == prefix[i];
    forall e ensures FirstReturn(printed + suffix, START, e) <==> e == |printed| {
      EndExact(printed + suffix, e);
    }
    if c :| c in prefix && IsOpener(c) {
      var i :| 0 <= i < |prefix| && prefix[i] == c;
      assert text[i] == c;
    }
  }

  /** The promise of ExtractJSON, end to end: a decodable value wrapped in prose is what
      the caller gets. */
  method ExtractFromProse<T>(prefix: seq<byte>, d: Doc, suffix: seq<byte>, decode: Decoder<T>, out: T)
    returns (result: Decoded<T>)
    requires Valid(d) && (d.Empty? || d.Filled?)
    requires forall c :: c in prefix ==> !IsOpener(c)
    ensures decode(Render(d), out).ok ==> result == decode(Render(d), out)
  {
    ExtractedIsPrinted(prefix, d, suffix);
    result := ExtractJson(prefix + Render(d) + suffix, decode, out);
  }
}
