/**
 The scanner that cuts one JSON value out of a model completion
 (internal/llm/json.go). Texts are byte sequences, as the Go source indexes them.
 */
module JsonScan {
  import opened Results

  newtype byte = b: int | 0 <= b < 256

  const QUOTE: byte := 0x22
  const BACKSLASH: byte := 0x5C
  const LEFT_BRACKET: byte := 0x5B
  const RIGHT_BRACKET: byte := 0x5D
  const LEFT_BRACE: byte := 0x7B
  const RIGHT_BRACE: byte := 0x7D

  predicate IsOpener(c: byte) { c == LEFT_BRACE || c == LEFT_BRACKET }

  predicate IsCloser(c: byte) { c == RIGHT_BRACE || c == RIGHT_BRACKET }

  /** The three variables of the scanning loop. */
  datatype Scan = Scan(depth: int, inString: bool, escaped: bool)

  const START := Scan(0, false, false)

  /** One byte of the automaton; the cases are in the order of the Go switch. */
  function Step(s: Scan, c: byte): Scan {
    if s.escaped then s.(escaped := false)
    else if c == BACKSLASH && s.inString then s.(escaped := true)
    else if c == QUOTE then s.(inString := !s.inString)
    else if s.inString then s
    else if IsOpener(c) then s.(depth := s.depth + 1)
    else if IsCloser(c) then s.(depth := s.depth - 1)
    else s
  }

  /** Byte c, read in state s, is the closing bracket at which the scan stops. */
  predicate Fires(s: Scan, c: byte) {
    !s.escaped && !s.inString && IsCloser(c) && s.depth == 1
  }

  /** The state after the whole of text. */
  function Run(text: seq<byte>, s: Scan): Scan {
    if text == [] then s else Run(text[1..], Step(s, text[0]))
  }

  /** String-aware bracket depth after the whole of text. */
  function Depth(text: seq<byte>): int { Run(text, START).depth }

  /** The automaton as a recursive search: how many bytes up to and including the
      first firing bracket, or -1. */
  function End(text: seq<byte>, s: Scan): (end: int)
    ensures end == -1 || 1 <= end <= |text|
  {
    if text == [] then -1
    else if Fires(s, text[0]) then 1
    else Later(1, End(text[1..], Step(s, text[0])))
  }

  /** An end position seen from k bytes earlier. */
  function Later(k: nat, end: int): int { if end < 0 then -1 else k + end }

  /** No bracket of text fires when it is scanned from s. */
  predicate Quiet(text: seq<byte>, s: Scan) { End(text, s) == -1 }

  lemma {:induction false} RunConcat(t: seq<byte>, u: seq<byte>, s: Scan)
    ensures Run(t + u, s) == Run(u, Run(t, s))
  {
    if t == [] {
      assert t + u == u;
    } else {
      assert (t + u)[1..] == t[1..] + u;
      RunConcat(t[1..], u, Step(s, t[0]));
    }
  }

  /** A quiet text is skipped; a text that fires decides alone, whatever follows it. */
  lemma {:induction false} EndConcat(t: seq<byte>, u: seq<byte>, s: Scan)
    ensures Quiet(t, s) ==> End(t + u, s) == Later(|t|, End(u, Run(t, s)))
    ensures !Quiet(t, s) ==> End(t + u, s) == End(t, s)
  {
    if t == [] {
      assert t + u == u;
    } else {
      assert (t + u)[1..] == t[1..] + u;
      EndConcat(t[1..], u, Step(s, t[0]));
    }
  }

  /** Depth returns to zero for the first time just before offset e. */
  ghost predicate FirstReturn(text: seq<byte>, s: Scan, e: int) {
    && 0 < e <= |text|
    && Run(text[..e], s).depth == 0
    && forall k :: 0 < k < e ==> Run(text[..k], s).depth > 0
  }

  lemma {:induction false} EndIsFirstReturn(text: seq<byte>, s: Scan)
    requires s.depth > 0
    ensures End(text, s) >= 0 ==> FirstReturn(text, s, End(text, s))
    ensures End(text, s) == -1 ==> forall k :: 0 < k <= |text| ==> Run(text[..k], s).depth > 0
  {
    if text != [] {
      var s', tail := Step(s, text[0]), text[1..];
      forall k | 0 < k <= |text| ensures Run(text[..k], s) == Run(tail[..k - 1], s') {
        assert text[..k][1..] == tail[..k - 1];
      }
      if !Fires(s, text[0]) {
        EndIsFirstReturn(tail, s');
      }
    }
  }

  /** Exactness of jsonEnd on a text that starts with a bracket: it stops just past the
      byte at which the depth first returns to zero, and fails exactly when it never does. */
  lemma EndExact(text: seq<byte>, e: int)
    requires text != [] && IsOpener(text[0])
    ensures End(text, START) == e && e >= 0 <==> FirstReturn(text, START, e)
    ensures End(text, START) == -1 <==> forall k :: 0 < k <= |text| ==> Depth(text[..k]) > 0
  {
    var s', tail := Step(START, text[0]), text[1..];
    forall k | 0 < k <= |text| ensures Run(text[..k], START) == Run(tail[..k - 1], s') {
      assert text[..k][1..] == tail[..k - 1];
    }
    EndIsFirstReturn(tail, s');
    var f := End(text, START);
    if f >= 0 {
      assert forall k :: 0 < k < f ==> Run(text[..k], START).depth > 0;
      assert FirstReturn(text, START, f);
    } else {
      assert forall k :: 0 < k <= |text| ==> Run(text[..k], START).depth > 0;
    }
  }

  /** Stability: once a value has closed, bytes appended to the text, or a different
      continuation after the value, never change the answer. */
  lemma EndStable(text: seq<byte>, more: seq<byte>, other: seq<byte>)
    requires End(text, START) >= 0
    ensures End(text + more, START) == End(text, START)
    ensures End(text[..End(text, START)] + other, START) == End(text, START)
  {
    var e := End(text, START);
    EndConcat(text, more, START);
    var head := text[..e];
    assert head + text[e..] == text;
    EndConcat(head, text[e..], START);
    EndConcat(head, other, START);
  }

  /** The offset just past the value opened at start, or -1. */
  method JsonEnd(text: seq<byte>, start: nat) returns (end: int)
    requires start <= |text|
    ensures end == Later(start, End(text[start..], START))
    ensures end == -1 || start < end <= |text|
  {
    var depth, inString, escaped := 0, false, false;
    var index := start;
    while index < |text|
      invariant start <= index <= |text|
      invariant Later(start, End(text[start..], START))
             == Later(index, End(text[index..], Scan(depth, inString, escaped)))
    {
      var character := text[index];
      assert text[index..][1..] == text[index + 1..];
      if escaped {
        escaped := false;
      } else if character == BACKSLASH && inString {
        escaped := true;
      } else if character == QUOTE {
        inString := !inString;
      } else if inString {
      } else if IsOpener(character) {
        depth := depth + 1;
      } else if IsCloser(character) {
        depth := depth - 1;
        if depth == 0 {
          return index + 1;
        }
      }
      index := index + 1;
    }
    return -1;
  }

  /** The offset of the first bracket that opens a value, or -1. */
  method FirstJsonStart(text: seq<byte>) returns (start: int)
    ensures start == -1 <==> forall i :: 0 <= i < |text| ==> !IsOpener(text[i])
    ensures start != -1 ==> 0 <= start < |text| && IsOpener(text[start])
    ensures start != -1 ==> forall i :: 0 <= i < start ==> !IsOpener(text[i])
  {
    for index := 0 to |text|
      invariant forall i :: 0 <= i < index ==> !IsOpener(text[i])
    {
      if IsOpener(text[index]) {
        return index;
      }
    }
    return -1;
  }

  /** text[start..end] is the first complete bracketed value of text. */
  ghost predicate IsSlice(text: seq<byte>, start: nat, end: nat) {
    && start < end <= |text|
    && IsOpener(text[start])
    && (forall i :: 0 <= i < start ==> !IsOpener(text[i]))
    && FirstReturn(text[start..], START, end - start)
  }

  /** slice is the first complete bracketed value of text, or None when text has none. */
  ghost predicate SliceOf(text: seq<byte>, slice: Option<seq<byte>>) {
    match slice
    case None => forall start: nat, end: nat :: !IsSlice(text, start, end)
    case Some(value) => exists start: nat, end: nat :: IsSlice(text, start, end) && value == text[start..end]
  }

  /** Whether a decode succeeded, and what it left in its target: one that fails on a type
      can have filled a part of it. */
  datatype Decoded<T> = Decoded(ok: bool, target: T)

  type Decoder<!T> = (seq<byte>, T) -> Decoded<T>

  /** Decode the slice, if there is one; when that fails, decode the bare text into whatever
      the failed decode left. */
  function Extracted<T>(text: seq<byte>, slice: Option<seq<byte>>, decode: Decoder<T>, out: T): Decoded<T> {
    if slice.None? then decode(text, out)
    else
      var first := decode(slice.value, out);
      if first.ok then first else decode(text, first.target)
  }

  /** ExtractJSON, given the JSON decoder and the target as the caller filled it. */
  method ExtractJson<T>(text: seq<byte>, decode: Decoder<T>, out: T) returns (result: Decoded<T>)
    ensures forall start: nat, end: nat :: IsSlice(text, start, end) ==>
              result == Extracted(text, Some(text[start..end]), decode, out)
    ensures (forall start: nat, end: nat :: !IsSlice(text, start, end)) ==>
              result == Extracted(text, None, decode, out)
  {
    var target := out;
    var start := FirstJsonStart(text);
    if start >= 0 {
      var end := JsonEnd(text, start);
      forall e | start < e <= |text| ensures IsSlice(text, start, e) <==> end == e {
        EndExact(text[start..], e - start);
      }
      assert forall a: nat, e: nat :: IsSlice(text, a, e) ==> a == start;
      if end > start {
        assert IsSlice(text, start, end);
        result := decode(text[start..end], target);
        if result.ok {
          return;
        }
        target := result.target;
      }
    }
    result := decode(text, target);
  }
}
