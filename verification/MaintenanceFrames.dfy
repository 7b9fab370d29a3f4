/** The frames of the coordination-maintenance protocol: newline-framed JSON objects, as the
    frontend (src/coordination-maintenance-cli.ts) and the backend
    (src/coordination-maintenance-backend.ts) each validate them. */
module MaintenanceFrames {
  import opened Wrappers
  import opened Text

  type Byte = n: int | 0 <= n < 256
  type Bytes = seq<Byte>

  const NEWLINE: Byte := 10
  const FRAME_BYTES := 65_536
  const TOTAL_BYTES := 262_144
  const FRAMES := 16

  datatype Json =
    | Null
    | Bool(b: bool)
    | Number(n: real)
    | Text(text: string)
    | Array(items: seq<Json>)
    | Object(fields: map<string, Json>)

  datatype Command = Prepare | Apply | Receipt

  datatype Frame = Frame(requestId: string, command: Command, input: Json)

  // ----- Validation

  predicate IsIdChar(c: char)
  {
    'A' <= c <= 'Z' || 'a' <= c <= 'z' || '0' <= c <= '9' || c == '_' || c == '-'
  }

  /** `/^[A-Za-z0-9_-]{1,64}$/` */
  predicate IsRequestId(s: string)
  {
    1 <= |s| <= 64 && forall k | 0 <= k < |s| :: IsIdChar(s[k])
  }

  function ParseCommand(s: string): Option<Command>
  {
    if s == "prepare" then Some(Prepare)
    else if s == "apply" then Some(Apply)
    else if s == "receipt" then Some(Receipt)
    else None
  }

  /** The backend's `parseFrame`, on what decoding and parsing the line gave (`None`: neither). */
  function ParseFrame(value: Option<Json>): Option<Frame>
  {
    if value.None? || !value.value.Object? then None
    else
      var frame := value.value.fields;
      var keys := frame.Keys;
      if |keys| != 3 || exists key :: key in keys && key != "requestId" && key != "command" && key != "input" then
        None
      else if "requestId" !in frame || !frame["requestId"].Text? || !IsRequestId(frame["requestId"].text) then None
      else if "command" !in frame || !frame["command"].Text? || ParseCommand(frame["command"].text).None? then None
      else if "input" !in frame then None
      else Some(Frame(frame["requestId"].text, ParseCommand(frame["command"].text).value, frame["input"]))
  }

  // ----- The wire form

  const ID_ALPHABET := CAPITALS + LETTERS + DIGITS + "_-"

  lemma IdCharacters(c: char)
    ensures IsIdChar(c) <==> c in ID_ALPHABET
  {
    CapitalsAreARange(c);
    LettersAreARange(c);
    DigitsAreARange(c);
    hide CAPITALS, LETTERS, DIGITS;
  }

  function Spelling(c: Command): string
  {
    match c case Prepare => "prepare" case Apply => "apply" case Receipt => "receipt"
  }

  /** The object that asks for this. */
  function Wire(f: Frame): Json
  {
    Object(map["requestId" := Text(f.requestId), "command" := Text(Spelling(f.command)), "input" := f.input])
  }

  lemma RequestIds(s: string)
    ensures IsRequestId(s) <==> 1 <= |s| <= 64 && forall c | c in s :: c in ID_ALPHABET
  {
    forall c ensures IsIdChar(c) <==> c in ID_ALPHABET { IdCharacters(c); }
    hide ID_ALPHABET, IsIdChar;
  }

  lemma WireParses(f: Frame)
    requires IsRequestId(f.requestId)
    ensures ParseFrame(Some(Wire(f))) == Some(f)
  {
    hide IsRequestId;
    assert Wire(f).fields.Keys == {"requestId", "command", "input"};
    ThreeNames();
  }

  lemma ThreeNames()
    ensures |{"requestId", "command", "input"}| == 3
  {
  }

  lemma ParsedIsWire(value: Option<Json>, f: Frame)
    requires ParseFrame(value) == Some(f)
    ensures value == Some(Wire(f)) && IsRequestId(f.requestId)
  {
    hide IsRequestId;
    var fields := value.value.fields;
    assert fields.Keys == {"requestId", "command", "input"};
    assert fields["command"] == Text(Spelling(f.command));
    assert fields == Wire(f).fields;
  }

  /** A line is a frame exactly if it is the wire form of that frame, under a proper request id. */
  lemma FrameIsWireForm(value: Option<Json>, f: Frame)
    ensures ParseFrame(value) == Some(f) <==>
            value == Some(Wire(f)) && 1 <= |f.requestId| <= 64 && forall c | c in f.requestId :: c in ID_ALPHABET
  {
    hide ParseFrame, IsRequestId, ID_ALPHABET, Wire;
    RequestIds(f.requestId);
    if ParseFrame(value) == Some(f) { ParsedIsWire(value, f); }
    if value == Some(Wire(f)) && IsRequestId(f.requestId) { WireParses(f); }
  }

  function WithCommand(id: string, command: string, input: Json): Json
  {
    Object(map["requestId" := Text(id), "command" := Text(command), "input" := input])
  }

  /** What each command asks for. */
  lemma CommandsRoundTrip(id: string, input: Json)
    requires 1 <= |id| <= 64 && forall c | c in id :: c in ID_ALPHABET
    ensures ParseFrame(Some(WithCommand(id, "prepare", input))) == Some(Frame(id, Prepare, input))
    ensures ParseFrame(Some(WithCommand(id, "apply", input))) == Some(Frame(id, Apply, input))
    ensures ParseFrame(Some(WithCommand(id, "receipt", input))) == Some(Frame(id, Receipt, input))
  {
    FrameIsWireForm(Some(WithCommand(id, "prepare", input)), Frame(id, Prepare, input));
    FrameIsWireForm(Some(WithCommand(id, "apply", input)), Frame(id, Apply, input));
    FrameIsWireForm(Some(WithCommand(id, "receipt", input)), Frame(id, Receipt, input));
    hide ParseFrame, ID_ALPHABET;
  }

  /** JavaScript's `!value`. */
  predicate IsFalsy(v: Json)
  {
    v == Null || v == Bool(false) || v == Number(0.0) || v == Text("")
  }

  /** The frontend's inline test of the same line. */
  predicate FrontendAccepts(value: Option<Json>)
  {
    && value.Some?
    && !(IsFalsy(value.value) || value.value.Array? || !(value.value.Object? || value.value.Null?)
         || |value.value.fields.Keys| != 3
         || !(value.value.fields.Keys <= {"requestId", "command", "input"})
         || !("requestId" in value.value.fields && value.value.fields["requestId"].Text?)
         || !IsRequestId(value.value.fields["requestId"].text)
         || !("command" in value.value.fields
              && value.value.fields["command"] in {Text("prepare"), Text("apply"), Text("receipt")}))
  }

  /** The two validators, written separately, accept the same lines; in particular three keys out
      of the three allowed leave none missing. */
  lemma ValidatorsAgree(value: Option<Json>)
    ensures FrontendAccepts(value) <==> ParseFrame(value).Some?
  {
    if value.Some? && value.value.Object? {
      var keys := value.value.fields.Keys;
      if keys <= {"requestId", "command", "input"} && |keys| == 3 {
        assert "input" in keys by {
          if "input" !in keys {
            assert keys <= {"requestId", "command"};
            SubsetSize(keys, {"requestId", "command"});
            PairSize("requestId", "command");
          }
        }
      }
    }
  }

  lemma {:induction false} SubsetSize<T>(a: set<T>, b: set<T>)
    requires a <= b
    ensures |a| <= |b|
  {
    if a != {} {
      var x :| x in a;
      SubsetSize(a - {x}, b - {x});
    }
  }

  lemma PairSize<T>(x: T, y: T)
    ensures |{x, y}| <= 2
  {
    if x == y { assert {x, y} == {x}; }
  }

  // ----- Lines

  /** Where the first newline stands, or the length when there is none. */
  function IndexOfNewline(b: Bytes): (n: nat)
    ensures n <= |b|
    ensures NEWLINE !in b[..n]
    ensures n < |b| ==> b[n] == NEWLINE
  {
    if b == [] || b[0] == NEWLINE then 0 else 1 + IndexOfNewline(b[1..])
  }

  /** The complete lines of a stream, without their newlines. */
  function Lines(b: Bytes): seq<Bytes>
    decreases |b|
  {
    var n := IndexOfNewline(b);
    if n == |b| then [] else [b[..n]] + Lines(b[n + 1..])
  }

  /** What follows the last newline. */
  function Rest(b: Bytes): (r: Bytes)
    ensures |r| <= |b| && NEWLINE !in r
    decreases |b|
  {
    var n := IndexOfNewline(b);
    if n == |b| then b else Rest(b[n + 1..])
  }

  function Rejoined(lines: seq<Bytes>): Bytes
  {
    if lines == [] then [] else lines[0] + [10] + Rejoined(lines[1..])
  }

  /** A stream is its lines, each with byte 10 after it, and then a rest without one. */
  lemma {:induction false} LinesRejoin(b: Bytes)
    ensures b == Rejoined(Lines(b)) + Rest(b) && 10 !in Rest(b) && forall line | line in Lines(b) :: 10 !in line
    decreases |b|
  {
    hide Lines, Rest, IndexOfNewline, Rejoined;
    var n := IndexOfNewline(b);
    if n < |b| {
      LinesRejoin(b[n + 1..]);
      FirstLine(b);
      RejoinedFirst(b[..n], Lines(b[n + 1..]));
      AtNewline(b, n);
    } else {
      NoLine(b);
      NothingRejoined();
    }
  }

  lemma NothingRejoined()
    ensures Rejoined([]) == []
  {
  }

  lemma RejoinedFirst(line: Bytes, lines: seq<Bytes>)
    ensures Rejoined([line] + lines) == line + [10] + Rejoined(lines)
  {
    assert ([line] + lines)[1..] == lines;
  }

  lemma AtNewline(b: Bytes, n: nat)
    requires n < |b| && b[n] == NEWLINE
    ensures forall tail: Bytes, rest: Bytes :: b[n + 1..] == tail + rest ==> b == (b[..n] + [10] + tail) + rest
  {
  }

  lemma {:induction false} NoNewline(b: Bytes)
    requires NEWLINE !in b
    ensures IndexOfNewline(b) == |b| && Lines(b) == [] && Rest(b) == b
  {
    if b != [] { NoNewline(b[1..]); }
  }

  lemma {:induction false} NewlineStays(a: Bytes, b: Bytes)
    requires IndexOfNewline(a) < |a|
    ensures IndexOfNewline(a + b) == IndexOfNewline(a)
  {
    if a[0] != NEWLINE {
      NewlineStays(a[1..], b);
      assert (a + b)[1..] == a[1..] + b;
    }
  }

  /** Framing a stream in two pieces: the lines of the first, then those of its rest and the second. */
  lemma {:induction false} LinesAppend(a: Bytes, b: Bytes)
    ensures Lines(a + b) == Lines(a) + Lines(Rest(a) + b)
    ensures Rest(a + b) == Rest(Rest(a) + b)
    decreases |a|
  {
    hide *;
    var n := IndexOfNewline(a);
    if n < |a| {
      NewlineStays(a, b);
      FirstLine(a);
      FirstLine(a + b);
      var line, tail := a[..n], a[n + 1..];
      Halves(a, b, n);
      LinesAppend(tail, b);
      assert [line] + (Lines(tail) + Lines(Rest(tail) + b)) == ([line] + Lines(tail)) + Lines(Rest(tail) + b);
    } else {
      NoLine(a);
      assert [] + Lines(a + b) == Lines(a + b);
    }
  }

  lemma Halves(a: Bytes, b: Bytes, n: nat)
    requires n < |a|
    ensures (a + b)[..n] == a[..n] && (a + b)[n + 1..] == a[n + 1..] + b
  {
  }

  lemma NoLine(b: Bytes)
    requires IndexOfNewline(b) == |b|
    ensures Lines(b) == [] && Rest(b) == b
  {
    hide IndexOfNewline;
  }

  lemma FirstLine(b: Bytes)
    requires IndexOfNewline(b) < |b|
    ensures var n := IndexOfNewline(b);
      Lines(b) == [b[..n]] + Lines(b[n + 1..]) && Rest(b) == Rest(b[n + 1..])
  {
    hide IndexOfNewline;
  }

  function Concat(chunks: seq<Bytes>): Bytes
  {
    if chunks == [] then [] else Concat(chunks[..|chunks| - 1]) + chunks[|chunks| - 1]
  }
}
