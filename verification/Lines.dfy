/** Line splitting of a chunked response body and the server-sent-events parser
    (backend/app/llm/http.py). The UTF-8 decoder is a
    parameter, so nothing here depends on how a line's text is decoded. */
module Lines {
  import opened Prelude

  type Byte = bv8
  type Bytes = seq<Byte>

  const LF: Byte := 10
  const CR: Byte := 13
  const MAX_STREAM_BYTES := 32 * 1024 * 1024
  const MAX_LINE_BYTES := 4 * 1024 * 1024

  // ----- the reference: how a complete body divides into lines ---------------------

  /** The byte runs that a line feed ends. */
  function RawLines(b: Bytes): seq<Bytes> {
    var i := Find(b, LF);
    if i < 0 then [] else [b[..i]] + RawLines(b[i + 1..])
  }

  /** What follows the last line feed. */
  function Tail(b: Bytes): Bytes {
    var i := Find(b, LF);
    if i < 0 then b else Tail(b[i + 1..])
  }

  /** The inverse: each line followed by its line feed. */
  function Terminate(lines: seq<Bytes>): Bytes {
    if lines == [] then [] else lines[0] + [LF] + Terminate(lines[1..])
  }

  ghost predicate LfFree(lines: seq<Bytes>) {
    forall k :: 0 <= k < |lines| ==> Lacks(lines[k], LF)
  }

  lemma {:induction false} Reassemble(b: Bytes)
    ensures Terminate(RawLines(b)) + Tail(b) == b
    decreases |b|
  {
    var i := Find(b, LF);
    if i >= 0 {
      var line, rest := b[..i], b[i + 1..];
      Reassemble(rest);
      var lines := [line] + RawLines(rest);
      assert lines[1..] == RawLines(rest);
      SplitAt(b, i);
      Assoc(line + [LF], Terminate(RawLines(rest)), Tail(rest));
    }
  }

  lemma {:induction false} NoLfInside(b: Bytes)
    ensures LfFree(RawLines(b)) && Lacks(Tail(b), LF)
    decreases |b|
  {
    hide LfFree, Lacks;
    var i := Find(b, LF);
    if i >= 0 {
      NoLfInside(b[i + 1..]);
      ConsLfFree(b[..i], RawLines(b[i + 1..]));
    } else {
      NoneLfFree();
    }
  }

  lemma NoneLfFree()
    ensures LfFree([])
  {
  }

  lemma ConsLfFree(line: Bytes, lines: seq<Bytes>)
    requires Lacks(line, LF) && LfFree(lines)
    ensures LfFree([line] + lines)
  {
  }

  lemma UnconsLfFree(lines: seq<Bytes>)
    requires lines != [] && LfFree(lines)
    ensures Lacks(lines[0], LF) && LfFree(lines[1..])
  {
  }

  /** There is only one way to read a body as LF-free lines and an LF-free tail. */
  lemma {:induction false} SplitIsUnique(lines: seq<Bytes>, tail: Bytes)
    requires LfFree(lines) && Lacks(tail, LF)
    ensures RawLines(Terminate(lines) + tail) == lines
    ensures Tail(Terminate(lines) + tail) == tail
    decreases |lines|
  {
    var b := Terminate(lines) + tail;
    if lines == [] {
      assert b == tail;
    } else {
      var rest := Terminate(lines[1..]) + tail;
      assert b == lines[0] + [LF] + rest;
      FindAfter(lines[0], LF, rest);
      var i := |lines[0]|;
      assert b[..i] == lines[0] && b[i + 1..] == rest;
      SplitIsUnique(lines[1..], tail);
    }
  }

  lemma {:induction false} TerminateAppend(a: seq<Bytes>, b: seq<Bytes>)
    ensures Terminate(a + b) == Terminate(a) + Terminate(b)
  {
    if a == [] {
      assert a + b == b;
    } else {
      assert (a + b)[1..] == a[1..] + b;
      TerminateAppend(a[1..], b);
    }
  }

  /** Cutting a terminated list of lines anywhere leaves whole lines and the start of
      the next one. */
  lemma {:induction false} CutTerminated(lines: seq<Bytes>, b: Bytes) returns (k: nat)
    requires LfFree(lines) && b <= Terminate(lines)
    ensures k <= |lines| && RawLines(b) == lines[..k] && b == Terminate(lines[..k]) + Tail(b)
    ensures if k == |lines| then Tail(b) == [] else Tail(b) <= lines[k]
    decreases |lines|
  {
    hide LfFree, Lacks, RawLines, Tail, Terminate;
    k := 0;
    if lines == [] {
      CutNone(b);
    } else {
      UnconsLfFree(lines);
      if |b| <= |lines[0]| {
        CutInFirst(lines, b);
      } else {
        var more := CutRest(lines, b);
        k := CutTerminated(lines[1..], more);
        CutStep(lines[0], lines[1..][..k], more);
        assert lines[..k + 1] == [lines[0]] + lines[1..][..k];
        k := k + 1;
      }
    }
  }

  lemma CutNone(b: Bytes)
    requires b <= Terminate([])
    ensures RawLines(b) == [] && Tail(b) == [] && b == Terminate([][..0]) + Tail(b)
  {
  }

  lemma CutRest(lines: seq<Bytes>, b: Bytes) returns (more: Bytes)
    requires lines != [] && b <= Terminate(lines) && |b| > |lines[0]|
    ensures b == lines[0] + [LF] + more && more <= Terminate(lines[1..])
  {
    more := b[|lines[0]| + 1..];
    assert b == lines[0] + [LF] + more;
  }

  lemma CutInFirst(lines: seq<Bytes>, b: Bytes)
    requires lines != [] && Lacks(lines[0], LF) && b <= Terminate(lines) && |b| <= |lines[0]|
    ensures RawLines(b) == [] && Tail(b) == b && b <= lines[0]
    ensures b == Terminate(lines[..0]) + Tail(b)
  {
    assert Terminate(lines) == lines[0] + [LF] + Terminate(lines[1..]);
    assert b <= lines[0];
    PrefixWithout(lines[0], b, LF);
  }

  lemma CutStep(first: Bytes, before: seq<Bytes>, more: Bytes)
    requires Lacks(first, LF) && RawLines(more) == before && more == Terminate(before) + Tail(more)
    ensures RawLines(first + [LF] + more) == [first] + before
    ensures Tail(first + [LF] + more) == Tail(more)
    ensures first + [LF] + more == Terminate([first] + before) + Tail(more)
  {
    var b := first + [LF] + more;
    FindAfter(first, LF, more);
    assert b[..|first|] == first && b[|first| + 1..] == more;
    assert ([first] + before)[1..] == before;
    Assoc(first + [LF], Terminate(before), Tail(more));
  }

  lemma PrefixWithout<T>(whole: seq<T>, part: seq<T>, x: T)
    requires part <= whole && Lacks(whole, x)
    ensures Lacks(part, x)
  {
    assert forall i :: 0 <= i < |part| ==> part[i] == whole[i];
  }

  /** Splitting may be resumed from the tail: this is why a buffer suffices. */
  lemma SplitAppend(a: Bytes, b: Bytes)
    ensures RawLines(a + b) == RawLines(a) + RawLines(Tail(a) + b)
    ensures Tail(a + b) == Tail(Tail(a) + b)
  {
    Rejoin(a, b, RawLines(a), Tail(a), RawLines(Tail(a) + b), Tail(Tail(a) + b));
  }

  lemma Rejoin(a: Bytes, b: Bytes, done: seq<Bytes>, kept: Bytes, more: seq<Bytes>, rest: Bytes)
    requires done == RawLines(a) && kept == Tail(a)
    requires more == RawLines(kept + b) && rest == Tail(kept + b)
    ensures RawLines(a + b) == done + more && Tail(a + b) == rest
  {
    NoLfInside(a);
    NoLfInside(kept + b);
    assert a + b == Terminate(done + more) + rest by {
      Reassemble(a);
      Reassemble(kept + b);
      TerminateAppend(done, more);
      Assoc(Terminate(done), kept, b);
      Assoc(Terminate(done), Terminate(more), rest);
    }
    SplitIsUnique(done + more, rest);
  }

  /** rstrip(b"\r"): every trailing carriage return goes. */
  function TrimCr(b: Bytes): Bytes {
    if b != [] && b[|b| - 1] == CR then TrimCr(b[..|b| - 1]) else b
  }

  /** Only carriage returns are taken off, and all of them. */
  lemma {:induction false} TrimCrIs(b: Bytes)
    ensures TrimCr(b) <= b && forall k :: |TrimCr(b)| <= k < |b| ==> b[k] == CR
    ensures TrimCr(b) == [] || TrimCr(b)[|TrimCr(b)| - 1] != CR
  {
    if b != [] && b[|b| - 1] == CR {
      TrimCrIs(b[..|b| - 1]);
    }
  }

  function Decoded(lines: seq<Bytes>, decode: Bytes -> string): seq<string> {
    seq(|lines|, k requires 0 <= k < |lines| => decode(TrimCr(lines[k])))
  }

  /** The lines of a whole body: the terminated ones, then a nonempty tail. */
  function TextLines(b: Bytes, decode: Bytes -> string): seq<string> {
    Decoded(RawLines(b), decode) + (if Tail(b) == [] then [] else [decode(TrimCr(Tail(b)))])
  }

  // ----- the size caps -----------------------------------------------------------

  /** The caps are tested once per chunk, so whether one trips depends on the split. */
  ghost predicate TripsAt(chunks: seq<Bytes>, n: nat)
    requires n <= |chunks|
  {
    var got := Flatten(chunks[..n]);
    |got| > MAX_STREAM_BYTES || |Tail(got)| > MAX_LINE_BYTES
  }

  ghost predicate CapTrips(chunks: seq<Bytes>) {
    exists n: nat :: n <= |chunks| && TripsAt(chunks, n)
  }

  ghost predicate Fits(b: Bytes) {
    && |b| <= MAX_STREAM_BYTES
    && |Tail(b)| <= MAX_LINE_BYTES
    && forall k :: 0 <= k < |RawLines(b)| ==> |RawLines(b)[k]| <= MAX_LINE_BYTES
  }

  /** The unfinished tail of a prefix starts some line of the whole, or its tail. */
  lemma PrefixTailBound(a: Bytes, b: Bytes)
    requires Fits(a + b)
    ensures |Tail(a)| <= MAX_LINE_BYTES
  {
    SplitAppend(a, b);
    NoLfInside(a);
    var mid := Tail(a) + b;
    var i := Find(mid, LF);
    if i < 0 {
      assert Tail(a + b) == mid;
    } else {
      FindPast(Tail(a), b, LF);
      assert RawLines(mid)[0] == mid[..i];
      assert RawLines(a + b)[|RawLines(a)|] == mid[..i];
    }
  }

  /** A body passes however it is chunked exactly when it and all its lines fit. */
  lemma NoSplitTripsIffFits(b: Bytes)
    ensures (forall chunks: seq<Bytes> :: Flatten(chunks) == b ==> !CapTrips(chunks)) <==> Fits(b)
  {
    if Fits(b) {
      forall chunks: seq<Bytes> | Flatten(chunks) == b
        ensures !CapTrips(chunks)
      {
        forall n: nat | n <= |chunks|
          ensures !TripsAt(chunks, n)
        {
          FlattenSplit(chunks, n);
          PrefixTailBound(Flatten(chunks[..n]), Flatten(chunks[n..]));
        }
      }
    } else {
      var chunks := TrippingSplit(b);
      assert Flatten(chunks) == b && CapTrips(chunks);
    }
  }

  /** The split that trips: break just before the line feed of an overlong line. */
  lemma TrippingSplit(b: Bytes) returns (chunks: seq<Bytes>)
    requires !Fits(b)
    ensures Flatten(chunks) == b && CapTrips(chunks)
  {
    var head, rest := b, [];
    if |b| <= MAX_STREAM_BYTES && |Tail(b)| <= MAX_LINE_BYTES {
      var k :| 0 <= k < |RawLines(b)| && |RawLines(b)[k]| > MAX_LINE_BYTES;
      head := UpToLine(b, k);
      rest := b[|head|..];
    }
    chunks := [head, rest];
    TwoChunks(head, rest);
    assert TripsAt(chunks, 1);
  }

  lemma TwoChunks(head: Bytes, rest: Bytes)
    ensures Flatten([head, rest]) == head + rest && Flatten([head, rest][..1]) == head
  {
    FlattenSnoc([], head);
    FlattenSnoc([head], rest);
    assert [] + [head] == [head] && [head] + [rest] == [head, rest] && [head, rest][..1] == [head];
  }

  /** The bytes up to, not including, the line feed of line k. */
  lemma {:induction false} UpToLine(b: Bytes, k: nat) returns (head: Bytes)
    requires k < |RawLines(b)|
    ensures head <= b && Tail(head) == RawLines(b)[k]
    decreases k
  {
    var i := Find(b, LF);
    SplitAt(b, i);
    if k == 0 {
      head := b[..i];
    } else {
      var more := UpToLine(b[i + 1..], k - 1);
      head := b[..i] + [LF] + more;
      FindAfter(b[..i], LF, more);
      assert head[i + 1..] == more;
    }
  }

  // ----- the incremental splitter --------------------------------------------------

  lemma DecodedAppend(a: seq<Bytes>, b: seq<Bytes>, decode: Bytes -> string)
    ensures Decoded(a + b, decode) == Decoded(a, decode) + Decoded(b, decode)
  {
  }

  /** The inner loop of stream_lines: take every finished line off the buffer. */
  method DrainLines(full: Bytes, decode: Bytes -> string) returns (yielded: seq<string>, buffer: Bytes)
    ensures yielded == Decoded(RawLines(full), decode)
    ensures buffer == Tail(full)
  {
    hide RawLines, Tail, Decoded;
    yielded, buffer := [], full;
    ghost var done: seq<Bytes> := [];
    DecodedNone(decode);
    assert done + RawLines(full) == RawLines(full);
    var newline := Find(buffer, LF);
    while newline >= 0
      invariant newline == Find(buffer, LF)
      invariant RawLines(full) == done + RawLines(buffer) && Tail(full) == Tail(buffer)
      invariant yielded == Decoded(done, decode)
      decreases |buffer|
    {
      var raw := buffer[..newline];
      DrainStep(full, done, buffer);
      DecodedSnoc(done, raw, decode);
      done := done + [raw];
      buffer := buffer[newline + 1..];
      yielded := yielded + [decode(TrimCr(raw))];
      newline := Find(buffer, LF);
    }
    assert RawLines(buffer) == [] && Tail(buffer) == buffer by {
      NothingToDrain(buffer);
    }
    assert done + [] == done;
  }

  lemma DrainStep(full: Bytes, done: seq<Bytes>, buffer: Bytes)
    requires Find(buffer, LF) >= 0
    requires RawLines(full) == done + RawLines(buffer) && Tail(full) == Tail(buffer)
    ensures var i := Find(buffer, LF);
      && RawLines(full) == (done + [buffer[..i]]) + RawLines(buffer[i + 1..])
      && Tail(full) == Tail(buffer[i + 1..])
  {
    var i := Find(buffer, LF);
    Assoc(done, [buffer[..i]], RawLines(buffer[i + 1..]));
  }

  lemma NothingToDrain(buffer: Bytes)
    requires Find(buffer, LF) < 0
    ensures RawLines(buffer) == [] && Tail(buffer) == buffer
  {
  }

  lemma DecodedNone(decode: Bytes -> string)
    ensures Decoded([], decode) == []
  {
  }

  lemma DecodedSnoc(a: seq<Bytes>, last: Bytes, decode: Bytes -> string)
    ensures Decoded(a + [last], decode) == Decoded(a, decode) + [decode(TrimCr(last))]
  {
  }

  /** One more chunk: the lines so far, the kept tail, and what it finishes. */
  lemma OneMoreChunk(chunks: seq<Bytes>, n: nat, decode: Bytes -> string)
    requires n < |chunks|
    ensures var before, after := Flatten(chunks[..n]), Flatten(chunks[..n + 1]);
      && |after| == |before| + |chunks[n]|
      && Tail(after) == Tail(Tail(before) + chunks[n])
      && Decoded(RawLines(after), decode)
         == Decoded(RawLines(before), decode) + Decoded(RawLines(Tail(before) + chunks[n]), decode)
  {
    assert chunks[..n + 1] == chunks[..n] + [chunks[n]];
    FlattenSnoc(chunks[..n], chunks[n]);
    SplitAppend(Flatten(chunks[..n]), chunks[n]);
    DecodedAppend(RawLines(Flatten(chunks[..n])), RawLines(Tail(Flatten(chunks[..n])) + chunks[n]), decode);
  }

  lemma TripsIff(chunks: seq<Bytes>, n: nat)
    requires n <= |chunks|
    ensures TripsAt(chunks, n) <==>
      |Flatten(chunks[..n])| > MAX_STREAM_BYTES || |Tail(Flatten(chunks[..n]))| > MAX_LINE_BYTES
  {
    hide Flatten, Tail;
  }

  /** stream_lines: what is yielded, and whether it ends in ResponseTooLargeError. */
  method StreamLines(chunks: seq<Bytes>, decode: Bytes -> string)
    returns (yielded: seq<string>, tooLarge: bool)
    ensures tooLarge <==> CapTrips(chunks)
    ensures !tooLarge ==> yielded == TextLines(Flatten(chunks), decode)
    ensures tooLarge ==> yielded <= TextLines(Flatten(chunks), decode)
  {
    yielded, tooLarge := [], false;
    var total := 0;
    var buffer: Bytes := [];
    ghost var got: Bytes := [];
    assert chunks[..0] == [];
    assert Decoded(RawLines(got), decode) == [] && Tail(got) == [] && Flatten(chunks[..0]) == got;
    assert !TripsAt(chunks, 0);
    hide RawLines, Tail, Decoded, Flatten, TripsAt;
    for n := 0 to |chunks|
      invariant got == Flatten(chunks[..n])
      invariant total == |got| && buffer == Tail(got)
      invariant yielded == Decoded(RawLines(got), decode)
      invariant forall m: nat :: m <= n ==> !TripsAt(chunks, m)
    {
      OneMoreChunk(chunks, n, decode);
      TripsIff(chunks, n + 1);
      got := Flatten(chunks[..n + 1]);
      total := total + |chunks[n]|;
      if total > MAX_STREAM_BYTES {
        assert TripsAt(chunks, n + 1);
        YieldedIsPrefix(chunks, n, decode);
        return yielded, true;
      }
      var lines;
      lines, buffer := DrainLines(buffer + chunks[n], decode);
      yielded := yielded + lines;
      if |buffer| > MAX_LINE_BYTES {
        assert TripsAt(chunks, n + 1);
        YieldedIsPrefix(chunks, n + 1, decode);
        return yielded, true;
      }
    }
    assert chunks[..|chunks|] == chunks;
    if buffer != [] {
      yielded := yielded + [decode(TrimCr(buffer))];
    }
  }

  lemma YieldedIsPrefix(chunks: seq<Bytes>, n: nat, decode: Bytes -> string)
    requires n <= |chunks|
    ensures Decoded(RawLines(Flatten(chunks[..n])), decode) <= TextLines(Flatten(chunks), decode)
  {
    FlattenSplit(chunks, n);
    SplitAppend(Flatten(chunks[..n]), Flatten(chunks[n..]));
    var a, b := RawLines(Flatten(chunks[..n])), RawLines(Tail(Flatten(chunks[..n])) + Flatten(chunks[n..]));
    DecodedAppend(a, b, decode);
  }

  // ----- server-sent events -------------------------------------------------------

  datatype Message = Message(event: Option<string>, data: string)

  function FieldName(line: string): string {
    var k := Find(line, ':');
    if k < 0 then line else line[..k]
  }

  /** The part after the first colon, without one leading space. */
  function FieldValue(line: string): string {
    var k := Find(line, ':');
    if k < 0 then ""
    else if k + 1 < |line| && line[k + 1] == ' ' then line[k + 2..]
    else line[k + 1..]
  }

  function JoinLines(parts: seq<string>): string {
    if parts == [] then ""
    else if |parts| == 1 then parts[0]
    else parts[0] + "\n" + JoinLines(parts[1..])
  }

  /** The messages of the remaining lines, given the fields read so far. */
  function ParseSse(lines: seq<string>, event: Option<string>, data: seq<string>): seq<Message> {
    if lines == [] then
      if data == [] then [] else [Message(event, JoinLines(data))]
    else if lines[0] == "" then
      (if data == [] then [] else [Message(event, JoinLines(data))]) + ParseSse(lines[1..], None, [])
    else if lines[0][0] == ':' then
      ParseSse(lines[1..], event, data)
    else if FieldName(lines[0]) == "event" then
      ParseSse(lines[1..], Some(FieldValue(lines[0])), data)
    else if FieldName(lines[0]) == "data" then
      ParseSse(lines[1..], event, data + [FieldValue(lines[0])])
    else
      ParseSse(lines[1..], event, data)
  }

  /** iter_sse */
  method IterSse(lines: seq<string>) returns (yielded: seq<Message>)
    ensures yielded == ParseSse(lines, None, [])
  {
    yielded := [];
    var event: Option<string> := None;
    var data: seq<string> := [];
    for n := 0 to |lines|
      invariant ParseSse(lines, None, []) == yielded + ParseSse(lines[n..], event, data)
    {
      var line := lines[n];
      assert lines[n..][1..] == lines[n + 1..];
      if line == "" {
        if data != [] {
          yielded := yielded + [Message(event, JoinLines(data))];
        }
        event, data := None, [];
        continue;
      }
      if line[0] == ':' {
        continue;
      }
      var name, value := FieldName(line), FieldValue(line);
      if name == "event" {
        event := Some(value);
      } else if name == "data" {
        data := data + [value];
      }
    }
    if data != [] {
      yielded := yielded + [Message(event, JoinLines(data))];
    }
  }

  /** One frame as the chat endpoint prints it (backend/app/api/v1/llm.py). */
  datatype Frame = Frame(event: string, data: string)

  function PrintFrame(f: Frame): string {
    "event: " + f.event + "\n" + "data: " + f.data + "\n" + "\n"
  }

  function PrintFrames(frames: seq<Frame>): string {
    if frames == [] then "" else PrintFrame(frames[0]) + PrintFrames(frames[1..])
  }

  function Messages(frames: seq<Frame>): seq<Message> {
    if frames == [] then []
    else [Message(Some(frames[0].event), frames[0].data)] + Messages(frames[1..])
  }

  predicate Printable(f: Frame) {
    && Lacks(f.event, '\n') && Lacks(f.event, '\r')
    && Lacks(f.data, '\n') && Lacks(f.data, '\r')
  }

  /** What the round trip needs of UTF-8. */
  ghost predicate Codec(encode: string -> Bytes, decode: Bytes -> string) {
    && (forall s: string :: decode(encode(s)) == s)
    && (forall s: string, t: string :: encode(s + t) == encode(s) + encode(t))
    && encode("\n") == [LF]
    && (forall s: string :: Lacks(s, '\n') ==> Lacks(encode(s), LF))
    && (forall s: string :: Lacks(s, '\r') ==> Lacks(encode(s), CR))
  }

  function FrameLines(frames: seq<Frame>): seq<string> {
    if frames == [] then []
    else ["event: " + frames[0].event, "data: " + frames[0].data, ""] + FrameLines(frames[1..])
  }

  function Encoded(lines: seq<string>, encode: string -> Bytes): seq<Bytes> {
    seq(|lines|, k requires 0 <= k < |lines| => encode(lines[k]))
  }

  lemma ParseEvent(value: string, rest: seq<string>, event: Option<string>, data: seq<string>)
    ensures ParseSse(["event: " + value] + rest, event, data) == ParseSse(rest, Some(value), data)
  {
    FieldOf("event", value);
    assert "event: " + value == "event" + ": " + value;
    assert (["event: " + value] + rest)[1..] == rest;
  }

  lemma ParseData(value: string, rest: seq<string>, event: Option<string>, data: seq<string>)
    ensures ParseSse(["data: " + value] + rest, event, data) == ParseSse(rest, event, data + [value])
  {
    FieldOf("data", value);
    assert "data: " + value == "data" + ": " + value;
    assert (["data: " + value] + rest)[1..] == rest;
  }

  lemma ParseBlank(rest: seq<string>, event: Option<string>, value: string)
    ensures ParseSse([""] + rest, event, [value]) == [Message(event, value)] + ParseSse(rest, None, [])
  {
    assert ([""] + rest)[1..] == rest;
  }

  lemma ParseOneFrame(f: Frame, rest: seq<string>)
    ensures ParseSse(["event: " + f.event, "data: " + f.data, ""] + rest, None, [])
         == [Message(Some(f.event), f.data)] + ParseSse(rest, None, [])
  {
    var e, d := "event: " + f.event, "data: " + f.data;
    assert [e, d, ""] + rest == [e] + ([d] + ([""] + rest));
    ParseEvent(f.event, [d] + ([""] + rest), None, []);
    ParseData(f.data, [""] + rest, Some(f.event), []);
    assert [] + [f.data] == [f.data];
    ParseBlank(rest, Some(f.event), f.data);
  }

  lemma {:induction false} ParseFrameLines(frames: seq<Frame>)
    ensures ParseSse(FrameLines(frames), None, []) == Messages(frames)
  {
    if frames != [] {
      ParseOneFrame(frames[0], FrameLines(frames[1..]));
      ParseFrameLines(frames[1..]);
    }
  }

  lemma FieldOf(name: string, value: string)
    requires Lacks(name, ':')
    ensures FieldName(name + ": " + value) == name
    ensures FieldValue(name + ": " + value) == value
  {
    var line := name + ": " + value;
    var k := |name|;
    assert line == name + [':'] + (" " + value);
    FindAfter(name, ':', " " + value);
    assert line[..k] == name && line[k + 2..] == value;
  }

  lemma EncodedAppend(a: seq<string>, b: seq<string>, encode: string -> Bytes)
    ensures Encoded(a + b, encode) == Encoded(a, encode) + Encoded(b, encode)
  {
  }

  lemma EncodedFrame(f: Frame, encode: string -> Bytes, decode: Bytes -> string)
    requires Codec(encode, decode)
    ensures encode(PrintFrame(f)) ==
      Terminate([encode("event: " + f.event), encode("data: " + f.data), encode("")])
  {
    var e, d := "event: " + f.event, "data: " + f.data;
    EncodeEmpty(encode, decode);
    assert PrintFrame(f) == ((e + "\n") + (d + "\n")) + "\n";
    assert encode((e + "\n") + (d + "\n")) == encode(e + "\n") + encode(d + "\n");
    ThreeLines(encode(e), encode(d), []);
  }

  lemma ThreeLines(a: Bytes, b: Bytes, c: Bytes)
    ensures Terminate([a, b, c]) == ((a + [LF]) + (b + [LF])) + (c + [LF])
  {
    var lines := [a, b, c];
    assert lines[1..] == [b, c] && [b, c][1..] == [c] && [c][1..] == [];
    assert Terminate([c]) == c + [LF];
    assert Terminate([b, c]) == b + [LF] + Terminate([c]);
  }

  lemma EncodeEmpty(encode: string -> Bytes, decode: Bytes -> string)
    requires Codec(encode, decode)
    ensures encode("") == []
  {
    assert "" + "" == "";
    assert |encode("" + "")| == |encode("")| + |encode("")|;
  }

  lemma {:induction false} EncodedFrames(frames: seq<Frame>, encode: string -> Bytes, decode: Bytes -> string)
    requires Codec(encode, decode)
    ensures encode(PrintFrames(frames)) == Terminate(Encoded(FrameLines(frames), encode))
  {
    if frames == [] {
      EncodeEmpty(encode, decode);
    } else {
      var f, rest := frames[0], FrameLines(frames[1..]);
      EncodedFrames(frames[1..], encode, decode);
      EncodedFrame(f, encode, decode);
      var head := [encode("event: " + f.event), encode("data: " + f.data), encode("")];
      EncodedAppend(["event: " + f.event, "data: " + f.data, ""], rest, encode);
      assert Encoded(["event: " + f.event, "data: " + f.data, ""], encode) == head;
      TerminateAppend(head, Encoded(rest, encode));
    }
  }

  lemma {:induction false} FrameLinesAreClean(frames: seq<Frame>)
    requires forall k :: 0 <= k < |frames| ==> Printable(frames[k])
    ensures forall k :: 0 <= k < |FrameLines(frames)| ==>
              Lacks(FrameLines(frames)[k], '\n') && Lacks(FrameLines(frames)[k], '\r')
  {
    if frames != [] {
      FrameLinesAreClean(frames[1..]);
      assert Printable(frames[0]);
    }
  }

  lemma {:induction false} TrimCrKeeps(b: Bytes)
    requires Lacks(b, CR)
    ensures TrimCr(b) == b
  {
    if b != [] {
      assert b[|b| - 1] != CR;
    }
  }

  /** Lines without CR and LF are read back as they were encoded. */
  lemma EncodedLinesRead(lines: seq<string>, encode: string -> Bytes, decode: Bytes -> string)
    requires Codec(encode, decode)
    requires forall k :: 0 <= k < |lines| ==> Lacks(lines[k], '\n') && Lacks(lines[k], '\r')
    ensures TextLines(Terminate(Encoded(lines, encode)), decode) == lines
  {
    var raw := Encoded(lines, encode);
    forall k | 0 <= k < |lines|
      ensures Lacks(raw[k], LF) && decode(TrimCr(raw[k])) == lines[k]
    {
      TrimCrKeeps(raw[k]);
    }
    assert LfFree(raw) && Decoded(raw, decode) == lines;
    hide RawLines, Tail, Encoded, Decoded, LfFree, Codec, Lacks, TrimCr;
    SplitIsUnique(raw, []) by { assert Lacks<Byte>([], LF); }
    assert Terminate(raw) + [] == Terminate(raw);
  }

  /** Frames that were printed, encoded, cut into chunks anywhere, split into lines
      and parsed come back as they were. */
  lemma SseRoundTrip(frames: seq<Frame>, chunks: seq<Bytes>, encode: string -> Bytes, decode: Bytes -> string)
    requires Codec(encode, decode)
    requires forall k :: 0 <= k < |frames| ==> Printable(frames[k])
    requires Flatten(chunks) == encode(PrintFrames(frames))
    ensures ParseSse(TextLines(Flatten(chunks), decode), None, []) == Messages(frames)
  {
    hide *;
    EncodedFrames(frames, encode, decode);
    FrameLinesAreClean(frames);
    EncodedLinesRead(FrameLines(frames), encode, decode);
    ParseFrameLines(frames);
  }
}
