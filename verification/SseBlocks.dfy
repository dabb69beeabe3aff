/** Server-sent events told by their blocks: any list of lines is a list of blocks with a
    blank line after each, and a last one without (backend/app/llm/http.py, iter_sse). */
module SseBlocks {
  import opened Prelude
  import opened Lines

  /** One line of a block. A field may be written without the space after the colon, and
      with no value without the colon. */
  datatype Line =
    | Comment(text: string)
    | Event(value: string, style: Style)
    | Data(value: string, style: Style)
    | Other(text: string)

  datatype Style = Spaced | Tight | Bare

  type Block = seq<Line>

  function WriteField(name: string, value: string, style: Style): string {
    match style
    case Spaced => name + ": " + value
    case Tight => name + ":" + value
    case Bare => name
  }

  function Write(l: Line): string {
    match l
    case Comment(text) => ":" + text
    case Event(value, style) => WriteField("event", value, style)
    case Data(value, style) => WriteField("data", value, style)
    case Other(text) => text
  }

  predicate StyleFits(value: string, style: Style) {
    (style == Tight ==> value == "" || value[0] != ' ') && (style == Bare ==> value == "")
  }

  /** Neither of the two fields under its name, nor a comment, nor blank. */
  predicate IsOther(text: string) {
    && text != "" && text[0] != ':' && text != "event" && text != "data"
    && !("event:" <= text) && !("data:" <= text)
  }

  predicate Proper(l: Line) {
    match l
    case Comment(_) => true
    case Event(value, style) => StyleFits(value, style)
    case Data(value, style) => StyleFits(value, style)
    case Other(text) => IsOther(text)
  }

  ghost predicate AllProper(b: Block) {
    forall k :: 0 <= k < |b| ==> Proper(b[k])
  }

  ghost predicate AllBlocksProper(blocks: seq<Block>) {
    forall k :: 0 <= k < |blocks| ==> AllProper(blocks[k])
  }

  function WriteBlock(b: Block): seq<string> {
    if b == [] then [] else [Write(b[0])] + WriteBlock(b[1..])
  }

  function WriteBlocks(blocks: seq<Block>): seq<string> {
    if blocks == [] then [] else WriteBlock(blocks[0]) + [""] + WriteBlocks(blocks[1..])
  }

  // ----- what a block says ---------------------------------------------------------------------------

  function DataOf(b: Block): seq<string> {
    if b == [] then [] else (if b[0].Data? then [b[0].value] else []) + DataOf(b[1..])
  }

  /** The last event field names the message's event; before any, the one given. */
  function EventOf(b: Block, event: Option<string>): Option<string> {
    if b == [] then event else EventOf(b[1..], if b[0].Event? then Some(b[0].value) else event)
  }

  /** The data with a line feed between any two. */
  ghost predicate IsJoined(data: seq<string>, text: string) {
    exists pieces: seq<string> ::
      && |pieces| == |data| && Flatten(pieces) == text
      && forall k :: 0 <= k < |pieces| ==> pieces[k] == (if k == 0 then "" else "\n") + data[k]
  }

  /** A block with data is one message, and one without is none. */
  ghost predicate Says(messages: seq<Message>, b: Block, event: Option<string>, data: seq<string>) {
    var all := data + DataOf(b);
    if all == [] then messages == []
    else |messages| == 1 && messages[0].event == EventOf(b, event) && IsJoined(all, messages[0].data)
  }

  /** The messages of one block after another. */
  ghost predicate AreMessages(messages: seq<Message>, blocks: seq<Block>)
    decreases |blocks|
  {
    if blocks == [] then messages == []
    else
      exists n ::
        && 0 <= n <= |messages|
        && Says(messages[..n], blocks[0], None, []) && AreMessages(messages[n..], blocks[1..])
  }

  // ----- one line --------------------------------------------------------------------------------------

  lemma FieldIs(name: string, value: string, style: Style)
    requires Lacks(name, ':') && StyleFits(value, style)
    ensures FieldName(WriteField(name, value, style)) == name
    ensures FieldValue(WriteField(name, value, style)) == value
  {
    var line := WriteField(name, value, style);
    match style
    case Spaced => FieldOf(name, value);
    case Tight =>
      assert line == name + [':'] + value;
      FindAfter(name, ':', value);
      assert line[..|name|] == name && line[|name| + 1..] == value;
    case Bare =>
      FindNone(name, ':');
  }

  lemma {:induction false} FindNone(s: string, x: char)
    requires Lacks(s, x)
    ensures Find(s, x) == -1
  {
    if s != "" {
      FindNone(s[1..], x);
    }
  }

  lemma OtherIs(text: string)
    requires IsOther(text)
    ensures FieldName(text) != "event" && FieldName(text) != "data"
  {
    var k := Find(text, ':');
    if k >= 0 {
      assert text[..k + 1] == text[..k] + ":";
      assert text[..k + 1] <= text;
    }
  }

  /** Reading one line of a block. */
  lemma ReadLine(l: Line, rest: seq<string>, event: Option<string>, data: seq<string>)
    requires Proper(l)
    ensures ParseSse([Write(l)] + rest, event, data)
         == ParseSse(rest, if l.Event? then Some(l.value) else event, if l.Data? then data + [l.value] else data)
  {
    var line := Write(l);
    assert ([line] + rest)[1..] == rest && ([line] + rest)[0] == line;
    match l
    case Comment(_) =>
    case Event(value, style) => FieldIs("event", value, style);
    case Data(value, style) => FieldIs("data", value, style);
    case Other(text) => OtherIs(text);
  }

  // ----- a block, and all of them ----------------------------------------------------------------------

  /** Reading a block's lines collects its data and its event. */
  lemma {:induction false} ReadBlock(b: Block, rest: seq<string>, event: Option<string>, data: seq<string>)
    requires AllProper(b)
    ensures ParseSse(WriteBlock(b) + rest, event, data) == ParseSse(rest, EventOf(b, event), data + DataOf(b))
  {
    if b == [] {
      assert WriteBlock(b) + rest == rest && data + DataOf(b) == data;
    } else {
      var l, later := b[0], b[1..];
      var event', data' := if l.Event? then Some(l.value) else event, if l.Data? then data + [l.value] else data;
      FirstLine(b, data);
      assert Proper(l) && AllProper(later);
      hide *;
      Assoc([Write(l)], WriteBlock(later), rest);
      ReadLine(l, WriteBlock(later) + rest, event, data);
      ReadBlock(later, rest, event', data');
      NextEvent(b, event);
    }
  }

  lemma FirstLine(b: Block, data: seq<string>)
    requires b != []
    ensures WriteBlock(b) == [Write(b[0])] + WriteBlock(b[1..])
    ensures (if b[0].Data? then data + [b[0].value] else data) + DataOf(b[1..]) == data + DataOf(b)
  {
    hide Write;
  }

  lemma NextEvent(b: Block, event: Option<string>)
    requires b != []
    ensures EventOf(b, event) == EventOf(b[1..], if b[0].Event? then Some(b[0].value) else event)
  {
  }

  lemma {:induction false} JoinLinesIs(data: seq<string>)
    ensures IsJoined(data, JoinLines(data))
  {
    var pieces := PiecesOf(data);
    assert |pieces| == |data| && Flatten(pieces) == JoinLines(data);
  }

  lemma {:induction false} PiecesOf(data: seq<string>) returns (pieces: seq<string>)
    ensures |pieces| == |data| && Flatten(pieces) == JoinLines(data)
    ensures forall k :: 0 <= k < |data| ==> pieces[k] == (if k == 0 then "" else "\n") + data[k]
  {
    pieces := [];
    if |data| == 1 {
      pieces := data;
      assert data == [data[0]] + [] && data[0] + [] == data[0] && "" + data[0] == data[0];
      FlattenCons(data[0], []);
    } else if data != [] {
      var later := PiecesOf(data[1..]);
      var next, rest := "\n" + data[1], later[1..];
      pieces := [data[0]] + ([next] + rest);
      MorePieces(data, later);
      assert forall k :: 2 <= k < |data| ==> pieces[k] == later[k - 1] && data[1..][k - 1] == data[k];
      assert "" + data[0] == data[0];
    }
  }

  lemma MorePieces(data: seq<string>, later: seq<string>)
    requires |data| >= 2 && |later| == |data| - 1 && later[0] == "" + data[1]
    requires Flatten(later) == JoinLines(data[1..])
    ensures Flatten([data[0]] + (["\n" + data[1]] + later[1..])) == JoinLines(data)
  {
    var next, rest := "\n" + data[1], later[1..];
    assert later == [later[0]] + rest && "" + data[1] == data[1];
    FlattenCons(later[0], rest);
    FlattenCons(data[0], [next] + rest);
    FlattenCons(next, rest);
    Assoc("\n", data[1], Flatten(rest));
    Assoc(data[0], "\n", Flatten(later));
  }

  /** What is yielded at the end of a block. */
  function Yielded(event: Option<string>, data: seq<string>): seq<Message> {
    if data == [] then [] else [Message(event, JoinLines(data))]
  }

  lemma YieldedSays(b: Block)
    ensures Says(Yielded(EventOf(b, None), DataOf(b)), b, None, [])
  {
    assert [] + DataOf(b) == DataOf(b);
    JoinLinesIs(DataOf(b));
  }

  lemma EndOfBlock(rest: seq<string>, event: Option<string>, data: seq<string>)
    ensures ParseSse([""] + rest, event, data) == Yielded(event, data) + ParseSse(rest, None, [])
    ensures ParseSse([], event, data) == Yielded(event, data)
  {
    assert ([""] + rest)[1..] == rest && ([""] + rest)[0] == "";
  }

  /** The parser yields one message for each block with data, in order: the data lines joined
      with line feeds under the last event name, also of a last block without its blank line. */
  lemma {:induction false} ReadBlocks(blocks: seq<Block>, last: Block)
    requires AllBlocksProper(blocks) && AllProper(last)
    ensures AreMessages(ParseSse(WriteBlocks(blocks) + WriteBlock(last), None, []), blocks + [last])
    decreases |blocks|
  {
    if blocks == [] {
      hide *;
      ReadLast(last);
    } else {
      var b, later := blocks[0], blocks[1..];
      assert AllProper(b) && AllBlocksProper(later);
      assert blocks + [last] == [b] + (later + [last]);
      hide *;
      ReadBlocks(later, last);
      ReadFirstBlock(b, WriteBlocks(later) + WriteBlock(last));
      WriteFirstBlock(blocks, last);
      YieldedSays(b);
      BlockThenMore(b, Yielded(EventOf(b, None), DataOf(b)),
                    ParseSse(WriteBlocks(later) + WriteBlock(last), None, []), later + [last]);
    }
  }

  lemma ReadLast(last: Block)
    requires AllProper(last)
    ensures AreMessages(ParseSse(WriteBlocks([]) + WriteBlock(last), None, []), [] + [last])
  {
    assert WriteBlocks([]) + WriteBlock(last) == WriteBlock(last) + [] && [] + DataOf(last) == DataOf(last);
    hide ParseSse, Yielded, AreMessages, WriteBlock;
    ReadBlock(last, [], None, []);
    EndOfBlock([], EventOf(last, None), DataOf(last));
    OneBlock(last, Yielded(EventOf(last, None), DataOf(last)));
  }

  lemma WriteFirstBlock(blocks: seq<Block>, last: Block)
    requires blocks != []
    ensures WriteBlocks(blocks) + WriteBlock(last)
         == WriteBlock(blocks[0]) + ([""] + (WriteBlocks(blocks[1..]) + WriteBlock(last)))
  {
    hide WriteBlock;
  }

  lemma ReadFirstBlock(b: Block, rest: seq<string>)
    requires AllProper(b)
    ensures ParseSse(WriteBlock(b) + ([""] + rest), None, [])
         == Yielded(EventOf(b, None), DataOf(b)) + ParseSse(rest, None, [])
  {
    ReadBlock(b, [""] + rest, None, []);
    EndOfBlock(rest, EventOf(b, None), DataOf(b));
    assert [] + DataOf(b) == DataOf(b);
  }

  lemma BlockThenMore(b: Block, first: seq<Message>, more: seq<Message>, later: seq<Block>)
    requires Says(first, b, None, []) && AreMessages(more, later)
    ensures AreMessages(first + more, [b] + later)
  {
    hide Says;
    var all, blocks := first + more, [b] + later;
    assert all[..|first|] == first && all[|first|..] == more && blocks[1..] == later;
  }

  lemma OneBlock(b: Block, messages: seq<Message>)
    requires messages == Yielded(EventOf(b, None), DataOf(b))
    ensures AreMessages(messages, [] + [b])
  {
    YieldedSays(b);
    hide Says, Yielded;
    assert AreMessages([], []);
    BlockThenMore(b, messages, [], []);
    assert messages + [] == messages && [b] + [] == [] + [b];
  }

  // ----- any lines at all ------------------------------------------------------------------------------

  lemma ReadField(name: string, line: string) returns (value: string, style: Style)
    requires line == name || name + ":" <= line
    ensures StyleFits(value, style) && WriteField(name, value, style) == line
  {
    if line == name {
      value, style := "", Bare;
    } else {
      var rest := line[|name| + 1..];
      assert line == name + ":" + rest;
      if rest != "" && rest[0] == ' ' {
        value, style := rest[1..], Spaced;
        assert rest == " " + value;
        assert name + ":" + (" " + value) == name + ": " + value;
      } else {
        value, style := rest, Tight;
      }
    }
  }

  /** Every line that is not blank is one of a block's lines. */
  lemma AnyLine(line: string) returns (l: Line)
    requires line != ""
    ensures Proper(l) && Write(l) == line
  {
    if line[0] == ':' {
      l := Comment(line[1..]);
    } else if line == "event" || "event:" <= line {
      var value, style := ReadField("event", line);
      l := Event(value, style);
    } else if line == "data" || "data:" <= line {
      var value, style := ReadField("data", line);
      l := Data(value, style);
    } else {
      l := Other(line);
    }
  }

  /** So every list of lines is made of blocks, and what iter_sse yields is told by them. */
  lemma {:induction false} AnyLines(lines: seq<string>) returns (blocks: seq<Block>, last: Block)
    ensures AllBlocksProper(blocks) && AllProper(last)
    ensures lines == WriteBlocks(blocks) + WriteBlock(last)
  {
    blocks, last := [], [];
    if lines != [] {
      var line := lines[0];
      assert lines == [line] + lines[1..];
      blocks, last := AnyLines(lines[1..]);
      if line == "" {
        NewBlock(blocks, last);
        blocks := [[]] + blocks;
      } else {
        var l := AnyLine(line);
        hide Write, Proper;
        LongerBlock(l, blocks, last);
        if blocks == [] {
          last := [l] + last;
        } else {
          blocks := [[l] + blocks[0]] + blocks[1..];
        }
      }
    }
  }

  lemma NewBlock(blocks: seq<Block>, last: Block)
    ensures WriteBlocks([[]] + blocks) + WriteBlock(last) == [""] + (WriteBlocks(blocks) + WriteBlock(last))
    ensures AllBlocksProper(blocks) ==> AllBlocksProper([[]] + blocks)
  {
    var none: Block := [];
    var all := [none] + blocks;
    assert all[0] == none && all[1..] == blocks;
    assert WriteBlock(none) + [""] == [""];
  }

  lemma LongerBlock(l: Line, blocks: seq<Block>, last: Block)
    requires Proper(l) && AllBlocksProper(blocks) && AllProper(last)
    ensures var lines := [Write(l)] + (WriteBlocks(blocks) + WriteBlock(last));
      if blocks == [] then AllProper([l] + last) && WriteBlocks([]) + WriteBlock([l] + last) == lines
      else
        var longer := [[l] + blocks[0]] + blocks[1..];
        AllBlocksProper(longer) && WriteBlocks(longer) + WriteBlock(last) == lines
  {
    if blocks == [] {
      WriteLonger(l, last);
      hide Write, Proper, WriteBlock;
      assert WriteBlocks(blocks) + WriteBlock(last) == WriteBlock(last);
      assert WriteBlocks([]) + WriteBlock([l] + last) == WriteBlock([l] + last);
    } else {
      LongerFirst(l, blocks);
      hide Write, Proper, WriteBlock, WriteBlocks, AllBlocksProper;
      Assoc([Write(l)], WriteBlocks(blocks), WriteBlock(last));
    }
  }

  lemma LongerFirst(l: Line, blocks: seq<Block>)
    requires Proper(l) && AllBlocksProper(blocks) && blocks != []
    ensures var longer := [[l] + blocks[0]] + blocks[1..];
      AllBlocksProper(longer) && WriteBlocks(longer) == [Write(l)] + WriteBlocks(blocks)
  {
    var b, later := blocks[0], blocks[1..];
    var longer := [[l] + b] + later;
    assert AllProper(b);
    WriteLonger(l, b);
    hide Write, Proper, WriteBlock, AllProper;
    assert longer[1..] == later && longer[0] == [l] + b;
    Assoc([Write(l)], WriteBlock(b), [""]);
    Assoc([Write(l)], WriteBlock(b) + [""], WriteBlocks(later));
  }

  lemma WriteLonger(l: Line, b: Block)
    requires Proper(l) && AllProper(b)
    ensures AllProper([l] + b) && WriteBlock([l] + b) == [Write(l)] + WriteBlock(b)
  {
    hide Write, Proper;
    assert ([l] + b)[1..] == b;
  }

  /** iter_sse on any lines: it yields the messages of the blocks they are made of. */
  lemma AnyLinesAreRead(lines: seq<string>) returns (blocks: seq<Block>, last: Block)
    ensures AllBlocksProper(blocks) && AllProper(last)
    ensures lines == WriteBlocks(blocks) + WriteBlock(last)
    ensures AreMessages(ParseSse(lines, None, []), blocks + [last])
  {
    blocks, last := AnyLines(lines);
    ReadBlocks(blocks, last);
  }
}
