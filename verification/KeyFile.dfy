/** The credential key file (backend/app/core/bootstrap.py): created exclusively by one
    worker, and polled by the others while it is written. Base64 is section 5 of RFC 4648,
    decoded as leniently as Python's binascii does. */
module KeyFile {
  import opened Prelude

  type Bytes = seq<nat>

  predicate AreBytes(b: Bytes) {
    forall k :: 0 <= k < |b| ==> b[k] < 256
  }

  // ----- the alphabet ----------------------------------------------------------------------------

  function Symbol(v: nat): char
    requires v < 64
  {
    if v < 26 then ('A' as int + v) as char
    else if v < 52 then ('a' as int + v - 26) as char
    else if v < 62 then ('0' as int + v - 52) as char
    else if v == 62 then '-' else '_'
  }

  /** The decoder maps '-' and '_' to '+' and '/' first, so it takes both. */
  function SymbolValue(c: char): Option<nat> {
    if 'A' <= c <= 'Z' then Some(c as int - 'A' as int)
    else if 'a' <= c <= 'z' then Some(c as int - 'a' as int + 26)
    else if '0' <= c <= '9' then Some(c as int - '0' as int + 52)
    else if c == '-' || c == '+' then Some(62)
    else if c == '_' || c == '/' then Some(63)
    else None
  }

  /** What str.strip removes from ASCII text. */
  predicate IsSpace(c: char) {
    c == ' ' || 9 <= c as int <= 13 || 28 <= c as int <= 31
  }

  lemma SymbolRoundTrip(v: nat)
    requires v < 64
    ensures SymbolValue(Symbol(v)) == Some(v) && Symbol(v) != '=' && !IsSpace(Symbol(v))
  {
  }

  function Symbols(vs: seq<nat>): string
    requires AreSextets(vs)
  {
    seq(|vs|, k requires 0 <= k < |vs| => Symbol(vs[k]))
  }

  predicate AreSextets(vs: seq<nat>) {
    forall k :: 0 <= k < |vs| ==> vs[k] < 64
  }

  // ----- encoding ------------------------------------------------------------------------------------

  // The four six-bit groups of three bytes x, y, z.
  function G0(x: nat): nat { x / 4 }
  function G1(x: nat, y: nat): nat { x % 4 * 16 + y / 16 }
  function G2(y: nat, z: nat): nat { y % 16 * 4 + z / 64 }
  function G3(z: nat): nat { z % 64 }

  lemma GroupsAreSextets(x: nat, y: nat, z: nat)
    requires x < 256 && y < 256 && z < 256
    ensures G0(x) < 64 && G1(x, y) < 64 && G2(y, z) < 64 && G3(z) < 64
  {
  }

  lemma BytesBack(x: nat, y: nat, z: nat)
    requires x < 256 && y < 256 && z < 256
    ensures G0(x) * 4 + G1(x, y) / 16 == x
    ensures G1(x, y) % 16 * 16 + G2(y, z) / 4 == y
    ensures G2(y, z) % 4 * 64 + G3(z) == z
  {
  }

  /** The six-bit groups of some bytes, the last one filled up with zeros. */
  function Sextets(b: Bytes): (vs: seq<nat>)
    requires AreBytes(b)
    ensures AreSextets(vs)
  {
    if b == [] then []
    else if |b| == 1 then GroupsAreSextets(b[0], 0, 0); [G0(b[0]), G1(b[0], 0)]
    else if |b| == 2 then GroupsAreSextets(b[0], b[1], 0); [G0(b[0]), G1(b[0], b[1]), G2(b[1], 0)]
    else
      GroupsAreSextets(b[0], b[1], b[2]);
      [G0(b[0]), G1(b[0], b[1]), G2(b[1], b[2]), G3(b[2])] + Sextets(b[3..])
  }

  function Pads(length: nat): string {
    if length % 4 == 0 then "" else if length % 4 == 3 then "=" else if length % 4 == 2 then "==" else "==="
  }

  /** base64.urlsafe_b64encode */
  function Encode(b: Bytes): string
    requires AreBytes(b)
  {
    Symbols(Sextets(b)) + Pads(|Sextets(b)|)
  }

  /** The padding fills the last group of four. */
  lemma PadsFill(length: nat)
    ensures (length + |Pads(length)|) % 4 == 0 && |Pads(length)| < 4
    ensures forall k :: 0 <= k < |Pads(length)| ==> Pads(length)[k] == '='
  {
  }

  /** Examples of section 10 of RFC 4648, and the two symbols of section 5. */
  lemma EncodeExamples()
    ensures Encode([102]) == "Zg==" && Encode([102, 111]) == "Zm8=" && Encode([102, 111, 111]) == "Zm9v"
    ensures Encode([251, 255]) == "-_8="
  {
    assert Sextets([102]) == [25, 32] && Sextets([102, 111]) == [25, 38, 60] && Sextets([251, 255]) == [62, 63, 60];
    assert Sextets([102, 111, 111]) == [25, 38, 61, 47] by { assert [102, 111, 111][3..] == []; }
    hide Sextets;
    assert Symbols([25, 32]) == "Zg" && Symbols([25, 38, 60]) == "Zm8" && Symbols([25, 38, 61, 47]) == "Zm9v";
    assert Symbols([62, 63, 60]) == "-_8";
  }

  lemma EncodeFoobar()
    ensures Encode([102, 111, 111, 98, 97, 114]) == "Zm9vYmFy"
  {
    assert Sextets([102, 111, 111, 98, 97, 114]) == [25, 38, 61, 47, 24, 38, 5, 50] by {
      assert [102, 111, 111, 98, 97, 114][3..] == [98, 97, 114] && [98, 97, 114][3..] == [];
      assert Sextets([98, 97, 114]) == [24, 38, 5, 50];
    }
    hide Sextets;
    assert Symbols([25, 38, 61, 47, 24, 38, 5, 50]) == "Zm9vYmFy";
  }

  // ----- decoding ------------------------------------------------------------------------------------

  /** The decoder between two characters: its place in a group of four, the bits left over,
      the padding seen, and the bytes so far. */
  datatype Quad = Quad(pos: nat, left: nat, pads: nat, out: Bytes)

  function Push(q: Quad, v: nat): Quad {
    if q.pos == 0 then Quad(1, v, 0, q.out)
    else if q.pos == 1 then Quad(2, v % 16, 0, q.out + [q.left * 4 + v / 16])
    else if q.pos == 2 then Quad(3, v % 4, 0, q.out + [q.left * 16 + v / 4])
    else Quad(0, 0, 0, q.out + [q.left * 64 + v])
  }

  /** Enough padding ends the input; foreign characters are passed over; an open group at
      the end is an error. */
  function Feed(q: Quad, text: string): Option<Bytes>
    decreases |text|
  {
    if text == "" then if q.pos == 0 then Some(q.out) else None
    else if text[0] == '=' then
      if q.pos < 2 then Feed(q, text[1..])
      else if q.pos + q.pads + 1 >= 4 then Some(q.out)
      else Feed(q.(pads := q.pads + 1), text[1..])
    else
      match SymbolValue(text[0])
      case None => Feed(q, text[1..])
      case Some(v) => Feed(Push(q, v), text[1..])
  }

  const START := Quad(0, 0, 0, [])

  function Decode(text: string): Option<Bytes> {
    Feed(START, text)
  }

  lemma NextChar(q: Quad, c: char, rest: string)
    ensures var text := [c] + rest;
      Feed(q, text) ==
      if c == '=' then
        if q.pos < 2 then Feed(q, rest)
        else if q.pos + q.pads + 1 >= 4 then Some(q.out)
        else Feed(q.(pads := q.pads + 1), rest)
      else if SymbolValue(c).None? then Feed(q, rest) else Feed(Push(q, SymbolValue(c).value), rest)
  {
    assert ([c] + rest)[1..] == rest;
  }

  /** Two padding characters end a group of two and one ends a group of three, with anything
      foreign in between; one is too few for two; and both alphabets are read. */
  lemma DecodeExamples()
    ensures Decode("Z\ng=\n=x") == Some([102]) && Decode("Zg=") == None
    ensures Decode("+/8=") == Some([251, 255]) && Decode("-_8=") == Some([251, 255])
  {
    assert ['+', '/'] + "8=" == "+/8=" && ['-', '_'] + "8=" == "-_8=";
    EightAfter('+', '/');
    EightAfter('-', '_');
    TwoPadsEnd();
    OnePadIsTooFew();
  }

  lemma TwoPadsEnd()
    ensures Decode("Z\ng=\n=x") == Some([102])
  {
    var q, g := Quad(1, 25, 0, []), Quad(2, 0, 0, [102]);
    hide Feed;
    assert "Z\ng=\n=x" == ['Z'] + "\ng=\n=x" && "\ng=\n=x" == ['\n'] + "g=\n=x" && "g=\n=x" == ['g'] + "=\n=x";
    assert "=\n=x" == ['='] + "\n=x" && "\n=x" == ['\n'] + "=x" && "=x" == ['='] + "x";
    NextChar(START, 'Z', "\ng=\n=x");
    NextChar(q, '\n', "g=\n=x");
    assert Push(q, 32) == g by { assert [] + [102] == [102]; }
    NextChar(q, 'g', "=\n=x");
    NextChar(g, '=', "\n=x");
    NextChar(g.(pads := 1), '\n', "=x");
    NextChar(g.(pads := 1), '=', "x");
  }

  lemma OnePadIsTooFew()
    ensures Decode("Zg=") == None
  {
    var q, g := Quad(1, 25, 0, []), Quad(2, 0, 0, [102]);
    hide Feed;
    assert "Zg=" == ['Z'] + "g=" && "g=" == ['g'] + "=" && "=" == ['='] + "";
    NextChar(START, 'Z', "g=");
    assert Push(q, 32) == g by { assert [] + [102] == [102]; }
    NextChar(q, 'g', "=");
    NextChar(g, '=', "");
    FeedNothing(g.(pads := 1));
  }

  lemma FeedNothing(q: Quad)
    ensures Feed(q, "") == if q.pos == 0 then Some(q.out) else None
  {
  }

  lemma EightAfter(a: char, b: char)
    requires SymbolValue(a) == Some(62) && SymbolValue(b) == Some(63) && a != '=' && b != '='
    ensures Decode([a, b] + "8=") == Some([251, 255])
  {
    hide Feed;
    assert [a, b] + "8=" == [a] + ([b] + "8=") && "8=" == ['8'] + "=" && "=" == ['='] + "";
    assert [] + [251] == [251] && [251] + [255] == [251, 255];
    NextChar(START, a, [b] + "8=");
    NextChar(Quad(1, 62, 0, []), b, "8=");
    NextChar(Quad(2, 15, 0, [251]), '8', "=");
    NextChar(Quad(3, 0, 0, [251, 255]), '=', "");
  }

  /** What _valid_key decodes. */
  function KeyOf(value: string): Option<Bytes> {
    Decode(value + Pads(|value|))
  }

  /** _valid_key */
  predicate ValidKey(value: string) {
    KeyOf(value).Some? && |KeyOf(value).value| == 32
  }

  function PushAll(q: Quad, vs: seq<nat>): Quad
    decreases |vs|
  {
    if vs == [] then q else PushAll(Push(q, vs[0]), vs[1..])
  }

  lemma {:induction false} FeedSymbols(q: Quad, vs: seq<nat>, rest: string)
    requires AreSextets(vs)
    ensures Feed(q, Symbols(vs) + rest) == Feed(PushAll(q, vs), rest)
    decreases |vs|
  {
    if vs == [] {
      assert Symbols(vs) + rest == rest;
    } else {
      var text := Symbols(vs) + rest;
      assert text[0] == Symbol(vs[0]) && text[1..] == Symbols(vs[1..]) + rest;
      SymbolRoundTrip(vs[0]);
      FeedSymbols(Push(q, vs[0]), vs[1..], rest);
    }
  }

  /** How many whole bytes n groups of six bits hold. */
  function Whole(n: nat): nat {
    3 * n / 4
  }

  lemma WholeStep(n: nat)
    requires n >= 4
    ensures Whole(n) == Whole(n - 4) + 3 && n % 4 == (n - 4) % 4
  {
  }

  /** The whole bytes that n groups hold are out, and nothing else is. */
  ghost predicate HasRead(q: Quad, b: Bytes, n: nat, out: Bytes) {
    Whole(n) <= |b| && q.pos == n % 4 && q.pads == 0 && q.out == out + b[..Whole(n)]
  }

  lemma {:induction false} PushPrefix(b: Bytes, n: nat, out: Bytes)
    requires AreBytes(b) && n <= |Sextets(b)|
    ensures HasRead(PushAll(Quad(0, 0, 0, out), Sextets(b)[..n]), b, n, out)
    decreases |b|
  {
    if n < 4 {
      PushFew(b, n, out);
    } else {
      var vs, rest := Sextets(b)[..n], Sextets(b[3..]);
      assert vs[4..] == rest[..n - 4] && vs[..4] == Sextets(b)[..4];
      PushFour(b, vs, out);
      WholeStep(n);
      hide Sextets, Push, PushAll, Whole;
      PushPrefix(b[3..], n - 4, out + b[..3]);
      PrefixGrows(b, Whole(n - 4), out);
    }
  }

  lemma PrefixGrows(b: Bytes, m: nat, out: Bytes)
    requires |b| >= 3 && m <= |b| - 3
    ensures (out + b[..3]) + b[3..][..m] == out + b[..m + 3]
  {
  }

  lemma PushFour(b: Bytes, vs: seq<nat>, out: Bytes)
    requires AreBytes(b) && |b| >= 3 && |vs| >= 4 && vs[..4] == Sextets(b)[..4]
    ensures PushAll(Quad(0, 0, 0, out), vs) == PushAll(Quad(0, 0, 0, out + b[..3]), vs[4..])
  {
    assert vs[0] == vs[..4][0] && vs[1] == vs[..4][1] && vs[2] == vs[..4][2] && vs[3] == vs[..4][3];
    assert vs[0] == G0(b[0]) && vs[1] == G1(b[0], b[1]) && vs[2] == G2(b[1], b[2]) && vs[3] == G3(b[2]);
    PushGroup(b[0], b[1], b[2], out);
    assert out + [b[0], b[1], b[2]] == out + b[..3];
    hide Sextets, AreBytes, G0, G1, G2, G3;
    UnrollFour(Quad(0, 0, 0, out), vs);
  }

  lemma PushGroup(x: nat, y: nat, z: nat, out: Bytes)
    requires x < 256 && y < 256 && z < 256
    ensures var q3 := Push(Push(Push(Quad(0, 0, 0, out), G0(x)), G1(x, y)), G2(y, z));
      && q3 == Quad(3, G2(y, z) % 4, 0, out + [x, y])
      && Push(q3, G3(z)) == Quad(0, 0, 0, out + [x, y, z])
    ensures Push(Push(Quad(0, 0, 0, out), G0(x)), G1(x, y)) == Quad(2, G1(x, y) % 16, 0, out + [x])
  {
    BytesBack(x, y, z);
    hide G0, G1, G2, G3;
    assert out + [x] + [y] == out + [x, y] && out + [x, y] + [z] == out + [x, y, z];
  }

  lemma UnrollFour(q: Quad, vs: seq<nat>)
    requires |vs| >= 4
    ensures PushAll(q, vs) == PushAll(Push(Push(Push(Push(q, vs[0]), vs[1]), vs[2]), vs[3]), vs[4..])
  {
    hide Push;
    var q1 := Push(q, vs[0]);
    var q2 := Push(q1, vs[1]);
    var q3 := Push(q2, vs[2]);
    assert PushAll(q, vs) == PushAll(q1, vs[1..]);
    assert vs[1..][1..] == vs[2..] && PushAll(q1, vs[1..]) == PushAll(q2, vs[2..]);
    assert vs[2..][1..] == vs[3..] && PushAll(q2, vs[2..]) == PushAll(q3, vs[3..]);
    assert vs[3..][1..] == vs[4..];
  }

  lemma PushFew(b: Bytes, n: nat, out: Bytes)
    requires AreBytes(b) && n <= |Sextets(b)| && n < 4
    ensures Whole(n) <= |b|
    ensures var q := PushAll(Quad(0, 0, 0, out), Sextets(b)[..n]);
      q.pos == n % 4 && q.pads == 0 && q.out == out + b[..Whole(n)]
  {
    var q, vs := Quad(0, 0, 0, out), Sextets(b)[..n];
    if n > 0 {
      var x, y, z := b[0], if |b| > 1 then b[1] else 0, if |b| > 2 then b[2] else 0;
      assert vs == [G0(x), G1(x, y), G2(y, z)][..n];
      PushGroup(x, y, z, out);
      hide G0, G1, G2, G3, Push, Sextets;
      if n == 1 {
        PushOne(q, vs);
        FirstPush(out, G0(x));
      } else if n == 2 {
        PushOne(q, vs);
        PushOne(Push(q, vs[0]), vs[1..]);
        assert b[..1] == [x];
      } else {
        PushOne(q, vs);
        PushOne(Push(q, vs[0]), vs[1..]);
        PushOne(Push(Push(q, vs[0]), vs[1]), vs[1..][1..]);
        assert b[..2] == [x, y];
      }
    }
  }

  lemma PushOne(q: Quad, vs: seq<nat>)
    requires vs != []
    ensures PushAll(q, vs) == PushAll(Push(q, vs[0]), vs[1..])
    ensures |vs| == 1 ==> PushAll(q, vs) == Push(q, vs[0])
  {
  }

  lemma FirstPush(out: Bytes, v: nat)
    ensures Push(Quad(0, 0, 0, out), v) == Quad(1, v, 0, out)
  {
  }

  // ----- what a partly written key decodes to ---------------------------------------------------------

  lemma {:induction false} SextetCount(b: Bytes)
    requires AreBytes(b)
    ensures |Sextets(b)| == (4 * |b| + 2) / 3 && Whole(|Sextets(b)|) == |b| && |Sextets(b)| % 4 != 1
    decreases |b|
  {
    if |b| >= 3 {
      SextetCount(b[3..]);
      hide G0, G1, G2, G3;
    }
  }

  /** Padding closes a group of two or three, and is no use to a group of one. */
  lemma PadsClose(q: Quad, n: nat)
    requires q.pos == n % 4 && q.pads == 0
    ensures Feed(q, Pads(n)) == if n % 4 == 1 then None else Some(q.out)
  {
    assert "=="[1..] == "=" && "==="[1..] == "==";
  }

  lemma PrefixDecodes(b: Bytes, n: nat)
    requires AreBytes(b) && n <= |Sextets(b)|
    ensures Whole(n) <= |b|
    ensures Decode(Encode(b)[..n] + Pads(n)) == if n % 4 == 1 then None else Some(b[..Whole(n)])
  {
    var vs := Sextets(b)[..n];
    assert Encode(b)[..n] == Symbols(vs);
    FeedSymbols(START, vs, Pads(n));
    PushPrefix(b, n, []);
    PadsClose(PushAll(START, vs), n);
    assert [] + b[..Whole(n)] == b[..Whole(n)];
  }

  /** Decoding undoes encoding, for any bytes. */
  lemma Base64RoundTrip(b: Bytes)
    requires AreBytes(b)
    ensures Decode(Encode(b)) == Some(b)
  {
    var n := |Sextets(b)|;
    SextetCount(b);
    PrefixDecodes(b, n);
    assert Encode(b)[..n] == Symbols(Sextets(b));
    assert b[..|b|] == b;
  }

  function StripLeft(s: string): string {
    if s != "" && IsSpace(s[0]) then StripLeft(s[1..]) else s
  }

  function StripRight(s: string): string {
    if s != "" && IsSpace(s[|s| - 1]) then StripRight(s[..|s| - 1]) else s
  }

  function Strip(s: string): string {
    StripRight(StripLeft(s))
  }

  lemma SpacesAre(c: char)
    ensures IsSpace(c) <==> c as int in {9, 10, 11, 12, 13, 28, 29, 30, 31, 32}
  {
  }

  predicate AllSpace(s: string) {
    forall k :: 0 <= k < |s| ==> IsSpace(s[k])
  }

  /** White space around a text is taken off, and nothing else. */
  lemma StripAround(before: string, text: string, after: string)
    requires AllSpace(before) && AllSpace(after)
    requires text != "" && !IsSpace(text[0]) && !IsSpace(text[|text| - 1])
    ensures Strip(before + text + after) == text
  {
    StripBefore(before, text + after);
    assert before + text + after == before + (text + after);
    StripAfter(text, after);
  }

  lemma {:induction false} StripBefore(before: string, text: string)
    requires AllSpace(before) && text != "" && !IsSpace(text[0])
    ensures StripLeft(before + text) == text
  {
    if before == "" {
      assert before + text == text;
    } else {
      assert (before + text)[1..] == before[1..] + text;
      StripBefore(before[1..], text);
    }
  }

  lemma {:induction false} StripAfter(text: string, after: string)
    requires AllSpace(after) && text != "" && !IsSpace(text[|text| - 1])
    ensures StripRight(text + after) == text
  {
    if after == "" {
      assert text + after == text;
    } else {
      var s := text + after;
      assert s[..|s| - 1] == text + after[..|after| - 1];
      StripAfter(text, after[..|after| - 1]);
    }
  }

  /** What the creating worker writes. */
  function Content(key: Bytes): string
    requires AreBytes(key)
  {
    Encode(key) + "\n"
  }

  predicate IsKey(key: Bytes) {
    AreBytes(key) && |key| == 32
  }

  lemma KeyLength(key: Bytes)
    requires IsKey(key)
    ensures |Sextets(key)| == 43 && |Encode(key)| == 44 && |Content(key)| == 45 && Encode(key)[43] == '='
  {
    SextetCount(key);
    assert Pads(43) == "=";
  }

  lemma EncodingHasNoSpace(key: Bytes, k: nat)
    requires IsKey(key) && k < |Encode(key)|
    ensures !IsSpace(Encode(key)[k])
  {
    KeyLength(key);
    var vs := Sextets(key);
    if k < 43 {
      SymbolRoundTrip(vs[k]);
      assert Encode(key)[k] == Symbol(vs[k]);
    }
  }

  lemma ReadPrefix(key: Bytes, n: nat)
    requires IsKey(key) && n <= |Content(key)|
    ensures |Content(key)| == 45 && |Encode(key)| == 44
    ensures Strip(Content(key)[..n]) == Encode(key)[..if n == 45 then 44 else n]
  {
    KeyLength(key);
    var m := if n == 45 then 44 else n;
    assert Content(key)[..n] == Encode(key)[..m] + (if n == 45 then "\n" else "");
    if n > 0 {
      EncodingHasNoSpace(key, 0);
      EncodingHasNoSpace(key, m - 1);
    }
    hide Encode;
    if n == 45 {
      var value := Encode(key)[..m];
      var text := value + "\n";
      assert text[0] == value[0] && text[44] == '\n' && text[..44] == value && value[43] == Encode(key)[43];
      assert StripRight(text) == StripRight(value);
    }
  }

  lemma ShortOfAKey(n: nat)
    requires n <= 43
    ensures Whole(n) == 32 <==> n == 43
  {
  }

  /** Of all the states of a file being written, a reader accepts only the complete key and
      the key short of its last padding character, and reads the same bytes from both. */
  lemma OnlyTheWholeKeyIsRead(key: Bytes, n: nat)
    requires IsKey(key) && n <= |Content(key)|
    ensures ValidKey(Strip(Content(key)[..n])) <==> n >= 43
    ensures n >= 43 ==> KeyOf(Strip(Content(key)[..n])) == Some(key)
  {
    KeyLength(key);
    ReadPrefix(key, n);
    var value := Strip(Content(key)[..n]);
    hide Content, Strip, Decode;
    if n >= 44 {
      Base64RoundTrip(key);
      assert Encode(key)[..44] == Encode(key);
      assert value + "" == value;
    } else {
      PrefixDecodes(key, n);
      ShortOfAKey(n);
      hide Whole;
      if n == 43 {
        SextetCount(key);
        assert key[..32] == key;
      }
    }
  }

  // ----- the workers ------------------------------------------------------------------------------------

  /** The file was there before, or one worker created it and has written a part. */
  datatype File = Missing | Before(text: string) | Written(creator: nat, key: Bytes, length: nat)

  datatype Worker = Creating | Polling(tries: nat) | Returned(value: string) | GaveUp | Dead

  datatype State = State(file: File, workers: map<nat, Worker>)

  datatype Step =
    | Create(w: nat, key: Bytes)
    | FindIt(w: nat)
    | WriteMore(w: nat, length: nat)
    | Close(w: nat)
    | Poll(w: nat)
    | Crash(w: nat)

  const POLLS := 100

  function TextOf(file: File): string {
    match file
    case Missing => ""
    case Before(text) => text
    case Written(_, key, length) => if IsKey(key) && length <= |Content(key)| then Content(key)[..length] else ""
  }

  predicate Enabled(s: State, step: Step) {
    match step
    case Create(w, key) => w !in s.workers && s.file.Missing? && IsKey(key)
    case FindIt(w) => w !in s.workers && !s.file.Missing?
    case WriteMore(w, length) =>
      w in s.workers && s.workers[w].Creating? && s.file.Written? && s.file.creator == w
      && IsKey(s.file.key) && s.file.length < length <= |Content(s.file.key)|
    case Close(w) =>
      w in s.workers && s.workers[w].Creating? && s.file.Written? && s.file.creator == w
      && IsKey(s.file.key) && s.file.length == |Content(s.file.key)|
    case Poll(w) => w in s.workers && s.workers[w].Polling?
    case Crash(w) => w in s.workers && (s.workers[w].Creating? || s.workers[w].Polling?)
  }

  function AfterPoll(worker: Worker, text: string): Worker
    requires worker.Polling?
  {
    var value := Strip(text);
    if ValidKey(value) then Returned(value)
    else if worker.tries <= 1 then GaveUp else Polling(worker.tries - 1)
  }

  function Apply(s: State, step: Step): State
    requires Enabled(s, step)
  {
    match step
    case Create(w, key) => State(Written(w, key, 0), s.workers[w := Creating])
    case FindIt(w) => s.(workers := s.workers[w := Polling(POLLS)])
    case WriteMore(w, length) => s.(file := s.file.(length := length))
    case Close(w) => s.(workers := s.workers[w := Returned(Encode(s.file.key))])
    case Poll(w) => s.(workers := s.workers[w := AfterPoll(s.workers[w], TextOf(s.file))])
    case Crash(w) => s.(workers := s.workers[w := Dead])
  }

  predicate CanRun(s: State, steps: seq<Step>)
    decreases |steps|
  {
    steps == [] || (Enabled(s, steps[0]) && CanRun(Apply(s, steps[0]), steps[1..]))
  }

  function Run(s: State, steps: seq<Step>): State
    requires CanRun(s, steps)
    decreases |steps|
  {
    if steps == [] then s else Run(Apply(s, steps[0]), steps[1..])
  }

  /** The bytes every worker must come away with. */
  function Agreed(file: File): Option<Bytes> {
    match file
    case Missing => None
    case Before(text) => KeyOf(Strip(text))
    case Written(_, key, _) => Some(key)
  }

  ghost predicate FileOk(file: File) {
    file.Written? ==> IsKey(file.key) && file.length <= |Content(file.key)|
  }

  ghost predicate WorkerOk(file: File, worker: Worker) {
    worker.Returned? ==> !file.Missing? && ValidKey(worker.value) && KeyOf(worker.value) == Agreed(file)
  }

  ghost predicate Inv(s: State) {
    FileOk(s.file) && forall w :: w in s.workers ==> WorkerOk(s.file, s.workers[w])
  }

  /** A read that succeeds yields the agreed bytes, whenever it happens. */
  lemma ReadsAgree(file: File)
    requires FileOk(file) && !file.Missing? && ValidKey(Strip(TextOf(file)))
    ensures KeyOf(Strip(TextOf(file))) == Agreed(file)
  {
    if file.Written? {
      OnlyTheWholeKeyIsRead(file.key, file.length);
    }
  }

  lemma WholeKeyIsValid(key: Bytes)
    requires IsKey(key)
    ensures ValidKey(Encode(key)) && KeyOf(Encode(key)) == Some(key)
  {
    KeyLength(key);
    OnlyTheWholeKeyIsRead(key, 44);
    ReadPrefix(key, 44);
    assert Encode(key)[..44] == Encode(key);
  }

  lemma StepKeepsInv(s: State, step: Step)
    requires Inv(s) && Enabled(s, step)
    ensures Inv(Apply(s, step))
  {
    var s' := Apply(s, step);
    match step
    case Close(_) => WholeKeyIsValid(s.file.key);
    case Poll(_) =>
      if !s.file.Missing? && ValidKey(Strip(TextOf(s.file))) {
        ReadsAgree(s.file);
      }
      if s.file.Missing? {
        NothingIsNoKey();
      }
    case _ =>
    hide KeyOf, Encode, Content, Strip, IsKey, TextOf;
    forall w | w in s'.workers
      ensures WorkerOk(s'.file, s'.workers[w])
    {
      assert w in s.workers ==> WorkerOk(s.file, s.workers[w]);
    }
  }

  lemma NothingIsNoKey()
    ensures !ValidKey(Strip(""))
  {
    assert "" + Pads(0) == "";
  }

  lemma {:induction false} RunKeepsInv(s: State, steps: seq<Step>)
    requires Inv(s) && CanRun(s, steps)
    ensures Inv(Run(s, steps))
    decreases |steps|
  {
    hide Inv, Enabled, Apply;
    if steps != [] {
      StepKeepsInv(s, steps[0]);
      RunKeepsInv(Apply(s, steps[0]), steps[1..]);
    }
  }

  /** Whatever the interleaving, the crashes and the partial writes, and whatever the file
      held before: all workers that return a key return the same 32 bytes. */
  lemma WorkersAgree(before: File, steps: seq<Step>, v: nat, w: nat)
    requires !before.Written? && CanRun(State(before, map[]), steps)
    requires var workers := Run(State(before, map[]), steps).workers;
      v in workers && w in workers && workers[v].Returned? && workers[w].Returned?
    ensures var workers := Run(State(before, map[]), steps).workers;
      && KeyOf(workers[v].value) == KeyOf(workers[w].value)
      && KeyOf(workers[v].value).Some? && |KeyOf(workers[v].value).value| == 32
  {
    RunKeepsInv(State(before, map[]), steps);
    var s := Run(State(before, map[]), steps);
    assert WorkerOk(s.file, s.workers[v]) && WorkerOk(s.file, s.workers[w]);
  }

  /** Once all but the last padding character and the newline are written, no poll fails. */
  lemma WrittenIsRead(s: State, w: nat)
    requires Inv(s) && Enabled(s, Poll(w)) && s.file.Written? && s.file.length >= 43
    ensures Apply(s, Poll(w)).workers[w].Returned?
  {
    OnlyTheWholeKeyIsRead(s.file.key, s.file.length);
    hide ValidKey, Strip, Content;
  }

  // ----- two runs ---------------------------------------------------------------------------------------

  lemma Unfold(s: State, steps: seq<Step>)
    ensures steps == [] ==> CanRun(s, steps) && Run(s, steps) == s
    ensures steps != [] && Enabled(s, steps[0]) && CanRun(Apply(s, steps[0]), steps[1..]) ==>
      CanRun(s, steps) && Run(s, steps) == Run(Apply(s, steps[0]), steps[1..])
  {
  }

  /** One more step ahead of a run. */
  lemma Ahead(s: State, step: Step, s': State, steps: seq<Step>)
    requires Enabled(s, step) && s' == Apply(s, step) && CanRun(s', steps)
    ensures CanRun(s, [step] + steps) && Run(s, [step] + steps) == Run(s', steps)
  {
    assert ([step] + steps)[1..] == steps;
    hide Enabled, Apply;
    Unfold(s, [step] + steps);
  }

  predicate Leads(s: State, steps: seq<Step>, end: State) {
    CanRun(s, steps) && Run(s, steps) == end
  }

  function Shared(key: Bytes, n: nat, creator: Worker, other: Worker): State {
    State(Written(0, key, n), map[0 := creator, 1 := other])
  }

  lemma PollsShared(key: Bytes, n: nat, tries: nat)
    requires IsKey(key) && n <= 45 && tries > 1
    ensures var s := Shared(key, n, Creating, Polling(tries));
      && Enabled(s, Poll(1))
      && (n < 43 ==> Apply(s, Poll(1)) == Shared(key, n, Creating, Polling(tries - 1)))
      && (n == 45 ==> Apply(s, Poll(1)) == Shared(key, n, Creating, Returned(Encode(key))))
  {
    PollReads(key, n);
    KeyLength(key);
    var s := Shared(key, n, Creating, Polling(tries));
    hide ValidKey, KeyOf, Encode, Strip, Content;
    assert TextOf(s.file) == Content(key)[..n];
  }

  lemma PollReads(key: Bytes, n: nat)
    requires IsKey(key) && n <= 45
    ensures |Content(key)| == 45 && (ValidKey(Strip(Content(key)[..n])) <==> n >= 43)
    ensures n == 45 ==> Strip(Content(key)[..n]) == Encode(key)
  {
    KeyLength(key);
    OnlyTheWholeKeyIsRead(key, n);
    ReadPrefix(key, n);
    hide ValidKey, KeyOf, Strip, Content;
    assert Encode(key)[..44] == Encode(key);
  }

  lemma WritesShared(key: Bytes, n: nat, m: nat, other: Worker)
    requires IsKey(key) && n < m <= 45
    ensures var s := Shared(key, n, Creating, other);
      Enabled(s, WriteMore(0, m)) && Apply(s, WriteMore(0, m)) == Shared(key, m, Creating, other)
  {
    KeyLength(key);
    hide Encode, Content;
  }

  lemma ClosesShared(key: Bytes, other: Worker)
    requires IsKey(key)
    ensures var s := Shared(key, 45, Creating, other);
      Enabled(s, Close(0)) && Apply(s, Close(0)) == Shared(key, 45, Returned(Encode(key)), other)
  {
    KeyLength(key);
    hide Encode, Content;
  }

  lemma LastTwo(key: Bytes)
    requires IsKey(key)
    ensures Leads(Shared(key, 45, Creating, Polling(99)), [Poll(1), Close(0)],
                  Shared(key, 45, Returned(Encode(key)), Returned(Encode(key))))
  {
    var value := Encode(key);
    hide CanRun, Run, Encode, Content, IsKey, ValidKey, Strip, KeyOf, Enabled, Apply;
    PollsShared(key, 45, 99);
    ClosesShared(key, Returned(value));
    var end := Shared(key, 45, Returned(value), Returned(value));
    Unfold(end, []);
    Ahead(Shared(key, 45, Creating, Returned(value)), Close(0), end, []);
    Ahead(Shared(key, 45, Creating, Polling(99)), Poll(1), Shared(key, 45, Creating, Returned(value)),
          [Close(0)] + []);
    assert [Poll(1)] + ([Close(0)] + []) == [Poll(1), Close(0)];
  }

  lemma SecondHalf(key: Bytes, n: nat)
    requires IsKey(key) && 0 < n < 43
    ensures Leads(Shared(key, n, Creating, Polling(100)), [Poll(1), WriteMore(0, 45), Poll(1), Close(0)],
                  Shared(key, 45, Returned(Encode(key)), Returned(Encode(key))))
  {
    hide CanRun, Run, Encode, Content, IsKey, ValidKey, Strip, KeyOf, Enabled, Apply;
    LastTwo(key);
    PollsShared(key, n, 100);
    WritesShared(key, n, 45, Polling(99));
    Ahead(Shared(key, n, Creating, Polling(99)), WriteMore(0, 45), Shared(key, 45, Creating, Polling(99)),
          [Poll(1), Close(0)]);
    Ahead(Shared(key, n, Creating, Polling(100)), Poll(1), Shared(key, n, Creating, Polling(99)),
          [WriteMore(0, 45)] + [Poll(1), Close(0)]);
    assert [Poll(1)] + ([WriteMore(0, 45)] + [Poll(1), Close(0)]) == [Poll(1), WriteMore(0, 45), Poll(1), Close(0)];
  }

  /** The usual course: a worker that finds the file half-written waits, and both come away
      with the key as it was encoded. */
  lemma KeyIsShared(key: Bytes, n: nat)
    requires IsKey(key) && 0 < n < 43
    ensures var steps := [Create(0, key), FindIt(1), WriteMore(0, n), Poll(1), WriteMore(0, 45), Poll(1), Close(0)];
      Leads(State(Missing, map[]), steps, Shared(key, 45, Returned(Encode(key)), Returned(Encode(key))))
  {
    var s0, s1 := State(Missing, map[]), State(Written(0, key, 0), map[0 := Creating]);
    var s2, s3 := Shared(key, 0, Creating, Polling(100)), Shared(key, n, Creating, Polling(100));
    assert Enabled(s0, Create(0, key)) && Apply(s0, Create(0, key)) == s1;
    assert Enabled(s1, FindIt(1)) && Apply(s1, FindIt(1)) == s2;
    hide CanRun, Run, Encode, Content, IsKey, ValidKey, Strip, KeyOf, Enabled, Apply;
    SecondHalf(key, n);
    WritesShared(key, 0, n, Polling(100));
    var later := [Poll(1), WriteMore(0, 45), Poll(1), Close(0)];
    Ahead(s2, WriteMore(0, n), s3, later);
    Ahead(s1, FindIt(1), s2, [WriteMore(0, n)] + later);
    Ahead(s0, Create(0, key), s1, [FindIt(1)] + ([WriteMore(0, n)] + later));
    assert [Create(0, key)] + ([FindIt(1)] + ([WriteMore(0, n)] + later))
        == [Create(0, key), FindIt(1), WriteMore(0, n), Poll(1), WriteMore(0, 45), Poll(1), Close(0)];
  }

  function PollsOf(w: nat, n: nat): seq<Step> {
    if n == 0 then [] else [Poll(w)] + PollsOf(w, n - 1)
  }

  /** A worker that keeps finding no key gives up at its last poll, and not before. */
  lemma {:induction false} GivesUpAtLast(s: State, w: nat, tries: nat, n: nat)
    requires w in s.workers && s.workers[w] == Polling(tries) && n <= tries
    requires !ValidKey(Strip(TextOf(s.file)))
    ensures CanRun(s, PollsOf(w, n))
    ensures var after := Run(s, PollsOf(w, n));
      && after.file == s.file && w in after.workers
      && after.workers[w] == if n == 0 || n < tries then Polling(tries - n) else GaveUp
    decreases n
  {
    hide ValidKey, Strip, CanRun, Run;
    if n == 0 {
      Unfold(s, []);
    } else {
      var s' := Apply(s, Poll(w));
      if n == 1 {
        Unfold(s', []);
      } else {
        GivesUpAtLast(s', w, tries - 1, n - 1);
      }
      Ahead(s, Poll(w), s', PollsOf(w, n - 1));
    }
  }

  /** So does one that finds a file whose writer died before 43 characters, after a hundred. */
  lemma DeadWriterMeansGivingUp(key: Bytes, n: nat, w: nat)
    requires IsKey(key) && n < 43 && w != 0
    ensures var s := State(Written(0, key, n), map[0 := Dead]); var steps := [FindIt(w)] + PollsOf(w, 100);
      && CanRun(s, steps) && w in Run(s, steps).workers && Run(s, steps).workers[w] == GaveUp
  {
    var s := State(Written(0, key, n), map[0 := Dead]);
    KeyLength(key);
    OnlyTheWholeKeyIsRead(key, n);
    hide ValidKey, Strip, Content, CanRun, Run, PollsOf;
    var s' := Apply(s, FindIt(w));
    GivesUpAtLast(s', w, 100, 100);
    Ahead(s, FindIt(w), s', PollsOf(w, 100));
  }

  /** The polling loop of ensure_credential_key, given what each read finds: the first
      valid content is returned, and only a hundred invalid ones give up. */
  method AwaitKey(contents: nat -> string) returns (key: Option<string>)
    ensures key.Some? ==>
      exists k :: (&& 0 <= k < 100 && key.value == Strip(contents(k)) && ValidKey(Strip(contents(k)))
                   && forall j :: 0 <= j < k ==> !ValidKey(Strip(contents(j))))
    ensures key.None? ==> forall k :: 0 <= k < 100 ==> !ValidKey(Strip(contents(k)))
  {
    hide ValidKey, Strip;
    for k := 0 to POLLS
      invariant forall j :: 0 <= j < k ==> !ValidKey(Strip(contents(j)))
    {
      var value := Strip(contents(k));
      if ValidKey(value) {
        return Some(value);
      }
    }
    key := None;
  }
}
