/** Paragraph-aware chunking of extracted text (backend/app/services/knowledge/loader.py).
    Which characters count as whitespace is a parameter. */
module Chunker {
  import opened Prelude

  type Space = char -> bool

  const BREAK := "\n\n"

  // ----- paragraphs ---------------------------------------------------------------------

  function LStrip(s: string, space: Space): string {
    if s != "" && space(s[0]) then LStrip(s[1..], space) else s
  }

  function RStrip(s: string, space: Space): string {
    if s != "" && space(s[|s| - 1]) then RStrip(s[..|s| - 1], space) else s
  }

  function Strip(s: string, space: Space): string {
    RStrip(LStrip(s, space), space)
  }

  /** Nonempty, and no whitespace at either end. */
  predicate Clean(s: string, space: Space) {
    s != "" && !space(s[0]) && !space(s[|s| - 1])
  }

  lemma {:induction false} RStripEnds(s: string, space: Space)
    ensures |RStrip(s, space)| <= |s|
    ensures s != "" && !space(s[0]) ==> Clean(RStrip(s, space), space)
    ensures Clean(s, space) ==> RStrip(s, space) == s
  {
    if s != "" && space(s[|s| - 1]) {
      RStripEnds(s[..|s| - 1], space);
    }
  }

  lemma {:induction false} LStripEnds(s: string, space: Space)
    ensures |LStrip(s, space)| <= |s|
    ensures LStrip(s, space) == "" || !space(LStrip(s, space)[0])
    ensures Clean(s, space) ==> LStrip(s, space) == s
  {
    if s != "" && space(s[0]) {
      LStripEnds(s[1..], space);
    }
  }

  lemma StripEnds(s: string, space: Space)
    ensures |Strip(s, space)| <= |s|
    ensures Strip(s, space) == "" || Clean(Strip(s, space), space)
    ensures Clean(s, space) ==> Strip(s, space) == s
  {
    LStripEnds(s, space);
    RStripEnds(LStrip(s, space), space);
  }

  /** text.split("\n\n") */
  function SplitBreaks(text: string, pending: string): seq<string>
    decreases |text|
  {
    if text == "" then [pending]
    else if |text| >= 2 && text[..2] == BREAK then [pending] + SplitBreaks(text[2..], "")
    else SplitBreaks(text[1..], pending + [text[0]])
  }

  function StripAll(parts: seq<string>, space: Space): seq<string> {
    if parts == [] then []
    else (if Strip(parts[0], space) == "" then [] else [Strip(parts[0], space)]) + StripAll(parts[1..], space)
  }

  function Paragraphs(text: string, space: Space): seq<string> {
    StripAll(SplitBreaks(text, ""), space)
  }

  ghost predicate AllClean(ps: seq<string>, space: Space) {
    forall k :: 0 <= k < |ps| ==> Clean(ps[k], space)
  }

  lemma {:induction false} StripAllIsClean(parts: seq<string>, space: Space)
    ensures AllClean(StripAll(parts, space), space)
  {
    if parts != [] {
      StripAllIsClean(parts[1..], space);
      StripEnds(parts[0], space);
    }
  }

  // ----- the packer ---------------------------------------------------------------------

  function Flush(current: string, space: Space): seq<string> {
    if Strip(current, space) == "" then [] else [Strip(current, space)]
  }

  function Slice(p: string, start: nat, size: nat): string
    requires start <= |p|
  {
    if start + size <= |p| then p[start..start + size] else p[start..]
  }

  /** The raw slices of a long paragraph from `start` on. */
  function RawSlices(p: string, start: nat, size: nat, overlap: nat): seq<string>
    requires overlap < size
    decreases |p| - start
  {
    if start >= |p| then [] else [Slice(p, start, size)] + RawSlices(p, start + (size - overlap), size, overlap)
  }

  function Stripped(parts: seq<string>, space: Space): seq<string> {
    seq(|parts|, k requires 0 <= k < |parts| => Strip(parts[k], space))
  }

  /** The chunks of the remaining paragraphs, given the chunk being filled. */
  function Pack(ps: seq<string>, current: string, size: nat, overlap: nat, space: Space): seq<string>
    requires overlap < size
    decreases |ps|
  {
    if ps == [] then Flush(current, space)
    else if |ps[0]| > size then
      Flush(current, space) + Stripped(RawSlices(ps[0], 0, size, overlap), space)
      + Pack(ps[1..], "", size, overlap, space)
    else if |current| + |ps[0]| + 2 > size then
      Flush(current, space) + Pack(ps[1..], ps[0], size, overlap, space)
    else
      Pack(ps[1..], if current == "" then ps[0] else current + BREAK + ps[0], size, overlap, space)
  }

  /** The inner loop: hard-split one long paragraph. */
  method SplitLong(p: string, size: nat, overlap: nat, space: Space) returns (chunks: seq<string>)
    requires overlap < size
    ensures chunks == Stripped(RawSlices(p, 0, size, overlap), space)
  {
    chunks := [];
    ghost var raw: seq<string> := [];
    var start := 0;
    while start < |p|
      invariant RawSlices(p, 0, size, overlap) == raw + RawSlices(p, start, size, overlap)
      invariant chunks == Stripped(raw, space)
      decreases |p| - start
    {
      var slice := Slice(p, start, size);
      Assoc(raw, [slice], RawSlices(p, start + (size - overlap), size, overlap));
      raw := raw + [slice];
      chunks := chunks + [Strip(slice, space)];
      start := start + (size - overlap);
    }
    assert raw + [] == raw;
  }

  /** chunk_text */
  method ChunkText(text: string, size: nat, overlap: nat, space: Space) returns (chunks: seq<string>)
    requires overlap < size
    ensures chunks == Pack(Paragraphs(text, space), "", size, overlap, space)
    ensures AllFit(chunks, size)
    ensures space('\n') ==> Subsequence(Visible(text, space), Visible(Flatten(chunks), space))
    ensures space('\n') && (overlap == 0 || AllFit(Paragraphs(text, space), size)) ==>
      Visible(Flatten(chunks), space) == Visible(text, space)
  {
    TextChunksFit(text, size, overlap, space);
    if space('\n') {
      NothingIsLost(text, size, overlap, space);
    }
    hide Visible, Subsequence, AllFit, Paragraphs, Flatten, Flush, Pack;
    var paragraphs := Paragraphs(text, space);
    chunks := [];
    var current := "";
    for n := 0 to |paragraphs|
      invariant Pack(paragraphs, "", size, overlap, space)
             == chunks + Pack(paragraphs[n..], current, size, overlap, space)
    {
      var p := paragraphs[n];
      PackStep(paragraphs, n, chunks, current, size, overlap, space);
      if |p| > size {
        chunks := chunks + Flush(current, space);
        current := "";
        var slices := SplitLong(p, size, overlap, space);
        chunks := chunks + slices;
      } else if |current| + |p| + 2 > size {
        chunks := chunks + Flush(current, space);
        current := p;
      } else {
        current := if current == "" then p else current + BREAK + p;
      }
    }
    chunks := chunks + Flush(current, space);
  }

  lemma PackStep(ps: seq<string>, n: nat, chunks: seq<string>, current: string, size: nat, overlap: nat, space: Space)
    requires n < |ps| && overlap < size
    ensures var p := ps[n];
      var whole := chunks + Pack(ps[n..], current, size, overlap, space);
      if |p| > size then
        whole == (chunks + Flush(current, space)) + Stripped(RawSlices(p, 0, size, overlap), space)
                 + Pack(ps[n + 1..], "", size, overlap, space)
      else if |current| + |p| + 2 > size then
        whole == (chunks + Flush(current, space)) + Pack(ps[n + 1..], p, size, overlap, space)
      else
        whole == chunks + Pack(ps[n + 1..], if current == "" then p else current + BREAK + p, size, overlap, space)
  {
    var p, rest := ps[n], ps[n + 1..];
    assert ps[n..][0] == p && ps[n..][1..] == rest;
    hide Flush, Stripped, RawSlices;
    if |p| > size {
      var a, b, c := Flush(current, space), Stripped(RawSlices(p, 0, size, overlap), space),
        Pack(rest, "", size, overlap, space);
      assert Pack(ps[n..], current, size, overlap, space) == a + b + c;
      hide Pack;
      Assoc(chunks, a + b, c);
      Assoc(chunks, a, b);
    } else if |current| + |p| + 2 > size {
      Assoc(chunks, Flush(current, space), Pack(rest, p, size, overlap, space));
    }
  }

  // ----- every chunk fits -----------------------------------------------------------------

  ghost predicate AllFit(chunks: seq<string>, size: nat) {
    forall k :: 0 <= k < |chunks| ==> |chunks[k]| <= size
  }

  lemma {:induction false} SlicesFit(p: string, start: nat, size: nat, overlap: nat, space: Space)
    requires overlap < size
    ensures AllFit(Stripped(RawSlices(p, start, size, overlap), space), size)
    decreases |p| - start
  {
    if start < |p| {
      SlicesFit(p, start + (size - overlap), size, overlap, space);
      StripEnds(Slice(p, start, size), space);
      var rest := RawSlices(p, start + (size - overlap), size, overlap);
      assert Stripped([Slice(p, start, size)] + rest, space)
          == [Strip(Slice(p, start, size), space)] + Stripped(rest, space);
    }
  }

  lemma {:induction false} ChunksFit(ps: seq<string>, current: string, size: nat, overlap: nat, space: Space)
    requires overlap < size && |current| <= size
    ensures AllFit(Pack(ps, current, size, overlap, space), size)
    decreases |ps|
  {
    StripEnds(current, space);
    if ps != [] {
      hide Strip, Stripped, RawSlices;
      if |ps[0]| > size {
        SlicesFit(ps[0], 0, size, overlap, space);
        ChunksFit(ps[1..], "", size, overlap, space);
      } else if |current| + |ps[0]| + 2 > size {
        ChunksFit(ps[1..], ps[0], size, overlap, space);
      } else {
        ChunksFit(ps[1..], if current == "" then ps[0] else current + BREAK + ps[0], size, overlap, space);
      }
    }
  }

  // ----- long paragraphs ----------------------------------------------------------------------

  function HeadOf(s: string, n: nat): string {
    if |s| <= n then s else s[..n]
  }

  function Heads(parts: seq<string>, n: nat): seq<string> {
    if parts == [] then [] else [HeadOf(parts[0], n)] + Heads(parts[1..], n)
  }

  /** The first size - overlap characters of the slices spell the paragraph. */
  lemma {:induction false} SlicesSpell(p: string, start: nat, size: nat, overlap: nat)
    requires overlap < size && start <= |p|
    ensures Flatten(Heads(RawSlices(p, start, size, overlap), size - overlap)) == p[start..]
    decreases |p| - start
  {
    hide Heads, Flatten, Slice;
    var step := size - overlap;
    if start < |p| {
      var rest := RawSlices(p, start + step, size, overlap);
      HeadsCons(Slice(p, start, size), rest, step);
      FlattenCons(HeadOf(Slice(p, start, size), step), Heads(rest, step));
      HeadOfSlice(p, start, size, step);
      if start + step <= |p| {
        SlicesSpell(p, start + step, size, overlap);
      } else {
        NoHeads(step);
      }
    } else {
      NoHeads(step);
    }
  }

  function StepsFrom(start: nat, step: nat, k: nat): nat
    decreases k
  {
    if k == 0 then start else StepsFrom(start + step, step, k - 1)
  }

  lemma {:induction false} StepsAre(start: nat, step: nat, k: nat)
    ensures StepsFrom(start, step, k) == start + k * step
    decreases k
  {
    if k > 0 {
      StepsAre(start + step, step, k - 1);
      assert (k - 1) * step + step == k * step;
    }
  }

  lemma {:induction false} NotBefore(start: nat, step: nat, k: nat)
    ensures StepsFrom(start, step, k) >= start
    decreases k
  {
    if k > 0 {
      NotBefore(start + step, step, k - 1);
    }
  }

  lemma {:induction false} SliceFrom(p: string, start: nat, size: nat, overlap: nat, k: nat)
    requires overlap < size
    ensures var at := StepsFrom(start, size - overlap, k); var slices := RawSlices(p, start, size, overlap);
      && (k < |slices| <==> at < |p|)
      && (k < |slices| ==> slices[k] == p[at..if at + size <= |p| then at + size else |p|])
    decreases k
  {
    if k > 0 {
      SliceFrom(p, start + (size - overlap), size, overlap, k - 1);
      NotBefore(start + (size - overlap), size - overlap, k - 1);
    }
  }

  /** The k-th slice is `size` characters long, or reaches the end, and begins `overlap`
      characters before the one ahead of it ends; slicing goes on while it begins inside. */
  lemma SliceAt(p: string, size: nat, overlap: nat, k: nat, at: nat)
    requires overlap < size && at == k * (size - overlap)
    ensures var slices := RawSlices(p, 0, size, overlap);
      && (k < |slices| <==> at < |p|)
      && (k < |slices| ==> slices[k] == p[at..if at + size <= |p| then at + size else |p|])
  {
    hide RawSlices, StepsFrom;
    SliceFrom(p, 0, size, overlap, k);
    StepsAre(0, size - overlap, k);
  }

  lemma NoHeads(n: nat)
    ensures Flatten(Heads([], n)) == []
  {
  }

  lemma HeadsCons(first: string, rest: seq<string>, n: nat)
    ensures Heads([first] + rest, n) == [HeadOf(first, n)] + Heads(rest, n)
  {
    assert ([first] + rest)[1..] == rest;
  }

  lemma HeadOfSlice(p: string, start: nat, size: nat, step: nat)
    requires start < |p| && 0 < step <= size
    ensures start + step <= |p| ==> HeadOf(Slice(p, start, size), step) + p[start + step..] == p[start..]
    ensures start + step > |p| ==> HeadOf(Slice(p, start, size), step) + [] == p[start..]
  {
  }

  // ----- short paragraphs: what is packed -----------------------------------------------------

  function Join(ps: seq<string>): string {
    if ps == [] then ""
    else if |ps| == 1 then ps[0]
    else Join(ps[..|ps| - 1]) + BREAK + ps[|ps| - 1]
  }

  /** Joining p to the group still fits. */
  predicate Fits(group: seq<string>, p: string, size: nat) {
    |Join(group)| + |p| + 2 <= size
  }

  /** The groups the packer makes of short paragraphs. */
  function Greedy(ps: seq<string>, group: seq<string>, size: nat): seq<seq<string>>
    decreases |ps|
  {
    if ps == [] then (if group == [] then [] else [group])
    else if group == [] || Fits(group, ps[0], size) then Greedy(ps[1..], group + [ps[0]], size)
    else [group] + Greedy(ps[1..], [ps[0]], size)
  }

  function Joined(groups: seq<seq<string>>): seq<string> {
    seq(|groups|, k requires 0 <= k < |groups| => Join(groups[k]))
  }

  lemma JoinSnoc(group: seq<string>, p: string)
    ensures Join(group + [p]) == if group == [] then p else Join(group) + BREAK + p
  {
    assert (group + [p])[..|group|] == group;
  }

  lemma {:induction false} JoinClean(group: seq<string>, space: Space)
    requires AllClean(group, space) && group != []
    ensures Clean(Join(group), space)
  {
    if |group| > 1 {
      JoinClean(group[..|group| - 1], space);
    }
  }

  /** With no paragraph beyond the size, the chunks are the greedy groups, joined. */
  lemma {:induction false} PackIsGreedy(ps: seq<string>, group: seq<string>, size: nat, overlap: nat, space: Space)
    requires overlap < size && AllClean(ps, space) && AllClean(group, space) && AllFit(ps, size)
    ensures Pack(ps, Join(group), size, overlap, space) == Joined(Greedy(ps, group, size))
    decreases |ps|
  {
    FlushGroup(group, space);
    if ps != [] {
      var p := ps[0];
      PartsAreFine(ps, group, size, space);
      hide Join, Flush, Clean, Joined, AllClean, AllFit;
      JoinSnoc(group, p);
      JoinSnoc([], p);
      assert [] + [p] == [p];
      PackIsGreedy(ps[1..], group + [p], size, overlap, space);
      PackIsGreedy(ps[1..], [p], size, overlap, space);
      JoinedCons(group, Greedy(ps[1..], [p], size));
      assert [] + Joined(Greedy(ps[1..], [p], size)) == Joined(Greedy(ps[1..], [p], size));
    }
  }

  lemma PartsAreFine(ps: seq<string>, group: seq<string>, size: nat, space: Space)
    requires ps != [] && AllClean(ps, space) && AllClean(group, space) && AllFit(ps, size)
    ensures AllClean(ps[1..], space) && AllFit(ps[1..], size) && |ps[0]| <= size
    ensures AllClean(group + [ps[0]], space) && AllClean([ps[0]], space)
  {
  }

  lemma JoinedCons(group: seq<string>, groups: seq<seq<string>>)
    ensures Joined([group] + groups) == [Join(group)] + Joined(groups)
  {
  }

  lemma FlushGroup(group: seq<string>, space: Space)
    requires AllClean(group, space)
    ensures Flush(Join(group), space) == if group == [] then [] else [Join(group)]
    ensures Join(group) == "" <==> group == []
  {
    if group != [] {
      JoinClean(group, space);
    }
    StripEnds(Join(group), space);
  }

  /** A way to divide paragraphs into consecutive nonempty groups that each fit. */
  ghost predicate Grouping(groups: seq<seq<string>>, size: nat) {
    forall k :: 0 <= k < |groups| ==> groups[k] != [] && |Join(groups[k])| <= size
  }

  lemma {:induction false} GreedyIsGrouping(ps: seq<string>, group: seq<string>, size: nat)
    requires AllFit(ps, size) && |Join(group)| <= size
    ensures Flatten(Greedy(ps, group, size)) == group + ps
    ensures Grouping(Greedy(ps, group, size), size)
    decreases |ps|
  {
    hide Join;
    if ps == [] {
      assert group + ps == group;
      assert group != [] ==> Flatten([group]) == group + Flatten<string>([]);
    } else {
      var p := ps[0];
      JoinSnoc(group, p);
      JoinSnoc([], p);
      assert [] + [p] == [p];
      assert ps == [p] + ps[1..];
      if group == [] || Fits(group, p, size) {
        GreedyIsGrouping(ps[1..], group + [p], size);
        Assoc(group, [p], ps[1..]);
      } else {
        GreedyIsGrouping(ps[1..], [p], size);
        assert ([group] + Greedy(ps[1..], [p], size))[1..] == Greedy(ps[1..], [p], size);
      }
    }
  }

  lemma {:induction false} JoinAppend(a: seq<string>, b: seq<string>)
    requires a != [] && b != []
    ensures Join(a + b) == Join(a) + BREAK + Join(b)
    decreases |b|
  {
    hide Join;
    var init, last := b[..|b| - 1], b[|b| - 1];
    assert a + b == (a + init) + [last] && b == init + [last];
    JoinSnoc(a + init, last);
    JoinSnoc(init, last);
    if init == [] {
      assert a + init == a;
    } else {
      JoinAppend(a, init);
      Regroup(Join(a) + BREAK, Join(init), last);
    }
  }

  lemma Regroup(x: string, y: string, z: string)
    ensures (x + y) + BREAK + z == x + (y + BREAK + z)
  {
  }

  /** Joining the groups' texts joins all their paragraphs. */
  lemma {:induction false} JoinOfJoined(groups: seq<seq<string>>, size: nat)
    requires Grouping(groups, size)
    ensures Join(Joined(groups)) == Join(Flatten(groups))
    ensures groups != [] ==> Flatten(groups) != []
  {
    if groups != [] {
      var first, rest := groups[0], groups[1..];
      JoinOfJoined(rest, size);
      JoinedCons(first, rest);
      assert groups == [first] + rest;
      if rest == [] {
        assert first + Flatten(rest) == first && [Join(first)] + Joined(rest) == [Join(first)];
      } else {
        JoinAppend([Join(first)], Joined(rest));
        JoinAppend(first, Flatten(rest));
        assert Join([Join(first)]) == Join(first);
      }
    }
  }

  // ----- short paragraphs: greedy packing is optimal --------------------------------------------

  lemma {:induction false} SuffixFits(before: seq<string>, tail: seq<string>, p: string, size: nat)
    requires tail != [] && Fits(before + tail, p, size)
    ensures Fits(tail, p, size)
  {
    if before == [] {
      assert before + tail == tail;
    } else {
      JoinAppend(before, tail);
    }
  }

  /** Starting with more in the open group costs at most one group, and never gains one. */
  lemma {:induction false} OpenGroupCost(before: seq<string>, tail: seq<string>, ps: seq<string>, size: nat)
    requires tail != []
    ensures |Greedy(ps, tail, size)| <= |Greedy(ps, before + tail, size)| <= |Greedy(ps, tail, size)| + 1
    decreases |ps|
  {
    if ps != [] {
      hide Join;
      var p, rest := ps[0], ps[1..];
      if Fits(before + tail, p, size) {
        SuffixFits(before, tail, p, size);
        assert (before + tail) + [p] == before + (tail + [p]);
        OpenGroupCost(before, tail + [p], rest, size);
      } else if Fits(tail, p, size) {
        OpenGroupCost(tail, [p], rest, size);
      }
    }
  }

  /** Any division of the paragraphs that starts with the open group needs at least as
      many groups as the greedy one. */
  lemma {:induction false} GreedyFromOpen(open: seq<string>, ps: seq<string>, groups: seq<seq<string>>, size: nat)
    requires open != [] && groups != [] && Grouping(groups, size)
    requires open <= groups[0] && groups[0][|open|..] + Flatten(groups[1..]) == ps
    ensures |Greedy(ps, open, size)| <= |groups|
    decreases |ps|
  {
    var more := groups[0][|open|..];
    if more != [] {
      var p := more[0];
      assert ps[0] == p && ps[1..] == more[1..] + Flatten(groups[1..]);
      assert groups[0] == (open + [p]) + more[1..];
      NextFits(open, p, more[1..], groups[0], size);
      assert groups[0][|open + [p]|..] == more[1..];
      GreedyFromOpen(open + [p], ps[1..], groups, size);
    } else if |groups| > 1 {
      var next := groups[1];
      var p := next[0];
      assert groups[1..][0] == next && groups[1..][1..] == groups[2..];
      assert ps == next + Flatten(groups[2..]);
      assert ps[0] == p && ps[1..] == next[1..] + Flatten(groups[2..]);
      assert [p] <= next && next[|[p]|..] == next[1..];
      assert groups[1..][0][|[p]|..] + Flatten(groups[1..][1..]) == ps[1..];
      GreedyFromOpen([p], ps[1..], groups[1..], size);
      OpenGroupCost(open, [p], ps[1..], size);
    } else {
      assert Flatten(groups[1..]) == [] && ps == [];
    }
  }

  lemma NextFits(open: seq<string>, p: string, more: seq<string>, whole: seq<string>, size: nat)
    requires open != [] && whole == (open + [p]) + more && |Join(whole)| <= size
    ensures Fits(open, p, size)
  {
    JoinSnoc(open, p);
    if more == [] {
      assert whole == open + [p];
    } else {
      JoinAppend(open + [p], more);
    }
  }

  /** chunk_text on paragraphs that all fit: the chunks joined are the paragraphs joined,
      and no division into consecutive groups within the size has fewer chunks. */
  lemma ShortParagraphs(ps: seq<string>, size: nat, overlap: nat, space: Space)
    requires overlap < size && AllClean(ps, space) && AllFit(ps, size)
    ensures var chunks := Pack(ps, "", size, overlap, space);
      && Join(chunks) == Join(ps)
      && (exists groups :: Grouping(groups, size) && Flatten(groups) == ps && chunks == Joined(groups))
      && (forall groups :: Grouping(groups, size) && Flatten(groups) == ps ==> |chunks| <= |groups|)
  {
    var best := Greedy(ps, [], size);
    PackIsGreedy(ps, [], size, overlap, space);
    GreedyIsGrouping(ps, [], size);
    assert [] + ps == ps;
    JoinOfJoined(best, size);
    forall groups | Grouping(groups, size) && Flatten(groups) == ps
      ensures |best| <= |groups|
    {
      GreedyIsOptimal(ps, groups, size);
    }
  }

  lemma GreedyIsOptimal(ps: seq<string>, groups: seq<seq<string>>, size: nat)
    requires Grouping(groups, size) && Flatten(groups) == ps
    ensures |Greedy(ps, [], size)| <= |groups|
  {
    if ps != [] {
      var p := ps[0];
      assert groups != [] && groups[0][0] == p;
      assert ps[1..] == groups[0][1..] + Flatten(groups[1..]);
      assert [] + [p] == [p] && [p] <= groups[0];
      GreedyFromOpen([p], ps[1..], groups, size);
    }
  }

  /** A long paragraph is a hard boundary: what precedes and follows it is packed apart. */
  lemma {:induction false} LongParagraphDivides(
      before: seq<string>, long: string, after: seq<string>, current: string, size: nat, overlap: nat, space: Space)
    requires overlap < size && |long| > size
    ensures Pack(before + [long] + after, current, size, overlap, space)
         == Pack(before, current, size, overlap, space) + Stripped(RawSlices(long, 0, size, overlap), space)
            + Pack(after, "", size, overlap, space)
    decreases |before|
  {
    hide Flush, Stripped, RawSlices;
    var all := before + [long] + after;
    if before == [] {
      assert all[0] == long && all[1..] == after;
    } else {
      var p := before[0];
      assert all[0] == p && all[1..] == before[1..] + [long] + after;
      var next := if |p| > size then "" else if |current| + |p| + 2 > size then p
                  else if current == "" then p else current + BREAK + p;
      LongParagraphDivides(before[1..], long, after, next, size, overlap, space);
    }
  }

  /** For the text itself: every chunk fits, whatever the paragraphs. */
  lemma TextChunksFit(text: string, size: nat, overlap: nat, space: Space)
    requires overlap < size
    ensures AllClean(Paragraphs(text, space), space)
    ensures AllFit(Pack(Paragraphs(text, space), "", size, overlap, space), size)
  {
    StripAllIsClean(SplitBreaks(text, ""), space);
    ChunksFit(Paragraphs(text, space), "", size, overlap, space);
  }

  // ----- from the text itself ----------------------------------------------------------------------

  predicate NoBreak(s: string) {
    forall i :: 0 <= i < |s| - 1 ==> !(s[i] == '\n' && s[i + 1] == '\n')
  }

  /** The leftmost breaks are taken: no part holds one, nor does one begin at the end of a
      part and reach into the break after it. */
  ghost predicate SplitAtBreaks(parts: seq<string>) {
    && parts != [] && NoBreak(parts[|parts| - 1])
    && forall k :: 0 <= k < |parts| - 1 ==> NoBreak(parts[k] + "\n")
  }

  lemma JoinCons(first: string, rest: seq<string>)
    requires rest != []
    ensures Join([first] + rest) == first + BREAK + Join(rest)
  {
    JoinAppend([first], rest);
  }

  function First(text: string): string {
    if text == "" then "" else text[..1]
  }

  /** Splitting is undone by joining, and its parts are split at every break. */
  lemma {:induction false} SplitSpells(text: string, pending: string)
    requires NoBreak(pending + First(text))
    ensures Join(SplitBreaks(text, pending)) == pending + text
    ensures SplitAtBreaks(SplitBreaks(text, pending))
    decreases |text|
  {
    hide *;
    if text == "" {
      NothingToSplit(pending);
    } else if StartsWithBreak(text) {
      NextBreak(text, pending);
      SplitSpells(text[2..], "");
      BreakSpells(pending, text[2..], SplitBreaks(text[2..], ""));
    } else {
      NextChar(text, pending);
      SplitSpells(text[1..], pending + [text[0]]);
    }
  }

  predicate StartsWithBreak(text: string) {
    |text| >= 2 && text[..2] == BREAK
  }

  lemma NothingToSplit(pending: string)
    requires NoBreak(pending + First(""))
    ensures Join(SplitBreaks("", pending)) == pending + "" && SplitAtBreaks(SplitBreaks("", pending))
  {
    assert pending + "" == pending;
  }

  lemma NextBreak(text: string, pending: string)
    requires StartsWithBreak(text)
    ensures |text| >= 2 && SplitBreaks(text, pending) == [pending] + SplitBreaks(text[2..], "")
    ensures pending + First(text) == pending + "\n" && pending + text == pending + BREAK + text[2..]
    ensures NoBreak("" + First(text[2..])) && "" + text[2..] == text[2..]
  {
    assert text[..2] == [text[0], text[1]] && BREAK == ['\n', '\n'];
  }

  lemma NextChar(text: string, pending: string)
    requires text != "" && !StartsWithBreak(text) && NoBreak(pending + First(text))
    ensures SplitBreaks(text, pending) == SplitBreaks(text[1..], pending + [text[0]])
    ensures pending + [text[0]] + text[1..] == pending + text
    ensures NoBreak(pending + [text[0]] + First(text[1..]))
  {
    NoBreakSnoc(pending, text);
  }

  lemma BreakSpells(part: string, text: string, rest: seq<string>)
    requires NoBreak(part + "\n") && SplitAtBreaks(rest) && Join(rest) == text
    ensures Join([part] + rest) == part + BREAK + text
    ensures SplitAtBreaks([part] + rest)
  {
    hide NoBreak;
    JoinCons(part, rest);
    var parts := [part] + rest;
    assert parts[|parts| - 1] == rest[|rest| - 1];
    assert forall k :: 0 < k < |parts| ==> parts[k] == rest[k - 1];
  }

  lemma NoBreakSnoc(pending: string, text: string)
    requires text != "" && NoBreak(pending + First(text)) && !StartsWithBreak(text)
    ensures NoBreak(pending + [text[0]] + First(text[1..]))
  {
    var before, after := pending + First(text), pending + [text[0]] + First(text[1..]);
    assert forall i :: 0 <= i < |before| ==> after[i] == before[i];
    if |text| >= 2 {
      assert text[..2] == [text[0], text[1]] && BREAK == ['\n', '\n'];
      assert after[|pending|] == text[0] && after[|pending| + 1] == text[1];
    } else {
      assert after == before;
    }
  }

  /** Only one way of splitting has these two properties. */
  lemma {:induction false} SplitIsOnly(parts: seq<string>)
    requires SplitAtBreaks(parts)
    ensures SplitBreaks(Join(parts), "") == parts
    decreases |parts|
  {
    var first, rest := parts[0], parts[1..];
    assert parts == [first] + rest;
    if rest == [] {
      assert parts[|parts| - 1] == first && Join(parts) == first && "" + first == first;
      WalkToTheEnd(first, "");
    } else {
      assert rest[|rest| - 1] == parts[|parts| - 1];
      assert forall k :: 0 <= k < |rest| - 1 ==> rest[k] == parts[k + 1];
      hide NoBreak, Join;
      SplitIsOnly(rest);
      JoinCons(first, rest);
      assert NoBreak(first + "\n");
      WalkToABreak(first, Join(rest), "");
      assert "" + first == first;
    }
  }

  lemma {:induction false} WalkToTheEnd(text: string, pending: string)
    requires NoBreak(text)
    ensures SplitBreaks(text, pending) == [pending + text]
  {
    if text != "" {
      assert |text| >= 2 ==> text[..2] == [text[0], text[1]] && BREAK == ['\n', '\n'];
      WalkToTheEnd(text[1..], pending + [text[0]]);
      assert pending + [text[0]] + text[1..] == pending + text;
    } else {
      assert pending + "" == pending;
    }
  }

  lemma {:induction false} WalkToABreak(part: string, after: string, pending: string)
    requires NoBreak(part + "\n")
    ensures SplitBreaks(part + BREAK + after, pending) == [pending + part] + SplitBreaks(after, "")
  {
    var text := part + BREAK + after;
    assert BREAK[0] == '\n' && BREAK[1] == '\n';
    if part == "" {
      assert text[..2] == BREAK && text[2..] == after && pending + part == pending;
    } else {
      var ended := part + "\n";
      assert text[..2][0] == ended[0] && text[..2][1] == ended[1];
      assert text[1..] == part[1..] + BREAK + after;
      assert part[1..] + "\n" == ended[1..];
      WalkToABreak(part[1..], after, pending + [text[0]]);
      assert pending + [part[0]] + part[1..] == pending + part;
    }
  }

  /** Paragraphs written with breaks between them are the paragraphs of that text. */
  lemma ParagraphsOfJoined(ps: seq<string>, space: Space)
    requires space('\n') && ps != [] && AllClean(ps, space) && forall k :: 0 <= k < |ps| ==> NoBreak(ps[k])
    ensures Paragraphs(Join(ps), space) == ps
  {
    forall k | 0 <= k < |ps| - 1
      ensures NoBreak(ps[k] + "\n")
    {
      assert Clean(ps[k], space) && NoBreak(ps[k]);
    }
    SplitIsOnly(ps);
    StripAllClean(ps, space);
  }

  lemma {:induction false} StripAllClean(ps: seq<string>, space: Space)
    requires AllClean(ps, space)
    ensures StripAll(ps, space) == ps
  {
    if ps != [] {
      StripAllClean(ps[1..], space);
      StripEnds(ps[0], space);
    }
  }

  /** The characters that are not whitespace, in order. */
  function Visible(s: string, space: Space): string {
    if s == "" then "" else (if space(s[0]) then "" else [s[0]]) + Visible(s[1..], space)
  }

  lemma {:induction false} VisibleAppend(a: string, b: string, space: Space)
    ensures Visible(a + b, space) == Visible(a, space) + Visible(b, space)
  {
    if a == "" {
      assert a + b == b;
    } else {
      assert (a + b)[1..] == a[1..] + b;
      VisibleAppend(a[1..], b, space);
    }
  }

  lemma {:induction false} LStripVisible(s: string, space: Space)
    ensures Visible(LStrip(s, space), space) == Visible(s, space)
  {
    if s != "" && space(s[0]) {
      LStripVisible(s[1..], space);
    }
  }

  lemma {:induction false} RStripVisible(s: string, space: Space)
    ensures Visible(RStrip(s, space), space) == Visible(s, space)
  {
    if s != "" && space(s[|s| - 1]) {
      var init, last := s[..|s| - 1], [s[|s| - 1]];
      RStripVisible(init, space);
      assert s == init + last && last[1..] == "";
      VisibleAppend(init, last, space);
    }
  }

  lemma StripVisible(s: string, space: Space)
    ensures Visible(Strip(s, space), space) == Visible(s, space)
  {
    LStripVisible(s, space);
    RStripVisible(LStrip(s, space), space);
  }

  lemma VisibleCons(first: string, rest: seq<string>, space: Space)
    ensures Visible(Flatten([first] + rest), space) == Visible(first, space) + Visible(Flatten(rest), space)
  {
    FlattenCons(first, rest);
    VisibleAppend(first, Flatten(rest), space);
  }

  lemma {:induction false} StripAllVisible(parts: seq<string>, space: Space)
    ensures Visible(Flatten(StripAll(parts, space)), space) == Visible(Flatten(parts), space)
  {
    if parts != [] {
      var first, rest := Strip(parts[0], space), StripAll(parts[1..], space);
      hide Strip, Flatten;
      StripAllVisible(parts[1..], space);
      StripVisible(parts[0], space);
      assert parts == [parts[0]] + parts[1..];
      VisibleCons(parts[0], parts[1..], space);
      VisibleCons(first, rest, space);
      assert [] + rest == rest;
    }
  }

  lemma {:induction false} JoinVisible(ps: seq<string>, space: Space)
    requires space('\n')
    ensures Visible(Join(ps), space) == Visible(Flatten(ps), space)
    decreases |ps|
  {
    if |ps| == 1 {
      assert ps == [Join(ps)] + [];
      FlattenCons(ps[0], []);
      assert Join(ps) + [] == Join(ps);
    } else if ps != [] {
      var first, rest := ps[0], ps[1..];
      assert ps == [first] + rest;
      JoinVisible(rest, space);
      hide Join, Flatten;
      JoinCons(first, rest);
      VisibleCons(first, rest, space);
      BreakIsInvisible(first, Join(rest), space);
    }
  }

  lemma BreakIsInvisible(a: string, b: string, space: Space)
    requires space('\n')
    ensures Visible(a + BREAK + b, space) == Visible(a, space) + Visible(b, space)
  {
    VisibleAppend(a + BREAK, b, space);
    VisibleAppend(a, BREAK, space);
    assert BREAK[1..] == "\n" && "\n"[1..] == "";
    assert Visible("\n", space) == "";
  }

  /** The paragraphs of a text hold its visible characters, each once and in order. */
  lemma ParagraphsKeepText(text: string, space: Space)
    requires space('\n')
    ensures Visible(Flatten(Paragraphs(text, space)), space) == Visible(text, space)
  {
    SplitSpells(text, "");
    StripAllVisible(SplitBreaks(text, ""), space);
    JoinVisible(SplitBreaks(text, ""), space);
    assert "" + text == text;
  }

  // Overlapping slices repeat characters, so that in general the text is a part of the chunks.

  predicate Subsequence(a: string, b: string) {
    a == "" || (b != "" && if a[0] == b[0] then Subsequence(a[1..], b[1..]) else Subsequence(a, b[1..]))
  }

  ghost predicate Holds(b: string, a: string, exact: bool) {
    if exact then a == b else Subsequence(a, b)
  }

  lemma {:induction false} SubsequenceDrop(a: string, b: string)
    requires a != "" && Subsequence(a, b)
    ensures Subsequence(a[1..], b)
    decreases |b|, 1
  {
    if a[0] == b[0] {
      SubsequenceLater(a[1..], b);
    } else {
      SubsequenceDrop(a, b[1..]);
      SubsequenceLater(a[1..], b);
    }
  }

  lemma {:induction false} SubsequenceLater(a: string, b: string)
    requires b != "" && Subsequence(a, b[1..])
    ensures Subsequence(a, b)
    decreases |b|, 0
  {
    if a != "" && a[0] == b[0] {
      SubsequenceDrop(a, b[1..]);
    }
  }

  lemma {:induction false} SubsequenceAppend(a: string, b: string, c: string, d: string)
    requires Subsequence(a, b) && Subsequence(c, d)
    ensures Subsequence(a + c, b + d)
    decreases |b|
  {
    if b == "" {
      assert a + c == c && b + d == d;
    } else {
      assert (b + d)[1..] == b[1..] + d;
      if a == "" {
        SubsequenceAppend(a, b[1..], c, d);
        SubsequenceLater(a + c, b + d);
      } else if a[0] == b[0] {
        assert (a + c)[1..] == a[1..] + c;
        SubsequenceAppend(a[1..], b[1..], c, d);
      } else {
        SubsequenceAppend(a, b[1..], c, d);
        SubsequenceLater(a + c, b + d);
      }
    }
  }

  lemma HoldsBoth(a: string, b: string, c: string, d: string, exact: bool)
    requires Holds(b, a, exact) && Holds(d, c, exact)
    ensures Holds(b + d, a + c, exact)
  {
    if !exact {
      SubsequenceAppend(a, b, c, d);
    }
  }

  lemma HoldsSame(a: string, exact: bool)
    ensures Holds(a, a, exact)
  {
    IsSubsequence(a, "");
    assert a + "" == a;
  }

  /** A start of a string is a part of it. */
  lemma {:induction false} IsSubsequence(a: string, more: string)
    ensures Subsequence(a, a + more)
  {
    if a != "" {
      assert (a + more)[1..] == a[1..] + more;
      IsSubsequence(a[1..], more);
    }
  }

  /** Slicing loses nothing of a paragraph, and without overlap repeats nothing. */
  lemma {:induction false} SlicesHold(p: string, start: nat, size: nat, overlap: nat, space: Space, exact: bool)
    requires overlap < size && start <= |p| && (exact ==> overlap == 0)
    ensures Holds(Visible(Flatten(Stripped(RawSlices(p, start, size, overlap), space)), space),
                  Visible(p[start..], space), exact)
    decreases |p| - start
  {
    if start < |p| {
      var step := size - overlap;
      var next := if start + step <= |p| then start + step else |p|;
      var slice, rest := Slice(p, start, size), RawSlices(p, next, size, overlap);
      assert RawSlices(p, start, size, overlap) == [slice] + rest;
      SlicesHold(p, next, size, overlap, space, exact);
      SliceHolds(p, start, next, size, space, exact);
      hide Strip, Stripped, RawSlices, Slice, Visible, Flatten, Holds;
      OneMoreSlice(p, start, next, slice, rest, space, exact);
    } else {
      hide Holds;
      assert Stripped([], space) == [] && p[start..] == "";
      HoldsSame(Visible("", space), exact);
    }
  }

  lemma OneMoreSlice(
      p: string, start: nat, next: nat, slice: string, rest: seq<string>, space: Space, exact: bool)
    requires start <= next <= |p| && Holds(Visible(slice, space), Visible(p[start..next], space), exact)
    requires Holds(Visible(Flatten(Stripped(rest, space)), space), Visible(p[next..], space), exact)
    ensures Holds(Visible(Flatten(Stripped([slice] + rest, space)), space), Visible(p[start..], space), exact)
  {
    StrippedCons(slice, rest, space);
    hide Strip, Stripped, Visible, Flatten, Holds;
    VisibleCons(Strip(slice, space), Stripped(rest, space), space);
    StripVisible(slice, space);
    assert p[start..] == p[start..next] + p[next..];
    VisibleAppend(p[start..next], p[next..], space);
    HoldsBoth(Visible(p[start..next], space), Visible(slice, space), Visible(p[next..], space),
              Visible(Flatten(Stripped(rest, space)), space), exact);
  }

  lemma StrippedCons(first: string, rest: seq<string>, space: Space)
    ensures Stripped([first] + rest, space) == [Strip(first, space)] + Stripped(rest, space)
  {
  }

  lemma SliceHolds(p: string, start: nat, next: nat, size: nat, space: Space, exact: bool)
    requires start < next <= |p| && next <= start + size
    requires exact ==> next == start + size || next == |p|
    ensures Holds(Visible(Slice(p, start, size), space), Visible(p[start..next], space), exact)
  {
    var slice := Slice(p, start, size);
    var more := slice[next - start..];
    assert slice == p[start..next] + more;
    if exact {
      assert more == "";
      assert slice == p[start..next];
    } else {
      VisibleAppend(p[start..next], more, space);
      IsSubsequence(Visible(p[start..next], space), Visible(more, space));
    }
  }

  lemma FlushHolds(current: string, space: Space)
    ensures Visible(Flatten(Flush(current, space)), space) == Visible(current, space)
  {
    StripVisible(current, space);
    hide Strip;
    var s := Strip(current, space);
    assert [s] + [] == [s];
    VisibleCons(s, [], space);
    assert Visible(s, space) + "" == Visible(s, space);
  }

  lemma VisibleParts(a: seq<string>, b: seq<string>, space: Space)
    ensures Visible(Flatten(a + b), space) == Visible(Flatten(a), space) + Visible(Flatten(b), space)
  {
    FlattenAppend(a, b);
    VisibleAppend(Flatten(a), Flatten(b), space);
  }

  /** What is packed holds the open chunk and the paragraphs to come. */
  lemma {:induction false} PackHolds(
      ps: seq<string>, current: string, size: nat, overlap: nat, space: Space, exact: bool)
    requires overlap < size && space('\n') && (exact ==> overlap == 0 || AllFit(ps, size))
    ensures Holds(Visible(Flatten(Pack(ps, current, size, overlap, space)), space),
                  Visible(current, space) + Visible(Flatten(ps), space), exact)
    decreases |ps|
  {
    FlushHolds(current, space);
    if ps == [] {
      assert Visible(current, space) + "" == Visible(current, space);
      HoldsSame(Visible(current, space), exact);
    } else {
      var p, rest := ps[0], ps[1..];
      assert ps == [p] + rest;
      VisibleCons(p, rest, space);
      assert AllFit(ps, size) ==> AllFit(rest, size);
      hide Flush, Stripped, RawSlices, Visible, Flatten, AllFit, Holds;
      if |p| > size {
        OneFits(ps, size);
        PackHolds(rest, "", size, overlap, space, exact);
        SlicesHold(p, 0, size, overlap, space, exact);
        PackLongHolds(p, rest, current, size, overlap, space, exact);
      } else if |current| + |p| + 2 > size {
        PackHolds(rest, p, size, overlap, space, exact);
        VisibleParts(Flush(current, space), Pack(rest, p, size, overlap, space), space);
        HoldsSame(Visible(current, space), exact);
        HoldsBoth(Visible(current, space), Visible(current, space), Visible(p, space) + Visible(Flatten(rest), space),
                  Visible(Flatten(Pack(rest, p, size, overlap, space)), space), exact);
      } else {
        var next := if current == "" then p else current + BREAK + p;
        PackHolds(rest, next, size, overlap, space, exact);
        BreakIsInvisible(current, p, space);
        NothingVisible(space);
        assert current == "" ==> Visible(current, space) + Visible(p, space) == Visible(p, space);
        Assoc(Visible(current, space), Visible(p, space), Visible(Flatten(rest), space));
      }
    }
  }

  lemma OneFits(ps: seq<string>, size: nat)
    requires ps != []
    ensures AllFit(ps, size) ==> |ps[0]| <= size
  {
  }

  lemma NothingVisible(space: Space)
    ensures Visible("", space) == ""
  {
  }

  lemma PackLongHolds(
      p: string, rest: seq<string>, current: string, size: nat, overlap: nat, space: Space, exact: bool)
    requires overlap < size
    requires Visible(Flatten(Flush(current, space)), space) == Visible(current, space)
    requires Holds(Visible(Flatten(Stripped(RawSlices(p, 0, size, overlap), space)), space),
                   Visible(p[0..], space), exact)
    requires Holds(Visible(Flatten(Pack(rest, "", size, overlap, space)), space),
                   Visible("", space) + Visible(Flatten(rest), space), exact)
    ensures Holds(Visible(Flatten(Flush(current, space) + Stripped(RawSlices(p, 0, size, overlap), space)
                                  + Pack(rest, "", size, overlap, space)), space),
                  Visible(current, space) + (Visible(p, space) + Visible(Flatten(rest), space)), exact)
  {
    var a, b, c := Flush(current, space), Stripped(RawSlices(p, 0, size, overlap), space),
      Pack(rest, "", size, overlap, space);
    NothingVisible(space);
    hide Flush, Stripped, RawSlices, Visible, Flatten, Holds, Pack;
    assert p[0..] == p && "" + Visible(Flatten(rest), space) == Visible(Flatten(rest), space);
    VisibleParts(a + b, c, space);
    VisibleParts(a, b, space);
    HoldsSame(Visible(current, space), exact);
    HoldsBoth(Visible(current, space), Visible(current, space), Visible(p, space), Visible(Flatten(b), space), exact);
    HoldsBoth(Visible(current, space) + Visible(p, space), Visible(Flatten(a), space) + Visible(Flatten(b), space),
              Visible(Flatten(rest), space), Visible(Flatten(c), space), exact);
    Assoc(Visible(current, space), Visible(p, space), Visible(Flatten(rest), space));
  }

  /** For any text, size and overlap: no visible character is lost or put out of order; and
      without overlap, or when every paragraph fits, none is repeated either. */
  lemma NothingIsLost(text: string, size: nat, overlap: nat, space: Space)
    requires overlap < size && space('\n')
    ensures var chunks := Pack(Paragraphs(text, space), "", size, overlap, space);
      && Subsequence(Visible(text, space), Visible(Flatten(chunks), space))
      && (overlap == 0 || AllFit(Paragraphs(text, space), size) ==>
            Visible(Flatten(chunks), space) == Visible(text, space))
  {
    var ps := Paragraphs(text, space);
    ParagraphsKeepText(text, space);
    NothingVisible(space);
    hide Visible, Flatten, Paragraphs, Pack, AllFit;
    assert "" + Visible(text, space) == Visible(text, space);
    PackHolds(ps, "", size, overlap, space, false);
    if overlap == 0 || AllFit(ps, size) {
      PackHolds(ps, "", size, overlap, space, true);
    }
  }

  /** A text whose paragraphs all fit: its chunks joined are its paragraphs joined, show the
      text's visible characters, and no division of the paragraphs has fewer chunks. */
  lemma ShortText(text: string, size: nat, overlap: nat, space: Space)
    requires overlap < size && space('\n') && AllFit(Paragraphs(text, space), size)
    ensures var ps := Paragraphs(text, space); var chunks := Pack(ps, "", size, overlap, space);
      && Join(chunks) == Join(ps) && Visible(Join(chunks), space) == Visible(text, space)
      && (forall groups :: Grouping(groups, size) && Flatten(groups) == ps ==> |chunks| <= |groups|)
  {
    var ps := Paragraphs(text, space);
    TextChunksFit(text, size, overlap, space);
    ParagraphsKeepText(text, space);
    hide Paragraphs, Visible, Flatten, Join, Pack, AllFit;
    ShortParagraphs(ps, size, overlap, space);
    JoinVisible(ps, space);
  }
}
