/** A credential taken out of what a provider sends back (backend/app/llm/gateway.py). */
module Redaction {
  import opened Prelude

  const MARK := "[REDACTED]"
  const SHORTEST := 8

  /** text.replace(secret, MARK): leftmost occurrences first, none overlapping. */
  function Replace(text: string, secret: string): string
    requires secret != ""
    decreases |text|
  {
    if text == "" then ""
    else if secret <= text then MARK + Replace(text[|secret|..], secret)
    else [text[0]] + Replace(text[1..], secret)
  }

  /** _redact_text: short or missing credentials are left alone. */
  function RedactText(text: string, secret: Option<string>): string {
    if secret.None? || |secret.value| < SHORTEST then text else Replace(text, secret.value)
  }

  predicate OccursAt(secret: string, text: string, p: nat) {
    p + |secret| <= |text| && text[p..p + |secret|] == secret
  }

  ghost predicate Absent(secret: string, text: string) {
    forall p: nat :: !OccursAt(secret, text, p)
  }

  lemma OccursAtStart(secret: string, text: string)
    ensures OccursAt(secret, text, 0) <==> secret <= text
  {
    if |secret| <= |text| {
      assert text[0..0 + |secret|] == text[..|secret|];
    }
  }

  lemma OccursIff(secret: string, text: string, p: nat)
    requires p + |secret| <= |text|
    ensures OccursAt(secret, text, p) <==> forall k :: 0 <= k < |secret| ==> secret[k] == text[p + k]
  {
    var part := text[p..p + |secret|];
    assert forall k :: 0 <= k < |secret| ==> part[k] == text[p + k];
  }

  lemma OccursInPart(secret: string, text: string, a: nat, b: nat, q: nat)
    requires a <= b <= |text| && q + |secret| <= b - a
    ensures OccursAt(secret, text[a..b], q) <==> OccursAt(secret, text, a + q)
  {
    OccursIff(secret, text[a..b], q);
    OccursIff(secret, text, a + q);
  }

  lemma OccursLater(secret: string, before: string, rest: string, p: nat)
    requires p >= |before|
    ensures OccursAt(secret, before + rest, p) <==> OccursAt(secret, rest, p - |before|)
  {
    if p + |secret| <= |before + rest| {
      assert (before + rest)[p..p + |secret|] == rest[p - |before|..p - |before| + |secret|];
    }
  }

  // ----- one replacement: up to the first occurrence, the mark, and the rest ---------------------

  /** Where the credential first occurs. */
  ghost predicate FirstAt(secret: string, text: string, f: nat) {
    OccursAt(secret, text, f) && forall q: nat :: q < f ==> !OccursAt(secret, text, q)
  }

  lemma {:induction false} ReplaceNone(text: string, secret: string)
    requires secret != "" && Absent(secret, text)
    ensures Replace(text, secret) == text
    decreases |text|
  {
    if text != "" {
      assert !OccursAt(secret, text, 0);
      OccursAtStart(secret, text);
      assert text == [text[0]] + text[1..];
      forall p: nat
        ensures !OccursAt(secret, text[1..], p)
      {
        OccursLater(secret, [text[0]], text[1..], p + 1);
      }
      ReplaceNone(text[1..], secret);
    }
  }

  lemma {:induction false} ReplaceFirst(text: string, secret: string, f: nat)
    requires secret != "" && FirstAt(secret, text, f)
    ensures Replace(text, secret) == text[..f] + (MARK + Replace(text[f + |secret|..], secret))
    decreases f
  {
    OccursAtStart(secret, text);
    if f == 0 {
      var rest := MARK + Replace(text[|secret|..], secret);
      assert text[..0] + rest == rest;
    } else {
      assert !OccursAt(secret, text, 0);
      FirstLater(text, secret, f);
      assert Replace(text, secret) == [text[0]] + Replace(text[1..], secret);
      hide OccursAt, FirstAt, Replace;
      ReplaceFirst(text[1..], secret, f - 1);
      var rest := MARK + Replace(text[f + |secret|..], secret);
      assert text[1..][f - 1 + |secret|..] == text[f + |secret|..];
      assert text[..f] == [text[0]] + text[1..][..f - 1];
      Assoc([text[0]], text[1..][..f - 1], rest);
    }
  }

  lemma FirstLater(text: string, secret: string, f: nat)
    requires f > 0 && FirstAt(secret, text, f)
    ensures FirstAt(secret, text[1..], f - 1)
  {
    assert text == [text[0]] + text[1..];
    OccursLater(secret, [text[0]], text[1..], f);
    forall q: nat | q < f - 1
      ensures !OccursAt(secret, text[1..], q)
    {
      OccursLater(secret, [text[0]], text[1..], q + 1);
    }
  }

  lemma {:induction false} FindFirst(text: string, secret: string, p: nat) returns (f: nat)
    requires OccursAt(secret, text, p)
    ensures f <= p && FirstAt(secret, text, f)
  {
    f := p;
    if q: nat :| q < p && OccursAt(secret, text, q) {
      f := FindFirst(text, secret, q);
    }
  }

  // ----- which credentials the mark can spell ------------------------------------------------------

  /** Written d places after the start of a mark (before it, if d is negative), the
      credential overlaps the mark and agrees with it there. */
  predicate Agrees(secret: string, d: int) {
    -|secret| < d < |MARK|
    && forall k :: 0 <= k < |secret| && 0 <= d + k < |MARK| ==> secret[k] == MARK[d + k]
  }

  /** What of the credential lies before a mark so placed, and after it. */
  function Ahead(secret: string, d: int): string
    requires -|secret| < d
  {
    if d < 0 then secret[..-d] else ""
  }

  function Beyond(secret: string, d: int): string
    requires d < |MARK|
  {
    if d + |secret| > |MARK| then secret[|MARK| - d..] else ""
  }

  /** The mark of a replaced occurrence completes the part ahead of it. That part must not
      itself begin an earlier occurrence. */
  ghost predicate Respells(secret: string, d: int) {
    Agrees(secret, d) && FirstAt(secret, Ahead(secret, d) + secret + Beyond(secret, d), |Ahead(secret, d)|)
  }

  /** No mark put in place of the credential can spell it again. */
  ghost predicate Unspellable(secret: string) {
    forall d: int :: !Respells(secret, d)
  }

  lemma AroundTheMark(secret: string, d: int)
    requires Agrees(secret, d)
    ensures OccursAt(secret, Ahead(secret, d) + (MARK + Beyond(secret, d)), if d < 0 then 0 else d)
  {
    var u, v := Ahead(secret, d), Beyond(secret, d);
    var p: nat := if d < 0 then 0 else d;
    var out := u + (MARK + v);
    forall k | 0 <= k < |secret|
      ensures secret[k] == out[p + k]
    {
      var at := p + k - |u|;
      assert at >= 0 ==> out[p + k] == (MARK + v)[at];
    }
    OccursIff(secret, out, p);
  }

  /** The text that shows it: the parts around one occurrence. */
  lemma RespelledText(secret: string, d: int)
    requires secret != "" && Respells(secret, d)
    ensures !Absent(secret, Replace(Ahead(secret, d) + secret + Beyond(secret, d), secret))
  {
    var u, v := Ahead(secret, d), Beyond(secret, d);
    var text := u + secret + v;
    AroundTheMark(secret, d);
    assert |v| < |secret|;
    assert Absent(secret, v);
    ReplaceNone(v, secret);
    hide Agrees, Ahead, Beyond, Replace;
    ReplaceFirst(text, secret, |u|);
    assert text[..|u|] == u && text[|u| + |secret|..] == v;
  }

  /** An occurrence in the output that meets the mark at f lies against it as d says. */
  lemma MeetsTheMark(secret: string, before: string, rest: string, p: nat)
    requires OccursAt(secret, before + (MARK + rest), p) && p < |before| + |MARK| && p + |secret| > |before|
    ensures Agrees(secret, p - |before|)
  {
    OccursIff(secret, before + (MARK + rest), p);
  }

  /** Such an occurrence shows that the mark can spell the credential. */
  lemma MeetingRespells(text: string, secret: string, f: nat, rest: string, p: nat)
    requires secret != "" && FirstAt(secret, text, f) && p < f + |MARK| && p + |secret| > f
    requires OccursAt(secret, text[..f] + (MARK + rest), p)
    ensures Respells(secret, p - f)
  {
    var d := p - f;
    var u, v := Ahead(secret, d), Beyond(secret, d);
    MeetsTheMark(secret, text[..f], rest, p);
    if d < 0 {
      AheadIsKept(text, secret, f, rest, p);
    } else {
      assert u + secret == secret;
      OccursAtStart(secret, secret + v);
    }
    hide Agrees;
    assert OccursAt(secret, u + secret, |u|) by { OccursLater(secret, u, secret, |u|); OccursAtStart(secret, secret); }
    NotSooner(secret, u, v);
  }

  /** What follows an occurrence does not matter to where it first occurs. */
  lemma NotSooner(secret: string, u: string, v: string)
    requires FirstAt(secret, u + secret, |u|)
    ensures FirstAt(secret, u + secret + v, |u|)
  {
    var w := u + secret;
    assert (w + v)[0..|w|] == w;
    forall q: nat | q <= |u|
      ensures OccursAt(secret, w + v, q) <==> OccursAt(secret, w, q)
    {
      OccursInPart(secret, w + v, 0, |w|, q);
    }
  }

  /** The kept characters that begin it stand right before the occurrence replaced. */
  lemma AheadIsKept(text: string, secret: string, f: nat, rest: string, p: nat)
    requires FirstAt(secret, text, f) && p < f < p + |secret|
    requires OccursAt(secret, text[..f] + (MARK + rest), p)
    ensures FirstAt(secret, Ahead(secret, p - f) + secret, |Ahead(secret, p - f)|)
  {
    var u, end := Ahead(secret, p - f), f + |secret|;
    var out := text[..f] + (MARK + rest);
    assert out[p..p + |secret|][..f - p] == out[p..f] == text[p..f];
    assert text[p..end] == text[p..f] + text[f..end] == u + secret;
    forall q: nat | q <= |u|
      ensures OccursAt(secret, u + secret, q) <==> OccursAt(secret, text, p + q)
    {
      OccursInPart(secret, text, p, end, q);
    }
  }

  lemma {:induction false} UnspellableIsRemoved(text: string, secret: string)
    requires secret != "" && Unspellable(secret)
    ensures Absent(secret, Replace(text, secret))
    decreases |text|
  {
    if p: nat :| OccursAt(secret, text, p) {
      var f := FindFirst(text, secret, p);
      var rest := text[f + |secret|..];
      ReplaceFirst(text, secret, f);
      UnspellableIsRemoved(rest, secret);
      forall q: nat
        ensures !OccursAt(secret, Replace(text, secret), q)
      {
        NoneAroundTheMark(text, secret, f, Replace(rest, secret), q);
      }
    } else {
      ReplaceNone(text, secret);
    }
  }

  lemma SameStart(secret: string, text: string, f: nat, more: string, q: nat)
    requires f <= |text| && q + |secret| <= f
    ensures OccursAt(secret, text[..f] + more, q) <==> OccursAt(secret, text, q)
  {
    OccursIff(secret, text[..f] + more, q);
    OccursIff(secret, text, q);
  }

  lemma PastTheMark(secret: string, before: string, rest: string, q: nat)
    requires q >= |before| + |MARK|
    ensures OccursAt(secret, before + (MARK + rest), q) <==> OccursAt(secret, rest, q - |before| - |MARK|)
  {
    assert before + (MARK + rest) == (before + MARK) + rest;
    OccursLater(secret, before + MARK, rest, q);
  }

  lemma NoneAroundTheMark(text: string, secret: string, f: nat, rest: string, q: nat)
    requires secret != "" && Unspellable(secret) && FirstAt(secret, text, f) && Absent(secret, rest)
    ensures !OccursAt(secret, text[..f] + (MARK + rest), q)
  {
    if q >= f + |MARK| {
      PastTheMark(secret, text[..f], rest, q);
    } else if q + |secret| <= f {
      SameStart(secret, text, f, MARK + rest, q);
    } else if OccursAt(secret, text[..f] + (MARK + rest), q) {
      hide OccursAt, Respells;
      MeetingRespells(text, secret, f, rest, q);
    }
  }

  /** The exact condition: redaction keeps a credential out of every text if and only if the
      credential is long enough to be looked for and its mark cannot spell it. */
  lemma RedactionIsSoundIff(secret: string)
    ensures (forall text: string :: Absent(secret, RedactText(text, Some(secret))))
       <==> |secret| >= SHORTEST && Unspellable(secret)
  {
    if |secret| < SHORTEST {
      assert secret[0..0 + |secret|] == secret;
      assert OccursAt(secret, RedactText(secret, Some(secret)), 0);
    } else if Unspellable(secret) {
      forall text: string
        ensures Absent(secret, RedactText(text, Some(secret)))
      {
        UnspellableIsRemoved(text, secret);
      }
    } else {
      var d: int :| Respells(secret, d);
      RespelledText(secret, d);
      var text := Ahead(secret, d) + secret + Beyond(secret, d);
      assert RedactText(text, Some(secret)) == Replace(text, secret);
    }
  }

  lemma WordRespells()
    ensures Respells("REDACTED", 1) && Ahead("REDACTED", 1) + "REDACTED" + Beyond("REDACTED", 1) == "REDACTED"
  {
    var word := "REDACTED";
    assert Ahead(word, 1) == "" && Beyond(word, 1) == "" && "" + word + "" == word;
    assert MARK[1..9] == word;
    assert forall k :: 0 <= k < 8 ==> word[k] == MARK[1..9][k] == MARK[1 + k];
    OccursAtStart(word, word);
  }

  lemma KeyRespells()
    ensures Respells("abcdefg[", -7)
    ensures Ahead("abcdefg[", -7) + "abcdefg[" + Beyond("abcdefg[", -7) == "abcdefg" + "abcdefg["
  {
    var key := "abcdefg[";
    var text := "abcdefg" + key;
    assert Ahead(key, -7) == "abcdefg" && Beyond(key, -7) == "" && text + "" == text;
    OccursLater(key, "abcdefg", key, 7);
    OccursAtStart(key, key);
    forall q: nat | q < 7
      ensures !OccursAt(key, text, q)
    {
      OccursIff(key, text, q);
      assert text[q + 7] != key[7];
    }
  }

  /** Two credentials that marks spell: the mark's own word, and one whose last character
      begins the mark. */
  lemma SpelledByMarks()
    ensures !Absent("REDACTED", RedactText("REDACTED", Some("REDACTED")))
    ensures !Absent("abcdefg[", RedactText("abcdefg" + "abcdefg[", Some("abcdefg[")))
  {
    hide Respells, Absent, Replace, Ahead, Beyond;
    WordRespells();
    RespelledText("REDACTED", 1);
    KeyRespells();
    RespelledText("abcdefg[", -7);
  }

  // ----- texts redacted one by one and put together ----------------------------------------------

  /** Long enough to be looked for, and at odds with the mark wherever they could overlap. */
  ghost predicate Plain(secret: string) {
    |secret| >= SHORTEST && forall d: int :: !Agrees(secret, d)
  }

  /** So is every key without brackets but the mark's own word. */
  lemma WithoutBracketsIsPlain(secret: string)
    requires |secret| >= SHORTEST && Lacks(secret, '[') && Lacks(secret, ']') && secret != "REDACTED"
    ensures Plain(secret)
  {
    assert MARK[0] == '[' && MARK[9] == ']' && MARK[1..9] == "REDACTED";
    forall d: int
      ensures !Agrees(secret, d)
    {
      if -|secret| < d <= 0 {
        assert secret[-d] != MARK[d - d];
      } else if 1 <= d < |MARK| && d + |secret| > 9 {
        assert secret[9 - d] != MARK[d + (9 - d)];
      } else if d == 1 && |secret| == 8 {
        assert exists k :: 0 <= k < 8 && secret[k] != "REDACTED"[k];
        var k :| 0 <= k < 8 && secret[k] != "REDACTED"[k];
        assert MARK[1 + k] == MARK[1..9][k];
      }
    }
  }

  /** What becomes of a text: characters passed on, and None for an occurrence replaced. */
  function Kept(text: string, secret: string): seq<Option<char>>
    requires secret != ""
    decreases |text|
  {
    if text == "" then []
    else if secret <= text then [None] + Kept(text[|secret|..], secret)
    else [Some(text[0])] + Kept(text[1..], secret)
  }

  function Render(kept: seq<Option<char>>): string {
    if kept == [] then ""
    else (if kept[0].Some? then [kept[0].value] else MARK) + Render(kept[1..])
  }

  /** The characters passed on begin with s, with nothing replaced in between. */
  predicate Begins(kept: seq<Option<char>>, s: string) {
    |s| <= |kept| && forall k :: 0 <= k < |s| ==> kept[k] == Some(s[k])
  }

  ghost predicate Spelled(kept: seq<Option<char>>, s: string) {
    exists p: nat :: p <= |kept| && Begins(kept[p..], s)
  }

  lemma {:induction false} RenderKept(text: string, secret: string)
    requires secret != ""
    ensures Render(Kept(text, secret)) == Replace(text, secret)
    decreases |text|
  {
    if text != "" {
      var kept := Kept(text, secret);
      if secret <= text {
        assert kept[1..] == Kept(text[|secret|..], secret);
        RenderKept(text[|secret|..], secret);
      } else {
        assert kept[1..] == Kept(text[1..], secret);
        RenderKept(text[1..], secret);
      }
    }
  }

  lemma {:induction false} RenderAppend(a: seq<Option<char>>, b: seq<Option<char>>)
    ensures Render(a + b) == Render(a) + Render(b)
  {
    if a == [] {
      assert a + b == b;
    } else {
      assert (a + b)[1..] == a[1..] + b;
      RenderAppend(a[1..], b);
      Assoc(if a[0].Some? then [a[0].value] else MARK, Render(a[1..]), Render(b));
    }
  }

  /** No rest of a plain credential begins with a mark, nor the mark with it. */
  lemma NotAMark(secret: string, j: nat, rest: string)
    requires Plain(secret) && j < |secret|
    ensures !(secret[j..] <= MARK + rest)
  {
    var i: int := j;
    var d := -i;
    assert !Agrees(secret, d);
    var k :| 0 <= k < |secret| && 0 <= d + k < |MARK| && secret[k] != MARK[d + k];
    var out, tail := MARK + rest, secret[j..];
    assert tail[k - j] == secret[k] && out[k - j] == MARK[k - j];
  }

  /** The output begins with a rest of the credential exactly when the input did. */
  lemma {:induction false} PrefixIff(kept: seq<Option<char>>, secret: string, j: nat)
    requires Plain(secret) && j <= |secret|
    ensures secret[j..] <= Render(kept) <==> Begins(kept, secret[j..])
    decreases |kept|
  {
    var tail := secret[j..];
    if j < |secret| && kept != [] {
      if kept[0].None? {
        NotAMark(secret, j, Render(kept[1..]));
      } else {
        assert tail == [secret[j]] + secret[j + 1..];
        PrefixIff(kept[1..], secret, j + 1);
        ConsPrefix(secret[j], secret[j + 1..], kept[0].value, Render(kept[1..]));
        BeginsStep(kept, tail);
      }
    }
  }

  lemma ConsPrefix(a: char, s: string, b: char, t: string)
    ensures [a] + s <= [b] + t <==> a == b && s <= t
  {
    if [a] + s <= [b] + t {
      assert ([b] + t)[0] == ([a] + s)[0];
      assert ([b] + t)[..|s| + 1] == [a] + s;
      assert t[..|s|] == ([b] + t)[..|s| + 1][1..] == s;
    }
  }

  lemma BeginsStep(kept: seq<Option<char>>, s: string)
    requires s != "" && kept != []
    ensures Begins(kept, s) <==> kept[0] == Some(s[0]) && Begins(kept[1..], s[1..])
  {
    if kept[0] == Some(s[0]) && Begins(kept[1..], s[1..]) {
      forall k | 0 <= k < |s|
        ensures kept[k] == Some(s[k])
      {
        if k > 0 {
          assert kept[1..][k - 1] == Some(s[1..][k - 1]);
        }
      }
    }
  }

  lemma SpelledStep(kept: seq<Option<char>>, s: string)
    requires kept != []
    ensures Spelled(kept, s) <==> Begins(kept, s) || Spelled(kept[1..], s)
  {
    assert kept[0..] == kept;
    if p: nat :| 0 < p <= |kept| && Begins(kept[p..], s) {
      assert kept[1..][p - 1..] == kept[p..];
    }
    if p: nat :| p <= |kept[1..]| && Begins(kept[1..][p..], s) {
      assert kept[1..][p..] == kept[p + 1..];
    }
  }

  /** An occurrence is at the very start or past what comes first, if it cannot begin inside. */
  lemma AfterOne(secret: string, before: string, rest: string)
    requires before != "" && forall p: nat :: 0 < p < |before| ==> !OccursAt(secret, before + rest, p)
    ensures Absent(secret, before + rest) <==> !OccursAt(secret, before + rest, 0) && Absent(secret, rest)
  {
    forall p: nat
      ensures OccursAt(secret, rest, p) <==> OccursAt(secret, before + rest, |before| + p)
    {
      OccursLater(secret, before, rest, |before| + p);
    }
    if Absent(secret, rest) && !OccursAt(secret, before + rest, 0) {
      forall p: nat
        ensures !OccursAt(secret, before + rest, p)
      {
        if p >= |before| {
          OccursLater(secret, before, rest, p);
        }
      }
    }
  }

  lemma NotInTheMark(secret: string, rest: string, p: nat)
    requires Plain(secret) && p < |MARK|
    ensures !OccursAt(secret, MARK + rest, p)
  {
    if OccursAt(secret, MARK + rest, p) {
      assert "" + (MARK + rest) == MARK + rest;
      MeetsTheMark(secret, "", rest, p);
    }
  }

  /** A plain credential shows in the output exactly where its characters were passed on one
      after the other. */
  lemma {:induction false} ShowsIff(kept: seq<Option<char>>, secret: string)
    requires Plain(secret)
    ensures !Absent(secret, Render(kept)) <==> Spelled(kept, secret)
    decreases |kept|
  {
    if kept != [] {
      var rest := Render(kept[1..]);
      ShowsIff(kept[1..], secret);
      SpelledStep(kept, secret);
      PrefixIff(kept, secret, 0);
      assert secret[0..] == secret;
      OccursAtStart(secret, Render(kept));
      var before := if kept[0].Some? then [kept[0].value] else MARK;
      if kept[0].None? {
        forall p: nat | 0 < p < |before|
          ensures !OccursAt(secret, before + rest, p)
        {
          NotInTheMark(secret, rest, p);
        }
      }
      AfterOne(secret, before, rest);
    }
  }

  function ReplaceAll(texts: seq<string>, secret: string): seq<string>
    requires secret != ""
  {
    seq(|texts|, k requires 0 <= k < |texts| => Replace(texts[k], secret))
  }

  function KeptAll(texts: seq<string>, secret: string): seq<Option<char>>
    requires secret != ""
  {
    if texts == [] then [] else Kept(texts[0], secret) + KeptAll(texts[1..], secret)
  }

  lemma {:induction false} RenderKeptAll(texts: seq<string>, secret: string)
    requires secret != ""
    ensures Render(KeptAll(texts, secret)) == Flatten(ReplaceAll(texts, secret))
    decreases |texts|
  {
    if texts != [] {
      RenderKept(texts[0], secret);
      RenderAppend(Kept(texts[0], secret), KeptAll(texts[1..], secret));
      RenderKeptAll(texts[1..], secret);
      assert ReplaceAll(texts, secret)[1..] == ReplaceAll(texts[1..], secret);
    }
  }

  /** The exact condition on the texts before redaction: a plain credential shows in the
      redacted texts put together if and only if its characters stand one after the other in
      the texts, none of them in an occurrence that was replaced. They never do within one
      text, so it takes the border of two. */
  lemma StreamShowsIff(texts: seq<string>, secret: string)
    requires Plain(secret)
    ensures !Absent(secret, Flatten(ReplaceAll(texts, secret))) <==> Spelled(KeptAll(texts, secret), secret)
    ensures forall k :: 0 <= k < |texts| ==> !Spelled(Kept(texts[k], secret), secret)
  {
    RenderKeptAll(texts, secret);
    ShowsIff(KeptAll(texts, secret), secret);
    forall k | 0 <= k < |texts|
      ensures !Spelled(Kept(texts[k], secret), secret)
    {
      PlainIsRemoved(texts[k], secret);
      RenderKept(texts[k], secret);
      ShowsIff(Kept(texts[k], secret), secret);
    }
  }

  lemma PlainIsRemoved(text: string, secret: string)
    requires Plain(secret)
    ensures Absent(secret, Replace(text, secret))
  {
    forall d: int
      ensures !Respells(secret, d)
    {
      assert !Agrees(secret, d);
    }
    UnspellableIsRemoved(text, secret);
  }

  /** The shortest way there: two texts that spell it together, each left as it is. */
  lemma SplitSecretSurvives(secret: string, n: nat)
    requires |secret| >= SHORTEST && 0 < n < |secret|
    ensures Flatten([RedactText(secret[..n], Some(secret)), RedactText(secret[n..], Some(secret))]) == secret
  {
    var a, b := secret[..n], secret[n..];
    ReplaceNone(a, secret);
    ReplaceNone(b, secret);
    hide Replace;
    FlattenCons(a, [b]);
    FlattenCons(b, []);
    assert [a] + [b] == [a, b] && [b] + [] == [b] && a + (b + []) == secret;
  }
}
