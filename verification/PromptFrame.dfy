/** Removing delimiter literals from untrusted text, and the frame built around it (drafts/llm_extraction.py,
    local_runner/translation_flow.py). */
module PromptFrame {
  import opened Options

  const MAX_INPUT_CHARS := 8000
  const RAW_TITLE_PROMPT_MAX_LENGTH := 255
  const TRANSLATION_INPUT_MAX_CHARS := 4000

  const TITLE_OPEN := "<untrusted_page_title>"
  const TITLE_CLOSE := "</untrusted_page_title>"
  const TEXT_OPEN := "<untrusted_page_content>"
  const TEXT_CLOSE := "</untrusted_page_content>"
  const DELIMITER_LITERALS := [TITLE_OPEN, TITLE_CLOSE, TEXT_OPEN, TEXT_CLOSE]

  const EVENT_OPEN := "<untrusted_event_text>"
  const EVENT_CLOSE := "</untrusted_event_text>"
  const UNTRUSTED_LITERALS := [EVENT_OPEN, EVENT_CLOSE]

  // ---------------------------------------------------------------- occurrences

  predicate OccursAt(part: string, s: string, i: nat) {
    i + |part| <= |s| && s[i..i + |part|] == part
  }

  predicate Contains(s: string, part: string) {
    exists i: nat | i <= |s| :: OccursAt(part, s, i)
  }

  predicate FreeOf(s: string, literals: seq<string>) {
    forall l | l in literals :: !Contains(s, l)
  }

  /** `part` can be obtained from `s` by leaving characters out. */
  predicate Subsequence(part: string, s: string) {
    if part == [] then true
    else s != [] && (if part[0] == s[0] then Subsequence(part[1..], s[1..]) || Subsequence(part, s[1..]) else Subsequence(part, s[1..]))
  }

  // ---------------------------------------------------------------- one pass

  /** Python's `s.replace(literal, "")`: occurrences are removed from left to right. */
  function RemoveAll(s: string, literal: string): string
    requires literal != ""
    decreases |s|
  {
    if s == [] then []
    else if OccursAt(literal, s, 0) then RemoveAll(s[|literal|..], literal)
    else [s[0]] + RemoveAll(s[1..], literal)
  }

  function OnePass(s: string, literals: seq<string>): string
    requires "" !in literals
    decreases |literals|
  {
    if literals == [] then s
    else
      assert literals[0] in literals;
      OnePass(RemoveAll(s, literals[0]), literals[1..])
  }

  lemma {:induction false} SubsequenceSkips(part: string, s: string, n: nat)
    requires n <= |s| && Subsequence(part, s[n..])
    ensures Subsequence(part, s)
  {
    if n > 0 {
      assert s[1..][n - 1..] == s[n..];
      SubsequenceSkips(part, s[1..], n - 1);
    }
  }

  lemma {:induction false} SubsequenceRefl(s: string)
    ensures Subsequence(s, s)
  {
    if s != [] {
      SubsequenceRefl(s[1..]);
    }
  }

  lemma {:induction false} SubsequenceTrans(a: string, b: string, c: string)
    requires Subsequence(a, b) && Subsequence(b, c)
    ensures Subsequence(a, c)
    decreases |a| + |b| + |c|
  {
    if a != [] {
      if b[0] == c[0] && Subsequence(b[1..], c[1..]) {
        if a[0] == b[0] && Subsequence(a[1..], b[1..]) {
          SubsequenceTrans(a[1..], b[1..], c[1..]);
        } else {
          SubsequenceTrans(a, b[1..], c[1..]);
        }
      } else {
        SubsequenceTrans(a, b, c[1..]);
      }
    }
  }

  lemma {:induction false} RemoveAllShortens(s: string, literal: string)
    requires literal != ""
    ensures Subsequence(RemoveAll(s, literal), s) && |RemoveAll(s, literal)| <= |s|
    ensures Contains(s, literal) ==> |RemoveAll(s, literal)| < |s|
    ensures !Contains(s, literal) ==> RemoveAll(s, literal) == s
    decreases |s|
  {
    if s == [] {
    } else if OccursAt(literal, s, 0) {
      RemoveAllShortens(s[|literal|..], literal);
      SubsequenceSkips(RemoveAll(s, literal), s, |literal|);
    } else {
      RemoveAllShortens(s[1..], literal);
      TailContains(s, literal);
    }
  }

  lemma OccursInTail(part: string, s: string, i: nat)
    requires s != []
    ensures OccursAt(part, s, i + 1) <==> OccursAt(part, s[1..], i)
  {
  }

  /** An occurrence that is not at the front is one in the tail. */
  lemma TailContains(s: string, literal: string)
    requires s != [] && !OccursAt(literal, s, 0)
    ensures Contains(s, literal) <==> Contains(s[1..], literal)
  {
    forall i: nat | i < |s|
      ensures OccursAt(literal, s, i + 1) <==> OccursAt(literal, s[1..], i)
    {
      OccursInTail(literal, s, i);
    }
    if Contains(s, literal) {
      var i: nat :| i <= |s| && OccursAt(literal, s, i);
      assert OccursAt(literal, s[1..], i - 1);
    }
  }

  lemma {:induction false} OnePassShortens(s: string, literals: seq<string>)
    requires "" !in literals
    ensures Subsequence(OnePass(s, literals), s) && |OnePass(s, literals)| <= |s|
    ensures !FreeOf(s, literals) ==> |OnePass(s, literals)| < |s|
    ensures FreeOf(s, literals) ==> OnePass(s, literals) == s
    decreases |literals|
  {
    if literals == [] {
      SubsequenceRefl(s);
    } else {
      assert literals[0] in literals;
      assert forall l | l in literals :: l == literals[0] || l in literals[1..];
      RemoveAllShortens(s, literals[0]);
      var cleaned := RemoveAll(s, literals[0]);
      OnePassShortens(cleaned, literals[1..]);
      SubsequenceTrans(OnePass(cleaned, literals[1..]), cleaned, s);
    }
  }

  // ---------------------------------------------------------------- passes until nothing is left

  function StripLiterals(s: string, literals: seq<string>): string
    requires "" !in literals
    decreases |s|
  {
    if FreeOf(s, literals) then s
    else
      OnePassShortens(s, literals);
      StripLiterals(OnePass(s, literals), literals)
  }

  /** Stripping leaves no literal behind, only leaves characters out, and leaves clean text alone. */
  lemma {:induction false} StrippedIsClean(s: string, literals: seq<string>)
    requires "" !in literals
    ensures FreeOf(StripLiterals(s, literals), literals)
    ensures Subsequence(StripLiterals(s, literals), s) && |StripLiterals(s, literals)| <= |s|
    ensures FreeOf(s, literals) <==> StripLiterals(s, literals) == s
    decreases |s|
  {
    if FreeOf(s, literals) {
      SubsequenceRefl(s);
    } else {
      OnePassShortens(s, literals);
      var cleaned := OnePass(s, literals);
      StrippedIsClean(cleaned, literals);
      SubsequenceTrans(StripLiterals(cleaned, literals), cleaned, s);
    }
  }

  /** The two loops of `_strip_delimiter_literals`. */
  method StripDelimiterLiterals(text: string, literals: seq<string>) returns (cleaned: string)
    requires "" !in literals
    ensures cleaned == StripLiterals(text, literals)
  {
    cleaned := text;
    while !FreeOf(cleaned, literals)
      invariant StripLiterals(cleaned, literals) == StripLiterals(text, literals)
      decreases |cleaned|
    {
      OnePassShortens(cleaned, literals);
      ghost var before := cleaned;
      for i := 0 to |literals|
        invariant OnePass(cleaned, literals[i..]) == OnePass(before, literals)
      {
        assert literals[i] in literals;
        assert literals[i..][1..] == literals[i + 1..];
        cleaned := RemoveAll(cleaned, literals[i]);
      }
    }
  }

  // ---------------------------------------------------------------- what stripping comes to

  /** A delimiter is one tag: it opens at its first character and closes at its last, and nowhere else. */
  predicate IsTag(s: string) {
    && |s| > 1 && s[0] == '<' && s[|s| - 1] == '>' && '\n' !in s
    && forall i | 0 < i < |s| - 1 :: s[i] != '<' && s[i] != '>'
  }

  predicate AllTags(literals: seq<string>) {
    forall l | l in literals :: IsTag(l)
  }

  predicate EndsWith(s: string, part: string) {
    |part| <= |s| && s[|s| - |part|..] == part
  }

  function CutEnd(s: string, literals: seq<string>): string {
    if literals == [] then s
    else if EndsWith(s, literals[0]) then s[..|s| - |literals[0]|]
    else CutEnd(s, literals[1..])
  }

  /** Reading `s` once from left to right, and dropping a tag as soon as its last character has been read. */
  function ReadOnce(kept: string, s: string, literals: seq<string>): string
    decreases |s|
  {
    if s == [] then kept else ReadOnce(CutEnd(kept + [s[0]], literals), s[1..], literals)
  }

  lemma ShorterTagAtTheEnd(s: string, a: string, b: string)
    requires IsTag(a) && IsTag(b) && EndsWith(s, a) && EndsWith(s, b) && |a| <= |b|
    ensures a == b
  {
    assert b[|b| - |a|] == s[|s| - |b|..][|b| - |a|] == s[|s| - |a|..][0];
  }

  /** Two tags cannot overlap: text ends with at most one of them. */
  lemma OneTagAtTheEnd(s: string, a: string, b: string)
    requires IsTag(a) && IsTag(b) && EndsWith(s, a) && EndsWith(s, b)
    ensures a == b
  {
    if |a| <= |b| {
      ShorterTagAtTheEnd(s, a, b);
    } else {
      ShorterTagAtTheEnd(s, b, a);
    }
  }

  lemma {:induction false} CutEndTag(s: string, l: string, literals: seq<string>)
    requires AllTags(literals) && l in literals
    ensures CutEnd(s + l, literals) == s
  {
    assert EndsWith(s + l, l);
    if EndsWith(s + l, literals[0]) {
      assert literals[0] in literals;
      OneTagAtTheEnd(s + l, l, literals[0]);
    } else {
      CutEndTag(s, l, literals[1..]);
    }
  }

  lemma {:induction false} CutEndNothing(s: string, literals: seq<string>)
    requires forall l | l in literals :: !EndsWith(s, l)
    ensures CutEnd(s, literals) == s
  {
    if literals != [] {
      assert literals[0] in literals;
      CutEndNothing(s, literals[1..]);
    }
  }

  lemma {:induction false} ReadTag(kept: string, l: string, k: nat, rest: string, literals: seq<string>)
    requires AllTags(literals) && l in literals && k < |l|
    ensures ReadOnce(kept + l[..k], l[k..] + rest, literals) == ReadOnce(kept, rest, literals)
    decreases |l| - k
  {
    assert IsTag(l);
    var s := l[k..] + rest;
    assert s[0] == l[k] && s[1..] == l[k + 1..] + rest;
    var next := kept + l[..k] + [l[k]];
    assert next == kept + l[..k + 1];
    if k + 1 == |l| {
      assert next == kept + l && s[1..] == rest;
      CutEndTag(kept, l, literals);
    } else {
      forall t | t in literals
        ensures !EndsWith(next, t)
      {
        assert IsTag(t) && next[|next| - 1] == l[k];
      }
      CutEndNothing(next, literals);
      ReadTag(kept, l, k + 1, rest, literals);
    }
  }

  lemma {:induction false} ReadInTwo(kept: string, u: string, v: string, literals: seq<string>)
    ensures ReadOnce(kept, u + v, literals) == ReadOnce(ReadOnce(kept, u, literals), v, literals)
    decreases |u|
  {
    if u == [] {
      assert u + v == v;
    } else {
      assert (u + v)[1..] == u[1..] + v;
      ReadInTwo(CutEnd(kept + [u[0]], literals), u[1..], v, literals);
    }
  }

  lemma {:induction false} ReadRemoveAll(kept: string, s: string, l: string, literals: seq<string>)
    requires AllTags(literals) && l in literals && l != ""
    ensures ReadOnce(kept, RemoveAll(s, l), literals) == ReadOnce(kept, s, literals)
    decreases |s|
  {
    if s == [] {
    } else if OccursAt(l, s, 0) {
      var rest := s[|l|..];
      assert s == l + rest && kept + l[..0] == kept && l[0..] == l;
      ReadTag(kept, l, 0, rest, literals);
      ReadRemoveAll(kept, rest, l, literals);
    } else {
      assert RemoveAll(s, l)[1..] == RemoveAll(s[1..], l);
      ReadRemoveAll(CutEnd(kept + [s[0]], literals), s[1..], l, literals);
    }
  }

  lemma {:induction false} ReadOnePass(s: string, some: seq<string>, literals: seq<string>)
    requires AllTags(literals) && "" !in some && forall l | l in some :: l in literals
    ensures ReadOnce([], OnePass(s, some), literals) == ReadOnce([], s, literals)
    decreases |some|
  {
    if some != [] {
      assert some[0] in some;
      ReadRemoveAll([], s, some[0], literals);
      ReadOnePass(RemoveAll(s, some[0]), some[1..], literals);
    }
  }

  lemma {:induction false} ReadClean(kept: string, s: string, literals: seq<string>)
    requires FreeOf(kept + s, literals)
    ensures ReadOnce(kept, s, literals) == kept + s
    decreases |s|
  {
    if s != [] {
      var next := kept + [s[0]];
      assert next + s[1..] == kept + s;
      forall l | l in literals
        ensures !EndsWith(next, l)
      {
        if EndsWith(next, l) {
          assert (kept + s)[|next| - |l|..|next|] == l;
          assert OccursAt(l, kept + s, |next| - |l|);
        }
      }
      CutEndNothing(next, literals);
      ReadClean(next, s[1..], literals);
    }
  }

  /** The passes come to one reading. */
  lemma {:induction false} StrippingReadsOnce(s: string, literals: seq<string>)
    requires AllTags(literals) && "" !in literals
    ensures StripLiterals(s, literals) == ReadOnce([], s, literals)
    decreases |s|
  {
    if FreeOf(s, literals) {
      assert [] + s == s;
      ReadClean([], s, literals);
    } else {
      OnePassShortens(s, literals);
      ReadOnePass(s, literals, literals);
      StrippingReadsOnce(OnePass(s, literals), literals);
    }
  }

  /** The order of the removals does not matter: whichever occurrence of a tag goes first, the same text is left. With
      StrippedIsClean, that clean text is left alone, this determines the result. */
  lemma AnyTagMayGoFirst(u: string, tag: string, v: string, literals: seq<string>)
    requires AllTags(literals) && tag in literals
    ensures "" !in literals && StripLiterals(u + tag + v, literals) == StripLiterals(u + v, literals)
  {
    assert "" !in literals;
    var kept := ReadOnce([], u, literals);
    assert u + tag + v == u + (tag + v);
    ReadInTwo([], u, tag + v, literals);
    assert kept + tag[..0] == kept && tag[0..] + v == tag + v;
    ReadTag(kept, tag, 0, v, literals);
    ReadInTwo([], u, v, literals);
    StrippingReadsOnce(u + tag + v, literals);
    StrippingReadsOnce(u + v, literals);
  }

  // ---------------------------------------------------------------- the frame

  function Take(s: string, n: nat): string {
    if |s| <= n then s else s[..n]
  }

  function ScopedTitle(rawTitle: string): string {
    Take(StripLiterals(Take(rawTitle, RAW_TITLE_PROMPT_MAX_LENGTH * 2), DELIMITER_LITERALS), RAW_TITLE_PROMPT_MAX_LENGTH)
  }

  function ScopedText(rawText: string): string {
    Take(StripLiterals(Take(rawText, MAX_INPUT_CHARS * 2), DELIMITER_LITERALS), MAX_INPUT_CHARS)
  }

  /** What a field of an event becomes in the translation prompt: here the text is cut first and stripped last. */
  function ScopedField(raw: string): string {
    StripLiterals(Take(raw, TRANSLATION_INPUT_MAX_CHARS), UNTRUSTED_LITERALS)
  }

  function Lines(parts: seq<string>): string
    requires parts != []
  {
    if |parts| == 1 then parts[0] else parts[0] + "\n" + Lines(parts[1..])
  }

  function FrameLines(rawTitle: string, rawText: string): seq<string> {
    [TITLE_OPEN, ScopedTitle(rawTitle), TITLE_CLOSE, TEXT_OPEN, ScopedText(rawText), TEXT_CLOSE]
  }

  function BuildUserContent(rawTitle: string, rawText: string): string {
    Lines(FrameLines(rawTitle, rawText))
  }

  lemma LinesOfThree(a: string, b: string, c: string, rest: seq<string>)
    requires rest != []
    ensures Lines([a, b, c] + rest) == (a + "\n" + b + "\n" + c) + "\n" + Lines(rest)
  {
    var all := [a, b, c] + rest;
    assert all[1..] == [b, c] + rest && ([b, c] + rest)[1..] == [c] + rest && ([c] + rest)[1..] == rest;
    assert Lines([c] + rest) == c + "\n" + Lines(rest);
    assert Lines([b, c] + rest) == b + "\n" + (c + "\n" + Lines(rest));
    assert Lines(all) == a + "\n" + (b + "\n" + (c + "\n" + Lines(rest)));
  }

  lemma JustThree(a: string, b: string, c: string)
    ensures Lines([a, b, c]) == a + "\n" + b + "\n" + c
  {
    assert [a, b, c][1..] == [b, c] && [b, c][1..] == [c];
    assert Lines([b, c]) == b + "\n" + c;
  }

  /** The prompt, in full. */
  lemma UserContentInFull(rawTitle: string, rawText: string)
    ensures BuildUserContent(rawTitle, rawText)
         == (TITLE_OPEN + "\n" + ScopedTitle(rawTitle) + "\n" + TITLE_CLOSE) + "\n" + (TEXT_OPEN + "\n" + ScopedText(rawText) + "\n" + TEXT_CLOSE)
  {
    var text := [TEXT_OPEN, ScopedText(rawText), TEXT_CLOSE];
    LinesOfThree(TITLE_OPEN, ScopedTitle(rawTitle), TITLE_CLOSE, text);
    JustThree(TEXT_OPEN, ScopedText(rawText), TEXT_CLOSE);
    assert FrameLines(rawTitle, rawText) == [TITLE_OPEN, ScopedTitle(rawTitle), TITLE_CLOSE] + text;
  }

  /** Where the k-th part begins. */
  function LineStart(parts: seq<string>, k: nat): nat
    requires k < |parts|
  {
    if k == 0 then 0 else |parts[0]| + 1 + LineStart(parts[1..], k - 1)
  }

  lemma OccursAcross(part: string, u: string, v: string, i: nat)
    requires part != "" && '\n' !in part
    ensures OccursAt(part, u + "\n" + v, i) <==> OccursAt(part, u, i) || (i > |u| && OccursAt(part, v, i - |u| - 1))
  {
    var s := u + "\n" + v;
    assert s[|u|] == '\n';
    if i + |part| <= |u| {
      assert s[i..i + |part|] == u[i..i + |part|];
    } else if i > |u| {
      if i + |part| <= |s| {
        assert s[i..i + |part|] == v[i - |u| - 1..i - |u| - 1 + |part|];
      }
    } else if i + |part| <= |s| {
      assert s[i..i + |part|][|u| - i] == '\n';
    }
  }

  predicate OccursInLine(part: string, parts: seq<string>, k: nat, i: nat)
    requires k < |parts|
  {
    i >= LineStart(parts, k) && OccursAt(part, parts[k], i - LineStart(parts, k))
  }

  lemma LaterLine(part: string, parts: seq<string>, k: nat, i: nat)
    requires 0 < k < |parts|
    ensures OccursInLine(part, parts, k, i) <==> i > |parts[0]| && OccursInLine(part, parts[1..], k - 1, i - |parts[0]| - 1)
  {
    assert parts[k] == parts[1..][k - 1] && LineStart(parts, k) == |parts[0]| + 1 + LineStart(parts[1..], k - 1);
  }

  /** Text without a line break occurs in joined lines only inside one of them. */
  lemma {:induction false} OccursInLines(part: string, parts: seq<string>, i: nat)
    requires part != "" && '\n' !in part && parts != []
    ensures OccursAt(part, Lines(parts), i) <==> exists k: nat | k < |parts| :: OccursInLine(part, parts, k, i)
  {
    assert OccursInLine(part, parts, 0, i) <==> OccursAt(part, parts[0], i);
    if |parts| > 1 {
      var u, rest := parts[0], parts[1..];
      OccursAcross(part, u, Lines(rest), i);
      forall k: nat | 0 < k < |parts|
        ensures OccursInLine(part, parts, k, i) <==> i > |u| && OccursInLine(part, rest, k - 1, i - |u| - 1)
      {
        LaterLine(part, parts, k, i);
      }
      if i > |u| {
        OccursInLines(part, rest, i - |u| - 1);
        if OccursAt(part, Lines(rest), i - |u| - 1) {
          var k: nat :| k < |rest| && OccursInLine(part, rest, k, i - |u| - 1);
          assert OccursInLine(part, parts, k + 1, i);
        }
      }
    }
  }

  lemma {:induction false} LineIsInPlace(parts: seq<string>, k: nat)
    requires k < |parts|
    ensures LineStart(parts, k) + |parts[k]| <= |Lines(parts)|
    ensures Lines(parts)[LineStart(parts, k)..LineStart(parts, k) + |parts[k]|] == parts[k]
  {
    if k > 0 {
      LineIsInPlace(parts[1..], k - 1);
      var n := LineStart(parts[1..], k - 1);
      var rest := Lines(parts[1..]);
      assert Lines(parts)[|parts[0]| + 1..] == rest;
      assert Lines(parts)[|parts[0]| + 1 + n..|parts[0]| + 1 + n + |parts[k]|] == rest[n..n + |parts[k]|];
    } else if |parts| > 1 {
      assert Lines(parts)[..|parts[0]|] == parts[0];
    }
  }

  lemma TitleTags()
    ensures IsTag(TITLE_OPEN) && |TITLE_OPEN| == 22 && IsTag(TITLE_CLOSE) && |TITLE_CLOSE| == 23
  {
  }

  lemma TextTags()
    ensures IsTag(TEXT_OPEN) && |TEXT_OPEN| == 24 && IsTag(TEXT_CLOSE) && |TEXT_CLOSE| == 25
  {
  }

  lemma EventTags()
    ensures IsTag(EVENT_OPEN) && IsTag(EVENT_CLOSE)
  {
  }

  lemma DelimitersAreTags()
    ensures forall l | l in DELIMITER_LITERALS + UNTRUSTED_LITERALS :: IsTag(l)
    ensures forall j, k | 0 <= j < k < 4 :: DELIMITER_LITERALS[j] != DELIMITER_LITERALS[k]
    ensures "" !in DELIMITER_LITERALS && "" !in UNTRUSTED_LITERALS
  {
    TitleTags();
    TextTags();
    EventTags();
  }

  lemma TagInTag(tag: string, other: string, i: nat)
    requires IsTag(tag) && IsTag(other) && OccursAt(tag, other, i)
    ensures i == 0 && tag == other
  {
  }

  lemma PrefixIsFree(s: string, n: nat, literals: seq<string>)
    requires FreeOf(s, literals)
    ensures FreeOf(Take(s, n), literals)
  {
    forall l | l in literals
      ensures !Contains(Take(s, n), l)
    {
      forall i: nat | i <= |Take(s, n)| && OccursAt(l, Take(s, n), i)
        ensures OccursAt(l, s, i)
      {
        assert Take(s, n)[i..i + |l|] == s[i..i + |l|];
      }
    }
  }

  lemma ScopedIsFree(rawTitle: string, rawText: string)
    ensures FreeOf(ScopedTitle(rawTitle), DELIMITER_LITERALS) && FreeOf(ScopedText(rawText), DELIMITER_LITERALS)
  {
    DelimitersAreTags();
    StrippedIsClean(Take(rawTitle, RAW_TITLE_PROMPT_MAX_LENGTH * 2), DELIMITER_LITERALS);
    PrefixIsFree(StripLiterals(Take(rawTitle, RAW_TITLE_PROMPT_MAX_LENGTH * 2), DELIMITER_LITERALS),
                 RAW_TITLE_PROMPT_MAX_LENGTH, DELIMITER_LITERALS);
    StrippedIsClean(Take(rawText, MAX_INPUT_CHARS * 2), DELIMITER_LITERALS);
    PrefixIsFree(StripLiterals(Take(rawText, MAX_INPUT_CHARS * 2), DELIMITER_LITERALS), MAX_INPUT_CHARS, DELIMITER_LITERALS);
  }

  /** A field of the translation prompt cannot close the block it stands in, and an ordinary field is passed on as it is. */
  lemma ScopedFieldIsHarmless(raw: string)
    ensures FreeOf(ScopedField(raw), UNTRUSTED_LITERALS) && |ScopedField(raw)| <= TRANSLATION_INPUT_MAX_CHARS
    ensures |raw| <= TRANSLATION_INPUT_MAX_CHARS && FreeOf(raw, UNTRUSTED_LITERALS) ==> ScopedField(raw) == raw
  {
    StrippedIsClean(Take(raw, TRANSLATION_INPUT_MAX_CHARS), UNTRUSTED_LITERALS);
  }

  /** Only the first 4000 characters of a field count, and a tag among them is cut out of them. */
  lemma FieldIsCutThenStripped(raw: string, u: string, tag: string, v: string)
    ensures |raw| > 4000 ==> ScopedField(raw) == ScopedField(raw[..4000])
    ensures tag in UNTRUSTED_LITERALS && |u + tag + v| <= 4000 ==> ScopedField(u + tag + v) == ScopedField(u + v)
  {
    DelimitersAreTags();
    if tag in UNTRUSTED_LITERALS {
      AnyTagMayGoFirst(u, tag, v, UNTRUSTED_LITERALS);
    }
  }

  /** The page's title and text that reach the prompt: the first 255 and 8000 characters of what is left when every
      delimiter has gone from the first 510 and 16000. */
  lemma CleanPageIsPassedOn(title: string, text: string)
    ensures |ScopedTitle(title)| <= 255 && |ScopedText(text)| <= 8000
    ensures FreeOf(title, DELIMITER_LITERALS) ==> ScopedTitle(title) == if |title| <= 255 then title else title[..255]
    ensures FreeOf(text, DELIMITER_LITERALS) ==> ScopedText(text) == if |text| <= 8000 then text else text[..8000]
    ensures |title| > 510 ==> ScopedTitle(title) == ScopedTitle(title[..510])
    ensures |text| > 16000 ==> ScopedText(text) == ScopedText(text[..16000])
  {
    DelimitersAreTags();
    StrippedIsClean(Take(title, 510), DELIMITER_LITERALS);
    StrippedIsClean(Take(text, 16000), DELIMITER_LITERALS);
    if FreeOf(title, DELIMITER_LITERALS) {
      PrefixIsFree(title, 510, DELIMITER_LITERALS);
    }
    if FreeOf(text, DELIMITER_LITERALS) {
      PrefixIsFree(text, 16000, DELIMITER_LITERALS);
    }
  }

  /** And a delimiter in that part makes no difference, wherever it stands and whatever its removal joins together. */
  lemma DelimitersMakeNoDifference(u: string, tag: string, v: string)
    requires tag in DELIMITER_LITERALS
    ensures |u + tag + v| <= 510 ==> ScopedTitle(u + tag + v) == ScopedTitle(u + v)
    ensures |u + tag + v| <= 16000 ==> ScopedText(u + tag + v) == ScopedText(u + v)
  {
    DelimitersAreTags();
    AnyTagMayGoFirst(u, tag, v, DELIMITER_LITERALS);
  }

  /** The line of the frame that a delimiter is. */
  function DelimiterLine(d: nat): nat
    requires d < 4
  {
    if d == 0 then 0 else if d == 1 then 2 else if d == 2 then 3 else 5
  }

  lemma DelimiterInLine(rawTitle: string, rawText: string, d: nat, k: nat, i: nat)
    requires d < 4 && k < 6
    ensures OccursAt(DELIMITER_LITERALS[d], FrameLines(rawTitle, rawText)[k], i) <==> k == DelimiterLine(d) && i == 0
  {
    DelimitersAreTags();
    ScopedIsFree(rawTitle, rawText);
    var part, line := DELIMITER_LITERALS[d], FrameLines(rawTitle, rawText)[k];
    assert part in DELIMITER_LITERALS;
    assert k == 1 || k == 4 ==> !Contains(line, part);
    if OccursAt(part, line, i) {
      assert i <= |line|;
      assert line in DELIMITER_LITERALS;
      TagInTag(part, line, i);
    }
  }

  /** Each delimiter occurs in the prompt exactly once, whatever the page says. */
  lemma EachDelimiterOccursOnce(rawTitle: string, rawText: string, d: nat, i: nat)
    requires d < 4
    ensures OccursAt(DELIMITER_LITERALS[d], BuildUserContent(rawTitle, rawText), i) <==>
            i == LineStart(FrameLines(rawTitle, rawText), DelimiterLine(d))
  {
    DelimitersAreTags();
    var part, parts := DELIMITER_LITERALS[d], FrameLines(rawTitle, rawText);
    assert part in DELIMITER_LITERALS + UNTRUSTED_LITERALS;
    OccursInLines(part, parts, i);
    forall k: nat | k < 6
      ensures OccursInLine(part, parts, k, i) <==> k == DelimiterLine(d) && i == LineStart(parts, k)
    {
      if i >= LineStart(parts, k) {
        DelimiterInLine(rawTitle, rawText, d, k, i - LineStart(parts, k));
      }
    }
    assert OccursInLine(part, parts, DelimiterLine(d), i) <==> i == LineStart(parts, DelimiterLine(d));
  }

  // ---------------------------------------------------------------- reading the frame back

  /** The first occurrence at or after `from`. */
  function Find(part: string, s: string, from: nat := 0): (r: Option<nat>)
    requires from <= |s|
    ensures r.Some? ==> OccursAt(part, s, r.value)
    ensures r.None? ==> forall i | from <= i <= |s| :: !OccursAt(part, s, i)
    decreases |s| - from
  {
    if OccursAt(part, s, from) then Some(from)
    else if from == |s| then None
    else Find(part, s, from + 1)
  }

  /** What stands between two delimiters, without the line breaks next to them. */
  function Between(content: string, open: string, close: string): Option<string> {
    var a, b := Find(open, content), Find(close, content);
    if a.None? || b.None? || a.value + |open| + 1 > b.value - 1 then None
    else Some(content[a.value + |open| + 1..b.value - 1])
  }

  lemma {:induction false} FindTheOnly(part: string, s: string, at: nat, from: nat)
    requires from <= at <= |s| && forall i: nat :: OccursAt(part, s, i) <==> i == at
    ensures Find(part, s, from) == Some(at)
    decreases at - from
  {
    if from < at {
      FindTheOnly(part, s, at, from + 1);
    }
  }

  lemma FindDelimiter(rawTitle: string, rawText: string, d: nat)
    requires d < 4
    ensures Find(DELIMITER_LITERALS[d], BuildUserContent(rawTitle, rawText))
         == Some(LineStart(FrameLines(rawTitle, rawText), DelimiterLine(d)))
  {
    forall i: nat
      ensures OccursAt(DELIMITER_LITERALS[d], BuildUserContent(rawTitle, rawText), i)
         <==> i == LineStart(FrameLines(rawTitle, rawText), DelimiterLine(d))
    {
      EachDelimiterOccursOnce(rawTitle, rawText, d, i);
    }
    LineIsInPlace(FrameLines(rawTitle, rawText), DelimiterLine(d));
    FindTheOnly(DELIMITER_LITERALS[d], BuildUserContent(rawTitle, rawText), LineStart(FrameLines(rawTitle, rawText), DelimiterLine(d)), 0);
  }

  lemma LineStartStep(parts: seq<string>, k: nat)
    requires k + 1 < |parts|
    ensures LineStart(parts, k + 1) == LineStart(parts, k) + |parts[k]| + 1
  {
    if k > 0 {
      LineStartStep(parts[1..], k - 1);
    }
  }

  lemma BetweenIsTheLine(parts: seq<string>, k: nat)
    requires k + 2 < |parts|
    requires Find(parts[k], Lines(parts)) == Some(LineStart(parts, k))
    requires Find(parts[k + 2], Lines(parts)) == Some(LineStart(parts, k + 2))
    ensures Between(Lines(parts), parts[k], parts[k + 2]) == Some(parts[k + 1])
  {
    LineStartStep(parts, k);
    LineStartStep(parts, k + 1);
    LineIsInPlace(parts, k + 1);
  }

  lemma TitleIsBetween(rawTitle: string, rawText: string)
    ensures Between(BuildUserContent(rawTitle, rawText), TITLE_OPEN, TITLE_CLOSE) == Some(ScopedTitle(rawTitle))
  {
    FindDelimiter(rawTitle, rawText, 0);
    FindDelimiter(rawTitle, rawText, 1);
    BetweenIsTheLine(FrameLines(rawTitle, rawText), 0);
  }

  lemma TextIsBetween(rawTitle: string, rawText: string)
    ensures Between(BuildUserContent(rawTitle, rawText), TEXT_OPEN, TEXT_CLOSE) == Some(ScopedText(rawText))
  {
    FindDelimiter(rawTitle, rawText, 2);
    FindDelimiter(rawTitle, rawText, 3);
    BetweenIsTheLine(FrameLines(rawTitle, rawText), 3);
  }

  /** Cutting the prompt at its delimiters gives back exactly the title and the text that went in. */
  lemma FrameIsUnambiguous(rawTitle: string, rawText: string)
    ensures var content := BuildUserContent(rawTitle, rawText);
            && Between(content, TITLE_OPEN, TITLE_CLOSE) == Some(ScopedTitle(rawTitle))
            && Between(content, TEXT_OPEN, TEXT_CLOSE) == Some(ScopedText(rawText))
  {
    TitleIsBetween(rawTitle, rawText);
    TextIsBetween(rawTitle, rawText);
  }

  // ---------------------------------------------------------------- the translation prompt

  const FIELD_LABELS := ["title: ", "work_title: ", "location_name: ", "summary: "]

  function LabelledField(raw: seq<string>, k: nat): string
    requires |raw| == 4 && k < 4
  {
    FIELD_LABELS[k] + ScopedField(raw[k])
  }

  function FieldsBlock(raw: seq<string>): string
    requires |raw| == 4
  {
    Lines([LabelledField(raw, 0), LabelledField(raw, 1), LabelledField(raw, 2), LabelledField(raw, 3)])
  }

  /** An ordinary event stands in the prompt as it is, its four texts each behind their name. */
  lemma OrdinaryEventIsPassedOn(raw: seq<string>)
    requires |raw| == 4 && forall i | 0 <= i < 4 :: |raw[i]| <= 4000 && FreeOf(raw[i], UNTRUSTED_LITERALS)
    ensures FieldsBlock(raw) == "title: " + raw[0] + "\n" + ("work_title: " + raw[1]) + "\n" + ("location_name: " + raw[2]) + "\n"
                                + ("summary: " + raw[3])
  {
    forall i | 0 <= i < 4
      ensures ScopedField(raw[i]) == raw[i]
    {
      ScopedFieldIsHarmless(raw[i]);
    }
    var last := [LabelledField(raw, 3)];
    LinesOfThree(LabelledField(raw, 0), LabelledField(raw, 1), LabelledField(raw, 2), last);
    assert [LabelledField(raw, 0), LabelledField(raw, 1), LabelledField(raw, 2), LabelledField(raw, 3)]
        == [LabelledField(raw, 0), LabelledField(raw, 1), LabelledField(raw, 2)] + last;
  }

  /** The parts of the prompt: fixed text before and after, and the fields of the event between the two tags. */
  function PromptParts(before: string, raw: seq<string>, after: string): seq<string>
    requires |raw| == 4
  {
    [before, "", EVENT_OPEN, FieldsBlock(raw), EVENT_CLOSE, "", after]
  }

  function BuildTranslationPrompt(before: string, raw: seq<string>, after: string): string
    requires |raw| == 4
  {
    Lines(PromptParts(before, raw, after))
  }

  /** A label cannot be the beginning of a tag. */
  lemma LabelledIsFree(name: string, value: string, tag: string)
    requires IsTag(tag) && '<' !in name && !Contains(value, tag)
    ensures !Contains(name + value, tag)
  {
    forall i: nat | i <= |name + value| && OccursAt(tag, name + value, i)
      ensures false
    {
      assert (name + value)[i..i + |tag|][0] == (name + value)[i];
      assert value[i - |name|..i - |name| + |tag|] == (name + value)[i..i + |tag|];
      assert OccursAt(tag, value, i - |name|);
    }
  }

  lemma FieldIsFree(raw: seq<string>, k: nat, t: nat)
    requires |raw| == 4 && k < 4 && t < 2
    ensures !Contains(LabelledField(raw, k), UNTRUSTED_LITERALS[t])
  {
    DelimitersAreTags();
    ScopedFieldIsHarmless(raw[k]);
    assert UNTRUSTED_LITERALS[t] in UNTRUSTED_LITERALS;
    LabelledIsFree(FIELD_LABELS[k], ScopedField(raw[k]), UNTRUSTED_LITERALS[t]);
  }

  lemma BlockIsFree(raw: seq<string>, t: nat)
    requires |raw| == 4 && t < 2
    ensures !Contains(FieldsBlock(raw), UNTRUSTED_LITERALS[t])
  {
    EventTags();
    var tag := UNTRUSTED_LITERALS[t];
    var lines := [LabelledField(raw, 0), LabelledField(raw, 1), LabelledField(raw, 2), LabelledField(raw, 3)];
    forall i: nat | i <= |FieldsBlock(raw)|
      ensures !OccursAt(tag, FieldsBlock(raw), i)
    {
      OccursInLines(tag, lines, i);
      forall k: nat | k < 4 && i >= LineStart(lines, k)
        ensures !OccursAt(tag, lines[k], i - LineStart(lines, k))
      {
        FieldIsFree(raw, k, t);
        assert lines[k] == LabelledField(raw, k);
      }
    }
  }

  lemma TagInPart(before: string, raw: seq<string>, after: string, t: nat, k: nat, i: nat)
    requires |raw| == 4 && t < 2 && k < 7 && FreeOf(before, UNTRUSTED_LITERALS) && FreeOf(after, UNTRUSTED_LITERALS)
    ensures OccursAt(UNTRUSTED_LITERALS[t], PromptParts(before, raw, after)[k], i) <==> k == 2 + 2 * t && i == 0
  {
    EventTags();
    BlockIsFree(raw, t);
    var tag, part := UNTRUSTED_LITERALS[t], PromptParts(before, raw, after)[k];
    assert tag in UNTRUSTED_LITERALS && |EVENT_OPEN| == 22 && |EVENT_CLOSE| == 23;
    if OccursAt(tag, part, i) {
      assert i <= |part|;
      assert k == 2 || k == 4;
      TagInTag(tag, part, i);
    }
  }

  /** Each of the two tags occurs in the translation prompt exactly once, whatever the event says. */
  lemma EachTagOccursOnce(before: string, raw: seq<string>, after: string, t: nat, i: nat)
    requires |raw| == 4 && t < 2 && FreeOf(before, UNTRUSTED_LITERALS) && FreeOf(after, UNTRUSTED_LITERALS)
    ensures OccursAt(UNTRUSTED_LITERALS[t], BuildTranslationPrompt(before, raw, after), i) <==>
            i == LineStart(PromptParts(before, raw, after), 2 + 2 * t)
  {
    EventTags();
    var tag, parts := UNTRUSTED_LITERALS[t], PromptParts(before, raw, after);
    OccursInLines(tag, parts, i);
    forall k: nat | k < 7
      ensures OccursInLine(tag, parts, k, i) <==> k == 2 + 2 * t && i == LineStart(parts, k)
    {
      if i >= LineStart(parts, k) {
        TagInPart(before, raw, after, t, k, i - LineStart(parts, k));
      }
    }
    assert OccursInLine(tag, parts, 2 + 2 * t, i) <==> i == LineStart(parts, 2 + 2 * t);
  }

  lemma FindTag(before: string, raw: seq<string>, after: string, t: nat)
    requires |raw| == 4 && t < 2 && FreeOf(before, UNTRUSTED_LITERALS) && FreeOf(after, UNTRUSTED_LITERALS)
    ensures Find(UNTRUSTED_LITERALS[t], BuildTranslationPrompt(before, raw, after))
         == Some(LineStart(PromptParts(before, raw, after), 2 + 2 * t))
  {
    var prompt, at := BuildTranslationPrompt(before, raw, after), LineStart(PromptParts(before, raw, after), 2 + 2 * t);
    forall i: nat
      ensures OccursAt(UNTRUSTED_LITERALS[t], prompt, i) <==> i == at
    {
      EachTagOccursOnce(before, raw, after, t, i);
    }
    LineIsInPlace(PromptParts(before, raw, after), 2 + 2 * t);
    FindTheOnly(UNTRUSTED_LITERALS[t], prompt, at, 0);
  }

  lemma TagIsFound(before: string, raw: seq<string>, after: string, parts: seq<string>, t: nat)
    requires |raw| == 4 && t < 2 && FreeOf(before, UNTRUSTED_LITERALS) && FreeOf(after, UNTRUSTED_LITERALS)
    requires parts == PromptParts(before, raw, after)
    ensures parts[2 + 2 * t] == UNTRUSTED_LITERALS[t] && Find(parts[2 + 2 * t], Lines(parts)) == Some(LineStart(parts, 2 + 2 * t))
  {
    FindTag(before, raw, after, t);
    assert parts[2 + 2 * t] == UNTRUSTED_LITERALS[t];
  }

  /** Cutting the translation prompt at its tags gives back exactly the block of fields. */
  lemma TranslationFrameIsUnambiguous(before: string, raw: seq<string>, after: string)
    requires |raw| == 4 && FreeOf(before, UNTRUSTED_LITERALS) && FreeOf(after, UNTRUSTED_LITERALS)
    ensures Between(BuildTranslationPrompt(before, raw, after), EVENT_OPEN, EVENT_CLOSE) == Some(FieldsBlock(raw))
  {
    var parts := PromptParts(before, raw, after);
    TagIsFound(before, raw, after, parts, 0);
    TagIsFound(before, raw, after, parts, 1);
    BetweenIsTheLine(parts, 2);
  }
}
