/** How the error table names a group: cleaning the two raw parts, cutting them, and joining them into the text that is
    hashed (core/error_groups.py). SHA-256 is taken to be injective, so the joined text stands for the fingerprint. */
module ErrorKeys {
  import opened PythonText

  const ERROR_TYPE_LIMIT := 100
  const LOCATION_LIMIT := 255

  datatype Source = Backend | Frontend

  function SourceName(s: Source): string {
    match s
    case Backend => "backend"
    case Frontend => "frontend"
  }

  predicate IsControl(c: char) {
    c < ' ' || c == '\U{7F}'
  }

  /** Each maximal run of control characters becomes one space. */
  function ReplaceControls(s: string): string {
    if s == [] then []
    else if !IsControl(s[0]) then [s[0]] + ReplaceControls(s[1..])
    else if |s| > 1 && IsControl(s[1]) then ReplaceControls(s[1..])
    else " " + ReplaceControls(s[1..])
  }

  /** Each run of two or more spaces becomes one. */
  function CollapseSpaces(s: string): string {
    if s == [] then []
    else if |s| > 1 && s[0] == ' ' && s[1] == ' ' then CollapseSpaces(s[1..])
    else [s[0]] + CollapseSpaces(s[1..])
  }

  function StripControl(s: string): string {
    Strip(CollapseSpaces(ReplaceControls(s)))
  }

  function Cut(s: string, limit: nat): string {
    if |s| <= limit then s else s[..limit]
  }

  function Normalize(s: string, limit: nat): string {
    Cut(StripControl(s), limit)
  }

  /** The text that is hashed for already normalised parts. */
  function Joined(source: Source, errorType: string, location: string): string {
    SourceName(source) + "\U{1F}" + errorType + "\U{1F}" + location
  }

  function Fingerprint(source: Source, errorType: string, location: string): string {
    Joined(source, Normalize(errorType, ERROR_TYPE_LIMIT), Normalize(location, LOCATION_LIMIT))
  }

  /** `record_error` normalises before it calls `compute_fingerprint`, which normalises again. */
  function StoredFingerprint(source: Source, errorType: string, location: string): string {
    Fingerprint(source, Normalize(errorType, ERROR_TYPE_LIMIT), Normalize(location, LOCATION_LIMIT))
  }

  // ---------------------------------------------------------------- what cleaning achieves

  predicate NoControls(s: string) {
    forall i | 0 <= i < |s| :: !IsControl(s[i])
  }

  predicate NoDoubleSpaces(s: string) {
    forall i | 0 <= i < |s| - 1 :: !(s[i] == ' ' && s[i + 1] == ' ')
  }

  predicate Tidy(s: string) {
    NoControls(s) && NoDoubleSpaces(s) && (s != [] ==> !IsSpace(s[0]))
  }

  lemma {:induction false} ReplaceRemovesControls(s: string)
    ensures NoControls(ReplaceControls(s))
  {
    if s != [] {
      ReplaceRemovesControls(s[1..]);
    }
  }

  lemma {:induction false} ReplaceKeepsClean(s: string)
    requires NoControls(s)
    ensures ReplaceControls(s) == s
  {
    if s != [] {
      ReplaceKeepsClean(s[1..]);
    }
  }

  lemma {:induction false} CollapseTidies(s: string)
    requires NoControls(s)
    ensures NoControls(CollapseSpaces(s)) && NoDoubleSpaces(CollapseSpaces(s))
    ensures s != [] ==> CollapseSpaces(s) != [] && CollapseSpaces(s)[0] == s[0]
  {
    if s != [] {
      CollapseTidies(s[1..]);
    }
  }

  lemma {:induction false} CollapseKeepsTidy(s: string)
    requires NoDoubleSpaces(s)
    ensures CollapseSpaces(s) == s
  {
    if s != [] {
      assert NoDoubleSpaces(s[1..]);
      CollapseKeepsTidy(s[1..]);
    }
  }

  lemma {:induction false} TrimLeftTidies(s: string)
    requires NoControls(s) && NoDoubleSpaces(s)
    ensures Tidy(TrimLeft(s))
  {
    if s != [] && IsSpace(s[0]) {
      TrimLeftTidies(s[1..]);
    }
  }

  lemma StripControlTidies(s: string)
    ensures Tidy(StripControl(s))
    ensures StripControl(s) != [] ==> !IsSpace(StripControl(s)[|StripControl(s)| - 1])
  {
    ReplaceRemovesControls(s);
    CollapseTidies(ReplaceControls(s));
    TrimLeftTidies(CollapseSpaces(ReplaceControls(s)));
    TrimRightIsPrefix(TrimLeft(CollapseSpaces(ReplaceControls(s))));
  }

  /** On tidy text, cleaning again only drops trailing white space. */
  lemma StripControlOfTidy(s: string)
    requires Tidy(s)
    ensures StripControl(s) == TrimRight(s)
  {
    ReplaceKeepsClean(s);
    CollapseKeepsTidy(s);
  }

  // ---------------------------------------------------------------- normalising twice

  /** The cut falls just behind a white-space character. */
  predicate CutAfterSpace(s: string, limit: nat) {
    var clean := StripControl(s);
    0 < limit < |clean| && IsSpace(clean[limit - 1])
  }

  lemma NormalizeTwice(s: string, limit: nat)
    ensures Tidy(Normalize(s, limit))
    ensures Normalize(Normalize(s, limit), limit) == TrimRight(Normalize(s, limit))
    ensures Normalize(Normalize(s, limit), limit) == Normalize(s, limit) <==> !CutAfterSpace(s, limit)
  {
    StripControlTidies(s);
    var once := Normalize(s, limit);
    StripControlOfTidy(once);
    TrimRightIsPrefix(once);
  }

  /** One normalisation is not idempotent at a cut; the second one always is. */
  lemma NormalizeThrice(s: string, limit: nat)
    ensures var twice := Normalize(Normalize(s, limit), limit);
            Normalize(twice, limit) == twice
  {
    var once := Normalize(s, limit);
    var twice := Normalize(once, limit);
    NormalizeTwice(s, limit);
    NormalizeTwice(once, limit);
    TrimRightIsPrefix(once);
  }

  // ---------------------------------------------------------------- the key is unambiguous

  lemma {:induction false} FirstSeparatorSplits(a: string, b: string, x: string, y: string)
    requires NoControls(a) && NoControls(b)
    requires a + "\U{1F}" + x == b + "\U{1F}" + y
    ensures a == b && x == y
  {
    var s, t := a + "\U{1F}" + x, b + "\U{1F}" + y;
    assert s[|a|] == '\U{1F}' && t[|b|] == '\U{1F}';
    assert forall i | 0 <= i < |a| :: s[i] == a[i];
    assert forall i | 0 <= i < |b| :: t[i] == b[i];
    assert |a| == |b|;
    assert a == s[..|a|] && b == t[..|b|];
    assert x == s[|a| + 1..] && y == t[|b| + 1..];
  }

  /** Fields cannot run into each other: different normalised parts give different keys. */
  lemma KeyIsInjective(s1: Source, e1: string, l1: string, s2: Source, e2: string, l2: string)
    requires NoControls(e1) && NoControls(e2)
    ensures Joined(s1, e1, l1) == Joined(s2, e2, l2) <==> s1 == s2 && e1 == e2 && l1 == l2
  {
    if Joined(s1, e1, l1) == Joined(s2, e2, l2) {
      JoinedAssociates(s1, e1, l1);
      JoinedAssociates(s2, e2, l2);
      FirstSeparatorSplits(SourceName(s1), SourceName(s2), e1 + "\U{1F}" + l1, e2 + "\U{1F}" + l2);
      assert SourceName(s1)[0] == SourceName(s2)[0];
      FirstSeparatorSplits(e1, e2, l1, l2);
    }
  }

  lemma JoinedAssociates(s: Source, e: string, l: string)
    ensures Joined(s, e, l) == SourceName(s) + "\U{1F}" + (e + "\U{1F}" + l)
  {
  }

  /** A caller that computes the fingerprint from the raw values gets the one that is stored exactly when neither cut
      falls behind white space. The promise that they always agree does not hold without this. */
  lemma FingerprintAgreement(source: Source, errorType: string, location: string)
    ensures Fingerprint(source, errorType, location) == StoredFingerprint(source, errorType, location) <==>
            !CutAfterSpace(errorType, ERROR_TYPE_LIMIT) && !CutAfterSpace(location, LOCATION_LIMIT)
  {
    var e, l := Normalize(errorType, ERROR_TYPE_LIMIT), Normalize(location, LOCATION_LIMIT);
    NormalizeTwice(errorType, ERROR_TYPE_LIMIT);
    NormalizeTwice(e, ERROR_TYPE_LIMIT);
    NormalizeTwice(location, LOCATION_LIMIT);
    KeyIsInjective(source, e, l, source, Normalize(e, ERROR_TYPE_LIMIT), Normalize(l, LOCATION_LIMIT));
  }

  function Repeat(c: char, n: nat): (s: string)
    ensures |s| == n && forall i | 0 <= i < n :: s[i] == c
  {
    seq(n, i => c)
  }

  lemma TidyIsFixed(s: string)
    requires Tidy(s) && s != [] && !IsSpace(s[|s| - 1])
    ensures StripControl(s) == s
  {
    StripControlOfTidy(s);
  }

  /** A script path of 254 letters, a space and one more letter, with the line number the view appends: the group asked
      about is not the group recorded. */
  lemma FingerprintsCanDisagree()
    ensures var location := Repeat('a', 254) + " b:1";
            Fingerprint(Frontend, "js:Error", location) != StoredFingerprint(Frontend, "js:Error", location)
  {
    var location := Repeat('a', 254) + " b:1";
    assert location[254] == ' ' && location[257] == '1' && |location| == 258;
    assert NoDoubleSpaces(location);
    TidyIsFixed(location);
    assert CutAfterSpace(location, LOCATION_LIMIT);
    FingerprintAgreement(Frontend, "js:Error", location);
  }

  // ---------------------------------------------------------------- what cleaning keeps

  /** The characters of a text that can be seen, in order. */
  function Seen(s: string): string {
    if s == [] then []
    else (if IsControl(s[0]) || IsSpace(s[0]) then [] else [s[0]]) + Seen(s[1..])
  }

  lemma {:induction false} SeenInTwo(a: string, b: string)
    ensures Seen(a + b) == Seen(a) + Seen(b)
  {
    if a == [] {
      assert a + b == b;
    } else {
      SeenInTwo(a[1..], b);
      assert (a + b)[1..] == a[1..] + b;
    }
  }

  lemma {:induction false} ReplaceKeepsSeen(s: string)
    ensures Seen(ReplaceControls(s)) == Seen(s)
  {
    if s != [] {
      ReplaceKeepsSeen(s[1..]);
      if !IsControl(s[0]) {
        assert ReplaceControls(s)[1..] == ReplaceControls(s[1..]);
      } else if !(|s| > 1 && IsControl(s[1])) {
        assert ReplaceControls(s)[1..] == ReplaceControls(s[1..]);
      }
    }
  }

  lemma {:induction false} CollapseKeepsSeen(s: string)
    ensures Seen(CollapseSpaces(s)) == Seen(s)
  {
    if s != [] {
      CollapseKeepsSeen(s[1..]);
      if !(|s| > 1 && s[0] == ' ' && s[1] == ' ') {
        assert CollapseSpaces(s)[1..] == CollapseSpaces(s[1..]);
      }
    }
  }

  lemma {:induction false} NothingSeen(s: string)
    requires forall i | 0 <= i < |s| :: IsSpace(s[i])
    ensures Seen(s) == []
  {
    if s != [] {
      NothingSeen(s[1..]);
    }
  }

  /** Cleaning loses no character that can be seen, and keeps their order. */
  lemma CleaningKeepsWhatIsSeen(s: string)
    ensures Seen(StripControl(s)) == Seen(s)
  {
    var t := CollapseSpaces(ReplaceControls(s));
    ReplaceKeepsSeen(s);
    CollapseKeepsSeen(ReplaceControls(s));
    var front, back := StripIsExact(t);
    SeenInTwo(front + Strip(t), back);
    SeenInTwo(front, Strip(t));
    NothingSeen(front);
    NothingSeen(back);
  }

  /** The cut keeps the first characters of the cleaned text. */
  lemma NormalizeCuts(s: string, limit: nat)
    ensures Normalize(s, limit) == if |StripControl(s)| <= limit then StripControl(s) else StripControl(s)[..limit]
  {
  }

  lemma {:induction false} ReplaceInTwo(u: string, gap: string, v: string)
    requires NoControls(u) && gap != [] && (forall i | 0 <= i < |gap| :: IsControl(gap[i])) && NoControls(v)
    ensures ReplaceControls(u + gap + v) == u + " " + v
  {
    if u == [] {
      assert u + gap + v == gap + v;
      if |gap| == 1 {
        assert (gap + v)[1..] == v;
        ReplaceKeepsClean(v);
      } else {
        ReplaceInTwo([], gap[1..], v);
        assert [] + gap[1..] + v == (gap + v)[1..] && (gap + v)[1] == gap[1];
      }
    } else {
      ReplaceInTwo(u[1..], gap, v);
      assert (u + gap + v)[1..] == u[1..] + gap + v;
    }
  }

  /** Two words that control characters stand between are parted by one space. */
  lemma WordsStayApart(u: string, gap: string, v: string)
    requires Tidy(u) && u != [] && !IsSpace(u[|u| - 1]) && Tidy(v) && v != [] && !IsSpace(v[|v| - 1])
    requires gap != [] && forall i | 0 <= i < |gap| :: IsControl(gap[i])
    ensures StripControl(u + gap + v) == u + " " + v
  {
    var t := u + " " + v;
    ReplaceInTwo(u, gap, v);
    assert NoDoubleSpaces(t) by {
      forall i | 0 <= i < |t| - 1
        ensures !(t[i] == ' ' && t[i + 1] == ' ')
      {
        if i < |u| - 1 {
          assert t[i] == u[i] && t[i + 1] == u[i + 1];
        } else if i > |u| {
          assert t[i] == v[i - |u| - 1] && t[i + 1] == v[i - |u|];
        }
      }
    }
    CollapseKeepsTidy(t);
    assert t[0] == u[0] && t[|t| - 1] == v[|v| - 1];
  }
}
