/** Technique tags: the slug normaliser that turns a free-text concealment
    label (`display:none`, `negative-z + overlay`) into a canonical tag. It is a
    chain of four regular-expression replacements after lower-casing:
      1. every maximal run of `:`, `/`, white space, `,` and `+` becomes `-`;
      2. every character outside `a-z`, `0-9`, `-`, `(`, `)` is dropped;
      3. every maximal run of `-` becomes a single `-`;
      4. leading and trailing `-` are removed. */
module Technique {
  import opened Util

  predicate IsSeparator(c: char) {
    c == ':' || c == '/' || c == ',' || c == '+' || IsJsSpace(c)
  }

  /** The characters a normalised tag may contain. */
  predicate IsSlugChar(c: char) {
    ('a' <= c <= 'z') || ('0' <= c <= '9') || c == '-' || c == '(' || c == ')'
  }

  /** Only characters of the slug alphabet. */
  predicate SlugChars(s: string) {
    forall i :: 0 <= i < |s| ==> IsSlugChar(s[i])
  }

  predicate NoDoubleDash(s: string) {
    forall i :: 0 <= i < |s| - 1 ==> !(s[i] == '-' && s[i + 1] == '-')
  }

  /** A canonical slug: only slug characters, no `--`, no `-` at either end. */
  predicate IsSlug(s: string) {
    && SlugChars(s)
    && NoDoubleDash(s)
    && (s == [] || (s[0] != '-' && s[|s| - 1] != '-'))
  }

  // ---------------------------------------------------------------------------
  // The four replacement steps

  /** The two character classes whose runs become a single `-`: step 1's
      separators and step 3's dashes. */
  datatype RunClass = Separators | Dashes

  predicate InRun(k: RunClass, c: char) {
    match k
    case Separators => IsSeparator(c)
    case Dashes => c == '-'
  }

  /** Drops the run of class `k` at the front of `s`. */
  function SkipRun(s: string, k: RunClass): (r: string)
    ensures |r| <= |s| && r == s[|s| - |r|..]
    ensures r == [] || !InRun(k, r[0])
    ensures |s| > 0 && InRun(k, s[0]) ==> |r| < |s|
  {
    if |s| > 0 && InRun(k, s[0]) then SkipRun(s[1..], k) else s
  }

  /** `s.replace(/[class]+/g, '-')`: every maximal run of characters of class
      `k` is replaced by a single `-`. */
  function ReplaceRuns(s: string, k: RunClass): (r: string)
    ensures |r| <= |s|
    ensures forall i :: 0 <= i < |r| ==> r[i] == '-' || (r[i] in s && !InRun(k, r[i]))
    decreases |s|
  {
    if |s| == 0 then []
    else if InRun(k, s[0]) then "-" + ReplaceRuns(SkipRun(s, k), k)
    else [s[0]] + ReplaceRuns(s[1..], k)
  }

  /** Run replacement leaves nothing only from nothing, and starts with `-`
      exactly when the input starts with a run. */
  lemma ReplaceRunsHead(s: string, k: RunClass)
    ensures var r := ReplaceRuns(s, k);
      && (r == [] <==> s == [])
      && (r != [] && InRun(k, s[0]) ==> r[0] == '-')
      && (r != [] && !InRun(k, s[0]) ==> r[0] == s[0])
  {
  }

  /** Collapsing dash runs keeps a string within the slug alphabet. */
  lemma {:induction false} CollapseDashesKeepsSlugChars(s: string)
    requires SlugChars(s)
    ensures SlugChars(ReplaceRuns(s, Dashes))
    decreases |s|
  {
    if |s| > 0 {
      var rest := if s[0] == '-' then SkipRun(s, Dashes) else s[1..];
      assert SlugChars(rest) by {
        forall i | 0 <= i < |rest| ensures IsSlugChar(rest[i]) {
          assert rest[i] == s[|s| - |rest| + i];
        }
      }
      CollapseDashesKeepsSlugChars(rest);
    }
  }

  /** After collapsing dash runs there is no `--` left. */
  lemma {:induction false} CollapseDashesNoDouble(s: string)
    ensures NoDoubleDash(ReplaceRuns(s, Dashes))
    decreases |s|
  {
    if |s| > 0 {
      var rest := if s[0] == '-' then SkipRun(s, Dashes) else s[1..];
      CollapseDashesNoDouble(rest);
      ReplaceRunsHead(rest, Dashes);
    }
  }

  /** `s.replace(/[^a-z0-9\-()]/g, '')`. */
  function KeepSlugChars(s: string): (r: string)
    ensures |r| <= |s|
    ensures SlugChars(r)
    ensures forall i :: 0 <= i < |r| ==> r[i] in s
    ensures |s| == 1 ==> (r == s <==> IsSlugChar(s[0])) && (r == [] <==> !IsSlugChar(s[0]))
  {
    if |s| == 0 then []
    else
      var tail := KeepSlugChars(s[1..]);
      assert forall c :: c in s[1..] ==> c in s;
      if IsSlugChar(s[0]) then [s[0]] + tail else tail
  }

  /** Dropping keeps order: the slug characters of `a + b` are those of `a`
      followed by those of `b`. */
  lemma {:induction false} KeepSlugCharsAppend(a: string, b: string)
    ensures KeepSlugChars(a + b) == KeepSlugChars(a) + KeepSlugChars(b)
    decreases |a|
  {
    if |a| == 0 {
      assert a + b == b;
    } else {
      assert (a + b)[0] == a[0];
      assert (a + b)[1..] == a[1..] + b;
      KeepSlugCharsAppend(a[1..], b);
    }
  }

  function DropLeadingDashes(s: string): (r: string)
    ensures |r| <= |s| && r == s[|s| - |r|..]
    ensures r == [] || r[0] != '-'
    ensures forall i :: 0 <= i < |s| - |r| ==> s[i] == '-'
  {
    if |s| > 0 && s[0] == '-' then DropLeadingDashes(s[1..]) else s
  }

  function DropTrailingDashes(s: string): (r: string)
    ensures |r| <= |s| && r == s[..|r|]
    ensures r == [] || r[|r| - 1] != '-'
    ensures forall i :: |r| <= i < |s| ==> s[i] == '-'
  {
    if |s| > 0 && s[|s| - 1] == '-' then DropTrailingDashes(s[..|s| - 1]) else s
  }

  /** `r` is `s` with only `-` removed before position `i` and after
      `i + |r|`. */
  predicate DashTrimmedAt(s: string, r: string, i: int) {
    && OccursAt(s, r, i)
    && (forall j :: 0 <= j < i ==> s[j] == '-')
    && (forall j :: i + |r| <= j < |s| ==> s[j] == '-')
  }

  lemma DashTrimmedWitness(s: string, t: string, r: string)
    requires |t| <= |s| && t == s[|s| - |t|..] && forall j :: 0 <= j < |s| - |t| ==> s[j] == '-'
    requires |r| <= |t| && r == t[..|r|] && forall j :: |r| <= j < |t| ==> t[j] == '-'
    ensures DashTrimmedAt(s, r, |s| - |t|)
  {
    var i := |s| - |t|;
    forall j | i + |r| <= j < |s| ensures s[j] == '-' {
      assert s[j] == t[j - i];
    }
    assert s[i..i + |r|] == r;
  }

  /** `s.replace(/^\-+|\-+$/g, '')`: a slice of `s` with no `-` at either end,
      obtained by removing only `-` characters at the two ends. */
  function TrimDashes(s: string): (r: string)
    ensures r == [] || (r[0] != '-' && r[|r| - 1] != '-')
    ensures exists i :: DashTrimmedAt(s, r, i)
  {
    var t := DropLeadingDashes(s);
    var r := DropTrailingDashes(t);
    var i := |s| - |t|;
    DashTrimmedWitness(s, t, r);
    r
  }

  /** Steps 2 to 4, applied to the output of step 1. */
  function SlugOfDashed(s1: string): (r: string)
    ensures IsSlug(r)
  {
    var s2 := KeepSlugChars(s1);
    var s3 := ReplaceRuns(s2, Dashes);
    CollapseDashesKeepsSlugChars(s2);
    CollapseDashesNoDouble(s2);
    var r := TrimDashes(s3);
    var i :| DashTrimmedAt(s3, r, i);
    SliceKeepsSlugShape(s3, r, i);
    r
  }

  /** `normalizeTechnique(raw)`: a falsy (empty) label is `unknown`; any other
      label becomes a canonical slug (which may be empty when the label has no
      slug characters at all). */
  function NormalizeTechnique(raw: string): (r: string)
    ensures raw == "" ==> r == "unknown"
    ensures IsSlug(r)
  {
    if raw == "" then "unknown"
    else SlugOfDashed(ReplaceRuns(Lower(raw), Separators))
  }

  /** A slice of a string made of slug characters with no `--` keeps both. */
  lemma SliceKeepsSlugShape(s: string, r: string, k: int)
    requires SlugChars(s)
    requires NoDoubleDash(s)
    requires OccursAt(s, r, k)
    ensures SlugChars(r)
    ensures NoDoubleDash(r)
  {
    assert forall i :: 0 <= i < |r| ==> r[i] == s[k + i];
  }

  // ---------------------------------------------------------------------------
  // Each step leaves a slug alone

  lemma {:induction false} LowerOfSlug(s: string)
    requires SlugChars(s)
    ensures Lower(s) == s
  {
  }

  lemma {:induction false} ReplaceRunsAbsent(s: string, k: RunClass)
    requires forall i :: 0 <= i < |s| ==> !InRun(k, s[i])
    ensures ReplaceRuns(s, k) == s
    decreases |s|
  {
    if |s| > 0 {
      ReplaceRunsAbsent(s[1..], k);
    }
  }

  lemma {:induction false} ReplaceDashRunsOfNoDoubleDash(s: string)
    requires NoDoubleDash(s)
    ensures ReplaceRuns(s, Dashes) == s
    decreases |s|
  {
    if |s| > 0 {
      if s[0] == '-' {
        assert SkipRun(s, Dashes) == s[1..] by {
          assert |s| == 1 || s[1] != '-';
          assert SkipRun(s[1..], Dashes) == s[1..];
        }
      }
      ReplaceDashRunsOfNoDoubleDash(s[1..]);
    }
  }

  lemma {:induction false} KeepSlugCharsOfSlug(s: string)
    requires SlugChars(s)
    ensures KeepSlugChars(s) == s
  {
    if |s| > 0 {
      KeepSlugCharsOfSlug(s[1..]);
    }
  }

  /** The slugs are exactly the non-empty fixed points of the normaliser; in
      particular normalising twice is normalising once. */
  lemma NormalizeFixedPoints(s: string)
    requires s != ""
    ensures NormalizeTechnique(s) == s <==> IsSlug(s)
  {
    if IsSlug(s) {
      LowerOfSlug(s);
      assert forall i :: 0 <= i < |s| ==> !IsSeparator(s[i]);
      ReplaceRunsAbsent(s, Separators);
      KeepSlugCharsOfSlug(s);
      ReplaceDashRunsOfNoDoubleDash(s);
    }
  }

  lemma NormalizeIdempotent(raw: string)
    ensures NormalizeTechnique(raw) != "" ==>
              NormalizeTechnique(NormalizeTechnique(raw)) == NormalizeTechnique(raw)
  {
    var r := NormalizeTechnique(raw);
    if r != "" {
      NormalizeFixedPoints(r);
    }
  }

  /** A maximal run of class `k` at the front becomes one `-`. */
  lemma ReplaceRunsAfterRun(run: string, b: string, k: RunClass)
    requires |run| > 0 && forall i :: 0 <= i < |run| ==> InRun(k, run[i])
    requires b == [] || !InRun(k, b[0])
    ensures ReplaceRuns(run + b, k) == "-" + ReplaceRuns(b, k)
  {
    SkipWholeRun(run, b, k);
  }

  /** A prefix with no character of class `k` passes through unchanged. */
  lemma {:induction false} ReplaceRunsAfterPlainPrefix(a: string, s: string, k: RunClass)
    requires forall i :: 0 <= i < |a| ==> !InRun(k, a[i])
    ensures ReplaceRuns(a + s, k) == a + ReplaceRuns(s, k)
    decreases |a|
  {
    if |a| > 0 {
      var tail := ReplaceRuns(s, k);
      assert (a + s)[0] == a[0];
      assert (a + s)[1..] == a[1..] + s;
      calc {
        ReplaceRuns(a + s, k);
        [a[0]] + ReplaceRuns((a + s)[1..], k);
        [a[0]] + ReplaceRuns(a[1..] + s, k);
        { ReplaceRunsAfterPlainPrefix(a[1..], s, k); }
        [a[0]] + (a[1..] + tail);
        a + tail;
      }
    } else {
      assert a + s == s;
    }
  }

  /** Skipping the run at the front of `run + b` leaves exactly `b`. */
  lemma {:induction false} SkipWholeRun(run: string, b: string, k: RunClass)
    requires forall i :: 0 <= i < |run| ==> InRun(k, run[i])
    requires b == [] || !InRun(k, b[0])
    ensures SkipRun(run + b, k) == b
    decreases |run|
  {
    if |run| > 0 {
      assert (run + b)[1..] == run[1..] + b;
      SkipWholeRun(run[1..], b, k);
    } else {
      assert run + b == b;
    }
  }

  lemma LowerOfNoUpper(s: string)
    requires forall i :: 0 <= i < |s| ==> !('A' <= s[i] <= 'Z')
    ensures Lower(s) == s
  {
  }

  lemma DashJoinIsSlug(a: string, b: string)
    requires a != [] && b != [] && IsSlug(a) && IsSlug(b)
    ensures IsSlug(a + "-" + b)
  {
    var joined := a + "-" + b;
    forall i | 0 <= i < |joined| ensures IsSlugChar(joined[i]) {
      if i < |a| { assert joined[i] == a[i]; }
      else if i > |a| { assert joined[i] == b[i - |a| - 1]; }
    }
    forall i | 0 <= i < |joined| - 1 ensures !(joined[i] == '-' && joined[i + 1] == '-') {
      if i + 1 < |a| { assert joined[i] == a[i] && joined[i + 1] == a[i + 1]; }
      else if i + 1 == |a| { assert joined[i] == a[|a| - 1]; }
      else if i == |a| { assert joined[i + 1] == b[0]; }
      else { assert joined[i] == b[i - |a| - 1] && joined[i + 1] == b[i - |a|]; }
    }
  }

  lemma {:induction false} SlugHasNoSeparator(s: string)
    requires SlugChars(s)
    ensures forall i :: 0 <= i < |s| ==> !IsSeparator(s[i])
  {
  }

  /** Two slug words around a separator run contain no upper-case letter. */
  lemma LowerOfSeparatedWords(a: string, run: string, b: string)
    requires IsSlug(a) && IsSlug(b)
    requires forall i :: 0 <= i < |run| ==> IsSeparator(run[i])
    ensures Lower(a + run + b) == a + run + b
  {
    var s := a + run + b;
    forall i | 0 <= i < |s| ensures !('A' <= s[i] <= 'Z') {
      if i < |a| { assert s[i] == a[i]; }
      else if i < |a| + |run| { assert s[i] == run[i - |a|]; }
      else { assert s[i] == b[i - |a| - |run|]; }
    }
    LowerOfNoUpper(s);
  }

  /** Step 1 applied to two words with a separator run between them. */
  lemma DashedOfSeparatedWords(a: string, run: string, b: string)
    requires IsSlug(a) && IsSlug(b)
    requires run != [] && forall i :: 0 <= i < |run| ==> IsSeparator(run[i])
    ensures ReplaceRuns(Lower(a + run + b), Separators) == a + "-" + b
  {
    LowerOfSeparatedWords(a, run, b);
    SlugHasNoSeparator(a);
    SlugHasNoSeparator(b);
    ConcatAssoc(a, run, b);
    ReplaceRunsAfterPlainPrefix(a, run + b, Separators);
    SkipWholeRun(run, b, Separators);
    ReplaceRunsAbsent(b, Separators);
    assert ReplaceRuns(run + b, Separators) == "-" + b;
    ConcatAssoc(a, "-", b);
  }

  /** A label whose step-1 output is already a non-empty slug normalises to it. */
  lemma {:induction false} NormalizeOfDashedSlug(raw: string, s1: string)
    requires raw != "" && s1 != "" && IsSlug(s1)
    requires ReplaceRuns(Lower(raw), Separators) == s1
    ensures NormalizeTechnique(raw) == s1
  {
    NormalizeFixedPoints(s1);
    LowerOfSlug(s1);
    SlugHasNoSeparator(s1);
    ReplaceRunsAbsent(s1, Separators);
  }

  /** Between two slug words, any run of separators (`:`, `/`, `,`, `+`, white
      space) becomes exactly one dash. */
  lemma SeparatorRunBecomesDash(a: string, run: string, b: string)
    requires a != [] && b != [] && IsSlug(a) && IsSlug(b)
    requires run != [] && forall i :: 0 <= i < |run| ==> IsSeparator(run[i])
    ensures NormalizeTechnique(a + run + b) == a + "-" + b
  {
    DashedOfSeparatedWords(a, run, b);
    DashJoinIsSlug(a, b);
    NormalizeOfDashedSlug(a + run + b, a + "-" + b);
  }

  /** The fixtures label one card `opacity:0`; its reports carry `opacity-0`. */
  lemma NormalizeOpacityZero(tag: string)
    requires tag == "opacity:0"
    ensures NormalizeTechnique(tag) == "opacity-0"
  {
    var a, run, b := tag[..7], tag[7..8], tag[8..];
    assert tag == a + run + b;
    assert IsSlug(a);
    assert IsSlug(b);
    SeparatorRunBecomesDash(a, run, b);
  }

  /** The fixtures' `display:none` card is reported as `display-none`. */
  lemma NormalizeDisplayNone(tag: string)
    requires tag == "display:none"
    ensures NormalizeTechnique(tag) == "display-none"
  {
    var a, run, b := tag[..7], tag[7..8], tag[8..];
    assert tag == a + run + b;
    assert IsSlug(a);
    assert IsSlug(b);
    SeparatorRunBecomesDash(a, run, b);
  }
}
