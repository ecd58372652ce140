/**
  `slugify` and `truncate` from the string utilities. `slugify` is the pipeline
  lower-case, trim, white-space runs to '-', drop every character that is not
  a word character, '-' or a Hangul syllable, and collapse runs of '-'.
*/
module StringUtil {
  import opened Text

  /** `[\w\-가-힣]`: the characters a slug keeps. */
  predicate IsSlugChar(c: char) {
    IsWordChar(c) || c == '-' || ('\U{AC00}' <= c <= '\U{D7A3}')
  }

  predicate AllSlugChars(s: string) {
    forall i :: 0 <= i < |s| ==> IsSlugChar(s[i])
  }

  /** No "--" anywhere in `s`. */
  predicate NoDoubleHyphen(s: string) {
    forall i :: 0 <= i < |s| - 1 ==> !(s[i] == '-' && s[i + 1] == '-')
  }

  /** `s.replace(/\s+/g, '-')`: every maximal run of white space becomes one '-'. */
  function ReplaceSpaceRuns(s: string): (r: string)
    ensures NoSpace(r)
    ensures |r| <= |s|
    ensures forall c :: c in r ==> c in s || c == '-'
    ensures NoSpace(s) ==> r == s
    ensures |s| > 0 && !IsJsSpace(s[0]) ==> |r| > 0 && r[0] == s[0]
    decreases |s|
  {
    if |s| == 0 then []
    else if IsJsSpace(s[0]) then
      var rest := TrimStart(s);
      assert |rest| < |s|;
      "-" + ReplaceSpaceRuns(rest)
    else
      assert forall c :: c in s[1..] ==> c in s;
      [s[0]] + ReplaceSpaceRuns(s[1..])
  }

  /**
    What `replace(/\s+/g, '-')` does to one run: a space-free stretch, a run of
    white space and then a non-space character become the stretch, one '-',
    and the replacement of the rest.
  */
  lemma {:induction false} ReplaceSpaceRunsStep(a: string, run: string, b: string)
    requires NoSpace(a)
    requires |run| >= 1 && forall i :: 0 <= i < |run| ==> IsJsSpace(run[i])
    requires |b| > 0 ==> !IsJsSpace(b[0])
    ensures ReplaceSpaceRuns(a + run + b) == a + "-" + ReplaceSpaceRuns(b)
    decreases |a|
  {
    if |a| == 0 {
      EmptyPrefix(a, run, b, ReplaceSpaceRuns(b));
      ReplaceLeadingRun(run, b);
    } else {
      NoSpaceTail(a);
      ReplaceSpaceRunsStep(a[1..], run, b);
      ReplaceSpaceRunsStepHead(a, run, b);
    }
  }

  lemma EmptyPrefix(a: string, run: string, b: string, z: string)
    requires |a| == 0
    ensures a + run + b == run + b && a + "-" + z == "-" + z
  {
  }

  lemma NoSpaceTail(a: string)
    requires |a| > 0 && NoSpace(a)
    ensures NoSpace(a[1..])
  {
    assert forall i :: 0 <= i < |a| - 1 ==> a[1..][i] == a[i + 1];
  }

  /** One step of the above: a non-space head is kept in front of the tail's result. */
  lemma ReplaceSpaceRunsStepHead(a: string, run: string, b: string)
    requires |a| > 0 && !IsJsSpace(a[0])
    requires ReplaceSpaceRuns(a[1..] + run + b) == a[1..] + "-" + ReplaceSpaceRuns(b)
    ensures ReplaceSpaceRuns(a + run + b) == a + "-" + ReplaceSpaceRuns(b)
  {
    ConcatHeadTail(a, run, b);
    ReplaceKeepsHead(a + run + b);
    HeadRegroup(a, ReplaceSpaceRuns(b));
  }

  lemma ConcatHeadTail(a: string, run: string, b: string)
    requires |a| > 0
    ensures (a + run + b)[0] == a[0] && (a + run + b)[1..] == a[1..] + run + b
  {
  }

  lemma ReplaceKeepsHead(s: string)
    requires |s| > 0 && !IsJsSpace(s[0])
    ensures ReplaceSpaceRuns(s) == [s[0]] + ReplaceSpaceRuns(s[1..])
  {
  }

  lemma HeadRegroup(a: string, z: string)
    requires |a| > 0
    ensures [a[0]] + (a[1..] + "-" + z) == a + "-" + z
  {
  }

  /** A leading run of white space becomes one '-'. */
  lemma ReplaceLeadingRun(run: string, b: string)
    requires |run| >= 1 && forall i :: 0 <= i < |run| ==> IsJsSpace(run[i])
    requires |b| > 0 ==> !IsJsSpace(b[0])
    ensures ReplaceSpaceRuns(run + b) == "-" + ReplaceSpaceRuns(b)
  {
    assert (run + b)[0] == run[0];
    TrimStartRun(run, b);
  }

  /** A leading character that is not white space is kept. */
  lemma ReplaceNonSpaceHead(c: char, t: string)
    requires !IsJsSpace(c)
    ensures ReplaceSpaceRuns([c] + t) == [c] + ReplaceSpaceRuns(t)
  {
    assert ([c] + t)[1..] == t;
  }

  /** `s` with every white-space character replaced by '-'. */
  function DashSpaces(s: string): (r: string)
    ensures |r| == |s|
  {
    seq(|s|, i requires 0 <= i < |s| => if IsJsSpace(s[i]) then '-' else s[i])
  }

  /** White space that never comes two in a row and does not end the text. */
  predicate SpacesSingle(s: string) {
    && (forall i :: 0 <= i < |s| - 1 ==> !(IsJsSpace(s[i]) && IsJsSpace(s[i + 1])))
    && (|s| > 0 ==> !IsJsSpace(s[|s| - 1]))
  }

  /** When every white-space run is a single character, each one simply becomes '-'. */
  lemma {:induction false} ReplaceSingleSpaces(s: string)
    requires SpacesSingle(s)
    ensures ReplaceSpaceRuns(s) == DashSpaces(s)
    decreases |s|
  {
    if |s| > 0 {
      SpacesSingleTail(s);
      ReplaceSingleSpaces(s[1..]);
      ReplaceSingleSpaceHead(s);
    }
  }

  /** One step of the above: the head character is handled, the tail already agrees. */
  lemma ReplaceSingleSpaceHead(s: string)
    requires |s| > 0 && ReplaceSpaceRuns(s[1..]) == DashSpaces(s[1..])
    requires IsJsSpace(s[0]) ==> |s| >= 2 && !IsJsSpace(s[1])
    ensures ReplaceSpaceRuns(s) == DashSpaces(s)
  {
    var t := s[1..];
    DashSpacesCons(s);
    assert s == [s[0]] + t;
    if IsJsSpace(s[0]) {
      ReplaceLeadingRun([s[0]], t);
    } else {
      ReplaceNonSpaceHead(s[0], t);
    }
  }

  lemma SpacesSingleTail(s: string)
    requires |s| > 0 && SpacesSingle(s)
    ensures SpacesSingle(s[1..])
    ensures IsJsSpace(s[0]) ==> |s| >= 2 && !IsJsSpace(s[1])
  {
    var t := s[1..];
    forall i | 0 <= i < |t| - 1 ensures !(IsJsSpace(t[i]) && IsJsSpace(t[i + 1])) {
      assert t[i] == s[i + 1] && t[i + 1] == s[i + 2];
    }
  }

  lemma DashSpacesCons(s: string)
    requires |s| > 0
    ensures DashSpaces(s) == [if IsJsSpace(s[0]) then '-' else s[0]] + DashSpaces(s[1..])
  {
  }

  /** `s.replace(/[^\w\-가-힣]+/g, '')`: the slug characters, in order. */
  function KeepSlugChars(s: string): (r: string)
    ensures AllSlugChars(r)
    ensures NoSpace(r)
    ensures |r| <= |s|
    ensures forall c :: c in r ==> c in s
    ensures AllSlugChars(s) ==> r == s
  {
    if |s| == 0 then []
    else
      assert forall c :: c in s[1..] ==> c in s;
      if IsSlugChar(s[0]) then [s[0]] + KeepSlugChars(s[1..])
      else KeepSlugChars(s[1..])
  }

  /** Dropping characters works piece by piece. */
  lemma {:induction false} KeepSlugCharsAppend(a: string, b: string)
    ensures KeepSlugChars(a + b) == KeepSlugChars(a) + KeepSlugChars(b)
    decreases |a|
  {
    if |a| == 0 {
      assert a + b == b;
    } else {
      assert (a + b)[1..] == a[1..] + b;
      KeepSlugCharsAppend(a[1..], b);
    }
  }

  /** A character that is not a slug character is dropped. */
  lemma KeepSlugCharsDrops(c: char)
    requires !IsSlugChar(c)
    ensures KeepSlugChars([c]) == ""
  {
  }

  /** `s.replace(/\-\-+/g, '-')`: every run of two or more '-' becomes one. */
  function CollapseHyphens(s: string): (r: string)
    ensures NoDoubleHyphen(r)
    ensures |r| <= |s|
    ensures forall c :: c in r ==> c in s
    ensures |s| > 0 ==> |r| > 0 && r[0] == s[0]
    ensures NoDoubleHyphen(s) ==> r == s
  {
    if |s| == 0 then []
    else
      assert forall c :: c in s[1..] ==> c in s;
      if |s| >= 2 && s[0] == '-' && s[1] == '-' then CollapseHyphens(s[1..])
      else
        var rest := CollapseHyphens(s[1..]);
        var r := [s[0]] + rest;
        assert forall i :: 1 <= i < |r| - 1 ==> r[i] == rest[i - 1] && r[i + 1] == rest[i];
        r
  }

  /** A string made only of characters of `s` and '-' inherits the character classes of `s`. */
  lemma CharsFrom(r: string, s: string)
    requires forall c :: c in r ==> c in s || c == '-'
    ensures NoUpper(s) ==> NoUpper(r)
    ensures NoSpace(s) ==> NoSpace(r)
    ensures AllSlugChars(s) ==> AllSlugChars(r)
  {
    forall i | 0 <= i < |r|
      ensures NoUpper(s) ==> !IsUpper(r[i])
      ensures NoSpace(s) ==> !IsJsSpace(r[i])
      ensures AllSlugChars(s) ==> IsSlugChar(r[i])
    {
      assert r[i] in r;
      if r[i] != '-' {
        var j :| 0 <= j < |s| && s[j] == r[i];
      }
    }
  }

  /** `slugify` */
  function Slugify(text: string): (r: string)
    ensures AllSlugChars(r)
    ensures NoUpper(r)
    ensures NoSpace(r)
    ensures NoDoubleHyphen(r)
  {
    var lower := ToLower(text);
    var trimmed := Trim(lower);
    var dashed := ReplaceSpaceRuns(trimmed);
    CharsFrom(dashed, trimmed);
    var kept := KeepSlugChars(dashed);
    CharsFrom(kept, dashed);
    TrimNoUpper(lower);
    var r := CollapseHyphens(kept);
    CharsFrom(r, kept);
    r
  }

  /** Slugifying a slug changes nothing. */
  lemma SlugifyIdempotent(text: string)
    ensures Slugify(Slugify(text)) == Slugify(text)
  {
    var t := Slugify(text);
    ToLowerIdentity(t);
    TrimIdentity(t);
  }

  /**
    The slug of words separated by single white-space characters, each word
    made of lower-case slug characters other than '-', is the words joined by
    '-': every separator becomes '-' and nothing else changes.
  */
  lemma SlugifySpacedWords(s: string)
    requires |s| > 0 ==> !IsJsSpace(s[0])
    requires SpacesSingle(s)
    requires forall i :: 0 <= i < |s| ==> IsJsSpace(s[i]) || (IsSlugChar(s[i]) && s[i] != '-' && !IsUpper(s[i]))
    ensures Slugify(s) == DashSpaces(s)
  {
    assert NoUpper(s);
    ToLowerIdentity(s);
    TrimIdentity(s);
    ReplaceSingleSpaces(s);
    DashSpacesIsSlug(s);
  }

  /** Dashing the separators of such words leaves a slug with no doubled '-'. */
  lemma DashSpacesIsSlug(s: string)
    requires SpacesSingle(s)
    requires forall i :: 0 <= i < |s| ==> IsJsSpace(s[i]) || (IsSlugChar(s[i]) && s[i] != '-' && !IsUpper(s[i]))
    ensures AllSlugChars(DashSpaces(s)) && NoDoubleHyphen(DashSpaces(s))
  {
    var d := DashSpaces(s);
    assert AllSlugChars(d);
    forall i | 0 <= i < |d| - 1 ensures !(d[i] == '-' && d[i + 1] == '-') {
      assert d[i] == '-' ==> IsJsSpace(s[i]);
      assert d[i + 1] == '-' ==> IsJsSpace(s[i + 1]);
    }
  }

  /**
    `truncate`: `text` itself when it fits, otherwise `text.slice(0, maxLength)`
    followed by "...". A negative `maxLength` counts from the end, as `slice` does.
  */
  function Truncate(text: string, maxLength: int): (r: string)
    ensures |text| <= maxLength ==> r == text
    ensures 0 <= maxLength < |text| ==> |r| == maxLength + 3 && r[..maxLength] == text[..maxLength]
    ensures maxLength < |text| ==> 3 <= |r| <= |text| + 3 && r[|r| - 3..] == "..." && r[..|r| - 3] == text[..|r| - 3]
    ensures maxLength < 0 ==> |r| == 3 + (if |text| + maxLength > 0 then |text| + maxLength else 0)
  {
    if |text| <= maxLength then text
    else
      var end := if maxLength >= 0 then maxLength
                 else if |text| + maxLength > 0 then |text| + maxLength
                 else 0;
      text[..end] + "..."
  }
}
