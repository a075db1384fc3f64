/**
  `sanitizePathPart` (popup.js): trim a path component, fall back when it is
  blank, and replace every maximal run of the characters a download path may
  not hold by a single underscore.
 */
module Sanitize {
  import opened Text

  /** The characters of the class `[\\/:*?"<>|]`. */
  predicate Forbidden(c: char) {
    c == '\\' || c == '/' || c == ':' || c == '*' || c == '?' || c == '"' || c == '<' || c == '>' || c == '|'
  }

  /** A string free of forbidden characters. */
  ghost predicate Clean(s: string) {
    forall i | 0 <= i < |s| :: !Forbidden(s[i])
  }

  /** What a single character becomes in the output: itself, or `_`. */
  function Scrubbed(c: char): char {
    if Forbidden(c) then '_' else c
  }

  /** Drops the forbidden characters at the front: the rest of a run. */
  function SkipForbidden(s: string): (t: string)
    ensures |t| <= |s| && t == s[|s| - |t|..]
    ensures forall i | 0 <= i < |s| - |t| :: Forbidden(s[i])
    ensures t == [] || !Forbidden(t[0])
  {
    if s == [] || !Forbidden(s[0]) then s else SkipForbidden(s[1..])
  }

  lemma CleanConcat(a: string, b: string)
    requires Clean(a) && Clean(b)
    ensures Clean(a + b)
  {
    assert forall i | |a| <= i < |a + b| :: (a + b)[i] == b[i - |a|];
  }

  /** `s.replace(/[\\/:*?"<>|]+/g, '_')`: scanning left to right, each
      maximal run of forbidden characters is matched whole and replaced. */
  function ReplaceRuns(s: string): (r: string)
    ensures |r| <= |s|
    ensures s != [] ==> r != [] && r[0] == Scrubbed(s[0])
    decreases |s|
  {
    if s == [] then []
    else if !Forbidden(s[0]) then [s[0]] + ReplaceRuns(s[1..])
    else "_" + ReplaceRuns(SkipForbidden(s[1..]))
  }

  /** No forbidden character survives the replacement. */
  lemma {:induction false} ReplaceRunsClean(s: string)
    ensures Clean(ReplaceRuns(s))
    decreases |s|
  {
    if s != [] {
      if !Forbidden(s[0]) {
        ReplaceRunsClean(s[1..]);
        CleanConcat([s[0]], ReplaceRuns(s[1..]));
      } else {
        ReplaceRunsClean(SkipForbidden(s[1..]));
        CleanConcat("_", ReplaceRuns(SkipForbidden(s[1..])));
      }
    }
  }

  /** The last character is kept, or turned into `_` when it is forbidden. */
  lemma {:induction false} ReplaceRunsLast(s: string)
    requires s != []
    ensures var r := ReplaceRuns(s); r[|r| - 1] == Scrubbed(s[|s| - 1])
    decreases |s|
  {
    if !Forbidden(s[0]) {
      var rest := ReplaceRuns(s[1..]);
      assert ReplaceRuns(s) == [s[0]] + rest;
      if |s| > 1 {
        ReplaceRunsLast(s[1..]);
        assert s[1..][|s| - 2] == s[|s| - 1];
      }
    } else {
      var t := SkipForbidden(s[1..]);
      var rest := ReplaceRuns(t);
      assert ReplaceRuns(s) == "_" + rest;
      if t != [] {
        ReplaceRunsLast(t);
        assert t[|t| - 1] == s[1..][|s| - 2] == s[|s| - 1];
      } else if |s| > 1 {
        assert Forbidden(s[1..][|s| - 2]);
      }
    }
  }

  /** An independent definition of the same replacement, as a one-pass
      automaton remembering whether the previous character was forbidden:
      a forbidden character emits `_` only when it starts a run. */
  function Scrub(s: string, inRun: bool): string
    decreases |s|
  {
    if s == [] then []
    else if Forbidden(s[0]) then (if inRun then [] else "_") + Scrub(s[1..], true)
    else [s[0]] + Scrub(s[1..], false)
  }

  lemma {:induction false} ScrubSkipsRun(s: string)
    ensures Scrub(s, true) == Scrub(SkipForbidden(s), true)
    decreases |s|
  {
    if s != [] && Forbidden(s[0]) {
      ScrubSkipsRun(s[1..]);
    }
  }

  /** The run-matching replacement and the automaton agree on every string. */
  lemma {:induction false} ReplaceRunsIsScrub(s: string)
    ensures ReplaceRuns(s) == Scrub(s, false)
    decreases |s|
  {
    if s != [] {
      if Forbidden(s[0]) {
        var t := SkipForbidden(s[1..]);
        ScrubSkipsRun(s[1..]);
        assert Scrub(t, true) == Scrub(t, false);
        ReplaceRunsIsScrub(t);
      } else {
        ReplaceRunsIsScrub(s[1..]);
      }
    }
  }

  /** A string without forbidden characters is left as it is. */
  lemma {:induction false} ReplaceRunsOfClean(s: string)
    requires Clean(s)
    ensures ReplaceRuns(s) == s
    decreases |s|
  {
    if s != [] {
      ReplaceRunsOfClean(s[1..]);
    }
  }

  /** A whole run of forbidden characters, however long, becomes one `_`. */
  lemma ReplaceRunsOfRun(s: string)
    requires s != []
    requires forall i | 0 <= i < |s| :: Forbidden(s[i])
    ensures ReplaceRuns(s) == "_"
  {
    assert SkipForbidden(s[1..]) == [];
  }

  /** The last resort when both the input and the fallback are blank. */
  const LastResort: string := "文件"

  /** `sanitizePathPart(input, fallback)`. An absent input or fallback is `""`. */
  function SanitizePart(input: string, fallback: string): (r: string)
    ensures r != []
    ensures Clean(r)
    ensures Trimmed(r)
    ensures !Blank(input) ==> r == ReplaceRuns(Trim(input))
    ensures Blank(input) && !Blank(fallback) ==> r == ReplaceRuns(Trim(fallback))
    ensures Blank(input) && Blank(fallback) ==> r == LastResort
  {
    var trimmed := Trim(input);
    var chosen :=
      if trimmed != [] then trimmed
      else if Trim(fallback) != [] then Trim(fallback)
      else LastResort;
    LastResortFacts();
    var r := ReplaceRuns(chosen);
    ReplaceRunsClean(chosen);
    ScrubbedKeepsEnds(chosen);
    r
  }

  lemma LastResortFacts()
    ensures Clean(LastResort) && Trimmed(LastResort) && ReplaceRuns(LastResort) == LastResort
  {
    assert LastResort == ['文', '件'];
    assert !Forbidden('文') && !Forbidden('件');
    ReplaceRunsOfClean(LastResort);
  }

  /** Scrubbing never turns an end character into whitespace. */
  lemma ScrubbedKeepsEnds(s: string)
    requires s != [] && Trimmed(s)
    ensures Trimmed(ReplaceRuns(s))
  {
    var r := ReplaceRuns(s);
    ReplaceRunsLast(s);
    assert !IsSpace('_');
    assert r[0] == s[0] || r[0] == '_';
    assert r[|r| - 1] == s[|s| - 1] || r[|r| - 1] == '_';
  }

  /** A non-empty part that is already trimmed and clean is kept as it is. */
  lemma SanitizeOfClean(s: string, fallback: string)
    requires s != [] && Trimmed(s) && Clean(s)
    ensures SanitizePart(s, fallback) == s
  {
    TrimOfTrimmed(s);
    assert !Blank(s) by {
      assert !IsSpace(s[0]);
    }
    ReplaceRunsOfClean(s);
  }

  /** Sanitizing a sanitized part changes nothing, whatever the fallback. */
  lemma SanitizeIdempotent(input: string, fallback: string, fallback': string)
    ensures SanitizePart(SanitizePart(input, fallback), fallback') == SanitizePart(input, fallback)
  {
    SanitizeOfClean(SanitizePart(input, fallback), fallback');
  }
}
