/**
  The repository segment sanitizer shared by the tag printer and the tag sanitizer
  (app/node_manager.py, app/main/routes.py), on ASCII text.
 */
module RegistrySegment {
  import opened Text

  function LowerChar(c: char): char {
    if 'A' <= c <= 'Z' then c - 'A' + 'a' else c
  }

  // str.lower()
  function Lower(s: string): string {
    seq(|s|, i requires 0 <= i < |s| => LowerChar(s[i]))
  }

  predicate IsAlnum(c: char) {
    'a' <= c <= 'z' || '0' <= c <= '9'
  }

  // re.sub(r'[^a-z0-9]+', '-', s), `inRun` telling whether the run has already been replaced
  function ReplaceRuns(s: string, inRun: bool): string {
    if s == "" then ""
    else if IsAlnum(s[0]) then [s[0]] + ReplaceRuns(s[1..], false)
    else if inRun then ReplaceRuns(s[1..], true)
    else "-" + ReplaceRuns(s[1..], true)
  }

  // re.sub(r'-{2,}', '-', s), `inRun` telling whether the last character kept was a hyphen
  function CollapseHyphens(s: string, inRun: bool): string {
    if s == "" then ""
    else if s[0] != '-' then [s[0]] + CollapseHyphens(s[1..], false)
    else if inRun then CollapseHyphens(s[1..], true)
    else "-" + CollapseHyphens(s[1..], true)
  }

  // s.strip('-')
  function StripHyphens(s: string): string {
    if s != "" && s[0] == '-' then StripHyphens(s[1..])
    else if s != "" && s[|s| - 1] == '-' then StripHyphens(s[..|s| - 1])
    else s
  }

  function OrVm(s: string): string {
    if s == "" then "vm" else s
  }

  // _sanitize_registry_repo_segment
  function Segment(value: string): string {
    var text := Lower(Strip(value));
    if text == "" then "vm"
    else OrVm(StripHyphens(CollapseHyphens(ReplaceRuns(text, false), false)))
  }

  // Lower-case letters, digits and hyphens, no hyphen doubled.
  predicate Tidy(s: string) {
    && (forall c <- s :: IsAlnum(c) || c == '-')
    && (forall i :: 0 <= i < |s| - 1 ==> s[i] != '-' || s[i + 1] != '-')
  }

  // Tidy, not empty, and no hyphen at either end.
  predicate Clean(s: string) {
    s != "" && Tidy(s) && s[0] != '-' && s[|s| - 1] != '-'
  }

  lemma TidyTail(s: string)
    requires Tidy(s) && s != ""
    ensures Tidy(s[1..])
  {
    forall i | 0 <= i < |s[1..]| - 1 ensures s[1..][i] != '-' || s[1..][i + 1] != '-' {
      assert s[i + 1] != '-' || s[i + 2] != '-';
    }
  }

  lemma {:induction false} ReplaceRunsTidy(s: string, inRun: bool)
    ensures var r := ReplaceRuns(s, inRun); Tidy(r) && (inRun && r != "" ==> r[0] != '-')
  {
    if s != "" {
      var next := !IsAlnum(s[0]);
      ReplaceRunsTidy(s[1..], next);
      var r, rest := ReplaceRuns(s, inRun), ReplaceRuns(s[1..], next);
      if r != rest {
        assert r[1..] == rest;
        forall i | 0 <= i < |r| - 1 ensures r[i] != '-' || r[i + 1] != '-' {
          if i > 0 {
            assert r[i] == rest[i - 1] && r[i + 1] == rest[i];
          }
        }
      }
    }
  }

  lemma {:induction false} CollapseTidy(s: string, inRun: bool)
    requires Tidy(s) && (inRun && s != "" ==> s[0] != '-')
    ensures CollapseHyphens(s, inRun) == s
  {
    if s != "" {
      TidyTail(s);
      CollapseTidy(s[1..], s[0] == '-');
      assert s == [s[0]] + s[1..];
    }
  }

  lemma {:induction false} StripHyphensTidy(s: string)
    requires Tidy(s)
    ensures var r := StripHyphens(s); r == "" || Clean(r)
    ensures Clean(s) ==> StripHyphens(s) == s
  {
    if s != "" && s[0] == '-' {
      TidyTail(s);
      StripHyphensTidy(s[1..]);
    } else if s != "" && s[|s| - 1] == '-' {
      assert Tidy(s[..|s| - 1]);
      StripHyphensTidy(s[..|s| - 1]);
    }
  }

  // A sanitized segment is never empty, uses only [a-z0-9-], and has no leading, trailing or doubled hyphen.
  lemma SegmentIsClean(value: string)
    ensures Clean(Segment(value))
  {
    var r := ReplaceRuns(Lower(Strip(value)), false);
    ReplaceRunsTidy(Lower(Strip(value)), false);
    CollapseTidy(r, false);
    StripHyphensTidy(r);
  }

  lemma {:induction false} ReplaceRunsOfTidy(s: string, inRun: bool)
    requires Tidy(s) && (inRun && s != "" ==> s[0] != '-')
    ensures ReplaceRuns(s, inRun) == s
  {
    if s != "" {
      TidyTail(s);
      ReplaceRunsOfTidy(s[1..], s[0] == '-');
      assert s == [s[0]] + s[1..];
    }
  }

  // Sanitizing changes exactly the text that is not clean.
  lemma SegmentFixpoint(s: string)
    ensures Segment(s) == s <==> Clean(s)
  {
    SegmentIsClean(s);
    if Clean(s) {
      assert Lower(s) == s by {
        forall i | 0 <= i < |s| ensures LowerChar(s[i]) == s[i] {
          assert s[i] in s;
        }
      }
      assert s[0] in s && s[|s| - 1] in s;
      assert Strip(s) == s;
      ReplaceRunsOfTidy(s, false);
      CollapseTidy(s, false);
      StripHyphensTidy(s);
    }
  }

  lemma SegmentIdempotent(value: string)
    ensures Segment(Segment(value)) == Segment(value)
  {
    SegmentIsClean(value);
    SegmentFixpoint(Segment(value));
  }
}
