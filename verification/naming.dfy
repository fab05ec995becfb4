/** Per-spec video file names: `fullName.replace(/\s+/g, '-').toLowerCase() + '.mov'`.

    `ReplaceSpaceRuns` follows the global regular-expression replace as a left-to-right
    scan; `CollapseRuns` is an independent reference that consumes each maximal
    whitespace run at once. They are proved equal, and the scan is shown to keep every
    other character in order and to add exactly one '-' per run. */
module Naming {

  /** The characters JavaScript's `\s` class matches: WhiteSpace and LineTerminator. */
  predicate IsSpace(c: char) {
    || c == '\t' || c == '\n' || c == '\U{B}' || c == '\U{C}' || c == '\r' || c == ' '
    || c == '\U{A0}' || c == '\U{1680}' || ('\U{2000}' <= c <= '\U{200A}')
    || c == '\U{2028}' || c == '\U{2029}' || c == '\U{202F}' || c == '\U{205F}'
    || c == '\U{3000}' || c == '\U{FEFF}'
  }

  predicate NoSpace(s: string) {
    forall i :: 0 <= i < |s| ==> !IsSpace(s[i])
  }

  predicate IsUpper(c: char) {
    'A' <= c <= 'Z'
  }

  predicate NoUpper(s: string) {
    forall i :: 0 <= i < |s| ==> !IsUpper(s[i])
  }

  /** `s.replace(/\s+/g, '-')`: scanning left to right, a whitespace character that
      starts a run becomes '-', one that continues a run disappears. */
  function ReplaceSpaceRuns(s: string): (r: string)
    ensures NoSpace(r)
    ensures |r| <= |s|
    ensures |s| > 0 && IsSpace(s[|s| - 1]) ==> |r| > 0 && r[|r| - 1] == '-'
    decreases |s|
  {
    if |s| == 0 then []
    else
      var init := s[..|s| - 1];
      var c := s[|s| - 1];
      var r0 := ReplaceSpaceRuns(init);
      if !IsSpace(c) then r0 + [c]
      else if |init| > 0 && IsSpace(init[|init| - 1]) then r0
      else r0 + ['-']
  }

  /** The whitespace run at the front of `s` removed. */
  function DropSpaces(s: string): (t: string)
    ensures |t| <= |s|
    ensures t == s[|s| - |t|..]
    ensures t == [] || !IsSpace(t[0])
    ensures forall i :: 0 <= i < |s| - |t| ==> IsSpace(s[i])
  {
    if |s| > 0 && IsSpace(s[0]) then DropSpaces(s[1..]) else s
  }

  /** Reference definition: every maximal whitespace run becomes one '-'. */
  function CollapseRuns(s: string): string
    decreases |s|
  {
    if |s| == 0 then []
    else if IsSpace(s[0]) then ['-'] + CollapseRuns(DropSpaces(s))
    else [s[0]] + CollapseRuns(s[1..])
  }

  lemma {:induction false} DropSpacesSnoc(s: string, c: char)
    ensures DropSpaces(s + [c]) ==
              if DropSpaces(s) == [] then (if IsSpace(c) then [] else [c])
              else DropSpaces(s) + [c]
    decreases |s|
  {
    if |s| == 0 {
      assert s + [c] == [c];
      assert [c][1..] == [];
    } else if IsSpace(s[0]) {
      assert (s + [c])[1..] == s[1..] + [c];
      DropSpacesSnoc(s[1..], c);
    } else {
      assert (s + [c])[0] == s[0];
    }
  }

  /** The step `CollapseRuns` takes when `c` follows `s`. */
  function SnocStep(s: string, c: char, done: string): string {
    if !IsSpace(c) then done + [c]
    else if |s| > 0 && IsSpace(s[|s| - 1]) then done
    else done + ['-']
  }

  /** Appending one character to the input of `CollapseRuns` extends its output the way
      one step of the left-to-right scan does. */
  lemma {:induction false} CollapseRunsSnoc(s: string, c: char)
    ensures CollapseRuns(s + [c]) == SnocStep(s, c, CollapseRuns(s))
    decreases |s|
  {
    if |s| == 0 {
      assert s + [c] == [c];
      assert [c][1..] == [];
    } else if !IsSpace(s[0]) {
      CollapseRunsSnocWord(s, c);
    } else {
      CollapseRunsSnocSpace(s, c);
    }
  }

  lemma {:induction false} CollapseRunsSnocWord(s: string, c: char)
    requires |s| > 0 && !IsSpace(s[0])
    ensures CollapseRuns(s + [c]) == SnocStep(s, c, CollapseRuns(s))
    decreases |s|, 0
  {
    var sc := s + [c];
    var t := s[1..];
    assert sc[0] == s[0];
    assert sc[1..] == t + [c];
    assert CollapseRuns(sc) == [s[0]] + CollapseRuns(t + [c]);
    CollapseRunsSnoc(t, c);
    assert CollapseRuns(s) == [s[0]] + CollapseRuns(t);
    if |t| > 0 {
      assert t[|t| - 1] == s[|s| - 1];
    }
    assert [s[0]] + SnocStep(t, c, CollapseRuns(t)) == SnocStep(s, c, [s[0]] + CollapseRuns(t));
  }

  lemma {:induction false} CollapseRunsSnocSpace(s: string, c: char)
    requires |s| > 0 && IsSpace(s[0])
    ensures CollapseRuns(s + [c]) == SnocStep(s, c, CollapseRuns(s))
    decreases |s|, 1
  {
    var sc := s + [c];
    assert sc[0] == s[0];
    DropSpacesSnoc(s, c);
    if DropSpaces(s) == [] {
      CollapseRunsSnocAllSpace(s, c);
    } else {
      var d := DropSpaces(s);
      assert |d| < |s|;
      assert DropSpaces(sc) == d + [c];
      assert CollapseRuns(sc) == ['-'] + CollapseRuns(d + [c]);
      CollapseRunsSnoc(d, c);
      assert d[|d| - 1] == s[|s| - 1];
      assert CollapseRuns(s) == ['-'] + CollapseRuns(d);
      SnocStepPrepend(d, s, c, ['-'], CollapseRuns(d));
    }
  }

  lemma SnocStepPrepend(d: string, s: string, c: char, head: string, done: string)
    requires |d| > 0 && |s| > 0 && d[|d| - 1] == s[|s| - 1]
    ensures head + SnocStep(d, c, done) == SnocStep(s, c, head + done)
  {
  }

  lemma CollapseRunsSnocAllSpace(s: string, c: char)
    requires |s| > 0 && IsSpace(s[0]) && DropSpaces(s) == []
    ensures CollapseRuns(s + [c]) == SnocStep(s, c, CollapseRuns(s))
  {
    var sc := s + [c];
    assert sc[0] == s[0];
    assert CollapseRuns(s) == ['-'];
    DropSpacesSnoc(s, c);
    if IsSpace(c) {
      assert IsSpace(s[|s| - 1]);
    } else {
      CollapseSingleWord(c);
    }
  }

  lemma CollapseSingleWord(c: char)
    requires !IsSpace(c)
    ensures CollapseRuns([c]) == [c]
  {
    assert [c][1..] == [];
  }

  /** The scan and the run-at-a-time reference agree on every input. */
  lemma {:induction false} ReplaceSpaceRunsIsCollapse(s: string)
    ensures ReplaceSpaceRuns(s) == CollapseRuns(s)
    decreases |s|
  {
    if |s| > 0 {
      var init := s[..|s| - 1];
      assert s == init + [s[|s| - 1]];
      ReplaceSpaceRunsIsCollapse(init);
      CollapseRunsSnoc(init, s[|s| - 1]);
    }
  }

  /** The characters of `s` that are neither whitespace nor '-', in order. */
  function Significant(s: string): string
    decreases |s|
  {
    if |s| == 0 then []
    else
      var c := s[|s| - 1];
      Significant(s[..|s| - 1]) + (if IsSpace(c) || c == '-' then [] else [c])
  }

  function CountDashes(s: string): nat
    decreases |s|
  {
    if |s| == 0 then 0
    else CountDashes(s[..|s| - 1]) + (if s[|s| - 1] == '-' then 1 else 0)
  }

  /** Index `i` is where a maximal whitespace run of `s` begins. */
  predicate RunStart(s: string, i: int)
    requires 0 <= i < |s|
  {
    IsSpace(s[i]) && (i == 0 || !IsSpace(s[i - 1]))
  }

  /** The positions where maximal whitespace runs begin. */
  function RunStarts(s: string): set<nat> {
    set i: nat | i < |s| && RunStart(s, i)
  }

  lemma RunStartsSnoc(s: string, c: char)
    ensures RunStarts(s + [c]) ==
              RunStarts(s) + (if IsSpace(c) && (|s| == 0 || !IsSpace(s[|s| - 1])) then {|s|} else {})
  {
    var sc := s + [c];
    forall i: nat | i < |s|
      ensures RunStart(sc, i) == RunStart(s, i)
    {
      assert sc[i] == s[i];
      if i > 0 {
        assert sc[i - 1] == s[i - 1];
      }
    }
  }

  /** Characters other than whitespace and '-' survive the replacement, in order. */
  lemma {:induction false} ReplaceSpaceRunsKeepsOthers(s: string)
    ensures Significant(ReplaceSpaceRuns(s)) == Significant(s)
    decreases |s|
  {
    if |s| > 0 {
      var init := s[..|s| - 1];
      var c := s[|s| - 1];
      var r0 := ReplaceSpaceRuns(init);
      ReplaceSpaceRunsKeepsOthers(init);
      if !IsSpace(c) || !(|init| > 0 && IsSpace(init[|init| - 1])) {
        var x := if IsSpace(c) then '-' else c;
        assert (r0 + [x])[..|r0 + [x]| - 1] == r0;
      }
    }
  }

  lemma CountDashesSnoc(t: string, x: char)
    ensures CountDashes(t + [x]) == CountDashes(t) + (if x == '-' then 1 else 0)
  {
    assert (t + [x])[..|t + [x]| - 1] == t;
  }

  /** The run starts of `s` outnumber those of its prefix by one exactly when its last
      character starts a run. */
  lemma RunStartsCountLast(s: string)
    requires |s| > 0
    ensures var init := s[..|s| - 1];
            |RunStarts(s)| ==
              |RunStarts(init)| + (if IsSpace(s[|s| - 1]) && (|init| == 0 || !IsSpace(init[|init| - 1])) then 1 else 0)
  {
    var init := s[..|s| - 1];
    assert s == init + [s[|s| - 1]];
    RunStartsSnoc(init, s[|s| - 1]);
    assert |init| !in RunStarts(init);
  }

  /** Exactly one '-' is added for each maximal whitespace run. */
  lemma {:induction false} ReplaceSpaceRunsDashCount(s: string)
    ensures CountDashes(ReplaceSpaceRuns(s)) == CountDashes(s) + |RunStarts(s)|
    decreases |s|
  {
    if |s| == 0 {
      assert RunStarts(s) == {};
    } else {
      var init := s[..|s| - 1];
      var c := s[|s| - 1];
      var r0 := ReplaceSpaceRuns(init);
      ReplaceSpaceRunsDashCount(init);
      RunStartsCountLast(s);
      if !IsSpace(c) {
        CountDashesSnoc(r0, c);
      } else if !(|init| > 0 && IsSpace(init[|init| - 1])) {
        CountDashesSnoc(r0, '-');
      }
    }
  }

  /** A whitespace-free string is left unchanged. */
  lemma {:induction false} ReplaceSpaceRunsFixpoint(s: string)
    requires NoSpace(s)
    ensures ReplaceSpaceRuns(s) == s
    decreases |s|
  {
    if |s| > 0 {
      var init := s[..|s| - 1];
      assert NoSpace(init) by {
        forall i | 0 <= i < |init| ensures !IsSpace(init[i]) {
          assert init[i] == s[i];
        }
      }
      ReplaceSpaceRunsFixpoint(init);
      assert s == init + [s[|s| - 1]];
    }
  }

  /** ASCII case mapping as `toLowerCase` applies it to 'A'..'Z'. */
  function LowerChar(c: char): char {
    if IsUpper(c) then (c as int + 32) as char else c
  }

  /** `s.toLowerCase()`, restricted to ASCII letters. */
  function ToLower(s: string): string {
    seq(|s|, i requires 0 <= i < |s| => LowerChar(s[i]))
  }

  /** Lower-casing keeps the length, leaves no upper-case letter, keeps every other
      character in place and moves each upper-case letter down by 32 into 'a'..'z'. */
  lemma ToLowerShape(s: string)
    ensures |ToLower(s)| == |s|
    ensures NoUpper(ToLower(s))
    ensures forall i :: 0 <= i < |s| && !IsUpper(s[i]) ==> ToLower(s)[i] == s[i]
    ensures forall i :: 0 <= i < |s| && IsUpper(s[i]) ==>
              'a' <= ToLower(s)[i] <= 'z' && ToLower(s)[i] as int - 32 == s[i] as int
  {
  }

  /** Lower-casing neither creates nor removes whitespace. */
  lemma ToLowerKeepsNoSpace(s: string)
    requires NoSpace(s)
    ensures NoSpace(ToLower(s))
  {
    ToLowerShape(s);
  }

  /** A string without upper-case letters is its own lower case, so a second pass changes nothing. */
  lemma ToLowerIdempotent(s: string)
    ensures NoUpper(s) ==> ToLower(s) == s
    ensures ToLower(ToLower(s)) == ToLower(s)
  {
    ToLowerShape(s);
    ToLowerShape(ToLower(s));
  }

  const VideoExtension := ".mov"

  /** `specVideoName(result)`, taking `result.fullName`. */
  function SpecVideoName(fullName: string): string {
    ToLower(ReplaceSpaceRuns(fullName)) + VideoExtension
  }

  /** A spec video name ends in ".mov" and has no whitespace and no upper-case ASCII letter. */
  lemma SpecVideoNameShape(fullName: string)
    ensures var name := SpecVideoName(fullName);
            && |name| == |ReplaceSpaceRuns(fullName)| + 4
            && name[|name| - 4..] == ".mov"
            && NoSpace(name)
            && NoUpper(name)
  {
    var rs := ReplaceSpaceRuns(fullName);
    ToLowerShape(rs);
    ToLowerKeepsNoSpace(rs);
    WithExtension(ToLower(rs));
  }

  /** Appending the extension to a clean stem gives a clean name ending in ".mov". */
  lemma WithExtension(stem: string)
    requires NoSpace(stem) && NoUpper(stem)
    ensures var name := stem + VideoExtension;
            && |name| == |stem| + 4
            && name[|name| - 4..] == ".mov"
            && NoSpace(name)
            && NoUpper(name)
  {
    var name := stem + VideoExtension;
    assert name[|name| - 4..] == VideoExtension;
    assert NoSpace(VideoExtension) && NoUpper(VideoExtension);
    ConcatKeepsNoSpaceNoUpper(stem, VideoExtension);
  }

  lemma ConcatKeepsNoSpaceNoUpper(a: string, b: string)
    ensures NoSpace(a) && NoSpace(b) ==> NoSpace(a + b)
    ensures NoUpper(a) && NoUpper(b) ==> NoUpper(a + b)
  {
    forall i | |a| <= i < |a + b| ensures (a + b)[i] == b[i - |a|] {
    }
  }

  /** The stem before the extension is the lower-cased name with each whitespace run as one '-'. */
  lemma SpecVideoNameStem(fullName: string)
    ensures var name := SpecVideoName(fullName);
            name[..|name| - 4] == ToLower(CollapseRuns(fullName))
  {
    ReplaceSpaceRunsIsCollapse(fullName);
    var stem := ToLower(ReplaceSpaceRuns(fullName));
    assert (stem + VideoExtension)[..|stem|] == stem;
  }

  /** A name that is already whitespace-free and lower-case only gains the extension. */
  lemma SpecVideoNameOfNormalName(stem: string)
    requires NoSpace(stem) && NoUpper(stem)
    ensures SpecVideoName(stem) == stem + ".mov"
  {
    ReplaceSpaceRunsFixpoint(stem);
    ToLowerIdempotent(stem);
  }

  /** Two full names that differ only in how their whitespace runs are spelt share a video file. */
  lemma SpecVideoNameIgnoresRunShape(a: string, b: string)
    requires CollapseRuns(a) == CollapseRuns(b)
    ensures SpecVideoName(a) == SpecVideoName(b)
  {
    ReplaceSpaceRunsIsCollapse(a);
    ReplaceSpaceRunsIsCollapse(b);
  }
}
