/** ProcessListParser: `parse_sap_process_list` in ge-shutdown.py.

    Each line of `sapcontrol -format script ... GetProcessList` output reads
    "<index> <key>: <value>".  The parser keeps a list of field maps and, per
    matching line, either assigns the field into the entry at that index or,
    when the index is not yet a valid position, appends one empty entry and
    drops the line's field. */
module Processes {
  import opened Outcomes
  import opened Text

  /** One process's fields, from field name to value. */
  type Entry = map<string, string>

  /** The groups of one match of `\s*(\d+)\s+([a-z]+):\s+(.+)$`. */
  datatype Field = Field(idx: nat, key: string, value: string)

  /** The end of the run of characters of class `cls` that starts at `i`. */
  function Span(line: string, i: nat, cls: char -> bool): (j: nat)
    requires i <= |line|
    ensures i <= j <= |line|
    ensures forall k :: i <= k < j ==> cls(line[k])
    ensures j < |line| ==> !cls(line[j])
    decreases |line| - i
  {
    if i < |line| && cls(line[i]) then Span(line, i + 1, cls) else i
  }

  /** The pattern anchored at position `p`.  Every quantifier but the last
      `\s+` is followed by a character its class excludes, so taking each run
      whole is the only way to match; the last `\s+` gives back one character
      when the line ends in white space, because `(.+)` needs one. */
  function MatchAt(line: string, p: nat): (m: Option<Field>)
    requires p <= |line|
    ensures m.Some? ==> |m.value.key| > 0 && |m.value.value| > 0
    ensures m.Some? ==> forall k :: 0 <= k < |m.value.key| ==> IsLower(m.value.key[k])
  {
    var a := Span(line, p, IsSpace);
    var b := Span(line, a, IsDigit);
    var c := Span(line, b, IsSpace);
    var d := Span(line, c, IsLower);
    if a == b || b == c || c == d || d == |line| || line[d] != ':' then None
    else
      var e := d + 1;
      var w := Span(line, e, IsSpace);
      if w == e then None
      else if w < |line| then Some(Field(DigitsToNat(line[a..b]), line[c..d], line[w..]))
      else if w - e >= 2 then Some(Field(DigitsToNat(line[a..b]), line[c..d], line[w - 1..]))
      else None
  }

  /** `re.search`: the leftmost match from position `p` on. */
  function Search(line: string, p: nat): (m: Option<Field>)
    requires p <= |line|
    ensures m.Some? ==> |m.value.key| > 0 && |m.value.value| > 0
    decreases |line| - p
  {
    match MatchAt(line, p)
    case Some(f) => Some(f)
    case None => if p == |line| then None else Search(line, p + 1)
  }

  /** The pattern matches at no position in `[p, q)`. */
  predicate Misses(line: string, p: nat, q: nat)
    requires q <= |line| + 1
  {
    forall k :: p <= k < q ==> MatchAt(line, k).None?
  }

  /** The search finds nothing exactly when the pattern matches at no
      position from `p` on, and otherwise returns the match at the leftmost
      position where it does. */
  lemma {:induction false} SearchLeftmost(line: string, p: nat)
    requires p <= |line|
    ensures Search(line, p).None? <==> Misses(line, p, |line| + 1)
    ensures Search(line, p).Some? ==>
              exists q :: p <= q <= |line| && Misses(line, p, q) && MatchAt(line, q).Some?
                && Search(line, p) == MatchAt(line, q)
    decreases |line| - p
  {
    SearchStep(line, p);
    if MatchAt(line, p).Some? {
      assert Misses(line, p, p);
    } else if p < |line| {
      SearchLeftmost(line, p + 1);
      ShiftMisses(line, p);
    }
  }

  /** One step of the scan. */
  lemma SearchStep(line: string, p: nat)
    requires p <= |line|
    ensures MatchAt(line, p).Some? ==> Search(line, p) == MatchAt(line, p)
    ensures MatchAt(line, p).None? && p < |line| ==> Search(line, p) == Search(line, p + 1)
    ensures MatchAt(line, p).None? && p == |line| ==> Search(line, p).None? && Misses(line, p, p + 1)
  {
  }

  /** A miss at `p` extends a run of misses from `p + 1` down to `p`. */
  lemma ShiftMisses(line: string, p: nat)
    requires p < |line| && MatchAt(line, p).None?
    ensures forall q :: p + 1 <= q <= |line| + 1 ==> (Misses(line, p + 1, q) <==> Misses(line, p, q))
  {
  }

  function MatchLine(line: string): Option<Field> {
    Search(line, 0)
  }

  /** One iteration of the loop: `int(idx) not in range(-len, len)` appends
      an empty entry (and stores nothing); otherwise the field is assigned. */
  function Apply(list: seq<Entry>, line: string): (r: seq<Entry>)
    ensures |list| <= |r| <= |list| + 1
    ensures MatchLine(line).None? ==> r == list
    ensures MatchLine(line).Some? && MatchLine(line).value.idx >= |list| ==> r == list + [map[]]
    ensures MatchLine(line).Some? && MatchLine(line).value.idx < |list| ==>
              var f := MatchLine(line).value;
              && |r| == |list|
              && f.key in r[f.idx] && r[f.idx][f.key] == f.value
              && (forall key :: key != f.key ==> (key in r[f.idx] <==> key in list[f.idx]))
              && (forall key :: key != f.key && key in list[f.idx] ==> r[f.idx][key] == list[f.idx][key])
              && (forall k :: 0 <= k < |list| && k != f.idx ==> r[k] == list[k])
  {
    match MatchLine(line)
    case None => list
    case Some(f) =>
      if !(-|list| <= f.idx < |list|) then list + [map[]]
      else list[f.idx := list[f.idx][f.key := f.value]]
  }

  /** The list `parse_sap_process_list` builds from the output's lines. */
  function ParseProcesses(lines: seq<string>): seq<Entry>
    decreases |lines|
  {
    if lines == [] then [] else Apply(ParseProcesses(lines[..|lines| - 1]), lines[|lines| - 1])
  }

  /** `parse_sap_process_list`, as the loop the script runs over a list it
      appends to and assigns into. */
  method ParseSapProcessList(commandOutput: string) returns (list: seq<Entry>)
    ensures list == ParseProcesses(SplitLines(commandOutput))
  {
    var lines := SplitLines(commandOutput);
    list := [];
    var i := 0;
    while i < |lines|
      invariant 0 <= i <= |lines|
      invariant list == ParseProcesses(lines[..i])
    {
      ParseSnoc(lines[..i], lines[i]);
      assert lines[..i] + [lines[i]] == lines[..i + 1];
      ApplyCases(list, lines[i]);
      var fields := MatchLine(lines[i]);
      if fields.Some? {
        var Field(idx, key, value) := fields.value;
        if !(-|list| <= idx < |list|) {
          list := list + [map[]];
        } else {
          list := list[idx := list[idx][key := value]];
        }
      }
      i := i + 1;
    }
    assert lines[..i] == lines;
  }

  /** The three ways one line acts on the list. */
  lemma ApplyCases(list: seq<Entry>, line: string)
    ensures MatchLine(line).None? ==> Apply(list, line) == list
    ensures MatchLine(line).Some? && !(-|list| <= MatchLine(line).value.idx < |list|) ==>
              Apply(list, line) == list + [map[]]
    ensures MatchLine(line).Some? && -|list| <= MatchLine(line).value.idx < |list| ==>
              var f := MatchLine(line).value;
              Apply(list, line) == list[f.idx := list[f.idx][f.key := f.value]]
  {
  }

  // ---------------------------------------------------------------------
  // Properties of the parser

  /** The list never shrinks and gains at most one entry per line. */
  lemma {:induction false} LengthGrowth(lines: seq<string>, i: nat)
    requires i <= |lines|
    ensures |ParseProcesses(lines[..i])| <= |ParseProcesses(lines)| <= |ParseProcesses(lines[..i])| + (|lines| - i)
    decreases |lines|
  {
    if i < |lines| {
      var init := lines[..|lines| - 1];
      assert init[..i] == lines[..i];
      LengthGrowth(init, i);
    } else {
      assert lines[..i] == lines;
    }
  }

  /** Some line of `lines` carries field `f`. */
  ghost predicate Written(lines: seq<string>, f: Field) {
    exists i :: 0 <= i < |lines| && MatchLine(lines[i]) == Some(f)
  }

  /** Every field of `list` was carried by a line of `lines`. */
  ghost predicate Sourced(list: seq<Entry>, lines: seq<string>) {
    forall k, key :: 0 <= k < |list| && key in list[k] ==> Written(lines, Field(k, key, list[k][key]))
  }

  lemma ApplySourced(prev: seq<Entry>, init: seq<string>, last: string)
    requires Sourced(prev, init)
    ensures Sourced(Apply(prev, last), init + [last])
  {
    var lines, r := init + [last], Apply(prev, last);
    forall k, key | 0 <= k < |r| && key in r[k]
      ensures Written(lines, Field(k, key, r[k][key]))
    {
      var m := MatchLine(last);
      if m.Some? && m.value.idx == k && m.value.key == key && k < |prev| {
        assert lines[|init|] == last;
      } else {
        assert k < |prev| && key in prev[k] && r[k][key] == prev[k][key];
        assert Written(init, Field(k, key, prev[k][key]));
        var i :| 0 <= i < |init| && MatchLine(init[i]) == Some(Field(k, key, prev[k][key]));
        assert lines[i] == init[i];
      }
    }
  }

  /** Every field the result holds was written by some line with that index,
      key and value. */
  lemma {:induction false} FieldsComeFromLines(lines: seq<string>)
    ensures Sourced(ParseProcesses(lines), lines)
    decreases |lines|
  {
    if lines != [] {
      var init, last := lines[..|lines| - 1], lines[|lines| - 1];
      FieldsComeFromLines(init);
      ApplySourced(ParseProcesses(init), init, last);
      assert init + [last] == lines;
    }
  }

  /** A line as `sapcontrol -format script` writes it. */
  function Render(f: Field): string {
    NatToDigits(f.idx) + " " + f.key + ": " + f.value
  }

  /** A non-empty lower-case key, and a value that starts with a non-space. */
  predicate Shaped(f: Field) {
    && |f.key| > 0 && (forall k :: 0 <= k < |f.key| ==> IsLower(f.key[k]))
    && |f.value| > 0 && !IsSpace(f.value[0])
  }

  /** A field as the tool writes it: shaped, with a value that holds no line
      break (a line from `splitlines` never does, and `(.+)$` would not take
      one). */
  predicate Renderable(f: Field) {
    Shaped(f) && NoBreak(f.value)
  }

  /** A run of `n` characters of class `cls` followed by the end of the line
      or by a character outside the class is exactly one span. */
  lemma SpanRun(line: string, i: nat, n: nat, cls: char -> bool)
    requires i + n <= |line|
    requires forall k :: i <= k < i + n ==> cls(line[k])
    requires i + n == |line| || !cls(line[i + n])
    ensures Span(line, i, cls) == i + n
  {
  }

  /** Where the parts of a line rendered from `f` sit. */
  predicate Laid(line: string, f: Field) {
    var D, K := |NatToDigits(f.idx)|, |f.key|;
    && |line| == D + 3 + K + |f.value|
    && line[..D] == NatToDigits(f.idx)
    && line[D] == ' '
    && line[D + 1..D + 1 + K] == f.key
    && line[D + 1 + K] == ':' && line[D + 2 + K] == ' '
    && line[D + 3 + K..] == f.value
  }

  lemma RenderLayout(f: Field)
    ensures Laid(Render(f), f)
  {
    var ds := NatToDigits(f.idx);
    var line := Render(f);
    assert line == ds + ([' '] + (f.key + ([':', ' '] + f.value)));
  }

  /** The index digits of a laid-out line, with no space before them. */
  lemma LaidDigits(line: string, f: Field)
    requires Laid(line, f)
    ensures var D := |NatToDigits(f.idx)|;
      0 < D && Span(line, 0, IsSpace) == 0 && Span(line, 0, IsDigit) == D
  {
    var D := |NatToDigits(f.idx)|;
    assert forall k :: 0 <= k < D ==> line[k] == line[..D][k];
    SpanRun(line, 0, 0, IsSpace);
    SpanRun(line, 0, D, IsDigit);
  }

  /** The space and the key of a laid-out line. */
  lemma LaidKey(line: string, f: Field)
    requires Laid(line, f) && Shaped(f)
    ensures var D, K := |NatToDigits(f.idx)|, |f.key|;
      0 < K && Span(line, D, IsSpace) == D + 1 && Span(line, D + 1, IsLower) == D + 1 + K
  {
    var D, K := |NatToDigits(f.idx)|, |f.key|;
    assert forall k :: D + 1 <= k < D + 1 + K ==> line[k] == line[D + 1..D + 1 + K][k - D - 1];
    SpanRun(line, D, 1, IsSpace);
    SpanRun(line, D + 1, K, IsLower);
  }

  /** The single space between the colon and the value. */
  lemma LaidGap(line: string, f: Field)
    requires Laid(line, f) && Shaped(f)
    ensures var D, K := |NatToDigits(f.idx)|, |f.key|;
      D + 3 + K < |line| && line[D + 1 + K] == ':' && Span(line, D + 2 + K, IsSpace) == D + 3 + K
  {
    var D, K := |NatToDigits(f.idx)|, |f.key|;
    assert line[D + 3 + K] == line[D + 3 + K..][0];
    SpanRun(line, D + 2 + K, 1, IsSpace);
  }

  /** Matching reads back the index, key and value of a rendered line. */
  lemma RenderMatches(f: Field)
    requires Renderable(f)
    ensures MatchLine(Render(f)) == Some(f)
  {
    RenderLayout(f);
    LaidMatches(Render(f), f);
  }

  lemma LaidMatches(line: string, f: Field)
    requires Laid(line, f) && Shaped(f)
    ensures MatchLine(line) == Some(f)
  {
    var D, K := |NatToDigits(f.idx)|, |f.key|;
    DigitsRoundTrip(f.idx);
    assert Field(DigitsToNat(line[..D]), line[D + 1..D + 1 + K], line[D + 3 + K..]) == f;
    LaidDigits(line, f);
    LaidKey(line, f);
    LaidGap(line, f);
    MatchFromSpans(line, D, K);
  }

  /** A line whose runs sit at these places matches at its start. */
  lemma MatchFromSpans(line: string, D: nat, K: nat)
    requires 0 < D && 0 < K && D + 3 + K < |line|
    requires Span(line, 0, IsSpace) == 0 && Span(line, 0, IsDigit) == D
    requires Span(line, D, IsSpace) == D + 1 && Span(line, D + 1, IsLower) == D + 1 + K
    requires line[D + 1 + K] == ':' && Span(line, D + 2 + K, IsSpace) == D + 3 + K
    ensures MatchLine(line) == Some(Field(DigitsToNat(line[..D]), line[D + 1..D + 1 + K], line[D + 3 + K..]))
  {
    assert line[0..D] == line[..D];
  }

  /** Parsing one more line applies one more iteration. */
  lemma ParseSnoc(lines: seq<string>, line: string)
    ensures ParseProcesses(lines + [line]) == Apply(ParseProcesses(lines), line)
  {
    assert (lines + [line])[..|lines|] == lines;
  }

  const StartTime: Field := Field(0, "starttime", "2022 07 05 19:20:14")
  const Elapsed: Field := Field(0, "elapsedtime", "283:52:39")
  const Pid: Field := Field(0, "pid", "875626")

  /** Two lines for index 0 on an empty list: the first only opens the
      entry, and its field is lost; the second is stored. */
  lemma FirstLineOnlyOpens(f: Field, g: Field)
    requires Renderable(f) && Renderable(g) && f.idx == 0 && g.idx == 0
    ensures ParseProcesses([Render(f), Render(g)]) == [map[g.key := g.value]]
  {
    var l1, l2 := Render(f), Render(g);
    RenderMatches(f);
    RenderMatches(g);
    ParseSnoc([], l1);
    assert [] + [l1] == [l1];
    ParseSnoc([l1], l2);
    assert [l1] + [l2] == [l1, l2];
  }

  /** A third line for index 0 is stored beside the second. */
  lemma ThirdLineAssigns(f: Field, g: Field, h: Field)
    requires Renderable(f) && Renderable(g) && Renderable(h) && f.idx == 0 && g.idx == 0 && h.idx == 0
    ensures ParseProcesses([Render(f), Render(g), Render(h)]) == [map[g.key := g.value][h.key := h.value]]
  {
    var l1, l2, l3 := Render(f), Render(g), Render(h);
    FirstLineOnlyOpens(f, g);
    RenderMatches(h);
    ParseSnoc([l1, l2], l3);
    assert [l1, l2] + [l3] == [l1, l2, l3];
  }

  /** The sample lines of the process listing, as the tool writes them. */
  lemma StartLine()
    ensures Render(StartTime) == "0 starttime: 2022 07 05 19:20:14"
  {
    assert NatToDigits(0) == "0";
  }

  lemma StartRenderable()
    ensures Renderable(StartTime)
  {
  }

  lemma ElapsedLine()
    ensures Render(Elapsed) == "0 elapsedtime: 283:52:39"
  {
    assert NatToDigits(0) == "0";
  }

  lemma ElapsedRenderable()
    ensures Renderable(Elapsed)
  {
  }

  lemma PidLine()
    ensures Render(Pid) == "0 pid: 875626"
  {
    assert NatToDigits(0) == "0";
  }

  lemma PidRenderable()
    ensures Renderable(Pid)
  {
  }

  /** The three sample lines (start time, elapsed time, pid, all for index
      0) give one entry, and the start time is lost: the first line for a
      new index only opens the entry. */
  lemma SampleOutput()
    ensures ParseProcesses(["0 starttime: 2022 07 05 19:20:14", "0 elapsedtime: 283:52:39", "0 pid: 875626"])
         == [map["elapsedtime" := "283:52:39", "pid" := "875626"]]
  {
    StartLine();
    ElapsedLine();
    PidLine();
    StartRenderable();
    ElapsedRenderable();
    PidRenderable();
    ThirdLineAssigns(StartTime, Elapsed, Pid);
  }

  /** "0 pid: 875626" followed by "0 starttime: 2022 07 05 19:20:14" keeps
      only the start time. */
  lemma PidThenStartTime()
    ensures ParseProcesses(["0 pid: 875626", "0 starttime: 2022 07 05 19:20:14"])
         == [map["starttime" := "2022 07 05 19:20:14"]]
  {
    StartLine();
    PidLine();
    StartRenderable();
    PidRenderable();
    FirstLineOnlyOpens(Pid, StartTime);
  }
}
