/** InstanceListParser: `parse_command_output` in ge-shutdown.py.

    Each line of the instance listing that starts with " Inst Info : " names
    one instance as "<SID> - <NN>".  The parser builds a registry from SID
    to its instance numbers (in encounter order) and its operating user
    (the SID in lower case followed by "adm").  The registry keeps the SIDs
    in insertion order, as a Python dict iterates its keys. */
module Instances {
  import opened Outcomes
  import opened Text

  /** The prefix a line must start with to be read at all. */
  const Marker: string := " Inst Info : "
  /** The literal start of the pattern `Inst Info : ([A-Z][A-Z\d][A-Z\d]) - (\d\d)`. */
  const Needle: string := "Inst Info : "
  /** Length of a match of that pattern. */
  const MatchLength: nat := 20

  datatype Instance = Instance(nr: seq<string>, user: string)
  datatype Registry = Registry(sids: seq<string>, entries: map<string, Instance>)

  const EmptyRegistry: Registry := Registry([], map[])

  predicate IsSid(s: string) {
    |s| == 3 && IsUpper(s[0]) && (IsUpper(s[1]) || IsDigit(s[1])) && (IsUpper(s[2]) || IsDigit(s[2]))
  }

  predicate IsInstanceNumber(s: string) {
    |s| == 2 && IsDigit(s[0]) && IsDigit(s[1])
  }

  /** The operating user of an instance: `sid.lower() + 'adm'`. */
  function UserOf(sid: string): (u: string)
    ensures |u| == |sid| + 3 && u[|sid|..] == "adm"
  {
    Lower(sid) + "adm"
  }

  /** Distinct SIDs never share an operating user. */
  lemma UserOfInjective(a: string, b: string)
    requires IsSid(a) && IsSid(b) && a != b
    ensures UserOf(a) != UserOf(b)
  {
    var k :| 0 <= k < 3 && a[k] != b[k];
    assert UserOf(a)[k] == LowerChar(a[k]) && UserOf(b)[k] == LowerChar(b[k]);
  }

  /** A system called SAP is operated by the default account itself, so its
      commands go through the privilege-group check rather than plain sudo. */
  lemma SapSidIsDefaultUser()
    ensures UserOf("SAP") == "sapadm"
  {
    assert Lower("SAP") == "sap" by {
      assert LowerChar('S') == 's' && LowerChar('A') == 'a' && LowerChar('P') == 'p';
    }
  }

  /** Does the pattern match at position `p` of `line`? */
  predicate MatchesAt(line: string, p: nat) {
    && p + MatchLength <= |line|
    && line[p..p + 12] == Needle
    && IsSid(line[p + 12..p + 15])
    && line[p + 15..p + 18] == " - "
    && IsInstanceNumber(line[p + 18..p + 20])
  }

  /** `re.search` for the instance pattern from position `p` on: the groups
      (SID, instance number) of the leftmost match. */
  function SearchInstance(line: string, p: nat): (m: Option<(string, string)>)
    requires p <= |line|
    ensures m.Some? ==> IsSid(m.value.0) && IsInstanceNumber(m.value.1)
    decreases |line| - p
  {
    if MatchesAt(line, p) then Some((line[p + 12..p + 15], line[p + 18..p + 20]))
    else if p == |line| then None
    else SearchInstance(line, p + 1)
  }

  /** The search finds the leftmost position where the pattern matches, and
      finds nothing only when it matches nowhere from `p` on. */
  lemma {:induction false} SearchInstanceLeftmost(line: string, p: nat)
    requires p <= |line|
    ensures SearchInstance(line, p).None? <==> forall q :: p <= q <= |line| ==> !MatchesAt(line, q)
    ensures SearchInstance(line, p).Some? ==>
              exists q :: p <= q <= |line| && MatchesAt(line, q)
                && (forall q' :: p <= q' < q ==> !MatchesAt(line, q'))
                && SearchInstance(line, p).value == (line[q + 12..q + 15], line[q + 18..q + 20])
    decreases |line| - p
  {
    if !MatchesAt(line, p) && p < |line| {
      SearchInstanceLeftmost(line, p + 1);
      if SearchInstance(line, p).Some? {
        var q :| p + 1 <= q <= |line| && MatchesAt(line, q)
                && (forall q' :: p + 1 <= q' < q ==> !MatchesAt(line, q'))
                && SearchInstance(line, p + 1).value == (line[q + 12..q + 15], line[q + 18..q + 20]);
        assert forall q' :: p <= q' < q ==> !MatchesAt(line, q');
      }
    }
  }

  predicate IsMarkerLine(line: string) {
    StartsWith(line, Marker)
  }

  /** A marker line the pattern does not match: `.groups()` is then called
      on None and raises. */
  predicate IsMalformed(line: string) {
    IsMarkerLine(line) && SearchInstance(line, 0).None?
  }

  /** `setdefault(sid, {nr: [], user: ...})` followed by `['nr'].append(nr)`. */
  function Register(reg: Registry, sid: string, nr: string): Registry {
    if sid in reg.entries then
      Registry(reg.sids, reg.entries[sid := reg.entries[sid].(nr := reg.entries[sid].nr + [nr])])
    else
      Registry(reg.sids + [sid], reg.entries[sid := Instance([nr], UserOf(sid))])
  }

  /** One iteration of the loop over the lines. */
  function AddLine(reg: Registry, line: string): Outcome<Registry> {
    if !IsMarkerLine(line) then Done(reg)
    else match SearchInstance(line, 0)
      case Some((sid, nr)) => Done(Register(reg, sid, nr))
      case None => Raised(line)
  }

  /** The loop over `lines` started from `start`. */
  function ParseFrom(start: Outcome<Registry>, lines: seq<string>): Outcome<Registry>
    decreases |lines|
  {
    if lines == [] then start
    else match ParseFrom(start, lines[..|lines| - 1])
      case Done(reg) => AddLine(reg, lines[|lines| - 1])
      case other => other
  }

  /** The registry `parse_command_output` builds from the listing's lines. */
  function ParseInstances(lines: seq<string>): Outcome<Registry> {
    ParseFrom(Done(EmptyRegistry), lines)
  }

  /** `parse_command_output`, as the loop the script runs. */
  method ParseCommandOutput(commandOutput: string) returns (r: Outcome<Registry>)
    ensures r == ParseInstances(SplitLines(commandOutput))
  {
    var lines := SplitLines(commandOutput);
    var sids: seq<string> := [];
    var entries: map<string, Instance> := map[];
    var i := 0;
    while i < |lines|
      invariant 0 <= i <= |lines|
      invariant ParseInstances(lines[..i]) == Done(Registry(sids, entries))
    {
      var line := lines[i];
      ghost var before := Registry(sids, entries);
      assert lines[..i + 1][..i] == lines[..i] && lines[..i + 1][i] == line;
      assert ParseInstances(lines[..i + 1]) == AddLine(before, line);
      if !IsMarkerLine(line) {
        i := i + 1;
        continue;
      }
      var found := SearchInstance(line, 0);
      if found.None? {
        ParseAfterRaised(lines[..i + 1], lines[i + 1..], line);
        assert lines[..i + 1] + lines[i + 1..] == lines;
        return Raised(line);
      }
      var (sid, nr) := found.value;
      if sid !in entries {
        sids := sids + [sid];
        entries := entries[sid := Instance([], UserOf(sid))];
        assert [] + [nr] == [nr];
      }
      entries := entries[sid := entries[sid].(nr := entries[sid].nr + [nr])];
      assert Registry(sids, entries) == Register(before, sid, nr);
      i := i + 1;
    }
    assert lines[..i] == lines;
    r := Done(Registry(sids, entries));
  }

  // ---------------------------------------------------------------------
  // Properties of the parser

  /** Parsing a concatenation is parsing the left part, then continuing
      with the right part from where it stopped. */
  lemma {:induction false} ParseAppend(start: Outcome<Registry>, a: seq<string>, b: seq<string>)
    ensures ParseFrom(start, a + b) == ParseFrom(ParseFrom(start, a), b)
    decreases |b|
  {
    if b == [] {
      assert a + b == a;
    } else {
      assert (a + b)[..|a + b| - 1] == a + b[..|b| - 1];
      ParseAppend(start, a, b[..|b| - 1]);
    }
  }

  /** Once a line has raised, the rest of the listing is not read. */
  lemma {:induction false} ParseAfterRaised(a: seq<string>, b: seq<string>, line: string)
    requires ParseInstances(a) == Raised(line)
    ensures ParseInstances(a + b) == Raised(line)
  {
    ParseAppend(Done(EmptyRegistry), a, b);
    StaysStopped(Raised(line), b);
  }

  lemma {:induction false} StaysStopped(start: Outcome<Registry>, b: seq<string>)
    requires !start.Done?
    ensures ParseFrom(start, b) == start
    decreases |b|
  {
    if b != [] { StaysStopped(start, b[..|b| - 1]); }
  }

  /** Lines that do not start with the marker change nothing. */
  lemma IgnoresOtherLines(reg: Registry, line: string)
    requires !IsMarkerLine(line)
    ensures AddLine(reg, line) == Done(reg)
  {
  }

  /** A line " Inst Info : <SID> - <NN>..." registers exactly that SID and
      instance number, whatever follows the two digits. */
  lemma {:induction false} ReadsMarkerLine(reg: Registry, sid: string, nr: string, rest: string)
    requires IsSid(sid) && IsInstanceNumber(nr)
    ensures AddLine(reg, Marker + sid + " - " + nr + rest) == Done(Register(reg, sid, nr))
  {
    var line := Marker + sid + " - " + nr + rest;
    var tail := sid + " - " + nr + rest;
    assert line == Marker + tail;
    assert IsMarkerLine(line);
    assert line[0] == ' ';
    assert !MatchesAt(line, 0) by { assert Needle[0] == 'I'; }
    assert line[1..13] == Needle;
    assert line[13..] == tail;
    assert tail[..3] == sid && tail[3..6] == " - " && tail[6..8] == nr;
    assert line[13..16] == sid && line[16..19] == " - " && line[19..21] == nr;
    assert MatchesAt(line, 1);
    assert SearchInstance(line, 0) == SearchInstance(line, 1);
    assert SearchInstance(line, 1) == Some((sid, nr));
  }

  /** The registry invariant: SIDs listed once each, in the order of the
      keys; every entry holds at least one well-formed instance number and
      the operating user derived from its SID. */
  ghost predicate WellFormed(reg: Registry) {
    && (forall i, j :: 0 <= i < j < |reg.sids| ==> reg.sids[i] != reg.sids[j])
    && (forall s :: s in reg.entries <==> s in reg.sids)
    && (forall s :: s in reg.entries ==>
          && IsSid(s)
          && reg.entries[s].user == UserOf(s)
          && |reg.entries[s].nr| > 0
          && (forall k :: 0 <= k < |reg.entries[s].nr| ==> IsInstanceNumber(reg.entries[s].nr[k])))
  }

  /** The (SID, instance number) pairs of the well-formed marker lines, in order. */
  function Found(lines: seq<string>): seq<(string, string)>
    decreases |lines|
  {
    if lines == [] then []
    else
      var last := lines[|lines| - 1];
      Found(lines[..|lines| - 1]) +
        (if IsMarkerLine(last) && SearchInstance(last, 0).Some? then [SearchInstance(last, 0).value] else [])
  }

  /** The instance numbers `found` lists for `sid`, in order, duplicates kept. */
  function NumbersOf(found: seq<(string, string)>, sid: string): seq<string>
    decreases |found|
  {
    if found == [] then []
    else NumbersOf(found[..|found| - 1], sid) +
           (if found[|found| - 1].0 == sid then [found[|found| - 1].1] else [])
  }

  lemma {:induction false} NumbersOfAbsent(found: seq<(string, string)>, sid: string)
    requires forall k :: 0 <= k < |found| ==> found[k].0 != sid
    ensures NumbersOf(found, sid) == []
    decreases |found|
  {
    if found != [] { NumbersOfAbsent(found[..|found| - 1], sid); }
  }

  /** The SIDs `found` lists, each once, in the order of their first
      appearance: the key order of a dict filled by `setdefault`. */
  function FirstSeen(found: seq<(string, string)>): seq<string>
    decreases |found|
  {
    if found == [] then []
    else
      var prev, sid := FirstSeen(found[..|found| - 1]), found[|found| - 1].0;
      if sid in prev then prev else prev + [sid]
  }

  /** `reg` is the registry that the pairs `found` describe. */
  ghost predicate Describes(reg: Registry, found: seq<(string, string)>) {
    && WellFormed(reg)
    && reg.sids == FirstSeen(found)
    && (forall s :: s in reg.entries <==> exists k :: 0 <= k < |found| && found[k].0 == s)
    && (forall s :: s in reg.entries ==> reg.entries[s].nr == NumbersOf(found, s))
  }

  lemma RegisterWellFormed(prev: Registry, sid: string, nr: string)
    requires WellFormed(prev)
    requires IsSid(sid) && IsInstanceNumber(nr)
    ensures WellFormed(Register(prev, sid, nr))
  {
    if sid !in prev.entries {
      RegisterNewWellFormed(prev, sid, nr);
    } else {
      var inst := Register(prev, sid, nr).entries[sid];
      assert inst.nr == prev.entries[sid].nr + [nr];
      assert forall k :: 0 <= k < |inst.nr| ==> IsInstanceNumber(inst.nr[k]);
    }
  }

  /** A new SID goes at the end of the key order, once. */
  lemma RegisterNewWellFormed(prev: Registry, sid: string, nr: string)
    requires WellFormed(prev) && sid !in prev.entries
    requires IsSid(sid) && IsInstanceNumber(nr)
    ensures WellFormed(Register(prev, sid, nr))
  {
    var reg := Register(prev, sid, nr);
    assert forall i :: 0 <= i < |prev.sids| ==> prev.sids[i] in prev.entries;
    assert forall i :: 0 <= i < |prev.sids| ==> reg.sids[i] == prev.sids[i];
  }

  lemma RegisterKeys(prev: Registry, found: seq<(string, string)>, sid: string, nr: string)
    requires forall s :: s in prev.entries <==> exists k :: 0 <= k < |found| && found[k].0 == s
    ensures var reg, f := Register(prev, sid, nr), found + [(sid, nr)];
      forall s :: s in reg.entries <==> exists k :: 0 <= k < |f| && f[k].0 == s
  {
    var reg, f := Register(prev, sid, nr), found + [(sid, nr)];
    forall s
      ensures s in reg.entries <==> exists k :: 0 <= k < |f| && f[k].0 == s
    {
      if s == sid { assert f[|f| - 1].0 == s; }
      else if exists k :: 0 <= k < |f| && f[k].0 == s {
        var k :| 0 <= k < |f| && f[k].0 == s;
        assert k < |found| && found[k].0 == s;
      } else {
        assert forall k :: 0 <= k < |found| ==> found[k] == f[k];
      }
    }
  }

  lemma RegisterNumbers(prev: Registry, found: seq<(string, string)>, sid: string, nr: string)
    requires forall s :: s in prev.entries <==> exists k :: 0 <= k < |found| && found[k].0 == s
    requires forall s :: s in prev.entries ==> prev.entries[s].nr == NumbersOf(found, s)
    ensures var reg, f := Register(prev, sid, nr), found + [(sid, nr)];
      forall s :: s in reg.entries ==> reg.entries[s].nr == NumbersOf(f, s)
  {
    var reg, f := Register(prev, sid, nr), found + [(sid, nr)];
    assert f[..|f| - 1] == found && f[|f| - 1] == (sid, nr);
    forall s | s in reg.entries
      ensures reg.entries[s].nr == NumbersOf(f, s)
    {
      if s == sid && sid !in prev.entries {
        NumbersOfAbsent(found, sid);
      }
    }
  }

  /** A SID seen before keeps its place in the key order; a new one goes last. */
  lemma RegisterOrder(prev: Registry, found: seq<(string, string)>, sid: string, nr: string)
    requires WellFormed(prev) && prev.sids == FirstSeen(found)
    ensures Register(prev, sid, nr).sids == FirstSeen(found + [(sid, nr)])
  {
    var f := found + [(sid, nr)];
    assert f[..|f| - 1] == found;
  }

  lemma RegisterDescribes(prev: Registry, found: seq<(string, string)>, sid: string, nr: string)
    requires Describes(prev, found)
    requires IsSid(sid) && IsInstanceNumber(nr)
    ensures Describes(Register(prev, sid, nr), found + [(sid, nr)])
  {
    RegisterWellFormed(prev, sid, nr);
    RegisterOrder(prev, found, sid, nr);
    RegisterKeys(prev, found, sid, nr);
    RegisterNumbers(prev, found, sid, nr);
  }

  /** What a successful parse produces: a well-formed registry whose keys are
      exactly the SIDs of the marker lines, each holding the instance numbers
      of its own marker lines in input order. */
  lemma {:induction false} ParseContents(lines: seq<string>)
    requires ParseInstances(lines).Done?
    ensures Describes(ParseInstances(lines).value, Found(lines))
    decreases |lines|
  {
    if lines == [] {
      return;
    }
    var init, last := lines[..|lines| - 1], lines[|lines| - 1];
    assert ParseInstances(init).Done?;
    ParseContents(init);
    var prev := ParseInstances(init).value;
    assert ParseInstances(lines) == AddLine(prev, last);
    if IsMarkerLine(last) {
      var (sid, nr) := SearchInstance(last, 0).value;
      assert Found(lines) == Found(init) + [(sid, nr)];
      RegisterDescribes(prev, Found(init), sid, nr);
    } else {
      assert Found(lines) == Found(init);
    }
  }

  /** A listing fails to parse exactly when it holds a marker line without
      the SID/number pattern; the script never exits by itself here. */
  lemma {:induction false} ParseFailsIff(lines: seq<string>)
    ensures !ParseInstances(lines).Exit?
    ensures ParseInstances(lines).Raised? <==> exists k :: 0 <= k < |lines| && IsMalformed(lines[k])
    decreases |lines|
  {
    if lines != [] {
      var init, last := lines[..|lines| - 1], lines[|lines| - 1];
      ParseFailsIff(init);
      if exists k :: 0 <= k < |lines| && IsMalformed(lines[k]) {
        var k :| 0 <= k < |lines| && IsMalformed(lines[k]);
        if k < |init| { assert IsMalformed(init[k]); }
      }
      if exists k :: 0 <= k < |init| && IsMalformed(init[k]) {
        var k :| 0 <= k < |init| && IsMalformed(init[k]);
        assert IsMalformed(lines[k]);
      }
    }
  }

  /** The three-line listing with instances AB1 00, AB1 01 and CD2 00. */
  lemma TwoSystemsExample()
    ensures ParseInstances([" Inst Info : AB1 - 00", " Inst Info : AB1 - 01", " Inst Info : CD2 - 00"])
         == Done(Registry(["AB1", "CD2"],
                          map["AB1" := Instance(["00", "01"], "ab1adm"),
                              "CD2" := Instance(["00"], "cd2adm")]))
  {
    assert IsSid("AB1") && IsSid("CD2") && IsInstanceNumber("00") && IsInstanceNumber("01");
    TwoSystemsLines("AB1", "CD2", "00", "01");
    TwoSystemsRegistry();
    assert Marker + "AB1" + " - " + "00" == " Inst Info : AB1 - 00";
    assert Marker + "AB1" + " - " + "01" == " Inst Info : AB1 - 01";
    assert Marker + "CD2" + " - " + "00" == " Inst Info : CD2 - 00";
  }

  lemma TwoSystemsLines(a: string, b: string, x: string, y: string)
    requires IsSid(a) && IsSid(b) && IsInstanceNumber(x) && IsInstanceNumber(y)
    ensures ParseInstances([Marker + a + " - " + x, Marker + a + " - " + y, Marker + b + " - " + x])
         == Done(Register(Register(Register(EmptyRegistry, a, x), a, y), b, x))
  {
    var l1, l2, l3 := Marker + a + " - " + x, Marker + a + " - " + y, Marker + b + " - " + x;
    var r1 := Register(EmptyRegistry, a, x);
    var r2 := Register(r1, a, y);
    ParseMarkerSnoc([], EmptyRegistry, a, x);
    assert [] + [l1] == [l1];
    ParseMarkerSnoc([l1], r1, a, y);
    assert [l1] + [l2] == [l1, l2];
    ParseMarkerSnoc([l1, l2], r2, b, x);
    assert [l1, l2] + [l3] == [l1, l2, l3];
  }

  /** One more marker line registers its SID and instance number. */
  lemma ParseMarkerSnoc(lines: seq<string>, reg: Registry, sid: string, nr: string)
    requires ParseInstances(lines) == Done(reg)
    requires IsSid(sid) && IsInstanceNumber(nr)
    ensures ParseInstances(lines + [Marker + sid + " - " + nr]) == Done(Register(reg, sid, nr))
  {
    var line := Marker + sid + " - " + nr;
    ReadsMarkerLine(reg, sid, nr, "");
    assert line + "" == line;
    assert (lines + [line])[..|lines|] == lines;
  }

  lemma TwoSystemsRegistry()
    ensures Register(Register(Register(EmptyRegistry, "AB1", "00"), "AB1", "01"), "CD2", "00")
         == Registry(["AB1", "CD2"],
                     map["AB1" := Instance(["00", "01"], "ab1adm"), "CD2" := Instance(["00"], "cd2adm")])
  {
    assert UserOf("AB1") == "ab1adm" by { assert Lower("AB1") == "ab1"; }
    assert UserOf("CD2") == "cd2adm" by { assert Lower("CD2") == "cd2"; }
    var r1 := Register(EmptyRegistry, "AB1", "00");
    assert r1 == Registry(["AB1"], map["AB1" := Instance(["00"], "ab1adm")]);
    assert ["00"] + ["01"] == ["00", "01"];
    assert Register(r1, "AB1", "01") == Registry(["AB1"], map["AB1" := Instance(["00", "01"], "ab1adm")]);
    assert ["AB1"] + ["CD2"] == ["AB1", "CD2"];
  }
}
