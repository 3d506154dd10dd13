/** ProcessListAggregator: `get_process_list_all` in ge-shutdown.py.

    For every SID of the registry the script loops over the instance-number
    LISTS of all SIDs (the comprehension
    `[sap_instances[instance_sid]['nr'] for instance_sid in sap_instances]`
    binds its own variable), runs the process-listing command for each list
    as the outer SID's user, and overwrites that SID's result each time.
    The model keeps this behaviour as it is written.

    The command line (which embeds Python's rendering of a list) is the
    parameter `commandFor`; the process start is `Host.run`. */
module Aggregator {
  import opened Outcomes
  import opened Text
  import opened Runner
  import opened Instances
  import opened Processes

  type ProcessList = seq<Entry>

  /** One call of `execute_command(command, user)`. */
  datatype Call = Call(command: string, user: string)

  /** The registry of process lists, with the calls made to build it. */
  datatype Report = Report(lists: map<string, ProcessList>, calls: seq<Call>)

  /** One pass of the inner loop body: SID, its user, and the list of
      instance numbers the command is built from. */
  datatype Visit = Visit(sid: string, user: string, nr: seq<string>)

  const Start: Outcome<Report> := Done(Report(map[], []))

  /** The dict invariant: every listed SID has an entry. */
  predicate Listed(reg: Registry) {
    forall s :: s in reg.sids ==> s in reg.entries
  }

  /** The comprehension: the `nr` lists of all SIDs, in key order. */
  function NrLists(reg: Registry): (lists: seq<seq<string>>)
    requires Listed(reg)
    ensures |lists| == |reg.sids|
    ensures forall b :: 0 <= b < |lists| ==> lists[b] == reg.entries[reg.sids[b]].nr
  {
    seq(|reg.sids|, j requires 0 <= j < |reg.sids| => reg.entries[reg.sids[j]].nr)
  }

  /** The pass for SID number `a` and the list of SID number `b`. */
  function PairVisit(reg: Registry, a: nat, b: nat): (v: Visit)
    requires Listed(reg) && a < |reg.sids| && b < |reg.sids|
    ensures v.sid == reg.sids[a] && v.nr == NrLists(reg)[b]
  {
    Visit(reg.sids[a], reg.entries[reg.sids[a]].user, reg.entries[reg.sids[b]].nr)
  }

  /** Run the command for `nr` as `user` and parse what it prints. */
  function RunVisit(host: Host, commandFor: seq<string> -> string, v: Visit): (o: Outcome<ProcessList>)
    ensures !o.Raised?
  {
    var r := Execute(commandFor(v.nr), Some(v.user), host);
    if r.Done? then Done(ParseProcesses(SplitLines(r.value.output))) else Exit(r.code)
  }

  /** The script's pass: `execute_command` on the built command, then
      `parse_sap_process_list` on its output. */
  function Pass(host: Host, commandFor: seq<string> -> string): Visit -> Outcome<ProcessList> {
    v => RunVisit(host, commandFor, v)
  }

  /** How a failed pass ends the whole run: the exit (or exception) of the
      first failing command. */
  function Halt(o: Outcome<ProcessList>): (r: Outcome<Report>)
    requires !o.Done?
    ensures o.Exit? ==> r == Exit(o.code)
    ensures o.Raised? ==> r == Raised(o.reason)
  {
    if o.Exit? then Exit(o.code) else Raised(o.reason)
  }

  /** One pass of the inner loop: the SID's entry is overwritten. */
  function Step(acc: Outcome<Report>, pass: Visit -> Outcome<ProcessList>, commandFor: seq<string> -> string, v: Visit): Outcome<Report> {
    if !acc.Done? then acc
    else
      var o := pass(v);
      if o.Done? then Done(Report(acc.value.lists[v.sid := o.value], acc.value.calls + [Call(commandFor(v.nr), v.user)]))
      else Halt(o)
  }

  /** The inner loop over `lists` for one SID, from `acc`; the first
      failure ends the run. */
  function RunRow(acc: Outcome<Report>, pass: Visit -> Outcome<ProcessList>, commandFor: seq<string> -> string,
                  sid: string, user: string, lists: seq<seq<string>>): Outcome<Report>
    decreases |lists|
  {
    if lists == [] then acc
    else
      Step(RunRow(acc, pass, commandFor, sid, user, lists[..|lists| - 1]),
           pass, commandFor, Visit(sid, user, lists[|lists| - 1]))
  }

  /** The outer loop over the first `i` SIDs. */
  function RunSids(reg: Registry, pass: Visit -> Outcome<ProcessList>, commandFor: seq<string> -> string, i: nat): Outcome<Report>
    requires Listed(reg) && i <= |reg.sids|
  {
    if i == 0 then Start
    else
      var sid := reg.sids[i - 1];
      RunRow(RunSids(reg, pass, commandFor, i - 1), pass, commandFor, sid, reg.entries[sid].user, NrLists(reg))
  }

  /** What `get_process_list_all` returns for a registry. */
  function ProcessListAll(reg: Registry, host: Host, commandFor: seq<string> -> string): Outcome<Report>
    requires Listed(reg)
  {
    RunSids(reg, Pass(host, commandFor), commandFor, |reg.sids|)
  }

  /** `get_process_list_all`: the nested loops, each pass running the
      command and parsing its output. */
  method GetProcessListAll(reg: Registry, host: Host, commandFor: seq<string> -> string) returns (r: Outcome<Report>)
    requires Listed(reg)
    ensures r == ProcessListAll(reg, host, commandFor)
  {
    r := Aggregate(reg, Pass(host, commandFor), commandFor);
  }

  /** The nested loops the script runs, for any pass. */
  method Aggregate(reg: Registry, pass: Visit -> Outcome<ProcessList>, commandFor: seq<string> -> string)
    returns (r: Outcome<Report>)
    requires Listed(reg)
    ensures r == RunSids(reg, pass, commandFor, |reg.sids|)
  {
    var result: map<string, ProcessList> := map[];
    var calls: seq<Call> := [];
    var i := 0;
    while i < |reg.sids|
      invariant 0 <= i <= |reg.sids|
      invariant RunSids(reg, pass, commandFor, i) == Done(Report(result, calls))
    {
      var row := RunInnerLoop(reg, pass, commandFor, i, Report(result, calls));
      NextSid(reg, pass, commandFor, i, row);
      if !row.Done? {
        return row;
      }
      result, calls := row.value.lists, row.value.calls;
      i := i + 1;
    }
    r := Done(Report(result, calls));
  }

  /** The inner loop for SID number `i`, continuing the report `rep` built
      by the SIDs before it. */
  method RunInnerLoop(reg: Registry, pass: Visit -> Outcome<ProcessList>, commandFor: seq<string> -> string, i: nat, rep: Report)
    returns (r: Outcome<Report>)
    requires Listed(reg) && i < |reg.sids|
    ensures var sid := reg.sids[i];
      r == RunRow(Done(rep), pass, commandFor, sid, reg.entries[sid].user, NrLists(reg))
  {
    var sid := reg.sids[i];
    var user := reg.entries[sid].user;
    var lists := NrLists(reg);
    var result, calls := rep.lists, rep.calls;
    var j := 0;
    while j < |lists|
      invariant 0 <= j <= |lists|
      invariant RunRow(Done(rep), pass, commandFor, sid, user, lists[..j]) == Done(Report(result, calls))
    {
      var command := commandFor(lists[j]);
      var out := pass(Visit(sid, user, lists[j]));
      RowSnoc(Done(rep), pass, commandFor, sid, user, lists, j);
      if !out.Done? {
        RowStopped(Done(rep), pass, commandFor, sid, user, lists, j + 1);
        return Halt(out);
      }
      result := result[sid := out.value];
      calls := calls + [Call(command, user)];
      j := j + 1;
    }
    assert lists[..j] == lists;
    r := Done(Report(result, calls));
  }

  // ---------------------------------------------------------------------
  // Properties of the aggregation

  /** The inner loop's next pass is one more step. */
  lemma RowSnoc(acc: Outcome<Report>, pass: Visit -> Outcome<ProcessList>, commandFor: seq<string> -> string,
                sid: string, user: string, lists: seq<seq<string>>, j: nat)
    requires j < |lists|
    ensures RunRow(acc, pass, commandFor, sid, user, lists[..j + 1])
         == Step(RunRow(acc, pass, commandFor, sid, user, lists[..j]), pass, commandFor, Visit(sid, user, lists[j]))
  {
    assert lists[..j + 1][..j] == lists[..j];
  }

  /** The inner loop of SID number `i` extends the run over the SIDs before
      it; if it fails, the whole run fails the same way. */
  lemma NextSid(reg: Registry, pass: Visit -> Outcome<ProcessList>, commandFor: seq<string> -> string,
                i: nat, row: Outcome<Report>)
    requires Listed(reg) && i < |reg.sids|
    requires RunSids(reg, pass, commandFor, i).Done?
    requires var sid := reg.sids[i];
      row == RunRow(RunSids(reg, pass, commandFor, i), pass, commandFor, sid, reg.entries[sid].user, NrLists(reg))
    ensures RunSids(reg, pass, commandFor, i + 1) == row
    ensures !row.Done? ==> RunSids(reg, pass, commandFor, |reg.sids|) == row
  {
    if !row.Done? {
      StopsAt(reg, pass, commandFor, i + 1, |reg.sids|);
    }
  }

  /** A failed run stays failed through an inner loop. */
  lemma {:induction false} FailureStays(acc: Outcome<Report>, pass: Visit -> Outcome<ProcessList>, commandFor: seq<string> -> string,
                                        sid: string, user: string, lists: seq<seq<string>>)
    requires !acc.Done?
    ensures RunRow(acc, pass, commandFor, sid, user, lists) == acc
    decreases |lists|
  {
    if lists != [] { FailureStays(acc, pass, commandFor, sid, user, lists[..|lists| - 1]); }
  }

  /** A failure after the first `j` lists ends the inner loop the same way. */
  lemma {:induction false} RowStopped(acc: Outcome<Report>, pass: Visit -> Outcome<ProcessList>, commandFor: seq<string> -> string,
                                      sid: string, user: string, lists: seq<seq<string>>, j: nat)
    requires j <= |lists|
    requires !RunRow(acc, pass, commandFor, sid, user, lists[..j]).Done?
    ensures RunRow(acc, pass, commandFor, sid, user, lists) == RunRow(acc, pass, commandFor, sid, user, lists[..j])
    decreases |lists|
  {
    if j == |lists| {
      assert lists[..j] == lists;
    } else {
      var init := lists[..|lists| - 1];
      assert init[..j] == lists[..j];
      RowStopped(acc, pass, commandFor, sid, user, init, j);
    }
  }

  /** Once the run over the first `i` SIDs has failed, the run over the
      first `m` fails the same way. */
  lemma {:induction false} StopsAt(reg: Registry, pass: Visit -> Outcome<ProcessList>, commandFor: seq<string> -> string, i: nat, m: nat)
    requires Listed(reg) && i <= m <= |reg.sids|
    requires !RunSids(reg, pass, commandFor, i).Done?
    ensures RunSids(reg, pass, commandFor, m) == RunSids(reg, pass, commandFor, i)
    decreases m
  {
    if i < m {
      StopsAt(reg, pass, commandFor, i, m - 1);
      var sid := reg.sids[m - 1];
      FailureStays(RunSids(reg, pass, commandFor, m - 1), pass, commandFor, sid, reg.entries[sid].user, NrLists(reg));
    }
  }

  /** The calls one inner loop makes: one per list, all as the SID's user. */
  function RowCalls(commandFor: seq<string> -> string, user: string, lists: seq<seq<string>>): (cs: seq<Call>)
    ensures |cs| == |lists|
  {
    seq(|lists|, b requires 0 <= b < |lists| => Call(commandFor(lists[b]), user))
  }

  /** Every list's command goes through for `sid`. */
  predicate RowGoes(pass: Visit -> Outcome<ProcessList>, sid: string, user: string, lists: seq<seq<string>>) {
    forall b :: 0 <= b < |lists| ==> pass(Visit(sid, user, lists[b])).Done?
  }

  /** Every (SID, list) pair's command goes through for the first `i` SIDs. */
  predicate AllGo(reg: Registry, pass: Visit -> Outcome<ProcessList>, i: nat)
    requires Listed(reg) && i <= |reg.sids|
  {
    forall a :: 0 <= a < i ==> RowGoes(pass, reg.sids[a], reg.entries[reg.sids[a]].user, NrLists(reg))
  }

  /** What the first `i` SIDs end up holding: the outcome of the pass for
      the LAST SID's list, run as the SID's own user. */
  function Expected(reg: Registry, pass: Visit -> Outcome<ProcessList>, i: nat): map<string, Outcome<ProcessList>>
    requires Listed(reg) && i <= |reg.sids|
  {
    map s | s in reg.sids[..i] :: pass(Visit(s, reg.entries[s].user, NrLists(reg)[|reg.sids| - 1]))
  }

  /** The process lists of a report, each seen as a pass that returned it. */
  function Returned(lists: map<string, ProcessList>): (m: map<string, Outcome<ProcessList>>)
    ensures m.Keys == lists.Keys
    ensures forall s :: s in m ==> m[s] == Done(lists[s])
  {
    map s | s in lists :: Done(lists[s])
  }

  /** One run of the inner loop for `sid`: it goes through exactly when every
      list's command does; then the SID holds the parse of the LAST list's
      output and one call per list has been made. */
  lemma {:induction false} RowEffect(rep: Report, pass: Visit -> Outcome<ProcessList>, commandFor: seq<string> -> string,
                                     sid: string, user: string, lists: seq<seq<string>>)
    ensures var r := RunRow(Done(rep), pass, commandFor, sid, user, lists);
      && (r.Done? <==> RowGoes(pass, sid, user, lists))
      && (r.Done? && |lists| > 0 ==>
            r.value.lists == rep.lists[sid := pass(Visit(sid, user, lists[|lists| - 1])).value])
      && (r.Done? && |lists| == 0 ==> r.value.lists == rep.lists)
      && (r.Done? ==> r.value.calls == rep.calls + RowCalls(commandFor, user, lists))
    decreases |lists|
  {
    if lists == [] {
      assert rep.calls + RowCalls(commandFor, user, lists) == rep.calls;
    } else {
      var init, x := lists[..|lists| - 1], lists[|lists| - 1];
      RowEffect(rep, pass, commandFor, sid, user, init);
      if RowGoes(pass, sid, user, lists) {
        assert forall b :: 0 <= b < |init| ==> init[b] == lists[b];
        assert pass(Visit(sid, user, lists[|lists| - 1])).Done?;
        assert RowCalls(commandFor, user, lists) == RowCalls(commandFor, user, init) + [Call(commandFor(x), user)];
      } else {
        var b :| 0 <= b < |lists| && !pass(Visit(sid, user, lists[b])).Done?;
        if b < |init| { assert init[b] == lists[b]; }
      }
    }
  }

  /** The run over the first `i` SIDs goes through exactly when every
      (SID, list) pair's command does. */
  lemma {:induction false} OuterGoes(reg: Registry, pass: Visit -> Outcome<ProcessList>, commandFor: seq<string> -> string, i: nat)
    requires Listed(reg) && i <= |reg.sids|
    ensures RunSids(reg, pass, commandFor, i).Done? <==> AllGo(reg, pass, i)
    decreases i
  {
    if i == 0 {
      return;
    }
    OuterGoes(reg, pass, commandFor, i - 1);
    SidGoes(reg, pass, commandFor, i);
    AllGoSnoc(reg, pass, i);
  }

  /** The run over `i` SIDs goes through exactly when the run over `i - 1`
      does and every list's command goes through for SID number `i - 1`. */
  lemma SidGoes(reg: Registry, pass: Visit -> Outcome<ProcessList>, commandFor: seq<string> -> string, i: nat)
    requires Listed(reg) && 0 < i <= |reg.sids|
    ensures var sid := reg.sids[i - 1];
      RunSids(reg, pass, commandFor, i).Done?
      <==> (RunSids(reg, pass, commandFor, i - 1).Done? && RowGoes(pass, sid, reg.entries[sid].user, NrLists(reg)))
  {
    var sid := reg.sids[i - 1];
    var user, lists := reg.entries[sid].user, NrLists(reg);
    var prev := RunSids(reg, pass, commandFor, i - 1);
    if prev.Done? {
      RowEffect(prev.value, pass, commandFor, sid, user, lists);
    } else {
      FailureStays(prev, pass, commandFor, sid, user, lists);
    }
  }

  lemma AllGoSnoc(reg: Registry, pass: Visit -> Outcome<ProcessList>, i: nat)
    requires Listed(reg) && 0 < i <= |reg.sids|
    ensures var sid := reg.sids[i - 1];
      AllGo(reg, pass, i) <==> AllGo(reg, pass, i - 1) && RowGoes(pass, sid, reg.entries[sid].user, NrLists(reg))
  {
  }

  /** When the run over the first `i` SIDs goes through, those SIDs hold
      `Expected` and `i * n` calls have been made. */
  lemma {:induction false} OuterContents(reg: Registry, pass: Visit -> Outcome<ProcessList>, commandFor: seq<string> -> string, i: nat)
    requires Listed(reg) && i <= |reg.sids|
    requires RunSids(reg, pass, commandFor, i).Done?
    ensures var r := RunSids(reg, pass, commandFor, i);
      Returned(r.value.lists) == Expected(reg, pass, i) && |r.value.calls| == i * |reg.sids|
    decreases i
  {
    var n := |reg.sids|;
    if i == 0 {
      assert Expected(reg, pass, 0) == map[];
      return;
    }
    var sid := reg.sids[i - 1];
    var prev := RunSids(reg, pass, commandFor, i - 1);
    SidStep(reg, pass, commandFor, i);
    OuterContents(reg, pass, commandFor, i - 1);
    var r := RunSids(reg, pass, commandFor, i);
    var o := pass(Visit(sid, reg.entries[sid].user, NrLists(reg)[n - 1]));
    ReturnedUpdate(prev.value.lists, sid, o.value);
    ExpectedSnoc(reg, pass, i);
    MulStep(i, n);
  }

  /** The inner loop of SID number `i - 1`, when it goes through, follows a
      run that went through, overwrites that SID with the pass for the last
      list and makes `n` calls. */
  lemma SidStep(reg: Registry, pass: Visit -> Outcome<ProcessList>, commandFor: seq<string> -> string, i: nat)
    requires Listed(reg) && 0 < i <= |reg.sids|
    requires RunSids(reg, pass, commandFor, i).Done?
    ensures var sid, n := reg.sids[i - 1], |reg.sids|;
      var prev, r := RunSids(reg, pass, commandFor, i - 1), RunSids(reg, pass, commandFor, i);
      && prev.Done?
      && pass(Visit(sid, reg.entries[sid].user, NrLists(reg)[n - 1])).Done?
      && r.value.lists == prev.value.lists[sid := pass(Visit(sid, reg.entries[sid].user, NrLists(reg)[n - 1])).value]
      && |r.value.calls| == |prev.value.calls| + n
  {
    var sid := reg.sids[i - 1];
    var user, lists := reg.entries[sid].user, NrLists(reg);
    var prev := RunSids(reg, pass, commandFor, i - 1);
    if !prev.Done? {
      FailureStays(prev, pass, commandFor, sid, user, lists);
    } else {
      RowEffect(prev.value, pass, commandFor, sid, user, lists);
    }
  }

  lemma ReturnedUpdate(lists: map<string, ProcessList>, k: string, v: ProcessList)
    ensures Returned(lists[k := v]) == Returned(lists)[k := Done(v)]
  {
  }

  lemma ExpectedSnoc(reg: Registry, pass: Visit -> Outcome<ProcessList>, i: nat)
    requires Listed(reg) && 0 < i <= |reg.sids|
    ensures var sid := reg.sids[i - 1];
      Expected(reg, pass, i)
        == Expected(reg, pass, i - 1)[sid := pass(Visit(sid, reg.entries[sid].user, NrLists(reg)[|reg.sids| - 1]))]
  {
    assert reg.sids[..i] == reg.sids[..i - 1] + [reg.sids[i - 1]];
  }

  lemma MulStep(i: nat, n: nat)
    requires 0 < i
    ensures (i - 1) * n + n == i * n
  {
  }

  /** A pass that never raises gives a run that never raises. */
  lemma {:induction false} RowNeverRaises(acc: Outcome<Report>, pass: Visit -> Outcome<ProcessList>, commandFor: seq<string> -> string,
                                          sid: string, user: string, lists: seq<seq<string>>)
    requires !acc.Raised? && forall v :: !pass(v).Raised?
    ensures !RunRow(acc, pass, commandFor, sid, user, lists).Raised?
    decreases |lists|
  {
    if lists != [] { RowNeverRaises(acc, pass, commandFor, sid, user, lists[..|lists| - 1]); }
  }

  lemma {:induction false} NeverRaises(reg: Registry, pass: Visit -> Outcome<ProcessList>, commandFor: seq<string> -> string, i: nat)
    requires Listed(reg) && i <= |reg.sids|
    requires forall v :: !pass(v).Raised?
    ensures !RunSids(reg, pass, commandFor, i).Raised?
    decreases i
  {
    if i > 0 {
      NeverRaises(reg, pass, commandFor, i - 1);
      var sid := reg.sids[i - 1];
      RowNeverRaises(RunSids(reg, pass, commandFor, i - 1), pass, commandFor, sid, reg.entries[sid].user, NrLists(reg));
    }
  }

  /** Every pass before (SID `a`, list `b`) in the loops' order goes through. */
  predicate GoesBefore(reg: Registry, pass: Visit -> Outcome<ProcessList>, a: nat, b: nat)
    requires Listed(reg)
  {
    forall a', b' :: 0 <= a' < |reg.sids| && 0 <= b' < |reg.sids| && (a' < a || (a' == a && b' < b)) ==>
      pass(PairVisit(reg, a', b')).Done?
  }

  /** A failed inner loop ends the way its first failing pass does. */
  lemma {:induction false} RowFails(rep: Report, pass: Visit -> Outcome<ProcessList>, commandFor: seq<string> -> string,
                                    sid: string, user: string, lists: seq<seq<string>>)
    ensures var r := RunRow(Done(rep), pass, commandFor, sid, user, lists);
      !r.Done? ==>
        exists b ::
          && 0 <= b < |lists|
          && (forall b' :: 0 <= b' < b ==> pass(Visit(sid, user, lists[b'])).Done?)
          && !pass(Visit(sid, user, lists[b])).Done?
          && r == Halt(pass(Visit(sid, user, lists[b])))
    decreases |lists|
  {
    if lists == [] {
      return;
    }
    var init := lists[..|lists| - 1];
    var prev := RunRow(Done(rep), pass, commandFor, sid, user, init);
    assert forall b :: 0 <= b < |init| ==> init[b] == lists[b];
    if !prev.Done? {
      RowFails(rep, pass, commandFor, sid, user, init);
    } else {
      RowEffect(rep, pass, commandFor, sid, user, init);
    }
  }

  /** A failed run over the first `i` SIDs ends the way its first failing
      pass, in the loops' order, does. */
  lemma {:induction false} OuterFails(reg: Registry, pass: Visit -> Outcome<ProcessList>, commandFor: seq<string> -> string, i: nat)
    requires Listed(reg) && i <= |reg.sids|
    ensures var r := RunSids(reg, pass, commandFor, i);
      !r.Done? ==>
        exists a, b ::
          && 0 <= a < i && 0 <= b < |reg.sids|
          && GoesBefore(reg, pass, a, b)
          && !pass(PairVisit(reg, a, b)).Done?
          && r == Halt(pass(PairVisit(reg, a, b)))
    decreases i
  {
    if i == 0 {
      return;
    }
    var sid := reg.sids[i - 1];
    var prev := RunSids(reg, pass, commandFor, i - 1);
    if !prev.Done? {
      OuterFails(reg, pass, commandFor, i - 1);
      FailureStays(prev, pass, commandFor, sid, reg.entries[sid].user, NrLists(reg));
    } else if !RunSids(reg, pass, commandFor, i).Done? {
      LastSidFails(reg, pass, commandFor, i - 1);
    }
  }

  /** When the first `a` SIDs went through and SID number `a` does not,
      the run ends the way that SID's first failing pass does. */
  lemma LastSidFails(reg: Registry, pass: Visit -> Outcome<ProcessList>, commandFor: seq<string> -> string, a: nat)
    requires Listed(reg) && a < |reg.sids|
    requires RunSids(reg, pass, commandFor, a).Done? && !RunSids(reg, pass, commandFor, a + 1).Done?
    ensures exists b ::
      && 0 <= b < |reg.sids|
      && GoesBefore(reg, pass, a, b)
      && !pass(PairVisit(reg, a, b)).Done?
      && RunSids(reg, pass, commandFor, a + 1) == Halt(pass(PairVisit(reg, a, b)))
  {
    var sid := reg.sids[a];
    var user, lists := reg.entries[sid].user, NrLists(reg);
    OuterGoes(reg, pass, commandFor, a);
    RowFails(RunSids(reg, pass, commandFor, a).value, pass, commandFor, sid, user, lists);
    var b :| 0 <= b < |lists|
      && (forall b' :: 0 <= b' < b ==> pass(Visit(sid, user, lists[b'])).Done?)
      && !pass(Visit(sid, user, lists[b])).Done?
      && RunSids(reg, pass, commandFor, a + 1) == Halt(pass(Visit(sid, user, lists[b])));
    assert PairVisit(reg, a, b) == Visit(sid, user, lists[b]);
    forall b' | 0 <= b' < b
      ensures pass(PairVisit(reg, a, b')).Done?
    {
      assert PairVisit(reg, a, b') == Visit(sid, user, lists[b']);
    }
    GoesBeforeRow(reg, pass, a, b);
  }

  /** The passes before (SID `a`, list `b`): all of the first `a` SIDs'
      and the first `b` of SID `a`'s. */
  lemma GoesBeforeRow(reg: Registry, pass: Visit -> Outcome<ProcessList>, a: nat, b: nat)
    requires Listed(reg) && a < |reg.sids| && b < |reg.sids|
    requires AllGo(reg, pass, a)
    requires forall b' :: 0 <= b' < b ==> pass(PairVisit(reg, a, b')).Done?
    ensures GoesBefore(reg, pass, a, b)
  {
    forall a', b' | 0 <= a' < |reg.sids| && 0 <= b' < |reg.sids| && (a' < a || (a' == a && b' < b))
      ensures pass(PairVisit(reg, a', b')).Done?
    {
      if a' < a {
        assert RowGoes(pass, reg.sids[a'], reg.entries[reg.sids[a']].user, NrLists(reg));
      }
    }
  }

  /** What `get_process_list_all` produces: it returns exactly when none of
      the |SIDs|² commands exits, and otherwise exits with the code of the
      first command that does; every SID of the
      registry then holds the parse of the output of the command built from
      the LAST SID's instance-number list, run as the SID's own user; and
      |SIDs|² calls were made. */
  lemma AggregateResult(reg: Registry, host: Host, commandFor: seq<string> -> string)
    requires Listed(reg)
    ensures var r, n := ProcessListAll(reg, host, commandFor), |reg.sids|;
      && (r.Done? <==> forall a, b :: 0 <= a < n && 0 <= b < n ==>
            RunVisit(host, commandFor,
                     Visit(reg.sids[a], reg.entries[reg.sids[a]].user, reg.entries[reg.sids[b]].nr)).Done?)
      && (!r.Done? ==> r.Exit?)
      && (!r.Done? ==>
            exists a, b ::
              && 0 <= a < n && 0 <= b < n
              && (forall a', b' :: 0 <= a' < n && 0 <= b' < n && (a' < a || (a' == a && b' < b)) ==>
                    RunVisit(host, commandFor, PairVisit(reg, a', b')).Done?)
              && RunVisit(host, commandFor, PairVisit(reg, a, b)).Exit?
              && r == Exit(RunVisit(host, commandFor, PairVisit(reg, a, b)).code))
      && (r.Done? ==> forall s :: s in r.value.lists <==> s in reg.sids)
      && (r.Done? ==> forall s :: s in r.value.lists ==>
            Done(r.value.lists[s])
              == RunVisit(host, commandFor, Visit(s, reg.entries[s].user, reg.entries[reg.sids[n - 1]].nr)))
      && (r.Done? ==> |r.value.calls| == n * n)
  {
    var n, pass := |reg.sids|, Pass(host, commandFor);
    var r := ProcessListAll(reg, host, commandFor);
    OuterGoes(reg, pass, commandFor, n);
    AllGoMeans(reg, host, commandFor);
    NeverRaises(reg, pass, commandFor, n);
    FirstExit(reg, host, commandFor);
    if r.Done? {
      AllContents(reg, pass, commandFor);
      if n > 0 {
        var lists, last := r.value.lists, NrLists(reg)[n - 1];
        assert last == reg.entries[reg.sids[n - 1]].nr;
        forall s | s in lists
          ensures Done(lists[s]) == RunVisit(host, commandFor, Visit(s, reg.entries[s].user, last))
        {
          assert Done(lists[s]) == pass(Visit(s, reg.entries[s].user, last));
        }
      }
    }
  }

  /** A failed `get_process_list_all` exits with the code of the first
      command, in the loops' order (SIDs, then lists), that exits. */
  lemma FirstExit(reg: Registry, host: Host, commandFor: seq<string> -> string)
    requires Listed(reg)
    ensures var r, n := ProcessListAll(reg, host, commandFor), |reg.sids|;
      !r.Done? ==>
        exists a, b ::
          && 0 <= a < n && 0 <= b < n
          && (forall a', b' :: 0 <= a' < n && 0 <= b' < n && (a' < a || (a' == a && b' < b)) ==>
                RunVisit(host, commandFor, PairVisit(reg, a', b')).Done?)
          && RunVisit(host, commandFor, PairVisit(reg, a, b)).Exit?
          && r == Exit(RunVisit(host, commandFor, PairVisit(reg, a, b)).code)
  {
    var n, pass := |reg.sids|, Pass(host, commandFor);
    var r := ProcessListAll(reg, host, commandFor);
    OuterFails(reg, pass, commandFor, n);
    if !r.Done? {
      var a, b :| 0 <= a < n && 0 <= b < n
        && GoesBefore(reg, pass, a, b)
        && !pass(PairVisit(reg, a, b)).Done?
        && r == Halt(pass(PairVisit(reg, a, b)));
      forall a', b' | 0 <= a' < n && 0 <= b' < n && (a' < a || (a' == a && b' < b))
        ensures RunVisit(host, commandFor, PairVisit(reg, a', b')).Done?
      {
        assert pass(PairVisit(reg, a', b')).Done?;
      }
    }
  }

  /** The whole run, for any pass: when it goes through, its keys are the
      registry's SIDs, each holding the pass for the LAST SID's list, and
      |SIDs|² calls were made. */
  lemma AllContents(reg: Registry, pass: Visit -> Outcome<ProcessList>, commandFor: seq<string> -> string)
    requires Listed(reg)
    requires RunSids(reg, pass, commandFor, |reg.sids|).Done?
    ensures var r, n := RunSids(reg, pass, commandFor, |reg.sids|).value, |reg.sids|;
      && (forall s :: s in r.lists <==> s in reg.sids)
      && (n > 0 ==> forall s :: s in r.lists ==>
            s in reg.entries && Done(r.lists[s]) == pass(Visit(s, reg.entries[s].user, NrLists(reg)[n - 1])))
      && |r.calls| == n * n
  {
    var n := |reg.sids|;
    var r := RunSids(reg, pass, commandFor, n).value;
    OuterContents(reg, pass, commandFor, n);
    assert reg.sids[..n] == reg.sids;
    forall s | s in r.lists
      ensures s in reg.entries && Done(r.lists[s]) == pass(Visit(s, reg.entries[s].user, NrLists(reg)[n - 1]))
    {
      assert Returned(r.lists)[s] == Expected(reg, pass, n)[s];
    }
  }

  lemma AllGoMeans(reg: Registry, host: Host, commandFor: seq<string> -> string)
    requires Listed(reg)
    ensures var n := |reg.sids|;
      AllGo(reg, Pass(host, commandFor), n) <==> forall a, b :: 0 <= a < n && 0 <= b < n ==>
        RunVisit(host, commandFor, Visit(reg.sids[a], reg.entries[reg.sids[a]].user, reg.entries[reg.sids[b]].nr)).Done?
  {
    var n, pass, lists := |reg.sids|, Pass(host, commandFor), NrLists(reg);
    forall a, b | 0 <= a < n && 0 <= b < n
      ensures pass(Visit(reg.sids[a], reg.entries[reg.sids[a]].user, lists[b]))
           == RunVisit(host, commandFor, Visit(reg.sids[a], reg.entries[reg.sids[a]].user, reg.entries[reg.sids[b]].nr))
    {
    }
  }
}
