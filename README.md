# ge-shutdown: a verified model of the command pipeline

`ge-shutdown.py` is a small script meant to stop SAP systems on a host. It
lists the SAP instances with `saphostctrl -function ListInstances`, parses
that listing into a registry from SID (system identifier) to instance
numbers and operating user, then asks `sapcontrol -function GetProcessList`
for the processes of the instances and parses those listings into lists of
field maps. Every command runs under an identity chosen by a privilege
decision: as it is, or prefixed with `sudo -n -u <user>`. The exit code of
each command is classified as either "hand the output back" or "terminate
the program".

This project models that pipeline in Dafny and proves what it does:

- `outcomes.dfy` (module `Outcomes`): `Option`, and `Outcome<T>`. An
  `Outcome` is `Done(value)` when a step returns normally, `Exit(code)` when
  it calls `exit`/`sys.exit`, and `Raised(reason)` when an exception escapes.
- `text.dfy` (module `Text`): `str.splitlines`, `str.lower` on SID letters,
  the `\s`/`\d` classes and decimal conversion (`int`/`str`).
- `privilege.dfy` (module `Privilege`): `is_user_in_group` and
  `build_command`. The current user and the group table are parameters.
- `runner.dfy` (module `Runner`): `execute_command`. Starting the process is
  the injected function `Host.run`. The model covers the choice of user,
  the privilege decision and the classification of the exit code.
- `instances.dfy` (module `Instances`): `parse_command_output`, as a
  specification fold over the lines and as the imperative loop proved equal
  to it.
- `processes.dfy` (module `Processes`): `parse_sap_process_list`, the same
  way. It keeps the script's behaviour of dropping the field on the first
  line for each new index.
- `aggregator.dfy` (module `Aggregator`): `get_process_list_all`, as two
  nested folds and as the nested loops proved equal to them. It keeps the
  script's behaviour: every SID ends up holding the parse for the last
  SID's instance-number list, and |SIDs|² commands run.

Each parser and the aggregator has a pure specification function (a fold
over a prefix). Each also has a method with the loop the script runs, whose
`ensures` ties its result to that function. The properties are lemmas
about the functions.

Two behaviours of the code are kept exactly as written:

- A process-list line whose index is not yet a position of the list only
  appends an empty entry, and its field is dropped. So "0 pid: 875626"
  followed by "0 starttime: 2022 07 05 19:20:14" keeps only the start time
  (see `Processes.FirstLineOnlyOpens` and `Processes.PidThenStartTime`).
- Each SID ends up with the listing for the last SID's whole `nr` list, run
  as the SID's own user (see `Aggregator.AggregateResult`).

## Model

| member | source | states |
|---|---|---|
| Privilege.IsUserInGroup | ge-shutdown.py:11-17 | exits with code 1 exactly when the group is unknown, never raises, and otherwise returns whether the user is one of the group's listed members |
| Privilege.BuildCommand | ge-shutdown.py:21-25 | the command comes back unchanged exactly when the target is `sapadm`, the group `sapsys` exists and the current user is listed in it; it exits with 1 exactly when the target is `sapadm` and `sapsys` is missing; any other result is `sudo -n -u <user> <command>` |
| Privilege.EscalationNamesTarget | ge-shutdown.py:24 | an escalated line starts with the sudo flags, names the target user right after them, followed by a space, and ends with the original command |
| Runner.Classify | ge-shutdown.py:37-48 | exit codes 0, 3 and 4 are handed back unchanged; every other code terminates the program with that same code; nothing raises |
| Runner.EffectiveUser | ge-shutdown.py:31-34 | `None` or the empty name fall back to `sapadm`; any other name is used as given |
| Runner.Execute | ge-shutdown.py:29-48 | when the privilege decision exits, the result is exit 1; otherwise the built line is run, and the result is returned exactly for codes 0, 3 and 4 (with that process's output and code), and is an exit with the process's code otherwise; given that `Host.run` returns, nothing raises |
| Text.SplitLines | ge-shutdown.py:58 | no line that `splitlines` returns contains a line-break character |
| Text.SplitTerminated | ge-shutdown.py:58 | lines without breaks, each followed by "\n", with an optional unterminated last line, split back into exactly those lines |
| Text.Lower | ge-shutdown.py:62 | lowering keeps the length and lowers each character on its own |
| Text.DigitsRoundTrip | ge-shutdown.py:80 | for the model's decimal conversion, which has no length limit, reading back the decimal digits of any natural number gives that number (`int(str(n)) == n`) |
| Instances.UserOf | ge-shutdown.py:62 | the operating user is three characters longer than the SID and ends in "adm" |
| Instances.UserOfInjective | ge-shutdown.py:62 | two different SIDs never share an operating user |
| Instances.SapSidIsDefaultUser | ge-shutdown.py:62 | the SID "SAP" maps to the user `sapadm`, the only user whose commands go through the group check |
| Instances.SearchInstance | ge-shutdown.py:61 | any match yields a well-formed SID (`[A-Z][A-Z0-9][A-Z0-9]`) and a two-digit number |
| Instances.SearchInstanceLeftmost | ge-shutdown.py:61 | the search fails exactly when the pattern matches at no position; otherwise it returns the groups of the leftmost match |
| Instances.ParseCommandOutput | ge-shutdown.py:55-64 | the loop over the lines, with `setdefault` and `append` on a dict, returns exactly `ParseInstances` of the split output, including the crash on a malformed marker line |
| Instances.IgnoresOtherLines | ge-shutdown.py:59-60 | a line not starting with " Inst Info : " leaves the registry unchanged |
| Instances.ReadsMarkerLine | ge-shutdown.py:59-63 | " Inst Info : <SID> - <NN>" followed by any text registers exactly that SID and number |
| Instances.ParseAppend | ge-shutdown.py:58-63 | parsing the concatenation of two line lists continues the parse of the first list with the second |
| Instances.ParseAfterRaised | ge-shutdown.py:61 | once a malformed marker line has crashed the parse, no later line changes the result |
| Instances.RegisterDescribes | ge-shutdown.py:62-63 | `setdefault` then `append` keeps the registry a faithful description of the (SID, number) pairs read so far |
| Instances.ParseContents | ge-shutdown.py:58-63 | a successful parse lists the SIDs in the dict's key order, which is the order of their first marker lines, each SID once; its keys are exactly the SIDs of the marker lines; each entry's user is the lowered SID plus "adm"; each entry's numbers are that SID's numbers in input order, duplicates kept |
| Instances.ParseFailsIff | ge-shutdown.py:59-61 | the parse never exits, and it fails exactly when some line starts with the marker but does not match the pattern |
| Instances.TwoSystemsExample | ge-shutdown.py:55-64 | lines for AB1 00, AB1 01 and CD2 00 give {AB1: [00, 01] as ab1adm, CD2: [00] as cd2adm}, in that key order |
| Processes.MatchAt | ge-shutdown.py:76 | a match has a non-empty lower-case key and a non-empty value |
| Processes.SearchLeftmost | ge-shutdown.py:76 | `re.search` finds nothing exactly when the pattern matches at no position; otherwise it returns the match at the leftmost position where it matches |
| Processes.RenderMatches | ge-shutdown.py:76-79 | a line "<idx> <key>: <value>" as the tool writes it (lower-case key, value not starting with white space and holding no line break) is matched with exactly that index, key and value |
| Processes.Apply | ge-shutdown.py:76-83 | one loop iteration: a non-matching line changes nothing; an index at or beyond the length appends one empty entry and stores nothing; an index inside the list sets that one key of that one entry and changes nothing else |
| Processes.ParseSapProcessList | ge-shutdown.py:68-84 | the loop that appends to and assigns into the list returns exactly `ParseProcesses` of the split output |
| Processes.LengthGrowth | ge-shutdown.py:80-81 | the list never shrinks and grows by at most one entry per line |
| Processes.FieldsComeFromLines | ge-shutdown.py:79-83 | every field held by entry k under key `key` comes from a line that matched with index k, that key and that value |
| Processes.FirstLineOnlyOpens | ge-shutdown.py:80-83 | two lines for index 0, as the tool writes them, on an empty list give one entry holding only the second line's field; the first line's field is lost |
| Processes.ThirdLineAssigns | ge-shutdown.py:80-83 | a third such line for index 0 is stored in that entry beside the second line's field |
| Processes.SampleOutput | ge-shutdown.py:69-71 | the three sample lines (start time, elapsed time, pid, all index 0) give one entry holding elapsed time and pid; the start time is lost |
| Processes.PidThenStartTime | ge-shutdown.py:75-83 | "0 pid: 875626" then "0 starttime: 2022 07 05 19:20:14" give one entry holding only the start time |
| Aggregator.NrLists | ge-shutdown.py:91 | the comprehension yields one list per SID: the `nr` list of the SID at that position |
| Aggregator.RunVisit | ge-shutdown.py:93-94 | given that `Host.run` returns and that the model reads indices of any length, running one command and parsing its output never raises |
| Aggregator.GetProcessListAll | ge-shutdown.py:88-96 | the nested loops return exactly `ProcessListAll`: the nested folds with each pass running `execute_command` and `parse_sap_process_list` |
| Aggregator.Aggregate | ge-shutdown.py:89-96 | the nested loops, for any pass, return exactly the fold over all SIDs |
| Aggregator.RunInnerLoop | ge-shutdown.py:91-95 | the inner loop for one SID returns exactly the fold over all `nr` lists from the report built so far |
| Aggregator.RowEffect | ge-shutdown.py:91-95 | one inner loop succeeds exactly when every list's command does; then the SID holds the parse for the last list and one call per list has been added |
| Aggregator.OuterGoes | ge-shutdown.py:90-95 | the loops over the first i SIDs succeed exactly when every (SID, list) pair's command does |
| Aggregator.OuterContents | ge-shutdown.py:90-95 | after the first i SIDs, those SIDs (and no others) hold the pass for the last SID's list run as their own user, and i·n calls were made |
| Aggregator.AllContents | ge-shutdown.py:89-96 | after all SIDs, the keys are exactly the registry's SIDs, each holding the pass for the last SID's list run as the SID's own user, after n² calls |
| Aggregator.NeverRaises | ge-shutdown.py:89-96 | a pass that never raises gives a run that never raises (the script's pass does not raise, given that `Host.run` returns and that indices of any length are read) |
| Aggregator.RowFails | ge-shutdown.py:91-95 | a failed inner loop ends the way its first failing pass does, every earlier list having gone through |
| Aggregator.OuterFails | ge-shutdown.py:90-95 | a failed run over the first i SIDs ends the way its first failing (SID, list) pass does, in the loops' order, every earlier pair having gone through |
| Aggregator.FirstExit | ge-shutdown.py:40-48 | a failed `get_process_list_all` exits with the code of the first command, in the loops' order (SIDs, then lists), that exits |
| Aggregator.AggregateResult | ge-shutdown.py:88-96 | `get_process_list_all` returns exactly when none of the n² commands exits; otherwise it exits with the code of the first command, in the loops' order, that exits; its keys are the registry's SIDs; each SID holds the parse of the output of the command for the last SID's `nr` list, run as that SID's own user; n² calls are made |

## Left out

- Starting processes: `subprocess.run`, splitting the command on white space, the 30-second timeout, UTF-8 decoding and merging stderr into stdout are not modelled. They are the injected function `Host.run`, which maps a command line to its combined output and exit code.
- The `except TimeoutError` branch (ge-shutdown.py:49-51) is not modelled. `run` signals a timeout with `subprocess.TimeoutExpired`, which is not a `TimeoutError`, so that branch never handles the real timeout, and no "a timeout exits with 1" property is claimed.
- Runner.Execute: `run` raises `subprocess.TimeoutExpired` on a timeout, `OSError` when the executable is missing, and `UnicodeDecodeError` on output that is not UTF-8 (ge-shutdown.py:37-38, 45). None of these is caught, so `execute_command` raises. They lie outside the model, where `Host.run` always returns.
- Aggregator.RunVisit: for the same reason, the exceptions of `run` escape `get_process_list_all` in the script. So does the `ValueError` that `int(idx)` (ge-shutdown.py:80) raises on an index longer than 4300 digits, the default limit on decimal conversion in current CPython releases. In the model the pass never raises, and Aggregator.NeverRaises is stated for that pass.
- `getpass.getuser()` and `grp.getgrnam(...).gr_mem` are the parameters `currentUser` and `groups`. Users whose primary group is `sapsys` but who are not listed in `gr_mem` are not treated specially.
- Aggregator.GetProcessListAll: the command line (`sapcontrol -format script -nr <list> -function GetProcessList`, ge-shutdown.py:92) embeds Python's rendering of a list. It is the abstract parameter `commandFor`.
- Instances.SearchInstance: `\d` is ASCII digits only. Python's `\d` also accepts other Unicode decimal digits.
- Processes.MatchAt: `\s` and `\d` are ASCII only. Python's classes also accept Unicode white space and digits, and `int()` reads Unicode digits. `int()` also raises `ValueError` on an index longer than 4300 digits (the default limit on decimal conversion in current CPython releases), while the model's `DigitsToNat` reads an index of any length. The match is computed directly, not by backtracking. This gives the same groups, because each run before `:` must be taken whole and the last `\s+` gives back one character only when `(.+)` needs it. `(.+)$` is not stopped at a "\n", which a line from `splitlines` never holds.
- Text.DigitsRoundTrip: the round trip is proved for the model's conversion, which has no length limit. In the script `str(n)` and `int(...)` raise `ValueError` past 4300 digits.
- Text.LowerChar: `str.lower` is exact only for ASCII. That is enough for SIDs, which the pattern restricts to `A-Z` and `0-9`.
- `print` messages, `stop_sap_system` (an empty stub, ge-shutdown.py:100-101) and `main` (console output of the registry, ge-shutdown.py:104-112) are not modelled.
