/** CommandRunner: `execute_command` in ge-shutdown.py.

    Starting the process (`subprocess.run` with a 30-second timeout, UTF-8
    decoding, whitespace tokenisation) is the injected function `Host.run`;
    what is modelled is the choice of user, the privilege decision and the
    classification of the exit code. */
module Runner {
  import opened Outcomes
  import opened Privilege

  /** What a finished process reports: its combined output and exit code. */
  datatype Completed = Completed(output: string, returncode: int)

  /** The operating-system capabilities the script queries. */
  datatype Host = Host(currentUser: string, groups: GroupTable, run: string -> Completed)

  /** The `run(..., check=True)` / `CalledProcessError` branches: codes 0, 3
      and 4 hand the code back to the caller; 1 (invalid parameters), 2
      (timeout reported by the command) and every other code terminate the
      program with that same code. */
  function Classify(code: int): (o: Outcome<int>)
    ensures o.Done? <==> code == 0 || code == 3 || code == 4
    ensures o.Done? ==> o.value == code
    ensures o.Exit? ==> o.code == code
    ensures !o.Raised?
  {
    if code == 0 then Done(code)
    else if code == 1 then Exit(1)
    else if code == 2 then Exit(2)
    else if code == 3 || code == 4 then Done(code)
    else Exit(code)
  }

  /** A falsy `user` argument (None or "") falls back to the default account. */
  function EffectiveUser(user: Option<string>): (u: string)
    ensures user == None || user == Some("") ==> u == DefaultUser
    ensures user.Some? && user.value != "" ==> u == user.value
  {
    match user
    case Some(name) => if name != "" then name else DefaultUser
    case None => DefaultUser
  }

  /** `execute_command`: build the command line for the effective user, run
      it, and classify its exit code. */
  function Execute(command: string, user: Option<string>, host: Host): (r: Outcome<Completed>)
    ensures !r.Raised?
    ensures BuildCommand(command, EffectiveUser(user), host.currentUser, host.groups).Exit? ==> r == Exit(1)
    ensures match BuildCommand(command, EffectiveUser(user), host.currentUser, host.groups)
      case Done(line) =>
        var c := host.run(line);
        && (r.Done? <==> c.returncode in {0, 3, 4})
        && (r.Done? ==> r.value == c)
        && (r.Exit? ==> r.code == c.returncode)
      case _ => true
  {
    var built := BuildCommand(command, EffectiveUser(user), host.currentUser, host.groups);
    if built.Exit? then Exit(built.code)
    else
      var c := host.run(built.value);
      var verdict := Classify(c.returncode);
      if verdict.Done? then Done(c) else Exit(verdict.code)
  }
}
