/** PrivilegeResolver: whether a command must be escalated with sudo
    (ge-shutdown.py, `is_user_in_group` and `build_command`).

    The OS lookups `getpass.getuser()` and `grp.getgrnam(group).gr_mem` are
    parameters: the current user name and a group table from group name to
    its listed members. */
module Privilege {
  import opened Outcomes
  import opened Text

  type GroupTable = map<string, seq<string>>

  /** The administrative account commands run as by default. */
  const DefaultUser: string := "sapadm"
  /** The group whose members may act as `DefaultUser` without sudo. */
  const PrivilegeGroup: string := "sapsys"
  const SudoPrefix: string := "sudo -n -u "

  /** `is_user_in_group`: membership of `user` in `group`; a group missing
      from the table ends the program with exit code 1. */
  function IsUserInGroup(user: string, group: string, groups: GroupTable): (r: Outcome<bool>)
    ensures r.Exit? <==> group !in groups
    ensures r.Exit? ==> r.code == 1
    ensures !r.Raised?
    ensures r.Done? ==> (r.value <==> exists k :: 0 <= k < |groups[group]| && groups[group][k] == user)
  {
    if group in groups then Done(user in groups[group]) else Exit(1)
  }

  /** The command line escalated to run as `user`. */
  function Escalated(command: string, user: string): string {
    SudoPrefix + user + " " + command
  }

  /** `build_command`: the command is run as it is only when the target is
      the default account and the current user is listed in the privilege
      group; otherwise it is prefixed with `sudo -n -u <user> `.  The group
      is consulted only for the default account (Python's `or` stops at a
      true left operand). */
  function BuildCommand(command: string, user: string, currentUser: string, groups: GroupTable): (r: Outcome<string>)
    ensures r == Done(command) <==>
              user == DefaultUser && PrivilegeGroup in groups && currentUser in groups[PrivilegeGroup]
    ensures r.Exit? <==> user == DefaultUser && PrivilegeGroup !in groups
    ensures r.Exit? ==> r.code == 1
    ensures !r.Raised?
    ensures r.Done? && r.value != command ==> r.value == Escalated(command, user)
  {
    if user != DefaultUser then Done(Escalated(command, user))
    else
      var member := IsUserInGroup(currentUser, PrivilegeGroup, groups);
      if member.Exit? then Exit(member.code)
      else if member.value then Done(command)
      else Done(Escalated(command, user))
  }

  /** An escalated command line names the target user right after the sudo
      flags and ends with the original command, so the target and the
      command can be read back from it. */
  lemma EscalationNamesTarget(command: string, user: string)
    ensures var e := Escalated(command, user);
      && StartsWith(e, SudoPrefix)
      && e[|SudoPrefix|..|SudoPrefix| + |user|] == user
      && e[|SudoPrefix| + |user|] == ' '
      && e[|e| - |command|..] == command
  {
    var e := Escalated(command, user);
    assert e == SudoPrefix + (user + (" " + command));
  }
}
