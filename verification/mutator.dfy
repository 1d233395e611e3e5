/**
 The OS commands the tool issues, and `change_mac_address`: three
 `subprocess.check_call` invocations, the first non-zero exit ending the
 sequence (CalledProcessError is caught and turned into `False`).

 The commands are not run: their exit codes are an input, `MutatorExits`.
 */
module Mutator {
  import opened Wrappers

  /** The `ifconfig` invocations of the tool. */
  datatype Command =
    | Status(iface: string)                                // ifconfig <iface>
    | Down(iface: string)                                  // ifconfig <iface> down
    | SetHardwareAddress(iface: string, mac: string)       // ifconfig <iface> hw ether <mac>
    | Up(iface: string)                                    // ifconfig <iface> up

  /** The argument vector handed to the OS for each command. */
  function Argv(c: Command): seq<string> {
    match c
    case Status(i) => ["ifconfig", i]
    case Down(i) => ["ifconfig", i, "down"]
    case SetHardwareAddress(i, m) => ["ifconfig", i, "hw", "ether", m]
    case Up(i) => ["ifconfig", i, "up"]
  }

  /** The exit codes the three reconfiguration commands would return. */
  datatype MutatorExits = MutatorExits(down: int, setAddress: int, up: int)

  /** The commands issued, in order, and the value `change_mac_address` returns. */
  datatype Mutation = Mutation(issued: seq<Command>, ok: bool)

  /** The full sequence the mutator attempts. */
  function MutationPlan(iface: string, mac: string): seq<Command> {
    [Down(iface), SetHardwareAddress(iface, mac), Up(iface)]
  }

  /** The exit codes in the order the plan issues the commands. */
  function ExitCodes(exits: MutatorExits): seq<int> {
    [exits.down, exits.setAddress, exits.up]
  }

  function ChangeMacAddress(iface: string, mac: string, exits: MutatorExits): (r: Mutation)
    ensures r.ok <==> exits.down == 0 && exits.setAddress == 0 && exits.up == 0
    ensures 1 <= |r.issued| <= 3 && r.issued == MutationPlan(iface, mac)[..|r.issued|]
    ensures r.ok ==> |r.issued| == 3
    ensures forall k :: 0 <= k < |r.issued| - 1 ==> ExitCodes(exits)[k] == 0
    ensures !r.ok ==> ExitCodes(exits)[|r.issued| - 1] != 0
    ensures Argv(r.issued[0]) == ["ifconfig", iface, "down"]
    ensures |r.issued| >= 2 ==> Argv(r.issued[1]) == ["ifconfig", iface, "hw", "ether", mac]
    ensures |r.issued| == 3 ==> Argv(r.issued[2]) == ["ifconfig", iface, "up"]
  {
    if exits.down != 0 then
      Mutation([Down(iface)], false)
    else if exits.setAddress != 0 then
      Mutation([Down(iface), SetHardwareAddress(iface, mac)], false)
    else if exits.up != 0 then
      Mutation([Down(iface), SetHardwareAddress(iface, mac), Up(iface)], false)
    else
      Mutation([Down(iface), SetHardwareAddress(iface, mac), Up(iface)], true)
  }

  /** Index of the first non-zero exit code, if any: a reference definition of
      where a short-circuiting sequence stops. */
  function FirstFailure(codes: seq<int>): (r: Option<nat>)
    ensures r.Some? ==> r.value < |codes| && codes[r.value] != 0
    ensures r.Some? ==> forall k :: 0 <= k < r.value ==> codes[k] == 0
    ensures r.None? ==> forall k :: 0 <= k < |codes| ==> codes[k] == 0
  {
    if |codes| == 0 then None
    else if codes[0] != 0 then Some(0)
    else
      match FirstFailure(codes[1..])
      case None => None
      case Some(k) => Some(k + 1)
  }

  /** Exactly 3 commands are issued when all succeed, and exactly k + 1 when
      the command at index k is the first to fail. */
  lemma IssuedCountIsFirstFailure(iface: string, mac: string, exits: MutatorExits)
    ensures ChangeMacAddress(iface, mac, exits).ok <==> FirstFailure(ExitCodes(exits)).None?
    ensures |ChangeMacAddress(iface, mac, exits).issued| ==
      match FirstFailure(ExitCodes(exits))
      case None => 3
      case Some(k) => k + 1
  {
  }
}
