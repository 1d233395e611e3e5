/**
 The body of `main` after argument parsing: validate, read, mutate, re-read,
 compare. Each OS command's result comes from `Environment`, and the run
 yields the commands issued, the lines printed and the terminal outcome.
 */
module MainFlow {
  import opened Wrappers
  import opened MacPattern
  import opened Validator
  import opened StatusReader
  import opened Mutator

  /** What the OS answers: the status command before and after the change, and
      the exit codes of the three reconfiguration commands. */
  datatype Environment = Environment(before: CommandOutput, mutation: MutatorExits, after: CommandOutput)

  datatype Outcome =
    | FormatError                                             // sys.exit, invalid format
    | LookupError                                             // sys.exit, no current MAC
    | MutationError(current: string)                          // sys.exit, change failed
    | Verified(current: string)                               // success message
    | Mismatch(current: string, reread: Option<string>)       // verification-failed message

  /** A run of the flow: commands in the order issued, the lines written to
      standard output or standard error in order, and the outcome. */
  datatype Run = Run(issued: seq<Command>, lines: seq<string>, outcome: Outcome)

  const InvalidFormatMessage := "[-] Invalid MAC address format. Use format: xx:xx:xx:xx:xx:xx"
  const MutationFailedMessage := "[-] Failed to change MAC address"
  const VerificationFailedMessage := "[-] MAC address change verification failed"

  function LookupFailedMessage(iface: string): string {
    "[-] Could not find MAC address for interface " + iface
  }

  function CurrentMacMessage(mac: string): string {
    "[+] Current MAC address: " + mac
  }

  function SuccessMessage(mac: string): string {
    "[+] MAC address successfully changed to " + mac
  }

  /** Python truthiness of an `Optional[str]`, as `if not current_mac` uses it. */
  predicate Truthy(o: Option<string>): (r: bool)
    ensures !r <==> o == None || o == Some("")
  {
    o.Some? && o.value != ""
  }

  /** Every command the flow can issue, in the order it issues them. */
  function FullPlan(iface: string, mac: string): seq<Command> {
    [Status(iface)] + MutationPlan(iface, mac) + [Status(iface)]
  }

  /** `sys.exit(message)` exits with status 1; falling off `main` exits with 0. */
  function ExitStatus(o: Outcome): (r: int)
    ensures r == 0 <==> o.Verified? || o.Mismatch?
    ensures r == 0 || r == 1
  {
    match o
    case FormatError => 1
    case LookupError => 1
    case MutationError(_) => 1
    case Verified(_) => 0
    case Mismatch(_, _) => 0
  }

  function RunMain(iface: string, mac: string, env: Environment): (r: Run)
    ensures r.outcome.FormatError? <==> !ValidateMacAddress(mac)
    ensures |r.issued| <= |FullPlan(iface, mac)| && r.issued == FullPlan(iface, mac)[..|r.issued|]
    ensures r.outcome.FormatError? ==> r.issued == []
  {
    if !ValidateMacAddress(mac) then
      Run([], [InvalidFormatMessage], FormatError)
    else
      var current := GetCurrentMac(env.before);
      if !Truthy(current) then
        Run([Status(iface)], [LookupFailedMessage(iface)], LookupError)
      else
        var shown := [CurrentMacMessage(current.value)];
        var m := ChangeMacAddress(iface, mac, env.mutation);
        if !m.ok then
          Run([Status(iface)] + m.issued, shown + [MutationFailedMessage], MutationError(current.value))
        else
          var reread := GetCurrentMac(env.after);
          var issued := [Status(iface)] + m.issued + [Status(iface)];
          if reread == Some(mac) then
            Run(issued, shown + [SuccessMessage(reread.value)], Verified(current.value))
          else
            Run(issued, shown + [VerificationFailedMessage], Mismatch(current.value, reread))
  }

  /** The status reader never returns "", so `if not current_mac` fails
      exactly when the reader returns None. */
  lemma TruthyIffSome(status: CommandOutput)
    ensures Truthy(GetCurrentMac(status)) <==> GetCurrentMac(status).Some?
  {
  }

  /** The outcome fixes how far along the command sequence the run got: no
      command before validation, only the status read after a failed lookup,
      no re-read after a failed mutation, and the full sequence otherwise. */
  lemma OutcomeDeterminesProgress(iface: string, mac: string, env: Environment)
    ensures var r := RunMain(iface, mac, env);
      match r.outcome
      case FormatError => |r.issued| == 0
      case LookupError => |r.issued| == 1
      case MutationError(_) => 2 <= |r.issued| <= 4
      case Verified(_) => |r.issued| == 5
      case Mismatch(_, _) => |r.issued| == 5
  {
  }

  /** A lookup error happens exactly when the MAC is valid and the first status
      read finds nothing; the mutator is then never run. */
  lemma LookupErrorStopsBeforeMutation(iface: string, mac: string, env: Environment)
    ensures RunMain(iface, mac, env).outcome.LookupError? <==>
      ValidateMacAddress(mac) && GetCurrentMac(env.before).None?
    ensures RunMain(iface, mac, env).outcome.LookupError? ==>
      RunMain(iface, mac, env).issued == [Status(iface)]
  {
  }

  /** The reconfiguration commands are issued only after a successful lookup,
      and the second status read only after all three succeeded. */
  lemma MutationOnlyAfterLookup(iface: string, mac: string, env: Environment)
    ensures |RunMain(iface, mac, env).issued| > 1 ==>
      ValidateMacAddress(mac) && GetCurrentMac(env.before).Some?
    ensures |RunMain(iface, mac, env).issued| == 5 ==>
      ChangeMacAddress(iface, mac, env.mutation).ok
  {
  }

  /** The run gets to the comparison exactly when validation, the first read
      and all three commands succeed; it then reports success exactly when the
      re-read value equals the requested text character for character (a None
      re-read is a mismatch), and the last line says which. */
  lemma VerifiedIffExactReread(iface: string, mac: string, env: Environment)
    ensures RunMain(iface, mac, env).outcome.Verified? <==>
      ValidateMacAddress(mac) && GetCurrentMac(env.before).Some? && ChangeMacAddress(iface, mac, env.mutation).ok
      && GetCurrentMac(env.after) == Some(mac)
    ensures RunMain(iface, mac, env).outcome.Mismatch? <==>
      ValidateMacAddress(mac) && GetCurrentMac(env.before).Some? && ChangeMacAddress(iface, mac, env.mutation).ok
      && GetCurrentMac(env.after) != Some(mac)
    ensures var r := RunMain(iface, mac, env);
      r.outcome.Verified? || r.outcome.Mismatch? ==>
        r.lines[|r.lines| - 1] == (if r.outcome.Verified? then SuccessMessage(mac) else VerificationFailedMessage)
  {
  }

  /** Only the format, lookup and mutation errors exit non-zero; a failed
      verification is reported but the process still exits with 0. */
  lemma ExitStatusOfOutcome(iface: string, mac: string, env: Environment)
    ensures var r := RunMain(iface, mac, env);
      ExitStatus(r.outcome) != 0 <==>
        !ValidateMacAddress(mac) || GetCurrentMac(env.before).None? || !ChangeMacAddress(iface, mac, env.mutation).ok
  {
  }

  /** The re-read value is always 17 characters, so a request of any other
      length (one with a trailing newline, say) is never reported as changed;
      once lookup and mutation succeed, a newline-terminated request that
      passed validation always ends in the verification-failed message. */
  lemma NewlineRequestNeverVerified(iface: string, mac: string, env: Environment)
    ensures |mac| != MacLength ==> !RunMain(iface, mac, env).outcome.Verified?
    ensures
      && ValidateMacAddress(mac) && |mac| == MacLength + 1
      && GetCurrentMac(env.before).Some? && ChangeMacAddress(iface, mac, env.mutation).ok
      ==> RunMain(iface, mac, env).outcome.Mismatch?
  {
  }

  // ---------------------------------------------------------------------------
  // End-to-end runs

  /** A status report `ether <mac>` yields `<mac>`. */
  lemma ReadEtherLine(mac: string)
    requires MacShape(mac, Word)
    ensures GetCurrentMac(CommandOutput(0, "ether " + mac)) == Some(mac)
  {
    var s := "ether " + mac;
    assert s[6..6 + MacLength] == mac;
    FirstWindowAfterColonFreePrefix(s, 6);
  }

  const AllSucceed := MutatorExits(0, 0, 0)

  /** The run in which every command succeeds and both status reads print an
      `ether` line: the outcome turns on the re-read value alone. */
  lemma RunWithEtherReports(iface: string, mac: string, current: string, reread: string)
    requires ValidateMacAddress(mac)
    requires MacShape(current, Word) && MacShape(reread, Word)
    ensures RunMain(iface, mac, Environment(CommandOutput(0, "ether " + current), AllSucceed, CommandOutput(0, "ether " + reread)))
      == if reread == mac then
           Run(FullPlan(iface, mac), [CurrentMacMessage(current), SuccessMessage(mac)], Verified(current))
         else
           Run(FullPlan(iface, mac), [CurrentMacMessage(current), VerificationFailedMessage], Mismatch(current, Some(reread)))
  {
    ReadEtherLine(current);
    ReadEtherLine(reread);
  }

  /** The addresses of the end-to-end runs below. */
  const Requested := "00:11:22:33:44:55"
  const Factory := "08:00:27:aa:bb:cc"
  const RequestedUpper := "AA:BB:CC:DD:EE:FF"
  const ReportedLower := "aa:bb:cc:dd:ee:ff"

  lemma ExampleShapes()
    ensures ValidateMacAddress(Requested) && ValidateMacAddress(RequestedUpper)
    ensures MacShape(Factory, Word) && MacShape(Requested, Word) && MacShape(ReportedLower, Word)
    ensures Requested != Factory && RequestedUpper != ReportedLower
  {
    ExampleValid();
    ExampleWordShapes();
    assert Requested[1] != Factory[1];
    assert RequestedUpper[0] != ReportedLower[0];
  }

  lemma ExampleValid()
    ensures ValidateMacAddress(Requested) && ValidateMacAddress(RequestedUpper)
  {
    ValidateAcceptsExamples();
  }

  lemma ExampleWordShapes()
    ensures MacShape(Factory, Word) && MacShape(Requested, Word) && MacShape(ReportedLower, Word)
  {
  }

  /** A valid request, all commands succeed, the re-read shows the requested
      address: the current address, then the success message, exit status 0. */
  lemma ScenarioChanged()
    ensures var r := RunMain("eth0", Requested,
        Environment(CommandOutput(0, "ether " + Factory), AllSucceed, CommandOutput(0, "ether " + Requested)));
      && r.issued == FullPlan("eth0", Requested)
      && r.lines == [CurrentMacMessage(Factory), SuccessMessage(Requested)]
      && r.outcome == Verified(Factory)
      && ExitStatus(r.outcome) == 0
  {
    ExampleShapes();
    RunWithEtherReports("eth0", Requested, Factory, Requested);
  }

  /** Five groups: rejected before any command is issued, exit status 1. */
  lemma ScenarioBadFormat(env: Environment)
    ensures var r := RunMain("eth0", "00:11:22:33:44", env);
      r.issued == [] && r.outcome == FormatError && r.lines == [InvalidFormatMessage] && ExitStatus(r.outcome) == 1
  {
  }

  /** The status command fails for an unknown interface: only that command is
      issued, the mutator never runs, exit status 1. */
  lemma ScenarioUnknownInterface(text: string, mutation: MutatorExits, after: CommandOutput)
    ensures var r := RunMain("eth9", Requested, Environment(CommandOutput(1, text), mutation, after));
      && r.issued == [Status("eth9")]
      && r.lines == [LookupFailedMessage("eth9")]
      && r.outcome == LookupError
      && ExitStatus(r.outcome) == 1
  {
  }

  /** All commands succeed but the re-read shows another address: the failure
      is printed and the exit status is still 0. */
  lemma ScenarioNotVerified()
    ensures var r := RunMain("eth0", Requested,
        Environment(CommandOutput(0, "ether " + Factory), AllSucceed, CommandOutput(0, "ether " + Factory)));
      && r.issued == FullPlan("eth0", Requested)
      && r.lines == [CurrentMacMessage(Factory), VerificationFailedMessage]
      && r.outcome == Mismatch(Factory, Some(Factory))
      && ExitStatus(r.outcome) == 0
  {
    ExampleShapes();
    RunWithEtherReports("eth0", Requested, Factory, Factory);
  }

  /** The comparison is case-sensitive: an upper-case request that the OS
      reports in lower case counts as a failed verification. */
  lemma ScenarioCaseMismatch()
    ensures var r := RunMain("eth0", RequestedUpper,
        Environment(CommandOutput(0, "ether " + Factory), AllSucceed, CommandOutput(0, "ether " + ReportedLower)));
      r.outcome == Mismatch(Factory, Some(ReportedLower))
  {
    ExampleShapes();
    RunWithEtherReports("eth0", RequestedUpper, Factory, ReportedLower);
  }

  /** A request with one trailing newline passes validation (Python's `$`),
      but the re-read address never carries the newline, so even a change the
      OS carried out is reported as not verified. */
  lemma ScenarioTrailingNewline(after: CommandOutput)
    ensures var r := RunMain("eth0", Requested + "\n",
        Environment(CommandOutput(0, "ether " + Factory), AllSucceed, after));
      r.outcome.Mismatch? && ExitStatus(r.outcome) == 0
  {
    ExampleShapes();
    ExtractValidMac(Requested);
    assert ValidateMacAddress(Requested + "\n") by {
      assert (Requested + "\n")[..MacLength] == Requested;
    }
    ReadEtherLine(Factory);
  }
}
