# MAC Address Changer — a Dafny model

This project models the logic of the MAC Address Changer script, `app.py`.
The script changes a network interface's hardware address with `ifconfig`.
It checks the requested address against a strict format, reads the current
address from the interface-status output, and runs the three reconfiguration
commands (down, `hw ether`, up). It then reads the address again and compares
it with the request.

The OS commands are not modelled. Their results are inputs:

- `StatusReader.CommandOutput` holds the exit code and the combined output
  text of `ifconfig <iface>`;
- `Mutator.MutatorExits` holds the exit codes of the three reconfiguration
  commands;
- `MainFlow.Environment` bundles the status output before the change, those
  exit codes, and the status output after the change.

A run of the main flow (`MainFlow.RunMain`) returns three things: the
commands issued in order, the lines printed, and the terminal outcome. The
outcome is a format error, a lookup error, a mutation error, a verified
change or a verification mismatch. The interface name and the requested
address are inputs; they stand for the two command-line options.

Modules:

- `Wrappers`: the Option datatype for Python's `Optional`.
- `MacPattern`: the two character classes and the positional shape of
  `xx:xx:xx:xx:xx:xx`. Also a group-by-group matcher for
  `(CC:){5}CC` that is proved to agree with that shape.
- `Validator`: `validate_mac_address`, including Python's `$`.
- `StatusReader`: the `re.search` scan and `get_current_mac`.
- `Mutator`: the commands, their argument vectors, and `change_mac_address`.
- `MainFlow`: the body of `main` from validation to the final comparison,
  plus end-to-end runs.

`validate_mac_address` uses `re.match` with `$`. Without the MULTILINE flag,
Python's `$` also matches just before one final newline, so
`"00:11:22:33:44:55\n"` is accepted (`Validator.ValidateMacAddress`,
`Validator.EndAnchor`). Such a request can never be reported as changed,
because the re-read address is always 17 characters
(`MainFlow.NewlineRequestNeverVerified`).

## Model

| member | source | states |
|---|---|---|
| `Validator.ValidateMacAddress` | app.py:66-77 | accepted exactly when the text is 17 characters with colons at indices 2, 5, 8, 11, 14 and a hex digit (either case) elsewhere, or is such a text followed by exactly one `"\n"` |
| `Validator.EndAnchor` | app.py:76 | Python's `$` holds at a position exactly when what is left of the string from there is empty or a single `"\n"` |
| `Validator.ValidRejectsVariants` | app.py:76-77 | an accepted text is 17 or 18 characters long, has colons at the separator positions, and contains no space and no dash |
| `Validator.ValidateAcceptsExamples` | app.py:76-77 | lower-case, upper-case, mixed-case and newline-terminated addresses are accepted |
| `Validator.ValidateRejectsExamples` | app.py:76-77 | five groups, dash separators, a leading or trailing space, a non-hex digit and two trailing newlines are rejected |
| `MacPattern.MatchMacAt` | app.py:117 | the group-by-group matcher for `(CC:){5}CC` succeeds at a position exactly when the 17-character window there has the MAC shape (colons at 2, 5, 8, 11, 14, class characters elsewhere), and a success ends 17 characters on |
| `MacPattern.MacWindowByGroups` | app.py:76 | five `CC:` groups then one `CC` pair match at a position exactly when the window there has the MAC shape, and the groups end 15 characters on |
| `MacPattern.MatchGroupsCorrect` | app.py:76 | `(CC:){n}` matches at a position exactly when the next 3n characters follow the pair-colon pattern, and it ends 3n characters later |
| `MacPattern.HexShapeIsWordShape` | app.py:76 | every text with the validator's hex shape also has the status reader's `\w` shape |
| `StatusReader.Search` | app.py:117 | the scan from a start position returns a matching position with no match between the start and it, and returns None only when no position from the start matches |
| `StatusReader.FindMac` | app.py:117 | the reported position is the leftmost match; None exactly when no window of the text matches |
| `StatusReader.ExtractMac` | app.py:117-118 | a returned string is a substring at the leftmost matching position and has the `\w\w:…` shape; None exactly when nothing matches |
| `StatusReader.GetCurrentMac` | app.py:114-120 | a non-zero exit yields None whatever the output; a value is a 17-character `\w` MAC found at the leftmost matching position of the output; None exactly when the exit is non-zero or nothing matches |
| `StatusReader.ExtractMacIsLeftmost` | app.py:117-118 | any leftmost matching window is exactly what the reader returns |
| `StatusReader.FirstWindowAfterColonFreePrefix` | app.py:117-118 | a matching window with no colon before it is the one returned |
| `StatusReader.ExtractValidMac` | app.py:117-118 | the reader returns a validated MAC unchanged (without its trailing newline, if it had one) |
| `StatusReader.ReaderLooserThanValidator` | app.py:117 | the reader returns `zz:__:zz:__:zz:__`, which the validator rejects |
| `Mutator.ChangeMacAddress` | app.py:93-99 | issues a prefix of down, `hw ether`, up, in that order; every command before the last issued one exited 0; a failure means the last issued one exited non-zero; returns true exactly when all three exited 0, and then issued all three; the argument vectors are `ifconfig <iface> down`, `ifconfig <iface> hw ether <mac>`, `ifconfig <iface> up` |
| `Mutator.FirstFailure` | app.py:93-99 | reference definition: the index of the first non-zero exit code, with every earlier code zero; None when all are zero |
| `Mutator.IssuedCountIsFirstFailure` | app.py:93-99 | 3 commands are issued on success, k + 1 when the command at index k is the first to fail, and success means no failure |
| `MainFlow.RunMain` | app.py:129-145 | a format error happens exactly when validation fails, and then no command is issued; the issued commands are always a prefix of status, down, `hw ether`, up, status |
| `MainFlow.Truthy` | app.py:133 | an `Optional[str]` is falsy exactly when it is None or the empty string |
| `MainFlow.ExitStatus` | app.py:129-145 | the exit status is 0 exactly for a verified change or a mismatch (falling off `main`), and 1 otherwise (`sys.exit` with a message at lines 130, 134, 139) |
| `MainFlow.TruthyIffSome` | app.py:132-134 | `if not current_mac` fails exactly when the reader returned None, since it never returns an empty string |
| `MainFlow.OutcomeDeterminesProgress` | app.py:129-145 | no command after a format error; only the status read after a lookup error; 2 to 4 commands after a mutation error, so no re-read; all 5 after a verified or mismatched change |
| `MainFlow.LookupErrorStopsBeforeMutation` | app.py:132-134 | a lookup error happens exactly when the MAC is valid and the first read returns None, and then only the status command was issued |
| `MainFlow.MutationOnlyAfterLookup` | app.py:132-141 | reconfiguration commands are issued only after a valid format and a successful read; the re-read only after all three succeeded |
| `MainFlow.VerifiedIffExactReread` | app.py:141-145 | the success outcome happens exactly when validation, the first read and all three commands succeed and the re-read equals the request character for character; the mismatch outcome exactly when all those succeed but the re-read differs or is None; the last line printed is the success or the failure message accordingly |
| `MainFlow.ExitStatusOfOutcome` | app.py:129-145 | the exit status is non-zero exactly on a format, lookup or mutation error; a verification mismatch exits 0 |
| `MainFlow.RunWithEtherReports` | app.py:136-145 | when all commands succeed and both reads print an `ether` line, the run issues all five commands and prints the current MAC and then success or failure, depending only on whether the re-read equals the request |
| `MainFlow.ScenarioChanged` | app.py:129-145 | a valid request whose re-read matches: five commands, current MAC then success message, exit 0 |
| `MainFlow.ScenarioBadFormat` | app.py:129-130 | a five-group request: format error, no command issued, exit 1 |
| `MainFlow.ScenarioUnknownInterface` | app.py:132-134 | a failing status command: lookup error, only the status command issued, exit 1 |
| `MainFlow.ScenarioNotVerified` | app.py:141-145 | a re-read showing another address: failure message, exit 0 |
| `MainFlow.ScenarioCaseMismatch` | app.py:142 | an upper-case request reported back in lower case is a mismatch |
| `MainFlow.NewlineRequestNeverVerified` | app.py:141-145 | for every environment, a request whose length is not 17 (such as one with a trailing newline) never ends in the success outcome; a newline-terminated request that passes validation ends in a mismatch whenever the lookup and all three commands succeed |
| `MainFlow.ScenarioTrailingNewline` | app.py:129-145 | with the first read printing an `ether` line and all three commands succeeding, a request with one trailing newline passes validation and ends in a mismatch with exit 0, whatever the re-read prints |

## Left out

- Banner printing and `optparse` argument handling (app.py:20-64). These are cosmetic output and a library parser. The interface and the MAC address are inputs to `RunMain`.
- Running `ifconfig`, privileges and network side effects. Exit codes and output text are inputs.
- The `KeyboardInterrupt` and catch-all `Exception` handlers (app.py:147-150). Also left out: a missing `ifconfig` binary and a `UnicodeDecodeError` from `.decode()`. These are exception plumbing with no logic of their own.
- `StatusReader.Search`, `StatusReader.FindMac`, `StatusReader.ExtractMac`, `StatusReader.GetCurrentMac`: `\w` is modelled as ASCII `[A-Za-z0-9_]`. On `str`, Python's `\w` also matches non-ASCII letters and digits. Where Python returns an earlier window containing such characters, the model returns None or a later window instead: on `"é1:22:33:44:55:66 00:11:22:33:44:55"` Python returns the window at position 0, the model `"00:11:22:33:44:55"`. The hex digits are word characters in both readings, so the results about validated addresses and ASCII output hold either way.
- Output streams: `MainFlow.Run.lines` puts the lines printed to standard output and the `sys.exit` messages (standard error) in one sequence.
