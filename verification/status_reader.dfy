/**
 `get_current_mac`: run the interface-status command and pick out the first
 substring matching `\w\w:\w\w:\w\w:\w\w:\w\w:\w\w` (`re.search`).

 The status command is not run: its exit code and its combined standard
 output and error are an input, `CommandOutput`.
 */
module StatusReader {
  import opened Wrappers
  import opened MacPattern
  import opened Validator

  /** What `subprocess.check_output([...], stderr=STDOUT).decode()` observes. */
  datatype CommandOutput = CommandOutput(exitCode: int, text: string)

  /** `i` is where `re.search` reports its match: the window there matches and
      none to its left does. */
  predicate LeftmostWindow(s: string, i: int) {
    WindowAt(s, i, Word) && forall j :: 0 <= j < i ==> !WindowAt(s, j, Word)
  }

  /** The scan of `re.search`: try each start position from `from` on, left to
      right, and stop at the first one where the pattern matches. */
  function Search(s: string, from: nat): (r: Option<nat>)
    ensures r.Some? ==> from <= r.value && WindowAt(s, r.value, Word)
    ensures r.Some? ==> forall j :: from <= j < r.value ==> !WindowAt(s, j, Word)
    ensures r.None? ==> forall j :: from <= j ==> !WindowAt(s, j, Word)
    decreases |s| + 1 - from
  {
    if from > |s| then None
    else
      if MatchMacAt(s, from, Word).Some? then Some(from)
      else Search(s, from + 1)
  }

  /** The match position of `re.search` over the whole text. */
  function FindMac(s: string): (r: Option<nat>)
    ensures r.Some? ==> LeftmostWindow(s, r.value)
    ensures r.None? <==> forall j :: 0 <= j ==> !WindowAt(s, j, Word)
  {
    Search(s, 0)
  }

  /** `mac_address_search.group(0) if mac_address_search else None`. */
  function ExtractMac(s: string): (r: Option<string>)
    ensures r.Some? ==> exists i :: LeftmostWindow(s, i) && r.value == s[i..i + MacLength]
    ensures r.Some? ==> MacShape(r.value, Word)
    ensures r.None? <==> forall j :: 0 <= j ==> !WindowAt(s, j, Word)
  {
    match FindMac(s)
    case None => None
    case Some(i) => Some(s[i..i + MacLength])
  }

  /** A CalledProcessError (non-zero exit) is caught and yields None, whatever
      the command printed; otherwise the first MAC-shaped window is returned. */
  function GetCurrentMac(status: CommandOutput): (r: Option<string>)
    ensures status.exitCode != 0 ==> r.None?
    ensures r.Some? ==> exists i :: LeftmostWindow(status.text, i) && r.value == status.text[i..i + MacLength]
    ensures r.Some? ==> |r.value| == MacLength && MacShape(r.value, Word)
    ensures r.None? <==> status.exitCode != 0 || forall j :: 0 <= j ==> !WindowAt(status.text, j, Word)
  {
    if status.exitCode != 0 then None else ExtractMac(status.text)
  }

  /** Any leftmost window is the one `ExtractMac` returns. */
  lemma ExtractMacIsLeftmost(s: string, i: int)
    requires LeftmostWindow(s, i)
    ensures ExtractMac(s) == Some(s[i..i + MacLength])
  {
  }

  /** A MAC-shaped window with no colon anywhere before it is the one found:
      every window further left would need a colon at its third character. */
  lemma {:induction false} FirstWindowAfterColonFreePrefix(s: string, i: int)
    requires WindowAt(s, i, Word)
    requires forall k :: 0 <= k < i ==> s[k] != ':'
    ensures ExtractMac(s) == Some(s[i..i + MacLength])
  {
    var w := s[i..i + MacLength];
    forall j | 0 <= j < i
      ensures !WindowAt(s, j, Word)
    {
      assert SeparatorIndex(2);
      if j + 2 >= i {
        assert w[j + 2 - i] == s[j + 2];
      }
    }
    ExtractMacIsLeftmost(s, i);
  }

  /** A MAC the validator accepts is found, unchanged, by the status reader's
      looser pattern; with a trailing newline, the newline is left out. */
  lemma ExtractValidMac(s: string)
    requires ValidateMacAddress(s)
    ensures ExtractMac(s) == Some(s[..MacLength])
  {
  }

  /** The reader's class is looser than the validator's: it reports a window
      of underscores and non-hex letters that the validator would reject. */
  lemma ReaderLooserThanValidator()
    ensures ExtractMac("zz:__:zz:__:zz:__") == Some("zz:__:zz:__:zz:__")
    ensures !ValidateMacAddress("zz:__:zz:__:zz:__")
  {
    var s := "zz:__:zz:__:zz:__";
    assert s[0..MacLength] == s;
    assert MacShape(s, Word);
    assert LeftmostWindow(s, 0);
    ExtractMacIsLeftmost(s, 0);
    assert !IsHexDigit(s[0]);
  }
}
