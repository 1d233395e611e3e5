/**
 `validate_mac_address`: `re.match` of `^([0-9A-Fa-f]{2}:){5}[0-9A-Fa-f]{2}$`.

 `re.match` anchors at the start of the string, so `^` adds nothing. Without
 the MULTILINE flag, Python's `$` matches at the end of the string and also
 just before a newline that is the last character of the string, so a MAC
 followed by exactly one `"\n"` is accepted as well.
 */
module Validator {
  import opened Wrappers
  import opened MacPattern

  /** Python's `$` at position `e` of `s` (no MULTILINE flag): what is left of
      the string from `e` on is nothing, or one newline. */
  predicate EndAnchor(s: string, e: nat): (r: bool)
    ensures r <==> e <= |s| && (s[e..] == "" || s[e..] == "\n")
  {
    e == |s| || (e + 1 == |s| && s[e] == '\n')
  }

  /** A strict MAC address text: six hex pairs separated by colons. */
  predicate HexMac(m: string) {
    MacShape(m, Hex)
  }

  function ValidateMacAddress(s: string): (ok: bool)
    ensures ok <==>
      || (|s| == MacLength && HexMac(s))
      || (|s| == MacLength + 1 && s[MacLength] == '\n' && HexMac(s[..MacLength]))
  {
    assert |s| >= MacLength ==> s[0..MacLength] == s[..MacLength];
    match MatchMacAt(s, 0, Hex)
    case None => false
    case Some(e) => EndAnchor(s, e)
  }

  /** Alternate separators, a wrong group count and surrounding spaces are
      all rejected: every accepted string has colons at the separator
      positions and is 17 or 18 characters long, with no space anywhere. */
  lemma ValidRejectsVariants(s: string)
    requires ValidateMacAddress(s)
    ensures |s| == MacLength || |s| == MacLength + 1
    ensures s[2] == ':' && s[5] == ':' && s[8] == ':' && s[11] == ':' && s[14] == ':'
    ensures forall k :: 0 <= k < |s| ==> s[k] != ' ' && s[k] != '-'
  {
  }

  /** A well-formed address is accepted in lower, upper or mixed case, and with one trailing newline. */
  lemma ValidateAcceptsExamples()
    ensures ValidateMacAddress("00:11:22:33:44:55")
    ensures ValidateMacAddress("aA:bB:cC:dD:eE:fF")
    ensures ValidateMacAddress("AA:BB:CC:DD:EE:FF")
    ensures ValidateMacAddress("00:11:22:33:44:55\n")
  {
    var good := "00:11:22:33:44:55";
    assert HexMac(good);
    assert HexMac("aA:bB:cC:dD:eE:fF");
    assert HexMac("AA:BB:CC:DD:EE:FF");
    assert "00:11:22:33:44:55\n"[..MacLength] == good;
  }

  /** Five groups, dashes, surrounding spaces, a non-hex digit and two trailing newlines are rejected. */
  lemma ValidateRejectsExamples()
    ensures !ValidateMacAddress("00:11:22:33:44")
    ensures !ValidateMacAddress("00-11-22-33-44-55")
    ensures !ValidateMacAddress(" 00:11:22:33:44:55")
    ensures !ValidateMacAddress("00:11:22:33:44:55 ")
    ensures !ValidateMacAddress("00:11:22:33:44:5g")
    ensures !ValidateMacAddress("00:11:22:33:44:55\n\n")
  {
  }
}
