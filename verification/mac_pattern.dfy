/**
 The two regular expressions of the MAC changer, as a small matcher.

 Both patterns have the same skeleton, six two-character groups separated by
 colons, and differ only in the character class of the group characters:

 - the validator uses `([0-9A-Fa-f]{2}:){5}[0-9A-Fa-f]{2}` (class `Hex`);
 - the status reader uses `\w\w:\w\w:\w\w:\w\w:\w\w:\w\w` (class `Word`),
   which is the same language as `(\w\w:){5}\w\w`.

 `MatchMacAt` consumes the pattern group by group, the way a regex engine walks
 it; `MacShape` says position by position what a 17-character match looks
 like. `MatchMacAt`'s contract states that the two agree.
 */
module MacPattern {
  import opened Wrappers

  /** The characters of `[0-9A-Fa-f]`. */
  predicate IsHexDigit(c: char) {
    ('0' <= c <= '9') || ('a' <= c <= 'f') || ('A' <= c <= 'F')
  }

  /** The characters of `\w`, restricted to ASCII: `[A-Za-z0-9_]`. */
  predicate IsWordChar(c: char) {
    ('0' <= c <= '9') || ('a' <= c <= 'z') || ('A' <= c <= 'Z') || c == '_'
  }

  datatype CharClass = Hex | Word

  predicate InClass(c: char, cls: CharClass) {
    match cls
    case Hex => IsHexDigit(c)
    case Word => IsWordChar(c)
  }

  /** Length of a colon-separated MAC address text `xx:xx:xx:xx:xx:xx`. */
  const MacLength: nat := 17

  /** The positions of the five colons in `xx:xx:xx:xx:xx:xx`. */
  predicate SeparatorIndex(k: int) {
    k == 2 || k == 5 || k == 8 || k == 11 || k == 14
  }

  /** `m` is six two-character groups of class `cls`, separated by colons. */
  predicate MacShape(m: string, cls: CharClass) {
    && |m| == MacLength
    && (forall k :: 0 <= k < |m| && SeparatorIndex(k) ==> m[k] == ':')
    && (forall k :: 0 <= k < |m| && !SeparatorIndex(k) ==> InClass(m[k], cls))
  }

  /** The pattern matches `s` at position `i` (the window `s[i..i+17]` has the shape). */
  predicate WindowAt(s: string, i: int, cls: CharClass) {
    0 <= i && i + MacLength <= |s| && MacShape(s[i..i + MacLength], cls)
  }

  /** Every character the validator accepts in a group is also a `\w` character,
      so every strict MAC text also has the status reader's shape. */
  lemma HexShapeIsWordShape(m: string)
    ensures MacShape(m, Hex) ==> MacShape(m, Word)
  {
  }

  // ---------------------------------------------------------------------------
  // The matcher

  /** Matches the atom pair `CC` at `i`; on success yields the position after it. */
  function MatchPair(s: string, i: nat, cls: CharClass): Option<nat> {
    if i + 2 <= |s| && InClass(s[i], cls) && InClass(s[i + 1], cls) then Some(i + 2) else None
  }

  /** Matches the literal character `ch` at `i`. */
  function MatchChar(s: string, i: nat, ch: char): Option<nat> {
    if i < |s| && s[i] == ch then Some(i + 1) else None
  }

  /** Matches `(CC:){n}` at `i`. */
  function MatchGroups(s: string, i: nat, cls: CharClass, n: nat): Option<nat>
    decreases n
  {
    if n == 0 then Some(i)
    else
      match MatchPair(s, i, cls)
      case None => None
      case Some(j) =>
        match MatchChar(s, j, ':')
        case None => None
        case Some(k) => MatchGroups(s, k, cls, n - 1)
  }

  /** Matches `(CC:){5}CC` at `i`; on success yields the end of the match.
      It succeeds exactly where the window has the MAC shape, and a success
      always consumes 17 characters. */
  function MatchMacAt(s: string, i: nat, cls: CharClass): (r: Option<nat>)
    ensures r.Some? <==> WindowAt(s, i, cls)
    ensures r.Some? ==> r.value == i + MacLength
  {
    MacWindowByGroups(s, i, cls);
    match MatchGroups(s, i, cls, 5)
    case None => None
    case Some(j) => MatchPair(s, j, cls)
  }

  // ---------------------------------------------------------------------------
  // The matcher agrees with the shape

  /** What the character at offset `k` of a run of groups must be. */
  predicate ExpectedAt(c: char, k: int, cls: CharClass) {
    if k % 3 == 2 then c == ':' else InClass(c, cls)
  }

  /** `w` follows the group pattern `CC:CC:...` from its first character on. */
  predicate GroupRun(w: string, cls: CharClass) {
    forall k :: 0 <= k < |w| ==> ExpectedAt(w[k], k, cls)
  }

  lemma {:induction false} MatchGroupsCorrect(s: string, i: nat, cls: CharClass, n: nat)
    requires i <= |s|
    ensures MatchGroups(s, i, cls, n).Some? <==> i + 3 * n <= |s| && GroupRun(s[i..i + 3 * n], cls)
    ensures MatchGroups(s, i, cls, n).Some? ==> MatchGroups(s, i, cls, n).value == i + 3 * n
    decreases n
  {
    if n > 0 && i + 3 > |s| {
      assert MatchPair(s, i, cls).None? || MatchChar(s, i + 2, ':').None?;
    } else if n > 0 {
      MatchGroupsCorrect(s, i + 3, cls, n - 1);
      if MatchGroups(s, i, cls, n).Some? {
        assert MatchPair(s, i, cls) == Some(i + 2);
        assert MatchChar(s, i + 2, ':') == Some(i + 3);
        assert MatchGroups(s, i, cls, n) == MatchGroups(s, i + 3, cls, n - 1);
      }
      if i + 3 * n <= |s| {
        var w, tail := s[i..i + 3 * n], s[i + 3..i + 3 * n];
        assert forall k :: 0 <= k < |tail| ==> tail[k] == w[k + 3];
        if GroupRun(w, cls) {
          assert ExpectedAt(w[0], 0, cls) && ExpectedAt(w[1], 1, cls) && ExpectedAt(w[2], 2, cls);
          forall k | 0 <= k < |tail|
            ensures ExpectedAt(tail[k], k, cls)
          {
            assert ExpectedAt(w[k + 3], k + 3, cls);
            assert (k + 3) % 3 == k % 3;
          }
          assert s[i] == w[0] && s[i + 1] == w[1] && s[i + 2] == w[2];
          assert MatchPair(s, i, cls) == Some(i + 2);
          assert MatchChar(s, i + 2, ':') == Some(i + 3);
        }
        if MatchGroups(s, i, cls, n).Some? {
          assert GroupRun(tail, cls);
          forall k | 0 <= k < |w|
            ensures ExpectedAt(w[k], k, cls)
          {
            if k >= 3 {
              assert ExpectedAt(tail[k - 3], k - 3, cls);
              assert (k - 3) % 3 == k % 3;
            }
          }
        }
      }
    }
  }

  lemma SeparatorIndexIsEveryThird(k: nat)
    requires k < MacLength
    ensures SeparatorIndex(k) <==> k % 3 == 2
  {
  }

  /** Five `CC:` groups followed by one `CC` pair match at `i` exactly when
      the window at `i` has the MAC shape; the groups end 15 characters on. */
  lemma MacWindowByGroups(s: string, i: nat, cls: CharClass)
    ensures MatchGroups(s, i, cls, 5).Some? ==> MatchGroups(s, i, cls, 5).value == i + 15
    ensures MatchGroups(s, i, cls, 5).Some? && MatchPair(s, i + 15, cls).Some? <==> WindowAt(s, i, cls)
  {
    if i > |s| {
      assert MatchPair(s, i, cls).None?;
    } else {
      MatchGroupsCorrect(s, i, cls, 5);
    }
    if i + MacLength <= |s| {
      var w, head := s[i..i + MacLength], s[i..i + 15];
      assert forall k :: 0 <= k < |head| ==> head[k] == w[k];
      if MatchGroups(s, i, cls, 5).Some? && MatchPair(s, i + 15, cls).Some? {
        assert GroupRun(head, cls);
        forall k | 0 <= k < |w|
          ensures SeparatorIndex(k) ==> w[k] == ':'
          ensures !SeparatorIndex(k) ==> InClass(w[k], cls)
        {
          SeparatorIndexIsEveryThird(k);
          if k < 15 {
            assert ExpectedAt(head[k], k, cls);
          }
        }
      }
      if WindowAt(s, i, cls) {
        forall k | 0 <= k < |head|
          ensures ExpectedAt(head[k], k, cls)
        {
          SeparatorIndexIsEveryThird(k);
        }
        assert s[i + 15] == w[15] && s[i + 16] == w[16];
      }
    }
  }
}
