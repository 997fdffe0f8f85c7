/** The time-of-day test both scripts share: a match of the regular
    expression `.* \d{2}:\d{2}:\d{2}` anchored at the start of the value
    (Python's re.match), with `.` not crossing a newline and `\d` read as
    an ASCII digit. */
module TimeFormat {

  /** What the scripts append to a timestamp that fails the time test. */
  const Midnight: string := " 00:00:00"

  predicate IsDigit(c: char)
  {
    '0' <= c <= '9'
  }

  /** s[i..i+9] is a space followed by DD:DD:DD. */
  predicate TimeAt(s: string, i: nat)
  {
    && i + 9 <= |s|
    && s[i] == ' '
    && IsDigit(s[i + 1]) && IsDigit(s[i + 2])
    && s[i + 3] == ':'
    && IsDigit(s[i + 4]) && IsDigit(s[i + 5])
    && s[i + 6] == ':'
    && IsDigit(s[i + 7]) && IsDigit(s[i + 8])
  }

  /** The pattern matches at the start of s: `.*` consumes a newline-free
      prefix s[..i], and a space and DD:DD:DD follow it. Whatever comes
      after the match is unconstrained. */
  ghost predicate MatchesTimePattern(s: string)
  {
    exists i: nat :: TimeAt(s, i) && '\n' !in s[..i]
  }

  /** Tries every end position of `.*` from i on, stopping at the first
      newline, which `.` cannot consume. */
  function MatchFrom(s: string, i: nat): (b: bool)
    requires i <= |s| && '\n' !in s[..i]
    ensures b <==> exists j: nat :: i <= j && TimeAt(s, j) && '\n' !in s[..j]
    decreases |s| - i
  {
    if |s| < i + 9 then
      false
    else if TimeAt(s, i) then
      true
    else if s[i] == '\n' then
      assert forall j: nat :: i < j <= |s| ==> s[..j][i] == '\n';
      false
    else
      assert s[..i + 1] == s[..i] + [s[i]];
      MatchFrom(s, i + 1)
  }

  /** is_valid_time_format of both scripts. */
  function IsValidTimeFormat(s: string): (b: bool)
    ensures b <==> MatchesTimePattern(s)
  {
    MatchFrom(s, 0)
  }

  lemma TimeAtHasNoNewline(s: string, i: nat, k: nat)
    requires TimeAt(s, i) && i <= k < i + 9
    ensures s[k] != '\n'
  {
  }

  /** Appending the midnight suffix to a newline-free value makes it pass. */
  lemma MidnightRepairs(s: string)
    ensures '\n' !in s ==> IsValidTimeFormat(s + Midnight)
  {
    if '\n' !in s {
      var t := s + Midnight;
      assert t[..|s|] == s;
      assert TimeAt(t, |s|);
    }
  }

  /** The match is anchored at the start only: text after it never matters. */
  lemma ValidExtends(s: string, t: string)
    requires IsValidTimeFormat(s)
    ensures IsValidTimeFormat(s + t)
  {
    var i: nat :| TimeAt(s, i) && '\n' !in s[..i];
    assert (s + t)[..i] == s[..i];
    assert TimeAt(s + t, i);
  }

  /** A newline in a value that fails the test keeps it failing after the
      midnight suffix is appended: `.*` cannot reach the appended space. */
  lemma NewlineDefeatsRepair(s: string)
    requires '\n' in s && !IsValidTimeFormat(s)
    ensures !IsValidTimeFormat(s + Midnight)
  {
    var t := s + Midnight;
    var p :| 0 <= p < |s| && s[p] == '\n';
    if j: nat :| TimeAt(t, j) && '\n' !in t[..j] {
      if j + 9 <= |s| {
        assert t[..j] == s[..j];
        assert TimeAt(s, j);
        assert false;
      } else if j <= p {
        TimeAtHasNoNewline(t, j, p);
        assert false;
      }
    }
  }

  lemma RejectsBareDate()
    ensures !IsValidTimeFormat("2023-12-21")
  {
    var s := "2023-12-21";
    assert s[0] == '2' && s[1] == '0';
  }

  lemma RejectsSingleDigitTime()
    ensures !IsValidTimeFormat("2023-12-21 0:0:0")
  {
    var s := "2023-12-21 0:0:0";
    assert forall i :: 0 <= i <= 7 ==> s[i] != ' ';
  }

  lemma AcceptsFullTimestamp()
    ensures IsValidTimeFormat("2023-12-21 00:00:00")
  {
    var s := "2023-12-21 00:00:00";
    assert TimeAt(s, 10);
    assert '\n' !in s[..10];
  }

  /** The time may sit anywhere after a newline-free prefix, not only at the end. */
  lemma AcceptsTimeBeforeOtherText()
    ensures IsValidTimeFormat("at 08:30:00 on 2023-12-21")
  {
    var s := "at 08:30:00 on 2023-12-21";
    assert TimeAt(s, 2);
    assert '\n' !in s[..2];
  }

  /** `.` does not cross a newline, so a time after one is not seen. */
  lemma RejectsTimeAfterNewline()
    ensures !IsValidTimeFormat("2023-12-21\n 08:30:00")
  {
    var s := "2023-12-21\n 08:30:00";
    assert forall i :: 0 <= i <= 10 ==> s[i] != ' ';
    assert s[..11][10] == '\n';
  }
}
