/**
  What a poll of a remote job prints, and how server/jobs/remoteJobs.js:98-141 reads it back. The last
  lines of the job's log come first, the liveness line and the exit line behind them.
 */
module PollOutput {
  import opened Options

  datatype Status = Running | Completed | Failed | Interrupted | Cancelled

  const ALIVE_YES := "__ALIVE:yes"
  const ALIVE_NO := "__ALIVE:no"
  const EXIT := "__SPARKDASH_EXIT:"

  predicate IsDigit(c: char) {
    '0' <= c <= '9'
  }

  /** The first liveness marker of a text. */
  function FindAlive(s: string): Option<bool> {
    if s == "" then None
    else if ALIVE_YES <= s then Some(true)
    else if ALIVE_NO <= s then Some(false)
    else FindAlive(s[1..])
  }

  /** Value of the digits that a text starts with, continuing from `value`. */
  function DigitsValue(s: string, value: nat): nat {
    if s == "" || !IsDigit(s[0]) then value else DigitsValue(s[1..], 10 * value + (s[0] - '0') as nat)
  }

  predicate StartsExit(s: string) {
    EXIT <= s && |s| > |EXIT| && IsDigit(s[|EXIT|])
  }

  /** The first exit code of a text. */
  function FindExit(s: string): Option<nat> {
    if s == "" then None
    else if StartsExit(s) then Some(DigitsValue(s[|EXIT|..], 0))
    else FindExit(s[1..])
  }

  datatype Poll = Poll(status: Status, exitCode: Option<nat>)

  /**
    The verdict of a poll: a live process runs; a dead one is judged by its exit code, and without one it was
    interrupted.
   */
  function ParsePollOutput(out: string): (p: Poll)
    ensures p.status != Cancelled
    ensures p.status == Running <==> FindAlive(out) == Some(true)
    ensures p.status == Completed ==> p.exitCode == Some(0)
    ensures p.status == Failed ==> p.exitCode.Some? && p.exitCode.value != 0
    ensures p.status == Interrupted ==> p.exitCode.None?
  {
    var exit := FindExit(out);
    var status :=
      if FindAlive(out) == Some(true) then Running
      else if exit.Some? then (if exit.value == 0 then Completed else Failed)
      else Interrupted;
    Poll(status, exit)
  }

  // --- Reading back what the poll command prints --------------------------------------------------

  const NL := "\n"

  predicate OneLine(s: string) {
    forall c :: c in s ==> c != '\n'
  }

  lemma PrefixBeforeNewline(marker: string, a: string, b: string)
    requires OneLine(marker)
    ensures marker <= a + (NL + b) <==> marker <= a
  {
    var s := a + (NL + b);
    forall i | 0 <= i < |marker| ensures marker[i] != '\n' {
      assert marker[i] in marker;
    }
    assert s[|a|] == '\n';
    if |a| < |marker| { assert marker[|a|] != s[|a|]; }
    if marker <= s { assert marker == s[..|marker|] == a[..|marker|]; }
    if marker <= a { assert marker == a[..|marker|] == s[..|marker|]; }
  }

  /** No marker reaches across a line end, so the first one of the front text wins. */
  lemma {:induction false} AliveByLine(a: string, b: string)
    ensures FindAlive(a + (NL + b)) == if FindAlive(a).Some? then FindAlive(a) else FindAlive(b)
  {
    var s := a + (NL + b);
    PrefixBeforeNewline(ALIVE_YES, a, b);
    PrefixBeforeNewline(ALIVE_NO, a, b);
    if a == "" {
      assert s == NL + b && s[1..] == b;
    } else {
      assert s[1..] == a[1..] + (NL + b);
      AliveByLine(a[1..], b);
    }
  }

  lemma {:induction false} DigitsStopAtNewline(a: string, b: string, value: nat)
    ensures DigitsValue(a + (NL + b), value) == DigitsValue(a, value)
  {
    var s := a + (NL + b);
    if a == "" {
      assert s[0] == '\n';
    } else {
      assert s[1..] == a[1..] + (NL + b);
      if IsDigit(a[0]) { DigitsStopAtNewline(a[1..], b, 10 * value + (a[0] - '0') as nat); }
    }
  }

  lemma StartsExitByLine(a: string, b: string)
    ensures StartsExit(a + (NL + b)) <==> StartsExit(a)
    ensures StartsExit(a) ==> (a + (NL + b))[|EXIT|..] == a[|EXIT|..] + (NL + b)
  {
    PrefixBeforeNewline(EXIT, a, b);
    var s := a + (NL + b);
    if EXIT <= a {
      if |a| == |EXIT| {
        assert s[|EXIT|] == '\n';
      } else {
        assert s[|EXIT|] == a[|EXIT|];
      }
    }
  }

  lemma {:induction false} ExitByLine(a: string, b: string)
    ensures FindExit(a + (NL + b)) == if FindExit(a).Some? then FindExit(a) else FindExit(b)
  {
    var s := a + (NL + b);
    StartsExitByLine(a, b);
    if a == "" {
      assert s == NL + b && s[1..] == b;
    } else {
      assert s[1..] == a[1..] + (NL + b);
      if StartsExit(a) {
        DigitsStopAtNewline(a[|EXIT|..], b, 0);
      } else {
        ExitByLine(a[1..], b);
      }
    }
  }

  /** The output of the poll command: log, liveness, and the last exit line of the log if there is one. */
  function Printed(log: string, alive: bool, exitLine: string): string {
    log + (NL + ((if alive then ALIVE_YES else ALIVE_NO) + (NL + exitLine)))
  }

  lemma LivenessLine(alive: bool)
    ensures FindAlive(if alive then ALIVE_YES else ALIVE_NO) == Some(alive)
    ensures FindExit(if alive then ALIVE_YES else ALIVE_NO) == None
  {
    if alive {
      NoExitIn(ALIVE_YES);
    } else {
      assert !(ALIVE_YES <= ALIVE_NO);
      NoExitIn(ALIVE_NO);
    }
  }

  lemma {:induction false} NoExitIn(s: string)
    requires |s| <= |EXIT|
    ensures FindExit(s) == None
  {
    if s != "" { NoExitIn(s[1..]); }
  }

  /**
    The process's liveness is read back correctly exactly when the log shows no liveness marker of its own that
    says otherwise; the exit code is the log's first one, or else the one behind it.
   */
  lemma LivenessReadBackIff(log: string, alive: bool, exitLine: string)
    ensures FindAlive(Printed(log, alive, exitLine)) == Some(alive) <==>
              FindAlive(log).None? || FindAlive(log) == Some(alive)
    ensures FindExit(Printed(log, alive, exitLine)) == if FindExit(log).Some? then FindExit(log) else FindExit(exitLine)
  {
    hide FindAlive, FindExit;
    var line := if alive then ALIVE_YES else ALIVE_NO;
    AliveByLine(log, line + (NL + exitLine));
    AliveByLine(line, exitLine);
    ExitByLine(log, line + (NL + exitLine));
    ExitByLine(line, exitLine);
    LivenessLine(alive);
  }

  /** A job that prints the marker keeps itself running for ever in the eyes of the poll. */
  lemma MarkerInLogHidesTheEnd(before: string, after: string, exitLine: string)
    requires FindAlive(before).None?
    ensures ParsePollOutput(Printed(before + (NL + (ALIVE_YES + (NL + after))), false, exitLine)).status == Running
  {
    var log := before + (NL + (ALIVE_YES + (NL + after)));
    AliveByLine(before, ALIVE_YES + (NL + after));
    AliveByLine(ALIVE_YES, after);
    LivenessLine(true);
    AliveByLine(log, ALIVE_NO + (NL + exitLine));
  }

  // --- Exit codes -------------------------------------------------------------------------------------

  /** A number as the shell prints it. */
  function Decimal(n: nat): (s: string)
    ensures s != "" && forall c :: c in s ==> IsDigit(c)
  {
    if n < 10 then [('0' as int + n) as char] else Decimal(n / 10) + [('0' as int + n % 10) as char]
  }

  lemma {:induction false} DigitsValueConcat(a: string, b: string, value: nat)
    requires forall c :: c in a ==> IsDigit(c)
    ensures DigitsValue(a + b, value) == DigitsValue(b, DigitsValue(a, value))
  {
    if a == "" {
      assert a + b == b;
    } else {
      assert a[0] in a && (a + b)[1..] == a[1..] + b;
      DigitsValueConcat(a[1..], b, 10 * value + (a[0] - '0') as nat);
    }
  }

  lemma {:induction false} DecimalReads(n: nat)
    ensures DigitsValue(Decimal(n), 0) == n
  {
    if n < 10 {
      OneDigit(n, 0);
    } else {
      DecimalReads(n / 10);
      DigitsValueConcat(Decimal(n / 10), [('0' as int + n % 10) as char], 0);
      OneDigit(n % 10, n / 10);
    }
  }

  lemma OneDigit(d: nat, value: nat)
    requires d < 10
    ensures DigitsValue([('0' as int + d) as char], value) == 10 * value + d
  {
    var s := [('0' as int + d) as char];
    assert s[1..] == "";
  }

  /**
    An exit code that the job's script printed is read back, whatever follows on later lines: the dead job has completed
    with code zero, and failed with any other.
   */
  lemma ExitCodeReadBack(log: string, n: nat)
    requires FindAlive(log).None? && FindExit(log).None?
    ensures ParsePollOutput(Printed(log, false, EXIT + Decimal(n)))
            == Poll(if n == 0 then Completed else Failed, Some(n))
  {
    hide FindAlive, FindExit, Printed;
    LivenessReadBackIff(log, false, EXIT + Decimal(n));
    ExitLineReads(n);
  }

  lemma ExitLineReads(n: nat)
    ensures FindExit(EXIT + Decimal(n)) == Some(n)
  {
    hide Decimal;
    var line := EXIT + Decimal(n);
    assert Decimal(n)[0] in Decimal(n) && line[|EXIT|] == Decimal(n)[0];
    assert line[|EXIT|..] == Decimal(n);
    DecimalReads(n);
  }
}
