/** The gateway heartbeat monitor: it sends a test message through the
    `clawdbot` command line, checks the gateway's status after waits of
    30, 40 and 50 seconds, and restarts the gateway when no check succeeds.
    Every `subprocess.run` goes through a `Shell` whose answers are an oracle
    indexed by the number of commands run so far; its clock and its sleeps are
    recorded the same way. */
module GatewayHeartbeat {
  import opened Wrappers
  import opened PyText

  // ---------------------------------------------------------------------
  // The outside world

  /** What `subprocess.run` does: the command returns with a code and its
      standard output, runs past its timeout (`TimeoutExpired`), or raises
      any other exception (the program is missing, say).  Standard error is
      only logged and is not modelled. */
  datatype RunResult = Completed(returncode: int, stdout: string) | TimedOut | Crashed

  /** The processes the monitor starts, the sleeps it takes and the clock it
      reads.  `reply(k)` is what the k-th command run gives back and
      `clock(k)` is the time of day once k commands have run. */
  class Shell {
    var calls: seq<seq<string>>
    var sleeps: seq<nat>
    const reply: nat -> RunResult
    const clock: nat -> string

    constructor (reply: nat -> RunResult, clock: nat -> string)
      ensures calls == [] && sleeps == []
      ensures this.reply == reply && this.clock == clock
    {
      calls := [];
      sleeps := [];
      this.reply := reply;
      this.clock := clock;
    }

    /** `subprocess.run(cmd, capture_output=True, text=True, timeout=...)` */
    method Run(cmd: seq<string>) returns (r: RunResult)
      modifies this
      ensures r == reply(|old(calls)|)
      ensures calls == old(calls) + [cmd] && sleeps == old(sleeps)
    {
      r := reply(|calls|);
      calls := calls + [cmd];
    }

    /** `time.sleep(seconds)` */
    method Sleep(seconds: nat)
      modifies this
      ensures sleeps == old(sleeps) + [seconds] && calls == old(calls)
    {
      sleeps := sleeps + [seconds];
    }

    /** `datetime.now()` */
    function Now(): string
      reads this
    {
      clock(|calls|)
    }
  }

  // ---------------------------------------------------------------------
  // Commands

  const StatusCommand: seq<string> := ["clawdbot", "gateway", "status"]
  const StopCommand: seq<string> := ["clawdbot", "gateway", "stop"]
  const StartCommand: seq<string> := ["clawdbot", "gateway", "start"]

  /** Where the test message goes when no target channel is given. */
  const DefaultTarget := "#initclawdbot"

  /** The waits of the three retries, in seconds, in order. */
  const RetryWaits: seq<nat> := [30, 40, 50]

  /** The pause after the final test message, between stop and start, and
      before the status check that follows a restart. */
  const FinalPause: nat := 5
  const StopPause: nat := 2
  const StartupPause: nat := 10

  /** Python truthiness of a channel argument that may be `None`. */
  predicate Truthy(s: Option<string>) { s.Some? && s.value != "" }

  /** The target the test message is sent to. */
  function TargetOf(target: Option<string>): (t: string)
    ensures Truthy(target) ==> t == target.value
    ensures !Truthy(target) ==> t == DefaultTarget
  {
    if Truthy(target) then target.value else DefaultTarget
  }

  /** The command `send_test_message` runs. */
  function SendCommand(channel: Option<string>, target: Option<string>, testMessage: string, timestamp: string): seq<string> {
    ["clawdbot", "message", "send"]
    + (if Truthy(channel) then ["--channel", channel.value] else [])
    + ["--target", TargetOf(target)]
    + ["--message", testMessage + " - " + timestamp]
  }

  /** The send command names the program and its sub-command first, has
      `--channel` right after them exactly when the channel is truthy, always
      has `--target` (the default one when no target is given) and ends with
      the message, which is the test message and the time stamp joined by
      " - ". */
  lemma SendCommandShape(channel: Option<string>, target: Option<string>, testMessage: string, timestamp: string)
    ensures var cmd := SendCommand(channel, target, testMessage, timestamp);
      && cmd[..3] == ["clawdbot", "message", "send"]
      && (Truthy(channel) ==> |cmd| == 9 && cmd[3..5] == ["--channel", channel.value] && cmd[5..7] == ["--target", TargetOf(target)])
      && (!Truthy(channel) ==> |cmd| == 7 && cmd[3] != "--channel" && cmd[3..5] == ["--target", TargetOf(target)])
      && cmd[|cmd| - 2..] == ["--message", testMessage + " - " + timestamp]
  {
  }

  /** `send_test_message` reports success exactly when the command returned
      code 0; a timeout or another exception is a failure. */
  predicate SendSucceeded(r: RunResult) { r.Completed? && r.returncode == 0 }

  // ---------------------------------------------------------------------
  // Reading the status output

  /** The words that show the gateway is up, looked for in this order. */
  const Indicators: seq<string> := ["RPC probe: ok", "Listening:", "Runtime:", "running", "active", "ok"]

  /** The words that show it is down, looked for once no indicator is found. */
  const ErrorWords: seq<string> := ["failed", "error", "not running", "stopped", "dead"]

  /** Some word of `words` occurs in `text`. */
  predicate AnyOccurs(words: seq<string>, text: string) {
    exists k :: 0 <= k < |words| && Contains(text, words[k])
  }

  /** How the status output is read against a list of indicators, compared
      lower-cased, and a list of error words, compared as they are. */
  predicate ShowsUp(indicators: seq<string>, errors: seq<string>, output: string) {
    (exists k :: 0 <= k < |indicators| && Contains(Lower(output), Lower(indicators[k])))
    || !AnyOccurs(errors, Lower(output))
  }

  /** The indicators as `indicator.lower()` gives them. */
  const LowerIndicators: seq<string> := ["rpc probe: ok", "listening:", "runtime:", "running", "active", "ok"]

  /** `t` is `s` with its letters lower-cased. */
  lemma LowerIs(s: string, t: string)
    requires |s| == |t| && forall i :: 0 <= i < |s| ==> LowerChar(s[i]) == t[i]
    ensures Lower(s) == t
  {
  }

  lemma IndicatorLowered(k: nat)
    requires k < |Indicators|
    ensures Lower(Indicators[k]) == LowerIndicators[k]
  {
    LowerIs(Indicators[k], LowerIndicators[k]);
  }

  /** How `check_gateway_status` reads the output of a status command that
      returned code 0. */
  predicate OutputShowsUp(output: string) {
    AnyOccurs(LowerIndicators, Lower(output)) || !AnyOccurs(ErrorWords, Lower(output))
  }

  /** Reading the output against the indicators as written is reading it
      against their lower-case forms. */
  lemma ShowsUpWithIndicators(output: string)
    ensures ShowsUp(Indicators, ErrorWords, output) == OutputShowsUp(output)
  {
    forall k | 0 <= k < |Indicators|
      ensures Lower(Indicators[k]) == LowerIndicators[k]
    {
      IndicatorLowered(k);
    }
  }

  /** What `check_gateway_status` returns for the status command's result:
      a non-zero code, a timeout or an exception all mean down. */
  predicate StatusUp(r: RunResult) {
    r.Completed? && r.returncode == 0 && OutputShowsUp(r.stdout)
  }

  /** The output reads as down exactly when no indicator occurs in it and
      some error word does; in particular it never holds "ok" then. */
  lemma OutputDownIff(output: string)
    ensures !OutputShowsUp(output) <==>
      && (forall k :: 0 <= k < |LowerIndicators| ==> !Contains(Lower(output), LowerIndicators[k]))
      && (exists k :: 0 <= k < |ErrorWords| && Contains(Lower(output), ErrorWords[k]))
    ensures !OutputShowsUp(output) ==> !Contains(Lower(output), "ok")
  {
    if !OutputShowsUp(output) {
      assert LowerIndicators[5] == "ok";
    }
  }

  /** Any indicator found in the output, both lower-cased, means up. */
  lemma IndicatorReadsUp(output: string, k: nat)
    requires k < |Indicators| && Contains(Lower(output), Lower(Indicators[k]))
    ensures OutputShowsUp(output)
  {
    IndicatorLowered(k);
  }

  /** Any output that mentions "running", in any case, reads as up. */
  lemma RunningReadsUp(output: string)
    requires Contains(Lower(output), "running")
    ensures OutputShowsUp(output)
  {
    assert LowerIndicators[3] == "running";
  }

  /** A status that says the gateway is "not running", in any case, reads
      as up, because the indicator "running" is looked for before the error
      words. */
  lemma NotRunningReadsUp(output: string)
    requires Contains(Lower(output), "not running")
    ensures OutputShowsUp(output)
  {
    var low := Lower(output);
    ContainsAt(low, "not running");
    var i :| OccursAt(low, "not running", i);
    assert low[i + 4..i + 11] == "not running"[4..];
    assert "not running"[4..] == "running";
    assert OccursAt(low, "running", i + 4);
    ContainsAt(low, "running");
    RunningReadsUp(output);
  }

  /** An output with neither an indicator nor an error word reads as up. */
  lemma QuietOutputReadsUp(output: string)
    requires forall k :: 0 <= k < |ErrorWords| ==> !Contains(Lower(output), ErrorWords[k])
    ensures OutputShowsUp(output)
  {
  }

  /** The two loops of `check_gateway_status` over the output: the first
      indicator found means up, then the first error word means down, and
      otherwise the gateway counts as up. */
  method ReadStatusOutput(indicators: seq<string>, errors: seq<string>, output: string) returns (up: bool)
    ensures up == ShowsUp(indicators, errors, output)
  {
    var low := Lower(output);
    for k := 0 to |indicators|
      invariant forall j :: 0 <= j < k ==> !Contains(low, Lower(indicators[j]))
    {
      if Contains(low, Lower(indicators[k])) {
        return true;
      }
    }
    for k := 0 to |errors|
      invariant forall j :: 0 <= j < k ==> !Contains(low, errors[j])
    {
      if Contains(low, errors[k]) {
        return false;
      }
    }
    return true;
  }

  // ---------------------------------------------------------------------
  // One heartbeat check

  /** What a stretch of the check does: its result, the commands it runs,
      the sleeps it takes, and the number of commands run when a response
      is seen (the moment `last_response_time` is taken), if one is. */
  datatype Trace = Trace(ok: bool, calls: seq<seq<string>>, sleeps: seq<nat>, respondedAt: Option<nat>)

  /** `restart_gateway` and what follows it, starting at command number
      `base`.  The stop command's code is only logged; its timeout or
      exception ends the restart as a failure, as does the start command's;
      after a successful start the status is checked once more. */
  function RestartTrace(reply: nat -> RunResult, base: nat): (t: Trace)
    ensures t.respondedAt == None
    ensures |t.calls| >= 1 && t.calls[0] == StopCommand
    ensures t.ok <==> RestartOk(reply, base) && StatusUp(reply(base + 2))
  {
    if !reply(base).Completed? then Trace(false, [StopCommand], [], None)
    else if !SendSucceeded(reply(base + 1)) then Trace(false, [StopCommand, StartCommand], [StopPause], None)
    else Trace(StatusUp(reply(base + 2)), [StopCommand, StartCommand, StatusCommand], [StopPause, StartupPause], None)
  }

  /** The retries from retry `i` on, the next command being number `base`.
      A retry waits and checks the status; the first check that succeeds
      ends the heartbeat with success.  Once the last retry fails, one more
      test message goes out, the monitor pauses, and the gateway is
      restarted. */
  function RetryTrace(waits: seq<nat>, i: nat, reply: nat -> RunResult, base: nat,
                      channel: Option<string>, target: Option<string>, testMessage: string, clock: nat -> string): Trace
    requires i <= |waits|
    decreases |waits| - i
  {
    if i == |waits| then RestartTrace(reply, base)
    else if StatusUp(reply(base)) then Trace(true, [StatusCommand], [waits[i]], Some(base + 1))
    else if i == |waits| - 1 then
      var rest := RestartTrace(reply, base + 2);
      Trace(rest.ok, [StatusCommand, SendCommand(channel, target, testMessage, clock(base + 1))] + rest.calls,
            [waits[i], FinalPause] + rest.sleeps, None)
    else
      var rest := RetryTrace(waits, i + 1, reply, base + 1, channel, target, testMessage, clock);
      Trace(rest.ok, [StatusCommand] + rest.calls, [waits[i]] + rest.sleeps, rest.respondedAt)
  }

  /** The commands one retry runs, from command number `base` on: the
      status check, and after the last retry's failed check the final test
      message; and the sleeps it takes. */
  function StepCalls(waits: seq<nat>, i: nat, reply: nat -> RunResult, base: nat,
                     channel: Option<string>, target: Option<string>, testMessage: string, clock: nat -> string): seq<seq<string>>
  {
    if StatusUp(reply(base)) || i + 1 != |waits| then [StatusCommand]
    else [StatusCommand, SendCommand(channel, target, testMessage, clock(base + 1))]
  }

  function StepSleeps(waits: seq<nat>, i: nat, reply: nat -> RunResult, base: nat): seq<nat>
    requires i < |waits|
  {
    if StatusUp(reply(base)) || i + 1 != |waits| then [waits[i]] else [waits[i], FinalPause]
  }

  /** A retry whose check fails runs its step and hands over to the next
      retry, or to the restart once no retry is left. */
  lemma RetryFailed(waits: seq<nat>, i: nat, reply: nat -> RunResult, base: nat,
                    channel: Option<string>, target: Option<string>, testMessage: string, clock: nat -> string)
    requires i < |waits| && !StatusUp(reply(base))
    ensures var calls := StepCalls(waits, i, reply, base, channel, target, testMessage, clock);
      var rest := RetryTrace(waits, i, reply, base, channel, target, testMessage, clock);
      var next := RetryTrace(waits, i + 1, reply, base + |calls|, channel, target, testMessage, clock);
      && rest.ok == next.ok && rest.respondedAt == next.respondedAt
      && rest.calls == calls + next.calls
      && rest.sleeps == StepSleeps(waits, i, reply, base) + next.sleeps
  {
  }

  lemma Regroup<T>(a: seq<T>, b: seq<T>, c: seq<T>, d: seq<T>, e: seq<T>)
    requires a == b + c && e == c + d
    ensures a + d == b + e
  {
  }

  /** `run_heartbeat_check` from command number `base`: the test message,
      then the retries.  The test message's own result is only logged. */
  function HeartbeatTrace(waits: seq<nat>, reply: nat -> RunResult, base: nat,
                          channel: Option<string>, target: Option<string>, testMessage: string, clock: nat -> string): Trace
  {
    var rest := RetryTrace(waits, 0, reply, base + 1, channel, target, testMessage, clock);
    Trace(rest.ok, [SendCommand(channel, target, testMessage, clock(base))] + rest.calls, rest.sleeps, rest.respondedAt)
  }

  /** The retries read only the answers to the commands they run
      themselves, from number `base` on. */
  lemma {:induction false} RetryTraceReadsFrom(waits: seq<nat>, i: nat, reply: nat -> RunResult, reply': nat -> RunResult, base: nat,
                                                channel: Option<string>, target: Option<string>, testMessage: string, clock: nat -> string)
    requires i <= |waits|
    requires forall k :: k >= base ==> reply(k) == reply'(k)
    ensures RetryTrace(waits, i, reply, base, channel, target, testMessage, clock)
         == RetryTrace(waits, i, reply', base, channel, target, testMessage, clock)
    decreases |waits| - i
  {
    assert reply(base) == reply'(base);
    assert reply(base + 1) == reply'(base + 1) && reply(base + 2) == reply'(base + 2);
    assert reply(base + 3) == reply'(base + 3) && reply(base + 4) == reply'(base + 4);
    if i < |waits| && !StatusUp(reply(base)) && i < |waits| - 1 {
      RetryTraceReadsFrom(waits, i + 1, reply, reply', base + 1, channel, target, testMessage, clock);
    }
  }

  /** A failed first test message does not stop the retries: the heartbeat
      comes out the same whatever the first send gave back. */
  lemma FirstSendIgnored(waits: seq<nat>, reply: nat -> RunResult, reply': nat -> RunResult, base: nat,
                         channel: Option<string>, target: Option<string>, testMessage: string, clock: nat -> string)
    requires forall k :: k != base ==> reply(k) == reply'(k)
    ensures HeartbeatTrace(waits, reply, base, channel, target, testMessage, clock)
         == HeartbeatTrace(waits, reply', base, channel, target, testMessage, clock)
  {
    RetryTraceReadsFrom(waits, 0, reply, reply', base + 1, channel, target, testMessage, clock);
  }

  /** Whether the restart succeeded, from command number `base` on. */
  predicate RestartOk(reply: nat -> RunResult, base: nat) {
    reply(base).Completed? && SendSucceeded(reply(base + 1))
  }

  /** Three retries with waits `w0`, `w1`, `w2`, one case per number of
      failed checks. */
  lemma ThreeRetriesFirstUp(w: seq<nat>, reply: nat -> RunResult, base: nat,
                            channel: Option<string>, target: Option<string>, testMessage: string, clock: nat -> string)
    requires |w| == 3 && StatusUp(reply(base + 1))
    ensures HeartbeatTrace(w, reply, base, channel, target, testMessage, clock)
         == Trace(true, [SendCommand(channel, target, testMessage, clock(base)), StatusCommand], [w[0]], Some(base + 2))
  {
    assert RetryTrace(w, 0, reply, base + 1, channel, target, testMessage, clock) == Trace(true, [StatusCommand], [w[0]], Some(base + 2));
  }

  lemma ThreeRetriesSecondUp(w: seq<nat>, reply: nat -> RunResult, base: nat,
                             channel: Option<string>, target: Option<string>, testMessage: string, clock: nat -> string)
    requires |w| == 3 && !StatusUp(reply(base + 1)) && StatusUp(reply(base + 2))
    ensures HeartbeatTrace(w, reply, base, channel, target, testMessage, clock)
         == Trace(true, [SendCommand(channel, target, testMessage, clock(base)), StatusCommand, StatusCommand], [w[0], w[1]], Some(base + 3))
  {
    var r1 := RetryTrace(w, 1, reply, base + 2, channel, target, testMessage, clock);
    assert r1 == Trace(true, [StatusCommand], [w[1]], Some(base + 3));
    assert RetryTrace(w, 0, reply, base + 1, channel, target, testMessage, clock) == Trace(true, [StatusCommand, StatusCommand], [w[0], w[1]], Some(base + 3));
  }

  lemma ThreeRetriesThirdUp(w: seq<nat>, reply: nat -> RunResult, base: nat,
                            channel: Option<string>, target: Option<string>, testMessage: string, clock: nat -> string)
    requires |w| == 3 && !StatusUp(reply(base + 1)) && !StatusUp(reply(base + 2)) && StatusUp(reply(base + 3))
    ensures HeartbeatTrace(w, reply, base, channel, target, testMessage, clock)
         == Trace(true, [SendCommand(channel, target, testMessage, clock(base)), StatusCommand, StatusCommand, StatusCommand], [w[0], w[1], w[2]], Some(base + 4))
  {
    var r2 := RetryTrace(w, 2, reply, base + 3, channel, target, testMessage, clock);
    assert r2 == Trace(true, [StatusCommand], [w[2]], Some(base + 4));
    var r1 := RetryTrace(w, 1, reply, base + 2, channel, target, testMessage, clock);
    assert r1 == Trace(true, [StatusCommand, StatusCommand], [w[1], w[2]], Some(base + 4));
    assert RetryTrace(w, 0, reply, base + 1, channel, target, testMessage, clock) == Trace(true, [StatusCommand, StatusCommand, StatusCommand], [w[0], w[1], w[2]], Some(base + 4));
  }

  lemma ThreeRetriesAllDown(w: seq<nat>, reply: nat -> RunResult, base: nat,
                            channel: Option<string>, target: Option<string>, testMessage: string, clock: nat -> string)
    requires |w| == 3 && !StatusUp(reply(base + 1)) && !StatusUp(reply(base + 2)) && !StatusUp(reply(base + 3))
    ensures var t := HeartbeatTrace(w, reply, base, channel, target, testMessage, clock);
      var rest := RestartTrace(reply, base + 5);
      && t.calls == [SendCommand(channel, target, testMessage, clock(base)), StatusCommand, StatusCommand, StatusCommand,
                     SendCommand(channel, target, testMessage, clock(base + 4))] + rest.calls
      && t.sleeps == [w[0], w[1], w[2], FinalPause] + rest.sleeps
      && t.respondedAt == None
      && t.ok == rest.ok
  {
    var rest := RestartTrace(reply, base + 5);
    var r2 := RetryTrace(w, 2, reply, base + 3, channel, target, testMessage, clock);
    assert r2 == Trace(rest.ok, [StatusCommand, SendCommand(channel, target, testMessage, clock(base + 4))] + rest.calls, [w[2], FinalPause] + rest.sleeps, None);
    var r1 := RetryTrace(w, 1, reply, base + 2, channel, target, testMessage, clock);
    assert r1 == Trace(rest.ok, [StatusCommand] + r2.calls, [w[1]] + r2.sleeps, None);
    var r0 := RetryTrace(w, 0, reply, base + 1, channel, target, testMessage, clock);
    assert r0 == Trace(rest.ok, [StatusCommand] + r1.calls, [w[0]] + r1.sleeps, None);
  }

  /** With the three retries of the monitor: the status is checked after
      30, 40 and 50 seconds in that order and the first success ends the
      heartbeat with success, the response being seen after that check.
      When all three checks fail, exactly one more test message goes out,
      the gateway is restarted, no response time is taken, and the result
      is that the restart succeeded and the status checked after it reads
      as up. */
  lemma DefaultHeartbeat(reply: nat -> RunResult, base: nat,
                         channel: Option<string>, target: Option<string>, testMessage: string, clock: nat -> string)
    ensures var t := HeartbeatTrace(RetryWaits, reply, base, channel, target, testMessage, clock);
      var send := SendCommand(channel, target, testMessage, clock(base));
      && (StatusUp(reply(base + 1)) ==>
            t == Trace(true, [send, StatusCommand], [30], Some(base + 2)))
      && (!StatusUp(reply(base + 1)) && StatusUp(reply(base + 2)) ==>
            t == Trace(true, [send, StatusCommand, StatusCommand], [30, 40], Some(base + 3)))
      && (!StatusUp(reply(base + 1)) && !StatusUp(reply(base + 2)) && StatusUp(reply(base + 3)) ==>
            t == Trace(true, [send, StatusCommand, StatusCommand, StatusCommand], [30, 40, 50], Some(base + 4)))
      && (!StatusUp(reply(base + 1)) && !StatusUp(reply(base + 2)) && !StatusUp(reply(base + 3)) ==>
            var rest := RestartTrace(reply, base + 5);
            && t.calls == [send, StatusCommand, StatusCommand, StatusCommand,
                           SendCommand(channel, target, testMessage, clock(base + 4))] + rest.calls
            && rest.calls[0] == StopCommand
            && t.sleeps == [30, 40, 50, FinalPause] + rest.sleeps
            && t.respondedAt == None
            && (t.ok <==> RestartOk(reply, base + 5) && StatusUp(reply(base + 7))))
  {
    var w := RetryWaits;
    assert |w| == 3 && w[0] == 30 && w[1] == 40 && w[2] == 50;
    if StatusUp(reply(base + 1)) {
      ThreeRetriesFirstUp(w, reply, base, channel, target, testMessage, clock);
    } else if StatusUp(reply(base + 2)) {
      ThreeRetriesSecondUp(w, reply, base, channel, target, testMessage, clock);
    } else if StatusUp(reply(base + 3)) {
      ThreeRetriesThirdUp(w, reply, base, channel, target, testMessage, clock);
    } else {
      ThreeRetriesAllDown(w, reply, base, channel, target, testMessage, clock);
    }
  }

  /** The monitor.  Its channel, target and test message are fixed when it
      is made; the heartbeat sets the time of the last response.  The
      message id read from the send command's output is kept but never
      filled in here. */
  class GatewayHeartbeatMonitor {
    const channel: Option<string>
    const targetChannel: Option<string>
    const testMessage: string
    var lastResponseTime: Option<string>
    var messageId: Option<string>
    const retryWaits: seq<nat>

    /** The waits of the retries are always 30, 40 and 50 seconds. */
    predicate Valid()
      reads this
    {
      retryWaits == RetryWaits
    }

    /** `GatewayHeartbeatMonitor(channel, target_channel, test_message)`;
        the defaults are the Slack channel, no target, and the heartbeat
        message. */
    constructor (channel: Option<string>, targetChannel: Option<string>, testMessage: string)
      ensures this.channel == channel && this.targetChannel == targetChannel && this.testMessage == testMessage
      ensures lastResponseTime == None && messageId == None
      ensures Valid()
    {
      this.channel := channel;
      this.targetChannel := targetChannel;
      this.testMessage := testMessage;
      lastResponseTime := None;
      messageId := None;
      retryWaits := RetryWaits;
    }

    /** The constructor's default arguments. */
    static const DefaultChannel: Option<string> := Some("slack")
    static const DefaultMessage: string := "网关心跳检测"

    /** `send_test_message`: build the command with the current time, run
        it, and report whether it returned code 0. */
    method SendTestMessage(shell: Shell) returns (ok: bool)
      modifies shell
      ensures shell.calls == old(shell.calls) + [SendCommand(channel, targetChannel, testMessage, shell.clock(|old(shell.calls)|))]
      ensures shell.sleeps == old(shell.sleeps)
      ensures ok == SendSucceeded(shell.reply(|old(shell.calls)|))
    {
      var cmd := ["clawdbot", "message", "send"];
      if Truthy(channel) {
        cmd := cmd + ["--channel", channel.value];
      }
      if Truthy(targetChannel) {
        cmd := cmd + ["--target", targetChannel.value];
      } else {
        cmd := cmd + ["--target", DefaultTarget];
      }
      var message := testMessage + " - " + shell.Now();
      cmd := cmd + ["--message", message];
      assert cmd == SendCommand(channel, targetChannel, testMessage, shell.Now());
      var r := shell.Run(cmd);
      ok := r.Completed? && r.returncode == 0;
    }

    /** `check_gateway_status`: run the status command and read its output. */
    method CheckGatewayStatus(shell: Shell) returns (up: bool)
      modifies shell
      ensures shell.calls == old(shell.calls) + [StatusCommand] && shell.sleeps == old(shell.sleeps)
      ensures up == StatusUp(shell.reply(|old(shell.calls)|))
    {
      var r := shell.Run(StatusCommand);
      if r.Completed? && r.returncode == 0 {
        up := ReadStatusOutput(Indicators, ErrorWords, r.stdout);
        ShowsUpWithIndicators(r.stdout);
      } else {
        up := false;
      }
    }

    /** `wait_for_response`: sleep, then check the status. */
    method WaitForResponse(shell: Shell, waitTime: nat) returns (up: bool)
      modifies shell
      ensures shell.calls == old(shell.calls) + [StatusCommand] && shell.sleeps == old(shell.sleeps) + [waitTime]
      ensures up == StatusUp(shell.reply(|old(shell.calls)|))
    {
      shell.Sleep(waitTime);
      up := CheckGatewayStatus(shell);
    }

    /** `restart_gateway`: stop, pause, start; only the start command's code
        decides, and a timeout or exception on either command is a failure. */
    method RestartGateway(shell: Shell) returns (ok: bool)
      modifies shell
      ensures var n := |old(shell.calls)|;
        && ok == RestartOk(shell.reply, n)
        && (!shell.reply(n).Completed? ==> shell.calls == old(shell.calls) + [StopCommand] && shell.sleeps == old(shell.sleeps))
        && (shell.reply(n).Completed? ==> shell.calls == old(shell.calls) + [StopCommand, StartCommand] && shell.sleeps == old(shell.sleeps) + [StopPause])
    {
      var stop := shell.Run(StopCommand);
      if !stop.Completed? {
        return false;
      }
      shell.Sleep(StopPause);
      var start := shell.Run(StartCommand);
      ok := start.Completed? && start.returncode == 0;
    }

    /** The restart and the status check after it, as the heartbeat runs them. */
    method RestartAndCheck(shell: Shell) returns (ok: bool)
      modifies shell
      ensures var t := RestartTrace(shell.reply, |old(shell.calls)|);
        ok == t.ok && shell.calls == old(shell.calls) + t.calls && shell.sleeps == old(shell.sleeps) + t.sleeps
    {
      var restarted := RestartGateway(shell);
      if restarted {
        shell.Sleep(StartupPause);
        ok := CheckGatewayStatus(shell);
      } else {
        ok := false;
      }
    }

    /** One pass of the retry loop: wait and check the status; a response
        sets the time of the last response; after the last retry fails the
        final test message goes out and the monitor pauses.  A response ends
        the retries as `RetryTrace` says; otherwise the commands and sleeps
        so far, followed by the next retry's, are this retry's. */
    method Retry(shell: Shell, i: nat) returns (up: bool)
      requires i < |retryWaits|
      modifies this, shell
      ensures var n := |old(shell.calls)|;
        var rest := RetryTrace(retryWaits, i, shell.reply, n, channel, targetChannel, testMessage, shell.clock);
        var next := RetryTrace(retryWaits, i + 1, shell.reply, |shell.calls|, channel, targetChannel, testMessage, shell.clock);
        && up == StatusUp(shell.reply(n))
        && (up ==> && rest.ok && rest.respondedAt == Some(n + 1)
                   && shell.calls == old(shell.calls) + rest.calls
                   && shell.sleeps == old(shell.sleeps) + rest.sleeps
                   && lastResponseTime == Some(shell.clock(n + 1)))
        && (!up ==> && rest.ok == next.ok && rest.respondedAt == next.respondedAt
                    && shell.calls + next.calls == old(shell.calls) + rest.calls
                    && shell.sleeps + next.sleeps == old(shell.sleeps) + rest.sleeps
                    && lastResponseTime == old(lastResponseTime))
        && messageId == old(messageId)
    {
      ghost var before := shell.calls;
      ghost var sleepsBefore := shell.sleeps;
      up := WaitForResponse(shell, retryWaits[i]);
      if up {
        lastResponseTime := Some(shell.Now());
        return;
      }
      if i == |retryWaits| - 1 {
        var _ := SendTestMessage(shell);
        shell.Sleep(FinalPause);
      }
      ghost var steps := StepCalls(retryWaits, i, shell.reply, |before|, channel, targetChannel, testMessage, shell.clock);
      assert shell.calls == before + steps;
      assert shell.sleeps == sleepsBefore + StepSleeps(retryWaits, i, shell.reply, |before|);
      RetryFailed(retryWaits, i, shell.reply, |before|, channel, targetChannel, testMessage, shell.clock);
      ghost var rest := RetryTrace(retryWaits, i, shell.reply, |before|, channel, targetChannel, testMessage, shell.clock);
      ghost var next := RetryTrace(retryWaits, i + 1, shell.reply, |shell.calls|, channel, targetChannel, testMessage, shell.clock);
      Regroup(shell.calls, before, steps, next.calls, rest.calls);
      Regroup(shell.sleeps, sleepsBefore, StepSleeps(retryWaits, i, shell.reply, |before|), next.sleeps, rest.sleeps);
    }

    /** `run_heartbeat_check`: one full check, as `HeartbeatTrace` describes
        it; the time of the response is recorded when one is seen. */
    method RunHeartbeatCheck(shell: Shell) returns (ok: bool)
      modifies this, shell
      ensures var t := HeartbeatTrace(retryWaits, shell.reply, |old(shell.calls)|, channel, targetChannel, testMessage, shell.clock);
        && ok == t.ok
        && shell.calls == old(shell.calls) + t.calls
        && shell.sleeps == old(shell.sleeps) + t.sleeps
        && lastResponseTime == (if t.respondedAt.Some? then Some(shell.clock(t.respondedAt.value)) else old(lastResponseTime))
        && messageId == old(messageId)
    {
      ghost var calls0 := shell.calls;
      ghost var sleeps0 := shell.sleeps;
      ghost var t := HeartbeatTrace(retryWaits, shell.reply, |shell.calls|, channel, targetChannel, testMessage, shell.clock);
      var sent := SendTestMessage(shell);
      for i := 0 to |retryWaits|
        invariant var rest := RetryTrace(retryWaits, i, shell.reply, |shell.calls|, channel, targetChannel, testMessage, shell.clock);
          && t.ok == rest.ok && t.respondedAt == rest.respondedAt
          && shell.calls + rest.calls == calls0 + t.calls
          && shell.sleeps + rest.sleeps == sleeps0 + t.sleeps
        invariant lastResponseTime == old(lastResponseTime) && messageId == old(messageId)
      {
        var up := Retry(shell, i);
        if up {
          return true;
        }
      }
      ok := RestartAndCheck(shell);
    }
  }
}
