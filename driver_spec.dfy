/**
 * The observable behaviour of `cseries_DT`, as functions from one driver state to the next: what
 * each operation writes to the serial line, which replies it consumes, which attributes it sets,
 * and which exception, if any, ends it.
 */
module DriverSpec {
  import opened Base
  import opened Py
  import Utf8
  import opened CommandFrame
  import opened StatusFrame
  import opened PumpConfig
  import opened Sequencing

  /** The exceptions an operation can end in. */
  datatype Fault =
    | DecodeFailed               // UnicodeDecodeError from `read_text_bytes.decode()`
    | ReplyTooShort              // IndexError while splitting the valve report
    | MissingAttribute(name: string)  // AttributeError: the attribute was never set
    | DivisionByZero             // ZeroDivisionError: a syringe volume of 0
    | Exited                     // `exit()` after an invalid increment mode
    | RepliesExhausted           // no reply line is left; the pump would still be waited on

  datatype Outcome = Ok | Raised(fault: Fault)

  /**
   * The attributes of `cseries_DT` the operations assign, with the serial line: `written` is every
   * frame written, oldest first, and `replies` the lines the pump has yet to send, next first.
   * `max_steps` is the only one that can be unset when an operation reads it.
   */
  datatype Snapshot = Snapshot(
    written: seq<string>,
    replies: seq<seq<byte>>,
    command: string,
    operand: string,
    cmd2send: seq<byte>,
    string2send: string,
    readTextBytes: seq<byte>,
    readTextStr: string,
    commands: seq<string>,
    operands: seq<string>,
    maxSteps: Option<int>)

  datatype Run = Run(state: Snapshot, outcome: Outcome)

  /** The attributes only `config_pump` and the command senders assign are the same in both states. */
  predicate SameSettings(a: Snapshot, b: Snapshot)
  {
    a.command == b.command && a.operand == b.operand && a.commands == b.commands
    && a.operands == b.operands && a.maxSteps == b.maxSteps
  }

  /**
   * Write one frame and read one reply line, the tail that `send_cmd` and `send_cmd_multi` share:
   * the frame is kept as `string2send` and its UTF-8 encoding as `cmd2send`, the frame is written,
   * the next reply is stored as `read_text_bytes` and its UTF-8 decoding as `read_text_str`.
   * Nothing else changes.
   */
  function Exchange(s: Snapshot, frame: string): (r: Run)
    ensures r.state.written == s.written + [frame] && r.state.string2send == frame
    ensures Utf8.Decode(r.state.cmd2send) == Some(frame)
    ensures r.outcome == Raised(RepliesExhausted) <==> s.replies == []
    ensures r.outcome.Ok? <==> s.replies != [] && Utf8.Decode(s.replies[0]).Some?
    ensures r.outcome.Raised? ==> r.outcome.fault == RepliesExhausted || r.outcome.fault == DecodeFailed
    ensures s.replies != [] ==> r.state.replies == s.replies[1..] && r.state.readTextBytes == s.replies[0]
    ensures s.replies == [] ==> r.state.replies == [] && r.state.readTextBytes == s.readTextBytes
    ensures !r.outcome.Ok? ==> r.state.readTextStr == s.readTextStr
    ensures r.outcome.Ok? ==> Utf8.Decode(r.state.readTextBytes) == Some(r.state.readTextStr)
    ensures SameSettings(s, r.state)
  {
    Utf8.DecodeEncode(frame);
    var logged := s.(written := s.written + [frame], string2send := frame, cmd2send := Utf8.Encode(frame));
    if s.replies == [] then Run(logged, Raised(RepliesExhausted))
    else
      var read := logged.(replies := s.replies[1..], readTextBytes := s.replies[0]);
      match Utf8.Decode(s.replies[0])
      case None => Run(read, Raised(DecodeFailed))
      case Some(text) => Run(read.(readTextStr := text), Ok)
  }

  /** `send_cmd(command, operand)`, with None for Python's `None`. */
  function SendCmd(s: Snapshot, address: string, command: string, operand: Option<string>): (r: Run)
    ensures r.state.written == s.written + [Frame(address, Body(command, operand))]
    ensures r.state.command == command
    ensures r.state.operand == (if operand.Some? then operand.value else s.operand)
    ensures r.state.commands == s.commands && r.state.operands == s.operands && r.state.maxSteps == s.maxSteps
    ensures r.outcome.Ok? <==> s.replies != [] && Utf8.Decode(s.replies[0]).Some?
  {
    var withCommand := s.(command := command, operand := (if operand.Some? then operand.value else s.operand));
    Exchange(withCommand, Frame(address, Body(command, operand)))
  }

  /** `send_cmd_multi(commands, operands)`. */
  function SendCmdMulti(s: Snapshot, address: string, commands: seq<string>, operands: seq<string>): (r: Run)
    ensures r.state.written == s.written + [Frame(address, MultiBody(commands, operands))]
    ensures r.state.commands == commands && r.state.operands == operands
    ensures r.state.command == s.command && r.state.operand == s.operand && r.state.maxSteps == s.maxSteps
    ensures r.outcome.Ok? <==> s.replies != [] && Utf8.Decode(s.replies[0]).Some?
  {
    Exchange(s.(commands := commands, operands := operands), Frame(address, MultiBody(commands, operands)))
  }

  /** `96 in back`: the reply holds the byte of the idle, error-free status code. */
  predicate IsIdleReply(reply: seq<byte>) { 96 in reply }

  /** The index of the first idle reply, if there is one. */
  function FirstIdle(replies: seq<seq<byte>>): (r: Option<nat>)
    ensures r.Some? ==> r.value < |replies| && IsIdleReply(replies[r.value])
    ensures r.Some? ==> forall j :: 0 <= j < r.value ==> !IsIdleReply(replies[j])
    ensures r.None? ==> forall j :: 0 <= j < |replies| ==> !IsIdleReply(replies[j])
  {
    if replies == [] then None
    else if IsIdleReply(replies[0]) then Some(0)
    else match FirstIdle(replies[1..])
      case None => None
      case Some(n) => Some(n + 1)
  }

  /** `n` status polls. */
  function Polls(address: string, n: nat): (r: seq<string>)
    ensures |r| == n && forall i :: 0 <= i < n ==> r[i] == Poll(address)
  {
    if n == 0 then [] else [Poll(address)] + Polls(address, n - 1)
  }

  /**
   * `wait4idle(address)`, one poll per round: write the poll, read a line, stop if it is idle.
   * It returns at the first idle reply, having written one poll per reply read, and it does not
   * return while the replies lack the idle byte; the attributes are untouched (the reply is a
   * local of the loop).
   */
  function Wait4Idle(s: Snapshot, address: string): (r: Run)
    decreases |s.replies|
    ensures r.outcome.Ok? <==> FirstIdle(s.replies).Some?
    ensures r.outcome.Raised? ==> r.outcome.fault == RepliesExhausted
    ensures match FirstIdle(s.replies)
      case Some(n) => r.state == s.(written := s.written + Polls(address, n + 1), replies := s.replies[n + 1..])
      case None => r.state == s.(written := s.written + Polls(address, |s.replies| + 1), replies := [])
  {
    var polled := s.(written := s.written + [Poll(address)]);
    if s.replies == [] then Run(polled, Raised(RepliesExhausted))
    else if IsIdleReply(s.replies[0]) then Run(polled.(replies := s.replies[1..]), Ok)
    else
      var r := Wait4Idle(polled.(replies := s.replies[1..]), address);
      assert s.written + [Poll(address)] + Polls(address, |s.replies|) == s.written + Polls(address, |s.replies| + 1);
      assert FirstIdle(s.replies[1..]).Some? ==>
        s.written + [Poll(address)] + Polls(address, FirstIdle(s.replies[1..]).value + 1)
        == s.written + Polls(address, FirstIdle(s.replies[1..]).value + 2);
      r
  }

  /**
   * `switch_valve(destination)`: wait for idle, ask for the valve position (`?6`), split that reply,
   * wait for idle again, then send the valve letter unless the reported data, upper-cased, already
   * is that letter.
   */
  function SwitchValve(s: Snapshot, address: string, destination: Valve): (r: Run)
    ensures r.state.maxSteps == s.maxSteps
  {
    var idle := Wait4Idle(s, address);
    if idle.outcome.Raised? then idle else QueryValve(idle.state, address, destination)
  }

  /** The part of `switch_valve` after the first idle wait: the `?6` query and its reply. */
  function QueryValve(s: Snapshot, address: string, destination: Valve): (r: Run)
    ensures r.state.maxSteps == s.maxSteps
  {
    var query := SendCmd(s, address, Report, Some(ValvePositionItem));
    if query.outcome.Raised? then query
    else
      var report := DecodeReply(query.state.readTextBytes);
      if report.Truncated? then Run(query.state, Raised(ReplyTooShort))
      else SettleAndSwitch(query.state, address, destination, report)
  }

  /** After a `?6` query that returned, the reply it stored decodes: the status object has its `data`. */
  lemma QueryReportDecodes(s: Snapshot, address: string)
    requires SendCmd(s, address, Report, Some(ValvePositionItem)).outcome.Ok?
    ensures !DecodeReply(SendCmd(s, address, Report, Some(ValvePositionItem)).state.readTextBytes).Undecodable?
  {
  }

  /**
   * The end of `switch_valve`: the second idle wait, then reading the reported data (which fails
   * if the report could not be decoded), then the valve letter if the data is not already it.
   * Called from QueryValve the report is never Undecodable (QueryReportDecodes): the `?6` query
   * returned, so the same reply already decoded in `send_cmd`. The branch is kept so that the function stands for the
   * source's statements on any status object.
   */
  function SettleAndSwitch(s: Snapshot, address: string, destination: Valve, report: ReplyDecode): (r: Run)
    requires !report.Truncated?
    ensures r.state.maxSteps == s.maxSteps
  {
    var settled := Wait4Idle(s, address);
    if settled.outcome.Raised? then settled
    else if report.Undecodable? then Run(settled.state, Raised(MissingAttribute("data")))
    else if UpperIs(report.reply.data, Letter(destination)) then settled
    else SendCmd(settled.state, address, [Letter(destination)], None)
  }

  /**
   * `move2pos_abs_ml(ml)`: reading `max_steps` fails if `config_pump` never assigned it, a syringe
   * volume of 0 fails the division; otherwise `A` and the step number are sent when the step
   * number is in range, and nothing happens when it is not.
   */
  function Move2Pos(s: Snapshot, cfg: Config, ml: real): (r: Run)
    ensures r.state.maxSteps == s.maxSteps
  {
    match s.maxSteps
    case None => Run(s, Raised(MissingAttribute("max_steps")))
    case Some(maxSteps) =>
      if cfg.syringeVolume == 0 then Run(s, Raised(DivisionByZero))
      else
        var steps := StepsFor(maxSteps, cfg.syringeVolume, ml);
        if InRange(steps, maxSteps) then SendCmd(s, cfg.address, MoveTo, Some(IntToString(steps)))
        else Run(s, Ok)
  }

  /** One call of a plan. */
  function RunStep(s: Snapshot, cfg: Config, step: Step): (r: Run)
    ensures r.state.maxSteps == s.maxSteps
  {
    match step
    case Switch(v) => SwitchValve(s, cfg.address, v)
    case WaitIdle => Wait4Idle(s, cfg.address)
    case Move(ml) => Move2Pos(s, cfg, ml)
    case Send(c, o) => SendCmd(s, cfg.address, c, Some(o))
  }

  /** The calls of a plan one after the other, up to the first exception. */
  function RunPlan(s: Snapshot, cfg: Config, plan: seq<Step>): (r: Run)
    decreases |plan|
    ensures r.state.maxSteps == s.maxSteps
  {
    if plan == [] then Run(s, Ok)
    else
      var first := RunStep(s, cfg, plan[0]);
      if first.outcome.Raised? then first else RunPlan(first.state, cfg, plan[1..])
  }

  /**
   * `disp_ml(ml)`: the stroke count divides by the syringe volume before anything is sent, so a
   * volume of 0 fails at once; otherwise the dispense plan runs.
   */
  function DispMl(s: Snapshot, cfg: Config, ml: real): (r: Run)
    ensures cfg.syringeVolume == 0 ==> r == Run(s, Raised(DivisionByZero))
    ensures r.state.maxSteps == s.maxSteps
  {
    if cfg.syringeVolume == 0 then Run(s, Raised(DivisionByZero))
    else RunPlan(s, cfg, DispensePlan(cfg.syringeVolume, ml))
  }

  /**
   * `config_pump()`: send the increment mode, derive `max_steps`, stop with `exit()` on an invalid
   * increment mode, and otherwise send the slope and the velocities, each followed by an idle wait.
   */
  function ConfigPump(s: Snapshot, cfg: Config): (r: Run)
    ensures r.state.maxSteps == match MaxStepsFor(cfg.increMode, cfg.strokeClass)
      case Steps(n) => (if s.replies != [] && Utf8.Decode(s.replies[0]).Some? then Some(n) else s.maxSteps)
      case _ => s.maxSteps
  {
    var mode := SendCmd(s, cfg.address, "N", Some(cfg.increMode));
    if mode.outcome.Raised? then mode
    else match MaxStepsFor(cfg.increMode, cfg.strokeClass)
      case IncrementModeInvalid => Run(mode.state, Raised(Exited))
      case StrokeClassInvalid => RunPlan(mode.state, cfg, ConfigPlan(cfg))
      case Steps(n) => RunPlan(mode.state.(maxSteps := Some(n)), cfg, ConfigPlan(cfg))
  }

  /** Running a plan that is not empty: its first call, then, unless that raised, the rest. */
  lemma Next(s: Snapshot, cfg: Config, plan: seq<Step>)
    requires plan != []
    ensures var first := RunStep(s, cfg, plan[0]);
      RunPlan(s, cfg, plan) == if first.outcome.Raised? then first else RunPlan(first.state, cfg, plan[1..])
  {
  }

  /** Running two plans one after the other is running their concatenation. */
  lemma {:induction false} RunPlanAppend(s: Snapshot, cfg: Config, p: seq<Step>, q: seq<Step>)
    ensures var r := RunPlan(s, cfg, p);
      RunPlan(s, cfg, p + q) == if r.outcome.Raised? then r else RunPlan(r.state, cfg, q)
    decreases |p|
  {
    if p == [] {
      assert p + q == q;
    } else {
      assert (p + q)[0] == p[0] && (p + q)[1..] == p[1..] + q;
      var first := RunStep(s, cfg, p[0]);
      if first.outcome.Ok? {
        RunPlanAppend(first.state, cfg, p[1..], q);
      }
    }
  }
}
