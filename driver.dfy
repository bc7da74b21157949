/**
 * `cseries_DT` as an object: the pump's configuration, its serial line, and the attributes its
 * methods assign. Each method performs the source's steps in the source's order and is proved to
 * have the effect the matching `DriverSpec` function describes.
 */
module Driver {
  import opened Base
  import opened Py
  import Utf8
  import opened CommandFrame
  import opened StatusFrame
  import opened StatusObject
  import opened PumpConfig
  import opened Sequencing
  import opened DriverSpec
  import opened Dispensing

  /**
   * The serial connection: every frame written, oldest first, and the reply lines the pump has yet
   * to send, next first. A frame goes on the wire as its UTF-8 encoding.
   */
  class Link {
    var written: seq<string>
    var replies: seq<seq<byte>>

    constructor (replies: seq<seq<byte>>)
      ensures written == [] && this.replies == replies
    {
      written := [];
      this.replies := replies;
    }

    /** `connection.write`. */
    method Write(frame: string)
      modifies this
      ensures written == old(written) + [frame] && replies == old(replies)
    {
      written := written + [frame];
    }

    /** `connection.readline`: the next reply line, or None when the pump has sent all it will. */
    method ReadLine() returns (line: Option<seq<byte>>)
      modifies this
      ensures written == old(written)
      ensures old(replies) == [] ==> line.None? && replies == []
      ensures old(replies) != [] ==> line == Some(old(replies)[0]) && replies == old(replies)[1..]
    {
      if replies == [] {
        line := None;
      } else {
        line := Some(replies[0]);
        replies := replies[1..];
      }
    }
  }

  class Pump {
    const cfg: Config
    const link: Link

    var command: string
    var operand: string
    var cmd2send: seq<byte>
    var string2send: string
    var readTextBytes: seq<byte>
    var readTextStr: string
    var commands: seq<string>
    var operands: seq<string>
    var maxSteps: Option<int>

    /** A pump loaded from its configuration row, on a line that will answer with `link`'s replies. */
    constructor (cfg: Config, link: Link)
      ensures this.cfg == cfg && this.link == link
      ensures State() == Snapshot(link.written, link.replies, "", "", [], "", [], "", [], [], None)
    {
      this.cfg := cfg;
      this.link := link;
      command, operand, cmd2send, string2send := "", "", [], "";
      readTextBytes, readTextStr, commands, operands := [], "", [], [];
      maxSteps := None;
    }

    /** The driver's state as `DriverSpec` sees it. */
    function State(): Snapshot
      reads this, link
    {
      Snapshot(link.written, link.replies, command, operand, cmd2send, string2send,
               readTextBytes, readTextStr, commands, operands, maxSteps)
    }

    /** The tail of `send_cmd` and `send_cmd_multi`: encode, write, read a line, decode it. */
    method Transmit(frame: string) returns (out: Outcome)
      modifies this, link
      ensures Run(State(), out) == DriverSpec.Exchange(old(State()), frame)
    {
      cmd2send := Utf8.Encode(frame);
      string2send := frame;
      link.Write(frame);
      var line := link.ReadLine();
      if line.None? {
        return Raised(RepliesExhausted);
      }
      readTextBytes := line.value;
      var text := Utf8.Decode(readTextBytes);
      if text.None? {
        return Raised(DecodeFailed);
      }
      readTextStr := text.value;
      out := Ok;
    }

    /** `send_cmd(command, operand)`. */
    method SendCmd(command: string, operand: Option<string>) returns (out: Outcome)
      modifies this, link
      ensures Run(State(), out) == DriverSpec.SendCmd(old(State()), cfg.address, command, operand)
    {
      this.command := command;
      var frame: string;
      if operand.Some? {
        frame := [StartMarker] + cfg.address + this.command + operand.value + [ExecuteMarker, EndMarker];
        this.operand := operand.value;
      } else {
        frame := [StartMarker] + cfg.address + this.command + [ExecuteMarker, EndMarker];
      }
      assert frame == Frame(cfg.address, Body(command, operand));
      out := Transmit(frame);
    }

    /** `send_cmd_multi(commands, operands)`. */
    method SendCmdMulti(commands: seq<string>, operands: seq<string>) returns (out: Outcome)
      modifies this, link
      ensures Run(State(), out) == DriverSpec.SendCmdMulti(old(State()), cfg.address, commands, operands)
    {
      this.commands := commands;
      this.operands := operands;
      var combined := Pairs(this.commands, this.operands);
      var combinedStr := Join(combined);
      var frame := [StartMarker] + cfg.address + combinedStr + [ExecuteMarker, EndMarker];
      out := Transmit(frame);
    }

    /**
     * `wait4idle(address)`: poll until a reply holds the idle byte. The loop runs while the pump
     * still has replies to give; the poll after the last one is answered by none.
     */
    method Wait4Idle(address: string) returns (out: Outcome)
      modifies link
      ensures Run(State(), out) == DriverSpec.Wait4Idle(old(State()), address)
    {
      var outData := [StartMarker] + address + ReportStatus + [ExecuteMarker, EndMarker];
      assert outData == Poll(address);
      while link.replies != []
        invariant DriverSpec.Wait4Idle(State(), address) == DriverSpec.Wait4Idle(old(State()), address)
        decreases |link.replies|
      {
        link.Write(outData);
        var back := link.ReadLine();
        if IsIdleReply(back.value) {
          return Ok;
        }
      }
      link.Write(outData);
      out := Raised(RepliesExhausted);
    }

    /** `switch_valve(destination)`. */
    method SwitchValve(destination: Valve) returns (out: Outcome)
      modifies this, link
      ensures Run(State(), out) == DriverSpec.SwitchValve(old(State()), cfg.address, destination)
    {
      out := Wait4Idle(cfg.address);
      if out.Raised? {
        return;
      }
      out := QueryValve(destination);
    }

    /** `switch_valve` after its first idle wait: the `?6` query, and the status built from its reply. */
    method QueryValve(destination: Valve) returns (out: Outcome)
      modifies this, link
      ensures Run(State(), out) == DriverSpec.QueryValve(old(State()), cfg.address, destination)
    {
      out := SendCmd(Report, Some(ValvePositionItem));
      if out.Raised? {
        return;
      }
      var created := Status.Create(readTextBytes);
      if created.None? {
        return Raised(ReplyTooShort);
      }
      out := SettleAndSwitch(destination, created.value, DecodeReply(readTextBytes));
    }

    /**
     * The end of `switch_valve`: the second idle wait, then the valve letter unless the data is already it.
     * From QueryValve the report always decoded (DriverSpec.QueryReportDecodes), so `statusTemp.data` is set.
     */
    method SettleAndSwitch(destination: Valve, statusTemp: Status, ghost report: ReplyDecode) returns (out: Outcome)
      requires !report.Truncated?
      requires report.Undecodable? ==> statusTemp.response.None?
      requires report.Decoded? ==> statusTemp.response.Some? && statusTemp.data == report.reply.data
      modifies this, link
      ensures Run(State(), out) == DriverSpec.SettleAndSwitch(old(State()), cfg.address, destination, report)
    {
      out := Wait4Idle(cfg.address);
      if out.Raised? {
        return;
      }
      if statusTemp.response.None? {
        return Raised(MissingAttribute("data"));
      }
      if UpperIs(statusTemp.data, Letter(destination)) {
        return;
      }
      out := SendCmd([Letter(destination)], None);
    }

    /** `move2pos_abs_ml(ml)`. */
    method Move2PosAbsMl(ml: real) returns (out: Outcome)
      modifies this, link
      ensures Run(State(), out) == DriverSpec.Move2Pos(old(State()), cfg, ml)
    {
      if maxSteps.None? {
        return Raised(MissingAttribute("max_steps"));
      }
      if cfg.syringeVolume == 0 {
        return Raised(DivisionByZero);
      }
      var steps := StepsFor(maxSteps.value, cfg.syringeVolume, ml);
      if InRange(steps, maxSteps.value) {
        out := SendCmd(MoveTo, Some(IntToString(steps)));
      } else {
        out := Ok;
      }
    }

    /**
     * One call of a plan, made by the method the source calls for it: when it raises, that is how
     * the plan ends; otherwise the rest of the plan is left to run.
     */
    method Perform(step: Step, ghost todo: seq<Step>) returns (out: Outcome)
      requires todo != [] && todo[0] == step
      modifies this, link
      ensures out.Raised? ==> Run(State(), out) == RunPlan(old(State()), cfg, todo)
      ensures out.Ok? ==> RunPlan(State(), cfg, todo[1..]) == RunPlan(old(State()), cfg, todo)
    {
      ghost var before := State();
      match step
      case Switch(v) => out := SwitchValve(v);
      case WaitIdle => out := Wait4Idle(cfg.address);
      case Move(ml) => out := Move2PosAbsMl(ml);
      case Send(c, o) => out := SendCmd(c, Some(o));
      Next(before, cfg, todo);
    }

    /**
     * Four calls `disp_ml` makes in a row: switch the valve to `valve`, wait for idle, move the
     * plunger to `ml`, wait for idle.
     */
    method SwitchAndMove(valve: Valve, ml: real, ghost todo: seq<Step>) returns (out: Outcome)
      requires |todo| >= 4 && todo[..4] == [Switch(valve), WaitIdle, Move(ml), WaitIdle]
      modifies this, link
      ensures out.Raised? ==> Run(State(), out) == RunPlan(old(State()), cfg, todo)
      ensures out.Ok? ==> RunPlan(State(), cfg, todo[4..]) == RunPlan(old(State()), cfg, todo)
    {
      ghost var rest := todo;
      assert rest[0] == Switch(valve) && rest[1] == WaitIdle && rest[2] == Move(ml) && rest[3] == WaitIdle;
      out := Perform(Switch(valve), rest);
      if out.Raised? { return; }
      rest := rest[1..];
      out := Perform(WaitIdle, rest);
      if out.Raised? { return; }
      rest := rest[1..];
      out := Perform(Move(ml), rest);
      if out.Raised? { return; }
      rest := rest[1..];
      out := Perform(WaitIdle, rest);
      if out.Raised? { return; }
      assert rest[1..] == todo[4..];
    }

    /** Empty the current syringe: inlet valve, plunger home, each followed by an idle wait. */
    method EmptyCurrentSyringe() returns (out: Outcome)
      modifies this, link
      ensures Run(State(), out) == RunPlan(old(State()), cfg, EmptySyringe)
    {
      out := SwitchAndMove(Inlet, 0.0, EmptySyringe);
      assert EmptySyringe[4..] == [];
    }

    /** One stroke: aspirate `ml` through the inlet, then dispense through the outlet back to 0. */
    method StrokeOf(ml: real) returns (out: Outcome)
      modifies this, link
      ensures Run(State(), out) == RunPlan(old(State()), cfg, Stroke(ml))
    {
      ghost var todo := Stroke(ml);
      assert todo[4..][..4] == [Switch(Outlet), WaitIdle, Move(0.0), WaitIdle];
      // aspirate the needed volume
      out := SwitchAndMove(Inlet, ml, todo);
      if out.Raised? { return; }
      // switch back to the outlet valve and dispense to it
      todo := todo[4..];
      out := SwitchAndMove(Outlet, 0.0, todo);
      if out.Raised? { return; }
      assert todo[4..] == [];
    }

    /** `disp_ml(ml)`: empty the syringe, `total_strokes` full strokes, then the partial stroke. */
    method DispMl(ml: real) returns (out: Outcome)
      modifies this, link
      ensures Run(State(), out) == DriverSpec.DispMl(old(State()), cfg, ml)
    {
      if cfg.syringeVolume == 0 {
        return Raised(DivisionByZero);
      }
      var totalStrokes := StrokeCount(ml, cfg.syringeVolume);
      var partialVol := PartialVolume(ml, cfg.syringeVolume);
      ghost var n: nat := if totalStrokes < 0 then 0 else totalStrokes;
      ghost var start := State();
      ghost var goal := DriverSpec.DispMl(start, cfg, ml);

      out := EmptyCurrentSyringe();
      if out.Raised? {
        assert Run(State(), out) == goal by {
          DispenseSplit(start, cfg, ml);
        }
        return;
      }
      assert Strokes(State(), cfg, Copies(n, cfg.syringeVolume as real) + [partialVol]) == goal by {
        DispenseSplit(start, cfg, ml);
      }
      out := FullStrokes(totalStrokes, [partialVol]);
      if out.Raised? {
        return;
      }
      out := StrokeStep(partialVol, [partialVol]);
      assert [partialVol][1..] == [];
    }

    /** The next of the strokes still to make, `pending[0]`, which is `ml`. */
    method StrokeStep(ml: real, ghost pending: seq<real>) returns (out: Outcome)
      requires pending != [] && pending[0] == ml
      modifies this, link
      ensures out.Raised? ==> Run(State(), out) == Strokes(old(State()), cfg, pending)
      ensures out.Ok? ==> Strokes(State(), cfg, pending[1..]) == Strokes(old(State()), cfg, pending)
    {
      ghost var before := State();
      out := StrokeOf(ml);
      StrokesNext(before, cfg, pending);
    }

    /**
     * The loop of `disp_ml`: `count` full strokes (none when `count` is not positive), stated as
     * the start of running `rest` after them.
     */
    method FullStrokes(count: int, ghost rest: seq<real>) returns (out: Outcome)
      modifies this, link
      ensures var n := if count < 0 then 0 else count;
        var goal := Strokes(old(State()), cfg, Copies(n, cfg.syringeVolume as real) + rest);
        if out.Raised? then Run(State(), out) == goal else Strokes(State(), cfg, rest) == goal
    {
      ghost var n: nat := if count < 0 then 0 else count;
      ghost var pending := Copies(n, cfg.syringeVolume as real) + rest;
      ghost var goal := Strokes(State(), cfg, pending);
      ghost var left := n;
      out := Ok;
      var i := 0;
      while i < count
        invariant 0 <= i <= n && left == n - i
        invariant pending == Copies(left, cfg.syringeVolume as real) + rest
        invariant out == Ok
        invariant Strokes(State(), cfg, pending) == goal
      {
        CopiesFront(left, cfg.syringeVolume as real, rest);
        ghost var later := Copies(left - 1, cfg.syringeVolume as real) + rest;
        out := StrokeStep(cfg.syringeVolume as real, pending);
        if out.Raised? {
          return;
        }
        i, pending, left := i + 1, later, left - 1;
      }
      assert pending == rest by {
        assert left == 0;
      }
    }

    /** `config_pump()`. */
    method ConfigPump() returns (out: Outcome)
      modifies this, link
      ensures Run(State(), out) == DriverSpec.ConfigPump(old(State()), cfg)
    {
      out := SendCmd("N", Some(cfg.increMode));
      if out.Raised? {
        return;
      }
      if cfg.increMode == "0" {
        if cfg.strokeClass == "1" {
          maxSteps := Some(3000);
        } else if cfg.strokeClass == "2" {
          maxSteps := Some(24000);
        }
      } else if cfg.increMode == "1" {
        if cfg.strokeClass == "1" {
          maxSteps := Some(24000);
        } else if cfg.strokeClass == "2" {
          maxSteps := Some(196000);
        }
      } else {
        return Raised(Exited);
      }
      out := SendMotionSettings();
    }

    /** The rest of `config_pump()`: an idle wait, then the acceleration slope and the velocities, each followed by an idle wait. */
    method SendMotionSettings() returns (out: Outcome)
      modifies this, link
      ensures Run(State(), out) == RunPlan(old(State()), cfg, ConfigPlan(cfg))
    {
      ghost var plan := ConfigPlan(cfg);
      ConfigPlanShape(cfg);
      out := Perform(WaitIdle, plan);
      if out.Raised? { return; }
      out := SendAndWait("L", cfg.accSlope, plan[1..]);
      if out.Raised? { return; }
      assert plan[1..][2..] == plan[3..];
      out := SendVelocities(plan[3..]);
    }

    /**
     * The velocity settings at the end of `config_pump()`: start, top and cutoff velocity, then the
     * cutoff increment, each followed by an idle wait; `todo` is the plan they start.
     */
    method SendVelocities(ghost todo: seq<Step>) returns (out: Outcome)
      requires VelocitySettings(cfg, todo)
      modifies this, link
      ensures Run(State(), out) == RunPlan(old(State()), cfg, todo)
    {
      ghost var rest := todo;
      out := SendAndWait("v", cfg.startVelo, rest);
      if out.Raised? { return; }
      rest := rest[2..];
      out := SendAndWait("V", cfg.topVelo, rest);
      if out.Raised? { return; }
      rest := rest[2..];
      out := SendAndWait("c", cfg.cutoffVelo, rest);
      if out.Raised? { return; }
      rest := rest[2..];
      out := SendAndWait("C", cfg.cutoffIncre, rest);
      if out.Raised? { return; }
      assert rest[2..] == [];
    }

    /** One setting of `config_pump()`: `send_cmd(command, operand)`, then `wait4idle()`. */
    method SendAndWait(command: string, operand: string, ghost todo: seq<Step>) returns (out: Outcome)
      requires |todo| >= 2 && todo[0] == Send(command, operand) && todo[1] == WaitIdle
      modifies this, link
      ensures out.Raised? ==> Run(State(), out) == RunPlan(old(State()), cfg, todo)
      ensures out.Ok? ==> RunPlan(State(), cfg, todo[2..]) == RunPlan(old(State()), cfg, todo)
    {
      out := Perform(Send(command, operand), todo);
      if out.Raised? { return; }
      out := Perform(WaitIdle, todo[1..]);
      if out.Raised? { return; }
      assert todo[1..][1..] == todo[2..];
    }
  }
}
