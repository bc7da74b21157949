/**
 * What the driver's operations send, read off the written log: the command bodies of the frames,
 * status polls left out, and the plunger targets of the move commands among them.
 */
module DriverTrace {
  import opened Base
  import opened Py
  import opened CommandFrame
  import opened StatusFrame
  import opened PumpConfig
  import opened Sequencing
  import Utf8
  import opened DriverSpec

  /** The body of one frame addressed to `address`, unless it is a status poll. */
  function CommandOf(address: string, f: string): seq<string>
  {
    match Unframe(address, f)
    case Some(body) => if body == ReportStatus then [] else [body]
    case None => []
  }

  /** The command bodies of a log, oldest first, status polls left out. */
  function Commands(address: string, log: seq<string>): seq<string>
    decreases |log|
  {
    if log == [] then [] else Commands(address, log[..|log| - 1]) + CommandOf(address, log[|log| - 1])
  }

  lemma {:induction false} CommandsAppend(address: string, a: seq<string>, b: seq<string>)
    ensures Commands(address, a + b) == Commands(address, a) + Commands(address, b)
    decreases |b|
  {
    if b == [] {
      assert a + b == a;
    } else {
      var front := b[..|b| - 1];
      assert (a + b)[..|a + b| - 1] == a + front;
      assert (a + b)[|a + b| - 1] == b[|b| - 1];
      CommandsAppend(address, a, front);
    }
  }

  /** A frame with a body other than the status query adds that body. */
  lemma CommandsAfterFrame(address: string, log: seq<string>, body: string)
    requires body != ReportStatus
    ensures Commands(address, log + [Frame(address, body)]) == Commands(address, log) + [body]
  {
    UnframeFrame(address, body);
    CommandsAppend(address, log, [Frame(address, body)]);
    assert [Frame(address, body)][..0] == [];
  }

  /** Status polls add nothing. */
  lemma {:induction false} PollsCarryNoCommand(address: string, n: nat)
    ensures Commands(address, Polls(address, n)) == []
    decreases n
  {
    if n > 0 {
      var p := Poll(address);
      UnframeFrame(address, ReportStatus);
      assert CommandOf(address, p) == [];
      assert Commands(address, [p]) == [] by {
        assert [p][..0] == [];
      }
      CommandsAppend(address, [p], Polls(address, n - 1));
      PollsCarryNoCommand(address, n - 1);
    }
  }

  lemma CommandsAfterPolls(address: string, log: seq<string>, n: nat)
    ensures Commands(address, log + Polls(address, n)) == Commands(address, log)
  {
    CommandsAppend(address, log, Polls(address, n));
    PollsCarryNoCommand(address, n);
  }

  /** `wait4idle` sends no command, whether it returns or runs out of replies. */
  lemma WaitSendsNothing(s: Snapshot, address: string)
    ensures Commands(address, Wait4Idle(s, address).state.written) == Commands(address, s.written)
  {
    match FirstIdle(s.replies)
    case Some(n) => CommandsAfterPolls(address, s.written, n + 1);
    case None => CommandsAfterPolls(address, s.written, |s.replies| + 1);
  }

  /** No valve letter is the status query. */
  lemma LetterNotPoll(v: Valve)
    ensures Letter(v) != 'Q' && Letter(v) != 'A'
    ensures [Letter(v)] != ReportStatus
  {
    match v
    case Inlet =>
    case Outlet =>
    case Bypass =>
    case Extra =>
  }

  /** The reply `switch_valve` splits: the line after the first idle reply. */
  function ValveReport(replies: seq<seq<byte>>): Option<seq<byte>>
  {
    match FirstIdle(replies)
    case Some(i) => if i + 1 < |replies| then Some(replies[i + 1]) else None
    case None => None
  }

  /**
   * When `switch_valve` returns, it has sent the position query `?6` and then the valve letter,
   * the letter exactly when the reported data, upper-cased, is not already that letter: at most
   * one valve command per call.
   */
  lemma SwitchValveCommands(s: Snapshot, address: string, destination: Valve)
    requires SwitchValve(s, address, destination).outcome.Ok?
    ensures ValveReport(s.replies).Some? && DecodeReply(ValveReport(s.replies).value).Decoded?
    ensures var data := DecodeReply(ValveReport(s.replies).value).reply.data;
      Commands(address, SwitchValve(s, address, destination).state.written)
      == Commands(address, s.written) + [Report + ValvePositionItem]
         + (if UpperIs(data, Letter(destination)) then [] else [[Letter(destination)]])
  {
    var idle := Wait4Idle(s, address);
    assert idle.outcome.Ok? && SwitchValve(s, address, destination) == QueryValve(idle.state, address, destination);
    QueryValveCommands(idle.state, address, destination);
    ReportAfterWait(s, address);
    WaitSendsNothing(s, address);
  }

  /** After the first idle wait, the next reply is the one the valve query reads. */
  lemma ReportAfterWait(s: Snapshot, address: string)
    requires FirstIdle(s.replies).Some?
    ensures var rest := Wait4Idle(s, address).state.replies;
      ValveReport(s.replies) == if rest == [] then None else Some(rest[0])
  {
    var i := FirstIdle(s.replies).value;
    assert Wait4Idle(s, address).state.replies == s.replies[i + 1..];
  }

  lemma QueryValveCommands(s: Snapshot, address: string, destination: Valve)
    requires QueryValve(s, address, destination).outcome.Ok?
    ensures s.replies != [] && DecodeReply(s.replies[0]).Decoded?
    ensures var data := DecodeReply(s.replies[0]).reply.data;
      Commands(address, QueryValve(s, address, destination).state.written)
      == Commands(address, s.written) + [Report + ValvePositionItem]
         + (if UpperIs(data, Letter(destination)) then [] else [[Letter(destination)]])
  {
    var query := SendCmd(s, address, Report, Some(ValvePositionItem));
    var report := DecodeReply(s.replies[0]);
    assert report.Decoded?;
    CommandsAfterFrame(address, s.written, Report + ValvePositionItem);
    SettleCommands(query.state, address, destination, report);
  }

  lemma SettleCommands(s: Snapshot, address: string, destination: Valve, report: ReplyDecode)
    requires report.Decoded?
    requires SettleAndSwitch(s, address, destination, report).outcome.Ok?
    ensures Commands(address, SettleAndSwitch(s, address, destination, report).state.written)
      == Commands(address, s.written) + (if UpperIs(report.reply.data, Letter(destination)) then [] else [[Letter(destination)]])
  {
    var settled := Wait4Idle(s, address);
    WaitSendsNothing(s, address);
    if !UpperIs(report.reply.data, Letter(destination)) {
      LetterNotPoll(destination);
      CommandsAfterFrame(address, settled.state.written, [Letter(destination)]);
    }
  }

  /** A valve report too short to split makes `switch_valve` raise IndexError. */
  lemma SwitchValveShortReport(s: Snapshot, address: string, destination: Valve)
    requires ValveReport(s.replies).Some? && DecodeReply(ValveReport(s.replies).value).Truncated?
    ensures SwitchValve(s, address, destination).outcome == Raised(ReplyTooShort)
  {
    var idle := Wait4Idle(s, address);
    var i := FirstIdle(s.replies).value;
    assert idle.state.replies == s.replies[i + 1..];
  }

  /** The command `move2pos_abs_ml(ml)` sends, if any. */
  function MoveCommand(maxSteps: int, syringeVolume: int, ml: real): seq<string>
    requires syringeVolume != 0
  {
    var steps := StepsFor(maxSteps, syringeVolume, ml);
    if InRange(steps, maxSteps) then [MoveTo + IntToString(steps)] else []
  }

  /**
   * `move2pos_abs_ml`: without `max_steps`, or with a syringe volume of 0, it fails and writes
   * nothing; an out-of-range step number writes nothing and returns normally; an in-range one
   * writes exactly the frame of `A` and the step number.
   */
  lemma Move2PosWrites(s: Snapshot, cfg: Config, ml: real)
    ensures s.maxSteps.None? ==> Move2Pos(s, cfg, ml) == Run(s, Raised(MissingAttribute("max_steps")))
    ensures s.maxSteps.Some? && cfg.syringeVolume == 0 ==> Move2Pos(s, cfg, ml) == Run(s, Raised(DivisionByZero))
    ensures s.maxSteps.Some? && cfg.syringeVolume != 0 ==>
      var steps := StepsFor(s.maxSteps.value, cfg.syringeVolume, ml);
      var r := Move2Pos(s, cfg, ml);
      && (!InRange(steps, s.maxSteps.value) ==> r == Run(s, Ok))
      && (InRange(steps, s.maxSteps.value) ==> r.state.written == s.written + [Frame(cfg.address, MoveTo + IntToString(steps))])
      && (r.outcome.Ok? ==> Commands(cfg.address, r.state.written)
                            == Commands(cfg.address, s.written) + MoveCommand(s.maxSteps.value, cfg.syringeVolume, ml))
  {
    if s.maxSteps.Some? && cfg.syringeVolume != 0 {
      var steps := StepsFor(s.maxSteps.value, cfg.syringeVolume, ml);
      if InRange(steps, s.maxSteps.value) {
        CommandsAfterFrame(cfg.address, s.written, MoveTo + IntToString(steps));
      }
    }
  }

  /** The operands of the move commands (`A` followed by the operand) among some command bodies. */
  function MoveOperands(bodies: seq<string>): seq<string>
  {
    if bodies == [] then []
    else (if |bodies[0]| > 0 && bodies[0][0] == 'A' then [bodies[0][1..]] else []) + MoveOperands(bodies[1..])
  }

  lemma {:induction false} MoveOperandsAppend(a: seq<string>, b: seq<string>)
    ensures MoveOperands(a + b) == MoveOperands(a) + MoveOperands(b)
  {
    if a != [] {
      assert (a + b)[0] == a[0] && (a + b)[1..] == a[1..] + b;
      MoveOperandsAppend(a[1..], b);
    } else {
      assert a + b == b;
    }
  }

  /** The operand `move2pos_abs_ml(ml)` sends, if it sends one. */
  function MoveCommandOperand(maxSteps: int, syringeVolume: int, ml: real): seq<string>
    requires syringeVolume != 0
  {
    var steps := StepsFor(maxSteps, syringeVolume, ml);
    if InRange(steps, maxSteps) then [IntToString(steps)] else []
  }

  /** The step numbers sent for a sequence of moves, out-of-range ones left out. */
  function Targets(maxSteps: int, syringeVolume: int, moves: seq<(Valve, real)>): seq<string>
    requires syringeVolume != 0
  {
    if moves == [] then []
    else MoveCommandOperand(maxSteps, syringeVolume, moves[0].1) + Targets(maxSteps, syringeVolume, moves[1..])
  }

  lemma {:induction false} TargetsAppend(maxSteps: int, syringeVolume: int, a: seq<(Valve, real)>, b: seq<(Valve, real)>)
    requires syringeVolume != 0
    ensures Targets(maxSteps, syringeVolume, a + b) == Targets(maxSteps, syringeVolume, a) + Targets(maxSteps, syringeVolume, b)
  {
    if a != [] {
      assert (a + b)[0] == a[0] && (a + b)[1..] == a[1..] + b;
      TargetsAppend(maxSteps, syringeVolume, a[1..], b);
    } else {
      assert a + b == b;
    }
  }

  /** Bodies none of which starts with `A` carry no move operand. */
  lemma {:induction false} NoMoveAmong(bodies: seq<string>)
    requires forall i :: 0 <= i < |bodies| ==> bodies[i] == [] || bodies[i][0] != 'A'
    ensures MoveOperands(bodies) == []
  {
    if bodies != [] {
      NoMoveAmong(bodies[1..]);
    }
  }

  /** `switch_valve` sends no move. */
  lemma SwitchMoves(s: Snapshot, address: string, v: Valve)
    requires SwitchValve(s, address, v).outcome.Ok?
    ensures MoveOperands(Commands(address, SwitchValve(s, address, v).state.written))
      == MoveOperands(Commands(address, s.written))
  {
    SwitchValveCommands(s, address, v);
    var data := DecodeReply(ValveReport(s.replies).value).reply.data;
    ValveCommandsCarryNoMove(Commands(address, s.written), Commands(address, SwitchValve(s, address, v).state.written), data, v);
  }

  lemma ValveCommandsCarryNoMove(before: seq<string>, after: seq<string>, data: string, v: Valve)
    requires after == before + [Report + ValvePositionItem] + (if UpperIs(data, Letter(v)) then [] else [[Letter(v)]])
    ensures MoveOperands(after) == MoveOperands(before)
  {
    LetterNotPoll(v);
    var query := Report + ValvePositionItem;
    var letter := [Letter(v)];
    var added := [query] + (if UpperIs(data, Letter(v)) then [] else [letter]);
    assert after == before + added;
    assert forall i :: 0 <= i < |added| ==> added[i] == query || added[i] == letter;
    NoMoveAmong(added);
    MoveOperandsAppend(before, added);
  }

  /** `move2pos_abs_ml(ml)` sends the operand of its move command, if it sends one. */
  lemma MoveMoves(s: Snapshot, cfg: Config, ml: real)
    requires s.maxSteps.Some? && cfg.syringeVolume != 0
    requires Move2Pos(s, cfg, ml).outcome.Ok?
    ensures MoveOperands(Commands(cfg.address, Move2Pos(s, cfg, ml).state.written))
      == MoveOperands(Commands(cfg.address, s.written)) + MoveCommandOperand(s.maxSteps.value, cfg.syringeVolume, ml)
  {
    Move2PosWrites(s, cfg, ml);
    var ms := s.maxSteps.value;
    var steps := StepsFor(ms, cfg.syringeVolume, ml);
    MoveOperandsAppend(Commands(cfg.address, s.written), MoveCommand(ms, cfg.syringeVolume, ml));
    if InRange(steps, ms) {
      assert (MoveTo + IntToString(steps))[1..] == IntToString(steps);
    }
  }

  /** The move operand one step of a plan sends, if any. */
  function StepTargets(maxSteps: int, syringeVolume: int, step: Step): seq<string>
    requires syringeVolume != 0
  {
    if step.Move? then MoveCommandOperand(maxSteps, syringeVolume, step.ml) else []
  }

  lemma StepMoves(s: Snapshot, cfg: Config, step: Step)
    requires s.maxSteps.Some? && cfg.syringeVolume != 0 && !step.Send?
    requires RunStep(s, cfg, step).outcome.Ok?
    ensures MoveOperands(Commands(cfg.address, RunStep(s, cfg, step).state.written))
      == MoveOperands(Commands(cfg.address, s.written)) + StepTargets(s.maxSteps.value, cfg.syringeVolume, step)
  {
    match step
    case Switch(v) => SwitchMoves(s, cfg.address, v);
    case WaitIdle => WaitSendsNothing(s, cfg.address);
    case Move(ml) => MoveMoves(s, cfg, ml);
  }

  /**
   * A plan of valve switches, moves and idle waits that runs to the end sends, as move operands,
   * exactly the in-range step numbers of its moves, in order.
   */
  lemma {:induction false} RunPlanMoves(s: Snapshot, cfg: Config, plan: seq<Step>, current: Valve)
    requires s.maxSteps.Some? && cfg.syringeVolume != 0
    requires forall j :: 0 <= j < |plan| ==> !plan[j].Send?
    requires RunPlan(s, cfg, plan).outcome.Ok?
    ensures MoveOperands(Commands(cfg.address, RunPlan(s, cfg, plan).state.written))
      == MoveOperands(Commands(cfg.address, s.written)) + Targets(s.maxSteps.value, cfg.syringeVolume, ValvedMoves(plan, current))
    decreases |plan|
  {
    if plan != [] {
      var first := RunStep(s, cfg, plan[0]);
      assert first.outcome.Ok?;
      var tail := plan[1..];
      var rest := RunPlan(first.state, cfg, tail);
      assert RunPlan(s, cfg, plan) == rest;
      StepMoves(s, cfg, plan[0]);
      var next := if plan[0].Switch? then plan[0].valve else current;
      assert forall j :: 0 <= j < |tail| ==> tail[j] == plan[j + 1];
      RunPlanMoves(first.state, cfg, tail, next);
      PlanTargetsStep(s.maxSteps.value, cfg.syringeVolume, plan, current);
      Chain(MoveOperands(Commands(cfg.address, s.written)), MoveOperands(Commands(cfg.address, first.state.written)),
        MoveOperands(Commands(cfg.address, rest.state.written)),
        StepTargets(s.maxSteps.value, cfg.syringeVolume, plan[0]),
        Targets(s.maxSteps.value, cfg.syringeVolume, ValvedMoves(tail, next)));
    }
  }

  lemma Chain(a: seq<string>, b: seq<string>, c: seq<string>, x: seq<string>, y: seq<string>)
    requires b == a + x && c == b + y
    ensures c == a + (x + y)
  {
  }

  /** The targets of a plan: those of its first step, then those of the rest. */
  lemma PlanTargetsStep(maxSteps: int, syringeVolume: int, plan: seq<Step>, current: Valve)
    requires syringeVolume != 0 && plan != []
    ensures var next := if plan[0].Switch? then plan[0].valve else current;
      Targets(maxSteps, syringeVolume, ValvedMoves(plan, current))
      == StepTargets(maxSteps, syringeVolume, plan[0]) + Targets(maxSteps, syringeVolume, ValvedMoves(plan[1..], next))
  {
    var next := if plan[0].Switch? then plan[0].valve else current;
    var later := ValvedMoves(plan[1..], next);
    if plan[0].Move? {
      assert ValvedMoves(plan, current) == [(current, plan[0].ml)] + later;
      TargetsAppend(maxSteps, syringeVolume, [(current, plan[0].ml)], later);
      assert [(current, plan[0].ml)][1..] == [];
    } else {
      assert ValvedMoves(plan, current) == later;
    }
  }

  /**
   * `disp_ml` that runs to the end sends as move operands the in-range step numbers of the moves
   * of the dispense plan, in order.
   */
  lemma DispMlMoves(s: Snapshot, cfg: Config, ml: real)
    requires s.maxSteps.Some? && cfg.syringeVolume != 0
    requires DispMl(s, cfg, ml).outcome.Ok?
    ensures MoveOperands(Commands(cfg.address, DispMl(s, cfg, ml).state.written))
      == MoveOperands(Commands(cfg.address, s.written))
         + Targets(s.maxSteps.value, cfg.syringeVolume, ValvedMoves(DispensePlan(cfg.syringeVolume, ml), Inlet))
  {
    var plan := DispensePlan(cfg.syringeVolume, ml);
    forall j | 0 <= j < |plan| ensures !plan[j].Send? {
      NoSendInDispense(cfg.syringeVolume, ml, j);
    }
    RunPlanMoves(s, cfg, plan, Inlet);
  }

  lemma {:induction false} NoSendInRepeat(n: nat, ml: real, j: nat)
    requires j < |Repeat(n, Stroke(ml))|
    ensures !Repeat(n, Stroke(ml))[j].Send?
  {
    if n > 0 {
      var front := Repeat(n - 1, Stroke(ml));
      if j < |front| {
        NoSendInRepeat(n - 1, ml, j);
      }
    }
  }

  lemma NoSendInDispense(syringeVolume: int, ml: real, j: nat)
    requires syringeVolume != 0 && j < |DispensePlan(syringeVolume, ml)|
    ensures !DispensePlan(syringeVolume, ml)[j].Send?
  {
    var k := StrokeCount(ml, syringeVolume);
    var n := if k < 0 then 0 else k;
    var full := Repeat(n, Stroke(syringeVolume as real));
    var plan := DispensePlan(syringeVolume, ml);
    assert plan == EmptySyringe + full + Stroke(PartialVolume(ml, syringeVolume));
    if 4 <= j < 4 + |full| {
      assert plan[j] == full[j - 4];
      NoSendInRepeat(n, syringeVolume as real, j - 4);
    }
  }

  /** The step numbers of `n` full strokes: the full count and 0, `n` times. */
  function FullTargets(n: nat, maxSteps: int): seq<string>
  {
    if n == 0 then [] else FullTargets(n - 1, maxSteps) + [IntToString(maxSteps), "0"]
  }

  /** A move to the syringe volume is the full step count, a move to 0 is step 0; both are in range. */
  lemma EndPointTargets(maxSteps: int, syringeVolume: int)
    requires syringeVolume != 0 && maxSteps >= 0
    ensures MoveCommandOperand(maxSteps, syringeVolume, syringeVolume as real) == [IntToString(maxSteps)]
    ensures MoveCommandOperand(maxSteps, syringeVolume, 0.0) == ["0"]
  {
    var sv := syringeVolume as real;
    assert (maxSteps as real / sv) * sv == maxSteps as real;
    assert StepsFor(maxSteps, syringeVolume, sv) == maxSteps;
    assert StepsFor(maxSteps, syringeVolume, 0.0) == 0;
    assert IntToString(0) == "0";
  }

  /** The step numbers of one stroke's two moves: its target's, if in range, then 0. */
  lemma StrokeTargets(maxSteps: int, syringeVolume: int, x: real)
    requires syringeVolume != 0 && maxSteps >= 0
    ensures Targets(maxSteps, syringeVolume, [(Inlet, x), (Outlet, 0.0)])
      == MoveCommandOperand(maxSteps, syringeVolume, x) + ["0"]
  {
    var pair := [(Inlet, x), (Outlet, 0.0)];
    EndPointTargets(maxSteps, syringeVolume);
    assert pair[1..] == [(Outlet, 0.0)] && pair[1..][1..] == [];
    assert Targets(maxSteps, syringeVolume, pair[1..]) == ["0"];
  }

  lemma {:induction false} StrokePairsTargets(n: nat, maxSteps: int, syringeVolume: int)
    requires syringeVolume != 0 && maxSteps >= 0
    ensures Targets(maxSteps, syringeVolume, StrokePairs(n, syringeVolume as real)) == FullTargets(n, maxSteps)
  {
    if n > 0 {
      StrokePairsTargets(n - 1, maxSteps, syringeVolume);
      StrokePairsTargetsStep(n, maxSteps, syringeVolume);
    }
  }

  /** One more full stroke adds the full step count and 0. */
  lemma StrokePairsTargetsStep(n: nat, maxSteps: int, syringeVolume: int)
    requires syringeVolume != 0 && maxSteps >= 0 && n > 0
    requires Targets(maxSteps, syringeVolume, StrokePairs(n - 1, syringeVolume as real)) == FullTargets(n - 1, maxSteps)
    ensures Targets(maxSteps, syringeVolume, StrokePairs(n, syringeVolume as real)) == FullTargets(n, maxSteps)
  {
    var sv := syringeVolume as real;
    TargetsAppend(maxSteps, syringeVolume, StrokePairs(n - 1, sv), [(Inlet, sv), (Outlet, 0.0)]);
    StrokeTargets(maxSteps, syringeVolume, sv);
    EndPointTargets(maxSteps, syringeVolume);
  }

  /**
   * The step numbers of the moves of the dispense plan: 0 to empty the syringe, then the full step
   * count and 0 for each full stroke, then the partial volume's if it is in range, then 0.
   */
  lemma DispenseTargets(maxSteps: int, syringeVolume: int, ml: real)
    requires syringeVolume != 0 && maxSteps >= 0
    ensures var k := StrokeCount(ml, syringeVolume);
      Targets(maxSteps, syringeVolume, ValvedMoves(DispensePlan(syringeVolume, ml), Inlet))
      == ["0"] + FullTargets(if k < 0 then 0 else k, maxSteps)
         + MoveCommandOperand(maxSteps, syringeVolume, PartialVolume(ml, syringeVolume)) + ["0"]
  {
    var k := StrokeCount(ml, syringeVolume);
    var n := if k < 0 then 0 else k;
    var pv := PartialVolume(ml, syringeVolume);
    DispenseValvedMoves(syringeVolume, ml);
    var pairs := StrokePairs(n, syringeVolume as real);
    var head := [(Inlet, 0.0)];
    var last := [(Inlet, pv), (Outlet, 0.0)];
    TargetsAppend(maxSteps, syringeVolume, head, pairs);
    TargetsAppend(maxSteps, syringeVolume, head + pairs, last);
    StrokePairsTargets(n, maxSteps, syringeVolume);
    StrokeTargets(maxSteps, syringeVolume, pv);
    assert Targets(maxSteps, syringeVolume, head) == ["0"] by {
      assert head[1..] == [];
      EndPointTargets(maxSteps, syringeVolume);
    }
  }

  /** The command bodies of the sends of a plan, in order. */
  function SentBodies(plan: seq<Step>): seq<string>
  {
    if plan == [] then []
    else (if plan[0].Send? then [plan[0].command + plan[0].operand] else []) + SentBodies(plan[1..])
  }

  /** Only idle waits and sends of bodies other than the status query. */
  predicate SendsAndWaits(plan: seq<Step>)
  {
    forall j :: 0 <= j < |plan| ==>
      plan[j].WaitIdle? || (plan[j].Send? && plan[j].command + plan[j].operand != ReportStatus)
  }

  lemma SendStepCommands(s: Snapshot, cfg: Config, step: Step)
    requires step.WaitIdle? || (step.Send? && step.command + step.operand != ReportStatus)
    ensures Commands(cfg.address, RunStep(s, cfg, step).state.written)
      == Commands(cfg.address, s.written) + (if step.Send? then [step.command + step.operand] else [])
  {
    match step
    case WaitIdle => WaitSendsNothing(s, cfg.address);
    case Send(c, o) => CommandsAfterFrame(cfg.address, s.written, c + o);
  }

  /** A plan of sends and idle waits that runs to the end sends exactly the bodies of its sends, in order. */
  lemma {:induction false} RunPlanSends(s: Snapshot, cfg: Config, plan: seq<Step>)
    requires SendsAndWaits(plan)
    requires RunPlan(s, cfg, plan).outcome.Ok?
    ensures Commands(cfg.address, RunPlan(s, cfg, plan).state.written)
      == Commands(cfg.address, s.written) + SentBodies(plan)
    decreases |plan|
  {
    if plan != [] {
      var first := RunStep(s, cfg, plan[0]);
      assert first.outcome.Ok?;
      var tail := plan[1..];
      var rest := RunPlan(first.state, cfg, tail);
      assert RunPlan(s, cfg, plan) == rest;
      SendStepCommands(s, cfg, plan[0]);
      assert forall j :: 0 <= j < |tail| ==> tail[j] == plan[j + 1];
      RunPlanSends(first.state, cfg, tail);
      Chain(Commands(cfg.address, s.written), Commands(cfg.address, first.state.written),
        Commands(cfg.address, rest.state.written),
        if plan[0].Send? then [plan[0].command + plan[0].operand] else [], SentBodies(tail));
    }
  }

  /** The configuration commands after `N`: slope, start, top and cutoff velocity, cutoff increments. */
  function ConfigBodies(cfg: Config): seq<string>
  {
    ["L" + cfg.accSlope, "v" + cfg.startVelo, "V" + cfg.topVelo, "c" + cfg.cutoffVelo, "C" + cfg.cutoffIncre]
  }

  lemma ConfigPlanSends(cfg: Config)
    ensures SendsAndWaits(ConfigPlan(cfg))
    ensures SentBodies(ConfigPlan(cfg)) == ConfigBodies(cfg)
  {
    ConfigPlanSendsAndWaits(cfg);
    ConfigPlanBodies(cfg);
  }

  lemma ConfigPlanSendsAndWaits(cfg: Config)
    ensures SendsAndWaits(ConfigPlan(cfg))
  {
    var p := ConfigPlan(cfg);
    forall j | 0 <= j < |p| && p[j].Send?
      ensures p[j].command + p[j].operand != ReportStatus
    {
      assert (p[j].command + p[j].operand)[0] != 'Q';
    }
  }

  /** The bodies sent from step `k` on: that step's, then those from step `k + 1` on. */
  lemma SentStep(plan: seq<Step>, k: nat)
    requires k < |plan|
    ensures SentBodies(plan[k..])
      == (if plan[k].Send? then [plan[k].command + plan[k].operand] else []) + SentBodies(plan[k + 1..])
  {
    assert plan[k..][1..] == plan[k + 1..];
  }

  /** A send followed by an idle wait contributes just the send's body. */
  lemma SendThenWait(plan: seq<Step>, k: nat, command: string, operand: string)
    requires k + 2 <= |plan| && plan[k] == Send(command, operand) && plan[k + 1] == WaitIdle
    ensures SentBodies(plan[k..]) == [command + operand] + SentBodies(plan[k + 2..])
  {
    SentStep(plan, k);
    SentStep(plan, k + 1);
  }

  /** The configuration plan sends the slope, the velocities and the cut-off increments, in that order. */
  lemma ConfigPlanBodies(cfg: Config)
    ensures SentBodies(ConfigPlan(cfg)) == ConfigBodies(cfg)
  {
    var p := ConfigPlan(cfg);
    assert p[11..] == [];
    SendThenWait(p, 9, "C", cfg.cutoffIncre);
    SendThenWait(p, 7, "c", cfg.cutoffVelo);
    SendThenWait(p, 5, "V", cfg.topVelo);
    SendThenWait(p, 3, "v", cfg.startVelo);
    SendThenWait(p, 1, "L", cfg.accSlope);
    SentStep(p, 0);
    assert p[0..] == p;
  }

  /**
   * `config_pump` that runs to the end had a valid increment mode and sent exactly `N`, `L`, `v`,
   * `V`, `c` and `C` with their operands, in that order.
   */
  lemma ConfigPumpCommands(s: Snapshot, cfg: Config)
    requires ConfigPump(s, cfg).outcome.Ok?
    ensures !MaxStepsFor(cfg.increMode, cfg.strokeClass).IncrementModeInvalid?
    ensures Commands(cfg.address, ConfigPump(s, cfg).state.written)
      == Commands(cfg.address, s.written) + ["N" + cfg.increMode] + ConfigBodies(cfg)
  {
    var mode := SendCmd(s, cfg.address, "N", Some(cfg.increMode));
    assert ("N" + cfg.increMode)[0] == 'N';
    CommandsAfterFrame(cfg.address, s.written, "N" + cfg.increMode);
    ConfigPlanSends(cfg);
    var start := match MaxStepsFor(cfg.increMode, cfg.strokeClass)
      case Steps(n) => mode.state.(maxSteps := Some(n))
      case _ => mode.state;
    assert ConfigPump(s, cfg) == RunPlan(start, cfg, ConfigPlan(cfg));
    RunPlanSends(start, cfg, ConfigPlan(cfg));
    Chain(Commands(cfg.address, s.written), Commands(cfg.address, start.written),
      Commands(cfg.address, ConfigPump(s, cfg).state.written), ["N" + cfg.increMode], ConfigBodies(cfg));
  }

  /** An invalid increment mode: `N` is sent, then `exit()`; nothing else is written. */
  lemma ConfigPumpExits(s: Snapshot, cfg: Config)
    requires MaxStepsFor(cfg.increMode, cfg.strokeClass).IncrementModeInvalid?
    ensures ConfigPump(s, cfg).state.written == s.written + [Frame(cfg.address, "N" + cfg.increMode)]
    ensures ConfigPump(s, cfg).outcome.Raised?
    ensures s.replies != [] && Utf8.Decode(s.replies[0]).Some? ==> ConfigPump(s, cfg).outcome == Raised(Exited)
  {
  }

  // Frame format: every line an operation writes is a frame addressed to the pump.

  /** `b` is `a` followed by frames addressed to `address` only. */
  predicate Extends(address: string, a: seq<string>, b: seq<string>)
  {
    a <= b && forall i :: |a| <= i < |b| ==> Unframe(address, b[i]).Some?
  }

  lemma ExtendsTrans(address: string, a: seq<string>, b: seq<string>, c: seq<string>)
    requires Extends(address, a, b) && Extends(address, b, c)
    ensures Extends(address, a, c)
  {
    forall i | |a| <= i < |c| ensures Unframe(address, c[i]).Some? {
      if i < |b| {
        assert c[i] == b[i];
      }
    }
  }

  lemma ExtendsByFrame(address: string, a: seq<string>, body: string)
    ensures Extends(address, a, a + [Frame(address, body)])
  {
    UnframeFrame(address, body);
  }


  lemma ExtendsPolls(address: string, a: seq<string>, n: nat)
    ensures Extends(address, a, a + Polls(address, n))
  {
    UnframeFrame(address, ReportStatus);
  }

  lemma WaitFramed(s: Snapshot, address: string)
    ensures Extends(address, s.written, Wait4Idle(s, address).state.written)
  {
    match FirstIdle(s.replies)
    case Some(n) => ExtendsPolls(address, s.written, n + 1);
    case None => ExtendsPolls(address, s.written, |s.replies| + 1);
  }

  /** Every frame `send_cmd_multi` writes is `/`, the address, the paired body, `R` and carriage return. */
  lemma SendCmdMultiFramed(s: Snapshot, address: string, commands: seq<string>, operands: seq<string>)
    ensures Extends(address, s.written, SendCmdMulti(s, address, commands, operands).state.written)
    ensures Unframe(address, SendCmdMulti(s, address, commands, operands).state.string2send)
      == Some(MultiBody(commands, operands))
  {
    ExtendsByFrame(address, s.written, MultiBody(commands, operands));
    UnframeFrame(address, MultiBody(commands, operands));
  }

  lemma SettleFramed(s: Snapshot, address: string, destination: Valve, report: ReplyDecode)
    requires !report.Truncated?
    ensures Extends(address, s.written, SettleAndSwitch(s, address, destination, report).state.written)
  {
    var settled := Wait4Idle(s, address);
    WaitFramed(s, address);
    if settled.outcome.Ok? && report.Decoded? && !UpperIs(report.reply.data, Letter(destination)) {
      ExtendsByFrame(address, settled.state.written, [Letter(destination)]);
      ExtendsTrans(address, s.written, settled.state.written, settled.state.written + [Frame(address, [Letter(destination)])]);
    }
  }

  lemma QueryFramed(s: Snapshot, address: string, destination: Valve)
    ensures Extends(address, s.written, QueryValve(s, address, destination).state.written)
  {
    var query := SendCmd(s, address, Report, Some(ValvePositionItem));
    ExtendsByFrame(address, s.written, Body(Report, Some(ValvePositionItem)));
    if query.outcome.Ok? {
      var report := DecodeReply(query.state.readTextBytes);
      if !report.Truncated? {
        SettleFramed(query.state, address, destination, report);
        ExtendsTrans(address, s.written, query.state.written,
          SettleAndSwitch(query.state, address, destination, report).state.written);
      }
    }
  }

  lemma SwitchFramed(s: Snapshot, address: string, destination: Valve)
    ensures Extends(address, s.written, SwitchValve(s, address, destination).state.written)
  {
    var idle := Wait4Idle(s, address);
    WaitFramed(s, address);
    if idle.outcome.Ok? {
      QueryFramed(idle.state, address, destination);
      ExtendsTrans(address, s.written, idle.state.written, QueryValve(idle.state, address, destination).state.written);
    }
  }

  lemma StepFramed(s: Snapshot, cfg: Config, step: Step)
    ensures Extends(cfg.address, s.written, RunStep(s, cfg, step).state.written)
  {
    match step
    case Switch(v) => SwitchFramed(s, cfg.address, v);
    case WaitIdle => WaitFramed(s, cfg.address);
    case Move(ml) =>
      if s.maxSteps.Some? && cfg.syringeVolume != 0 {
        var steps := StepsFor(s.maxSteps.value, cfg.syringeVolume, ml);
        ExtendsByFrame(cfg.address, s.written, Body(MoveTo, Some(IntToString(steps))));
      }
    case Send(c, o) => ExtendsByFrame(cfg.address, s.written, Body(c, Some(o)));
  }

  lemma {:induction false} PlanFramed(s: Snapshot, cfg: Config, plan: seq<Step>)
    ensures Extends(cfg.address, s.written, RunPlan(s, cfg, plan).state.written)
    decreases |plan|
  {
    if plan != [] {
      var first := RunStep(s, cfg, plan[0]);
      StepFramed(s, cfg, plan[0]);
      if first.outcome.Ok? {
        PlanFramed(first.state, cfg, plan[1..]);
        ExtendsTrans(cfg.address, s.written, first.state.written, RunPlan(first.state, cfg, plan[1..]).state.written);
      }
    } else {
      assert RunPlan(s, cfg, plan).state == s;
    }
  }

  /** Everything `disp_ml` writes is a frame addressed to the pump. */
  lemma DispMlFramed(s: Snapshot, cfg: Config, ml: real)
    ensures Extends(cfg.address, s.written, DispMl(s, cfg, ml).state.written)
  {
    if cfg.syringeVolume != 0 {
      PlanFramed(s, cfg, DispensePlan(cfg.syringeVolume, ml));
    }
  }

  /** Everything `config_pump` writes is a frame addressed to the pump. */
  lemma ConfigPumpFramed(s: Snapshot, cfg: Config)
    ensures Extends(cfg.address, s.written, ConfigPump(s, cfg).state.written)
  {
    var mode := SendCmd(s, cfg.address, "N", Some(cfg.increMode));
    ExtendsByFrame(cfg.address, s.written, Body("N", Some(cfg.increMode)));
    if mode.outcome.Ok? && !MaxStepsFor(cfg.increMode, cfg.strokeClass).IncrementModeInvalid? {
      var start := if MaxStepsFor(cfg.increMode, cfg.strokeClass).Steps?
        then mode.state.(maxSteps := Some(MaxStepsFor(cfg.increMode, cfg.strokeClass).n)) else mode.state;
      PlanFramed(start, cfg, ConfigPlan(cfg));
      ExtendsTrans(cfg.address, s.written, start.written, RunPlan(start, cfg, ConfigPlan(cfg)).state.written);
    }
  }
}
