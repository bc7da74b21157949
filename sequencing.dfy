/**
 * The order in which `disp_ml` and `config_pump` issue their operations, as plans of steps,
 * and the arithmetic that turns millilitres into strokes and plunger steps.
 */
module Sequencing {
  import opened Py
  import opened CommandFrame
  import opened PumpConfig

  /** One call the driver makes: `switch_valve`, `wait4idle`, `move2pos_abs_ml` or `send_cmd` with an operand. */
  datatype Step = Switch(valve: Valve) | WaitIdle | Move(ml: real) | Send(command: string, operand: string)

  /** `int((max_steps / int(syringe_volume)) * abs_ml)`. */
  function StepsFor(maxSteps: int, syringeVolume: int, ml: real): int
    requires syringeVolume != 0
  {
    Trunc((maxSteps as real / syringeVolume as real) * ml)
  }

  /** `steps in range(max_steps + 1)`. */
  predicate InRange(steps: int, maxSteps: int) { 0 <= steps <= maxSteps }

  /** `total_strokes = int(ml2disp / int(syringe_volume))`. */
  function StrokeCount(ml: real, syringeVolume: int): int
    requires syringeVolume != 0
  {
    Trunc(ml / syringeVolume as real)
  }

  /** `partial_stroke = ml2disp % float(syringe_volume)`. */
  function PartialStroke(ml: real, syringeVolume: int): real
    requires syringeVolume != 0
  {
    Mod(ml, syringeVolume as real)
  }

  /** `partial_vol = partial_stroke * float(syringe_volume)`, kept exactly as written. */
  function PartialVolume(ml: real, syringeVolume: int): real
    requires syringeVolume != 0
  {
    PartialStroke(ml, syringeVolume) * syringeVolume as real
  }

  /** `n` copies of `block`, one after the other. */
  function Repeat(n: nat, block: seq<Step>): seq<Step>
  {
    if n == 0 then [] else Repeat(n - 1, block) + block
  }

  /** `n` copies are one copy followed by `n - 1` copies. */
  lemma {:induction false} RepeatFront(n: nat, block: seq<Step>)
    requires n > 0
    ensures Repeat(n, block) == block + Repeat(n - 1, block)
  {
    if n > 1 {
      RepeatFront(n - 1, block);
    }
  }

  /** Emptying the syringe before dispensing. */
  const EmptySyringe: seq<Step> := [Switch(Inlet), WaitIdle, Move(0.0), WaitIdle]

  /** Aspirate `ml` through the inlet, then push the plunger home through the outlet. */
  function Stroke(ml: real): seq<Step>
  {
    [Switch(Inlet), WaitIdle, Move(ml), WaitIdle, Switch(Outlet), WaitIdle, Move(0.0), WaitIdle]
  }

  /** The calls `disp_ml` makes for `ml2disp`: empty, `total_strokes` full strokes, then the partial stroke. */
  function DispensePlan(syringeVolume: int, ml: real): seq<Step>
    requires syringeVolume != 0
  {
    var k := StrokeCount(ml, syringeVolume);
    EmptySyringe
      + Repeat(if k < 0 then 0 else k, Stroke(syringeVolume as real))
      + Stroke(PartialVolume(ml, syringeVolume))
  }

  /** What `config_pump` does after sending `N` and deciding `max_steps`. */
  function ConfigPlan(cfg: Config): seq<Step>
  {
    [WaitIdle,
     Send("L", cfg.accSlope), WaitIdle,
     Send("v", cfg.startVelo), WaitIdle,
     Send("V", cfg.topVelo), WaitIdle,
     Send("c", cfg.cutoffVelo), WaitIdle,
     Send("C", cfg.cutoffIncre), WaitIdle]
  }

  /** The velocity settings that end the configuration plan: four sends, each followed by an idle wait. */
  predicate VelocitySettings(cfg: Config, todo: seq<Step>)
  {
    && |todo| == 8
    && todo[0] == Send("v", cfg.startVelo) && todo[2] == Send("V", cfg.topVelo)
    && todo[4] == Send("c", cfg.cutoffVelo) && todo[6] == Send("C", cfg.cutoffIncre)
    && todo[1] == WaitIdle && todo[3] == WaitIdle && todo[5] == WaitIdle && todo[7] == WaitIdle
  }

  /** The configuration plan: an idle wait, the slope and an idle wait, then the velocity settings. */
  lemma ConfigPlanShape(cfg: Config)
    ensures var p := ConfigPlan(cfg);
      && |p| == 11 && p[0] == WaitIdle && p[1] == Send("L", cfg.accSlope) && p[2] == WaitIdle
      && VelocitySettings(cfg, p[3..])
  {
  }

  /** Every step other than an idle wait is immediately followed by an idle wait. */
  predicate WaitsAfterEachCall(plan: seq<Step>)
  {
    forall j :: 0 <= j < |plan| && !plan[j].WaitIdle? ==> j + 1 < |plan| && plan[j + 1].WaitIdle?
  }

  /** Each move of the plan, paired with the valve most recently switched to before it (`current` at the start). */
  function ValvedMoves(plan: seq<Step>, current: Valve): seq<(Valve, real)>
  {
    if plan == [] then []
    else match plan[0]
      case Switch(v) => ValvedMoves(plan[1..], v)
      case Move(x) => [(current, x)] + ValvedMoves(plan[1..], current)
      case _ => ValvedMoves(plan[1..], current)
  }

  lemma {:induction false} ValvedMovesAppend(p: seq<Step>, q: seq<Step>, current: Valve)
    requires q != [] && q[0].Switch?
    ensures ValvedMoves(p + q, current) == ValvedMoves(p, current) + ValvedMoves(q, current)
  {
    if p == [] {
      assert p + q == q;
    } else {
      assert (p + q)[0] == p[0] && (p + q)[1..] == p[1..] + q;
      var next := if p[0].Switch? then p[0].valve else current;
      ValvedMovesAppend(p[1..], q, next);
      if !p[0].Switch? {
        assert next == current;
      }
      SwitchFirstIgnoresCurrent(q, current, next);
    }
  }

  /** A plan that starts with a switch does not depend on the valve before it. */
  lemma SwitchFirstIgnoresCurrent(q: seq<Step>, a: Valve, b: Valve)
    requires q != [] && q[0].Switch?
    ensures ValvedMoves(q, a) == ValvedMoves(q, b)
  {
  }

  lemma {:induction false} WaitsAppend(p: seq<Step>, q: seq<Step>)
    requires WaitsAfterEachCall(p) && WaitsAfterEachCall(q)
    ensures WaitsAfterEachCall(p + q)
  {
    var r := p + q;
    forall j | 0 <= j < |r| && !r[j].WaitIdle? ensures j + 1 < |r| && r[j + 1].WaitIdle? {
      if j < |p| {
        assert r[j] == p[j] && r[j + 1] == p[j + 1];
      } else {
        assert r[j] == q[j - |p|];
        assert r[j + 1] == q[j - |p| + 1];
      }
    }
  }

  lemma {:induction false} RepeatWaits(n: nat, block: seq<Step>)
    requires WaitsAfterEachCall(block)
    ensures WaitsAfterEachCall(Repeat(n, block))
  {
    if n > 0 {
      RepeatWaits(n - 1, block);
      WaitsAppend(Repeat(n - 1, block), block);
    }
  }

  /** `disp_ml` waits for the pump to be idle after every valve switch and every move. */
  lemma DispenseWaits(syringeVolume: int, ml: real)
    requires syringeVolume != 0
    ensures WaitsAfterEachCall(DispensePlan(syringeVolume, ml))
  {
    var k := StrokeCount(ml, syringeVolume);
    var n := if k < 0 then 0 else k;
    assert WaitsAfterEachCall(EmptySyringe);
    var full := Stroke(syringeVolume as real);
    var last := Stroke(PartialVolume(ml, syringeVolume));
    assert WaitsAfterEachCall(full);
    assert WaitsAfterEachCall(last);
    RepeatWaits(n, full);
    WaitsAppend(EmptySyringe, Repeat(n, full));
    WaitsAppend(EmptySyringe + Repeat(n, full), last);
  }

  /** `config_pump` waits for the pump to be idle after every command it sends. */
  lemma ConfigWaits(cfg: Config)
    ensures WaitsAfterEachCall(ConfigPlan(cfg))
  {
  }

  /** The moves of `n` full strokes of `ml`: (Inlet, ml) then (Outlet, 0), `n` times. */
  function StrokePairs(n: nat, ml: real): (r: seq<(Valve, real)>)
    ensures |r| == 2 * n
    ensures forall i :: 0 <= i < n ==> r[2 * i] == (Inlet, ml) && r[2 * i + 1] == (Outlet, 0.0)
  {
    if n == 0 then [] else StrokePairs(n - 1, ml) + [(Inlet, ml), (Outlet, 0.0)]
  }

  lemma {:induction false} RepeatValvedMoves(n: nat, ml: real, current: Valve)
    ensures ValvedMoves(Repeat(n, Stroke(ml)), current) == StrokePairs(n, ml)
  {
    if n > 0 {
      RepeatValvedMoves(n - 1, ml, current);
      ValvedMovesAppend(Repeat(n - 1, Stroke(ml)), Stroke(ml), current);
      StrokeMoves(ml, current);
    }
  }

  /**
   * The (valve, move target) pairs of `disp_ml`: (Inlet, 0), then for each full stroke (Inlet, volume)
   * and (Outlet, 0), then (Inlet, partial volume) and (Outlet, 0): 2k + 3 moves for k full strokes.
   */
  lemma DispenseValvedMoves(syringeVolume: int, ml: real)
    requires syringeVolume != 0
    ensures var k := StrokeCount(ml, syringeVolume); var n := if k < 0 then 0 else k;
      var m := ValvedMoves(DispensePlan(syringeVolume, ml), Inlet);
      && m == [(Inlet, 0.0)] + StrokePairs(n, syringeVolume as real)
              + [(Inlet, PartialVolume(ml, syringeVolume)), (Outlet, 0.0)]
      && |m| == 2 * n + 3
      && m[0] == (Inlet, 0.0)
      && (forall i :: 0 <= i < n ==> m[2 * i + 1] == (Inlet, syringeVolume as real) && m[2 * i + 2] == (Outlet, 0.0))
      && m[2 * n + 1] == (Inlet, PartialVolume(ml, syringeVolume))
      && m[2 * n + 2] == (Outlet, 0.0)
  {
    var k := StrokeCount(ml, syringeVolume);
    var n := if k < 0 then 0 else k;
    var sv := syringeVolume as real;
    var full := Repeat(n, Stroke(sv));
    var last := Stroke(PartialVolume(ml, syringeVolume));
    var pv := PartialVolume(ml, syringeVolume);
    assert DispensePlan(syringeVolume, ml) == EmptySyringe + full + last;
    EmptyMoves();
    StrokeMoves(pv, Inlet);
    RepeatValvedMoves(n, sv, Inlet);
    ValvedMovesAppend(EmptySyringe + full, last, Inlet);
    if n == 0 {
      assert full == [];
      assert EmptySyringe + full == EmptySyringe;
      assert ValvedMoves(full, Inlet) == [];
    } else {
      RepeatHead(n, Stroke(sv));
      ValvedMovesAppend(EmptySyringe, full, Inlet);
    }
    var m := ValvedMoves(DispensePlan(syringeVolume, ml), Inlet);
    var mf := StrokePairs(n, sv);
    assert m == [(Inlet, 0.0)] + mf + [(Inlet, pv), (Outlet, 0.0)];
    forall i | 0 <= i < n
      ensures m[2 * i + 1] == (Inlet, sv) && m[2 * i + 2] == (Outlet, 0.0)
    {
      assert m[2 * i + 1] == mf[2 * i];
      assert m[2 * i + 2] == mf[2 * i + 1];
    }
  }

  lemma StrokeMoves(ml: real, current: Valve)
    ensures ValvedMoves(Stroke(ml), current) == [(Inlet, ml), (Outlet, 0.0)]
  {
    var fill: seq<Step> := [Switch(Inlet), WaitIdle, Move(ml), WaitIdle];
    var push: seq<Step> := [Switch(Outlet), WaitIdle, Move(0.0), WaitIdle];
    assert Stroke(ml) == fill + push;
    ValvedMovesAppend(fill, push, current);
    SwitchThenMove(Inlet, ml, current);
    SwitchThenMove(Outlet, 0.0, Inlet);
  }

  lemma EmptyMoves()
    ensures ValvedMoves(EmptySyringe, Inlet) == [(Inlet, 0.0)]
  {
    SwitchThenMove(Inlet, 0.0, Inlet);
  }

  /** A switch, a wait, a move and a wait make one move through the valve just selected. */
  lemma SwitchThenMove(v: Valve, x: real, current: Valve)
    ensures ValvedMoves([Switch(v), WaitIdle, Move(x), WaitIdle], current) == [(v, x)]
  {
    var t3: seq<Step> := [WaitIdle];
    var t2 := [Move(x)] + t3;
    var t1 := [WaitIdle] + t2;
    var t0 := [Switch(v)] + t1;
    assert t3[1..] == [] && t2[1..] == t3 && t1[1..] == t2 && t0[1..] == t1;
    assert ValvedMoves(t3, v) == [];
    assert ValvedMoves(t2, v) == [(v, x)];
    assert ValvedMoves(t1, v) == [(v, x)];
    assert t0 == [Switch(v), WaitIdle, Move(x), WaitIdle];
  }

  lemma {:induction false} RepeatHead(n: nat, block: seq<Step>)
    requires n > 0 && block != []
    ensures Repeat(n, block)[0] == block[0]
  {
    if n > 1 {
      RepeatHead(n - 1, block);
    }
  }

  /**
   * For a positive syringe volume and a non-negative amount: `total_strokes` is the number of whole
   * syringe volumes in the amount and `partial_stroke` the volume left over.
   */
  lemma StrokeDecomposition(syringeVolume: int, ml: real)
    requires syringeVolume > 0 && ml >= 0.0
    ensures var k := StrokeCount(ml, syringeVolume); var r := PartialStroke(ml, syringeVolume);
      k >= 0 && k as real * syringeVolume as real + r == ml && 0.0 <= r < syringeVolume as real
  {
    var sv := syringeVolume as real;
    assert ml / sv >= 0.0;
    assert StrokeCount(ml, syringeVolume) == (ml / sv).Floor;
  }

  /**
   * The partial move of `disp_ml`, as written: the syringe volume cancels, so the plunger target is
   * `max_steps` times the left-over volume, and the move is sent only when that is under
   * `max_steps + 1`, that is when at most a little more than 1 mL is left over.
   */
  lemma PartialMoveSteps(maxSteps: int, syringeVolume: int, ml: real)
    requires maxSteps > 0 && syringeVolume > 0 && ml >= 0.0
    ensures var r := PartialStroke(ml, syringeVolume);
      StepsFor(maxSteps, syringeVolume, PartialVolume(ml, syringeVolume)) == (maxSteps as real * r).Floor
      && (InRange(StepsFor(maxSteps, syringeVolume, PartialVolume(ml, syringeVolume)), maxSteps)
          <==> maxSteps as real * r < maxSteps as real + 1.0)
  {
    var sv := syringeVolume as real;
    var ms := maxSteps as real;
    var r := PartialStroke(ml, syringeVolume);
    assert (ms / sv) * (r * sv) == ms * r;
    assert ms * r >= 0.0;
  }

  /** Five millilitre syringe, 3000 steps, 2 mL: plunger step 1200. */
  lemma MoveExample()
    ensures StepsFor(3000, 5, 2.0) == 1200
  {
    assert (3000 as real / 5 as real) * 2.0 == 1200.0;
  }

  /**
   * Five millilitre syringe, 12 mL: two full strokes, 2 mL left over, a partial volume of 10, whose
   * move (6000 steps on a 3000-step pump) is out of range, so no partial move is sent.
   */
  lemma DispenseExample()
    ensures StrokeCount(12.0, 5) == 2
    ensures PartialStroke(12.0, 5) == 2.0
    ensures PartialVolume(12.0, 5) == 10.0
    ensures StepsFor(3000, 5, PartialVolume(12.0, 5)) == 6000
    ensures !InRange(StepsFor(3000, 5, PartialVolume(12.0, 5)), 3000)
  {
    assert 12.0 / 5 as real == 2.4;
    assert (2.4).Floor == 2;
    assert PartialStroke(12.0, 5) == 12.0 - 5.0 * 2.0;
    assert (3000 as real / 5 as real) * 10.0 == 6000.0;
  }
}
