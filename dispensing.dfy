/**
 * `disp_ml` read as a sequence of strokes: emptying the syringe, then one full stroke per whole
 * syringe volume, then the partial stroke. These facts let the `Pump` methods take the strokes
 * one at a time.
 */
module Dispensing {
  import opened PumpConfig
  import opened Sequencing
  import opened DriverSpec

  /** `n` copies of the volume `ml`. */
  function Copies(n: nat, ml: real): (r: seq<real>)
    ensures |r| == n && forall i :: 0 <= i < n ==> r[i] == ml
  {
    if n == 0 then [] else [ml] + Copies(n - 1, ml)
  }

  /** The first of `m` copies followed by `rest` is a copy; after it come the other copies and `rest`. */
  lemma CopiesFront(m: nat, ml: real, rest: seq<real>)
    requires m > 0
    ensures (Copies(m, ml) + rest)[0] == ml
    ensures (Copies(m, ml) + rest)[1..] == Copies(m - 1, ml) + rest
  {
  }

  /** A stroke for each of `volumes` in turn, up to the first exception. */
  function Strokes(s: Snapshot, cfg: Config, volumes: seq<real>): Run
    decreases |volumes|
  {
    if volumes == [] then Run(s, Ok)
    else
      var r := RunPlan(s, cfg, Stroke(volumes[0]));
      if r.outcome.Raised? then r else Strokes(r.state, cfg, volumes[1..])
  }

  /** The first of the strokes, then, unless it raised, the others. */
  lemma StrokesNext(s: Snapshot, cfg: Config, volumes: seq<real>)
    requires volumes != []
    ensures var r := RunPlan(s, cfg, Stroke(volumes[0]));
      Strokes(s, cfg, volumes) == if r.outcome.Raised? then r else Strokes(r.state, cfg, volumes[1..])
  {
  }

  /** Running `n` full strokes and a last one is running the plan that lists them. */
  lemma {:induction false} StrokesPlan(s: Snapshot, cfg: Config, n: nat, ml: real, last: real)
    ensures Strokes(s, cfg, Copies(n, ml) + [last]) == RunPlan(s, cfg, Repeat(n, Stroke(ml)) + Stroke(last))
    decreases n
  {
    var volumes := Copies(n, ml) + [last];
    var first := if n == 0 then last else ml;
    var others := if n == 0 then [] else Copies(n - 1, ml) + [last];
    var later := if n == 0 then [] else Repeat(n - 1, Stroke(ml)) + Stroke(last);
    assert volumes[0] == first && volumes[1..] == others by {
      if n > 0 {
        CopiesFront(n, ml, [last]);
      }
    }
    assert Repeat(n, Stroke(ml)) + Stroke(last) == Stroke(first) + later by {
      if n > 0 {
        RepeatFront(n, Stroke(ml));
      }
    }
    var r := RunPlan(s, cfg, Stroke(first));
    assert Strokes(s, cfg, volumes) == if r.outcome.Raised? then r else Strokes(r.state, cfg, others);
    RunPlanAppend(s, cfg, Stroke(first), later);
    if r.outcome.Ok? && n > 0 {
      StrokesPlan(r.state, cfg, n - 1, ml, last);
    }
  }

  /** `disp_ml` splits into emptying the syringe and then the strokes. */
  lemma DispenseSplit(s: Snapshot, cfg: Config, ml: real)
    requires cfg.syringeVolume != 0
    ensures var k := StrokeCount(ml, cfg.syringeVolume);
      var e := RunPlan(s, cfg, EmptySyringe);
      DriverSpec.DispMl(s, cfg, ml) == if e.outcome.Raised? then e
        else Strokes(e.state, cfg, Copies(if k < 0 then 0 else k, cfg.syringeVolume as real) + [PartialVolume(ml, cfg.syringeVolume)])
  {
    var k := StrokeCount(ml, cfg.syringeVolume);
    var n := if k < 0 then 0 else k;
    var pv := PartialVolume(ml, cfg.syringeVolume);
    var rest := Repeat(n, Stroke(cfg.syringeVolume as real)) + Stroke(pv);
    assert DispensePlan(cfg.syringeVolume, ml) == EmptySyringe + rest;
    RunPlanAppend(s, cfg, EmptySyringe, rest);
    var e := RunPlan(s, cfg, EmptySyringe);
    StrokesPlan(e.state, cfg, n, cfg.syringeVolume as real, pv);
  }
}
