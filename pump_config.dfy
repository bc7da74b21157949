/**
 * The configuration row a pump is loaded from, and the full-stroke step count `config_pump`
 * derives from its increment mode and stroke class.
 */
module PumpConfig {

  /** One row of the configuration file, as `cseries_DT.__init__` keeps it: the volume and the two
      serial settings converted with `int()`, every other value the text of its cell. */
  datatype Config = Config(
    name: string,
    syringeVolume: int,
    increMode: string,
    strokeClass: string,
    accSlope: string,
    startVelo: string,
    topVelo: string,
    cutoffVelo: string,
    cutoffIncre: string,
    address: string,
    port: string,
    baudrate: int,
    timeout: int)

  /** What `config_pump` concludes about `max_steps`. */
  datatype StepsDecision =
    | Steps(n: int)           // max_steps is assigned n
    | StrokeClassInvalid      // message printed, max_steps left as it was
    | IncrementModeInvalid    // message printed, then exit()

  /** The (increment mode, stroke class) to `max_steps` table: "0" standard / "1" microstep, "1" 3000-class / "2" 24000-class. */
  function MaxStepsFor(mode: string, strokeClass: string): (r: StepsDecision)
    ensures r.IncrementModeInvalid? <==> mode != "0" && mode != "1"
    ensures r.StrokeClassInvalid? <==> (mode == "0" || mode == "1") && strokeClass != "1" && strokeClass != "2"
    ensures r.Steps? ==> r.n == 3000 || r.n == 24000 || r.n == 196000
    ensures r.Steps? && r.n == 3000 <==> mode == "0" && strokeClass == "1"
    ensures r.Steps? && r.n == 196000 <==> mode == "1" && strokeClass == "2"
  {
    if mode == "0" then
      if strokeClass == "1" then Steps(3000)
      else if strokeClass == "2" then Steps(24000)
      else StrokeClassInvalid
    else if mode == "1" then
      if strokeClass == "1" then Steps(24000)
      else if strokeClass == "2" then Steps(196000)
      else StrokeClassInvalid
    else IncrementModeInvalid
  }

  /** The four valid combinations and their step counts. */
  lemma MaxStepsTable()
    ensures MaxStepsFor("0", "1") == Steps(3000)
    ensures MaxStepsFor("0", "2") == Steps(24000)
    ensures MaxStepsFor("1", "1") == Steps(24000)
    ensures MaxStepsFor("1", "2") == Steps(196000)
  {
  }
}
