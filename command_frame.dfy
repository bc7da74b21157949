/**
 * Command frames of the Data Terminal protocol: start marker `/`, the pump address, the command
 * body, the execute marker `R` and a carriage return. `send_cmd` builds the body from one opcode
 * and an optional operand; `send_cmd_multi` pairs opcodes with operands position by position,
 * padding the shorter list with empty strings (`itertools.zip_longest(..., fillvalue="")`).
 */
module CommandFrame {
  import opened Base

  const StartMarker: char := '/'
  const ExecuteMarker: char := 'R'
  const EndMarker: char := '\r'

  /** Opcodes the dispensing core sends. */
  const MoveTo: string := "A"
  const ReportStatus: string := "Q"
  const Report: string := "?"
  const ValvePositionItem: string := "6"

  /** The valve positions of `Valve_Pos` and the opcode letter that selects each one. */
  datatype Valve = Inlet | Outlet | Bypass | Extra

  function Letter(v: Valve): (c: char)
    ensures 'A' <= c <= 'Z'
  {
    match v
    case Inlet => 'I'
    case Outlet => 'O'
    case Bypass => 'B'
    case Extra => 'E'
  }

  /** The four valve letters are distinct, so a letter names one position. */
  lemma LetterInjective(v: Valve, w: Valve)
    requires Letter(v) == Letter(w)
    ensures v == w
  {
  }

  /** `start_cmd_str + address + body + exe_cmd_str + end_cmd_str`. */
  function Frame(address: string, body: string): string
  {
    [StartMarker] + address + body + [ExecuteMarker, EndMarker]
  }

  /** The body `send_cmd` sends: the command, then the operand unless the operand is `None`. */
  function Body(command: string, operand: Option<string>): string
  {
    match operand
    case None => command
    case Some(op) => command + op
  }

  /** The frame `wait4idle` sends: `"/" + address + "QR\r"`. */
  function Poll(address: string): string
  {
    Frame(address, ReportStatus)
  }

  /** Reads back the body of a frame addressed to `address`, or None if `f` is not such a frame. */
  function Unframe(address: string, f: string): (r: Option<string>)
    ensures r.Some? <==>
      |f| >= |address| + 3 && f[0] == StartMarker && f[1..|address| + 1] == address
      && f[|f| - 2] == ExecuteMarker && f[|f| - 1] == EndMarker
  {
    var n := |address|;
    if |f| >= n + 3 && f[0] == StartMarker && f[1..n + 1] == address
       && f[|f| - 2] == ExecuteMarker && f[|f| - 1] == EndMarker
    then Some(f[n + 1..|f| - 2])
    else None
  }

  /** Round trip: the body of a frame is recovered from the frame. */
  lemma UnframeFrame(address: string, body: string)
    ensures Unframe(address, Frame(address, body)) == Some(body)
  {
    var f := Frame(address, body);
    var n := |address|;
    assert f[1..n + 1] == address;
    assert f[n + 1..|f| - 2] == body;
  }

  /** The converse: whatever reads back as a frame is the frame of the body read. */
  lemma FrameUnframe(address: string, f: string)
    requires Unframe(address, f).Some?
    ensures Frame(address, Unframe(address, f).value) == f
  {
    var n := |address|;
    var body := f[n + 1..|f| - 2];
    assert f == [f[0]] + f[1..n + 1] + body + [f[|f| - 2], f[|f| - 1]];
  }

  /** Different bodies give different frames, so the poll frame is the frame of body "Q" only. */
  lemma FrameInjective(address: string, b1: string, b2: string)
    requires Frame(address, b1) == Frame(address, b2)
    ensures b1 == b2
  {
    UnframeFrame(address, b1);
    UnframeFrame(address, b2);
  }

  /** The list element at `i`, or the fill value "" past its end. */
  function At(xs: seq<string>, i: nat): string
  {
    if i < |xs| then xs[i] else ""
  }

  function Rest(xs: seq<string>): seq<string>
  {
    if xs == [] then [] else xs[1..]
  }

  function Max(a: nat, b: nat): nat { if a < b then b else a }

  /** `[x + y for x, y in zip_longest(commands, operands, fillvalue="")]`. */
  function Pairs(commands: seq<string>, operands: seq<string>): (r: seq<string>)
    ensures |r| == Max(|commands|, |operands|)
    ensures forall i :: 0 <= i < |r| ==> r[i] == At(commands, i) + At(operands, i)
    decreases |commands| + |operands|
  {
    if commands == [] && operands == [] then []
    else
      var tail := Pairs(Rest(commands), Rest(operands));
      PairsCons(commands, operands, tail);
      [At(commands, 0) + At(operands, 0)] + tail
  }

  /** The first pair followed by the pairs of the rests pairs the whole lists. */
  lemma PairsCons(commands: seq<string>, operands: seq<string>, tail: seq<string>)
    requires commands != [] || operands != []
    requires |tail| == Max(|Rest(commands)|, |Rest(operands)|)
    requires forall i :: 0 <= i < |tail| ==> tail[i] == At(Rest(commands), i) + At(Rest(operands), i)
    ensures var r := [At(commands, 0) + At(operands, 0)] + tail;
      |r| == Max(|commands|, |operands|) && forall i :: 0 <= i < |r| ==> r[i] == At(commands, i) + At(operands, i)
  {
    var r := [At(commands, 0) + At(operands, 0)] + tail;
    forall i | 0 < i < |r| ensures r[i] == At(commands, i) + At(operands, i) {
      assert r[i] == tail[i - 1];
    }
  }

  /** `''.join(parts)`. */
  function Join(parts: seq<string>): string
  {
    if parts == [] then "" else parts[0] + Join(parts[1..])
  }

  /** The body `send_cmd_multi` sends. */
  function MultiBody(commands: seq<string>, operands: seq<string>): string
  {
    Join(Pairs(commands, operands))
  }

  lemma {:induction false} JoinAppend(a: seq<string>, b: seq<string>)
    ensures Join(a + b) == Join(a) + Join(b)
  {
    if a == [] {
      assert a + b == b;
    } else {
      assert (a + b)[1..] == a[1..] + b;
      JoinAppend(a[1..], b);
    }
  }

  /** One opcode with one operand: the multi-command frame is the single-command frame. */
  lemma MultiBodySingle(command: string, operand: string)
    ensures MultiBody([command], [operand]) == Body(command, Some(operand))
  {
    var p := Pairs([command], [operand]);
    assert p == [command + operand];
    assert p[1..] == [];
    assert Join(p) == command + operand + Join([]);
  }

  /** Without operands the multi-command body is the opcodes concatenated in order. */
  lemma {:induction false} MultiBodyNoOperands(commands: seq<string>)
    ensures MultiBody(commands, []) == Join(commands)
  {
    var p := Pairs(commands, []);
    assert p == commands by {
      assert |p| == |commands|;
      forall i | 0 <= i < |p| ensures p[i] == commands[i] {
        assert At(commands, i) == commands[i] && At([], i) == "";
      }
    }
  }

  /** Pairing then joining is concatenating `command_i + operand_i` over the longer list. */
  lemma {:induction false} MultiBodyExtend(commands: seq<string>, operands: seq<string>, c: string, o: string)
    requires |commands| == |operands|
    ensures MultiBody(commands + [c], operands + [o]) == MultiBody(commands, operands) + c + o
  {
    var p := Pairs(commands + [c], operands + [o]);
    var q := Pairs(commands, operands);
    assert p == q + [c + o] by {
      forall i | 0 <= i < |p| ensures p[i] == (q + [c + o])[i] {
        if i < |q| {
          assert At(commands + [c], i) == At(commands, i);
          assert At(operands + [o], i) == At(operands, i);
        }
      }
    }
    JoinAppend(q, [c + o]);
    assert Join([c + o]) == c + o;
  }

  /** The shorter operand list is padded with "": three opcodes, two operands. */
  lemma PaddedPairs()
    ensures Pairs(["g", "A", "G"], ["", "3000"]) == ["g", "A3000", "G"]
  {
    var c, o := ["g", "A", "G"], ["", "3000"];
    var r := Pairs(c, o);
    assert r[0] == "g" + "" && r[1] == "A" + "3000" && r[2] == "G" + "" by {
      assert At(c, 0) == "g" && At(o, 0) == "";
      assert At(c, 1) == "A" && At(o, 1) == "3000";
      assert At(c, 2) == "G" && At(o, 2) == "";
    }
    PaddedPairsText();
    assert r == [r[0], r[1], r[2]];
  }

  lemma PaddedPairsText()
    ensures "g" + "" == "g" && "A" + "3000" == "A3000" && "G" + "" == "G"
  {
  }

  /** The body of those padded pairs. */
  lemma PaddedBody()
    ensures MultiBody(["g", "A", "G"], ["", "3000"]) == "gA3000G"
  {
    PaddedPairs();
    JoinThree("g", "A3000", "G");
    PaddedText();
  }

  lemma PaddedText()
    ensures "g" + "A3000" + "G" == "gA3000G"
  {
  }

  lemma JoinThree(a: string, b: string, c: string)
    ensures Join([a, b, c]) == a + b + c
  {
    var p := [a, b, c];
    assert p[1..] == [b, c] && p[1..][1..] == [c] && p[1..][1..][1..] == [];
    assert Join([c]) == c;
    assert Join([b, c]) == b + c;
  }

  /** The frame of those padded pairs. */
  lemma PaddedFrame()
    ensures Frame("1", MultiBody(["g", "A", "G"], ["", "3000"])) == "/1gA3000GR\r"
  {
    PaddedBody();
    PaddedFrameText();
  }

  lemma PaddedFrameText()
    ensures Frame("1", "gA3000G") == "/1gA3000GR\r"
  {
  }
}
