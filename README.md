# Tricontinent C-Series syringe pump driver, modelled in Dafny

This project models the core of `tricont_cseries_DT_Driver.py`. That file is a driver for a
Tricontinent C-Series syringe pump, which talks the vendor's ASCII "Data Terminal" protocol
over a serial line. Each command goes out as a frame: `/`, the pump address, the command body,
the execute marker `R` and a carriage return.

The model covers:
- the frame builders `send_cmd` and `send_cmd_multi`, including the `zip_longest` pairing of
  opcodes with operands;
- the idle poll `wait4idle`;
- the motion primitives `move2pos_abs_ml` and `switch_valve`;
- `config_pump`, with its `max_steps` table and its fixed command sequence;
- the dispensing sequence `disp_ml`;
- the status reply object `cseries_Status`: its constructor and `parse`;
- the tables `STATUS_DICT` and `Valve_Pos`.

The serial line is a `Link` object holding two things: the log of frames written, and the reply
lines the pump has yet to give. `cseries_DT` is the class `Driver.Pump`. Its fields are the
attributes the source assigns. Each method follows the source's statements in the source's order,
and its contract ties its effect to a function in `DriverSpec`. The properties are proved about
those functions, in `DriverTrace`, `StatusFrame`, `StatusTable`, `Sequencing`, `CommandFrame`
and `Utf8`.

Module layout:
- `Base`: bytes and `Option`.
- `Py`: the Python built-ins the driver uses.
  - `rstrip` and `lstrip`, `isspace`, `str(int)` and `int(float)`;
  - float `%`;
  - the `upper() == letter` test.
- `Utf8`: strict UTF-8, for `str.encode` and `bytes.decode`.
- `CommandFrame`: frames, bodies, and the `zip_longest` pairing.
- `StatusTable`: `STATUS_DICT`, in the source's order and spelling.
- `StatusFrame`: the reply split of `cseries_Status.__init__`.
- `StatusObject`: the `cseries_Status` class.
- `PumpConfig`: the configuration row, and the `max_steps` table.
- `Sequencing`: the order of calls in `disp_ml` and `config_pump`, and the millilitre arithmetic.
- `DriverSpec`: every operation as a function from one driver state to the next.
- `DriverTrace`: what the operations send, read off the log.
- `Dispensing`: `disp_ml` as a sequence of strokes.
- `Driver`: the `Link` and `Pump` classes.

Python exceptions become the outcome `Raised(fault)`:
- `bytes.decode` failing in `send_cmd` is `DecodeFailed`.
- A reply too short to split in `cseries_Status.__init__` is `ReplyTooShort`. This is Python's `IndexError`.
- Reading `max_steps` before `config_pump` assigned it is `MissingAttribute`. So is reading `data`
  of an undecodable reply. Both are Python's `AttributeError`.
- A syringe volume of 0 is `DivisionByZero`.
- `exit()` after an invalid increment mode is `Exited`.

The source's `wait4idle` loops forever while the pump never reports idle. The model has a finite
reply script instead, and ends with `RepliesExhausted` once the script is used up. The same fault
ends `send_cmd` and `send_cmd_multi` when no reply line is left; that outcome has no counterpart in
the source, where `readline` always returns, with `b''` after a serial timeout.

The model keeps the source as written:
- `STATUS_DICT` has 18 entries, an idle and a busy code for each of nine conditions, and the model
  keeps them all in the table's order.
- Its messages keep the source's spellings ("Invlaid Operand", "Pump not Initalized", "Pluger Stuck").
- The partial volume of `disp_ml` is `(ml % sv) * sv`, exactly as written. The syringe volume
  therefore cancels out of the partial move's plunger target. `Sequencing.PartialMoveSteps` states
  the consequence: the partial move is sent only when at most a little more than 1 mL is left over.
  `Sequencing.DispenseExample` shows 12 mL on a 5 mL syringe. That leaves 2 mL over and a partial
  volume of 10. Its move is out of range, so no partial move is sent.

## Model

| member | source | states |
|---|---|---|
| Py.IsSpace | tricont_cseries_DT_Driver.py:495 | definition: the 29 code points `str.isspace` accepts, which `rstrip()` without arguments removes |
| Py.UpperIs | tricont_cseries_DT_Driver.py:416 | definition: `data.upper() == letter` for a capital letter, the one-character strings that upper-case to it |
| Utf8.Decode | tricont_cseries_DT_Driver.py:366 | definition: strict UTF-8 decoding, as `bytes.decode()` with no arguments; None where it raises `UnicodeDecodeError` |
| Utf8.Encode | tricont_cseries_DT_Driver.py:360 | definition: `str.encode()`, character by character |
| CommandFrame.Frame | tricont_cseries_DT_Driver.py:353-357 | definition: `start_cmd_str + pump_address + body + exe_cmd_str + end_cmd_str` |
| CommandFrame.Body | tricont_cseries_DT_Driver.py:352-357 | definition: the command followed by the operand, or the command alone when the operand is `None` |
| CommandFrame.Poll | tricont_cseries_DT_Driver.py:386 | definition: the poll frame `"/" + address + "QR\r"` |
| CommandFrame.Join | tricont_cseries_DT_Driver.py:372 | definition: `''.join(parts)` |
| CommandFrame.MultiBody | tricont_cseries_DT_Driver.py:371-372 | definition: the joined `zip_longest` pairs that `send_cmd_multi` frames |
| StatusFrame.Info | tricont_cseries_DT_Driver.py:495 | definition: `response.rstrip().rstrip('\x03').lstrip('/')` |
| StatusFrame.Trimmed | tricont_cseries_DT_Driver.py:495 | definition: the reply after the two `rstrip` calls, before `lstrip` |
| Sequencing.StepsFor | tricont_cseries_DT_Driver.py:431 | definition: `int((max_steps / int(syringe_volume)) * abs_ml)` |
| Sequencing.InRange | tricont_cseries_DT_Driver.py:432 | definition: `steps in range(max_steps + 1)` |
| Sequencing.StrokeCount | tricont_cseries_DT_Driver.py:441 | definition: `int(ml2disp / int(syringe_volume))` |
| Sequencing.PartialStroke | tricont_cseries_DT_Driver.py:442 | definition: `ml2disp % float(syringe_volume)` |
| Sequencing.PartialVolume | tricont_cseries_DT_Driver.py:443 | definition: `partial_stroke * float(syringe_volume)`, as written |
| Sequencing.Stroke | tricont_cseries_DT_Driver.py:453-462 | definition: switch to Inlet, wait, move to the volume, wait, switch to Outlet, wait, move to 0, wait |
| Sequencing.DispensePlan | tricont_cseries_DT_Driver.py:445-475 | definition: the calls of `disp_ml` in order: emptying, `total_strokes` full strokes, then the partial stroke |
| Sequencing.ConfigPlan | tricont_cseries_DT_Driver.py:332-348 | definition: the calls of `config_pump` after `N`: an idle wait, then `L`, `v`, `V`, `c` and `C`, each followed by an idle wait |
| Py.IntToString | tricont_cseries_DT_Driver.py:433 | definition: `str(n)` for an integer, with a leading `-` for a negative one |
| Sequencing.Repeat | tricont_cseries_DT_Driver.py:451-462 | definition: the calls of `for i in range(total_strokes)`, one block of calls per iteration |
| Dispensing.Strokes | tricont_cseries_DT_Driver.py:451-475 | definition: one stroke for each volume in turn, stopping at the first exception |
| DriverSpec.IsIdleReply | tricont_cseries_DT_Driver.py:392 | definition: `96 in back` |
| Py.RStrip | tricont_cseries_DT_Driver.py:495 | `rstrip` gives the longest prefix that does not end in a stripped character; everything cut off is a stripped character |
| Py.LStrip | tricont_cseries_DT_Driver.py:495 | `lstrip` gives the longest suffix that does not start with a stripped character; everything cut off is a stripped character |
| Py.NatToString | tricont_cseries_DT_Driver.py:433 | `str(n)` is a non-empty string of decimal digits with no leading zero |
| Py.DecimalRoundTrip | tricont_cseries_DT_Driver.py:433 | the decimal text `str(n)` sends for a step number reads back as that number |
| Py.Trunc | tricont_cseries_DT_Driver.py:431 | `int(x)` truncates toward zero: for `x >= 0` the result is the floor, for `x < 0` the ceiling |
| Py.Mod | tricont_cseries_DT_Driver.py:442 | float `%` takes the divisor's sign, stays below the divisor in magnitude, and `x == y * floor(x / y) + r` |
| Py.FloorBounds | tricont_cseries_DT_Driver.py:442 | `y * floor(x / y)` lies within one `y` of `x`, on the side the sign of `y` gives |
| Utf8.DecodeFirst | tricont_cseries_DT_Driver.py:366 | the first well-formed UTF-8 sequence is 1 to 4 bytes long and lies within the input |
| Utf8.EncodeChar | tricont_cseries_DT_Driver.py:360 | one character encodes to 1 to 4 bytes |
| Utf8.DecodeFirstEncodeChar | tricont_cseries_DT_Driver.py:360-366 | decoding the encoding of a character, whatever follows, reads back that character and its length |
| Utf8.DecodeFirstEncode2 | tricont_cseries_DT_Driver.py:360-366 | the same, for characters that take two bytes |
| Utf8.DecodeFirstEncode3 | tricont_cseries_DT_Driver.py:360-366 | the same, for characters that take three bytes |
| Utf8.DecodeFirstEncode4 | tricont_cseries_DT_Driver.py:360-366 | the same, for characters that take four bytes |
| Utf8.DecodeFirstIsEncoding | tricont_cseries_DT_Driver.py:366 | a well-formed first sequence is exactly the encoding of the character it decodes to |
| Utf8.DecodeEncode | tricont_cseries_DT_Driver.py:360-366 | `s.encode().decode() == s`: a frame decodes back to itself |
| Utf8.DecodeFront | tricont_cseries_DT_Driver.py:366 | bytes that decode start with a well-formed character; the bytes after it decode to the rest of the text |
| Utf8.EncodeDecode | tricont_cseries_DT_Driver.py:366 | bytes that decode are the encoding of their text, so decoding loses nothing |
| Utf8.EncodeCons | tricont_cseries_DT_Driver.py:360 | encoding a character followed by text is the character's bytes followed by the text's |
| Utf8.EncodeAscii | tricont_cseries_DT_Driver.py:360 | ASCII text encodes to one byte per character, each the character's code |
| Utf8.EncodeAppend | tricont_cseries_DT_Driver.py:360 | encoding distributes over concatenation |
| CommandFrame.Letter | tricont_cseries_DT_Driver.py:96-101 | each `Valve_Pos` letter is an upper-case ASCII letter |
| CommandFrame.LetterInjective | tricont_cseries_DT_Driver.py:96-101 | the four valve letters are distinct |
| CommandFrame.Unframe | tricont_cseries_DT_Driver.py:353 | a string reads back as a frame exactly when it starts with `/` and the address and ends with `R` and a carriage return |
| CommandFrame.UnframeFrame | tricont_cseries_DT_Driver.py:353-357 | round trip: the body of a `send_cmd` frame is recovered from the frame |
| CommandFrame.FrameUnframe | tricont_cseries_DT_Driver.py:353-357 | converse: whatever reads back as a frame is the frame of the body read |
| CommandFrame.FrameInjective | tricont_cseries_DT_Driver.py:353-357 | different bodies give different frames for the same address |
| CommandFrame.Pairs | tricont_cseries_DT_Driver.py:371 | `zip_longest` pairing: as many pairs as the longer list, pair `i` being `commands[i] + operands[i]`, with `""` past the end of either list |
| CommandFrame.PairsCons | tricont_cseries_DT_Driver.py:371 | the first pair followed by the pairs of the rests pairs the whole lists |
| CommandFrame.JoinAppend | tricont_cseries_DT_Driver.py:372 | `''.join` distributes over concatenation |
| CommandFrame.MultiBodySingle | tricont_cseries_DT_Driver.py:352-373 | one opcode with one operand: the multi-command body equals the `send_cmd` body |
| CommandFrame.MultiBodyNoOperands | tricont_cseries_DT_Driver.py:371-372 | with no operands, the multi-command body is the opcodes concatenated in order |
| CommandFrame.MultiBodyExtend | tricont_cseries_DT_Driver.py:371-372 | for lists of equal length, appending one opcode and one operand appends their concatenation to the body |
| CommandFrame.PaddedPairs | tricont_cseries_DT_Driver.py:371 | three opcodes and two operands: the missing operand is padded with `""` |
| CommandFrame.PaddedBody | tricont_cseries_DT_Driver.py:371-372 | the body of those pairs is `gA3000G` |
| CommandFrame.PaddedFrame | tricont_cseries_DT_Driver.py:371-373 | the frame of those pairs for address `1` is `/1gA3000GR` followed by a carriage return |
| StatusTable.Find | tricont_cseries_DT_Driver.py:501-502 | the walk over the table finds the first entry at or after the start whose code matches, or none when none matches |
| StatusTable.Lookup | tricont_cseries_DT_Driver.py:500-510 | the entry `parse` settles on is a table entry with the status code; none means that no entry has that code |
| StatusTable.CodesDistinct | tricont_cseries_DT_Driver.py:194-213 | no two entries of `STATUS_DICT` share a status code |
| StatusTable.RecognizedCodes | tricont_cseries_DT_Driver.py:194-213 | a status code is recognised exactly when it is one of the 18 codes of the table |
| StatusTable.HealthyIffErrorFree | tricont_cseries_DT_Driver.py:194-213 | a code is recognised and healthy if and only if it is `` ` `` or `@` |
| StatusTable.LookupAt | tricont_cseries_DT_Driver.py:194-213 | every entry is the one the lookup finds for its own code |
| StatusFrame.DecodeReply | tricont_cseries_DT_Driver.py:488-498 | undecodable exactly when the bytes are not UTF-8; otherwise the address, status and data, put back together, are the stripped text; too short exactly when fewer than two characters remain |
| StatusFrame.Etxs | tricont_cseries_DT_Driver.py:495 | `n` ETX characters |
| StatusFrame.RStripTail | tricont_cseries_DT_Driver.py:495 | stripping a tail made only of stripped characters recovers what came before it, if that does not end in one |
| StatusFrame.LStripHead | tricont_cseries_DT_Driver.py:495 | stripping a run of leading `/` recovers what follows, if that does not start with `/` |
| StatusFrame.InfoOfReply | tricont_cseries_DT_Driver.py:495 | round trip of the text: `/` + address + status + data + ETXs + whitespace strips back to address + status + data |
| StatusFrame.DecodeReplyOfFrame | tricont_cseries_DT_Driver.py:488-498 | round trip of the bytes: the UTF-8 of such a reply splits into that address, status and data |
| StatusFrame.InfoWithin | tricont_cseries_DT_Driver.py:495 | the stripped text is a piece of the reply; only `/` come before it within the trimmed part |
| StatusFrame.TrimmedTail | tricont_cseries_DT_Driver.py:495 | what the two `rstrip` calls remove is whitespace and ETX only |
| StatusFrame.InfoEnds | tricont_cseries_DT_Driver.py:495 | the stripped text never starts with `/` and never ends with ETX |
| StatusFrame.IdleReplyText | tricont_cseries_DT_Driver.py:490 | the bytes of the idle, error-free reply decode to its text |
| StatusFrame.IdleReplyInfo | tricont_cseries_DT_Driver.py:495 | stripping that reply leaves its address and status code |
| StatusFrame.IdleErrorFreeReply | tricont_cseries_DT_Driver.py:488-510 | the reply `` /0` `` with a carriage return splits into address `0`, status `` ` `` and no data, and classifies as the idle, error-free, healthy entry |
| StatusFrame.UnknownCodeUnhealthy | tricont_cseries_DT_Driver.py:500-510 | an unknown code such as `x` matches no entry |
| StatusObject.Status.FromText | tricont_cseries_DT_Driver.py:488-498 | the object holds the given response and the address, status and data of the split; the fields `parse` sets start unset |
| StatusObject.Status.Create | tricont_cseries_DT_Driver.py:488-498 | the result is absent exactly when the split raises `IndexError`; undecodable bytes leave `response` empty; otherwise address, status and data are those of the split; `parse`'s fields start unset |
| StatusObject.Status.Parse | tricont_cseries_DT_Driver.py:500-510 | with a response, a matching entry sets key, code, message, Busy/Idle and the health flag from it; with no match only the message is set, to the not-recognised text; without a response, where the source raises `AttributeError` on `status`, it returns false and nothing changes; the reply fields stay as they were |
| PumpConfig.MaxStepsFor | tricont_cseries_DT_Driver.py:311-330 | an increment mode other than `0` and `1` is invalid; with a valid mode, a stroke class other than `1` and `2` is invalid; the step counts are 3000, 24000 or 196000, 3000 only for (`0`,`1`) and 196000 only for (`1`,`2`) |
| PumpConfig.MaxStepsTable | tricont_cseries_DT_Driver.py:312-324 | the four valid combinations map to 3000, 24000, 24000 and 196000 |
| Sequencing.RepeatFront | tricont_cseries_DT_Driver.py:456 | `n` strokes are one stroke followed by `n - 1` strokes |
| Sequencing.ConfigPlanShape | tricont_cseries_DT_Driver.py:332-348 | the configuration calls are an idle wait, the slope and an idle wait, then the four velocity settings, each followed by an idle wait |
| Sequencing.ValvedMovesAppend | tricont_cseries_DT_Driver.py:445-475 | the moves of two plans, the second starting with a valve switch, are the moves of each in turn |
| Sequencing.SwitchFirstIgnoresCurrent | tricont_cseries_DT_Driver.py:445-475 | the moves of a plan that starts with a switch do not depend on the valve before it |
| Sequencing.WaitsAppend | tricont_cseries_DT_Driver.py:445-475 | "every call is followed by an idle wait" survives concatenation |
| Sequencing.RepeatWaits | tricont_cseries_DT_Driver.py:451-462 | it survives repetition of the stroke |
| Sequencing.DispenseWaits | tricont_cseries_DT_Driver.py:445-475 | `disp_ml` waits for idle after every valve switch and every move |
| Sequencing.ConfigWaits | tricont_cseries_DT_Driver.py:332-348 | `config_pump` waits for idle after every command it sends |
| Sequencing.StrokePairs | tricont_cseries_DT_Driver.py:451-462 | `n` full strokes make `2n` moves: (Inlet, volume), then (Outlet, 0), `n` times |
| Sequencing.RepeatValvedMoves | tricont_cseries_DT_Driver.py:451-462 | the moves of `n` full strokes are those `2n` pairs |
| Sequencing.DispenseValvedMoves | tricont_cseries_DT_Driver.py:441-475 | `disp_ml` moves (Inlet, 0), then (Inlet, sv) and (Outlet, 0) for each of the `k` full strokes, then (Inlet, partial volume) and (Outlet, 0): `2k + 3` moves |
| Sequencing.StrokeMoves | tricont_cseries_DT_Driver.py:466-475 | one stroke moves (Inlet, volume) and then (Outlet, 0) |
| Sequencing.EmptyMoves | tricont_cseries_DT_Driver.py:445-449 | emptying the syringe is the one move (Inlet, 0) |
| Sequencing.SwitchThenMove | tricont_cseries_DT_Driver.py:445-449 | a switch, a wait, a move and a wait make one move through the valve just selected |
| Sequencing.RepeatHead | tricont_cseries_DT_Driver.py:451-462 | repeated strokes start with a stroke's first call |
| Sequencing.StrokeDecomposition | tricont_cseries_DT_Driver.py:441-442 | for a positive volume and a non-negative amount, amount = full strokes × volume + remainder, with the remainder below the volume |
| Sequencing.PartialMoveSteps | tricont_cseries_DT_Driver.py:441-443 | as written, the partial move's step number is `floor(max_steps × remainder)`, in range exactly when that is under `max_steps + 1` |
| Sequencing.MoveExample | tricont_cseries_DT_Driver.py:431 | 3000 steps, 5 mL syringe, 2 mL: step 1200 |
| Sequencing.DispenseExample | tricont_cseries_DT_Driver.py:441-443 | 12 mL on a 5 mL syringe: 2 full strokes, remainder 2, partial volume 10, step 6000, out of range on a 3000-step pump |
| DriverSpec.Exchange | tricont_cseries_DT_Driver.py:360-366 | the frame is logged and kept; its encoding decodes back to it; the next reply is consumed and stored; the outcome fails exactly when no reply is left or the reply is not UTF-8; settings are untouched |
| DriverSpec.SendCmd | tricont_cseries_DT_Driver.py:350-366 | writes exactly the frame of the command and, when present, the operand; `command` is set; `operand` is set only when one is given; succeeds exactly when the reply decodes |
| DriverSpec.SendCmdMulti | tricont_cseries_DT_Driver.py:368-382 | writes exactly the frame of the paired body; the lists are kept; succeeds exactly when the reply decodes |
| DriverSpec.FirstIdle | tricont_cseries_DT_Driver.py:391-393 | the first reply holding byte 96, with none before it, or none at all |
| DriverSpec.Polls | tricont_cseries_DT_Driver.py:386-389 | `n` copies of the poll frame `/` + address + `QR` + carriage return |
| DriverSpec.Wait4Idle | tricont_cseries_DT_Driver.py:384-393 | returns exactly when some reply holds byte 96; it writes one poll per reply up to and including the first such reply, and consumes those replies; it does not return otherwise; attributes are untouched |
| DriverSpec.SwitchValve | tricont_cseries_DT_Driver.py:395-423 | `max_steps` is untouched |
| DriverSpec.QueryValve | tricont_cseries_DT_Driver.py:401-403 | `max_steps` is untouched |
| DriverSpec.QueryReportDecodes | tricont_cseries_DT_Driver.py:401-403 | after a `?6` query that returned, the stored reply decodes, so the status object built from it has its `data` |
| DriverSpec.SettleAndSwitch | tricont_cseries_DT_Driver.py:405-423 | `max_steps` is untouched |
| DriverSpec.Move2Pos | tricont_cseries_DT_Driver.py:425-438 | `max_steps` is untouched |
| DriverSpec.RunStep | tricont_cseries_DT_Driver.py:445-475 | `max_steps` is untouched |
| DriverSpec.RunPlan | tricont_cseries_DT_Driver.py:445-475 | `max_steps` is untouched |
| DriverSpec.DispMl | tricont_cseries_DT_Driver.py:440-477 | a syringe volume of 0 raises before anything is written; `max_steps` is untouched |
| DriverSpec.ConfigPump | tricont_cseries_DT_Driver.py:309-348 | `max_steps` is the table's step count when the table gives one and the `N` reply decodes; otherwise it is left as it was |
| DriverSpec.Next | tricont_cseries_DT_Driver.py:445-475 | a plan runs its first call, then the rest unless that call raised |
| DriverSpec.RunPlanAppend | tricont_cseries_DT_Driver.py:445-475 | running two plans one after the other is running their concatenation |
| DriverTrace.CommandsAppend | tricont_cseries_DT_Driver.py:363 | the command bodies of a concatenated log are those of each part in turn |
| DriverTrace.CommandsAfterFrame | tricont_cseries_DT_Driver.py:353-363 | writing the frame of a body other than `Q` adds exactly that body |
| DriverTrace.PollsCarryNoCommand | tricont_cseries_DT_Driver.py:386-389 | status polls add no command body |
| DriverTrace.CommandsAfterPolls | tricont_cseries_DT_Driver.py:386-389 | appending polls leaves the command bodies as they were |
| DriverTrace.WaitSendsNothing | tricont_cseries_DT_Driver.py:384-393 | `wait4idle` sends no command, whether it returns or not |
| DriverTrace.LetterNotPoll | tricont_cseries_DT_Driver.py:96-101 | no valve letter is `Q` or `A`, so a valve command is neither a poll nor a move |
| DriverTrace.SwitchValveCommands | tricont_cseries_DT_Driver.py:395-423 | when `switch_valve` returns, it has sent `?6` and then the valve letter, the letter exactly when the reported data, upper-cased, is not that letter already: at most one valve command per call |
| DriverTrace.ReportAfterWait | tricont_cseries_DT_Driver.py:400-401 | after the first idle wait, the next reply is the one the `?6` query reads |
| DriverTrace.QueryValveCommands | tricont_cseries_DT_Driver.py:401-423 | the same, from the `?6` query on |
| DriverTrace.SettleCommands | tricont_cseries_DT_Driver.py:405-423 | after the second idle wait, the letter is sent exactly when the data is not already it |
| DriverTrace.SwitchValveShortReport | tricont_cseries_DT_Driver.py:403 | a valve report too short to split makes `switch_valve` raise `IndexError` |
| DriverTrace.Move2PosWrites | tricont_cseries_DT_Driver.py:425-438 | without `max_steps`, or with a volume of 0, it fails and writes nothing; out of range, it writes nothing and returns; in range, it writes exactly the frame of `A` and the step number |
| DriverTrace.MoveOperandsAppend | tricont_cseries_DT_Driver.py:433 | the move operands of concatenated bodies are those of each part in turn |
| DriverTrace.TargetsAppend | tricont_cseries_DT_Driver.py:431-433 | the step numbers of concatenated moves are those of each part in turn |
| DriverTrace.NoMoveAmong | tricont_cseries_DT_Driver.py:433 | bodies that do not start with `A` carry no move operand |
| DriverTrace.SwitchMoves | tricont_cseries_DT_Driver.py:395-423 | `switch_valve` sends no move |
| DriverTrace.ValveCommandsCarryNoMove | tricont_cseries_DT_Driver.py:400-423 | `?6` and a valve letter carry no move operand |
| DriverTrace.MoveMoves | tricont_cseries_DT_Driver.py:431-433 | `move2pos_abs_ml` sends the step number of its move exactly when that number is in range |
| DriverTrace.StepMoves | tricont_cseries_DT_Driver.py:445-475 | a switch, a wait or a move sends the step numbers of that call only |
| DriverTrace.RunPlanMoves | tricont_cseries_DT_Driver.py:445-475 | a plan of switches, moves and waits that runs to the end sends, as move operands, exactly the in-range step numbers of its moves, in order |
| DriverTrace.PlanTargetsStep | tricont_cseries_DT_Driver.py:445-475 | the step numbers of a plan are those of its first call, then those of the rest |
| DriverTrace.DispMlMoves | tricont_cseries_DT_Driver.py:440-477 | `disp_ml` that runs to the end sends the in-range step numbers of the dispense plan's moves, in order |
| DriverTrace.NoSendInRepeat | tricont_cseries_DT_Driver.py:451-462 | full strokes contain no configuration send |
| DriverTrace.NoSendInDispense | tricont_cseries_DT_Driver.py:445-475 | the dispense plan contains no configuration send |
| DriverTrace.EndPointTargets | tricont_cseries_DT_Driver.py:431-433 | a move to the full syringe volume sends `max_steps`; a move to 0 sends `0` |
| DriverTrace.StrokeTargets | tricont_cseries_DT_Driver.py:466-475 | one stroke sends its target's step number, if in range, then `0` |
| DriverTrace.StrokePairsTargets | tricont_cseries_DT_Driver.py:451-462 | `n` full strokes send `max_steps` and `0`, `n` times |
| DriverTrace.StrokePairsTargetsStep | tricont_cseries_DT_Driver.py:451-462 | one more full stroke adds `max_steps` and `0` |
| DriverTrace.DispenseTargets | tricont_cseries_DT_Driver.py:440-477 | the step numbers `disp_ml` sends: `0`, then `max_steps` and `0` per full stroke, then the partial volume's if in range, then `0` |
| DriverTrace.SendStepCommands | tricont_cseries_DT_Driver.py:332-348 | an idle wait sends no body; a configuration send sends its body |
| DriverTrace.RunPlanSends | tricont_cseries_DT_Driver.py:332-348 | a plan of sends and idle waits that runs to the end sends exactly the bodies of its sends, in order |
| DriverTrace.ConfigPlanSends | tricont_cseries_DT_Driver.py:332-348 | the configuration plan is made of sends and idle waits, and its bodies are `L`, `v`, `V`, `c` and `C` with their operands |
| DriverTrace.ConfigPlanSendsAndWaits | tricont_cseries_DT_Driver.py:332-348 | the configuration plan is made of sends and idle waits, none of them a `Q` |
| DriverTrace.SentStep | tricont_cseries_DT_Driver.py:332-348 | the bodies sent from call `k` on are that call's, then those from `k + 1` on |
| DriverTrace.SendThenWait | tricont_cseries_DT_Driver.py:335-348 | a send followed by an idle wait contributes just the send's body |
| DriverTrace.ConfigPlanBodies | tricont_cseries_DT_Driver.py:335-348 | the configuration plan sends the slope, the velocities and the cut-off increment, in that order |
| DriverTrace.ConfigPumpCommands | tricont_cseries_DT_Driver.py:309-348 | `config_pump` that runs to the end had a valid increment mode and sent exactly `N`, `L`, `v`, `V`, `c` and `C` with their operands, in that order |
| DriverTrace.ConfigPumpExits | tricont_cseries_DT_Driver.py:328-330 | an invalid increment mode: only the `N` frame is written, then the run ends, with `exit()` when the `N` reply decodes |
| DriverTrace.ExtendsTrans | tricont_cseries_DT_Driver.py:363 | "the log grew by frames to the pump only" is transitive |
| DriverTrace.ExtendsByFrame | tricont_cseries_DT_Driver.py:353-363 | writing one frame to the pump keeps that property |
| DriverTrace.ExtendsPolls | tricont_cseries_DT_Driver.py:386-389 | so does writing polls |
| DriverTrace.WaitFramed | tricont_cseries_DT_Driver.py:384-393 | everything `wait4idle` writes is a frame addressed to the pump |
| DriverTrace.SendCmdMultiFramed | tricont_cseries_DT_Driver.py:368-382 | `send_cmd_multi` writes one frame to the pump, and `string2send` reads back as the paired body |
| DriverTrace.SettleFramed | tricont_cseries_DT_Driver.py:405-423 | the end of `switch_valve` writes only frames to the pump |
| DriverTrace.QueryFramed | tricont_cseries_DT_Driver.py:401-423 | so does `switch_valve` from the `?6` query on |
| DriverTrace.SwitchFramed | tricont_cseries_DT_Driver.py:395-423 | so does `switch_valve` |
| DriverTrace.StepFramed | tricont_cseries_DT_Driver.py:445-475 | so does each call of a plan |
| DriverTrace.PlanFramed | tricont_cseries_DT_Driver.py:445-475 | so does a whole plan |
| DriverTrace.DispMlFramed | tricont_cseries_DT_Driver.py:440-477 | everything `disp_ml` writes is a frame addressed to the pump |
| DriverTrace.ConfigPumpFramed | tricont_cseries_DT_Driver.py:309-348 | everything `config_pump` writes is a frame addressed to the pump |
| Dispensing.Copies | tricont_cseries_DT_Driver.py:451 | `n` copies of a volume: `n` entries, each that volume |
| Dispensing.CopiesFront | tricont_cseries_DT_Driver.py:451 | the first of the copies is the volume; after it come the other copies |
| Dispensing.StrokesNext | tricont_cseries_DT_Driver.py:451-475 | the strokes run the first stroke, then the others unless it raised |
| Dispensing.StrokesPlan | tricont_cseries_DT_Driver.py:451-475 | `n` full strokes and a last one, taken one at a time, run as the plan that lists them |
| Dispensing.DispenseSplit | tricont_cseries_DT_Driver.py:440-477 | `disp_ml` is emptying the syringe, then, unless that raised, the full strokes and the partial stroke |
| Driver.Link.constructor | tricont_cseries_DT_Driver.py:292-293 | a fresh line: nothing written, the given replies to come |
| Driver.Link.Write | tricont_cseries_DT_Driver.py:363 | appends the frame to the log; the replies are untouched |
| Driver.Link.ReadLine | tricont_cseries_DT_Driver.py:364 | consumes and returns the next reply, or none when none is left; the log is untouched |
| Driver.Pump.constructor | tricont_cseries_DT_Driver.py:273-298 | a pump with the loaded row and its line; no attribute the methods set is assigned yet |
| Driver.Pump.Transmit | tricont_cseries_DT_Driver.py:360-366 | encode, write, read, decode: the effect of `DriverSpec.Exchange` |
| Driver.Pump.SendCmd | tricont_cseries_DT_Driver.py:350-366 | the effect of `DriverSpec.SendCmd` |
| Driver.Pump.SendCmdMulti | tricont_cseries_DT_Driver.py:368-382 | the effect of `DriverSpec.SendCmdMulti` |
| Driver.Pump.Wait4Idle | tricont_cseries_DT_Driver.py:384-393 | the polling loop has the effect of `DriverSpec.Wait4Idle` |
| Driver.Pump.SwitchValve | tricont_cseries_DT_Driver.py:395-423 | the effect of `DriverSpec.SwitchValve` |
| Driver.Pump.QueryValve | tricont_cseries_DT_Driver.py:401-403 | the `?6` query and the status object built from its reply: the effect of `DriverSpec.QueryValve` |
| Driver.Pump.SettleAndSwitch | tricont_cseries_DT_Driver.py:405-423 | the effect of `DriverSpec.SettleAndSwitch` |
| Driver.Pump.Move2PosAbsMl | tricont_cseries_DT_Driver.py:425-438 | the effect of `DriverSpec.Move2Pos` |
| Driver.Pump.Perform | tricont_cseries_DT_Driver.py:445-475 | one call of a plan: when it raises, that is how the plan ends; otherwise the rest of the plan is what remains |
| Driver.Pump.SwitchAndMove | tricont_cseries_DT_Driver.py:445-449 | four calls in a row (switch, wait, move, wait) advance the plan by four calls |
| Driver.Pump.EmptyCurrentSyringe | tricont_cseries_DT_Driver.py:444-449 | runs the plan that empties the syringe |
| Driver.Pump.StrokeOf | tricont_cseries_DT_Driver.py:453-462 | runs the plan of one stroke |
| Driver.Pump.StrokeStep | tricont_cseries_DT_Driver.py:451-475 | one stroke advances the pending strokes by one |
| Driver.Pump.FullStrokes | tricont_cseries_DT_Driver.py:451-462 | the `for` loop runs `total_strokes` full strokes, none when that is not positive |
| Driver.Pump.DispMl | tricont_cseries_DT_Driver.py:440-477 | the effect of `DriverSpec.DispMl` |
| Driver.Pump.ConfigPump | tricont_cseries_DT_Driver.py:309-348 | the effect of `DriverSpec.ConfigPump` |
| Driver.Pump.SendMotionSettings | tricont_cseries_DT_Driver.py:332-348 | runs the configuration plan |
| Driver.Pump.SendVelocities | tricont_cseries_DT_Driver.py:338-348 | runs the four velocity settings, each followed by an idle wait |
| Driver.Pump.SendAndWait | tricont_cseries_DT_Driver.py:335-348 | one setting, then an idle wait, advances the plan by two calls |

## Left out

- Serial I/O is not modelled. Opening and closing the port, `serial.Serial` and the `sleep(0.05)`
  poll cadence are replaced by `Link`. `Link` holds a log of written frames and a finite script of
  reply lines.
- `flushInput` in `wait4idle` is not modelled as an operation. Each script entry stands for the line
  `readline` returns after the flush. A serial timeout is the entry `[]`, for `b''`, which decodes
  to the empty text and holds no idle byte.
- The log holds frames as text. What goes on the wire is their UTF-8 encoding; `Utf8.DecodeEncode`
  and `Utf8.EncodeDecode` relate the two.
- `Driver.Pump.Wait4Idle`: a pump that never reports idle keeps the source waiting forever. Here the
  wait ends with `RepliesExhausted` once the reply script is used up, after one last poll.
- Loading the configuration is not modelled. That covers the CSV reader in `cseries_DT.__init__`,
  `cseries_configurator.write_csv` and the "pump not found" path. The loaded row is given as a
  `PumpConfig.Config`.
- `int()` on the volume, baud rate and timeout cells is not modelled. Those cells are integers in
  `Config`.
- Attributes the source never assigns before a method reads them are modelled in two ways:
  - `max_steps` is `None` in the model;
  - the other attributes start as empty strings or sequences.
- `print` output, the `verbose` debug prints and `open_serial`/`close_serial` are left out. They
  have no effect on the pump.
- Every argument is taken as given. The type objects the source uses as defaults are not modelled:
  `commands=list, operands=list` at :368, `destination_valve=str` at :395 and `ml2disp=float` at :440.
  A call that leaves one out raises `TypeError` or `KeyError` in the source.
- `exit()` is the outcome `Raised(Exited)`. The process ending is not modelled.
- Floating-point rounding is not modelled. Reals are exact, so `/`, `%` and `int()` act on exact values.
- A `destination_valve` that is not a key of `Valve_Pos` is not modelled. The source raises
  `KeyError` for it; here the destination is a `Valve`. This also covers the `for` loop in
  `switch_valve` that looks the key up again, since it always finds it.
- `StatusObject.Status.Parse`: the source writes the not-recognised message once for every entry it
  passes before a match, and the match then overwrites it. The method writes the fields once, after
  the walk. The final state is the same.
- The source's single methods `config_pump`, `switch_valve` and `disp_ml` are each split into
  several methods. Every part runs the source's statements in the source's order.
- The scripts `CSeries_UI.py`, `CSeries-Disp-Vol.py`, `prime_protocol.py` and
  `tricont-connect-test/connect.py` only call the driver, so they are not modelled.
