# Controller translation of the NES and Lynx front-ends

This project models how two emulator front-ends turn the polled state of the
Wii and GameCube controllers into the pad words of the emulated console. It
is written in Dafny and models one frame, `updateControls`, plus
`onPostLoad`:

- The **NES** front-end translates four controller slots into four 16-bit
  pad words.
  - A logical button whose value carries the special flag never reaches a
    pad word. Instead, its press edge does one of two things:
    - on a VS Unisystem game, it inserts a coin;
    - on a disk (FDS) game, it starts a 30-frame countdown that ejects,
      selects and re-inserts the disk.
  - The countdown and the edge detector persist from frame to frame. A load
    resets them.
- The **Lynx** front-end translates controller slot 0 into one 16-bit pad
  word. Its four directions go through a table chosen by the game's screen
  orientation (0, 90 or 270 degrees).

The two front-ends share their translation rules, so those are one module:

- **`Controls`** (`controls.dfy`) holds the shared rules:
  - the mapped-button rule over the database's button map, by controller
    type;
  - the rapid-fire filter;
  - the mask on the Wiimote d-pad while a Nunchuk is attached;
  - the resolution of the four directions.

  A machine word is the set of the positions of its 1 bits:
  - `&` is intersection, `|` is union and `& ~` is difference;
  - storing into a `u16` keeps the positions below 16 (`Low16`).
- **`Lynx`** (`lynx.dfy`) holds:
  - the rotation table;
  - an independent description of the table as steps along the cycle up,
    left, down, right;
  - the class `LynxInput`, with its frame method.
- **`Nes`** (`nes.dfy`) holds:
  - the special-button state machine, as the pure `SpecialStep`, with
    lemmas over runs of frames;
  - the class `NesInput`:
    - it has the countdown (`flipdisk`), the edge detector (`specialheld`)
      and the four pad words (`padData`);
    - its frame method is proved against `SpecialStep`, `FrameEvents` and
      `NesPad`.

The following are not called directly:
- The NES frame method returns them as a list of events, in the order the
  code makes them:
  - the calls into the emulation core (disk eject, select and insert, and the
    VS coin);
  - the exit request, which clears `GameThreadRun`.
- The Lynx frame method returns only the exit request, as the boolean `exit`.

In the NES code, the calls come in this order within a frame:
1. the countdown's disk action;
2. the exit request, which comes from slot 0 only and happens before that
   slot's mapped buttons;
3. the coin.

Three consequences of the code that the model keeps:
- **Disk-flip timing.** The disk calls are made at counts 30, 20 and 10,
  before the decrement. So for a press in frame N, eject comes in frame N+1,
  select in frame N+11 and insert in frame N+21: select 10 frames and insert
  20 frames after the eject.
- **Orientation codes.** The rotation switch has no default branch; for any
  other orientation code the direction values would be left unset. The
  model's `Rotation` type admits only the three handled orientations.
- **Restart.** A special press edge in a frame where the countdown stands at
  0 sets it to 30. A countdown at 1 ticks to 0 first, so a press edge in
  that frame already restarts it.

## Model

| member | source | states |
|---|---|---|
| Controls.HeldLeft | tags/0.0/src/wii/emulator/nes/NesEmu.cpp:100 | The word handed to the digital helpers loses exactly the Wiimote d-pad bits 0x0F00 when a Nunchuk is attached. It keeps every other bit, and it keeps all bits without a Nunchuk. |
| Controls.Asserted | tags/0.0/src/wii/emulator/nes/NesEmu.cpp:136-148 | A logical button is asserted when one of four things holds. (1) A Classic is attached and the held word meets the Classic mask. (2) A Nunchuk is attached and it meets the Nunchuk mask. (3) No Nunchuk is attached and it meets the Wiimote mask. (4) The GameCube held word meets the GameCube mask. |
| Controls.MappedWord | tags/0.0/src/wii/emulator/nes/NesEmu.cpp:134-174 | The mapped-button loop's word, built in table order; every bit of it lies below 16, as the `val & 0xFFFF` and the 16-bit result keep. `MappedWordCovers` and `MappedWordSource` characterise its contents. |
| Controls.MappedWordCovers | tags/0.0/src/wii/emulator/nes/NesEmu.cpp:134-174 | If a button is asserted, not special, and either not rapid-fire or on a rapid frame, then its low 16 bits are set in the mapped-button word. |
| Controls.MappedWordSource | trunk/src/wii/emulator/lynx/Lynx.cpp:100-121 | Every bit of the mapped-button word comes from the low 16 bits of some contributing button. |
| Controls.MappedWordEmpty | trunk/src/wii/emulator/lynx/Lynx.cpp:100-121 | If no button contributes, the mapped-button word is 0. This covers all buttons released, only rapid-fire buttons on a non-rapid frame, and only special buttons. |
| Controls.HomePressed | tags/0.0/src/wii/emulator/nes/NesEmu.cpp:115-124 | The home check (also trunk/src/wii/emulator/lynx/Lynx.cpp:84-90): exit is requested when the Wiimote HOME button or the GameCube HOME button went down, or the console's hardware button was pressed, and in no other case; no other button going down requests it. |
| Controls.ResolveDirections | tags/0.0/src/wii/emulator/nes/NesEmu.cpp:176-194 | The four direction tests, run in the order right, left, up, down, OR into the word exactly the direction word. A direction is pressed when its digital helper fires on the masked held word, or the GameCube d-pad bit is held, or the analog helper fires. |
| Controls.DirectionWordBit | trunk/src/wii/emulator/lynx/Lynx.cpp:148-166 | Suppose the direction constants are distinct one-bit pad constants. Then a direction's bit is set in the direction word exactly when that direction is pressed. |
| Controls.NunchukMasksWiimoteDpad | tags/0.0/src/wii/emulator/nes/NesEmu.cpp:97-100 | While a Nunchuk is attached, the Wiimote d-pad bits have no effect on any direction. |
| Lynx.RotationTable | trunk/src/wii/emulator/lynx/Lynx.cpp:127-146 | The rotation switch: physical direction `d` writes the Lynx bit of logical direction `Turn(rot, d)`, a walk of 0, 1 or 3 steps along up, left, down, right; the lemmas below derive identity, the 270 cycle, the 90/270 inverse and distinctness from it. |
| Lynx.Rotation0Identity | trunk/src/wii/emulator/lynx/Lynx.cpp:129-134 | Rotation 0 keeps up, left, down and right. |
| Lynx.Rotation270Cycle | trunk/src/wii/emulator/lynx/Lynx.cpp:135-140 | Rotation 270 sends up to left, left to down, down to right and right to up. |
| Lynx.Rotation90Inverts270 | trunk/src/wii/emulator/lynx/Lynx.cpp:135-146 | The rotation-90 table undoes the rotation-270 table, and the other way round. |
| Lynx.Rotation90Thrice | trunk/src/wii/emulator/lynx/Lynx.cpp:135-146 | Applying the rotation-90 table three times gives the rotation-270 table. |
| Lynx.InverseUndoes | trunk/src/wii/emulator/lynx/Lynx.cpp:127-146 | Turning by a rotation and then by its inverse, in either order, returns the original direction. |
| Lynx.TurnInjective | trunk/src/wii/emulator/lynx/Lynx.cpp:127-146 | No two physical directions turn into the same logical direction. |
| Lynx.TurnImageSize | trunk/src/wii/emulator/lynx/Lynx.cpp:127-146 | A rotation maps a set of directions onto a set of the same size. |
| Lynx.RotationTableDistinct | trunk/src/wii/emulator/lynx/Lynx.cpp:127-146 | If the four Lynx direction constants are distinct one-bit constants, then every rotated table is too. |
| Lynx.RotatedDirections | trunk/src/wii/emulator/lynx/Lynx.cpp:127-166 | The logical directions set in the Lynx direction word are exactly the rotated images of the pressed physical directions. There are as many of them as pressed directions: none lost, none doubled. |
| Lynx.LynxInput.GetRotation | trunk/src/wii/emulator/lynx/Lynx.cpp:186-190 | The orientation stored in the loaded game's database entry; `UpdateControls` reads the table through it and leaves it unchanged. |
| Lynx.LynxInput.UpdateControls | trunk/src/wii/emulator/lynx/Lynx.cpp:48-169 | The pad word becomes slot 0's mapped-button word plus its direction word through the orientation's rotation table, and nothing carries over from earlier frames. The orientation is unchanged. The exit request is the home check. |
| Lynx.LynxInput.OnPostLoad | trunk/src/wii/emulator/lynx/Lynx.cpp:171-173 | Reloading changes nothing: the body is empty, so the state is unchanged. |
| Nes.CountdownEvents | tags/0.0/src/wii/emulator/nes/NesEmu.cpp:64-79 | The countdown switch makes eject exactly at count 30, select exactly at 20 and insert(-1) exactly at 10; it makes at most one call, never a coin or an exit, and none at any other count. |
| Nes.SpecialStep | tags/0.0/src/wii/emulator/nes/NesEmu.cpp:59-203 | Eject, select and insert fire exactly at counts 30, 20 and 10, at most one per frame, and no disk call is made at any other count; a count above 1 decreases by one. The count becomes 30 exactly on a special press edge of a non-VS disk game at count 0 or 1; otherwise 0 or 1 becomes 0, and it never exceeds 30. The detector afterwards equals "some special button asserted this frame", and a coin is inserted exactly on a press edge of a VS Unisystem game. |
| Nes.FrameOf | tags/0.0/src/wii/emulator/nes/NesEmu.cpp:64-163 | The same event list given the frame's two inputs as booleans (some special button asserted, slot 0's home check): exit exactly with the home check, each disk action exactly at its count, a coin exactly on a VS press edge, nothing else, in rank order disk, exit, coin. |
| Nes.FrameEvents | tags/0.0/src/wii/emulator/nes/NesEmu.cpp:64-163 | A frame makes the exit request exactly when slot 0's home check holds, each disk action exactly at its count, and a coin exactly on a special press edge of a VS Unisystem game; it makes no other event, none twice, and they come in the order disk action, exit request, coin. |
| Nes.NesInput.UpdateControls | tags/0.0/src/wii/emulator/nes/NesEmu.cpp:59-203 | The countdown and detector move as `SpecialStep` says, and the events are the frame's events in order. Each slot's pad word is its own mapped-button word plus its direction word, with no rotation. |
| Nes.NesInput.Slot | tags/0.0/src/wii/emulator/nes/NesEmu.cpp:82-197 | One turn of the slot loop advances the loop's progress by one slot: the special flag, detector, countdown and events are those after slot `c`, and slot `c`'s pad word is stored. |
| Nes.NesInput.TranslateSlot | tags/0.0/src/wii/emulator/nes/NesEmu.cpp:115-196 | One slot makes the exit request only when it is slot 0, then runs the mapped-button loop, then the directions. Its pad word is `NesPad`. |
| Nes.NesInput.StorePad | tags/0.0/src/wii/emulator/nes/NesEmu.cpp:196 | Storing slot `c`'s pad word keeps the pad words of the earlier slots and adds slot `c`'s `NesPad`. |
| Nes.NesInput.MapSlot | tags/0.0/src/wii/emulator/nes/NesEmu.cpp:134-174 | The mapped-button loop builds the mapped-button word and records any special button. Only the first special press since the detector was clear changes the state: it inserts a coin (VS Unisystem) or starts the countdown (disk game at count 0). |
| Nes.NesInput.OnPostLoad | tags/0.0/src/wii/emulator/nes/NesEmu.cpp:205-209 | A load clears the countdown and the detector. |
| Nes.NesInput.constructor | tags/0.0/src/wii/emulator/nes/NesEmu.cpp:56-57 | The initial countdown is 0, the detector is clear, and there are four pad words. |
| Nes.Run | tags/0.0/src/wii/emulator/nes/NesEmu.cpp:64-163 | Over any run of frames the countdown stays within 0..30. |
| Nes.CountdownNotRestarted | tags/0.0/src/wii/emulator/nes/NesEmu.cpp:150-163 | A running countdown is never restarted. `j` frames after it stood at `k`, it stands at `k - j`, whatever is pressed. |
| Nes.CountdownRunsOut | tags/0.0/src/wii/emulator/nes/NesEmu.cpp:64-79 | A countdown at `k` makes exactly the disk actions still pending, in order, over its remaining `k` frames, whatever is pressed. |
| Nes.DiskFlipSequence | tags/0.0/src/wii/emulator/nes/NesEmu.cpp:150-163 | A press edge on a disk game whose countdown has run out is followed, over the next 30 frames, by exactly eject, select and insert(-1), in that order. |
| Nes.CoinPerEdge | tags/0.0/src/wii/emulator/nes/NesEmu.cpp:150-202 | Over a run of frames, the coins inserted equal the special press edges on a VS Unisystem game and 0 otherwise. |
| Nes.HoldingInsertsOneCoin | tags/0.0/src/wii/emulator/nes/NesEmu.cpp:199-202 | Holding the special button through a run of frames makes at most one edge, and exactly one if it was not held before. |
| Nes.QuietAfterLoad | tags/0.0/src/wii/emulator/nes/NesEmu.cpp:205-209 | After a load clears the state, frames without a special press make no disk call and leave the countdown at 0 and the detector clear: nothing deferred survives a load. |
| Nes.VsUniNeverFlips | tags/0.0/src/wii/emulator/nes/NesEmu.cpp:155-163 | A VS Unisystem game never starts the disk countdown and makes no disk actions. |

## Left out

- Nes.NesInput: the countdown and the edge detector are file-level statics in the code, shared by every `Nes` object and initialised once (NesEmu.cpp lines 56-57), not by the `Nes` constructor; the model makes them fields of the single `NesInput` instance, which its constructor initialises to the same values.
- Controller polling (`WPAD_ScanPads`, `PAD_ScanPads`, the button, expansion and stick queries) is left out. Each slot's polled state is a `Sample` parameter.
- The analog stick values and the float thresholds of `wii_exp_analog_val` and `wii_analog_*` are left out. A `Sample` carries the set of directions whose analog helper fires.
- The bodies of the digital d-pad helpers `wii_digital_*` are not part of this model. They are an arbitrary function of the direction, "no Nunchuk", "Classic" and the masked held word.
- The emulation-core calls (`FDS_DiskEject`, `FDS_DiskSelect`, `FDS_DiskInsert`, `MDFN_VSUniCoin`) and clearing `GameThreadRun` are not made. In the NES model they become returned events; in the Lynx model clearing `GameThreadRun` becomes the returned boolean `exit`. Their effects are outside this model.
- The NES controller count is fixed at four samples. The Lynx front-end reads slot 0 only.
- `heldRight`, `expRX`, `expRY`, `gcRX` and `gcRY` are computed but never used in these functions, so they are not modelled.
- Rotation codes other than 0, 90 and 270 are not modelled. The code leaves the direction values unset for them.
- The numeric values of the host and console constants (`WII_BUTTON_HOME`, `GC_BUTTON_*`, `NES_*`, `LYNX_*`, `BTN_RAPID`, `NES_SPECIAL`) are parameters. The lemmas that need it assume the direction constants are distinct single bits below 16.
- Bit positions of the 32-bit words are not bounded above. Only the truncation to 16 bits is modelled, because only it changes a result.
- The constructors' screen sizes, the accessors other than `getRotation`, `updateDebugText`, `isRotationSupported` and the database managers are not modelled. The Game Genie option is not part of this model.
