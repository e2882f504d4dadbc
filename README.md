# LE-Programmer core, modelled in Dafny

LE-Programmer sets up and calibrates an LE position sensor. The sensor is an
ATtiny1616 running the `LE_Final` firmware, and an Arduino Uno acts as its
reader board. Host-side Python tools choose the UPDI programmer and the
target board, collect `address,cosine,sine` or `cosine,sine` samples from
the reader over serial, and average them. They patch the calibration
constants `address`, `sine_off` and `cosine_off` into the firmware sketch.
Before compiling the sketch they insert function prototypes into it. On the
board, the firmware takes the median of ten ADC readings per channel. It
turns the angle into a position on a 0..1000 scale and accumulates an
absolute distance across wrap-arounds. It reports that distance over I2C
as two bytes and drives two RGB LEDs on command.

The model has one module per part of the system:

- `Text` (text.dfy) holds the Python string semantics the tools rely on.
  This covers `str.isspace()`/`\s`, `strip()`, `int()` on base-10 text,
  `split`/`join` on one character, `find` and `str(n)`.
- `Ports` (ports.dfy) holds detected ports and the numbered-menu choice
  rule.
- `Sampling` (sampling.dfy) is the serial acquisition loop. The
  calibration, reading and LE-test workflows all share it; they differ only
  in the record rule, the quota and the timeout. The port is a sequence of
  events: `NoData`, `Line`, `Fault` or `Interrupt`. Time counts 100 ms
  ticks.
- `Stats` (stats.dfy) holds sum, mean, min, max and Python's `int()` of a
  float, over exact reals.
- `AddressChanger` (address_changer.dfy) covers `read_current_settings`,
  `update_settings` and the prompt loops of `change_address_workflow`. The
  sketch file is a `SketchFile` object holding the lines `readlines()`
  gives.
- `ArduinoOperations` (arduino_operations.dfy) covers the target menu of
  `setup_arduinos`, `program_arduino` (calibration) and `read_arduino`.
- `ArduinoAdvanced` (arduino_advanced.dfy) covers `run_le_test` and the
  hex-file menu of `upload_attiny_code`.
- `ArduinoCompiler` (arduino_compiler.dfy) covers the sketch name, the
  prototype extraction and the splice inside `compile_attiny1616`.
- `LeFinal` (le_final.dfy) is the firmware. Its globals are the fields of a
  `Board` object, and `sortArray` sorts an `array` in place. Pin levels are
  a map from pin number to level.

Things the model takes as inputs:

- Float parsing is a parameter `parseFloat`.
- Uploads and compiles are booleans.
- ADC readings are sequences of integers.
- The firmware's `atan2` scaling is a function parameter `angle` with
  results in 0..1000.

## Model

| member | source | states |
|---|---|---|
| Text.Strip | address_changer.py:201 | `strip()` leaves no whitespace at either end and gives the empty string exactly when the text is all whitespace |
| Text.StripMeaning | address_changer.py:201 | `strip()` gives a slice of the text with only whitespace before and after it; with Strip's own contract, this is the text minus exactly its end whitespace |
| Text.Split | arduino_operations.py:313 | `split(',')` gives one more field than there are commas, and no field holds a comma |
| Text.SplitJoin | arduino_operations.py:313 | joining the fields of a split with the separator gives the line back |
| Text.Find | arduino_compiler.py:126 | `find` returns the first occurrence at or after the start, and None (the -1 case) only when there is none |
| Text.NatToStringRoundTrip | address_changer.py:39-41 | the digits `str(n)` writes denote `n` again |
| Text.ParseIntOfIntToString | address_changer.py:66 | `int()` of the text an integer is formatted to gives the integer back, sign included |
| Ports.SelectChoice | arduino_operations.py:116-123 | a choice is made exactly when the text is an integer in 1..len, and it is item `choice-1` |
| Sampling.Acquire | arduino_operations.py:305-330 | the loop's records are exactly the lines the rule accepted, in order, never more than the quota, and the tick counter is the idle time since the last acceptance; it stops normally only at the quota or the timeout, and otherwise at the first fault or Ctrl-C; the number of passes is a run (`Ran`) and the way it ended is `EndOf` that run |
| Sampling.RanUnique | arduino_operations.py:305-330 | the event stream decides where the loop stops: two runs over the same events with the same quota, timeout and rule make the same number of passes |
| Sampling.AcceptedFromLines | arduino_operations.py:311-322 | every stored record is what the rule made of some line that arrived |
| Sampling.AcceptedGrows | arduino_operations.py:318-322 | records are only appended, at most one per pass |
| Sampling.RejectedLineChangesNothing | arduino_operations.py:311-327 | a line the rule rejects changes neither the records nor the timeout counter |
| Sampling.TicksSinceAccept | arduino_operations.py:324-330 | after an accepted line the timeout counter counts only the idle passes since then |
| Sampling.TicksSinceLastAccept | arduino_operations.py:324-330 | measured from the last accepted line, the timeout counter is exactly the number of idle passes since |
| Sampling.SilentPortTimesOut | arduino_operations.py:305-330 | once the loop stops on a port that never sends an acceptable line, it has accepted nothing and exactly the timeout's idle ticks have passed |
| Sampling.RejectedLinesKeepRunning | arduino_operations.py:305-330 | the timeout counts idle passes only: while every pass reads a line the rule rejects, nothing is accepted, the counter stays 0 and the loop goes on |
| Stats.Min | arduino_operations.py:526-528 | `min()` is a member of the list and no greater than any member |
| Stats.Max | arduino_operations.py:527-529 | `max()` is a member of the list and no smaller than any member |
| Stats.MeanBounds | arduino_operations.py:522-523 | the average of values within a range lies within that range |
| Stats.MeanInRange | arduino_operations.py:522-529 | the printed average lies between the printed minimum and maximum |
| Stats.Trunc | arduino_operations.py:341-342 | `int()` of a float truncates toward zero: within one of the value and not past it |
| AddressChanger.FindDeclLeftmost | address_changer.py:65-71 | the write-side search reports the leftmost match of `int\s+NAME\s*=` in a line, and None only if there is none |
| AddressChanger.ValueImpliesDeclares | address_changer.py:34-36 | a line in which the read pattern finds a value also matches the write pattern of the same variable |
| AddressChanger.ReadVarFirst | address_changer.py:34-36 | when a variable is declared several times, the value of the first declaration in file order is read |
| AddressChanger.ReadVarNone | address_changer.py:34-41 | nothing is read for a variable exactly when no line has a value for it |
| AddressChanger.ReadSettingsFromLines | address_changer.py:33-41 | each value is the first one found, or 8, 0, 0 for address, sine and cosine when none is found; all are non-negative |
| AddressChanger.ReadCurrentSettings | address_changer.py:27-50 | a file that cannot be read gives exactly the defaults 8, 0, 0; otherwise the values read from its lines |
| AddressChanger.Branch | address_changer.py:65-73 | the if/elif chain tests address, then sine_off, then cosine_off, and a line takes the first branch whose pattern it matches |
| AddressChanger.RewriteAll | address_changer.py:63-75 | as many lines come out as went in; a line matching no pattern is copied unchanged in place, and any other line becomes the canonical `int NAME=VALUE;\n` of its first matching variable |
| AddressChanger.RewriteLines | address_changer.py:60-75 | the loop produces the rewritten lines and sets `changes_made` for exactly the variables some line was rewritten for |
| AddressChanger.UpdateSettings | address_changer.py:52-105 | an unreadable file, or one that cannot be opened for writing (`writable` false), gives False and is left as it was; otherwise the file holds the rewritten lines, the report names the updated variables, the re-read is the settings of the new file, the mismatch warning fires exactly when they differ from the request, the missing-variable warning names exactly the variables no line declares, and the result is True even when a variable is missing |
| AddressChanger.MissingUndeclared | address_changer.py:63-85 | a variable is named in the missing-variable warning exactly when no line takes its branch; every other variable is written on some line in canonical form |
| AddressChanger.CanonicalDeclares | address_changer.py:65-73 | a canonical line matches the write pattern of its own variable and of no other one |
| AddressChanger.CanonicalBranch | address_changer.py:65-73 | a canonical line takes its own variable's branch again |
| AddressChanger.CanonicalReadOwn | address_changer.py:34-41 | reading a canonical line with a non-negative value gives that value back |
| AddressChanger.CanonicalReadOther | address_changer.py:34-36 | a canonical line gives no value to another variable's read pattern |
| AddressChanger.RewriteIdempotent | address_changer.py:65-73 | applying the same triple twice gives the same lines as applying it once |
| AddressChanger.ReadBack | address_changer.py:87-100 | when all three variables were rewritten with non-negative values, the verifying re-read returns exactly the requested triple, so no mismatch is reported |
| AddressChanger.ReadBackVar | address_changer.py:88 | for one rewritten variable with a non-negative value, the re-read finds exactly that value |
| AddressChanger.Entry | address_changer.py:201-213 | an answer is accepted only as the current value or as a value within the range |
| AddressChanger.EntryMeaning | address_changer.py:200-213 | a blank answer keeps the current value; any other accepted answer is the integer typed, within the range |
| AddressChanger.EntryAccepts | address_changer.py:200-213 | the other direction: a non-blank answer that is an integer in the range is accepted as that integer |
| AddressChanger.FirstAnswerMeaning | address_changer.py:200-245 | `FirstAnswer` is the first answer a prompt accepts, every earlier one being rejected, and there is none exactly when every remaining answer is rejected |
| AddressChanger.PromptValue | address_changer.py:200-245 | the `while True` loop returns `FirstAnswer`: the first accepted answer, after rejecting every answer before it, or runs out of input having rejected all of them |
| AddressChanger.BlankAnswersKeep | address_changer.py:200-245 | three blank answers keep the current address, sine and cosine, and the fourth answer is the confirmation |
| AddressChanger.AskSettings | address_changer.py:196-256 | the three prompts take their first accepted answers in turn (`Prompts`), and a triple is chosen exactly when the next answer is yes; each value is the current one or in its range |
| AddressChanger.ChangeAddressWorkflow | address_changer.py:186-281 | the chosen triple is the three prompts' first accepted answers, chosen exactly when the answer after them is yes; the sketch becomes the rewrite with that triple exactly when a triple is chosen and the file is readable and writable, and is unchanged otherwise; the result is True exactly when, in addition, the build question is answered and either declined or the build and upload succeed |
| ArduinoOperations.OtherPortsMembers | arduino_operations.py:101-104 | the target menu holds exactly the detected ports whose identifier is not the programmer's |
| ArduinoOperations.OtherPortsShorter | arduino_operations.py:101-104 | the menu is never longer than the port list, and is as long only when the programmer is not among the ports |
| ArduinoOperations.TargetOptions | arduino_operations.py:101-104 | the append loop builds exactly the filtered list, in detection order |
| ArduinoOperations.SelectTarget | arduino_operations.py:116-123 | the chosen target is a detected port and never the UPDI programmer |
| ArduinoOperations.SelectTargetEmptyMenu | arduino_operations.py:106-110 | when every detected port is the programmer, nothing can be chosen |
| ArduinoOperations.ParseTriple | arduino_operations.py:311-316 | a line is accepted only when it holds exactly two commas |
| ArduinoOperations.ParseTripleFields | arduino_operations.py:311-316 | an accepted line is its three fields joined by commas, and the record holds the int and the two floats they denote |
| ArduinoOperations.ParseTripleAccepts | arduino_operations.py:311-316 | the other direction: a line that strips to three comma-free fields parsing as int, float and float is accepted with those values |
| ArduinoOperations.CheckAddress | arduino_operations.py:238-247 | the address is accepted exactly when it parses as an integer in 0..255 |
| ArduinoOperations.ProgramArduino | arduino_operations.py:238-378 | a bad address exactly when the typed text is not an integer in 0..255, a failed upload exactly when the address is good and an upload failed; otherwise the loop makes the run the events decide, it is aborted exactly when a fault or Ctrl-C ended that run, and calibrated exactly when the run stopped with ten samples, and the sketch is then rewritten with the address and the truncated averages; a shortfall reports the count and a timeout; every other outcome leaves the sketch alone |
| ArduinoOperations.Summarise | arduino_operations.py:521-544 | the summary counts the samples, each average lies in its min..max range, every sample lies in that range, and the integer values are the truncated averages |
| ArduinoOperations.ReadArduino | arduino_operations.py:429-529 | no summary and no pass without a configured, connected target; with one, the loop makes the run the events decide, and a summary comes exactly when that run accepted at least one sample and did not end in a fault (Ctrl-C keeps the samples), summarising those 1..20 samples |
| ArduinoAdvanced.ParsePairFields | arduino_advanced.py:345-349 | an accepted line holds exactly one comma and is its two float fields joined by it |
| ArduinoAdvanced.ParsePairAccepts | arduino_advanced.py:345-349 | the other direction: a line that strips to two comma-free fields parsing as floats is accepted with those values |
| ArduinoAdvanced.ParsePairRejects | arduino_advanced.py:345-359 | any line without exactly one comma is dropped, since two or more break the unpacking |
| ArduinoAdvanced.FindConfiguredPorts | arduino_advanced.py:262-269 | the scan finds each configured board exactly when it is among the detected ports |
| ArduinoAdvanced.RunLeTest | arduino_advanced.py:260-372 | the test stops exactly when a configured board is missing, reporting which are found; a failed upload exactly when both are there and an upload failed; otherwise the loop makes the run the events decide, it is aborted exactly when a fault or Ctrl-C ended that run, and measured exactly when the run stopped with ten samples, with their averages; a timeout reports fewer than ten samples |
| ArduinoAdvanced.HexFilesMembers | arduino_advanced.py:173 | the menu lists exactly the directory names ending in `.hex` |
| ArduinoAdvanced.HexFilesOrder | arduino_advanced.py:173 | the menu keeps the directory order |
| ArduinoAdvanced.SelectHex | arduino_advanced.py:184-191 | a file is chosen exactly when the text is an integer in 1..len, and it is a listed `.hex` name |
| ArduinoCompiler.Basename | arduino_compiler.py:62 | the base name is a separator-free suffix of the path that starts the path or follows a separator |
| ArduinoCompiler.SketchName | arduino_compiler.py:62-64 | the sketch name is the base name without its `.ino` when it ends in `.ino`, and the base name otherwise |
| ArduinoCompiler.SketchNameOfIno | arduino_compiler.py:62-64 | a sketch `NAME.ino` in any directory is built under the name NAME |
| ArduinoCompiler.BasenameOfJoin | arduino_compiler.py:62 | the base name of a directory joined with a separator-free file name is that file name |
| ArduinoCompiler.MatchWith | arduino_compiler.py:108 | after a keyword, the pattern needs whitespace, a word name and a parameter list ending in `{`, and yields a well-formed match |
| ArduinoCompiler.TryKeywords | arduino_compiler.py:108 | the alternation takes the first keyword, in order, for which the rest of the pattern matches |
| ArduinoCompiler.FnMatchAt | arduino_compiler.py:108 | a match at a position starts at a word boundary with one of the thirteen return types and is well formed |
| ArduinoCompiler.NextMatchIsMatch | arduino_compiler.py:111 | the search reports a match of the pattern at its start |
| ArduinoCompiler.Matches | arduino_compiler.py:111 | `finditer` yields well-formed, non-overlapping matches in increasing order |
| ArduinoCompiler.MatchesAreMatches | arduino_compiler.py:111 | every reported match is a match of the pattern at its start |
| ArduinoCompiler.NextMatchLeftmost | arduino_compiler.py:111 | no match is skipped before or between reported matches |
| ArduinoCompiler.CollectPrototypes | arduino_compiler.py:116-130 | the loop collects the declarations of the non-special matches, in match order |
| ArduinoCompiler.PrototypeShape | arduino_compiler.py:124-130 | the `{` search succeeds, and the prototype begins with the definition's keyword, whitespace and name as written, and ends with `;` |
| ArduinoCompiler.PrototypesCount | arduino_compiler.py:114-130 | exactly one declaration is made per match whose name is neither setup nor loop |
| ArduinoCompiler.NoSpecialPrototype | arduino_compiler.py:114-122 | every declaration comes from a match that is not setup or loop |
| ArduinoCompiler.PrototypesOrder | arduino_compiler.py:111-130 | of two declarations, the earlier comes from the earlier match |
| ArduinoCompiler.FirstInclude | arduino_compiler.py:136-137 | the include search reports a position where `#include\s+[<"].*[>"]` matches within one line |
| ArduinoCompiler.FirstIncludeLeftmost | arduino_compiler.py:136-137 | no include matches before the reported one, and none anywhere when none is reported |
| ArduinoCompiler.SpliceKeepsSketch | arduino_compiler.py:139-144 | the new content is the sketch with the prototype block inserted at the first `#include`, after a line break, or at the top when there is none: everything before and after the insertion point is the sketch unchanged |
| ArduinoCompiler.CppText | arduino_compiler.py:155-157 | the C++ file is `#include <Arduino.h>\n\n` followed by the new content |
| ArduinoCompiler.CombinedSketch | arduino_compiler.py:106-157 | the build step's texts are the prototypes of the sketch's matches, the splice, and the C++ file around it |
| LeFinal.Wrap16 | LE_Final/build/preproc/ctags_target_for_gcc_minus_e.cpp:17 | an AVR `int` holds the value modulo 2^16 within -32768..32767, and an in-range value is unchanged |
| LeFinal.Swap | LE_Final/build/preproc/ctags_target_for_gcc_minus_e.cpp:213-217 | the `temp` swap exchanges two entries and keeps the multiset |
| LeFinal.BubblePass | LE_Final/build/preproc/ctags_target_for_gcc_minus_e.cpp:212-218 | one inner pass moves the largest unsettled entry to the end of the prefix, permutes the prefix, and leaves the rest alone |
| LeFinal.SortArray | LE_Final/build/preproc/ctags_target_for_gcc_minus_e.cpp:210-220 | sortArray leaves the first `size` entries sorted ascending, a permutation of what they were, and the rest unchanged |
| LeFinal.MedianSplitsSorted | LE_Final/build/preproc/ctags_target_for_gcc_minus_e.cpp:222-227 | over sorted entries, calculateMedian (the middle entry, or the C-truncated mean of the two middle ones) is at least the lower half and at most the upper half |
| LeFinal.MeanBetween | LE_Final/build/preproc/ctags_target_for_gcc_minus_e.cpp:226 | the truncated mean of two ordered values lies between them |
| LeFinal.StepDeltaIsShortestMove | LE_Final/build/preproc/ctags_target_for_gcc_minus_e.cpp:90-114 | with the scale starting at 0, the (corrected) step is the raw difference when that is within 500, and otherwise the shortest signed move around the 1000-position circle |
| LeFinal.StepDeltaAgree | LE_Final/build/preproc/ctags_target_for_gcc_minus_e.cpp:90-114 | the code as written and the corrected step agree except when the position wraps downwards |
| LeFinal.StepDeltaAsWrittenDownWrap | LE_Final/build/preproc/ctags_target_for_gcc_minus_e.cpp:106-109 | as written, moving down from 10 to 990 across the wrap changes the distance by 0, not by -20 |
| LeFinal.HighByte | LE_Final/build/preproc/ctags_target_for_gcc_minus_e.cpp:187 | `(v >> 8) & 0xFF` is a byte; which byte it is, is stated by `ReplyRoundTrip` |
| LeFinal.LowByte | LE_Final/build/preproc/ctags_target_for_gcc_minus_e.cpp:188 | `v & 0xFF` is a byte; which byte it is, is stated by `ReplyRoundTrip` |
| LeFinal.ToChar | LE_Final/build/preproc/ctags_target_for_gcc_minus_e.cpp:16 | a byte stored in the signed `char temp[]` lies in -128..127; that nothing is lost is stated by `CharRoundTrip` |
| LeFinal.ToByte | LE_Final/build/preproc/ctags_target_for_gcc_minus_e.cpp:192 | a `char` passed to `Wire.write` is a byte; that it is the byte stored is stated by `CharRoundTrip` |
| LeFinal.ReplyRoundTrip | LE_Final/build/preproc/ctags_target_for_gcc_minus_e.cpp:185-194 | the two reply bytes, high first, decode as signed 16-bit to exactly the absolute distance |
| LeFinal.CharRoundTrip | LE_Final/build/preproc/ctags_target_for_gcc_minus_e.cpp:187-192 | passing a byte through `temp` loses nothing |
| LeFinal.LitPins | LE_Final/build/preproc/ctags_target_for_gcc_minus_e.cpp:165-183 | a colour command lights only LED pins |
| LeFinal.Lights | LE_Final/build/preproc/ctags_target_for_gcc_minus_e.cpp:161-184 | after a colour, `D`, `G` and `B` hold {10,5}, {11,6} and {12,7} low and every other LED pin high; any other byte leaves all six high; other pins are untouched |
| LeFinal.LastColor | LE_Final/build/preproc/ctags_target_for_gcc_minus_e.cpp:196-208 | the colour that counts is the last byte of the message that is not `R`, and there is none only when every byte is `R` |
| LeFinal.LightsTwice | LE_Final/build/preproc/ctags_target_for_gcc_minus_e.cpp:196-208 | a colour command overrides any earlier one, so a message's commands compose to the last |
| LeFinal.Board.constructor | LE_Final/build/preproc/ctags_target_for_gcc_minus_e.cpp:6-25 | the globals start as declared: lower bound 0, absolute and previous distance 0, current distance 1; the pin levels before setup are the given power-up levels |
| LeFinal.Board.SetRGBOff | LE_Final/build/preproc/ctags_target_for_gcc_minus_e.cpp:141-149 | set_RGB_off drives all six LED pins high |
| LeFinal.Board.SetRGB | LE_Final/build/preproc/ctags_target_for_gcc_minus_e.cpp:161-184 | set_RGB leaves the pins as the colour's pattern, the `O` fall-through included |
| LeFinal.Board.ReceiveEvent | LE_Final/build/preproc/ctags_target_for_gcc_minus_e.cpp:196-208 | any `R` in the message clears the absolute distance, otherwise it is unchanged; the pins show the last non-`R` byte's colour, or are unchanged |
| LeFinal.Board.TransmitDataWire | LE_Final/build/preproc/ctags_target_for_gcc_minus_e.cpp:185-194 | the bytes sent are the high and then the low byte of the absolute distance, staged in `temp[0..2]` with the rest of `temp` untouched |
| LeFinal.Board.Setup | LE_Final/build/preproc/ctags_target_for_gcc_minus_e.cpp:32-62 | setup sets the pin levels, the offset-corrected readings, and the starting position as both current and previous distance, with absolute distance 0 |
| LeFinal.Board.TakeSamples | LE_Final/build/preproc/ctags_target_for_gcc_minus_e.cpp:67-71 | the sample arrays hold the ten readings less 512 and the channel offset |
| LeFinal.Board.SortSamples | LE_Final/build/preproc/ctags_target_for_gcc_minus_e.cpp:74-75 | both sample arrays end sorted and permuted |
| LeFinal.Board.SampleMedians | LE_Final/build/preproc/ctags_target_for_gcc_minus_e.cpp:67-79 | the sorted arrays are permutations of the corrected readings, and cosine and sine are their medians |
| LeFinal.Board.Track | LE_Final/build/preproc/ctags_target_for_gcc_minus_e.cpp:82-116 | the lower bound only falls, to the new position when that is lower; the absolute distance grows by the (corrected) step, wrapped to 16 bits; the previous distance becomes the current one |
| LeFinal.Board.Loop | LE_Final/build/preproc/ctags_target_for_gcc_minus_e.cpp:64-119 | one pass takes the medians, maps them to a position, adds the step for it to the absolute distance, and carries the position over; the lower bound stays 0 on the 0..1000 scale |

## Left out

- Serial I/O, `time.sleep`, opening and closing ports, and port discovery are left out. The port is an event sequence, and the detected ports are a list given to each workflow.
- Sampling.Acquire: the port is a finite sequence of events followed by silence, so every run stops. A port that goes on sending lines the record rule rejects is not represented. The source's timeout counts only idle passes (`in_waiting == 0`), so on such a port it never times out and the loop runs until Ctrl-C; `RejectedLinesKeepRunning` states this for any finite stretch of such lines.
- Sampling.Acquire: counts exact 100 ms ticks. The source adds `0.1` to a float, and the rounding of that sum can move the timeout by a tick.
- Float parsing is the parameter `parseFloat`, floats are exact reals, and `(c**2 + s**2)**0.5` magnitudes are left out. Report files, printing and the "Press Enter" pauses are left out too.
- Subprocess work is not part of this model: compiling, uploading and fuse settings. A whole compile-and-upload step is one boolean outcome (`uploaded`, `toolchainOk`). In `program_arduino` the compile-and-upload prompt after `update_settings` is not modelled.
- Configuration loading and saving, the UPDI-programmer menu of `setup_arduinos` (the same choice rule as `SelectChoice`) and the other menus are left out.
- AddressChanger.ReadSettingsFromLines: each pattern is matched within one line. Python's `re.search` runs over the whole file, where `\s` in any of its three places (between `int` and the name, before `=` and after it) can also cross a line break; `int address\n= 9;` reads as 9 in Python and as the default 8 here.
- Text.ParseInt: accepts ASCII digits only. Python's `int()` also accepts other Unicode decimal digits and `_` between digits; likewise the read pattern's `\d` is taken as ASCII.
- ArduinoCompiler.FnMatchAt: the `\b` word boundary before the return type uses ASCII word characters. Python's `\b` on a `str` pattern also counts other Unicode letters and digits, so on `évoid f() {` Python finds no function while the model declares `void f();`.
- AddressChanger.UpdateSettings: `writable` stands for `open(..., 'w')` succeeding. A failure of `writelines` after the file was opened, which leaves it truncated or partly written and returns False, is not modelled.
- AddressChanger.IsYes: `.lower().strip() == 'y'` is modelled as the stripped answer being `y` or `Y`.
- AddressChanger.ChangeAddressWorkflow: end of input stands for the workflow ending. KeyboardInterrupt and other exceptions are not separate paths.
- ArduinoCompiler.Basename: splits on `/` and `\`. A Windows drive prefix without a separator (`C:name`) is not handled.
- ArduinoAdvanced.HexFiles: the order of `os.listdir` is taken as given.
- LeFinal.Board.Loop: uses the corrected wrap step (see Findings). `StepDeltaAsWritten` keeps the code as written, and `StepDeltaAgree` shows they differ only on the downward wrap.
- LeFinal.Board.Track: adds the corrected step `StepDelta`, not line 108 as written. Moving down from 10 to 990 with lower bound 0 lowers the distance by 20 in the model, while the firmware leaves it unchanged (see Findings and `StepDeltaAsWrittenDownWrap`).
- LeFinal.Board.TransmitDataWire: states the bytes sent. What the bus master decodes from them is stated separately by `ReplyRoundTrip`.
- LeFinal.Board.Setup: `atan2(sine,cosine)*180/3.14159*1000/360+500` is the parameter `angle`, with results in 0..1000. `analogRead`, `pinMode`, `Wire.begin`/`onRequest`/`onReceive` and delays are inputs or left out. Interrupt handlers interleaving with `loop()` are not modelled.
- LeFinal.Wrap16: 16-bit wrap-around is modelled only for `absolute_distance`. The other AVR integers stay within range on the 0..1000 scale and for 10-bit ADC readings.
- The unused `set_RGB_on`, the flags `FLAG_MOVING_UP`, `FLAG_MOVING_DOWN` and `SWITCH_DETECTED`, `start_distance`, and the commented-out ten-byte `transmitDataWire` are left out.

## Findings

| source | as written | input that shows it | evidently intended | confidence | as-written member | corrected member |
|---|---|---|---|---|---|---|
| LE_Final/build/preproc/ctags_target_for_gcc_minus_e.cpp:106-109 | on a downward wrap (`difference > 500`) `absolute_distance -= (current_distance - 1000) + (previous_distance - Lower_Bound)` | previous 10, current 990, Lower_Bound 0: the distance changes by 0 | the mirror of the upward branch, `(1000 - current_distance) + (previous_distance - Lower_Bound)`: a change of -20, the shortest move around the scale | high; not executed | LeFinal.StepDeltaAsWrittenDownWrap | LeFinal.StepDeltaIsShortestMove |
