# ESP32 serial / Bluetooth bridge: a Dafny model

The firmware bridges a UART (`Serial1`) to two user-facing channels: the USB serial port (`Serial`) and Bluetooth SPP (`SerialBT`). This project models three parts of it and proves properties about them. The files use no `include`: give all `.dfy` files to one `dafny verify` command.

- **The ownership state machine** (`bridge.dfy`, module `Bridge`). The first channel to send a byte that is not part of the magic word `menu` claims `Serial1`. Its traffic is then forwarded to `Serial1` and to the other channel. While it owns `Serial1`, the other channel's traffic goes to the owner only, and the other channel gets an error line. The owner is dropped back to `Idle` after 2000 ms without input. Typing `menu` while `Idle` enters the configuration CLI instead. This module also models:
  - the command handlers, which read and change the persistent `struct Config`;
  - the part of `setup` that loads the configuration and wires the CLI.
- **The `MenuCLI` line editor and dispatcher** (`menu_cli.dfy`, module `MenuCliLib`). This covers:
  - the per-character editor over the line buffer;
  - `processLine` (trim, split at the first space, lower-case the command word, built-in `help`, table lookup);
  - the command table, a `std::map` kept sorted by key;
  - `printHelp`;
  - the `MultiOutputStream` that copies output to every attached transport.
- **`ConfigManager<T>`** (`config_store.dfy`, module `ConfigStore`). It stores a record of `sizeof(T)` bytes, followed by their 4-byte CRC-32, in the byte-addressable EEPROM. `begin` loads the record when the CRC checks out; otherwise it saves the in-memory defaults. `save` writes the record and commits.

There are four support modules:
- `little_endian.dfy`: `uint8_t`/`uint32_t` and the `memcpy` byte image of a `uint32_t`;
- `arduino_text.dfy`: `trim`, `indexOf`, `toLowerCase`, `toInt`, `isPrintable`, decimal printing, and the `strcmp` order of map keys;
- `streams.dfy`: the three transports and a per-port record of what one step writes;
- `wrappers.dfy`: `Option`.

## How the model is built

- **Entry points.** `onSerialData`, `onSerialBTData` and `checkOwnerTimeout` are each one atomic step of the `Bridge.Bridge` class. `onSerial1Data` reads no bridge state; it is the module-level method `Bridge.OnSerial1Data`.
  - `millis()` is the parameter `now`.
  - A step returns `Writes`: the text written to `Serial`, `Serial1` and `SerialBT`, in order.
  - The methods are proved against one specification function. `UserData` gives the new state, the channel's magic-word cursor, the CLI line buffer and the writes of one chunk. The ownership properties are lemmas about `UserData`.
- **CLI output.** The CLI produces a list of events, `Output(port, text)` or `Call(handler, args)`, in the order the source prints and calls.
  - `Feed` is the specification of `MenuCLI::write(buffer, size)`, and `Step` that of `handleInputChar`.
  - `Dispatch` is the specification of `processLine`.
- **The command table.** It is a strictly sorted association list: unique keys, iterated in ascending `strcmp` order.
- **Memory.**
  - The struct `Config` and the EEPROM are byte arrays. `uint32_t` fields are little-endian.
  - `CRC32::calculate` is a function-valued field about which nothing is assumed.
  - `unsigned long` time arithmetic is written out modulo 2^32.
- **`toInt`.** On the ESP32 a `long` has 32 bits, and `String::toInt` is `atol`, which saturates. `ArduinoText.ToInt` clamps the value the digits denote (`AtolValue`) to [-2^31, 2^31 - 1].

## Where the firmware differs from what it evidently intends

- **Multi-word keys are never reached.** `processLine` looks up only the first word of a line (lib/MenuCLI/MenuCLI.cpp:65-76), but every command that `registerMenuCommands` installs has a key of two or three words (src/main.cpp:231-296). No line can therefore select any of them:
  - `MenuCliLib.MultiWordKeysNeverRun` proves this for every table of multi-word keys;
  - `MenuCliLib.UsageLineIsUnknown` shows that the usage line `set baud serial1 9600` is answered with the unknown-command message;
  - `MenuCliLib.FeedNoCalls` shows that the bridge's CLI only ever prints.

  The handlers are still modelled (`Bridge.Bridge.ChangeBaud`, `ChangeBtName`, …), together with what they would do if they were called.
- **`exit` is listed by `help` but is not a command.** `processLine` has no case for it, and nothing calls `_onExit`. `Menu` is therefore never left, and the owner timeout does not apply to it (`Bridge.MenuIsAbsorbing`).
- **The line buffer.** The header declares `char _lineBuffer[128]` with `_lineLen` (lib/MenuCLI/MenuCLI.h:34-36), but the code uses `_lineBuffer` as a growable `String` with no cap. It is modelled as an unbounded `string`.
- **Echo.**
  - With echo on, a printable character is written twice: once by the echo, once when it is appended.
  - The erase sequence is written whether or not echo is on.
  - Both are modelled as written.
- **`setup`.**
  - Everything after `configManager.begin` runs only when a valid record was loaded, so the `!loaded` message is dead code.
  - When the CRC does not check out, the defaults are saved but the CLI gets no outputs, no commands and no exit callback. No `Serial.begin` is called and none of the `Serial.onReceive`, `Serial1.onReceive` and `SerialBT.onData` callbacks is registered, so no entry point except `checkOwnerTimeout` (from `loop`) is ever wired.
  - The `Bridge.Bridge` constructor states both cases, including what the EEPROM then holds and which command every key finds.
  - The model still lets `OnSerialData`, `OnSerialBTData` and `OnSerial1Data` be called on a bridge that is not `started`. This over-approximation adds behaviours and none of the lemmas depends on excluding them.
- **One cursor per channel.** The `static firstLineBuf/firstLineLen` are local to each entry point, so each channel has its own magic-word cursor. Bytes of `menu` matched in an earlier chunk are not forwarded when a later chunk mismatches; only the current chunk is.

## Model

| member | source | states |
|---|---|---|
| LittleEndian.BytesToU32OfU32ToBytes | lib/ConfigManager/ConfigManager.h:25-26 | `memcpy` of a `uint32_t` into four bytes and back gives the same value |
| LittleEndian.U32ToBytesOfBytesToU32 | lib/ConfigManager/ConfigManager.h:43-44 | reading four bytes as a `uint32_t` and writing it back gives the same bytes |
| LittleEndian.U32ToBytesInjective | lib/ConfigManager/ConfigManager.h:43-44 | two values with the same stored image are equal |
| ArduinoText.LowerChar | lib/MenuCLI/MenuCLI.cpp:69 | only ASCII capitals change, each to its lower-case letter; white space is kept |
| ArduinoText.ToLowerKeepsSpaces | lib/MenuCLI/MenuCLI.cpp:69 | lower-casing neither adds nor removes a space |
| ArduinoText.TrimStart | lib/MenuCLI/MenuCLI.cpp:61 | the result is a suffix; everything dropped is white space; the result does not start with white space |
| ArduinoText.TrimEnd | lib/MenuCLI/MenuCLI.cpp:61 | the result is a prefix; everything dropped is white space; the result does not end with white space |
| ArduinoText.Trim | lib/MenuCLI/MenuCLI.cpp:60-63 | the result is the infix of the line between its leading and its trailing white space: only white space lies outside it, it neither starts nor ends with white space, and it is empty exactly when the whole line is white space |
| ArduinoText.TrimOfTrimmed | lib/MenuCLI/MenuCLI.cpp:60-61 | trimming a line with no white space at either end changes nothing |
| ArduinoText.IndexOf | lib/MenuCLI/MenuCLI.cpp:65 | -1 exactly when the character is absent; otherwise the position of its first occurrence |
| ArduinoText.ToInt | src/main.cpp:238 | `toInt` always lies in the range of a 32-bit `long`: the value the text denotes when that fits, otherwise the nearer bound |
| ArduinoText.Decimal | src/main.cpp:234 | a number prints as a non-empty string of digits |
| ArduinoText.LeadingDigits | src/main.cpp:238 | the length of the longest prefix of digits |
| ArduinoText.DigitsValueOfDecimal | src/main.cpp:244-246 | the printed digits of a number have that number as their value |
| ArduinoText.ToIntOfDecimal | src/main.cpp:238 | `toInt` reads back exactly the number that printing wrote when it fits a `long`, and the largest `long` otherwise |
| ArduinoText.ToIntOfNonNumber | src/main.cpp:238-239 | text whose first non-blank character is neither digit nor sign reads as 0, so `set baud` refuses it |
| ArduinoText.ToIntPositive | src/main.cpp:238-239 | a rate `set baud` accepts comes from text that starts, after blanks and an optional `+`, with a digit |
| ArduinoText.LexLessIrreflexive | lib/MenuCLI/MenuCLI.h:43 | the map's key order is irreflexive |
| ArduinoText.LexLessTransitive | lib/MenuCLI/MenuCLI.h:43 | the map's key order is transitive |
| ArduinoText.LexLessTotal | lib/MenuCLI/MenuCLI.h:43 | any two different keys are ordered one way or the other |
| ArduinoText.LexLessAsymmetric | lib/MenuCLI/MenuCLI.h:43 | the map's key order is asymmetric |
| Streams.Emit | src/main.cpp:137-138 | a write appends the text to its port and leaves the other ports as they were |
| Streams.Then | src/main.cpp:121-127 | what each port receives from two writes in sequence is the first write's text followed by the second's |
| Streams.EmitAllContents | lib/MenuCLI/MenuCLI.cpp:159-165 | writing to a list of outputs gives each port the text once per time it is listed |
| ConfigStore.RecordImage | lib/ConfigManager/ConfigManager.h:41-44 | the record is the data bytes followed by the little-endian CRC of the data, `totalLen` bytes in all |
| ConfigStore.Overwrite | lib/ConfigManager/ConfigManager.h:61-63 | the written region holds the image; every other cell is unchanged |
| ConfigStore.LoadRecordAcceptsExactlyImages | lib/ConfigManager/ConfigManager.h:25-30 | `begin` accepts a stored region if and only if it is the record image of its own data bytes |
| ConfigStore.LoadRecordOfImage | lib/ConfigManager/ConfigManager.h:18-48 | the image `save` writes loads back as exactly the saved bytes |
| ConfigStore.LoadAfterOverwrite | lib/ConfigManager/ConfigManager.h:18-48 | the same round trip through the whole device, at any start address that fits |
| ConfigStore.Eeprom.Write | lib/ConfigManager/ConfigManager.h:63 | `EEPROM.write` changes exactly one cell |
| ConfigStore.Eeprom.Commit | lib/ConfigManager/ConfigManager.h:64 | after `EEPROM.commit` the durable contents equal the RAM copy |
| ConfigStore.ConfigManager.Stored | lib/ConfigManager/ConfigManager.h:53-54 | the stored record is `totalLen = sizeof(T) + 4` bytes |
| ConfigStore.ConfigManager.constructor | lib/ConfigManager/ConfigManager.h:14-15 | the start address is kept and no record is registered |
| ConfigStore.ConfigManager.ReadFromEeprom | lib/ConfigManager/ConfigManager.h:56-59 | the buffer receives exactly the cells `[eepromStart, eepromStart + totalLen)` |
| ConfigStore.ConfigManager.WriteToEeprom | lib/ConfigManager/ConfigManager.h:61-65 | exactly the cells `[eepromStart, eepromStart + totalLen)` take the buffer, no other cell changes, and the result is committed |
| ConfigStore.ConfigManager.BuildRecord | lib/ConfigManager/ConfigManager.h:41-44 | the local buffer holds the record image of the struct bytes |
| ConfigStore.ConfigManager.Save | lib/ConfigManager/ConfigManager.h:37-48 | a null argument falls back to the registered record; with neither, the EEPROM is untouched; otherwise the region receives the record image and is committed |
| ConfigStore.ConfigManager.Begin | lib/ConfigManager/ConfigManager.h:18-35 | registers the record; true exactly when the stored CRC matches, and then the struct takes the stored data and the EEPROM is untouched; otherwise the struct keeps its defaults, which are saved |
| ConfigStore.SaveThenBegin | lib/ConfigManager/ConfigManager.h:18-48 | after `save(p)`, `begin(q)` returns true and `*q` equals the saved `*p` byte for byte |
| MenuCliLib.Find | lib/MenuCLI/MenuCLI.cpp:76-77 | a found entry is in the table under that key; nothing is found exactly when no entry has the key |
| MenuCliLib.InsertKeys | lib/MenuCLI/MenuCLI.cpp:23 | assignment into the map introduces no key except the new one |
| MenuCliLib.InsertSorted | lib/MenuCLI/MenuCLI.cpp:23 | assignment into the map keeps its keys unique and in ascending order |
| MenuCliLib.FindInsert | lib/MenuCLI/MenuCLI.cpp:21-24 | after registration the key finds the new entry, replacing any earlier help and handler, and every other key finds what it found before |
| MenuCliLib.LastWithKey | lib/MenuCLI/MenuCLI.cpp:21-24 | the entry a run of registrations leaves under a key: one registered under it, and none exactly when no registration used that key |
| MenuCliLib.InsertAllSorted | lib/MenuCLI/MenuCLI.cpp:21-24 | a run of registrations keeps the keys unique and sorted |
| MenuCliLib.FindInsertAll | lib/MenuCLI/MenuCLI.cpp:21-24 | after a run of registrations a key finds the last entry registered under it, or what it found before when none was |
| MenuCliLib.LastWithDistinctKey | lib/MenuCLI/MenuCLI.cpp:21-24 | when no key is registered twice, each registered key finds its own entry |
| MenuCliLib.CommandWordHasNoSpace | lib/MenuCLI/MenuCLI.cpp:65-69 | the command word never contains a space |
| MenuCliLib.DispatchNothing | lib/MenuCLI/MenuCLI.cpp:60-63 | a line does nothing if and only if it is all white space |
| MenuCliLib.DispatchRun | lib/MenuCLI/MenuCLI.cpp:65-80 | a handler runs only for the lower-cased first word, which is not `help` and has no space, with the rest of the line as arguments, and only if that key is registered with that handler |
| MenuCliLib.MultiWordKeysNeverRun | lib/MenuCLI/MenuCLI.cpp:65-80 | if every key contains a space, no line runs a handler |
| MenuCliLib.SplitAtFirstSpace | lib/MenuCLI/MenuCLI.cpp:65-69 | the command word is the lower-cased text before the first space, and the arguments are everything after it |
| MenuCliLib.DispatchWordAndArgs | lib/MenuCLI/MenuCLI.cpp:60-84 | a line `word args` is dispatched on the lower-cased word with `args` as the arguments |
| MenuCliLib.UsageLineIsUnknown | lib/MenuCLI/MenuCLI.cpp:65-84 | with `set baud serial1` registered, the line `set baud serial1 9600` is an unknown command |
| MenuCliLib.Broadcast | lib/MenuCLI/MenuCLI.cpp:125-129 | one output event per attached output, in attachment order, each with the whole text |
| MenuCliLib.EntryHelpLines | lib/MenuCLI/MenuCLI.cpp:95-98 | one help line per table entry, in table order |
| MenuCliLib.HelpTextsOrder | lib/MenuCLI/MenuCLI.cpp:92-101 | the listing is the heading, then one line per entry in table order with its key and help, then `help` and `exit` |
| MenuCliLib.StepCarriageReturn | lib/MenuCLI/MenuCLI.cpp:32-33 | CR never changes the line buffer and prints only its echo |
| MenuCliLib.StepNewline | lib/MenuCLI/MenuCLI.cpp:34-41 | LF dispatches the buffer as it was, empties it, and ends its output with the action's output followed by the prompt on every output |
| MenuCliLib.StepErase | lib/MenuCLI/MenuCLI.cpp:42-50 | BS or DEL drops exactly the last character of a non-empty buffer and prints the erase sequence; on an empty buffer nothing changes and, without echo, nothing is printed |
| MenuCliLib.StepOther | lib/MenuCLI/MenuCLI.cpp:51-55 | any other printable character is appended; any other non-printable one is dropped |
| MenuCliLib.FeedKeepsPrintable | lib/MenuCLI/MenuCLI.cpp:26-56 | the line buffer only ever holds printable characters |
| MenuCliLib.FeedConcat | lib/MenuCLI/MenuCLI.cpp:142-149 | writing two chunks one after the other is writing their concatenation |
| MenuCliLib.TypeThenErase | lib/MenuCLI/MenuCLI.cpp:42-55 | typing a printable character and then backspace leaves the buffer as it was |
| MenuCliLib.TypedLineExample | lib/MenuCLI/MenuCLI.cpp:26-56 | typing `ab`, backspace, `c` leaves `ac` in the buffer |
| MenuCliLib.InsertMultiWord | lib/MenuCLI/MenuCLI.cpp:21-24 | registering a key with a space keeps every key multi-word |
| MenuCliLib.ActionEventsOutputsOnly | lib/MenuCLI/MenuCLI.cpp:71-84 | `help` and the unknown-command message only print, and only to attached outputs |
| MenuCliLib.StepNoCalls | lib/MenuCLI/MenuCLI.cpp:26-56 | with multi-word keys, one character only ever prints to attached outputs |
| MenuCliLib.FeedNoCalls | lib/MenuCLI/MenuCLI.cpp:142-149 | with multi-word keys, any input only ever prints to attached outputs and runs no handler |
| MenuCliLib.DeliverExtends | lib/MenuCLI/MenuCLI.cpp:125-129 | printing more only appends to what a port received |
| MenuCliLib.DeliverOtherPort | lib/MenuCLI/MenuCLI.cpp:125-129 | a port that is not an output receives nothing from the CLI |
| MenuCliLib.DeliverBroadcast | lib/MenuCLI/MenuCLI.cpp:125-129 | printing a text on every output writes it to each output in attachment order |
| MenuCliLib.MultiOutputStream.constructor | lib/MenuCLI/MenuCLI.h:48 | starts with no outputs |
| MenuCliLib.MultiOutputStream.AddOutput | lib/MenuCLI/MenuCLI.h:55 | appends, keeping attachment order |
| MenuCliLib.MultiOutputStream.ClearOutputs | lib/MenuCLI/MenuCLI.h:56 | leaves no outputs |
| MenuCliLib.MultiOutputStream.WriteChar | lib/MenuCLI/MenuCLI.cpp:152-158 | each output receives the character once per time it is attached; the total is the number of outputs |
| MenuCliLib.MultiOutputStream.Write | lib/MenuCLI/MenuCLI.cpp:159-165 | each output receives the buffer once per time it is attached; the total is buffer length times number of outputs |
| MenuCliLib.MenuCli.constructor | lib/MenuCLI/MenuCLI.h:34-72 | empty buffer, echo enabled, no commands, no outputs, no exit callback |
| MenuCliLib.MenuCli.AttachOutput | lib/MenuCLI/MenuCLI.cpp:11-13 | the output is appended after the earlier ones |
| MenuCliLib.MenuCli.SetEcho | lib/MenuCLI/MenuCLI.h:25-26 | afterwards `isEchoEnabled()` answers the value passed |
| MenuCliLib.MenuCli.SetOnExit | lib/MenuCLI/MenuCLI.h:31 | the exit callback becomes the one passed; it is the only method that changes it |
| MenuCliLib.MenuCli.RegisterCommand | lib/MenuCLI/MenuCLI.cpp:21-24 | the table stays sorted; the key now finds the new entry and every other key what it found before |
| MenuCliLib.MenuCli.BufferOutput | lib/MenuCLI/MenuCLI.cpp:125-129 | the text goes to every attached output in attachment order |
| MenuCliLib.MenuCli.BufferOutputChar | lib/MenuCLI/MenuCLI.cpp:131-135 | the character goes to every attached output in attachment order |
| MenuCliLib.MenuCli.PrintPrompt | lib/MenuCLI/MenuCLI.cpp:87-90 | `> ` goes to every output |
| MenuCliLib.MenuCli.PrintHelp | lib/MenuCLI/MenuCLI.cpp:92-101 | prints the help listing on every output, line by line, in table order, which is ascending key order |
| MenuCliLib.MenuCli.ProcessLine | lib/MenuCLI/MenuCLI.cpp:58-85 | produces exactly the output or handler call that `Dispatch` assigns to the buffer |
| MenuCliLib.MenuCli.RunCommand | lib/MenuCLI/MenuCLI.cpp:71-84 | `help` prints the listing, a registered word calls its handler with the arguments, anything else prints the unknown-command message |
| MenuCliLib.MenuCli.Begin | lib/MenuCLI/MenuCLI.cpp:15-19 | empties the buffer and prints the prompt on every output |
| MenuCliLib.MenuCli.HandleInputChar | lib/MenuCLI/MenuCLI.cpp:26-56 | the new buffer and the output are those of `Step`, whose CR, LF, erase and printable cases are the lemmas above |
| MenuCliLib.MenuCli.WriteByte | lib/MenuCLI/MenuCLI.cpp:137-140 | handles one character and returns 1 |
| MenuCliLib.MenuCli.Write | lib/MenuCLI/MenuCLI.cpp:142-149 | handles the characters in order, as `Feed` does, and returns the size |
| Bridge.Elapsed | src/main.cpp:77 | `millis() - last` in 32-bit unsigned arithmetic: the true difference, or that plus 2^32 after a wrap-around |
| Bridge.NoTimeoutAcrossRollover | src/main.cpp:77 | 512 ms measured across the wrap-around of `millis()` is not a timeout |
| Bridge.AfterTimeout | src/main.cpp:68-81 | the state changes if and only if it is a forwarding state whose last activity is more than 2000 ms old, and then it becomes `Idle`; `Idle` and `Menu` never change |
| Bridge.ScanFrom | src/main.cpp:107-131 | the matching loop ends out of input with a cursor below 4, at a mismatch, or after the word with the number of bytes it consumed |
| Bridge.ScanContinues | src/main.cpp:107-133 | a chunk that continues the word without completing it leaves the cursor advanced by its length |
| Bridge.ScanStopsAtMismatch | src/main.cpp:111-118 | the first byte that differs from the word ends the loop with a mismatch |
| Bridge.ScanCompletes | src/main.cpp:119-130 | the remaining letters of the word complete the match right after them |
| Bridge.EnterWrites | src/main.cpp:121-122 | the calling channel receives the Menu notice and then one prompt per time it is a CLI output; every other port receives only its prompts, so `Serial1` receives nothing when it is not an output |
| Bridge.UserData | src/main.cpp:90-227 | a chunk keeps every channel's cursor below 4 |
| Bridge.IdlePartialMatchWaits | src/main.cpp:104-133 | while `Idle`, a chunk that continues the partial match without completing it writes nothing, stays `Idle`, and advances the cursor by its length |
| Bridge.IdleMismatchClaims | src/main.cpp:111-118 | while `Idle`, the first differing byte makes the caller the owner with its cursor reset; the whole chunk goes to `Serial1` and the other channel, and nothing goes back to the caller |
| Bridge.IdleMatchEntersMenu | src/main.cpp:119-130 | completing the word enters `Menu` with the cursor reset and the line buffer that the CLI gives the bytes after the word; the writes are exactly the Menu notice and prompt followed by the CLI's output for those bytes, the CLI calls no handler, and nothing reaches `Serial1` |
| Bridge.UserDataInMenu | src/main.cpp:141-149 | in `Menu` a chunk is fed to the CLI from the current line buffer; only its output is written, and it calls no handler |
| Bridge.OwnerForwards | src/main.cpp:135-140 | the owner's chunk goes to `Serial1` and the other channel, never back to the owner, and nothing changes |
| Bridge.NonOwnerRejected | src/main.cpp:150-155 | while the other channel owns `Serial1`, the chunk goes to the owner only, the caller gets the error line, and nothing changes |
| Bridge.NoDirectHandover | src/main.cpp:135-155 | in a forwarding state no chunk from either channel changes the state or the cursors |
| Bridge.MenuIsAbsorbing | src/main.cpp:141-149 | in `Menu` every chunk goes to the CLI, nothing reaches `Serial1`, the state stays `Menu`, and the timeout does not apply |
| Bridge.ClaimAfterTimeout | src/main.cpp:68-118 | after the owner times out, the next chunk from either channel that does not continue its cursor makes that channel the owner |
| Bridge.WithU32 | src/main.cpp:243 | assigning a `uint32_t` field changes exactly its four bytes, and the field then reads the value |
| Bridge.NameField | src/main.cpp:44 | a `char[32]` initialised from a shorter literal holds its characters, then NULs |
| Bridge.DefaultConfig | src/main.cpp:42-49 | the defaults: name `LC29HEA-BT`, both rates 460800, pins 7 and 8, 48 bytes in all |
| Bridge.CString | src/main.cpp:267-270 | printing a `char` array prints no more characters than the array holds |
| Bridge.ToCharArray | src/main.cpp:280 | copying a name into `bt_name` keeps the field 32 bytes long |
| Bridge.CStringOfTerminated | src/main.cpp:280-282 | NUL-free text followed by a NUL reads back as that text |
| Bridge.NameRoundTrip | src/main.cpp:272-283 | a name `set bt_name` accepts is exactly what `get bt_name` then prints |
| Bridge.ParseBaud | src/main.cpp:238-243 | a rate is refused if and only if `toInt` gives <= 0; otherwise the stored `uint32_t` is `toInt`'s value, at most 2^31 - 1 |
| Bridge.BaudRoundTrip | src/main.cpp:231-247 | a rate from 1 to 2^31 - 1 written in decimal is accepted as exactly that rate, and `get baud` prints it back unchanged |
| Bridge.BaudSaturates | src/main.cpp:238-243 | a decimal rate above 2^31 - 1 is not refused: the largest `long` is stored instead |
| Bridge.ParseName | src/main.cpp:274-279 | a name is accepted if and only if the trimmed argument has 1 to 31 characters, and then it is the trimmed argument |
| Bridge.RegisterMultiWord | src/main.cpp:229-297 | the entry is inserted into the table as `registerCommand` does; the table stays sorted and every key multi-word |
| Bridge.RegisterMenuCommands | src/main.cpp:229-297 | the table becomes the old one with the eight entries inserted in source order, every key two or three words |
| Bridge.MenuKeysDistinct | src/main.cpp:229-297 | no two of the eight commands share a key |
| Bridge.MenuCommandsFound | src/main.cpp:229-297 | after the eight registrations each of their keys finds its own entry, and every other key finds what it found before |
| Bridge.LoadConfig | src/main.cpp:301 | loaded exactly when the EEPROM holds a valid record, and then the config is that record and the EEPROM is unchanged; otherwise the config is the defaults and the EEPROM holds their record image at address 0, committed |
| Bridge.WireCli | src/main.cpp:314-325 | the CLI's outputs are `Serial` then `SerialBT`, the exit callback is installed, every key is multi-word, and each key finds the last of the eight entries registered under it or, failing that, what it found before |
| Bridge.OnSerial1Data | src/main.cpp:84-88 | `Serial1` traffic goes to `Serial` and `SerialBT` unchanged, and nothing goes back to `Serial1` |
| Bridge.Bridge.constructor | src/main.cpp:299-359 | `Idle`, both cursors 0, echo on; with a valid record the config and EEPROM are that record and the CLI is wired, each key finding the menu entry registered under it and no other key finding anything; otherwise the config is the defaults, the EEPROM holds their committed record, and the CLI has no outputs, commands or exit callback |
| Bridge.Bridge.SetState | src/main.cpp:59-66 | the state becomes the one given |
| Bridge.Bridge.SetCursor | src/main.cpp:99-100 | the channel's cursor is set; the other channel's is unchanged |
| Bridge.Bridge.CheckOwnerTimeout | src/main.cpp:68-81 | the state becomes `AfterTimeout` of the old one |
| Bridge.Bridge.OnIdleData | src/main.cpp:104-134 | the matching loop and its re-dispatch give the `UserData` step |
| Bridge.Bridge.EnterMenu | src/main.cpp:119-130 | the notice and the prompt are written, the state is `Menu` with the cursor reset, and the rest of the chunk is handled as a `Menu` chunk |
| Bridge.Bridge.OnUserData | src/main.cpp:90-157 | `lastActivity` becomes `now`, the state, cursor, line buffer and writes are those of `UserData`, and the other channel's cursor is unchanged |
| Bridge.Bridge.OnSerialData | src/main.cpp:90-157 | `onSerialData` is the `UserData` step of the `Serial` channel |
| Bridge.Bridge.OnSerialBTData | src/main.cpp:159-227 | `onSerialBTData` is the `UserData` step of the `SerialBT` channel |
| Bridge.Bridge.ShowSerial1Baud | src/main.cpp:231-234 | prints the stored `serial1_baud` in decimal |
| Bridge.Bridge.ShowSerialBaud | src/main.cpp:249-252 | prints the rate the USB port reports, in decimal |
| Bridge.Bridge.ShowBtName | src/main.cpp:267-270 | prints the stored name up to its NUL |
| Bridge.Bridge.StoreU32 | src/main.cpp:243 | only the four bytes of the field change |
| Bridge.Bridge.SaveConfig | src/main.cpp:247 | the EEPROM region at 0 receives the record image of the whole config, committed |
| Bridge.Bridge.ChangeBaud | src/main.cpp:236-247 | a rate <= 0 prints the usage and changes neither config nor EEPROM; otherwise only the rate field changes, the config is saved, and the rate is printed |
| Bridge.Bridge.ChangeSerial1Baud | src/main.cpp:236-247 | `set baud serial1`: refused without change, or `serial1_baud` stored and saved |
| Bridge.Bridge.ChangeSerialBaud | src/main.cpp:254-265 | `set baud serial`: refused without change, or `serial_baud` stored and saved |
| Bridge.Bridge.StoreName | src/main.cpp:280 | only the 32 name bytes change |
| Bridge.Bridge.ChangeBtName | src/main.cpp:272-286 | an empty or too long trimmed name is refused without change; otherwise only `bt_name` changes, the config is saved, and a plain name is printed back exactly |
| Bridge.Bridge.EnableEcho | src/main.cpp:288-291 | echo is on afterwards, and the confirmation is printed |
| Bridge.Bridge.DisableEcho | src/main.cpp:293-296 | echo is off afterwards, and the confirmation is printed |
| Bridge.Bridge.RunHandler | src/main.cpp:229-297 | each handler key runs its handler method, keeping the bridge invariant |

## Left out

- FreeRTOS mutexes: each entry point is one atomic step, so interleavings between channels are not modelled.
- `millis()`: it is read once per step, as the parameter `now`.
- The `while (Serial.available())` / `while (SerialBT.available())` drain in `Menu` (src/main.cpp:144-147, 214-217): it is I/O polling. Bytes read there would be one more chunk for the CLI.
- These hardware effects have no state in the model:
  - `Serial1.updateBaudRate`, `Serial.updateBaudRate`;
  - `delay`, `ESP.restart`;
  - `Serial.begin`, `Serial1.begin`, `setTimeout`, `pinMode`, `digitalWrite`;
  - the final `printf` of `setup`.
- `Serial.baudRate()`: it is a hardware query, so it is the parameter of `Bridge.Bridge.ShowSerialBaud`.
- The rest of `setup` and `loop`: the `onReceive` lambdas and `readBytes`, `SerialBT.begin`, the BLE battery task, and the creation of the mutex. These are radio, RTOS and callback wiring.
- The BLE battery component (`src/BLEBatteryTask.cpp`, `lib/BLEBattey/`): it is floating point, radio and an RTOS loop. It is not part of this model.
- The body of `CRC32::calculate` is not part of the source shown. The CRC is kept uninterpreted, so no error-detection property is claimed.
- `EEPROM.begin(totalLen)` (lib/ConfigManager/ConfigManager.h:22, 46): on the device it sizes the emulated EEPROM to exactly `totalLen` bytes, so a record at a start address above 0 would lose its tail. The model's EEPROM is as large as the image it starts from, and it does nothing here. `ConfigStore.LoadAfterOverwrite` therefore holds at any start address that fits, which the device guarantees only at address 0, the one the firmware uses.
- Short writes: every transport is taken to accept every byte, so `MultiOutputStream::write` totals assume full writes.
- The `Stream` stubs `available`, `read`, `peek` and `flush` of `MenuCLI` and `MultiOutputStream` are constants with no effect. `outputStream()` is the output list itself.
- Handler calls: the CLI returns a `Call(handler, args)` event instead of running the handler, because the handler is the caller's code. The bridge's table can never produce such an event (`MenuCliLib.FeedNoCalls`), and the handlers are modelled as `Bridge.Bridge` methods.
- `firstLineBuf`: only its fill level (the cursor) is kept. Its bytes are never read back.
- ArduinoText.ToLower, ArduinoText.Decimal, Bridge.CString, Bridge.ToCharArray: their own contracts state lengths or digit-ness only. Their meaning is stated by the round-trip lemmas that use them (`ToIntOfDecimal`, `NameRoundTrip`, `CStringOfTerminated`).
- Bridge.CString: it stops after the 32 bytes of the field, while `out.println(config.bt_name)` uses `strlen`, which would read past the field if its bytes held no NUL. The firmware only ever stores a NUL-terminated name (the default, or at most 31 copied characters), so the two agree on every record it writes.
- Bridge.UserData: its own contract states only the cursor bound. Its behaviour is stated by the lemmas `IdlePartialMatchWaits` through `ClaimAfterTimeout`.
- Bridge.Bridge.RunHandler: it states only that the invariant is kept. What each handler does is stated by the handler method it calls.
- Bridge.Bridge.ChangeSerial1Baud and Bridge.Bridge.ChangeSerialBaud: they do not repeat the printed text and durable-flash parts of the `ChangeBaud` contract they rely on.
