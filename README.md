# xkb keyboard backends, modelled in Dafny

xkb feeds a host application one stream of key events, `(index, isDown)`,
whichever keyboard backend runs underneath. The index is the Linux input
key code of `<linux/input.h>` (`KEY_A` = 30, `KEY_ESC` = 1, …). This project
models the four pieces of sequential logic at the core of the library:

- **the key map** (`KeyMap`, `key_map.dfy`): `XKeySymToIndex`, the switch
  that translates an X11 keysym into a Linux key code, or into nothing;
- **the X11 backend** (`X11Backend`, `x11_backend.dfy`): the event filter
  `KeyOnlyPredicate`, the event loop with its per-key press-time table
  (`lastPress`, an array of 256 `bv64`), the key-repeat filter, the
  release of every key when the focus is lost, and the resync from the
  server's 32-byte key bitmap (`SyncFromServer`);
- **the evdev backend** (`EvdevBackend`, `evdev_backend.dfy`): `Init`,
  which finds the keyboard's event node and opens it, the read loop over
  `read(2)` results, and `Stop` with its descriptor transitions;
- **device discovery** (`InputDetection`, `input_detection.dfy`): the
  scan of the lines of `/proc/bus/input/devices` and the hex parser
  `ParseHexToUint`.

`keyboard_backend.dfy` holds what the backends share: the host callback is
a trace `calls: seq<KeyCall>` that each backend appends to, and "a callback
is registered" is a boolean field.

Foreign calls become inputs:

- The X11 event queue is a sequence of events. Each event is paired with
  what the server answers while the event is handled: the keysym of each
  keycode, and the key bitmap or `None`.
- `read(2)` results are a sequence of `ReadOutcome`s: a whole record, a
  short count, or a failure with its `errno`.
- `open(2)` is a function from path to descriptor.
- The device registry is `None` when it cannot be opened, and otherwise
  its lines.

The stateful parts are classes whose methods update their fields in place:

- `X11KeyboardBackend` and `EvdevKeyboardBackend`;
- the press-time table is an `array`;
- the loops of the source are `while`/`for` loops.

Each method is proved against a specification function of its inputs and
old state (`StepWith`, `Run`, `Skipped`, `ResyncCalls`, `Drain`,
`StopSpec`, `ScanDevices`, `LastToken`). The lemmas state what the source
promises about those functions.

The key-repeat filter computes `ts - prev` on `unsigned long`. It is
modelled on `bv64`, so the subtraction wraps modulo 2^64 as on LP64.

Device discovery returns the **first** device block that qualifies, because
`return last_token` leaves the scan at once
(src/xkbInputDetection.cpp:63-65).

## Model

| member | source | states |
|---|---|---|
| KeyMap.XKeySymToIndex | src/xkbKeyMap.cpp:9-178 | every index the switch returns is at most `KEY_DOWN` (108), so below 256 |
| KeyMap.MappedExactly | src/xkbKeyMap.cpp:13-176 | a keysym is mapped iff it is one of the 89 case labels; every other keysym reaches `default` and gives none |
| KeyMap.ListedExactly | src/xkbKeyMap.cpp:13-176 | mapped iff listed, group by group: both letter cases, top-row digits, controls and modifiers, arrows, F1-F12 |
| KeyMap.LetterCasesAgree | src/xkbKeyMap.cpp:13-91 | for each of the 26 letters, the lower- and upper-case keysyms are both mapped, to the same index |
| KeyMap.IndexDeterminesKeySym | src/xkbKeyMap.cpp:13-173 | reading a mapped keysym's index back through the reference inverse `IndexToKeySym` gives the keysym with its letter case folded |
| KeyMap.KeySymOfIndexMapsBack | src/xkbKeyMap.cpp:13-173 | every keysym the inverse names maps back to the index it was given |
| KeyMap.InjectiveModuloCase | src/xkbKeyMap.cpp:13-173 | two keysyms share an index only when they are equal or are the two cases of one letter |
| KeyMap.IndicesExactly | src/xkbKeyMap.cpp:13-173 | `MappedIndices()` is exactly the set of indices some keysym maps to |
| KeyMap.MappedKeySymCount | src/xkbKeyMap.cpp:13-173 | exactly 89 keysyms are mapped |
| KeyMap.RepresentativeCount | src/xkbKeyMap.cpp:13-173 | 63 representatives: 26 letters, 10 digits, 11 controls and modifiers, 4 arrows, 12 function keys |
| KeyMap.MappedIndexCount | src/xkbKeyMap.cpp:13-173 | the mapped keysyms cover exactly 63 distinct indices |
| KeyMap.InjectiveImageSize | src/xkbKeyMap.cpp:13-173 | a map that is defined and one-to-one on a set of keysyms gives it as many indices as keysyms |
| KeyMap.KeySymRangeSize | src/xkbKeyMap.cpp:13-173 | a contiguous keysym range `lo..hi` has `hi - lo + 1` members |
| EvdevBackend.LetterAForwardedAsKeyA | src/xkbKeyMap.cpp:14-16 | `XK_a` maps to key 30, and an evdev record with code 30 is reported as key 30 |
| EvdevBackend.SameIndexAsKeyMap | src/xkbEvDevKeyboardBackend.cpp:70-78 | the index the key map gives a keysym is forwarded unchanged when it arrives as an evdev code |
| X11Backend.KeyOnlyPredicateTakesHandledTypes | src/xkbX11KeyboardBackend.cpp:12-20 | the predicate accepts exactly KeyPress, KeyRelease, FocusIn, FocusOut, KeymapNotify and MappingNotify, the types the loop's switch handles; an event of any other type would change no press time and make no callback |
| X11Backend.IndexOf | src/xkbX11KeyboardBackend.cpp:160-166 | the keycode's index is below 256 whenever its keysym, other than `NoSymbol`, is mapped |
| X11Backend.AcceptsIff | src/xkbX11KeyboardBackend.cpp:153-158 | a press is new iff no press is recorded, or it comes 1 to 2^31 - 1 after the recorded one, modulo 2^64 |
| X11Backend.FirstPressAccepted | src/xkbX11KeyboardBackend.cpp:153-158 | with no press recorded (0) every press is new |
| X11Backend.SameTimeRejected | src/xkbX11KeyboardBackend.cpp:153-158 | a second press with the same non-zero time is a repeat |
| X11Backend.DistantPressRejected | src/xkbX11KeyboardBackend.cpp:153-158 | a press 2^31 or more after the recorded one, modulo 2^64, is dropped |
| X11Backend.AcceptedPress | src/xkbX11KeyboardBackend.cpp:148-171 | a new press sets slot `keycode` to its time and no other slot, even when unmapped; it reports `(index, true)` once exactly when the keycode is mapped |
| X11Backend.RejectedPress | src/xkbX11KeyboardBackend.cpp:158-169 | a repeated press changes no slot and reports nothing |
| X11Backend.Release | src/xkbX11KeyboardBackend.cpp:173-187 | a release leaves the table alone and reports `(index, false)` exactly when the keycode is mapped, with no repeat filter |
| X11Backend.KeycodeOutOfRangeIgnored | src/xkbX11KeyboardBackend.cpp:151 | a press or release with a keycode of 256 or more changes nothing and reports nothing |
| X11Backend.FocusLoss | src/xkbX11KeyboardBackend.cpp:189-197 | focus loss reports `(i, false)` for i = 0..255 in ascending order, then leaves every slot 0 |
| X11Backend.ReleaseAllIsAscending | src/xkbX11KeyboardBackend.cpp:191-194 | the release loop's `i`-th callback is `(i, false)` |
| X11Backend.MappingChangeQuiet | src/xkbX11KeyboardBackend.cpp:204-206 | MappingNotify reports nothing and keeps the table |
| X11Backend.FocusGainKeepsTimes | src/xkbX11KeyboardBackend.cpp:199-202 | FocusIn and KeymapNotify keep the table and make the resync's callbacks; nothing when the bitmap query fails |
| X11Backend.MaskTestsBit | src/xkbX11KeyboardBackend.cpp:112 | `byte & (1 << bit)` is non-zero iff bit `bit` of the byte is set |
| X11Backend.BitOfBytesIsByteBit | src/xkbX11KeyboardBackend.cpp:112 | bit `k` of the bitmap is bit `k & 7` of byte `k >> 3` |
| X11Backend.BitMaskIsShift | src/xkbX11KeyboardBackend.cpp:112 | the mask table equals `1 << bit` |
| X11Backend.SyncCallsExactly | src/xkbX11KeyboardBackend.cpp:110-122 | a callback is among the resync's iff some keycode maps to its index and is down exactly as the callback says |
| X11Backend.SyncCallsBound | src/xkbX11KeyboardBackend.cpp:110-122 | the resync makes at most one callback per keycode, each index below 256 |
| X11Backend.MappedKeycodesAscending | src/xkbX11KeyboardBackend.cpp:110-122 | the mapped keycodes are listed once each, lowest first |
| X11Backend.SyncCallsInKeycodeOrder | src/xkbX11KeyboardBackend.cpp:110-122 | the `j`-th resync callback reports the `j`-th mapped keycode |
| X11Backend.ResyncInKeycodeOrder | src/xkbX11KeyboardBackend.cpp:104-122 | with a bitmap, the resync reports the mapped keycodes in ascending order, each down iff its bit is set |
| X11Backend.ResyncExactly | src/xkbX11KeyboardBackend.cpp:104-122 | with a bitmap, the resync reports exactly the mapped keycodes as the bitmap has them: at most 256 callbacks, each index below 256 |
| X11Backend.FocusGainResyncs | src/xkbX11KeyboardBackend.cpp:199-202 | regaining the focus with a bitmap reports exactly the mapped keycodes as the bitmap has them |
| X11Backend.StepCallsValid | src/xkbX11KeyboardBackend.cpp:146-210 | every pass of the loop body makes at most 256 callbacks, each index below 256 |
| X11Backend.RunCallsValid | src/xkbX11KeyboardBackend.cpp:138-214 | the whole loop keeps every callback index below 256 |
| X11Backend.RunPassesOverOthers | src/xkbX11KeyboardBackend.cpp:141 | events the predicate refuses change neither the table nor the callbacks |
| X11Backend.Skipped | src/xkbX11KeyboardBackend.cpp:141 | no event left in the queue passes the predicate |
| X11Backend.RisingPressesAccepted | src/xkbX11KeyboardBackend.cpp:153-169 | from an empty table, two presses of one key whose times rise by less than 2^31 are both reported, and the later time is recorded |
| X11Backend.RisingPressesAllAccepted | src/xkbX11KeyboardBackend.cpp:153-169 | after a first new press, any number of presses of one key, each 1 to 2^31 - 1 after the one before modulo 2^64, are all reported as key down, once each and in order, and the slot ends with the last time while no other slot changes |
| X11Backend.X11KeyboardBackend.constructor | include/xkbX11KeyboardBackend.h:26-33 | no connection, masks unselected, no callback, no calls, every press time 0 |
| X11Backend.X11KeyboardBackend.SetCallbacks | include/xkbKeyboardBackend.h:19 | a callback is registered |
| X11Backend.X11KeyboardBackend.SelectMasks | src/xkbX11KeyboardBackend.cpp:82-95 | succeeds iff the backend's connection and the window are there |
| X11Backend.X11KeyboardBackend.Init | src/xkbX11KeyboardBackend.cpp:42-65 | succeeds iff the application display and window are there and the second connection opens; the masks are then selected |
| X11Backend.X11KeyboardBackend.Start | src/xkbX11KeyboardBackend.cpp:67-71 | clears the stop flag, then runs the loop: when ready, the table and calls are those of `Run` from an all-zero table, and the queue keeps the skipped events |
| X11Backend.X11KeyboardBackend.Stop | src/xkbX11KeyboardBackend.cpp:73-80 | raises the stop flag |
| X11Backend.X11KeyboardBackend.ClearPressTimes | src/xkbX11KeyboardBackend.cpp:133 | every press time becomes 0 |
| X11Backend.X11KeyboardBackend.ReleaseEveryKey | src/xkbX11KeyboardBackend.cpp:191-194 | appends the release of indices 0..255, in order |
| X11Backend.X11KeyboardBackend.SyncFromServer | src/xkbX11KeyboardBackend.cpp:97-123 | appends the resync's callbacks when the connection and a callback are there, else nothing |
| X11Backend.X11KeyboardBackend.ReportKeymap | src/xkbX11KeyboardBackend.cpp:104-122 | nothing when the bitmap query fails, else the 256-keycode loop |
| X11Backend.X11KeyboardBackend.ReportKeys | src/xkbX11KeyboardBackend.cpp:110-122 | appends, keycode by keycode in ascending order, each mapped keycode with its bit |
| X11Backend.X11KeyboardBackend.ReportKey | src/xkbX11KeyboardBackend.cpp:112-121 | one keycode: reported with its bit when mapped, else nothing |
| X11Backend.X11KeyboardBackend.KeyIsDown | src/xkbX11KeyboardBackend.cpp:112 | the mask test is bit `k` of the bitmap |
| X11Backend.X11KeyboardBackend.OnKeyPress | src/xkbX11KeyboardBackend.cpp:148-171 | a new press in range records its time in its slot and reports the key down when mapped; otherwise nothing changes |
| X11Backend.X11KeyboardBackend.OnKeyRelease | src/xkbX11KeyboardBackend.cpp:173-187 | reports the key up when in range and mapped |
| X11Backend.X11KeyboardBackend.Step | src/xkbX11KeyboardBackend.cpp:146-210 | the table and calls after one event are those of `StepWith` |
| X11Backend.X11KeyboardBackend.Handle | src/xkbX11KeyboardBackend.cpp:141-210 | a queued event is taken iff it passes the predicate, and the state moves as `Take` says |
| X11Backend.X11KeyboardBackend.Loop | src/xkbX11KeyboardBackend.cpp:125-215 | does nothing without display, window, callback and masks; otherwise zeroes the table, then runs `Run` over the queue while the flag is down, leaving the non-keyboard events queued |
| EvdevBackend.Drain | src/xkbEvDevKeyboardBackend.cpp:67-93 | the loop takes at most all reads, with at most one callback per read |
| EvdevBackend.DrainStopsAtFirstEnd | src/xkbEvDevKeyboardBackend.cpp:67-93 | the loop takes reads up to and including the first that ends it, or all of them when none does |
| EvdevBackend.DrainEmitsWhatItReads | src/xkbEvDevKeyboardBackend.cpp:67-93 | the callbacks are those of the reads taken, in order |
| EvdevBackend.DrainWhenAllRead | src/xkbEvDevKeyboardBackend.cpp:67-93 | when no read ends the loop, it takes them all |
| EvdevBackend.DrainWhenEndAt | src/xkbEvDevKeyboardBackend.cpp:81-92 | the loop stops right after the first read that ends it |
| EvdevBackend.EmittedInRange | src/xkbEvDevKeyboardBackend.cpp:75-77 | every forwarded code is below 256 |
| EvdevBackend.KeyRecordForwarded | src/xkbEvDevKeyboardBackend.cpp:70-78 | a whole `EV_KEY` record with code below 256 gives one callback, the code unchanged, down iff the value is not 0 (a repeat, value 2, is down) |
| EvdevBackend.OtherRecordSkipped | src/xkbEvDevKeyboardBackend.cpp:72-79 | a whole record of another type, or with a code of 256 or more, gives nothing and the loop goes on |
| EvdevBackend.InterruptedReadRetried | src/xkbEvDevKeyboardBackend.cpp:81-86 | a read failing with `EINTR` is retried without a callback |
| EvdevBackend.EndingReadStops | src/xkbEvDevKeyboardBackend.cpp:81-92 | end of file, a short read or another error ends the loop there |
| EvdevBackend.StopIdempotent | src/xkbEvDevKeyboardBackend.cpp:44-57 | a second `Stop` changes nothing |
| EvdevBackend.StopClosesOpenDescriptorOnly | src/xkbEvDevKeyboardBackend.cpp:46-50 | `Stop` closes the descriptor once when one is open, and nothing before `Init` |
| EvdevBackend.DevicePathOfNode | src/xkbEvDevKeyboardBackend.cpp:21-28 | the file `Init` opens is under `/dev/input/event` |
| EvdevBackend.EvdevKeyboardBackend.constructor | include/xkbEvDevKeyboardBackend.h:21-23 | no descriptor (-1), flag down, no callback, nothing closed |
| EvdevBackend.EvdevKeyboardBackend.SetCallbacks | include/xkbKeyboardBackend.h:19 | a callback is registered, nothing else changes |
| EvdevBackend.EvdevKeyboardBackend.Init | src/xkbEvDevKeyboardBackend.cpp:19-37 | fails with no node; otherwise opens `/dev/input/` + node and succeeds iff the descriptor is not negative |
| EvdevBackend.EvdevKeyboardBackend.Start | src/xkbEvDevKeyboardBackend.cpp:39-42 | runs the loop without lowering the stop flag, so after `Stop` it reads nothing |
| EvdevBackend.EvdevKeyboardBackend.Stop | src/xkbEvDevKeyboardBackend.cpp:44-57 | the new descriptor state is `StopSpec` of the old |
| EvdevBackend.EvdevKeyboardBackend.Dispatch | src/xkbEvDevKeyboardBackend.cpp:69-92 | one read: the loop stops iff the read ends it, and the read's callbacks are appended |
| EvdevBackend.EvdevKeyboardBackend.Loop | src/xkbEvDevKeyboardBackend.cpp:59-94 | nothing without a descriptor, a callback, or with the flag up; otherwise the callbacks and reads taken are those of `Drain` |
| InputDetection.HexValueOfFormat | src/xkbInputDetection.cpp:9-21 | reading back the hex digits of a number gives the number |
| InputDetection.ParseFormatRoundTrip | src/xkbInputDetection.cpp:9-21 | after any whitespace and before text that does not continue it, a number in hex parses to itself if it fits 32 bits and fails otherwise; an `x` may follow any number but 0, where it would start the prefix |
| InputDetection.FormatHexLeadingZero | src/xkbInputDetection.cpp:9-21 | only zero is written in hex with a leading `0`, so no other number's digits can start a `0x` prefix |
| InputDetection.KeyboardMaskFormat | src/xkbInputDetection.cpp:43-53 | the keyboard mask 0x120013 is written `120013` |
| InputDetection.ExampleMaskParses | src/xkbInputDetection.cpp:9-21 | the literal `120013` parses to 0x120013 |
| InputDetection.ParsePrefixedFormatRoundTrip | src/xkbInputDetection.cpp:9-21 | the same with a `0x` prefix |
| InputDetection.ParseWithoutDigitFails | src/xkbInputDetection.cpp:9-21 | when no hex digit follows the whitespace and optional `0x`, parsing fails |
| InputDetection.TokensOfJoin | src/xkbInputDetection.cpp:55-61 | splitting words joined by spaces gives the words back |
| InputDetection.LastTokenAfterSpace | src/xkbInputDetection.cpp:55-61 | the word after the last space is the last token |
| InputDetection.ReadLastToken | src/xkbInputDetection.cpp:55-61 | the token loop leaves the last whitespace-separated token, or the empty string |
| InputDetection.ReadToken | src/xkbInputDetection.cpp:55-61 | one extraction skips a space or reads a whole word |
| InputDetection.WordEnd | src/xkbInputDetection.cpp:55-61 | a word ends at the first whitespace or at the end |
| InputDetection.FindActiveKeyboardEventNode | src/xkbInputDetection.cpp:26-72 | the imperative scan returns what `ScanDevices` gives, and none when the registry cannot be opened |
| InputDetection.ScanFindsEventNode | src/xkbInputDetection.cpp:55-66 | what the scan returns starts with `event` and is one token |
| InputDetection.ScanReturnsFirstQualifying | src/xkbInputDetection.cpp:35-66 | the scan returns the last token of the handlers line in force at the first qualifying line |
| InputDetection.ScanNoneIffNoneQualifies | src/xkbInputDetection.cpp:35-71 | the scan finds nothing iff no line qualifies |
| InputDetection.HandlersBeforeShift | src/xkbInputDetection.cpp:35-42 | the remembered handlers line is the last `H: Handlers=` line before, never reset between blocks |
| InputDetection.NoHandlersNoNode | src/xkbInputDetection.cpp:35-71 | with no handlers line at all, nothing is found |
| InputDetection.ScanTwoLines | src/xkbInputDetection.cpp:39-66 | a handlers line followed by a qualifying line yields the handlers' last token |
| InputDetection.ExampleRegistry | src/xkbInputDetection.cpp:39-66 | `H: Handlers=kbd event3` then `B: EV=120013` yields `event3` |
| InputDetection.ExampleBitmask | src/xkbInputDetection.cpp:43-53 | `B: EV=120013` parses to 0x120013 and is a keyboard's line |

## Left out

- Threads: `Start` runs `Loop` on the calling thread. The `std::thread`, `join`, the unsynchronised stop flag and the 50 µs sleep are not modelled.
- Both loops block for more input in the source; here they end when their input runs out. The X11 loop ends when the queue holds no keyboard event; the evdev loop ends when the read outcomes are used up.
- Xlib and XKB calls are not modelled: opening and closing displays, `XkbSetDetectableAutoRepeat`, `XSelectInput`, `XFlush`, `XFilterEvent`, `XRefreshKeyboardMapping`. Their success is a boolean input (`openOk`), or they have no observable effect on the model.
- `XkbKeycodeToKeysym` and `XQueryKeymap` are server answers carried with each queued event (`Server`). `SyncFromServer` and `Step` take them as `keyIndex` (keycode to key index, through `NoSymbol` and the key map) and `keymap` (the bitmap or `None`).
- The X11 destructor (`Stop` followed by `XCloseDisplay`) is not modelled; the Xlib call has no counterpart.
- POSIX `open`, `read` and `close` and `errno` are inputs (`open`, `ReadOutcome`) or a trace (`closed`). `Init` overwrites an open descriptor without closing it, as the source does; nothing about leaks is stated.
- EvdevBackend.EvdevKeyboardBackend.Start: as in the source, it does not lower the stop flag. So `Start` after `Stop` returns at once; this is stated, not corrected.
- Reading `/proc/bus/input/devices` and `std::getline` are not modelled: the registry is given as `Option<seq<string>>` of lines.
- `std::cerr` diagnostics are not modelled.
- `std::hex` extraction models whitespace, an optional `0x`/`0X`, the hex digits and the 32-bit overflow. A sign (`-`/`+`) and locale-specific behaviour are not modelled.
- Virtual dispatch and the stored `std::function` are not modelled: `SetCallbacks` only records that a callback is registered.
