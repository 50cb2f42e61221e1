# PSXCore firmware: verified models

PSXCore turns a PlayStation controller into a Bluetooth LE gamepad on an ESP32. This project
models the parts of the firmware and of its bundled BLE libraries whose correctness does not
show in any single function, and proves what they promise, for all inputs and all runs.

- **Gamepad reports.** `HidDescriptor` is a host: a parser for HID report descriptors and a
  reader of reports, after the Device Class Definition for HID 1.11, sections 6.2.2.2, 6.2.2.4,
  6.2.2.5, 6.2.2.7 and 6.2.2.8. `GamepadDescriptor` and `GamepadLayout` say which items
  `begin()` emits and what a host lays out from them, `GamepadBegin` writes them into the
  150-byte buffer, `GamepadReport` and `GamepadPacking` are the report, `BleGamepad` is the
  object with its press, release and setter calls, and `PsxReport` drives it from the
  controller state. `GamepadBytes` gives the report map byte by byte, and `PsxMeaning` says in
  the controller's own terms what a host reads. The main result: for every configuration in scope, a host that parses the
  emitted bytes reads from every packed report exactly the controls that are held, each under
  its own usage.
- **Scan engine.** `Scan` is the engine on the heap with its intrusive waiting list; `ScanSpec`
  tells the same story on values. Every run of the one is the run of the other, and what holds
  over whole runs is proved there; `ScanReports` proves that every device is reported, and when.
- **Streams and attribute values.** `RingBuffer` and `Stream` on the heap, `StreamSpec` the
  stream on values, with the account of every byte, and `StreamDelivery` what writers and stack
  get; `AttValue`.
- **Advertising.** `AdvertisementData` builds payloads in place, `AdvertisedDevice` parses them
  (Bluetooth Core Specification Vol 3, Part C, section 11), `AdvertisedLists` connects the two.
- **GATT start.** `GattRegistration` is the registration callback and the definition tables as
  functions, `GattServer` the server that runs them, `GattReset` what a reset keeps.
- **Links and bonds.** `ClientLink` is the client's connection state machine, `ClientRetries` the
  lives of its connections; `BondMigration` and `BondStore` are the record migration over a
  storage whose calls may fail, `BondOutcome` what it leaves.
- **Pin sweep and idle sleep.** `Permutations` and `PinSweep`, `PowerManager`.

`Bits` holds machine integers and single bits, `Options` a value that may be missing. Stack
calls, clocks, storage faults, user callbacks and other tasks appear as parameters that may take
any value. Requirements that the code needs and does not check are `requires` clauses; where a
promise fails on some inputs, the condition under which it holds is proved to be exact.

## What the proofs found

- `getServiceUUID` enumerates the UUIDs counted by `getServiceUUIDCount` if and only if eight
  bits can count them, no list is one byte short of whole UUIDs, and within each AD type every
  list but the first nonempty one is no longer than the lists before it together
  (`EnumerationExact`, for every payload; `LongerSecondList` is one where entry 1 is answered with
  the wrong UUID). One whole list per type is enough, and below 512 bytes of payload so are eight
  bits (`ListedFits`).
- `removeServiceUUID` scans on behind its own list. The payload is left alone if and only if the
  scan finds nothing (`RemoveServiceUuid`). For an unlisted UUID and a list of whole UUIDs that is
  so if and only if no match stands behind the list (`RemoveScan`). A match there makes the call
  erase other bytes: in `StrayRemoval` it deletes a service that was not asked for.
- UUID comparison is not transitive: a 16-bit and a 32-bit UUID never count as the same, even if
  both are the same as one 128-bit UUID, and that is the only exception (`SameUuidChains`).
- `setName` takes the length in eight bits: of a name of 256 bytes nothing is advertised, and
  a longer name is cut to fewer than 29 bytes exactly when its length modulo 256 is below 29
  (`SetName`).
- `setFlags(0)` removes a flags field that is there, as documented, but when there is none it
  adds one holding the BR/EDR bit.
- A call to `pressSpecialButton` for a button that is not included works the next included one,
  if there is one (`UndeclaredTouchesNext`).
- The hats go into the report last to first. All hats share one usage, so the report is
  well-formed, but a host numbers them backwards.
- The pending-callback invariant of the client breaks exactly when the error path of
  `connect()` runs while a connect callback is outstanding (`SettledStep`): on a `connect()`
  that is refused because the client is not disconnected, and on a blocking `connect()` that
  times out during somebody else's `disconnect()`. Both then report a connection on a client
  that counts as disconnected (`RejectedConnectDisturbs`, `TimeoutDuringDisconnectDisturbs`).
  "Exactly" is meant of this model, in which a blocking `connect()` that an event releases with
  an error returns together with that event. In the program it returns a little later and only
  then sets DISCONNECTED (NimBLEClient.cpp:311-319), whatever happened in between.
- A migration run that succeeds has committed everything unless the number of its writes is a
  multiple of 65536: then it does not commit, and what it or an earlier run wrote stays
  uncommitted (`MigrateBondStore`). Zero is such a number: after a run to v1 that failed only at
  the commit, the next run finds nothing to write and reports success on uncommitted data
  (`RerunNeverCommits`, with a concrete store in `UncommittedRerun`). 65536 is another
  (`FullStoreWraps`), as the counter of conversions has sixteen bits. The blobs and
  their uncommitted state belong to the namespace: they outlast the handle each run opens and
  closes.
- In a passive scan, where no scan response can come, an advertisement makes a device wait for
  one if and only if the device is stored and scannable, results are kept, and the event is no
  scan response (`PassiveWaitExact`). Nothing then starts the timer that would end the wait,
  unless the first in line leaves while others wait behind it. So with a timeout and a working
  callout the timer runs for whoever waits on every run if the scan is active or stores no
  results (`Scanner.Run`), and in no other configuration (`PassiveScanForgetsTimer`).
- Every advertisement that reaches the host makes `onDiscovered` be called again, unless it is a
  new device's and the list of results is full (`DiscoveredEveryTime`); also under the duplicate
  filter: `update()` clears the count of callbacks whatever the filter says
  (NimBLEAdvertisedDevice.cpp:86), so the reset at NimBLEScan.cpp:304-308 changes nothing.
- `NimBLEAttValue`'s value constructor does not compare the value with the maximum; the length
  stays within the maximum exactly when the value does (`FromBytes`). `setValue` that fails
  leaves the attribute empty.
- Idle time is misjudged exactly when it is a full wrap of the 32-bit clock or more, with a
  remainder under five minutes (`IdleDecisionExact`, `WrapHidesIdleness`).
- `decodePSXPacket` complements at int width, so the upper sixteen button bits of every decoded
  state are set, such a state always counts as input, and a device fed by it never falls asleep
  (`DecodedNeverSleeps`).
- The log line of a failed pin sweep announces the default 4/5/6/7/8; the code restores
  6/4/7/5/8. The model follows the code.

## Model

| member | source | states |
|---|---|---|
| HidDescriptor.ParseEncode | lib/ESP32-BLE-Gamepad/BleGamepad.cpp:98-742 | a host that reads the descriptor byte by byte sees exactly the short items it was compiled from |
| GamepadLayout.ItemsLaidOut | lib/ESP32-BLE-Gamepad/BleGamepad.cpp:98-742 | for every configuration with at most 128 buttons the compiled items parse without error, close every collection, lay out exactly 8 * hidReportSize input bits, and give every control its own field |
| GamepadLayout.ButtonSection | lib/ESP32-BLE-Gamepad/BleGamepad.cpp:159-210 | the button block lays out one bit per button on the Button page, padded to whole bytes |
| GamepadLayout.SpecialSection | lib/ESP32-BLE-Gamepad/BleGamepad.cpp:212-333 | the included special buttons lie on their pages in order, one bit each, padded to whole bytes |
| GamepadLayout.AxisSection | lib/ESP32-BLE-Gamepad/BleGamepad.cpp:335-438 | sixteen bits per included axis, in the order X, Y, Z, Rz, Rx, Ry, sliders, with the configured logical range read back as signed |
| GamepadLayout.SimulationSection | lib/ESP32-BLE-Gamepad/BleGamepad.cpp:440-519 | sixteen bits per included simulation control on the simulation page |
| GamepadLayout.MotionSection | lib/ESP32-BLE-Gamepad/BleGamepad.cpp:521-636 | three sixteen-bit fields per included sensor, although here the usages precede the range and size items |
| GamepadLayout.HatSection | lib/ESP32-BLE-Gamepad/BleGamepad.cpp:638-691 | one byte per hat switch with range 1 to 8 |
| GamepadLayout.OutputSection | lib/ESP32-BLE-Gamepad/BleGamepad.cpp:694-739 | the output report adds no input bits and leaves the parser clean |
| GamepadBegin.CountIncluded | lib/ESP32-BLE-Gamepad/BleGamepadConfiguration.cpp:34-87 | the five counting loops count the set flags of their range |
| GamepadBegin.Descriptor.Emit | lib/ESP32-BLE-Gamepad/BleGamepad.cpp:143-157 | an item's bytes are appended through the size index, and the buffer stays the encoding of the items emitted |
| GamepadBegin.Descriptor.EmitButtons | lib/ESP32-BLE-Gamepad/BleGamepad.cpp:159-210 | appends exactly the button items and exactly their announced number of bytes |
| GamepadBegin.Descriptor.EmitSpecialButtons | lib/ESP32-BLE-Gamepad/BleGamepad.cpp:212-333 | appends exactly the special button items |
| GamepadBegin.Descriptor.EmitDesktopButtons | lib/ESP32-BLE-Gamepad/BleGamepad.cpp:226-256 | appends the desktop group with its count and the usages of the included buttons |
| GamepadBegin.Descriptor.EmitConsumerButtons | lib/ESP32-BLE-Gamepad/BleGamepad.cpp:263-310 | appends the consumer group, two-byte usages for Home and Back |
| GamepadBegin.Descriptor.EmitAxes | lib/ESP32-BLE-Gamepad/BleGamepad.cpp:335-438 | appends exactly the axis items |
| GamepadBegin.Descriptor.EmitSimulation | lib/ESP32-BLE-Gamepad/BleGamepad.cpp:440-519 | appends exactly the simulation items |
| GamepadBegin.Descriptor.EmitMotion | lib/ESP32-BLE-Gamepad/BleGamepad.cpp:521-636 | appends the gyroscope or accelerometer items |
| GamepadBegin.Descriptor.EmitHats | lib/ESP32-BLE-Gamepad/BleGamepad.cpp:638-691 | appends the hat items, one usage per hat from the loop |
| GamepadBegin.Descriptor.EmitOutput | lib/ESP32-BLE-Gamepad/BleGamepad.cpp:694-739 | appends the output report items, one or two bytes of count |
| BleGamepad.Gamepad.constructor | lib/ESP32-BLE-Gamepad/BleGamepad.cpp:43-91 | a fresh object holds nothing and has written nothing |
| BleGamepad.Gamepad.Begin | lib/ESP32-BLE-Gamepad/BleGamepad.cpp:98-742 | the buffer holds the encoding of the configuration's items, DescriptorLength bytes, within 150; sizes are set; nothing held changes |
| BleGamepad.Gamepad.SizeReport | lib/ESP32-BLE-Gamepad/BleGamepad.cpp:105-141 | hidReportSize and numOfButtonBytes are the sizes the report needs, without 8-bit overflow |
| BleGamepad.Gamepad.ReportMapParses | lib/ESP32-BLE-Gamepad/BleGamepad.cpp:98-742 | the emitted bytes parse to exactly 8 * hidReportSize input bits and the fields of the report |
| GamepadBytes.PsxReportMap | lib/ESP32-BLE-Gamepad/BleGamepad.cpp:143-742 | the 82 bytes of the report map for the firmware's configuration, one by one |
| GamepadBytes.SectionsInOrder | lib/ESP32-BLE-Gamepad/BleGamepad.cpp:143-742 | the sections of the report map follow each other in a fixed order |
| GamepadBytes.ButtonMap | lib/ESP32-BLE-Gamepad/BleGamepad.cpp:159-210 | the bytes of the button section, for every number of buttons |
| GamepadBytes.SpecialMap | lib/ESP32-BLE-Gamepad/BleGamepad.cpp:212-333 | the bytes of the special button section with all eight |
| GamepadBytes.AxisMap | lib/ESP32-BLE-Gamepad/BleGamepad.cpp:335-438 | the bytes of the axis section with all eight, for every range |
| GamepadBytes.SimulationMap | lib/ESP32-BLE-Gamepad/BleGamepad.cpp:440-519 | the bytes of the simulation section with all five, for every range |
| GamepadBytes.MotionMap | lib/ESP32-BLE-Gamepad/BleGamepad.cpp:521-636 | the bytes of a sensor's section |
| GamepadBytes.HatMap | lib/ESP32-BLE-Gamepad/BleGamepad.cpp:638-691 | the bytes of the hat section with one hat |
| GamepadBytes.OutputMap | lib/ESP32-BLE-Gamepad/BleGamepad.cpp:694-739 | the bytes of the output section, for every length |
| GamepadReport.ReportReadsBack | lib/ESP32-BLE-Gamepad/BleGamepad.cpp:920-1041 | reading the packed report through the laid-out fields gives every included control's own state under its own usage, and nothing else |
| GamepadReport.PackParts | lib/ESP32-BLE-Gamepad/BleGamepad.cpp:920-1041 | every section of the report starts at the byte where the descriptor puts its fields, and the report has hidReportSize bytes |
| GamepadBytes.HatsFromTheEnd | lib/ESP32-BLE-Gamepad/BleGamepad.cpp:1026-1039 | the first hat is the last byte of the report, the second the one before, and so on |
| GamepadPacking.PutAxes | lib/ESP32-BLE-Gamepad/BleGamepad.cpp:938-978 | the included axes are appended low byte first in descriptor order |
| GamepadPacking.PutSimulation | lib/ESP32-BLE-Gamepad/BleGamepad.cpp:980-1004 | the included simulation controls are appended |
| GamepadPacking.PutMotion | lib/ESP32-BLE-Gamepad/BleGamepad.cpp:1006-1024 | the three values of an included sensor are appended |
| GamepadPacking.PutHats | lib/ESP32-BLE-Gamepad/BleGamepad.cpp:1026-1039 | the hats are appended last to first |
| BleGamepad.Gamepad.PackControls | lib/ESP32-BLE-Gamepad/BleGamepad.cpp:926-978 | what the 16-byte button copy spills behind the button area is overwritten |
| BleGamepad.Gamepad.Report | lib/ESP32-BLE-Gamepad/BleGamepad.cpp:920-1041 | the buffer handed to the stack is exactly the report of the current fields |
| BleGamepad.Gamepad.HostReadsReport | lib/ESP32-BLE-Gamepad/BleGamepad.cpp:920-1041 | a host that parsed the emitted report map reads from the report exactly what is held |
| BleGamepad.Gamepad.SendReport | lib/ESP32-BLE-Gamepad/BleGamepad.cpp:920-1052 | one report goes out exactly when connected, with the current state |
| BleGamepad.Gamepad.Press | lib/ESP32-BLE-Gamepad/BleGamepad.cpp:1054-1071 | the button joins those held and no other button changes; the report, if any, shows it |
| BleGamepad.Gamepad.Release | lib/ESP32-BLE-Gamepad/BleGamepad.cpp:1073-1090 | the button leaves those held and no other changes |
| BleGamepad.Gamepad.SpecialButtonBitPosition | lib/ESP32-BLE-Gamepad/BleGamepad.cpp:1092-1104 | the rank among the included special buttons, or the exception for 8 and above |
| BleGamepad.RankIsOrderPreserving | lib/ESP32-BLE-Gamepad/BleGamepad.cpp:1092-1104 | ranks of included special buttons increase with the button and stay below their number |
| BleGamepad.Gamepad.PressSpecial | lib/ESP32-BLE-Gamepad/BleGamepad.cpp:1106-1123 | exactly the included buttons that share the position become held |
| BleGamepad.Gamepad.ReleaseSpecial | lib/ESP32-BLE-Gamepad/BleGamepad.cpp:1125-1142 | exactly the included buttons that share the position are let go |
| BleGamepad.IncludedTouchesItself | lib/ESP32-BLE-Gamepad/BleGamepad.cpp:1092-1142 | an included special button shares its position with no other |
| BleGamepad.UndeclaredTouchesNext | lib/ESP32-BLE-Gamepad/BleGamepad.cpp:1092-1142 | a button that is not included touches nothing if and only if no included one follows, else the next included one |
| BleGamepad.Gamepad.SetLeftThumb | lib/ESP32-BLE-Gamepad/BleGamepad.cpp:1224-1242 | X and Y take the values, -32768 clamped, all else unchanged |
| BleGamepad.Gamepad.SetRightThumb | lib/ESP32-BLE-Gamepad/BleGamepad.cpp:1244-1262 | Z and Rz take the values, -32768 clamped |
| BleGamepad.Gamepad.SetHat1 | lib/ESP32-BLE-Gamepad/BleGamepad.cpp:1344-1352 | the first hat takes the value |
| PsxReport.Begin | src/ble_nimble.cpp:69-80 | the firmware's configuration is in scope, and it starts with no button held, all axes at rest and the hat centred |
| PsxReport.PsxConfigInScope | src/ble_nimble.cpp:69-75 | its descriptor takes 82 bytes and its report 19 |
| PsxReport.UpdateButtons | src/ble_nimble.cpp:16-67 | after the map loop exactly the mapped buttons are held, whatever was held before, and the hat is the d-pad's direction |
| PsxReport.Update | src/ble_nimble.cpp:82-104 | at most one report per update; what a host reads from it is a function of the current controller state alone |
| PsxMeaning.HatPoints | src/ble_nimble.cpp:42-66 | the hat a host reads points where the directional pad is pressed; of left and right held together right counts, of up and down up, but down with left alone |
| PsxMeaning.ButtonsShow | src/ble_nimble.cpp:17-40 | the first twelve buttons a host reads are Square, Cross, Circle, Triangle, L1, R1, L2, R2, L3, R3, Select and Start, and the last four are never down |
| PsxMeaning.EveryControlOnce | include/psx_buttons.h:4-19 | every control but the directional pad has one button and no two share one |
| PsxMeaning.SticksShow | src/ble_nimble.cpp:94-101 | the left stick is read as X and Y, the right one as Z and Rz, each the nearest value of the declared range; the other axes rest |
| PsxMeaning.HeldIsShown | src/psx_decode.cpp:16-29 | from packet to host: each of the twelve buttons is read as down iff it was held when the packet was sent |
| PsxReport.AxisInRange | src/ble_nimble.cpp:12-14 | stick positions span exactly the declared logical range |
| PsxReport.AxisKeepsOrder | src/ble_nimble.cpp:12-14 | the scaling is strictly monotone |
| Scan.Scanner.AddWaiting | lib/NimBLE-Arduino/src/NimBLEScan.cpp:97-122 | appends at the tail unless listed; the list stays null-terminated from head to tail, and a device points to itself iff it is off the list |
| Scan.Scanner.RemoveWaiting | lib/NimBLE-Arduino/src/NimBLEScan.cpp:128-163 | unlinks the device from any position, keeping the order of the others and the timer running for a new head |
| Scan.Scanner.ClearWaitingList | lib/NimBLE-Arduino/src/NimBLEScan.cpp:169-185 | empties the list and gives every device its self-pointer back |
| Scan.Scanner.ResetWaitingTimer | lib/NimBLE-Arduino/src/NimBLEScan.cpp:190-209 | the timer runs for the rest of the head's timeout whenever somebody waits |
| Scan.Scanner.HandleAdvert | lib/NimBLE-Arduino/src/NimBLEScan.cpp:216-348 | an advertising event does to the heap exactly the specified step (what that step reports: AdvertOutcome) |
| Scan.Scanner.SrTimerCb | lib/NimBLE-Arduino/src/NimBLEScan.cpp:41-65 | a firing timer does to the heap exactly the specified step (when it reports: TimerExact) |
| Scan.Scanner.DiscComplete | lib/NimBLE-Arduino/src/NimBLEScan.cpp:350-385 | the end of a scan reports whoever waits and drops results that are not kept |
| Scan.Scanner.EraseAddress | lib/NimBLE-Arduino/src/NimBLEScan.cpp:646-656 | the stored device with the address goes from list and vector |
| Scan.Scanner.EraseDevice | lib/NimBLE-Arduino/src/NimBLEScan.cpp:662-672 | a device leaves the list before the vector that owns it |
| Scan.Scanner.ClearResults | lib/NimBLE-Arduino/src/NimBLEScan.cpp:732-748 | list and vector are emptied, unless a scan runs |
| Scan.Scanner.Stop | lib/NimBLE-Arduino/src/NimBLEScan.cpp:619-641 | a cancelled scan leaves nobody waiting |
| Scan.Scanner.Run | lib/NimBLE-Arduino/src/NimBLEScan.cpp:41-385 | every run of events on a fresh scanner refines the specification and keeps all listed devices owned by the vector; with a timeout and a working callout the timer runs whenever somebody waits, if the scan is active or stores no results |
| ScanSpec.StepInv | lib/NimBLE-Arduino/src/NimBLEScan.cpp:216-385 | every event keeps addresses unique, waiting devices stored, once each and in order of their time stamps, and a fixed result limit respected |
| ScanSpec.RunInv | lib/NimBLE-Arduino/src/NimBLEScan.cpp:41-385 | so does every run with a monotone clock |
| ScanSpec.TimerExpiresOldest | lib/NimBLE-Arduino/src/NimBLEScan.cpp:41-65 | the timer reports at most the head, only after its real timeout, and no waiting device is older |
| ScanSpec.CompleteReportsEachOnce | lib/NimBLE-Arduino/src/NimBLEScan.cpp:350-385 | at the end of a scan every waiting device is reported exactly once, oldest first, and marked so; the rest of what is stored stays as it is, or goes if results are not kept |
| ScanReports.EveryHearingReported | lib/NimBLE-Arduino/src/NimBLEScan.cpp:41-385 | on every run of adverts, timers and ends of an active scan: the reports of a device, plus one if it waits, are as many as its accepted events while it was not waiting; so every scan response, every event that begins a wait and every device that cannot be scanned leads to exactly one onResult |
| ScanReports.AdvertOutcome | lib/NimBLE-Arduino/src/NimBLEScan.cpp:222-347 | an accepted event is reported at once iff the scan is passive, the device cannot be scanned or the event is the scan response, and otherwise puts the device last in line; a response ends its wait; type, time and count of callbacks follow, and nothing changes for other devices |
| ScanReports.TurnedAway | lib/NimBLE-Arduino/src/NimBLEScan.cpp:262-270 | an event that a full list of results turns away changes nothing |
| ScanReports.TimerExact | lib/NimBLE-Arduino/src/NimBLEScan.cpp:41-65 | on every run, the timer reports the first in line iff its timeout has passed in real time, and changes nothing else, if nobody waits for a whole wrap of the clock |
| ScanReports.EraseForgets | lib/NimBLE-Arduino/src/NimBLEScan.cpp:646-672 | an erased device is in no list any more, unreported, and nothing changes for other devices |
| ScanReports.StopAndClear | lib/NimBLE-Arduino/src/NimBLEScan.cpp:619-748 | stopping and clearing report nobody and leave nobody waiting; what is stored stays after the one if results are kept, and goes with the other |
| ScanSpec.UnstoredOnlyWaiting | lib/NimBLE-Arduino/src/NimBLEScan.cpp:216-348 | with results not stored, a device is kept exactly while its response is awaited |
| ScanSpec.DiscoveredEveryTime | lib/NimBLE-Arduino/src/NimBLEScan.cpp:280-323 | onDiscovered is called for every advertisement of a device, repeated or not, that a full list of results does not turn away, and for nothing else while the device sends no responses |
| ScanSpec.PassiveWaitExact | lib/NimBLE-Arduino/src/NimBLEScan.cpp:280-348 | in every reachable state of a passive scan, an advertising event makes a device join the waiting list iff the device is stored and scannable, the event is no scan response and results are kept; nobody else joins or leaves |
| ScanSpec.PassiveDuplicateWaits | lib/NimBLE-Arduino/src/NimBLEScan.cpp:280-348 | the run that shows it, for every result limit but 0: a device advertises twice, is discovered and reported twice, and waits |
| ScanSpec.PassiveUnstoredNeverWaits | lib/NimBLE-Arduino/src/NimBLEScan.cpp:324-345 | a passive scan that stores no results never has anybody waiting or stored between events |
| Scan.PassiveScanForgetsTimer | lib/NimBLE-Arduino/src/NimBLEScan.cpp:280-348 | the same run on the heap ends with that device waiting and the timer idle, for every timeout and every result limit but 0 |
| RingBuffer.ByteRingBuffer.Write | lib/NimBLE-Arduino/src/NimBLEStream.cpp:98-119 | appends the longest prefix that fits |
| RingBuffer.ByteRingBuffer.Peek | lib/NimBLE-Arduino/src/NimBLEStream.cpp:156-175 | copies out the oldest bytes and changes nothing |
| RingBuffer.ByteRingBuffer.Drop | lib/NimBLE-Arduino/src/NimBLEStream.cpp:182-195 | forgets a prefix |
| RingBuffer.ByteRingBuffer.Read | lib/NimBLE-Arduino/src/NimBLEStream.cpp:127-148 | takes out what peek would have shown |
| RingBuffer.CursorsAgree | lib/NimBLE-Arduino/src/NimBLEStream.cpp:98-195 | head equals (tail + size) modulo the capacity after every operation |
| RingBuffer.UnrollWrite | lib/NimBLE-Arduino/src/NimBLEStream.cpp:104-117 | writing at the head, wrapping as needed, appends to the queue |
| Stream.StreamServer.Write | lib/NimBLE-Arduino/src/NimBLEStream.cpp:345-353 | accepts the prefix that fits, nothing while not ready, and records exactly that |
| StreamDelivery.OfferTakes | lib/NimBLE-Arduino/src/NimBLEStream.cpp:345-353 | while ready a write is taken whole, or as far as fills the queue; otherwise not at all |
| StreamDelivery.OfferAllTakes | lib/NimBLE-Arduino/src/NimBLEStream.cpp:345-353 | several writes share the room in their order: whole as long as there is room, one cut, the later ones nothing |
| Stream.StreamServer.Send | lib/NimBLE-Arduino/src/NimBLEStream.cpp:753-785 | does the specified send (what it hands over: SendHands), whatever is written between peek and drop, and asks for a retry exactly when the notification that stopped it was refused for lack of buffers |
| StreamSpec.DrainHands | lib/NimBLE-Arduino/src/NimBLEStream.cpp:753-785 | a drain hands over one nonempty chunk within the limit for each notification accepted, the first as long as limit and queue allow, and stops at the round that its result tells; if it finishes, under any limit but zero, the queue is empty |
| StreamSpec.SendHands | lib/NimBLE-Arduino/src/NimBLEStream.cpp:753-785 | every chunk of a send fits the chunk buffer and the MTU less three bytes, the first fills the smaller of these or takes the whole queue; nothing goes while not ready or under an MTU of 23; a send that ends unrefused has emptied the queue |
| StreamDelivery.QuietDrain | lib/NimBLE-Arduino/src/NimBLEStream.cpp:764-782 | with nobody else writing a drain moves the front of the queue to the stack unchanged and in order, in chunks that all have the full length but the one that empties the queue |
| StreamDelivery.QuietDrainDelivers | lib/NimBLE-Arduino/src/NimBLEStream.cpp:764-782 | and if the stack accepts as many chunks as the queue fills, all of it |
| StreamDelivery.DrainLogs | lib/NimBLE-Arduino/src/NimBLEStream.cpp:764-782 | a drain records every write of the rounds that took place, the refused one included, and no other |
| StreamSpec.TurnHands | lib/NimBLE-Arduino/src/NimBLEStream.cpp:762-782 | what is dropped is what was peeked, whatever is written in between |
| Stream.StreamServer.Run | lib/NimBLE-Arduino/src/NimBLEStream.cpp:345-785 | every interleaving of writes, drains, flushes and received data takes the object exactly through the specified run, so the account of bytes stays in order |
| StreamDelivery.EveryChunkFits | lib/NimBLE-Arduino/src/NimBLEStream.cpp:707-785 | on every run, each piece leaves the queue in a drain or flush of the run, and each chunk handed to the stack was handed over while ready and fits the MTU of that very send |
| StreamSpec.EveryByteOnce | lib/NimBLE-Arduino/src/NimBLEStream.cpp:345-785 | on every run the bytes that left the queue, followed by the bytes in it, are exactly the bytes taken from the writes, each once and in order, and what is taken of a write is its beginning |
| StreamSpec.OnlyFlushLoses | lib/NimBLE-Arduino/src/NimBLEStream.cpp:345-785 | without a flush everything that left the queue was handed to the stack |
| Stream.StreamServer.Flush | lib/NimBLE-Arduino/src/NimBLEStream.cpp:707-741 | does the specified flush |
| StreamSpec.FlushGivesUp | lib/NimBLE-Arduino/src/NimBLEStream.cpp:707-741 | a flush that ends leaves the queue empty; what it gives up, if anything, is the whole rest of the queue, and only then the RX queue is emptied too; every chunk it hands over fits the MTU of a pass that was ready |
| StreamDelivery.FlushDelivers | lib/NimBLE-Arduino/src/NimBLEStream.cpp:707-741 | with nobody else writing, a flush gives nothing up while every pass, observed to its end, moves a chunk or may wait for buffers, and ends with all bytes handed over within as many moving passes as there are bytes |
| StreamDelivery.FlushStuck | lib/NimBLE-Arduino/src/NimBLEStream.cpp:733-740 | a pass that moves nothing and may not wait ends the flush at once: both queues are emptied |
| StreamDelivery.FlushTurnDecides | lib/NimBLE-Arduino/src/NimBLEStream.cpp:716-740 | whatever is written meanwhile: after a pass the flush goes on only if the queue is shorter than before or the stack is out of buffers with time left, and gives up only if neither; what is written after it has looked does not matter |
| Stream.StreamServer.PushRx | lib/NimBLE-Arduino/src/NimBLEStream.cpp:484-523 | the overflow policy: the newest bytes of old-then-new, or the new data refused whole |
| StreamSpec.PushesCompose | lib/NimBLE-Arduino/src/NimBLEStream.cpp:484-523 | dropping older data piece by piece loses exactly what one big push would |
| StreamSpec.PushCases | lib/NimBLE-Arduino/src/NimBLEStream.cpp:495-523 | what fits is appended whole, new data that does not fit is refused whole or takes the place of the oldest, as the policy says |
| AttValue.Value.constructor | lib/NimBLE-Arduino/src/NimBLEAttValue.cpp:32-47 | an empty terminated value with a maximum of at most 512 |
| AttValue.Value.FromBytes | lib/NimBLE-Arduino/src/NimBLEAttValue.cpp:49-55 | copies the bytes; the length is within the maximum exactly when they are |
| AttValue.Value.Append | lib/NimBLE-Arduino/src/NimBLEAttValue.cpp:114-155 | appends all or nothing; length stays within capacity and maximum with a trailing zero |
| AttValue.Value.Set | lib/NimBLE-Arduino/src/NimBLEAttValue.cpp:106-112 | replaces the value, or leaves it empty when it does not fit |
| AttValue.Value.DeepCopy | lib/NimBLE-Arduino/src/NimBLEAttValue.cpp:87-99 | copies value and limits, or nothing if allocation fails |
| AttValue.Value.HandleWrite | lib/NimBLE-Arduino/src/NimBLEServer.cpp:748-772 | a write chain is stored as its concatenation iff the total fits, else the old value stays |
| AttValue.Value.HandleNotify | lib/NimBLE-Arduino/src/NimBLEClient.cpp:1182-1202 | a notification chain succeeds iff the total fits, and then is its concatenation |
| AdvertisementData.AdvertisementData.AddData | lib/NimBLE-Arduino/src/NimBLEAdvertisementData.cpp:39-47 | any bytes are appended whole iff at most 31 result; a payload of fields stays one if the bytes are fields |
| AdvertisementData.AdvertisementData.GetDataLocation | lib/NimBLE-Arduino/src/NimBLEAdvertisementData.cpp:524-533 | the start of the first field of the type, or -1 iff there is none |
| AdvertisementData.AdvertisementData.RemoveData | lib/NimBLE-Arduino/src/NimBLEAdvertisementData.cpp:540-551 | deletes exactly the first field of the type |
| AdvertisementData.AdvertisementData.AddServiceUuid | lib/NimBLE-Arduino/src/NimBLEAdvertisementData.cpp:146-187 | succeeds iff the size is valid and there is room; only the UUID's own list and length byte change |
| AdvertisementData.AdvertisementData.RemoveServiceUuid | lib/NimBLE-Arduino/src/NimBLEAdvertisementData.cpp:203-245 | the payload is unchanged iff the scan finds nothing; otherwise a one-UUID list goes as a whole, a match inside the list goes alone, and a match elsewhere is erased where it stands with the length byte lowered |
| AdvertisementData.RemoveScan | lib/NimBLE-Arduino/src/NimBLEAdvertisementData.cpp:226-232 | for a list of whole UUIDs: a listed UUID is found in its list first; for an unlisted one the scan finds nothing iff nothing behind the list matches |
| AdvertisementData.StrayMatch | lib/NimBLE-Arduino/src/NimBLEAdvertisementData.cpp:226-232 | a concrete unlisted UUID that the scan finds in another field |
| AdvertisementData.StrayRemoval | lib/NimBLE-Arduino/src/NimBLEAdvertisementData.cpp:203-245 | in that payload, removing the unlisted UUID deletes the other service and leaves the matching bytes |
| AdvertisementData.AddThenRemove | lib/NimBLE-Arduino/src/NimBLEAdvertisementData.cpp:146-245 | removing what was just added restores the fields if it was not listed before; an empty list goes as a whole, and of a UUID listed before the first occurrence has moved to the end |
| AdvertisementData.AdvertisementData.SetFlags | lib/NimBLE-Arduino/src/NimBLEAdvertisementData.cpp:84-100 | patches, removes or adds the flags field; an empty flags field is patched in the length byte of the next one |
| AdvertisementData.AdvertisementData.SetAppearance | lib/NimBLE-Arduino/src/NimBLEAdvertisementData.cpp:63-74 | adds the field, or for 0 removes it |
| AdvertisementData.AdvertisementData.SetPreferredParams | lib/NimBLE-Arduino/src/NimBLEAdvertisementData.cpp:125-140 | adds the minimum clamped to 6..0xC80 and the maximum clamped to between that minimum and 0xC80, iff there is room |
| AdvertisementData.AdvertisementData.SetManufacturerData | lib/NimBLE-Arduino/src/NimBLEAdvertisementData.cpp:269-280 | adds the field iff it fits |
| AdvertisementData.AdvertisementData.SetUri | lib/NimBLE-Arduino/src/NimBLEAdvertisementData.cpp:305-317 | adds the field iff it fits |
| AdvertisementData.AdvertisementData.SetName | lib/NimBLE-Arduino/src/NimBLEAdvertisementData.cpp:327-339 | a name over 29 bytes is marked as shortened and cut there, or earlier if its length modulo 256 is below 29 |
| AdvertisementData.AdvertisementData.SetServices | lib/NimBLE-Arduino/src/NimBLEAdvertisementData.cpp:412-450 | lists as many UUIDs of the size as fit, in order, and is marked complete only if none was left out; succeeds iff the size is 2, 4 or 16 and the payload has room for that list |
| AdvertisementData.AdvertisementData.SetServiceData | lib/NimBLE-Arduino/src/NimBLEAdvertisementData.cpp:460-495 | adds the field, or for no data removes the first of its type |
| AdvertisementData.PayloadParses | lib/NimBLE-Arduino/src/NimBLEAdvertisedDevice.cpp:645-706 | the scanner visits exactly the builder's fields |
| AdvertisementData.BuiltPayloadEnumerates | lib/NimBLE-Arduino/src/NimBLEAdvertisedDevice.cpp:417-457 | in a built payload with whole lists, at most one per type, every index below the count is answered with exactly its UUID |
| AdvertisementData.AddedIsAdvertised | lib/NimBLE-Arduino/src/NimBLEAdvertisementData.cpp:146-187 | after a successful addServiceUUID the scanner finds the service advertised |
| AdvertisedLists.ServicesAreAdvertised | lib/NimBLE-Arduino/src/NimBLEAdvertisementData.cpp:412-450 | every UUID that setServices lists, complete or not, is then found by the scanner, in a payload of whole lists, one per type |
| AdvertisedLists.OfSizeTakes | lib/NimBLE-Arduino/src/NimBLEAdvertisementData.cpp:418-432 | the list takes all UUIDs of its size, no other, in order |
| AdvertisedLists.ListTypes | lib/NimBLE-Arduino/src/NimBLEAdvertisementData.cpp:434-446 | the list types tell the size of the entries and whether the list is complete |
| AdvertisedLists.FlagBits | lib/NimBLE-Arduino/src/NimBLEAdvertisementData.cpp:84-100 | the flags byte has the bits asked for and the BR/EDR bit |
| AdvertisedDevice.FindAdvField | lib/NimBLE-Arduino/src/NimBLEAdvertisedDevice.cpp:645-706 | the walk over the payload, for every payload however long or malformed, the count in eight bits |
| AdvertisedDevice.FindHits | lib/NimBLE-Arduino/src/NimBLEAdvertisedDevice.cpp:645-706 | with an index, the walk stops at a field that holds that entry, with the count through it, which has not wrapped there; otherwise it counts all entries modulo 256 |
| AdvertisedDevice.GetServiceUuid | lib/NimBLE-Arduino/src/NimBLEAdvertisedDevice.cpp:417-457 | the UUID at the located place, or none, for every payload |
| AdvertisedDevice.GetServiceUuidCount | lib/NimBLE-Arduino/src/NimBLEAdvertisedDevice.cpp:463-472 | the number of UUIDs listed, modulo 256 |
| AdvertisedDevice.ListedFits | lib/NimBLE-Arduino/src/NimBLEAdvertisedDevice.cpp:463-472 | a payload of n bytes lists at most n / 2 UUIDs, so the count is the true one below 512 bytes |
| AdvertisedDevice.IsAdvertisingService | lib/NimBLE-Arduino/src/NimBLEAdvertisedDevice.cpp:479-488 | true iff some UUID enumerated below the count equals the wanted one |
| AdvertisedLists.SameUuidMeans | lib/NimBLE-Arduino/src/NimBLEUUID.cpp:301-334 | UUIDs of one size are the same iff their bytes are; a short one and a 128-bit one iff the latter is the base UUID with the short one in it |
| AdvertisedLists.SameUuidChains | lib/NimBLE-Arduino/src/NimBLEUUID.cpp:301-334 | the comparison is symmetric, and transitive exactly but for a 16-bit and a 32-bit UUID, which never count as the same |
| AdvertisedLists.ShortUuidsApart | lib/NimBLE-Arduino/src/NimBLEUUID.cpp:316-318 | two such UUIDs that are the same as one 128-bit UUID |
| AdvertisedDevice.EnumerationExact | lib/NimBLE-Arduino/src/NimBLEAdvertisedDevice.cpp:417-457 | for every payload, getServiceUUID(0..count-1) enumerates exactly the counted UUIDs by type and position iff there are at most 255, no list is one byte short of whole UUIDs, and every later list of a type is no longer than those before it |
| AdvertisedDevice.AnswersAreListed | lib/NimBLE-Arduino/src/NimBLEAdvertisedDevice.cpp:417-457 | where at most 255 UUIDs are listed and no list is one byte short, every answer for an index below the count is some listed UUID |
| AdvertisedDevice.SingleListIsBalanced | lib/NimBLE-Arduino/src/NimBLEAdvertisedDevice.cpp:445-451 | one list per type meets the condition on lengths |
| AdvertisedDevice.LongerSecondList | lib/NimBLE-Arduino/src/NimBLEAdvertisedDevice.cpp:445-451 | a payload for which the index adjustment answers the wrong entry |
| AdvertisedDevice.GetName | lib/NimBLE-Arduino/src/NimBLEAdvertisedDevice.cpp:244-246 | the first complete name, or else the last shortened one; with 255 shortened names or more, still some name or nothing |
| AdvertisedDevice.NameChoice | lib/NimBLE-Arduino/src/NimBLEAdvertisedDevice.cpp:244-246 | of the fields in any payload: the first complete name, or the last shortened one if no name is complete |
| GattRegistration.EveryAttributeGetsItsHandle | lib/NimBLE-Arduino/src/NimBLEServer.cpp:195-257 | for any non-zero handles, replaying registrations in definition order gives every kept service, characteristic and descriptor exactly its own handle and removed ones none, repeated UUIDs, short next to long forms, and preceding built-in services included |
| GattRegistration.UnknownChrSkipped | lib/NimBLE-Arduino/src/NimBLEServer.cpp:222-256 | a characteristic that the service does not have is skipped together with its descriptors |
| GattRegistration.TablesFixTheOrder | lib/NimBLE-Arduino/src/NimBLEService.cpp:86-150 | the stack, reading the tables, registers the kept attributes in the order of the vectors |
| GattReset.TableEnds | lib/NimBLE-Arduino/src/NimBLEService.cpp:106-132 | a descriptor table exists iff a descriptor is kept, and has one end entry, its last |
| GattReset.ChrTableEnds | lib/NimBLE-Arduino/src/NimBLEService.cpp:90-144 | likewise for characteristics |
| GattServer.BuildChrs | lib/NimBLE-Arduino/src/NimBLEService.cpp:90-144 | the two passes fill a table of exactly the kept characteristics, ended by a blank entry |
| GattServer.BuildDscs | lib/NimBLE-Arduino/src/NimBLEService.cpp:106-132 | likewise for descriptors |
| GattServer.Server.StartInternal | lib/NimBLE-Arduino/src/NimBLEService.cpp:86-171 | the service's tables go to the stack iff it accepts them |
| GattServer.Server.RegisterCallback | lib/NimBLE-Arduino/src/NimBLEServer.cpp:195-257 | one registration claims the first attribute not removed, without handle, whose UUID equals that one in any form |
| GattServer.Server.ResetGatt | lib/NimBLE-Arduino/src/NimBLEServer.cpp:881-934 | deleted attributes are gone at every level and all handles are cleared (what stays: SvcsSurvive), and one table per kept service is handed over; a refusal names the first service whose table was refused and leaves the services behind it untouched |
| GattReset.SvcsSurvive | lib/NimBLE-Arduino/src/NimBLEServer.cpp:890-931 | exactly the services not marked for deletion stay, hidden ones included, in order, each with its UUID, its mark, no handle, and what is left of its characteristics |
| GattReset.ChrsSurvive | lib/NimBLE-Arduino/src/NimBLEServer.cpp:898-921 | the same of the characteristics of a service and what is left of their descriptors |
| GattReset.DscsSurvive | lib/NimBLE-Arduino/src/NimBLEServer.cpp:906-916 | the same of the descriptors of a characteristic |
| GattReset.UnmarkedStay | lib/NimBLE-Arduino/src/NimBLEServer.cpp:890-931 | if nothing is marked for deletion at any level, a reset takes the handles and nothing else |
| GattServer.RefusalLeaves | lib/NimBLE-Arduino/src/NimBLEServer.cpp:923-931 | the service whose tables are refused keeps its own handle and mark, those behind it everything |
| GattServer.Server.Start | lib/NimBLE-Arduino/src/NimBLEServer.cpp:264-313 | once started, every attribute has the handle announced for it; a running server is only restarted when services changed and nobody is connected |
| ClientLink.AttemptsAndCallbacks | lib/NimBLE-Arduino/src/NimBLEClient.cpp:249-325 | on every run, at most retries + 1 attempts since the last accepted connect(); each link's moments come once and in order: onConnect at most once, then at most one end, which is a silent retry or one failure or disconnect callback, then only later links |
| ClientLink.OneEndPerLostLink | lib/NimBLE-Arduino/src/NimBLEClient.cpp:1020-1102 | on every run, silent retries plus failure and disconnect callbacks for a link are exactly as many as the links lost to a disconnect |
| ClientLink.NoMoreEndsThanLinks | lib/NimBLE-Arduino/src/NimBLEClient.cpp:1020-1149 | so from a fresh client they never outnumber the links that came up |
| ClientRetries.RetriesAreSilent | lib/NimBLE-Arduino/src/NimBLEClient.cpp:1062-1076 | while retries are left, k failed establishments make exactly k new attempts and nothing else: nobody is called, the client stays CONNECTING, a waiting connect() keeps waiting, and both counts go up by k |
| ClientRetries.LastFailureIsTold | lib/NimBLE-Arduino/src/NimBLEClient.cpp:1062-1090 | the failure after the last retry calls onConnectFail once, makes no attempt and releases the wait |
| ClientRetries.RetriesThenFailure | lib/NimBLE-Arduino/src/NimBLEClient.cpp:249-1102 | so a connect() whose link never gets established makes retries + 1 attempts and then reports one failure |
| ClientRetries.RetriesThenSuccess | lib/NimBLE-Arduino/src/NimBLEClient.cpp:249-1149 | and one that gets its link after some of them makes just those attempts and reports that link once, however often it shows that it works |
| ClientRetries.EstablishedOnce | lib/NimBLE-Arduino/src/NimBLEClient.cpp:971-996 | traffic and the timer complete a connection once |
| ClientRetries.OtherReasonsAreTold | lib/NimBLE-Arduino/src/NimBLEClient.cpp:1080-1090 | a disconnect for any other reason calls onDisconnect once and makes no attempt, whatever retries are left |
| ClientRetries.RetryNotStarted | lib/NimBLE-Arduino/src/NimBLEClient.cpp:1070-1090 | a retry that cannot start is followed at once by onConnectFail |
| ClientRetries.FailedConnection | lib/NimBLE-Arduino/src/NimBLEClient.cpp:1131-1147 | a connection that the stack could not make is told by callback iff connect() was asynchronous, releases the wait, and is not retried |
| ClientRetries.LateConnectionIsDropped | lib/NimBLE-Arduino/src/NimBLEClient.cpp:297-325 | after a timed-out wait a connection that comes up all the same is terminated without a word |
| ClientRetries.DisconnectIsTold | lib/NimBLE-Arduino/src/NimBLEClient.cpp:379-394 | after disconnect() the timer reports no connection any more, and the end is told once |
| ClientRetries.NotStarted | lib/NimBLE-Arduino/src/NimBLEClient.cpp:249-325 | a refused connect() asks the stack for nothing, one that cannot start for one attempt, and neither waits |
| ClientRetries.NothingHappens | lib/NimBLE-Arduino/src/NimBLEClient.cpp:1167-1174 | traffic of another connection and a refused disconnect() change nothing |
| ClientLink.SettledStep | lib/NimBLE-Arduino/src/NimBLEClient.cpp:318-325 | a pending connect callback implies CONNECTED or DISCONNECTING with a stored handle; a step breaks that exactly when the error path runs while it is pending |
| ClientLink.SettledRun | lib/NimBLE-Arduino/src/NimBLEClient.cpp:249-325 | so it holds in every state along a run iff no such step occurs in it |
| ClientLink.ConnectWhenDisconnectedIsSafe | lib/NimBLE-Arduino/src/NimBLEClient.cpp:261-265 | connect() called while disconnected never breaks it |
| ClientLink.RejectedConnectDisturbs | lib/NimBLE-Arduino/src/NimBLEClient.cpp:261-265 | a rejected connect() on a fresh link makes onConnect fire on a client that counts as disconnected |
| ClientLink.TimeoutDuringDisconnectDisturbs | lib/NimBLE-Arduino/src/NimBLEClient.cpp:297-305 | so does a timeout during another task's disconnect() |
| ClientLink.Client.StartConnectionAttempt | lib/NimBLE-Arduino/src/NimBLEClient.cpp:176-235 | asks again only after a busy answer whose scan could be stopped |
| ClientLink.Client.ConnectTo | lib/NimBLE-Arduino/src/NimBLEClient.cpp:249-325 | the object's connect() is the specified step |
| ClientLink.Client.WaitEnds | lib/NimBLE-Arduino/src/NimBLEClient.cpp:297-325 | the timed-out wait is the specified step |
| ClientLink.Client.CompleteConnectEstablished | lib/NimBLE-Arduino/src/NimBLEClient.cpp:971-987 | onConnect once, then no longer pending |
| ClientLink.Client.ConnectEstablishedTimer | lib/NimBLE-Arduino/src/NimBLEClient.cpp:989-996 | only while connected |
| ClientLink.Client.HandleConnect | lib/NimBLE-Arduino/src/NimBLEClient.cpp:1104-1149 | the connect event is the specified step |
| ClientLink.Client.HandleDisconnect | lib/NimBLE-Arduino/src/NimBLEClient.cpp:1020-1102 | the disconnect event is exactly the specified step (what it retries and tells: RetriesAreSilent and the rows behind it) |
| ClientLink.Client.HandleTraffic | lib/NimBLE-Arduino/src/NimBLEClient.cpp:1167-1174 | an event of the link completes its establishment |
| ClientLink.Client.DisconnectLink | lib/NimBLE-Arduino/src/NimBLEClient.cpp:379-394 | DISCONNECTING iff the stack took the command |
| ClientLink.Client.SetConnectRetries | lib/NimBLE-Arduino/src/NimBLEClient.cpp:1003-1005 | at most seven |
| ClientLink.Client.DeliverAll | lib/NimBLE-Arduino/src/NimBLEClient.cpp:249-1149 | any run of calls and events on the object meets the attempt bound and the order of each link's moments |
| BondMigration.MakeBondKey | lib/NimBLE-Arduino/src/NimBLEBondMigration.h:219-222 | every key fits the 16-byte buffer |
| BondMigration.KeysAreDistinct | lib/NimBLE-Arduino/src/NimBLEBondMigration.h:219-222 | no two slots share a key |
| BondMigration.ConversionKeepsFields | lib/NimBLE-Arduino/src/NimBLEBondMigration.h:261-276 | both conversions keep every v1 field, and back again is the identity on v1 records |
| BondOutcome.ToCurrentConverts | lib/NimBLE-Arduino/src/NimBLEBondMigration.h:224-286 | after a run to the current format every slot that held a v1 record holds a current one with the same fields, the bond count of its slot and sign counter 0; empty slots, current records and blobs of unknown size are as before |
| BondOutcome.ToV1Converts | lib/NimBLE-Arduino/src/NimBLEBondMigration.h:288-347 | after a run to v1 every slot that held a current record holds a v1 one with the same fields, and all others are as before |
| BondOutcome.LocalKeysUpgraded | lib/NimBLE-Arduino/src/NimBLEBondMigration.h:349-383 | to the current format the first local key slot holds an all-zero address and the fixed key, whatever it held, and the others stay |
| BondOutcome.LocalKeysErased | lib/NimBLE-Arduino/src/NimBLEBondMigration.h:385-409 | to v1 the local key slots of the run are empty, and the others stay |
| BondOutcome.MigrationWrites | lib/NimBLE-Arduino/src/NimBLEBondMigration.h:411-493 | what a run counts as writes is what it changes: each slot that comes out different, once, and the local key, which is always written |
| BondMigration.MigrationIsRestartable | lib/NimBLE-Arduino/src/NimBLEBondMigration.h:411-493 | a run cut short after any part of its work and run again gives the store of one clean run; twice is once |
| BondMigration.ToV1UndoesToCurrent | lib/NimBLE-Arduino/src/NimBLEBondMigration.h:224-347 | to-v1 after to-current restores every v1 record, turns current ones into v1, and leaves unknown sizes and empty slots |
| BondMigration.UnknownSizesUntouched | lib/NimBLE-Arduino/src/NimBLEBondMigration.h:244-252 | a blob of unknown size in a slot stays |
| BondMigration.OtherKeysUntouched | lib/NimBLE-Arduino/src/NimBLEBondMigration.h:411-493 | keys that are no slot stay |
| BondStore.Nvs.EntryToCurrent | lib/NimBLE-Arduino/src/NimBLEBondMigration.h:224-286 | one slot done as specified (what that leaves: ToCurrentConverts), or untouched if any storage call fails |
| BondStore.Nvs.EntryToV1 | lib/NimBLE-Arduino/src/NimBLEBondMigration.h:288-347 | likewise back |
| BondStore.TallyExact | lib/NimBLE-Arduino/src/NimBLEBondMigration.h:224-347 | each blob looked at counts as scanned and as one of converted, if it changes, skipped, if its size is unknown, or already in the target format |
| BondStore.Nvs.LocalIrkToCurrent | lib/NimBLE-Arduino/src/NimBLEBondMigration.h:349-383 | the fixed local key is written whatever was there |
| BondStore.Nvs.LocalIrkToV1 | lib/NimBLE-Arduino/src/NimBLEBondMigration.h:385-409 | a local key is erased |
| BondStore.Nvs.SecuritySlots | lib/NimBLE-Arduino/src/NimBLEBondMigration.h:426-450 | the slots are done in order, all of them or a first part, with the conversion counter and the uncommitted state that number of writes implies |
| BondStore.Nvs.MigrateBondStore | lib/NimBLE-Arduino/src/NimBLEBondMigration.h:411-493 | success means all work done; it leaves something uncommitted iff the number of writes is a multiple of 65536 and something was written now or before; failure leaves a first part done, and a rerun completes the same store; without failing calls it commits iff that number is no such multiple |
| BondMigration.NothingLeftToWrite | lib/NimBLE-Arduino/src/NimBLEBondMigration.h:288-347 | after the work of a run to v1, another one has nothing to write |
| BondStore.RerunNeverCommits | lib/NimBLE-Arduino/src/NimBLEBondMigration.h:452-493 | a first run to v1 that fails only at its commit, then a second one: the second succeeds and everything stays uncommitted |
| BondStore.UncommittedRerun | lib/NimBLE-Arduino/src/NimBLEBondMigration.h:452-493 | a fresh store with one current record on which that happens |
| BondMigration.FullStoreWraps | lib/NimBLE-Arduino/src/NimBLEBondMigration.h:426-493 | 32768 slot pairs of current records take exactly 65536 writes, which the counter shows as none |
| PinSweep.NextPermutation | src/psx_pin_sweep.cpp:55-73 | for any array, duplicates allowed: the exact lexicographic successor, or false and unchanged iff already the greatest arrangement |
| PinSweep.FindPivot | src/psx_pin_sweep.cpp:56-59 | the last rise, or none iff the array is non-increasing |
| PinSweep.FindRaised | src/psx_pin_sweep.cpp:62-64 | the last larger value behind the pivot |
| PinSweep.ReverseFrom | src/psx_pin_sweep.cpp:66-71 | the tail reversed in place |
| Permutations.SuccessorShape | src/psx_pin_sweep.cpp:55-73 | swapping the pivot and reversing the tail leaves nothing in between |
| PinSweep.PsxPinSweep | src/psx_pin_sweep.cpp:77-130 | probes increasing arrangements once each; false means all 120 were rejected, defaults active and the saved mapping untouched; true persists the first accepted one |
| PinSweep.CompleteListLength | src/psx_pin_sweep.cpp:77-130 | a complete search of n distinct pins probes n! arrangements |
| PinSweep.RoomForOneMore | src/psx_pin_sweep.cpp:77-130 | the search terminates: never more than 120 probes |
| PinSweep.SweepThenReboot | src/pins.cpp:16-34 | the next boot uses the accepted mapping, or what was saved before |
| PinSweep.Pins.Set | src/pins.cpp:36-54 | the mapping becomes active and is saved only on request |
| PinSweep.Pins.Reset | src/pins.cpp:56-69 | defaults active, saved mapping erased |
| PinSweep.Pins.Begin | src/pins.cpp:16-34 | a saved mapping becomes active at boot |
| PinSweep.MissingKeysDefault | src/pins.cpp:22-29 | a saved mapping without its keys is the built-in one |
| PowerManager.Manager.Begin | src/power_manager.cpp:25-29 | awake, stamped with the clock |
| PowerManager.Manager.WakeUp | src/power_manager.cpp:31-37 | awake and freshly stamped |
| PowerManager.Manager.DoUpdate | src/power_manager.cpp:39-51 | the update is the specified step |
| PsxMeaning.QuietUpdate | src/power_manager.cpp:8-23 | an update counts as quiet iff there was no analog event, the state is unchanged, no button bit is set and every stick is within eight steps of the centre |
| PowerManager.StampIsLastActivity | src/power_manager.cpp:25-51 | the stamp is the real last activity modulo 2^32 |
| PowerManager.NeverSleepsEarly | src/power_manager.cpp:39-51 | asleep only after five real minutes without activity, on every run with a monotone clock |
| PowerManager.SleepIsExact | src/power_manager.cpp:39-51 | with updates at most 2^32 - 300000 ms apart, asleep iff idle for five real minutes |
| PowerManager.AsleepUntilActivity | src/power_manager.cpp:39-51 | asleep until activity or a wake call |
| PowerManager.IdleTimeRestarts | src/power_manager.cpp:31-51 | activity and wake calls start the idle time anew, whatever went before: over the quiet updates that follow, the device is asleep iff one of them came five minutes of the clock later |
| PowerManager.IdleDecisionExact | src/power_manager.cpp:46-49 | an idle update decides rightly except exactly after a full wrap with a small remainder |
| PowerManager.WrapHidesIdleness | src/power_manager.cpp:46-49 | that exception happens |
| PowerManager.DecodedButtons | src/psx_decode.cpp:16-22 | the low sixteen button bits are the complement of the wire word |
| PsxMeaning.DecodeTransmitted | src/psx_decode.cpp:16-29 | decoding undoes the transmission: buttons active low, right stick first |
| PsxMeaning.RejectedPacket | src/psx_decode.cpp:18 | a packet that does not start with 0xFF changes nothing |
| PowerManager.DecodedAlwaysHasInput | src/psx_decode.cpp:16-30 | the upper sixteen are set, so a decoded state counts as input |
| PowerManager.DecodedNeverSleeps | src/psx_decode.cpp:16-30 | updates with decoded states keep the device awake for good |

## Left out

- AdvertisementData.AdvertisementData.RemoveServiceUuid: after a match outside a list of more than one UUID only the bytes are promised, because they may no longer form fields; the other calls require a payload that does.
- AdvertisementData.AdvertisementData.SetFlags: requires that an empty flags field to be patched is not the last field, because the program then writes behind the payload; after a patch of an empty field only the bytes are promised.
- AdvertisementData.AdvertisementData.SetServiceData: requires that a total over 255 bytes does not look like one of at most 31 in eight bits, because the program then overruns its buffer.
- BleGamepad.Gamepad.Begin: the first call on a fresh object, because a second one would append to the old descriptor.
- BleGamepad.Gamepad.Press: buttons 1 to 128, because the source indexes its 16-byte store unchecked.
- BondStore.Nvs.MigrateBondStore: requires fewer than 65535 entries, because the 16-bit slot loop does not end at 65535.
- ClientLink.Client.DeliverAll: the retry limit does not change during the run.
- Scan.Scanner.Run: the events of one fresh scanner with fixed settings, user callbacks not calling back into it.
- Stream.StreamServer.Run: one drainer at a time, and reading the RX queue is not among the events.
- Gamepad: device names, battery and UART services, the connection task, and setters other than thumbs and first hat, which only assign.
- Gamepad: the axis, simulation, sensor and hat fields are sequences indexed by control instead of one field each; straight-line byte writes of one short item are one call.
- Gamepad: configurations outside the stated scope, where the fixed buffers overflow.
- Scan engine: payload contents of stored devices, extended advertising, statistics, and `start`.
- Streams: buffer allocation failures, mutex time-outs, and the client stream's write policy.
- Attribute values: time stamps, string conversions and moves.
- Advertising: `addTxPower`, service data lookup, beacons; bytes behind the end of the payload, which `removeServiceUUID` may compare against and the model treats as no match.
- GATT: properties, permissions and access callbacks in the tables; the same object added to two parents, because services hold their characteristics by value; peer bookkeeping.
- GATT: registrations that do not come in definition order, and user services with the UUID of a built-in one.
- Client: self-deletion, MTU exchange, security, attribute discovery, host reset and terminate failures.
- Client: release of the blocked task and the return of `connect()` are one step with the event that releases it.
- Bonds: the byte layout and padding of the two records; local IRK entries in round trips, which are overwritten and erased by design; the report and logging functions.
- Pin sweep: the bus traffic of a probe and the restart; the preferences failing half-way through a save.
- Idle sleep: display and light control.
- `src/sd_update.cpp`, `NimBLEExtAdvertising`, `NimBLEL2CAPChannel`, the Tauri client, GPIO and serial code.
