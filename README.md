# RV Smart Control — a verified model of the firmware core

RV Smart Control is ESP32 firmware for a camper van's control panel. It
reads a Hella IBS battery sensor over a LIN bus, stores its settings in an
emulated EEPROM, takes user input from a CJMCU-111 rotary encoder, draws
compressed icons on a TFT display and blanks the display after a period of
inactivity. This project models the parts of that firmware that hold logic
worth proving, one Dafny module per source component:

- `Lin` (lin.dfy) models the LIN bus master `LinDriver`:
  - the protected identifier with its two parity bits;
  - the inverted end-around-carry checksum, classic or enhanced;
  - `send`, which writes break, sync, identifier, data and checksum;
  - `recv`, which drains the input, sends a header and then polls for the
    slave response. All its polls in 100 µs steps share one timeout budget.

  The serial port is an output trace of wire symbols and a scripted input
  queue. Each input byte says after how many polls it becomes readable.
- `Ibs` (hella_ibs.dfy) models the `HellaIbs` state machine. It discovers
  the sensor variant from a catalog of four, asks for the battery type,
  reads telemetry frames 2, 5 and 6 in a cycle, and writes the nominal
  capacity and battery type on request. Every LIN operation becomes an
  entry of a bus trace. The result and reply of a receive are inputs of
  `Tick`. Telemetry is kept in the frames' raw integer units.
- `Crc8` (crc8.dfy) models the CRC-8 that guards each EEPROM slot: the
  reflected polynomial 0x8C from seed 0xA5, bit by bit.
- `Store` (persistence.dfy) models `Persistence`:
  - eight slots in a 256-byte EEPROM image, each sealed with its CRC in
    its last byte;
  - boolean and string reads and writes;
  - the check-up, the erase and the start-up loop.
- `Rotary` (rotary.dfy) models the `RotaryCJMCU_111` interrupt state
  machine. It tracks left and right detents, debounced short pushes and
  long presses, on 32-bit counters and timestamps.
- `MenuGfx` (menu_item.dfy) models two helpers in MenuItem.h:
  - `RUN_LENGTH_DECODE`, run-length icon decoding with repeat and literal
    headers, including its 8-bit counter arithmetic;
  - `getColorGradient`, the RGB565 colour gradient, with C's truncating
    division.
- `Power` (power_saver.dfy) models `PowerSaver`, the inactivity timer with
  its return-to-main and sleep callbacks. The timer subtracts the 32-bit
  millisecond clock from a 64-bit reset time. Once the clock wraps, the
  difference is close to 2^64, so the return-to-main callback fires early
  (`Power.WrapFiresEarly`).

Each component that changes state in place is a class. Its methods are
proved against a pure transition function: `Model() == Step(old(Model()), …)`,
`eeprom[..] == Committed(old(eeprom[..]), …)`, and so on. The properties the
firmware relies on are proved as lemmas about those functions. Clocks and
pin levels are parameters of the operations.

Two details of the code that the model follows:

- Frame 2 voltage is read little-endian, `f[4] * 256 + f[3]`
  (src/HellaIbs.cpp:142).
- The LIN checksum of the data followed by its own checksum gives 0
  (`Lin.ChecksumSelfCheck`), because the code inverts the folded sum
  (src/LinDriver.cpp:86).

## Model

| member | source | states |
|---|---|---|
| Lin.BitExtract | include/LinDriver.h:80-82 | the result is bit `shift` of the data, and is 0 or 1 |
| Lin.AddrParity | src/LinDriver.cpp:89-95 | P0 (ID0^ID1^ID2^ID4) goes in bit 6 and the inverted P1 (ID1^ID3^ID4^ID5) in bit 7; the low six bits are clear |
| Lin.PidBits | src/LinDriver.cpp:100 | the identifier byte keeps the six identifier bits and carries exactly the parity bits above them |
| Lin.ParityIgnoresHighBits | src/LinDriver.cpp:89-95 | bits 6 and 7 of the address influence neither the parity nor the identifier byte |
| Lin.PidBitsValid | src/LinDriver.cpp:100 | every identifier byte the master sends passes a slave's parity check |
| Lin.PidDetectsSingleBitErrors | src/LinDriver.cpp:89-95 | flipping any one of the eight bits of an identifier byte makes the parity check fail |
| Lin.PidRoundTrip | src/LinDriver.cpp:100 | for a six-bit identifier, the identifier byte modulo 64 gives the identifier back, and the byte passes the parity check |
| Lin.LowSixBits | src/LinDriver.cpp:100 | masking with 0x3F equals the remainder modulo 64 |
| Lin.PidDiagnosticVectors | src/LinDriver.cpp:100-102 | the diagnostic identifiers 0x3C and 0x3D go on the wire as 0x3C and 0x7D |
| Lin.EndAroundCarry | src/LinDriver.cpp:84-85 | folding the carries gives a byte congruent to the sum modulo 255, and zero only for a zero sum |
| Lin.Checksum | src/LinDriver.cpp:79-87 | start plus data plus checksum is a multiple of 255; the checksum is 0xFF only for an all-zero sum |
| Lin.ChecksumSelfCheck | src/LinDriver.cpp:79-87 | the checksum of the data followed by its own checksum, from the same start, is 0 |
| Lin.ChecksumStart | src/LinDriver.cpp:101-102 | the seed is 0 for LIN 1.x and for the diagnostic identifier, and the protected identifier otherwise |
| Lin.DataChecksum | src/LinDriver.cpp:80-87 | for the byte seeds both callers pass, the summing loop and the carry-folding loop compute `Checksum`, and the 16-bit sum never wraps |
| Lin.Bytes | src/LinDriver.cpp:106 | the data bytes go on the wire one by one, in order |
| Lin.SendFrame | src/LinDriver.cpp:98-108 | a frame is break, sync and identifier byte, then the data, then the checksum seeded as `send` seeds it |
| Lin.SendParseRoundTrip | src/LinDriver.cpp:98-108 | a slave that checks break, sync, parity and checksum parses any frame sent to a six-bit identifier back to that identifier and that data |
| Lin.Drain | src/LinDriver.cpp:115-118 | exactly the bytes that are readable at once are discarded, and the input after them is kept |
| Lin.WaitsMonotone | src/LinDriver.cpp:127-144 | the polls counted for a byte never decrease with its position |
| Lin.InTimeEarlier | src/LinDriver.cpp:127-144 | a byte read in time implies every earlier byte was read in time |
| Lin.Arrived | src/LinDriver.cpp:127-139 | the bytes read form the longest prefix of bytes that came before the shared timeout |
| Lin.Skipped | src/LinDriver.cpp:135-138 | the dropped bytes are exactly the leading run of 0x80/0x55 values |
| Lin.Stored | src/LinDriver.cpp:135-137 | buffer positions from the first kept byte up to the last byte read hold the input; all others keep their old value |
| Lin.PollBudget | src/LinDriver.cpp:129-133 | the loops give up after the first multiple of 100 µs that reaches the timeout |
| Lin.PollBudgetUnique | src/LinDriver.cpp:129-133 | that poll count is unique |
| Lin.Receive | src/LinDriver.cpp:111-159 | the result is 0xFF only when all n data bytes and the checksum byte came in time; otherwise it is at most n + 1 |
| Lin.ReceiveNothing | src/LinDriver.cpp:127-133 | when nothing arrives in time, `recv` returns 0 and leaves the buffer unchanged |
| Lin.Respond | src/LinDriver.cpp:127-146 | a slave response becomes the input queue, byte by byte with its delays |
| Lin.ReceiveGoodResponse | src/LinDriver.cpp:111-159 | a response whose data and checksum arrive in time returns 0xFF and lands in the buffer unchanged, unless its first byte equals 0x80 or 0x55 |
| Lin.ReceiveDropsLeadingSyncValue | src/LinDriver.cpp:135-138 | a genuine first data byte of 0x55 is dropped: the buffer keeps its old byte and `recv` reports a bad checksum (result 1) |
| Lin.ReceiveChecked | src/LinDriver.cpp:140-155 | once the checksum byte came in time, the result is 0xFF on a checksum match and otherwise the count of kept bytes plus one |
| Lin.ReceiveTimedOut | src/LinDriver.cpp:127-144 | a timeout returns the number of bytes kept so far and leaves the rest of the input after the partial wait |
| Lin.FrameTimeout | src/LinDriver.cpp:42-44 | the timeout is 2 × 14 × 124 units of `100000 / baudrate` |
| Lin.FrameTimeoutAt19200 | src/LinDriver.cpp:42-44 | at the default 19200 baud the timeout is 17360 µs |
| Lin.LinDriver.constructor | src/LinDriver.cpp:29-36 | a driver keeps its baud rate, is not begun, and has written nothing |
| Lin.LinDriver.Begin | src/LinDriver.cpp:38-47 | the port is begun, the timeout is `FrameTimeout(baudrate)`, and transmit-enable goes high |
| Lin.LinDriver.SendBreak | src/LinDriver.cpp:51-77 | the break is appended to the wire |
| Lin.LinDriver.WriteHeader | src/LinDriver.cpp:120-123 | break, sync and protected identifier are appended, and the identifier byte is returned |
| Lin.LinDriver.Send | src/LinDriver.cpp:98-108 | exactly `SendFrame` is appended to the wire |
| Lin.LinDriver.BusSleep | src/LinDriver.cpp:161-164 | the go-to-sleep frame (0x00 and seven 0xFF, to 0x3C) is appended |
| Lin.LinDriver.PollForByte | src/LinDriver.cpp:129-134 | the next byte is read exactly when it arrives before the running count reaches the timeout; otherwise the polls made use up the budget |
| Lin.LinDriver.PollAt | src/LinDriver.cpp:129-134 | that poll reads byte i exactly when `InTime` holds for it |
| Lin.LinDriver.DrainInput | src/LinDriver.cpp:115-118 | the input becomes `Drain` of the input |
| Lin.LinDriver.ReadData | src/LinDriver.cpp:127-139 | the data loop reads an in-time prefix, and stores and counts the bytes after the skipped header echoes |
| Lin.LinDriver.ReadResponse | src/LinDriver.cpp:127-147 | the data loop followed by the poll for the checksum byte |
| Lin.LinDriver.ChecksumMatches | src/LinDriver.cpp:148-152 | the checksum matches exactly when `Checksum` with the diagnostic or LIN 1.x seed equals the received byte |
| Lin.LinDriver.ReadAndCheck | src/LinDriver.cpp:127-155 | result, buffer and remaining input are those of `Receive` |
| Lin.LinDriver.Recv | src/LinDriver.cpp:111-159 | sends the header and returns the result, buffer and remaining input of `Receive` over the drained input; transmit-enable ends high |
| Ibs.BatteryCode | include/HellaIbs.h:42-46 | the battery types are encoded as 0x0A, 0x14 and 0x1E |
| Ibs.BatteryCodeInjective | include/HellaIbs.h:42-46 | distinct battery types have distinct codes |
| Ibs.CatalogShape | src/HellaIbs.cpp:28-35 | the catalog has four entries, and every frame they read is at most 8 bytes long |
| Ibs.Voltage | src/HellaIbs.cpp:142 | frame 2 voltage is a 16-bit value |
| Ibs.Current | src/HellaIbs.cpp:143 | frame 2 current is the 24-bit little-endian value minus 2000000 |
| Ibs.Temperature | src/HellaIbs.cpp:144 | the temperature is byte 5 halved (rounded down) minus 40, between -40 and 87 °C |
| Ibs.Half | src/HellaIbs.cpp:158-159 | state of charge and health are the raw byte halved, rounded down |
| Ibs.AvgRi | src/HellaIbs.cpp:161 | the internal resistance is a 16-bit value |
| Ibs.Capacity | src/HellaIbs.cpp:174-175 | the capacities are 16-bit values |
| Ibs.EncodeFrame2 | src/HellaIbs.cpp:142-145 | a reference encoder for frame 2 produces 8 bytes |
| Ibs.Frame2RoundTrip | src/HellaIbs.cpp:142-145 | decoding an encoded frame 2 gives back voltage, current, temperature and the error flag |
| Ibs.SixteenBitFields | src/HellaIbs.cpp:142-175 | every 16-bit field gives back its low and high bytes |
| Ibs.CurrentBytes | src/HellaIbs.cpp:143 | the current plus 2000000 gives back its three bytes |
| Ibs.Frame2DecodeInjective | src/HellaIbs.cpp:142-143 | frames with equal voltage and current agree on bytes 0 to 4 |
| Ibs.SetRequest | src/HellaIbs.cpp:23-25 | patching one request buffer leaves the other buffers and templates unchanged |
| Ibs.Elapsed | src/HellaIbs.cpp:60 | the elapsed time is truncated to 16 bits, and is exact below 65536 ms |
| Ibs.WithNad | src/HellaIbs.cpp:110 | patching a template sets byte 0 to the NAD and keeps bytes 1 to 7 |
| Ibs.CapacityByte | src/HellaIbs.cpp:210 | the capacity is written as the int16 value converted to uint8 |
| Ibs.Step | src/HellaIbs.cpp:59-242 | every call of `loop` preserves the invariant `Valid`: a candidate index inside the catalog during discovery, and the answering index afterwards |
| Ibs.NoSensor | src/HellaIbs.cpp:65-76 | the no-sensor state preserves the invariant |
| Ibs.AskCandidate | src/HellaIbs.cpp:78-85 | the candidate request preserves the invariant |
| Ibs.CandidateAnswer | src/HellaIbs.cpp:87-106 | the candidate answer preserves the invariant |
| Ibs.AskBatteryType | src/HellaIbs.cpp:108-114 | the battery-type request preserves the invariant |
| Ibs.BatteryTypeAnswer | src/HellaIbs.cpp:116-127 | the battery-type answer preserves the invariant |
| Ibs.NextRead | src/HellaIbs.cpp:146-178 | each read moves on to another connected state |
| Ibs.Fetch | src/HellaIbs.cpp:135-181 | the three frame reads preserve the invariant |
| Ibs.Decode | src/HellaIbs.cpp:142-177 | each frame changes only the telemetry fields it owns; the decoded voltage and capacities are 16-bit, the temperature lies in -40..87, soc and soh below 128, the nominal capacity is a byte |
| Ibs.Pause | src/HellaIbs.cpp:183-189 | the pause preserves the invariant |
| Ibs.ConfigTemplate | src/HellaIbs.cpp:198-234 | each configuring state sends an 8-byte template |
| Ibs.NextConfig | src/HellaIbs.cpp:198-234 | each configuring step moves on to a connected state |
| Ibs.ConfigSend | src/HellaIbs.cpp:198-234 | the configuration writes preserve the invariant |
| Ibs.Name | src/HellaIbs.cpp:255-261 | the name is the connected catalog entry's name, or "unknown" when no sensor is connected |
| Ibs.WaitingChangesNothing | src/HellaIbs.cpp:60-234 | before MESSAGE_DELAY has passed, a state that sends or receives changes nothing |
| Ibs.NoSensorResets | src/HellaIbs.cpp:65-76 | without a sensor the candidate is forgotten; discovery restarts exactly after more than 1000 ms, and only when a driver is present |
| Ibs.PreparingAdvances | src/HellaIbs.cpp:131-196 | the preparing states move on at once; PrepareConfig clears the configuration request |
| Ibs.DiscoverySendsCandidate | src/HellaIbs.cpp:78-85 | discovery sends the candidate's own request buffer, patched with its NAD, to 0x3C |
| Ibs.DiscoveryNoAnswer | src/HellaIbs.cpp:87-98 | with no answer the next candidate is tried, and after the fourth the sensor is lost |
| Ibs.DiscoveryAnswer | src/HellaIbs.cpp:87-106 | any nonzero result connects the candidate that was asked, records byte 7 as the variant, and names it |
| Ibs.BatteryTypeRequestUsesConnectedNad | src/HellaIbs.cpp:108-114 | the battery-type request goes to the connected sensor's NAD |
| Ibs.ReadFailureKeepsTelemetry | src/HellaIbs.cpp:116-181 | a failed receive drops the sensor and leaves every telemetry value as it was |
| Ibs.ReadSuccess | src/HellaIbs.cpp:135-181 | a successful read sets exactly the fields its frame owns from the reply bytes (frame 2: voltage, current, temperature, error bit 7 of byte 6; frame 5: soc, soh, raw optimum charge byte, average resistance; frame 6: available and dischargeable capacity, nominal capacity, calibrated bit 0 of byte 5), leaves every other field unchanged, and moves to the next frame of the cycle |
| Ibs.PauseServesConfigurationFirst | src/HellaIbs.cpp:183-189 | a pending configuration comes before the next read, which starts after 2000 ms, or after 200 ms in high-speed mode |
| Ibs.ConfigSendStep | src/HellaIbs.cpp:198-234 | a due configuring step sends its frame to the connected NAD and changes nothing but templates, bus and state |
| Ibs.ConfigurationSequence | src/HellaIbs.cpp:193-234 | five due calls from PrepareConfig send exactly the four configuration frames, in order, then ask for the battery type again, keeping the telemetry |
| Ibs.HellaIbs.constructor | include/HellaIbs.h:117-120 | a new object has no sensor, no driver and no pending configuration, and satisfies the invariant |
| Ibs.HellaIbs.Setup | src/HellaIbs.cpp:50-52 | only the driver link is set |
| Ibs.HellaIbs.Configure | src/HellaIbs.cpp:248-252 | records the requested capacity and battery type and raises the configuration request |
| Ibs.HellaIbs.SetHighSpeedCommunication | include/HellaIbs.h:131-133 | changes only the high-speed flag |
| Ibs.HellaIbs.GetName | src/HellaIbs.cpp:255-261 | returns `Name` of the object's state |
| Ibs.HellaIbs.GetSoc | include/HellaIbs.h:135-137 | returns the state of charge |
| Ibs.HellaIbs.GetSoh | include/HellaIbs.h:139-141 | returns the state of health |
| Ibs.HellaIbs.IsCalibrated | include/HellaIbs.h:147-149 | returns the calibrated flag |
| Ibs.HellaIbs.IsError | include/HellaIbs.h:151-153 | returns the sensor error flag |
| Ibs.HellaIbs.GetBatteryType | include/HellaIbs.h:155-157 | returns the battery type code the sensor reported |
| Ibs.HellaIbs.GetNominalCapacity | include/HellaIbs.h:179-181 | returns the nominal capacity |
| Ibs.HellaIbs.IsAvailable | include/HellaIbs.h:187-189 | returns whether a sensor is connected |
| Ibs.HellaIbs.ChangeLoopState | src/HellaIbs.cpp:54-57 | sets the state and the time it was entered |
| Ibs.HellaIbs.SendPatched | src/HellaIbs.cpp:110-111 | patches the NAD in and appends the send to the bus |
| Ibs.HellaIbs.ReceiveInto | src/HellaIbs.cpp:118-119 | records the receive, its result and the frame it filled |
| Ibs.HellaIbs.Tick | src/HellaIbs.cpp:59-242 | one call of `loop` is `Step` of the state, and keeps the invariant |
| Ibs.HellaIbs.TickNoSensor | src/HellaIbs.cpp:65-76 | the state becomes `NoSensor` of the old state |
| Ibs.HellaIbs.TickAskCandidate | src/HellaIbs.cpp:78-85 | the state becomes `AskCandidate` of the old state |
| Ibs.HellaIbs.TickCandidateAnswer | src/HellaIbs.cpp:87-106 | the state becomes `CandidateAnswer` of the old state |
| Ibs.HellaIbs.TickAskBatteryType | src/HellaIbs.cpp:108-114 | the state becomes `AskBatteryType` of the old state |
| Ibs.HellaIbs.TickBatteryTypeAnswer | src/HellaIbs.cpp:116-127 | the state becomes `BatteryTypeAnswer` of the old state |
| Ibs.HellaIbs.TickFetch | src/HellaIbs.cpp:135-181 | the state becomes `Fetch` of the old state |
| Ibs.HellaIbs.TickPause | src/HellaIbs.cpp:183-189 | the state becomes `Pause` of the old state |
| Ibs.HellaIbs.TickConfigSend | src/HellaIbs.cpp:198-234 | the state becomes `ConfigSend` of the old state |
| Crc8.Step | src/Persistence.cpp:225-230 | one round shifts the register right and folds in 0x8C exactly when the low bits of register and data differ: bit 7 of the result is set exactly then, and the bits outside the polynomial are the shifted register |
| Crc8.Bits | src/Persistence.cpp:224-231 | the inner loop: `n` rounds, the data shifting right after each; `Crc8.BitsAsReg` proves it equal to the same rounds on the register seen as eight separate bits |
| Crc8.BitsAsReg | src/Persistence.cpp:224-231 | the inner loop's rounds on the byte equal the same rounds on the register seen as eight bits, where 0x8C flips bits 2, 3 and 7 of the shifted register |
| Crc8.Byte | src/Persistence.cpp:223-231 | one data byte absorbed in eight rounds; `Crc8.ByteSelf` and the injectivity lemmas state what it does |
| Crc8.Fold | src/Persistence.cpp:222-232 | the bytes absorbed in order from the given register; `Crc8.FoldAppend` and `Crc8.FoldInjectiveInState` state what it does |
| Crc8.Checksum | src/Persistence.cpp:219-236 | the CRC of a slot's data bytes from the seed 0xA5; `Crc8.ResidueZero` and `Crc8.SingleByteErrorDetected` state what it guarantees |
| Crc8.SingleByteErrorDetected | src/Persistence.cpp:219-236 | changing any single byte of a slot's data changes its CRC |
| Crc8.ResidueZero | src/Persistence.cpp:219-236 | data followed by a byte gives a zero CRC register exactly when that byte is the data's CRC |
| Crc8.ByteInjectiveInData | src/Persistence.cpp:224-231 | from the same register, different data bytes give different registers |
| Crc8.ByteInjectiveInState | src/Persistence.cpp:224-231 | different registers stay different after the same data byte |
| Crc8.FoldInjectiveInState | src/Persistence.cpp:222-232 | different registers stay different after the same data bytes |
| Crc8.ByteSelf | src/Persistence.cpp:224-231 | absorbing the register's own value clears it |
| Crc8.FoldAppend | src/Persistence.cpp:222-232 | the CRC of data plus one byte is that byte absorbed into the data's CRC |
| Store.Total | src/Persistence.cpp:22-34 | the eight slots take 150 bytes |
| Store.Monotone | src/Persistence.cpp:148-155 | slot start addresses increase with the slot number |
| Store.Layout | src/Persistence.cpp:148-155 | each slot ends before the next one starts, and all of them end at byte 150 |
| Store.SlotsDisjoint | src/Persistence.cpp:143-162 | every slot lies inside the 256-byte EEPROM, and no two slots share a byte |
| Store.CommitVerifies | src/Persistence.cpp:184-189 | after a commit the slot verifies, and no other byte has changed |
| Store.CommitKeepsOthers | src/Persistence.cpp:184-189 | a commit leaves the verdict of every disjoint slot unchanged |
| Store.VerifiesAsResidue | src/Persistence.cpp:195 | a slot passes the check exactly when the CRC over all its bytes, checksum included, is zero |
| Store.CorruptionDetected | src/Persistence.cpp:191-206 | a verified slot fails the check once any single one of its bytes changes |
| Store.BooleanRoundTrip | src/Persistence.cpp:83-122 | a boolean written and committed reads back as written, and the slot verifies |
| Store.StringRoundTrip | src/Persistence.cpp:91-141 | a string write of fewer bytes than the slot reads back unchanged, and the slot verifies |
| Store.FullLengthWriteLosesLastByte | src/Persistence.cpp:93-100 | as written, a requested length of 0 or of at least the slot length stores the whole slot, and the bytes read back differ from those written whenever the last one differs from the CRC of the others |
| Store.BoundedStringRoundTrip | src/Persistence.cpp:91-105 | with the count clamped to the data part, every write stores at least one byte, reads back unchanged, and verifies |
| Store.ErasedFiller | src/Persistence.cpp:208-217 | during an erase the first byte of every slot keeps the 0xFE filler |
| Store.ErasedVerifies | src/Persistence.cpp:214-216 | a slot sealed during an erase keeps verifying as later slots are sealed |
| Store.EraseRestores | src/Persistence.cpp:208-217 | after an erase every slot verifies and both boolean slots read false |
| Store.LoopStep | src/Persistence.cpp:51-76 | the start-up loop keeps the image 256 bytes long |
| Store.StartupSettles | src/Persistence.cpp:51-76 | from Checkup, three loop passes end in Idle; a valid image is kept and any other is replaced by the erased image; either way every slot then verifies, and Idle stays put |
| Store.Persistence.constructor | include/Persistence.h:58-59 | a new store holds the flash contents, with a zero address table |
| Store.Persistence.Setup | src/Persistence.cpp:37-43 | lays out the slots and starts the loop at Checkup |
| Store.Persistence.CalculateSlotConstraints | src/Persistence.cpp:143-162 | the address table holds the running sums of the slot lengths, computed in an 8-bit counter |
| Store.Persistence.SlotLength | src/Persistence.cpp:78-80 | every slot is 2 to 65 bytes long |
| Store.Persistence.CalculateChecksum | src/Persistence.cpp:219-236 | the bitwise loop computes the CRC of the slot's data bytes |
| Store.Persistence.Commit | src/Persistence.cpp:184-189 | the image becomes `Committed`; the flash commit's result is returned |
| Store.Persistence.WriteSlotBoolean | src/Persistence.cpp:83-89 | the image becomes `BooleanWritten`; returns 1 when the flash commit succeeds, else 0 |
| Store.Persistence.ReadSlotBoolean | src/Persistence.cpp:116-122 | true exactly when the slot's first byte is 0x01 |
| Store.Persistence.CopyIn | src/Persistence.cpp:96-99 | the bytes are copied to the slot from its start |
| Store.Persistence.WriteSlot | src/Persistence.cpp:91-105 | as written: the count is clamped to the whole slot, the bytes are copied and the slot is sealed; returns the count, or 0 when the commit fails |
| Store.Persistence.WriteSlotData | src/Persistence.cpp:91-105 | the corrected write: the count is clamped to the data part of the slot |
| Store.Persistence.ReadSlot | src/Persistence.cpp:131-141 | copies the requested bytes (the whole slot for 0) and returns how many; the rest of the buffer is untouched |
| Store.Persistence.EepromCheckup | src/Persistence.cpp:191-206 | true exactly when every slot verifies |
| Store.Persistence.Erase | src/Persistence.cpp:208-217 | the image becomes the 0xFE fill with every slot sealed |
| Store.Persistence.Loop | src/Persistence.cpp:51-76 | state and image become `LoopStep` of the old ones |
| Rotary.Inc | src/RotaryCJMCU_111.cpp:141 | `++` on a 32-bit counter wraps modulo 2^32 |
| Rotary.Elapsed | src/RotaryCJMCU_111.cpp:139-140 | differences of 32-bit timestamps wrap modulo 2^32 |
| Rotary.Edge | src/RotaryCJMCU_111.cpp:110-209 | the interrupt routine records the edge time and never touches the long-press count |
| Rotary.OneDirectionKept | src/RotaryCJMCU_111.cpp:57-209 | interrupt, loop and reset keep at most one of the left and right counts nonzero |
| Rotary.WaitingEdges | src/RotaryCJMCU_111.cpp:125-133 | from Waiting, A high with B low starts a right turn, and A low with B high starts a left turn or a press and records its time |
| Rotary.LeftDetent | src/RotaryCJMCU_111.cpp:147-191 | the edge sequence of a left detent counts one step left, clears the right count and flags input |
| Rotary.RightDetent | src/RotaryCJMCU_111.cpp:156-205 | the edge sequence of a right detent counts one step right, clears the left count and flags input |
| Rotary.Release | src/RotaryCJMCU_111.cpp:135-146 | a release counts a push exactly when the press lasted more than 3 ms and less than 1000 ms, and flags input when it lasted more than 3 ms |
| Rotary.TurnBack | src/RotaryCJMCU_111.cpp:161-177 | a half-turned detent that turns back returns to its start state |
| Rotary.CountsOnlyOnDetent | src/RotaryCJMCU_111.cpp:179-205 | rotation counts change only when a detent completes; the push count changes only on a release |
| Rotary.LongPress | src/RotaryCJMCU_111.cpp:57-65 | while the button is held, each full 1000 ms adds one long press and restarts the period; otherwise the loop does nothing |
| Rotary.ResetClears | src/RotaryCJMCU_111.cpp:87-98 | a reset clears flag and counters, except a long press still being timed |
| Rotary.RotaryCJMCU111.constructor | src/RotaryCJMCU_111.cpp:32-39 | the shared variables start waiting, with nothing counted |
| Rotary.RotaryCJMCU111.Setup | src/RotaryCJMCU_111.cpp:41-47 | setup starts waiting and clears the counters |
| Rotary.RotaryCJMCU111.Loop | src/RotaryCJMCU_111.cpp:57-65 | the variables become `Poll` of the old ones |
| Rotary.RotaryCJMCU111.ResetRotaryInput | src/RotaryCJMCU_111.cpp:87-98 | the variables become `Reset` of the old ones |
| Rotary.RotaryCJMCU111.Isr | src/RotaryCJMCU_111.cpp:110-209 | the variables become `Edge` of the old ones for the pin levels read |
| Rotary.RotaryCJMCU111.IsRotaryInputDetected | src/RotaryCJMCU_111.cpp:67-69 | returns the input flag |
| Rotary.RotaryCJMCU111.GetRotationCountL | src/RotaryCJMCU_111.cpp:71-73 | returns the left count |
| Rotary.RotaryCJMCU111.GetRotationCountR | src/RotaryCJMCU_111.cpp:75-77 | returns the right count |
| Rotary.RotaryCJMCU111.GetRotaryPushCount | src/RotaryCJMCU_111.cpp:79-81 | returns the push count |
| Rotary.RotaryCJMCU111.GetRotaryLongPressCount | src/RotaryCJMCU_111.cpp:83-85 | returns the long-press count |
| MenuGfx.PixelWidth | include/MenuItem.h:31-48 | pixels are 4 bytes above 3 bytes per pixel, 3 at 3, and 2 below |
| MenuGfx.RepeatCount | include/MenuItem.h:33-34 | a repeat header writes its low seven bits' worth of pixels, and 0 means 256 because of the 8-bit do-while |
| MenuGfx.LiteralLength | include/MenuItem.h:35-36 | a literal header copies header × pixel width bytes, modulo 256 |
| MenuGfx.RepeatCons | include/MenuItem.h:34 | n copies of a pixel are the pixel followed by n - 1 copies |
| MenuGfx.Decode | include/MenuItem.h:28-49 | the decoder loop: stop once `limit` bytes are decoded, otherwise one pass; `MenuGfx.DecodeExtends` proves it only appends and stops with at least `limit` bytes |
| MenuGfx.DecodeRun | include/MenuItem.h:31-36 | one pass of the loop: a repeat header copies its pixel `RepeatCount` times, a literal header copies `LiteralLength` bytes, and input that ends inside a header or run gives None; `MenuGfx.RepeatUnfold` and `MenuGfx.LiteralUnfold` state the two cases |
| MenuGfx.DecodeExtends | include/MenuItem.h:32-36 | a successful decode only appends, and stops once at least `size * bpp` bytes are written |
| MenuGfx.RepeatAt | include/MenuItem.h:33-34 | in a successful decode a repeat header's pixel is present, its run fits, and decoding continues after the pixel |
| MenuGfx.LiteralAt | include/MenuItem.h:35-36 | in a successful decode a literal header's bytes are present, they fit, and decoding continues after them |
| MenuGfx.RepeatUnfold | include/MenuItem.h:33-34 | one decoder step over a repeat header |
| MenuGfx.LiteralUnfold | include/MenuItem.h:35-36 | one decoder step over a literal header |
| MenuGfx.LiteralRunWraps | include/MenuItem.h:41 | with 3-byte pixels a literal header of 86 copies only 2 bytes |
| MenuGfx.Header | include/MenuItem.h:32-36 | the reference encoder's header decodes to its run's count |
| MenuGfx.HeaderAt | include/MenuItem.h:32 | a header, its pixel and the rest can be found at consecutive positions |
| MenuGfx.RunHeader | include/MenuItem.h:32-36 | one header of the reference encoding makes the decoder write its run and continue after its pixel |
| MenuGfx.DecodeEncode | include/MenuItem.h:28-49 | round trip: decoding the reference encoding of any runs (repeat runs, and literal runs of one pixel), wherever it sits in the input, appends exactly the bytes the runs stand for |
| MenuGfx.HeadOf | include/MenuItem.h:32-36 | the first run of an encoding is decoded, and the decode continues at the encoding of the rest |
| MenuGfx.Chain | include/MenuItem.h:32 | one decoder step followed by the decode of the rest is the whole decode |
| MenuGfx.DecodeEncodeImage | include/MenuItem.h:28-49 | a whole image given as runs decodes from its reference encoding |
| MenuGfx.Splice | include/MenuItem.h:34-36 | writing into the buffer keeps its length |
| MenuGfx.SpliceAfter | include/MenuItem.h:34-36 | writing right after a written prefix extends that prefix |
| MenuGfx.SplicePrefix | include/MenuItem.h:34-36 | after a write, the buffer up to the written end is the old prefix plus the piece, and everything past it is unchanged |
| MenuGfx.CopyBytes | include/MenuItem.h:35 | `memcpy` writes exactly the source bytes into the buffer |
| MenuGfx.AppendBytes | include/MenuItem.h:35-36 | copied bytes extend the decoded prefix |
| MenuGfx.RepeatFits | include/MenuItem.h:34 | fewer copies of a pixel leave room for one more |
| MenuGfx.RepeatPixel | include/MenuItem.h:33-34 | the do-while copies the pixel `RepeatCount(h)` times after the written prefix |
| MenuGfx.RunLengthDecode | include/MenuItem.h:28-49 | the buffer begins with exactly the decoded bytes, and everything past them is untouched |
| MenuGfx.RepeatStep | include/MenuItem.h:33-34 | a repeat header advances the input and the decoded prefix, and keeps the rest of the decode |
| MenuGfx.LiteralStep | include/MenuItem.h:35-36 | a literal header advances the input and the decoded prefix, and keeps the rest of the decode |
| MenuGfx.Pack | include/MenuItem.h:175 | packed colours are 16-bit values |
| MenuGfx.PackChannels | include/MenuItem.h:164-175 | splitting an RGB565 colour into channels and packing them gives it back |
| MenuGfx.ChannelsOfPack | include/MenuItem.h:164-175 | packing channels in range and splitting again gives them back |
| MenuGfx.MixBetween | include/MenuItem.h:171-173 | for 0 to 100 percent the mixed channel lies between the end channels, and equals them at 0 and at 100 |
| MenuGfx.ColorGradient | include/MenuItem.h:163-176 | the result is a 16-bit colour whose red, green and blue channels are the truncating mixes of the two colours' channels masked to 5, 6 and 5 bits |
| MenuGfx.ChannelsOfMasked | include/MenuItem.h:175 | packing masks each channel to its width before it is stored |
| MenuGfx.ScaleBounds | include/MenuItem.h:171-173 | `percent * d / 100` lies between 0 and d, and is 0 or d at the ends |
| MenuGfx.Gradient | include/MenuItem.h:163-176 | the gradient is the first colour at 0 %, the second at 100 %, and in between every channel lies between the two colours' channels |
| Power.Elapsed | src/PowerSaver.cpp:40 | the 32-bit clock minus the 64-bit reset time wraps modulo 2^64, and is exact while the clock has not wrapped |
| Power.Done | src/PowerSaver.cpp:36-62 | at most the two callbacks are called per reset |
| Power.ConfigureStarts | src/PowerSaver.cpp:21-30 | setup turns seconds into milliseconds, starts running at the given time, and calls nothing |
| Power.RunningFires | src/PowerSaver.cpp:39-44 | while running, the return-to-main callback is called exactly when more than its timeout has passed, and the timer then warns |
| Power.WarningFires | src/PowerSaver.cpp:46-51 | while warning, the sleep callback is called exactly when more than the sleep timeout has passed, and the timer then waits |
| Power.StepCalls | src/PowerSaver.cpp:36-62 | outside Sleep a pass keeps timeouts and reset time, never enters Sleep, and calls at most the next callback due |
| Power.OncePerReset | src/PowerSaver.cpp:36-62 | between resets each callback is called at most once, return-to-main before sleep |
| Power.SleepFollowsReturn | src/PowerSaver.cpp:39-51 | with a sleep timeout no longer than the return-to-main timeout, the pass after return-to-main also calls sleep |
| Power.WrapFiresEarly | src/PowerSaver.cpp:40 | 11 ms after a reset at 0xFFFFFFFA the wrapped difference already exceeds the timeout, so return-to-main is called |
| Power.PowerSaver.constructor | include/PowerSaver.h:34-46 | a timer that was never set up has the default timeouts of 9000 and 12000 ms |
| Power.PowerSaver.Setup | src/PowerSaver.cpp:21-30 | the timer becomes `Configure` of the old timer |
| Power.PowerSaver.ChangeLoopState | src/PowerSaver.cpp:32-34 | only the state changes |
| Power.PowerSaver.Loop | src/PowerSaver.cpp:36-62 | the timer becomes `Step` of the old timer; Sleep (the default branch) resets it |
| Power.PowerSaver.ResetTimer | src/PowerSaver.cpp:64-67 | the timer becomes `Reset` of the old timer |

## Left out

- Lin.LinDriver.Send, Lin.LinDriver.Recv, Lin.DataChecksum, Lin.Receive and the lemmas and methods about receiving require fewer than 128 data bytes, the positive range of the source's `char nBytes`; every call site passes at most 8.
- The break's timing, pin levels, baud-rate switching and `serial->flush` (src/LinDriver.cpp:51-77, 124-125) are left out: the break is one wire symbol and transmit-enable is a boolean.
- The driver pointer of `HellaIbs` is left out: it is the flag `hasDriver`. Discovery starts only when a driver is present (src/HellaIbs.cpp:72), so the states that use the driver are never reached without one.
- Floating-point telemetry scaling (volts, amperes, ampere-hours, optimum charge voltage, milliohms) is left out: the fields keep their raw integer values. The float getters (`getBatteryVoltage`, `getBatteryCurrent`, `getTemperature`, `getOptChargeVoltage`, the two capacity getters and `getAvgRi` with its conversion to `uint8_t`) are left out too; the raw values are in the object's `telemetry`.
- The template `linDiagIbsRetrieveBattTableState` (src/HellaIbs.cpp:45) is left out: no state sends it.
- The `millis()` clock is left out: it is the parameter `now`, read once per call. `HellaIbs::changeLoopState` reads the clock again after the bus operation of that pass (src/HellaIbs.cpp:56), up to one `recv` timeout (17360 µs at 19200 baud) later; the model stamps the state entry with the loop-entry reading (src/HellaIbs.cpp:60), so every later `MESSAGE_DELAY`, 1000 ms, 2000 ms and 200 ms gate opens up to one bus operation earlier than in the firmware. Likewise `RotaryCJMCU_111::loop` reads the clock twice (src/RotaryCJMCU_111.cpp:59-60), and the model uses one reading for both. Interrupt masking and the concurrency between the rotary interrupt and the main loop are left out too: each interrupt is one atomic `Isr` call.
- Pin set-up and `isButtonPushed` (a `digitalRead` of pin A, src/RotaryCJMCU_111.cpp:100-102) are left out: the pin level is the parameter `a` of `Isr`. The analog-pin option of the second `setup` is left out as well.
- `EEPROM.begin` and `printEeprom` are left out. `EEPROM.commit` is left out too: its result is the parameter `flashOk`. The `String` overloads of `writeSlot` and `readSlot` are left out: they add the C-string terminator around the byte-array versions.
- Store.Persistence.CalculateSlotConstraints: the endless loop the source enters when the slots exceed the EEPROM is not modelled. With this layout it cannot be reached (`Store.Total`), and the method proves that.
- The display code is left out: `drawCompressedImage`, the canvas and `drawRGBBitmap`. So is the truncation of `bytes_per_pixel` to 8 bits at the call site.
- MenuGfx.DecodeEncode: the reference encoder writes a literal header only for a single pixel, so the round trip does not cover literal headers of two or more pixels; those are covered one step at a time by `MenuGfx.LiteralUnfold` and `MenuGfx.LiteralStep`.
- MenuGfx.RunLengthDecode: it requires well-formed input whose last run fits in the buffer. The macro reads and writes past the buffers on malformed input, and that behaviour is not modelled.
- MenuGfx.Gradient: it is stated for 0 to 100 percent only, the range the firmware passes. Above 100 a rising channel is extrapolated and masked, which `ColorGradient` models. A falling channel goes negative there, and C's conversion of a negative `double` to `uint16_t` (include/MenuItem.h:175) is undefined behaviour; the Euclidean `%` in `Pack` is only the model's choice for that case.
- The `default:` branch of `HellaIbs::loop` (src/HellaIbs.cpp:238-240), which restarts detection from an unknown state, is not modelled: `LoopState` has no unknown value, so the branch cannot be reached in the model.
- The `PowerSaver` callbacks are left out: they are recorded as a trace of calls. Calling `loop` before `setup` would jump through null function pointers, which is not modelled.

## Findings

| source | as written | input that shows it | evidently intended | confidence | as-written member | corrected member |
|---|---|---|---|---|---|---|
| src/Persistence.cpp:93-100 | a length of 0, or at least the slot length, writes the whole slot, checksum byte included; the commit then writes the CRC over the last data byte | `writeSlot(kPSlotWiFiSsid, &ssid)` with a 32-character SSID writes 33 bytes; the CRC replaces the terminating NUL, so the string read back ends in a stray byte | at most the slot length minus one data bytes are written, so the checksum never overwrites data | high; not executed | Store.FullLengthWriteLosesLastByte, Store.Persistence.WriteSlot | Store.BoundedStringRoundTrip, Store.Persistence.WriteSlotData |
