/**
 * Hella IBS (intelligent battery sensor) on the LIN bus: a time-gated state
 * machine that makes at most one transition per call of `loop`.  It finds
 * the sensor variant by trying a catalog of four diagnostic requests in
 * order, asks for the battery type, reads three telemetry frames in a
 * cycle and, on request, writes the nominal capacity and battery type.
 *
 * The LIN driver is not called here: every send is appended to the trace
 * `bus`, and what a receive produced (its result and the 8-byte buffer it
 * filled) is passed to `Tick` by the caller.  The LIN driver itself is the
 * subject of module Lin.  The clock is the parameter `now` (milliseconds).
 * Telemetry is kept in the integer raw units of the frames; the floating
 * point scaling applied on top of them is not modelled.
 */
module Ibs {
  import opened Lin

  // ---------------------------------------------------------------------
  // Constants, catalog and frame templates
  // ---------------------------------------------------------------------

  /** Minimum milliseconds between two bus operations. */
  const MessageDelay: nat := 60
  /** Milliseconds without a sensor before discovery is retried. */
  const RetryDelay: nat := 1000
  /** Milliseconds between two read cycles, normal and high-speed. */
  const ReadPause: nat := 2000
  const HighSpeedReadPause: nat := 200
  /** Number of catalog entries tried during discovery. */
  const IbsMaxCount: nat := 4
  /** connectedIbsIndex while no sensor is connected. */
  const NoIndex: byte := 0xFF

  /** Battery types as the sensor encodes them. */
  datatype BatteryType = Std | Gel | Agm

  function BatteryCode(t: BatteryType): (code: byte)
    ensures code in {0x0A, 0x14, 0x1E}
  {
    match t
    case Std => 0x0A
    case Gel => 0x14
    case Agm => 0x1E
  }

  /** Battery type codes are pairwise distinct. */
  lemma BatteryCodeInjective(a: BatteryType, b: BatteryType)
    ensures BatteryCode(a) == BatteryCode(b) <==> a == b
  {
  }

  /** The three diagnostic request buffers of the catalog; two entries share one. */
  datatype RequestBuffer = Gen1Var123 | Gen2Var12 | Gen2Var3

  /**
   * One catalog entry (IbsType): NAD, request buffer, and the ids and
   * lengths of frames 2, 5 and 6.  The entry's display name is CatalogName.
   */
  datatype IbsType = IbsType(nad: byte, request: RequestBuffer, doubleCapacity: bool,
                             frm2: bv8, frm2length: nat, frm5: bv8, frm5length: nat, frm6: bv8, frm6length: nat)

  const Catalog: seq<IbsType> := [
    IbsType(0x01, Gen2Var3, true, 0x22, 7, 0x25, 6, 0x26, 6),
    IbsType(0x01, Gen2Var12, true, 0x22, 7, 0x25, 6, 0x26, 6),
    IbsType(0x02, Gen1Var123, false, 0x28, 7, 0x2B, 6, 0x2C, 6),
    IbsType(0x01, Gen1Var123, false, 0x22, 7, 0x25, 6, 0x26, 6)
  ]

  function CatalogName(i: nat): string
    requires i < IbsMaxCount
  {
    ["Gen2 Var. 3      ", "Gen2 Var. 1-2    ", "Gen2 Var. 1-3, S2", "Gen1 Var. 1-3, S1"][i]
  }

  /** Every catalog entry reads frames of at most eight bytes. */
  lemma CatalogShape()
    ensures |Catalog| == IbsMaxCount
    ensures forall i :: 0 <= i < |Catalog| ==>
      Catalog[i].frm2length <= 8 && Catalog[i].frm5length <= 8 && Catalog[i].frm6length <= 8
  {
  }

  const RequestGen1Var123: seq<byte> := [0x01, 0x06, 0xB2, 0x00, 0x36, 0x00, 0x0a, 0xf1]
  const RequestGen2Var12: seq<byte> := [0x01, 0x06, 0xB2, 0x00, 0x36, 0x00, 0x0a, 0xf6]
  const RequestGen2Var3: seq<byte> := [0x01, 0x06, 0xB2, 0x00, 0x37, 0x00, 0x0a, 0xf6]
  const RetrieveNominalCapacity: seq<byte> := [0x01, 0x02, 0xB2, 0x39, 0xFF, 0xFF, 0xFF, 0xFF]
  const WriteNominalCapacity: seq<byte> := [0x01, 0x03, 0xB5, 0x39, 0x00, 0xFF, 0xFF, 0xFF]
  const RetrieveBatteryType: seq<byte> := [0x01, 0x06, 0xB2, 0x3A, 0xFF, 0x7F, 0xFF, 0xFF]
  const WriteBatteryType: seq<byte> := [0x01, 0x03, 0xB5, 0x3A, 0x00, 0xFF, 0xFF, 0xFF]

  // ---------------------------------------------------------------------
  // Decoding the telemetry frames
  // ---------------------------------------------------------------------

  /** Battery voltage in mV: bytes 3 (low) and 4 (high). */
  function Voltage(f: seq<byte>): (mv: nat)
    requires |f| == 8
    ensures mv < 65536
  {
    f[4] as nat * 256 + f[3] as nat
  }

  /** Battery current in mA: a 24-bit little-endian value offset by 2000000. */
  function Current(f: seq<byte>): (ma: int)
    requires |f| == 8
    ensures -2000000 <= ma < 16777216 - 2000000
  {
    f[2] as int * 65536 + f[1] as int * 256 + f[0] as int - 2000000
  }

  /** Temperature in whole °C: byte 5 in half degrees above -40 °C, truncated. */
  function Temperature(f: seq<byte>): (c: int)
    requires |f| == 8
    ensures -40 <= c <= 87
    ensures 2 * (c + 40) <= f[5] as int <= 2 * (c + 40) + 1
  {
    f[5] as int / 2 - 40
  }

  /** Error flag: bit 7 of byte 6. */
  predicate ErrorFlag(f: seq<byte>)
    requires |f| == 8
  {
    f[6] >= 128
  }

  /** State of charge and health in %: half of bytes 0 and 1 of frame 5. */
  function Half(b: byte): (h: byte)
    ensures 2 * h as int <= b as int <= 2 * h as int + 1
  {
    b / 2
  }

  /** Average internal resistance in hundredths of a milliohm: bytes 4 and 5 of frame 5. */
  function AvgRi(f: seq<byte>): (r: nat)
    requires |f| == 8
    ensures r < 65536
  {
    f[4] as nat + f[5] as nat * 256
  }

  /** A 16-bit little-endian capacity in tenths of Ah at bytes lo and lo + 1. */
  function Capacity(f: seq<byte>, lo: nat): (c: nat)
    requires lo + 1 < |f|
    ensures c < 65536
  {
    f[lo + 1] as nat * 256 + f[lo] as nat
  }

  /** Calibration flag: bit 0 of byte 5 of frame 6. */
  predicate CalibratedFlag(f: seq<byte>)
    requires |f| == 8
  {
    f[5] % 2 == 1
  }

  /** A frame 2 as the sensor would send it for the given raw values. */
  function EncodeFrame2(mv: nat, ma: int, halfDegrees: byte, status: byte): (f: seq<byte>)
    requires mv < 65536 && -2000000 <= ma < 16777216 - 2000000
    ensures |f| == 8
  {
    var u := ma + 2000000;
    [(u % 256) as byte, (u / 256 % 256) as byte, (u / 65536) as byte,
     (mv % 256) as byte, (mv / 256) as byte, halfDegrees, status, 0]
  }

  /** Decoding an encoded frame 2 gives back voltage, current and temperature. */
  lemma Frame2RoundTrip(mv: nat, ma: int, celsius: int, status: byte)
    requires mv < 65536 && -2000000 <= ma < 16777216 - 2000000
    requires -40 <= celsius <= 87
    ensures var f := EncodeFrame2(mv, ma, (2 * (celsius + 40)) as byte, status);
      Voltage(f) == mv && Current(f) == ma && Temperature(f) == celsius && (ErrorFlag(f) <==> status >= 128)
  {
    var u := ma + 2000000;
    assert u == u / 65536 * 65536 + (u / 256 % 256) * 256 + u % 256;
  }

  /** The 16-bit fields give back their two bytes. */
  lemma SixteenBitFields(f: seq<byte>)
    requires |f| == 8
    ensures Voltage(f) % 256 == f[3] as nat && Voltage(f) / 256 == f[4] as nat
    ensures AvgRi(f) % 256 == f[4] as nat && AvgRi(f) / 256 == f[5] as nat
    ensures Capacity(f, 0) % 256 == f[0] as nat && Capacity(f, 0) / 256 == f[1] as nat
    ensures Capacity(f, 2) % 256 == f[2] as nat && Capacity(f, 2) / 256 == f[3] as nat
  {
  }

  /** A byte appended below a base-256 number is its last digit. */
  lemma LowDigit(q: int, r: int)
    requires 0 <= q && 0 <= r < 256
    ensures (q * 256 + r) / 256 == q && (q * 256 + r) % 256 == r
  {
  }

  /** The current field gives back its three bytes. */
  lemma CurrentBytes(f: seq<byte>)
    requires |f| == 8
    ensures var u := Current(f) + 2000000;
      u % 256 == f[0] as int && u / 256 % 256 == f[1] as int && u / 65536 == f[2] as int
  {
    var hi := f[2] as int * 256 + f[1] as int;
    var u := Current(f) + 2000000;
    assert u == hi * 256 + f[0] as int;
    LowDigit(hi, f[0] as int);
    LowDigit(f[2] as int, f[1] as int);
    assert u / 65536 == u / 256 / 256;
  }

  /** Two frames with the same voltage and current agree on their first five bytes. */
  lemma Frame2DecodeInjective(f: seq<byte>, g: seq<byte>)
    requires |f| == 8 && |g| == 8
    requires Voltage(f) == Voltage(g) && Current(f) == Current(g)
    ensures f[..5] == g[..5]
  {
    SixteenBitFields(f);
    SixteenBitFields(g);
    CurrentBytes(f);
    CurrentBytes(g);
  }

  // ---------------------------------------------------------------------
  // The state machine on values
  // ---------------------------------------------------------------------

  datatype LoopState =
    | NoIbsConnected
    | RequestIbs | ResponseIbs | RequestBatteryType | ResponseBatteryType
    | PrepareReadStats | ReadFrame2 | ReadFrame5 | ReadFrame6 | PauseAfterRead
    | PrepareConfig | WriteConfigCapacityStep1 | WriteConfigCapacityStep2
    | WriteConfigBattTypeStep1 | WriteConfigBattTypeStep2

  /** One bus operation: a frame sent to an id, or a receive of some length from an id. */
  datatype BusOp = SendOp(id: bv8, data: seq<byte>) | RecvOp(id: bv8, length: nat)

  /**
   * The sensor being tried or used: the catalog index under test (the
   * global ibsTypeIndex), the index that answered, whether one is
   * connected, and the variant and battery type it reported.
   */
  datatype Sensor = Sensor(typeIndex: byte, connectedIndex: byte, available: bool, variant: byte, batteryType: byte)

  /** What configure and setHighSpeedCommunication asked for. */
  datatype Settings = Settings(startConfigure: bool, nominalCapacity: int, battType: BatteryType, highSpeed: bool)

  /** The link to the LIN driver: whether setup gave one, and the last receive's result and buffer. */
  datatype Link = Link(hasDriver: bool, result: byte, frame: seq<byte>)

  /** The telemetry fields, in the raw integer units of the frames. */
  datatype Telemetry = Telemetry(
    voltage: nat, current: int, temperature: int, ibsError: bool,
    soc: byte, soh: byte, optChargeRaw: byte, avgRi: nat,
    availableCapacity: nat, dischargeableCapacity: nat, nominalCapacity: int, calibrated: bool)

  /** The frame templates, patched in place before each send. */
  datatype Templates = Templates(
    gen1Var123: seq<byte>, gen2Var12: seq<byte>, gen2Var3: seq<byte>,
    retrieveCapacity: seq<byte>, writeCapacity: seq<byte>,
    retrieveBatteryType: seq<byte>, writeBatteryType: seq<byte>)

  /** Every state of the object and of the globals it updates. */
  datatype State = State(
    loopState: LoopState, lastChange: nat, sensor: Sensor, settings: Settings, link: Link,
    telemetry: Telemetry, templates: Templates, bus: seq<BusOp>)

  function Request(t: Templates, r: RequestBuffer): seq<byte> {
    match r
    case Gen1Var123 => t.gen1Var123
    case Gen2Var12 => t.gen2Var12
    case Gen2Var3 => t.gen2Var3
  }

  function SetRequest(t: Templates, r: RequestBuffer, f: seq<byte>): (u: Templates)
    ensures Request(u, r) == f
    ensures forall q :: q != r ==> Request(u, q) == Request(t, q)
    ensures u.retrieveCapacity == t.retrieveCapacity && u.writeCapacity == t.writeCapacity
    ensures u.retrieveBatteryType == t.retrieveBatteryType && u.writeBatteryType == t.writeBatteryType
  {
    match r
    case Gen1Var123 => t.(gen1Var123 := f)
    case Gen2Var12 => t.(gen2Var12 := f)
    case Gen2Var3 => t.(gen2Var3 := f)
  }

  predicate TemplatesValid(t: Templates) {
    |t.gen1Var123| == 8 && |t.gen2Var12| == 8 && |t.gen2Var3| == 8 &&
    |t.retrieveCapacity| == 8 && |t.writeCapacity| == 8 &&
    |t.retrieveBatteryType| == 8 && |t.writeBatteryType| == 8
  }

  /** States reached only after a sensor was found. */
  predicate Connected(q: LoopState) {
    !(q.NoIbsConnected? || q.RequestIbs? || q.ResponseIbs?)
  }

  /**
   * The invariant: during discovery no sensor is connected and the
   * candidate index is inside the catalog; after discovery the connected
   * index is the candidate that answered.
   */
  predicate Valid(s: State) {
    var e := s.sensor;
    TemplatesValid(s.templates) && |s.link.frame| == 8 &&
    e.typeIndex as nat <= IbsMaxCount &&
    (e.available ==> e.connectedIndex == e.typeIndex && e.typeIndex as nat < IbsMaxCount) &&
    ((s.loopState.RequestIbs? || s.loopState.ResponseIbs?) ==> !e.available && e.typeIndex as nat < IbsMaxCount) &&
    (Connected(s.loopState) ==> e.available)
  }

  /** Milliseconds since the last state change, as uint16_t of the uint64 difference. */
  function Elapsed(now: nat, last: nat): (e: nat)
    ensures e < 65536
    ensures last <= now < last + 65536 ==> e == now - last
  {
    (now - last) % 65536
  }

  /** changeLoopState: the new state and the time it was entered. */
  function Enter(s: State, q: LoopState, now: nat): State {
    s.(loopState := q, lastChange := now)
  }

  /** A template with byte 0 set to the NAD. */
  function WithNad(t: seq<byte>, nad: byte): (f: seq<byte>)
    requires |t| == 8
    ensures |f| == 8 && f[0] == nad && f[1..] == t[1..]
  {
    t[0 := nad]
  }

  /** The capacity byte of the write-capacity frame: int16 converted to uint8. */
  function CapacityByte(capacity: int): (b: byte)
    ensures b as int == capacity % 256
  {
    (capacity % 256) as byte
  }

  /** The eight cleared bytes of linInfoFrame. */
  const ClearedFrame: seq<byte> := [0, 0, 0, 0, 0, 0, 0, 0]

  /** A send to the master request id. */
  function Sent(s: State, f: seq<byte>): State {
    s.(bus := s.bus + [SendOp(MasterRequestId, f)])
  }

  /** A receive: records the operation, keeps the result and the filled buffer. */
  function Received(s: State, id: bv8, length: nat, result: byte, reply: seq<byte>): State {
    s.(bus := s.bus + [RecvOp(id, length)], link := s.link.(result := result, frame := reply))
  }

  /**
   * One call of loop at time `now`.  `result` and `reply` are what the LIN
   * receive returns and leaves in the cleared 8-byte buffer, used only in
   * the states that receive.
   */
  function Step(s: State, now: nat, result: byte, reply: seq<byte>): (r: State)
    requires Valid(s) && |reply| == 8
    ensures Valid(r)
  {
    var elapsed := Elapsed(now, s.lastChange);
    match s.loopState
    case NoIbsConnected => NoSensor(s, now, elapsed)
    case RequestIbs => AskCandidate(s, now, elapsed)
    case ResponseIbs => CandidateAnswer(s, now, elapsed, result, reply)
    case RequestBatteryType => AskBatteryType(s, now, elapsed)
    case ResponseBatteryType => BatteryTypeAnswer(s, now, elapsed, result, reply)
    case PrepareReadStats => Enter(s, ReadFrame2, now)
    case ReadFrame2 | ReadFrame5 | ReadFrame6 => Fetch(s, now, elapsed, result, reply)
    case PauseAfterRead => Pause(s, now, elapsed)
    case PrepareConfig => Enter(s.(settings := s.settings.(startConfigure := false)), WriteConfigCapacityStep1, now)
    case WriteConfigCapacityStep1 | WriteConfigCapacityStep2 | WriteConfigBattTypeStep1 | WriteConfigBattTypeStep2 =>
      ConfigSend(s, now, elapsed)
  }

  /** NoIbsConnected: forgets the candidate; discovery restarts after RETRY_DELAY, given a driver. */
  function NoSensor(s: State, now: nat, elapsed: nat): (r: State)
    requires Valid(s) && s.loopState.NoIbsConnected?
    ensures Valid(r)
  {
    var s1 := s.(sensor := s.sensor.(typeIndex := 0, connectedIndex := NoIndex, available := false));
    if RetryDelay < elapsed && s.link.hasDriver then Enter(s1, RequestIbs, now) else s1
  }

  /** RequestIbs: sends the candidate's diagnostic request, patched with its NAD. */
  function AskCandidate(s: State, now: nat, elapsed: nat): (r: State)
    requires Valid(s) && s.loopState.RequestIbs?
    ensures Valid(r)
  {
    if elapsed <= MessageDelay then s
    else
      var entry := Catalog[s.sensor.typeIndex];
      var f := WithNad(Request(s.templates, entry.request), entry.nad);
      Enter(Sent(s, f).(templates := SetRequest(s.templates, entry.request, f)), ResponseIbs, now)
  }

  /** ResponseIbs: an answer connects the candidate, silence moves on to the next one. */
  function CandidateAnswer(s: State, now: nat, elapsed: nat, result: byte, reply: seq<byte>): (r: State)
    requires Valid(s) && |reply| == 8 && s.loopState.ResponseIbs?
    ensures Valid(r)
  {
    if elapsed <= MessageDelay then s
    else
      var s1 := Received(s, SlaveResponseId, 8, result, reply);
      var e := s.sensor;
      if result == 0 then
        var next := e.typeIndex + 1;
        Enter(s1.(sensor := e.(typeIndex := next)), if next as nat >= IbsMaxCount then NoIbsConnected else RequestIbs, now)
      else
        Enter(s1.(sensor := e.(connectedIndex := e.typeIndex, available := true, variant := reply[7])), RequestBatteryType, now)
  }

  /** RequestBatteryType: asks the connected sensor for its battery type. */
  function AskBatteryType(s: State, now: nat, elapsed: nat): (r: State)
    requires Valid(s) && s.loopState.RequestBatteryType?
    ensures Valid(r)
  {
    if elapsed <= MessageDelay then s
    else
      var f := WithNad(s.templates.retrieveBatteryType, Catalog[s.sensor.typeIndex].nad);
      Enter(Sent(s, f).(templates := s.templates.(retrieveBatteryType := f)), ResponseBatteryType, now)
  }

  /** ResponseBatteryType: keeps byte 3 of the answer, or drops the sensor. */
  function BatteryTypeAnswer(s: State, now: nat, elapsed: nat, result: byte, reply: seq<byte>): (r: State)
    requires Valid(s) && |reply| == 8 && s.loopState.ResponseBatteryType?
    ensures Valid(r)
  {
    if elapsed <= MessageDelay then s
    else
      var s1 := Received(s, SlaveResponseId, 8, result, reply);
      if result == 0 then Enter(s1, NoIbsConnected, now)
      else Enter(s1.(sensor := s.sensor.(batteryType := reply[3])), PrepareReadStats, now)
  }

  /** The states that read a telemetry frame. */
  predicate Fetching(q: LoopState) {
    q.ReadFrame2? || q.ReadFrame5? || q.ReadFrame6?
  }

  function NextRead(q: LoopState): (next: LoopState)
    requires Fetching(q)
    ensures Connected(next) && next != q
  {
    match q
    case ReadFrame2 => ReadFrame5
    case ReadFrame5 => ReadFrame6
    case ReadFrame6 => PauseAfterRead
  }

  /** The frame id a reading state receives from, per catalog entry. */
  function FrameId(e: IbsType, q: LoopState): bv8
    requires Fetching(q)
  {
    match q
    case ReadFrame2 => e.frm2
    case ReadFrame5 => e.frm5
    case ReadFrame6 => e.frm6
  }

  function FrameLength(e: IbsType, q: LoopState): nat
    requires Fetching(q)
  {
    match q
    case ReadFrame2 => e.frm2length
    case ReadFrame5 => e.frm5length
    case ReadFrame6 => e.frm6length
  }

  /** The telemetry with the fields of the frame read in state q replaced by their decoded values. */
  function Decode(t: Telemetry, q: LoopState, f: seq<byte>): (u: Telemetry)
    requires |f| == 8 && Fetching(q)
    ensures q.ReadFrame2? ==>
      u.(voltage := t.voltage, current := t.current, temperature := t.temperature, ibsError := t.ibsError) == t &&
      u.voltage < 65536 && -40 <= u.temperature <= 87
    ensures q.ReadFrame5? ==>
      u.(soc := t.soc, soh := t.soh, optChargeRaw := t.optChargeRaw, avgRi := t.avgRi) == t &&
      u.soc < 128 && u.soh < 128 && u.avgRi < 65536
    ensures q.ReadFrame6? ==>
      u.(availableCapacity := t.availableCapacity, dischargeableCapacity := t.dischargeableCapacity,
         nominalCapacity := t.nominalCapacity, calibrated := t.calibrated) == t &&
      u.availableCapacity < 65536 && u.dischargeableCapacity < 65536 && 0 <= u.nominalCapacity < 256
  {
    match q
    case ReadFrame2 =>
      t.(voltage := Voltage(f), current := Current(f), temperature := Temperature(f), ibsError := ErrorFlag(f))
    case ReadFrame5 =>
      t.(soc := Half(f[0]), soh := Half(f[1]), optChargeRaw := f[3], avgRi := AvgRi(f))
    case ReadFrame6 =>
      t.(availableCapacity := Capacity(f, 0), dischargeableCapacity := Capacity(f, 2),
         nominalCapacity := f[4] as int, calibrated := CalibratedFlag(f))
  }

  /** ReadFrame2, ReadFrame5, ReadFrame6: receive and decode a frame, or drop the sensor. */
  function Fetch(s: State, now: nat, elapsed: nat, result: byte, reply: seq<byte>): (r: State)
    requires Valid(s) && |reply| == 8 && Fetching(s.loopState)
    ensures Valid(r)
  {
    if elapsed <= MessageDelay then s
    else
      var e := Catalog[s.sensor.connectedIndex];
      var s1 := Received(s, FrameId(e, s.loopState), FrameLength(e, s.loopState), result, reply);
      if result == 0 then Enter(s1, NoIbsConnected, now)
      else Enter(s1.(telemetry := Decode(s.telemetry, s.loopState, reply)), NextRead(s.loopState), now)
  }

  /** PauseAfterRead: a pending configuration first, else the next cycle once the pause is over. */
  function Pause(s: State, now: nat, elapsed: nat): (r: State)
    requires Valid(s) && s.loopState.PauseAfterRead?
    ensures Valid(r)
  {
    if s.settings.startConfigure then Enter(s, PrepareConfig, now)
    else if ReadPause < elapsed || (s.settings.highSpeed && HighSpeedReadPause < elapsed) then Enter(s, PrepareReadStats, now)
    else s
  }

  /** The four states that write the configuration. */
  predicate Configuring(q: LoopState) {
    q.WriteConfigCapacityStep1? || q.WriteConfigCapacityStep2? || q.WriteConfigBattTypeStep1? || q.WriteConfigBattTypeStep2?
  }

  /** The template a configuring state sends, before the NAD is patched in. */
  function ConfigTemplate(s: State): (t: seq<byte>)
    requires Valid(s) && Configuring(s.loopState)
    ensures |t| == 8
  {
    var t := s.templates;
    match s.loopState
    case WriteConfigCapacityStep1 => t.retrieveCapacity
    case WriteConfigCapacityStep2 => t.writeCapacity[4 := CapacityByte(s.settings.nominalCapacity)]
    case WriteConfigBattTypeStep1 => t.retrieveBatteryType
    case WriteConfigBattTypeStep2 => t.writeBatteryType[4 := BatteryCode(s.settings.battType)]
  }

  /** Stores the frame sent by a configuring state back into its template. */
  function StoreConfigTemplate(t: Templates, q: LoopState, f: seq<byte>): Templates
    requires Configuring(q)
  {
    match q
    case WriteConfigCapacityStep1 => t.(retrieveCapacity := f)
    case WriteConfigCapacityStep2 => t.(writeCapacity := f)
    case WriteConfigBattTypeStep1 => t.(retrieveBatteryType := f)
    case WriteConfigBattTypeStep2 => t.(writeBatteryType := f)
  }

  function NextConfig(q: LoopState): (next: LoopState)
    requires Configuring(q)
    ensures Connected(next)
  {
    match q
    case WriteConfigCapacityStep1 => WriteConfigCapacityStep2
    case WriteConfigCapacityStep2 => WriteConfigBattTypeStep1
    case WriteConfigBattTypeStep1 => WriteConfigBattTypeStep2
    case WriteConfigBattTypeStep2 => RequestBatteryType
  }

  /** The configuring states: send the state's frame to the connected sensor and move on. */
  function ConfigSend(s: State, now: nat, elapsed: nat): (r: State)
    requires Valid(s) && Configuring(s.loopState)
    ensures Valid(r)
  {
    if elapsed <= MessageDelay then s
    else
      var f := WithNad(ConfigTemplate(s), Catalog[s.sensor.connectedIndex].nad);
      Enter(Sent(s, f).(templates := StoreConfigTemplate(s.templates, s.loopState, f)), NextConfig(s.loopState), now)
  }

  /** The name of the connected sensor, or "unknown". */
  function Name(s: State): (name: string)
    requires Valid(s)
    ensures s.sensor.available ==> name == CatalogName(s.sensor.connectedIndex as nat)
    ensures !s.sensor.available ==> name == "unknown"
  {
    if s.sensor.available then CatalogName(s.sensor.typeIndex as nat) else "unknown"
  }

  // ---------------------------------------------------------------------
  // Properties of the state machine
  // ---------------------------------------------------------------------

  /** The states that send or receive and therefore wait for MESSAGE_DELAY. */
  predicate Gated(q: LoopState) {
    !(q.NoIbsConnected? || q.PrepareReadStats? || q.PauseAfterRead? || q.PrepareConfig?)
  }

  /** Before MESSAGE_DELAY has passed, a sending or receiving state changes nothing. */
  lemma WaitingChangesNothing(s: State, now: nat, result: byte, reply: seq<byte>)
    requires Valid(s) && |reply| == 8 && Gated(s.loopState)
    requires Elapsed(now, s.lastChange) <= MessageDelay
    ensures Step(s, now, result, reply) == s
  {
  }

  /** Without a sensor every call forgets the candidate; discovery restarts after a second, given a driver. */
  lemma NoSensorResets(s: State, now: nat, result: byte, reply: seq<byte>)
    requires Valid(s) && |reply| == 8 && s.loopState.NoIbsConnected?
    ensures var r := Step(s, now, result, reply);
      r.sensor.typeIndex == 0 && r.sensor.connectedIndex == NoIndex && !r.sensor.available && r.bus == s.bus &&
      (r.loopState.RequestIbs? <==> RetryDelay < Elapsed(now, s.lastChange) && s.link.hasDriver) &&
      (!r.loopState.RequestIbs? ==> r.loopState.NoIbsConnected?)
  {
  }

  /** The preparing states move on unconditionally. */
  lemma PreparingAdvances(s: State, now: nat, result: byte, reply: seq<byte>)
    requires Valid(s) && |reply| == 8 && (s.loopState.PrepareReadStats? || s.loopState.PrepareConfig?)
    ensures var r := Step(s, now, result, reply);
      r.lastChange == now && r.bus == s.bus &&
      (s.loopState.PrepareReadStats? ==> r.loopState == ReadFrame2) &&
      (s.loopState.PrepareConfig? ==> r.loopState == WriteConfigCapacityStep1 && !r.settings.startConfigure)
  {
  }

  /** Discovery sends the candidate's own request, with its NAD, to the master request id. */
  lemma DiscoverySendsCandidate(s: State, now: nat, result: byte, reply: seq<byte>)
    requires Valid(s) && |reply| == 8 && s.loopState.RequestIbs?
    requires MessageDelay < Elapsed(now, s.lastChange)
    ensures var e := Catalog[s.sensor.typeIndex];
      var r := Step(s, now, result, reply);
      r.loopState == ResponseIbs &&
      r.bus == s.bus + [SendOp(0x3C, [e.nad] + Request(s.templates, e.request)[1..])] &&
      Request(r.templates, e.request)[0] == e.nad
  {
    var e := Catalog[s.sensor.typeIndex];
    var t := Request(s.templates, e.request);
    assert WithNad(t, e.nad) == [e.nad] + t[1..];
  }

  /** No answer moves on to the next candidate, and back to no sensor after the last one. */
  lemma DiscoveryNoAnswer(s: State, now: nat, reply: seq<byte>)
    requires Valid(s) && |reply| == 8 && s.loopState.ResponseIbs?
    requires MessageDelay < Elapsed(now, s.lastChange)
    ensures var r := Step(s, now, 0, reply);
      r.sensor.typeIndex == s.sensor.typeIndex + 1 && !r.sensor.available &&
      r.bus == s.bus + [RecvOp(0x3D, 8)] &&
      (r.loopState.NoIbsConnected? <==> s.sensor.typeIndex as nat == IbsMaxCount - 1) &&
      (!r.loopState.NoIbsConnected? ==> r.loopState.RequestIbs?)
  {
  }

  /** Any nonzero receive result connects the candidate that was asked. */
  lemma DiscoveryAnswer(s: State, now: nat, result: byte, reply: seq<byte>)
    requires Valid(s) && |reply| == 8 && s.loopState.ResponseIbs? && result != 0
    requires MessageDelay < Elapsed(now, s.lastChange)
    ensures var r := Step(s, now, result, reply);
      r.sensor.available && r.sensor.connectedIndex == s.sensor.typeIndex && r.sensor.variant == reply[7] &&
      r.loopState.RequestBatteryType? && Name(r) == CatalogName(s.sensor.typeIndex as nat)
  {
  }

  /** The battery-type request goes to the connected sensor's NAD. */
  lemma BatteryTypeRequestUsesConnectedNad(s: State, now: nat, result: byte, reply: seq<byte>)
    requires Valid(s) && |reply| == 8 && s.loopState.RequestBatteryType?
    requires MessageDelay < Elapsed(now, s.lastChange)
    ensures s.sensor.connectedIndex as nat < IbsMaxCount
    ensures Step(s, now, result, reply).bus ==
      s.bus + [SendOp(0x3C, WithNad(s.templates.retrieveBatteryType, Catalog[s.sensor.connectedIndex].nad))]
  {
  }

  /** A failed read drops the sensor and leaves every telemetry field as it was. */
  lemma ReadFailureKeepsTelemetry(s: State, now: nat, reply: seq<byte>)
    requires Valid(s) && |reply| == 8 && (Fetching(s.loopState) || s.loopState.ResponseBatteryType?)
    requires MessageDelay < Elapsed(now, s.lastChange)
    ensures var r := Step(s, now, 0, reply);
      r.loopState.NoIbsConnected? && r.telemetry == s.telemetry && r.sensor.batteryType == s.sensor.batteryType
  {
  }

  /** A successful read sets exactly the fields its frame owns, from the reply bytes, and moves to the next frame of the cycle. */
  lemma ReadSuccess(s: State, now: nat, result: byte, reply: seq<byte>)
    requires Valid(s) && |reply| == 8 && Fetching(s.loopState) && result != 0
    requires MessageDelay < Elapsed(now, s.lastChange)
    ensures var r := Step(s, now, result, reply);
      var t := s.telemetry;
      r.loopState == NextRead(s.loopState) &&
      (s.loopState.ReadFrame2? ==>
        r.telemetry == t.(voltage := reply[4] as nat * 256 + reply[3] as nat,
                          current := reply[2] as int * 65536 + reply[1] as int * 256 + reply[0] as int - 2000000,
                          temperature := reply[5] as int / 2 - 40,
                          ibsError := reply[6] >= 128)) &&
      (s.loopState.ReadFrame5? ==>
        r.telemetry == t.(soc := reply[0] / 2, soh := reply[1] / 2, optChargeRaw := reply[3],
                          avgRi := reply[4] as nat + reply[5] as nat * 256)) &&
      (s.loopState.ReadFrame6? ==>
        r.telemetry == t.(availableCapacity := reply[1] as nat * 256 + reply[0] as nat,
                          dischargeableCapacity := reply[3] as nat * 256 + reply[2] as nat,
                          nominalCapacity := reply[4] as int,
                          calibrated := reply[5] % 2 == 1))
  {
  }

  /** A pending configuration is served before the next read cycle. */
  lemma PauseServesConfigurationFirst(s: State, now: nat, result: byte, reply: seq<byte>)
    requires Valid(s) && |reply| == 8 && s.loopState.PauseAfterRead?
    ensures var r := Step(s, now, result, reply);
      var e := Elapsed(now, s.lastChange);
      (s.settings.startConfigure ==> r.loopState.PrepareConfig?) &&
      (!s.settings.startConfigure ==> (r.loopState.PrepareReadStats? <==> 2000 < e || (s.settings.highSpeed && 200 < e))) &&
      r.bus == s.bus
  {
  }

  /** The four configuration frames, addressed to the connected sensor. */
  function ConfigFrames(s: State): seq<BusOp>
    requires Valid(s) && s.sensor.available
  {
    var nad := Catalog[s.sensor.connectedIndex].nad;
    var t := s.templates;
    [SendOp(0x3C, WithNad(t.retrieveCapacity, nad)),
     SendOp(0x3C, WithNad(t.writeCapacity[4 := CapacityByte(s.settings.nominalCapacity)], nad)),
     SendOp(0x3C, WithNad(t.retrieveBatteryType, nad)),
     SendOp(0x3C, WithNad(t.writeBatteryType[4 := BatteryCode(s.settings.battType)], nad))]
  }

  /** One due configuring step: sends the state's frame and keeps everything but the templates. */
  lemma ConfigSendStep(s: State, now: nat, reply: seq<byte>)
    requires Valid(s) && |reply| == 8 && Configuring(s.loopState)
    requires MessageDelay < Elapsed(now, s.lastChange)
    ensures var r := Step(s, now, 0, reply);
      r.loopState == NextConfig(s.loopState) && r.lastChange == now &&
      r.bus == s.bus + [SendOp(0x3C, WithNad(ConfigTemplate(s), Catalog[s.sensor.connectedIndex].nad))] &&
      r.sensor == s.sensor && r.settings == s.settings && r.telemetry == s.telemetry &&
      r.templates == StoreConfigTemplate(s.templates, s.loopState,
                                         WithNad(ConfigTemplate(s), Catalog[s.sensor.connectedIndex].nad))
  {
  }

  /**
   * Configuration: from PrepareConfig, five calls each more than
   * MESSAGE_DELAY after the previous one send exactly the four frames, in
   * order, and then ask for the battery type again.
   */
  lemma {:induction false} ConfigurationSequence(s: State, t0: nat, t1: nat, t2: nat, t3: nat, t4: nat, reply: seq<byte>)
    requires Valid(s) && |reply| == 8 && s.loopState.PrepareConfig?
    requires MessageDelay < Elapsed(t1, t0) && MessageDelay < Elapsed(t2, t1)
    requires MessageDelay < Elapsed(t3, t2) && MessageDelay < Elapsed(t4, t3)
    ensures var r0 := Step(s, t0, 0, reply);
      var r1 := Step(r0, t1, 0, reply);
      var r2 := Step(r1, t2, 0, reply);
      var r3 := Step(r2, t3, 0, reply);
      var r4 := Step(r3, t4, 0, reply);
      r4.loopState.RequestBatteryType? && !r4.settings.startConfigure && r4.lastChange == t4 &&
      r4.bus == s.bus + ConfigFrames(s) && r4.telemetry == s.telemetry
  {
    var frames := ConfigFrames(s);
    var r0 := Step(s, t0, 0, reply);
    assert r0 == Enter(s.(settings := s.settings.(startConfigure := false)), WriteConfigCapacityStep1, t0);
    var r1 := Step(r0, t1, 0, reply);
    ConfigSendStep(r0, t1, reply);
    assert r1.bus == s.bus + frames[..1];
    var r2 := Step(r1, t2, 0, reply);
    ConfigSendStep(r1, t2, reply);
    assert r2.bus == s.bus + frames[..2];
    var r3 := Step(r2, t3, 0, reply);
    ConfigSendStep(r2, t3, reply);
    assert r3.bus == s.bus + frames[..3];
    var r4 := Step(r3, t4, 0, reply);
    ConfigSendStep(r3, t4, reply);
    assert frames == frames[..3] + [frames[3]];
  }

  // ---------------------------------------------------------------------
  // The object
  // ---------------------------------------------------------------------

  /**
   * The sensor object together with the file-level globals it updates.
   * Related fields are kept in the records of the state above: `sensor`
   * holds ibsTypeIndex, connectedIbsIndex, available, variant and
   * batteryType; `settings` the configuration request and the high-speed
   * flag; `link` the driver, result and linInfoFrame.
   */
  class HellaIbs {
    var loopState: LoopState
    var lastLoopStateChange: nat
    var sensor: Sensor
    var settings: Settings
    var link: Link
    var telemetry: Telemetry
    /** The frame templates (globals in the source). */
    var templates: Templates
    /** Every LIN operation issued so far. */
    var bus: seq<BusOp>

    function Model(): State
      reads this
    {
      State(loopState, lastLoopStateChange, sensor, settings, link, telemetry, templates, bus)
    }

    /** Starts without a sensor and without a pending configuration. */
    constructor (now: nat)
      ensures Valid(Model())
      ensures loopState == NoIbsConnected && lastLoopStateChange == now
      ensures !settings.startConfigure && !settings.highSpeed && !sensor.available
      ensures !telemetry.calibrated && !telemetry.ibsError
      ensures !link.hasDriver && bus == []
    {
      loopState, lastLoopStateChange := NoIbsConnected, now;
      sensor := Sensor(0, 0, false, 0, 0);
      settings := Settings(false, 0, Std, false);
      link := Link(false, 0, ClearedFrame);
      telemetry := Telemetry(0, 0, 0, false, 0, 0, 0, 0, 0, 0, 0, false);
      templates := Templates(RequestGen1Var123, RequestGen2Var12, RequestGen2Var3,
                             RetrieveNominalCapacity, WriteNominalCapacity, RetrieveBatteryType, WriteBatteryType);
      bus := [];
    }

    /** setup: hands the object its LIN driver. */
    method Setup()
      modifies this`link
      ensures link == old(link).(hasDriver := true)
    {
      link := link.(hasDriver := true);
    }

    /** Requests a configuration write; it starts after the current read cycle. */
    method Configure(nominalCapacity: int, battType: BatteryType)
      requires -32768 <= nominalCapacity < 32768
      modifies this`settings
      ensures settings == old(settings).(startConfigure := true, nominalCapacity := nominalCapacity, battType := battType)
    {
      settings := settings.(startConfigure := true, nominalCapacity := nominalCapacity, battType := battType);
    }

    /** Changes only the high-speed flag. */
    method SetHighSpeedCommunication(enable: bool)
      modifies this`settings
      ensures settings == old(settings).(highSpeed := enable)
    {
      settings := settings.(highSpeed := enable);
    }

    function GetSoc(): (soc: byte)
      reads this
      ensures soc == Model().telemetry.soc
    {
      telemetry.soc
    }

    function GetSoh(): (soh: byte)
      reads this
      ensures soh == Model().telemetry.soh
    {
      telemetry.soh
    }

    function IsCalibrated(): (calibrated: bool)
      reads this
      ensures calibrated == Model().telemetry.calibrated
    {
      telemetry.calibrated
    }

    function IsError(): (error: bool)
      reads this
      ensures error == Model().telemetry.ibsError
    {
      telemetry.ibsError
    }

    function GetBatteryType(): (code: byte)
      reads this
      ensures code == Model().sensor.batteryType
    {
      sensor.batteryType
    }

    function GetNominalCapacity(): (capacity: int)
      reads this
      ensures capacity == Model().telemetry.nominalCapacity
    {
      telemetry.nominalCapacity
    }

    function IsAvailable(): (available: bool)
      reads this
      ensures available == Model().sensor.available
    {
      sensor.available
    }

    /** getName: the connected sensor's catalog name, or "unknown". */
    function GetName(): (name: string)
      reads this
      requires Valid(Model())
      ensures name == Name(Model())
    {
      if sensor.available then CatalogName(sensor.typeIndex as nat) else "unknown"
    }

    method ChangeLoopState(q: LoopState, now: nat)
      modifies this`loopState, this`lastLoopStateChange
      ensures loopState == q && lastLoopStateChange == now
    {
      loopState := q;
      lastLoopStateChange := now;
    }

    /** Sends a template patched with a NAD to the master request id and returns the patched frame. */
    method SendPatched(t: seq<byte>, nad: byte) returns (f: seq<byte>)
      requires |t| == 8
      modifies this`bus
      ensures f == WithNad(t, nad) && bus == old(bus) + [SendOp(MasterRequestId, f)]
    {
      f := t[0 := nad];
      bus := bus + [SendOp(MasterRequestId, f)];
    }

    /** Clears linInfoFrame, receives into it and records the operation and its result. */
    method ReceiveInto(id: bv8, length: nat, res: byte, reply: seq<byte>)
      modifies this`bus, this`link
      ensures bus == old(bus) + [RecvOp(id, length)] && link == old(link).(result := res, frame := reply)
    {
      link := link.(frame := ClearedFrame);
      bus := bus + [RecvOp(id, length)];
      link := link.(result := res, frame := reply);
    }

    /** loop: one step of the state machine at time `now`. */
    method Tick(now: nat, res: byte, reply: seq<byte>)
      requires Valid(Model()) && |reply| == 8
      modifies this
      ensures Model() == Step(old(Model()), now, res, reply)
      ensures Valid(Model())
    {
      var elapsed := Elapsed(now, lastLoopStateChange);
      match loopState {
        case NoIbsConnected => TickNoSensor(now, elapsed);
        case RequestIbs => TickAskCandidate(now, elapsed);
        case ResponseIbs => TickCandidateAnswer(now, elapsed, res, reply);
        case RequestBatteryType => TickAskBatteryType(now, elapsed);
        case ResponseBatteryType => TickBatteryTypeAnswer(now, elapsed, res, reply);
        case PrepareReadStats => ChangeLoopState(ReadFrame2, now);
        case ReadFrame2 | ReadFrame5 | ReadFrame6 => TickFetch(now, elapsed, res, reply);
        case PauseAfterRead => TickPause(now, elapsed);
        case PrepareConfig =>
          settings := settings.(startConfigure := false);
          ChangeLoopState(WriteConfigCapacityStep1, now);
        case WriteConfigCapacityStep1 | WriteConfigCapacityStep2 | WriteConfigBattTypeStep1 | WriteConfigBattTypeStep2 =>
          TickConfigSend(now, elapsed);
      }
    }

    method TickNoSensor(now: nat, elapsed: nat)
      requires Valid(Model()) && loopState.NoIbsConnected?
      modifies this`sensor, this`loopState, this`lastLoopStateChange
      ensures Model() == NoSensor(old(Model()), now, elapsed)
    {
      sensor := sensor.(typeIndex := 0, connectedIndex := NoIndex, available := false);
      if RetryDelay < elapsed && link.hasDriver {
        ChangeLoopState(RequestIbs, now);
      }
    }

    method TickAskCandidate(now: nat, elapsed: nat)
      requires Valid(Model()) && loopState.RequestIbs?
      modifies this`templates, this`bus, this`loopState, this`lastLoopStateChange
      ensures Model() == AskCandidate(old(Model()), now, elapsed)
    {
      if MessageDelay < elapsed {
        var entry := Catalog[sensor.typeIndex];
        var f := SendPatched(Request(templates, entry.request), entry.nad);
        templates := SetRequest(templates, entry.request, f);
        ChangeLoopState(ResponseIbs, now);
      }
    }

    method TickCandidateAnswer(now: nat, elapsed: nat, res: byte, reply: seq<byte>)
      requires Valid(Model()) && |reply| == 8 && loopState.ResponseIbs?
      modifies this`bus, this`link, this`sensor, this`loopState, this`lastLoopStateChange
      ensures Model() == CandidateAnswer(old(Model()), now, elapsed, res, reply)
    {
      if MessageDelay < elapsed {
        ReceiveInto(SlaveResponseId, 8, res, reply);
        if res == 0 {
          sensor := sensor.(typeIndex := sensor.typeIndex + 1);
          if sensor.typeIndex as nat >= IbsMaxCount {
            ChangeLoopState(NoIbsConnected, now);
          } else {
            ChangeLoopState(RequestIbs, now);
          }
        } else {
          sensor := sensor.(connectedIndex := sensor.typeIndex, available := true, variant := link.frame[7]);
          ChangeLoopState(RequestBatteryType, now);
        }
      }
    }

    method TickAskBatteryType(now: nat, elapsed: nat)
      requires Valid(Model()) && loopState.RequestBatteryType?
      modifies this`templates, this`bus, this`loopState, this`lastLoopStateChange
      ensures Model() == AskBatteryType(old(Model()), now, elapsed)
    {
      if MessageDelay < elapsed {
        var f := SendPatched(templates.retrieveBatteryType, Catalog[sensor.typeIndex].nad);
        templates := templates.(retrieveBatteryType := f);
        ChangeLoopState(ResponseBatteryType, now);
      }
    }

    method TickBatteryTypeAnswer(now: nat, elapsed: nat, res: byte, reply: seq<byte>)
      requires Valid(Model()) && |reply| == 8 && loopState.ResponseBatteryType?
      modifies this`bus, this`link, this`sensor, this`loopState, this`lastLoopStateChange
      ensures Model() == BatteryTypeAnswer(old(Model()), now, elapsed, res, reply)
    {
      if MessageDelay < elapsed {
        ReceiveInto(SlaveResponseId, 8, res, reply);
        if res == 0 {
          ChangeLoopState(NoIbsConnected, now);
        } else {
          sensor := sensor.(batteryType := link.frame[3]);
          ChangeLoopState(PrepareReadStats, now);
        }
      }
    }

    method TickFetch(now: nat, elapsed: nat, res: byte, reply: seq<byte>)
      requires Valid(Model()) && |reply| == 8 && Fetching(loopState)
      modifies this`bus, this`link, this`telemetry, this`loopState, this`lastLoopStateChange
      ensures Model() == Fetch(old(Model()), now, elapsed, res, reply)
    {
      if MessageDelay < elapsed {
        var entry := Catalog[sensor.connectedIndex];
        ReceiveInto(FrameId(entry, loopState), FrameLength(entry, loopState), res, reply);
        if res == 0 {
          ChangeLoopState(NoIbsConnected, now);
        } else {
          var f := link.frame;
          match loopState {
            case ReadFrame2 =>
              telemetry := telemetry.(voltage := Voltage(f), current := Current(f),
                                      temperature := Temperature(f), ibsError := ErrorFlag(f));
            case ReadFrame5 =>
              telemetry := telemetry.(soc := Half(f[0]), soh := Half(f[1]), optChargeRaw := f[3], avgRi := AvgRi(f));
            case ReadFrame6 =>
              telemetry := telemetry.(availableCapacity := Capacity(f, 0), dischargeableCapacity := Capacity(f, 2),
                                      nominalCapacity := f[4] as int, calibrated := CalibratedFlag(f));
          }
          ChangeLoopState(NextRead(loopState), now);
        }
      }
    }

    method TickPause(now: nat, elapsed: nat)
      requires Valid(Model()) && loopState.PauseAfterRead?
      modifies this`loopState, this`lastLoopStateChange
      ensures Model() == Pause(old(Model()), now, elapsed)
    {
      if settings.startConfigure {
        ChangeLoopState(PrepareConfig, now);
      } else if ReadPause < elapsed || (settings.highSpeed && HighSpeedReadPause < elapsed) {
        ChangeLoopState(PrepareReadStats, now);
      }
    }

    method TickConfigSend(now: nat, elapsed: nat)
      requires Valid(Model()) && Configuring(loopState)
      modifies this`templates, this`bus, this`loopState, this`lastLoopStateChange
      ensures Model() == ConfigSend(old(Model()), now, elapsed)
    {
      if MessageDelay < elapsed {
        var nad := Catalog[sensor.connectedIndex].nad;
        match loopState {
          case WriteConfigCapacityStep1 =>
            var f := SendPatched(templates.retrieveCapacity, nad);
            templates := templates.(retrieveCapacity := f);
          case WriteConfigCapacityStep2 =>
            var f := SendPatched(templates.writeCapacity[4 := CapacityByte(settings.nominalCapacity)], nad);
            templates := templates.(writeCapacity := f);
          case WriteConfigBattTypeStep1 =>
            var f := SendPatched(templates.retrieveBatteryType, nad);
            templates := templates.(retrieveBatteryType := f);
          case WriteConfigBattTypeStep2 =>
            var f := SendPatched(templates.writeBatteryType[4 := BatteryCode(settings.battType)], nad);
            templates := templates.(writeBatteryType := f);
        }
        ChangeLoopState(NextConfig(loopState), now);
      }
    }
  }
}
