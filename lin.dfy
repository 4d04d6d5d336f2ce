/**
 * Bus master side of a LIN 2.1 bus (LinDriver): frame header with break,
 * sync byte and protected identifier, the classic/enhanced checksum, and
 * the polled receive with its cumulative timeout.
 *
 * The serial port is modelled as an output trace `tx` of wire symbols and a
 * scripted input queue `rx`: every arrival says after how many 100 µs polls
 * the byte becomes readable.  Timing of the break itself and the pin levels
 * other than transmit-enable are not modelled.
 */
module Lin {

  /** An unsigned 8-bit value (uint8_t). */
  newtype byte = x: int | 0 <= x < 256

  // ---------------------------------------------------------------------
  // Protocol constants (include/LinDriver.h)
  // ---------------------------------------------------------------------

  /** Bit times of a break field. */
  const BreakDuration: nat := 15
  /** A read times out after this many maximal frame times. */
  const TimeoutInFrames: nat := 2
  /** The byte written at half the baud rate to produce the break. */
  const HeaderBreak: byte := 0x80
  /** Sync field, section 2.3.1.2 of the LIN 2.1 specification. */
  const HeaderSync: byte := 0x55
  /** Master request and slave response identifiers of diagnostic frames. */
  const MasterRequestId: bv8 := 0x3C
  const SlaveResponseId: bv8 := 0x3D
  /** Default protocol version of send and recv (enhanced checksum). */
  const DefaultProto: nat := 2
  /** One poll of the receive loops waits this many microseconds. */
  const PollStep: nat := 100

  // ---------------------------------------------------------------------
  // Protected identifier (section 2.3.1.3 of LIN 2.1), on bit vectors
  // ---------------------------------------------------------------------

  /** Bit `shift` of `data`, as 0 or 1. */
  function BitExtract(data: bv8, shift: bv8): (r: bv8)
    requires shift < 8
    ensures r == 0 || r == 1
    ensures r == (data >> shift) & 1
  {
    (data & (1 << shift)) >> shift
  }

  /** P0 = ID0 xor ID1 xor ID2 xor ID4, as the LIN standard writes it. */
  function P0(id: bv8): bv8 {
    (id ^ (id >> 1) ^ (id >> 2) ^ (id >> 4)) & 1
  }

  /** P1 = not (ID1 xor ID3 xor ID4 xor ID5). */
  function P1(id: bv8): bv8 {
    !((id >> 1) ^ (id >> 3) ^ (id >> 4) ^ (id >> 5)) & 1
  }

  /** The two parity bits of an identifier, in bits 6 and 7. */
  function AddrParity(addr: bv8): (r: bv8)
    ensures r == (P0(addr) << 6) | (P1(addr) << 7)
    ensures r & 0x3F == 0
  {
    var p0 := BitExtract(addr, 0) ^ BitExtract(addr, 1) ^ BitExtract(addr, 2) ^ BitExtract(addr, 4);
    var p1 := !(BitExtract(addr, 1) ^ BitExtract(addr, 3) ^ BitExtract(addr, 4) ^ BitExtract(addr, 5));
    (p0 | (p1 << 1)) << 6
  }

  /** The identifier byte: six identifier bits under the two parity bits. */
  function PidBits(addr: bv8): (r: bv8)
    ensures r & 0x3F == addr & 0x3F
    ensures r & 0xC0 == AddrParity(addr)
  {
    (addr & 0x3F) | AddrParity(addr)
  }

  /** A slave accepts an identifier byte whose parity bits match its low six bits. */
  predicate ValidPidBits(b: bv8) {
    PidBits(b & 0x3F) == b
  }

  /** Only the six identifier bits influence the parity. */
  lemma ParityIgnoresHighBits(addr: bv8)
    ensures AddrParity(addr) == AddrParity(addr & 0x3F)
    ensures PidBits(addr) == PidBits(addr & 0x3F)
  {
  }

  /** Every identifier byte the master sends passes the slave's parity check. */
  lemma PidBitsValid(addr: bv8)
    ensures ValidPidBits(PidBits(addr))
  {
  }

  /** Every single-bit error in an identifier byte is detected by the parity. */
  lemma PidDetectsSingleBitErrors(addr: bv8, k: bv8)
    requires k < 8
    ensures !ValidPidBits(PidBits(addr) ^ (1 << k))
  {
  }

  // ---------------------------------------------------------------------
  // Protected identifier on bytes
  // ---------------------------------------------------------------------

  /** `(addr & 0x3f) | addrParity(addr)`, as sent after the sync byte. */
  function Pid(addr: bv8): byte
  {
    PidBits(addr) as int as byte
  }

  predicate ValidPid(b: byte) {
    ValidPidBits(b as bv8)
  }

  /** Masking a protected identifier recovers the identifier; the parity checks. */
  lemma PidRoundTrip(id: bv8)
    requires id < 64
    ensures Pid(id) as int % 64 == id as int
    ensures ValidPid(Pid(id))
  {
    var p := PidBits(id);
    PidBitsValid(id);
    LowSixBits(p);
    LowSixBits(id);
    assert (p & 0x3F) as int == (id & 0x3F) as int;
  }

  /** Masking with 0x3F is the remainder modulo 64. */
  lemma LowSixBits(b: bv8)
    ensures (b & 0x3F) as int == b as int % 64
  {
  }

  /** The two diagnostic identifiers as they appear on the wire. */
  lemma PidDiagnosticVectors()
    ensures Pid(MasterRequestId) == 0x3C
    ensures Pid(SlaveResponseId) == 0x7D
  {
  }

  // ---------------------------------------------------------------------
  // Checksum (section 2.3.1.5 of LIN 2.1)
  // ---------------------------------------------------------------------

  /** Sum of the bytes as unbounded integers. */
  function Sum(bytes: seq<byte>): nat
  {
    if bytes == [] then 0 else Sum(bytes[..|bytes| - 1]) + bytes[|bytes| - 1] as nat
  }

  lemma SumAppend(bytes: seq<byte>, b: byte)
    ensures Sum(bytes + [b]) == Sum(bytes) + b as nat
  {
    assert (bytes + [b])[..|bytes|] == bytes;
  }

  lemma FoldStep(sum: nat)
    requires sum >= 256
    ensures (sum % 256 + sum / 256) % 255 == sum % 255
    ensures sum % 256 + sum / 256 < sum
    ensures sum % 256 + sum / 256 > 0
  {
    var q, m := sum / 256, sum % 256;
    assert sum == 255 * q + (q + m);
  }

  /** Folds the carries back into the low byte until the sum fits 8 bits. */
  function EndAroundCarry(sum: nat): (r: nat)
    ensures r < 256
    ensures r % 255 == sum % 255
    ensures r == 0 <==> sum == 0
    decreases sum
  {
    if sum >= 256 then
      FoldStep(sum);
      EndAroundCarry(sum % 256 + sum / 256)
    else
      sum
  }

  lemma ComplementMultiple(f: nat, total: nat)
    requires f < 256 && f % 255 == total % 255
    ensures (255 - f + total) % 255 == 0
  {
    var p, q := f / 255, total / 255;
    assert f == 255 * p + total % 255;
    assert total == 255 * q + total % 255;
    assert p <= 1;
    assert 255 - f + total == 255 * (1 - p + q);
  }

  /**
   * The inverted carry-folded sum of `start` and the bytes: the value that
   * makes the whole sum a multiple of 255, and 0xFF only for an all-zero sum.
   */
  function Checksum(bytes: seq<byte>, start: nat): (ck: byte)
    ensures (ck as nat + start + Sum(bytes)) % 255 == 0
    ensures ck == 0xFF <==> start + Sum(bytes) == 0
  {
    var total := start + Sum(bytes);
    var f := EndAroundCarry(total);
    ComplementMultiple(f, total);
    (255 - f) as byte
  }

  lemma MultipleOf255(x: nat, t: nat)
    requires x < 255 && (x + t) % 255 == 0 && t % 255 == 0
    ensures x == 0
  {
    var p, q := (x + t) / 255, t / 255;
    assert x + t == 255 * p && t == 255 * q;
    assert x == 255 * (p - q);
  }

  /** Appending the checksum and recomputing with the same start yields zero. */
  lemma ChecksumSelfCheck(bytes: seq<byte>, start: nat)
    ensures Checksum(bytes + [Checksum(bytes, start)], start) == 0
  {
    var c := Checksum(bytes, start);
    SumAppend(bytes, c);
    var total := start + Sum(bytes + [c]);
    assert total == c as nat + start + Sum(bytes);
    var ck := Checksum(bytes + [c], start);
    MultipleOf255(ck as nat, total);
  }

  /** Checksum start: 0 for LIN 1.x and for the diagnostic id, else the PID. */
  function ChecksumStart(addr: bv8, proto: nat, diagnosticId: bv8): (s: nat)
    ensures s < 256
    ensures proto == 1 || addr == diagnosticId ==> s == 0
    ensures !(proto == 1 || addr == diagnosticId) ==> s == Pid(addr) as nat
  {
    if proto == 1 || addr == diagnosticId then 0 else Pid(addr) as nat
  }

  /**
   * dataChecksum: the two loops of the source, proved against Checksum.
   * Both callers pass a byte seed, so the source's 16-bit sum never wraps.
   */
  method DataChecksum(message: seq<byte>, start: nat) returns (ck: byte)
    requires |message| < 128 && start < 256
    ensures ck == Checksum(message, start)
  {
    var sum: nat := start;
    var i := 0;
    while i < |message|
      invariant 0 <= i <= |message|
      invariant sum == start + Sum(message[..i])
      invariant sum < 256 * (i + 1) <= 65536
    {
      assert message[..i + 1] == message[..i] + [message[i]];
      SumAppend(message[..i], message[i]);
      sum := sum + message[i] as nat;
      i := i + 1;
    }
    assert message[..i] == message;
    while sum >= 256
      invariant EndAroundCarry(sum) == EndAroundCarry(start + Sum(message))
      decreases sum
    {
      FoldStep(sum);
      sum := sum % 256 + sum / 256;
    }
    ck := (255 - sum) as byte;
  }

  // ---------------------------------------------------------------------
  // Wire format
  // ---------------------------------------------------------------------

  /** What the master puts on the bus: a break, or one byte. */
  datatype Wire = Break | Byte(value: byte)

  /** A byte delivered by a slave after `wait` polls of the receive loop. */
  datatype Arrival = Arrival(wait: nat, value: byte)

  function Bytes(s: seq<byte>): (w: seq<Wire>)
    ensures |w| == |s|
    ensures forall k :: 0 <= k < |s| ==> w[k] == Byte(s[k])
  {
    if s == [] then [] else [Byte(s[0])] + Bytes(s[1..])
  }

  /** Break, sync byte and protected identifier. */
  function Header(addr: bv8): seq<Wire> {
    [Break, Byte(HeaderSync), Byte(Pid(addr))]
  }

  /** The complete frame `send` puts on the bus. */
  function SendFrame(addr: bv8, message: seq<byte>, proto: nat): (w: seq<Wire>)
    ensures |w| == |message| + 4
    ensures w[..3] == Header(addr)
    ensures forall k :: 0 <= k < |message| ==> w[3 + k] == Byte(message[k])
    ensures w[|message| + 3] == Byte(Checksum(message, ChecksumStart(addr, proto, MasterRequestId)))
  {
    Header(addr) + Bytes(message) + [Byte(Checksum(message, ChecksumStart(addr, proto, MasterRequestId)))]
  }

  datatype Option<T> = None | Some(value: T)

  /**
   * What a slave makes of a frame of `n` data bytes: the identifier and the
   * data, if the break, sync, parity and checksum are all right.  Diagnostic
   * master requests carry the classic checksum.
   */
  function ParseFrame(w: seq<Wire>, n: nat, proto: nat): Option<(byte, seq<byte>)>
  {
    if |w| != n + 4 || w[0] != Break || w[1] != Byte(HeaderSync) || !w[2].Byte? || !ValidPid(w[2].value) then None
    else if exists k :: 3 <= k < n + 4 && !w[k].Byte? then None
    else
      var pid := w[2].value;
      var data := seq(n, k requires 0 <= k < n => w[3 + k].value);
      var start := if proto == 1 || pid == Pid(MasterRequestId) then 0 else pid as nat;
      if Checksum(data, start) == w[n + 3].value then Some((pid % 64, data)) else None
  }

  /** A frame sent to a six-bit identifier is parsed back to the same identifier and data. */
  lemma SendParseRoundTrip(addr: bv8, message: seq<byte>, proto: nat)
    requires addr < 64
    ensures ParseFrame(SendFrame(addr, message, proto), |message|, proto) == Some((addr as int as byte, message))
  {
    var w := SendFrame(addr, message, proto);
    var n := |message|;
    PidRoundTrip(addr);
    PidRoundTrip(MasterRequestId);
    assert Pid(addr) == Pid(MasterRequestId) <==> addr == MasterRequestId;
    assert w[0] == Break && w[1] == Byte(HeaderSync) && w[2] == Byte(Pid(addr));
    assert forall k :: 3 <= k < n + 4 ==> w[k].Byte? by {
      forall k | 3 <= k < n + 4 ensures w[k].Byte? {
        if k < n + 3 { assert w[3 + (k - 3)] == Byte(message[k - 3]); }
      }
    }
    var data := seq(n, k requires 0 <= k < n => w[3 + k].value);
    assert data == message;
  }

  // ---------------------------------------------------------------------
  // Receive, in closed form
  // ---------------------------------------------------------------------

  /** Readable bytes left over from earlier traffic are discarded first. */
  function Drain(rx: seq<Arrival>): (r: seq<Arrival>)
    ensures |r| <= |rx| && r == rx[|rx| - |r|..]
    ensures r == [] || r[0].wait > 0
    ensures forall k :: 0 <= k < |rx| - |r| ==> rx[k].wait == 0
  {
    if rx != [] && rx[0].wait == 0 then Drain(rx[1..]) else rx
  }

  /** Polls spent waiting for the first `k` bytes, cumulatively. */
  function Waits(rx: seq<Arrival>, k: nat): nat
    requires k <= |rx|
  {
    if k == 0 then 0 else Waits(rx, k - 1) + rx[k - 1].wait
  }

  lemma {:induction false} WaitsMonotone(rx: seq<Arrival>, j: nat, k: nat)
    requires j <= k <= |rx|
    ensures Waits(rx, j) <= Waits(rx, k)
    decreases k - j
  {
    if j < k { WaitsMonotone(rx, j, k - 1); }
  }

  /**
   * Byte `k` (the checksum byte is number n) is read before the receive loops
   * give up: it exists, and the polls spent up to it, all counted at 100 µs,
   * stay below the timeout (no poll at all is needed if it is already there).
   */
  predicate InTime(rx: seq<Arrival>, k: nat, timeout: nat) {
    k < |rx| && (Waits(rx, k + 1) == 0 || 100 * Waits(rx, k + 1) < timeout)
  }

  lemma InTimeEarlier(rx: seq<Arrival>, j: nat, k: nat, timeout: nat)
    requires j <= k && InTime(rx, k, timeout)
    ensures InTime(rx, j, timeout)
  {
    WaitsMonotone(rx, j + 1, k + 1);
  }

  /** How many of the first n bytes are read: they form a prefix. */
  function Arrived(rx: seq<Arrival>, n: nat, timeout: nat): (a: nat)
    ensures a <= n
    ensures forall k :: 0 <= k < a ==> InTime(rx, k, timeout)
    ensures a < n ==> !InTime(rx, a, timeout)
  {
    if n == 0 then 0
    else if InTime(rx, n - 1, timeout) then
      forall k | 0 <= k < n ensures InTime(rx, k, timeout) { InTimeEarlier(rx, k, n - 1, timeout); }
      n
    else Arrived(rx, n - 1, timeout)
  }

  /** Bytes equal to the break or sync value that come before any stored byte are dropped. */
  predicate IsHeaderEcho(b: byte) {
    b == HeaderBreak || b == HeaderSync
  }

  /** The number of leading header-valued bytes among the first a. */
  function Skipped(rx: seq<Arrival>, a: nat): (z: nat)
    requires a <= |rx|
    ensures z <= a
    ensures forall k :: 0 <= k < z ==> IsHeaderEcho(rx[k].value)
    ensures z < a ==> !IsHeaderEcho(rx[z].value)
  {
    if a == 0 then 0
    else if Skipped(rx, a - 1) == a - 1 && IsHeaderEcho(rx[a - 1].value) then a
    else Skipped(rx, a - 1)
  }

  /** The receive buffer after positions z..a-1 got the arrived bytes. */
  function Stored(message: seq<byte>, rx: seq<Arrival>, z: nat, a: nat): (m: seq<byte>)
    requires z <= a <= |message| && a <= |rx|
    ensures |m| == |message|
    ensures forall k :: 0 <= k < |m| ==> m[k] == if z <= k < a then rx[k].value else message[k]
  {
    seq(|message|, k requires 0 <= k < |message| => if z <= k < a then rx[k].value else message[k])
  }

  /** Polls made before the loops give up: the first multiple of 100 µs reaching the timeout. */
  function PollBudget(timeout: nat): (m: nat)
    ensures m >= 1
    ensures 100 * m >= timeout
    ensures m == 1 || 100 * (m - 1) < timeout
  {
    if timeout == 0 then 1 else (timeout + 99) / 100
  }

  /** The polls made before giving up are exactly the poll budget. */
  lemma PollBudgetUnique(c: nat, timeout: nat)
    requires c >= 1 && 100 * c >= timeout
    requires c == 1 || 100 * (c - 1) < timeout
    ensures c == PollBudget(timeout)
  {
  }

  /** Input left after the loops gave up waiting for byte a. */
  function RestAfterTimeout(rx: seq<Arrival>, a: nat, timeout: nat): seq<Arrival>
    requires a <= |rx|
    requires a < |rx| ==> !InTime(rx, a, timeout)
  {
    if a == |rx| then []
    else [Arrival(Waits(rx, a + 1) - PollBudget(timeout), rx[a].value)] + rx[a + 1..]
  }

  datatype RecvOutcome = RecvOutcome(result: byte, message: seq<byte>, rest: seq<Arrival>)

  /**
   * What recv returns, leaves in the buffer and leaves in the input, given the
   * input after draining: 0xFF when the n data bytes and the checksum byte all
   * came in time and the checksum matched; otherwise the number of bytes
   * stored plus one if the checksum byte came.
   */
  function Receive(rx: seq<Arrival>, message: seq<byte>, n: nat, timeout: nat, start: nat): (o: RecvOutcome)
    requires n <= |message| && n < 128
    ensures |o.message| == |message|
    ensures o.result == 0xFF || o.result as nat <= n + 1
    ensures o.result == 0xFF ==> InTime(rx, n, timeout)
  {
    var a := Arrived(rx, n, timeout);
    assert a > 0 ==> InTime(rx, a - 1, timeout);
    var z := Skipped(rx, a);
    var m := Stored(message, rx, z, a);
    if InTime(rx, n, timeout) then
      var ck := Checksum(m[..n], start);
      RecvOutcome(if ck == rx[n].value then 0xFF else (n - z + 1) as byte, m, rx[n + 1..])
    else
      RecvOutcome((a - z) as byte, m, RestAfterTimeout(rx, a, timeout))
  }

  /** Nothing readable in time: recv returns 0 and leaves the buffer as it was. */
  lemma ReceiveNothing(rx: seq<Arrival>, message: seq<byte>, n: nat, timeout: nat, start: nat)
    requires n <= |message| && n < 128
    requires !InTime(rx, 0, timeout)
    ensures Receive(rx, message, n, timeout, start).result == 0
    ensures Receive(rx, message, n, timeout, start).message == message
  {
    if n > 0 { assert Arrived(rx, n, timeout) == 0; }
    else { assert !InTime(rx, n, timeout); }
  }

  /** The bytes of a slave response, each after the given number of polls. */
  function Respond(bytes: seq<byte>, waits: seq<nat>): (rx: seq<Arrival>)
    requires |waits| == |bytes|
    ensures |rx| == |bytes|
    ensures forall k :: 0 <= k < |bytes| ==> rx[k] == Arrival(waits[k], bytes[k])
  {
    seq(|bytes|, k requires 0 <= k < |bytes| => Arrival(waits[k], bytes[k]))
  }

  /**
   * A slave response whose data and checksum all arrive within the timeout is
   * reported as good (0xFF) and lands in the buffer unchanged, unless its first
   * byte happens to equal the break or sync value.
   */
  lemma ReceiveGoodResponse(data: seq<byte>, waits: seq<nat>, message: seq<byte>, timeout: nat, start: nat)
    requires |data| <= |message| && |data| < 128 && |waits| == |data| + 1
    requires data != [] ==> !IsHeaderEcho(data[0])
    requires var rx := Respond(data + [Checksum(data, start)], waits);
      Waits(rx, |rx|) == 0 || 100 * Waits(rx, |rx|) < timeout
    ensures var o := Receive(Respond(data + [Checksum(data, start)], waits), message, |data|, timeout, start);
      o.result == 0xFF && o.message[..|data|] == data
  {
    var n := |data|;
    var rx := Respond(data + [Checksum(data, start)], waits);
    assert InTime(rx, n, timeout);
    var a := Arrived(rx, n, timeout);
    assert a == n;
    if n > 0 {
      assert rx[0].value == (data + [Checksum(data, start)])[0] == data[0];
    }
    var z := Skipped(rx, a);
    assert z == 0;
    var m := Stored(message, rx, z, a);
    assert m[..n] == data by {
      forall k | 0 <= k < n ensures m[k] == data[k] { assert rx[k].value == (data + [Checksum(data, start)])[k]; }
    }
    assert rx[n].value == Checksum(data, start);
  }

  /**
   * The skip rule also drops a genuine first data byte equal to 0x55: the
   * buffer keeps its old first byte and the frame counts as a bad checksum.
   */
  lemma ReceiveDropsLeadingSyncValue()
    ensures var rx := Respond([0x55, Checksum([0x55], 0)], [1, 0]);
      Receive(rx, [0x00], 1, 17360, 0) == RecvOutcome(1, [0x00], [])
  {
    var rx := Respond([0x55, Checksum([0x55], 0)], [1, 0]);
    assert Waits(rx, 1) == 1 && Waits(rx, 2) == 1;
    assert InTime(rx, 1, 17360);
    assert Arrived(rx, 1, 17360) == 1;
    assert Skipped(rx, 1) == 1;
    var m := Stored([0x00], rx, 1, 1);
    assert m == [0x00];
    assert Sum([0x00]) == 0 && Sum([0x55]) == 0x55;
    assert Checksum(m[..1], 0) == 0xFF;
    assert Checksum([0x55], 0) != 0xFF;
  }

  /** A byte read after `spent` more polls under the running count arrived in time. */
  lemma ArrivedInTime(rx: seq<Arrival>, i: nat, timeout: nat, spent: nat)
    requires i < |rx| && rx[i].wait == spent
    requires 100 * (Waits(rx, i) + spent) == 0 || 100 * (Waits(rx, i) + spent) < timeout
    ensures InTime(rx, i, timeout)
    ensures rx[i..][1..] == rx[i + 1..]
  {
    assert Waits(rx, i + 1) == Waits(rx, i) + spent;
  }

  /** The input left when polling for byte a ran out of budget. */
  lemma TimeoutRest(rx: seq<Arrival>, a: nat, timeout: nat, spent: nat)
    requires a <= |rx|
    requires a < |rx| ==> spent <= rx[a].wait
    requires spent >= 1 && 100 * (Waits(rx, a) + spent) >= timeout
    requires Waits(rx, a) + spent == 1 || 100 * (Waits(rx, a) + spent - 1) < timeout
    ensures !InTime(rx, a, timeout)
    ensures a < |rx| ==> RestAfterTimeout(rx, a, timeout) == [Arrival(rx[a].wait - spent, rx[a].value)] + rx[a + 1..]
    ensures a == |rx| ==> RestAfterTimeout(rx, a, timeout) == []
  {
    var c := Waits(rx, a) + spent;
    PollBudgetUnique(c, timeout);
    if a < |rx| {
      var w := Waits(rx, a + 1);
      assert w == Waits(rx, a) + rx[a].wait;
      assert w >= c && 100 * w >= 100 * c;
      assert !InTime(rx, a, timeout);
      assert w - PollBudget(timeout) == rx[a].wait - spent;
    }
  }

  /** Storing the next byte extends the stored range by one. */
  lemma StoredStep(message: seq<byte>, rx: seq<Arrival>, z: nat, i: nat)
    requires z <= i < |message| && i < |rx|
    ensures Stored(message, rx, z, i)[i := rx[i].value] == Stored(message, rx, z, i + 1)
  {
  }

  /** Skipping the next byte leaves the buffer untouched. */
  lemma StoredSkip(message: seq<byte>, rx: seq<Arrival>, i: nat)
    requires i < |message| && i < |rx|
    ensures Stored(message, rx, i, i) == Stored(message, rx, i + 1, i + 1) == message
  {
  }

  /** Arrived is the index where the loops stopped. */
  lemma ArrivedAt(rx: seq<Arrival>, n: nat, timeout: nat, i: nat)
    requires i <= n
    requires forall k :: 0 <= k < i ==> InTime(rx, k, timeout)
    requires i < n ==> !InTime(rx, i, timeout)
    ensures Arrived(rx, n, timeout) == i
  {
  }

  /** recv's result once the checksum byte came in time. */
  lemma ReceiveChecked(rx: seq<Arrival>, message: seq<byte>, n: nat, timeout: nat, start: nat)
    requires n <= |message| && n < 128
    requires forall k :: 0 <= k < n ==> InTime(rx, k, timeout)
    requires InTime(rx, n, timeout)
    ensures var z := Skipped(rx, n);
      var m := Stored(message, rx, z, n);
      Receive(rx, message, n, timeout, start)
        == RecvOutcome(if Checksum(m[..n], start) == rx[n].value then 0xFF else (n - z + 1) as byte, m, rx[n + 1..])
  {
    ArrivedAt(rx, n, timeout, n);
  }

  /** recv's result when a data byte or the checksum byte did not come in time. */
  lemma ReceiveTimedOut(rx: seq<Arrival>, message: seq<byte>, n: nat, timeout: nat, start: nat, i: nat)
    requires n <= |message| && n < 128 && i <= n && i <= |rx|
    requires forall k :: 0 <= k < i ==> InTime(rx, k, timeout)
    requires !InTime(rx, i, timeout)
    ensures var z := Skipped(rx, i);
      Receive(rx, message, n, timeout, start)
        == RecvOutcome((i - z) as byte, Stored(message, rx, z, i), RestAfterTimeout(rx, i, timeout))
  {
    ArrivedAt(rx, n, timeout, i);
    if i < n && InTime(rx, n, timeout) {
      InTimeEarlier(rx, i, n, timeout);
    }
  }

  /** What the two reading loops leave behind determines recv's outcome. */
  lemma ReceiveSteps(rx: seq<Arrival>, message: seq<byte>, n: nat, timeout: nat, start: nat,
                     i: nat, checked: bool, ck: byte, m: seq<byte>, rest: seq<Arrival>)
    requires n <= |message| && n < 128 && i <= n && i <= |rx|
    requires forall k :: 0 <= k < i ==> InTime(rx, k, timeout)
    requires m == Stored(message, rx, Skipped(rx, i), i)
    requires checked ==> i == n && InTime(rx, i, timeout) && ck == rx[i].value && rest == rx[i + 1..]
    requires !checked ==> !InTime(rx, i, timeout) && rest == RestAfterTimeout(rx, i, timeout)
    ensures var z := Skipped(rx, i);
      Receive(rx, message, n, timeout, start)
        == RecvOutcome(if !checked then (i - z) as byte
                       else if Checksum(m[..n], start) == ck then 0xFF
                       else (n - z + 1) as byte, m, rest)
  {
    if checked {
      ReceiveChecked(rx, message, n, timeout, start);
    } else {
      ReceiveTimedOut(rx, message, n, timeout, start, i);
    }
  }

  // ---------------------------------------------------------------------
  // The driver
  // ---------------------------------------------------------------------

  /** Read timeout in µs: two frame times of 124 bit times, with 40 % slack. */
  function FrameTimeout(baudrate: nat): (t: nat)
    requires baudrate > 0
    ensures t == 2 * 14 * 124 * (100000 / baudrate)
  {
    var tbit := 100000 / baudrate;
    var nominalFrameTime := 34 * tbit + 90 * tbit;
    TimeoutInFrames * 14 * nominalFrameTime
  }

  lemma FrameTimeoutAt19200()
    ensures FrameTimeout(19200) == 17360
  {
  }

  class LinDriver {
    var baudrate: nat
    /** Whether the serial port has been begun. */
    var serialOn: bool
    /** Receive timeout in µs, set by Begin. */
    var timeout: nat
    /** Level of the transmit-enable pin: high while the master drives the bus. */
    var txeHigh: bool
    /** Everything written to the bus, oldest first. */
    var tx: seq<Wire>
    /** Input still to come from the slaves. */
    var rx: seq<Arrival>

    constructor (baudrate: nat, input: seq<Arrival>)
      ensures this.baudrate == baudrate && !serialOn && timeout == 0
      ensures tx == [] && rx == input
    {
      this.baudrate := baudrate;
      serialOn := false;
      timeout := 0;
      txeHigh := false;
      tx := [];
      rx := input;
    }

    method Begin()
      requires baudrate > 0
      modifies this`serialOn, this`timeout, this`txeHigh
      ensures serialOn && txeHigh && timeout == FrameTimeout(baudrate)
    {
      serialOn := true;
      var tbit := 100000 / baudrate;
      var nominalFrameTime := 34 * tbit + 90 * tbit;
      timeout := TimeoutInFrames * 14 * nominalFrameTime;
      txeHigh := true;
    }

    /** The break; its duration and the baud-rate switch are not modelled. */
    method SendBreak()
      modifies this`tx
      ensures tx == old(tx) + [Break]
    {
      tx := tx + [Break];
    }

    /** Break, sync byte and protected identifier; returns the identifier byte. */
    method WriteHeader(addr: bv8) returns (idByte: byte)
      modifies this`tx
      ensures idByte == Pid(addr)
      ensures tx == old(tx) + Header(addr)
    {
      SendBreak();
      tx := tx + [Byte(HeaderSync)];
      idByte := Pid(addr);
      tx := tx + [Byte(idByte)];
    }

    method Send(addr: bv8, message: seq<byte>, proto: nat)
      requires |message| < 128
      modifies this`tx
      ensures tx == old(tx) + SendFrame(addr, message, proto)
    {
      var addrbyte := Pid(addr);
      var start := if proto == 1 || addr == MasterRequestId then 0 else addrbyte as nat;
      var cksum := DataChecksum(message, start);
      ghost var t0 := tx;
      addrbyte := WriteHeader(addr);
      tx := tx + Bytes(message);
      tx := tx + [Byte(cksum)];
      assert tx == t0 + (Header(addr) + Bytes(message) + [Byte(cksum)]);
    }

    /** Sends the go-to-sleep command: id 0x3C, data 0x00 then seven 0xFF. */
    method BusSleep()
      modifies this`tx
      ensures tx == old(tx) + SendFrame(MasterRequestId, [0x00, 0xFF, 0xFF, 0xFF, 0xFF, 0xFF, 0xFF, 0xFF], DefaultProto)
    {
      Send(MasterRequestId, [0x00, 0xFF, 0xFF, 0xFF, 0xFF, 0xFF, 0xFF, 0xFF], DefaultProto);
    }

    /**
     * Polls in steps of 100 µs until the next byte is readable or the running
     * count reaches the timeout; reads the byte if one came.
     */
    method PollForByte(count: nat) returns (got: bool, b: byte, count': nat, ghost spent: nat)
      requires count == 0 || count < timeout
      modifies this`rx
      ensures count' == count + 100 * spent
      ensures got <==> old(rx) != [] && (old(rx)[0].wait == 0 || count + 100 * old(rx)[0].wait < timeout)
      ensures got ==> b == old(rx)[0].value && rx == old(rx)[1..] && spent == old(rx)[0].wait
      ensures got ==> count' == 0 || count' < timeout
      ensures !got ==> spent >= 1 && count' >= timeout && (spent == 1 || count + 100 * (spent - 1) < timeout)
      ensures !got && old(rx) != [] ==> spent <= old(rx)[0].wait
      ensures !got && old(rx) != [] ==> rx == [Arrival(old(rx)[0].wait - spent, old(rx)[0].value)] + old(rx)[1..]
      ensures !got && old(rx) == [] ==> rx == []
    {
      count' := count;
      spent := 0;
      while !(rx != [] && rx[0].wait == 0)
        invariant count' == count + 100 * spent
        invariant count' == 0 || count' < timeout
        invariant old(rx) == [] ==> rx == []
        invariant old(rx) != [] ==> spent <= old(rx)[0].wait
        invariant old(rx) != [] ==> rx == [Arrival(old(rx)[0].wait - spent, old(rx)[0].value)] + old(rx)[1..]
        decreases timeout - count'
      {
        if rx != [] {
          rx := [Arrival(rx[0].wait - 1, rx[0].value)] + rx[1..];
        }
        count' := count' + PollStep;
        spent := spent + 1;
        if count' >= timeout {
          got, b := false, 0;
          return;
        }
      }
      got, b := true, rx[0].value;
      rx := rx[1..];
    }

    /**
     * Polls for byte i of an input rx0 of which the first i bytes have been
     * consumed, under the running count those bytes left behind.
     */
    method PollAt(count: nat, ghost rx0: seq<Arrival>, ghost i: nat) returns (got: bool, b: byte, count': nat)
      requires i <= |rx0| && rx == rx0[i..]
      requires count == 100 * Waits(rx0, i) && (count == 0 || count < timeout)
      modifies this`rx
      ensures got <==> InTime(rx0, i, timeout)
      ensures got ==> b == rx0[i].value && rx == rx0[i + 1..]
      ensures got ==> count' == 100 * Waits(rx0, i + 1) && (count' == 0 || count' < timeout)
      ensures !got ==> rx == RestAfterTimeout(rx0, i, timeout)
    {
      ghost var spent;
      got, b, count', spent := PollForByte(count);
      if got {
        ArrivedInTime(rx0, i, timeout, spent);
      } else {
        TimeoutRest(rx0, i, timeout, spent);
        if i < |rx0| {
          assert rx0[i..][1..] == rx0[i + 1..];
        }
      }
    }

    /** Discards every byte that is readable right away. */
    method DrainInput()
      modifies this`rx
      ensures rx == Drain(old(rx))
    {
      while rx != [] && rx[0].wait == 0
        invariant Drain(rx) == Drain(old(rx))
      {
        rx := rx[1..];
      }
    }

    /**
     * The data loop of recv: up to n bytes, each polled for under the running
     * count; a leading byte equal to the break or sync value is not stored,
     * but its position is still used up.
     */
    method ReadData(message: array<byte>, nBytes: nat) returns (i: nat, bytesRcvd: nat, timeoutCount: nat, timedOut: bool)
      requires nBytes <= message.Length
      modifies this`rx, message
      ensures i <= nBytes && i <= |old(rx)| && (timedOut || i == nBytes)
      ensures forall k :: 0 <= k < i ==> InTime(old(rx), k, timeout)
      ensures bytesRcvd == i - Skipped(old(rx), i)
      ensures message[..] == Stored(old(message[..]), old(rx), Skipped(old(rx), i), i)
      ensures !timedOut ==> rx == old(rx)[i..] && timeoutCount == 100 * Waits(old(rx), i)
      ensures !timedOut ==> timeoutCount == 0 || timeoutCount < timeout
      ensures timedOut ==> !InTime(old(rx), i, timeout) && rx == RestAfterTimeout(old(rx), i, timeout)
    {
      ghost var rx0 := rx;
      ghost var msg0 := message[..];
      bytesRcvd, timeoutCount := 0, 0;
      i, timedOut := 0, false;
      while i < nBytes && !timedOut
        invariant 0 <= i <= nBytes && i <= |rx0|
        invariant forall k :: 0 <= k < i ==> InTime(rx0, k, timeout)
        invariant bytesRcvd == i - Skipped(rx0, i)
        invariant message[..] == Stored(msg0, rx0, Skipped(rx0, i), i)
        invariant !timedOut ==> rx == rx0[i..] && timeoutCount == 100 * Waits(rx0, i)
        invariant !timedOut ==> timeoutCount == 0 || timeoutCount < timeout
        invariant timedOut ==> !InTime(rx0, i, timeout) && rx == RestAfterTimeout(rx0, i, timeout)
        decreases nBytes - i, if timedOut then 0 else 1
      {
        var got, b;
        got, b, timeoutCount := PollAt(timeoutCount, rx0, i);
        if !got {
          timedOut := true;
        } else {
          ghost var z := Skipped(rx0, i);
          if !(bytesRcvd == 0 && IsHeaderEcho(b)) {
            message[i] := b;
            bytesRcvd := bytesRcvd + 1;
            StoredStep(msg0, rx0, z, i);
            assert Skipped(rx0, i + 1) == z;
            assert message[..] == Stored(msg0, rx0, z, i + 1);
          } else {
            StoredSkip(msg0, rx0, i);
            assert Skipped(rx0, i + 1) == i + 1;
          }
          i := i + 1;
        }
      }
    }

    /**
     * The data loop followed by the poll for the checksum byte, under the
     * count the data loop left.
     */
    method ReadResponse(message: array<byte>, nBytes: nat) returns (i: nat, bytesRcvd: nat, checked: bool, ck: byte)
      requires nBytes <= message.Length
      modifies this`rx, message
      ensures i <= nBytes && i <= |old(rx)|
      ensures forall k :: 0 <= k < i ==> InTime(old(rx), k, timeout)
      ensures bytesRcvd == i - Skipped(old(rx), i)
      ensures message[..] == Stored(old(message[..]), old(rx), Skipped(old(rx), i), i)
      ensures checked ==> i == nBytes && InTime(old(rx), i, timeout) && ck == old(rx)[i].value && rx == old(rx)[i + 1..]
      ensures !checked ==> !InTime(old(rx), i, timeout) && rx == RestAfterTimeout(old(rx), i, timeout)
    {
      ghost var rx0 := rx;
      var timeoutCount, timedOut;
      i, bytesRcvd, timeoutCount, timedOut := ReadData(message, nBytes);
      checked, ck := false, 0;
      if !timedOut {
        checked, ck, timeoutCount := PollAt(timeoutCount, rx0, i);
      }
    }

    /** The checksum test at the end of recv; diagnostic frames use the classic checksum. */
    method ChecksumMatches(data: seq<byte>, addr: bv8, idByte: byte, proto: nat, ck: byte) returns (matched: bool)
      requires |data| < 128 && idByte == Pid(addr)
      ensures matched <==> Checksum(data, ChecksumStart(addr, proto, SlaveResponseId)) == ck
    {
      var start := idByte;
      if proto == 1 || addr == SlaveResponseId {
        start := 0;
      }
      var c := DataChecksum(data, start as nat);
      matched := c == ck;
    }

    /**
     * Everything recv does after sending the header: the data loop, the poll
     * for the checksum byte and the checksum test.
     */
    method ReadAndCheck(message: array<byte>, nBytes: nat, addr: bv8, idByte: byte, proto: nat) returns (r: byte)
      requires nBytes <= message.Length && nBytes < 128 && idByte == Pid(addr)
      modifies this`rx, message
      ensures var o := Receive(old(rx), old(message[..]), nBytes, timeout, ChecksumStart(addr, proto, SlaveResponseId));
        r == o.result && message[..] == o.message && rx == o.rest
    {
      ghost var rx0 := rx;
      ghost var msg0 := message[..];
      var i, bytesRcvd, checked, ck := ReadResponse(message, nBytes);
      ReceiveSteps(rx0, msg0, nBytes, timeout, ChecksumStart(addr, proto, SlaveResponseId), i, checked, ck, message[..], rx);
      if checked {
        bytesRcvd := bytesRcvd + 1;
        var matched := ChecksumMatches(message[..nBytes], addr, idByte, proto, ck);
        if matched {
          bytesRcvd := 0xFF;
        }
      }
      r := bytesRcvd as byte;
    }

    /**
     * Drains the input, sends the header, then reads n data bytes and the
     * checksum byte under one cumulative poll budget.
     */
    method Recv(addr: bv8, message: array<byte>, nBytes: nat, proto: nat) returns (r: byte)
      requires nBytes <= message.Length && nBytes < 128
      modifies this`tx, this`rx, this`txeHigh, message
      ensures tx == old(tx) + Header(addr)
      ensures txeHigh
      ensures var o := Receive(Drain(old(rx)), old(message[..]), nBytes, timeout, ChecksumStart(addr, proto, SlaveResponseId));
        r == o.result && message[..] == o.message && rx == o.rest
    {
      DrainInput();
      var idByte := WriteHeader(addr);
      txeHigh := false;
      ghost var before := Receive(rx, message[..], nBytes, timeout, ChecksumStart(addr, proto, SlaveResponseId));
      assert before == Receive(Drain(old(rx)), old(message[..]), nBytes, timeout, ChecksumStart(addr, proto, SlaveResponseId));
      r := ReadAndCheck(message, nBytes, addr, idByte, proto);
      txeHigh := true;
    }
  }
}
