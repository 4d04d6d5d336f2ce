/**
 * The EEPROM slot store: a 256-byte EEPROM image cut into eight contiguous
 * slots. The last byte of every slot holds the CRC-8 of the bytes before it.
 * The store offers boolean and byte-string reads and writes, a commit that
 * seals a slot with its checksum, a check-up of all slots and an erase that
 * rebuilds a valid image; a small loop runs check-up and erase at start-up.
 */
module Store {
  import opened Crc8

  const EepromSize := 256
  const SlotCount := 8

  /** Slot lengths in slot order (Wi-Fi on/off, SSID, password, Bluetooth on/off,
      four Bluetooth pairings), each counting its trailing checksum byte. */
  const Lengths: seq<int> := [2, 33, 65, 2, 12, 12, 12, 12]

  type Slot = k: int | 0 <= k < 8

  const WiFiOnOff: Slot := 0
  const WiFiSsid: Slot := 1
  const WiFiPassword: Slot := 2
  const BtOnOff: Slot := 3

  /** Byte stored by a boolean write. */
  const True: bv8 := 0x01
  const False: bv8 := 0xFE

  /** Address of slot `k`: the sum of the lengths of the slots before it
      (`Start(8)` is where the last slot ends). */
  function Start(k: int): int
    requires 0 <= k <= SlotCount
  {
    if k == 0 then 0 else Start(k - 1) + Lengths[k - 1]
  }

  /** The slots end 150 bytes into the EEPROM. */
  lemma Total()
    ensures Start(SlotCount) == 150
  {
  }

  lemma {:induction false} Monotone(j: int, k: int)
    requires 0 <= j <= k <= SlotCount
    ensures Start(j) <= Start(k)
    decreases k - j
  {
    if j < k {
      Monotone(j, k - 1);
      assert 0 < Lengths[k - 1];
    }
  }

  /** Slot `j` starts at a non-negative address and ends before slot `k` starts. */
  lemma Layout(j: int, k: int)
    requires 0 <= j < k <= SlotCount
    ensures 0 <= Start(j) && Start(j) + Lengths[j] <= Start(k) <= Start(SlotCount) == 150
  {
    Monotone(0, j);
    Monotone(j + 1, k);
    Monotone(k, SlotCount);
    Total();
  }

  /** Every slot lies inside the EEPROM and no two slots share a byte. */
  lemma SlotsDisjoint(j: Slot, k: Slot)
    ensures InBounds(Start(j), Lengths[j])
    ensures j != k ==> Start(j) + Lengths[j] <= Start(k) || Start(k) + Lengths[k] <= Start(j)
  {
    Layout(j, SlotCount);
    if j < k {
      Layout(j, k);
    } else if k < j {
      Layout(k, j);
    }
  }

  /** A slot of at least two bytes (one of data, one of checksum) inside the EEPROM. */
  predicate InBounds(start: int, len: int) {
    0 <= start && 2 <= len && start + len <= EepromSize
  }

  /** The data bytes of a slot: all but its checksum byte. */
  function Data(mem: seq<bv8>, start: int, len: int): seq<bv8>
    requires |mem| == EepromSize && InBounds(start, len)
  {
    mem[start .. start + len - 1]
  }

  /** The slot's checksum byte matches its data. */
  predicate Verifies(mem: seq<bv8>, start: int, len: int)
    requires |mem| == EepromSize && InBounds(start, len)
  {
    mem[start + len - 1] == Checksum(Data(mem, start, len))
  }

  /** The image after sealing one slot with its checksum. */
  function Committed(mem: seq<bv8>, start: int, len: int): seq<bv8>
    requires |mem| == EepromSize && InBounds(start, len)
  {
    mem[start + len - 1 := Checksum(Data(mem, start, len))]
  }

  /** Every slot of the layout verifies. */
  predicate AllVerify(mem: seq<bv8>)
    requires |mem| == EepromSize
  {
    forall k: Slot {:trigger Start(k)} :: InBounds(Start(k), Lengths[k]) && Verifies(mem, Start(k), Lengths[k])
  }

  /** After a commit the slot verifies, and no other byte has changed. */
  lemma CommitVerifies(mem: seq<bv8>, start: int, len: int)
    requires |mem| == EepromSize && InBounds(start, len)
    ensures |Committed(mem, start, len)| == EepromSize
    ensures Verifies(Committed(mem, start, len), start, len)
    ensures forall i :: 0 <= i < EepromSize && i != start + len - 1 ==> Committed(mem, start, len)[i] == mem[i]
  {
    assert Data(Committed(mem, start, len), start, len) == Data(mem, start, len);
  }

  /** Sealing a slot leaves the verdict of every slot that does not share a
      byte with it unchanged. */
  lemma CommitKeepsOthers(mem: seq<bv8>, start: int, len: int, start': int, len': int)
    requires |mem| == EepromSize && InBounds(start, len) && InBounds(start', len')
    requires start + len <= start' || start' + len' <= start
    ensures Verifies(Committed(mem, start, len), start', len') == Verifies(mem, start', len')
  {
    assert Data(Committed(mem, start, len), start', len') == Data(mem, start', len');
  }

  /** The check a slot passes is exactly a zero CRC residue over all its bytes. */
  lemma VerifiesAsResidue(mem: seq<bv8>, start: int, len: int)
    requires |mem| == EepromSize && InBounds(start, len)
    ensures Verifies(mem, start, len) <==> Checksum(mem[start .. start + len]) == 0
  {
    assert mem[start .. start + len] == Data(mem, start, len) + [mem[start + len - 1]];
    ResidueZero(Seed, Data(mem, start, len), mem[start + len - 1]);
  }

  /** A verified slot no longer verifies once any single byte of it changes. */
  lemma CorruptionDetected(mem: seq<bv8>, start: int, len: int, i: int, v: bv8)
    requires |mem| == EepromSize && InBounds(start, len) && Verifies(mem, start, len)
    requires start <= i < start + len && v != mem[i]
    ensures !Verifies(mem[i := v], start, len)
  {
    var bad := mem[i := v];
    VerifiesAsResidue(mem, start, len);
    VerifiesAsResidue(bad, start, len);
    SingleByteErrorDetected(Seed, mem[start .. start + len], bad[start .. start + len], i - start);
  }

  // ---------------------------------------------------------------------
  // Booleans

  /** The image after a boolean write followed by a commit. */
  function BooleanWritten(mem: seq<bv8>, start: int, len: int, active: bool): seq<bv8>
    requires |mem| == EepromSize && InBounds(start, len)
  {
    Committed(mem[start := if active then True else False], start, len)
  }

  /** A boolean slot reads true exactly when its first byte is 0x01. */
  function ReadBoolean(mem: seq<bv8>, start: int): bool
    requires |mem| == EepromSize && 0 <= start < EepromSize
  {
    mem[start] == True
  }

  lemma BooleanRoundTrip(mem: seq<bv8>, start: int, len: int, active: bool)
    requires |mem| == EepromSize && InBounds(start, len)
    ensures ReadBoolean(BooleanWritten(mem, start, len, active), start) == active
    ensures Verifies(BooleanWritten(mem, start, len, active), start, len)
  {
    CommitVerifies(mem[start := if active then True else False], start, len);
  }

  // ---------------------------------------------------------------------
  // Byte strings

  /** The number of bytes a string write stores: a requested length of zero,
      or one beyond the slot, means the whole slot. */
  function WriteCount(len: int, length: int): int {
    if length == 0 || length > len then len else length
  }

  /** `data` copied into the image from `start` on. */
  function Splice(mem: seq<bv8>, start: int, data: seq<bv8>): seq<bv8>
    requires 0 <= start && start + |data| <= |mem|
  {
    mem[..start] + data + mem[start + |data|..]
  }

  /** The image after a string write followed by a commit. */
  function StringWritten(mem: seq<bv8>, start: int, len: int, data: seq<bv8>, n: int): seq<bv8>
    requires |mem| == EepromSize && InBounds(start, len)
    requires 0 <= n <= len && n <= |data|
  {
    Committed(Splice(mem, start, data[..n]), start, len)
  }

  /** The bytes a string read copies out of the image. */
  function ReadBack(mem: seq<bv8>, start: int, n: int): seq<bv8>
    requires 0 <= start && 0 <= n && start + n <= |mem|
  {
    mem[start .. start + n]
  }

  /** A write of fewer bytes than the slot length reads back unchanged, and the
      slot verifies. */
  lemma StringRoundTrip(mem: seq<bv8>, start: int, len: int, data: seq<bv8>, n: int)
    requires |mem| == EepromSize && InBounds(start, len)
    requires 0 <= n < len && n <= |data|
    ensures |StringWritten(mem, start, len, data, n)| == EepromSize
    ensures ReadBack(StringWritten(mem, start, len, data, n), start, n) == data[..n]
    ensures Verifies(StringWritten(mem, start, len, data, n), start, len)
  {
    var spliced := Splice(mem, start, data[..n]);
    CommitVerifies(spliced, start, len);
    assert ReadBack(spliced, start, n) == data[..n];
    assert ReadBack(StringWritten(mem, start, len, data, n), start, n) == ReadBack(spliced, start, n);
  }

  /** As written, a write of zero bytes or of at least the slot length stores the
      whole slot, and the commit puts the checksum over the last data byte:
      whenever that byte differs from the checksum of the others, the bytes read
      back differ from the ones written. */
  lemma FullLengthWriteLosesLastByte(mem: seq<bv8>, start: int, len: int, data: seq<bv8>, length: int)
    requires |mem| == EepromSize && InBounds(start, len) && len <= |data|
    requires length == 0 || len <= length
    requires data[len - 1] != Checksum(data[..len - 1])
    ensures WriteCount(len, length) == len
    ensures ReadBack(StringWritten(mem, start, len, data, WriteCount(len, length)), start, len) != data[..len]
  {
    var spliced := Splice(mem, start, data[..len]);
    assert data[..len][..len - 1] == data[..len - 1];
    assert Data(spliced, start, len) == data[..len - 1];
    assert ReadBack(StringWritten(mem, start, len, data, len), start, len)[len - 1] == Checksum(data[..len - 1]);
  }

  /** The number of bytes a string write should store: at most the data part of
      the slot, which is one byte shorter than the slot. */
  function DataWriteCount(len: int, length: int): int {
    if length == 0 || length > len - 1 then len - 1 else length
  }

  /** With the count bounded by the data part, every write reads back unchanged. */
  lemma BoundedStringRoundTrip(mem: seq<bv8>, start: int, len: int, data: seq<bv8>, length: int)
    requires |mem| == EepromSize && InBounds(start, len) && 0 <= length
    requires DataWriteCount(len, length) <= |data|
    ensures var n := DataWriteCount(len, length);
      0 < n < len &&
      ReadBack(StringWritten(mem, start, len, data, n), start, n) == data[..n] &&
      Verifies(StringWritten(mem, start, len, data, n), start, len)
  {
    StringRoundTrip(mem, start, len, data, DataWriteCount(len, length));
  }

  // ---------------------------------------------------------------------
  // Erase

  /** The image after filling with 0xFE and sealing the first `done` slots. */
  function Erased(done: int): seq<bv8>
    requires 0 <= done <= SlotCount
    ensures |Erased(done)| == EepromSize
  {
    if done == 0 then seq(EepromSize, _ => False)
    else
      SlotsDisjoint(done - 1, done - 1);
      Committed(Erased(done - 1), Start(done - 1), Lengths[done - 1])
  }

  /** The first byte of every slot still holds the 0xFE filler after sealing. */
  lemma {:induction false} ErasedFiller(done: int, k: Slot)
    requires 0 <= done <= SlotCount
    ensures InBounds(Start(k), Lengths[k])
    ensures Erased(done)[Start(k)] == False
    decreases done
  {
    SlotsDisjoint(k, k);
    if done > 0 {
      var x := done - 1;
      ErasedFiller(x, k);
      SlotsDisjoint(x, k);
      assert Start(k) != Start(x) + Lengths[x] - 1;
    }
  }

  /** Slot `k` verifies once it was sealed: later seals touch other slots only. */
  lemma {:induction false} ErasedVerifies(done: int, k: Slot)
    requires k < done <= SlotCount
    ensures InBounds(Start(k), Lengths[k])
    ensures Verifies(Erased(done), Start(k), Lengths[k])
    decreases done
  {
    var x := done - 1;
    SlotsDisjoint(x, k);
    SlotsDisjoint(k, x);
    assert Erased(done) == Committed(Erased(x), Start(x), Lengths[x]);
    if k == x {
      CommitVerifies(Erased(x), Start(x), Lengths[x]);
    } else {
      ErasedVerifies(x, k);
      CommitKeepsOthers(Erased(x), Start(x), Lengths[x], Start(k), Lengths[k]);
    }
  }

  /** After an erase every slot verifies and both boolean slots read false. */
  lemma EraseRestores()
    ensures AllVerify(Erased(SlotCount))
    ensures !ReadBoolean(Erased(SlotCount), Start(WiFiOnOff))
    ensures !ReadBoolean(Erased(SlotCount), Start(BtOnOff))
  {
    forall k: Slot
      ensures InBounds(Start(k), Lengths[k]) && Verifies(Erased(SlotCount), Start(k), Lengths[k])
    {
      ErasedVerifies(SlotCount, k);
    }
    ErasedFiller(SlotCount, WiFiOnOff);
    ErasedFiller(SlotCount, BtOnOff);
  }

  // ---------------------------------------------------------------------
  // Start-up loop

  datatype LoopState = Checkup | EraseEeprom | Idle | Committing

  /** One run of the loop on the state and the image. */
  function LoopStep(st: LoopState, mem: seq<bv8>): (r: (LoopState, seq<bv8>))
    requires |mem| == EepromSize
    ensures |r.1| == EepromSize
  {
    match st
    case Checkup => (if AllVerify(mem) then Idle else EraseEeprom, mem)
    case EraseEeprom => (Checkup, Erased(SlotCount))
    case Idle | Committing => (st, mem)
  }

  /** Three runs of the loop from the check-up end in Idle, which then stays
      put: an image that verifies is kept untouched, any other is replaced by
      the erased image, which verifies. */
  lemma StartupSettles(mem: seq<bv8>)
    requires |mem| == EepromSize
    ensures var a := LoopStep(Checkup, mem);
      var b := LoopStep(a.0, a.1);
      var c := LoopStep(b.0, b.1);
      c.0 == Idle && c.1 == (if AllVerify(mem) then mem else Erased(SlotCount)) &&
      AllVerify(c.1) && LoopStep(c.0, c.1) == c
  {
    EraseRestores();
  }

  // ---------------------------------------------------------------------

  /** The store: the EEPROM image, the slot address table and the loop state. */
  class Persistence {
    var loopState: LoopState
    /** The EEPROM buffer. */
    const eeprom: array<bv8>
    /** Start address of every slot. */
    const addr: array<int>

    predicate Valid()
      reads addr
    {
      eeprom.Length == EepromSize && addr.Length == SlotCount &&
      forall k: Slot {:trigger addr[k]} :: InBounds(addr[k], Lengths[k])
    }

    /** The addresses follow the layout. */
    predicate Laid()
      reads addr
    {
      addr.Length == SlotCount && forall k: Slot :: addr[k] == Start(k)
    }

    /** A fresh store over the current flash contents; the address table is
        zero until `Setup`. */
    constructor (flash: seq<bv8>)
      requires |flash| == EepromSize
      ensures Valid() && fresh(eeprom) && fresh(addr)
      ensures eeprom[..] == flash && addr[..] == seq(SlotCount, _ => 0) && loopState == Checkup
    {
      eeprom := new bv8[EepromSize](i requires 0 <= i < EepromSize => flash[i]);
      addr := new int[SlotCount](_ => 0);
      loopState := Checkup;
      new;
      assert forall k: Slot :: InBounds(addr[k], Lengths[k]) by {
        assert forall k: Slot :: Lengths[k] <= 65;
      }
    }

    method Setup()
      requires eeprom.Length == EepromSize && addr.Length == SlotCount
      modifies this, addr
      ensures Valid() && Laid() && loopState == Checkup
    {
      CalculateSlotConstraints();
      loopState := Checkup;
    }

    /** Fills the address table with the running sum of the slot lengths,
        accumulated in an 8-bit counter. */
    method CalculateSlotConstraints()
      requires eeprom.Length == EepromSize && addr.Length == SlotCount
      modifies addr
      ensures Valid() && Laid()
    {
      var length := 0;
      var x := 0;
      while x < SlotCount
        invariant 0 <= x <= SlotCount
        invariant length == Start(x) % 256
        invariant forall k: Slot :: k < x ==> addr[k] == Start(k)
      {
        Layout(x, SlotCount);
        addr[x] := 0 + length;
        length := (length + Lengths[x]) % 256;
        x := x + 1;
      }
      forall k: Slot
        ensures InBounds(addr[k], Lengths[k])
      {
        SlotsDisjoint(k, k);
      }
      // the source halts when the last slot would end beyond the EEPROM
      assert addr[SlotCount - 1] + Lengths[SlotCount - 1] <= EepromSize;
    }

    function SlotLength(slot: Slot): (n: int)
      ensures 2 <= n <= 65
    {
      Lengths[slot]
    }

    /** The checksum of a slot's data, computed bit by bit. */
    method CalculateChecksum(slot: Slot) returns (checksum: bv8)
      requires Valid()
      ensures checksum == Checksum(Data(eeprom[..], addr[slot], Lengths[slot]))
    {
      var end := addr[slot] + Lengths[slot] - 1;
      checksum := Seed;
      var a := addr[slot];
      while a < end
        invariant addr[slot] <= a <= end
        invariant Fold(checksum, eeprom[a..end]) == Checksum(eeprom[addr[slot]..end])
      {
        var data := eeprom[a];
        ghost var c0, d0 := checksum, data;
        var i := 8;
        while i > 0
          invariant 0 <= i <= 8
          invariant Bits(checksum, data, i) == Byte(c0, d0)
        {
          var sum := (checksum ^ data) & 0x01;
          checksum := checksum >> 1;
          if sum != 0 {
            checksum := checksum ^ Poly;
          }
          data := data >> 1;
          i := i - 1;
        }
        assert eeprom[a..end][1..] == eeprom[a + 1..end];
        a := a + 1;
      }
    }

    /** Seals a slot with its checksum; the result is the flash commit's. */
    method Commit(slot: Slot, flashOk: bool) returns (ok: bool)
      requires Valid()
      modifies eeprom
      ensures eeprom[..] == Committed(old(eeprom[..]), addr[slot], Lengths[slot])
      ensures ok == flashOk
    {
      var crc := CalculateChecksum(slot);
      eeprom[addr[slot] + Lengths[slot] - 1] := crc;
      ok := flashOk;
    }

    method WriteSlotBoolean(slot: Slot, active: bool, flashOk: bool) returns (r: int)
      requires Valid()
      modifies eeprom
      ensures eeprom[..] == BooleanWritten(old(eeprom[..]), addr[slot], Lengths[slot], active)
      ensures r == if flashOk then 1 else 0
    {
      eeprom[addr[slot]] := if active then True else False;
      var ok := Commit(slot, flashOk);
      r := if ok then 1 else 0;
    }

    method ReadSlotBoolean(slot: Slot) returns (b: bool)
      requires Valid()
      ensures b == ReadBoolean(eeprom[..], addr[slot])
    {
      var byte := eeprom[addr[slot]];
      b := byte == True;
    }

    /** Copies `count` bytes of `data` to the slot start. */
    method CopyIn(start: int, data: seq<bv8>, count: int)
      requires eeprom.Length == EepromSize
      requires 0 <= start && 0 <= count <= |data| && start + count <= EepromSize
      modifies eeprom
      ensures eeprom[..] == Splice(old(eeprom[..]), start, data[..count])
    {
      var i := 0;
      while i < count
        invariant 0 <= i <= count
        invariant eeprom[..] == Splice(old(eeprom[..]), start, data[..i])
      {
        eeprom[start + i] := data[i];
        i := i + 1;
      }
    }

    /** The string write as the store implements it: the count is clamped to
        the whole slot, checksum byte included. */
    method WriteSlot(slot: Slot, data: seq<bv8>, length: int, flashOk: bool) returns (count: int)
      requires Valid() && 0 <= length < 256
      requires WriteCount(Lengths[slot], length) <= |data|
      modifies eeprom
      ensures eeprom[..] == StringWritten(old(eeprom[..]), addr[slot], Lengths[slot], data, WriteCount(Lengths[slot], length))
      ensures count == if flashOk then WriteCount(Lengths[slot], length) else 0
    {
      var n := length;
      if n == 0 || n > Lengths[slot] {
        n := Lengths[slot];
      }
      CopyIn(addr[slot], data, n);
      var ok := Commit(slot, flashOk);
      count := if ok then n else 0;
    }

    /** The string write with the count clamped to the data part of the slot,
        so that the checksum never overwrites written data. */
    method WriteSlotData(slot: Slot, data: seq<bv8>, length: int, flashOk: bool) returns (count: int)
      requires Valid() && 0 <= length < 256
      requires DataWriteCount(Lengths[slot], length) <= |data|
      modifies eeprom
      ensures eeprom[..] == StringWritten(old(eeprom[..]), addr[slot], Lengths[slot], data, DataWriteCount(Lengths[slot], length))
      ensures count == if flashOk then DataWriteCount(Lengths[slot], length) else 0
    {
      var n := length;
      if n == 0 || n > Lengths[slot] - 1 {
        n := Lengths[slot] - 1;
      }
      CopyIn(addr[slot], data, n);
      var ok := Commit(slot, flashOk);
      count := if ok then n else 0;
    }

    /** Copies `length` bytes (the whole slot when zero) from the slot start. */
    method ReadSlot(slot: Slot, data: array<bv8>, length: int) returns (k: int)
      requires Valid() && 0 <= length <= Lengths[slot]
      requires data != eeprom && data as object != addr && (if length == 0 then Lengths[slot] else length) <= data.Length
      modifies data
      ensures k == if length == 0 then Lengths[slot] else length
      ensures data[..k] == ReadBack(eeprom[..], addr[slot], k)
      ensures data[k..] == old(data[k..])
    {
      assert InBounds(addr[slot], Lengths[slot]);
      var len := length;
      if len == 0 {
        len := Lengths[slot];
      }
      k := 0;
      while k < len
        invariant 0 <= k <= len
        invariant data[..k] == ReadBack(eeprom[..], addr[slot], k)
        invariant data[len..] == old(data[len..])
      {
        data[k] := eeprom[addr[slot] + k];
        k := k + 1;
      }
    }

    /** True exactly when every slot verifies; stops at the first that does not. */
    method EepromCheckup() returns (ok: bool)
      requires Valid() && Laid()
      ensures ok == AllVerify(eeprom[..])
    {
      ok := true;
      var s := 0;
      while s < SlotCount
        invariant 0 <= s <= SlotCount
        invariant forall k: Slot :: k < s ==> Verifies(eeprom[..], Start(k), Lengths[k])
      {
        var crc := CalculateChecksum(s);
        if crc != eeprom[addr[s] + Lengths[s] - 1] {
          ok := false;
          break;
        }
        s := s + 1;
      }
      forall k: Slot {
        SlotsDisjoint(k, k);
      }
    }

    /** Fills the EEPROM with 0xFE and seals every slot. */
    method Erase()
      requires Valid() && Laid()
      modifies eeprom
      ensures eeprom[..] == Erased(SlotCount)
    {
      var a := 0;
      while a < EepromSize
        invariant 0 <= a <= EepromSize
        invariant forall i :: 0 <= i < a ==> eeprom[i] == False
      {
        eeprom[a] := False;
        a := a + 1;
      }
      assert eeprom[..] == Erased(0);
      // the flash commit's result is ignored here
      var x := 0;
      while x < SlotCount
        invariant 0 <= x <= SlotCount
        invariant eeprom[..] == Erased(x)
      {
        var _ := Commit(x, true);
        x := x + 1;
      }
    }

    /** One run of the start-up loop. */
    method Loop()
      requires Valid() && Laid()
      modifies this, eeprom
      ensures (loopState, eeprom[..]) == LoopStep(old(loopState), old(eeprom[..]))
    {
      match loopState
      case Checkup =>
        var ok := EepromCheckup();
        loopState := if ok then Idle else EraseEeprom;
      case EraseEeprom =>
        Erase();
        loopState := Checkup;
      case Idle | Committing =>
    }
  }
}
