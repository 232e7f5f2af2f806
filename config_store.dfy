/**
 * `ConfigManager<T>`: a fixed-size record kept in the byte-addressable
 * EEPROM at `eepromStart` as `sizeof(T)` data bytes followed by the 4-byte
 * CRC-32 of those bytes (little-endian, as `memcpy` of a `uint32_t` lays it
 * out on the ESP32).
 *
 * `T` is represented by its byte image (an `array<byte>` of `dataLen`
 * bytes, i.e. `sizeof(T)`), and `CRC32::calculate` by the field `crc`, a
 * function about which nothing is assumed.
 */
module ConfigStore {
  import opened Wrappers
  import opened LittleEndian

  /** `sizeof(uint32_t)`: the length of the stored checksum. */
  const CrcLen: nat := 4

  /** The bytes `save` writes: the data, then the CRC of the data. */
  function RecordImage(crc: seq<byte> -> u32, data: seq<byte>): (img: seq<byte>)
    ensures |img| == |data| + CrcLen
    ensures img[..|data|] == data
    ensures img[|data|..] == U32ToBytes(crc(data))
    ensures BytesToU32(img[|data|..]) == crc(data)
  {
    var img := data + U32ToBytes(crc(data));
    assert img[|data|..] == U32ToBytes(crc(data));
    BytesToU32OfU32ToBytes(crc(data));
    img
  }

  /**
   * What `begin` makes of the `dataLen + 4` bytes it read: the data bytes
   * when the stored CRC equals the CRC of the data bytes, None otherwise.
   */
  function LoadRecord(crc: seq<byte> -> u32, region: seq<byte>, dataLen: nat): Option<seq<byte>>
    requires |region| == dataLen + CrcLen
  {
    if BytesToU32(region[dataLen..]) == crc(region[..dataLen]) then Some(region[..dataLen]) else None
  }

  /** The device contents after the bytes `img` are written from address `start` on. */
  function Overwrite(mem: seq<byte>, start: nat, img: seq<byte>): (r: seq<byte>)
    requires start + |img| <= |mem|
    ensures |r| == |mem|
    ensures r[start..start + |img|] == img
    ensures forall i :: 0 <= i < |mem| && !(start <= i < start + |img|) ==> r[i] == mem[i]
  {
    mem[..start] + img + mem[start + |img|..]
  }

  /** A region is accepted by `begin` exactly when it is the record image of its own data bytes. */
  lemma LoadRecordAcceptsExactlyImages(crc: seq<byte> -> u32, region: seq<byte>, dataLen: nat)
    requires |region| == dataLen + CrcLen
    ensures LoadRecord(crc, region, dataLen).Some? <==> region == RecordImage(crc, region[..dataLen])
  {
    var data := region[..dataLen];
    assert region == data + region[dataLen..];
    if LoadRecord(crc, region, dataLen).Some? {
      U32ToBytesOfBytesToU32(region[dataLen..]);
    }
  }

  /** Round trip: the image `save` writes is loaded back as exactly the saved bytes. */
  lemma LoadRecordOfImage(crc: seq<byte> -> u32, data: seq<byte>)
    ensures LoadRecord(crc, RecordImage(crc, data), |data|) == Some(data)
  {
  }

  /** The same round trip through a whole device: write the image at `start`, read the region back. */
  lemma LoadAfterOverwrite(crc: seq<byte> -> u32, mem: seq<byte>, start: nat, data: seq<byte>)
    requires start + |data| + CrcLen <= |mem|
    ensures var img := RecordImage(crc, data);
            LoadRecord(crc, Overwrite(mem, start, img)[start..start + |img|], |data|) == Some(data)
  {
    LoadRecordOfImage(crc, data);
  }

  /**
   * The byte-addressable EEPROM of the Arduino ESP32 core: `cells` is the
   * RAM copy that `read` and `write` work on, `flash` what the last
   * `commit` made durable.
   */
  class Eeprom {
    const cells: array<byte>
    var flash: seq<byte>

    constructor (image: seq<byte>)
      ensures fresh(cells) && cells[..] == image && flash == image
    {
      cells := new byte[|image|](i requires 0 <= i < |image| => image[i]);
      flash := image;
    }

    /** `EEPROM.read(addr)`. */
    function Read(addr: nat): byte
      reads cells
      requires addr < cells.Length
    {
      cells[addr]
    }

    /** `EEPROM.write(addr, v)`. */
    method Write(addr: nat, v: byte)
      requires addr < cells.Length
      modifies cells
      ensures cells[..] == old(cells[..])[addr := v]
    {
      cells[addr] := v;
    }

    /** `EEPROM.commit()`. */
    method Commit()
      modifies this`flash
      ensures flash == cells[..]
    {
      flash := cells[..];
    }
  }

  class ConfigManager {
    /** `_eepromStart`. */
    const eepromStart: nat
    /** `dataLen`, i.e. `sizeof(T)`. */
    const dataLen: nat
    const eeprom: Eeprom
    /** `CRC32::calculate`. */
    const crc: seq<byte> -> u32
    /** `_structPtr`: the record `begin` registered, or null. */
    var structPtr: array?<byte>

    /** `totalLen`: data bytes plus checksum. */
    function TotalLen(): nat {
      dataLen + CrcLen
    }

    /** `CRC32::calculate(data, len)`. */
    function Checksum(data: seq<byte>): u32 {
      crc(data)
    }

    /** The device has room for the record, and a registered record has the size of `T`. */
    ghost predicate Valid()
      reads this
    {
      && eepromStart + TotalLen() <= eeprom.cells.Length
      && (structPtr != null ==> structPtr.Length == dataLen && structPtr != eeprom.cells)
    }

    /** The record bytes currently on the device: cells `[eepromStart, eepromStart + totalLen)`. */
    ghost function Stored(): (r: seq<byte>)
      reads this, eeprom.cells
      requires Valid()
      ensures |r| == TotalLen()
    {
      eeprom.cells[eepromStart..eepromStart + TotalLen()]
    }

    /** `ConfigManager(eepromStart)`: nothing registered yet. */
    constructor (eepromStart: nat, dataLen: nat, eeprom: Eeprom, crc: seq<byte> -> u32)
      requires eepromStart + dataLen + CrcLen <= eeprom.cells.Length
      ensures this.eepromStart == eepromStart && this.dataLen == dataLen
      ensures this.eeprom == eeprom && this.crc == crc
      ensures structPtr == null
      ensures Valid()
    {
      this.eepromStart := eepromStart;
      this.dataLen := dataLen;
      this.eeprom := eeprom;
      this.crc := crc;
      structPtr := null;
    }

    /** `readFromEEPROM(buf)`: copies the stored record, byte by byte, into `buf`. */
    method ReadFromEeprom(buf: array<byte>)
      requires Valid()
      requires buf.Length == TotalLen() && buf != eeprom.cells
      modifies buf
      ensures buf[..] == Stored()
    {
      for i := 0 to TotalLen()
        invariant buf[..i] == eeprom.cells[eepromStart..eepromStart + i]
      {
        buf[i] := eeprom.Read(eepromStart + i);
        assert buf[..i + 1] == buf[..i] + [buf[i]];
      }
      assert buf[..] == buf[..TotalLen()];
    }

    /**
     * `writeToEEPROM(buf)`: writes `buf` byte by byte from `eepromStart` on,
     * then commits; no cell outside the record's region changes.
     */
    method WriteToEeprom(buf: array<byte>)
      requires Valid()
      requires buf.Length == TotalLen() && buf != eeprom.cells
      modifies eeprom.cells, eeprom`flash
      ensures eeprom.cells[..] == Overwrite(old(eeprom.cells[..]), eepromStart, buf[..])
      ensures eeprom.flash == eeprom.cells[..]
    {
      ghost var before := eeprom.cells[..];
      for i := 0 to TotalLen()
        invariant forall k :: 0 <= k < i ==> eeprom.cells[eepromStart + k] == buf[k]
        invariant forall k :: 0 <= k < eeprom.cells.Length && !(eepromStart <= k < eepromStart + i) ==>
                    eeprom.cells[k] == before[k]
      {
        eeprom.Write(eepromStart + i, buf[i]);
      }
      ghost var after := Overwrite(before, eepromStart, buf[..]);
      forall k | 0 <= k < eeprom.cells.Length ensures eeprom.cells[k] == after[k] {
        if eepromStart <= k < eepromStart + TotalLen() {
          assert after[k] == after[eepromStart..eepromStart + TotalLen()][k - eepromStart];
        }
      }
      assert eeprom.cells[..] == after;
      eeprom.Commit();
    }

    /**
     * `save(p)`: with `p` null the registered record is saved instead; with
     * neither, nothing happens. Otherwise the device's region receives the
     * record image of the record's bytes, and the write is committed.
     */
    method Save(p: array?<byte>)
      requires Valid()
      requires p != null ==> p.Length == dataLen && p != eeprom.cells
      modifies eeprom.cells, eeprom`flash
      ensures var src := if p != null then p else structPtr;
              if src == null then
                eeprom.cells[..] == old(eeprom.cells[..]) && eeprom.flash == old(eeprom.flash)
              else
                && eeprom.cells[..] == Overwrite(old(eeprom.cells[..]), eepromStart, RecordImage(crc, src[..]))
                && eeprom.flash == eeprom.cells[..]
    {
      var src := p;
      if src == null {
        src := structPtr;
      }
      if src == null {
        return;
      }
      var buf := BuildRecord(src);
      WriteToEeprom(buf);
    }

    /** The buffer `save` fills: `memcpy` of the record, then `memcpy` of its CRC after it. */
    method BuildRecord(src: array<byte>) returns (buf: array<byte>)
      requires src.Length == dataLen
      ensures fresh(buf) && buf[..] == RecordImage(crc, src[..])
    {
      var data := src[..];
      buf := new byte[TotalLen()];
      forall i | 0 <= i < dataLen {
        buf[i] := src[i];
      }
      var sum := Checksum(data);
      var sumBytes := U32ToBytes(sum);
      forall i | 0 <= i < CrcLen {
        buf[dataLen + i] := sumBytes[i];
      }
      assert buf[..] == RecordImage(crc, data) by {
        assert buf[..dataLen] == data;
        assert buf[dataLen..] == sumBytes;
        assert buf[..] == buf[..dataLen] + buf[dataLen..];
      }
      assert src[..] == data;
    }

    /**
     * `begin(p)`: registers `p`, then reads the stored record. When its CRC
     * checks out, the data bytes are copied into `*p` and the result is true;
     * otherwise `*p` keeps the defaults it held, those are saved, and the
     * result is false.
     */
    method Begin(p: array<byte>) returns (loaded: bool)
      requires Valid()
      requires p.Length == dataLen && p != eeprom.cells
      modifies this`structPtr, p, eeprom.cells, eeprom`flash
      ensures Valid() && structPtr == p
      ensures loaded <==> LoadRecord(crc, old(Stored()), dataLen).Some?
      ensures loaded ==> && p[..] == old(Stored())[..dataLen]
                         && eeprom.cells[..] == old(eeprom.cells[..])
                         && eeprom.flash == old(eeprom.flash)
      ensures !loaded ==> && p[..] == old(p[..])
                          && eeprom.cells[..] == Overwrite(old(eeprom.cells[..]), eepromStart, RecordImage(crc, p[..]))
                          && eeprom.flash == eeprom.cells[..]
    {
      structPtr := p;
      var buf := new byte[TotalLen()];
      ReadFromEeprom(buf);
      var storedCrc := BytesToU32(buf[dataLen..]);
      var calcCrc := Checksum(buf[..dataLen]);
      if storedCrc == calcCrc {
        forall i | 0 <= i < dataLen {
          p[i] := buf[i];
        }
        assert p[..] == buf[..dataLen];
        loaded := true;
      } else {
        Save(p);
        loaded := false;
      }
    }
  }

  /**
   * The round trip on the objects: after `save(p)`, `begin(q)` succeeds and
   * leaves `*q` byte-equal to `*p`.
   */
  method SaveThenBegin(m: ConfigManager, p: array<byte>, q: array<byte>) returns (loaded: bool)
    requires m.Valid()
    requires p.Length == m.dataLen && q.Length == m.dataLen
    requires p != m.eeprom.cells && q != m.eeprom.cells
    modifies m, q, m.eeprom.cells, m.eeprom
    ensures loaded && q[..] == old(p[..])
  {
    m.Save(p);
    LoadAfterOverwrite(m.crc, old(m.eeprom.cells[..]), m.eepromStart, old(p[..]));
    loaded := m.Begin(q);
  }
}
