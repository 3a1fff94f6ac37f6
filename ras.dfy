/**
 * Class RAS: the host side of the Rugged Audio Shield protocol.
 *
 * The bus is observed through a trace of events; SPI.transfer's answers come
 * from a fixed reply stream, the k-th exchange receiving reply(k). Every
 * operation opens with _send_cmd (select, command byte, settle delay), streams
 * a fixed payload, and closes with _end_spi (deselect); GetState alone leaves
 * the shield selected.
 */
module Driver {
  import opened Types
  import opened Bus
  import opened Layout

  /** *(uint16_t *)(buf + off) = v on the little-endian AVR. */
  method StoreLe16(buf: array<byte>, off: nat, v: u16)
    requires off + 2 <= buf.Length
    modifies buf
    ensures forall i :: 0 <= i < buf.Length ==>
      buf[i] == if off <= i < off + 2 then Le16(v)[i - off] else old(buf[i])
  {
    buf[off] := v % 0x100;
    buf[off + 1] := v / 0x100;
  }

  /** strncpy((char *)(buf + off), src, n). */
  method StrNCopy(buf: array<byte>, off: nat, src: seq<byte>, n: nat)
    requires off + n <= buf.Length
    modifies buf
    ensures forall i :: 0 <= i < buf.Length ==>
      buf[i] == if off <= i < off + n then StrNCpy(src, n)[i - off] else old(buf[i])
  {
    var i := 0;
    // copy up to the terminator
    while i < n && i < |src| && src[i] != 0
      invariant i <= n && i <= CStrLen(src)
      invariant forall j :: 0 <= j < buf.Length ==>
        buf[j] == if off <= j < off + i then src[j - off] else old(buf[j])
    {
      buf[off + i] := src[i];
      i := i + 1;
    }
    // then pad with zeros
    while i < n
      invariant i <= n
      invariant forall j :: 0 <= j < buf.Length ==>
        buf[j] == if off <= j < off + i then (if j - off < CStrLen(src) then src[j - off] else 0)
                  else old(buf[j])
    {
      buf[off + i] := 0;
      i := i + 1;
    }
  }

  class RAS {
    /** SPI.transfer's answers: the byte the shield shifts back during the k-th exchange. */
    const reply: nat -> byte
    /** Everything the driver has done on the bus, in order. */
    var trace: seq<Event>
    /** Exchanges so far, i.e. the index of the next reply. */
    var pos: nat

    var gainLine: InputGain
    var gainMic: InputGain
    var info: Info
    var sspin: byte

    /** The reply index keeps pace with the exchanges on the bus. */
    ghost predicate Valid()
      reads this
    {
      pos == XferCount(trace)
    }

    /** The replies to n consecutive exchanges starting with the from-th. */
    function Replies(from: nat, n: nat): seq<byte>
    {
      seq(n, i requires 0 <= i < n => reply(from + i))
    }

    /** A driver object in static storage, before begin: every field zero, nothing on the bus. */
    constructor (reply: nat -> byte)
      ensures Valid() && this.reply == reply && trace == [] && pos == 0
      ensures gainLine == Gain1x && gainMic == Gain1x && info == Info(0, 0, 0, 0, 0) && sspin == 0
    {
      this.reply := reply;
      trace, pos := [], 0;
      gainLine, gainMic := Gain1x, Gain1x;
      info := Info(0, 0, 0, 0, 0);
      sspin := 0;
    }

    // ---- The Arduino primitives the driver is built on ----

    /** SPI.transfer(out). */
    method SpiTransfer(out: byte) returns (r: byte)
      requires Valid()
      modifies this`trace, this`pos
      ensures Valid() && trace == old(trace) + [Xfer(out)] && pos == old(pos) + 1
      ensures r == reply(old(pos))
    {
      r := reply(pos);
      XferCountAppend(trace, [Xfer(out)]);
      assert XferCount([Xfer(out)]) == 1 by {
        assert [Xfer(out)][1..] == [];
      }
      trace := trace + [Xfer(out)];
      pos := pos + 1;
    }

    /** digitalWrite(sspin, high ? HIGH : LOW). */
    method DigitalWriteSelect(high: bool)
      requires Valid()
      modifies this`trace
      ensures Valid() && trace == old(trace) + [if high then SelectHigh else SelectLow]
    {
      var e := if high then SelectHigh else SelectLow;
      XferCountAppend(trace, [e]);
      assert XferCount([e]) == 0 by {
        assert [e][1..] == [];
      }
      trace := trace + [e];
    }

    /** delayMicroseconds(us). */
    method DelayMicroseconds(us: nat)
      requires Valid()
      modifies this`trace
      ensures Valid() && trace == old(trace) + [Delay(us)]
    {
      XferCountAppend(trace, [Delay(us)]);
      assert XferCount([Delay(us)]) == 0 by {
        assert [Delay(us)][1..] == [];
      }
      trace := trace + [Delay(us)];
    }

    // ---- begin and the transaction engine ----

    /** Initial gains 1X, remember the select pin, and deselect the shield. */
    method Begin(pin: byte := 8)
      requires Valid()
      modifies this`trace, this`gainLine, this`gainMic, this`sspin
      ensures Valid() && gainLine == Gain1x && gainMic == Gain1x && sspin == pin
      ensures trace == old(trace) + [SelectHigh] && !Selected(trace)
    {
      gainLine, gainMic := Gain1x, Gain1x;
      sspin := pin;
      DigitalWriteSelect(true);
    }

    /** Select the shield, exchange the command byte, wait the settle delay; returns the reply to the command byte. */
    method SendCmd(cmd: byte) returns (r: byte)
      requires Valid()
      modifies this`trace, this`pos
      ensures Valid() && trace == old(trace) + Open(cmd) && pos == old(pos) + 1
      ensures r == reply(old(pos))
    {
      DigitalWriteSelect(false);
      r := SpiTransfer(cmd);
      DelayMicroseconds(SPI_CMD_TO_DATA_DELAY);  // _cmd_delay()
    }

    /** Deselect the shield. */
    method EndSpi()
      requires Valid()
      modifies this`trace
      ensures Valid() && trace == old(trace) + [SelectHigh]
    {
      DigitalWriteSelect(true);
    }

    /** Exchange buf[0..bytes) in order, discarding what comes back. */
    method SpiSendBuf(buf: seq<byte>, bytes: byte)
      requires Valid() && bytes <= |buf|
      modifies this`trace, this`pos
      ensures Valid() && trace == old(trace) + Xfers(buf[..bytes]) && pos == old(pos) + bytes
    {
      var p: nat, left: nat := 0, bytes;
      while left > 0
        invariant p + left == bytes
        invariant Valid() && trace == old(trace) + Xfers(buf[..p]) && pos == old(pos) + p
      {
        var _ := SpiTransfer(buf[p]);
        assert buf[..p + 1] == buf[..p] + [buf[p]];
        XfersSnoc(buf[..p], buf[p]);
        assert trace == old(trace) + (Xfers(buf[..p]) + [Xfer(buf[p])]);
        p, left := p + 1, left - 1;
      }
    }

    /** Exchange `bytes` zero bytes, storing the replies in buf[off..off+bytes). */
    method SpiGetBuf(buf: array<byte>, off: nat, bytes: byte)
      requires Valid() && off + bytes <= buf.Length
      modifies this`trace, this`pos, buf
      ensures Valid() && trace == old(trace) + Xfers(Zeros(bytes)) && pos == old(pos) + bytes
      ensures forall i :: 0 <= i < buf.Length ==>
        buf[i] == if off <= i < off + bytes then reply(old(pos) + (i - off)) else old(buf[i])
    {
      var p: nat, left: nat := 0, bytes;
      while left > 0
        invariant p + left == bytes
        invariant Valid() && trace == old(trace) + Xfers(Zeros(p)) && pos == old(pos) + p
        invariant forall i :: 0 <= i < buf.Length ==>
          buf[i] == if off <= i < off + p then reply(old(pos) + (i - off)) else old(buf[i])
      {
        var b := SpiTransfer(0);
        buf[off + p] := b;
        assert Zeros(p + 1) == Zeros(p) + [0];
        XfersSnoc(Zeros(p), 0);
        assert trace == old(trace) + (Xfers(Zeros(p)) + [Xfer(0)]);
        p, left := p + 1, left - 1;
      }
    }

    /**
     * _send_cmd(cmd); _spi_send_buf(buf, sizeof(buf)); _end_spi(): the
     * sequence every command with a local payload buffer ends with.
     */
    method SendBuffer(cmd: byte, buf: array<byte>)
      requires Valid() && buf.Length < 0x100
      modifies this`trace, this`pos
      ensures Valid() && trace == old(trace) + Transaction(cmd, buf[..]) && pos == old(pos) + 1 + buf.Length
    {
      var _ := SendCmd(cmd);
      SpiSendBuf(buf[..], buf.Length);
      EndSpi();
      assert buf[..][..buf.Length] == buf[..];
      AppendTransaction(old(trace), cmd, buf[..]);
    }

    /** One command byte and one parameter byte. */
    method SpiSend1Byte(cmd: byte, param: byte)
      requires Valid()
      modifies this`trace, this`pos
      ensures Valid() && trace == old(trace) + Transaction(cmd, [param]) && pos == old(pos) + 2
    {
      var _ := SendCmd(cmd);
      var _ := SpiTransfer(param);
      EndSpi();
      assert Xfers([param]) == [Xfer(param)];
      AppendTransaction(old(trace), cmd, [param]);
    }

    /** One command byte, then one byte read back; returns that byte. */
    method SpiGet1Byte(cmd: byte) returns (val: byte)
      requires Valid()
      modifies this`trace, this`pos
      ensures Valid() && trace == old(trace) + Transaction(cmd, [0]) && pos == old(pos) + 2
      ensures val == reply(old(pos) + 1)
    {
      var b := new byte[1];
      var _ := SendCmd(cmd);
      SpiGetBuf(b, 0, 1);
      EndSpi();
      val := b[0];
      AppendTransaction(old(trace), cmd, Zeros(1));
      assert Zeros(1) == [0];
    }

    /** Streams the 13-byte filename payload after command cmd. */
    method SendFilename(cmd: byte, str: seq<byte>)
      requires Valid()
      modifies this`trace, this`pos
      ensures Valid() && trace == old(trace) + Transaction(cmd, FilenamePayload(str))
      ensures pos == old(pos) + 14
    {
      var buf := new byte[13](_ => 0);   // memset(buf, 0, sizeof(buf))
      StrNCopy(buf, 0, str, FILENAME_FIELD_BYTES);
      assert buf[..] == FilenamePayload(str) by {
        assert forall i | 0 <= i < 13 :: buf[i] == FilenamePayload(str)[i];
      }
      SendBuffer(cmd, buf);
    }

    // ---- Input source control ----

    /** Sends both gains and caches them. */
    method SetInputGains(line: InputGain, mic: InputGain)
      requires Valid()
      modifies this`trace, this`pos, this`gainLine, this`gainMic
      ensures Valid() && trace == old(trace) + Transaction(CMD_SET_GAINS, [line.Code(), mic.Code()])
      ensures pos == old(pos) + 3
      ensures gainLine == line && gainMic == mic
    {
      var buf := new byte[2];
      buf[0] := line.Code();
      buf[1] := mic.Code();
      assert buf[..] == [line.Code(), mic.Code()];
      SendBuffer(CMD_SET_GAINS, buf);
      gainLine := line;
      gainMic := mic;
    }

    /** Sets the line gain, resending the cached microphone gain unchanged. */
    method SetInputGainLine(line: InputGain)
      requires Valid()
      modifies this`trace, this`pos, this`gainLine, this`gainMic
      ensures Valid() && trace == old(trace) + Transaction(CMD_SET_GAINS, [line.Code(), old(gainMic).Code()])
      ensures pos == old(pos) + 3
      ensures GetInputGainLine() == line && GetInputGainMic() == old(GetInputGainMic())
    {
      SetInputGains(line, gainMic);
    }

    /** Sets the microphone gain, resending the cached line gain unchanged. */
    method SetInputGainMic(mic: InputGain)
      requires Valid()
      modifies this`trace, this`pos, this`gainLine, this`gainMic
      ensures Valid() && trace == old(trace) + Transaction(CMD_SET_GAINS, [old(gainLine).Code(), mic.Code()])
      ensures pos == old(pos) + 3
      ensures GetInputGainMic() == mic && GetInputGainLine() == old(GetInputGainLine())
    {
      SetInputGains(gainLine, mic);
    }

    /** The last line gain set through this driver (never read from the shield). */
    function GetInputGainLine(): (g: InputGain)
      reads this
      ensures g == gainLine
    {
      gainLine
    }

    /** The last microphone gain set through this driver (never read from the shield). */
    function GetInputGainMic(): (g: InputGain)
      reads this
      ensures g == gainMic
    {
      gainMic
    }

    // ---- Play and record ----

    /** Play an 8.3 file from the SD card. */
    method PlayWAV(fname: seq<byte>)
      requires Valid()
      modifies this`trace, this`pos
      ensures Valid() && trace == old(trace) + Transaction(CMD_PLAY_WAV, FilenamePayload(fname))
      ensures pos == old(pos) + 14
    {
      SendFilename(CMD_PLAY_WAV, fname);
    }

    /** Start playing samples streamed over SPI. */
    method PlayStream(fs: u16, stereo: StereoMode)
      requires Valid()
      modifies this`trace, this`pos
      ensures Valid() && trace == old(trace) + Transaction(CMD_PLAY_STREAM, StreamStartPayload(fs, stereo))
      ensures pos == old(pos) + 4
    {
      var buf := new byte[3];
      StoreLe16(buf, 0, fs);
      buf[2] := stereo.Code();
      assert buf[..] == StreamStartPayload(fs, stereo) by {
        assert forall i | 0 <= i < 3 :: buf[i] == StreamStartPayload(fs, stereo)[i];
      }
      SendBuffer(CMD_PLAY_STREAM, buf);
    }

    /**
     * Streams one 128-byte buffer of samples. The reply to the FIRST payload
     * byte is the shield's count of free buffers, and that is what is returned.
     */
    method PlayStreamBuffer(buffer: array<i16>) returns (freebuf: byte)
      requires Valid() && 2 * buffer.Length >= STREAM_BUFFER_SIZE_BYTES
      modifies this`trace, this`pos
      ensures Valid() && trace == old(trace) + Transaction(CMD_STREAM_BUFFER, StreamBufferBytes(buffer[..]))
      ensures pos == old(pos) + 1 + STREAM_BUFFER_SIZE_BYTES
      ensures freebuf == reply(old(pos) + 1)
    {
      var bytes := StreamBufferBytes(buffer[..]);   // ((uint8_t *)buffer)[0 .. 128)
      var _ := SendCmd(CMD_STREAM_BUFFER);
      freebuf := SpiTransfer(bytes[0]);
      SpiSendBuf(bytes[1..], 127);
      EndSpi();
      assert bytes[1..][..127] == bytes[1..];
      AppendTransactionFirstByte(old(trace), CMD_STREAM_BUFFER, bytes, bytes[1..][..127]);
    }

    /** Record to an 8.3 file on the SD card. */
    method RecordWAV(fs: u16, stereo: StereoMode, source: Source, fname: seq<byte>)
      requires Valid()
      modifies this`trace, this`pos
      ensures Valid() && trace == old(trace) + Transaction(CMD_RECORD_WAV, RecordPayload(fs, stereo, source, fname))
      ensures pos == old(pos) + 18
    {
      var buf := new byte[17](_ => 0);   // memset(buf, 0, sizeof(buf))
      StoreLe16(buf, 0, fs);
      buf[2] := stereo.Code();
      buf[3] := source.Code();
      ghost var head := buf[..4];
      assert head == EffectPayload(fs, stereo, source) by {
        assert forall i | 0 <= i < 4 :: head[i] == EffectPayload(fs, stereo, source)[i];
      }
      StrNCopy(buf, 4, fname, FILENAME_FIELD_BYTES);
      assert buf[..] == head + StrNCpy(fname, FILENAME_FIELD_BYTES) + [0] by {
        assert forall i | 0 <= i < 17 :: buf[i] == (head + StrNCpy(fname, FILENAME_FIELD_BYTES) + [0])[i];
      }
      RecordPayloadParts(fs, stereo, source, fname);
      SendBuffer(CMD_RECORD_WAV, buf);
    }

    // ---- Headphone output control ----

    method OutputControl(enable: byte)
      requires Valid()
      modifies this`trace, this`pos
      ensures Valid() && trace == old(trace) + Transaction(CMD_OUTPUT, [enable]) && pos == old(pos) + 2
    {
      SpiSend1Byte(CMD_OUTPUT, enable);
    }

    method OutputDisable()
      requires Valid()
      modifies this`trace, this`pos
      ensures Valid() && trace == old(trace) + Transaction(CMD_OUTPUT, [0]) && pos == old(pos) + 2
    {
      OutputControl(0);
    }

    method OutputEnable()
      requires Valid()
      modifies this`trace, this`pos
      ensures Valid() && trace == old(trace) + Transaction(CMD_OUTPUT, [1]) && pos == old(pos) + 2
    {
      OutputControl(1);
    }

    method OutputBassBoostControl(enable: byte)
      requires Valid()
      modifies this`trace, this`pos
      ensures Valid() && trace == old(trace) + Transaction(CMD_BASS_BOOST, [enable]) && pos == old(pos) + 2
    {
      SpiSend1Byte(CMD_BASS_BOOST, enable);
    }

    method OutputBassBoostEnable()
      requires Valid()
      modifies this`trace, this`pos
      ensures Valid() && trace == old(trace) + Transaction(CMD_BASS_BOOST, [1]) && pos == old(pos) + 2
    {
      OutputBassBoostControl(1);
    }

    method OutputBassBoostDisable()
      requires Valid()
      modifies this`trace, this`pos
      ensures Valid() && trace == old(trace) + Transaction(CMD_BASS_BOOST, [0]) && pos == old(pos) + 2
    {
      OutputBassBoostControl(0);
    }

    method OutputGainBoostControl(enable: byte)
      requires Valid()
      modifies this`trace, this`pos
      ensures Valid() && trace == old(trace) + Transaction(CMD_GAIN_BOOST, [enable]) && pos == old(pos) + 2
    {
      SpiSend1Byte(CMD_GAIN_BOOST, enable);
    }

    method OutputGainBoostEnable()
      requires Valid()
      modifies this`trace, this`pos
      ensures Valid() && trace == old(trace) + Transaction(CMD_GAIN_BOOST, [1]) && pos == old(pos) + 2
    {
      OutputGainBoostControl(1);
    }

    method OutputGainBoostDisable()
      requires Valid()
      modifies this`trace, this`pos
      ensures Valid() && trace == old(trace) + Transaction(CMD_GAIN_BOOST, [0]) && pos == old(pos) + 2
    {
      OutputGainBoostControl(0);
    }

    /** Sets the output volume; only the low five bits of volume are sent. */
    method OutputVolumeSet(volume: byte)
      requires Valid()
      modifies this`trace, this`pos
      ensures Valid() && trace == old(trace) + Transaction(CMD_VOLUME, [VolumeByte(volume)])
      ensures pos == old(pos) + 2
    {
      SpiSend1Byte(CMD_VOLUME, VolumeByte(volume));
    }

    // ---- Audio effects ----

    /** The effect code is itself the command byte. */
    method AudioEffect(effect: Effect, fs: u16, stereo: StereoMode, source: Source)
      requires Valid()
      modifies this`trace, this`pos
      ensures Valid() && trace == old(trace) + Transaction(effect.Code(), EffectPayload(fs, stereo, source))
      ensures pos == old(pos) + 5
    {
      var buf := new byte[4];
      StoreLe16(buf, 0, fs);
      buf[2] := stereo.Code();
      buf[3] := source.Code();
      assert buf[..] == EffectPayload(fs, stereo, source) by {
        assert forall i | 0 <= i < 4 :: buf[i] == EffectPayload(fs, stereo, source)[i];
      }
      SendBuffer(effect.Code(), buf);
    }

    /** A command with no payload. */
    method Stop()
      requires Valid()
      modifies this`trace, this`pos
      ensures Valid() && trace == old(trace) + Transaction(CMD_STOP, []) && pos == old(pos) + 1
    {
      var _ := SendCmd(CMD_STOP);
      EndSpi();
    }

    // ---- Filesystem ----

    /** Erases the SD card; the payload is the fixed two-key confirmation, whatever the state. */
    method EraseFilesystem()
      requires Valid()
      modifies this`trace, this`pos
      ensures Valid() && trace == old(trace) + Transaction(CMD_ERASE, ErasePayload()) && pos == old(pos) + 5
    {
      var buf := new byte[4];
      StoreLe16(buf, 0, ERASE_KEY_1);
      StoreLe16(buf, 2, ERASE_KEY_2);
      assert buf[..] == ErasePayload() by {
        assert forall i | 0 <= i < 4 :: buf[i] == ErasePayload()[i];
      }
      SendBuffer(CMD_ERASE, buf);
    }

    /** Initialises the SD card at the given clock selector (8 MHz when none is given). */
    method InitSD(rate: SpiRate := Rate8MHz)
      requires Valid()
      modifies this`trace, this`pos
      ensures Valid() && trace == old(trace) + Transaction(CMD_INIT_SD, [rate.Code()]) && pos == old(pos) + 2
    {
      SpiSend1Byte(CMD_INIT_SD, rate.Code());
    }

    /** Pre-allocates an 8.3 file of the given size in megabytes. */
    method PresizeFile(fname: seq<byte>, megabytes: u16)
      requires Valid()
      modifies this`trace, this`pos
      ensures Valid() && trace == old(trace) + Transaction(CMD_PRESIZE, PresizePayload(megabytes, fname))
      ensures pos == old(pos) + 16
    {
      var buf := new byte[15](_ => 0);   // memset(buf, 0, sizeof(buf))
      StoreLe16(buf, 0, megabytes);
      StrNCopy(buf, 2, fname, FILENAME_FIELD_BYTES);
      assert buf[..] == PresizePayload(megabytes, fname) by {
        assert forall i | 0 <= i < 15 :: buf[i] == PresizePayload(megabytes, fname)[i];
      }
      SendBuffer(CMD_PRESIZE, buf);
    }

    // ---- Administrative ----

    /** Refreshes the cached info record from the shield's 7 reply bytes. */
    method ReadInfo()
      requires Valid()
      modifies this`trace, this`pos, this`info
      ensures Valid() && trace == old(trace) + Transaction(CMD_READ_INFO, Zeros(INFO_SIZE))
      ensures pos == old(pos) + 1 + INFO_SIZE
      ensures EncodeInfo(info) == Replies(old(pos) + 1, INFO_SIZE)
    {
      var raw := new byte[INFO_SIZE];   // the bytes of `info`
      var _ := SendCmd(CMD_READ_INFO);
      SpiGetBuf(raw, 0, INFO_SIZE as byte);
      EndSpi();
      AppendTransaction(old(trace), CMD_READ_INFO, Zeros(INFO_SIZE));
      assert raw[..] == Replies(old(pos) + 1, INFO_SIZE);
      info := DecodeInfo(raw[..]);
    }

    function GetAppVersionMajor(): (v: byte)
      reads this
      ensures v == EncodeInfo(info)[0]
    {
      info.major
    }

    function GetAppVersionMinor(): (v: byte)
      reads this
      ensures v == EncodeInfo(info)[1]
    {
      info.minor
    }

    /** Only the low byte of the 16-bit build number survives the uint8_t return. */
    function GetAppVersionBuild(): (v: byte)
      reads this
      ensures v == EncodeInfo(info)[2]
      ensures (info.build - v) % 0x100 == 0
    {
      info.build % 0x100
    }

    function GetBootloaderVersionMajor(): (v: byte)
      reads this
      ensures v == EncodeInfo(info)[5]
    {
      info.bootloaderVersion / 0x100
    }

    function GetBootloaderVersionMinor(): (v: byte)
      reads this
      ensures v == EncodeInfo(info)[4]
      ensures GetBootloaderVersionMajor() * 0x100 + v == info.bootloaderVersion
    {
      info.bootloaderVersion % 0x100
    }

    function IsSDCardInserted(): (v: byte)
      reads this
      ensures v == EncodeInfo(info)[6]
    {
      info.sockins
    }

    /**
     * The status query: the answer is the reply to the command byte itself,
     * and the shield is left selected.
     */
    method GetState() returns (s: DeviceState)
      requires Valid()
      modifies this`trace, this`pos
      ensures Valid() && trace == old(trace) + Open(CMD_STATE) && pos == old(pos) + 1
      ensures s == StateOf(reply(old(pos)))
      ensures Selected(old(trace) + Open(CMD_STATE))
    {
      var r := SendCmd(CMD_STATE);
      s := StateOf(r);
      SelectAfterOpen(old(trace), CMD_STATE);
    }

    method TxControl(enable: byte)
      requires Valid()
      modifies this`trace, this`pos
      ensures Valid() && trace == old(trace) + Transaction(CMD_TX, [enable]) && pos == old(pos) + 2
    {
      SpiSend1Byte(CMD_TX, enable);
    }

    method TxEnable()
      requires Valid()
      modifies this`trace, this`pos
      ensures Valid() && trace == old(trace) + Transaction(CMD_TX, [1]) && pos == old(pos) + 2
    {
      TxControl(1);
    }

    method TxDisable()
      requires Valid()
      modifies this`trace, this`pos
      ensures Valid() && trace == old(trace) + Transaction(CMD_TX, [0]) && pos == old(pos) + 2
    {
      TxControl(0);
    }

    /** The shield's last error code, sent low byte first. */
    method GetLastError() returns (err: u16)
      requires Valid()
      modifies this`trace, this`pos
      ensures Valid() && trace == old(trace) + Transaction(CMD_LAST_ERROR, Zeros(2)) && pos == old(pos) + 3
      ensures err == reply(old(pos) + 1) + 0x100 * reply(old(pos) + 2)
    {
      var buf := new byte[2];
      var _ := SendCmd(CMD_LAST_ERROR);
      SpiGetBuf(buf, 0, 2);
      EndSpi();
      AppendTransaction(old(trace), CMD_LAST_ERROR, Zeros(2));
      err := FromLe16(buf[0], buf[1]);   // *(uint16_t *)buf
    }

    /** Replace the shield's application firmware from an 8.3 file. */
    method ReplaceApp(fname: seq<byte>)
      requires Valid()
      modifies this`trace, this`pos
      ensures Valid() && trace == old(trace) + Transaction(CMD_REPLACE_APP, FilenamePayload(fname))
      ensures pos == old(pos) + 14
    {
      SendFilename(CMD_REPLACE_APP, fname);
    }

    /**
     * Polls the status until it reads idle. Given that some future reply is
     * zero, it issues exactly (index of the first zero reply) + 1 status
     * queries, and only then returns.
     */
    method WaitForIdle()
      requires Valid()
      requires exists k :: pos <= k && reply(k) == 0
      modifies this`trace, this`pos
      ensures Valid() && old(pos) < pos && trace == old(trace) + Polls(pos - old(pos))
      ensures reply(pos - 1) == 0
      ensures forall k :: old(pos) <= k < pos - 1 ==> reply(k) != 0
    {
      ghost var idle :| old(pos) <= idle && reply(idle) == 0;
      var state := GetState();
      while state != Idle
        invariant Valid() && old(pos) < pos <= idle + 1
        invariant state == StateOf(reply(pos - 1))
        invariant forall k :: old(pos) <= k < pos - 1 ==> reply(k) != 0
        invariant trace == old(trace) + Polls(pos - old(pos))
        decreases idle + 1 - pos
      {
        state := GetState();
      }
    }
  }
}
