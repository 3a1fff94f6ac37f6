/**
 * The fixed byte layouts of the command payloads, written out explicitly.
 * The driver fills its buffers by storing 16-bit integers onto byte arrays;
 * on the AVR these stores are little-endian, which is what Le16 spells out.
 */
module Layout {
  import opened Types

  /** Width of a filename field: an 8.3 name without terminator. */
  const FILENAME_FIELD_BYTES: nat := 12

  /** sizeof(info) on the AVR, where the record is packed: 1 + 1 + 2 + 2 + 1. */
  const INFO_SIZE: nat := 7

  /** A 16-bit value in little-endian byte order (low byte first). */
  function Le16(v: u16): (r: seq<byte>)
    ensures |r| == 2 && FromLe16(r[0], r[1]) == v
  {
    [v % 0x100, v / 0x100]
  }

  /** The 16-bit value whose little-endian bytes are lo, hi. */
  function FromLe16(lo: byte, hi: byte): u16
  {
    lo + 0x100 * hi
  }

  lemma FromLe16RoundTrip(lo: byte, hi: byte)
    ensures Le16(FromLe16(lo, hi)) == [lo, hi]
  {
  }

  /** The 16-bit pattern of an int16_t (two's complement). */
  function Unsigned16(x: i16): (u: u16)
    ensures (u - x) % 0x1_0000 == 0
    ensures x >= 0 ==> u == x
  {
    if x < 0 then x + 0x1_0000 else x
  }

  /**
   * Length of a C string: the index of its first NUL byte, or the length of
   * the sequence when it holds none (the end of the sequence acts as the
   * terminator).
   */
  function CStrLen(s: seq<byte>): (k: nat)
    ensures k <= |s|
    ensures forall j :: 0 <= j < k ==> s[j] != 0
    ensures k < |s| ==> s[k] == 0
  {
    if s == [] || s[0] == 0 then 0 else 1 + CStrLen(s[1..])
  }

  /**
   * strncpy(dst, src, n) into an n-byte field: the characters of src up to
   * its terminator or n, whichever comes first, then zero padding. Written the
   * way strncpy works, one character at a time.
   */
  function StrNCpy(src: seq<byte>, n: nat): (r: seq<byte>)
    ensures |r| == n
    ensures forall i :: 0 <= i < n ==> r[i] == if i < CStrLen(src) then src[i] else 0
    decreases n
  {
    if n == 0 then []
    else if src == [] || src[0] == 0 then [0] + StrNCpy([], n - 1)
    else [src[0]] + StrNCpy(src[1..], n - 1)
  }

  /** The 12-byte filename field of PlayWAV, ReplaceApp, RecordWAV and PresizeFile. */
  function FilenameField(name: seq<byte>): (r: seq<byte>)
    ensures |r| == FILENAME_FIELD_BYTES
  {
    StrNCpy(name, FILENAME_FIELD_BYTES)
  }

  function Min(a: nat, b: nat): nat { if a < b then a else b }

  /**
   * The 13-byte payload of _send_filename: the name's first k characters,
   * k = min(length of the C string, 12), then zeros; the last byte is always
   * zero, so the shield always receives a terminated name.
   */
  function FilenamePayload(name: seq<byte>): (r: seq<byte>)
    ensures |r| == 13 && r[12] == 0
    ensures forall i :: 0 <= i < 13 ==>
      r[i] == if i < Min(CStrLen(name), FILENAME_FIELD_BYTES) then name[i] else 0
  {
    FilenameField(name) + [0]
  }

  /** AudioEffect's payload: sample rate (little-endian), stereo flag, input source. */
  function EffectPayload(fs: u16, stereo: StereoMode, source: Source): (r: seq<byte>)
    ensures DecodeEffectPayload(r) == Some((fs, stereo, source))
  {
    Le16(fs) + [stereo.Code(), source.Code()]
  }

  /** The inverse of `EffectPayload`; None for bytes it never produces. */
  function DecodeEffectPayload(p: seq<byte>): Option<(u16, StereoMode, Source)>
  {
    if |p| != 4 then None
    else match (StereoModeOf(p[2]), SourceOf(p[3]))
      case (Some(st), Some(src)) => Some((FromLe16(p[0], p[1]), st, src))
      case _ => None
  }

  /** Only well-formed effect payloads decode, and they decode to what produced them. */
  lemma DecodeEffectPayloadSound(p: seq<byte>, fs: u16, stereo: StereoMode, source: Source)
    requires DecodeEffectPayload(p) == Some((fs, stereo, source))
    ensures p == EffectPayload(fs, stereo, source)
  {
    assert p == [p[0], p[1], p[2], p[3]];
    FromLe16RoundTrip(p[0], p[1]);
  }

  /** PlayStream's payload: sample rate (little-endian), then the stereo flag. */
  function StreamStartPayload(fs: u16, stereo: StereoMode): (r: seq<byte>)
    ensures |r| == 3 && FromLe16(r[0], r[1]) == fs && StereoModeOf(r[2]) == Some(stereo)
  {
    Le16(fs) + [stereo.Code()]
  }

  /**
   * RecordWAV's 17-byte payload: the AudioEffect parameters, the 12-byte
   * filename field, and a final zero.
   */
  function RecordPayload(fs: u16, stereo: StereoMode, source: Source, name: seq<byte>): (r: seq<byte>)
    ensures |r| == 17
    ensures DecodeEffectPayload(r[..4]) == Some((fs, stereo, source))
    ensures r[4..] == FilenamePayload(name)
  {
    EffectPayload(fs, stereo, source) + FilenamePayload(name)
  }

  /** The record payload as RecordWAV's buffer is filled: effect parameters, strncpy field, final zero. */
  lemma RecordPayloadParts(fs: u16, stereo: StereoMode, source: Source, name: seq<byte>)
    ensures RecordPayload(fs, stereo, source, name)
      == EffectPayload(fs, stereo, source) + StrNCpy(name, FILENAME_FIELD_BYTES) + [0]
  {
  }

  /** PresizeFile's 15-byte payload: size in megabytes (little-endian), filename field, final zero. */
  function PresizePayload(megabytes: u16, name: seq<byte>): (r: seq<byte>)
    ensures |r| == 15 && FromLe16(r[0], r[1]) == megabytes
    ensures r[2..] == FilenamePayload(name)
  {
    Le16(megabytes) + FilenamePayload(name)
  }

  /** First confirmation key of EraseFilesystem. */
  const ERASE_KEY_1: u16 := 0x25E8
  /** Second confirmation key of EraseFilesystem. */
  const ERASE_KEY_2: u16 := 0x9D3C

  /** EraseFilesystem's payload: the two keys, each little-endian. */
  function ErasePayload(): (r: seq<byte>)
    ensures r == [0xE8, 0x25, 0x3C, 0x9D]
  {
    Le16(ERASE_KEY_1) + Le16(ERASE_KEY_2)
  }

  /** The volume byte OutputVolumeSet sends: volume & 0x1F, the low five bits. */
  function VolumeByte(volume: byte): (r: byte)
    ensures r <= 31
    ensures (volume - r) % 32 == 0
    ensures volume <= 31 ==> r == volume
  {
    volume % 32
  }

  /**
   * The bytes of an int16_t buffer in memory on the AVR: each sample's
   * two's-complement pattern, low byte first.
   */
  function SampleBytes(samples: seq<i16>): (r: seq<byte>)
    ensures |r| == 2 * |samples|
  {
    if samples == [] then [] else Le16(Unsigned16(samples[0])) + SampleBytes(samples[1..])
  }

  /** Bytes 2k and 2k+1 of the buffer hold sample k, little-endian. */
  lemma {:induction false} SampleBytesAt(samples: seq<i16>, k: nat)
    requires k < |samples|
    ensures FromLe16(SampleBytes(samples)[2 * k], SampleBytes(samples)[2 * k + 1]) == Unsigned16(samples[k])
  {
    if k > 0 {
      SampleBytesAt(samples[1..], k - 1);
      var rest := SampleBytes(samples[1..]);
      assert SampleBytes(samples)[2 * k] == rest[2 * (k - 1)];
      assert SampleBytes(samples)[2 * k + 1] == rest[2 * (k - 1) + 1];
    }
  }

  /**
   * The 128 bytes PlayStreamBuffer streams: the first 64 samples of the
   * caller's buffer as they lie in memory.
   */
  function StreamBufferBytes(samples: seq<i16>): (r: seq<byte>)
    requires 2 * |samples| >= STREAM_BUFFER_SIZE_BYTES
    ensures |r| == STREAM_BUFFER_SIZE_BYTES
  {
    SampleBytes(samples[..STREAM_BUFFER_SIZE_BYTES / 2])
  }

  /** Each of the 64 sample slots of the stream buffer carries that sample. */
  lemma StreamBufferBytesAt(samples: seq<i16>, k: nat)
    requires 2 * |samples| >= STREAM_BUFFER_SIZE_BYTES && k < STREAM_BUFFER_SIZE_BYTES / 2
    ensures var r := StreamBufferBytes(samples);
      FromLe16(r[2 * k], r[2 * k + 1]) == Unsigned16(samples[k])
  {
    SampleBytesAt(samples[..STREAM_BUFFER_SIZE_BYTES / 2], k);
  }

  /** The info record as the shield sends it: major, minor, build, bootloader version, card flag. */
  function EncodeInfo(info: Info): (r: seq<byte>)
    ensures |r| == INFO_SIZE
    ensures r[0] == info.major && r[1] == info.minor && r[6] == info.sockins
    ensures FromLe16(r[2], r[3]) == info.build && FromLe16(r[4], r[5]) == info.bootloaderVersion
  {
    [info.major, info.minor] + Le16(info.build) + Le16(info.bootloaderVersion) + [info.sockins]
  }

  /** ReadInfo's view of the 7 reply bytes as the info record. */
  function DecodeInfo(b: seq<byte>): (info: Info)
    requires |b| == INFO_SIZE
    ensures EncodeInfo(info) == b
  {
    FromLe16RoundTrip(b[2], b[3]);
    FromLe16RoundTrip(b[4], b[5]);
    Info(b[0], b[1], FromLe16(b[2], b[3]), FromLe16(b[4], b[5]), b[6])
  }

  lemma DecodeEncodeInfo(info: Info)
    ensures DecodeInfo(EncodeInfo(info)) == info
  {
  }
}
