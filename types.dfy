/** Integer widths, the enumerations and the device-info record declared in RAS.h. */
module Types {

  /** uint8_t */
  type byte = x: int | 0 <= x < 0x100
  /** uint16_t */
  type u16 = x: int | 0 <= x < 0x1_0000
  /** int16_t */
  type i16 = x: int | -0x8000 <= x < 0x8000

  datatype Option<T> = None | Some(value: T)

  /** Number of bytes sent by one PlayStreamBuffer call (RAS_STREAM_BUFFER_SIZE_BYTES). */
  const STREAM_BUFFER_SIZE_BYTES: nat := 128

  /** RAS_Stereo_t */
  datatype StereoMode = Mono | Stereo {
    function Code(): byte {
      match this
      case Mono => 0
      case Stereo => 1
    }
  }

  /** The stereo mode a payload byte stands for, if any. */
  function StereoModeOf(b: byte): (r: Option<StereoMode>)
    ensures r.Some? <==> b < 2
    ensures r.Some? ==> r.value.Code() == b
  {
    if b == 0 then Some(Mono) else if b == 1 then Some(Stereo) else None
  }

  /** RAS_Source_t */
  datatype Source = Line | Mic {
    function Code(): byte {
      match this
      case Line => 0
      case Mic => 1
    }
  }

  /** The input source a payload byte stands for, if any. */
  function SourceOf(b: byte): (r: Option<Source>)
    ensures r.Some? <==> b < 2
    ensures r.Some? ==> r.value.Code() == b
  {
    if b == 0 then Some(Line) else if b == 1 then Some(Mic) else None
  }

  /** RAS_Input_Gain_t */
  datatype InputGain = Gain1x | Gain2x | Gain4x | Gain8x {
    function Code(): byte {
      match this
      case Gain1x => 0
      case Gain2x => 1
      case Gain4x => 2
      case Gain8x => 3
    }
  }

  /** RAS_Effect_t: the enumerators are the ASCII digits that serve as command bytes. */
  datatype Effect = EffectNone | EffectEcho | EffectFlange {
    function Code(): byte {
      match this
      case EffectNone => '0' as int
      case EffectEcho => '1' as int
      case EffectFlange => '2' as int
    }
  }

  /** RAS_SPI_Rate_t: the shield's SD-card clock selector. */
  datatype SpiRate = Rate8MHz | Rate2MHz | Rate500kHz | Rate250kHz | Rate16MHz | Rate4MHz | Rate1MHz {
    function Code(): byte {
      match this
      case Rate8MHz => 0
      case Rate2MHz => 1
      case Rate500kHz => 2
      case Rate250kHz => 3
      case Rate16MHz => 4
      case Rate4MHz => 5
      case Rate1MHz => 6
    }
  }

  /**
   * RAS_State_t. GetState casts whatever byte the shield answers to this
   * enumeration, so a byte past STATE_BUSY is kept as Unrecognized.
   */
  datatype DeviceState =
    | Idle | RecordingToSD | PlayingFromSD | PlayingFromSpi | RecordingToSpi | PassThrough | Busy
    | Unrecognized(code: byte)
  {
    ghost predicate Valid() {
      Unrecognized? ==> code >= 7
    }

    function Code(): byte {
      match this
      case Idle => 0
      case RecordingToSD => 1
      case PlayingFromSD => 2
      case PlayingFromSpi => 3
      case RecordingToSpi => 4
      case PassThrough => 5
      case Busy => 6
      case Unrecognized(c) => c
    }
  }

  /** The state a status byte stands for; total, with an explicit out-of-range branch. */
  function StateOf(b: byte): (s: DeviceState)
    ensures s.Valid() && s.Code() == b
    ensures s == Idle <==> b == 0
  {
    if b == 0 then Idle
    else if b == 1 then RecordingToSD
    else if b == 2 then PlayingFromSD
    else if b == 3 then PlayingFromSpi
    else if b == 4 then RecordingToSpi
    else if b == 5 then PassThrough
    else if b == 6 then Busy
    else Unrecognized(b)
  }

  lemma StateCodeRoundTrip(s: DeviceState)
    requires s.Valid()
    ensures StateOf(s.Code()) == s
  {
  }

  /** The 'info' record of class RAS, as the shield reports it. */
  datatype Info = Info(major: byte, minor: byte, build: u16, bootloaderVersion: u16, sockins: byte)
}
