/**
 * Client code that uses only the contracts of class RAS and the layout
 * functions: the per-channel gain setters, an idle wait over the status
 * replies busy, busy, idle, the stream-buffer reply, and a 44.1 kHz effect
 * payload.
 */
module Scenarios {
  import opened Types
  import opened Bus
  import opened Layout
  import opened Driver

  /** The per-channel gain setters keep the other channel's cached value. */
  method GainScenario()
  {
    var ras := new RAS(_ => 0);
    ras.Begin();
    ras.SetInputGains(Gain1x, Gain4x);
    ras.SetInputGainLine(Gain2x);
    assert ras.GetInputGainLine() == Gain2x && ras.GetInputGainMic() == Gain4x;
    assert ras.trace[|ras.trace| - 6..] == Transaction(CMD_SET_GAINS, [1, 2]);
  }

  /** A shield that answers busy twice, then idle. */
  function BusyBusyIdle(k: nat): byte
  {
    if k < 2 then Busy.Code() else Idle.Code()
  }

  /** Status replies busy, busy, idle: exactly three status queries, and the shield stays selected. */
  method IdleWaitScenario()
  {
    var ras := new RAS(BusyBusyIdle);
    assert ras.reply(2) == 0;
    ras.WaitForIdle();
    assert ras.pos == 3;
    assert ras.trace == Polls(3);
    SelectAfterPolls([], 3);
    assert Selected(ras.trace);
  }

  /** The free-buffer count is the reply to the first payload byte, not to the command byte. */
  method StreamBufferScenario(samples: array<i16>)
    requires samples.Length == 64
  {
    var ras := new RAS(i => if i == 1 then 3 else 0xFF);
    var free := ras.PlayStreamBuffer(samples);
    assert free == 3;
    assert !Selected(ras.trace) by {
      SelectAfterTransaction([], CMD_STREAM_BUFFER, StreamBufferBytes(samples[..]));
    }
  }

  /** An effect payload for 44.1 kHz stereo line input decodes back to the same parameters. */
  method EffectScenario()
  {
    var ras := new RAS(_ => 0);
    ras.AudioEffect(EffectEcho, 44100, Stereo, Line);
    var echo: byte, payload: seq<byte> := '1' as int, [0x44, 0xAC, 1, 0];
    assert EffectPayload(44100, Stereo, Line) == payload;
    ParseTransactionRoundTrip(echo, payload);
    assert ras.trace == Transaction(echo, payload);
    assert ParseTransaction(ras.trace) == Some((echo, payload));
    assert DecodeEffectPayload(payload) == Some((44100, Stereo, Line));
  }
}
