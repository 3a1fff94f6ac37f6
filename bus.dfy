/**
 * The SPI bus as the driver sees it: a trace of select-line changes, byte
 * exchanges and delays, and the one transaction shape every command uses.
 */
module Bus {
  import opened Types

  /** One observable action on the bus. */
  datatype Event =
    | SelectLow          // digitalWrite(sspin, LOW): the shield is selected
    | Xfer(out: byte)    // SPI.transfer(out): one full-duplex byte exchange
    | Delay(us: nat)     // delayMicroseconds(us)
    | SelectHigh         // digitalWrite(sspin, HIGH): the shield is deselected

  /** Settle time after the command byte (SPI_CMD_TO_DATA_DELAY), in microseconds. */
  const SPI_CMD_TO_DATA_DELAY: nat := 100

  /** The command bytes, one per operation of the shield. */
  const CMD_STATE: byte := '?' as int
  const CMD_SET_GAINS: byte := 'A' as int
  const CMD_BASS_BOOST: byte := 'B' as int
  const CMD_PLAY_STREAM: byte := 'C' as int
  const CMD_STREAM_BUFFER: byte := 'D' as int
  const CMD_LAST_ERROR: byte := 'E' as int
  const CMD_INIT_SD: byte := 'F' as int
  const CMD_GAIN_BOOST: byte := 'G' as int
  const CMD_OUTPUT: byte := 'H' as int
  const CMD_PLAY_WAV: byte := 'P' as int
  const CMD_STOP: byte := 'Q' as int
  const CMD_RECORD_WAV: byte := 'R' as int
  const CMD_PRESIZE: byte := 'S' as int
  const CMD_TX: byte := 'T' as int
  const CMD_VOLUME: byte := 'V' as int
  const CMD_READ_INFO: byte := 'Z' as int
  const CMD_ERASE: byte := '@' as int
  const CMD_REPLACE_APP: byte := '!' as int

  /** n zero bytes: what the driver clocks out while it reads a reply. */
  function Zeros(n: nat): (z: seq<byte>)
    ensures |z| == n && forall i :: 0 <= i < n ==> z[i] == 0
  {
    seq(n, _ => 0)
  }

  /** One exchange per byte, in order. */
  function Xfers(bs: seq<byte>): (t: seq<Event>)
    ensures |t| == |bs|
    ensures forall i :: 0 <= i < |bs| ==> t[i] == Xfer(bs[i])
  {
    if bs == [] then [] else [Xfer(bs[0])] + Xfers(bs[1..])
  }

  /** Number of byte exchanges in a trace, i.e. how many replies the bus has given. */
  function XferCount(t: seq<Event>): (n: nat)
    ensures n <= |t|
  {
    if t == [] then 0 else (if t[0].Xfer? then 1 else 0) + XferCount(t[1..])
  }

  /** The opening of a transaction (_send_cmd): select, command byte, settle delay. */
  function Open(cmd: byte): (t: seq<Event>)
    ensures |t| == 3 && t[1] == Xfer(cmd)
  {
    [SelectLow, Xfer(cmd), Delay(SPI_CMD_TO_DATA_DELAY)]
  }

  /** A complete transaction: _send_cmd(cmd), the payload exchanges, _end_spi(). */
  function Transaction(cmd: byte, payload: seq<byte>): (t: seq<Event>)
    ensures |t| == |payload| + 4
    ensures t[0] == SelectLow && t[1] == Xfer(cmd) && t[|t| - 1] == SelectHigh
  {
    Open(cmd) + Xfers(payload) + [SelectHigh]
  }

  /** A transaction appended step by step is the transaction appended at once. */
  lemma AppendTransaction(t: seq<Event>, cmd: byte, payload: seq<byte>)
    ensures t + Open(cmd) + Xfers(payload) + [SelectHigh] == t + Transaction(cmd, payload)
  {
  }

  /** A transaction whose first payload byte is exchanged on its own, then the rest. */
  lemma AppendTransactionFirstByte(t: seq<Event>, cmd: byte, payload: seq<byte>, rest: seq<byte>)
    requires |payload| >= 1 && rest == payload[1..]
    ensures t + Open(cmd) + [Xfer(payload[0])] + Xfers(rest) + [SelectHigh] == t + Transaction(cmd, payload)
  {
    assert [payload[0]] + rest == payload;
    XfersAppend([payload[0]], rest);
    assert Xfers([payload[0]]) == [Xfer(payload[0])];
  }

  /** n status queries in a row, none of them closed (what WaitForIdle leaves on the bus). */
  function Polls(n: nat): (t: seq<Event>)
    ensures |t| == 3 * n
  {
    if n == 0 then [] else Polls(n - 1) + Open(CMD_STATE)
  }

  /** The payload of a run of exchanges, or None if the run holds anything else. */
  function XferOuts(t: seq<Event>): Option<seq<byte>>
  {
    if t == [] then Some([])
    else if !t[0].Xfer? then None
    else match XferOuts(t[1..])
      case None => None
      case Some(rest) => Some([t[0].out] + rest)
  }

  /** Recovers (command, payload) from the events of one transaction. */
  function ParseTransaction(t: seq<Event>): Option<(byte, seq<byte>)>
  {
    if |t| < 4 || t[0] != SelectLow || !t[1].Xfer? || t[2] != Delay(SPI_CMD_TO_DATA_DELAY)
       || t[|t| - 1] != SelectHigh
    then None
    else match XferOuts(t[3..|t| - 1])
      case None => None
      case Some(p) => Some((t[1].out, p))
  }

  /** Select was driven low at position i and has not been driven high since. */
  ghost predicate LowSince(t: seq<Event>, i: int)
  {
    0 <= i < |t| && t[i] == SelectLow && SelectHigh !in t[i + 1..]
  }

  /**
   * Whether the select line is asserted (driven low) after the trace: the
   * last select event decides; a trace without one leaves it deasserted.
   */
  function Selected(t: seq<Event>): bool
  {
    if t == [] then false
    else if t[|t| - 1] == SelectLow then true
    else if t[|t| - 1] == SelectHigh then false
    else Selected(t[..|t| - 1])
  }

  /**
   * The select level, independently of the last-event rule: the shield is
   * selected exactly when select was driven low and not driven high since.
   */
  lemma {:induction false} SelectedIffLowSince(t: seq<Event>)
    ensures Selected(t) <==> exists i :: LowSince(t, i)
  {
    if t == [] {
    } else if t[|t| - 1] == SelectLow {
      assert LowSince(t, |t| - 1);
    } else if t[|t| - 1] == SelectHigh {
      assert forall i :: !LowSince(t, i);
    } else {
      var init := t[..|t| - 1];
      SelectedIffLowSince(init);
      forall i ensures LowSince(t, i) <==> LowSince(init, i) {
        if 0 <= i < |init| {
          assert t[i + 1..] == init[i + 1..] + [t[|t| - 1]];
        }
      }
    }
  }

  /** No select-line change inside u. */
  ghost predicate NoSelect(u: seq<Event>)
  {
    forall i :: 0 <= i < |u| ==> u[i] != SelectLow && u[i] != SelectHigh
  }

  lemma {:induction false} XfersAppend(a: seq<byte>, b: seq<byte>)
    ensures Xfers(a + b) == Xfers(a) + Xfers(b)
  {
    if a != [] {
      assert (a + b)[1..] == a[1..] + b;
      XfersAppend(a[1..], b);
    }
  }

  /** Sending one more byte appends one exchange. */
  lemma XfersSnoc(bs: seq<byte>, b: byte)
    ensures Xfers(bs + [b]) == Xfers(bs) + [Xfer(b)]
  {
    XfersAppend(bs, [b]);
  }

  lemma {:induction false} XferCountAppend(a: seq<Event>, b: seq<Event>)
    ensures XferCount(a + b) == XferCount(a) + XferCount(b)
  {
    if a != [] {
      assert (a + b)[0] == a[0] && (a + b)[1..] == a[1..] + b;
      XferCountAppend(a[1..], b);
    } else {
      assert a + b == b;
    }
  }

  /** A run of n exchanges accounts for exactly n replies. */
  lemma {:induction false} XferCountXfers(bs: seq<byte>)
    ensures XferCount(Xfers(bs)) == |bs|
  {
    if bs != [] {
      assert Xfers(bs)[1..] == Xfers(bs[1..]);
      XferCountXfers(bs[1..]);
    }
  }

  /** A transaction exchanges the command byte and then each payload byte: 1 + |payload| replies. */
  lemma TransactionXferCount(cmd: byte, payload: seq<byte>)
    ensures XferCount(Transaction(cmd, payload)) == 1 + |payload|
  {
    XferCountAppend(Open(cmd), Xfers(payload));
    XferCountAppend(Open(cmd) + Xfers(payload), [SelectHigh]);
    XferCountXfers(payload);
    assert XferCount(Open(cmd)) == 1 by {
      var o := Open(cmd);
      assert o[1..][1..] == [Delay(SPI_CMD_TO_DATA_DELAY)];
      assert XferCount([Delay(SPI_CMD_TO_DATA_DELAY)]) == 0;
      assert XferCount(o[1..]) == 1;
    }
  }

  /**
   * Framing of every transaction: it starts by selecting the shield, exchanges
   * the command byte, waits the settle delay, and deselects exactly once, at
   * the very end; nothing in between touches the select line.
   */
  lemma TransactionFraming(cmd: byte, payload: seq<byte>)
    ensures var t := Transaction(cmd, payload);
      && |t| == |payload| + 4
      && t[0] == SelectLow && t[1] == Xfer(cmd) && t[2] == Delay(SPI_CMD_TO_DATA_DELAY)
      && t[|t| - 1] == SelectHigh
      && NoSelect(t[1..|t| - 1])
  {
    var t := Transaction(cmd, payload);
    forall i | 1 <= i < |t| - 1
      ensures t[i] != SelectLow && t[i] != SelectHigh
    {
      if i >= 3 {
        assert t[i] == Xfers(payload)[i - 3];
      }
    }
  }

  lemma {:induction false} XferOutsXfers(bs: seq<byte>)
    ensures XferOuts(Xfers(bs)) == Some(bs)
  {
    if bs != [] {
      assert Xfers(bs)[1..] == Xfers(bs[1..]);
      XferOutsXfers(bs[1..]);
      assert [bs[0]] + bs[1..] == bs;
    }
  }

  lemma {:induction false} XferOutsSound(t: seq<Event>, bs: seq<byte>)
    requires XferOuts(t) == Some(bs)
    ensures t == Xfers(bs)
  {
    if t != [] {
      assert t[0].Xfer?;
      var rest := XferOuts(t[1..]).value;
      assert bs == [t[0].out] + rest;
      XferOutsSound(t[1..], rest);
      assert bs != [] && bs[0] == t[0].out && bs[1..] == rest;
      assert Xfers(bs) == [Xfer(bs[0])] + Xfers(bs[1..]);
      assert t == [t[0]] + t[1..];
    }
  }

  /** The command byte and payload can be read back off the bus trace. */
  lemma ParseTransactionRoundTrip(cmd: byte, payload: seq<byte>)
    ensures ParseTransaction(Transaction(cmd, payload)) == Some((cmd, payload))
  {
    var t := Transaction(cmd, payload);
    TransactionFraming(cmd, payload);
    assert t[3..|t| - 1] == Xfers(payload);
    XferOutsXfers(payload);
  }

  /** Only transactions parse: a trace that parses is exactly the transaction it names. */
  lemma ParseTransactionSound(t: seq<Event>, cmd: byte, payload: seq<byte>)
    requires ParseTransaction(t) == Some((cmd, payload))
    ensures t == Transaction(cmd, payload)
  {
    XferOutsSound(t[3..|t| - 1], payload);
    assert t == t[..3] + t[3..|t| - 1] + [t[|t| - 1]];
  }

  lemma {:induction false} SelectedSkip(a: seq<Event>, u: seq<Event>)
    requires NoSelect(u)
    ensures Selected(a + u) == Selected(a)
  {
    if u != [] {
      var v := u[..|u| - 1];
      assert (a + u)[..|a + u| - 1] == a + v;
      assert (a + u)[|a + u| - 1] == u[|u| - 1];
      SelectedSkip(a, v);
    } else {
      assert a + u == a;
    }
  }

  /**
   * After any history, opening a command leaves the shield selected, and a
   * complete transaction leaves it deselected.
   */
  lemma SelectAfterOpen(before: seq<Event>, cmd: byte)
    ensures Selected(before + Open(cmd))
  {
    var t := before + Open(cmd);
    assert t[..|t| - 1][..|t| - 2] == before + [SelectLow];
    assert t[..|t| - 1] == before + [SelectLow, Xfer(cmd)];
  }

  lemma SelectAfterTransaction(before: seq<Event>, cmd: byte, payload: seq<byte>)
    ensures !Selected(before + Transaction(cmd, payload))
  {
    var t := before + Transaction(cmd, payload);
    assert t[|t| - 1] == SelectHigh;
  }

  /** Polling the status n > 0 times leaves the shield selected: GetState never deasserts. */
  lemma SelectAfterPolls(before: seq<Event>, n: nat)
    requires n > 0
    ensures Selected(before + Polls(n))
  {
    assert before + Polls(n) == (before + Polls(n - 1)) + Open(CMD_STATE);
    SelectAfterOpen(before + Polls(n - 1), CMD_STATE);
  }
}
