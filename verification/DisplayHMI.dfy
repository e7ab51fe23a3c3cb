/** The touch panel's three-byte command frames, read a byte at a time from a UART that may deliver them in pieces. */
module DisplayHMI {
  import opened Words
  import opened Wrappers

  const HEADER: byte := 0x5A

  /** The reader's statics: how much of a frame was seen, and its command byte. */
  datatype Rx = Rx(state: nat, pending: byte)

  const START: Rx := Rx(0, 0)

  function Complement(b: byte): byte {
    0xFF - b
  }

  /** Bytes that the panel sends as acknowledgements. */
  predicate IsFiller(b: byte) {
    b == 0xFF || b == 0x00
  }

  /** The effect of one received byte. */
  function OnByte(s: Rx, b: byte): (Rx, Option<byte>) {
    if IsFiller(b) then (s.(state := 0), None)
    else if s.state == 0 then (if b == HEADER then s.(state := 1) else s, None)
    else if s.state == 1 then (Rx(2, b), None)
    else if s.state == 2 then
      (s.(state := 0), if b == Complement(s.pending) then Some(s.pending) else None)
    else (s, None)
  }

  /** The state after a stream and the commands it holds: the meaning of a stream, whatever its pieces. */
  function Decode(s: Rx, bytes: seq<byte>): (Rx, seq<byte>) {
    if bytes == [] then (s, [])
    else
      var (before, cmds) := Decode(s, bytes[..|bytes| - 1]);
      var (after, cmd) := OnByte(before, bytes[|bytes| - 1]);
      (after, if cmd.Some? then cmds + [cmd.value] else cmds)
  }

  lemma DecodeMore(s: Rx, bytes: seq<byte>, b: byte)
    ensures var (before, cmds) := Decode(s, bytes);
            var (after, cmd) := OnByte(before, b);
            Decode(s, bytes + [b]) == (after, if cmd.Some? then cmds + [cmd.value] else cmds)
  {
    assert (bytes + [b])[..|bytes|] == bytes;
  }

  lemma DecodeNothing(s: Rx)
    ensures Decode(s, []) == (s, [])
  {
  }

  lemma {:induction false} DecodeConcat(s: Rx, a: seq<byte>, b: seq<byte>)
    ensures var (mid, first) := Decode(s, a);
            var (after, second) := Decode(mid, b);
            Decode(s, a + b) == (after, first + second)
  {
    hide Decode, OnByte;
    DecodeNothing(Decode(s, a).0);
    if b == [] {
      assert a + b == a && Decode(s, a).1 + [] == Decode(s, a).1;
    } else {
      var shorter, last := b[..|b| - 1], b[|b| - 1];
      DecodeConcat(s, a, shorter);
      DecodeMore(s, a + shorter, last);
      var (mid, first) := Decode(s, a);
      var (before, second) := Decode(mid, shorter);
      DecodeMore(mid, shorter, last);
      var cmd := OnByte(before, last).1;
      assert cmd.Some? ==> first + second + [cmd.value] == first + (second + [cmd.value]);
      assert b == shorter + [last] && a + b == a + shorter + [last];
    }
  }

  /** What repeated calls leave behind: the reader, the bytes still in the UART, and the commands so far. */
  datatype Session = Session(rx: Rx, waiting: seq<byte>, commands: seq<byte>)

  /** A call of an initialised reader after `arrived` came in: it consumes ready bytes in order, up to the first
      command or to the end, and at least one when there is one. */
  ghost predicate IsCall(before: Session, arrived: seq<byte>, after: Session) {
    var ready := before.waiting + arrived;
    && |after.waiting| <= |ready| && after.waiting == ready[|ready| - |after.waiting|..]
    && (ready != [] ==> |after.waiting| < |ready|)
    && var (rx, cmds) := Decode(before.rx, ready[..|ready| - |after.waiting|]);
       && after.rx == rx && after.commands == before.commands + cmds
       && |cmds| <= 1 && (cmds == [] ==> after.waiting == [])
  }

  class TouchReader {
    var isInitialized: bool
    var rxState: nat
    var pendingCmd: byte

    ghost function View(): Rx
      reads this
    {
      Rx(rxState, pendingCmd)
    }

    constructor ()
      ensures !isInitialized && View() == START
    {
      isInitialized, rxState, pendingCmd := false, 0, 0;
    }

    /** Reads from the bytes that the UART has ready; `rest` stays in the UART. */
    method ReadTouchCommand(ready: seq<byte>) returns (cmd: Option<byte>, rest: seq<byte>)
      modifies this`rxState, this`pendingCmd
      ensures !isInitialized ==> cmd == None && rest == ready && View() == old(View())
      ensures isInitialized ==>
                IsCall(Session(old(View()), [], []), ready, Session(View(), rest,
                    if cmd.Some? then [cmd.value] else []))
    {
      if !isInitialized {
        return None, ready;
      }
      assert [] + ready == ready;
      var n := 0;
      while n < |ready|
        invariant n <= |ready|
        invariant (View(), []) == Decode(old(View()), ready[..n])
      {
        var rxByte := ready[n];
        DecodeMore(old(View()), ready[..n], rxByte);
        assert ready[..n + 1] == ready[..n] + [rxByte];
        n := n + 1;
        if rxByte == 0xFF || rxByte == 0x00 {
          rxState := 0;
          continue;
        }
        if rxState == 0 {
          if rxByte == HEADER {
            rxState := 1;
          }
        } else if rxState == 1 {
          pendingCmd := rxByte;
          rxState := 2;
        } else if rxState == 2 {
          rxState := 0;
          if rxByte == Complement(pendingCmd) {
            assert |ready| - |ready[n..]| == n && [] + [pendingCmd] == [pendingCmd];
            return Some(pendingCmd), ready[n..];
          }
        }
      }
      return None, [];
    }
  }

  // ---------------------------------------------------------------- splitting the stream changes nothing

  function Concat(chunks: seq<seq<byte>>): seq<byte> {
    if chunks == [] then [] else Concat(chunks[..|chunks| - 1]) + chunks[|chunks| - 1]
  }

  ghost predicate IsRun(sessions: seq<Session>, chunks: seq<seq<byte>>) {
    && |sessions| == |chunks| + 1
    && sessions[0] == Session(START, [], [])
    && forall i :: 0 <= i < |chunks| ==> IsCall(sessions[i], chunks[i], sessions[i + 1])
  }

  ghost predicate ReadsStream(s: Session, stream: seq<byte>) {
    && |s.waiting| <= |stream| && s.waiting == stream[|stream| - |s.waiting|..]
    && (s.rx, s.commands) == Decode(START, stream[..|stream| - |s.waiting|])
  }

  lemma CallReadsOn(before: Session, arrived: seq<byte>, after: Session, earlier: seq<byte>)
    requires ReadsStream(before, earlier) && IsCall(before, arrived, after)
    ensures ReadsStream(after, earlier + arrived)
  {
    hide Decode;
    var stream, ready := earlier + arrived, before.waiting + arrived;
    var done, now := earlier[..|earlier| - |before.waiting|], ready[..|ready| - |after.waiting|];
    DecodeConcat(START, done, now);
    assert stream == done + ready;
    assert done + now == stream[..|stream| - |after.waiting|];
    assert after.waiting == stream[|stream| - |after.waiting|..];
  }

  /** However the stream arrives and however many calls read it, the commands yielded are those of the bytes consumed,
      and the bytes consumed and those still waiting are the stream. */
  lemma {:induction false} SplittingIsInvisible(sessions: seq<Session>, chunks: seq<seq<byte>>)
    requires IsRun(sessions, chunks)
    ensures ReadsStream(sessions[|chunks|], Concat(chunks))
  {
    if chunks != [] {
      var n := |chunks| - 1;
      SplittingIsInvisible(sessions[..|chunks|], chunks[..n]);
      CallReadsOn(sessions[n], chunks[n], sessions[n + 1], Concat(chunks[..n]));
    }
  }

  /** Once nothing arrives any more, as many calls as bytes are waiting drain the UART. */
  lemma {:induction false} IdleCallsDrain(sessions: seq<Session>, chunks: seq<seq<byte>>, n: nat)
    requires IsRun(sessions, chunks) && n <= |chunks| && forall i :: n <= i < |chunks| ==> chunks[i] == []
    ensures var left := sessions[|chunks|].waiting;
            left == [] || |left| + (|chunks| - n) <= |sessions[n].waiting|
  {
    hide Decode;
    if n < |chunks| {
      var last := |chunks| - 1;
      IdleCallsDrain(sessions[..|chunks|], chunks[..last], n);
      assert IsCall(sessions[last], chunks[last], sessions[last + 1]);
    }
  }

  /** So every command of the whole stream is yielded in the end, and each once. */
  lemma StreamIsReadCompletely(sessions: seq<Session>, chunks: seq<seq<byte>>, n: nat)
    requires IsRun(sessions, chunks) && n <= |chunks| && forall i :: n <= i < |chunks| ==> chunks[i] == []
    requires |chunks| - n >= |sessions[n].waiting|
    ensures sessions[|chunks|].waiting == []
    ensures (sessions[|chunks|].rx, sessions[|chunks|].commands) == Decode(START, Concat(chunks))
  {
    hide IsRun, Decode, Concat;
    IdleCallsDrain(sessions, chunks, n);
    SplittingIsInvisible(sessions, chunks);
    assert Concat(chunks)[..|Concat(chunks)|] == Concat(chunks);
  }

  // ---------------------------------------------------------------- what a command is made of

  /** The command that the byte at position i completes, if any. */
  function CommandAt(bytes: seq<byte>, i: nat): Option<byte>
    requires i < |bytes|
  {
    OnByte(Decode(START, bytes[..i]).0, bytes[i]).1
  }

  lemma {:induction false} StateRemembersBytes(bytes: seq<byte>, n: nat)
    requires n <= |bytes|
    ensures var s := Decode(START, bytes[..n]).0;
            && s.state <= 2
            && (s.state == 1 ==> n >= 1 && bytes[n - 1] == HEADER)
            && (s.state == 2 ==> n >= 2 && bytes[n - 2] == HEADER && bytes[n - 1] == s.pending && !IsFiller(s.pending))
  {
    if n > 0 {
      StateRemembersBytes(bytes, n - 1);
      assert bytes[..n][..n - 1] == bytes[..n - 1];
    }
  }

  /** Every command comes from three adjacent bytes 0x5A, c, ~c, is neither 0x00 nor 0xFF, and no two commands share a
      byte. */
  lemma CommandsOwnThreeBytes(bytes: seq<byte>, i: nat)
    requires i < |bytes| && CommandAt(bytes, i).Some?
    ensures i >= 2 && bytes[i - 2] == 0x5A
    ensures bytes[i - 1] == CommandAt(bytes, i).value && bytes[i] == 255 - bytes[i - 1]
    ensures CommandAt(bytes, i).value != 0x00 && CommandAt(bytes, i).value != 0xFF
    ensures CommandAt(bytes, i - 1) == None && CommandAt(bytes, i - 2) == None
  {
    StateRemembersBytes(bytes, i);
    StateRemembersBytes(bytes, i - 1);
    StateRemembersBytes(bytes, i - 2);
    assert bytes[..i][..i - 1] == bytes[..i - 1];
    assert bytes[..i - 1][..i - 2] == bytes[..i - 2];
  }

  lemma {:induction false} DecodedAreNotFillers(s: Rx, bytes: seq<byte>)
    requires s.state != 2
    ensures var (after, cmds) := Decode(s, bytes);
            && (after.state == 2 ==> !IsFiller(after.pending))
            && forall k :: 0 <= k < |cmds| ==> !IsFiller(cmds[k])
  {
    if bytes != [] {
      DecodedAreNotFillers(s, bytes[..|bytes| - 1]);
    }
  }

  // ---------------------------------------------------------------- encoding and decoding

  function Encode(cmds: seq<byte>): seq<byte> {
    if cmds == [] then []
    else
      var c := cmds[|cmds| - 1];
      Encode(cmds[..|cmds| - 1]) + [HEADER, c, Complement(c)]
  }

  lemma {:induction false} DecodeEncoded(s: Rx, cmds: seq<byte>)
    requires s.state == 0 && forall k :: 0 <= k < |cmds| ==> !IsFiller(cmds[k])
    ensures var (after, decoded) := Decode(s, Encode(cmds)); after.state == 0 && decoded == cmds
  {
    if cmds != [] {
      var c, earlier := cmds[|cmds| - 1], Encode(cmds[..|cmds| - 1]);
      DecodeEncoded(s, cmds[..|cmds| - 1]);
      DecodeConcat(s, earlier, [HEADER, c, Complement(c)]);
      DecodeFrame(Decode(s, earlier).0, c);
      assert cmds == cmds[..|cmds| - 1] + [c];
    }
  }

  lemma DecodeFrame(s: Rx, c: byte)
    requires s.state == 0 && !IsFiller(c)
    ensures Decode(s, [HEADER, c, Complement(c)]) == (Rx(0, c), [c])
  {
    DecodeMore(s, [], HEADER);
    assert [] + [HEADER] == [HEADER] && [HEADER] + [c] == [HEADER, c] && [] + [c] == [c];
    DecodeMore(s, [HEADER], c);
    DecodeMore(s, [HEADER, c], Complement(c));
    assert [HEADER, c] + [Complement(c)] == [HEADER, c, Complement(c)];
  }

  /** A stream of frames decodes to its commands exactly when none of them is 0x00 or 0xFF. */
  lemma FramesRoundTrip(cmds: seq<byte>)
    ensures Decode(START, Encode(cmds)).1 == cmds <==> forall k :: 0 <= k < |cmds| ==> !IsFiller(cmds[k])
  {
    if forall k :: 0 <= k < |cmds| ==> !IsFiller(cmds[k]) {
      DecodeEncoded(START, cmds);
    } else {
      DecodedAreNotFillers(START, Encode(cmds));
    }
  }

  /** A third byte that is not the complement ends the frame: no command, and the reader waits for a header again,
      even when that byte is itself 0x5A, which therefore does not start a frame. */
  lemma WrongChecksumEndsFrame(s: Rx, c: byte, x: byte)
    requires s.state == 0 && c != 0x00 && c != 0xFF && x != 255 - c
    ensures var (after, cmds) := Decode(s, [0x5A, c, x]); after.state == 0 && cmds == []
  {
    DecodeMore(s, [], 0x5A);
    assert [] + [0x5A] == [0x5A] && [0x5A] + [c] == [0x5A, c] && [0x5A, c] + [x] == [0x5A, c, x];
    DecodeMore(s, [0x5A], c);
    DecodeMore(s, [0x5A, c], x);
  }

  /** After any noise, one filler byte makes the reader decode the following frames exactly. */
  lemma FillerResynchronises(noise: seq<byte>, filler: byte, cmds: seq<byte>)
    requires IsFiller(filler) && forall k :: 0 <= k < |cmds| ==> !IsFiller(cmds[k])
    ensures Decode(START, noise + [filler] + Encode(cmds)).1 == Decode(START, noise).1 + cmds
  {
    DecodeMore(START, noise, filler);
    DecodeConcat(START, noise + [filler], Encode(cmds));
    DecodeEncoded(Decode(START, noise + [filler]).0, cmds);
  }
}
