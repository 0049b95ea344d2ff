/** Reassembly of frames from a TCP stream that hands out bytes in chunks of any size. */
module RbmsStream {
  import opened MachineInts
  import opened Bytes
  import opened Crc16
  import opened Crc16Bursts
  import opened Crc16Parity
  import opened RbmsFrame

  const MAX_TCP_LEN := 65535

  /** The length a frame announces in its own link header. */
  function AnnouncedLen(s: seq<byte>): nat
    requires |s| >= LINK_SIZE
  {
    LINK_SIZE + LenField(s[1], s[2])
  }

  predicate SelfDelimiting(f: seq<byte>) {
    |f| >= LINK_SIZE && |f| == AnnouncedLen(f)
  }

  function Concat<T>(parts: seq<seq<T>>): seq<T> {
    if parts == [] then [] else parts[0] + Concat(parts[1..])
  }

  lemma {:induction false} ConcatAdds<T>(s: seq<seq<T>>, t: seq<seq<T>>)
    ensures Concat(s + t) == Concat(s) + Concat(t)
  {
    if s == [] {
      assert s + t == t;
    } else {
      ConcatAdds(s[1..], t);
      assert (s + t)[1..] == s[1..] + t && (s + t)[0] == s[0];
    }
  }

  /** The elements that pass a test, in order. */
  function Keep<T>(s: seq<T>, p: T -> bool): seq<T> {
    if s == [] then []
    else if p(s[|s| - 1]) then Keep(s[..|s| - 1], p) + [s[|s| - 1]]
    else Keep(s[..|s| - 1], p)
  }

  lemma {:induction false} KeepAdds<T>(s: seq<T>, t: seq<T>, p: T -> bool)
    ensures Keep(s + t, p) == Keep(s, p) + Keep(t, p)
  {
    if t == [] {
      assert s + t == s;
    } else {
      KeepAdds(s, t[..|t| - 1], p);
      assert (s + t)[..|s + t| - 1] == s + t[..|t| - 1];
    }
  }

  lemma {:induction false} KeepAll<T>(s: seq<T>, p: T -> bool)
    requires forall i :: 0 <= i < |s| ==> p(s[i])
    ensures Keep(s, p) == s
  {
    if s != [] {
      KeepAll(s[..|s| - 1], p);
    }
  }

  predicate Passes(frame: seq<byte>) {
    ParseCheck(frame) == 0
  }

  /** The frames the checker lets through, in order. */
  function Accepted(frames: seq<seq<byte>>): seq<seq<byte>> {
    Keep(frames, Passes)
  }

  lemma {:induction false} KeepMembers<T>(s: seq<T>, p: T -> bool, x: T)
    ensures x in Keep(s, p) <==> x in s && p(x)
  {
    if s != [] {
      KeepMembers(s[..|s| - 1], p, x);
      assert s == s[..|s| - 1] + [s[|s| - 1]];
    }
  }

  /** The accepted frames are exactly the well-formed ones with 8 to 1500 body bytes. */
  lemma AcceptedInFields(frames: seq<seq<byte>>, f: seq<byte>)
    ensures f in Accepted(frames) <==>
      f in frames && 8 <= |f| - LINK_SIZE <= 1500 && f == Frame(f[LINK_SIZE..])
  {
    KeepMembers(frames, Passes, f);
    AcceptedIffWellFormed(f);
  }

  lemma AnnouncedLenIsBounded(s: seq<byte>)
    requires |s| >= LINK_SIZE
    ensures AnnouncedLen(s) <= LINK_SIZE + 2047
  {
    ElevenBits(s[1], s[2]);
  }

  lemma ElevenBits(low: byte, high: byte)
    ensures LenField(low, high) <= 2047
  {
  }

  // ---------------------------------------------------------------- what fits into a message

  /** The frame can be copied to the data field of a queue message. */
  predicate FitsMessage(frame: seq<byte>) {
    |frame| <= MAX_DATA_LEN
  }

  /** The length limits of checker and message differ by the link header: an accepted frame fits exactly when its body
      has at most 1495 bytes. */
  lemma AcceptedFitsIff(frame: seq<byte>)
    requires ParseCheck(frame) == 0
    ensures FitsMessage(frame) <==> |frame[LINK_SIZE..]| <= 1495
  {
  }

  /** A body of 1496 bytes makes a frame that the checker accepts and the message does not hold. */
  lemma AcceptedButTooLong()
    ensures var frame := Frame(Zeros(1496));
      SelfDelimiting(frame) && ParseCheck(frame) == 0 && !FitsMessage(frame)
  {
    WellFormedIsAccepted(Zeros(1496));
    FrameLayout(Zeros(1496));
    HeaderAnnounces(Zeros(1496));
  }

  // ---------------------------------------------------------------- the connection

  /** Why the receive loop stopped: nothing more to read for now, a failing link, or an accepted frame that does not fit
      into a message, whose copy leaves the data field. */
  datatype LoopEnd = NoMoreData | LinkFailed | MessageOverrun

  /** The socket, the receive buffer and the queue message of one rack connection. */
  class TcpLink {
    /** The peer's data always arrives: no errors, no early end of stream. */
    const sound: bool
    /** A wait never times out while there is something to read. */
    const prompt: bool
    const recvBuf: array<byte>
    const recvMsg: array<byte>
    var recvLen: nat
    /** What the peer has sent and nobody has read yet. */
    var incoming: seq<byte>
    /** What the last wait or read returned. */
    ghost var lastResult: int

    ghost predicate Sized() {
      recvBuf.Length == MAX_TCP_LEN && recvMsg.Length == MAX_DATA_LEN && recvBuf != recvMsg
    }

    constructor (sound: bool, prompt: bool)
      ensures Sized() && incoming == [] && this.sound == sound && this.prompt == prompt
      ensures fresh(recvBuf) && fresh(recvMsg)
    {
      this.sound, this.prompt := sound, prompt;
      incoming := [];
      recvBuf := new byte[MAX_TCP_LEN](_ => 0);
      recvMsg := new byte[MAX_DATA_LEN](_ => 0);
      recvLen := 0;
    }

    /** The peer sends more. */
    method Arrive(more: seq<byte>)
      modifies `incoming
      ensures incoming == old(incoming) + more
    {
      incoming := incoming + more;
    }

    /** Waits for data: positive when there is some, 0 on timeout, negative on error. */
    method Select() returns (ret: int)
      modifies `lastResult
      ensures lastResult == ret
      ensures sound ==> ret >= 0 && (ret > 0 ==> incoming != [])
      ensures sound && prompt && incoming != [] ==> ret > 0
    {
      ret := *;
      if sound {
        ret := if incoming != [] && (prompt || ret > 0) then 1 else 0;
      }
      lastResult := ret;
    }

    /** Reads at least one and at most `want` bytes to `recvBuf[at..]`; 0 at end of stream, negative on error. */
    method Recv(at: nat, want: nat) returns (n: int)
      requires at + want <= recvBuf.Length
      modifies `incoming, `lastResult, recvBuf
      ensures lastResult == n
      ensures n <= want && n <= |old(incoming)|
      ensures n > 0 ==> recvBuf[at..at + n] == old(incoming)[..n] && incoming == old(incoming)[n..]
      ensures n <= 0 ==> incoming == old(incoming)
      ensures recvBuf[..at] == old(recvBuf[..at])
      ensures sound && want > 0 && old(incoming) != [] ==> n > 0
    {
      var fails: bool := *;
      if incoming == [] || want == 0 || (fails && !sound) {
        n := *;
        n := if n < 0 then -1 else 0;
      } else {
        n :| 0 < n <= want && n <= |incoming|;
        for i := 0 to n
          invariant incoming == old(incoming)
          invariant recvBuf[at..at + i] == incoming[..i]
          invariant recvBuf[..at] == old(recvBuf[..at])
        {
          recvBuf[at + i] := incoming[i];
          assert recvBuf[at..at + i + 1] == recvBuf[at..at + i] + [incoming[i]];
        }
        incoming := incoming[n..];
      }
      lastResult := n;
    }

    /** Reads on until `total` bytes stand in the buffer, `got0` of them already there. */
    method FillTo(got0: nat, total: nat, ghost stream: seq<byte>) returns (ret: int)
      requires got0 <= total <= recvBuf.Length
      requires got0 <= |stream| && recvBuf[..got0] == stream[..got0] && incoming == stream[got0..]
      modifies `incoming, `recvLen, `lastResult, recvBuf
      ensures ret == 0 || (ret == -128 && lastResult == 0) || (ret == -1 && lastResult < 0)
      ensures ret == 0 ==> total <= |stream| && recvBuf[..total] == stream[..total] && incoming == stream[total..]
      ensures ret == 0 ==> recvLen == old(recvLen)
      ensures ret != 0 ==> recvLen == 0
      ensures sound && total <= |stream| ==> ret == 0
    {
      var got := got0;
      while got < total
        invariant got0 <= got <= total && got <= |stream|
        invariant recvBuf[..got] == stream[..got] && incoming == stream[got..]
        invariant recvLen == old(recvLen)
        decreases total - got
      {
        ghost var before := incoming;
        var n := Recv(got, total - got);
        if n < 0 {
          recvLen := 0;
          return -1;
        }
        if n == 0 {
          recvLen := 0;
          return -128;
        }
        assert recvBuf[..got + n] == recvBuf[..got] + recvBuf[got..got + n];
        assert stream[..got + n] == stream[..got] + before[..n];
        got := got + n;
      }
      ret := 0;
    }

    /** One frame: first the link header, then as many bytes as it announces. `idle` tells that the wait timed out. */
    method RecvFullFrame() returns (ret: int, idle: bool)
      requires recvBuf.Length == MAX_TCP_LEN
      modifies `incoming, `recvLen, `lastResult, recvBuf
      // no data for now, or the end of the stream, and failure are told apart by what the system call returned
      ensures ret == 0 || (ret == -128 && lastResult == 0) || (ret == -1 && lastResult < 0)
      // success: exactly the announced bytes are taken, and they are what the buffer holds
      ensures ret == 0 ==>
        && |old(incoming)| >= LINK_SIZE
        && recvLen == AnnouncedLen(old(incoming)) <= |old(incoming)| && recvLen <= recvBuf.Length
        && recvBuf[..recvLen] == old(incoming)[..recvLen]
        && incoming == old(incoming)[recvLen..]
      // a wait that times out takes nothing
      ensures idle ==> ret == -128 && incoming == old(incoming) && recvLen == old(recvLen)
                       && recvBuf[..] == old(recvBuf[..])
      // on a sound link a complete frame is read unless the wait times out, and never on a prompt one
      ensures sound && |old(incoming)| >= LINK_SIZE && AnnouncedLen(old(incoming)) <= |old(incoming)| ==>
                if idle then !prompt else ret == 0
      ensures sound && old(incoming) == [] ==> idle
    {
      ghost var stream := incoming;
      idle := false;
      var selRet := Select();
      if selRet == 0 {
        idle := true;
        return -128, idle;
      }
      if selRet < 0 { return -1, idle; }
      ret := FillTo(0, LINK_SIZE, stream);
      if ret != 0 { return; }
      assert forall i :: 0 <= i < LINK_SIZE ==> recvBuf[i] == recvBuf[..LINK_SIZE][i] == stream[i];
      AnnouncedLenIsBounded(stream);
      var frameLen := LINK_SIZE + LenField(recvBuf[1], recvBuf[2]);
      // An 11-bit length field cannot exceed the buffer, so the size check of the C code never fires.
      ret := FillTo(LINK_SIZE, frameLen, stream);
      if ret != 0 { return; }
      recvLen := frameLen;
    }

    /** The frame in the receive buffer, copied to the queue message. */
    method CopyToMessage() returns (msg: seq<byte>)
      requires Sized() && recvLen <= recvMsg.Length
      modifies recvMsg
      ensures msg == recvBuf[..recvLen]
    {
      CopyInto(recvMsg, 0, recvBuf[..recvLen]);
      msg := recvMsg[..recvLen];
    }

    /** The inner loop of a connection: frames are taken until none is left, the link fails or a message overruns;
        those that pass the checker are delivered. `sent` is what the peer sent and the loop has not yet seen. */
    method ReceiveLoop(ghost sent: seq<seq<byte>>)
      returns (delivered: seq<seq<byte>>, ghost received: nat, end: LoopEnd, clean: bool)
      requires Sized()
      requires incoming == Concat(sent) && forall i :: 0 <= i < |sent| ==> SelfDelimiting(sent[i])
      modifies `incoming, `recvLen, `lastResult, recvBuf, recvMsg
      ensures Served(sent, delivered, received)
      ensures forall i :: 0 <= i < |delivered| ==>
        var f := delivered[i]; 8 <= |f| - LINK_SIZE <= 1495 && f == Frame(f[LINK_SIZE..]) && f in sent[..received]
      ensures end == MessageOverrun ==> Overruns(sent, received)
      ensures end == LinkFailed ==> lastResult < 0
      ensures end == NoMoreData ==> lastResult == 0
      ensures sound ==> end != LinkFailed && (end == NoMoreData ==> clean)
      // stopped by a wait that timed out, the loop leaves all frames that it has not taken
      ensures clean ==> end == NoMoreData && incoming == Concat(sent[received..])
      ensures sound && prompt && end == NoMoreData ==> received == |sent|
    {
      delivered, received, end, clean := [], 0, NoMoreData, false;
      while true
        invariant received <= |sent| && delivered == Accepted(sent[..received]) && end == NoMoreData && !clean
        invariant forall i :: 0 <= i < |delivered| ==> FitsMessage(delivered[i])
        invariant incoming == Concat(sent[received..])
        decreases |sent| - received
      {
        ghost var rest := sent[received..];
        if received < |sent| {
          FirstFrame(rest);
        }
        var ret, idle := RecvFullFrame();
        if ret == -128 {
          clean := idle;
          break;
        }
        if ret < 0 {
          end := LinkFailed;
          break;
        }
        assert received < |sent| && recvBuf[..recvLen] == sent[received] && incoming == Concat(rest[1..]);
        assert sent[..received + 1][..received] == sent[..received];
        if ParseCheck(recvBuf[..recvLen]) == 0 {
          if recvLen > recvMsg.Length {
            end := MessageOverrun;
            break;
          }
          var msg := CopyToMessage();
          delivered := delivered + [msg];
        }
        assert rest[1..] == sent[received + 1..];
        received := received + 1;
      }
      DeliveredIsWellFormed(sent, delivered, received);
    }

    /** One round: the peer sends the last `frames` of `all`, and the inner loop runs. */
    method ServeRound(frames: seq<seq<byte>>, ghost all: seq<seq<byte>>,
                      delivered0: seq<seq<byte>>, ghost received0: nat)
      returns (delivered: seq<seq<byte>>, ghost received: nat, end: LoopEnd, clean: bool)
      requires Sized() && Served(all, delivered0, received0)
      requires incoming + Concat(frames) == Concat(all[received0..])
      requires forall i :: 0 <= i < |all| ==> SelfDelimiting(all[i])
      modifies `incoming, `recvLen, `lastResult, recvBuf, recvMsg
      ensures Served(all, delivered, received)
      ensures sound ==> end != LinkFailed && (end == NoMoreData ==> clean)
      ensures clean ==> end == NoMoreData && incoming == Concat(all[received..])
      ensures sound && prompt && end == NoMoreData ==> received == |all|
      ensures end == MessageOverrun ==> Overruns(all, received)
      ensures end == LinkFailed ==> lastResult < 0
      ensures end == NoMoreData ==> lastResult == 0
    {
      ghost var rest := all[received0..];
      Arrive(Concat(frames));
      var more, n, stop, resumable := ReceiveLoop(rest);
      ServedAdds(all, delivered0, received0, rest, more, n);
      delivered, received, end, clean := delivered0 + more, received0 + n, stop, resumable;
    }

    /** The outer loop, over any number of rounds: as long as the inner loop ends with a wait that timed out, each
        round resumes exactly where the last one stopped. */
    method ServeRounds(arrivals: seq<seq<seq<byte>>>)
      returns (delivered: seq<seq<byte>>, ghost received: nat, end: LoopEnd, clean: bool)
      requires Sized() && incoming == []
      requires forall i :: 0 <= i < |Concat(arrivals)| ==> SelfDelimiting(Concat(arrivals)[i])
      modifies `incoming, `recvLen, `lastResult, recvBuf, recvMsg
      ensures Served(Concat(arrivals), delivered, received)
      ensures forall i :: 0 <= i < |delivered| ==>
        var f := delivered[i]; 8 <= |f| - LINK_SIZE <= 1500 && f == Frame(f[LINK_SIZE..])
      ensures sound ==> end != LinkFailed && (end == NoMoreData ==> clean)
      ensures clean ==> end == NoMoreData && incoming == Concat(Concat(arrivals)[received..])
      ensures sound && prompt && end == NoMoreData ==> received == |Concat(arrivals)|
      ensures end == MessageOverrun ==> Overruns(Concat(arrivals), received)
      ensures end == LinkFailed ==> lastResult < 0
      ensures end == NoMoreData && arrivals != [] ==> lastResult == 0
    {
      delivered, received, end, clean := [], 0, NoMoreData, true;
      for r := 0 to |arrivals|
        invariant Served(Concat(arrivals[..r]), delivered, received) && end == NoMoreData && clean
        invariant sound && prompt ==> received == |Concat(arrivals[..r])|
        invariant r > 0 ==> lastResult == 0
        invariant incoming == Concat(Concat(arrivals[..r])[received..])
      {
        SliceAround(arrivals, r);
        ConcatGrows(arrivals[..r], arrivals[r], arrivals[..r + 1], arrivals[r + 1..], arrivals);
        LeftOver(Concat(arrivals[..r]), arrivals[r], delivered, received);
        delivered, received, end, clean := ServeRound(arrivals[r], Concat(arrivals[..r + 1]), delivered, received);
        if !clean {
          // the loop ended otherwise; what the rounds after an early end of stream read is not described
          ServedOfPrefix(Concat(arrivals[..r + 1]), Concat(arrivals), delivered, received);
          DeliveredIsWellFormed(Concat(arrivals), delivered, received);
          return;
        }
      }
      assert arrivals[..|arrivals|] == arrivals;
      DeliveredIsWellFormed(Concat(arrivals), delivered, received);
    }
  }

  /** Of the frames `all`, the first `received` were taken and the accepted ones among them delivered. */
  predicate Served(all: seq<seq<byte>>, delivered: seq<seq<byte>>, received: nat) {
    received <= |all| && delivered == Accepted(all[..received])
  }

  lemma DeliveredIsWellFormed(all: seq<seq<byte>>, delivered: seq<seq<byte>>, received: nat)
    requires Served(all, delivered, received)
    ensures forall i :: 0 <= i < |delivered| ==>
      var f := delivered[i]; 8 <= |f| - LINK_SIZE <= 1500 && f == Frame(f[LINK_SIZE..]) && f in all[..received]
  {
    forall i | 0 <= i < |delivered|
      ensures var f := delivered[i]; 8 <= |f| - LINK_SIZE <= 1500 && f == Frame(f[LINK_SIZE..]) && f in all[..received]
    {
      AcceptedInFields(all[..received], delivered[i]);
    }
  }

  /** The next frame is accepted, but does not fit into a message. */
  predicate Overruns(all: seq<seq<byte>>, received: nat) {
    received < |all| && ParseCheck(all[received]) == 0 && !FitsMessage(all[received])
  }

  /** What a round has to read: the frames left over and the new ones. */
  lemma LeftOver(before: seq<seq<byte>>, frames: seq<seq<byte>>, delivered: seq<seq<byte>>, received: nat)
    requires Served(before, delivered, received)
    ensures Served(before + frames, delivered, received)
    ensures Concat(before[received..]) + Concat(frames) == Concat((before + frames)[received..])
  {
    ConcatAdds(before[received..], frames);
    assert (before + frames)[received..] == before[received..] + frames;
    assert (before + frames)[..received] == before[..received];
  }

  lemma ServedAdds(all: seq<seq<byte>>, delivered: seq<seq<byte>>, received: nat,
                   rest: seq<seq<byte>>, more: seq<seq<byte>>, n: nat)
    requires Served(all, delivered, received) && rest == all[received..] && Served(rest, more, n)
    ensures Served(all, delivered + more, received + n)
    ensures Concat(all[received + n..]) == Concat(rest[n..])
    ensures Overruns(rest, n) ==> Overruns(all, received + n)
  {
    KeepAdds(all[..received], rest[..n], Passes);
    assert all[..received + n] == all[..received] + rest[..n];
    assert all[received + n..] == rest[n..];
  }

  lemma ServedOfPrefix(some: seq<seq<byte>>, all: seq<seq<byte>>, delivered: seq<seq<byte>>, received: nat)
    requires some <= all && Served(some, delivered, received)
    ensures Served(all, delivered, received) && (Overruns(some, received) ==> Overruns(all, received))
  {
    assert all[..received] == some[..received];
  }

  lemma FirstFrame(frames: seq<seq<byte>>)
    requires frames != [] && SelfDelimiting(frames[0])
    ensures |Concat(frames)| >= LINK_SIZE && AnnouncedLen(Concat(frames)) == |frames[0]| <= |Concat(frames)|
    ensures Concat(frames)[..|frames[0]|] == frames[0] && Concat(frames)[|frames[0]|..] == Concat(frames[1..])
  {
  }

  lemma ConcatGrows<T>(s: seq<seq<T>>, x: seq<T>, sx: seq<seq<T>>, t: seq<seq<T>>, all: seq<seq<T>>)
    requires sx == s + [x] && all == sx + t
    ensures Concat(sx) == Concat(s) + x && Concat(sx) <= Concat(all)
  {
    ConcatAdds(s, [x]);
    ConcatAdds(sx, t);
    assert [x][1..] == [] && Concat([x]) == x + Concat([x][1..]);
  }

  lemma SliceAround<T>(s: seq<T>, r: nat)
    requires r < |s|
    ensures s[..r + 1] == s[..r] + [s[r]] && s == s[..r + 1] + s[r + 1..]
  {
  }

  // ---------------------------------------------------------------- sender, link and receiver together

  datatype Message = Message(envelope: Envelope, payload: seq<byte>)

  /** The builder sends a frame for the message. */
  predicate IsSent(m: Message) {
    Built(m.envelope, m.payload).Sent?
  }

  function FrameOf(m: Message): seq<byte>
    requires IsSent(m)
  {
    Built(m.envelope, m.payload).frame
  }

  function SendAll(ms: seq<Message>): (frames: seq<seq<byte>>)
    requires forall i :: 0 <= i < |ms| ==> IsSent(ms[i])
    ensures |frames| == |ms| && forall i :: 0 <= i < |ms| ==> frames[i] == FrameOf(ms[i])
  {
    seq(|ms|, i requires 0 <= i < |ms| => FrameOf(ms[i]))
  }

  /** Every frame the builder sends can be cut out of the stream again and fits into a message, also the cut ones. */
  lemma BuiltIsSelfDelimiting(m: Message)
    requires IsSent(m)
    ensures SelfDelimiting(FrameOf(m)) && FitsMessage(FrameOf(m))
  {
    BodyLenByteFits(|m.payload|);
    var body := Body(m.envelope, m.payload)[..BodyLenByte(|m.payload|)];
    FrameLayout(body);
    HeaderAnnounces(body);
  }

  lemma HeaderAnnounces(body: seq<byte>)
    requires |body| < 2048
    ensures LenField(Frame(body)[1], Frame(body)[2]) == |body|
  {
    LenFieldOfHeader(|body|);
  }

  lemma ShortIsSent(m: Message)
    requires |m.payload| <= 247
    ensures IsSent(m) && ParseCheck(FrameOf(m)) == 0
    ensures Carries(FrameOf(m), m)
  {
    RoundTripIffShort(m.envelope, m.payload);
  }

  predicate Carries(frame: seq<byte>, m: Message) {
    |frame| >= LINK_SIZE + FIXED_BODY && EnvelopeOf(frame) == m.envelope && PayloadOf(frame) == m.payload
  }

  /** A sent frame whose body is damaged within sixteen consecutive bits is not among the delivered ones, whatever else
      is in the stream. */
  lemma DamagedIsNeverDelivered(all: seq<seq<byte>>, delivered: seq<seq<byte>>, received: nat,
                                m: Message, f: seq<byte>, damaged: seq<byte>, p: nat)
    requires Served(all, delivered, received) && IsSent(m) && f == FrameOf(m)
    requires |damaged| == |f| >= LINK_SIZE && damaged != f && damaged[..LINK_SIZE] == f[..LINK_SIZE]
    requires forall i :: 0 <= i < 8 * (|f| - LINK_SIZE) && !(p <= i < p + 16) ==>
               MessageBits(damaged[LINK_SIZE..])[i] == MessageBits(f[LINK_SIZE..])[i]
    ensures damaged !in delivered
  {
    KeepMembers(all[..received], Passes, damaged);
    CodeOfSent(m);
    if ParseCheck(f) == 0 {
      BodyBurstIsRejected(f, damaged, p);
    }
  }

  /** The same for any damage to the body that flips an odd number of bits. */
  lemma OddDamageIsNeverDelivered(all: seq<seq<byte>>, delivered: seq<seq<byte>>, received: nat,
                                  m: Message, f: seq<byte>, damaged: seq<byte>)
    requires Served(all, delivered, received) && IsSent(m) && f == FrameOf(m)
    requires |damaged| == |f| >= LINK_SIZE && damaged[..LINK_SIZE] == f[..LINK_SIZE]
    requires Differences(MessageBits(damaged[LINK_SIZE..]), MessageBits(f[LINK_SIZE..])) % 2 == 1
    ensures damaged !in delivered
  {
    KeepMembers(all[..received], Passes, damaged);
    CodeOfSent(m);
    if ParseCheck(f) == 0 {
      OddDamageIsRejected(f, damaged);
    }
  }

  /** A sent frame is accepted, or so short that any frame of its length is refused. */
  lemma CodeOfSent(m: Message)
    requires IsSent(m)
    ensures ParseCheck(FrameOf(m)) == 0 || |FrameOf(m)| < LINK_SIZE + FIXED_BODY
  {
    SentIsReceived(m.envelope, m.payload);
  }

  /** From the sender's messages to the receiver's fields: what the receive loop delivers for the stream of
      all built frames is every message, unchanged and in order, and none of them overruns. */
  lemma MessagesArriveIntact(ms: seq<Message>)
    requires forall i :: 0 <= i < |ms| ==> |ms[i].payload| <= 247
    ensures forall i :: 0 <= i < |ms| ==> IsSent(ms[i])
    ensures forall i :: 0 <= i < |ms| ==> SelfDelimiting(SendAll(ms)[i]) && FitsMessage(SendAll(ms)[i])
    ensures |Accepted(SendAll(ms))| == |ms|
    ensures forall i :: 0 <= i < |ms| ==> Carries(Accepted(SendAll(ms))[i], ms[i])
  {
    forall i | 0 <= i < |ms|
      ensures IsSent(ms[i]) && SelfDelimiting(FrameOf(ms[i]))
      ensures FitsMessage(FrameOf(ms[i]))
      ensures Carries(FrameOf(ms[i]), ms[i]) && Passes(FrameOf(ms[i]))
    {
      ShortIsSent(ms[i]);
      BuiltIsSelfDelimiting(ms[i]);
    }
    KeepAll(SendAll(ms), Passes);
  }
}
