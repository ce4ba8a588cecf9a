/** Frames on a byte stream: a 32-bit big-endian length, then that many bytes. */
module Frames {
  import opened Wire

  const PREFIX := 4
  const MIN_FRAME := 1
  const MAX_FRAME := 0x10_0000

  predicate ValidBody(body: Bytes) {
    MIN_FRAME <= |body| <= MAX_FRAME
  }

  function Framed(body: Bytes): Bytes {
    BigEndian(|body|, PREFIX) + body
  }

  /** What a sender of these bodies puts on the wire. */
  function Stream(bodies: seq<Bytes>): Bytes {
    if bodies == [] then [] else Framed(bodies[0]) + Stream(bodies[1..])
  }

  /** What stands at the head of a byte stream that ends. */
  datatype Head =
    | Whole(body: Bytes, rest: Bytes)
    | End
    | Partial
    | BadLength(length: nat)

  function HeadOf(b: Bytes): (h: Head)
    ensures h.Whole? ==> |h.rest| < |b|
  {
    if b == [] then End
    else if |b| < PREFIX then Partial
    else
      var length := FromBigEndian(b[..PREFIX]);
      if length < MIN_FRAME || length > MAX_FRAME then BadLength(length)
      else if |b| < PREFIX + length then Partial
      else Whole(b[PREFIX..PREFIX + length], b[PREFIX + length..])
  }

  /** All frames of a byte stream that ends, in order, and what follows them. */
  function Split(b: Bytes): (seq<Bytes>, Head)
    decreases |b|
  {
    var h := HeadOf(b);
    if h.Whole? then
      var (more, last) := Split(h.rest);
      ([h.body] + more, last)
    else ([], h)
  }

  /** How many frames lie wholly within the first `k` bytes. */
  function WholeFrames(bodies: seq<Bytes>, k: nat): (n: nat)
    ensures n <= |bodies|
  {
    if bodies == [] || k < PREFIX + |bodies[0]| then 0
    else 1 + WholeFrames(bodies[1..], k - PREFIX - |bodies[0]|)
  }

  lemma FramedPrefix(body: Bytes, k: nat)
    requires ValidBody(body) && PREFIX <= k <= PREFIX + |body|
    ensures |Framed(body)| == PREFIX + |body| && FromBigEndian(Framed(body)[..k][..PREFIX]) == |body|
  {
    WordSizes();
    hide Pow256;
    BigEndianRoundTrip(|body|, PREFIX);
    assert Framed(body)[..k][..PREFIX] == BigEndian(|body|, PREFIX);
  }

  lemma HeadOfFrame(body: Bytes, rest: Bytes)
    requires ValidBody(body)
    ensures HeadOf(Framed(body) + rest) == Whole(body, rest)
  {
    FramedPrefix(body, PREFIX + |body|);
    var f := Framed(body);
    var b := f + rest;
    assert b[..PREFIX] == f[..PREFIX + |body|][..PREFIX];
    assert b[PREFIX..PREFIX + |body|] == body && b[PREFIX + |body|..] == rest;
    hide FromBigEndian;
  }

  lemma HeadOfCutFrame(body: Bytes, k: nat)
    requires ValidBody(body) && k < PREFIX + |body|
    ensures |Framed(body)| == PREFIX + |body|
    ensures HeadOf(Framed(body)[..k]) == if k == 0 then End else Partial
  {
    if k >= PREFIX {
      FramedPrefix(body, k);
      hide FromBigEndian;
    }
  }

  /** Cutting what was sent at any offset leaves exactly the frames wholly within
      it, in order; then the end of the stream on a frame boundary, and a partial
      frame anywhere else. */
  lemma {:induction false} CutStream(bodies: seq<Bytes>, k: nat)
    requires (forall i :: 0 <= i < |bodies| ==> ValidBody(bodies[i])) && k <= |Stream(bodies)|
    ensures var n := WholeFrames(bodies, k);
            && |Stream(bodies[..n])| <= k
            && Split(Stream(bodies)[..k]) == (bodies[..n], if |Stream(bodies[..n])| == k then End else Partial)
  {
    hide HeadOf;
    if bodies == [] {
      HeadOfNothing();
    } else {
      hide Framed;
      var body, f, rest := bodies[0], Framed(bodies[0]), Stream(bodies[1..]);
      var size := PREFIX + |body|;
      HeadOfCutFrame(body, 0);
      var n := WholeFrames(bodies, k);
      if k < size {
        HeadOfCutFrame(body, k);
        assert Stream(bodies)[..k] == f[..k];
      } else {
        CutStream(bodies[1..], k - size);
        HeadOfFrame(body, rest[..k - size]);
        assert Stream(bodies)[..k] == f + rest[..k - size];
        assert bodies[..n] == [body] + bodies[1..][..n - 1];
        assert bodies[..n][1..] == bodies[1..][..n - 1];
      }
    }
  }

  lemma HeadOfNothing()
    ensures HeadOf([]) == End
  {
  }

  /** A sender that closes after its last frame is read in full. */
  lemma {:induction false} StreamRoundTrip(bodies: seq<Bytes>)
    requires forall i :: 0 <= i < |bodies| ==> ValidBody(bodies[i])
    ensures Split(Stream(bodies)) == (bodies, End)
  {
    var s := Stream(bodies);
    CutStream(bodies, |s|);
    AllFramesWhole(bodies);
    assert s[..|s|] == s && bodies[..|bodies|] == bodies;
  }

  lemma {:induction false} AllFramesWhole(bodies: seq<Bytes>)
    ensures WholeFrames(bodies, |Stream(bodies)|) == |bodies|
  {
    if bodies != [] { AllFramesWhole(bodies[1..]); }
  }

  /** Of any bytes at all, the frames read are exactly what the front of the stream
      says: nothing is invented, reordered or skipped. */
  lemma {:induction false} SplitIsPrefix(b: Bytes)
    ensures (forall i :: 0 <= i < |Split(b).0| ==> ValidBody(Split(b).0[i]))
    ensures Stream(Split(b).0) <= b
    decreases |b|
  {
    var h := HeadOf(b);
    if h.Whole? {
      SplitIsPrefix(h.rest);
      BigEndianExact(b[..PREFIX]);
      var bodies := Split(b).0;
      assert bodies[1..] == Split(h.rest).0;
      assert b == Framed(h.body) + h.rest;
    }
  }

  /** Behind any good frames, a length of zero or above 1 MiB is found and named,
      whatever follows it, and ends the reading. */
  lemma {:induction false} BadLengthEndsStream(bodies: seq<Bytes>, length: nat, junk: Bytes)
    requires forall i :: 0 <= i < |bodies| ==> 1 <= |bodies[i]| <= 1024 * 1024
    requires length < 0x1_0000_0000 && (length == 0 || length > 1024 * 1024)
    ensures Split(Stream(bodies) + (BigEndian(length, 4) + junk)) == (bodies, BadLength(length))
  {
    hide HeadOf;
    var tail := BigEndian(length, 4) + junk;
    if bodies == [] {
      assert Stream(bodies) + tail == tail;
      HeadOfBadLength(length, junk);
    } else {
      hide Framed;
      BadLengthEndsStream(bodies[1..], length, junk);
      HeadOfFrame(bodies[0], Stream(bodies[1..]) + tail);
      assert Stream(bodies) + tail == Framed(bodies[0]) + (Stream(bodies[1..]) + tail);
      assert bodies == [bodies[0]] + bodies[1..];
    }
  }

  lemma {:induction false} HeadOfBadLength(length: nat, junk: Bytes)
    requires length < 0x1_0000_0000 && (length == 0 || length > 1024 * 1024)
    ensures HeadOf(BigEndian(length, 4) + junk) == BadLength(length)
  {
    WordSizes();
    BigEndianRoundTrip(length, 4);
    var b := BigEndian(length, 4) + junk;
    assert b[..4] == BigEndian(length, 4);
    hide FromBigEndian;
    hide BigEndian;
    hide Pow256;
  }
}

/** A connected socket and the loops over its system calls. */
module Streams {
  import opened Words
  import opened Wire
  import opened WireObjects
  import opened Frames

  /** How the kernel answers one call: part of the data (at least one byte, at most
      what was asked for and is there), a signal, a timeout, a peer that is gone
      (writes only), or another error. */
  datatype Answer = Transfer(count: nat) | Interrupt | Expire | Hangup | Fault(errno: int)

  datatype Syscall = Moved(count: nat) | EndOfStream | Interrupted | WouldBlock | BrokenPipe | Error(errno: int)

  datatype IoStatus = IoOk | IoPeerClosed | IoTimedOut | IoError

  datatype IoResult = IoResult(status: IoStatus, error: int, transferred: nat)

  datatype FrameStatus = FrameOk | PeerClosed | Truncated | Oversized | TimedOut | FrameIoError

  datatype FrameResult = FrameResult(status: FrameStatus, ioError: int, length: u32)

  const EAGAIN := 11
  const EPIPE := 32

  /** Only short transfers and signals: nothing that ends a loop early. */
  predicate Benign(answers: seq<Answer>) {
    forall i :: 0 <= i < |answers| ==> answers[i].Transfer? || answers[i].Interrupt?
  }

  /** What is left of the kernel's answers after some were used. */
  predicate IsTail(after: seq<Answer>, before: seq<Answer>) {
    |after| <= |before| && after == before[|before| - |after|..]
  }

  /** The last of the answers used. */
  predicate StoppedBy(before: seq<Answer>, after: seq<Answer>, last: Answer) {
    |after| < |before| && IsTail(after, before) && before[|before| - |after| - 1] == last
  }

  lemma Untouched(a: seq<Answer>)
    ensures IsTail(a, a)
  {
  }

  lemma UseOne(a: seq<Answer>)
    ensures IsTail(a, a)
    ensures a != [] ==> IsTail(a[1..], a) && StoppedBy(a, a[1..], a[0])
    ensures a != [] && Benign(a) ==> Benign(a[1..]) && (a[0].Transfer? || a[0].Interrupt?)
  {
  }

  lemma TailOfTail(a: seq<Answer>, b: seq<Answer>, c: seq<Answer>)
    requires IsTail(b, a) && IsTail(c, b)
    ensures IsTail(a, a) && IsTail(c, a) && |c| <= |b|
    ensures forall x | StoppedBy(b, c, x) :: StoppedBy(a, c, x) && |c| < |b|
  {
  }

  /** A loop that did not end well ended on the answer that says so. */
  predicate Explained(io: IoResult, before: seq<Answer>, after: seq<Answer>) {
    && IsTail(after, before)
    && (io.status.IoTimedOut? ==> io.error == EAGAIN && StoppedBy(before, after, Expire))
    && (io.status.IoError? ==>
          StoppedBy(before, after, Fault(io.error)) || (io.error == EPIPE && StoppedBy(before, after, Hangup)))
  }

  /** The same for a frame: a timeout or an error is the kernel's. */
  predicate ExplainedFrame(r: FrameResult, before: seq<Answer>, after: seq<Answer>) {
    && IsTail(after, before)
    && (r.status.TimedOut? ==> r.ioError == EAGAIN && StoppedBy(before, after, Expire))
    && (r.status.FrameIoError? ==>
          StoppedBy(before, after, Fault(r.ioError)) || (r.ioError == EPIPE && StoppedBy(before, after, Hangup)))
  }

  /** What a write leaves on the stream: always a first part of the frame, and the
      whole of it exactly when it succeeded. */
  predicate Puts(before: Bytes, after: Bytes, body: Bytes, ok: bool) {
    && before <= after <= before + Framed(body)
    && (ok <==> after == before + Framed(body))
  }

  lemma PutsPart(before: Bytes, framed: Bytes, body: Bytes, n: nat)
    requires framed == Framed(body) && n <= |framed|
    ensures Puts(before, before + framed[..n], body, n == |framed|)
    ensures framed != [] && (n == 0 <==> before + framed[..n] == before)
  {
    var after := before + framed[..n];
    assert n == |framed| ==> framed[..n] == framed;
    assert after == (before + framed)[..|before| + n];
  }

  function Clamp(k: nat, low: nat, high: nat): (r: nat)
    requires low <= high
    ensures low <= r <= high
  {
    if k < low then low else if k > high then high else k
  }

  /** The end of a stream inside a frame is a truncation; before one it is a
      goodbye. */
  function FromIo(io: IoResult): FrameResult {
    match io.status
    case IoOk => FrameResult(FrameOk, 0, 0)
    case IoPeerClosed => FrameResult(if io.transferred == 0 then PeerClosed else Truncated, 0, 0)
    case IoTimedOut => FrameResult(TimedOut, io.error, 0)
    case IoError => FrameResult(FrameIoError, io.error, 0)
  }

  /** A buffer with `data` written over it from `at` on. */
  function Pasted(buffer: Bytes, at: nat, data: Bytes): (r: Bytes)
    requires at + |data| <= |buffer|
    ensures |r| == |buffer|
  {
    buffer[..at] + data + buffer[at + |data|..]
  }

  lemma PasteMore(buffer: Bytes, source: Bytes, t: nat, n: nat)
    requires t + n <= |buffer| && t + n <= |source|
    ensures Pasted(buffer, 0, source[..0]) == buffer && source[0..] == source
    ensures source[t..][n..] == source[t + n..]
    ensures Pasted(Pasted(buffer, 0, source[..t]), t, source[t..][..n]) == Pasted(buffer, 0, source[..t + n])
  {
  }

  lemma PastedParts(buffer: Bytes, source: Bytes, t: nat)
    requires t <= |buffer| && t <= |source|
    ensures Pasted(buffer, 0, source[..t])[..t] == source[..t] && Pasted(buffer, 0, source[..t])[t..] == buffer[t..]
  {
  }

  /** The outcome that tells the caller what stands at the head of the stream. */
  predicate Reports(r: FrameResult, h: Head) {
    match h
    case Whole(body, _) => r.status == FrameOk && r.length == |body|
    case End => r.status == PeerClosed
    case Partial => r.status == Truncated
    case BadLength(n) => r.status == Oversized && r.length == n
  }

  /** The answer behind a call that moved nothing. */
  function AnswerOf(call: Syscall): Answer {
    match call
    case Interrupted => Interrupt
    case WouldBlock => Expire
    case BrokenPipe => Hangup
    case Error(e) => Fault(e)
    case _ => Transfer(0)
  }

  lemma HeadOfShort(whole: Bytes)
    requires |whole| < PREFIX
    ensures HeadOf(whole) == if whole == [] then End else Partial
  {
  }

  lemma HeadOfLong(whole: Bytes)
    requires |whole| >= PREFIX
    ensures var length, rest := FromBigEndian(whole[..PREFIX]), whole[PREFIX..];
            HeadOf(whole) == if length < MIN_FRAME || length > MAX_FRAME then BadLength(length)
                             else if |rest| < length then Partial
                             else Whole(rest[..length], rest[length..])
  {
    hide FromBigEndian;
    var length := FromBigEndian(whole[..PREFIX]);
    if MIN_FRAME <= length <= MAX_FRAME && PREFIX + length <= |whole| {
      assert whole[PREFIX..][..length] == whole[PREFIX..PREFIX + length];
      assert whole[PREFIX..][length..] == whole[PREFIX + length..];
    }
  }

  class UnixStream {
    /** What will still arrive before the peer's end of stream, and what the kernel
        has accepted for the peer. */
    var incoming: Bytes
    var outgoing: Bytes
    /** How the next calls will be answered; once these run out each call moves
        all it can. */
    var readAnswers: seq<Answer>
    var writeAnswers: seq<Answer>

    constructor (incoming: Bytes, readAnswers: seq<Answer>, writeAnswers: seq<Answer>)
      ensures this.incoming == incoming && outgoing == []
      ensures this.readAnswers == readAnswers && this.writeAnswers == writeAnswers
    {
      this.incoming, this.readAnswers, this.writeAnswers := incoming, readAnswers, writeAnswers;
      outgoing := [];
    }

    /** read(2) into the buffer from `at` on. */
    method Read(buffer: array<u8>, at: nat) returns (r: Syscall)
      requires at < buffer.Length
      modifies this`incoming, this`readAnswers, buffer
      ensures IsTail(readAnswers, old(readAnswers))
      ensures Benign(old(readAnswers)) ==> Benign(readAnswers) && (r.Moved? || r.EndOfStream? || r.Interrupted?)
      ensures match r
              case Moved(n) =>
                && 0 < n <= buffer.Length - at && n <= |old(incoming)| && incoming == old(incoming)[n..]
                && buffer[..] == Pasted(old(buffer[..]), at, old(incoming)[..n])
              case EndOfStream => incoming == old(incoming) == [] && buffer[..] == old(buffer[..])
              case _ =>
                && incoming == old(incoming) && buffer[..] == old(buffer[..])
                && StoppedBy(old(readAnswers), readAnswers, AnswerOf(r))
    {
      hide IsTail;
      hide StoppedBy;
      hide Benign;
      UseOne(readAnswers);
      var answer := Transfer(buffer.Length);
      if readAnswers != [] {
        answer, readAnswers := readAnswers[0], readAnswers[1..];
      }
      match answer {
        case Interrupt => return Interrupted;
        case Expire => return WouldBlock;
        case Hangup => return BrokenPipe;
        case Fault(e) => return Error(e);
        case Transfer(k) =>
          if incoming == [] {
            return EndOfStream;
          }
          var want := buffer.Length - at;
          var n := Clamp(k, 1, if want < |incoming| then want else |incoming|);
          Copy(incoming[..n], buffer, at);
          incoming := incoming[n..];
          return Moved(n);
      }
    }

    static method Copy(data: Bytes, buffer: array<u8>, at: nat)
      requires at + |data| <= buffer.Length
      modifies buffer
      ensures buffer[..] == Pasted(old(buffer[..]), at, data)
    {
      for i := 0 to |data|
        invariant forall k :: 0 <= k < buffer.Length && !(at <= k < at + i) ==> buffer[k] == old(buffer[k])
        invariant forall k :: 0 <= k < i ==> buffer[at + k] == data[k]
      {
        buffer[at + i] := data[i];
      }
    }

    /** Fills the buffer. Whatever the outcome, the bytes taken off the stream are
        the ones now at the front of the buffer, in order; when only short reads
        and signals happen, it stops early only at the end of the stream. */
    method ReadExact(buffer: array<u8>) returns (r: IoResult)
      modifies this`incoming, this`readAnswers, buffer
      ensures r.transferred <= buffer.Length && r.transferred <= |old(incoming)|
      ensures incoming == old(incoming)[r.transferred..]
      ensures buffer[..r.transferred] == old(incoming)[..r.transferred]
      ensures buffer[r.transferred..] == old(buffer[r.transferred..])
      ensures r.status.IoOk? <==> r.transferred == buffer.Length
      ensures r.status.IoPeerClosed? ==> incoming == []
      ensures Explained(r, old(readAnswers), readAnswers)
      ensures Benign(old(readAnswers)) ==> Benign(readAnswers) && (r.status.IoOk? || r.status.IoPeerClosed?)
    {
      hide Pasted;
      hide Benign;
      hide StoppedBy;
      hide IsTail;
      ghost var initial, source := buffer[..], incoming;
      PasteMore(initial, source, 0, 0);
      Untouched(readAnswers);
      r := IoResult(IoOk, 0, 0);
      while r.transferred < buffer.Length
        invariant r.transferred <= buffer.Length && r.transferred <= |source|
        invariant incoming == source[r.transferred..] && r.status.IoOk?
        invariant buffer[..] == Pasted(initial, 0, source[..r.transferred])
        invariant IsTail(readAnswers, old(readAnswers)) && (Benign(old(readAnswers)) ==> Benign(readAnswers))
        decreases buffer.Length - r.transferred + |readAnswers|
      {
        ghost var t, answers := r.transferred, readAnswers;
        var call := Read(buffer, r.transferred);
        TailOfTail(old(readAnswers), answers, readAnswers);
        match call {
          case Moved(n) =>
            PasteMore(initial, source, t, n);
            r := r.(transferred := r.transferred + n);
          case EndOfStream =>
            r := r.(status := IoPeerClosed);
            break;
          case Interrupted =>
          case WouldBlock =>
            r := r.(status := IoTimedOut, error := EAGAIN);
            break;
          case BrokenPipe =>
            r := r.(status := IoError, error := EPIPE);
            break;
          case Error(e) =>
            r := r.(status := IoError, error := e);
            break;
        }
      }
      PastedParts(initial, source, r.transferred);
      assert buffer[..r.transferred] == buffer[..][..r.transferred];
      assert buffer[r.transferred..] == buffer[..][r.transferred..];
    }

    /** send(2) of the buffer from `at` on. */
    method Send(buffer: Bytes, at: nat) returns (r: Syscall)
      requires at < |buffer|
      modifies this`outgoing, this`writeAnswers
      ensures IsTail(writeAnswers, old(writeAnswers))
      ensures Benign(old(writeAnswers)) ==> Benign(writeAnswers) && (r.Moved? || r.Interrupted?)
      ensures match r
              case Moved(n) => 0 < n <= |buffer| - at && outgoing == old(outgoing) + buffer[at..at + n]
              case EndOfStream => false
              case _ =>
                outgoing == old(outgoing) && StoppedBy(old(writeAnswers), writeAnswers, AnswerOf(r))
    {
      hide IsTail;
      hide StoppedBy;
      hide Benign;
      UseOne(writeAnswers);
      var answer := Transfer(|buffer|);
      if writeAnswers != [] {
        answer, writeAnswers := writeAnswers[0], writeAnswers[1..];
      }
      match answer {
        case Interrupt => return Interrupted;
        case Expire => return WouldBlock;
        case Hangup => return BrokenPipe;
        case Fault(e) => return Error(e);
        case Transfer(k) =>
          var n := Clamp(k, 1, |buffer| - at);
          outgoing := outgoing + buffer[at..at + n];
          return Moved(n);
      }
    }

    /** Sends the whole buffer; what went out is always a prefix of it. */
    method WriteAll(buffer: Bytes) returns (r: IoResult)
      modifies this`outgoing, this`writeAnswers
      ensures r.transferred <= |buffer| && outgoing == old(outgoing) + buffer[..r.transferred]
      ensures r.status.IoOk? <==> r.transferred == |buffer|
      ensures Explained(r, old(writeAnswers), writeAnswers)
      ensures r.status.IoPeerClosed? ==> StoppedBy(old(writeAnswers), writeAnswers, Hangup)
      ensures Benign(old(writeAnswers)) ==> Benign(writeAnswers) && r.status.IoOk?
    {
      r := IoResult(IoOk, 0, 0);
      while r.transferred < |buffer|
        invariant r.status.IoOk? && r.transferred <= |buffer|
        invariant outgoing == old(outgoing) + buffer[..r.transferred]
        invariant IsTail(writeAnswers, old(writeAnswers)) && (Benign(old(writeAnswers)) ==> Benign(writeAnswers))
        decreases |buffer| - r.transferred + |writeAnswers|
      {
        ghost var t := r.transferred;
        hide Benign;
        hide StoppedBy;
        hide IsTail;
        ghost var answers := writeAnswers;
        var call := Send(buffer, r.transferred);
        TailOfTail(old(writeAnswers), answers, writeAnswers);
        match call {
          case Moved(n) =>
            assert buffer[..t + n] == buffer[..t] + buffer[t..t + n];
            r := r.(transferred := r.transferred + n);
          case Interrupted =>
          case BrokenPipe =>
            r := r.(status := IoPeerClosed);
            return;
          case WouldBlock =>
            r := r.(status := IoTimedOut, error := EAGAIN);
            return;
          case Error(e) =>
            r := r.(status := IoError, error := e);
            return;
        }
      }
    }

    /** Reads one frame. A buffer is only ever made for an announced length within
        the bounds. Short reads and signals do not show in the outcome; anything
        else ends with a timeout or an error and never with a frame that is not
        there. */
    method ReadFrame() returns (r: FrameResult, body: array<u8>)
      modifies this`incoming, this`readAnswers
      ensures fresh(body) && body.Length <= MAX_FRAME
      ensures Benign(old(readAnswers)) ==> Benign(readAnswers) && !r.status.TimedOut? && !r.status.FrameIoError?
      ensures ExplainedFrame(r, old(readAnswers), readAnswers)
      ensures match r.status
              case FrameOk => HeadOf(old(incoming)) == Whole(body[..], incoming) && r.length == body.Length
              case PeerClosed => HeadOf(old(incoming)).End?
              case Truncated => HeadOf(old(incoming)).Partial?
              case Oversized => HeadOf(old(incoming)) == BadLength(r.length)
              case _ => true
    {
      hide HeadOf;
      hide FromBigEndian;
      hide Pow256;
      hide Benign;
      hide StoppedBy;
      hide IsTail;
      ghost var whole := incoming;
      body := new u8[0];
      var headerIo, length := ReadPrefix();
      if !headerIo.status.IoOk? {
        if headerIo.status.IoPeerClosed? {
          HeadOfShort(whole);
        }
        return FromIo(headerIo), body;
      }
      HeadOfLong(whole);
      if length < MIN_FRAME || length > MAX_FRAME {
        return FrameResult(Oversized, 0, length), body;
      }
      ghost var answers := readAnswers;
      body := new u8[length];
      var bodyIo := ReadExact(body);
      TailOfTail(old(readAnswers), answers, readAnswers);
      if !bodyIo.status.IoOk? {
        r := FromIo(bodyIo);
        if r.status == PeerClosed {
          r := r.(status := Truncated);
        }
        return;
      }
      assert body[..] == body[..length];
      return FrameResult(FrameOk, 0, length), body;
    }

    /** The four bytes of a length. */
    method ReadPrefix() returns (io: IoResult, length: u32)
      modifies this`incoming, this`readAnswers
      ensures io.transferred <= PREFIX && io.transferred <= |old(incoming)| && incoming == old(incoming)[io.transferred..]
      ensures io.status.IoOk? <==> io.transferred == PREFIX
      ensures io.status.IoOk? ==> length == FromBigEndian(old(incoming)[..PREFIX])
      ensures io.status.IoPeerClosed? ==> incoming == []
      ensures Explained(io, old(readAnswers), readAnswers)
      ensures Benign(old(readAnswers)) ==> Benign(readAnswers) && (io.status.IoOk? || io.status.IoPeerClosed?)
    {
      hide FromBigEndian;
      hide Benign;
      hide Explained;
      WordSizes();
      hide Pow256;
      var prefix := new u8[PREFIX];
      io := ReadExact(prefix);
      if !io.status.IoOk? {
        return io, 0;
      }
      assert prefix[..] == prefix[..PREFIX] == prefix[..][0..PREFIX];
      FromBigEndianBound(prefix[..]);
      length := LoadBigEndian(prefix[..], 0, PREFIX);
    }

    /** One buffer, one write. */
    method WriteFrame(body: Bytes) returns (r: FrameResult)
      modifies this`outgoing, this`writeAnswers
      ensures r.status.Oversized? <==> !ValidBody(body)
      ensures r.status.Oversized? ==> outgoing == old(outgoing)
      ensures Puts(old(outgoing), outgoing, body, r.status.FrameOk?)
      ensures ExplainedFrame(r, old(writeAnswers), writeAnswers)
      ensures r.status.PeerClosed? || r.status.Truncated? ==>
                && StoppedBy(old(writeAnswers), writeAnswers, Hangup)
                && (r.status.PeerClosed? <==> outgoing == old(outgoing))
      ensures Benign(old(writeAnswers)) ==> Benign(writeAnswers) && (ValidBody(body) ==> r.status.FrameOk?)
    {
      hide Puts;
      hide Pow256;
      PutsPart(outgoing, Framed(body), body, 0);
      assert Framed(body)[..0] == [] && outgoing + [] == outgoing;
      if |body| < MIN_FRAME || |body| > MAX_FRAME {
        return FrameResult(Oversized, 0, |body| % TWO_TO_32);
      }
      WordSizes();
      var framed := AppendBigEndian([], |body|, PREFIX);
      framed := framed + body;
      assert framed == Framed(body);
      hide Framed;
      var io := WriteAll(framed);
      PutsPart(old(outgoing), framed, body, io.transferred);
      r := FromIo(io).(length := |body|);
    }

    /** The same for a buffer that already holds the body after a placeholder: the
        length is patched in place. */
    method WritePrefixed(framed: array<u8>) returns (r: FrameResult)
      requires framed.Length >= PREFIX
      modifies this`outgoing, this`writeAnswers, framed
      ensures framed[PREFIX..] == old(framed[PREFIX..])
      ensures var body := framed[PREFIX..];
              && (r.status.Oversized? <==> !ValidBody(body))
              && (r.status.Oversized? ==> outgoing == old(outgoing))
              && Puts(old(outgoing), outgoing, body, r.status.FrameOk?)
              && (!r.status.Oversized? ==> framed[..] == Framed(body))
              && (Benign(old(writeAnswers)) ==> Benign(writeAnswers) && (ValidBody(body) ==> r.status.FrameOk?))
      ensures ExplainedFrame(r, old(writeAnswers), writeAnswers)
      ensures r.status.PeerClosed? || r.status.Truncated? ==>
                && StoppedBy(old(writeAnswers), writeAnswers, Hangup)
                && (r.status.PeerClosed? <==> outgoing == old(outgoing))
    {
      hide Puts;
      var size := framed.Length - PREFIX;
      ghost var body := framed[PREFIX..];
      PutsPart(outgoing, Framed(body), body, 0);
      assert Framed(body)[..0] == [] && outgoing + [] == outgoing;
      if size < MIN_FRAME || size > MAX_FRAME {
        return FrameResult(Oversized, 0, size % TWO_TO_32);
      }
      DivisionByWords(size);
      hide ShiftBytes;
      for i := 0 to PREFIX
        modifies framed
        invariant framed[PREFIX..] == old(framed[PREFIX..])
        invariant framed[..i] == BigEndian(ShiftBytes(size, PREFIX - i), i)
      {
        ShiftOneMore(size, PREFIX - 1 - i);
        framed[i] := ShiftBytes(size, PREFIX - 1 - i) % 256;
        assert framed[..i + 1] == framed[..i] + [framed[i]];
      }
      ShiftByNone(size);
      assert framed[..] == framed[..PREFIX] + framed[PREFIX..];
      assert framed[..] == Framed(body);
      hide Framed;
      var io := WriteAll(framed[..]);
      PutsPart(old(outgoing), framed[..], body, io.transferred);
      r := FromIo(io).(length := size);
    }

    static lemma DivisionByWords(size: nat)
      requires size <= MAX_FRAME
      ensures ShiftBytes(size, PREFIX) == 0
    {
      WordSizes();
    }

    /** Reads until something other than a frame comes back. Under short reads and
        signals alone these are all the frames of the stream; under any answers at
        all they are the first of them. */
    method ReadAll() returns (frames: seq<Bytes>, last: FrameResult)
      modifies this`incoming, this`readAnswers
      ensures !last.status.FrameOk?
      ensures frames <= Split(old(incoming)).0
      ensures Benign(old(readAnswers)) ==>
                frames == Split(old(incoming)).0 && Reports(last, Split(old(incoming)).1)
    {
      hide HeadOf;
      ghost var all := Split(incoming);
      frames := [];
      assert frames + all.0 == all.0;
      last := FrameResult(FrameOk, 0, 0);
      while last.status.FrameOk?
        invariant Benign(old(readAnswers)) ==> Benign(readAnswers)
        invariant last.status.FrameOk? ==> all == (frames + Split(incoming).0, Split(incoming).1)
        invariant !last.status.FrameOk? ==> frames <= all.0
        invariant !last.status.FrameOk? && Benign(old(readAnswers)) ==> frames == all.0 && Reports(last, all.1)
        decreases last.status.FrameOk?, |incoming|
      {
        ghost var before := incoming;
        var r, body := ReadFrame();
        last := r;
        if r.status.FrameOk? {
          assert Split(before).0 == [body[..]] + Split(incoming).0;
          assert frames + ([body[..]] + Split(incoming).0) == frames + [body[..]] + Split(incoming).0;
          frames := frames + [body[..]];
        } else {
          assert frames + [] == frames;
        }
      }
    }
  }

  /** Every body in turn, by whichever of the two writers `inPlace` picks. */
  method SendAll(sender: UnixStream, bodies: seq<Bytes>, inPlace: nat -> bool)
    requires (forall i :: 0 <= i < |bodies| ==> ValidBody(bodies[i])) && Benign(sender.writeAnswers)
    modifies sender
    ensures sender.outgoing == old(sender.outgoing) + Stream(bodies)
  {
    hide Framed;
    for i := 0 to |bodies|
      invariant Benign(sender.writeAnswers)
      invariant sender.outgoing + Stream(bodies[i..]) == old(sender.outgoing) + Stream(bodies)
    {
      assert bodies[i..][1..] == bodies[i + 1..];
      ghost var before, rest := sender.outgoing, Stream(bodies[i + 1..]);
      assert before + (Framed(bodies[i]) + rest) == before + Framed(bodies[i]) + rest;
      SendOne(sender, bodies[i], inPlace(i));
    }
    assert sender.outgoing + [] == sender.outgoing;
  }

  method SendOne(sender: UnixStream, body: Bytes, inPlace: bool)
    requires ValidBody(body) && Benign(sender.writeAnswers)
    modifies sender
    ensures sender.outgoing == old(sender.outgoing) + Framed(body) && Benign(sender.writeAnswers)
  {
    hide Framed;
    hide Benign;
    var r: FrameResult;
    if inPlace {
      var scratch := [0, 0, 0, 0] + body;
      var framed := new u8[|scratch|](i requires 0 <= i < |scratch| => scratch[i]);
      assert framed[..] == scratch;
      assert framed[PREFIX..] == scratch[PREFIX..] == body;
      r := sender.WritePrefixed(framed);
    } else {
      r := sender.WriteFrame(body);
    }
  }

  /** Every body in turn through one writer, the bytes cut off at any point, and
      what is left through one reader: which way they were written, and short
      transfers and signals on either side, make no difference. */
  method Deliver(bodies: seq<Bytes>, inPlace: nat -> bool, writeAnswers: seq<Answer>, readAnswers: seq<Answer>,
                 cut: nat)
    returns (frames: seq<Bytes>, last: FrameResult)
    requires forall i :: 0 <= i < |bodies| ==> ValidBody(bodies[i])
    requires Benign(writeAnswers) && Benign(readAnswers) && cut <= |Stream(bodies)|
    ensures var n := WholeFrames(bodies, cut);
            && frames == bodies[..n]
            && last.status == if |Stream(bodies[..n])| == cut then PeerClosed else Truncated
  {
    hide Stream;
    hide Split;
    hide WholeFrames;
    var sender := new UnixStream([], [], writeAnswers);
    SendAll(sender, bodies, inPlace);
    CutStream(bodies, cut);
    assert [] + Stream(bodies) == Stream(bodies);
    var receiver := new UnixStream(sender.outgoing[..cut], readAnswers, []);
    frames, last := receiver.ReadAll();
  }
}
