/** The service client: when a failed exchange may fall back to direct execution.

    Everything outside the process is a script of moments: each clock reading, each answer
    of the stream and each answer of `poll` is taken from the next moment, so a theorem over
    all scripts covers every timing and every pattern of partial and interrupted I/O. A script
    that ends stands for a stream that fails. */
module Client {
  import opened Wrappers
  import opened Bytes
  import opened Lists
  import opened Frame

  const MAX_RESPONSE_BYTES: nat := 8 * 1024 * 1024

  datatype PollAnswer = Ready | TimedOut | PollInterrupted | PollFault
  datatype Moment = Moment(now: nat, io: Io, poll: PollAnswer)

  datatype Message =
    | Accepted(id: string)
    | Rejected(code: string)
    | Completed(id: string, exit: Byte, stdout: string, stderr: string)
    | OtherMessage

  datatype ProtocolError =
    | FrameDeadlineExceeded
    | ResponseDeadlineAfterRequestDelivery
    | OtherError

  // ----- writing the request by the deadline ------------------------------------------------

  /** `poll_until`. */
  function Awaited(deadline: nat, script: seq<Moment>): (Result<(), ProtocolError>, seq<Moment>) {
    if script == [] then (Err(OtherError), [])
    else if script[0].now >= deadline then (Err(FrameDeadlineExceeded), script[1..])
    else
      match script[0].poll
      case TimedOut => (Err(FrameDeadlineExceeded), script[1..])
      case Ready => (Ok(()), script[1..])
      case PollFault => (Err(OtherError), script[1..])
      case PollInterrupted => Awaited(deadline, script[1..])
  }

  lemma {:induction false} AwaitingConsumes(deadline: nat, script: seq<Moment>)
    ensures |Awaited(deadline, script).1| <= |script|
  {
    if script != [] {
      AwaitingConsumes(deadline, script[1..]);
    }
  }

  datatype Writing = Writing(result: Result<(), ProtocolError>, written: nat, left: seq<Moment>)

  /** `write_all_nonblocking_with_deadline` from `written` of `total` bytes on; the deadline is
      checked once more after the last byte has left. */
  function Written(total: nat, written: nat, deadline: nat, script: seq<Moment>): Writing
    requires written <= total
    decreases |script|
  {
    if script == [] then Writing(Err(OtherError), written, [])
    else if script[0].now >= deadline then
      Writing(Err(FrameDeadlineExceeded), written, script[1..])
    else if written == total then Writing(Ok(()), written, script[1..])
    else
      match script[0].io
      case Moved(n) =>
        if n == 0 then Writing(Err(OtherError), written, script[1..])
        else Written(total, written + Min(n, total - written), deadline, script[1..])
      case Interrupted => Written(total, written, deadline, script[1..])
      case WouldBlock =>
        AwaitingConsumes(deadline, script[1..]);
        (match Awaited(deadline, script[1..])
         case (Err(e), left) => Writing(Err(e), written, left)
         case (Ok(_), left) => Written(total, written, deadline, left))
      case Fault => Writing(Err(OtherError), written, script[1..])
  }

  /** What is left of the script once the last byte has moved, if it ever does: the writes alone,
      without the check that follows them. */
  function Delivery(total: nat, written: nat, deadline: nat, script: seq<Moment>): Option<seq<Moment>>
    requires written <= total
    decreases |script|
  {
    if written == total then Some(script)
    else if script == [] || script[0].now >= deadline then None
    else
      match script[0].io
      case Moved(n) =>
        if n == 0 then None else Delivery(total, written + Min(n, total - written), deadline, script[1..])
      case Interrupted => Delivery(total, written, deadline, script[1..])
      case WouldBlock =>
        AwaitingConsumes(deadline, script[1..]);
        (match Awaited(deadline, script[1..])
         case (Err(_), _) => None
         case (Ok(_), left) => Delivery(total, written, deadline, left))
      case Fault => None
  }

  /** The next clock reading is past the deadline. */
  predicate LateNext(deadline: nat, script: seq<Moment>) { script != [] && script[0].now >= deadline }

  /** The writer fails with a byte unsent exactly when the last byte never moves. Otherwise the
      next clock reading alone decides: late means a deadline error although everything left. */
  lemma {:induction false} DeadlineMeansUnsentOrLate(total: nat, written: nat, deadline: nat, script: seq<Moment>)
    requires written <= total
    ensures var w, d := Written(total, written, deadline, script), Delivery(total, written, deadline, script);
      && written <= w.written <= total
      && |w.left| <= |script|
      && (w.result.Err? ==> w.result.error != ResponseDeadlineAfterRequestDelivery)
      && (d.None? ==> w.result.Err? && w.written < total)
      && (d.Some? ==>
            && w.written == total
            && w.left == (if d.value == [] then [] else d.value[1..])
            && (w.result == Err(FrameDeadlineExceeded) <==> LateNext(deadline, d.value))
            && (w.result.Ok? <==> d.value != [] && !LateNext(deadline, d.value)))
    decreases |script|
  {
    if script != [] && script[0].now < deadline && written < total {
      match script[0].io
      case Moved(n) =>
        if n > 0 {
          DeadlineMeansUnsentOrLate(total, written + Min(n, total - written), deadline, script[1..]);
        }
      case Interrupted => DeadlineMeansUnsentOrLate(total, written, deadline, script[1..]);
      case WouldBlock =>
        AwaitingConsumes(deadline, script[1..]);
        AwaitingFailures(deadline, script[1..]);
        if Awaited(deadline, script[1..]).0.Ok? {
          DeadlineMeansUnsentOrLate(total, written, deadline, Awaited(deadline, script[1..]).1);
        }
      case Fault =>
    }
  }

  lemma {:induction false} AwaitingFailures(deadline: nat, script: seq<Moment>)
    ensures Awaited(deadline, script).0 != Err(ResponseDeadlineAfterRequestDelivery)
  {
    if script != [] {
      AwaitingFailures(deadline, script[1..]);
    }
  }

  /** The source's loop computes `Written`. */
  method WriteAllNonblocking(input: seq<Byte>, deadline: nat, script: seq<Moment>) returns (w: Writing)
    ensures w == Written(|input|, 0, deadline, script)
  {
    var written: nat, left := 0, script;
    while written < |input|
      invariant written <= |input|
      invariant Written(|input|, 0, deadline, script) == Written(|input|, written, deadline, left)
      decreases |left|
    {
      if left == [] {
        return Writing(Err(OtherError), written, []);
      }
      var m := left[0];
      left := left[1..];
      if m.now >= deadline {
        return Writing(Err(FrameDeadlineExceeded), written, left);
      }
      match m.io
      case Moved(n) =>
        if n == 0 {
          return Writing(Err(OtherError), written, left);
        }
        written := written + Min(n, |input| - written);
      case Interrupted =>
      case WouldBlock =>
        var waited;
        AwaitingConsumes(deadline, left);
        waited, left := PollUntil(deadline, left);
        if waited.Err? {
          return Writing(Err(waited.error), written, left);
        }
      case Fault => return Writing(Err(OtherError), written, left);
    }
    if left == [] {
      return Writing(Err(OtherError), written, []);
    }
    if left[0].now >= deadline {
      return Writing(Err(FrameDeadlineExceeded), written, left[1..]);
    }
    w := Writing(Ok(()), written, left[1..]);
  }

  method PollUntil(deadline: nat, script: seq<Moment>) returns (r: Result<(), ProtocolError>, left: seq<Moment>)
    ensures (r, left) == Awaited(deadline, script)
  {
    left := script;
    while left != []
      invariant Awaited(deadline, script) == Awaited(deadline, left)
      decreases |left|
    {
      var m := left[0];
      left := left[1..];
      if m.now >= deadline {
        return Err(FrameDeadlineExceeded), left;
      }
      match m.poll
      case TimedOut => return Err(FrameDeadlineExceeded), left;
      case Ready => return Ok(()), left;
      case PollFault => return Err(OtherError), left;
      case PollInterrupted =>
    }
    r := Err(OtherError);
  }

  // ----- reading a response ----------------------------------------------------------------------

  datatype ReadingResult = ReadingResult(result: Result<seq<Byte>, ProtocolError>, consumed: nat, left: seq<Moment>)

  /** `read_frame_nonblocking_with_deadline` once `pos` bytes of the stream have been fed. */
  function ReadBy(incoming: seq<Byte>, pos: nat, deadline: nat, script: seq<Moment>): ReadingResult
    requires pos <= |incoming|
    decreases |script|
  {
    if script == [] then ReadingResult(Err(OtherError), pos, [])
    else if script[0].now >= deadline then ReadingResult(Err(FrameDeadlineExceeded), pos, script[1..])
    else
      match script[0].io
      case Moved(n) =>
        var have := incoming[..pos];
        var count := Arriving(n, Min(Wanted(have), BUFFER_BYTES), |incoming| - pos);
        if count == 0 then ReadingResult(Err(OtherError), pos, script[1..])
        else
          (match Fed(MAX_RESPONSE_BYTES, have, incoming[pos..pos + count]).0
           case Err(_) => ReadingResult(Err(OtherError), pos + count, script[1..])
           case Ok(true) =>
             if |script| == 1 then ReadingResult(Err(OtherError), pos + count, [])
             else if script[1].now >= deadline then ReadingResult(Err(FrameDeadlineExceeded), pos + count, script[2..])
             else ReadingResult(Ok(incoming[FRAME_HEADER_BYTES..pos + count]), pos + count, script[2..])
           case Ok(false) => ReadBy(incoming, pos + count, deadline, script[1..]))
      case Interrupted => ReadBy(incoming, pos, deadline, script[1..])
      case WouldBlock =>
        AwaitingConsumes(deadline, script[1..]);
        (match Awaited(deadline, script[1..])
         case (Err(e), left) => ReadingResult(Err(e), pos, left)
         case (Ok(_), left) => ReadBy(incoming, pos, deadline, left))
      case Fault => ReadingResult(Err(OtherError), pos, script[1..])
  }

  lemma PrefixExtends(incoming: seq<Byte>, pos: nat, count: nat)
    requires pos + count <= |incoming|
    ensures incoming[..pos] + incoming[pos..pos + count] == incoming[..pos + count]
  {
  }

  lemma CompletePrefixIsRead(incoming: seq<Byte>, pos: nat)
    requires pos <= |incoming| && IsComplete(incoming[..pos]) && Admissible(MAX_RESPONSE_BYTES, incoming[..pos])
    ensures ReadOne(MAX_RESPONSE_BYTES, incoming) == Ok((incoming[FRAME_HEADER_BYTES..pos], incoming[pos..]))
  {
    assert incoming[..pos][..FRAME_HEADER_BYTES] == incoming[..FRAME_HEADER_BYTES];
  }

  /** A response that is read is the first frame of what the peer sent, and nothing after it
      has been taken. */
  lemma {:induction false} ReadByIsOneShot(incoming: seq<Byte>, pos: nat, deadline: nat, script: seq<Moment>)
    requires pos <= |incoming| && !IsComplete(incoming[..pos]) && Admissible(MAX_RESPONSE_BYTES, incoming[..pos])
    ensures var r := ReadBy(incoming, pos, deadline, script);
      && r.consumed <= |incoming|
      && (r.result.Ok? ==> ReadOne(MAX_RESPONSE_BYTES, incoming) == Ok((r.result.value, incoming[r.consumed..])))
      && r.result != Err(ResponseDeadlineAfterRequestDelivery)
    decreases |script|
  {
    if script != [] && script[0].now < deadline {
      match script[0].io
      case Moved(n) =>
        var have := incoming[..pos];
        var count := Arriving(n, Min(Wanted(have), BUFFER_BYTES), |incoming| - pos);
        if count > 0 {
          WantedReadNeverOverruns(MAX_RESPONSE_BYTES, have, incoming[pos..pos + count]);
          PrefixExtends(incoming, pos, count);
          var fed := Fed(MAX_RESPONSE_BYTES, have, incoming[pos..pos + count]).0;
          if fed == Ok(false) {
            ReadByIsOneShot(incoming, pos + count, deadline, script[1..]);
          } else if fed == Ok(true) {
            CompletePrefixIsRead(incoming, pos + count);
          }
        }
      case Interrupted => ReadByIsOneShot(incoming, pos, deadline, script[1..]);
      case WouldBlock =>
        AwaitingConsumes(deadline, script[1..]);
        AwaitingFailures(deadline, script[1..]);
        if Awaited(deadline, script[1..]).0.Ok? {
          ReadByIsOneShot(incoming, pos, deadline, Awaited(deadline, script[1..]).1);
        }
      case Fault =>
    }
  }

  /** The source's loop around a `FrameReader` computes `ReadBy`. */
  method ReadFrameNonblocking(incoming: seq<Byte>, deadline: nat, script: seq<Moment>) returns (r: ReadingResult)
    ensures r == ReadBy(incoming, 0, deadline, script)
  {
    hide Declared, Awaited, Wanted, Admissible;
    var reader := new FrameReader(MAX_RESPONSE_BYTES);
    var pos: nat, left := 0, script;
    while true
      invariant reader.Valid() && fresh(reader) && fresh(reader.header) && reader.limit == MAX_RESPONSE_BYTES
      invariant pos <= |incoming| && reader.Received() == incoming[..pos]
      invariant ReadBy(incoming, 0, deadline, script) == ReadBy(incoming, pos, deadline, left)
      invariant !IsComplete(incoming[..pos])
      decreases |left|
    {
      if left == [] {
        return ReadingResult(Err(OtherError), pos, []);
      }
      var m := left[0];
      left := left[1..];
      if m.now >= deadline {
        return ReadingResult(Err(FrameDeadlineExceeded), pos, left);
      }
      match m.io
      case Moved(n) =>
        var want := reader.Want();
        var count := Arriving(n, Min(want, BUFFER_BYTES), |incoming| - pos);
        if count == 0 {
          return ReadingResult(Err(OtherError), pos, left);
        }
        PrefixExtends(incoming, pos, count);
        var fed := reader.Feed(incoming[pos..pos + count]);
        pos := pos + count;
        if fed.Err? {
          return ReadingResult(Err(OtherError), pos, left);
        }
        if fed.value {
          if left == [] {
            return ReadingResult(Err(OtherError), pos, []);
          }
          if left[0].now >= deadline {
            return ReadingResult(Err(FrameDeadlineExceeded), pos, left[1..]);
          }
          return ReadingResult(Ok(incoming[FRAME_HEADER_BYTES..pos]), pos, left[1..]);
        }
      case Interrupted =>
      case WouldBlock =>
        var waited;
        AwaitingConsumes(deadline, left);
        waited, left := PollUntil(deadline, left);
        if waited.Err? {
          return ReadingResult(Err(waited.error), pos, left);
        }
      case Fault => return ReadingResult(Err(OtherError), pos, left);
    }
  }

  /** `receive_completion`: its reads fill a whole buffer, so a stream that carries more than
      one frame is refused rather than split. */
  function ReceivedBy(incoming: seq<Byte>, pos: nat, deadline: nat, script: seq<Moment>)
    : Result<seq<Byte>, ProtocolError>
    requires pos <= |incoming|
    decreases |script|
  {
    if IsComplete(incoming[..pos]) then Ok(incoming[FRAME_HEADER_BYTES..pos])
    else if script == [] then Err(OtherError)
    else if script[0].now >= deadline || script[0].poll == TimedOut then Err(FrameDeadlineExceeded)
    else if script[0].poll == PollFault then Err(OtherError)
    else if script[0].poll == PollInterrupted then ReceivedBy(incoming, pos, deadline, script[1..])
    else
      match script[0].io
      case Moved(n) =>
        var count := Arriving(n, BUFFER_BYTES, |incoming| - pos);
        if count == 0 || Fed(MAX_RESPONSE_BYTES, incoming[..pos], incoming[pos..pos + count]).0.Err?
          then Err(OtherError)
        else ReceivedBy(incoming, pos + count, deadline, script[1..])
      case Interrupted => ReceivedBy(incoming, pos, deadline, script[1..])
      case WouldBlock => ReceivedBy(incoming, pos, deadline, script[1..])
      case Fault => Err(OtherError)
  }

  lemma {:induction false} ReceivedByIsOneShot(incoming: seq<Byte>, pos: nat, deadline: nat, script: seq<Moment>)
    requires pos <= |incoming| && Admissible(MAX_RESPONSE_BYTES, incoming[..pos])
    ensures var r := ReceivedBy(incoming, pos, deadline, script);
      r.Ok? ==> ReadOne(MAX_RESPONSE_BYTES, incoming).Ok? && ReadOne(MAX_RESPONSE_BYTES, incoming).value.0 == r.value
    decreases |script|
  {
    if IsComplete(incoming[..pos]) {
      CompletePrefixIsRead(incoming, pos);
    } else if script != [] {
      if script[0].poll == Ready && script[0].io.Moved? {
        var count := Arriving(script[0].io.count, BUFFER_BYTES, |incoming| - pos);
        PrefixExtends(incoming, pos, count);
        if count > 0 && Fed(MAX_RESPONSE_BYTES, incoming[..pos], incoming[pos..pos + count]).0.Ok? {
          ReceivedByIsOneShot(incoming, pos + count, deadline, script[1..]);
        }
      } else {
        ReceivedByIsOneShot(incoming, pos, deadline, script[1..]);
      }
    }
  }

  // ----- the staged state machine ----------------------------------------------------------------------

  const MAX_REQUEST_BYTES: nat := 64 * 1024
  const COMPLETION_TIMEOUT: nat := 600_000

  datatype Connect = Connected | Absent | ConnectFailed

  /** Everything decided before the first byte of the request is written. */
  datatype Attempt = Attempt(
    queryTooLong: bool,
    connect: Connect,
    peerValid: bool,
    encodable: bool,
    request: seq<Byte>,
    streamReady: bool,
    restored: bool,
    completionReady: bool,
    deadline: nat)

  datatype Exchange = Exchange(
    result: Result<Message, ProtocolError>,
    written: nat,
    reading: bool,
    consumed: nat,
    left: seq<Moment>)

  type Decoder = seq<Byte> -> Option<Message>

  function Failed(e: ProtocolError, left: seq<Moment>): Exchange {
    Exchange(Err(e), 0, false, 0, left)
  }

  /** `exchange_request_with_deadline`. */
  function Exchanged(a: Attempt, incoming: seq<Byte>, decode: Decoder, script: seq<Moment>): Exchange {
    if !Fits(a.request, MAX_REQUEST_BYTES) then Failed(OtherError, script)
    else if script == [] then Failed(OtherError, [])
    else if a.deadline <= script[0].now then Failed(FrameDeadlineExceeded, script[1..])
    else if !a.streamReady then Failed(OtherError, script[1..])
    else
      var w := Written(|Encode(a.request)|, 0, a.deadline, script[1..]);
      if w.result.Err? then Exchange(Err(w.result.error), w.written, false, 0, w.left)
      else
        var r := ReadBy(incoming, 0, a.deadline, w.left);
        var result :=
          match r.result
          case Err(FrameDeadlineExceeded) => Err(ResponseDeadlineAfterRequestDelivery)
          case Err(e) => Err(e)
          case Ok(body) =>
            (match decode(body)
             case None => Err(OtherError)
             case Some(m) => if a.restored then Ok(m) else Err(OtherError));
        Exchange(result, w.written, true, r.consumed, r.left)
  }

  datatype Decision =
    | Direct       // `None`: the caller may execute the request itself
    | Operational  // the failure is reported, never rerouted
    | Done(completed: Message)

  /** `try_service_with`. */
  function Decided(a: Attempt, incoming: seq<Byte>, decode: Decoder, script: seq<Moment>): Decision {
    if a.queryTooLong || a.connect == Absent then Direct
    else if a.connect == ConnectFailed || !a.peerValid || !a.encodable then Operational
    else
      var x := Exchanged(a, incoming, decode, script);
      match x.result
      case Err(FrameDeadlineExceeded) => Direct
      case Err(_) => Operational
      case Ok(Accepted(id)) =>
        if x.consumed > |incoming| || x.left == [] || !a.completionReady then Operational
        else
          (match ReceivedBy(incoming[x.consumed..], 0, x.left[0].now + COMPLETION_TIMEOUT, x.left[1..])
           case Err(_) => Operational
           case Ok(body) =>
             (match decode(body)
              case Some(Completed(done, exit, out, err)) =>
                if done == id then Done(Completed(done, exit, out, err)) else Operational
              case _ => Operational))
      case Ok(_) => Operational
  }

  /** The attempt got as far as writing the request. */
  predicate Reached(a: Attempt) {
    !a.queryTooLong && a.connect == Connected && a.peerValid && a.encodable
  }

  /** The last byte of the request moves in time, and the very next clock reading is late: a
      condition on the script alone. */
  predicate LateAfterDelivery(a: Attempt, script: seq<Moment>) {
    && Fits(a.request, MAX_REQUEST_BYTES) && a.streamReady
    && script != [] && script[0].now < a.deadline
    && var delivery := Delivery(|Encode(a.request)|, 0, a.deadline, script[1..]);
       delivery.Some? && LateNext(a.deadline, delivery.value)
  }

  lemma ExchangeStages(a: Attempt, incoming: seq<Byte>, decode: Decoder, script: seq<Moment>)
    ensures var x := Exchanged(a, incoming, decode, script);
      && x.written <= |Encode(a.request)|
      && x.consumed <= |incoming|
      && (x.reading ==> x.written == |Encode(a.request)|)
      && (x.result == Err(FrameDeadlineExceeded) ==> !x.reading)
      && (x.result == Err(FrameDeadlineExceeded) && x.written == |Encode(a.request)| <==> LateAfterDelivery(a, script))
      && (x.result.Ok? ==>
            && x.reading
            && ReadOne(MAX_RESPONSE_BYTES, incoming).Ok?
            && ReadOne(MAX_RESPONSE_BYTES, incoming).value.1 == incoming[x.consumed..]
            && decode(ReadOne(MAX_RESPONSE_BYTES, incoming).value.0) == Some(x.result.value))
  {
    if script != [] {
      var total := |Encode(a.request)|;
      DeadlineMeansUnsentOrLate(total, 0, a.deadline, script[1..]);
      var w := Written(total, 0, a.deadline, script[1..]);
      ReadByIsOneShot(incoming, 0, a.deadline, w.left);
    }
  }

  /** Direct execution is authorized only in runs that never entered the response-read phase,
      and only while the request is not completely written, unless the first clock reading after
      the last byte was late. */
  lemma DirectOnlyBeforeDelivery(a: Attempt, incoming: seq<Byte>, decode: Decoder, script: seq<Moment>)
    requires Reached(a) && Decided(a, incoming, decode, script) == Direct
    ensures var x := Exchanged(a, incoming, decode, script);
      !x.reading && (x.written < |Encode(a.request)| || LateAfterDelivery(a, script))
  {
    ExchangeStages(a, incoming, decode, script);
  }

  /** The documented promise, that no request could have been delivered, fails exactly when the
      clock passes the deadline between the write of the last byte and the check after it. */
  lemma DirectAfterDeliveryExactlyWhenLate(a: Attempt, incoming: seq<Byte>, decode: Decoder, script: seq<Moment>)
    requires Reached(a)
    ensures var x := Exchanged(a, incoming, decode, script);
      Decided(a, incoming, decode, script) == Direct && x.written == |Encode(a.request)|
      <==> LateAfterDelivery(a, script)
  {
    ExchangeStages(a, incoming, decode, script);
  }

  /** Such a run exists for every request that fits: one write takes the whole frame in time and
      the next clock reading is late. */
  lemma LateDeliveryExists(request: seq<Byte>, incoming: seq<Byte>, decode: Decoder, deadline: nat)
    requires Fits(request, MAX_REQUEST_BYTES) && deadline > 0
    ensures exists script: seq<Moment> ::
      var a := Attempt(false, Connected, true, true, request, true, true, true, deadline);
      Decided(a, incoming, decode, script) == Direct &&
        Exchanged(a, incoming, decode, script).written == |Encode(request)|
  {
    var a := Attempt(false, Connected, true, true, request, true, true, true, deadline);
    var total := |Encode(request)|;
    var tail := [Moment(deadline, Fault, Ready)];
    var rest := [Moment(0, Moved(total), Ready)] + tail;
    var script := [Moment(0, Fault, Ready)] + rest;
    assert script[1..] == rest && rest[1..] == tail;
    assert Delivery(total, 0, deadline, rest) == Some(tail);
    DirectAfterDeliveryExactlyWhenLate(a, incoming, decode, script);
  }

  /** Success means the peer's byte stream starts with an acceptance frame and a completion
      frame that carry the same request id. */
  lemma SuccessIsACompleteConversation(a: Attempt, incoming: seq<Byte>, decode: Decoder, script: seq<Moment>)
    requires Decided(a, incoming, decode, script).Done?
    ensures var two := ReadMany(MAX_RESPONSE_BYTES, 2, incoming);
      && two.Ok? && |two.value.0| == 2
      && decode(two.value.0[0]) == Some(Accepted(Decided(a, incoming, decode, script).completed.id))
      && decode(two.value.0[1]) == Some(Decided(a, incoming, decode, script).completed)
  {
    ExchangeStages(a, incoming, decode, script);
    var x := Exchanged(a, incoming, decode, script);
    var rest := incoming[x.consumed..];
    ReceivedByIsOneShot(rest, 0, x.left[0].now + COMPLETION_TIMEOUT, x.left[1..]);
    var second := ReadOne(MAX_RESPONSE_BYTES, rest).value;
    assert ReadMany(MAX_RESPONSE_BYTES, 0, second.1) == Ok(([], second.1));
    assert [second.0] + [] == [second.0];
    assert ReadMany(MAX_RESPONSE_BYTES, 1, rest) == Ok(([second.0], second.1));
  }

  // ----- exactly when the client falls back ------------------------------------------------------------------

  /** Waiting for the stream meets a late clock reading or a timeout. */
  predicate PollLate(deadline: nat, script: seq<Moment>) {
    script != [] && (LateNext(deadline, script) || script[0].poll == TimedOut
                     || (script[0].poll == PollInterrupted && PollLate(deadline, script[1..])))
  }

  lemma {:induction false} PollLateExactly(deadline: nat, script: seq<Moment>)
    ensures Awaited(deadline, script).0 == Err(FrameDeadlineExceeded) <==> PollLate(deadline, script)
  {
    if script != [] {
      PollLateExactly(deadline, script[1..]);
    }
  }

  /** Writing the bytes that remain, or the check after the last of them, meets a late clock reading or a
      timeout before anything else ends it. */
  predicate WriteLate(total: nat, written: nat, deadline: nat, script: seq<Moment>)
    requires written <= total
    decreases |script|
  {
    || LateNext(deadline, script)
    || (script != [] && written < total
        && match script[0].io
           case Moved(n) => n > 0 && WriteLate(total, written + Min(n, total - written), deadline, script[1..])
           case Interrupted => WriteLate(total, written, deadline, script[1..])
           case WouldBlock =>
             AwaitingConsumes(deadline, script[1..]);
             PollLate(deadline, script[1..])
             || (Awaited(deadline, script[1..]).0.Ok?
                 && WriteLate(total, written, deadline, Awaited(deadline, script[1..]).1))
           case Fault => false)
  }

  lemma {:induction false} WriteLateExactly(total: nat, written: nat, deadline: nat, script: seq<Moment>)
    requires written <= total
    ensures Written(total, written, deadline, script).result == Err(FrameDeadlineExceeded)
       <==> WriteLate(total, written, deadline, script)
    decreases |script|
  {
    if script != [] && script[0].now < deadline && written < total {
      match script[0].io
      case Moved(n) =>
        if n > 0 {
          WriteLateExactly(total, written + Min(n, total - written), deadline, script[1..]);
        }
      case Interrupted => WriteLateExactly(total, written, deadline, script[1..]);
      case WouldBlock =>
        AwaitingConsumes(deadline, script[1..]);
        PollLateExactly(deadline, script[1..]);
        if Awaited(deadline, script[1..]).0.Ok? {
          WriteLateExactly(total, written, deadline, Awaited(deadline, script[1..]).1);
        }
      case Fault =>
    }
  }

  /** The clock ends the attempt before a response is awaited: at once, or while the request is written. */
  predicate RunsOutOfTime(a: Attempt, script: seq<Moment>) {
    && Fits(a.request, MAX_REQUEST_BYTES) && script != []
    && (script[0].now >= a.deadline || (a.streamReady && WriteLate(|Encode(a.request)|, 0, a.deadline, script[1..])))
  }

  /** Direct execution is authorized exactly when the query is too long for the service, no service is
      there, or the clock ends the attempt before a response is awaited. */
  lemma DirectExactlyWhen(a: Attempt, incoming: seq<Byte>, decode: Decoder, script: seq<Moment>)
    ensures Decided(a, incoming, decode, script) == Direct
       <==> a.queryTooLong || a.connect == Absent || (Reached(a) && RunsOutOfTime(a, script))
  {
    if Reached(a) && script != [] {
      ExchangeStages(a, incoming, decode, script);
      WriteLateExactly(|Encode(a.request)|, 0, a.deadline, script[1..]);
      hide Encode, Written, WriteLate, ReadBy, ReceivedBy, ReadOne;
    }
  }

  // ----- exactly when the client succeeds ----------------------------------------------------------------------

  /** What is left of the script once a frame of `total` bytes has been read, if it ever is: the reads
      alone, each bounded by what the header or the frame still needs. */
  function Arrival(total: nat, available: nat, pos: nat, deadline: nat, script: seq<Moment>): Option<seq<Moment>>
    decreases |script|
  {
    if pos >= total then Some(script)
    else if script == [] || script[0].now >= deadline then None
    else
      match script[0].io
      case Moved(n) =>
        var wanted := if pos < 4 then 4 - pos else total - pos;
        var left := if pos <= available then available - pos else 0;
        var count := Min(if n == 0 then 1 else n, Min(Min(wanted, 8192), left));
        if count == 0 then None else Arrival(total, available, pos + count, deadline, script[1..])
      case Interrupted => Arrival(total, available, pos, deadline, script[1..])
      case WouldBlock =>
        AwaitingConsumes(deadline, script[1..]);
        (match Awaited(deadline, script[1..])
         case (Err(_), _) => None
         case (Ok(_), left) => Arrival(total, available, pos, deadline, left))
      case Fault => None
  }

  /** A response is read exactly when its frame arrives and the next clock reading is in time. */
  lemma {:induction false} ReadByExactlyWhen(incoming: seq<Byte>, body: seq<Byte>, pos: nat, deadline: nat,
      script: seq<Moment>)
    requires StartsWith(MAX_RESPONSE_BYTES, incoming, body) && pos < 4 + |body|
    ensures pos <= |incoming|
    ensures var r, d := ReadBy(incoming, pos, deadline, script), Arrival(4 + |body|, |incoming|, pos, deadline, script);
      && (r.result.Ok? <==> d.Some? && d.value != [] && !LateNext(deadline, d.value))
      && (r.result.Ok? ==> r.result.value == body && r.consumed == 4 + |body| && r.left == d.value[1..])
    decreases |script|
  {
    FirstFrameEnds(MAX_RESPONSE_BYTES, incoming, body);
    FirstFrameFed(MAX_RESPONSE_BYTES, incoming, body, pos, 1);
    hide Fed, Wanted, IsComplete, Admissible, ReadOne, StartsWith;
    if script != [] && script[0].now < deadline {
      match script[0].io
      case Moved(n) =>
        var count := Arriving(n, Min(Wanted(incoming[..pos]), BUFFER_BYTES), |incoming| - pos);
        FirstFrameFed(MAX_RESPONSE_BYTES, incoming, body, pos, count);
        if pos + count < 4 + |body| {
          ReadByExactlyWhen(incoming, body, pos + count, deadline, script[1..]);
        }
      case Interrupted => ReadByExactlyWhen(incoming, body, pos, deadline, script[1..]);
      case WouldBlock =>
        AwaitingConsumes(deadline, script[1..]);
        if Awaited(deadline, script[1..]).0.Ok? {
          ReadByExactlyWhen(incoming, body, pos, deadline, Awaited(deadline, script[1..]).1);
        }
      case Fault =>
    }
  }

  /** A completion frame of `total` bytes is received in time: its reads take whatever has arrived, up to
      a whole buffer, so bytes after the frame that arrive with its last ones spoil it. */
  predicate CompletionArrives(total: nat, available: nat, pos: nat, deadline: nat, script: seq<Moment>)
    decreases |script|
  {
    || pos == total
    || (script != [] && !LateNext(deadline, script)
        && match script[0].poll
           case TimedOut => false
           case PollFault => false
           case PollInterrupted => CompletionArrives(total, available, pos, deadline, script[1..])
           case Ready =>
             (match script[0].io
              case Moved(n) =>
                var count := Min(if n == 0 then 1 else n, Min(8192, if pos <= available then available - pos else 0));
                && 0 < count && pos + count <= total
                && CompletionArrives(total, available, pos + count, deadline, script[1..])
              case Interrupted => CompletionArrives(total, available, pos, deadline, script[1..])
              case WouldBlock => CompletionArrives(total, available, pos, deadline, script[1..])
              case Fault => false))
  }

  lemma {:induction false} ReceivedByExactlyWhen(incoming: seq<Byte>, body: seq<Byte>, pos: nat, deadline: nat,
      script: seq<Moment>)
    requires StartsWith(MAX_RESPONSE_BYTES, incoming, body) && pos <= 4 + |body|
    ensures pos <= |incoming|
    ensures ReceivedBy(incoming, pos, deadline, script).Ok? <==>
      CompletionArrives(4 + |body|, |incoming|, pos, deadline, script)
    ensures ReceivedBy(incoming, pos, deadline, script).Ok? ==>
      ReceivedBy(incoming, pos, deadline, script).value == body
    decreases |script|
  {
    FirstFrameEnds(MAX_RESPONSE_BYTES, incoming, body);
    if pos == 4 + |body| {
      WholeIsComplete(MAX_RESPONSE_BYTES, incoming, body);
    } else {
      FirstFrameFed(MAX_RESPONSE_BYTES, incoming, body, pos, 1);
      hide Fed, Wanted, IsComplete, Admissible, ReadOne, StartsWith;
      if script != [] && script[0].now < deadline {
        if script[0].poll == Ready && script[0].io.Moved? {
          var count := Arriving(script[0].io.count, BUFFER_BYTES, |incoming| - pos);
          FirstFrameFed(MAX_RESPONSE_BYTES, incoming, body, pos, count);
          if pos + count <= 4 + |body| {
            ReceivedByExactlyWhen(incoming, body, pos + count, deadline, script[1..]);
          }
        } else {
          ReceivedByExactlyWhen(incoming, body, pos, deadline, script[1..]);
        }
      }
    }
  }

  /** The request leaves in time: what is left of the script then, if it does. */
  function Sent(a: Attempt, script: seq<Moment>): Option<seq<Moment>> {
    if Fits(a.request, MAX_REQUEST_BYTES) && a.streamReady && script != [] && script[0].now < a.deadline then
      InTime(a.deadline, Delivery(|Encode(a.request)|, 0, a.deadline, script[1..]))
    else None
  }

  /** The next clock reading is there and in time. */
  function InTime(deadline: nat, left: Option<seq<Moment>>): Option<seq<Moment>> {
    if left.Some? && left.value != [] && left.value[0].now < deadline then Some(left.value[1..]) else None
  }

  /** A whole conversation, on the peer's bytes and the script alone: the request leaves in time, the first
      frame arrives in time and accepts it, and the second arrives within ten minutes and completes it
      under the same id. */
  predicate Converses(a: Attempt, incoming: seq<Byte>, decode: Decoder, script: seq<Moment>, m: Message) {
    && Reached(a) && a.restored && a.completionReady && m.Completed?
    && var two := ReadMany(MAX_RESPONSE_BYTES, 2, incoming);
       && two.Ok? && |two.value.0| == 2
       && decode(two.value.0[0]) == Some(Accepted(m.id)) && decode(two.value.0[1]) == Some(m)
       && var sent := Sent(a, script);
          && sent.Some?
          && var accepted := InTime(a.deadline, Arrival(4 + |two.value.0[0]|, |incoming|, 0, a.deadline, sent.value));
             && accepted.Some? && accepted.value != []
             && CompletionArrives(4 + |two.value.0[1]|, |incoming| - 4 - |two.value.0[0]|, 0,
                                  accepted.value[0].now + 600_000, accepted.value[1..])
  }

  /** The first frame of the peer arrives in time after the request: what is left of the script then. */
  function Answered(a: Attempt, incoming: seq<Byte>, script: seq<Moment>): Option<seq<Moment>> {
    var first := ReadOne(MAX_RESPONSE_BYTES, incoming);
    if Sent(a, script).None? || first.Err? then None
    else InTime(a.deadline, Arrival(4 + |first.value.0|, |incoming|, 0, a.deadline, Sent(a, script).value))
  }

  lemma SentExactly(a: Attempt, script: seq<Moment>)
    ensures var x := Written(|Encode(a.request)|, 0, a.deadline, if script == [] then [] else script[1..]);
      && (Sent(a, script).Some? <==>
            && Fits(a.request, MAX_REQUEST_BYTES) && a.streamReady
            && script != [] && script[0].now < a.deadline && x.result.Ok?)
      && (Sent(a, script).Some? ==> x.left == Sent(a, script).value)
  {
    if script != [] {
      DeadlineMeansUnsentOrLate(|Encode(a.request)|, 0, a.deadline, script[1..]);
    }
  }

  /** The exchange succeeds exactly when the request leaves and the first frame answers it in time. */
  lemma ExchangeExactlyWhen(a: Attempt, incoming: seq<Byte>, decode: Decoder, script: seq<Moment>)
    ensures var x, first := Exchanged(a, incoming, decode, script), ReadOne(MAX_RESPONSE_BYTES, incoming);
      && (x.result.Ok? <==>
            Answered(a, incoming, script).Some? && first.Ok? && a.restored && decode(first.value.0).Some?)
      && (x.result.Ok? ==>
            && x.result.value == decode(first.value.0).value && x.left == Answered(a, incoming, script).value
            && 4 + |first.value.0| <= |incoming| && x.consumed == 4 + |first.value.0|)
  {
    SentExactly(a, script);
    var first := ReadOne(MAX_RESPONSE_BYTES, incoming);
    if Sent(a, script).Some? {
      var left := Sent(a, script).value;
      assert incoming[..0] == [];
      ReadByIsOneShot(incoming, 0, a.deadline, left);
      if first.Ok? {
        FirstFrameEnds(MAX_RESPONSE_BYTES, incoming, first.value.0);
        ReadByExactlyWhen(incoming, first.value.0, 0, a.deadline, left);
      }
    }
    hide Encode, Written, ReadBy, Arrival, Delivery, Fits, ReadOne, Sent;
  }

  lemma TwoFrames(incoming: seq<Byte>)
    ensures var first, two := ReadOne(MAX_RESPONSE_BYTES, incoming), ReadMany(MAX_RESPONSE_BYTES, 2, incoming);
      && (two.Ok? <==> first.Ok? && ReadOne(MAX_RESPONSE_BYTES, first.value.1).Ok?)
      && (two.Ok? ==> two.value.0 == [first.value.0, ReadOne(MAX_RESPONSE_BYTES, first.value.1).value.0])
  {
    hide ReadOne;
    var first := ReadOne(MAX_RESPONSE_BYTES, incoming);
    if first.Ok? {
      var second := ReadOne(MAX_RESPONSE_BYTES, first.value.1);
      if second.Ok? {
        var none: seq<seq<Byte>> := [];
        var a, b := first.value.0, second.value.0;
        assert ReadMany(MAX_RESPONSE_BYTES, 0, second.value.1) == Ok((none, second.value.1));
        assert [b] + none == [b] && [a] + [b] == [a, b];
        ReadOneMore(MAX_RESPONSE_BYTES, 0, first.value.1, b, second.value.1, none, second.value.1);
        ReadOneMore(MAX_RESPONSE_BYTES, 1, incoming, a, first.value.1, [b], second.value.1);
      }
    }
  }

  /** The client reports success exactly when the conversation is complete and in time. */
  lemma DoneExactlyWhen(a: Attempt, incoming: seq<Byte>, decode: Decoder, script: seq<Moment>, m: Message)
    ensures Decided(a, incoming, decode, script) == Done(m) <==> Converses(a, incoming, decode, script, m)
  {
    ExchangeExactlyWhen(a, incoming, decode, script);
    TwoFrames(incoming);
    var first := ReadOne(MAX_RESPONSE_BYTES, incoming);
    if first.Ok? {
      FirstFrameEnds(MAX_RESPONSE_BYTES, incoming, first.value.0);
      var rest := first.value.1;
      assert rest == incoming[4 + |first.value.0|..];
      var second := ReadOne(MAX_RESPONSE_BYTES, rest);
      var answered := Answered(a, incoming, script);
      if answered.Some? && answered.value != [] {
        var deadline := answered.value[0].now + COMPLETION_TIMEOUT;
        assert rest[..0] == [];
        ReceivedByIsOneShot(rest, 0, deadline, answered.value[1..]);
        if second.Ok? {
          ReceivedByExactlyWhen(rest, second.value.0, 0, deadline, answered.value[1..]);
        }
      }
    }
    hide Encode, ReadBy, Arrival, ReadOne, ReadMany, Sent, Exchanged, ReceivedBy, CompletionArrives;
  }
}
