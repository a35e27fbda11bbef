/** Length-prefixed framing: the incremental reader, the one-shot reader and the writer. */
module Frame {
  import opened Wrappers
  import opened Bytes
  import opened Lists

  const FRAME_HEADER_BYTES: nat := 4
  const U32_MAX: nat := 0xFFFF_FFFF

  datatype FrameError =
    | TruncatedFrame
    | FrameTooLarge(declared: nat, limit: nat)
    | FrameInputTooLong
    | FrameAlreadyComplete
    | WriteZero
    | IoFailure

  // ----- what a prefix of the byte stream means -----------------------------------------

  function Declared(bytes: seq<Byte>): nat
    requires |bytes| >= FRAME_HEADER_BYTES
  {
    FromBigEndian(bytes[..FRAME_HEADER_BYTES])
  }

  predicate IsComplete(have: seq<Byte>) {
    |have| >= FRAME_HEADER_BYTES && |have| == FRAME_HEADER_BYTES + Declared(have)
  }

  /** Bytes an incremental reader may hold: part of one admissible frame, never more. */
  predicate Admissible(limit: nat, have: seq<Byte>) {
    |have| >= FRAME_HEADER_BYTES ==>
      Declared(have) <= limit && |have| <= FRAME_HEADER_BYTES + Declared(have)
  }

  /** Feeding `input` to a reader that holds `have`: the verdict and what it holds after. */
  function Fed(limit: nat, have: seq<Byte>, input: seq<Byte>): (Result<bool, FrameError>, seq<Byte>) {
    var all := have + input;
    if IsComplete(have) then (Err(FrameAlreadyComplete), have)
    else if input == [] then (Err(TruncatedFrame), have)
    else if |all| < FRAME_HEADER_BYTES then (Ok(false), all)
    else if Declared(all) > limit then (Err(FrameTooLarge(Declared(all), limit)), have)
    else if |all| > FRAME_HEADER_BYTES + Declared(all) then (Err(FrameInputTooLong), have)
    else (Ok(|all| == FRAME_HEADER_BYTES + Declared(all)), all)
  }

  function Wanted(have: seq<Byte>): nat {
    if |have| < FRAME_HEADER_BYTES then FRAME_HEADER_BYTES - |have|
    else if |have| <= FRAME_HEADER_BYTES + Declared(have) then FRAME_HEADER_BYTES + Declared(have) - |have|
    else 0
  }

  /** The one-shot reader on a byte stream: a body and the untouched rest. */
  function ReadOne(limit: nat, bytes: seq<Byte>): Result<(seq<Byte>, seq<Byte>), FrameError> {
    if |bytes| < FRAME_HEADER_BYTES then Err(TruncatedFrame)
    else if Declared(bytes) > limit then Err(FrameTooLarge(Declared(bytes), limit))
    else if |bytes| < FRAME_HEADER_BYTES + Declared(bytes) then Err(TruncatedFrame)
    else
      var end := FRAME_HEADER_BYTES + Declared(bytes);
      Ok((bytes[FRAME_HEADER_BYTES..end], bytes[end..]))
  }

  function Encode(body: seq<Byte>): seq<Byte> {
    ToBigEndian(|body|, FRAME_HEADER_BYTES) + body
  }

  predicate Fits(body: seq<Byte>, limit: nat) { |body| <= limit && |body| <= U32_MAX }

  // ----- the incremental reader ------------------------------------------------------------

  /** Accumulates exactly one bounded length-prefixed frame. */
  class FrameReader {
    const limit: nat
    const header: array<Byte>
    var headerLen: nat
    var declared: Option<nat>
    var body: seq<Byte>

    ghost predicate Valid()
      reads this, header
    {
      && header.Length == FRAME_HEADER_BYTES
      && headerLen <= FRAME_HEADER_BYTES
      && (declared.None? ==> headerLen < FRAME_HEADER_BYTES && body == [])
      && (declared.Some? ==>
            && headerLen == FRAME_HEADER_BYTES
            && declared.value == FromBigEndian(header[..])
            && |body| <= declared.value <= limit)
    }

    /** Every byte committed so far. */
    ghost function Received(): (r: seq<Byte>)
      requires Valid()
      reads this, header
      ensures Admissible(limit, r)
    {
      var r := header[..headerLen] + body;
      assert declared.Some? ==> r[..FRAME_HEADER_BYTES] == header[..];
      r
    }

    constructor (limit: nat)
      ensures Valid() && fresh(header) && this.limit == limit && Received() == []
    {
      this.limit := limit;
      header := new Byte[FRAME_HEADER_BYTES](_ => 0);
      headerLen := 0;
      declared := None;
      body := [];
    }

    method Want() returns (n: nat)
      requires Valid()
      ensures n == Wanted(Received())
      ensures n == 0 <==> IsComplete(Received())
    {
      ghost var r := Received();
      assert declared.Some? ==> r[..FRAME_HEADER_BYTES] == header[..];
      match declared
      case Some(d) => n := d - |body|;
      case None => n := FRAME_HEADER_BYTES - headerLen;
    }

    method Completed() returns (frame: Option<seq<Byte>>)
      requires Valid()
      ensures frame.Some? <==> IsComplete(Received())
      ensures frame.Some? ==> ReadOne(limit, Received()) == Ok((frame.value, []))
    {
      ghost var r := Received();
      assert declared.Some? ==> r[..FRAME_HEADER_BYTES] == header[..] && r[FRAME_HEADER_BYTES..] == body;
      frame := if declared.Some? && |body| == declared.value then Some(body) else None;
      if frame.Some? {
        assert r[FRAME_HEADER_BYTES..|r|] == body && r[|r|..] == [];
      }
    }

    /** The verdict and the committed bytes depend only on the bytes, never on how they were
        cut; a failing call commits nothing. */
    method Feed(input: seq<Byte>) returns (r: Result<bool, FrameError>)
      requires Valid()
      modifies this, header
      ensures Valid()
      ensures (r, Received()) == Fed(limit, old(Received()), input)
    {
      ghost var have := Received();
      assert declared.Some? ==> have[..FRAME_HEADER_BYTES] == header[..];
      if declared.Some? && |body| == declared.value {
        return Err(FrameAlreadyComplete);
      }
      if input == [] {
        return Err(TruncatedFrame);
      }
      if declared.Some? {
        assert (have + input)[..FRAME_HEADER_BYTES] == header[..];
        if |input| > declared.value - |body| {
          return Err(FrameInputTooLong);
        }
        body := body + input;
        assert Received() == have + input;
        return Ok(|body| == declared.value);
      }
      var needed := FRAME_HEADER_BYTES - headerLen;
      if |input| < needed {
        CopyInto(header, headerLen, input);
        headerLen := headerLen + |input|;
        assert Received() == have + input;
        return Ok(false);
      }
      var complete := header[..headerLen] + input[..needed];
      assert complete == (have + input)[..FRAME_HEADER_BYTES];
      var size := FromBigEndian(complete);
      if size > limit {
        return Err(FrameTooLarge(size, limit));
      }
      if |input| - needed > size {
        return Err(FrameInputTooLong);
      }
      CopyInto(header, headerLen, input[..needed]);
      assert header[..] == complete;
      headerLen := FRAME_HEADER_BYTES;
      declared := Some(size);
      body := input[needed..];
      assert Received() == have + input;
      r := Ok(|body| == size);
    }
  }

  method CopyInto(target: array<Byte>, at: nat, source: seq<Byte>)
    requires at + |source| <= target.Length
    modifies target
    ensures target[..] == old(target[..at]) + source + old(target[at + |source|..])
  {
    for i := 0 to |source|
      invariant target[..] == old(target[..at]) + source[..i] + old(target[at + i..])
    {
      target[at + i] := source[i];
    }
  }

  // ----- any fragmentation means the same ------------------------------------------------------

  /** Feeds the fragments in order and stops at the first failure. */
  function FeedAll(limit: nat, parts: seq<seq<Byte>>): Result<seq<Byte>, FrameError> {
    if parts == [] then Ok([])
    else
      match FeedAll(limit, parts[..|parts| - 1])
      case Err(e) => Err(e)
      case Ok(have) =>
        var (r, after) := Fed(limit, have, parts[|parts| - 1]);
        if r.Err? then Err(r.error) else Ok(after)
  }

  /** What a byte stream is, whoever reads it. */
  datatype Verdict = Whole(body: seq<Byte>) | Partial | Oversized(declared: nat) | Overrun

  function OneShotVerdict(limit: nat, bytes: seq<Byte>): Verdict {
    match ReadOne(limit, bytes)
    case Ok((body, rest)) => if rest == [] then Whole(body) else Overrun
    case Err(FrameTooLarge(d, _)) => Oversized(d)
    case Err(_) => Partial
  }

  function IncrementalVerdict(r: Result<seq<Byte>, FrameError>): Verdict {
    match r
    case Ok(have) => if IsComplete(have) then Whole(have[FRAME_HEADER_BYTES..]) else Partial
    case Err(FrameTooLarge(d, _)) => Oversized(d)
    case Err(_) => Overrun
  }

  lemma OneShotExtends(limit: nat, a: seq<Byte>, b: seq<Byte>)
    requires b != []
    requires OneShotVerdict(limit, a).Oversized? || OneShotVerdict(limit, a).Overrun? || OneShotVerdict(limit, a).Whole?
    ensures OneShotVerdict(limit, a + b)
         == if OneShotVerdict(limit, a).Oversized? then OneShotVerdict(limit, a) else Overrun
  {
    assert (a + b)[..FRAME_HEADER_BYTES] == a[..FRAME_HEADER_BYTES];
  }

  /** Incremental and one-shot reading agree on every nonempty fragmentation, and a reader
      that has not failed holds exactly the bytes it was given. */
  lemma {:induction false} FragmentationAgrees(limit: nat, parts: seq<seq<Byte>>)
    requires forall i :: 0 <= i < |parts| ==> parts[i] != []
    ensures IncrementalVerdict(FeedAll(limit, parts)) == OneShotVerdict(limit, Concat(parts))
    ensures FeedAll(limit, parts).Ok? ==>
      FeedAll(limit, parts).value == Concat(parts) && Admissible(limit, Concat(parts))
  {
    if parts != [] {
      var init, last := parts[..|parts| - 1], parts[|parts| - 1];
      FragmentationAgrees(limit, init);
      assert parts == init + [last];
      ConcatAppend(init, [last]);
      ConcatOne(last);
      var have := Concat(init);
      var all := have + last;
      if |have| >= FRAME_HEADER_BYTES {
        assert all[..FRAME_HEADER_BYTES] == have[..FRAME_HEADER_BYTES];
      }
      if FeedAll(limit, init).Err? || IsComplete(have) {
        OneShotExtends(limit, have, last);
      } else if IsComplete(all) {
        assert all[FRAME_HEADER_BYTES..|all|] == all[FRAME_HEADER_BYTES..];
      }
    }
  }

  /** A read of at most `Wanted` bytes is always accepted unless the header is too large, and
      leaves the reader strictly closer to its frame; it can never reach the next frame. */
  lemma WantedReadNeverOverruns(limit: nat, have: seq<Byte>, input: seq<Byte>)
    requires Admissible(limit, have) && !IsComplete(have)
    requires 0 < |input| <= Wanted(have)
    ensures var (r, after) := Fed(limit, have, input);
      && (r.Err? ==> r.error.FrameTooLarge? && |have + input| == FRAME_HEADER_BYTES)
      && (r.Ok? ==> after == have + input && r.value == IsComplete(after))
      && Admissible(limit, after)
  {
    var all := have + input;
    if |have| >= FRAME_HEADER_BYTES {
      assert all[..FRAME_HEADER_BYTES] == have[..FRAME_HEADER_BYTES];
    }
  }

  // ----- reading and writing through partial and interrupted I/O --------------------------------------

  /** One answer of a stream: a number of bytes, an interruption, or a hard failure. */
  datatype Io = Moved(count: nat) | Interrupted | WouldBlock | Fault

  /** A read answers zero only at the end of the stream. */
  function Arriving(n: nat, room: nat, available: nat): nat {
    Min(if n == 0 then 1 else n, Min(room, available))
  }

  /** What is left of a schedule once it has carried `need` bytes, if it does: each answer carries its
      count, but at least `least`; interruptions are retried, and anything else ends it. */
  function Carried(need: nat, schedule: seq<Io>, least: nat): Option<seq<Io>>
    decreases |schedule|
  {
    if need == 0 then Some(schedule)
    else if schedule == [] then None
    else
      match schedule[0]
      case Moved(n) =>
        var count := Max(n, least);
        if count == 0 then None else Carried(need - Min(count, need), schedule[1..], least)
      case Interrupted => Carried(need, schedule[1..], least)
      case WouldBlock => None
      case Fault => None
  }

  function Max(a: nat, b: nat): nat { if a <= b then b else a }

  /** The answers move something or are interruptions. */
  predicate Moving(schedule: seq<Io>, least: nat) {
    forall i :: 0 <= i < |schedule| ==>
      schedule[i].Interrupted? || (schedule[i].Moved? && Max(schedule[i].count, least) > 0)
  }

  function Moves(schedule: seq<Io>, least: nat): nat {
    if schedule == [] then 0
    else (if schedule[0].Moved? then Max(schedule[0].count, least) else 0) + Moves(schedule[1..], least)
  }

  lemma NoAnswer(schedule: seq<Io>, least: nat)
    ensures Moves(schedule[..0], least) == 0
  {
  }

  lemma OneMoreAnswer(schedule: seq<Io>, least: nat, n: nat)
    requires 0 < n <= |schedule|
    ensures var first, rest := schedule[0], schedule[1..];
      var count := if first.Moved? then Max(first.count, least) else 0;
      && (Moving(schedule[..n], least) <==> (first.Interrupted? || count > 0) && Moving(rest[..n - 1], least))
      && Moves(schedule[..n], least) == count + Moves(rest[..n - 1], least)
  {
    var more, rest := schedule[..n], schedule[1..][..n - 1];
    assert more[0] == schedule[0] && more[1..] == rest && more == [schedule[0]] + rest;
    hide Max;
    assert forall i :: 0 < i < n ==> more[i] == rest[i - 1];
    assert forall i :: 0 <= i < n - 1 ==> rest[i] == more[i + 1];
  }

  /** A schedule carries the bytes exactly when some beginning of it only moves and is interrupted, and
      moves at least as many. */
  lemma {:induction false} CarriedExactlyWhen(need: nat, schedule: seq<Io>, least: nat)
    ensures Carried(need, schedule, least).Some? <==>
      exists n: nat :: n <= |schedule| && Moving(schedule[..n], least) && Moves(schedule[..n], least) >= need
    decreases |schedule|
  {
    if need == 0 {
      assert schedule[..0] == [] && Moving(schedule[..0], least);
    } else if schedule != [] {
      var first, rest := schedule[0], schedule[1..];
      var count := if first.Moved? then Max(first.count, least) else 0;
      var need' := need - Min(count, need);
      CarriedExactlyWhen(need', rest, least);
      hide Moving, Moves;
      if Carried(need, schedule, least).Some? {
        var n: nat :| n <= |rest| && Moving(rest[..n], least) && Moves(rest[..n], least) >= need';
        OneMoreAnswer(schedule, least, n + 1);
        assert Moving(schedule[..n + 1], least);
      }
      forall n: nat | n <= |schedule| && Moving(schedule[..n], least) && Moves(schedule[..n], least) >= need
        ensures Carried(need, schedule, least).Some?
      {
        NoAnswer(schedule, least);
        OneMoreAnswer(schedule, least, n);
        var m: nat := n - 1;
        assert Moving(rest[..m], least) && Moves(rest[..m], least) >= need';
      }
    } else {
      assert forall n: nat :: n <= |schedule| ==> schedule[..n] == [];
    }
  }

  /** `read_exact`: `stream` is everything the peer will ever send, `schedule` how it arrives. */
  method ReadExact(stream: seq<Byte>, length: nat, schedule: seq<Io>)
    returns (r: Result<seq<Byte>, FrameError>, consumed: nat, left: seq<Io>)
    ensures consumed <= |stream| && consumed <= length
    ensures r.Ok? ==> consumed == length && r.value == stream[..length]
    ensures r.Err? ==> consumed < length
    ensures r == Err(TruncatedFrame) ==> consumed == |stream|
    ensures r.Err? ==> r.error in {TruncatedFrame, IoFailure}
    ensures r.Ok? <==> length <= |stream| && Carried(length, schedule, 1).Some?
    ensures r.Ok? ==> left == Carried(length, schedule, 1).value
  {
    consumed, left := 0, schedule;
    while consumed < length
      invariant consumed <= |stream| && consumed <= length
      invariant length <= |stream| ==> Carried(length, schedule, 1) == Carried(length - consumed, left, 1)
      decreases |left|
    {
      if left == [] {
        return Err(IoFailure), consumed, left;
      }
      var event := left[0];
      left := left[1..];
      match event
      case Moved(n) =>
        var count := Arriving(n, length - consumed, |stream| - consumed);
        if count == 0 {
          return Err(TruncatedFrame), consumed, left;
        }
        consumed := consumed + count;
      case Interrupted =>
      case WouldBlock => return Err(IoFailure), consumed, left;
      case Fault => return Err(IoFailure), consumed, left;
    }
    r := Ok(stream[..length]);
  }

  /** What is left of a schedule once a header and then a body of this length have been carried. */
  function CarriedFrame(length: nat, schedule: seq<Io>, least: nat): Option<seq<Io>> {
    var left := Carried(4, schedule, least);
    if left.Some? then Carried(length, left.value, least) else None
  }

  /** `read_frame` under any schedule is the one-shot reader, and takes no byte of what follows; it
      succeeds exactly when there is a frame and the schedule carries its header and its body. */
  method ReadFrame(stream: seq<Byte>, limit: nat, schedule: seq<Io>)
    returns (r: Result<seq<Byte>, FrameError>, consumed: nat, left: seq<Io>)
    ensures consumed <= |stream|
    ensures r.Ok? ==> ReadOne(limit, stream) == Ok((r.value, stream[consumed..]))
    ensures r.Err? && r.error != IoFailure ==> ReadOne(limit, stream) == Err(r.error)
    ensures consumed <= FRAME_HEADER_BYTES ||
      (Declared(stream) <= limit && consumed <= FRAME_HEADER_BYTES + Declared(stream))
    ensures r.Ok? <==>
      ReadOne(limit, stream).Ok? && CarriedFrame(|ReadOne(limit, stream).value.0|, schedule, 1).Some?
    ensures r.Ok? ==> left == CarriedFrame(|r.value|, schedule, 1).value
  {
    var header, body;
    header, consumed, left := ReadExact(stream, FRAME_HEADER_BYTES, schedule);
    if header.Err? {
      return Err(header.error), consumed, left;
    }
    var declared := FromBigEndian(header.value);
    if declared > limit {
      return Err(FrameTooLarge(declared, limit)), consumed, left;
    }
    var more;
    body, more, left := ReadExact(stream[consumed..], declared, left);
    assert body.Ok? ==> stream[consumed..][..declared] == stream[consumed..consumed + declared];
    consumed := consumed + more;
    r := body;
  }

  /** `write_all`: what left is always a prefix of the input, and all of it exactly on success. */
  method WriteAll(input: seq<Byte>, schedule: seq<Io>)
    returns (r: Result<(), FrameError>, sent: seq<Byte>, left: seq<Io>)
    ensures sent <= input
    ensures r.Ok? <==> sent == input
    ensures r.Ok? <==> Carried(|input|, schedule, 0).Some?
    ensures r.Ok? ==> left == Carried(|input|, schedule, 0).value
  {
    sent, left := [], schedule;
    while |sent| < |input|
      invariant sent <= input
      invariant Carried(|input|, schedule, 0) == Carried(|input| - |sent|, left, 0)
      decreases |left|
    {
      if left == [] {
        return Err(IoFailure), sent, left;
      }
      var event := left[0];
      left := left[1..];
      match event
      case Moved(n) =>
        if n == 0 {
          return Err(WriteZero), sent, left;
        }
        sent := sent + input[|sent|..][..Min(n, |input| - |sent|)];
      case Interrupted =>
      case WouldBlock => return Err(IoFailure), sent, left;
      case Fault => return Err(IoFailure), sent, left;
    }
    r := Ok(());
  }

  /** `write_frame`: a body over the limit sends nothing; otherwise what was sent is a prefix
      of the encoding, and all of it on success. */
  method WriteFrame(body: seq<Byte>, limit: nat, schedule: seq<Io>)
    returns (r: Result<(), FrameError>, sent: seq<Byte>, left: seq<Io>)
    ensures !Fits(body, limit) ==> r.Err? && r.error.FrameTooLarge? && sent == []
    ensures sent <= Encode(body)
    ensures r.Ok? <==> Fits(body, limit) && sent == Encode(body)
    ensures r.Ok? <==> Fits(body, limit) && CarriedFrame(|body|, schedule, 0).Some?
    ensures r.Ok? ==> left == CarriedFrame(|body|, schedule, 0).value
  {
    if |body| > limit || |body| > U32_MAX {
      return Err(FrameTooLarge(|body|, Min(limit, U32_MAX))), [], schedule;
    }
    var header := ToBigEndian(|body|, FRAME_HEADER_BYTES);
    r, sent, left := WriteAll(header, schedule);
    if r.Err? {
      return;
    }
    var more;
    r, more, left := WriteAll(body, left);
    sent := sent + more;
  }

  // ----- round trips ----------------------------------------------------------------------------------

  lemma EncodedLength(body: seq<Byte>, rest: seq<Byte>)
    requires |body| <= U32_MAX
    ensures |Encode(body) + rest| >= FRAME_HEADER_BYTES
    ensures Declared(Encode(body) + rest) == |body|
  {
    assert Pow256(4) == U32_MAX + 1 by {
      assert Pow256(1) == 256;
      assert Pow256(2) == 65536;
      assert Pow256(3) == 16777216;
    }
    BigEndianRoundTrip(|body|, FRAME_HEADER_BYTES);
    assert (Encode(body) + rest)[..FRAME_HEADER_BYTES] == ToBigEndian(|body|, FRAME_HEADER_BYTES);
  }

  /** One written frame reads back as its body and leaves what follows untouched. */
  lemma FrameRoundTrip(limit: nat, body: seq<Byte>, rest: seq<Byte>)
    requires Fits(body, limit)
    ensures ReadOne(limit, Encode(body) + rest) == Ok((body, rest))
  {
    EncodedLength(body, rest);
    var all := Encode(body) + rest;
    var end := FRAME_HEADER_BYTES + |body|;
    assert all[FRAME_HEADER_BYTES..end] == body && all[end..] == rest;
  }

  /** Conversely, every frame that reads is the encoding of its body. */
  lemma ReadFrameIsEncoded(limit: nat, bytes: seq<Byte>)
    requires ReadOne(limit, bytes).Ok?
    ensures var (body, rest) := ReadOne(limit, bytes).value; bytes == Encode(body) + rest
  {
    BigEndianIsOnto(bytes[..FRAME_HEADER_BYTES]);
    var end := FRAME_HEADER_BYTES + Declared(bytes);
    assert bytes == bytes[..FRAME_HEADER_BYTES] + bytes[FRAME_HEADER_BYTES..end] + bytes[end..];
  }

  function EncodeAll(bodies: seq<seq<Byte>>): seq<Byte> {
    if bodies == [] then [] else Encode(bodies[0]) + EncodeAll(bodies[1..])
  }

  function ReadMany(limit: nat, count: nat, bytes: seq<Byte>): Result<(seq<seq<Byte>>, seq<Byte>), FrameError> {
    if count == 0 then Ok(([], bytes))
    else
      match ReadOne(limit, bytes)
      case Err(e) => Err(e)
      case Ok((body, rest)) =>
        match ReadMany(limit, count - 1, rest)
        case Err(e) => Err(e)
        case Ok((bodies, tail)) => Ok(([body] + bodies, tail))
  }

  lemma ReadOneMore(limit: nat, count: nat, bytes: seq<Byte>, body: seq<Byte>, rest: seq<Byte>,
                    bodies: seq<seq<Byte>>, tail: seq<Byte>)
    requires ReadOne(limit, bytes) == Ok((body, rest)) && ReadMany(limit, count, rest) == Ok((bodies, tail))
    ensures ReadMany(limit, count + 1, bytes) == Ok(([body] + bodies, tail))
  {
    hide ReadOne;
  }

  /** A sequence of written frames reads back as the same bodies, whatever follows them. */
  lemma {:induction false} FramesRoundTrip(limit: nat, bodies: seq<seq<Byte>>, rest: seq<Byte>)
    requires forall b :: b in bodies ==> Fits(b, limit)
    ensures ReadMany(limit, |bodies|, EncodeAll(bodies) + rest) == Ok((bodies, rest))
  {
    hide Encode, ReadOne, Fits;
    if bodies != [] {
      var first, later := bodies[0], bodies[1..];
      var more := EncodeAll(later) + rest;
      FramesRoundTrip(limit, later, rest);
      FrameRoundTrip(limit, first, more);
      assert EncodeAll(bodies) + rest == Encode(first) + more;
      hide ReadMany, EncodeAll;
      ReadOneMore(limit, |later|, Encode(first) + more, first, more, later, rest);
      assert bodies == [first] + later;
    } else {
      assert EncodeAll(bodies) + rest == rest;
    }
  }

  /** A frame that was cut short does not read. */
  lemma CutFrameDoesNotRead(limit: nat, body: seq<Byte>, part: seq<Byte>)
    requires part <= Encode(body) && part != Encode(body) && (Fits(body, limit) || part == [])
    ensures ReadOne(limit, part).Err?
  {
    if |part| >= FRAME_HEADER_BYTES {
      EncodedLength(body, []);
      assert Encode(body) + [] == Encode(body);
      assert part[..FRAME_HEADER_BYTES] == Encode(body)[..FRAME_HEADER_BYTES];
      assert Declared(part) == Declared(Encode(body));
    }
  }

  lemma {:induction false} EncodeAllAppend(bodies: seq<seq<Byte>>, last: seq<Byte>)
    ensures EncodeAll(bodies + [last]) == EncodeAll(bodies) + Encode(last)
  {
    hide Encode;
    if bodies == [] {
      assert bodies + [last] == [last];
      assert EncodeAll([last][1..]) == [];
    } else {
      assert (bodies + [last])[1..] == bodies[1..] + [last];
      EncodeAllAppend(bodies[1..], last);
    }
  }

  /** What a writer has sent: the first `whole` frames, then a part of the next one, none of it if
      that one is too large. */
  predicate SentSoFar(limit: nat, bodies: seq<seq<Byte>>, whole: nat, part: seq<Byte>) {
    && whole <= |bodies|
    && (forall i :: 0 <= i < whole ==> Fits(bodies[i], limit))
    && (whole == |bodies| ==> part == [])
    && (whole < |bodies| ==>
          part <= Encode(bodies[whole]) && part != Encode(bodies[whole]) && (Fits(bodies[whole], limit) || part == []))
  }

  /** Writing frames one after another under one schedule, up to the first failure. */
  method WriteFrames(bodies: seq<seq<Byte>>, limit: nat, schedule: seq<Io>)
    returns (r: Result<(), FrameError>, sent: seq<Byte>, whole: nat, part: seq<Byte>)
    ensures SentSoFar(limit, bodies, whole, part) && sent == EncodeAll(bodies[..whole]) + part
    ensures r.Ok? <==> whole == |bodies|
  {
    hide Encode, EncodeAll;
    sent, whole, part := [], 0, [];
    assert EncodeAll(bodies[..0]) == [] by { NothingEncoded(bodies); }
    var left := schedule;
    for i := 0 to |bodies|
      invariant whole == i && part == [] && sent == EncodeAll(bodies[..i])
      invariant forall j :: 0 <= j < i ==> Fits(bodies[j], limit)
    {
      var frame;
      r, frame, left := WriteFrame(bodies[i], limit, left);
      EncodeAllAppend(bodies[..i], bodies[i]);
      EncodedIsNotEmpty(bodies[i]);
      assert bodies[..i + 1] == bodies[..i] + [bodies[i]];
      sent := sent + frame;
      if r.Err? {
        part := frame;
        return;
      }
      whole := i + 1;
    }
    r := Ok(());
  }

  lemma EncodedIsNotEmpty(body: seq<Byte>)
    ensures Encode(body) != []
  {
  }

  lemma NothingEncoded(bodies: seq<seq<Byte>>)
    ensures EncodeAll(bodies[..0]) == []
  {
  }

  lemma NextFrame(limit: nat, bodies: seq<seq<Byte>>, whole: nat, part: seq<Byte>, k: nat)
    requires SentSoFar(limit, bodies, whole, part) && k <= whole
    ensures var stream := EncodeAll(bodies[k..whole]) + part;
      if k < whole then ReadOne(limit, stream) == Ok((bodies[k], EncodeAll(bodies[k + 1..whole]) + part))
      else k < |bodies| ==> ReadOne(limit, stream).Err?
  {
    hide Encode, ReadOne;
    var some := bodies[k..whole];
    if k < whole {
      var rest := EncodeAll(some[1..]) + part;
      assert some[1..] == bodies[k + 1..whole];
      assert EncodeAll(some) + part == Encode(some[0]) + rest;
      FrameRoundTrip(limit, bodies[k], rest);
    } else if k < |bodies| {
      assert some == [] && EncodeAll(some) + part == part;
      CutFrameDoesNotRead(limit, bodies[k], part);
    }
  }

  /** Frames written under any schedule and read back under any other: the bodies read are the
      first of those written, and all of them if the reader succeeds, which it cannot unless the
      writer did. */
  method WriteThenRead(bodies: seq<seq<Byte>>, limit: nat, outgoing: seq<Io>, incoming: seq<Io>)
    returns (written: Result<(), FrameError>, read: Result<(), FrameError>, received: seq<seq<Byte>>)
    ensures received <= bodies
    ensures read.Ok? ==> received == bodies && written.Ok?
    ensures written.Ok? && read.Err? ==> read.error == IoFailure
  {
    var sent, whole, part;
    written, sent, whole, part := WriteFrames(bodies, limit, outgoing);
    assert bodies[0..whole] == bodies[..whole];
    hide EncodeAll, ReadOne, Encode;
    received := [];
    var stream, left := sent, incoming;
    for k := 0 to |bodies|
      invariant k <= whole && received == bodies[..k]
      invariant stream == EncodeAll(bodies[k..whole]) + part
    {
      NextFrame(limit, bodies, whole, part, k);
      var body, consumed;
      body, consumed, left := ReadFrame(stream, limit, left);
      if body.Err? {
        return written, Err(body.error), received;
      }
      received := received + [body.value];
      stream := stream[consumed..];
    }
    read := Ok(());
  }

  // ----- the polled reader of the service and of the client handshake ------------------------------------

  datatype PollOutcome = PollIncomplete | PollComplete(body: seq<Byte>) | PollFailed(error: FrameError)

  const BUFFER_BYTES: nat := 8192

  /** The stream starts with this frame. */
  predicate StartsWith(limit: nat, bytes: seq<Byte>, body: seq<Byte>) {
    var r := ReadOne(limit, bytes);
    r.Ok? && r.value.0 == body
  }

  /** How an incremental reader inside the first frame takes the next bytes. */
  lemma FirstFrameFed(limit: nat, bytes: seq<Byte>, body: seq<Byte>, pos: nat, count: nat)
    requires StartsWith(limit, bytes, body) && pos < 4 + |body| && 0 < count && pos + count <= |bytes|
    ensures !IsComplete(bytes[..pos]) && Admissible(limit, bytes[..pos])
    ensures Wanted(bytes[..pos]) == if pos < 4 then 4 - pos else 4 + |body| - pos
    ensures var fed := Fed(limit, bytes[..pos], bytes[pos..pos + count]).0;
      if pos + count <= 4 + |body| then fed == Ok(pos + count == 4 + |body|) else fed.Err?
  {
    var all := bytes[..pos + count];
    assert bytes[..pos] + bytes[pos..pos + count] == all;
    assert pos >= 4 ==> bytes[..pos][..4] == bytes[..4];
    assert |all| >= 4 ==> all[..4] == bytes[..4];
  }

  /** The first frame ends inside the stream. */
  lemma FirstFrameEnds(limit: nat, bytes: seq<Byte>, body: seq<Byte>)
    requires StartsWith(limit, bytes, body)
    ensures 4 + |body| <= |bytes| && body == bytes[4..4 + |body|]
    ensures ReadOne(limit, bytes) == Ok((body, bytes[4 + |body|..]))
  {
  }

  lemma WholeIsComplete(limit: nat, bytes: seq<Byte>, body: seq<Byte>)
    requires StartsWith(limit, bytes, body)
    ensures 4 + |body| <= |bytes| && IsComplete(bytes[..4 + |body|])
  {
    assert bytes[..4 + |body|][..4] == bytes[..4];
  }

  /** How reading a frame of `total` bytes ends: complete, at the first answer that would block, or broken. */
  datatype Ending = Full | Blocked | Broken

  function EndOfReading(total: nat, available: nat, pos: nat, schedule: seq<Io>): Ending
    decreases |schedule|
  {
    if pos >= total then Full
    else if schedule == [] then Broken
    else
      match schedule[0]
      case Moved(n) =>
        var wanted := if pos < 4 then 4 - pos else total - pos;
        var count := Min(Max(n, 1), Min(Min(wanted, 8192), if pos <= available then available - pos else 0));
        if count == 0 then Broken else EndOfReading(total, available, pos + count, schedule[1..])
      case Interrupted => EndOfReading(total, available, pos, schedule[1..])
      case WouldBlock => Blocked
      case Fault => Broken
  }

  /** One bounded read: the next bytes of the stream, no more than `want`, fed at once. */
  method ReadWanted(reader: FrameReader, stream: seq<Byte>, n: nat)
    returns (fed: Result<bool, FrameError>, count: nat)
    requires reader.Valid() && !IsComplete(reader.Received())
    modifies reader, reader.header
    ensures reader.Valid() && count <= |stream|
    ensures count == Arriving(n, Min(Wanted(old(reader.Received())), BUFFER_BYTES), |stream|)
    ensures (fed, reader.Received()) == Fed(reader.limit, old(reader.Received()), stream[..count])
    ensures fed.Ok? ==> reader.Received() == old(reader.Received()) + stream[..count]
    ensures fed.Err? ==> reader.Received() == old(reader.Received())
    ensures fed.Err? ==>
      (|| (fed.error == TruncatedFrame && stream == [])
       || (&& fed.error.FrameTooLarge?
           && OneShotVerdict(reader.limit, old(reader.Received()) + stream[..count]).Oversized?))
  {
    var want := reader.Want();
    count := Arriving(n, Min(want, BUFFER_BYTES), |stream|);
    if count > 0 {
      WantedReadNeverOverruns(reader.limit, reader.Received(), stream[..count]);
    }
    fed := reader.Feed(stream[..count]);
  }

  lemma TakeMore(start: seq<Byte>, stream: seq<Byte>, taken: nat, more: nat)
    requires taken + more <= |stream|
    ensures start + stream[..taken] + stream[taken..][..more] == start + stream[..taken + more]
  {
  }

  /** `poll_admission` as a function of the bytes held, the stream and its schedule: how the poll ends
      and how many bytes it takes. */
  function PolledBy(limit: nat, have: seq<Byte>, stream: seq<Byte>, schedule: seq<Io>): (PollOutcome, nat)
    decreases |schedule|
  {
    if IsComplete(have) then (PollComplete(have[FRAME_HEADER_BYTES..]), 0)
    else if schedule == [] then (PollFailed(IoFailure), 0)
    else
      match schedule[0]
      case Moved(n) =>
        var count := Arriving(n, Min(Wanted(have), BUFFER_BYTES), |stream|);
        var (fed, more) := Fed(limit, have, stream[..count]);
        if fed.Err? then (PollFailed(fed.error), count)
        else
          var (outcome, consumed) := PolledBy(limit, more, stream[count..], schedule[1..]);
          (outcome, count + consumed)
      case Interrupted => PolledBy(limit, have, stream, schedule[1..])
      case WouldBlock => (PollIncomplete, 0)
      case Fault => (PollFailed(IoFailure), 0)
  }

  lemma PolledStep(limit: nat, have: seq<Byte>, stream: seq<Byte>, schedule: seq<Io>)
    ensures PolledBy(limit, have, stream, schedule) ==
      if IsComplete(have) then (PollComplete(have[FRAME_HEADER_BYTES..]), 0)
      else if schedule == [] then (PollFailed(IoFailure), 0)
      else
        match schedule[0]
        case Moved(n) =>
          var count := Arriving(n, Min(Wanted(have), BUFFER_BYTES), |stream|);
          var (fed, more) := Fed(limit, have, stream[..count]);
          if fed.Err? then (PollFailed(fed.error), count)
          else
            var (outcome, consumed) := PolledBy(limit, more, stream[count..], schedule[1..]);
            (outcome, count + consumed)
        case Interrupted => PolledBy(limit, have, stream, schedule[1..])
        case WouldBlock => (PollIncomplete, 0)
        case Fault => (PollFailed(IoFailure), 0)
  {
  }

  lemma BoundedRead(limit: nat, have: seq<Byte>, stream: seq<Byte>, n: nat)
    requires Admissible(limit, have) && !IsComplete(have)
    ensures var count := Arriving(n, Min(Wanted(have), BUFFER_BYTES), |stream|);
      var (fed, more) := Fed(limit, have, stream[..count]);
      && count <= |stream| && (fed.Ok? ==> count > 0 && more == have + stream[..count] && Admissible(limit, more))
      && (fed.Err? ==>
           || (fed.error == TruncatedFrame && stream == [] && count == 0)
           || (fed.error.FrameTooLarge? && OneShotVerdict(limit, have + stream[..count]).Oversized?))
  {
    var count := Arriving(n, Min(Wanted(have), BUFFER_BYTES), |stream|);
    if count > 0 {
      WantedReadNeverOverruns(limit, have, stream[..count]);
    }
  }

  /** What a poll takes is the next bytes of the stream, never one beyond the frame; it completes with
      that frame, and fails only on a hard error, the end of the stream or an oversized declaration. */
  lemma {:induction false} PollTakesItsFrame(limit: nat, have: seq<Byte>, stream: seq<Byte>, schedule: seq<Io>)
    requires Admissible(limit, have)
    ensures var (outcome, consumed) := PolledBy(limit, have, stream, schedule);
      && consumed <= |stream|
      && (outcome.PollComplete? ==> ReadOne(limit, have + stream[..consumed]) == Ok((outcome.body, [])))
      && (outcome.PollFailed? && outcome.error == TruncatedFrame ==> consumed == |stream|)
      && (outcome.PollFailed? ==>
            || outcome.error in {IoFailure, TruncatedFrame}
            || OneShotVerdict(limit, have + stream[..consumed]).Oversized?)
    decreases |schedule|
  {
    if IsComplete(have) {
      assert have + stream[..0] == have;
      assert have[FRAME_HEADER_BYTES..|have|] == have[FRAME_HEADER_BYTES..] && have[|have|..] == [];
    } else if schedule != [] {
      hide ReadOne, OneShotVerdict, Fed, Wanted, IsComplete, Admissible;
      match schedule[0]
      case Moved(n) =>
        BoundedRead(limit, have, stream, n);
        var count := Arriving(n, Min(Wanted(have), BUFFER_BYTES), |stream|);
        var (fed, more) := Fed(limit, have, stream[..count]);
        if fed.Ok? {
          PollTakesItsFrame(limit, more, stream[count..], schedule[1..]);
          var taken := PolledBy(limit, more, stream[count..], schedule[1..]).1;
          TakeMore(have, stream, count, taken);
        }
      case Interrupted => PollTakesItsFrame(limit, have, stream, schedule[1..]);
      case WouldBlock =>
      case Fault =>
    }
  }

  /** If a whole frame is on its way, the poll completes exactly when the schedule brings it before
      anything blocks or breaks, and is incomplete exactly when something blocks first. */
  lemma {:induction false} PollEndsExactlyWhen(limit: nat, bytes: seq<Byte>, body: seq<Byte>, pos: nat,
      schedule: seq<Io>)
    requires StartsWith(limit, bytes, body) && pos <= 4 + |body|
    ensures pos <= |bytes|
    ensures var outcome := PolledBy(limit, bytes[..pos], bytes[pos..], schedule).0;
      var ending := EndOfReading(4 + |body|, |bytes|, pos, schedule);
      && (outcome == PollComplete(body) <==> ending == Full)
      && (outcome.PollComplete? ==> outcome.body == body)
      && (outcome.PollIncomplete? <==> ending == Blocked)
    decreases |schedule|
  {
    FirstFrameEnds(limit, bytes, body);
    if pos == 4 + |body| {
      WholeIsComplete(limit, bytes, body);
    } else {
      FirstFrameFed(limit, bytes, body, pos, 1);
      hide ReadOne, StartsWith, Fed, Wanted, IsComplete, Admissible;
      if schedule != [] {
        if schedule[0].Moved? {
          var count := Arriving(schedule[0].count, Min(Wanted(bytes[..pos]), BUFFER_BYTES), |bytes[pos..]|);
          FirstFrameFed(limit, bytes, body, pos, count);
          FedBytes(limit, bytes, pos, count);
          PollEndsExactlyWhen(limit, bytes, body, pos + count, schedule[1..]);
        } else {
          PollEndsExactlyWhen(limit, bytes, body, pos, schedule[1..]);
        }
      }
    }
  }

  lemma FedBytes(limit: nat, bytes: seq<Byte>, pos: nat, count: nat)
    requires pos + count <= |bytes| && Fed(limit, bytes[..pos], bytes[pos..pos + count]).0.Ok?
    ensures bytes[pos..][..count] == bytes[pos..pos + count] && bytes[pos..][count..] == bytes[pos + count..]
    ensures Fed(limit, bytes[..pos], bytes[pos..pos + count]).1 == bytes[..pos + count]
  {
    assert bytes[..pos] + bytes[pos..pos + count] == bytes[..pos + count];
  }

  /** `poll_admission`: reads bounded by `want` until the frame is complete or the stream has
      no more to give. */
  method PollReader(reader: FrameReader, stream: seq<Byte>, schedule: seq<Io>)
    returns (outcome: PollOutcome, consumed: nat, left: seq<Io>)
    requires reader.Valid()
    modifies reader, reader.header
    ensures reader.Valid()
    ensures (outcome, consumed) == PolledBy(reader.limit, old(reader.Received()), stream, schedule)
    ensures consumed <= |stream|
    ensures !outcome.PollFailed? ==> reader.Received() == old(reader.Received()) + stream[..consumed]
    ensures outcome.PollComplete? ==> ReadOne(reader.limit, reader.Received()) == Ok((outcome.body, []))
    ensures !outcome.PollComplete? ==> !IsComplete(reader.Received())
  {
    hide Fed, Wanted, ReadOne, OneShotVerdict, PolledBy;
    consumed, left := 0, schedule;
    ghost var start, limit := reader.Received(), reader.limit;
    assert start + stream[..0] == start && stream[0..] == stream;
    while true
      invariant reader.Valid() && consumed <= |stream| && reader.limit == limit
      invariant reader.Received() == start + stream[..consumed]
      invariant var rest := PolledBy(limit, reader.Received(), stream[consumed..], left);
        PolledBy(limit, start, stream, schedule) == (rest.0, consumed + rest.1)
      decreases |left|
    {
      var frame := reader.Completed();
      CompletedBody(reader.limit, reader.Received());
      PolledStep(limit, reader.Received(), stream[consumed..], left);
      if frame.Some? {
        return PollComplete(frame.value), consumed, left;
      }
      if left == [] {
        return PollFailed(IoFailure), consumed, left;
      }
      var event := left[0];
      left := left[1..];
      match event
      case Moved(n) =>
        var fed, count := ReadWanted(reader, stream[consumed..], n);
        TakeMore(start, stream, consumed, count);
        assert stream[consumed..][count..] == stream[consumed + count..];
        consumed := consumed + count;
        if fed.Err? {
          return PollFailed(fed.error), consumed, left;
        }
      case Interrupted =>
      case WouldBlock => return PollIncomplete, consumed, left;
      case Fault => return PollFailed(IoFailure), consumed, left;
    }
  }

  lemma CompletedBody(limit: nat, have: seq<Byte>)
    ensures IsComplete(have) && ReadOne(limit, have).Ok? ==> ReadOne(limit, have).value.0 == have[FRAME_HEADER_BYTES..]
  {
    if IsComplete(have) {
      assert have[FRAME_HEADER_BYTES..|have|] == have[FRAME_HEADER_BYTES..];
    }
  }
}
