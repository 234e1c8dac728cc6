/** The client's side of the connection: its receive buffer and its pending requests. */
module DaemonConnection {
  import opened Common
  import opened Framing
  import opened Decimals

  /** What `JSON.parse` makes of a frame; a frame that is no JSON is only logged. */
  datatype Response = Response(id: Option<nat>, isError: bool)

  type Parser = Bytes -> Option<Response>

  /** How a request's promise was settled. */
  datatype Settlement = Settlement(id: nat, rejected: bool)

  /** A frame settles the request it answers, if that one is still pending. */
  function SettledBy(parse: Parser, pending: set<nat>, frame: Bytes): Option<Settlement> {
    match parse(frame)
    case None => None
    case Some(r) => if r.id.Some? && r.id.value in pending then Some(Settlement(r.id.value, r.isError)) else None
  }

  /** The settlements of a list of frames, and what is pending after them. */
  function Settle(parse: Parser, pending: set<nat>, frames: seq<Bytes>): (seq<Settlement>, set<nat>)
    decreases frames
  {
    if frames == [] then ([], pending)
    else match SettledBy(parse, pending, frames[0])
      case None => Settle(parse, pending, frames[1..])
      case Some(v) =>
        var (rest, left) := Settle(parse, pending - {v.id}, frames[1..]);
        ([v] + rest, left)
  }

  /** Only pending requests are settled, each once, and then they are pending no more. */
  lemma {:induction false} SettledOnce(parse: Parser, pending: set<nat>, frames: seq<Bytes>)
    ensures var (done, left) := Settle(parse, pending, frames);
            && (forall i :: 0 <= i < |done| ==> done[i].id in pending && done[i].id !in left)
            && (forall i, j :: 0 <= i < j < |done| ==> done[i].id != done[j].id)
            && left <= pending
    decreases frames
  {
    if frames != [] {
      SettledOnce(parse, StillPending(parse, pending, frames[0]), frames[1..]);
    }
  }

  function StillPending(parse: Parser, pending: set<nat>, frame: Bytes): set<nat> {
    match SettledBy(parse, pending, frame) case None => pending case Some(v) => pending - {v.id}
  }

  function Entry(parse: Parser, pending: set<nat>, frame: Bytes): seq<Settlement> {
    match SettledBy(parse, pending, frame) case None => [] case Some(v) => [v]
  }

  /** The first frame that answers a request. */
  function FirstAnswer(parse: Parser, frames: seq<Bytes>, id: nat): (r: Option<Bytes>)
    ensures r.Some? ==> Answers(parse, r.value, id)
  {
    if frames == [] then None
    else if Answers(parse, frames[0], id) then Some(frames[0])
    else FirstAnswer(parse, frames[1..], id)
  }

  /**
   * A pending request stays pending if and only if no frame answers it, and otherwise it is settled by
   * the first frame that does: rejected if that carries an error, resolved if not.
   */
  lemma {:induction false} SettledByFirstAnswer(parse: Parser, pending: set<nat>, frames: seq<Bytes>, id: nat)
    requires id in pending
    ensures var ((done, left), answer) := (Settle(parse, pending, frames), FirstAnswer(parse, frames, id));
            && (id in left <==> answer.None?)
            && (answer.Some? ==> Settlement(id, parse(answer.value).value.isError) in done)
            && (forall v :: v in done && v.id == id ==>
                  answer.Some? && v == Settlement(id, parse(answer.value).value.isError))
    decreases frames
  {
    if frames != [] {
      var next := StillPending(parse, pending, frames[0]);
      if Answers(parse, frames[0], id) {
        SettledOnce(parse, next, frames[1..]);
      } else {
        SettledByFirstAnswer(parse, next, frames[1..], id);
      }
    }
  }

  predicate Answers(parse: Parser, frame: Bytes, id: nat) {
    parse(frame).Some? && parse(frame).value.id == Some(id)
  }

  /** What a client keeps for later, has pending and has settled so far, in order. */
  datatype State = State(buffer: Bytes, pending: set<nat>, settled: seq<Settlement>) {
    function Receive(chunk: Bytes): State {
      this.(buffer := buffer + chunk)
    }
  }

  /** The state once its buffer has been drained. */
  function After(parse: Parser, s: State): State {
    var (frames, rest) := Drain(s.buffer);
    var (done, left) := Settle(parse, s.pending, frames);
    State(rest, left, s.settled + done)
  }

  class DaemonClient {
    const parse: Parser
    var buffer: Bytes
    var pending: set<nat>
    var lastId: nat
    /** Everything that was settled, in order. */
    ghost var settled: seq<Settlement>

    constructor (parse: Parser)
      ensures buffer == "" && pending == {} && settled == [] && lastId == 0 && this.parse == parse
    {
      this.parse := parse;
      buffer, pending, lastId, settled := "", {}, 0, [];
    }

    ghost function Now(): State
      reads this
    {
      State(buffer, pending, settled)
    }

    ghost predicate Valid()
      reads this
    {
      && Drain(buffer) == ([], buffer)
      && (forall id :: id in pending ==> id <= lastId)
      && (forall i :: 0 <= i < |settled| ==> settled[i].id <= lastId && settled[i].id !in pending)
      && (forall i, j :: 0 <= i < j < |settled| ==> settled[i].id != settled[j].id)
    }

    /** Registers a request under a fresh id and returns the bytes to write for it. */
    method SendRequest(serialize: nat -> Bytes) returns (bytes: Bytes)
      requires Valid()
      modifies this
      ensures Valid() && buffer == old(buffer) && settled == old(settled)
      ensures lastId == old(lastId) + 1 && pending == old(pending) + {lastId} && lastId !in old(pending)
      ensures bytes == Frame(serialize(lastId))
    {
      lastId := lastId + 1;
      pending := pending + {lastId};
      bytes := Frame(serialize(lastId));
    }

    method ProcessResponseFrame(frame: Bytes)
      modifies this`pending, this`settled
      ensures settled == old(settled) + Entry(parse, old(pending), frame)
      ensures pending == StillPending(parse, old(pending), frame)
    {
      var response := parse(frame);
      if response.Some? && response.value.id.Some? && response.value.id.value in pending {
        pending := pending - {response.value.id.value};
        settled := settled + [Settlement(response.value.id.value, response.value.isError)];
      }
    }

    /** Consumes every complete frame from the front of the buffer. */
    method ProcessBuffer()
      modifies this`buffer, this`pending, this`settled
      ensures Now() == After(parse, old(Now()))
    {
      while |buffer| > 0
        invariant After(parse, Now()) == After(parse, old(Now()))
        decreases |buffer|
      {
        AfterStep(parse, Now());
        ghost var next, action := Step(parse, Now()), NextAction(buffer);
        var frame, consumed;
        var header := MatchHeader(HeaderWindow(buffer));
        if header.Some? {
          var (headerLength, bodyLength) := header.value;
          if |buffer| < headerLength + bodyLength {
            break;
          }
          frame, consumed := buffer[headerLength..headerLength + bodyLength], headerLength + bodyLength;
        } else {
          if StartsWithHeaderName(HeaderWindow(buffer)) {
            break;
          }
          var newline := NewlineIndex(buffer);
          if newline.None? {
            break;
          }
          frame, consumed := Trim(buffer[..newline.value]), newline.value + 1;
        }
        assert !action.Wait? && consumed == action.consumed;
        assert action.Deliver? <==> header.Some? || frame != "";
        assert action.Deliver? ==> action.frame == frame;
        buffer := buffer[consumed..];
        if header.Some? || frame != "" {
          ProcessResponseFrame(frame);
        }
        assert Now() == next;
      }
      AfterStep(parse, Now());
    }

    /** A chunk from the daemon. */
    method OnData(chunk: Bytes)
      requires Valid()
      modifies this`buffer, this`pending, this`settled
      ensures Valid()
      ensures Now() == After(parse, old(Now()).Receive(chunk))
    {
      buffer := buffer + chunk;
      DrainIsComplete(buffer);
      SettledOnce(parse, pending, Drain(buffer).0);
      ProcessBuffer();
    }
  }

  lemma SettleStep(parse: Parser, pending: set<nat>, frame: Bytes, later: seq<Bytes>)
    ensures var (done, left) := Settle(parse, StillPending(parse, pending, frame), later);
            Settle(parse, pending, [frame] + later) == (Entry(parse, pending, frame) + done, left)
  {
    var frames := [frame] + later;
    assert frames[0] == frame && frames[1..] == later;
    var done := Settle(parse, StillPending(parse, pending, frame), later).0;
    assert [] + done == done;
  }

  /** What one action makes of the state. */
  function Step(parse: Parser, s: State): State {
    match NextAction(s.buffer)
    case Wait => s
    case Drop(n) => s.(buffer := s.buffer[n..])
    case Deliver(frame, n) =>
      State(s.buffer[n..], StillPending(parse, s.pending, frame), s.settled + Entry(parse, s.pending, frame))
  }

  /** The bytes that one action takes from the buffer do their part first. */
  lemma AfterStep(parse: Parser, s: State)
    ensures After(parse, s) == if NextAction(s.buffer).Wait? then s else After(parse, Step(parse, s))
  {
    DrainStep(s.buffer);
    match NextAction(s.buffer)
    case Wait => assert s.settled + [] == s.settled;
    case Drop(_) =>
    case Deliver(frame, n) => AfterDeliver(parse, s, frame, s.buffer[n..]);
  }

  lemma AfterDeliver(parse: Parser, s: State, frame: Bytes, rest: Bytes)
    requires Drain(s.buffer).0 == [frame] + Drain(rest).0 && Drain(s.buffer).1 == Drain(rest).1
    ensures After(parse, s) == After(parse, State(rest, StillPending(parse, s.pending, frame),
                                                  s.settled + Entry(parse, s.pending, frame)))
  {
    var later, left := Drain(rest).0, StillPending(parse, s.pending, frame);
    SettleStep(parse, s.pending, frame, later);
    Regroup(s.settled, Entry(parse, s.pending, frame), Settle(parse, left, later).0);
  }

  lemma StepIsStable(parse: Parser, s: State, chunk: Bytes)
    requires !NextAction(s.buffer).Wait?
    ensures NextAction(s.buffer + chunk) == NextAction(s.buffer)
    ensures Step(parse, s.Receive(chunk)) == Step(parse, s).Receive(chunk)
  {
    var n := NextAction(s.buffer).consumed;
    ActionIsStable(s.buffer, chunk);
    assert (s.buffer + chunk)[n..] == s.buffer[n..] + chunk;
  }

  /** Bytes that arrive later can as well have been there when the buffer was drained. */
  lemma {:induction false} AfterChunk(parse: Parser, s: State, chunk: Bytes)
    ensures After(parse, s.Receive(chunk)) == After(parse, After(parse, s).Receive(chunk))
    decreases |s.buffer|
  {
    AfterStep(parse, s);
    if !NextAction(s.buffer).Wait? {
      StepIsStable(parse, s, chunk);
      AfterStep(parse, s.Receive(chunk));
      AfterChunk(parse, Step(parse, s), chunk);
    }
  }

  /** However the daemon's bytes are cut into chunks, the same requests are settled the same way. */
  method ReceiveAll(client: DaemonClient, chunks: seq<Bytes>)
    requires client.Valid()
    modifies client
    ensures client.Valid()
    ensures client.Now() == After(client.parse, old(client.Now()).Receive(Flatten(chunks)))
    decreases chunks
  {
    if chunks == [] {
      AfterStep(client.parse, client.Now());
      assert client.buffer + Flatten(chunks) == client.buffer;
    } else {
      AfterChunk(client.parse, client.Now().Receive(chunks[0]), Flatten(chunks[1..]));
      Regroup(client.buffer, chunks[0], Flatten(chunks[1..]));
      client.OnData(chunks[0]);
      ReceiveAll(client, chunks[1..]);
    }
  }
}
