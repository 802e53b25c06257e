/** The windowed ProcessVideo client (grpc_client.py). A writer task and a reader share the window's
    slots and the queue of unanswered frames; the peer may send anything at any time. */
module Client {
  import opened Detection

  const MAX_WINDOW := 5
  const MAX_FRAME_ID := 0xFFFF_FFFF
  const MAX_RAW_EDGE := 1920
  const MAX_JPEG_BYTES := 4 * 1024 * 1024
  const MAX_GRPC_RESPONSE_BYTES := MAX_JPEG_BYTES + 512 * 1024

  // ---- Frames and responses ----------------------------------------------------------------------

  type Bytes = seq<int>

  datatype Frame = Frame(data: Bytes, timestamp: int, id: int, mosaicOk: bool, mode: string,
                         width: int, height: int, pixFmt: string)

  /** What the caller's iterator yields; it may yield something that is no frame. */
  datatype Item = Good(frame: Frame) | Other

  datatype Face = Face(className: string, whitelisted: bool, anonymized: bool)

  /** One server message; `status` is stripped and case-folded. */
  datatype Response = Response(size: int, id: int, timestamp: int, status: string, data: Bytes, mosaicJpeg: Bytes,
                               errorCode: string, errorMessage: string, faces: seq<Face>, width: int, height: int)

  predicate IsJpeg(data: Bytes) {
    && 0 < |data| <= MAX_JPEG_BYTES
    && [0xFF, 0xD8] <= data && data[|data| - 2..] == [0xFF, 0xD9]
  }

  predicate RawEdge(value: int) {
    32 <= value <= MAX_RAW_EDGE && value % 2 == 0
  }

  predicate IsRaw(data: Bytes, width: int, height: int, pixFmt: string) {
    pixFmt == "yuv420p" && RawEdge(width) && RawEdge(height) && |data| == width * height * 3 / 2
  }

  predicate KnownMode(mode: string) {
    mode == "blur" || mode == "face_swap" || mode == "face_metadata"
  }

  function ValidateFrame(item: Item, lastId: int): Result<Frame> {
    if item.Other? then Err("TypeError")
    else
      var f := item.frame;
      if f.pixFmt != "" && !IsRaw(f.data, f.width, f.height, f.pixFmt) then Err("ValueError")
      else if f.pixFmt == "" && (f.width != 0 || f.height != 0 || !IsJpeg(f.data)) then Err("ValueError")
      else if !(-0x8000_0000_0000_0000 <= f.timestamp < 0x8000_0000_0000_0000) then Err("ValueError")
      else if !(0 <= f.id <= MAX_FRAME_ID) || f.id <= lastId then Err("ValueError")
      else if !f.mosaicOk then Err("TypeError")
      else if !KnownMode(f.mode) then Err("ValueError")
      else Ok(f)
  }

  predicate ReportsError(status: string) {
    status == "error" || "error:" <= status || "failed" <= status
  }

  predicate Unreported(face: Face) {
    (face.className == "" || face.className == "face") && !face.whitelisted && !face.anonymized
  }

  function ValidateResponse(source: Frame, r: Response, raiseErrors: bool): Result<()> {
    if r.size > MAX_GRPC_RESPONSE_BYTES then Err("VideoProtocolError")
    else if r.id != source.id || r.timestamp != source.timestamp then Err("VideoProtocolError")
    else if r.status != "success" && !ReportsError(r.status) then Err("VideoProtocolError")
    else if r.status != "success" then
      if r.data != [] || r.mosaicJpeg != [] then Err("VideoProtocolError")
      else if raiseErrors then Err("VideoFrameError") else Ok(())
    else if r.errorCode != "" || r.errorMessage != "" then Err("VideoProtocolError")
    else if r.mosaicJpeg != [] then Err("VideoProtocolError")
    else if source.mode != "blur" && exists i :: 0 <= i < |r.faces| && Unreported(r.faces[i]) then
      Err("VideoProtocolError")
    else if source.pixFmt != ""
      && ((r.width, r.height) != (source.width, source.height) || !IsRaw(r.data, r.width, r.height, source.pixFmt)) then
      Err("VideoProtocolError")
    else if source.pixFmt == "" && !IsJpeg(r.data) then Err("VideoProtocolError")
    else Ok(())
  }

  // ---- The stream as a transition system ---------------------------------------------------------

  /** Waiting for a slot, for the next frame (slot in hand), for a write, for the half-close; done. */
  datatype Writer = Acquiring | Pulling | Writing | Closing | Finished | WriterFailed(message: string)

  /** Waiting for a response, suspended at a yield, waiting for the writer at end of stream; done. */
  datatype Reader = Reading | Yielding | Ending | Completed | Broken(message: string)

  datatype Reply = Eof | RpcError | Message(response: Response)

  datatype Match = Match(source: Frame, response: Response)

  /** One call: the source's items, whether it then ends or raises, and the options. */
  datatype Call = Call(items: seq<Item>, ends: bool, window: nat, raiseErrors: bool)

  datatype State = State(slots: nat, pending: seq<Frame>, taken: nat, lastId: int, exhausted: bool,
                         writer: Writer, observed: bool, reader: Reader, results: seq<Match>)

  datatype Event = SlotTaken | Pulled | Written(ok: bool) | HalfClosed(ok: bool)
                 | Woke(reply: Option<Reply>) | Resumed | WriterSeen | Abandoned

  predicate WriterDone(s: State) {
    s.writer.Finished? || s.writer.WriterFailed?
  }

  predicate Over(s: State) {
    s.reader.Completed? || s.reader.Broken?
  }

  function Start(c: Call): State {
    State(c.window, [], 0, -1, false, Acquiring, false, Reading, [])
  }

  predicate Enabled(s: State, e: Event) {
    && !Over(s)
    && match e
       case SlotTaken => s.writer.Acquiring? && s.slots > 0
       case Pulled => s.writer.Pulling?
       case Written(_) => s.writer.Writing?
       case HalfClosed(_) => s.writer.Closing?
       case Woke(reply) => s.reader.Reading? && (reply.Some? || (WriterDone(s) && !s.observed))
       case Resumed => s.reader.Yielding?
       case WriterSeen => s.reader.Ending? && WriterDone(s)
       case Abandoned => true
  }

  /** The stream fails: the queue of unanswered frames is dropped. */
  function Break(s: State, message: string): State {
    s.(reader := Broken(message), pending := [])
  }

  function AfterPull(c: Call, s: State): State {
    if s.taken < |c.items| then
      match ValidateFrame(c.items[s.taken], s.lastId)
      case Err(message) => s.(slots := s.slots + 1, writer := WriterFailed(message))
      case Ok(f) => s.(pending := s.pending + [f], taken := s.taken + 1, lastId := f.id, writer := Writing)
    else if c.ends then s.(slots := s.slots + 1, exhausted := true, writer := Closing)
    else s.(slots := s.slots + 1, writer := WriterFailed("source"))
  }

  function AfterMessage(c: Call, s: State, r: Response): State {
    if s.pending == [] then Break(s, "unknown or duplicate frame")
    else
      match ValidateResponse(s.pending[0], r, c.raiseErrors)
      case Err(message) => Break(s, message)
      case Ok(_) => s.(pending := s.pending[1..], slots := s.slots + 1, reader := Yielding,
                       results := s.results + [Match(s.pending[0], r)])
  }

  function AtEnd(s: State): State {
    if s.pending != [] then Break(s, "ended with frames unresolved") else s.(reader := Completed)
  }

  function AfterReply(c: Call, s: State, reply: Reply): State {
    match reply
    case RpcError => Break(s, "VideoRpcError")
    case Message(r) => AfterMessage(c, s, r)
    case Eof =>
      if !s.exhausted then Break(s, "ended before the request source completed")
      else if !s.observed then s.(reader := Ending)
      else AtEnd(s)
  }

  /** The reader looks at the writer; it raises the writer's error. */
  function Observe(s: State): State {
    if WriterDone(s) && !s.observed then
      if s.writer.WriterFailed? then Break(s.(observed := true), s.writer.message) else s.(observed := true)
    else s
  }

  function Apply(c: Call, s: State, e: Event): State
    requires Enabled(s, e)
  {
    match e
    case SlotTaken => s.(slots := s.slots - 1, writer := Pulling)
    case Pulled => AfterPull(c, s)
    case Written(ok) => s.(writer := if ok then Acquiring else WriterFailed("write"))
    case HalfClosed(ok) => s.(writer := if ok then Finished else WriterFailed("half-close"))
    case Woke(reply) =>
      var seen := Observe(s);
      if Over(seen) || reply.None? then seen else AfterReply(c, seen, reply.value)
    case Resumed => s.(reader := Reading)
    case WriterSeen =>
      var seen := Observe(s);
      if Over(seen) then seen else AtEnd(seen)
    case Abandoned => Break(s, "abandoned")
  }

  ghost predicate Run(c: Call, states: seq<State>, events: seq<Event>) {
    && |states| == |events| + 1
    && states[0] == Start(c)
    && forall i {:trigger events[i]} :: 0 <= i < |events| ==>
      Enabled(states[i], events[i]) && states[i + 1] == Apply(c, states[i], events[i])
  }

  // ---- What every step keeps -----------------------------------------------------------------------

  /** The slot in the writer's hand: taken, but no frame queued for it yet. */
  function InHand(w: Writer): nat {
    if w.Pulling? then 1 else 0
  }

  /** A frame the protocol allows: a JPEG with its start and end markers, or packed YUV 4:2:0 pixels of the
      stated even size; a 64-bit timestamp and a 32-bit ID. */
  ghost predicate WellFormed(f: Frame) {
    && (if f.pixFmt == "" then
          var n := |f.data|;
          && f.width == 0 == f.height && 2 <= n <= 4_194_304
          && f.data[0] == 255 && f.data[1] == 216 && f.data[n - 2] == 255 && f.data[n - 1] == 217
        else
          && f.pixFmt == "yuv420p" && 32 <= f.width <= 1920 && 32 <= f.height <= 1920
          && f.width % 2 == 0 == f.height % 2 && 2 * |f.data| == 3 * (f.width * f.height))
    && -9_223_372_036_854_775_808 <= f.timestamp <= 9_223_372_036_854_775_807
    && 0 <= f.id < 4_294_967_296
    && f.mosaicOk && f.mode in {"blur", "face_swap", "face_metadata"}
  }

  /** Frame number i of the source was accepted by the writer. */
  ghost predicate Accepted(c: Call, i: nat, f: Frame) {
    i < |c.items| && c.items[i] == Good(f) && WellFormed(f)
  }

  ghost predicate Matched(c: Call, i: nat, m: Match) {
    Accepted(c, i, m.source) && ValidateResponse(m.source, m.response, c.raiseErrors).Ok?
  }

  ghost predicate Window(c: Call, s: State) {
    s.slots + |s.pending| + InHand(s.writer) == c.window
  }

  /** Answered and unanswered frames are the first `taken` of the source, in order. */
  ghost predicate Queued(c: Call, s: State) {
    && |s.results| + |s.pending| == s.taken
    && forall i :: 0 <= i < |s.pending| ==> Accepted(c, |s.results| + i, s.pending[i])
  }

  ghost predicate Answered(c: Call, s: State) {
    && |s.results| <= s.taken
    && forall i :: 0 <= i < |s.results| ==> Matched(c, i, s.results[i])
  }

  /** The accepted frames carry strictly increasing IDs. */
  ghost predicate Rising(c: Call, s: State) {
    && s.taken <= |c.items|
    && (forall i :: 0 <= i < s.taken ==> c.items[i].Good? && WellFormed(c.items[i].frame))
    && (forall i, j :: 0 <= i < j < s.taken ==>
        c.items[i].Good? && c.items[j].Good? && c.items[i].frame.id < c.items[j].frame.id)
    && (s.taken > 0 ==> c.items[s.taken - 1].Good? && c.items[s.taken - 1].frame.id == s.lastId)
  }

  ghost predicate Progress(c: Call, s: State) {
    && (s.exhausted ==> c.ends && s.taken == |c.items|)
    && (s.writer.Closing? || s.writer.Finished? ==> s.exhausted)
    && (s.writer.Acquiring? || s.writer.Pulling? || s.writer.Writing? ==> !s.exhausted)
    && (s.observed && !s.reader.Broken? ==> s.writer.Finished?)
    && (s.reader.Ending? ==> s.exhausted)
    && (s.reader.Completed? || s.reader.Broken? ==> s.pending == [])
    && (s.reader.Completed? ==> s.observed)
  }

  ghost predicate Inv(c: Call, s: State) {
    && Answered(c, s) && Rising(c, s) && Progress(c, s)
    && (!s.reader.Broken? ==> Window(c, s) && Queued(c, s))
  }

  lemma EvenProduct(width: int, height: int)
    requires width % 2 == 0
    ensures (width * height * 3) % 2 == 0
  {
    var half := width / 2;
    assert width * height * 3 == 2 * (half * height * 3);
  }

  /** The writer takes a frame exactly when it is well-formed and its ID is above the last one. */
  lemma FrameAcceptedExactly(item: Item, lastId: int)
    ensures ValidateFrame(item, lastId).Ok? <==> item.Good? && WellFormed(item.frame) && lastId < item.frame.id
    ensures ValidateFrame(item, lastId).Ok? ==> item == Good(ValidateFrame(item, lastId).value)
  {
    if item.Good? && item.frame.width % 2 == 0 {
      EvenProduct(item.frame.width, item.frame.height);
    }
  }

  lemma PullKeepsRising(c: Call, s: State)
    requires Rising(c, s) && s.taken < |c.items| && ValidateFrame(c.items[s.taken], s.lastId).Ok?
    ensures var f := c.items[s.taken].frame;
            Accepted(c, s.taken, f) && Rising(c, s.(taken := s.taken + 1, lastId := f.id))
  {
    FrameAcceptedExactly(c.items[s.taken], s.lastId);
    hide ValidateFrame, WellFormed;
    var f := c.items[s.taken].frame;
    forall i | 0 <= i < s.taken ensures c.items[i].Good? && c.items[i].frame.id < f.id {
      if i < s.taken - 1 {
        assert c.items[i].frame.id < c.items[s.taken - 1].frame.id;
      }
    }
  }

  /** What depends only on the frames and results. */
  lemma SameFrames(c: Call, s: State, t: State)
    requires t.results == s.results && t.taken == s.taken && t.lastId == s.lastId
    ensures Answered(c, s) ==> Answered(c, t)
    ensures Rising(c, s) ==> Rising(c, t)
    ensures t.pending == s.pending && Queued(c, s) ==> Queued(c, t)
  {
    hide WellFormed, ValidateResponse;
  }

  lemma PulledKeepsInv(c: Call, s: State)
    requires Inv(c, s) && Enabled(s, Pulled)
    ensures Inv(c, Apply(c, s, Pulled))
  {
    var t := Apply(c, s, Pulled);
    hide WellFormed, ValidateFrame, ValidateResponse;
    if s.taken < |c.items| && ValidateFrame(c.items[s.taken], s.lastId).Ok? {
      PullKeepsRising(c, s);
      var f := c.items[s.taken].frame;
      SameFrames(c, s.(taken := s.taken + 1, lastId := f.id), t);
      hide Rising;
    } else {
      SameFrames(c, s, t);
      hide Answered, Rising, Queued;
    }
  }

  lemma WriterStepKeepsInv(c: Call, s: State, e: Event)
    requires Inv(c, s) && Enabled(s, e) && (e.SlotTaken? || e.Pulled? || e.Written? || e.HalfClosed?)
    ensures Inv(c, Apply(c, s, e))
  {
    if e.Pulled? {
      PulledKeepsInv(c, s);
    } else {
      SameFrames(c, s, Apply(c, s, e));
      hide Answered, Rising, Queued, AfterPull;
    }
  }

  lemma MessageKeepsInv(c: Call, s: State, r: Response)
    requires Inv(c, s) && s.reader.Reading?
    ensures Inv(c, AfterMessage(c, s, r))
  {
    hide WellFormed, ValidateFrame, ValidateResponse;
    var s' := AfterMessage(c, s, r);
    if s'.reader.Yielding? {
      assert Accepted(c, |s.results|, s.pending[0]);
      forall i | 0 <= i < |s'.pending| ensures Accepted(c, |s'.results| + i, s'.pending[i]) {
        assert s'.pending[i] == s.pending[i + 1];
      }
    }
  }

  lemma ReaderStepKeepsInv(c: Call, s: State, e: Event)
    requires Inv(c, s) && Enabled(s, e) && (e.Resumed? || e.WriterSeen? || e.Abandoned?)
    ensures Inv(c, Apply(c, s, e))
  {
    hide WellFormed, ValidateFrame, ValidateResponse;
  }

  /** Looking at the writer keeps the invariant; it may end the stream with the writer's error. */
  lemma ObserveKeepsInv(c: Call, s: State)
    requires Inv(c, s) && s.reader.Reading?
    ensures Inv(c, Observe(s)) && (Over(Observe(s)) || Observe(s).reader.Reading?)
  {
    hide WellFormed, ValidateFrame, ValidateResponse, Window, Queued, Answered, Rising;
    ObserveKeepsQueue(c, s);
  }

  lemma ObserveKeepsQueue(c: Call, s: State)
    requires s.reader.Reading?
    ensures Answered(c, s) ==> Answered(c, Observe(s))
    ensures Rising(c, s) ==> Rising(c, Observe(s))
    ensures !Observe(s).reader.Broken? && Window(c, s) ==> Window(c, Observe(s))
    ensures !Observe(s).reader.Broken? && Queued(c, s) ==> Queued(c, Observe(s))
  {
    hide WellFormed, ValidateFrame, ValidateResponse;
  }

  lemma EndKeepsInv(c: Call, s: State)
    requires Inv(c, s) && s.reader.Reading?
    ensures Inv(c, AfterReply(c, s, Eof)) && Inv(c, AfterReply(c, s, RpcError))
  {
    SameFrames(c, s, AfterReply(c, s, Eof));
    SameFrames(c, s, AfterReply(c, s, RpcError));
    hide Answered, Rising, Queued;
  }

  lemma WakeKeepsInv(c: Call, s: State, reply: Option<Reply>)
    requires Inv(c, s) && Enabled(s, Woke(reply))
    ensures Inv(c, Apply(c, s, Woke(reply)))
  {
    var seen := Observe(s);
    ObserveKeepsInv(c, s);
    hide Inv, Observe, AfterReply;
    if !Over(seen) && reply.Some? {
      ReplyKeepsInv(c, seen, reply.value);
    }
  }

  lemma ReplyKeepsInv(c: Call, s: State, reply: Reply)
    requires Inv(c, s) && s.reader.Reading?
    ensures Inv(c, AfterReply(c, s, reply))
  {
    if reply.Message? {
      MessageKeepsInv(c, s, reply.response);
    } else {
      EndKeepsInv(c, s);
    }
    hide Inv, AfterMessage;
  }

  lemma WakeOnMessage(c: Call, s: State, r: Response)
    requires Enabled(s, Woke(Some(Message(r)))) && !Over(Observe(s))
    ensures Apply(c, s, Woke(Some(Message(r)))) == AfterMessage(c, Observe(s), r)
  {
    hide AfterMessage, Observe;
  }

  lemma StepKeepsInv(c: Call, s: State, e: Event)
    requires Inv(c, s) && Enabled(s, e)
    ensures Inv(c, Apply(c, s, e))
  {
    hide Inv, Apply, Enabled;
    match e
    case Woke(reply) => WakeKeepsInv(c, s, reply);
    case Resumed => ReaderStepKeepsInv(c, s, e);
    case WriterSeen => ReaderStepKeepsInv(c, s, e);
    case Abandoned => ReaderStepKeepsInv(c, s, e);
    case _ => WriterStepKeepsInv(c, s, e);
  }

  lemma {:induction false} RunKeepsInv(c: Call, states: seq<State>, events: seq<Event>, k: nat)
    requires Run(c, states, events) && k < |states|
    ensures Inv(c, states[k])
  {
    if k > 0 {
      RunKeepsInv(c, states, events, k - 1);
      var e := events[k - 1];
      StepKeepsInv(c, states[k - 1], e);
    }
  }

  // ---- Main results ----------------------------------------------------------------------------------

  /** Whatever the source yields, every frame that is written is well-formed and the IDs rise: the queue and
      the results only ever hold the source's first frames. */
  lemma OnlyWellFormedFramesAreSent(c: Call, states: seq<State>, events: seq<Event>, k: nat)
    requires Run(c, states, events) && k < |states|
    ensures states[k].taken <= |c.items|
    ensures forall i :: 0 <= i < states[k].taken ==> c.items[i].Good? && WellFormed(c.items[i].frame)
    ensures forall i, j :: 0 <= i < j < states[k].taken ==>
              c.items[i].Good? && c.items[j].Good? && c.items[i].frame.id < c.items[j].frame.id
    ensures !states[k].reader.Broken? ==>
              |states[k].results| + |states[k].pending| == states[k].taken
              && forall i :: 0 <= i < |states[k].pending| ==>
                   c.items[|states[k].results| + i] == Good(states[k].pending[i])
  {
    RunKeepsInv(c, states, events, k);
    hide WellFormed;
    var s := states[k];
    if !s.reader.Broken? {
      forall i | 0 <= i < |s.pending| ensures c.items[|s.results| + i] == Good(s.pending[i]) {
        assert Accepted(c, |s.results| + i, s.pending[i]);
      }
    }
  }

  /** The writer queues the next item exactly when it is a well-formed frame with a higher ID. Otherwise it
      gives its slot back and ends: for the half-close after the last item, with an error else. */
  lemma PulledExactly(c: Call, s: State)
    requires Inv(c, s) && Enabled(s, Pulled)
    ensures var t := Apply(c, s, Pulled);
            if s.taken == |c.items| then
              t == s.(slots := s.slots + 1, exhausted := c.ends, writer := t.writer)
              && (if c.ends then t.writer.Closing? else t.writer.WriterFailed?)
            else
              var item := c.items[s.taken];
              if item.Good? && WellFormed(item.frame) && s.lastId < item.frame.id then
                t == s.(pending := s.pending + [item.frame], taken := s.taken + 1, lastId := item.frame.id,
                        writer := Writing)
              else t == s.(slots := s.slots + 1, writer := t.writer) && t.writer.WriterFailed?
  {
    if s.taken < |c.items| {
      FrameAcceptedExactly(c.items[s.taken], s.lastId);
    }
    hide WellFormed, ValidateFrame, Window, Queued, Answered;
  }

  /** At every point of a stream that has not failed, free slots, unanswered frames and the slot in the
      writer's hand add up to the window; a writer out of slots is owed a full window of responses. */
  lemma WindowIsConserved(c: Call, states: seq<State>, events: seq<Event>, k: nat)
    requires Run(c, states, events) && k < |states| && !states[k].reader.Broken?
    ensures states[k].slots + |states[k].pending| + InHand(states[k].writer) == c.window
    ensures states[k].writer.Acquiring? && states[k].slots == 0 ==> |states[k].pending| == c.window
  {
    RunKeepsInv(c, states, events, k);
  }

  /** Against any peer, even on a stream that fails, the results are the source's first frames in
      order, each with the response that carries its ID and timestamp. */
  lemma ResultsAreInOrder(c: Call, states: seq<State>, events: seq<Event>, k: nat)
    requires Run(c, states, events) && k < |states|
    ensures |states[k].results| <= |c.items|
    ensures forall i :: 0 <= i < |states[k].results| ==>
              var m := states[k].results[i];
              c.items[i] == Good(m.source) && m.response.id == m.source.id && m.response.timestamp == m.source.timestamp
    ensures forall i, j :: 0 <= i < j < |states[k].results| ==>
            states[k].results[i].response.id < states[k].results[j].response.id
  {
    RunKeepsInv(c, states, events, k);
    var s := states[k];
    forall i | 0 <= i < |s.results|
      ensures c.items[i] == Good(s.results[i].source)
      ensures s.results[i].response.id == s.results[i].source.id
              && s.results[i].response.timestamp == s.results[i].source.timestamp
    {
      assert Matched(c, i, s.results[i]);
    }
    forall i, j | 0 <= i < j < |s.results| ensures s.results[i].response.id < s.results[j].response.id {
      assert c.items[i].frame.id < c.items[j].frame.id;
    }
  }

  /** Normal completion: the source ended, the writer half-closed, and every frame has its result. */
  lemma CompletionIsTotal(c: Call, states: seq<State>, events: seq<Event>, k: nat)
    requires Run(c, states, events) && k < |states| && states[k].reader.Completed?
    ensures c.ends && states[k].writer.Finished? && |states[k].results| == |c.items|
    ensures forall i :: 0 <= i < |c.items| ==> c.items[i] == Good(states[k].results[i].source)
  {
    RunKeepsInv(c, states, events, k);
    var s := states[k];
    forall i | 0 <= i < |c.items| ensures c.items[i] == Good(s.results[i].source) {
      assert Matched(c, i, s.results[i]);
    }
  }

  predicate Failing(e: Event) {
    e == Written(false) || e == HalfClosed(false) || e == Woke(Some(RpcError)) || e == Abandoned
  }

  lemma FailureStep(c: Call, s: State, e: Event)
    requires Enabled(s, e) && (Failing(e) || s.writer.WriterFailed?)
    ensures var t := Apply(c, s, e);
            && (e == Abandoned || e == Woke(Some(RpcError)) ==> t.reader.Broken?)
            && (t.reader.Broken? || t.writer.WriterFailed?)
  {
    hide ValidateFrame, ValidateResponse;
  }

  /** Once a write or the half-close has failed, the call has ended with an error status or the consumer has
      left, the stream can only fail; a stream that has failed owes nothing any more. */
  lemma {:induction false} FailureIsFinal(c: Call, states: seq<State>, events: seq<Event>, i: nat, k: nat)
    requires Run(c, states, events) && i < k < |states| && Failing(events[i])
    ensures !states[k].reader.Completed? && (states[k].reader.Broken? || states[k].writer.WriterFailed?)
    ensures states[k].reader.Broken? ==> states[k].pending == []
  {
    if i + 1 < k {
      FailureIsFinal(c, states, events, i, k - 1);
    }
    RunKeepsInv(c, states, events, k);
    BrokenIsEmpty(c, states[k]);
    var e := events[k - 1];
    hide Apply, Inv;
    FailureStep(c, states[k - 1], e);
  }

  lemma BrokenIsEmpty(c: Call, s: State)
    requires Inv(c, s)
    ensures s.reader.Broken? ==> s.pending == []
  {
  }

  function Resumes(events: seq<Event>): nat {
    if events == [] then 0 else Resumes(events[..|events| - 1]) + if events[|events| - 1] == Resumed then 1 else 0
  }

  /** Results taken from the stream by a consumer that has come back. */
  function Consumed(s: State): int {
    |s.results| - if s.reader.Yielding? then 1 else 0
  }

  /** Results are handed over one at a time: the reader takes no message before the consumer comes back. */
  lemma {:induction false} ResultsTakeTurns(c: Call, states: seq<State>, events: seq<Event>, k: nat)
    requires Run(c, states, events) && k < |states| && !states[k].reader.Broken?
    ensures Consumed(states[k]) == Resumes(events[..k])
  {
    if k > 0 {
      var e := events[k - 1];
      TurnStep(c, states[k - 1], e);
      assert events[..k][..k - 1] == events[..k - 1];
      hide Apply, Inv, Consumed;
      ResultsTakeTurns(c, states, events, k - 1);
    }
  }

  lemma TurnStep(c: Call, s: State, e: Event)
    requires Enabled(s, e) && !Apply(c, s, e).reader.Broken?
    ensures !s.reader.Broken?
    ensures Consumed(Apply(c, s, e)) == Consumed(s) + if e == Resumed then 1 else 0
  {
    hide Observe, AfterReply, AfterPull, AtEnd;
    match e
    case Woke(reply) => TurnWoke(c, s, reply);
    case Pulled => PullTurn(c, s);
    case WriterSeen => TurnEnd(s);
    case _ =>
  }

  lemma PullTurn(c: Call, s: State)
    ensures AfterPull(c, s).results == s.results && AfterPull(c, s).reader == s.reader
  {
    hide ValidateFrame;
  }

  lemma TurnEnd(s: State)
    requires s.reader.Ending?
    ensures Observe(s).results == s.results && (Observe(s).reader.Broken? || Observe(s).reader.Ending?)
    ensures AtEnd(Observe(s)).results == s.results && !AtEnd(Observe(s)).reader.Yielding?
  {
  }

  lemma TurnWoke(c: Call, s: State, reply: Option<Reply>)
    requires Enabled(s, Woke(reply)) && !Apply(c, s, Woke(reply)).reader.Broken?
    ensures Consumed(Apply(c, s, Woke(reply))) == Consumed(s)
  {
    hide AfterMessage, Observe;
    ObserveTurn(s);
    if reply.Some? && reply.value.Message? && !Over(Observe(s)) {
      TurnMessage(c, Observe(s), reply.value.response);
    }
  }

  lemma ObserveTurn(s: State)
    ensures Observe(s).results == s.results
    ensures Observe(s).reader.Broken? || Observe(s).reader == s.reader
  {
  }

  lemma TurnMessage(c: Call, s: State, r: Response)
    requires s.reader.Reading? && !AfterMessage(c, s, r).reader.Broken?
    ensures Consumed(AfterMessage(c, s, r)) == Consumed(s)
  {
    hide ValidateResponse;
  }

  /** An end of stream completes the call exactly when the source is exhausted, the writer has finished
      and nothing is unanswered; while the writer is still half-closing the reader waits for it. */
  lemma EndOfStreamIsExact(c: Call, s: State)
    requires Inv(c, s) && s.reader.Reading?
    ensures Apply(c, s, Woke(Some(Eof))).reader.Completed? <==> s.exhausted && s.writer.Finished? && s.pending == []
    ensures Apply(c, s, Woke(Some(Eof))).reader.Ending? <==> s.exhausted && s.writer.Closing?
  {
    hide Answered, Rising, Queued, Window;
  }

  /** A whole processed image in the source's own format, reporting every unapproved face as anonymised
      when the source asked for more than blur. */
  predicate Processed(source: Frame, r: Response) {
    && r.status == "success" && r.errorCode == "" && r.errorMessage == "" && r.mosaicJpeg == []
    && (if source.pixFmt == "" then IsJpeg(r.data)
        else (r.width == source.width && r.height == source.height
              && IsRaw(r.data, source.width, source.height, source.pixFmt)))
    && (source.mode != "blur" ==>
          forall i :: 0 <= i < |r.faces| && r.faces[i].className in {"", "face"} ==>
            r.faces[i].whitelisted || r.faces[i].anonymized)
  }

  predicate StartsWith(text: string, prefix: string) {
    |prefix| <= |text| && forall i :: 0 <= i < |prefix| ==> text[i] == prefix[i]
  }

  /** An error reply without pixels. */
  predicate ErrorOnly(r: Response) {
    && (r.status == "error" || StartsWith(r.status, "error:") || StartsWith(r.status, "failed"))
    && r.data == [] && r.mosaicJpeg == []
  }

  lemma ErrorStatus(status: string)
    ensures ReportsError(status) <==> status == "error" || StartsWith(status, "error:") || StartsWith(status, "failed")
    ensures ReportsError(status) ==> status != "success"
  {
    assert "success"[0] == 's' && "error:"[0] == 'e' && "failed"[0] == 'f';
  }

  lemma UnreportedFace(r: Response)
    ensures (exists i :: 0 <= i < |r.faces| && Unreported(r.faces[i])) <==>
            !forall i :: 0 <= i < |r.faces| && r.faces[i].className in {"", "face"} ==>
              r.faces[i].whitelisted || r.faces[i].anonymized
  {
    if exists i :: 0 <= i < |r.faces| && Unreported(r.faces[i]) {
      var i :| 0 <= i < |r.faces| && Unreported(r.faces[i]);
      assert r.faces[i].className in {"", "face"};
    } else {
      forall i | 0 <= i < |r.faces| && r.faces[i].className in {"", "face"}
        ensures r.faces[i].whitelisted || r.faces[i].anonymized
      {
        assert !Unreported(r.faces[i]);
      }
    }
  }

  lemma AcceptedResponses(source: Frame, r: Response, raiseErrors: bool)
    ensures ValidateResponse(source, r, raiseErrors).Ok? <==>
            && r.size <= MAX_GRPC_RESPONSE_BYTES && r.id == source.id && r.timestamp == source.timestamp
            && (Processed(source, r) || (!raiseErrors && ErrorOnly(r)))
  {
    ErrorStatus(r.status);
    UnreportedFace(r);
    hide IsJpeg, IsRaw, ReportsError, Unreported;
  }

  /** Whatever the peer sends and however the stream ends, nothing unprocessed reaches the consumer: every
      result is a whole processed image, or, only when the caller asked for error replies, one of those
      without any pixels. */
  lemma NothingUnprocessedIsDelivered(c: Call, states: seq<State>, events: seq<Event>, k: nat)
    requires Run(c, states, events) && k < |states|
    ensures |states[k].results| <= |c.items|
    ensures forall i :: 0 <= i < |states[k].results| ==>
              var m := states[k].results[i];
              c.items[i] == Good(m.source)
                && (Processed(m.source, m.response) || (!c.raiseErrors && ErrorOnly(m.response)))
  {
    RunKeepsInv(c, states, events, k);
    var s := states[k];
    forall i | 0 <= i < |s.results|
      ensures c.items[i] == Good(s.results[i].source)
      ensures Processed(s.results[i].source, s.results[i].response)
              || (!c.raiseErrors && ErrorOnly(s.results[i].response))
    {
      assert Matched(c, i, s.results[i]);
      hide ValidateResponse, Processed, ErrorOnly;
      AcceptedResponses(s.results[i].source, s.results[i].response, c.raiseErrors);
    }
  }

  /** A result is delivered exactly when the oldest unanswered frame gets such a response; any other message
      ends the stream. */
  lemma DeliveredExactly(c: Call, s: State, r: Response)
    requires Inv(c, s) && s.reader.Reading? && !s.writer.WriterFailed?
    ensures var after := Apply(c, s, Woke(Some(Message(r))));
            if s.pending != [] && r.size <= MAX_GRPC_RESPONSE_BYTES
               && r.id == s.pending[0].id && r.timestamp == s.pending[0].timestamp
               && (Processed(s.pending[0], r) || (!c.raiseErrors && ErrorOnly(r)))
            then after.results == s.results + [Match(s.pending[0], r)] && after.reader.Yielding?
            else after.results == s.results && after.reader.Broken?
  {
    if s.pending != [] {
      AcceptedResponses(s.pending[0], r, c.raiseErrors);
    }
    WakeOnMessage(c, s, r);
    hide WellFormed, ValidateFrame, ValidateResponse, Processed, ErrorOnly, Inv;
  }

  // ---- The client ----------------------------------------------------------------------------------

  /** One open call. The methods are the code the writer and the reader run between suspensions. */
  class VideoStream {
    const call: Call
    var slots: nat
    var pending: seq<Frame>
    var taken: nat
    var lastFrameId: int
    var sourceExhausted: bool
    var writer: Writer
    var writerObserved: bool
    var reader: Reader
    var results: seq<Match>

    ghost function Abstract(): State
      reads this
    {
      State(slots, pending, taken, lastFrameId, sourceExhausted, writer, writerObserved, reader, results)
    }

    constructor (call: Call)
      requires 1 <= call.window <= MAX_WINDOW
      ensures this.call == call && Abstract() == Start(call) && Inv(call, Abstract())
    {
      this.call := call;
      slots, pending, taken, lastFrameId, sourceExhausted := call.window, [], 0, -1, false;
      writer, writerObserved, reader, results := Acquiring, false, Reading, [];
    }

    /** The writer's loop from the moment it holds a slot to the moment it waits for the write. */
    method PullFrame()
      requires Inv(call, Abstract()) && Enabled(Abstract(), Pulled)
      modifies this
      ensures Abstract() == Apply(call, old(Abstract()), Pulled) && Inv(call, Abstract())
    {
      StepKeepsInv(call, Abstract(), Pulled);
      hide WellFormed, ValidateFrame, ValidateResponse, Inv;
      if taken >= |call.items| {
        slots := slots + 1;
        if call.ends {
          sourceExhausted := true;
          writer := Closing;
        } else {
          writer := WriterFailed("source");
        }
        return;
      }
      var validated := ValidateFrame(call.items[taken], lastFrameId);
      if validated.Err? {
        slots := slots + 1;
        writer := WriterFailed(validated.message);
        return;
      }
      lastFrameId := validated.value.id;
      pending := pending + [validated.value];
      taken := taken + 1;
      writer := Writing;
    }

    method AcquireSlot()
      requires Inv(call, Abstract()) && Enabled(Abstract(), SlotTaken)
      modifies this
      ensures Abstract() == Apply(call, old(Abstract()), SlotTaken) && Inv(call, Abstract())
    {
      StepKeepsInv(call, Abstract(), SlotTaken);
      slots := slots - 1;
      writer := Pulling;
    }

    method Fail(message: string)
      modifies this`reader, this`pending
      ensures Abstract() == Break(old(Abstract()), message)
    {
      reader := Broken(message);
      pending := [];
    }

    /** The reader's loop body: look at the writer first, then at the reply. */
    method Wake(reply: Option<Reply>)
      requires Inv(call, Abstract()) && Enabled(Abstract(), Woke(reply))
      modifies this
      ensures Abstract() == Apply(call, old(Abstract()), Woke(reply)) && Inv(call, Abstract())
    {
      StepKeepsInv(call, Abstract(), Woke(reply));
      hide WellFormed, ValidateFrame, ValidateResponse, Inv;
      if (writer.Finished? || writer.WriterFailed?) && !writerObserved {
        writerObserved := true;
        if writer.WriterFailed? {
          Fail(writer.message);
          return;
        }
      }
      if reply.None? {
        return;
      }
      match reply.value
      case RpcError => Fail("VideoRpcError");
      case Eof =>
        if !sourceExhausted {
          Fail("ended before the request source completed");
        } else if !writerObserved {
          reader := Ending;
        } else {
          FinishStream();
        }
      case Message(response) => TakeResponse(response);
    }

    method FinishStream()
      modifies this`reader, this`pending
      ensures Abstract() == AtEnd(old(Abstract()))
    {
      if pending != [] {
        Fail("ended with frames unresolved");
      } else {
        reader := Completed;
      }
    }

    /** Pairs a response with the oldest unanswered frame, frees its slot and yields the result. */
    method TakeResponse(response: Response)
      modifies this
      ensures Abstract() == AfterMessage(call, old(Abstract()), response)
    {
      hide ValidateResponse;
      if pending == [] {
        Fail("unknown or duplicate frame");
        return;
      }
      var source := pending[0];
      pending := pending[1..];
      var checked := ValidateResponse(source, response, call.raiseErrors);
      if checked.Err? {
        Fail(checked.message);
        return;
      }
      slots := slots + 1;
      results := results + [Match(source, response)];
      reader := Yielding;
    }

    method WriterEnded()
      requires Inv(call, Abstract()) && Enabled(Abstract(), WriterSeen)
      modifies this
      ensures Abstract() == Apply(call, old(Abstract()), WriterSeen) && Inv(call, Abstract())
    {
      StepKeepsInv(call, Abstract(), WriterSeen);
      hide WellFormed, ValidateFrame, ValidateResponse;
      writerObserved := true;
      if writer.WriterFailed? {
        Fail(writer.message);
        return;
      }
      FinishStream();
    }
  }
}
