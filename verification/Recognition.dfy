/** Per-track approval of one stream (service/recognition.py, StreamRecognition). Each stage of
    `process` is a function of the state; the class below performs them with the source's loops. */
module Recognition {
  import opened Detection

  // ---- Data ----------------------------------------------------------------------------------

  type Embedding = seq<real>

  datatype Entry = Entry(id: string, embedding: Embedding)

  datatype Snapshot = Snapshot(entries: seq<Entry>, version: int) {

    function Ids(): set<string> {
      set entry | entry in entries :: entry.id
    }
  }

  /** Limits, and the two vector operations the decisions rest on: `normalize` fails on empty,
      non-finite or zero vectors. */
  datatype Config = Config(threshold: real, revalidateFrames: nat, quickRetryFrames: nat, quickRetryLimit: nat,
                           missingFrames: nat, maxPending: nat, timeout: real,
                           normalize: Embedding -> Option<Embedding>, similarity: (Embedding, Embedding) -> real)

  datatype Token = Token(trackId: int, generation: nat, frame: int, version: int)

  datatype Status = Unknown | InFlight | Whitelisted | NonWhitelisted

  datatype Decision = Decision(generation: nat, status: Status, lastSeen: int, lastChecked: int, version: int,
                               pendingToken: Option<Token>, quickRetries: nat, matched: Option<string>)

  /** A submitted face: its future, the entries it will be compared with, and the time. */
  datatype Submission = Submission(future: int, entries: seq<Entry>, at: real)

  datatype State = State(tracks: map<int, Decision>, nextGeneration: nat, pending: map<Token, Submission>)

  /** How a finished future ended. */
  datatype Outcome = Vector(embedding: Embedding) | Failed

  /** A detected object of one frame, with the answers it will get when it is submitted: whether
      its box gives a crop, the runtime's future (None when its queue is full), and the clock. */
  datatype Object = Object(trackId: Option<int>, kind: Label, held: bool, crop: bool, future: Option<int>, clock: real)

  /** One call of process(). `finished` are the futures done by then. */
  datatype Frame = Frame(now: real, finished: map<int, Outcome>, snapshot: Snapshot, sequence: int,
                         live: Option<set<int>>, objects: seq<Object>, ready: bool)

  const NEW := State(map[], 0, map[])

  // ---- Results -------------------------------------------------------------------------------

  function RequireFresh(track: Decision): Decision {
    track.(status := Unknown, matched := None, lastChecked := -1)
  }

  function Candidates(entries: seq<Entry>, ids: set<string>): seq<Entry> {
    if entries == [] then []
    else if entries[0].id in ids then [entries[0]] + Candidates(entries[1..], ids)
    else Candidates(entries[1..], ids)
  }

  /** max() by similarity: the first of the best. */
  function Best(cfg: Config, e: Embedding, candidates: seq<Entry>): (best: Entry)
    requires candidates != []
    ensures best in candidates
    ensures forall c :: c in candidates ==> cfg.similarity(e, c.embedding) <= cfg.similarity(e, best.embedding)
  {
    if |candidates| == 1 then candidates[0]
    else
      var rest := Best(cfg, e, candidates[1..]);
      if cfg.similarity(e, candidates[0].embedding) >= cfg.similarity(e, rest.embedding) then candidates[0] else rest
  }

  lemma {:induction false} BestIsFirst(cfg: Config, e: Embedding, candidates: seq<Entry>) returns (i: nat)
    requires candidates != []
    ensures i < |candidates| && Best(cfg, e, candidates) == candidates[i]
    ensures forall j :: 0 <= j < i ==>
              cfg.similarity(e, candidates[j].embedding) < cfg.similarity(e, candidates[i].embedding)
  {
    i := 0;
    if candidates[0] != Best(cfg, e, candidates) {
      var k := BestIsFirst(cfg, e, candidates[1..]);
      i := k + 1;
    }
  }

  /** The entry a finished result approves, if any. */
  function Match(cfg: Config, submission: Submission, outcome: Outcome, ids: set<string>): Option<Entry> {
    if outcome.Failed? || cfg.normalize(outcome.embedding).None? then None
    else
      var candidates := Candidates(submission.entries, ids);
      if candidates == [] then None
      else
        var best := Best(cfg, cfg.normalize(outcome.embedding).value, candidates);
        if cfg.similarity(cfg.normalize(outcome.embedding).value, best.embedding) >= cfg.threshold then Some(best)
        else None
  }

  function ApplyResult(cfg: Config, track: Decision, submission: Submission, outcome: Outcome,
                       ids: set<string>): Decision
  {
    if outcome.Failed? || cfg.normalize(outcome.embedding).None? then track.(status := Unknown, matched := None)
    else
      var candidates := Candidates(submission.entries, ids);
      if candidates == [] then track.(status := NonWhitelisted, matched := None)
      else
        var e := cfg.normalize(outcome.embedding).value;
        var best := Best(cfg, e, candidates);
        if cfg.similarity(e, best.embedding) >= cfg.threshold
        then track.(status := Whitelisted, quickRetries := 0, matched := Some(best.id))
        else track.(status := NonWhitelisted, matched := None)
  }

  lemma CandidatesAre(entries: seq<Entry>, ids: set<string>)
    ensures forall c :: c in Candidates(entries, ids) <==> c in entries && c.id in ids
  {
  }

  /** A result approves exactly when some surviving entry is similar enough. */
  lemma MatchIsAboveThreshold(cfg: Config, submission: Submission, outcome: Outcome, ids: set<string>)
    ensures Match(cfg, submission, outcome, ids).Some? <==>
              outcome.Vector? && cfg.normalize(outcome.embedding).Some?
              && exists c :: c in submission.entries && c.id in ids
                             && cfg.similarity(cfg.normalize(outcome.embedding).value, c.embedding) >= cfg.threshold
    ensures Match(cfg, submission, outcome, ids).Some? ==>
              Match(cfg, submission, outcome, ids).value in submission.entries
                && Match(cfg, submission, outcome, ids).value.id in ids
  {
    CandidatesAre(submission.entries, ids);
    if outcome.Vector? && cfg.normalize(outcome.embedding).Some? {
      var candidates := Candidates(submission.entries, ids);
      if candidates != [] {
        var best := Best(cfg, cfg.normalize(outcome.embedding).value, candidates);
        assert best in candidates;
      }
    }
  }

  // ---- Stages --------------------------------------------------------------------------------

  /** The track whose outstanding request is `token`. */
  predicate Owns(track: Decision, id: int, token: Token) {
    track.pendingToken == Some(token) && token.trackId == id && token.generation == track.generation
  }

  predicate Expired(cfg: Config, submission: Submission, now: real) {
    now - submission.at >= cfg.timeout
  }

  function ExpireTrack(cfg: Config, s: State, now: real, id: int, track: Decision): Decision {
    if track.pendingToken.Some? && track.pendingToken.value in s.pending && Owns(track, id, track.pendingToken.value)
       && Expired(cfg, s.pending[track.pendingToken.value], now)
    then RequireFresh(track.(pendingToken := None)) else track
  }

  /** _expire_pending. */
  function Expire(cfg: Config, s: State, now: real): State {
    s.(tracks := map id | id in s.tracks :: ExpireTrack(cfg, s, now, id, s.tracks[id]),
       pending := map t | t in s.pending && !Expired(cfg, s.pending[t], now) :: s.pending[t])
  }

  function CompleteTrack(cfg: Config, s: State, finished: map<int, Outcome>, ids: set<string>, id: int,
                         track: Decision): Decision
  {
    if track.pendingToken.Some? && track.pendingToken.value in s.pending && Owns(track, id, track.pendingToken.value)
       && s.pending[track.pendingToken.value].future in finished
    then
      var token := track.pendingToken.value;
      ApplyResult(cfg, track.(pendingToken := None, lastChecked := token.frame, version := token.version),
                  s.pending[token], finished[s.pending[token].future], ids)
    else track
  }

  /** _apply_completed: a result reaches only the incarnation that asked for it. */
  function Complete(cfg: Config, s: State, finished: map<int, Outcome>, ids: set<string>): State {
    s.(tracks := map id | id in s.tracks :: CompleteTrack(cfg, s, finished, ids, id, s.tracks[id]),
       pending := map t | t in s.pending && s.pending[t].future !in finished :: s.pending[t])
  }

  function InvalidateTrack(ids: set<string>, track: Decision): Decision {
    if track.matched.None? || track.matched.value in ids then track
    else track.(matched := None, status := if track.status == Whitelisted then Unknown else track.status)
  }

  /** _invalidate_removed_matches. */
  function Invalidate(s: State, ids: set<string>): State {
    s.(tracks := map id | id in s.tracks :: InvalidateTrack(ids, s.tracks[id]))
  }

  function CurrentIds(objects: seq<Object>): set<int> {
    set o | o in objects && o.trackId.Some? :: o.trackId.value
  }

  predicate Keeps(cfg: Config, frame: Frame, id: int, track: Decision) {
    || id in CurrentIds(frame.objects)
    || (if track.status == Whitelisted && frame.live.Some? then id in frame.live.value
        else frame.sequence - track.lastSeen <= cfg.missingFrames)
  }

  /** _retire_missing. */
  function Retire(cfg: Config, s: State, frame: Frame): State {
    s.(tracks := map id | id in s.tracks && Keeps(cfg, frame, id, s.tracks[id]) :: s.tracks[id])
  }

  function Touch(s: State, id: int, sequence: int): State {
    if id in s.tracks then s.(tracks := s.tracks[id := s.tracks[id].(lastSeen := sequence)])
    else s.(tracks := s.tracks[id := Decision(s.nextGeneration, Unknown, sequence, -1, 0, None, 0, None)],
            nextGeneration := s.nextGeneration + 1)
  }

  /** Every current ID gets a state; new ones get fresh generations, in iteration order. */
  function TouchAll(s: State, order: seq<int>, sequence: int): State
    decreases |order|
  {
    if order == [] then s else TouchAll(Touch(s, order[0], sequence), order[1..], sequence)
  }

  predicate Eligible(cfg: Config, track: Decision, version: int, sequence: int) {
    track.status != Whitelisted && track.pendingToken.None?
    && (track.lastChecked < 0 || track.version != version
        || sequence - track.lastChecked >=
             (if track.status in {Unknown, NonWhitelisted} && track.quickRetries < cfg.quickRetryLimit
              then cfg.quickRetryFrames else cfg.revalidateFrames))
  }

  /** _schedule for one face object. */
  function Schedule(cfg: Config, s: State, o: Object, snapshot: Snapshot, sequence: int): State {
    if o.trackId.None? || o.trackId.value !in s.tracks then s
    else
      var id := o.trackId.value;
      var track := s.tracks[id];
      if !Eligible(cfg, track, snapshot.version, sequence) then s
      else if o.held || |s.pending| >= cfg.maxPending || !o.crop || o.future.None? then
        s.(tracks := s.tracks[id := RequireFresh(track)])
      else
        var retries := if track.version != snapshot.version then 0
                       else if track.lastChecked >= 0 && track.status in {Unknown, NonWhitelisted}
                         && track.quickRetries < cfg.quickRetryLimit
                       then track.quickRetries + 1 else track.quickRetries;
        var token := Token(id, track.generation, sequence, snapshot.version);
        s.(tracks := s.tracks[id := track.(status := InFlight, pendingToken := Some(token), quickRetries := retries)],
           pending := s.pending[token := Submission(o.future.value, snapshot.entries, o.clock)])
  }

  function ScheduleAll(cfg: Config, s: State, objects: seq<Object>, snapshot: Snapshot, sequence: int): State
    decreases |objects|
  {
    if objects == [] then s
    else ScheduleAll(cfg, if objects[0].kind.IsFace() then Schedule(cfg, s, objects[0], snapshot, sequence) else s,
                     objects[1..], snapshot, sequence)
  }

  /** The object may leave the frame unblurred. */
  predicate Allowed(s: State, o: Object, ids: set<string>) {
    o.kind.IsFace() && o.trackId.Some? && o.trackId.value in s.tracks
    && s.tracks[o.trackId.value].status == Whitelisted
    && s.tracks[o.trackId.value].matched.Some? && s.tracks[o.trackId.value].matched.value in ids
  }

  /** Everything before scheduling. */
  function Settle(cfg: Config, s: State, frame: Frame): State {
    Retire(cfg, Invalidate(Complete(cfg, Expire(cfg, s, frame.now), frame.finished, frame.snapshot.Ids()),
                           frame.snapshot.Ids()), frame)
  }

  /** `order` enumerates the current track IDs. */
  ghost predicate Enumerates(order: seq<int>, frame: Frame) {
    forall id :: id in order <==> id in CurrentIds(frame.objects)
  }

  function Process(cfg: Config, s: State, frame: Frame, order: seq<int>): State {
    var touched := TouchAll(Settle(cfg, s, frame), order, frame.sequence);
    if frame.snapshot.entries != [] && frame.ready
    then ScheduleAll(cfg, touched, frame.objects, frame.snapshot, frame.sequence) else touched
  }

  // ---- Invariant -----------------------------------------------------------------------------

  ghost predicate TrackOk(s: State, id: int, track: Decision) {
    && (track.status == InFlight <==> track.pendingToken.Some?)
    && (track.pendingToken.Some? ==> track.pendingToken.value in s.pending && Owns(track, id, track.pendingToken.value))
    && (track.status == Whitelisted <==> track.matched.Some?)
    && track.generation < s.nextGeneration
  }

  ghost predicate Inv(cfg: Config, s: State) {
    && (forall id :: id in s.tracks ==> TrackOk(s, id, s.tracks[id]))
    && (forall a, b :: a in s.tracks && b in s.tracks && s.tracks[a].generation == s.tracks[b].generation ==> a == b)
    && |s.pending| <= cfg.maxPending
  }

  /** A request belongs to at most one track. */
  lemma TokenHasOneOwner(cfg: Config, s: State, a: int, b: int, token: Token)
    requires Inv(cfg, s) && a in s.tracks && b in s.tracks
    requires s.tracks[a].pendingToken == Some(token) && s.tracks[b].pendingToken == Some(token)
    ensures a == b
  {
  }

  lemma FewerPending(a: map<Token, Submission>, b: map<Token, Submission>)
    requires forall t :: t in a ==> t in b
    ensures |a| <= |b|
  {
    assert a.Keys <= b.Keys;
    SubsetSize(a.Keys, b.Keys);
  }

  lemma SubsetSize(a: set<Token>, b: set<Token>)
    requires a <= b
    ensures |a| <= |b|
  {
    if a != {} {
      var x :| x in a;
      SubsetSize(a - {x}, b - {x});
    }
  }

  lemma ExpireKeepsInv(cfg: Config, s: State, now: real)
    requires Inv(cfg, s)
    ensures Inv(cfg, Expire(cfg, s, now))
  {
    FewerPending(Expire(cfg, s, now).pending, s.pending);
  }

  lemma CompleteKeepsInv(cfg: Config, s: State, finished: map<int, Outcome>, ids: set<string>)
    requires Inv(cfg, s)
    ensures Inv(cfg, Complete(cfg, s, finished, ids))
  {
    var t := Complete(cfg, s, finished, ids);
    FewerPending(t.pending, s.pending);
    forall id | id in t.tracks
      ensures TrackOk(t, id, t.tracks[id]) && t.tracks[id].generation == s.tracks[id].generation
    {
      assert TrackOk(s, id, s.tracks[id]);
      CompletedTrackOk(cfg, s, finished, ids, id);
    }
    hide Complete, CompleteTrack, ApplyResult;
  }

  lemma CompletedTrackOk(cfg: Config, s: State, finished: map<int, Outcome>, ids: set<string>, id: int)
    requires id in s.tracks && TrackOk(s, id, s.tracks[id])
    ensures var t := Complete(cfg, s, finished, ids);
            TrackOk(t, id, t.tracks[id]) && t.tracks[id].generation == s.tracks[id].generation
  {
    hide Candidates, Best;
  }

  lemma InvalidateKeepsInv(cfg: Config, s: State, ids: set<string>)
    requires Inv(cfg, s)
    ensures Inv(cfg, Invalidate(s, ids))
  {
  }

  lemma RetireKeepsInv(cfg: Config, s: State, frame: Frame)
    requires Inv(cfg, s)
    ensures Inv(cfg, Retire(cfg, s, frame))
  {
    hide CurrentIds;
  }

  lemma {:induction false} TouchKeepsInv(cfg: Config, s: State, order: seq<int>, sequence: int)
    requires Inv(cfg, s)
    ensures Inv(cfg, TouchAll(s, order, sequence))
    decreases |order|
  {
    if order != [] {
      var t := Touch(s, order[0], sequence);
      assert Inv(cfg, t);
      hide Inv, Touch;
      TouchKeepsInv(cfg, t, order[1..], sequence);
    }
  }

  lemma ScheduleKeepsInv(cfg: Config, s: State, o: Object, snapshot: Snapshot, sequence: int)
    requires Inv(cfg, s)
    ensures Inv(cfg, Schedule(cfg, s, o, snapshot, sequence))
  {
    if o.trackId.Some? && o.trackId.value in s.tracks {
      var id := o.trackId.value;
      EligibleIsIdle(cfg, s.tracks[id], snapshot.version, sequence);
      hide Eligible;
      var t := Schedule(cfg, s, o, snapshot, sequence);
      forall x | x in t.tracks ensures TrackOk(t, x, t.tracks[x]) {
        assert x in s.tracks && TrackOk(s, x, s.tracks[x]);
      }
      assert |t.pending| <= |s.pending| + 1;
    }
  }

  lemma EligibleIsIdle(cfg: Config, track: Decision, version: int, sequence: int)
    ensures Eligible(cfg, track, version, sequence) ==> track.status != Whitelisted && track.pendingToken.None?
  {
  }

  lemma {:induction false} ScheduleAllKeepsInv(cfg: Config, s: State, objects: seq<Object>, snapshot: Snapshot,
                                               sequence: int)
    requires Inv(cfg, s)
    ensures Inv(cfg, ScheduleAll(cfg, s, objects, snapshot, sequence))
    decreases |objects|
  {
    if objects != [] {
      ScheduleKeepsInv(cfg, s, objects[0], snapshot, sequence);
      hide Inv, Schedule;
      ScheduleAllKeepsInv(cfg, if objects[0].kind.IsFace() then Schedule(cfg, s, objects[0], snapshot, sequence) else s,
                          objects[1..], snapshot, sequence);
    }
  }

  lemma SettleKeepsInv(cfg: Config, s: State, frame: Frame)
    requires Inv(cfg, s)
    ensures Inv(cfg, Settle(cfg, s, frame))
  {
    hide Inv, Expire, Complete, Invalidate, Retire;
    var ids := frame.snapshot.Ids();
    ExpireKeepsInv(cfg, s, frame.now);
    CompleteKeepsInv(cfg, Expire(cfg, s, frame.now), frame.finished, ids);
    InvalidateKeepsInv(cfg, Complete(cfg, Expire(cfg, s, frame.now), frame.finished, ids), ids);
    RetireKeepsInv(cfg, Invalidate(Complete(cfg, Expire(cfg, s, frame.now), frame.finished, ids), ids), frame);
  }

  /** Every frame keeps the invariant. */
  lemma ProcessKeepsInv(cfg: Config, s: State, frame: Frame, order: seq<int>)
    requires Inv(cfg, s)
    ensures Inv(cfg, Process(cfg, s, frame, order))
  {
    hide Inv, Settle, TouchAll, ScheduleAll;
    SettleKeepsInv(cfg, s, frame);
    TouchKeepsInv(cfg, Settle(cfg, s, frame), order, frame.sequence);
    ScheduleAllKeepsInv(cfg, TouchAll(Settle(cfg, s, frame), order, frame.sequence), frame.objects, frame.snapshot,
                        frame.sequence);
  }

  // ---- Where approvals come from ---------------------------------------------------------------

  /** Track `id` of incarnation `generation` is approved by entry `entry`. */
  predicate ApprovedBy(s: State, id: int, generation: nat, entry: string) {
    id in s.tracks && s.tracks[id].status == Whitelisted && s.tracks[id].matched == Some(entry)
    && s.tracks[id].generation == generation
  }

  /** In this frame a request of that incarnation completed, in time, with a best match among the
      current entries that reaches the threshold: `entry`. */
  ghost predicate Approves(cfg: Config, s: State, frame: Frame, id: int, generation: nat, entry: string) {
    exists token :: token in s.pending && ApprovesFor(cfg, s, frame, id, generation, entry, token)
  }

  ghost predicate ApprovesFor(cfg: Config, s: State, frame: Frame, id: int, generation: nat, entry: string,
                              token: Token)
    requires token in s.pending
  {
    && token.trackId == id && token.generation == generation
    && frame.now - s.pending[token].at < cfg.timeout && s.pending[token].future in frame.finished
    && exists c :: Matches(cfg, s.pending[token], frame, c) && c.id == entry
  }

  /** `c` is among the best of the submitted entries still listed, and similar enough. */
  ghost predicate Matches(cfg: Config, submission: Submission, frame: Frame, c: Entry)
    requires submission.future in frame.finished
  {
    && Similar(cfg, submission, frame, c)
    && var e := cfg.normalize(frame.finished[submission.future].embedding).value;
       forall d :: d in submission.entries && d.id in frame.snapshot.Ids() ==>
         cfg.similarity(e, d.embedding) <= cfg.similarity(e, c.embedding)
  }

  /** `c` was submitted, is still listed, and the result reaches the threshold for it. */
  ghost predicate Similar(cfg: Config, submission: Submission, frame: Frame, c: Entry)
    requires submission.future in frame.finished
  {
    && c in submission.entries && c.id in frame.snapshot.Ids()
    && var outcome := frame.finished[submission.future];
       outcome.Vector? && cfg.normalize(outcome.embedding).Some?
       && cfg.similarity(cfg.normalize(outcome.embedding).value, c.embedding) >= cfg.threshold
  }

  lemma MatchIsBest(cfg: Config, submission: Submission, frame: Frame)
    requires submission.future in frame.finished
    ensures var found := Match(cfg, submission, frame.finished[submission.future], frame.snapshot.Ids());
            && (found.Some? ==> Matches(cfg, submission, frame, found.value))
            && (found.None? ==> forall c :: !Similar(cfg, submission, frame, c))
  {
    CandidatesAre(submission.entries, frame.snapshot.Ids());
  }

  lemma ResultStatus(cfg: Config, track: Decision, submission: Submission, outcome: Outcome, ids: set<string>)
    ensures var after := ApplyResult(cfg, track, submission, outcome, ids);
            && after.generation == track.generation
            && (after.status == Whitelisted <==> Match(cfg, submission, outcome, ids).Some?)
            && (after.status == Whitelisted ==> after.matched == Some(Match(cfg, submission, outcome, ids).value.id))
  {
    hide Candidates, Best;
  }

  lemma CompleteWhitelisted(cfg: Config, s: State, frame: Frame, id: int)
    requires Inv(cfg, s) && id in s.tracks
    requires Complete(cfg, Expire(cfg, s, frame.now), frame.finished, frame.snapshot.Ids()).tracks[id].status
             == Whitelisted
    ensures var after := Complete(cfg, Expire(cfg, s, frame.now), frame.finished, frame.snapshot.Ids()).tracks[id];
            && after.generation == s.tracks[id].generation && after.matched.Some?
            && (s.tracks[id] == after || Approves(cfg, s, frame, id, after.generation, after.matched.value))
  {
    var e := Expire(cfg, s, frame.now);
    var ids := frame.snapshot.Ids();
    assert TrackOk(s, id, s.tracks[id]);
    var track := e.tracks[id];
    if track.pendingToken.Some? && track.pendingToken.value in e.pending {
      var token := track.pendingToken.value;
      if e.pending[token].future in frame.finished {
        ResultStatus(cfg, track.(pendingToken := None, lastChecked := token.frame, version := token.version),
                     e.pending[token], frame.finished[e.pending[token].future], ids);
        assert token in s.pending && s.pending[token] == e.pending[token];
        MatchIsBest(cfg, s.pending[token], frame);
      }
    }
    hide ApplyResult, Match, Matches, Similar;
  }

  /** After settling, an approved track was approved before or is approved by a result now. */
  lemma SettleWhitelisted(cfg: Config, s: State, frame: Frame, id: int, generation: nat, entry: string)
    requires Inv(cfg, s) && ApprovedBy(Settle(cfg, s, frame), id, generation, entry)
    ensures entry in frame.snapshot.Ids()
    ensures ApprovedBy(s, id, generation, entry) || Approves(cfg, s, frame, id, generation, entry)
  {
    var ids := frame.snapshot.Ids();
    var c := Complete(cfg, Expire(cfg, s, frame.now), frame.finished, ids);
    assert id in s.tracks && id in c.tracks;
    assert Invalidate(c, ids).tracks[id] == InvalidateTrack(ids, c.tracks[id]);
    assert Settle(cfg, s, frame).tracks[id] == Invalidate(c, ids).tracks[id] by { hide CurrentIds; }
    CompleteWhitelisted(cfg, s, frame, id);
  }

  lemma {:induction false} TouchKeepsApprovals(s: State, order: seq<int>, sequence: int, id: int, generation: nat,
                                               entry: string)
    ensures ApprovedBy(TouchAll(s, order, sequence), id, generation, entry) <==> ApprovedBy(s, id, generation, entry)
    decreases |order|
  {
    if order != [] {
      var t := Touch(s, order[0], sequence);
      assert ApprovedBy(t, id, generation, entry) <==> ApprovedBy(s, id, generation, entry);
      hide Touch, ApprovedBy;
      TouchKeepsApprovals(t, order[1..], sequence, id, generation, entry);
    }
  }

  /** Scheduling neither grants nor withdraws an approval: crops, queue limits and refusals only
      touch tracks that are not approved. */
  lemma ScheduleKeepsApprovals(cfg: Config, s: State, o: Object, snapshot: Snapshot, sequence: int, id: int,
                               generation: nat, entry: string)
    ensures ApprovedBy(Schedule(cfg, s, o, snapshot, sequence), id, generation, entry) <==>
            ApprovedBy(s, id, generation, entry)
  {
  }

  lemma {:induction false} ScheduleAllKeepsApprovals(cfg: Config, s: State, objects: seq<Object>, snapshot: Snapshot,
                                                     sequence: int, id: int, generation: nat, entry: string)
    ensures ApprovedBy(ScheduleAll(cfg, s, objects, snapshot, sequence), id, generation, entry) <==>
            ApprovedBy(s, id, generation, entry)
    decreases |objects|
  {
    if objects != [] {
      ScheduleKeepsApprovals(cfg, s, objects[0], snapshot, sequence, id, generation, entry);
      hide Schedule, ApprovedBy;
      var after := if objects[0].kind.IsFace() then Schedule(cfg, s, objects[0], snapshot, sequence) else s;
      ScheduleAllKeepsApprovals(cfg, after, objects[1..], snapshot, sequence, id, generation, entry);
    }
  }

  /** Only settling decides approvals. */
  lemma ProcessApprovals(cfg: Config, s: State, frame: Frame, order: seq<int>, id: int, generation: nat, entry: string)
    ensures ApprovedBy(Process(cfg, s, frame, order), id, generation, entry) <==>
            ApprovedBy(Settle(cfg, s, frame), id, generation, entry)
  {
    hide Settle, TouchAll, ScheduleAll, ApprovedBy;
    TouchKeepsApprovals(Settle(cfg, s, frame), order, frame.sequence, id, generation, entry);
    ScheduleAllKeepsApprovals(cfg, TouchAll(Settle(cfg, s, frame), order, frame.sequence), frame.objects,
                              frame.snapshot, frame.sequence,
                              id, generation, entry);
  }

  /** An approved track stays approved while its entry stays listed and the tracker keeps its ID,
      whatever else the frame brings. */
  lemma SettleKeepsApproval(cfg: Config, s: State, frame: Frame, id: int, generation: nat, entry: string)
    requires Inv(cfg, s) && ApprovedBy(s, id, generation, entry) && entry in frame.snapshot.Ids()
    requires frame.live.Some? && (id in CurrentIds(frame.objects) || id in frame.live.value)
    ensures ApprovedBy(Settle(cfg, s, frame), id, generation, entry)
  {
    var ids := frame.snapshot.Ids();
    assert TrackOk(s, id, s.tracks[id]);
    var e := Expire(cfg, s, frame.now);
    assert e.tracks[id] == s.tracks[id];
    var c := Complete(cfg, e, frame.finished, ids);
    assert c.tracks[id] == s.tracks[id];
    var i := Invalidate(c, ids);
    assert i.tracks[id] == s.tracks[id];
    hide CurrentIds, Expire, Complete, Invalidate;
  }

  // ---- What one frame decides ------------------------------------------------------------------

  /** Track `id` waits for the request `token`. */
  predicate Waits(s: State, id: int, token: Token) {
    id in s.tracks && s.tracks[id].pendingToken == Some(token) && token in s.pending
  }

  /** Why a track outlives a frame that settles it as `status`. */
  predicate Survives(cfg: Config, frame: Frame, id: int, status: Status, lastSeen: int) {
    id in CurrentIds(frame.objects)
    || (status == Whitelisted && frame.live.Some? && id in frame.live.value)
    || ((status != Whitelisted || frame.live.None?) && frame.sequence <= lastSeen + cfg.missingFrames)
  }

  /** What settling a frame makes of one track before missing tracks go. */
  function SettleTrack(cfg: Config, s: State, frame: Frame, id: int): Decision
    requires id in s.tracks
  {
    var e := Expire(cfg, s, frame.now);
    InvalidateTrack(frame.snapshot.Ids(),
                    CompleteTrack(cfg, e, frame.finished, frame.snapshot.Ids(), id, e.tracks[id]))
  }

  /** Settling treats every track by itself; it survives exactly when it is in view, approved and kept
      by the tracker, or seen at most `missingFrames` frames ago. */
  lemma SettledTracks(cfg: Config, s: State, frame: Frame, id: int)
    ensures id in Settle(cfg, s, frame).tracks <==>
              id in s.tracks
              && var track := SettleTrack(cfg, s, frame, id);
                 Survives(cfg, frame, id, track.status, track.lastSeen)
    ensures id in Settle(cfg, s, frame).tracks ==>
              Settle(cfg, s, frame).tracks[id] == SettleTrack(cfg, s, frame, id)
  {
    hide CompleteTrack, ExpireTrack, InvalidateTrack, CurrentIds;
  }

  /** A face that was compared in vain is known not to be listed; one whose result is unusable is unknown. */
  function Unmatched(cfg: Config, outcome: Outcome): Status {
    if outcome.Failed? || cfg.normalize(outcome.embedding) == None then Unknown else NonWhitelisted
  }

  /** A request younger than the timeout is applied once its future is done: its track is approved by a
      best match if an entry still listed reaches the threshold, and is otherwise checked and unapproved. */
  lemma InTimeResult(cfg: Config, s: State, frame: Frame, id: int, token: Token) returns (found: Option<Entry>)
    requires Inv(cfg, s) && Waits(s, id, token)
    requires frame.now - s.pending[token].at < cfg.timeout && s.pending[token].future in frame.finished
    ensures var track := SettleTrack(cfg, s, frame, id);
            && track.generation == s.tracks[id].generation && track.lastSeen == s.tracks[id].lastSeen
            && track.lastChecked == token.frame && track.version == token.version && track.pendingToken.None?
            && (track.status == Whitelisted <==> found.Some?)
            && (found.Some? ==> Matches(cfg, s.pending[token], frame, found.value)
                                && track.matched == Some(found.value.id) && track.quickRetries == 0)
            && (found.None? ==> track.matched.None? && track.quickRetries == s.tracks[id].quickRetries
                                && track.status == Unmatched(cfg, frame.finished[s.pending[token].future]))
    ensures found.None? ==> forall c :: !Similar(cfg, s.pending[token], frame, c)
  {
    var submission, ids := s.pending[token], frame.snapshot.Ids();
    assert TrackOk(s, id, s.tracks[id]);
    var e := Expire(cfg, s, frame.now);
    assert token in e.pending && e.pending[token] == submission && e.tracks[id] == s.tracks[id];
    found := Match(cfg, submission, frame.finished[submission.future], ids);
    MatchIsBest(cfg, submission, frame);
    hide Matches, Similar, Match, Candidates, Best, Expire;
    ResultFields(cfg, s.tracks[id].(pendingToken := None, lastChecked := token.frame, version := token.version),
                 submission, frame.finished[submission.future], ids);
    if found.Some? {
      MatchIsAboveThreshold(cfg, submission, frame.finished[submission.future], ids);
      assert found.value.id in ids;
    }
    hide ApplyResult;
  }

  lemma ResultFields(cfg: Config, track: Decision, submission: Submission, outcome: Outcome, ids: set<string>)
    ensures var after := ApplyResult(cfg, track, submission, outcome, ids);
            var found := Match(cfg, submission, outcome, ids);
            && after == track.(status := after.status, matched := after.matched, quickRetries := after.quickRetries)
            && (after.status == Whitelisted <==> found.Some?)
            && (found.Some? ==> after.matched == Some(found.value.id) && after.quickRetries == 0)
            && (found.None? ==> after.matched.None? && after.quickRetries == track.quickRetries
                                && after.status == Unmatched(cfg, outcome))
  {
    hide Candidates, Best;
  }

  /** A face answered in time with an embedding close enough to a listed entry is approved in that
      frame, if the track is in view or kept by the tracker. */
  lemma InTimeMatchApproves(cfg: Config, s: State, frame: Frame, order: seq<int>, id: int, token: Token, c: Entry)
    returns (best: Entry)
    requires Inv(cfg, s) && Waits(s, id, token)
    requires frame.now - s.pending[token].at < cfg.timeout && s.pending[token].future in frame.finished
    requires Similar(cfg, s.pending[token], frame, c)
    requires id in CurrentIds(frame.objects) || (frame.live.Some? && id in frame.live.value)
    ensures Matches(cfg, s.pending[token], frame, best)
    ensures ApprovedBy(Process(cfg, s, frame, order), id, s.tracks[id].generation, best.id)
  {
    var found := InTimeResult(cfg, s, frame, id, token);
    best := found.value;
    SettledTracks(cfg, s, frame, id);
    hide Process, Settle, SettleTrack, Matches, Similar, CurrentIds;
    ProcessApprovals(cfg, s, frame, order, id, s.tracks[id].generation, best.id);
  }

  /** A request as old as the timeout is dropped, finished or not: its track is not approved and must be
      checked afresh. */
  lemma LateRequestIsDropped(cfg: Config, s: State, frame: Frame, order: seq<int>, id: int, token: Token,
                             entry: string)
    requires Inv(cfg, s) && Waits(s, id, token) && frame.now - s.pending[token].at >= cfg.timeout
    ensures token !in Settle(cfg, s, frame).pending
    ensures SettleTrack(cfg, s, frame, id)
            == s.tracks[id].(pendingToken := None, status := Unknown, matched := None, lastChecked := -1)
    ensures !ApprovedBy(Process(cfg, s, frame, order), id, s.tracks[id].generation, entry)
  {
    assert TrackOk(s, id, s.tracks[id]);
    assert SettleTrack(cfg, s, frame, id)
        == s.tracks[id].(pendingToken := None, status := Unknown, matched := None, lastChecked := -1);
    SettledTracks(cfg, s, frame, id);
    ProcessApprovals(cfg, s, frame, order, id, s.tracks[id].generation, entry);
    hide SettleTrack, Process, CurrentIds;
  }

  /** Which requests a frame leaves: those younger than the timeout and not done, as they were. */
  lemma SettledRequests(cfg: Config, s: State, frame: Frame, token: Token)
    ensures token in Settle(cfg, s, frame).pending <==>
              token in s.pending && frame.now - s.pending[token].at < cfg.timeout
              && s.pending[token].future !in frame.finished
    ensures token in Settle(cfg, s, frame).pending ==> Settle(cfg, s, frame).pending[token] == s.pending[token]
  {
  }

  /** A request that is neither old nor done leaves its track waiting for it. */
  lemma UnansweredWaits(cfg: Config, s: State, frame: Frame, id: int, token: Token)
    requires Inv(cfg, s) && Waits(s, id, token) && frame.now - s.pending[token].at < cfg.timeout
    requires s.pending[token].future !in frame.finished
    ensures SettleTrack(cfg, s, frame, id) == s.tracks[id]
  {
    assert TrackOk(s, id, s.tracks[id]);
  }

  /** A track that waits for nothing changes only by losing an approval whose entry is gone. */
  lemma IdleTrackSettles(cfg: Config, s: State, frame: Frame, id: int)
    requires Inv(cfg, s) && id in s.tracks && s.tracks[id].pendingToken.None?
    ensures var track := s.tracks[id];
            SettleTrack(cfg, s, frame, id) ==
              if track.status == Whitelisted && track.matched.value !in frame.snapshot.Ids()
              then track.(status := Unknown, matched := None) else track
  {
    assert TrackOk(s, id, s.tracks[id]);
  }

  // ---- When a face is submitted ------------------------------------------------------------------

  /** A track is due when it was never checked, was checked against another whitelist, or its interval
      is over: the short one while quick retries are left. */
  predicate Due(cfg: Config, track: Decision, version: int, sequence: int) {
    || track.lastChecked < 0 || version != track.version
    || (track.quickRetries < cfg.quickRetryLimit && sequence >= track.lastChecked + cfg.quickRetryFrames)
    || (track.quickRetries >= cfg.quickRetryLimit && sequence >= track.lastChecked + cfg.revalidateFrames)
  }

  /** A due face is submitted if it can be, and otherwise waits to be checked afresh. A face that is not
      due, waits already or is approved is left alone. */
  lemma DueFacesAreSubmitted(cfg: Config, s: State, o: Object, snapshot: Snapshot, sequence: int, id: int)
    requires Inv(cfg, s) && o.trackId == Some(id) && id in s.tracks
    ensures var track := s.tracks[id];
            var idle := track.status != Whitelisted && track.pendingToken.None?;
            var token := Token(id, track.generation, sequence, snapshot.version);
            var able := !o.held && o.crop && o.future.Some? && |s.pending| < cfg.maxPending;
            var t := Schedule(cfg, s, o, snapshot, sequence);
            && (idle && Due(cfg, track, snapshot.version, sequence) && able ==>
                  Waits(t, id, token) && t.pending[token] == Submission(o.future.value, snapshot.entries, o.clock)
                  && t.pending - {token} == s.pending - {token} && t.tracks[id].status == InFlight)
            && (idle && Due(cfg, track, snapshot.version, sequence) && !able ==>
                  t.pending == s.pending
                  && t.tracks[id] == track.(status := Unknown, matched := None, lastChecked := -1))
            && (!idle || !Due(cfg, track, snapshot.version, sequence) ==> t == s)
            && t.tracks - {id} == s.tracks - {id} && t.tracks[id].generation == track.generation
  {
    assert TrackOk(s, id, s.tracks[id]);
  }

  /** Each check that comes before the long interval is over uses up one of the quick retries; with none
      left the long interval applies. A changed whitelist gives them all back. */
  lemma EarlyCheckUsesARetry(cfg: Config, s: State, o: Object, snapshot: Snapshot, sequence: int, token: Token)
    requires Inv(cfg, s) && token !in s.pending && token in Schedule(cfg, s, o, snapshot, sequence).pending
    requires s.tracks[token.trackId].lastChecked >= 0
    ensures var track := s.tracks[token.trackId];
            var after := Schedule(cfg, s, o, snapshot, sequence).tracks[token.trackId];
            if track.version != snapshot.version then after.quickRetries == 0
            else
              && (sequence < track.lastChecked + cfg.revalidateFrames ==>
                    after.quickRetries == track.quickRetries + 1 <= cfg.quickRetryLimit)
              && (track.quickRetries >= cfg.quickRetryLimit ==>
                    after.quickRetries == track.quickRetries && sequence >= track.lastChecked + cfg.revalidateFrames)
  {
    assert TrackOk(s, token.trackId, s.tracks[token.trackId]);
  }

  /** The first object of a due track is submitted, whatever the objects before it do, while there is
      room for them all. */
  lemma {:induction false} FirstFaceIsSubmitted(cfg: Config, s: State, objects: seq<Object>, snapshot: Snapshot,
                                                sequence: int, j: nat, id: int)
    requires Inv(cfg, s) && id in s.tracks && j < |objects| && |s.pending| + j < cfg.maxPending
    requires objects[j].kind.IsFace() && objects[j].trackId == Some(id)
    requires !objects[j].held && objects[j].crop && objects[j].future.Some?
    requires forall i :: 0 <= i < j ==> objects[i].trackId != Some(id)
    requires s.tracks[id].status != Whitelisted && s.tracks[id].pendingToken.None?
    requires Due(cfg, s.tracks[id], snapshot.version, sequence)
    ensures var token := Token(id, s.tracks[id].generation, sequence, snapshot.version);
            var t := ScheduleAll(cfg, s, objects, snapshot, sequence);
            Waits(t, id, token)
            && t.pending[token] == Submission(objects[j].future.value, snapshot.entries, objects[j].clock)
    decreases |objects|
  {
    var t := if objects[0].kind.IsFace() then Schedule(cfg, s, objects[0], snapshot, sequence) else s;
    var token := Token(id, s.tracks[id].generation, sequence, snapshot.version);
    ScheduleKeepsInv(cfg, s, objects[0], snapshot, sequence);
    if j == 0 {
      DueFacesAreSubmitted(cfg, s, objects[0], snapshot, sequence, id);
      hide Inv, Schedule, Due, Eligible;
      RequestKept(cfg, t, objects[1..], snapshot, sequence, token);
    } else {
      OthersLeaveTrack(cfg, s, objects[0], snapshot, sequence, id);
      hide Inv, Schedule, Due, Eligible;
      assert forall i :: 0 <= i < j - 1 ==> objects[1..][i] == objects[i + 1];
      FirstFaceIsSubmitted(cfg, t, objects[1..], snapshot, sequence, j - 1, id);
    }
  }

  lemma OthersLeaveTrack(cfg: Config, s: State, o: Object, snapshot: Snapshot, sequence: int, id: int)
    requires id in s.tracks && o.trackId != Some(id)
    ensures var t := Schedule(cfg, s, o, snapshot, sequence);
            id in t.tracks && t.tracks[id] == s.tracks[id] && |t.pending| <= |s.pending| + 1
  {
    hide Eligible;
  }

  lemma {:induction false} RequestKept(cfg: Config, s: State, objects: seq<Object>, snapshot: Snapshot, sequence: int,
                                       token: Token)
    requires Waits(s, token.trackId, token)
    ensures var t := ScheduleAll(cfg, s, objects, snapshot, sequence);
            Waits(t, token.trackId, token) && t.pending[token] == s.pending[token]
    decreases |objects|
  {
    if objects != [] {
      var t := if objects[0].kind.IsFace() then Schedule(cfg, s, objects[0], snapshot, sequence) else s;
      assert Waits(t, token.trackId, token) && t.pending[token] == s.pending[token];
      hide Schedule, Waits;
      RequestKept(cfg, t, objects[1..], snapshot, sequence, token);
    }
  }

  /** Only faces with a crop that are not held are ever submitted, with the entries of the snapshot. */
  lemma {:induction false} RequestsAreOfFaces(cfg: Config, s: State, objects: seq<Object>, snapshot: Snapshot,
                                              sequence: int, token: Token)
    requires token !in s.pending && token in ScheduleAll(cfg, s, objects, snapshot, sequence).pending
    ensures ScheduleAll(cfg, s, objects, snapshot, sequence).pending[token].entries == snapshot.entries
    ensures exists o :: o in objects && o.kind.IsFace() && o.trackId == Some(token.trackId) && o.crop && !o.held
    decreases |objects|
  {
    var t := if objects[0].kind.IsFace() then Schedule(cfg, s, objects[0], snapshot, sequence) else s;
    hide Eligible;
    if token in t.pending {
      assert objects[0].kind.IsFace() && objects[0].trackId == Some(token.trackId);
      assert Waits(t, token.trackId, token) && t.pending[token].entries == snapshot.entries;
      hide Schedule, Waits;
      RequestKept(cfg, t, objects[1..], snapshot, sequence, token);
    } else {
      hide Schedule;
      RequestsAreOfFaces(cfg, t, objects[1..], snapshot, sequence, token);
    }
  }

  /** Every current track ID gets a state seen now: its own, or a fresh incarnation never used before.
      The others are left alone. */
  lemma {:induction false} CurrentIdsAreTracked(s: State, order: seq<int>, sequence: int, id: int)
    ensures var t := TouchAll(s, order, sequence);
            && (id in t.tracks <==> id in s.tracks || id in order)
            && (id in s.tracks ==> t.tracks[id] == if id in order then s.tracks[id].(lastSeen := sequence)
                                                   else s.tracks[id])
            && (id in order && id !in s.tracks ==>
                  s.nextGeneration <= t.tracks[id].generation < t.nextGeneration
                  && t.tracks[id] == Decision(t.tracks[id].generation, Unknown, sequence, -1, 0, None, 0, None))
            && s.nextGeneration <= t.nextGeneration
    decreases |order|
  {
    if order != [] {
      CurrentIdsAreTracked(Touch(s, order[0], sequence), order[1..], sequence, id);
    }
  }

  /** In a frame that can recognise, the first object of a track that is new or due is submitted, with the
      frame's entries, while there is room for the objects before it. */
  lemma FrameSubmitsFace(cfg: Config, s: State, frame: Frame, order: seq<int>, j: nat, id: int)
    returns (token: Token)
    requires Inv(cfg, s) && Enumerates(order, frame) && frame.ready && frame.snapshot.entries != []
    requires j < |frame.objects| && frame.objects[j].kind.IsFace() && frame.objects[j].trackId == Some(id)
    requires !frame.objects[j].held && frame.objects[j].crop && frame.objects[j].future.Some?
    requires forall i :: 0 <= i < j ==> frame.objects[i].trackId != Some(id)
    requires var settled := Settle(cfg, s, frame);
             && |settled.pending| + j < cfg.maxPending
             && (id in settled.tracks ==>
                   settled.tracks[id].status != Whitelisted && settled.tracks[id].pendingToken.None?
                   && Due(cfg, settled.tracks[id], frame.snapshot.version, frame.sequence))
    ensures var t := Process(cfg, s, frame, order);
            && token.trackId == id && token.frame == frame.sequence && token.version == frame.snapshot.version
            && Waits(t, id, token)
            && t.pending[token] == Submission(frame.objects[j].future.value, frame.snapshot.entries,
                                              frame.objects[j].clock)
  {
    var settled := Settle(cfg, s, frame);
    var touched := TouchAll(settled, order, frame.sequence);
    SettleKeepsInv(cfg, s, frame);
    TouchKeepsInv(cfg, settled, order, frame.sequence);
    CurrentIdsAreTracked(settled, order, frame.sequence, id);
    TouchSubmitsNothing(settled, order, frame.sequence);
    assert frame.objects[j] in frame.objects;
    assert id in CurrentIds(frame.objects);
    token := Token(id, touched.tracks[id].generation, frame.sequence, frame.snapshot.version);
    hide Inv, Settle, TouchAll, CurrentIds, ScheduleAll;
    FirstFaceIsSubmitted(cfg, touched, frame.objects, frame.snapshot, frame.sequence, j, id);
  }

  lemma {:induction false} TouchSubmitsNothing(s: State, order: seq<int>, sequence: int)
    ensures TouchAll(s, order, sequence).pending == s.pending
    decreases |order|
  {
    if order != [] {
      TouchSubmitsNothing(Touch(s, order[0], sequence), order[1..], sequence);
    }
  }

  /** A frame without entries to compare with, or before the model is ready, submits nothing. */
  lemma IdleFrameSubmitsNothing(cfg: Config, s: State, frame: Frame, order: seq<int>, token: Token)
    requires token in Process(cfg, s, frame, order).pending && token !in s.pending
    ensures frame.ready && frame.snapshot.entries != []
  {
    TouchSubmitsNothing(Settle(cfg, s, frame), order, frame.sequence);
    SettledRequests(cfg, s, frame, token);
    hide Settle, ScheduleAll;
  }

  // ---- Whole streams -----------------------------------------------------------------------------

  /** The states of one stream over any frames, results, snapshots and iteration orders. */
  ghost predicate Run(cfg: Config, states: seq<State>, frames: seq<Frame>, orders: seq<seq<int>>) {
    && |states| == |frames| + 1 == |orders| + 1 && states[0] == NEW
    && forall i {:trigger frames[i]} :: 0 <= i < |frames| ==>
      Enumerates(orders[i], frames[i]) && states[i + 1] == Process(cfg, states[i], frames[i], orders[i])
  }

  lemma {:induction false} RunKeepsInv(cfg: Config, states: seq<State>, frames: seq<Frame>, orders: seq<seq<int>>,
                                       n: nat)
    requires Run(cfg, states, frames, orders) && n < |states|
    ensures Inv(cfg, states[n])
  {
    if n > 0 {
      RunKeepsInv(cfg, states, frames, orders, n - 1);
      assert frames[n - 1] in frames;
      hide Inv, Process;
      ProcessKeepsInv(cfg, states[n - 1], frames[n - 1], orders[n - 1]);
    }
  }

  /** From frame m, whose completed request approved it, through frame n the incarnation has been
      approved by an entry listed in every snapshot. */
  ghost predicate Evidence(cfg: Config, states: seq<State>, frames: seq<Frame>, m: int, n: int, id: int,
                           generation: nat, entry: string)
    requires |states| == |frames| + 1 && 0 <= m <= n < |frames|
  {
    && Approves(cfg, states[m], frames[m], id, generation, entry)
    && forall k {:trigger frames[k]} :: m <= k <= n ==>
      entry in frames[k].snapshot.Ids() && ApprovedBy(states[k + 1], id, generation, entry)
  }

  lemma {:induction false} ApprovalHasEvidence(cfg: Config, states: seq<State>, frames: seq<Frame>,
                                               orders: seq<seq<int>>, n: nat, id: int, generation: nat, entry: string)
    returns (m: nat)
    requires Run(cfg, states, frames, orders) && n < |frames| && ApprovedBy(states[n + 1], id, generation, entry)
    ensures m <= n && Evidence(cfg, states, frames, m, n, id, generation, entry)
  {
    assert frames[n] in frames;
    RunKeepsInv(cfg, states, frames, orders, n);
    ProcessApprovals(cfg, states[n], frames[n], orders[n], id, generation, entry);
    hide Process, Settle, Inv, Approves;
    SettleWhitelisted(cfg, states[n], frames[n], id, generation, entry);
    if Approves(cfg, states[n], frames[n], id, generation, entry) {
      m := n;
      EvidenceStarts(cfg, states, frames, n, id, generation, entry);
    } else {
      NothingApprovedAtStart(id, generation, entry);
      m := ApprovalHasEvidence(cfg, states, frames, orders, n - 1, id, generation, entry);
      EvidenceExtends(cfg, states, frames, m, n, id, generation, entry);
    }
    hide Evidence;
  }

  lemma EvidenceStarts(cfg: Config, states: seq<State>, frames: seq<Frame>, n: nat, id: int, generation: nat,
                       entry: string)
    requires |states| == |frames| + 1 && n < |frames| && Approves(cfg, states[n], frames[n], id, generation, entry)
    requires entry in frames[n].snapshot.Ids() && ApprovedBy(states[n + 1], id, generation, entry)
    ensures Evidence(cfg, states, frames, n, n, id, generation, entry)
  {
    hide Approves;
  }

  lemma EvidenceExtends(cfg: Config, states: seq<State>, frames: seq<Frame>, m: nat, n: nat, id: int, generation: nat,
                        entry: string)
    requires |states| == |frames| + 1 && m < n < |frames|
             && Evidence(cfg, states, frames, m, n - 1, id, generation, entry)
    requires entry in frames[n].snapshot.Ids() && ApprovedBy(states[n + 1], id, generation, entry)
    ensures Evidence(cfg, states, frames, m, n, id, generation, entry)
  {
    hide Approves, ApprovedBy;
    forall k {:trigger frames[k]} | m <= k <= n
      ensures entry in frames[k].snapshot.Ids() && ApprovedBy(states[k + 1], id, generation, entry)
    {
      if k == n {
      } else {
        assert frames[k] in frames;
      }
    }
  }

  lemma NothingApprovedAtStart(id: int, generation: nat, entry: string)
    ensures !ApprovedBy(NEW, id, generation, entry)
  {
  }

  /** An object may stay visible exactly when it is a face of a track approved by a listed entry. */
  lemma AllowedExactly(s: State, o: Object, ids: set<string>)
    ensures Allowed(s, o, ids) <==>
              o.kind.IsFace() && o.trackId.Some?
              && exists generation, entry :: ApprovedBy(s, o.trackId.value, generation, entry) && entry in ids
  {
    if Allowed(s, o, ids) {
      var track := s.tracks[o.trackId.value];
      assert ApprovedBy(s, o.trackId.value, track.generation, track.matched.value);
    }
  }

  /** Whatever process() leaves unblurred is a face whose present incarnation earlier received a
      completed embedding at or above the threshold for an entry listed in every snapshot since. */
  lemma AllowedMeansApproved(cfg: Config, states: seq<State>, frames: seq<Frame>, orders: seq<seq<int>>, n: nat,
                             o: Object)
    requires Run(cfg, states, frames, orders) && n < |frames|
    requires Allowed(states[n + 1], o, frames[n].snapshot.Ids())
    ensures o.kind.IsFace() && !o.kind.IsPlate()
    ensures var track := states[n + 1].tracks[o.trackId.value];
            exists m :: 0 <= m <= n && Evidence(cfg, states, frames, m, n, o.trackId.value, track.generation,
                                                track.matched.value)
  {
    var track := states[n + 1].tracks[o.trackId.value];
    var m := ApprovalHasEvidence(cfg, states, frames, orders, n, o.trackId.value, track.generation,
                                 track.matched.value);
  }

  /** Approval persists over any stretch of frames in which the entry stays listed and the tracker
      keeps the ID, for any readiness, overflow, timeout, late result or other whitelist change. */
  lemma {:induction false} ApprovalPersists(cfg: Config, states: seq<State>, frames: seq<Frame>, orders: seq<seq<int>>,
                                            m: nat, n: nat, id: int, generation: nat, entry: string)
    requires Run(cfg, states, frames, orders) && m <= n < |states| && ApprovedBy(states[m], id, generation, entry)
    requires forall k {:trigger frames[k]} :: m <= k < n ==>
               && entry in frames[k].snapshot.Ids() && frames[k].live.Some?
               && (id in CurrentIds(frames[k].objects) || id in frames[k].live.value)
    ensures ApprovedBy(states[n], id, generation, entry)
    decreases n - m
  {
    if m < n {
      ApprovalPersists(cfg, states, frames, orders, m, n - 1, id, generation, entry);
      assert frames[n - 1] in frames;
      RunKeepsInv(cfg, states, frames, orders, n - 1);
      hide Process, Settle, Inv, CurrentIds, ApprovedBy;
      SettleKeepsApproval(cfg, states[n - 1], frames[n - 1], id, generation, entry);
      ProcessApprovals(cfg, states[n - 1], frames[n - 1], orders[n - 1], id, generation, entry);
    }
  }

  /** Removing the matched entry withdraws the approval in the same frame. */
  lemma RemovalRevokes(cfg: Config, s: State, frame: Frame, order: seq<int>, id: int, generation: nat, entry: string)
    requires Inv(cfg, s) && entry !in frame.snapshot.Ids()
    ensures !ApprovedBy(Process(cfg, s, frame, order), id, generation, entry)
  {
    ProcessApprovals(cfg, s, frame, order, id, generation, entry);
    hide Process, Settle;
    if ApprovedBy(Settle(cfg, s, frame), id, generation, entry) {
      SettleWhitelisted(cfg, s, frame, id, generation, entry);
    }
  }

  // ---- Incarnations ------------------------------------------------------------------------------

  /** No track carries a generation that was handed out before and is not carried in `s`. */
  ghost predicate OnlyKnown(s: State, t: State) {
    s.nextGeneration <= t.nextGeneration
    && forall id :: id in t.tracks && t.tracks[id].generation < s.nextGeneration ==>
         id in s.tracks && s.tracks[id].generation == t.tracks[id].generation
  }

  lemma SettleOnlyKnown(cfg: Config, s: State, frame: Frame)
    ensures OnlyKnown(s, Settle(cfg, s, frame))
  {
    hide CurrentIds, Candidates, Best, Keeps;
  }

  lemma {:induction false} TouchOnlyKnown(s: State, order: seq<int>, sequence: int)
    ensures OnlyKnown(s, TouchAll(s, order, sequence))
    decreases |order|
  {
    if order != [] {
      TouchOnlyKnown(Touch(s, order[0], sequence), order[1..], sequence);
    }
  }

  lemma {:induction false} ScheduleOnlyKnown(cfg: Config, s: State, objects: seq<Object>, snapshot: Snapshot,
                                             sequence: int)
    ensures OnlyKnown(s, ScheduleAll(cfg, s, objects, snapshot, sequence))
    decreases |objects|
  {
    hide Eligible;
    if objects != [] {
      var t := if objects[0].kind.IsFace() then Schedule(cfg, s, objects[0], snapshot, sequence) else s;
      assert OnlyKnown(s, t);
      ScheduleOnlyKnown(cfg, t, objects[1..], snapshot, sequence);
    }
  }

  lemma OnlyKnownChains(a: State, b: State, c: State)
    requires OnlyKnown(a, b) && OnlyKnown(b, c)
    ensures OnlyKnown(a, c)
  {
  }

  lemma ProcessOnlyKnown(cfg: Config, s: State, frame: Frame, order: seq<int>)
    ensures OnlyKnown(s, Process(cfg, s, frame, order))
  {
    var settled := Settle(cfg, s, frame);
    var touched := TouchAll(settled, order, frame.sequence);
    SettleOnlyKnown(cfg, s, frame);
    TouchOnlyKnown(settled, order, frame.sequence);
    ScheduleOnlyKnown(cfg, touched, frame.objects, frame.snapshot, frame.sequence);
    hide OnlyKnown, Settle, TouchAll, ScheduleAll;
    OnlyKnownChains(s, settled, touched);
    OnlyKnownChains(s, touched, Process(cfg, s, frame, order));
  }

  /** A retired incarnation never comes back: its generation is not carried by any later track, so
      no request made for it can meet its token again. */
  lemma {:induction false} RetiredStaysRetired(cfg: Config, states: seq<State>, frames: seq<Frame>,
                                               orders: seq<seq<int>>, m: nat, n: nat, generation: nat, id: int)
    requires Run(cfg, states, frames, orders) && m <= n < |states| && generation < states[m].nextGeneration
    requires forall x :: x in states[m].tracks ==> states[m].tracks[x].generation != generation
    ensures id in states[n].tracks ==> states[n].tracks[id].generation != generation
  {
    ChainKnown(cfg, states, frames, orders, m, n);
  }

  lemma {:induction false} ChainKnown(cfg: Config, states: seq<State>, frames: seq<Frame>, orders: seq<seq<int>>,
                                      m: nat, n: nat)
    requires Run(cfg, states, frames, orders) && m <= n < |states|
    ensures OnlyKnown(states[m], states[n])
    decreases n - m
  {
    if m < n {
      ChainKnown(cfg, states, frames, orders, m, n - 1);
      assert frames[n - 1] in frames;
      hide OnlyKnown, Process;
      ProcessOnlyKnown(cfg, states[n - 1], frames[n - 1], orders[n - 1]);
      OnlyKnownChains(states[m], states[n - 1], states[n]);
    }
  }

  /** A request that appears in a frame names the incarnation that is current in that frame. */
  lemma {:induction false} RequestsNameTheirTrack(cfg: Config, s: State, objects: seq<Object>, snapshot: Snapshot,
                                                  sequence: int, token: Token)
    requires Inv(cfg, s) && token !in s.pending
    requires token in ScheduleAll(cfg, s, objects, snapshot, sequence).pending
    ensures var t := ScheduleAll(cfg, s, objects, snapshot, sequence);
            && token.trackId in t.tracks && Owns(t.tracks[token.trackId], token.trackId, token)
            && token.trackId in s.tracks && s.tracks[token.trackId].generation == token.generation
            && token.frame == sequence && token.version == snapshot.version
    decreases |objects|
  {
    var t := if objects[0].kind.IsFace() then Schedule(cfg, s, objects[0], snapshot, sequence) else s;
    ScheduleKeepsInv(cfg, s, objects[0], snapshot, sequence);
    hide Inv, Eligible;
    if token !in t.pending {
      RequestsNameTheirTrack(cfg, t, objects[1..], snapshot, sequence, token);
    } else {
      OwnerKept(cfg, t, objects[1..], snapshot, sequence, token);
    }
  }

  lemma {:induction false} OwnerKept(cfg: Config, s: State, objects: seq<Object>, snapshot: Snapshot, sequence: int,
                                     token: Token)
    requires token.trackId in s.tracks && Owns(s.tracks[token.trackId], token.trackId, token)
    ensures var t := ScheduleAll(cfg, s, objects, snapshot, sequence);
            token.trackId in t.tracks && t.tracks[token.trackId] == s.tracks[token.trackId]
    decreases |objects|
  {
    if objects != [] {
      var t := if objects[0].kind.IsFace() then Schedule(cfg, s, objects[0], snapshot, sequence) else s;
      EligibleIsIdle(cfg, s.tracks[token.trackId], snapshot.version, sequence);
      hide Eligible;
      OwnerKept(cfg, t, objects[1..], snapshot, sequence, token);
    }
  }

  // ---- The object --------------------------------------------------------------------------------

  /** Stages performed for some of the requests or tracks only: how far a loop has got. */
  function ExpireSome(cfg: Config, s: State, now: real, some: set<Token>): State {
    s.(tracks := map id | id in s.tracks ::
                   if s.tracks[id].pendingToken.Some? && s.tracks[id].pendingToken.value in some
                   then ExpireTrack(cfg, s, now, id, s.tracks[id]) else s.tracks[id],
       pending := map t | t in s.pending && !(t in some && Expired(cfg, s.pending[t], now)) :: s.pending[t])
  }

  function CompleteSome(cfg: Config, s: State, finished: map<int, Outcome>, ids: set<string>, some: set<Token>): State {
    s.(tracks := map id | id in s.tracks ::
                   if s.tracks[id].pendingToken.Some? && s.tracks[id].pendingToken.value in some
                   then CompleteTrack(cfg, s, finished, ids, id, s.tracks[id]) else s.tracks[id],
       pending := map t | t in s.pending && !(t in some && s.pending[t].future in finished) :: s.pending[t])
  }

  function InvalidateSome(s: State, ids: set<string>, some: set<int>): State {
    s.(tracks := map id | id in s.tracks :: if id in some then InvalidateTrack(ids, s.tracks[id]) else s.tracks[id])
  }

  function RetireSome(cfg: Config, s: State, frame: Frame, some: set<int>): State {
    s.(tracks := map id | id in s.tracks && (id in some ==> Keeps(cfg, frame, id, s.tracks[id])) :: s.tracks[id])
  }

  lemma ExpireOne(cfg: Config, s: State, now: real, some: set<Token>, token: Token)
    requires token in s.pending && token !in some
    ensures var before := ExpireSome(cfg, s, now, some);
            ExpireSome(cfg, s, now, some + {token}) ==
              if !Expired(cfg, s.pending[token], now) then before
              else if token.trackId in before.tracks && Owns(before.tracks[token.trackId], token.trackId, token)
              then before.(pending := before.pending - {token},
                           tracks := before.tracks[token.trackId :=
                             RequireFresh(before.tracks[token.trackId].(pendingToken := None))])
              else before.(pending := before.pending - {token})
  {
  }

  lemma CompleteOne(cfg: Config, s: State, finished: map<int, Outcome>, ids: set<string>, some: set<Token>,
                    token: Token)
    requires token in s.pending && token !in some
    ensures var before := CompleteSome(cfg, s, finished, ids, some);
            CompleteSome(cfg, s, finished, ids, some + {token}) ==
              if s.pending[token].future !in finished then before
              else if token.trackId in before.tracks && Owns(before.tracks[token.trackId], token.trackId, token)
              then before.(pending := before.pending - {token},
                           tracks := before.tracks[token.trackId :=
                             ApplyResult(cfg,
                                         before.tracks[token.trackId].(pendingToken := None, lastChecked := token.frame,
                                                                       version := token.version),
                                         s.pending[token], finished[s.pending[token].future], ids)])
              else before.(pending := before.pending - {token})
  {
    hide ApplyResult;
    var before, after := CompleteSome(cfg, s, finished, ids, some), CompleteSome(cfg, s, finished, ids, some + {token});
    assert after.pending == if s.pending[token].future in finished then before.pending - {token} else before.pending;
    if s.pending[token].future in finished && token.trackId in before.tracks
      && Owns(before.tracks[token.trackId], token.trackId, token) {
      var id := token.trackId;
      StillOwns(cfg, s, finished, ids, some, token);
      assert after.tracks == before.tracks[id := after.tracks[id]];
    } else {
      assert after.tracks == before.tracks;
    }
  }

  lemma ExpireBounds(cfg: Config, s: State, now: real)
    ensures ExpireSome(cfg, s, now, {}) == s
    ensures ExpireSome(cfg, s, now, s.pending.Keys) == Expire(cfg, s, now)
  {
  }

  lemma CompleteBounds(cfg: Config, s: State, finished: map<int, Outcome>, ids: set<string>)
    ensures CompleteSome(cfg, s, finished, ids, {}) == s
    ensures CompleteSome(cfg, s, finished, ids, s.pending.Keys) == Complete(cfg, s, finished, ids)
  {
  }

  lemma OneFewer<T>(all: set<T>, todo: set<T>, x: T)
    requires x in todo && todo <= all
    ensures all - (todo - {x}) == all - todo + {x} && x !in all - todo && todo - {x} <= all
  {
  }

  lemma PendingSome(cfg: Config, s: State, now: real, finished: map<int, Outcome>, ids: set<string>, some: set<Token>,
                    token: Token)
    requires token in s.pending && token !in some
    ensures token in ExpireSome(cfg, s, now, some).pending
            && ExpireSome(cfg, s, now, some).pending[token] == s.pending[token]
    ensures token in CompleteSome(cfg, s, finished, ids, some).pending
            && CompleteSome(cfg, s, finished, ids, some).pending[token] == s.pending[token]
  {
  }

  /** A track that still owns a request has not been touched by the loop. */
  lemma StillOwns(cfg: Config, s: State, finished: map<int, Outcome>, ids: set<string>, some: set<Token>, token: Token)
    requires token !in some && token.trackId in s.tracks
    requires CompleteSome(cfg, s, finished, ids, some).tracks[token.trackId].pendingToken == Some(token)
    ensures CompleteSome(cfg, s, finished, ids, some).tracks[token.trackId] == s.tracks[token.trackId]
  {
    hide Candidates, Best;
  }

  lemma NoTokens(tokens: set<Token>)
    ensures (forall token: Token :: token !in tokens) ==> tokens == {}
  {
    if forall token: Token :: token !in tokens {
      assert tokens == {};
    }
  }

  class StreamRecognition {
    const cfg: Config
    var tracks: map<int, Decision>
    var nextGeneration: nat
    var pending: map<Token, Submission>

    function Now(): State
      reads this
    {
      State(tracks, nextGeneration, pending)
    }

    constructor (cfg: Config)
      ensures this.cfg == cfg && Now() == NEW && Inv(cfg, Now())
    {
      this.cfg := cfg;
      tracks, nextGeneration, pending := map[], 0, map[];
    }

    method ExpirePending(now: real)
      modifies this
      ensures Now() == Expire(cfg, old(Now()), now)
    {
      hide ExpireSome, Expire;
      ghost var s := Now();
      var todo := pending.Keys;
      ExpireBounds(cfg, s, now);
      assert s.pending.Keys - todo == {};
      while todo != {}
        invariant todo <= s.pending.Keys && Now() == ExpireSome(cfg, s, now, s.pending.Keys - todo)
        decreases todo
      {
        NoTokens(todo);
        var token: Token :| token in todo;
        OneFewer(s.pending.Keys, todo, token);
        ExpireOne(cfg, s, now, s.pending.Keys - todo, token);
        PendingSome(cfg, s, now, map[], {}, s.pending.Keys - todo, token);
        todo := todo - {token};
        if Expired(cfg, pending[token], now) {
          pending := pending - {token};
          if token.trackId in tracks && Owns(tracks[token.trackId], token.trackId, token) {
            tracks := tracks[token.trackId := RequireFresh(tracks[token.trackId].(pendingToken := None))];
          }
        }
      }
      assert s.pending.Keys - todo == s.pending.Keys;
    }

    method ApplyCompleted(finished: map<int, Outcome>, ids: set<string>)
      modifies this
      ensures Now() == Complete(cfg, old(Now()), finished, ids)
    {
      hide ApplyResult, CompleteSome, Complete;
      ghost var s := Now();
      var todo := pending.Keys;
      CompleteBounds(cfg, s, finished, ids);
      assert s.pending.Keys - todo == {};
      while todo != {}
        invariant todo <= s.pending.Keys && Now() == CompleteSome(cfg, s, finished, ids, s.pending.Keys - todo)
        decreases todo
      {
        NoTokens(todo);
        var token: Token :| token in todo;
        OneFewer(s.pending.Keys, todo, token);
        CompleteOne(cfg, s, finished, ids, s.pending.Keys - todo, token);
        PendingSome(cfg, s, 0.0, finished, ids, s.pending.Keys - todo, token);
        todo := todo - {token};
        var submission := pending[token];
        if submission.future in finished {
          pending := pending - {token};
          if token.trackId in tracks && Owns(tracks[token.trackId], token.trackId, token) {
            var track := tracks[token.trackId].(pendingToken := None, lastChecked := token.frame,
                                                version := token.version);
            tracks := tracks[token.trackId := ApplyResult(cfg, track, submission, finished[submission.future], ids)];
          }
        }
      }
      assert s.pending.Keys - todo == s.pending.Keys;
    }

    method InvalidateRemovedMatches(ids: set<string>)
      modifies this
      ensures Now() == Invalidate(old(Now()), ids)
    {
      ghost var s := Now();
      var todo := tracks.Keys;
      assert Now() == InvalidateSome(s, ids, {});
      while todo != {}
        invariant todo <= s.tracks.Keys == tracks.Keys && Now() == InvalidateSome(s, ids, s.tracks.Keys - todo)
        decreases todo
      {
        NoIds(todo);
        var id: int :| id in todo;
        todo := todo - {id};
        tracks := tracks[id := InvalidateTrack(ids, tracks[id])];
        assert Now() == InvalidateSome(s, ids, s.tracks.Keys - todo);
      }
      assert InvalidateSome(s, ids, s.tracks.Keys) == Invalidate(s, ids);
      assert s.tracks.Keys - todo == s.tracks.Keys;
    }

    method RetireMissing(frame: Frame)
      modifies this
      ensures Now() == Retire(cfg, old(Now()), frame)
    {
      ghost var s := Now();
      var todo := tracks.Keys;
      assert Now() == RetireSome(cfg, s, frame, {});
      while todo != {}
        invariant todo <= s.tracks.Keys && Now() == RetireSome(cfg, s, frame, s.tracks.Keys - todo)
        decreases todo
      {
        hide Keeps;
        NoIds(todo);
        var id: int :| id in todo;
        todo := todo - {id};
        if !Keeps(cfg, frame, id, tracks[id]) {
          tracks := tracks - {id};
        }
        assert Now() == RetireSome(cfg, s, frame, s.tracks.Keys - todo);
      }
      assert RetireSome(cfg, s, frame, s.tracks.Keys) == Retire(cfg, s, frame);
      assert s.tracks.Keys - todo == s.tracks.Keys;
    }

    /** Touches every current ID, in some order. */
    method TouchCurrent(frame: Frame) returns (order: seq<int>)
      modifies this
      ensures Enumerates(order, frame) && Now() == TouchAll(old(Now()), order, frame.sequence)
    {
      var todo := CurrentIds(frame.objects);
      order := [];
      ghost var s := Now();
      while todo != {}
        invariant forall id :: id in CurrentIds(frame.objects) <==> id in todo || id in order
        invariant Now() == TouchAll(s, order, frame.sequence)
        decreases todo
      {
        NoIds(todo);
        var id: int :| id in todo;
        todo := todo - {id};
        TouchOneMore(s, order, id, frame.sequence);
        order := order + [id];
        if id in tracks {
          tracks := tracks[id := tracks[id].(lastSeen := frame.sequence)];
        } else {
          tracks := tracks[id := Decision(nextGeneration, Unknown, frame.sequence, -1, 0, None, 0, None)];
          nextGeneration := nextGeneration + 1;
        }
      }
    }

    method ScheduleOne(o: Object, snapshot: Snapshot, sequence: int)
      modifies this
      ensures Now() == Schedule(cfg, old(Now()), o, snapshot, sequence)
    {
      if o.trackId.None? || o.trackId.value !in tracks {
        return;
      }
      var id := o.trackId.value;
      var track := tracks[id];
      if !Eligible(cfg, track, snapshot.version, sequence) {
        return;
      }
      if o.held || |pending| >= cfg.maxPending || !o.crop || o.future.None? {
        tracks := tracks[id := RequireFresh(track)];
        return;
      }
      var retries := track.quickRetries;
      if track.version != snapshot.version {
        retries := 0;
      } else if track.lastChecked >= 0 && track.status in {Unknown, NonWhitelisted}
        && track.quickRetries < cfg.quickRetryLimit {
        retries := retries + 1;
      }
      var token := Token(id, track.generation, sequence, snapshot.version);
      tracks := tracks[id := track.(status := InFlight, pendingToken := Some(token), quickRetries := retries)];
      pending := pending[token := Submission(o.future.value, snapshot.entries, o.clock)];
    }

    /** process(): settles earlier requests, updates the tracks, submits faces and marks each object. */
    method ProcessFrame(frame: Frame) returns (allowed: seq<bool>, order: seq<int>)
      modifies this
      ensures Enumerates(order, frame) && Now() == Process(cfg, old(Now()), frame, order)
      ensures |allowed| == |frame.objects|
      ensures forall i :: 0 <= i < |allowed| ==> allowed[i] == Allowed(Now(), frame.objects[i], frame.snapshot.Ids())
    {
      var ids := frame.snapshot.Ids();
      ExpirePending(frame.now);
      ApplyCompleted(frame.finished, ids);
      InvalidateRemovedMatches(ids);
      RetireMissing(frame);
      hide Expire, Complete, Invalidate, Retire, Schedule, Eligible;
      order := TouchCurrent(frame);
      if frame.snapshot.entries != [] && frame.ready {
        ghost var touched := Now();
        for i := 0 to |frame.objects|
          invariant ScheduleAll(cfg, Now(), frame.objects[i..], frame.snapshot, frame.sequence)
                    == ScheduleAll(cfg, touched, frame.objects, frame.snapshot, frame.sequence)
        {
          assert frame.objects[i..][0] == frame.objects[i] && frame.objects[i..][1..] == frame.objects[i + 1..];
          if frame.objects[i].kind.IsFace() {
            ScheduleOne(frame.objects[i], frame.snapshot, frame.sequence);
          }
        }
      }
      allowed := [];
      for i := 0 to |frame.objects|
        invariant |allowed| == i
        invariant forall j :: 0 <= j < i ==> allowed[j] == Allowed(Now(), frame.objects[j], ids)
      {
        allowed := allowed + [Allowed(Now(), frame.objects[i], ids)];
      }
    }
  }

  lemma {:induction false} TouchOneMore(s: State, order: seq<int>, id: int, sequence: int)
    ensures TouchAll(s, order + [id], sequence) == Touch(TouchAll(s, order, sequence), id, sequence)
    decreases |order|
  {
    if order == [] {
      assert TouchAll(Touch(s, id, sequence), [], sequence) == Touch(s, id, sequence);
    } else {
      assert (order + [id])[1..] == order[1..] + [id];
      TouchOneMore(Touch(s, order[0], sequence), order[1..], id, sequence);
    }
  }
}
