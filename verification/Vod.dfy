/** Checkpointed video jobs (service/vod.py): segment files and an atomically replaced checkpoint
    survive pauses and crashes. The disk and the running process form a transition system whose
    steps are the job's single effects; a crash may fall between any two of them. */
module Vod {
  import opened Detection

  // ---- Data --------------------------------------------------------------------------------

  /** Job parameters; the checkpoint keeps their fingerprint, which tells them apart. */
  datatype Params = Params(segmentFrames: nat, rest: int)

  datatype Job = Job(input: int, params: Params, whitelist: int)

  /** A frame of a segment file is named by its position in the input. */
  type Video = seq<nat>

  /** A listed segment; `sha` stands for the fingerprint of the file's contents. */
  datatype Segment = Segment(index: nat, start: nat, frames: nat, sha: Video)

  datatype Checkpoint = Checkpoint(input: int, params: Params, whitelist: int, segments: seq<Segment>, next: nat)

  /** "" before the first commit, else the segment count and the fingerprint of the file. */
  datatype Token = NoToken | Token(count: nat, file: Checkpoint)

  /** The working directory and the output path. */
  datatype Disk = Disk(files: map<nat, Video>, checkpoint: Option<Checkpoint>, tmp: Option<Checkpoint>,
                       part: Option<Video>, output: Option<Video>)

  datatype Phase =
    | Clearing      // a fresh run empties segments/
    | Looping       // reading, composing and encoding frames
    | Committing    // the new checkpoint is written beside the old one
    | Muxing        // all frames are committed
    | Replacing     // the muxed file is written beside the output
    | Cleaning      // the output is in place

  /** The memory of a running job. */
  datatype Proc = Proc(job: Job, state: Checkpoint, token: Token, phase: Phase,
                       done: nat, index: nat, start: nat, count: nat, open: bool)

  datatype Outcome = Running | Paused(job: Job, token: Token) | Done(job: Job)

  datatype Sys = Sys(disk: Disk, proc: Option<Proc>, outcome: Outcome)

  function Range(start: nat, count: nat): Video {
    seq(count, i requires 0 <= i < count => start + i)
  }

  function NewState(job: Job): Checkpoint {
    Checkpoint(job.input, job.params, job.whitelist, [], 0)
  }

  function TokenOf(state: Checkpoint): Token {
    if state.segments == [] then NoToken else Token(|state.segments|, state)
  }

  // ---- Loading a checkpoint ------------------------------------------------------------------

  predicate AllListedExist(disk: Disk, segments: seq<Segment>) {
    forall segment :: segment in segments ==> segment.index in disk.files
  }

  /** What reading `checkpoint.json` yields: no file, a failing read or text that is not JSON, JSON with
      missing or ill-typed fields, or a checkpoint. */
  datatype Reading = Missing | Unreadable | Malformed | Parsed(state: Checkpoint)

  /** The job itself only ever writes whole checkpoints. */
  function Held(disk: Disk): Reading {
    if disk.checkpoint.None? then Missing else Parsed(disk.checkpoint.value)
  }

  /** _load_checkpoint: only the existence of the listed files is checked. */
  function LoadFrom(reading: Reading, disk: Disk, job: Job, token: Token): Result<Checkpoint> {
    match reading
    case Missing => Err("CHECKPOINT_INVALID")
    case Unreadable => Err("CHECKPOINT_INVALID")
    case Malformed => Err("CHECKPOINT_INVALID")
    case Parsed(state) =>
      if token != Token(|state.segments|, state) then Err("CHECKPOINT_MISMATCH")
      else if state.input != job.input || state.params != job.params || state.whitelist != job.whitelist then
        Err("CHECKPOINT_MISMATCH")
      else if !AllListedExist(disk, state.segments) then Err("CHECKPOINT_INVALID")
      else Ok(state)
  }

  function Load(disk: Disk, job: Job, token: Token): Result<Checkpoint> {
    LoadFrom(Held(disk), disk, job, token)
  }

  /** What run(resume=True) decides: start over when nothing durable exists, else load. */
  predicate StartsOver(disk: Disk, token: Token) {
    token == NoToken && disk.checkpoint.None?
  }

  predicate ResumeAccepted(disk: Disk, job: Job, token: Token) {
    StartsOver(disk, token) || Load(disk, job, token).Ok?
  }

  // ---- Steps ---------------------------------------------------------------------------------

  datatype Step =
    | StartFresh(job: Job)
    | StartResume(job: Job, token: Token)
    | RemoveFiles(kept: set<nat>)   // rmtree got this far
    | Cleared
    | Open
    | Write
    | Pause
    | WriteTmp
    | ReplaceCheckpoint
    | EndOfInput
    | WritePart
    | MuxFailed
    | ReplaceOutput
    | Finish
    | Crash

  /** How many frames each input decodes to. */
  type Lengths = int -> nat

  function Fresh(job: Job): Proc {
    Proc(job, NewState(job), NoToken, Clearing, 0, 0, 0, 0, false)
  }

  function Resumed(job: Job, state: Checkpoint): Proc {
    Proc(job, state, TokenOf(state), Looping, state.next, |state.segments|, state.next, 0, false)
  }

  /** The state after listing the open segment. */
  function WithSegment(p: Proc, disk: Disk): Checkpoint
    requires p.index in disk.files
  {
    p.state.(segments := p.state.segments + [Segment(p.index, p.start, p.count, disk.files[p.index])],
             next := p.start + p.count)
  }

  /** ffmpeg concat of the listed files, in order. */
  function Concat(disk: Disk, segments: seq<Segment>): Video
    requires AllListedExist(disk, segments)
  {
    if segments == [] then [] else
      assert segments[0] in segments;
      disk.files[segments[0].index] + Concat(disk, segments[1..])
  }

  ghost predicate Full(p: Proc) {
    p.open && p.count >= p.job.params.segmentFrames
  }

  ghost predicate Enabled(total: Lengths, s: Sys, step: Step) {
    match step
    case StartFresh(job) => s.proc.None? && job.params.segmentFrames >= 1
    case StartResume(job, token) => s.proc.None? && job.params.segmentFrames >= 1 && Load(s.disk, job, token).Ok?
    case RemoveFiles(kept) => s.proc.Some? && (s.proc.value.phase == Clearing || s.proc.value.phase == Cleaning)
    case Cleared => s.proc.Some? && s.proc.value.phase == Clearing && s.disk.files == map[]
    case Open => s.proc.Some? && s.proc.value.phase == Looping && !s.proc.value.open
                 && s.proc.value.done < total(s.proc.value.job.input)
    case Write => s.proc.Some? && s.proc.value.phase == Looping && s.proc.value.open && !Full(s.proc.value)
                  && s.proc.value.done < total(s.proc.value.job.input) && s.proc.value.index in s.disk.files
    case Pause => s.proc.Some? && s.proc.value.phase == Looping && !Full(s.proc.value)
    case WriteTmp => s.proc.Some? && s.proc.value.phase == Looping && s.proc.value.index in s.disk.files
                     && s.proc.value.open && s.proc.value.count > 0
                     && (Full(s.proc.value) || s.proc.value.done >= total(s.proc.value.job.input))
    case ReplaceCheckpoint => s.proc.Some? && s.proc.value.phase == Committing && s.disk.tmp.Some?
    case EndOfInput => s.proc.Some? && s.proc.value.phase == Looping && !s.proc.value.open
                       && s.proc.value.done >= total(s.proc.value.job.input)
    case WritePart => s.proc.Some? && s.proc.value.phase == Muxing && s.proc.value.state.segments != []
                      && AllListedExist(s.disk, s.proc.value.state.segments)
    case MuxFailed => s.proc.Some? && s.proc.value.phase == Muxing && s.proc.value.state.segments != []
    case ReplaceOutput => s.proc.Some? && s.proc.value.phase == Replacing && s.disk.part.Some?
    case Finish => s.proc.Some? && s.proc.value.phase == Cleaning
    case Crash => s.proc.Some?
  }

  function Apply(total: Lengths, s: Sys, step: Step): Sys
    requires Enabled(total, s, step)
  {
    match step
    case StartFresh(job) => Sys(s.disk, Some(Fresh(job)), Running)
    case StartResume(job, token) => Sys(s.disk, Some(Resumed(job, Load(s.disk, job, token).value)), Running)
    case RemoveFiles(kept) => s.(disk := s.disk.(files := map i | i in s.disk.files && i in kept :: s.disk.files[i]))
    case Cleared => s.(proc := Some(s.proc.value.(phase := Looping)))
    case Open =>
      var p := s.proc.value;
      s.(disk := s.disk.(files := s.disk.files[p.index := []]),
         proc := Some(p.(start := p.done, count := 0, open := true)))
    case Write =>
      var p := s.proc.value;
      s.(disk := s.disk.(files := s.disk.files[p.index := s.disk.files[p.index] + [p.done]]),
         proc := Some(p.(done := p.done + 1, count := p.count + 1)))
    case Pause =>
      var p := s.proc.value;
      Sys(if p.open then s.disk.(files := s.disk.files - {p.index}) else s.disk, None, Paused(p.job, p.token))
    case WriteTmp =>
      var state := WithSegment(s.proc.value, s.disk);
      s.(disk := s.disk.(tmp := Some(state)), proc := Some(s.proc.value.(state := state, phase := Committing)))
    case ReplaceCheckpoint =>
      var p := s.proc.value;
      s.(disk := s.disk.(checkpoint := s.disk.tmp, tmp := None),
         proc := Some(p.(token := TokenOf(p.state), phase := Looping, open := false, index := p.index + 1)))
    case EndOfInput => s.(proc := Some(s.proc.value.(phase := Muxing)))
    case WritePart =>
      s.(disk := s.disk.(part := Some(Concat(s.disk, s.proc.value.state.segments))),
         proc := Some(s.proc.value.(phase := Replacing)))
    case MuxFailed => Sys(s.disk.(part := None), None, Running)
    case ReplaceOutput => s.(disk := s.disk.(output := s.disk.part, part := None),
                             proc := Some(s.proc.value.(phase := Cleaning)))
    case Finish => Sys(s.disk, None, Done(s.proc.value.job))
    case Crash => Sys(s.disk, None, Running)
  }

  // ---- Invariant -------------------------------------------------------------------------------

  ghost predicate Follows(segments: seq<Segment>, k: int)
    requires 1 <= k < |segments|
  {
    segments[k].start == segments[k - 1].start + segments[k - 1].frames
  }

  /** Segment k starts where segment k-1 ended, has at least one frame, and lists its contents;
      only a segment that reaches the end of the input is short. */
  ghost predicate Tiles(segments: seq<Segment>, next: nat, size: nat, total: nat) {
    && (forall k :: 0 <= k < |segments| ==>
          && segments[k].index == k && 1 <= segments[k].frames <= size
          && segments[k].sha == Range(segments[k].start, segments[k].frames)
          && (segments[k].frames < size ==> segments[k].start + segments[k].frames == total))
    && (segments != [] ==> segments[0].start == 0)
    && (forall k :: 1 <= k < |segments| ==> Follows(segments, k))
    && next == (if segments == [] then 0 else segments[|segments| - 1].start + segments[|segments| - 1].frames)
    && next <= total
  }

  ghost predicate WellListed(total: Lengths, state: Checkpoint) {
    state.params.segmentFrames >= 1 && Tiles(state.segments, state.next, state.params.segmentFrames, total(state.input))
  }

  /** Every listed file holds what the checkpoint says. */
  ghost predicate Faithful(disk: Disk, segments: seq<Segment>) {
    forall segment :: segment in segments ==> segment.index in disk.files && disk.files[segment.index] == segment.sha
  }

  /** A checkpoint that can be loaded describes the files it lists. */
  ghost predicate DiskOk(total: Lengths, disk: Disk) {
    disk.checkpoint.Some? ==>
      && WellListed(total, disk.checkpoint.value) && disk.checkpoint.value.segments != []
      && (AllListedExist(disk, disk.checkpoint.value.segments) ==> Faithful(disk, disk.checkpoint.value.segments))
  }

  ghost predicate SameJob(job: Job, state: Checkpoint) {
    state.input == job.input && state.params == job.params && state.whitelist == job.whitelist
  }

  /** A job that has committed nothing yet meets no single-segment checkpoint. */
  ghost predicate NothingStale(disk: Disk) {
    disk.checkpoint.Some? ==> |disk.checkpoint.value.segments| != 1
  }

  ghost predicate LoopOk(disk: Disk, p: Proc, total: nat) {
    && p.index == |p.state.segments| && p.token == TokenOf(p.state)
    && Faithful(disk, p.state.segments)
    && p.done <= total
    && (p.open ==> && p.start == p.state.next && p.done == p.start + p.count && p.count <= p.job.params.segmentFrames
                   && p.index in disk.files && disk.files[p.index] == Range(p.start, p.count))
    && (!p.open ==> p.done == p.state.next)
    && (p.state.segments != [] ==> disk.checkpoint == Some(p.state))
    && (p.state.segments == [] ==> NothingStale(disk) && forall i :: i in disk.files ==> i == 0)
  }

  ghost predicate CommitOk(disk: Disk, p: Proc) {
    && disk.tmp == Some(p.state) && p.state.segments != [] && |p.state.segments| == p.index + 1
    && Faithful(disk, p.state.segments) && p.done == p.state.next
  }

  ghost predicate MuxOk(disk: Disk, p: Proc, total: nat) {
    && Faithful(disk, p.state.segments) && p.state.next == total && p.token == TokenOf(p.state)
    && (p.state.segments != [] ==> disk.checkpoint == Some(p.state))
  }

  ghost predicate ProcOk(total: Lengths, disk: Disk, p: Proc) {
    && SameJob(p.job, p.state) && WellListed(total, p.state)
    && match p.phase
       case Clearing => p == Fresh(p.job) && NothingStale(disk)
       case Looping => LoopOk(disk, p, total(p.job.input))
       case Committing => CommitOk(disk, p)
       case Muxing => MuxOk(disk, p, total(p.job.input))
       case Replacing => MuxOk(disk, p, total(p.job.input)) && disk.part == Some(Range(0, total(p.job.input)))
       case Cleaning => disk.output == Some(Range(0, total(p.job.input)))
  }

  ghost predicate OutcomeOk(s: Sys) {
    match s.outcome
    case Running => true
    case Paused(job, token) => s.proc.None?
      && (token == NoToken || (Load(s.disk, job, token).Ok? && token == TokenOf(s.disk.checkpoint.value)))
    case Done(job) => s.proc.None?
  }

  ghost predicate Inv(total: Lengths, s: Sys) {
    DiskOk(total, s.disk) && (s.proc.Some? ==> ProcOk(total, s.disk, s.proc.value)) && OutcomeOk(s)
  }

  /** The caller's side of a fresh start: no stale one-segment checkpoint in the work directory. */
  ghost predicate Permitted(s: Sys, step: Step) {
    step.StartFresh? ==> NothingStale(s.disk)
  }

  // ---- Every step keeps it ---------------------------------------------------------------------

  lemma TileIndices(segments: seq<Segment>, next: nat, size: nat, total: nat)
    requires Tiles(segments, next, size, total)
    ensures forall segment :: segment in segments ==> segment.index < |segments|
    ensures forall k :: 0 <= k < |segments| ==> segments[k] in segments && segments[k].index == k
  {
  }

  /** Losing files can only make a checkpoint unloadable. */
  lemma FewerFilesKeepDiskOk(total: Lengths, disk: Disk, files: map<nat, Video>)
    requires DiskOk(total, disk)
    requires forall i :: i in files ==> i in disk.files && files[i] == disk.files[i]
    ensures DiskOk(total, disk.(files := files))
  {
    hide WellListed;
  }

  lemma StaleStaysUnloadable(total: Lengths, disk: Disk, files: map<nat, Video>)
    requires DiskOk(total, disk) && NothingStale(disk)
    requires forall i :: i in files ==> i == 0
    ensures DiskOk(total, disk.(files := files))
  {
    if disk.checkpoint.Some? {
      var segments := disk.checkpoint.value.segments;
      assert segments[1].index == 1 && segments[1] in segments;
    }
  }

  /** Writing the file of the next segment touches no listed file. */
  lemma NextFileIsUnlisted(total: Lengths, disk: Disk, state: Checkpoint, content: Video)
    requires WellListed(total, state) && Faithful(disk, state.segments)
    ensures Faithful(disk.(files := disk.files[|state.segments| := content]), state.segments)
  {
    TileIndices(state.segments, state.next, state.params.segmentFrames, total(state.input));
  }

  lemma WriteNextKeepsDiskOk(total: Lengths, disk: Disk, p: Proc, content: Video)
    requires DiskOk(total, disk) && p.phase == Looping && ProcOk(total, disk, p)
    ensures DiskOk(total, disk.(files := disk.files[p.index := content]))
  {
    hide WellListed;
    if p.state.segments == [] {
      StaleStaysUnloadable(total, disk, disk.files[p.index := content]);
    } else {
      NextFileIsUnlisted(total, disk, p.state, content);
    }
  }

  lemma OpenKeepsInv(total: Lengths, s: Sys)
    requires Inv(total, s) && Enabled(total, s, Open)
    ensures Inv(total, Apply(total, s, Open))
  {
    var p := s.proc.value;
    WriteNextKeepsDiskOk(total, s.disk, p, []);
    NextFileIsUnlisted(total, s.disk, p.state, []);
    hide DiskOk, WellListed, Faithful;
    assert Range(p.done, 0) == [];
  }

  lemma WriteKeepsInv(total: Lengths, s: Sys)
    requires Inv(total, s) && Enabled(total, s, Write)
    ensures Inv(total, Apply(total, s, Write))
  {
    var p := s.proc.value;
    var content := s.disk.files[p.index] + [p.done];
    WriteNextKeepsDiskOk(total, s.disk, p, content);
    NextFileIsUnlisted(total, s.disk, p.state, content);
    hide DiskOk, WellListed, Faithful;
    assert content == Range(p.start, p.count + 1);
  }

  lemma PauseKeepsInv(total: Lengths, s: Sys)
    requires Inv(total, s) && Enabled(total, s, Pause)
    ensures Inv(total, Apply(total, s, Pause))
  {
    var p, t := s.proc.value, Apply(total, s, Pause);
    FewerFilesKeepDiskOk(total, s.disk, t.disk.files);
    hide DiskOk, Tiles;
    if p.state.segments != [] {
      TileIndices(p.state.segments, p.state.next, p.state.params.segmentFrames, total(p.state.input));
    }
  }

  lemma AppendTile(segments: seq<Segment>, next: nat, size: nat, total: nat, more: Segment)
    requires Tiles(segments, next, size, total)
    requires more.index == |segments| && more.start == next && 1 <= more.frames <= size && next + more.frames <= total
    requires more.sha == Range(more.start, more.frames) && (more.frames < size ==> next + more.frames == total)
    ensures Tiles(segments + [more], next + more.frames, size, total)
  {
    hide Range;
    var all := segments + [more];
    forall k | 0 <= k < |all|
      ensures all[k].index == k && 1 <= all[k].frames <= size && all[k].sha == Range(all[k].start, all[k].frames)
      ensures all[k].frames < size ==> all[k].start + all[k].frames == total
    {
      assert all[k] == if k < |segments| then segments[k] else more;
    }
    forall k | 1 <= k < |all| ensures Follows(all, k) {
      assert k < |segments| ==> Follows(segments, k);
      assert all[k - 1] == segments[k - 1] && all[k] == if k < |segments| then segments[k] else more;
    }
  }

  lemma FaithfulMore(disk: Disk, segments: seq<Segment>, more: Segment)
    requires Faithful(disk, segments) && more.index in disk.files && disk.files[more.index] == more.sha
    ensures Faithful(disk, segments + [more])
  {
  }

  lemma WriteTmpKeepsInv(total: Lengths, s: Sys)
    requires Inv(total, s) && Enabled(total, s, WriteTmp)
    ensures Inv(total, Apply(total, s, WriteTmp))
  {
    var p := s.proc.value;
    var more := Segment(p.index, p.start, p.count, s.disk.files[p.index]);
    AppendTile(p.state.segments, p.state.next, p.state.params.segmentFrames, total(p.state.input), more);
    hide Tiles, Range, DiskOk;
    FaithfulMore(s.disk, p.state.segments, more);
  }

  lemma ReplaceKeepsInv(total: Lengths, s: Sys)
    requires Inv(total, s) && Enabled(total, s, ReplaceCheckpoint)
    ensures Inv(total, Apply(total, s, ReplaceCheckpoint))
  {
    assert s.proc.value.state.next <= total(s.proc.value.state.input);
    hide Tiles, Range;
  }

  lemma MuxStepsKeepInv(total: Lengths, s: Sys, step: Step)
    requires Inv(total, s) && Enabled(total, s, step)
             && (step.EndOfInput? || step.MuxFailed? || step.ReplaceOutput? || step.Finish? || step.Crash?)
    ensures Inv(total, Apply(total, s, step))
  {
    hide Tiles, Range;
  }

  lemma StartsKeepInv(total: Lengths, s: Sys, step: Step)
    requires Inv(total, s) && Enabled(total, s, step) && Permitted(s, step) && (step.StartFresh? || step.StartResume?)
    ensures Inv(total, Apply(total, s, step))
  {
    hide Range;
  }

  lemma ClearKeepsInv(total: Lengths, s: Sys, step: Step)
    requires Inv(total, s) && Enabled(total, s, step) && (step.RemoveFiles? || step.Cleared?)
    ensures Inv(total, Apply(total, s, step))
  {
    FewerFilesKeepDiskOk(total, s.disk, Apply(total, s, step).disk.files);
    hide Tiles, Range;
  }

  // ---- What is muxed ---------------------------------------------------------------------------

  lemma RangeSplit(start: nat, a: nat, b: nat)
    ensures Range(start, a) + Range(start + a, b) == Range(start, a + b)
  {
  }

  /** Concatenating the listed files gives every frame from the first listed one on, in order. */
  lemma {:induction false} ConcatTail(disk: Disk, segments: seq<Segment>, k: nat, next: nat, size: nat, total: nat)
    requires Tiles(segments, next, size, total) && Faithful(disk, segments) && k < |segments|
             && AllListedExist(disk, segments[k..])
    ensures segments[k].start <= next
    ensures Concat(disk, segments[k..]) == Range(segments[k].start, next - segments[k].start)
    decreases |segments| - k
  {
    var rest, here := segments[k..], segments[k];
    TileAt(segments, k, next, size, total);
    hide Tiles;
    assert rest[0] == here && here in segments && rest[1..] == segments[k + 1..];
    assert Concat(disk, rest) == Range(here.start, here.frames) + Concat(disk, rest[1..]);
    hide Concat, Faithful;
    if k + 1 < |segments| {
      ConcatTail(disk, segments, k + 1, next, size, total);
      RangeSplit(here.start, here.frames, next - segments[k + 1].start);
    } else {
      EmptyConcat(disk, rest[1..]);
    }
  }

  lemma EmptyConcat(disk: Disk, segments: seq<Segment>)
    requires segments == []
    ensures Concat(disk, segments) == []
  {
  }

  lemma TileAt(segments: seq<Segment>, k: nat, next: nat, size: nat, total: nat)
    requires Tiles(segments, next, size, total) && k < |segments|
    ensures segments[k].sha == Range(segments[k].start, segments[k].frames)
    ensures k + 1 < |segments| ==> segments[k + 1].start == segments[k].start + segments[k].frames
    ensures k + 1 == |segments| ==> next == segments[k].start + segments[k].frames
  {
    hide Range;
    assert k + 1 < |segments| ==> Follows(segments, k + 1);
  }

  /** The muxed video is every input frame exactly once, in order. */
  lemma MuxedIsWhole(disk: Disk, segments: seq<Segment>, next: nat, size: nat, total: nat)
    requires Tiles(segments, next, size, total) && segments != [] && Faithful(disk, segments)
    ensures AllListedExist(disk, segments) && Concat(disk, segments) == Range(0, next)
  {
    assert segments[0..] == segments;
    ConcatTail(disk, segments, 0, next, size, total);
  }

  lemma WritePartKeepsInv(total: Lengths, s: Sys)
    requires Inv(total, s) && Enabled(total, s, WritePart)
    ensures Inv(total, Apply(total, s, WritePart))
  {
    var p := s.proc.value;
    MuxedIsWhole(s.disk, p.state.segments, p.state.next, p.state.params.segmentFrames, total(p.state.input));
    hide Tiles, Range, Concat;
  }

  /** No effect, pause or crash breaks the invariant, as long as fresh runs are permitted ones. */
  lemma StepKeepsInv(total: Lengths, s: Sys, step: Step)
    requires Inv(total, s) && Enabled(total, s, step) && Permitted(s, step)
    ensures Inv(total, Apply(total, s, step))
  {
    hide Inv, Apply, Enabled;
    match step {
      case StartFresh(_) => StartsKeepInv(total, s, step);
      case StartResume(_, _) => StartsKeepInv(total, s, step);
      case RemoveFiles(_) => ClearKeepsInv(total, s, step);
      case Cleared => ClearKeepsInv(total, s, step);
      case Open => OpenKeepsInv(total, s);
      case Write => WriteKeepsInv(total, s);
      case Pause => PauseKeepsInv(total, s);
      case WriteTmp => WriteTmpKeepsInv(total, s);
      case ReplaceCheckpoint => ReplaceKeepsInv(total, s);
      case WritePart => WritePartKeepsInv(total, s);
      case EndOfInput => MuxStepsKeepInv(total, s, step);
      case MuxFailed => MuxStepsKeepInv(total, s, step);
      case ReplaceOutput => MuxStepsKeepInv(total, s, step);
      case Finish => MuxStepsKeepInv(total, s, step);
      case Crash => MuxStepsKeepInv(total, s, step);
    }
  }

  // ---- Whole histories ---------------------------------------------------------------------------

  /** Any sequence of starts, effects, pauses and crashes from an empty work directory. */
  ghost predicate History(total: Lengths, states: seq<Sys>, steps: seq<Step>) {
    && |states| == |steps| + 1
    && states[0].proc.None? && states[0].outcome == Running && states[0].disk.checkpoint.None?
    && forall i {:trigger steps[i]} :: 0 <= i < |steps| ==>
         Enabled(total, states[i], steps[i]) && Permitted(states[i], steps[i])
           && Apply(total, states[i], steps[i]) == states[i + 1]
  }

  lemma {:induction false} HistoryKeepsInv(total: Lengths, states: seq<Sys>, steps: seq<Step>, n: nat)
    requires History(total, states, steps) && n < |states|
    ensures Inv(total, states[n])
  {
    if n > 0 {
      HistoryKeepsInv(total, states, steps, n - 1);
      assert Enabled(total, states[n - 1], steps[n - 1]);
      hide Inv, Apply, Enabled, Permitted;
      StepKeepsInv(total, states[n - 1], steps[n - 1]);
    }
  }

  /** At every moment the durable checkpoint's segments tile [0, next) of the input. */
  lemma CheckpointAlwaysTiles(total: Lengths, states: seq<Sys>, steps: seq<Step>, n: nat)
    requires History(total, states, steps) && n < |states| && states[n].disk.checkpoint.Some?
    ensures var c := states[n].disk.checkpoint.value;
            c.segments != [] && Tiles(c.segments, c.next, c.params.segmentFrames, total(c.input))
  {
    HistoryKeepsInv(total, states, steps, n);
    hide Tiles, ProcOk, OutcomeOk;
  }

  /** Whatever a resume accepts names only files with the listed contents. */
  lemma AcceptedResumeIsFaithful(total: Lengths, states: seq<Sys>, steps: seq<Step>, n: nat, job: Job, token: Token)
    requires History(total, states, steps) && n < |states| && Load(states[n].disk, job, token).Ok?
    ensures Faithful(states[n].disk, Load(states[n].disk, job, token).value.segments)
  {
    HistoryKeepsInv(total, states, steps, n);
    hide WellListed, ProcOk, OutcomeOk;
  }

  /** An output file, whenever it is put in place, holds every input frame once, in order. */
  lemma OutputIsWhole(total: Lengths, states: seq<Sys>, steps: seq<Step>, n: nat)
    requires History(total, states, steps) && n < |steps| && steps[n].ReplaceOutput?
    ensures states[n].proc.Some?
    ensures states[n + 1].disk.output == Some(Range(0, total(states[n].proc.value.job.input)))
  {
    HistoryKeepsInv(total, states, steps, n);
    assert Enabled(total, states[n], steps[n]) && Apply(total, states[n], steps[n]) == states[n + 1];
    hide WellListed, DiskOk, OutcomeOk, Range;
  }

  /** The steps before the last leave the output path alone, and the job is reported done with it whole. */
  lemma FinishReportsOutput(total: Lengths, s: Sys, step: Step)
    requires Inv(total, s) && Enabled(total, s, step)
    ensures !step.ReplaceOutput? ==> Apply(total, s, step).disk.output == s.disk.output
    ensures step.Finish? ==>
              var done := Apply(total, s, step);
              && done.outcome == Done(s.proc.value.job) && done.proc.None?
              && done.disk.output == Some(Range(0, total(s.proc.value.job.input)))
    ensures (exists job :: Apply(total, s, step).outcome == Done(job)) ==> step.Finish? || s.outcome.Done?
  {
    hide WellListed, DiskOk, Range, Concat;
  }

  /** A resume with the running job's token is accepted and continues after its last commit. */
  predicate Continues(disk: Disk, p: Proc) {
    Load(disk, p.job, TokenOf(p.state)) == Ok(p.state)
    && Resumed(p.job, p.state).done == p.state.next && Resumed(p.job, p.state).index == |p.state.segments|
  }

  /** A pause hands out the token of the last commit, loses less than one segment of frames, removes the
      unfinished file and nothing else, and the token continues after that commit. */
  lemma PauseKeepsProgress(total: Lengths, s: Sys)
    requires Inv(total, s) && Enabled(total, s, Pause)
    ensures var p, t := s.proc.value, Apply(total, s, Pause);
            && t.proc.None? && t.outcome == Paused(p.job, TokenOf(p.state))
            && p.done - p.state.next < p.job.params.segmentFrames
            && (forall i :: i in t.disk.files <==> i in s.disk.files && !(p.open && i == |p.state.segments|))
            && (forall i :: i in t.disk.files ==> t.disk.files[i] == s.disk.files[i])
            && t.disk.checkpoint == s.disk.checkpoint
            && (p.state.segments != [] ==> Continues(t.disk, p))
  {
    var p := s.proc.value;
    hide DiskOk, OutcomeOk, Range;
    TileIndices(p.state.segments, p.state.next, p.state.params.segmentFrames, total(p.state.input));
  }

  /** A crash or a failing muxer between commits loses no committed frame. */
  lemma FailureKeepsProgress(total: Lengths, s: Sys, step: Step)
    requires Inv(total, s) && Enabled(total, s, step) && (step.Crash? || step.MuxFailed?)
    requires var p := s.proc.value;
             (p.phase == Looping || p.phase == Muxing || p.phase == Replacing) && p.state.segments != []
    ensures Apply(total, s, step).proc.None? && Continues(Apply(total, s, step).disk, s.proc.value)
  {
    hide DiskOk, OutcomeOk, Range, WellListed;
  }

  /** A paused job is accepted again with unchanged inputs, unless it paused before its first
      commit in a work directory that still holds an older checkpoint. */
  lemma PausedResumes(total: Lengths, s: Sys, job: Job, token: Token)
    requires Inv(total, s) && s.outcome == Paused(job, token)
    ensures ResumeAccepted(s.disk, job, token) <==> token != NoToken || s.disk.checkpoint.None?
  {
    hide DiskOk;
  }

  lemma Continue(total: Lengths, states: seq<Sys>, steps: seq<Step>, step: Step)
    returns (longer: seq<Sys>, more: seq<Step>)
    requires History(total, states, steps)
    requires var s := states[|steps|]; Enabled(total, s, step) && Permitted(s, step)
    ensures History(total, longer, more) && more == steps + [step]
    ensures longer[|more|] == Apply(total, states[|steps|], step)
  {
    hide Enabled, Apply, Permitted;
    longer, more := states + [Apply(total, states[|steps|], step)], steps + [step];
    assert more[..|steps|] == steps;
  }

  /** The effects that commit one more one-frame segment. */
  lemma CommitOneFrame(total: Lengths, job: Job, states: seq<Sys>, steps: seq<Step>, before: Disk, p: Proc)
    returns (longer: seq<Sys>, more: seq<Step>, disk: Disk, after: Proc)
    requires History(total, states, steps) && states[|steps|] == Sys(before, Some(p), Running)
    requires p.job == job && p.phase == Looping && !p.open && p.done < total(job.input) && job.params.segmentFrames == 1
    ensures History(total, longer, more) && longer[|more|] == Sys(disk, Some(after), Running)
    ensures after.job == job && after.phase == Looping && !after.open && after.done == p.done + 1
    ensures disk.checkpoint == Some(after.state) && |after.state.segments| == |p.state.segments| + 1
  {
    longer, more := Continue(total, states, steps, Open);
    longer, more := Continue(total, longer, more, Write);
    longer, more := Continue(total, longer, more, WriteTmp);
    longer, more := Continue(total, longer, more, ReplaceCheckpoint);
    disk, after := longer[|more|].disk, longer[|more|].proc.value;
  }

  /** A fresh start over an earlier checkpoint of two segments, paused before its own first commit. */
  lemma PauseOverOlder(total: Lengths, job: Job, states: seq<Sys>, steps: seq<Step>, disk: Disk)
    returns (longer: seq<Sys>, more: seq<Step>)
    requires History(total, states, steps) && states[|steps|] == Sys(disk, None, Running) && NothingStale(disk)
    requires job.params.segmentFrames >= 1
    ensures History(total, longer, more)
    ensures longer[|more|] == Sys(disk.(files := map[]), None, Paused(job, NoToken))
  {
    longer, more := Continue(total, states, steps, StartFresh(job));
    longer, more := Continue(total, longer, more, RemoveFiles({}));
    assert longer[|more|].disk.files == map[];
    longer, more := Continue(total, longer, more, Cleared);
    longer, more := Continue(total, longer, more, Pause);
  }

  lemma Begin(total: Lengths, job: Job) returns (states: seq<Sys>, steps: seq<Step>)
    requires job.params.segmentFrames >= 1
    ensures History(total, states, steps)
    ensures states[|steps|] == Sys(Disk(map[], None, None, None, None), Some(Fresh(job).(phase := Looping)), Running)
  {
    states, steps := [Sys(Disk(map[], None, None, None, None), None, Running)], [];
    states, steps := Continue(total, states, steps, StartFresh(job));
    states, steps := Continue(total, states, steps, Cleared);
  }

  /** The refused side occurs: a job commits two segments and crashes, a fresh run of it pauses before
      its first commit, and the token that pause returned is not accepted by the next resume. */
  lemma RefusedPause(total: Lengths, job: Job) returns (states: seq<Sys>, steps: seq<Step>)
    requires job.params.segmentFrames == 1 && total(job.input) >= 2
    ensures History(total, states, steps)
    ensures var last := states[|steps|];
            last.outcome == Paused(job, NoToken) && last.disk.checkpoint.Some?
              && !ResumeAccepted(last.disk, job, NoToken)
  {
    states, steps := Begin(total, job);
    var disk, p := states[|steps|].disk, states[|steps|].proc.value;
    states, steps, disk, p := CommitOneFrame(total, job, states, steps, disk, p);
    states, steps, disk, p := CommitOneFrame(total, job, states, steps, disk, p);
    states, steps := Continue(total, states, steps, Crash);
    states, steps := PauseOverOlder(total, job, states, steps, disk);
  }

  // ---- Which tokens a resume accepts --------------------------------------------------------------

  /** A resume is accepted exactly in two cases: the empty token meets no checkpoint, or the token names the
      present checkpoint's segment count and contents, input, parameters and whitelist are unchanged, and no
      listed file is missing. */
  lemma ResumeAcceptedExactly(disk: Disk, job: Job, token: Token)
    ensures ResumeAccepted(disk, job, token) <==>
            if disk.checkpoint.None? then token == NoToken
            else
              var c := disk.checkpoint.value;
              && token.Token? && token.count == |c.segments| && token.file == c
              && c.input == job.input && c.params == job.params && c.whitelist == job.whitelist
              && forall k :: 0 <= k < |c.segments| ==> c.segments[k].index in disk.files
  {
    if disk.checkpoint.Some? {
      var c := disk.checkpoint.value;
      assert AllListedExist(disk, c.segments) <==>
             forall k :: 0 <= k < |c.segments| ==> c.segments[k].index in disk.files by {
        if forall k :: 0 <= k < |c.segments| ==> c.segments[k].index in disk.files {
          forall segment | segment in c.segments ensures segment.index in disk.files {
            var k :| 0 <= k < |c.segments| && c.segments[k] == segment;
          }
        }
        if AllListedExist(disk, c.segments) {
          forall k | 0 <= k < |c.segments| ensures c.segments[k].index in disk.files {
            assert c.segments[k] in c.segments;
          }
        }
      }
    }
  }

  /** Reading a checkpoint: what loads is whole, names this token and job, and lists files that exist; a
      missing, unreadable or malformed file is invalid whatever the token. */
  lemma LoadsExactly(reading: Reading, disk: Disk, job: Job, token: Token)
    ensures var r := LoadFrom(reading, disk, job, token);
            if !reading.Parsed? then r == Err("CHECKPOINT_INVALID")
            else
              var c := reading.state;
              var same := c.input == job.input && c.params == job.params && c.whitelist == job.whitelist;
              if token.NoToken? || token.count != |c.segments| || token.file != c || !same then
                r == Err("CHECKPOINT_MISMATCH")
              else if exists segment :: segment in c.segments && segment.index !in disk.files then
                r == Err("CHECKPOINT_INVALID")
              else r == Ok(c)
  {
  }

  /** Only the present checkpoint's token is accepted while there is a checkpoint. */
  lemma OtherTokensAreRefused(disk: Disk, job: Job, token: Token)
    requires disk.checkpoint.Some?
    requires token != Token(|disk.checkpoint.value.segments|, disk.checkpoint.value)
    ensures !ResumeAccepted(disk, job, token)
  {
    ResumeAcceptedExactly(disk, job, token);
  }

  /** What a running job has committed is the checkpoint on the disk; while it commits it holds one segment
      more. */
  ghost predicate Committed(s: Sys) {
    && s.disk.checkpoint.Some?
    && (s.proc.Some? ==>
          var p := s.proc.value;
          if p.phase == Committing then
            s.disk.tmp == Some(p.state) && |p.state.segments| == |s.disk.checkpoint.value.segments| + 1
          else p.phase != Clearing && p.state == s.disk.checkpoint.value)
  }

  /** Segments of the checkpoint on the disk. */
  function CommittedCount(s: Sys): nat {
    if s.disk.checkpoint.None? then 0 else |s.disk.checkpoint.value.segments|
  }

  lemma StepKeepsCommitted(total: Lengths, s: Sys, step: Step)
    requires Committed(s) && Enabled(total, s, step) && !step.StartFresh?
    ensures Committed(Apply(total, s, step))
    ensures CommittedCount(Apply(total, s, step)) == CommittedCount(s) + (if step.ReplaceCheckpoint? then 1 else 0)
  {
  }

  lemma {:induction false} CommitsOnlyGrow(total: Lengths, states: seq<Sys>, steps: seq<Step>, m: nat, n: nat)
    requires History(total, states, steps) && m <= n < |states| && Committed(states[m])
    requires forall i :: m <= i < n ==> !steps[i].StartFresh?
    ensures Committed(states[n]) && CommittedCount(states[m]) <= CommittedCount(states[n])
    ensures (exists i :: m <= i < n && steps[i].ReplaceCheckpoint?) ==>
              CommittedCount(states[m]) < CommittedCount(states[n])
    decreases n - m
  {
    if m < n {
      CommitsOnlyGrow(total, states, steps, m, n - 1);
      var step := steps[n - 1];
      hide Committed, Enabled, Apply, Permitted, CommittedCount;
      StepKeepsCommitted(total, states[n - 1], step);
    }
  }

  /** A token is good until the next commit: the token of the checkpoint that step c put in place is refused
      after any later commit, across pauses, crashes and resumes, for as long as no fresh run starts. */
  lemma SupersededTokenIsRefused(total: Lengths, states: seq<Sys>, steps: seq<Step>, c: nat, d: nat, n: nat, job: Job)
    requires History(total, states, steps) && c < d < n < |states|
    requires steps[c].ReplaceCheckpoint? && steps[d].ReplaceCheckpoint?
    requires forall i :: c < i < n ==> !steps[i].StartFresh?
    ensures states[c + 1].disk.checkpoint.Some?
    ensures !ResumeAccepted(states[n].disk, job, TokenOf(states[c + 1].disk.checkpoint.value))
  {
    HistoryKeepsInv(total, states, steps, c);
    var step := steps[c];
    assert Committed(states[c + 1]);
    CommitsOnlyGrow(total, states, steps, c + 1, n);
    ResumeAcceptedExactly(states[n].disk, job, TokenOf(states[c + 1].disk.checkpoint.value));
  }

  // ---- Fresh runs over an older checkpoint -------------------------------------------------------

  /** A run of one process: no new start in between. */
  ghost predicate OneRun(total: Lengths, states: seq<Sys>, steps: seq<Step>) {
    && |states| == |steps| + 1
    && forall i {:trigger steps[i]} :: 0 <= i < |steps| ==>
         !steps[i].StartFresh? && !steps[i].StartResume?
         && Enabled(total, states[i], steps[i]) && Apply(total, states[i], steps[i]) == states[i + 1]
  }

  /** However a fresh run of `job` on `disk` ends, a checkpoint that still loads is faithful. */
  ghost predicate FreshRunIsSafe(total: Lengths, disk: Disk, job: Job) {
    forall states: seq<Sys>, steps: seq<Step> ::
      OneRun(total, states, steps) && states[0] == Sys(disk, Some(Fresh(job)), Running) ==>
      DiskOk(total, states[|steps|].disk)
  }

  lemma {:induction false} OneRunKeepsInv(total: Lengths, states: seq<Sys>, steps: seq<Step>, n: nat)
    requires OneRun(total, states, steps) && Inv(total, states[0]) && n < |states|
    ensures Inv(total, states[n])
  {
    if n > 0 {
      OneRunKeepsInv(total, states, steps, n - 1);
      assert Enabled(total, states[n - 1], steps[n - 1]);
      hide Inv, Apply, Enabled;
      StepKeepsInv(total, states[n - 1], steps[n - 1]);
    }
  }

  /** The damaging run over a one-segment checkpoint: the old files go, the first new file is
      opened under the listed name, and the process dies. */
  lemma DamagingRun(total: Lengths, disk: Disk, job: Job) returns (states: seq<Sys>, steps: seq<Step>)
    requires DiskOk(total, disk) && !NothingStale(disk) && job.params.segmentFrames >= 1 && total(job.input) > 0
    ensures OneRun(total, states, steps) && states[0] == Sys(disk, Some(Fresh(job)), Running)
    ensures !DiskOk(total, states[|steps|].disk)
    ensures states[|steps|].proc.None?
    ensures SameJob(job, disk.checkpoint.value) ==>
              ResumeAccepted(states[|steps|].disk, job, TokenOf(disk.checkpoint.value))
  {
    var s0 := Sys(disk, Some(Fresh(job)), Running);
    var s1 := Apply(total, s0, RemoveFiles({}));
    assert s1.disk.files == map[];
    var s2 := Apply(total, s1, Cleared);
    var s3 := Apply(total, s2, Open);
    var s4 := Apply(total, s3, Crash);
    states, steps := [s0, s1, s2, s3, s4], [RemoveFiles({}), Cleared, Open, Crash];
    var segments := disk.checkpoint.value.segments;
    assert segments[0] in segments && segments[0].index == 0;
    assert forall segment :: segment in segments ==> segment == segments[0];
    assert s4.disk.files[0] == [] && |segments[0].sha| >= 1;
  }

  /** A fresh run is safe exactly when the work directory holds no one-segment checkpoint. */
  lemma FreshRunSafety(total: Lengths, disk: Disk, job: Job)
    requires DiskOk(total, disk) && job.params.segmentFrames >= 1 && total(job.input) > 0
    ensures FreshRunIsSafe(total, disk, job) <==> NothingStale(disk)
  {
    if NothingStale(disk) {
      forall states: seq<Sys>, steps: seq<Step> |
        OneRun(total, states, steps) && states[0] == Sys(disk, Some(Fresh(job)), Running)
        ensures DiskOk(total, states[|steps|].disk)
      {
        assert ProcOk(total, disk, Fresh(job));
        assert Inv(total, states[0]);
        OneRunKeepsInv(total, states, steps, |steps|);
      }
    } else {
      var states, steps := DamagingRun(total, disk, job);
      assert !DiskOk(total, states[|steps|].disk);
    }
  }

  // ---- The job -----------------------------------------------------------------------------------

  /** What the environment does at one loop iteration: nothing, a pause request, or a failure of
      the decoder, the inference or the encoder. */
  datatype Fate = Go | Stop | Fail

  datatype RunResult = JobDone(token: Token) | JobPaused(token: Token) | JobFailed(message: string)

  /** One run of a job in its work directory. `trail` and `steps` record every effect, so a crash
      at any point leaves one of the recorded disks. */
  class VodJob {
    const job: Job
    const total: Lengths
    var disk: Disk
    ghost var trail: seq<Sys>
    ghost var steps: seq<Step>

    constructor (job: Job, total: Lengths, disk: Disk)
      ensures this.job == job && this.total == total && this.disk == disk
    {
      this.job, this.total, this.disk := job, total, disk;
      trail, steps := [], [];
    }

    /** The recorded run is a run of the transition system that is now in state `s`. */
    ghost predicate At(s: Sys)
      reads this
    {
      OneRun(total, trail, steps) && Inv(total, trail[0]) && trail[|steps|] == s && s.disk == disk
    }

    ghost predicate In(p: Proc)
      reads this
    {
      At(Sys(disk, Some(p), Running)) && p.job == job
    }

    ghost method Begin(p: Proc)
      requires ProcOk(total, disk, p) && DiskOk(total, disk) && p.job == job
      modifies `trail, `steps
      ensures In(p) && trail == [Sys(disk, Some(p), Running)]
    {
      trail, steps := [Sys(disk, Some(p), Running)], [];
    }

    /** Notes one effect; the caller has just performed it on the disk. */
    ghost method Record(before: Sys, step: Step)
      requires OneRun(total, trail, steps) && Inv(total, trail[0]) && trail[|steps|] == before
      requires Enabled(total, before, step) && !step.StartFresh? && !step.StartResume?
      requires Apply(total, before, step).disk == disk
      modifies `trail, `steps
      ensures At(Apply(total, before, step)) && trail[0] == old(trail[0])
    {
      hide Inv, Enabled, Apply;
      trail, steps := trail + [Apply(total, before, step)], steps + [step];
      assert steps[..|steps| - 1] == old(steps);
    }

    /** _load_checkpoint, given what the file reads as. */
    method LoadCheckpoint(reading: Reading, token: Token) returns (r: Result<Checkpoint>)
      ensures r == LoadFrom(reading, disk, job, token)
    {
      if !reading.Parsed? {
        return Err("CHECKPOINT_INVALID");
      }
      var state := reading.state;
      if token != Token(|state.segments|, state) {
        return Err("CHECKPOINT_MISMATCH");
      }
      if state.input != job.input || state.params != job.params || state.whitelist != job.whitelist {
        return Err("CHECKPOINT_MISMATCH");
      }
      for k := 0 to |state.segments|
        invariant forall j :: 0 <= j < k ==> state.segments[j].index in disk.files
      {
        if state.segments[k].index !in disk.files {
          assert state.segments[k] in state.segments;
          return Err("CHECKPOINT_INVALID");
        }
      }
      r := Ok(state);
    }

    /** shutil.rmtree of segments/, one file at a time. */
    method RemoveSegments(ghost p: Proc)
      requires In(p) && (p.phase == Clearing || p.phase == Cleaning)
      modifies this
      ensures In(p) && disk == old(disk).(files := map[]) && trail[0] == old(trail[0])
    {
      hide Inv;
      while disk.files != map[]
        invariant In(p) && disk == old(disk).(files := disk.files) && trail[0] == old(trail[0])
        decreases |disk.files|
      {
        ghost var before := Sys(disk, Some(p), Running);
        var i :| i in disk.files;
        var kept := disk.files.Keys - {i};
        disk := disk.(files := map j | j in disk.files && j in kept :: disk.files[j]);
        assert disk.files.Keys == before.disk.files.Keys - {i};
        assert |disk.files| < |before.disk.files|;
        Record(before, RemoveFiles(kept));
      }
    }

    /** _finish_segment: lists the finished file and commits the checkpoint atomically. */
    method FinishSegment(state: Checkpoint, index: nat, start: nat, count: nat, ghost p: Proc)
      returns (state': Checkpoint, token: Token)
      requires p.index == index && p.start == start && p.count == count && index in disk.files
      requires In(p) && p.phase == Looping && p.state == state && Enabled(total, Sys(disk, Some(p), Running), WriteTmp)
      modifies this
      ensures trail != [] && trail[0] == old(trail[0])
      ensures state' == state.(segments := state.segments + [Segment(index, start, count, old(disk).files[index])],
                               next := start + count)
      ensures token == TokenOf(state') && disk == old(disk).(checkpoint := Some(state'), tmp := None)
      ensures In(p.(state := state', token := token, index := p.index + 1, open := false))
    {
      hide Inv;
      ghost var before := Sys(disk, Some(p), Running);
      var segment := Segment(index, start, count, disk.files[index]);
      state' := state.(segments := state.segments + [segment], next := start + count);
      disk := disk.(tmp := Some(state'));
      Record(before, WriteTmp);
      ghost var middle := Sys(disk, Some(p.(state := state', phase := Committing)), Running);
      disk := disk.(checkpoint := disk.tmp, tmp := None);
      Record(middle, ReplaceCheckpoint);
      token := Token(|state'.segments|, state');
    }

    /** _finalize: muxes the listed files and puts the output in place; false when ffmpeg fails or
        nothing was committed. */
    method Finalize(state: Checkpoint, muxes: bool, ghost p: Proc) returns (ok: bool)
      requires In(p) && p.phase == Muxing && p.state == state
      modifies this
      ensures trail != [] && trail[0] == old(trail[0])
      ensures ok ==> In(p.(phase := Cleaning)) && disk.output == Some(Range(0, total(job.input)))
      ensures !ok ==> OneRun(total, trail, steps) && disk == trail[|steps|].disk
                      && disk == old(disk).(part := disk.part)
    {
      if state.segments == [] {
        return false;
      }
      ghost var before := Sys(disk, Some(p), Running);
      RunInv(p);
      MuxedIsWhole(disk, state.segments, state.next, state.params.segmentFrames, total(state.input));
      hide Inv, Concat;
      if !muxes {
        disk := disk.(part := None);
        Record(before, MuxFailed);
        return false;
      }
      disk := disk.(part := Some(Concat(disk, state.segments)));
      Record(before, WritePart);
      ghost var middle := Sys(disk, Some(p.(phase := Replacing)), Running);
      disk := disk.(output := disk.part, part := None);
      Record(middle, ReplaceOutput);
      ok := true;
    }

    lemma RunInv(p: Proc)
      requires In(p)
      ensures ProcOk(total, disk, p) && DiskOk(total, disk)
    {
      OneRunKeepsInv(total, trail, steps, |steps|);
    }

    /** One frame: opens the segment file when none is open, and appends the frame to it. */
    method Encode(ghost p: Proc, framesDone: nat, index: nat, start: nat, count: nat, open: bool)
      returns (start': nat, count': nat, ghost p': Proc)
      requires In(p) && p.phase == Looping && p.done == framesDone && p.index == index && p.open == open
      requires open ==> p.start == start && p.count == count && count < job.params.segmentFrames && index in disk.files
      requires framesDone < total(job.input) && job.params.segmentFrames >= 1
      modifies this
      ensures trail != [] && trail[0] == old(trail[0]) && In(p') && index in disk.files && count' > 0
      ensures count' <= job.params.segmentFrames
      ensures p' == p.(done := framesDone + 1, start := start', count := count', open := true)
    {
      hide Inv;
      start', count' := start, count;
      p' := p;
      if !open {
        ghost var before := Sys(disk, Some(p'), Running);
        disk := disk.(files := disk.files[index := []]);
        start', count' := framesDone, 0;
        p' := p'.(start := framesDone, count := 0, open := true);
        Record(before, Open);
      }
      ghost var before := Sys(disk, Some(p'), Running);
      disk := disk.(files := disk.files[index := disk.files[index] + [framesDone]]);
      count' := count' + 1;
      p' := p'.(done := framesDone + 1, count := count');
      Record(before, Write);
    }

    /** The stop flag was set: drops the open segment file and pauses. */
    method PauseNow(ghost p: Proc, index: nat, open: bool)
      requires In(p) && p.phase == Looping && p.index == index && p.open == open
      requires open ==> p.count < job.params.segmentFrames
      modifies this
      ensures OneRun(total, trail, steps) && trail[0] == old(trail[0])
      ensures trail[|steps|] == Sys(disk, None, Paused(job, p.token))
    {
      hide Inv;
      ghost var before := Sys(disk, Some(p), Running);
      if open {
        disk := disk.(files := disk.files - {index});
      }
      Record(before, Pause);
    }

    /** After the last frame: finalizes, drops the segment files and is done. */
    method Complete(state: Checkpoint, token: Token, muxes: bool, ghost p: Proc) returns (result: RunResult)
      requires In(p) && p.phase == Looping && p.state == state && !p.open && p.done >= total(job.input)
      modifies this
      ensures OneRun(total, trail, steps) && trail[0] == old(trail[0]) && trail[|steps|].disk == disk
      ensures !result.JobPaused?
      ensures result.JobDone? ==> disk.output == Some(Range(0, total(job.input))) && trail[|steps|].outcome == Done(job)
    {
      hide Inv, Range;
      Record(Sys(disk, Some(p), Running), EndOfInput);
      ghost var q := p.(phase := Muxing);
      var muxed := Finalize(state, muxes, q);
      if !muxed {
        return JobFailed("MUX_FAILED");
      }
      q := q.(phase := Cleaning);
      RemoveSegments(q);
      Record(Sys(disk, Some(q), Running), Finish);
      result := JobDone(token);
    }

    /** _process: skips to the first uncommitted frame, encodes segment by segment, and finalizes
        at the end of the input. */
    method Process(start: Proc, schedule: nat -> Fate, muxes: bool) returns (result: RunResult)
      requires In(start) && start.phase == Looping && !start.open && start.job.params.segmentFrames >= 1
      requires start.done <= total(job.input)
      modifies this
      ensures OneRun(total, trail, steps) && trail[0] == old(trail[0]) && trail[|steps|].disk == disk
      ensures result.JobDone? ==> disk.output == Some(Range(0, total(job.input))) && trail[|steps|].outcome == Done(job)
      ensures result.JobPaused? ==> trail[|steps|].outcome == Paused(job, result.token)
    {
      hide Inv, Range, Apply, Enabled;
      var state, token := start.state, start.token;
      var framesDone: nat, index: nat, segmentStart: nat := start.done, start.index, start.start;
      var count: nat, open := start.count, false;
      ghost var p := start;
      var tick := 0;
      while framesDone < total(job.input)
        invariant In(p) && trail[0] == old(trail[0])
        invariant p == Proc(job, state, token, Looping, framesDone, index, segmentStart, count, open)
        invariant framesDone <= total(job.input)
        invariant open ==> 0 < count < job.params.segmentFrames && index in disk.files
        decreases total(job.input) - framesDone
      {
        if schedule(tick) == Stop {
          PauseNow(p, index, open);
          return JobPaused(token);
        }
        if schedule(tick) == Fail {
          CrashEnabled(p);
          Record(Sys(disk, Some(p), Running), Crash);
          return JobFailed("RUNTIME_FAILED");
        }
        segmentStart, count, p := Encode(p, framesDone, index, segmentStart, count, open);
        framesDone, open := framesDone + 1, true;
        if count >= job.params.segmentFrames {
          TmpEnabled(p);
          state, token := FinishSegment(state, index, segmentStart, count, p);
          open, index := false, index + 1;
          p := p.(state := state, token := token, index := index, open := false);
        }
        tick := tick + 1;
      }
      if open && count > 0 {
        TmpEnabled(p);
        state, token := FinishSegment(state, index, segmentStart, count, p);
        p := p.(state := state, token := token, index := index + 1, open := false);
      }
      result := Complete(state, token, muxes, p);
    }

    lemma CrashEnabled(p: Proc)
      requires In(p)
      ensures Enabled(total, Sys(disk, Some(p), Running), Crash)
      ensures Apply(total, Sys(disk, Some(p), Running), Crash).disk == disk
    {
      hide Inv;
    }

    lemma TmpEnabled(p: Proc)
      requires In(p) && p.phase == Looping && p.open && p.count > 0 && p.index in disk.files
      requires p.count >= job.params.segmentFrames || p.done >= total(job.input)
      ensures Enabled(total, Sys(disk, Some(p), Running), WriteTmp)
    {
      hide Inv;
    }

    /** Every disk a crash of the recorded run can leave loads faithfully or not at all. */
    lemma CrashAnywhere(k: nat)
      requires OneRun(total, trail, steps) && Inv(total, trail[0]) && k < |trail|
      ensures DiskOk(total, trail[k].disk)
    {
      OneRunKeepsInv(total, trail, steps, k);
    }

    /** run(): resumes from the checkpoint or starts over, and processes the input. `readable` says
        whether the file can be read. */
    method Run(resume: bool, token: Token, readable: bool, schedule: nat -> Fate, muxes: bool)
      returns (result: RunResult)
      requires DiskOk(total, disk) && job.params.segmentFrames >= 1
      requires !resume || StartsOver(disk, token) ==> NothingStale(disk)
      modifies this
      ensures resume && !ResumeAccepted(old(disk), job, token) ==> result.JobFailed? && disk == old(disk)
      ensures resume && !StartsOver(old(disk), token) && !readable ==> result.JobFailed? && disk == old(disk)
      ensures result.JobDone? ==> disk.output == Some(Range(0, total(job.input)))
      ensures result.JobPaused? ==>
              (ResumeAccepted(disk, job, result.token) <==> result.token != NoToken || disk.checkpoint.None?)
      ensures DiskOk(total, disk)
      ensures !resume || StartsOver(old(disk), token) || (readable && ResumeAccepted(old(disk), job, token)) ==>
                OneRun(total, trail, steps) && Inv(total, trail[0])
    {
      var p: Proc;
      if resume && !StartsOver(disk, token) {
        var loaded := LoadCheckpoint(if readable || disk.checkpoint.None? then Held(disk) else Unreadable, token);
        if loaded.Err? {
          return JobFailed(loaded.message);
        }
        p := Resumed(job, loaded.value);
        Begin(p);
      } else {
        p := Fresh(job);
        Begin(p);
        RemoveSegments(p);
        Record(Sys(disk, Some(p), Running), Cleared);
        p := p.(phase := Looping);
      }
      RunInv(p);
      result := Process(p, schedule, muxes);
      OneRunKeepsInv(total, trail, steps, |steps|);
      if result.JobPaused? {
        PausedResumes(total, trail[|steps|], job, result.token);
      }
    }
  }
}
