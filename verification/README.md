# InnoLive video anonymiser: verified core

The repository blurs every face and number plate in live and recorded video, except faces that a
session's whitelist approves, and is built to fail closed. This project models the algorithms and
protocols around its neural networks and proves what they promise, for all inputs and all runs.

| file | models |
|---|---|
| `Raster.dfy`, `OpenCv.dfy` | pixels, rectangles, images; the OpenCV primitives by definition, as one record of functions with their laws |
| `Grouping.dfy` | grouping of nearby polygons into separate crops |
| `Mask.dfy` | polygon fill, dilation, feathered blend weights |
| `Blur.dfy` | reduce, Gaussian, enlarge: the frame-anchored blur of a window |
| `Detection.dfy`, `Compose.dfy` | which objects must be blurred, and the composed frame |
| `Recognition.dfy` | approval of tracks in one stream |
| `Registry.dfy` | session whitelists and stream leases |
| `EndToEnd.dfy` | one frame from recognition to pixels |
| `Vod.dfy` | checkpoint and resume of a recorded-video job, with crashes at any point |
| `Lane.dfy` | the inference lane that lets live frames pass recorded ones |
| `Recovery.dfy` | admission, runtime recovery, published health |
| `Client.dfy` | the windowed client of the video stream |
| `Containers.dfy` | the PNG, WebP and JPEG walkers |
| `Nms.dfy` | suppression of overlapping detections; splitting a batch's output |

Code that works step by step is a method or a class whose contract equates the new state with a
function of the old one; the theorems are lemmas about those functions. Concurrent code (lane, recovery,
client) is a transition system: one event is the code between two suspension points, a run is any
interleaving of enabled events, and the class methods perform exactly those events.

The main results, in the system's terms:

- Composition by crops equals one whole-frame mask, feather and blur, pixel for pixel, whatever the
  polygons, margin and padding (`Compose.ComposeProtected`). It needs that the blur of a window does not
  depend on the window (`Blur.BlurIsWindowIndependent`), that a crop sees the whole frame's weights
  (`Compose.CropWeightIsFrameWeight`), and that the groups are the finest partition with separate hulls.
- A pixel of an object that is not blurred belongs to a face whose present track incarnation was approved
  by a completed, good enough match with an entry that stayed listed ever since
  (`EndToEnd.VisibleMeansApproved`).
- A request answered in time with a listed entry close enough approves its track, and one as old as the
  timeout never does (`Recognition.InTimeMatchApproves`, `Recognition.LateRequestIsDropped`).
- Whatever crashes, pauses and resumes happen, the durable checkpoint tiles the input, and an output holds
  every frame once and in order (`Vod.OutputIsWhole`).
- The lane never loses a wakeup, never grants a recorded frame ahead of a waiting live one, and bounds a
  live frame's wait; a cancelled caller never gets it (`Lane.RunKeepsInv`, `Lane.LiveBeforeVod`,
  `Lane.LiveWaitIsBounded`, `Lane.CancelledNeverOwns`).
- Admission reopens only after a self-check that began after the last failure and never over an inference
  that timed out and still runs (`Recovery.ReopensAfterCheck`, `Recovery.TimedOutKeepsClosed`).
- The walkers accept exactly the serialisations of a still image (`Containers.PngAcceptsExactly` and its
  WebP and JPEG counterparts).

Three behaviours of the code differ from what a reader would expect; the model keeps the code as it is and
states exactly when it matters:

- A fresh run clears `segments/` but keeps an older `checkpoint.json` (service/vod.py:690-697), and loading
  checks only that the listed files exist (service/vod.py:741-743). A fresh run is therefore safe exactly
  when the work directory holds no checkpoint that lists a single segment (`Vod.FreshRunSafety`);
  `Vod.DamagingRun` is the run that leaves a resumable checkpoint over a truncated file.
- A job that pauses before its first commit returns the empty token. Resuming with it is accepted exactly
  when no older checkpoint lies in the work directory (`Vod.PausedResumes`); `Vod.RefusedPause` is a history
  that ends in a refused pause.
- Shutdown stops admission first and closes later (ai_processor_server.py:1825-1832). In between, streams
  already admitted go on, and admission can open again. It can exactly when a recovery is alive at the drain, or
  when none is and a stream is in flight, whose failure would start one (`Recovery.DrainMayReopenExactly`). So
  while a stream is in flight a drain holds only in a process that recovery has told to exit
  (`Recovery.DrainHoldsOnlyOnExit`). `Recovery.DrainedWorkerReopens` and
  `Recovery.FailureReopensDrainedWorker` are runs of the two kinds.

## Model

| member | source | states |
|---|---|---|
| Raster.BoundingRect | service/mosaic.py:372 | The scan returns the least rectangle around the non-zero pixels, empty exactly when there is none. |
| Raster.ClampIsNoFarther | service/mosaic.py:401-402 | Clamping a pixel onto a rectangle never moves it away from a pixel inside. |
| OpenCv.LawsAreConsistent | service/mosaic.py:338-417 | Some primitives meet every law assumed of OpenCV (a fill covers its vertices, stays inside their bounds and moves with them, a root that compares with whole numbers as its square does, monotone rounding to a nearest integer, kernels within three sigma), so no theorem that assumes them is empty. |
| Grouping.GroupPolygons | service/mosaic.py:308-335 | The in-place merging ends with pairwise disjoint crops, each the hull of its members' widened, clipped bounds, every polygon in exactly one group, and the partition is the finest with separate hulls. |
| Grouping.OverlapForcesMerge | service/mosaic.py:322-333 | Two blocks that no separate partition can split, with overlapping hulls, cannot be separated from each other: each merge is forced. |
| Grouping.FinestIsUnique | service/mosaic.py:311-315 | There is only one finest separate partition, so the result does not depend on how it was computed. |
| Grouping.GroupingIgnoresOrder | service/mosaic.py:308-335 | Listing the polygons in another order gives the same groups. |
| Mask.PaintPolygons | service/mosaic.py:345-347 | The mask buffer ends with 255 on exactly the pixels some polygon fills and 0 elsewhere. |
| Mask.FillPolygons | service/mosaic.py:338-359 | The dilation done only around the filled pixels yields the whole mask's dilation: exactly the protected pixels are set. |
| Mask.DilationIsBounded | service/mosaic.py:353-358 | Dilation inside the widened bounds, clipped to the frame, is the unrestricted dilation. |
| Mask.PadIsADisc | service/mosaic.py:353-358 | Padding protects every pixel of the view within `pad` pixels (Euclidean) of a filled one, and none that is a whole column farther. |
| Mask.FeatheredMask | service/mosaic.py:362-417 | Every branch, computed only around the protected pixels, yields the whole-mask weight of each pixel. |
| Mask.BoundedWeight | service/mosaic.py:378-417 | The weight of a pixel is the one computed in the widened bounds, and zero outside them. |
| Mask.AlphaIsLocal | service/mosaic.py:378-417 | A view whose own protected pixels keep the reach away from the others computes the whole view's weights. |
| Mask.BorderIsEmpty | service/mosaic.py:400-402 | For margin 8, an empty pixel outside the view, clamped onto the view's border, is an empty pixel of the view. |
| Mask.EmptyDistanceIsLocal | service/mosaic.py:400-411 | For margin 8, the distance to the nearest empty pixel is the same inside the bounded view as in the whole mask. |
| Mask.SourcePixelsAreOpaque | service/mosaic.py:365-369 | Every protected source pixel has weight 255, for every margin. |
| Mask.OpaqueBand | service/mosaic.py:366-368 | A margin above 8 extends the fully blurred area: only its outermost 8 pixels taper. |
| Mask.TaperIsARamp | service/mosaic.py:387-395 | For margins other than 0 and 8 the outermost pixels fade in proportion to the distance left to margin + 1, over min(margin, 8) pixels, to the nearest weight, and nothing is left beyond the margin. |
| Mask.MorphIsARamp | service/mosaic.py:412-414 | For margin 8 the weight is 255/8 per pixel of distance to the nearest pixel outside the expanded area, to the nearest weight, and 255 from 8 pixels on. |
| Mask.AlphaRange | service/mosaic.py:392-394 | Every weight is in 0..255. |
| Mask.AlphaMoves | service/mosaic.py:143-147 | Weights do not depend on where a crop lies in the frame. |
| Mask.ProtectedMoves | service/mosaic.py:143-146 | Polygons shifted with their crop protect the same pixels. |
| Blur.CellIsLeast | service/mosaic.py:207-214 | The reduction cell is the least that is no smaller than the pixel size and keeps the reduced sigma within the cap. |
| Blur.TapsAgree | service/mosaic.py:217-243 | Every kernel tap of a cell that matters reads the same frame cell in the crop and in the whole frame, with reflected borders and for frames smaller than the kernel. |
| Blur.WindowIsWhole | service/mosaic.py:224-260 | Reduce, blur and enlarge on any crop that keeps the support give the whole frame's value. |
| Blur.BlurIsWindowIndependent | service/mosaic.py:224-260 | For every box and every pixel in it, the blurred window holds the whole frame's blurred pixel. |
| Blur.ReflectMirrors | service/mosaic.py:254-257 | Border reflection takes every index to its mirror image about the first and last sample, however often it must fold. |
| Blur.CellSamples | service/mosaic.py:246-253 | A cell is the average of its own `cell` x `cell` frame pixels; past the far edges the last column and row repeat. |
| Blur.NeighboursEnclose | service/mosaic.py:255-259 | A pixel is interpolated between the two cells whose centres enclose its own, with the distance from the left one as weight, and takes the end cell alone outside the outer centres. |
| Blur.BlurredPixelIs | service/mosaic.py:224-260 | The blurred pixel in one formula: cell averages mirrored at the borders, the horizontal and then the vertical kernel with the reduced sigma, interpolation of the four cells around it. |
| Blur.OnlyMeansSurvive | service/mosaic.py:250-260 | Nothing finer than a cell survives: frames whose cells have equal averages have the same blur at every pixel. |
| Compose.BlendIsExact | service/mosaic.py:196-203 | Each output is the weighted mean of source and blurred value rounded to nearest, lies between the two, and its numerator fits 16 bits. |
| Compose.AcceptedPolygonInFrame | service/mosaic.py:433-435 | All vertices of an accepted outline lie inside the frame. |
| Compose.AcceptedPolygonTraces | service/mosaic.py:433-435 | An accepted polygon has the vertices of the outline, in order: each column from the x and each row from the y received, on the first or last pixel when that is outside, else on the nearest pixel, between its floor and the next. |
| Compose.ShoelaceIsArea | service/mosaic.py:435-438 | The number whose zero refuses an outline is the signed area of its polygon as a fan of triangles. |
| Compose.AcceptedExactly | service/mosaic.py:420-439 | An outline is accepted exactly when it has 3 to 64 finite vertices and the polygon that traces it encloses some area. |
| Compose.ProtectedPolygons | service/mosaic.py:299-305 | Every object that must be blurred contributes its polygon and no other object does, the list is empty exactly when there is none, and one invalid protected outline fails the frame. |
| Compose.PlatesAreAlwaysProtected | service/mosaic.py:299-305 | A number plate is protected even when it is marked whitelisted, a face exactly when it is not. |
| Compose.CropProtects | service/mosaic.py:142-146 | Inside a crop, the frame's protected pixels are those of the crop's own polygons. |
| Compose.CropIsIsolated | service/mosaic.py:139-142 | With reach = pad + margin + 1 no other group's protected pixel comes within the feather's reach of a crop. |
| Compose.CropWeightIsFrameWeight | service/mosaic.py:142-147 | A crop computes the blend weights of one whole-frame pass. |
| Compose.NoCropNoWeight | service/mosaic.py:130-133 | Outside every crop the whole-frame weight is zero. |
| Compose.CropLayer | service/mosaic.py:143-150 | The trimmed layer carries the crop's weights, and is absent exactly when they are all zero. |
| Compose.BlendLayers | service/mosaic.py:154-204 | With one shared blur or one blur per layer, every layer pixel is blended with the whole frame's blur and the rest is the source. |
| Compose.LayersComposeFrame | service/mosaic.py:130-133 | Blending the groups' layers gives the frame composed at once. |
| Compose.ComposePolygons | service/mosaic.py:140-151 | The grouped composition equals the whole-frame composition at every pixel. |
| Compose.ComposeProtected | service/mosaic.py:120-151 | It succeeds exactly for a legal pad and margin and valid protected outlines, and then equals the whole-frame composition at every pixel. |
| Compose.ComposedIsBetween | service/mosaic.py:196-203 | Every composed pixel is a byte between the frame's pixel and the blurred one, and its blend stays within 16 bits. |
| Compose.FilledPixelsAreBlurred | service/mosaic.py:189-204 | Every pixel filled by the polygon that traces a protected object's outline leaves composition equal to the blurred pixel. |
| Compose.PaddedPixelsAreBlurred | service/mosaic.py:338-359 | So does every pixel within `pad` pixels of a filled one. |
| Compose.FarPixelsAreUntouched | service/mosaic.py:120-151 | A pixel more than pad + margin columns or rows from every filled one leaves composition as it came. |
| Compose.NothingProtectedIsIdentity | service/mosaic.py:162-163 | With nothing to protect, composition is the frame itself. |
| Recognition.MatchIsAboveThreshold | service/recognition.py:561-583 | A result approves exactly when some submitted entry that is still listed reaches the threshold, and names such an entry. |
| Recognition.BestIsFirst | service/recognition.py:568-571 | Of several entries that match equally well the first submitted one counts. |
| Recognition.InTimeMatchApproves | service/recognition.py:528-583 | A request younger than the timeout whose result is close enough to a listed entry approves its track in that frame, by a best such entry, if the track is in view or kept by the tracker. |
| Recognition.InTimeResult | service/recognition.py:528-583 | Any request answered in time leaves its track checked at its frame and version: approved by a best match exactly when an entry reaches the threshold, else unknown for an unusable result and not whitelisted otherwise. |
| Recognition.LateRequestIsDropped | service/recognition.py:585-605 | A request as old as the timeout leaves the pending ones, finished or not; its track is unapproved and must be checked afresh. |
| Recognition.SettledRequests | service/recognition.py:528-599 | A frame leaves exactly the requests that are younger than the timeout and not done. |
| Recognition.UnansweredWaits | service/recognition.py:528-599 | A track whose request is neither old nor done is left as it is. |
| Recognition.IdleTrackSettles | service/recognition.py:614-620 | A track that waits for nothing changes only by losing an approval whose entry is gone. |
| Recognition.SettledTracks | service/recognition.py:635-651 | A track survives a frame exactly when it is in view, approved and kept by the tracker, or, otherwise, seen at most `missing_track_frames` frames ago. |
| Recognition.CurrentIdsAreTracked | service/recognition.py:406-412 | Every ID in view gets a state seen now: its own, or an unknown one with a generation never used before; the others are left alone. |
| Recognition.DueFacesAreSubmitted | service/recognition.py:451-526 | An unapproved, idle track that is due by arithmetic on its last check is submitted with the snapshot when it can be, and must be checked afresh when it cannot; any other track is left alone. |
| Recognition.EarlyCheckUsesARetry | service/recognition.py:480-526 | Each check before the long interval is over uses one of the quick retries, none is left beyond the limit, and a changed whitelist gives them back. |
| Recognition.FrameSubmitsFace | service/recognition.py:416-429 | In a ready frame with a whitelist, the first face of a new or due track is submitted, while there is room for the objects before it. |
| Recognition.RequestsAreOfFaces | service/recognition.py:416-429 | Only faces with a crop that are not held are ever submitted. |
| Recognition.IdleFrameSubmitsNothing | service/recognition.py:416-417 | Without entries or before the model is ready nothing is submitted. |
| Recognition.ProcessKeepsInv | service/recognition.py:388-449 | Every frame keeps: in flight exactly with an owned token that is pending, approved exactly with a matched entry, generations unique and below the next one, pending requests within the limit. |
| Recognition.TokenHasOneOwner | service/recognition.py:489-497 | A pending request belongs to at most one track. |
| Recognition.RequestsNameTheirTrack | service/recognition.py:480-502 | A request that appears in a frame names the incarnation that is current in it. |
| Recognition.ApprovalHasEvidence | service/recognition.py:388-449 | Over any run, an approved incarnation was approved in an earlier frame by a completed match with that entry, which every snapshot since has listed. |
| Recognition.AllowedMeansApproved | service/recognition.py:430-443 | An object marked whitelisted is a face, never a plate, and its present incarnation has that evidence. |
| Recognition.AllowedExactly | service/recognition.py:430-443 | An object may stay visible exactly when it is a face whose track is approved by a listed entry. |
| Recognition.ApprovalPersists | service/recognition.py:504-526 | Approval lasts while the entry stays listed and the tracker keeps the ID, whatever the runtime, the queue, timeouts, late results and other edits do. |
| Recognition.RemovalRevokes | service/recognition.py:614-620 | Removing the matched entry withdraws the approval in the same frame. |
| Recognition.RetiredStaysRetired | service/recognition.py:635-651 | A retired incarnation never returns, so no late result of it can approve anything. |
| Recognition.StreamRecognition.ExpirePending | service/recognition.py:585-599 | The loop drops every request whose age has reached the timeout, whatever the order, and sends its owner back to unknown (see `Recognition.LateRequestIsDropped` for the ages). |
| Recognition.StreamRecognition.ApplyCompleted | service/recognition.py:528-553 | The loop applies every finished request to the track that still owns it and to no other. |
| Recognition.StreamRecognition.InvalidateRemovedMatches | service/recognition.py:614-620 | The loop withdraws exactly the approvals whose entry is gone. |
| Recognition.StreamRecognition.RetireMissing | service/recognition.py:635-651 | The loop removes exactly the tracks that the tracker or the frame limit has given up. |
| Recognition.StreamRecognition.ScheduleOne | service/recognition.py:451-502 | One face is submitted, skipped or refused, with the track state each outcome leaves. |
| Recognition.StreamRecognition.ProcessFrame | service/recognition.py:388-449 | The stages run in order on the whole state, and each object is marked by the resulting approvals; which requests are in time and what they decide is in `Recognition.InTimeMatchApproves` and `Recognition.LateRequestIsDropped`. |
| Registry.ImportMerges | service/recognition.py:106-129 | An import keeps what was there first and in order, adds exactly the missing IDs, in the order of their first appearance and each with the vector given last, keeps IDs distinct and the limit, and raises the version exactly when it adds something. |
| Registry.ImportIsIdempotent | service/recognition.py:106-129 | Importing the same entries again changes nothing. |
| Registry.ImportKeepsStored | service/recognition.py:115-128 | After an import every entry has a valid ID and a normalised vector. |
| Registry.ExportImportRoundTrip | ai_processor_server.py:757-806 | Importing one worker's export into an absent session of another succeeds exactly when the other has the same recognition model loaded and room for it, and then every ID, every vector and the order are kept. |
| Registry.DeleteRemoves | service/recognition.py:131-138 | A deletion succeeds exactly for a listed ID, removes just that one and raises the version. |
| Registry.AppendExactly | service/recognition.py:94-104 | Enrolment puts the normalised vector last behind the unchanged list and raises the version; it fails for an unusable vector, and otherwise exactly when the list is full. |
| Registry.DeleteUndoesAppend | service/recognition.py:94-138 | Deleting what was just enrolled gives the old list back, two versions on. |
| Registry.VersionTracksEntries | service/recognition.py:94-138 | A change that succeeds raises the version by one exactly when it changed the list. |
| Registry.SessionState.Append | service/recognition.py:94-104 | The new entry goes last and the version rises; on failure the list is unchanged. |
| Registry.SessionState.ImportEntries | service/recognition.py:106-129 | All entries are merged, or an invalid one or an overflow imports nothing. |
| Registry.SessionState.DeleteEntry | service/recognition.py:131-138 | The list loses exactly that entry, or an unknown ID changes nothing. |
| Registry.SessionRegistry.Create | service/recognition.py:168-184 | A session is added exactly when there is room. |
| Registry.SessionRegistry.GetOrCreate | service/recognition.py:286-294 | An existing session is returned as it is, a missing one is added exactly when there is room. |
| Registry.SessionRegistry.AcquireStream | service/recognition.py:255-260 | The lease is counted for the returned session; counts equal outstanding leases. |
| Registry.SessionRegistry.ReleaseStream | service/recognition.py:262-270 | It succeeds exactly for an outstanding lease, so a paired release never raises. |
| Registry.SessionRegistry.Delete | service/recognition.py:272-284 | It succeeds exactly for a session that no stream holds. |
| Registry.SessionRegistry.AppendEntry | service/recognition.py:208-223 | An absent session is registered only when the enrolment succeeds; no failure changes any whitelist. |
| Registry.SessionRegistry.ImportEntries | service/recognition.py:225-240 | An absent session is registered only when the whole import succeeds; no failure changes any whitelist. |
| Registry.SessionRegistry.DeleteWhitelistEntry | service/recognition.py:242-253 | Only that session's list loses the entry; bad or unknown IDs change nothing. |
| Registry.SessionRegistry.ExportWhitelist | ai_processor_server.py:757-775 | Returns the session's entries, or none for an absent session, with the loaded model's fingerprint; refused without a model. |
| Registry.SessionRegistry.ImportWhitelist | ai_processor_server.py:777-806 | Entries of another model are refused before any session is touched; no failure changes any whitelist. |
| EndToEnd.BypassIsFullApproval | service/vod.py:940-953 | The frame is passed through exactly when every object is approved; a plate always forces composition. |
| EndToEnd.BypassIsEmptyProtection | service/mosaic.py:299-305 | The pass-through condition holds exactly when the protected list is empty. |
| EndToEnd.RunFrame | service/vod.py:917-953 | Every pixel filled by the polygon that traces the outline of an object that is not approved is blurred in the result, a fully approved frame is returned as it is, and a refusal names an unapproved outline with the wrong number of vertices, a non-finite one or no area. |
| EndToEnd.VisibleMeansApproved | ai_processor_server.py:499-526 | Over a whole stream, a covered pixel that is not blurred proves an approved face with its evidence. |
| Vod.StepKeepsInv | service/vod.py:667-1017 | No effect, pause or crash breaks the agreement of checkpoint, files and job state. |
| Vod.CheckpointAlwaysTiles | service/vod.py:892-915 | At every moment the checkpoint's segments tile [0, next) in order, all of full length except possibly one at the end of the input. |
| Vod.AcceptedResumeIsFaithful | service/vod.py:717-744 | Whatever a resume accepts lists only files that hold the listed frames. |
| Vod.OutputIsWhole | service/vod.py:974-1017 | An output that is put in place holds every input frame exactly once, in order. |
| Vod.MuxedIsWhole | service/vod.py:984-1017 | Concatenating faithful tiles gives the frames [0, next). |
| Vod.PausedResumes | service/vod.py:667-744 | A paused job's token is accepted with unchanged inputs exactly when it is not empty or no older checkpoint is there. |
| Vod.PauseKeepsProgress | service/vod.py:806-814 | A pause hands out the token of the last commit, loses less than one segment of frames and only the unfinished file, and a resume with it continues after that commit. |
| Vod.FailureKeepsProgress | service/vod.py:667-1017 | After a crash or a failing muxer between commits, a resume with the last token continues after the last commit. |
| Vod.FinishReportsOutput | service/vod.py:974-1017 | A job is reported done only with the whole output in place, and no other step than the last replacement touches the output. |
| Vod.LoadsExactly | service/vod.py:717-744 | What is loaded is whole, names this token and job and lists files that exist; the reason of each refusal follows from which of these fails. |
| Vod.ResumeAcceptedExactly | service/vod.py:667-744 | A resume is accepted exactly with the empty token and no checkpoint, or with the present checkpoint's segment count and fingerprint, the same input, parameters and whitelist, and every listed file there. |
| Vod.OtherTokensAreRefused | service/vod.py:731-733 | While there is a checkpoint every other token is refused. |
| Vod.SupersededTokenIsRefused | service/vod.py:731-749 | Over any history, the token of a commit is refused after any later commit, across pauses, crashes and resumes, as long as no fresh run starts. |
| Vod.RefusedPause | service/vod.py:667-744 | A history in which a job commits two segments and crashes, is started afresh, pauses before its first commit, and is refused when it resumes with the token that pause returned. |
| Vod.FreshRunSafety | service/vod.py:690-697 | A fresh run always leaves a safe disk exactly when no one-segment checkpoint lies in the work directory. |
| Vod.DamagingRun | service/vod.py:690-743 | The run over such a checkpoint that leaves it resumable over a truncated file. |
| Vod.VodJob.LoadCheckpoint | service/vod.py:717-744 | A missing, unreadable or malformed file is invalid; otherwise the checkpoint or the first reason to refuse it, among them any token but the present one (`Vod.LoadsExactly`). |
| Vod.VodJob.FinishSegment | service/vod.py:892-915 | The finished file is listed and the checkpoint replaced atomically; the token names the committed state. |
| Vod.VodJob.Finalize | service/vod.py:974-1017 | On success the output is the whole input; on failure only the part file may have changed. |
| Vod.VodJob.Process | service/vod.py:752-890 | Every effect of the loops is a step of the transition system, a finished job has the whole output, a pause returns the committed token. |
| Vod.VodJob.Run | service/vod.py:667-715 | A refused resume leaves the disk alone, and a superseded token is refused (`Vod.SupersededTokenIsRefused`); a finished job has the whole output; every disk it leaves loads faithfully or not at all. |
| Vod.VodJob.CrashAnywhere | service/vod.py:752-890 | A crash after any recorded effect leaves a disk that loads faithfully or not at all. |
| Lane.StepKeepsInv | service/runtime.py:94-133 | No step raises; at most one acquirer owns or has been granted the lane, a free lane leaves nobody waiting, and no finished waiter is completed again. |
| Lane.RunKeepsInv | service/runtime.py:61-133 | The same over any interleaving of calls, cancellations, resumptions and releases. |
| Lane.GrantIsFair | service/runtime.py:125-133 | Who gets the lane was first: no live acquirer waits while a recorded one is granted, and nobody of the class waits in front. |
| Lane.LiveBeforeVod | service/runtime.py:64-68 | While a live acquirer waits, no recorded one gets the lane. |
| Lane.GrantsFollowArrival | service/runtime.py:64-68 | When an acquirer is granted, every earlier caller of its class has been granted or cancelled. |
| Lane.LiveWaitIsBounded | service/runtime.py:64-68 | Each release uses up one live acquirer in front: with k in front, a live acquirer is granted by release k + 1 unless cancelled. |
| Lane.CancelledGranteePassesOn | service/runtime.py:103-109 | A granted acquirer whose cancellation is due when it resumes hands the lane to a waiter, if there is one. |
| Lane.CancelledNeverOwns | service/runtime.py:101-113 | Over any run, a cancelled acquirer owns the lane in no later state, even if it had been granted it. |
| Lane.GranteeOwns | service/runtime.py:101-113 | An acquirer that is never cancelled owns the lane when it resumes. |
| Lane.CancelledGranteeHandsOn | service/runtime.py:103-109 | Over any run, an acquirer cancelled after it was granted the lane leaves without it when it resumes and hands it to a waiter, or frees it when nobody waits. |
| Lane.ReleaseRaisesExactly | service/runtime.py:115-123 | A release raises exactly when nobody holds the lane. |
| Lane.BlockedExactly | service/runtime.py:87-92 | A caller is blocked exactly when somebody of a class that goes first waits uncancelled or has been granted the lane. |
| Lane.ReleaseSparesTheGone | service/runtime.py:115-123 | A release leaves acquirers that are gone as they are. |
| Lane.PriorityLane.IsBlocked | service/runtime.py:87-92 | Blocked exactly when an uncancelled waiter of a class that goes first exists. |
| Lane.PriorityLane.Acquire | service/runtime.py:94-100 | Takes a free, unblocked lane or joins the end of its queue. |
| Lane.PriorityLane.NextWaiter | service/runtime.py:125-133 | The popping loop drops the leading cancelled waiters and returns the first other one, live queue first. |
| Lane.PriorityLane.ReleaseLane | service/runtime.py:115-123 | Hands the lane over or frees it; raises exactly when nobody holds it. |
| Lane.PriorityLane.Wake | service/runtime.py:101-113 | The caller owns the lane, or leaves and hands on what it was granted. |
| Recovery.RunKeepsInv | ai_processor_server.py:898-959 | Over any interleaving: live recovery tasks are the one referred to, and a check of the current generation runs with no stalled inference. |
| Recovery.OneRecoveryTask | ai_processor_server.py:911-919 | At most one recovery task is alive, and the servicer refers to it. |
| Recovery.OpenMeansHealthy | ai_processor_server.py:922-950 | While streams are admitted no recovery is under way and nothing is recorded as stalled; `Recovery.TimedOutKeepsClosed` says what is recorded. |
| Recovery.TimedOutKeepsClosed | ai_processor_server.py:588-632 | Over any run, a timed-out inference stays recorded and admission stays closed until that inference ends. |
| Recovery.StalledTimedOut | ai_processor_server.py:588-632 | Every inference recorded as stalled timed out and has not ended since. |
| Recovery.NoAdmissionDuringStall | ai_processor_server.py:274-276 | Between a timeout and the next admitted stream the inference has ended. |
| Recovery.FailureCloses | ai_processor_server.py:898-920 | A failure of any kind, a drain or closing keeps admission closed until a self-check passes. |
| Recovery.NoRecoveryAfterGivingUp | ai_processor_server.py:935-946 | After a recovery gave up or was cancelled, admission stays closed and no other recovery starts. |
| Recovery.StreamsAreCounted | ai_processor_server.py:274-276 | The stream count is the streams admitted less those that left, whatever failed in between. |
| Recovery.ReopensAfterCheck | ai_processor_server.py:922-950 | Admission reopens only when a self-check begun after the latest failure has passed. |
| Recovery.PassedCheckDecides | ai_processor_server.py:926-950 | A passed check ends the recovery exactly when no failure came after it began, and then reopens admission exactly when the worker is not closing; otherwise another round starts for that failure. |
| Recovery.FailureIsAnswered | ai_processor_server.py:898-945 | After a failure outside closing, until admission reopens, a recovery task is alive or the process was told to exit. |
| Recovery.ClosedStaysClosed | ai_processor_server.py:873-880 | From closing on nothing is admitted, no failure is counted and no recovery starts. |
| Recovery.PublicationsAreConserved | ai_processor_server.py:898-979 | Each failure outside closing and each reopening queues one publication, which stays queued until it gets the lock or is given up. |
| Recovery.StaysSettled | ai_processor_server.py:970-979 | From the start, and from any publication that begins, health is right or a publication that will make it right is in flight. |
| Recovery.HealthFollowsAdmission | ai_processor_server.py:970-979 | Once no publication is in flight, and none was lost since, the published health equals admission. |
| Recovery.DrainMayReopenExactly | ai_processor_server.py:891-897 | After a drain and before closing, admission can open again exactly when a recovery is alive at the drain, or none is and a stream is in flight. |
| Recovery.DrainHoldsOnlyOnExit | ai_processor_server.py:898-959 | With a stream in flight, a drain can be undone exactly when the last recovery has not told the process to exit. |
| Recovery.QuietDrainMayReopenExactly | ai_processor_server.py:922-959 | Corollary for continuations without a further failure: only a recovery already alive can reopen admission. |
| Recovery.DrainedWorkerReopens | ai_processor_server.py:1823-1832 | A run in which a recovery under way reopens a draining worker. |
| Recovery.FailureReopensDrainedWorker | ai_processor_server.py:1823-1832 | A run in which a stream in flight fails during the drain and the recovery it starts reopens the worker. |
| Recovery.Servicer.AdmitStream | ai_processor_server.py:274-276 | A stream is admitted and counted exactly when admission is open and the runtime is ready. |
| Recovery.Servicer.EnterRecovery | ai_processor_server.py:898-920 | Admission stops; outside closing the failure is counted, a recovery task exists and a publication is queued. |
| Recovery.Servicer.InferenceFailed | ai_processor_server.py:588-632 | Admission stops and a timed-out inference is recorded as stalled in the same step; `Recovery.TimedOutKeepsClosed` says for how long. |
| Recovery.Servicer.SelfCheckPassed | ai_processor_server.py:932-959 | A newer failure starts another round; otherwise admission reopens, with no stalled inference, unless closing. |
| Client.WindowIsConserved | grpc_client.py:550-735 | Free slots, unanswered frames and the slot in the writer's hand add up to the window; a writer out of slots is owed a window of responses. |
| Client.ResultsAreInOrder | grpc_client.py:573-588 | Against any peer the results are the source's first frames in order, each with the response of its ID and timestamp, IDs rising. |
| Client.FrameAcceptedExactly | grpc_client.py:813-868 | A frame is taken exactly when it is a marked JPEG or packed pixels of the stated even size, with a 64-bit timestamp, a 32-bit ID above the last one, and known options. |
| Client.OnlyWellFormedFramesAreSent | grpc_client.py:661-697 | Over any run, whatever the source yields, every frame written is such a frame, IDs rise, and queue and results hold exactly the first frames. |
| Client.PulledExactly | grpc_client.py:661-697 | The writer queues the next item exactly when it is such a frame; else it gives its slot back and ends, for the half-close after the last item and with an error otherwise. |
| Client.FailureIsFinal | grpc_client.py:550-640 | After a failed write or half-close, an error status or an abandoned stream nothing completes normally, and a failed stream owes nothing. |
| Client.ResultsTakeTurns | grpc_client.py:573-588 | The reader takes no further message before the consumer has come back for the last result. |
| Client.CompletionIsTotal | grpc_client.py:599-609 | A call completes normally only when the source ended and every frame has its result. |
| Client.EndOfStreamIsExact | grpc_client.py:573-609 | An end of stream completes exactly when the source is exhausted, the writer finished and nothing is unanswered. |
| Client.NothingUnprocessedIsDelivered | grpc_client.py:735-770 | Against any peer and however the stream ends, every delivered result is a whole image in its source's format, with every unapproved face reported as anonymised outside blur mode, or, only when the caller asked for error replies, an error without pixels. |
| Client.DeliveredExactly | grpc_client.py:573-588 | A message becomes a result exactly when it is such an answer to the oldest unanswered frame; any other message ends the stream. |
| Client.VideoStream.PullFrame | grpc_client.py:661-697 | The next frame is queued under its slot, or the slot is freed when the source ends, fails or yields an invalid frame. |
| Client.VideoStream.Wake | grpc_client.py:560-588 | A writer error comes first; then the reply ends the stream, fails it, or answers the oldest frame. |
| Client.VideoStream.TakeResponse | grpc_client.py:578-588 | The oldest frame is paired with the response and its slot freed, or the stream fails. |
| Containers.FirstChunkInverts | service/frame.py:172-182 | A well-formed PNG chunk is read back from any bytes it starts. |
| Containers.PngSizeBytes | service/frame.py:184-190 | A PNG's width and height are bytes 16 to 19 and 20 to 23, most significant first. |
| Containers.PngAcceptsExactly | service/frame.py:169-202 | The walker accepts exactly the files whose chunks are one leading 13-byte header, then others with valid checksums and no animation, then one final empty end, and reads the header's size. |
| Containers.PngDimensions | service/frame.py:169-202 | The loop gives that verdict and the source's reason for a refusal. |
| Containers.WebpAcceptsExactly | service/frame.py:205-250 | The walker accepts exactly RIFF files of the declared length whose chunks show one frame, no animation and at most one canvas, of the frame's size. |
| Containers.CanvasBytes | service/frame.py:220-228 | The canvas of an extended header is one more than its three-byte fields, least significant first. |
| Containers.LosslessSizeReadsBack | service/frame.py:231-233 | A lossless header's size comes back as it was packed: width less one, height less one, fourteen bits each. |
| Containers.LossySizeReadsBack | service/frame.py:237-241 | A lossy header's size comes back from under its two scale bits. |
| Containers.AnimationFlag | service/frame.py:223-224 | An extended header passes exactly when its second lowest bit is clear. |
| Containers.WebpDimensions | service/frame.py:205-250 | The loop gives that verdict and the source's reason for a refusal. |
| Containers.NonJpegDimensions | service/frame.py:161-166 | A PNG or WebP signature selects its walker; anything else is unsupported. |
| Containers.JpegAcceptsExactly | service/frame.py:264-312 | The walker reads a size exactly when the file is skippable segments followed by a frame header with that non-zero size. |
| Containers.JpegSizeBytes | service/frame.py:305-312 | The size stands in the frame header after the precision: height, then width, most significant byte first, neither zero. |
| Containers.MarkerClasses | service/frame.py:20-37 | Which marker codes start a frame and which stand alone, one by one. |
| Containers.ReadMarker | service/frame.py:283-290 | Skips any number of fill bytes and returns the marker code that precedes the last two bytes. |
| Containers.ReadSegment | service/frame.py:293-302 | Returns the end of a segment that fits the file, or why there is none. |
| Containers.JpegDimensions | service/frame.py:264-280 | The loop gives the walk's verdict. |
| Containers.DeclaredSize | service/frame.py:84-95 | A file with JPEG start and end markers passes exactly when it is within the byte limit and has a frame header whose size is within the dimension, edge and pixel limits. |
| Containers.DeclaredImageSize | service/frame.py:99-110 | A JPEG start marker selects the JPEG checks; anything else passes exactly when it is a still PNG or WebP image within the byte and size limits. |
| Nms.StableOrderIsRight | service/mobilefaceswap.py:253 | The order lists every box once, best score first, ties in their original order. |
| Nms.IouIsSharedPixels | service/mobilefaceswap.py:255-265 | On whole coordinates the overlap measure is the share of the two boxes' joint pixels that they have in common. |
| Nms.SuppressedMeans | service/mobilefaceswap.py:254-267 | No two kept boxes overlap by more than 0.4, and every other box does with a kept one of higher score, or of equal score and listed earlier. |
| Nms.Suppress | service/mobilefaceswap.py:254-267 | The kept boxes are in score order and pairwise overlap at most 0.4, and every dropped box overlaps a better kept one by more. |
| Nms.SuppressionIsUnique | service/mobilefaceswap.py:253-267 | That description has exactly one solution, and the loop finds it. |
| Nms.SplitUndoesBatch | service/mobilefaceswap.py:222-229 | The reshape and transpose give each image back exactly its own rows, in order. |
| Nms.BatchUndoesSplit | service/mobilefaceswap.py:222-229 | No row of the batch is lost or used twice. |
| Nms.DetectMany | service/mobilefaceswap.py:209-232 | With all nine heads split by image, batched detection gives every image what it would get alone, in the order asked. |

## Left out

- Neural inference, tracking and embedding arithmetic: opaque; `normalize` and `similarity` are parameters.
- OpenCV's floating point: the primitives (polygon fill, square root, rounding, area mean, kernel weights, linear interpolation) are a record of functions with the laws of `OpenCv.Lawful`, `rint` is applied pointwise, and one colour plane stands for three.
- Input type checks of images and parameters, JPEG and yuv encoding: no decision depends on them.
- ffmpeg, hashing and stat calls: the decoder is a fixed frame sequence and a fingerprint is an identity; `concat.txt`, progress, warm-up and timing are not modelled.
- Vod.OutputIsWhole: for histories whose fresh runs find no one-segment checkpoint; `Vod.FreshRunSafety` shows what happens otherwise.
- Vod.SupersededTokenIsRefused: a fresh run that commits the same contents again may accept an old token, because the checkpoint's creation time and job ID are not modelled.
- Vod.StepKeepsInv: a write is durable at once, so a crash is a crash of the process and not a loss of power: segment files are not flushed to disk and their `sha256` is not compared on load. A checkpoint file that someone else damaged is met by `Vod.VodJob.LoadCheckpoint` but is no state of a history.
- Lane.RunKeepsInv: only the holder releases, as `infer` and `__aexit__` do.
- Lane.PriorityLane.Wake: a waiter leaves its own queue; asyncio's futures are states of the acquirer.
- Recovery.HealthFollowsAdmission: runs start once startup has opened admission and published it; the publication of shutdown is not part of the model.
- Recovery.Servicer.SelfCheckPassed: the retry loop is cut at its awaits, and the deadline and a failing self-check are one event.
- Registry.SessionRegistry.AppendEntry: a generated entry ID is taken to be new, as a random UUID is; creation times and summaries are not modelled.
- Registry.ImportKeepsStored: normalising a normalised vector is taken to leave it alone, so float32 rounding of a second normalisation is not modelled.
- Recognition.StreamRecognition.ApplyCompleted: the stale-result counter, queue statistics and closing are not modelled; a frame's clock readings and futures are inputs.
- Client.VideoStream.PullFrame: bytes-like conversion and the RPC's own failures beyond `write`, `read` and half-close; the status text arrives stripped and case-folded.
- Containers.PngDimensions: the checksum is a parameter, and error texts are one constructor each; what the decoder itself makes of the pixels is not modelled.
- Nms.Suppress: boxes and scores are real numbers, so NaN and float32 rounding are not modelled; score thresholds and anchor decoding are left out.
- Nms.DetectMany: a batch head is taken to list its rows by position, image, anchor, as the source says of the official heads.
- gRPC and web transports, VOD job table, LRU caches, face identities, mask hold and the browser code: they would add only easy members.
