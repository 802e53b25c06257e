/** One frame from recognition to pixels (service/vod.py, _run_frame; the live server does the same):
    whatever recognition did not approve leaves the frame blurred. */
module EndToEnd {
  import opened Raster
  import opened OpenCv
  import opened Detection
  import opened Blur
  import opened Compose
  import R = Recognition

  /** An outline as the detector reports it; None when malformed. */
  type Outline = Option<seq<Vertex>>

  predicate Approved(s: R.State, frame: R.Frame, i: nat)
    requires i < |frame.objects|
  {
    R.Allowed(s, frame.objects[i], frame.snapshot.Ids())
  }

  /** The objects as the compositor sees them after recognition has marked them. */
  function Marked(s: R.State, frame: R.Frame, outlines: seq<Outline>): (items: seq<Item>)
    requires |outlines| == |frame.objects|
    ensures |items| == |outlines|
  {
    seq(|outlines|, i requires 0 <= i < |outlines| => Item(frame.objects[i].kind, Approved(s, frame, i), outlines[i]))
  }

  /** The bypass: no object needs blurring. It is taken exactly when every object is approved, and an
      approved object is a face, so a plate always forces composition. */
  lemma BypassIsFullApproval(s: R.State, frame: R.Frame, outlines: seq<Outline>)
    requires |outlines| == |frame.objects|
    ensures forall i :: 0 <= i < |outlines| ==> (MustBlur(Marked(s, frame, outlines)[i]) <==> !Approved(s, frame, i))
    ensures (forall item :: item in Marked(s, frame, outlines) ==> !MustBlur(item)) <==>
            forall i :: 0 <= i < |outlines| ==> Approved(s, frame, i)
    ensures forall i :: 0 <= i < |outlines| && frame.objects[i].kind.IsPlate() ==> !Approved(s, frame, i)
  {
    var items := Marked(s, frame, outlines);
    forall i | 0 <= i < |outlines| ensures MustBlur(items[i]) <==> !Approved(s, frame, i) {
      assert items[i].whitelisted == Approved(s, frame, i);
    }
    assert forall i :: 0 <= i < |items| ==> items[i] in items;
  }

  /** The protected list is empty exactly when the frame is passed through. */
  lemma BypassIsEmptyProtection(cv: Cv, s: R.State, frame: R.Frame, outlines: seq<Outline>, width: nat, height: nat)
    requires RintLaw(cv) && width > 0 && height > 0 && |outlines| == |frame.objects|
    ensures (forall i :: 0 <= i < |outlines| ==> Approved(s, frame, i)) <==>
            ProtectedPolygons(cv, Marked(s, frame, outlines), width, height) == Ok([])
  {
    var items := Marked(s, frame, outlines);
    BypassIsFullApproval(s, frame, outlines);
    if forall item :: item in items ==> !MustBlur(item) {
      NothingProtected(cv, items, width, height);
    }
    hide ProtectedPolygons, Marked, Approved, MustBlur;
  }

  /** Pixel p is filled by the polygon that traces the outline. */
  ghost predicate Covers(cv: Cv, image: Image, outline: Outline, p: Point) {
    image.Bounds().Has(p) && outline.Some? && exists polygon :: CoveredBy(cv, image, outline.value, polygon, p)
  }

  ghost predicate CoveredBy(cv: Cv, image: Image, outline: seq<Vertex>, polygon: Polygon, p: Point) {
    Traces(cv, polygon, outline, image.width, image.height) && cv.paints(polygon, p)
  }

  /** Every pixel covered by an object that is not approved holds the blurred value. */
  ghost predicate Anonymised(cv: Cv, s: R.State, frame: R.Frame, outlines: seq<Outline>, image: Image, out: Image,
                             radius: real, pixelSize: nat)
    requires |outlines| == |frame.objects| && image.Valid() && out.Valid() && pixelSize > 0
  {
    && out.width == image.width && out.height == image.height
    && forall i, p :: 0 <= i < |outlines| && !Approved(s, frame, i) && Covers(cv, image, outlines[i], p) ==>
                        IsBlurred(cv, image, out, radius, pixelSize, p)
  }

  ghost predicate IsBlurred(cv: Cv, image: Image, out: Image, radius: real, pixelSize: nat, p: Point)
    requires image.Valid() && out.Valid() && out.width == image.width && out.height == image.height && pixelSize > 0
  {
    image.Bounds().Has(p) && out.At(p.x, p.y) == BlurredAt(cv, image, radius, ReductionCell(radius, pixelSize), p)
  }

  /** Marks the objects, then composes the frame, or passes it through when nothing needs blurring. */
  method RunFrame(recognition: R.StreamRecognition, frame: R.Frame, outlines: seq<Outline>, cv: Cv, image: Image,
                  radius: real, pixelSize: nat, margin: nat, pad: nat)
    returns (r: Result<Image>, order: seq<int>)
    requires |outlines| == |frame.objects| && Lawful(cv)
    requires image.Valid() && image.width > 0 && image.height > 0 && radius > 0.0 && pixelSize > 0
    requires margin <= MAX_MASK_MARGIN && pad <= MAX_MASK_PAD
    modifies recognition
    ensures R.Enumerates(order, frame)
    ensures recognition.Now() == R.Process(recognition.cfg, old(recognition.Now()), frame, order)
    ensures r.Ok? ==> && r.value.Valid()
                      && Anonymised(cv, recognition.Now(), frame, outlines, image, r.value, radius, pixelSize)
    ensures r.Ok? && (forall i :: 0 <= i < |outlines| ==> Approved(recognition.Now(), frame, i)) ==> r.value == image
    ensures r.Err? ==> exists i ::
            0 <= i < |outlines| && !Approved(recognition.Now(), frame, i) && Malformed(cv, image, outlines[i])
  {
    var allowed;
    allowed, order := recognition.ProcessFrame(frame);
    var items := seq(|outlines|, i
                     requires 0 <= i < |outlines| => Item(frame.objects[i].kind, allowed[i], outlines[i]));
    ghost var s := recognition.Now();
    assert items == Marked(s, frame, outlines);
    hide R.Process;
    BypassIsFullApproval(s, frame, outlines);
    hide Marked, Approved;
    if exists i :: 0 <= i < |items| && MustBlur(items[i]) {
      r := ComposeProtected(cv, image, items, radius, pixelSize, margin, pad);
      if r.Ok? {
        ComposedIsAnonymised(cv, s, frame, outlines, image, r.value, radius, pixelSize, margin, pad);
      } else {
        RefusedIsMalformed(cv, s, frame, outlines, image);
      }
    } else {
      AllApprovedIsAnonymised(cv, s, frame, outlines, image, radius, pixelSize);
      r := Ok(image);
    }
  }

  /** Not three to 64 finite vertices whose traced polygon encloses some area. */
  ghost predicate Malformed(cv: Cv, image: Image, outline: Outline) {
    !(&& outline.Some? && 3 <= |outline.value| <= 64
      && exists polygon :: Traces(cv, polygon, outline.value, image.width, image.height) && Fan(polygon, 1) != 0)
  }

  lemma AllApprovedIsAnonymised(cv: Cv, s: R.State, frame: R.Frame, outlines: seq<Outline>, image: Image, radius: real,
                                pixelSize: nat)
    requires |outlines| == |frame.objects| && image.Valid() && pixelSize > 0
    requires forall i :: 0 <= i < |outlines| ==> Approved(s, frame, i)
    ensures Anonymised(cv, s, frame, outlines, image, image, radius, pixelSize)
  {
  }

  ghost predicate IsComposed(cv: Cv, items: seq<Item>, image: Image, out: Image, radius: real, pixelSize: nat,
                             margin: nat, pad: nat)
    requires Lawful(cv) && image.Valid() && image.width > 0 && image.height > 0 && pixelSize > 0 && radius > 0.0
    requires ProtectedPolygons(cv, items, image.width, image.height).Ok?
  {
    && out.Valid() && out.width == image.width && out.height == image.height
    && forall p :: image.Bounds().Has(p) ==>
         out.At(p.x, p.y) == ComposedAt(cv, image, ProtectedPolygons(cv, items, image.width, image.height).value,
                                        radius, ReductionCell(radius, pixelSize), margin, pad, p)
  }

  lemma ComposedIsAnonymised(cv: Cv, s: R.State, frame: R.Frame, outlines: seq<Outline>, image: Image, out: Image,
                             radius: real, pixelSize: nat, margin: nat, pad: nat)
    requires |outlines| == |frame.objects| && Lawful(cv)
    requires image.Valid() && image.width > 0 && image.height > 0 && radius > 0.0 && pixelSize > 0
    requires ProtectedPolygons(cv, Marked(s, frame, outlines), image.width, image.height).Ok?
    requires IsComposed(cv, Marked(s, frame, outlines), image, out, radius, pixelSize, margin, pad)
    ensures Anonymised(cv, s, frame, outlines, image, out, radius, pixelSize)
  {
    var items := Marked(s, frame, outlines);
    BypassIsFullApproval(s, frame, outlines);
    forall i, p | 0 <= i < |outlines| && !Approved(s, frame, i) && Covers(cv, image, outlines[i], p)
      ensures IsBlurred(cv, image, out, radius, pixelSize, p)
    {
      assert items[i] in items && items[i].outline == outlines[i];
      var polygon :| CoveredBy(cv, image, outlines[i].value, polygon, p);
      hide Traces, ProtectedPolygons, PolygonOf, ComposedAt, BlurredAt, Marked, Approved, MustBlur;
      FilledPixelsAreBlurred(cv, image, items, items[i], polygon, radius, pixelSize, margin, pad, p);
    }
  }

  lemma RefusedIsMalformed(cv: Cv, s: R.State, frame: R.Frame, outlines: seq<Outline>, image: Image)
    requires |outlines| == |frame.objects| && Lawful(cv) && image.width > 0 && image.height > 0
    requires ProtectedPolygons(cv, Marked(s, frame, outlines), image.width, image.height).Err?
    ensures exists i :: 0 <= i < |outlines| && !Approved(s, frame, i) && Malformed(cv, image, outlines[i])
  {
    var items := Marked(s, frame, outlines);
    BypassIsFullApproval(s, frame, outlines);
    hide ProtectedPolygons, PolygonOf, Approved, MustBlur;
    var item :| item in items && MustBlur(item) && PolygonOf(cv, item.outline, image.width, image.height).Err?;
    var i :| 0 <= i < |items| && items[i] == item;
    AcceptedExactly(cv, outlines[i], image.width, image.height);
    hide Traces, Fan;
    assert Malformed(cv, image, outlines[i]);
  }

  /** Over a whole stream: if in some frame a pixel inside an object's polygon is not the blurred one, the
      object is a face, never a plate, and its present track incarnation was approved earlier by an
      embedding that reached the threshold for an entry listed in every snapshot since. */
  lemma VisibleMeansApproved(cfg: R.Config, states: seq<R.State>, frames: seq<R.Frame>, orders: seq<seq<int>>, n: nat,
                             i: nat, outlines: seq<Outline>, cv: Cv, image: Image, out: Image, radius: real,
                             pixelSize: nat, p: Point)
    requires R.Run(cfg, states, frames, orders) && n < |frames| && |outlines| == |frames[n].objects| && i < |outlines|
    requires image.Valid() && out.Valid() && pixelSize > 0
    requires Anonymised(cv, states[n + 1], frames[n], outlines, image, out, radius, pixelSize)
    requires Covers(cv, image, outlines[i], p) && !IsBlurred(cv, image, out, radius, pixelSize, p)
    ensures frames[n].objects[i].kind.IsFace() && !frames[n].objects[i].kind.IsPlate()
    ensures R.Allowed(states[n + 1], frames[n].objects[i], frames[n].snapshot.Ids())
    ensures var o := frames[n].objects[i];
            var track := states[n + 1].tracks[o.trackId.value];
            exists m :: 0 <= m <= n && R.Evidence(cfg, states, frames, m, n, o.trackId.value, track.generation,
                                                  track.matched.value)
  {
    hide R.Evidence, Covers, IsBlurred;
    assert Approved(states[n + 1], frames[n], i);
    hide R.Run;
    R.AllowedMeansApproved(cfg, states, frames, orders, n, frames[n].objects[i]);
  }
}
