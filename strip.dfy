/**
 * The layout half of generate_strip (booth.py:233-249): each of the first
 * three captures is scaled to cover a 533x833 piece, the centred piece is
 * cropped out, and it is pasted at its fixed slot of the portrait template;
 * the strip is then saved under its session's name. Decoding, rotation,
 * resampling and pasting of pixels are not modelled; the size the decoder
 * reports for each capture is a parameter.
 */
module Strip {
  import opened Wrappers
  import opened Geometry
  import opened Naming

  /** The size of each photo on the strip (booth.py:237). */
  const PieceDims := Dims(533, 833)

  datatype Point = Point(x: int, y: int)

  /** Where each photo's top-left corner goes on the template (booth.py:238). */
  const SlotPositions: seq<Point> := [Point(60, 60), Point(607, 60), Point(60, 907)]

  /** One photo of the strip: which capture, where it goes, what it is scaled to and the box cropped out. */
  datatype Placement = Placement(source: string, at: Point, scaled: Dims, box: Box)

  /** The finished strip: its file and its photos in slot order. */
  datatype StripJob = StripJob(path: string, placements: seq<Placement>)

  /**
   * One iteration of generate_strip's loop for an image of the given size:
   * the image is scaled as get_resize_transform says, and the piece cut out
   * of it is exactly the slot's size, lies inside the scaled image and is
   * centred in it to within one pixel.
   */
  function Place(source: string, size: Dims, at: Point): (p: Placement)
    requires Positive(size)
    ensures p.source == source && p.at == at
    ensures p.scaled == ResizeTransform(size, PieceDims).dims
    ensures p.box.right - p.box.left == PieceDims.w && p.box.lower - p.box.upper == PieceDims.h
    ensures 0 <= p.box.left && p.box.right <= p.scaled.w
    ensures 0 <= p.box.upper && p.box.lower <= p.scaled.h
    ensures 0 <= (p.scaled.w - p.box.right) - p.box.left <= 1
    ensures 0 <= (p.scaled.h - p.box.lower) - p.box.upper <= 1
  {
    var t := ResizeTransform(size, PieceDims);
    Placement(source, at, t.dims, CropBox(t.crop, PieceDims))
  }

  /** The rectangles a photo covers when pasted at `a` and at `b` do not overlap. */
  predicate Apart(a: Point, b: Point)
  {
    a.x + PieceDims.w <= b.x || b.x + PieceDims.w <= a.x
    || a.y + PieceDims.h <= b.y || b.y + PieceDims.h <= a.y
  }

  /** No two photos of the strip overlap. */
  lemma SlotsDisjoint()
    ensures forall i, j :: 0 <= i < j < |SlotPositions| ==> Apart(SlotPositions[i], SlotPositions[j])
  {
  }

  /**
   * generate_strip: walks the slot positions with an index into the images;
   * fewer images than slots stops it at the first missing one (booth.py's
   * IndexError), before anything is saved. Otherwise the i-th slot holds the
   * i-th image, and the strip is saved under the session's strip name.
   */
  method GenerateStrip(images: seq<string>, sizeOf: string -> Dims, pid: nat, session: nat)
    returns (r: Option<StripJob>)
    requires forall k :: 0 <= k < |images| ==> Positive(sizeOf(images[k]))
    ensures r.Some? <==> |images| >= |SlotPositions|
    ensures r.Some? ==> r.value.path == StripFileName(pid, session)
    ensures r.Some? ==> |r.value.placements| == |SlotPositions|
    ensures r.Some? ==> forall k :: 0 <= k < |SlotPositions| ==>
      r.value.placements[k] == Place(images[k], sizeOf(images[k]), SlotPositions[k])
  {
    var placed: seq<Placement> := [];
    var i := 0;
    while i < |SlotPositions|
      invariant 0 <= i <= |SlotPositions| && i <= |images|
      invariant |placed| == i
      invariant forall k :: 0 <= k < i ==> placed[k] == Place(images[k], sizeOf(images[k]), SlotPositions[k])
    {
      if i >= |images| {
        return None;
      }
      var img := images[i];
      placed := placed + [Place(img, sizeOf(img), SlotPositions[i])];
      i := i + 1;
    }
    r := Some(StripJob(StripFileName(pid, session), placed));
  }
}
