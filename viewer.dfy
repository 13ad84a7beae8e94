/** The slice and orientation state of `vtkMedicalImageViewer`: which slice
  * of the input image is shown along which axis, the extent the image actor
  * displays, the last slice shown per orientation, and cine play. Rendering,
  * cameras and window/level are outside the model; an input image is its
  * whole extent (x min, x max, y min, y max, z min, z max) and its
  * dimensions. */
module Viewer {
  import opened Wrappers

  // `ViewOrientation`: the axis slices are taken along.
  const OrientationYZ := 0
  const OrientationXZ := 1
  const OrientationXY := 2

  // `CineState`.
  const Playing := 0
  const Stopped := 1

  /** The input image, as far as the slice logic sees it. */
  datatype ImageData = ImageData(wholeExtent: seq<int>, dimensions: seq<int>)

  predicate WellFormed(image: ImageData)
  {
    |image.wholeExtent| == 6 && |image.dimensions| == 3
  }

  /** The events a cine invokes: `PlayEvent` with the slice then shown, and
    * `StopEvent`. */
  datatype CineEvent = PlayEvent(slice: int) | StopEvent

  /** `SetSlice`'s clamping of a requested slice: below `lo` becomes `lo`,
    * else above `hi` becomes `hi`. */
  function Clamp(lo: int, hi: int, s: int): (c: int)
    ensures lo <= hi ==> lo <= c <= hi
    ensures lo <= s <= hi ==> c == s
    ensures c == s || c == lo || c == hi
  {
    if s < lo then lo else if s > hi then hi else s
  }

  /** `static_cast<int>((lo + hi) * 0.5)`: half the sum, truncated toward
    * zero. */
  function Midpoint(lo: int, hi: int): int
  {
    var n := lo + hi;
    if n >= 0 then n / 2 else -((-n) / 2)
  }

  /** The midpoint of a non-empty range lies in it, and is the exact half
    * of the sum rounded toward zero. */
  lemma MidpointInRange(lo: int, hi: int)
    ensures lo <= hi ==> lo <= Midpoint(lo, hi) <= hi
    ensures lo + hi >= 0 ==> 0 <= lo + hi - 2 * Midpoint(lo, hi) <= 1
    ensures lo + hi < 0 ==> 0 <= 2 * Midpoint(lo, hi) - (lo + hi) <= 1
  {
  }

  /** `UpdateDisplayExtent`'s repair of the slice: one outside the range
    * becomes the midpoint. */
  function Fix(lo: int, hi: int, s: int): int
  {
    if s < lo || s > hi then Midpoint(lo, hi) else s
  }

  /** The display extent: the whole extent, with the orientation's axis
    * pinned to the slice. */
  function Pinned(extent: seq<int>, orientation: int, s: int): (d: seq<int>)
    requires |extent| == 6
    ensures |d| == 6
  {
    seq(6, k requires 0 <= k < 6 => if k / 2 == orientation then s else extent[k])
  }

  /** The slice `SetSlice(s)` leaves shown when `current` is shown and the
    * orientation's range is `range` (none without input): the clamped
    * request, unchanged when it is already shown, repaired otherwise. */
  function Shown(range: Option<(int, int)>, current: int, s: int): int
  {
    if range.None? then s
    else
      var c := Clamp(range.value.0, range.value.1, s);
      if c == current then c else Fix(range.value.0, range.value.1, c)
  }

  /** Over a non-empty range the slice shown is exactly the clamped
    * request, whatever was shown before. */
  lemma ShownIsClamped(lo: int, hi: int, current: int, s: int)
    requires lo <= hi
    ensures Shown(Some((lo, hi)), current, s) == Clamp(lo, hi, s)
  {
  }

  /** The play events of `CinePlay` from request `i` up to `max`, with
    * `current` shown: each request is shown and reported in turn. */
  function Trail(range: Option<(int, int)>, current: int, i: int, max: int): seq<CineEvent>
    decreases max - i
  {
    if i > max then []
    else
      var n := Shown(range, current, i);
      [PlayEvent(n)] + Trail(range, n, i + 1, max)
  }

  /** The slice shown after the play events of `Trail`. */
  function TrailEnd(range: Option<(int, int)>, current: int, i: int, max: int): int
    decreases max - i
  {
    if i > max then current else TrailEnd(range, Shown(range, current, i), i + 1, max)
  }

  /** Play events for the slices `from` to `to`, in increasing order. */
  function Ascending(from: int, to: int): (r: seq<CineEvent>)
    ensures |r| == (if to < from then 0 else to - from + 1)
    ensures forall k :: 0 <= k < |r| ==> r[k] == PlayEvent(from + k)
  {
    if to < from then [] else seq(to - from + 1, k requires 0 <= k < to - from + 1 => PlayEvent(from + k))
  }

  /** Played from a slice `s` of a non-empty range up to its top, a cine
    * shows every slice from `s` to the top once, in increasing order, and
    * stops at the top. */
  lemma {:induction false} PlayVisitsInOrder(lo: int, hi: int, current: int, s: int)
    requires lo <= s <= hi
    ensures Trail(Some((lo, hi)), current, s, hi) == Ascending(s, hi)
    ensures TrailEnd(Some((lo, hi)), current, s, hi) == hi
    decreases hi - s
  {
    ShownIsClamped(lo, hi, current, s);
    if s < hi {
      PlayVisitsInOrder(lo, hi, s, s + 1);
      var tail := Trail(Some((lo, hi)), s, s + 1, hi);
      assert forall k :: 1 <= k < hi - s + 1 ==> ([PlayEvent(s)] + tail)[k] == tail[k - 1] == PlayEvent(s + k);
    }
  }

  /** `vtkMedicalImageViewer`'s slice state. */
  class ImageViewer {
    var input: Option<ImageData>
    var slice: int
    var orientation: int
    /** `LastSlice`, one per orientation. */
    const lastSlice: array<int>
    var cineState: int
    /** The image actor's display extent. */
    var displayExtent: seq<int>
    /** The cine events invoked so far, oldest first. */
    var events: seq<CineEvent>
    /** vtkObject's modification time, advanced by `Modified()`. */
    var mtime: nat

    predicate Valid()
      reads this
    {
      lastSlice.Length == 3 && OrientationYZ <= orientation <= OrientationXY
      && (input.Some? ==> WellFormed(input.value))
    }

    /** The image actor shows the current slice of the input along the
      * current orientation. */
    predicate Displays()
      reads this
      requires Valid()
    {
      input.Some? ==> displayExtent == Pinned(input.value.wholeExtent, orientation, slice)
    }

    /** The constructor: slice 0 of no input, seen along XY, every last
      * slice 0, cine stopped. */
    constructor()
      ensures Valid() && input.None? && slice == 0 && orientation == OrientationXY
      ensures fresh(lastSlice) && lastSlice[..] == [0, 0, 0]
      ensures cineState == Stopped && events == []
    {
      input := None;
      slice := 0;
      orientation := OrientationXY;
      lastSlice := new int[3](_ => 0);
      cineState := Stopped;
      displayExtent := [];
      events := [];
      mtime := 0;
    }

    /** `GetSliceRange`: the current orientation's range of the input's
      * whole extent, none without input. */
    function SliceRange(): Option<(int, int)>
      reads this
      requires Valid()
    {
      if input.None? then None
      else Some((input.value.wholeExtent[2 * orientation], input.value.wholeExtent[2 * orientation + 1]))
    }

    /** `GetSliceMin`. */
    function GetSliceMin(): int
      reads this
      requires Valid()
    {
      if SliceRange().None? then 0 else SliceRange().value.0
    }

    /** `GetSliceMax`. */
    function GetSliceMax(): int
      reads this
      requires Valid()
    {
      if SliceRange().None? then 0 else SliceRange().value.1
    }

    /** Without input both bounds are 0; with input they are the bounds of
      * the whole extent along the current orientation. */
    lemma SliceBounds()
      requires Valid()
      ensures input.None? ==> GetSliceMin() == 0 && GetSliceMax() == 0
      ensures input.Some? ==>
        && GetSliceMin() == input.value.wholeExtent[2 * orientation]
        && GetSliceMax() == input.value.wholeExtent[2 * orientation + 1]
    {
    }

    /** `GetImageDimensionality`: 0 without input, 2 for an image one slice
      * deep, 3 otherwise. */
    function GetImageDimensionality(): (d: int)
      reads this
      requires Valid()
      ensures d == 0 <==> input.None?
      ensures d == 2 <==> input.Some? && input.value.dimensions[2] <= 1
      ensures d == 3 <==> input.Some? && input.value.dimensions[2] > 1
    {
      if input.None? then 0
      else if 1 >= input.value.dimensions[2] then 2 else 3
    }

    /** `UpdateDisplayExtent`: with input, repairs a slice outside the range
      * and pins the display extent's axis to it; without input, nothing. */
    method UpdateDisplayExtent()
      requires Valid()
      modifies this`slice, this`displayExtent
      ensures Valid() && Displays()
      ensures input.None? ==> slice == old(slice) && displayExtent == old(displayExtent)
      ensures input.Some? ==> slice == Fix(GetSliceMin(), GetSliceMax(), old(slice))
      ensures input.Some? && GetSliceMin() <= GetSliceMax() ==> GetSliceMin() <= slice <= GetSliceMax()
    {
      if input.None? {
        return;
      }
      var ext := input.value.wholeExtent;
      var sliceMin := ext[orientation * 2];
      var sliceMax := ext[orientation * 2 + 1];
      if slice < sliceMin || slice > sliceMax {
        slice := Midpoint(sliceMin, sliceMax);
      }
      MidpointInRange(sliceMin, sliceMax);
      if orientation == OrientationXY {
        displayExtent := [ext[0], ext[1], ext[2], ext[3], slice, slice];
      } else if orientation == OrientationXZ {
        displayExtent := [ext[0], ext[1], slice, slice, ext[4], ext[5]];
      } else {
        displayExtent := [slice, slice, ext[2], ext[3], ext[4], ext[5]];
      }
    }

    /** `SetSlice`: shows the requested slice, clamped into the range when
      * there is input. Showing the slice already shown changes nothing;
      * otherwise the slice left is remembered as the orientation's last
      * slice. */
    method SetSlice(s: int)
      requires Valid()
      modifies this`slice, this`displayExtent, this`mtime, lastSlice
      ensures Valid() && input == old(input) && orientation == old(orientation)
      ensures slice == Shown(SliceRange(), old(slice), s)
      ensures var c := if input.None? then s else Clamp(GetSliceMin(), GetSliceMax(), s);
        && (c == old(slice) ==> unchanged(this) && unchanged(lastSlice))
        && (c != old(slice) ==>
              && lastSlice[..] == old(lastSlice[..])[orientation := old(slice)]
              && mtime > old(mtime) && Displays())
      ensures input.Some? && GetSliceMin() <= GetSliceMax() ==> slice == Clamp(GetSliceMin(), GetSliceMax(), s)
    {
      var requested := s;
      if input.Some? {
        var range := SliceRange().value;
        if requested < range.0 {
          requested := range.0;
        } else if requested > range.1 {
          requested := range.1;
        }
      }
      if slice == requested {
        return;
      }
      lastSlice[orientation] := slice;
      slice := requested;
      mtime := mtime + 1;
      UpdateDisplayExtent();
    }

    /** `SetViewOrientation`: ignores an orientation other than YZ, XZ and
      * XY, and the current one. Otherwise the new orientation is shown at
      * the midpoint of its range (the slice is kept without input). */
    method SetViewOrientation(o: int)
      requires Valid()
      modifies this`orientation, this`slice, this`displayExtent
      ensures Valid() && input == old(input)
      ensures !(OrientationYZ <= o <= OrientationXY) || o == old(orientation) ==> unchanged(this)
      ensures OrientationYZ <= o <= OrientationXY && o != old(orientation) ==>
        && orientation == o && Displays()
        && slice == (if input.None? then old(slice) else Midpoint(GetSliceMin(), GetSliceMax()))
    {
      if o < OrientationYZ || o > OrientationXY {
        return;
      }
      if orientation == o {
        return;
      }
      orientation := o;
      if input.Some? {
        var range := SliceRange().value;
        slice := range.1;
        slice := Midpoint(range.0, range.1);
      }
      UpdateDisplayExtent();
    }

    /** The slice part of `InitializeCameraViews`: with input, each
      * orientation's last slice becomes the top of its range, and the
      * current orientation's is shown. */
    method InitializeSlices()
      requires Valid()
      modifies this`slice, lastSlice
      ensures Valid()
      ensures input.None? ==> unchanged(this) && unchanged(lastSlice)
      ensures input.Some? ==>
        && (forall w :: 0 <= w < 3 ==> lastSlice[w] == input.value.wholeExtent[2 * w + 1])
        && slice == GetSliceMax()
    {
      if input.None? {
        return;
      }
      var ext := input.value.wholeExtent;
      for w := 0 to 3
        invariant forall v :: 0 <= v < w ==> lastSlice[v] == ext[2 * v + 1]
      {
        lastSlice[w] := ext[2 * w + 1];
      }
      slice := lastSlice[orientation];
    }

    /** `CineStop`. */
    method CineStop()
      modifies this`cineState, this`events
      ensures cineState == Stopped && events == old(events) + [StopEvent]
    {
      cineState := Stopped;
      events := events + [StopEvent];
    }

    /** `CineRewind`: shows the bottom of the range. */
    method CineRewind()
      requires Valid()
      modifies this`slice, this`displayExtent, this`mtime, lastSlice
      ensures Valid() && input == old(input) && orientation == old(orientation)
      ensures input.Some? && GetSliceMin() <= GetSliceMax() ==> slice == GetSliceMin()
      ensures input.None? ==> slice == 0
      ensures var m := old(GetSliceMin());
        var c := if input.None? then m else Clamp(GetSliceMin(), GetSliceMax(), m);
        && slice == Shown(SliceRange(), old(slice), m)
        && (c == old(slice) ==> unchanged(this) && unchanged(lastSlice))
        && (c != old(slice) ==>
              && lastSlice[..] == old(lastSlice[..])[orientation := old(slice)]
              && mtime > old(mtime) && Displays())
    {
      SetSlice(GetSliceMin());
    }

    /** `CinePlay`: shows each slice from the current one up to the top of
      * the range, invoking a play event after each, then stops. */
    method CinePlay()
      requires Valid()
      modifies this`slice, this`displayExtent, this`mtime, this`cineState, this`events, lastSlice
      ensures Valid() && input == old(input) && orientation == old(orientation)
      ensures cineState == Stopped
      ensures events == old(events) + Trail(SliceRange(), old(slice), old(slice), GetSliceMax()) + [StopEvent]
      ensures slice == TrailEnd(SliceRange(), old(slice), old(slice), GetSliceMax())
      ensures old(Displays()) ==> Displays()
      ensures old(input.Some? && GetSliceMin() <= slice <= GetSliceMax()) ==>
        && events == old(events) + Ascending(old(slice), GetSliceMax()) + [StopEvent]
        && slice == GetSliceMax()
    {
      if input.Some? && GetSliceMin() <= slice <= GetSliceMax() {
        PlayVisitsInOrder(GetSliceMin(), GetSliceMax(), slice, slice);
      }
      cineState := Playing;
      PlayLoop();
      CineStop();
    }

    /** The loop of `CinePlay`, while nothing stops it: each turn shows the
      * next slice and invokes a play event, up to the top of the range. */
    method PlayLoop()
      requires Valid() && cineState == Playing
      modifies this`slice, this`displayExtent, this`mtime, this`events, lastSlice
      ensures Valid() && input == old(input) && orientation == old(orientation)
      ensures old(Displays()) ==> Displays()
      ensures events == old(events) + Trail(SliceRange(), old(slice), old(slice), GetSliceMax())
      ensures slice == TrailEnd(SliceRange(), old(slice), old(slice), GetSliceMax())
    {
      ghost var range := SliceRange();
      ghost var max := GetSliceMax();
      ghost var start := slice;
      var i := slice;
      while i <= GetSliceMax() && cineState != Stopped
        invariant Valid() && input == old(input) && orientation == old(orientation)
        invariant SliceRange() == range && GetSliceMax() == max
        invariant i > start ==> i - 1 <= max
        invariant old(Displays()) ==> Displays()
        invariant events + Trail(range, slice, i, max) == old(events) + Trail(range, start, start, max)
        invariant TrailEnd(range, slice, i, max) == TrailEnd(range, start, start, max)
        decreases max - i
      {
        PlayStep(i, range, max);
        i := i + 1;
      }
      assert Trail(range, slice, i, max) == [] && TrailEnd(range, slice, i, max) == slice;
      assert events + [] == events;
    }

    /** One turn of the cine loop: shows slice `i` and invokes a play event
      * for the slice shown. */
    method PlayStep(i: int, ghost range: Option<(int, int)>, ghost max: int)
      requires Valid() && SliceRange() == range && i <= max
      modifies this`slice, this`displayExtent, this`mtime, this`events, lastSlice
      ensures Valid() && input == old(input) && orientation == old(orientation)
      ensures old(Displays()) ==> Displays()
      ensures events + Trail(range, slice, i + 1, max) == old(events) + Trail(range, old(slice), i, max)
      ensures TrailEnd(range, slice, i + 1, max) == TrailEnd(range, old(slice), i, max)
    {
      SetSlice(i);
      ghost var rest := Trail(range, slice, i + 1, max);
      assert Trail(range, old(slice), i, max) == [PlayEvent(slice)] + rest;
      events := events + [PlayEvent(slice)];
      assert events + rest == old(events) + ([PlayEvent(slice)] + rest);
    }
  }
}
