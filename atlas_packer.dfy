/*
  The skyline packer that places texture rectangles on an atlas canvas
  (engine/video/AtlasPacker.cpp).  The canvas is covered left to right by
  contiguous horizontal segments; a segment's `y` is how far down its
  columns are already filled.  Placing a rectangle looks for the range of
  segments, starting at a segment's left edge, whose highest content is the
  lowest, lays the rectangle on that content and merges the covered part of
  the range into one segment.

  The column-by-column view of the segments, `Profile`, is what the
  contracts are stated in: a canvas of width W has W columns, each filled
  down to the `y` of the segment that covers it.
*/
module Atlas {

  datatype Segment = Segment(x: int, y: int, length: int)

  function End(s: Segment): int { s.x + s.length }

  /** Each segment starts where the previous one ends. */
  predicate Chain(segs: seq<Segment>)
  {
    forall i :: 0 < i < |segs| ==> segs[i].x == End(segs[i - 1])
  }

  predicate NonNegative(segs: seq<Segment>)
  {
    forall i :: 0 <= i < |segs| ==> segs[i].length >= 0 && segs[i].y >= 0
  }

  /** The segments cover [0, CanvasWidth) without gaps or overlaps. */
  predicate Contiguous(segs: seq<Segment>)
  {
    Chain(segs) && NonNegative(segs) && (segs != [] ==> segs[0].x == 0)
  }

  function CanvasWidth(segs: seq<Segment>): int
  {
    if segs == [] then 0 else End(segs[|segs| - 1])
  }

  /** Total length of a run of segments. */
  function Width(segs: seq<Segment>): int
  {
    if segs == [] then 0 else segs[0].length + Width(segs[1..])
  }

  /** Highest `y` of a run of segments, 0 for none (the search's starting value). */
  function MaxY(segs: seq<Segment>): int
  {
    if segs == [] then 0
    else
      var m := MaxY(segs[1..]);
      if segs[0].y < m then m else segs[0].y
  }

  function Column(s: Segment): seq<int>
    requires s.length >= 0
  {
    seq(s.length, _ => s.y)
  }

  /** How far down each column covered by the segments is filled. */
  function Profile(segs: seq<Segment>): seq<int>
    requires NonNegative(segs)
  {
    if segs == [] then [] else Column(segs[0]) + Profile(segs[1..])
  }

  // ---------------------------------------------------------------------
  // Facts about runs of segments

  lemma {:induction false} WidthAppend(a: seq<Segment>, b: seq<Segment>)
    ensures Width(a + b) == Width(a) + Width(b)
    decreases |a|
  {
    if a != [] {
      assert (a + b)[0] == a[0] && (a + b)[1..] == a[1..] + b;
      WidthAppend(a[1..], b);
    } else {
      assert a + b == b;
    }
  }

  lemma {:induction false} MaxYAppend(a: seq<Segment>, b: seq<Segment>)
    ensures MaxY(a + b) == if MaxY(a) < MaxY(b) then MaxY(b) else MaxY(a)
    decreases |a|
  {
    if a != [] {
      assert (a + b)[0] == a[0] && (a + b)[1..] == a[1..] + b;
      MaxYAppend(a[1..], b);
    } else {
      assert a + b == b;
      MaxYNonNegative(b);
    }
  }

  lemma {:induction false} ProfileAppend(a: seq<Segment>, b: seq<Segment>)
    requires NonNegative(a) && NonNegative(b)
    ensures NonNegative(a + b)
    ensures Profile(a + b) == Profile(a) + Profile(b)
    decreases |a|
  {
    assert NonNegative(a + b) by {
      forall i | 0 <= i < |a + b|
        ensures (a + b)[i].length >= 0 && (a + b)[i].y >= 0
      {
        if i < |a| { assert (a + b)[i] == a[i]; } else { assert (a + b)[i] == b[i - |a|]; }
      }
    }
    if a != [] {
      assert (a + b)[0] == a[0] && (a + b)[1..] == a[1..] + b;
      ProfileAppend(a[1..], b);
    } else {
      assert a + b == b;
    }
  }

  lemma {:induction false} ProfileLength(segs: seq<Segment>)
    requires NonNegative(segs)
    ensures |Profile(segs)| == Width(segs)
    decreases |segs|
  {
    if segs != [] {
      ProfileLength(segs[1..]);
    }
  }

  lemma {:induction false} ProfileBelowMaxY(segs: seq<Segment>, k: int)
    requires NonNegative(segs) && 0 <= k < |Profile(segs)|
    ensures Profile(segs)[k] <= MaxY(segs)
    decreases |segs|
  {
    if k >= segs[0].length {
      ProfileBelowMaxY(segs[1..], k - segs[0].length);
    }
  }

  /** A chained run spans from its first segment's left edge to its last's right edge. */
  lemma {:induction false} ChainWidth(segs: seq<Segment>)
    requires Chain(segs) && segs != []
    ensures Width(segs) == End(segs[|segs| - 1]) - segs[0].x
    decreases |segs|
  {
    if |segs| > 1 {
      assert Chain(segs[1..]) by {
        forall i | 0 < i < |segs[1..]|
          ensures segs[1..][i].x == End(segs[1..][i - 1])
        {
          assert segs[1..][i] == segs[i + 1] && segs[1..][i - 1] == segs[i];
        }
      }
      ChainWidth(segs[1..]);
    }
  }

  lemma ChainSlice(segs: seq<Segment>, a: int, b: int)
    requires Chain(segs) && 0 <= a <= b <= |segs|
    ensures Chain(segs[a..b])
  {
    forall i | 0 < i < b - a
      ensures segs[a..b][i].x == End(segs[a..b][i - 1])
    {
      assert segs[a..b][i] == segs[a + i] && segs[a..b][i - 1] == segs[a + i - 1];
    }
  }

  lemma NonNegativeSlice(segs: seq<Segment>, a: int, b: int)
    requires NonNegative(segs) && 0 <= a <= b <= |segs|
    ensures NonNegative(segs[a..b])
  {
    forall i | 0 <= i < b - a
      ensures segs[a..b][i].length >= 0 && segs[a..b][i].y >= 0
    {
      assert segs[a..b][i] == segs[a + i];
    }
  }

  /** In a contiguous canvas the segments before index k cover [0, segs[k].x). */
  lemma PrefixWidth(segs: seq<Segment>, k: int)
    requires Contiguous(segs) && 0 <= k < |segs|
    ensures Width(segs[..k]) == segs[k].x
  {
    if k > 0 {
      ChainSlice(segs, 0, k);
      ChainWidth(segs[..k]);
    }
  }

  /** Width of segments first..last (inclusive) of a contiguous canvas. */
  lemma RangeWidth(segs: seq<Segment>, first: int, last: int)
    requires Contiguous(segs) && 0 <= first <= last < |segs|
    ensures Width(segs[first..last + 1]) == End(segs[last]) - segs[first].x
    ensures Width(segs[first..last]) == segs[last].x - segs[first].x
  {
    ChainSlice(segs, first, last + 1);
    ChainWidth(segs[first..last + 1]);
    assert segs[first..last + 1] == segs[first..last] + [segs[last]];
    WidthAppend(segs[first..last], [segs[last]]);
    assert Width([segs[last]]) == segs[last].length by {
      assert [segs[last]][1..] == [];
    }
  }

  /** Extending a run by one segment on the right. */
  lemma Snoc(segs: seq<Segment>, first: int, last: int)
    requires 0 <= first <= last < |segs|
    ensures Width(segs[first..last + 1]) == Width(segs[first..last]) + segs[last].length
    ensures MaxY(segs[first..last + 1]) ==
      if MaxY(segs[first..last]) < segs[last].y then segs[last].y else MaxY(segs[first..last])
  {
    assert segs[first..last + 1] == segs[first..last] + [segs[last]];
    assert [segs[last]][1..] == [];
    MaxYNonNegative(segs[first..last]);
    WidthAppend(segs[first..last], [segs[last]]);
    MaxYAppend(segs[first..last], [segs[last]]);
  }

  // ---------------------------------------------------------------------
  // The range a placement uses and the canvas after it

  /** Segments first..last are a range a width × height rectangle can be
      placed on: they are wide enough, the last one is needed to make up
      the width, and their highest content leaves room for the height. */
  predicate Fits(segs: seq<Segment>, first: int, last: int, width: int, height: int, canvasHeight: int)
  {
    0 <= first <= last < |segs| &&
    Width(segs[first..last + 1]) >= width &&
    (first == last || Width(segs[first..last]) < width) &&
    MaxY(segs[first..last + 1]) + height <= canvasHeight
  }

  /** What is left of the last segment of the range to the right of the rectangle. */
  function Remainder(s: Segment, right: int): seq<Segment>
  {
    if End(s) == right then [] else [Segment(right, s.y, End(s) - right)]
  }

  /** The segments after placing a rectangle of the given width on segments
      first..last with its bottom edge at `bottom`. */
  function Placed(segs: seq<Segment>, first: int, last: int, width: int, bottom: int): seq<Segment>
    requires 0 <= first <= last < |segs|
  {
    Join(segs[..first], Segment(segs[first].x, bottom, width), Remainder(segs[last], segs[first].x + width), segs[last + 1..])
  }

  function Join(before: seq<Segment>, s: Segment, rem: seq<Segment>, after: seq<Segment>): seq<Segment>
  {
    before + [s] + rem + after
  }

  function Filled(n: int, y: int): seq<int>
    requires n >= 0
  {
    seq(n, _ => y)
  }

  lemma FilledSplit(n: int, k: int, y: int)
    requires 0 <= k <= n
    ensures Filled(n, y)[k..] == Filled(n - k, y)
  {
  }

  /** (p + q + r)[|p| + k..] == q[k..] + r, and the prefix of length |p| is p. */
  lemma SliceThree(p: seq<int>, q: seq<int>, r: seq<int>, k: int)
    requires 0 <= k <= |q|
    ensures (p + q + r)[..|p|] == p
    ensures (p + q + r)[|p| + k..] == q[k..] + r
  {
  }

  lemma SliceTwo(m: seq<int>, c: seq<int>, k: int)
    requires |m| <= k <= |m| + |c|
    ensures (m + c)[k..] == c[k - |m|..]
  {
  }

  lemma ChainAppend(a: seq<Segment>, b: seq<Segment>)
    requires Chain(a) && Chain(b) && NonNegative(a) && NonNegative(b)
    requires a != [] && b != [] ==> b[0].x == End(a[|a| - 1])
    ensures Chain(a + b) && NonNegative(a + b)
  {
    forall i | 0 < i < |a + b|
      ensures (a + b)[i].x == End((a + b)[i - 1])
    {
      if i < |a| {
        assert (a + b)[i] == a[i] && (a + b)[i - 1] == a[i - 1];
      } else if i == |a| {
        assert (a + b)[i] == b[0] && (a + b)[i - 1] == a[|a| - 1];
      } else {
        assert (a + b)[i] == b[i - |a|] && (a + b)[i - 1] == b[i - |a| - 1];
      }
    }
    forall i | 0 <= i < |a + b|
      ensures (a + b)[i].length >= 0 && (a + b)[i].y >= 0
    {
      if i < |a| { assert (a + b)[i] == a[i]; } else { assert (a + b)[i] == b[i - |a|]; }
    }
  }

  /** A contiguous canvas followed by one segment, at most one more and a
      chained run, each starting where the previous one ends at `e`. */
  lemma Joined(before: seq<Segment>, s0: Segment, rem: seq<Segment>, after: seq<Segment>, e: int)
    requires Contiguous(before) && Chain(after) && NonNegative(after)
    requires s0.length >= 0 && s0.y >= 0 && s0.x == CanvasWidth(before)
    requires |rem| <= 1 && NonNegative(rem)
    requires rem != [] ==> rem[0].x == End(s0) && End(rem[0]) == e
    requires rem == [] ==> End(s0) == e
    requires after != [] ==> after[0].x == e
    ensures Contiguous(Join(before, s0, rem, after))
    ensures CanvasWidth(Join(before, s0, rem, after)) == if after == [] then e else End(after[|after| - 1])
  {
    ChainAppend(before, [s0]);
    var head := before + [s0];
    assert head[|head| - 1] == s0;
    ChainAppend(head, rem);
    var body := head + rem;
    assert End(body[|body| - 1]) == e;
    ChainAppend(body, after);
    if after != [] {
      assert (body + after)[|body + after| - 1] == after[|after| - 1];
    } else {
      assert body + after == body;
    }
    assert (body + after)[0] == head[0];
  }

  lemma PlacedContiguous(segs: seq<Segment>, first: int, last: int, width: int, height: int, canvasHeight: int, bottom: int)
    requires Contiguous(segs) && Fits(segs, first, last, width, height, canvasHeight)
    requires 0 <= width && 0 <= bottom
    ensures Contiguous(Placed(segs, first, last, width, bottom))
    ensures CanvasWidth(Placed(segs, first, last, width, bottom)) == CanvasWidth(segs)
  {
    RangeWidth(segs, first, last);
    var before, after := segs[..first], segs[last + 1..];
    ChainSlice(segs, 0, first);
    ChainSlice(segs, last + 1, |segs|);
    NonNegativeSlice(segs, 0, first);
    NonNegativeSlice(segs, last + 1, |segs|);
    if first > 0 {
      assert before[0] == segs[0] && before[first - 1] == segs[first - 1];
    }
    if after != [] {
      assert after[0] == segs[last + 1] && after[|after| - 1] == segs[|segs| - 1];
    }
    var s0, rem := Segment(segs[first].x, bottom, width), Remainder(segs[last], segs[first].x + width);
    Joined(before, s0, rem, after, End(segs[last]));
    assert Placed(segs, first, last, width, bottom) == Join(before, s0, rem, after);
  }



  /** The profile of a contiguous canvas has one column per unit of width. */
  lemma ContiguousProfile(segs: seq<Segment>)
    requires Contiguous(segs)
    ensures |Profile(segs)| == CanvasWidth(segs)
  {
    ProfileLength(segs);
    if segs != [] {
      ChainWidth(segs);
    }
  }

  lemma ProfileAppend4(a: seq<Segment>, b: seq<Segment>, c: seq<Segment>, d: seq<Segment>)
    requires NonNegative(a) && NonNegative(b) && NonNegative(c) && NonNegative(d)
    ensures NonNegative(a + b + c + d)
    ensures Profile(a + b + c + d) == Profile(a) + Profile(b) + Profile(c) + Profile(d)
  {
    ProfileAppend(a, b);
    ProfileAppend(a + b, c);
    ProfileAppend(a + b + c, d);
  }

  /** The profile of a contiguous canvas split at a range of segments. */
  lemma SplitProfile(segs: seq<Segment>, first: int, last: int)
    requires Contiguous(segs) && 0 <= first <= last < |segs|
    ensures NonNegative(segs[..first]) && NonNegative(segs[first..last + 1]) && NonNegative(segs[last + 1..])
    ensures |Profile(segs[..first])| == segs[first].x
    ensures Profile(segs) == Profile(segs[..first]) + Profile(segs[first..last + 1]) + Profile(segs[last + 1..])
  {
    var before := segs[..first];
    var range := segs[first..last + 1];
    var after := segs[last + 1..];
    NonNegativeSlice(segs, 0, first);
    NonNegativeSlice(segs, first, last + 1);
    NonNegativeSlice(segs, last + 1, |segs|);
    PrefixWidth(segs, first);
    ProfileLength(before);
    assert segs == before + range + after;
    ProfileAppend(before, range);
    ProfileAppend(before + range, after);
  }

  /** Past the rectangle's width, the range's columns are those of the
      remainder of its last segment. */
  lemma RangeTail(segs: seq<Segment>, first: int, last: int, width: int, height: int, canvasHeight: int)
    requires Contiguous(segs) && Fits(segs, first, last, width, height, canvasHeight) && 0 <= width
    ensures NonNegative(segs[first..last + 1]) && NonNegative(Remainder(segs[last], segs[first].x + width))
    ensures width <= |Profile(segs[first..last + 1])|
    ensures Profile(segs[first..last + 1])[width..] == Profile(Remainder(segs[last], segs[first].x + width))
  {
    var range := segs[first..last + 1];
    var lastSeg := segs[last];
    var rem := Remainder(lastSeg, segs[first].x + width);
    NonNegativeSlice(segs, first, last + 1);
    NonNegativeSlice(segs, first, last);
    RangeWidth(segs, first, last);
    ProfileLength(range);
    ProfileLength(segs[first..last]);
    assert range == segs[first..last] + [lastSeg];
    assert [lastSeg][1..] == [];
    ProfileAppend(segs[first..last], [lastSeg]);
    SliceTwo(Profile(segs[first..last]), Column(lastSeg), width);
    FilledSplit(lastSeg.length, segs[first].x + width - lastSeg.x, lastSeg.y);
    if rem != [] {
      assert rem[1..] == [];
    }
  }

  /** The old profile around the range: the columns left of the rectangle
      are those of the segments before the range, and the columns right of
      it are the remainder of the range's last segment followed by the
      segments after the range. */
  lemma ProfileAroundRange(segs: seq<Segment>, first: int, last: int, width: int, height: int, canvasHeight: int)
    requires Contiguous(segs) && Fits(segs, first, last, width, height, canvasHeight) && 0 <= width
    ensures NonNegative(segs[..first]) && NonNegative(segs[last + 1..])
    ensures NonNegative(Remainder(segs[last], segs[first].x + width))
    ensures 0 <= segs[first].x && segs[first].x + width <= |Profile(segs)|
    ensures Profile(segs)[..segs[first].x] == Profile(segs[..first])
    ensures Profile(segs)[segs[first].x + width..] ==
      Profile(Remainder(segs[last], segs[first].x + width)) + Profile(segs[last + 1..])
  {
    SplitProfile(segs, first, last);
    RangeTail(segs, first, last, width, height, canvasHeight);
    SliceThree(Profile(segs[..first]), Profile(segs[first..last + 1]), Profile(segs[last + 1..]), width);
  }

  /** Placing a rectangle fills exactly its columns down to `bottom` and
      leaves every other column as it was. */
  lemma PlacedProfile(segs: seq<Segment>, first: int, last: int, width: int, height: int, canvasHeight: int, bottom: int)
    requires Contiguous(segs) && Fits(segs, first, last, width, height, canvasHeight)
    requires 0 <= width && 0 <= bottom
    ensures NonNegative(Placed(segs, first, last, width, bottom))
    ensures 0 <= segs[first].x && segs[first].x + width <= |Profile(segs)|
    ensures Profile(Placed(segs, first, last, width, bottom)) ==
      Profile(segs)[..segs[first].x] + Filled(width, bottom) + Profile(segs)[segs[first].x + width..]
  {
    ProfileAroundRange(segs, first, last, width, height, canvasHeight);
    ProfileJoin(segs[..first], Segment(segs[first].x, bottom, width), Remainder(segs[last], segs[first].x + width), segs[last + 1..]);
  }

  lemma ProfileJoin(before: seq<Segment>, s0: Segment, rem: seq<Segment>, after: seq<Segment>)
    requires NonNegative(before) && NonNegative(rem) && NonNegative(after)
    requires s0.length >= 0 && s0.y >= 0
    ensures NonNegative(Join(before, s0, rem, after))
    ensures Profile(Join(before, s0, rem, after)) == Profile(before) + Filled(s0.length, s0.y) + (Profile(rem) + Profile(after))
  {
    assert Profile([s0]) == Filled(s0.length, s0.y) by {
      assert [s0][1..] == [];
    }
    ProfileAppend4(before, [s0], rem, after);
    Regroup(Profile(before), Profile([s0]), Profile(rem), Profile(after));
  }

  lemma Regroup(a: seq<int>, b: seq<int>, c: seq<int>, d: seq<int>)
    ensures a + b + c + d == a + b + (c + d)
  {
  }



  /** The rectangle lies on or above the content of every column it covers. */
  lemma RangeBelowTop(segs: seq<Segment>, first: int, last: int, width: int, height: int, canvasHeight: int, c: int)
    requires Contiguous(segs) && Fits(segs, first, last, width, height, canvasHeight)
    requires segs[first].x <= c < segs[first].x + width
    ensures 0 <= c < |Profile(segs)|
    ensures Profile(segs)[c] <= MaxY(segs[first..last + 1])
  {
    var range := segs[first..last + 1];
    SplitProfile(segs, first, last);
    RangeWidth(segs, first, last);
    ProfileLength(range);
    IndexMiddle(Profile(segs[..first]), Profile(range), Profile(segs[last + 1..]), c - segs[first].x);
    ProfileBelowMaxY(range, c - segs[first].x);
  }

  lemma IndexMiddle(p: seq<int>, q: seq<int>, r: seq<int>, k: int)
    requires 0 <= k < |q|
    ensures (p + q + r)[|p| + k] == q[k]
  {
  }


  /** Everything PlaceRect promises about a placement on a fitting range. */
  lemma Placement(segs: seq<Segment>, first: int, last: int, width: int, height: int, canvasHeight: int, bottom: int)
    requires Contiguous(segs) && Fits(segs, first, last, width, height, canvasHeight)
    requires 0 <= width && 0 <= bottom
    ensures 0 <= segs[first].x && segs[first].x + width <= CanvasWidth(segs)
    ensures Contiguous(Placed(segs, first, last, width, bottom))
    ensures CanvasWidth(Placed(segs, first, last, width, bottom)) == CanvasWidth(segs)
    ensures |Profile(Placed(segs, first, last, width, bottom))| == CanvasWidth(segs)
    ensures segs[first].x + width <= |Profile(segs)|
    ensures Profile(Placed(segs, first, last, width, bottom)) ==
      Profile(segs)[..segs[first].x] + Filled(width, bottom) + Profile(segs)[segs[first].x + width..]
    ensures forall c :: segs[first].x <= c < segs[first].x + width ==> Profile(segs)[c] <= MaxY(segs[first..last + 1])
  {
    ContiguousProfile(segs);
    PlacedContiguous(segs, first, last, width, height, canvasHeight, bottom);
    PlacedProfile(segs, first, last, width, height, canvasHeight, bottom);
    ContiguousProfile(Placed(segs, first, last, width, bottom));
    forall c | segs[first].x <= c < segs[first].x + width
      ensures Profile(segs)[c] <= MaxY(segs[first..last + 1])
    {
      RangeBelowTop(segs, first, last, width, height, canvasHeight, c);
    }
  }

  // ---------------------------------------------------------------------

  class AtlasPacker {
    var segments: seq<Segment>
    var canvasHeight: int

    predicate Valid()
      reads this
    {
      Contiguous(segments) && |Profile(segments)| == CanvasWidth(segments)
    }

    constructor ()
      ensures Valid() && segments == [] && canvasHeight == 0
    {
      segments := [];
      canvasHeight := 0;
    }

    /** Adds dx columns of empty canvas on the right and dy rows at the bottom. */
    method ExtendCanvas(dx: int, dy: int)
      requires Valid() && dx >= 0
      modifies this
      ensures Valid()
      ensures segments == old(segments) + [Segment(old(CanvasWidth(segments)), 0, dx)]
      ensures canvasHeight == old(canvasHeight) + dy
      ensures CanvasWidth(segments) == old(CanvasWidth(segments)) + dx
      ensures Profile(segments) == old(Profile(segments)) + Filled(dx, 0)
    {
      var s := Segment(if segments == [] then 0 else End(segments[|segments| - 1]), 0, dx);
      ProfileAppend(segments, [s]);
      assert [s][1..] == [];
      segments := segments + [s];
      canvasHeight := canvasHeight + dy;
    }

    /** Finds a range of segments for a width × height rectangle: the one
        the source's search settles on, as (found, first, last, top). */
    static method FindRange(segs: seq<Segment>, width: int, height: int, canvasHeight: int)
      returns (found: bool, first: int, last: int, top: int)
      requires Contiguous(segs) && segs != [] && width >= 0
      ensures found ==> Fits(segs, first, last, width, height, canvasHeight) && top == MaxY(segs[first..last + 1])
    {
      var n := |segs|;
      var canvasWidth := End(segs[n - 1]);
      found, first, last := false, 0, 0;
      top := 0x7fff_ffff;
      var it := 0;
      while it < n
        invariant 0 <= it <= n
        invariant found ==> Fits(segs, first, last, width, height, canvasHeight) && top == MaxY(segs[first..last + 1])
        decreases n - it
      {
        // stop if no more space is left
        if segs[it].x + width > canvasWidth {
          break;
        }
        // skip if not better or does not fit
        if segs[it].y >= top || segs[it].y + height > canvasHeight {
          it := it + 1;
          continue;
        }
        var available := 0;
        var rangeTop := 0;
        var rangeFirst := it;
        var rangeLast := it;
        while rangeLast < n
          invariant rangeFirst <= it < n && it <= rangeLast <= n
          invariant available == Width(segs[rangeFirst..rangeLast])
          invariant rangeTop == MaxY(segs[rangeFirst..rangeLast])
          invariant rangeTop + height <= canvasHeight
          invariant rangeFirst == rangeLast || available < width
          invariant found ==> Fits(segs, first, last, width, height, canvasHeight) && top == MaxY(segs[first..last + 1])
          decreases n - rangeLast
        {
          Snoc(segs, rangeFirst, rangeLast);
          if rangeTop <= segs[rangeLast].y {
            rangeTop := segs[rangeLast].y;
            it := rangeLast;  // no reason to restart the search from the same or a worse top
            if rangeTop + height > canvasHeight {
              break;
            }
          }
          available := available + segs[rangeLast].length;
          if available >= width {
            if top > rangeTop + 8 {
              found, first, last, top := true, rangeFirst, rangeLast, rangeTop;
            }
            break;
          }
          rangeLast := rangeLast + 1;
        }
        it := it + 1;
      }
    }

    /** The segment updates of PlaceRect once the range first..last is chosen. */
    static method Merge(segs: seq<Segment>, f: int, l: int, width: int, bottom: int) returns (r: seq<Segment>)
      requires 0 <= f <= l < |segs| && segs[l].x <= segs[f].x + width <= End(segs[l])
      ensures r == Placed(segs, f, l, width, bottom)
    {
      var x := segs[f].x;
      var resultRight := x + width;
      var lastSeg := segs[l];
      if End(lastSeg) == resultRight {
        // replace the entire range with the reused first segment
        if f != l {
          r := segs[..f] + [Segment(x, bottom, width)] + segs[l + 1..];
        } else {
          r := segs[f := Segment(x, bottom, segs[f].length)];
          assert r == segs[..f] + [Segment(x, bottom, width)] + segs[l + 1..];
        }
      } else {
        var s := Segment(resultRight, segs[f].y, segs[f].length - width);
        if f != l {
          // keep the first, reuse the last, erase what is in between
          r := segs[..f] + [Segment(x, bottom, width)]
            + [Segment(resultRight, lastSeg.y, lastSeg.length - (resultRight - lastSeg.x))] + segs[l + 1..];
        } else {
          // split the first (and only) segment of the range
          r := segs[..f] + [Segment(x, bottom, width)] + [s] + segs[f + 1..];
        }
      }
    }

    /** Places a width × height rectangle and returns its top-left corner. */
    method PlaceRect(width: int, height: int) returns (placed: bool, outX: int, outY: int, ghost first: int, ghost last: int)
      requires Valid() && segments != [] && width >= 0 && height >= 0
      modifies this`segments
      ensures Valid()
      ensures CanvasWidth(segments) == old(CanvasWidth(segments))
      ensures !placed ==> segments == old(segments)
      ensures placed ==> Fits(old(segments), first, last, width, height, canvasHeight)
      ensures placed ==> outX == old(segments)[first].x && outY == MaxY(old(segments)[first..last + 1])
      ensures placed ==> 0 <= outX && outX + width <= CanvasWidth(segments)
      ensures placed ==> 0 <= outY && outY + height <= canvasHeight
      ensures placed ==> forall c :: outX <= c < outX + width ==> old(Profile(segments))[c] <= outY
      ensures placed ==>
        Profile(segments) == old(Profile(segments))[..outX] + Filled(width, outY + height) + old(Profile(segments))[outX + width..]
    {
      ghost var before := segments;
      var found, f, l, top := FindRange(segments, width, height, canvasHeight);
      first, last := f, l;
      if !found {
        return false, 0, 0, first, last;
      }
      outX := segments[f].x;
      outY := top;
      var resultRight := outX + width;
      var resultBottom := outY + height;
      RangeWidth(segments, f, l);
      ProfileLength(segments);
      MaxYNonNegative(segments[f..l + 1]);
      segments := Merge(segments, f, l, width, resultBottom);
      Placement(before, f, l, width, height, canvasHeight, resultBottom);
      placed := true;
    }

    /** The lowest filled row: the largest segment `y`, or 0 without segments. */
    method GetContentHeight() returns (maxY: int)
      requires Valid()
      ensures maxY == MaxY(segments)
      ensures forall i :: 0 <= i < |segments| ==> segments[i].y <= maxY
      ensures maxY == 0 || exists i :: 0 <= i < |segments| && segments[i].y == maxY
    {
      maxY := 0;
      var i := |segments|;
      while i > 0
        invariant 0 <= i <= |segments|
        invariant maxY == MaxY(segments[i..])
        invariant forall j :: i <= j < |segments| ==> segments[j].y <= maxY
        invariant maxY == 0 || exists j :: i <= j < |segments| && segments[j].y == maxY
      {
        i := i - 1;
        assert segments[i..][1..] == segments[i + 1..];
        if maxY < segments[i].y {
          maxY := segments[i].y;
        }
      }
    }
  }

  lemma {:induction false} MaxYNonNegative(segs: seq<Segment>)
    ensures MaxY(segs) >= 0
    decreases |segs|
  {
    if segs != [] {
      MaxYNonNegative(segs[1..]);
    }
  }
}
