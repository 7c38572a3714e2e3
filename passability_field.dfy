/*
  The passability grid of the game world (FieldCell and Field in
  game/src/tank/Level.cpp).  Each cell lists the static rigid bodies that
  overlap it and caches the largest passability among them; cells on the
  border of the grid are pinned to the impassable value 0xFF.
*/
module PassabilityField {

  /** Side of one grid cell in world units. */
  const CELL_SIZE: real := 32.0
  /** Passability of a wall that nothing crosses; also the value of the border. */
  const IMPASSABLE: nat := 0xFF
  /** A cell holds at most this many residents (its counter is a byte). */
  const MAX_RESIDENTS: nat := 255

  /** A static rigid body as the grid sees it: its identity and its
      passability, an `unsigned char` that is never 0 for a resident. */
  datatype Body = Body(id: nat, passability: nat)

  /** Largest passability among `objs`, 0 for an empty cell. */
  function MaxPassability(objs: seq<Body>): (m: nat)
    ensures forall i :: 0 <= i < |objs| ==> objs[i].passability <= m
    ensures |objs| == 0 ==> m == 0
    ensures |objs| > 0 ==> exists i :: 0 <= i < |objs| && objs[i].passability == m
  {
    if |objs| == 0 then 0
    else
      var rest := MaxPassability(objs[..|objs| - 1]);
      var last := objs[|objs| - 1].passability;
      if last > rest then last else rest
  }

  /** `objs` with every occurrence of `o` dropped, order kept. */
  function Without(objs: seq<Body>, o: Body): seq<Body>
  {
    if |objs| == 0 then []
    else Without(objs[..|objs| - 1], o) + (if objs[|objs| - 1] == o then [] else [objs[|objs| - 1]])
  }

  lemma {:induction false} WithoutMultiset(objs: seq<Body>, o: Body)
    ensures multiset(Without(objs, o)) == multiset(objs)[o := 0]
  {
    if |objs| > 0 {
      var init, last := objs[..|objs| - 1], objs[|objs| - 1];
      WithoutMultiset(init, o);
      assert objs == init + [last];
    }
  }

  lemma {:induction false} WithoutLength(objs: seq<Body>, o: Body)
    ensures |Without(objs, o)| == |objs| - multiset(objs)[o]
  {
    if |objs| > 0 {
      var init, last := objs[..|objs| - 1], objs[|objs| - 1];
      WithoutLength(init, o);
      assert objs == init + [last];
    }
  }

  lemma {:induction false} WithoutAbsent(objs: seq<Body>, o: Body)
    requires o !in objs
    ensures Without(objs, o) == objs
  {
    if |objs| > 0 {
      WithoutAbsent(objs[..|objs| - 1], o);
    }
  }

  /** Removing a body just added to a cell that did not hold it gives the
      residents back unchanged. */
  lemma AddThenRemove(objs: seq<Body>, o: Body)
    requires o !in objs
    ensures Without(objs + [o], o) == objs
  {
    assert (objs + [o])[..|objs|] == objs;
    WithoutAbsent(objs, o);
  }

  function IsBorder(x: int, y: int, cx: int, cy: int): bool
  {
    x == 0 || y == 0 || x == cx - 1 || y == cy - 1
  }

  /** The cached passability a cell at (x, y) of a cx-by-cy grid must carry. */
  function ExpectedProp(x: int, y: int, cx: int, cy: int, objs: seq<Body>): nat
  {
    if IsBorder(x, y, cx, cy) then IMPASSABLE else MaxPassability(objs)
  }

  datatype FieldCell = FieldCell(x: int, y: int, prop: nat, objects: seq<Body>)
  {
    /** Every resident is passable to some degree and the counter fits a byte. */
    predicate Residents()
    {
      |objects| <= MAX_RESIDENTS && forall i :: 0 <= i < |objects| ==> objects[i].passability > 0
    }

    /** Recomputes the cached passability from the residents. */
    method UpdateProperties() returns (c: FieldCell)
      requires Residents()
      ensures c.x == x && c.y == y && c.objects == objects
      ensures c.prop == MaxPassability(objects)
    {
      var p := 0;
      var i := 0;
      while i < |objects|
        invariant 0 <= i <= |objects|
        invariant p == MaxPassability(objects[..i])
      {
        assert objects[..i + 1][..i] == objects[..i];
        if objects[i].passability > p {
          p := objects[i].passability;
        }
        i := i + 1;
      }
      assert objects[..i] == objects;
      c := this.(prop := p);
    }

    /** Appends `o` to the residents and recomputes the cached passability. */
    method AddObject(o: Body) returns (c: FieldCell)
      requires Residents() && o.passability > 0
      requires o !in objects && |objects| < MAX_RESIDENTS
      ensures c.x == x && c.y == y && c.objects == objects + [o]
      ensures c.prop == MaxPassability(objects + [o])
      ensures c.Residents()
    {
      var grown := this.(objects := objects + [o]);
      c := grown.UpdateProperties();
    }

    /** Drops the one occurrence of `o` from the residents (copying the
        others, in order, into a buffer one shorter) and recomputes the
        cached passability. */
    method RemoveObject(o: Body) returns (c: FieldCell)
      requires Residents()
      requires multiset(objects)[o] == 1
      ensures c.x == x && c.y == y && c.objects == Without(objects, o)
      ensures |c.objects| == |objects| - 1
      ensures c.prop == MaxPassability(c.objects)
      ensures c.Residents()
    {
      var rest: seq<Body>;
      if |objects| == 1 {
        assert objects == [objects[0]];
        assert Without(objects, o) == [] by { assert objects[..0] == []; }
        rest := [];
      } else {
        var tmp := CopyOthers(objects, o);
        rest := tmp[..];
      }
      WithoutLength(objects, o);
      WithoutResidents(objects, o);
      var shrunk := this.(objects := rest);
      c := shrunk.UpdateProperties();
    }
  }

  /** The copy loop of FieldCell::RemoveObject: every resident other than
      `o`, in order, in a buffer one shorter than the cell's list. */
  method CopyOthers(objects: seq<Body>, o: Body) returns (tmp: array<Body>)
    requires |objects| > 1 && multiset(objects)[o] == 1
    ensures tmp.Length == |objects| - 1
    ensures tmp[..] == Without(objects, o)
  {
    var n := |objects|;
    tmp := new Body[n - 1];
    var i, j := 0, 0;
    while i < n
      invariant 0 <= i <= n
      invariant j == i - multiset(objects[..i])[o]
      invariant 0 <= j <= tmp.Length
      invariant tmp[..j] == Without(objects[..i], o)
    {
      PrefixCount(objects, o, i);
      if objects[i] != o {
        tmp[j] := objects[i];
        assert tmp[..j + 1] == tmp[..j] + [objects[i]];
        j := j + 1;
      }
      assert objects[..i + 1][..i] == objects[..i];
      i := i + 1;
    }
    assert objects[..n] == objects;
    WithoutLength(objects, o);
    assert tmp[..] == tmp[..j];
  }

  /** Counting `o` in a growing prefix of a sequence that holds it once. */
  lemma PrefixCount(objs: seq<Body>, o: Body, i: nat)
    requires i < |objs| && multiset(objs)[o] == 1
    ensures multiset(objs[..i + 1])[o] == multiset(objs[..i])[o] + (if objs[i] == o then 1 else 0)
    ensures multiset(objs[..i])[o] <= 1 && multiset(objs[..i])[o] <= i
    ensures objs[i] != o ==> i - multiset(objs[..i])[o] < |objs| - 1
  {
    assert objs[..i + 1] == objs[..i] + [objs[i]];
    assert objs == objs[..i] + objs[i..];
    assert objs[i..] == [objs[i]] + objs[i + 1..];
    assert multiset(objs[..i])[o] <= |objs[..i]|;
    if objs[i] != o && multiset(objs[..i])[o] == 0 {
      assert multiset(objs[i + 1..])[o] == 1;
      assert o in objs[i + 1..];
    }
  }

  lemma WithoutResidents(objs: seq<Body>, o: Body)
    requires forall i :: 0 <= i < |objs| ==> objs[i].passability > 0
    ensures forall i :: 0 <= i < |Without(objs, o)| ==> Without(objs, o)[i].passability > 0
  {
    WithoutMultiset(objs, o);
    forall i | 0 <= i < |Without(objs, o)|
      ensures Without(objs, o)[i].passability > 0
    {
      assert Without(objs, o)[i] in multiset(Without(objs, o));
    }
  }

  /** A cell of a cx-by-cy grid is consistent when it knows its own
      coordinates and its cache holds the value its position and residents call for. */
  predicate CellOk(c: FieldCell, x: int, y: int, cx: int, cy: int)
  {
    c.x == x && c.y == y && c.Residents() && c.prop == ExpectedProp(x, y, cx, cy, c.objects)
  }

  /** Integer conversion of a float, truncating toward zero as C++ `int(v)` does. */
  function Trunc(v: real): (t: int)
    ensures v >= 0.0 ==> t as real <= v < t as real + 1.0
    ensures v < 0.0 ==> t as real - 1.0 < v <= t as real
  {
    if v >= 0.0 then v.Floor else -((-v).Floor)
  }

  lemma TruncMonotone(a: real, b: real)
    requires a <= b
    ensures Trunc(a) <= Trunc(b)
  {
  }

  /** The block of cells a body of the given radius centred at (px, py) is
      registered in: the rounded extent of its bounding circle, clipped to the grid. */
  datatype CellRange = CellRange(xmin: int, xmax: int, ymin: int, ymax: int)
  {
    predicate Contains(x: int, y: int)
    {
      xmin <= x <= xmax && ymin <= y <= ymax
    }
  }

  function Cover(px: real, py: real, radius: real, cx: int, cy: int): (g: CellRange)
    requires radius > 0.0
    ensures 0 <= g.xmin && g.xmax <= cx - 1 && 0 <= g.ymin && g.ymax <= cy - 1
  {
    var r := radius / CELL_SIZE;
    var p := (px / CELL_SIZE, py / CELL_SIZE);
    CellRange(Max(0, Trunc(p.0 - r + 0.5)), Min(cx - 1, Trunc(p.0 + r + 0.5)),
              Max(0, Trunc(p.1 - r + 0.5)), Min(cy - 1, Trunc(p.1 + r + 0.5)))
  }

  function Max(a: int, b: int): int { if a < b then b else a }
  function Min(a: int, b: int): int { if a < b then a else b }

  /** The cell the centre of a body rounds to is always among the cells the
      body is registered in, when that cell lies in the grid. */
  lemma CentreCovered(px: real, py: real, radius: real, cx: int, cy: int)
    requires radius > 0.0
    requires 0 <= Trunc(px / CELL_SIZE + 0.5) < cx && 0 <= Trunc(py / CELL_SIZE + 0.5) < cy
    ensures Cover(px, py, radius, cx, cy).Contains(Trunc(px / CELL_SIZE + 0.5), Trunc(py / CELL_SIZE + 0.5))
  {
    var r := radius / CELL_SIZE;
    TruncMonotone(px / CELL_SIZE - r + 0.5, px / CELL_SIZE + 0.5);
    TruncMonotone(px / CELL_SIZE + 0.5, px / CELL_SIZE + r + 0.5);
    TruncMonotone(py / CELL_SIZE - r + 0.5, py / CELL_SIZE + 0.5);
    TruncMonotone(py / CELL_SIZE + 0.5, py / CELL_SIZE + r + 0.5);
  }

  /** One cell after registering (`add`) or unregistering a body, with the
      border pinned to IMPASSABLE in both directions. */
  function Processed(c: FieldCell, o: Body, add: bool, border: bool): FieldCell
  {
    var objs := if add then c.objects + [o] else Without(c.objects, o);
    FieldCell(c.x, c.y, if border then IMPASSABLE else MaxPassability(objs), objs)
  }

  /** One cell after the update exactly as Field::ProcessObject performs it:
      the border is pinned again after a removal but not after an addition. */
  function ProcessedAsWritten(c: FieldCell, o: Body, add: bool, border: bool): FieldCell
  {
    var objs := if add then c.objects + [o] else Without(c.objects, o);
    FieldCell(c.x, c.y, if border && !add then IMPASSABLE else MaxPassability(objs), objs)
  }

  /** The corrected cell update of Field::ProcessObject: add or remove the
      body, then pin a border cell to IMPASSABLE in both directions (the
      source pins it only after a removal; see ProcessedAsWritten). */
  method UpdateCell(c: FieldCell, o: Body, add: bool, border: bool) returns (d: FieldCell)
    requires c.Residents()
    requires add ==> o !in c.objects && |c.objects| < MAX_RESIDENTS && o.passability > 0
    requires !add ==> multiset(c.objects)[o] == 1
    ensures d == Processed(c, o, add, border)
  {
    if add {
      d := c.AddObject(o);
    } else {
      d := c.RemoveObject(o);
    }
    if border {
      d := d.(prop := IMPASSABLE);
    }
  }

  /** Registering a body keeps a consistent cell consistent. */
  lemma ProcessedKeepsCell(c: FieldCell, x: int, y: int, cx: int, cy: int, o: Body, add: bool)
    requires CellOk(c, x, y, cx, cy)
    requires add ==> o !in c.objects && |c.objects| < MAX_RESIDENTS && o.passability > 0
    requires !add ==> multiset(c.objects)[o] == 1
    ensures CellOk(Processed(c, o, add, IsBorder(x, y, cx, cy)), x, y, cx, cy)
  {
    if !add {
      WithoutResidents(c.objects, o);
      WithoutLength(c.objects, o);
    }
  }

  /** Registering then unregistering a body restores a consistent cell. */
  lemma ProcessedRoundTrip(c: FieldCell, x: int, y: int, cx: int, cy: int, o: Body)
    requires CellOk(c, x, y, cx, cy)
    requires o !in c.objects
    ensures var b := IsBorder(x, y, cx, cy); Processed(Processed(c, o, true, b), o, false, b) == c
  {
    AddThenRemove(c.objects, o);
  }

  /** A wall of passability 1 registered in the corner cell of a grid leaves
      that border cell passable when the update is the one written in the source. */
  lemma AddOnBorderUnpinsIt()
    ensures var c := FieldCell(0, 0, IMPASSABLE, []);
            CellOk(c, 0, 0, 4, 4)
            && ProcessedAsWritten(c, Body(1, 1), true, IsBorder(0, 0, 4, 4)).prop == 1
            && !CellOk(ProcessedAsWritten(c, Body(1, 1), true, IsBorder(0, 0, 4, 4)), 0, 0, 4, 4)
  {
    var objs := [Body(1, 1)];
    assert MaxPassability(objs) == 1 by {
      assert objs[..0] == [];
    }
  }

  /** The passability grid.  Rows are indexed by y: `cells[y, x]`. */
  class Field {
    var cells: array2?<FieldCell>
    var cx: int
    var cy: int
    /** The cell returned for coordinates outside the grid. */
    var edgeCell: FieldCell
    /** Path-search session counter shared by all cells; Resize restarts it. */
    var sessionId: nat

    ghost predicate Valid()
      reads this, cells
    {
      edgeCell == FieldCell(-1, -1, IMPASSABLE, [])
      && (cells == null ==> cx == 0 && cy == 0)
      && (cells != null ==>
            cx > 0 && cy > 0 && cells.Length0 == cy && cells.Length1 == cx
            && forall y, x :: 0 <= y < cy && 0 <= x < cx ==> CellOk(cells[y, x], x, y, cx, cy))
    }

    constructor ()
      ensures Valid() && cells == null && cx == 0 && cy == 0
    {
      cells := null;
      cx, cy := 0, 0;
      edgeCell := FieldCell(-1, -1, IMPASSABLE, []);
      sessionId := 0;
    }

    /** Drops every cell. */
    method Clear()
      requires Valid()
      modifies this
      ensures Valid() && cells == null && cx == 0 && cy == 0
      ensures sessionId == old(sessionId)
    {
      cells := null;
      cx, cy := 0, 0;
    }

    /** Replaces the grid by an empty one of cx-by-cy cells whose border is impassable. */
    method Resize(width: int, height: int)
      requires Valid() && width > 0 && height > 0
      modifies this
      ensures Valid() && cells != null && fresh(cells)
      ensures cx == width && cy == height && sessionId == 0
      ensures forall y, x :: 0 <= y < cy && 0 <= x < cx ==> cells[y, x].objects == []
    {
      Clear();
      var a := new FieldCell[height, width];
      var y := 0;
      while y < height
        modifies a
        invariant 0 <= y <= height
        invariant forall j, i :: 0 <= j < y && 0 <= i < width ==>
          a[j, i] == FieldCell(i, j, ExpectedProp(i, j, width, height, []), [])
      {
        var x := 0;
        while x < width
          modifies a
          invariant 0 <= x <= width
          invariant forall j, i :: 0 <= j < y && 0 <= i < width ==>
            a[j, i] == FieldCell(i, j, ExpectedProp(i, j, width, height, []), [])
          invariant forall i :: 0 <= i < x ==>
            a[y, i] == FieldCell(i, y, ExpectedProp(i, y, width, height, []), [])
        {
          var prop := if IsBorder(x, y, width, height) then IMPASSABLE else 0;
          a[y, x] := FieldCell(x, y, prop, []);
          x := x + 1;
        }
        y := y + 1;
      }
      cells := a;
      cx, cy := width, height;
      sessionId := 0;
    }

    /** The cell at (x, y), or the impassable edge cell outside the grid. */
    function At(x: int, y: int): (c: FieldCell)
      reads this, cells
      requires Valid() && cells != null
      ensures 0 <= x < cx && 0 <= y < cy ==> c.x == x && c.y == y
      ensures 0 <= x < cx && 0 <= y < cy ==> c.prop == ExpectedProp(x, y, cx, cy, c.objects)
      ensures !(0 <= x < cx && 0 <= y < cy) ==> c.prop == IMPASSABLE && c.objects == []
    {
      if 0 <= x < cx && 0 <= y < cy then cells[y, x] else edgeCell
    }

    /** The precondition each cell the body covers must meet: a body is
        registered at most once per cell, a cell holds at most 255 bodies,
        and only a registered body is unregistered. */
    ghost predicate CanProcess(o: Body, g: CellRange, add: bool)
      reads this, cells
      requires Valid()
    {
      cells != null ==>
        forall y, x :: 0 <= y < cy && 0 <= x < cx && g.Contains(x, y) ==>
          if add then o !in cells[y, x].objects && |cells[y, x].objects| < MAX_RESIDENTS
          else multiset(cells[y, x].objects)[o] == 1
    }

    /** Registers (`add`) or unregisters a body in the one cell (x, y),
        re-pinning a border cell to IMPASSABLE afterwards. */
    method ProcessCell(x: int, y: int, o: Body, add: bool)
      requires Valid() && cells != null && 0 <= x < cx && 0 <= y < cy && o.passability > 0
      requires add ==> o !in cells[y, x].objects && |cells[y, x].objects| < MAX_RESIDENTS
      requires !add ==> multiset(cells[y, x].objects)[o] == 1
      modifies cells
      ensures Valid()
      ensures cells[y, x] == Processed(old(cells[y, x]), o, add, IsBorder(x, y, cx, cy))
      ensures forall j, i :: 0 <= j < cy && 0 <= i < cx && (j != y || i != x) ==> cells[j, i] == old(cells[j, i])
    {
      var c := cells[y, x];
      ProcessedKeepsCell(c, x, y, cx, cy, o, add);
      var d := UpdateCell(c, o, add, IsBorder(x, y, cx, cy));
      cells[y, x] := d;
    }

    /** Registers (`add`) or unregisters a body of the given radius at
        (px, py) in every cell its bounding circle covers, column by column. */
    method ProcessObject(o: Body, px: real, py: real, radius: real, add: bool)
      requires Valid() && radius > 0.0 && o.passability > 0
      requires CanProcess(o, Cover(px, py, radius, cx, cy), add)
      modifies cells
      ensures Valid()
      ensures cells != null ==> forall y, x :: 0 <= y < cy && 0 <= x < cx ==>
        cells[y, x] == if Cover(px, py, radius, cx, cy).Contains(x, y)
                       then Processed(old(cells[y, x]), o, add, IsBorder(x, y, cx, cy))
                       else old(cells[y, x])
    {
      var g := Cover(px, py, radius, cx, cy);
      if cells == null {
        return;
      }
      var x := g.xmin;
      while x <= g.xmax
        invariant Valid()
        invariant g.xmin <= x && (g.xmin <= g.xmax ==> x <= g.xmax + 1)
        invariant forall j, i :: 0 <= j < cy && 0 <= i < cx ==>
          cells[j, i] == if g.Contains(i, j) && i < x
                         then Processed(old(cells[j, i]), o, add, IsBorder(i, j, cx, cy))
                         else old(cells[j, i])
      {
        var y := g.ymin;
        while y <= g.ymax
          invariant Valid()
          invariant g.ymin <= y && (g.ymin <= g.ymax ==> y <= g.ymax + 1)
          invariant forall j, i :: 0 <= j < cy && 0 <= i < cx ==>
            cells[j, i] == if g.Contains(i, j) && (i < x || (i == x && j < y))
                           then Processed(old(cells[j, i]), o, add, IsBorder(i, j, cx, cy))
                           else old(cells[j, i])
        {
          ProcessCell(x, y, o, add);
          y := y + 1;
        }
        x := x + 1;
      }
    }
  }
}
