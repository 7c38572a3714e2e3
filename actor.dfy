/*
  A game object with a position that registers itself in spatial grids
  (GC_Actor in game/src/tank/gc/Actor.cpp).  The world is split into
  square locations; for every grid the actor has been added to (a
  "context"), it is listed in that grid's cell for its current location.
*/
module Actor {
  import Level
  import PassabilityField

  datatype Location = Location(x: int, y: int)

  /** A grid of object lists, one per location (Grid<ObjectList>).  The
      Grid class itself is not part of this model beyond its cells. */
  class Grid {
    const width: int
    const height: int
    var lists: map<Location, seq<nat>>

    ghost predicate Valid()
      reads this
    {
      forall l :: l in lists <==> 0 <= l.x < width && 0 <= l.y < height
    }

    predicate Contains(l: Location)
      reads this
    {
      l in lists
    }

    constructor (w: nat, h: nat)
      ensures Valid() && width == w && height == h
      ensures forall l :: l in lists ==> lists[l] == []
    {
      width, height := w, h;
      lists := map x, y | 0 <= x < w && 0 <= y < h :: Location(x, y) := [];
    }
  }

  /** `s` with the first occurrence of `id` erased (the entry the actor's
      iterator points to). */
  function RemoveFirst(s: seq<nat>, id: nat): (r: seq<nat>)
    ensures id in s ==> |r| == |s| - 1 && multiset(r) == multiset(s) - multiset{id}
    ensures id !in s ==> r == s
  {
    if |s| == 0 then []
    else
      assert s == [s[0]] + s[1..];
      if s[0] == id then s[1..]
      else [s[0]] + RemoveFirst(s[1..], id)
  }

  /** Entering a cell then leaving it gives the cell back. */
  lemma {:induction false} EnterThenLeave(s: seq<nat>, id: nat)
    requires id !in s
    ensures RemoveFirst(s + [id], id) == s
  {
    if |s| > 0 {
      assert (s + [id])[1..] == s[1..] + [id];
      EnterThenLeave(s[1..], id);
    }
  }

  /** The grid cells after an actor moved from location `from` to `to`. */
  function Relisted(lists: map<Location, seq<nat>>, from: Location, to: Location, id: nat): map<Location, seq<nat>>
    requires from in lists && to in lists
  {
    var left := lists[from := RemoveFirst(lists[from], id)];
    left[to := left[to] + [id]]
  }

  /** Moving an actor listed once in its old cell, and not in its new one,
      lists it once in the new cell, not in the old one, and changes no
      other cell. */
  lemma RelistedMovesActor(lists: map<Location, seq<nat>>, from: Location, to: Location, id: nat)
    requires from in lists && to in lists && from != to
    requires multiset(lists[from])[id] == 1 && id !in lists[to]
    ensures var r := Relisted(lists, from, to, id);
            r.Keys == lists.Keys
            && multiset(r[from])[id] == 0 && multiset(r[to])[id] == 1
            && multiset(r[from]) == multiset(lists[from]) - multiset{id}
            && r[to] == lists[to] + [id]
            && forall l :: l in lists && l != from && l != to ==> r[l] == lists[l]
  {
  }

  /** The cell a coordinate falls in, clamped to the `count` locations of the
      level; C++ `int()` truncates toward zero. */
  function Cell(v: real, count: int): (c: int)
    ensures count >= 1 ==> 0 <= c < count
    ensures count >= 1 && 0.0 <= v < (count * Level.LOCATION_SIZE) as real ==>
              (c * Level.LOCATION_SIZE) as real <= v < ((c + 1) * Level.LOCATION_SIZE) as real
  {
    var t := PassabilityField.Trunc(v / Level.LOCATION_SIZE as real);
    var lower := if t < 0 then 0 else t;
    if count - 1 < lower then count - 1 else lower
  }

  /** Truncating and flooring the scaled coordinate pick the same location
      once clamped: a negative coordinate lands in column 0 either way. */
  lemma TruncClampIsFloorClamp(v: real, count: int)
    requires count >= 1
    ensures var f := (v / Level.LOCATION_SIZE as real).Floor;
            Cell(v, count) == if f < 0 then 0 else if f > count - 1 then count - 1 else f
  {
  }

  function LocationOf(px: real, py: real, locationsX: int, locationsY: int): Location
  {
    Location(Cell(px, locationsX), Cell(py, locationsY))
  }

  /** A grid the actor is registered with, and whether the actor is
      currently listed in it (the C++ iterator is set). */
  datatype Context = Context(grid: Grid, entered: bool)

  /** Actor `id` appears once in the list of `location` of a grid it has
      entered, and in no other list of that grid. */
  ghost predicate ListedOnce(lists: map<Location, seq<nat>>, entered: bool, id: nat, location: Location)
  {
    forall l {:trigger multiset(lists[l])} :: l in lists ==> multiset(lists[l])[id] == if entered && l == location then 1 else 0
  }

  class Actor {
    const id: nat
    var px: real
    var py: real
    var location: Location
    var contexts: seq<Context>

    ghost function Grids(): set<Grid>
      reads this
    {
      set i | 0 <= i < |contexts| :: contexts[i].grid
    }

    /** The actor is registered with the grids of `before`, in the same order. */
    predicate SameGrids(before: seq<Context>)
      reads this
    {
      |contexts| == |before| && forall i :: 0 <= i < |contexts| ==> contexts[i].grid == before[i].grid
    }

    /** Each grid is registered once, the location is a cell of every grid
        the actor is listed in, and the actor appears exactly once in the
        list of its location in an entered grid and in no other list of its
        grids (the iterator a context holds points at that one entry). */
    ghost predicate Valid()
      reads this, Grids()
    {
      (forall i, j :: 0 <= i < j < |contexts| ==> contexts[i].grid != contexts[j].grid)
      && (forall i :: 0 <= i < |contexts| && contexts[i].entered ==> contexts[i].grid.Contains(location))
      && (forall i :: 0 <= i < |contexts| ==> ListedOnce(contexts[i].grid.lists, contexts[i].entered, id, location))
    }

    /** The actor is in no list of any of its grids. */
    ghost predicate Unlisted()
      reads this, Grids()
    {
      forall i, l :: 0 <= i < |contexts| && l in contexts[i].grid.lists ==> id !in contexts[i].grid.lists[l]
    }

    predicate AllEntered()
      reads this
    {
      forall i :: 0 <= i < |contexts| ==> contexts[i].entered
    }

    predicate NoneEntered()
      reads this
    {
      forall i :: 0 <= i < |contexts| ==> !contexts[i].entered
    }

    /** Every context is a grid whose cells cover a locationsX-by-locationsY level. */
    ghost predicate FitsLevel(locationsX: int, locationsY: int)
      reads this, Grids()
    {
      forall i :: 0 <= i < |contexts| ==>
        contexts[i].grid.Valid() && contexts[i].grid.width == locationsX && contexts[i].grid.height == locationsY
    }

    /** A new actor at the origin with no contexts. */
    constructor (actorId: nat, locationsX: int, locationsY: int)
      ensures Valid() && contexts == [] && id == actorId
      ensures px == 0.0 && py == 0.0
      ensures location == LocationOf(0.0, 0.0, locationsX, locationsY)
    {
      id := actorId;
      px, py := 0.0, 0.0;
      location := Location(0, 0);
      contexts := [];
      new;
      MoveTo(0.0, 0.0, locationsX, locationsY);
    }

    /** Lists the actor in the cell `l` of context `i`'s grid. */
    method EnterContext(i: int, l: Location)
      requires Valid() && 0 <= i < |contexts| && !contexts[i].entered && contexts[i].grid.Contains(l)
      requires l == location
      modifies this, contexts[i].grid
      ensures Valid()
      ensures contexts == old(contexts)[i := Context(old(contexts[i].grid), true)]
      ensures contexts[i].grid.lists == old(contexts[i].grid.lists)[l := old(contexts[i].grid.lists[l]) + [id]]
      ensures location == old(location) && px == old(px) && py == old(py)
    {
      var g := contexts[i].grid;
      g.lists := g.lists[l := g.lists[l] + [id]];
      contexts := contexts[i := Context(g, true)];
    }

    /** Erases the actor from the cell of its location in context `i`'s grid. */
    method LeaveContext(i: int)
      requires Valid() && 0 <= i < |contexts| && contexts[i].entered
      modifies this, contexts[i].grid
      ensures Valid()
      ensures contexts == old(contexts)[i := Context(old(contexts[i].grid), false)]
      ensures contexts[i].grid.lists ==
                old(contexts[i].grid.lists)[location := RemoveFirst(old(contexts[i].grid.lists[location]), id)]
      ensures location == old(location) && px == old(px) && py == old(py)
    {
      var g := contexts[i].grid;
      g.lists := g.lists[location := RemoveFirst(g.lists[location], id)];
      contexts := contexts[i := Context(g, false)];
    }

    /** Leaves every context. */
    method LeaveAllContexts()
      requires Valid() && AllEntered()
      modifies this, Grids()
      ensures Valid() && NoneEntered()
      ensures SameGrids(old(contexts)) && Grids() == old(Grids())
      ensures forall i :: 0 <= i < |contexts| ==>
        contexts[i].grid.lists == old(contexts[i].grid.lists)[location := RemoveFirst(old(contexts[i].grid.lists[location]), id)]
      ensures location == old(location) && px == old(px) && py == old(py)
    {
      var k := 0;
      while k < |contexts|
        invariant 0 <= k <= |contexts|
        invariant Valid() && SameGrids(old(contexts)) && Grids() == old(Grids())
        invariant location == old(location) && px == old(px) && py == old(py)
        invariant forall i :: 0 <= i < |contexts| ==> contexts[i].entered == (i >= k)
        invariant forall i :: 0 <= i < |contexts| ==>
          contexts[i].grid.lists == if i < k
            then old(contexts[i].grid.lists)[location := RemoveFirst(old(contexts[i].grid.lists[location]), id)]
            else old(contexts[i].grid.lists)
      {
        LeaveContext(k);
        k := k + 1;
      }
    }

    /** Moves to location `l` and enters every context there. */
    method EnterAllContexts(l: Location)
      requires Valid() && NoneEntered()
      requires forall i :: 0 <= i < |contexts| ==> l in contexts[i].grid.lists
      modifies this, Grids()
      ensures Valid() && AllEntered() && location == l
      ensures SameGrids(old(contexts)) && Grids() == old(Grids())
      ensures forall i :: 0 <= i < |contexts| ==>
        contexts[i].grid.lists == old(contexts[i].grid.lists)[l := old(contexts[i].grid.lists[l]) + [id]]
      ensures px == old(px) && py == old(py)
    {
      location := l;
      var k := 0;
      while k < |contexts|
        invariant 0 <= k <= |contexts|
        invariant Valid() && SameGrids(old(contexts)) && Grids() == old(Grids()) && location == l
        invariant px == old(px) && py == old(py)
        invariant forall i :: 0 <= i < |contexts| ==> contexts[i].entered == (i < k)
        invariant forall i :: 0 <= i < |contexts| ==>
          contexts[i].grid.lists == if i < k
            then old(contexts[i].grid.lists)[l := old(contexts[i].grid.lists[l]) + [id]]
            else old(contexts[i].grid.lists)
      {
        EnterContext(k, l);
        k := k + 1;
      }
    }

    /** Registers the actor with `g` (at the front of its contexts) and
        lists it there at its current location. */
    method AddContext(g: Grid)
      requires Valid() && g !in Grids() && g.Contains(location)
      requires forall l :: l in g.lists ==> id !in g.lists[l]
      modifies this, g
      ensures Valid()
      ensures contexts == [Context(g, true)] + old(contexts)
      ensures g.lists == old(g.lists)[location := old(g.lists[location]) + [id]]
      ensures location == old(location) && px == old(px) && py == old(py)
    {
      contexts := [Context(g, false)] + contexts;
      EnterContext(0, location);
    }

    /** Unregisters the actor from `g`, leaving it first when it is listed there. */
    method RemoveContext(g: Grid)
      requires Valid() && g in Grids()
      modifies this, g
      ensures Valid() && g !in Grids()
      ensures exists i :: 0 <= i < |old(contexts)| && old(contexts)[i].grid == g
                && contexts == old(contexts)[..i] + old(contexts)[i + 1..]
                && g.lists == if old(contexts)[i].entered
                              then old(g.lists)[location := RemoveFirst(old(g.lists[location]), id)]
                              else old(g.lists)
      ensures location == old(location) && px == old(px) && py == old(py)
    {
      var k := 0;
      while contexts[k].grid != g
        invariant 0 <= k < |contexts|
        invariant exists j :: k <= j < |contexts| && contexts[j].grid == g
        decreases |contexts| - k
      {
        k := k + 1;
      }
      if contexts[k].entered {
        LeaveContext(k);
      }
      Unregister(k);
    }

    /** Drops context `k`, which the actor is not listed in. */
    method Unregister(k: int)
      requires Valid() && 0 <= k < |contexts| && !contexts[k].entered
      modifies this`contexts
      ensures Valid() && old(contexts[k].grid) !in Grids()
      ensures contexts == old(contexts[..k]) + old(contexts[k + 1..])
    {
      ghost var before := contexts;
      contexts := contexts[..k] + contexts[k + 1..];
      forall h | h in Grids() ensures h != before[k].grid {
        var j :| 0 <= j < |contexts| && contexts[j].grid == h;
        if j < k { assert h == before[j].grid; } else { assert h == before[j + 1].grid; }
      }
    }

    /** Moves to (x, y); when the location changes, the actor leaves every
        context at the old location and enters it at the new one. */
    method MoveTo(x: real, y: real, locationsX: int, locationsY: int)
      requires Valid() && AllEntered()
      requires |contexts| > 0 ==> FitsLevel(locationsX, locationsY) && locationsX >= 1 && locationsY >= 1
      modifies this, Grids()
      ensures Valid() && AllEntered()
      ensures px == x && py == y && location == LocationOf(x, y, locationsX, locationsY)
      ensures SameGrids(old(contexts)) && Grids() == old(Grids())
      ensures location == old(location) ==> forall i :: 0 <= i < |contexts| ==> contexts[i].grid.lists == old(contexts[i].grid.lists)
      ensures location != old(location) ==> forall i :: 0 <= i < |contexts| ==>
        contexts[i].grid.lists ==
          Relisted(old(contexts[i].grid.lists), old(location), location, id)
    {
      var loc := LocationOf(x, y, locationsX, locationsY);
      px, py := x, y;
      if loc != location {
        LeaveAllContexts();
        EnterAllContexts(loc);
      }
    }

    /** The destructor: leaves every context. */
    method Destroy()
      requires Valid() && AllEntered()
      modifies this, Grids()
      ensures Valid() && NoneEntered() && Unlisted() && SameGrids(old(contexts))
      ensures forall i :: 0 <= i < |contexts| ==>
        contexts[i].grid.lists == old(contexts[i].grid.lists)[location := RemoveFirst(old(contexts[i].grid.lists[location]), id)]
    {
      LeaveAllContexts();
      forall i, l | 0 <= i < |contexts| && l in contexts[i].grid.lists
        ensures id !in contexts[i].grid.lists[l]
      {
        assert multiset(contexts[i].grid.lists[l])[id] == 0;
      }
    }
  }
}
