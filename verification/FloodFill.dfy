/**
 * Counting 8-connected components by flood fill: the renderer's version scans a clipped window
 * around each pixel, the repair scorer's version scans nine offsets and checks the bounds.
 */
module FloodFill {
  import opened Grid
  import opened Prelude

  lemma ListsSnoc(s: seq<Pixel>, pixels: set<Pixel>, p: Pixel)
    requires Lists(s, pixels) && p !in pixels
    ensures Lists(s + [p], pixels + {p})
  {
  }

  lemma ListsConcat(s: seq<Pixel>, pixels: set<Pixel>, t: seq<Pixel>, more: set<Pixel>)
    requires Lists(s, pixels) && Lists(t, more) && pixels !! more
    ensures Lists(s + t, pixels + more)
  {
    forall i, j | 0 <= i < j < |s + t| ensures (s + t)[i] != (s + t)[j] {
      if i < |s| && j >= |s| {
        assert s[i] in s && t[j - |s|] in t;
      }
    }
  }

  /** Row-major order. */
  predicate Before(p: Pixel, y: int, x: int) {
    p.0 < y || (p.0 == y && p.1 < x)
  }

  ghost function Unvisited(fg: set<Pixel>, seen: set<Pixel>, c: Pixel): set<Pixel> {
    set q | q in fg && q !in seen && Adjacent(c, q)
  }

  ghost function UnvisitedBefore(fg: set<Pixel>, seen: set<Pixel>, c: Pixel, y: int, x: int): set<Pixel> {
    set q | q in Unvisited(fg, seen, c) && Before(q, y, x)
  }

  /** Turning one entry on adds one pixel. */
  lemma Mark(mask: array2<bool>, before: set<Pixel>, y: int, x: int)
    requires 0 <= y < mask.Length0 && 0 <= x < mask.Length1 && mask[y, x]
    requires forall p: Pixel | p in before :: 0 <= p.0 < mask.Length0 && 0 <= p.1 < mask.Length1
    requires forall i, j | 0 <= i < mask.Length0 && 0 <= j < mask.Length1 && (i != y || j != x) ::
      mask[i, j] <==> (i, j) in before
    ensures Pixels(mask) == before + {(y, x)}
  {
  }

  /** The renderer's neighbour scan: rows and columns clipped to the image. */
  method PushWindow(mask: array2<bool>, visited: array2<bool>, c: Pixel, stack: seq<Pixel>)
    returns (r: seq<Pixel>, ghost pushed: seq<Pixel>)
    requires mask != visited && visited.Length0 == mask.Length0 && visited.Length1 == mask.Length1
    requires c in Pixels(mask)
    modifies visited
    ensures r == stack + pushed
    ensures Lists(pushed, Unvisited(Pixels(mask), old(Pixels(visited)), c))
    ensures Pixels(visited) == old(Pixels(visited)) + Unvisited(Pixels(mask), old(Pixels(visited)), c)
  {
    ghost var fg, seen := Pixels(mask), Pixels(visited);
    r, pushed := stack, [];
    var top := if c.0 - 1 > 0 then c.0 - 1 else 0;
    var bottom := if c.0 + 2 < mask.Length0 then c.0 + 2 else mask.Length0;
    var left := if c.1 - 1 > 0 then c.1 - 1 else 0;
    var right := if c.1 + 2 < mask.Length1 then c.1 + 2 else mask.Length1;
    for y := top to bottom
      invariant Pushed(mask, visited, fg, seen, c, stack, r, pushed, y, left)
    {
      for x := left to right
        invariant Pushed(mask, visited, fg, seen, c, stack, r, pushed, y, x)
      {
        r, pushed := PushOne(mask, visited, fg, seen, c, stack, r, pushed, y, x);
      }
      RowEnd(mask, fg, seen, c, y, right, left);
    }
    ScanEnd(mask, fg, seen, c, bottom, left);
  }

  /** The repair scorer's neighbour scan: nine offsets, each checked against the bounds. */
  method PushOffsets(mask: array2<bool>, visited: array2<bool>, c: Pixel, stack: seq<Pixel>)
    returns (r: seq<Pixel>, ghost pushed: seq<Pixel>)
    requires mask != visited && visited.Length0 == mask.Length0 && visited.Length1 == mask.Length1
    requires c in Pixels(mask)
    modifies visited
    ensures r == stack + pushed
    ensures Lists(pushed, Unvisited(Pixels(mask), old(Pixels(visited)), c))
    ensures Pixels(visited) == old(Pixels(visited)) + Unvisited(Pixels(mask), old(Pixels(visited)), c)
  {
    ghost var fg, seen := Pixels(mask), Pixels(visited);
    r, pushed := stack, [];
    for dy := -1 to 2
      invariant Pushed(mask, visited, fg, seen, c, stack, r, pushed, c.0 + dy, c.1 - 1)
    {
      for dx := -1 to 2
        invariant Pushed(mask, visited, fg, seen, c, stack, r, pushed, c.0 + dy, c.1 + dx)
      {
        var y, x := c.0 + dy, c.1 + dx;
        if 0 <= y < mask.Length0 && 0 <= x < mask.Length1 {
          r, pushed := PushOne(mask, visited, fg, seen, c, stack, r, pushed, y, x);
        } else {
          OutOfBounds(mask, fg, seen, c, y, x);
        }
      }
      RowEnd(mask, fg, seen, c, c.0 + dy, c.1 + 2, c.1 - 1);
    }
    ScanEnd(mask, fg, seen, c, c.0 + 2, c.1 - 1);
  }

  /** The scan has handled every neighbour before (y, x). */
  ghost predicate Pushed(mask: array2<bool>, visited: array2<bool>, fg: set<Pixel>, seen: set<Pixel>, c: Pixel,
                         stack: seq<Pixel>, r: seq<Pixel>, pushed: seq<Pixel>, y: int, x: int)
    reads mask, visited
  {
    && fg == Pixels(mask)
    && r == stack + pushed
    && Lists(pushed, UnvisitedBefore(fg, seen, c, y, x))
    && Pixels(visited) == seen + UnvisitedBefore(fg, seen, c, y, x)
  }

  method PushOne(mask: array2<bool>, visited: array2<bool>, ghost fg: set<Pixel>, ghost seen: set<Pixel>, c: Pixel,
                 ghost stack: seq<Pixel>, r: seq<Pixel>, ghost pushed: seq<Pixel>, y: int, x: int)
    returns (r': seq<Pixel>, ghost pushed': seq<Pixel>)
    requires mask != visited && visited.Length0 == mask.Length0 && visited.Length1 == mask.Length1
    requires 0 <= y < mask.Length0 && 0 <= x < mask.Length1 && Adjacent(c, (y, x))
    requires Pushed(mask, visited, fg, seen, c, stack, r, pushed, y, x)
    modifies visited
    ensures Pushed(mask, visited, fg, seen, c, stack, r', pushed', y, x + 1)
  {
    ghost var before := Pixels(visited);
    r', pushed' := r, pushed;
    var added := mask[y, x] && !visited[y, x];
    OneMore(fg, seen, c, y, x);
    if added {
      visited[y, x] := true;
      r', pushed' := r + [(y, x)], pushed + [(y, x)];
      Mark(visited, before, y, x);
      ListsSnoc(pushed, UnvisitedBefore(fg, seen, c, y, x), (y, x));
    }
  }

  lemma OneMore(fg: set<Pixel>, seen: set<Pixel>, c: Pixel, y: int, x: int)
    requires Adjacent(c, (y, x))
    ensures UnvisitedBefore(fg, seen, c, y, x + 1)
         == UnvisitedBefore(fg, seen, c, y, x) + (if (y, x) in fg && (y, x) !in seen then {(y, x)} else {})
    ensures (y, x) !in UnvisitedBefore(fg, seen, c, y, x)
  {
    forall q: Pixel ensures Before(q, y, x + 1) <==> Before(q, y, x) || q == (y, x) {}
  }

  lemma OutOfBounds(mask: array2<bool>, fg: set<Pixel>, seen: set<Pixel>, c: Pixel, y: int, x: int)
    requires fg == Pixels(mask) && !(0 <= y < mask.Length0 && 0 <= x < mask.Length1)
    ensures UnvisitedBefore(fg, seen, c, y, x + 1) == UnvisitedBefore(fg, seen, c, y, x)
  {
    forall q: Pixel | q in fg ensures Before(q, y, x + 1) <==> Before(q, y, x) {}
  }

  lemma RowEnd(mask: array2<bool>, fg: set<Pixel>, seen: set<Pixel>, c: Pixel, y: int, right: int, left: int)
    requires fg == Pixels(mask)
    requires right == c.1 + 2 || right == mask.Length1
    requires left == c.1 - 1 || left == 0
    ensures UnvisitedBefore(fg, seen, c, y, right) == UnvisitedBefore(fg, seen, c, y + 1, left)
  {
    forall q: Pixel | q in fg && Adjacent(c, q) ensures Before(q, y, right) <==> Before(q, y + 1, left) {}
  }

  lemma ScanEnd(mask: array2<bool>, fg: set<Pixel>, seen: set<Pixel>, c: Pixel, bottom: int, left: int)
    requires fg == Pixels(mask)
    requires bottom == c.0 + 2 || bottom == mask.Length0
    requires left == c.1 - 1 || left == 0
    ensures UnvisitedBefore(fg, seen, c, bottom, left) == Unvisited(fg, seen, c)
  {
    forall q: Pixel | q in fg && Adjacent(c, q) ensures Before(q, bottom, left) {}
  }

  // ---------------------------------------------------------------- one flood

  /** The two implementations differ in how they scan a pixel's neighbours. */
  datatype Scan = Window | Offsets

  /** What has been reached from start, what of it has been popped, and what is stacked. */
  ghost predicate Flooding(fg: set<Pixel>, seen: set<Pixel>, start: Pixel, reached: set<Pixel>, popped: set<Pixel>,
                           stack: seq<Pixel>, pushed: seq<Pixel>)
  {
    && start in reached && reached <= fg && reached !! seen
    && (forall q | q in reached :: Connected(fg, start, q))
    && popped <= reached
    && Lists(stack, reached - popped)
    && Lists(pushed, reached)
    && (forall p, q | p in popped && q in fg && Adjacent(p, q) :: q in seen + reached)
  }

  lemma FloodingStep(fg: set<Pixel>, seen: set<Pixel>, start: Pixel, reached: set<Pixel>, popped: set<Pixel>,
                     stack: seq<Pixel>, pushed: seq<Pixel>, added: seq<Pixel>)
    requires Flooding(fg, seen, start, reached, popped, stack, pushed) && stack != []
    requires var c := stack[|stack| - 1]; Lists(added, Unvisited(fg, seen + reached, c))
    ensures var n := |stack| - 1;
      var more := Unvisited(fg, seen + reached, stack[n]);
      && Flooding(fg, seen, start, reached + more, popped + {stack[n]}, stack[..n] + added, pushed + added)
      && stack[n] in fg && stack[n] !in popped
  {
    var n := |stack| - 1;
    var c := stack[n];
    var more := Unvisited(fg, seen + reached, c);
    assert c in stack;
    forall q | q in more ensures Connected(fg, start, q) {
      ConnectedStep(fg, start, c, q);
    }
    assert Lists(stack[..n], reached - (popped + {c})) by {
      assert stack == stack[..n] + [c];
      forall p ensures p in stack[..n] <==> p in reached - (popped + {c}) {
        assert p in stack <==> p in stack[..n] || p == c;
      }
    }
    ListsConcat(stack[..n], reached - (popped + {c}), added, more);
    ListsConcat(pushed, reached, added, more);
    assert reached - (popped + {c}) + more == reached + more - (popped + {c});
  }

  /** With nothing left on the stack the flood has reached exactly its class. */
  lemma FloodingEnd(fg: set<Pixel>, seen: set<Pixel>, start: Pixel, reached: set<Pixel>, popped: set<Pixel>,
                    pushed: seq<Pixel>)
    requires Flooding(fg, seen, start, reached, popped, [], pushed) && Closed(fg, seen)
    ensures reached == Component(fg, start) && popped == reached
  {
    forall p | p in reached ensures p in popped {
      assert p !in reached - popped by { assert p !in []; }
    }
    forall p, q | p in reached && q in fg && Adjacent(p, q) ensures q in reached {
      assert q in seen ==> p in seen by { assert Adjacent(q, p); }
    }
    ClosedIsComponent(fg, reached, start);
  }

  lemma FloodingStart(fg: set<Pixel>, seen: set<Pixel>, start: Pixel)
    requires start in fg && start !in seen
    ensures Flooding(fg, seen, start, {start}, {}, [start], [start])
  {
    ConnectedSelf(fg, start);
  }

  lemma FloodingTop(fg: set<Pixel>, seen: set<Pixel>, start: Pixel, reached: set<Pixel>, popped: set<Pixel>,
                    stack: seq<Pixel>, pushed: seq<Pixel>)
    requires Flooding(fg, seen, start, reached, popped, stack, pushed)
    ensures popped <= fg
    ensures stack != [] ==> stack[|stack| - 1] in fg && stack[|stack| - 1] !in popped
  {
    assert stack != [] ==> stack[|stack| - 1] in stack;
  }

  method Visit(visited: array2<bool>, y: int, x: int)
    requires 0 <= y < visited.Length0 && 0 <= x < visited.Length1
    modifies visited
    ensures Pixels(visited) == old(Pixels(visited)) + {(y, x)}
  {
    ghost var before := Pixels(visited);
    visited[y, x] := true;
    Mark(visited, before, y, x);
  }

  /** Pop one pixel and push its unvisited neighbours. */
  method PopOne(mask: array2<bool>, visited: array2<bool>, scan: Scan, stack: seq<Pixel>, ghost seen: set<Pixel>,
                ghost start: Pixel, ghost reached: set<Pixel>, ghost popped: set<Pixel>, ghost pushed: seq<Pixel>)
    returns (r: seq<Pixel>, ghost reached': set<Pixel>, ghost popped': set<Pixel>, ghost pushed': seq<Pixel>)
    requires mask != visited && visited.Length0 == mask.Length0 && visited.Length1 == mask.Length1
    requires stack != [] && Flooding(Pixels(mask), seen, start, reached, popped, stack, pushed)
    requires Pixels(visited) == seen + reached
    modifies visited
    ensures Flooding(Pixels(mask), seen, start, reached', popped', r, pushed')
    ensures Pixels(visited) == seen + reached'
    ensures |popped'| == |popped| + 1 && |Pixels(mask) - popped'| < |Pixels(mask) - popped|
  {
    hide Flooding, Pixels, Lists, Unvisited;
    ghost var fg := Pixels(mask);
    FloodingTop(fg, seen, start, reached, popped, stack, pushed);
    var c := stack[|stack| - 1];
    ghost var more, added := Unvisited(fg, seen + reached, c), [];
    if scan.Window? {
      r, added := PushWindow(mask, visited, c, stack[..|stack| - 1]);
    } else {
      r, added := PushOffsets(mask, visited, c, stack[..|stack| - 1]);
    }
    FloodingStep(fg, seen, start, reached, popped, stack, pushed, added);
    FloodingShrinks(fg, popped, c);
    assert seen + reached + more == seen + (reached + more);
    reached', popped', pushed' := reached + more, popped + {c}, pushed + added;
  }

  method Flood(mask: array2<bool>, visited: array2<bool>, y: int, x: int, scan: Scan)
    returns (size: nat, ghost pushed: seq<Pixel>)
    requires mask != visited && visited.Length0 == mask.Length0 && visited.Length1 == mask.Length1
    requires 0 <= y < mask.Length0 && 0 <= x < mask.Length1
    requires (y, x) in Pixels(mask) && (y, x) !in Pixels(visited)
    requires Closed(Pixels(mask), Pixels(visited))
    modifies visited
    ensures var group := Component(Pixels(mask), (y, x));
      && Pixels(visited) == old(Pixels(visited)) + group
      && size == |group|
      && Lists(pushed, group)
  {
    hide Flooding, Pixels, Component, Closed, Lists;
    ghost var fg, seen := Pixels(mask), Pixels(visited);
    var stack := [(y, x)];
    Visit(visited, y, x);
    size := 0;
    pushed := stack;
    ghost var reached: set<Pixel>, popped: set<Pixel> := {(y, x)}, {};
    FloodingStart(fg, seen, (y, x));
    while stack != []
      invariant Flooding(fg, seen, (y, x), reached, popped, stack, pushed)
      invariant Pixels(mask) == fg && Pixels(visited) == seen + reached && size == |popped|
      decreases |fg - popped|
    {
      stack, reached, popped, pushed := PopOne(mask, visited, scan, stack, seen, (y, x), reached, popped, pushed);
      size := size + 1;
    }
    FloodingEnd(fg, seen, (y, x), reached, popped, pushed);
    FloodingPushed(fg, seen, (y, x), reached, popped, stack, pushed);
  }

  /** One pixel popped is one fewer to pop. */
  lemma FloodingShrinks(fg: set<Pixel>, popped: set<Pixel>, c: Pixel)
    requires c in fg && c !in popped
    ensures |popped + {c}| == |popped| + 1 && |fg - (popped + {c})| < |fg - popped|
  {
    assert fg - (popped + {c}) == fg - popped - {c};
  }

  lemma FloodingPushed(fg: set<Pixel>, seen: set<Pixel>, start: Pixel, reached: set<Pixel>, popped: set<Pixel>,
                       stack: seq<Pixel>, pushed: seq<Pixel>)
    requires Flooding(fg, seen, start, reached, popped, stack, pushed)
    ensures Lists(pushed, reached)
  {
  }

  // ---------------------------------------------------------------- the whole image

  /** The foreground pixels met before (y, x), in row-major order. */
  ghost function ScannedBefore(fg: set<Pixel>, y: int, x: int): set<Pixel> {
    set p | p in fg && Before(p, y, x)
  }

  /** The pixels of the classes met so far. */
  ghost function Union(fg: set<Pixel>, some: set<Pixel>): set<Pixel> {
    set q | q in fg && exists p :: p in some && q in Component(fg, p)
  }

  ghost predicate Counting(mask: array2<bool>, visited: array2<bool>, fg: set<Pixel>, minimum: int,
                           y: int, x: int, count: nat, pushed: seq<Pixel>)
    reads mask, visited
  {
    && Pixels(mask) == fg
    && Pixels(visited) == Union(fg, ScannedBefore(fg, y, x))
    && Lists(pushed, Union(fg, ScannedBefore(fg, y, x)))
    && count == |Large(ComponentsOf(fg, ScannedBefore(fg, y, x)), minimum)|
  }

  lemma UnionClosed(fg: set<Pixel>, some: set<Pixel>)
    requires some <= fg
    ensures Closed(fg, Union(fg, some)) && some <= Union(fg, some)
  {
    forall p, q | p in Union(fg, some) && q in fg && Adjacent(p, q) ensures q in Union(fg, some) {
      var r :| r in some && p in Component(fg, r);
      ComponentClosed(fg, r);
    }
    forall p | p in some ensures p in Component(fg, p) {
      ConnectedSelf(fg, p);
    }
  }

  /** What scanning one more pixel changes. */
  lemma ScanPixel(fg: set<Pixel>, y: int, x: int, minimum: int)
    ensures var some, more := ScannedBefore(fg, y, x), ScannedBefore(fg, y, x + 1);
      var p := (y, x);
      var group := Component(fg, p);
      if p !in fg then more == some
      else if p in Union(fg, some) then
        ComponentsOf(fg, more) == ComponentsOf(fg, some) && Union(fg, more) == Union(fg, some)
      else
        && group !in ComponentsOf(fg, some)
        && ComponentsOf(fg, more) == ComponentsOf(fg, some) + {group}
        && Union(fg, more) == Union(fg, some) + group && group !! Union(fg, some)
        && |Large(ComponentsOf(fg, more), minimum)|
             == |Large(ComponentsOf(fg, some), minimum)| + (if |group| >= minimum then 1 else 0)
  {
    var some, more := ScannedBefore(fg, y, x), ScannedBefore(fg, y, x + 1);
    var p := (y, x);
    forall q: Pixel ensures Before(q, y, x + 1) <==> Before(q, y, x) || q == p {}
    if p !in fg {
      assert more == some;
    } else {
      assert more == some + {p};
      if p in Union(fg, some) {
        OldClass(fg, some, p);
      } else {
        NewClass(fg, some, p, minimum);
      }
    }
  }

  lemma OldClass(fg: set<Pixel>, some: set<Pixel>, p: Pixel)
    requires some <= fg && p in Union(fg, some)
    ensures ComponentsOf(fg, some + {p}) == ComponentsOf(fg, some) && Union(fg, some + {p}) == Union(fg, some)
  {
    var r :| r in some && p in Component(fg, r);
    SameComponent(fg, r, p);
  }

  lemma NewClass(fg: set<Pixel>, some: set<Pixel>, p: Pixel, minimum: int)
    requires some <= fg && p in fg && p !in Union(fg, some)
    ensures var group := Component(fg, p);
      && group !in ComponentsOf(fg, some)
      && ComponentsOf(fg, some + {p}) == ComponentsOf(fg, some) + {group}
      && Union(fg, some + {p}) == Union(fg, some) + group && group !! Union(fg, some)
      && |Large(ComponentsOf(fg, some + {p}), minimum)|
           == |Large(ComponentsOf(fg, some), minimum)| + (if |group| >= minimum then 1 else 0)
  {
    var group := Component(fg, p);
    assert p in group by { ConnectedSelf(fg, p); }
    hide Connected, Component;
    assert group <= fg by { ComponentWithin(fg, p); }
    forall q | q in some ensures Component(fg, q) != group {}
    forall q | q in group ensures q !in Union(fg, some) {
      if q in Union(fg, some) {
        var r :| r in some && q in Component(fg, r);
        SameComponent(fg, r, q);
        SameComponent(fg, p, q);
        assert false;
      }
    }
    assert ComponentsOf(fg, some + {p}) == ComponentsOf(fg, some) + {group};
    assert Union(fg, some + {p}) == Union(fg, some) + group;
    LargeInsert(ComponentsOf(fg, some), group, minimum);
  }

  lemma ComponentWithin(fg: set<Pixel>, p: Pixel)
    ensures Component(fg, p) <= fg
  {
  }

  lemma LargeInsert(classes: set<set<Pixel>>, group: set<Pixel>, minimum: int)
    requires group !in classes
    ensures |Large(classes + {group}, minimum)| == |Large(classes, minimum)| + (if |group| >= minimum then 1 else 0)
  {
    var large := Large(classes, minimum);
    assert Large(classes + {group}, minimum) == if |group| >= minimum then large + {group} else large;
  }

  lemma NextRow(mask: array2<bool>, fg: set<Pixel>, y: int)
    requires fg == Pixels(mask)
    ensures ScannedBefore(fg, y, mask.Length1) == ScannedBefore(fg, y + 1, 0)
    ensures ScannedBefore(fg, mask.Length0, 0) == fg
  {
  }

  /** One pixel of the outer scan: skip it, or flood its class. */
  method CountAt(mask: array2<bool>, visited: array2<bool>, ghost fg: set<Pixel>, minimum: int, y: int, x: int,
                 scan: Scan,
                 count: nat, ghost pushed: seq<Pixel>)
    returns (count': nat, ghost pushed': seq<Pixel>)
    requires mask != visited && visited.Length0 == mask.Length0 && visited.Length1 == mask.Length1
    requires 0 <= y < mask.Length0 && 0 <= x < mask.Length1
    requires Counting(mask, visited, fg, minimum, y, x, count, pushed)
    modifies visited
    ensures Counting(mask, visited, fg, minimum, y, x + 1, count', pushed')
  {
    hide Union, ScannedBefore, ComponentsOf, Component, Closed, Lists, Large;
    count', pushed' := count, pushed;
    ghost var some := ScannedBefore(fg, y, x);
    ScannedWithin(fg, y, x);
    UnionClosed(fg, some);
    ScanPixel(fg, y, x, minimum);
    if mask[y, x] && !visited[y, x] {
      assert (y, x) in fg && (y, x) !in Pixels(visited);
      var size: nat;
      ghost var more: seq<Pixel>;
      size, more := Flood(mask, visited, y, x, scan);
      ListsConcat(pushed, Union(fg, some), more, Component(fg, (y, x)));
      pushed' := pushed + more;
      if size >= minimum {
        count' := count + 1;
      }
    } else {
      assert (y, x) in fg ==> (y, x) in Pixels(visited);
    }
  }

  lemma ScannedWithin(fg: set<Pixel>, y: int, x: int)
    ensures ScannedBefore(fg, y, x) <= fg
  {
  }

  lemma CountingStart(mask: array2<bool>, visited: array2<bool>, fg: set<Pixel>, minimum: int)
    requires fg == Pixels(mask) && Pixels(visited) == {}
    ensures Counting(mask, visited, fg, minimum, 0, 0, 0, [])
  {
    assert ScannedBefore(fg, 0, 0) == {};
    assert Large(ComponentsOf(fg, {}), minimum) == {};
  }

  lemma CountingEnd(mask: array2<bool>, visited: array2<bool>, fg: set<Pixel>, minimum: int, count: nat,
                    pushed: seq<Pixel>)
    requires Counting(mask, visited, fg, minimum, mask.Length0, 0, count, pushed)
    ensures count == |Large(Components(fg), minimum)| && Lists(pushed, fg)
  {
    NextRow(mask, fg, 0);
    UnionClosed(fg, fg);
    assert Union(fg, fg) == fg;
  }

  /**
   * The number of 8-connected classes with enough members, for every grid and either scan. Each
   * foreground pixel is pushed exactly once.
   */
  method CountClasses(mask: array2<bool>, minimum: int, scan: Scan) returns (count: nat, ghost pushed: seq<Pixel>)
    ensures count == |Large(Components(Pixels(mask)), minimum)|
    ensures Lists(pushed, Pixels(mask))
  {
    hide Counting, Lists, Components, Large;
    var visited := new bool[mask.Length0, mask.Length1]((i, j) => false);
    ghost var fg := Pixels(mask);
    count, pushed := 0, [];
    CountingStart(mask, visited, fg, minimum);
    for y := 0 to mask.Length0
      invariant Counting(mask, visited, fg, minimum, y, 0, count, pushed)
    {
      for x := 0 to mask.Length1
        invariant Counting(mask, visited, fg, minimum, y, x, count, pushed)
      {
        count, pushed := CountAt(mask, visited, fg, minimum, y, x, scan, count, pushed);
      }
      RowCounted(mask, visited, fg, minimum, y, count, pushed);
    }
    CountingEnd(mask, visited, fg, minimum, count, pushed);
  }

  lemma RowCounted(mask: array2<bool>, visited: array2<bool>, fg: set<Pixel>, minimum: int, y: int, count: nat,
                   pushed: seq<Pixel>)
    requires Counting(mask, visited, fg, minimum, y, mask.Length1, count, pushed)
    ensures Counting(mask, visited, fg, minimum, y + 1, 0, count, pushed)
  {
    NextRow(mask, fg, y);
  }

  /** The renderer's component count. */
  method ConnectedComponents(mask: array2<bool>, minimumPixels: int) returns (count: nat)
    ensures count == |Large(Components(Pixels(mask)), minimumPixels)|
  {
    ghost var pushed;
    count, pushed := CountClasses(mask, minimumPixels, Window);
  }

  const MINIMUM_PIXELS := 4

  /** The repair scorer's component count, after its mask has been downsampled. */
  method CountComponents(small: array2<bool>, minimumPixels: int := MINIMUM_PIXELS) returns (count: nat)
    ensures count == |Large(Components(Pixels(small)), minimumPixels)|
  {
    ghost var pushed;
    count, pushed := CountClasses(small, minimumPixels, Offsets);
  }
}
