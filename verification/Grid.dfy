/** Pixels, 8-connectivity by paths, and the classes it divides a set of pixels into. */
module Grid {

  type Pixel = (int, int)

  /** The pixels at which a boolean grid is true. */
  ghost function Pixels(mask: array2<bool>): set<Pixel>
    reads mask
  {
    set y, x | 0 <= y < mask.Length0 && 0 <= x < mask.Length1 && mask[y, x] :: (y, x)
  }

  /** Equal, or neighbours horizontally, vertically or diagonally. */
  predicate Adjacent(p: Pixel, q: Pixel) {
    -1 <= p.0 - q.0 <= 1 && -1 <= p.1 - q.1 <= 1
  }

  /** A walk inside the given pixels, one step at a time. */
  ghost predicate Path(fg: set<Pixel>, path: seq<Pixel>) {
    && path != []
    && (forall i | 0 <= i < |path| :: path[i] in fg)
    && (forall i | 0 <= i < |path| - 1 :: Adjacent(path[i], path[i + 1]))
  }

  ghost predicate Connected(fg: set<Pixel>, p: Pixel, q: Pixel) {
    exists path :: Path(fg, path) && path[0] == p && path[|path| - 1] == q
  }

  ghost function Component(fg: set<Pixel>, p: Pixel): set<Pixel> {
    set q | q in fg && Connected(fg, p, q)
  }

  ghost function Components(fg: set<Pixel>): set<set<Pixel>> {
    ComponentsOf(fg, fg)
  }

  /** The classes met by the given pixels. */
  ghost function ComponentsOf(fg: set<Pixel>, some: set<Pixel>): set<set<Pixel>> {
    set p | p in some :: Component(fg, p)
  }

  ghost function Large(classes: set<set<Pixel>>, minimum: int): set<set<Pixel>> {
    set c | c in classes && |c| >= minimum
  }

  /** Closed under stepping to a neighbour. */
  ghost predicate Closed(fg: set<Pixel>, some: set<Pixel>) {
    forall p, q | p in some && q in fg && Adjacent(p, q) :: q in some
  }

  // ---------------------------------------------------------------- connectivity is an equivalence

  lemma ConnectedSelf(fg: set<Pixel>, p: Pixel)
    requires p in fg
    ensures Connected(fg, p, p)
  {
    assert Path(fg, [p]);
  }

  lemma ConnectedStep(fg: set<Pixel>, p: Pixel, q: Pixel, r: Pixel)
    requires Connected(fg, p, q) && r in fg && Adjacent(q, r)
    ensures Connected(fg, p, r)
  {
    var path :| Path(fg, path) && path[0] == p && path[|path| - 1] == q;
    assert Path(fg, path + [r]);
  }

  lemma ConnectedSymmetric(fg: set<Pixel>, p: Pixel, q: Pixel)
    requires Connected(fg, p, q)
    ensures Connected(fg, q, p)
  {
    var path :| Path(fg, path) && path[0] == p && path[|path| - 1] == q;
    var n := |path|;
    var back := seq(n, i requires 0 <= i < n => path[n - 1 - i]);
    forall i | 0 <= i < n - 1 ensures Adjacent(back[i], back[i + 1]) {
      var j := n - 2 - i;
      assert Adjacent(path[j], path[j + 1]);
    }
    assert Path(fg, back);
  }

  lemma ConnectedTransitive(fg: set<Pixel>, p: Pixel, q: Pixel, r: Pixel)
    requires Connected(fg, p, q) && Connected(fg, q, r)
    ensures Connected(fg, p, r)
  {
    var first :| Path(fg, first) && first[0] == p && first[|first| - 1] == q;
    var second :| Path(fg, second) && second[0] == q && second[|second| - 1] == r;
    var n := |first| - 1;
    var path := first[..n] + second;
    forall i | 0 <= i < |path| - 1 ensures Adjacent(path[i], path[i + 1]) {
      if i < n {
        assert Adjacent(first[i], first[i + 1]);
      } else {
        assert Adjacent(second[i - n], second[i - n + 1]);
      }
    }
    assert Path(fg, path);
  }

  /** Nothing outside a closed set is connected to anything inside it. */
  lemma ClosedContains(fg: set<Pixel>, some: set<Pixel>, p: Pixel, q: Pixel)
    requires Closed(fg, some) && p in some && Connected(fg, p, q)
    ensures q in some
  {
    var path :| Path(fg, path) && path[0] == p && path[|path| - 1] == q;
    PathStays(fg, some, path, |path| - 1);
  }

  lemma {:induction false} PathStays(fg: set<Pixel>, some: set<Pixel>, path: seq<Pixel>, i: nat)
    requires Closed(fg, some) && Path(fg, path) && path[0] in some && i < |path|
    ensures path[i] in some
  {
    if i > 0 {
      PathStays(fg, some, path, i - 1);
      assert Adjacent(path[i - 1], path[i]);
    }
  }

  lemma SameComponent(fg: set<Pixel>, p: Pixel, q: Pixel)
    requires p in fg && q in Component(fg, p)
    ensures Component(fg, q) == Component(fg, p)
  {
    ConnectedSymmetric(fg, p, q);
    forall r | r in fg ensures Connected(fg, p, r) <==> Connected(fg, q, r) {
      if Connected(fg, p, r) { ConnectedTransitive(fg, q, p, r); }
      if Connected(fg, q, r) { ConnectedTransitive(fg, p, q, r); }
    }
  }

  /** The classes are nonempty, pairwise disjoint and cover the pixels. */
  lemma ComponentsPartition(fg: set<Pixel>)
    ensures forall p | p in fg :: p in Component(fg, p) && Component(fg, p) in Components(fg)
    ensures forall c, d | c in Components(fg) && d in Components(fg) && c != d :: c !! d
    ensures forall c | c in Components(fg) :: c != {} && c <= fg && Closed(fg, c)
  {
    forall p | p in fg
      ensures p in Component(fg, p) && Component(fg, p) in Components(fg) && Closed(fg, Component(fg, p))
    {
      ConnectedSelf(fg, p);
      ComponentClosed(fg, p);
    }
    forall c, d | c in Components(fg) && d in Components(fg) && c != d ensures c !! d {
      var p :| p in fg && c == Component(fg, p);
      var q :| q in fg && d == Component(fg, q);
      forall r | r in c && r in d ensures false {
        SameComponent(fg, p, r);
        SameComponent(fg, q, r);
      }
    }
  }

  lemma ComponentClosed(fg: set<Pixel>, p: Pixel)
    ensures Closed(fg, Component(fg, p))
  {
    forall q, r | q in Component(fg, p) && r in fg && Adjacent(q, r) ensures r in Component(fg, p) {
      ConnectedStep(fg, p, q, r);
    }
  }

  /** A closed set all of whose pixels are connected to p, p among them, is p's class. */
  lemma ClosedIsComponent(fg: set<Pixel>, some: set<Pixel>, p: Pixel)
    requires some <= fg && p in some && Closed(fg, some)
    requires forall q | q in some :: Connected(fg, p, q)
    ensures some == Component(fg, p)
  {
    forall q | q in Component(fg, p) ensures q in some {
      ClosedContains(fg, some, p, q);
    }
  }
}
