/**
 Whether an SVG stays small once drawn. Every element is drawn with its children and with
 whatever it points to (`use`, `url(#...)`), each as often as it is used, so the drawing may be
 exponentially larger than the document. The program never builds the drawing: it walks the
 document once, with a stack, a memo of sizes and a set of open elements.
 */
module SvgExpansion {
  import opened Prelude

  const SVG_EXPANDED: nat := 5000

  type Node = nat

  /** The parts of each element: its children, then the elements it points to. */
  type Graph = map<Node, seq<Node>>

  ghost predicate Closed(g: Graph) {
    forall n, p | n in g && p in g[n] :: p in g
  }

  // ----- What a document means: its drawing -----

  /** The drawing: each part replaced by a drawing of its own. */
  datatype Drawing = Drawing(node: Node, kids: seq<Drawing>)

  ghost function Size(d: Drawing): nat {
    1 + SizeAll(d.kids)
  }

  ghost function SizeAll(ds: seq<Drawing>): nat {
    if ds == [] then 0 else Size(ds[0]) + SizeAll(ds[1..])
  }

  ghost predicate Draws(g: Graph, n: Node, d: Drawing)
    requires Closed(g) && n in g
    decreases d
  {
    && d.node == n
    && |d.kids| == |g[n]|
    && forall i | 0 <= i < |g[n]| :: Draws(g, g[n][i], d.kids[i])
  }

  /** The property the check is for. */
  ghost predicate SmallOnceDrawn(g: Graph, root: Node)
    requires Closed(g) && root in g
  {
    exists d :: Draws(g, root, d) && Size(d) <= SVG_EXPANDED
  }

  ghost predicate Walk(g: Graph, w: seq<Node>) {
    && |w| > 0
    && (forall i | 0 <= i < |w| :: w[i] in g)
    && forall i | 0 < i < |w| :: w[i] in g[w[i - 1]]
  }

  /** A walk from `root` comes back to an element it has been at. */
  ghost predicate Cyclic(g: Graph, root: Node) {
    exists w, i, j :: Walk(g, w) && w[0] == root && 0 <= i < j < |w| && w[i] == w[j]
  }

  lemma {:induction false} DrawingUnique(g: Graph, n: Node, d: Drawing, e: Drawing)
    requires Closed(g) && n in g && Draws(g, n, d) && Draws(g, n, e)
    ensures d == e
    decreases d
  {
    forall i | 0 <= i < |g[n]|
      ensures d.kids[i] == e.kids[i]
    {
      DrawingUnique(g, g[n][i], d.kids[i], e.kids[i]);
    }
    assert d.kids == e.kids;
  }

  lemma {:induction false} SizeAllAtLeastEach(ds: seq<Drawing>, i: nat)
    requires i < |ds|
    ensures Size(ds[i]) <= SizeAll(ds)
  {
    if i > 0 {
      SizeAllAtLeastEach(ds[1..], i - 1);
    }
  }

  /** Along a walk the drawings nest: the last one lies inside the first. */
  lemma {:induction false} DrawnAlongWalk(g: Graph, w: seq<Node>, d: Drawing) returns (e: Drawing)
    requires Closed(g) && Walk(g, w) && Draws(g, w[0], d)
    ensures Draws(g, w[|w| - 1], e)
    ensures Size(e) <= Size(d)
    ensures |w| > 1 ==> Size(e) < Size(d)
  {
    if |w| == 1 {
      e := d;
    } else {
      var i :| 0 <= i < |g[w[0]]| && g[w[0]][i] == w[1];
      SizeAllAtLeastEach(d.kids, i);
      e := DrawnAlongWalk(g, w[1..], d.kids[i]);
    }
  }

  lemma CycleHasNoDrawing(g: Graph, w: seq<Node>, i: nat, j: nat, d: Drawing)
    requires Closed(g) && Walk(g, w) && i < j < |w| && w[i] == w[j]
    ensures !Draws(g, w[0], d)
  {
    if Draws(g, w[0], d) {
      var e := DrawnAlongWalk(g, w[..i + 1], d);
      var f := DrawnAlongWalk(g, w[i..j + 1], e);
      DrawingUnique(g, w[i], e, f);
    }
  }

  ghost predicate Circle(g: Graph, w: seq<Node>, i: nat) {
    Walk(g, w) && i < |w| - 1 && w[i] == w[|w| - 1]
  }

  /** Drawing by recursion, for the proof only: it succeeds or walks in a circle. */
  lemma {:induction false} DrawOrCircle(g: Graph, w: seq<Node>) returns (d: Option<Drawing>, circle: seq<Node>, i: nat)
    requires Closed(g) && Walk(g, w)
    requires forall k, l | 0 <= k < l < |w| :: w[k] != w[l]
    ensures if d.Some? then Draws(g, w[|w| - 1], d.value) else Circle(g, circle, i) && circle[0] == w[0]
    decreases g.Keys - (set n | n in w), 1, 0
  {
    var drawn, ds, c, at := DrawParts(g, w, 0);
    d, circle, i := if drawn then Some(Drawing(w[|w| - 1], ds)) else None, c, at;
  }

  lemma {:induction false} DrawParts(g: Graph, w: seq<Node>, from: nat)
      returns (drawn: bool, ds: seq<Drawing>, circle: seq<Node>, i: nat)
    requires Closed(g) && Walk(g, w) && from <= |g[w[|w| - 1]]|
    requires forall k, l | 0 <= k < l < |w| :: w[k] != w[l]
    ensures var parts := g[w[|w| - 1]][from..];
            if drawn then |ds| == |parts| && forall k | 0 <= k < |parts| :: Draws(g, parts[k], ds[k])
            else Circle(g, circle, i) && circle[0] == w[0]
    decreases g.Keys - (set n | n in w), 0, |g[w[|w| - 1]]| - from
  {
    var parts := g[w[|w| - 1]];
    drawn, ds, circle, i := true, [], [], 0;
    if from < |parts| {
      var v := w + [parts[from]];
      if k :| 0 <= k < |w| && w[k] == parts[from] {
        drawn, circle, i := false, v, k;
      } else {
        assert (set n | n in v) == (set n | n in w) + {parts[from]};
        assert parts[from] in g.Keys - (set n | n in w);
        var d, c, at := DrawOrCircle(g, v);
        if d.Some? {
          drawn, ds, circle, i := DrawParts(g, w, from + 1);
          ds := [d.value] + ds;
        } else {
          drawn, circle, i := false, c, at;
        }
      }
    }
  }

  /** A document can be drawn at all exactly when nothing reachable contains itself. */
  lemma DrawableUnlessCyclic(g: Graph, root: Node)
    requires Closed(g) && root in g
    ensures (exists d :: Draws(g, root, d)) <==> !Cyclic(g, root)
  {
    var d, circle, i := DrawOrCircle(g, [root]);
    if d.None? {
      var j := |circle| - 1;
      assert circle[i] == circle[j] && Walk(g, circle) && circle[0] == root;
    } else {
      assert Draws(g, root, d.value);
    }
    if Cyclic(g, root) {
      var w, k, l :| Walk(g, w) && w[0] == root && 0 <= k < l < |w| && w[k] == w[l];
      forall e
        ensures !Draws(g, root, e)
      {
        CycleHasNoDrawing(g, w, k, l, e);
      }
    }
  }

  // ----- What the program does -----

  /** `1` and the sizes of the parts, added one after the other without wrapping. */
  function Total(parts: seq<Node>, size: map<Node, nat>, sum: nat): nat
    requires forall p | p in parts :: p in size
  {
    if parts == [] then sum else Total(parts[1..], size, SaturatingAdd(sum, size[parts[0]]))
  }

  function Missing(parts: seq<Node>, size: map<Node, nat>): (missing: seq<Node>)
    ensures forall p :: p in missing <==> p in parts && p !in size
  {
    if parts == [] then []
    else (if parts[0] in size then [] else [parts[0]]) + Missing(parts[1..], size)
  }

  /** Every remembered size is that of the element's drawing, and small. */
  ghost predicate Remembered(g: Graph, size: map<Node, nat>, drawn: map<Node, Drawing>)
    requires Closed(g)
  {
    && size.Keys == drawn.Keys <= g.Keys
    && forall n | n in size :: Draws(g, n, drawn[n]) && Size(drawn[n]) == size[n] <= SVG_EXPANDED
  }

  lemma {:induction false} TotalIsSize(g: Graph, size: map<Node, nat>, drawn: map<Node, Drawing>, parts: seq<Node>, sum: nat)
    requires Closed(g) && Remembered(g, size, drawn)
    requires sum < U64 && forall p | p in parts :: p in size
    ensures Total(parts, size, sum) == Min(sum + SizeAll(seq(|parts|, i requires 0 <= i < |parts| => drawn[parts[i]])), U64 - 1)
  {
    var ds := seq(|parts|, i requires 0 <= i < |parts| => drawn[parts[i]]);
    if parts != [] {
      var rest := parts[1..];
      assert ds[1..] == seq(|rest|, i requires 0 <= i < |rest| => drawn[rest[i]]);
      TotalIsSize(g, size, drawn, rest, SaturatingAdd(sum, size[parts[0]]));
    }
  }

  /**
   How the stack came about. `Above(below, pending)`: the last element of `below.pending` is open,
   and `pending` are its unsized parts that are still on the stack.
   */
  datatype Way = Start(pending: seq<Node>) | Above(below: Way, pending: seq<Node>)

  ghost function Stack(way: Way): (stack: seq<Node>)
    ensures |stack| >= |way.pending|
  {
    match way
    case Start(pending) => pending
    case Above(below, pending) => Stack(below) + pending
  }

  /** The open elements, each a part of the one before. */
  ghost function Trail(way: Way): seq<Node> {
    match way
    case Start(_) => []
    case Above(below, _) => Trail(below) + (if below.pending == [] then [] else [Last(below.pending)])
  }

  ghost function Last(s: seq<Node>): Node
    requires s != []
  {
    s[|s| - 1]
  }

  ghost function Front(s: seq<Node>): seq<Node>
    requires s != []
  {
    s[..|s| - 1]
  }

  ghost predicate OnTheWay(g: Graph, root: Node, size: map<Node, nat>, way: Way)
    requires Closed(g) && root in g
  {
    match way
    case Start(pending) => pending == [root] || (pending == [] && root in size)
    case Above(below, pending) =>
      && OnTheWay(g, root, size, below)
      && below.pending != []
      && var n := Last(below.pending);
      && n !in size && n in g
      && (forall q | q in pending :: q in g[n] && q !in Trail(way))
      && (forall q | q in g[n] :: q in size || q in pending)
  }

  /** The open elements are all different and lead from the root to the pending ones. */
  lemma {:induction false} TrailWalks(g: Graph, root: Node, size: map<Node, nat>, way: Way)
    requires Closed(g) && root in g && OnTheWay(g, root, size, way)
    ensures forall q | q in way.pending :: q in g && q !in Trail(way) && Walk(g, Trail(way) + [q]) && (Trail(way) + [q])[0] == root
    ensures forall n | n in Trail(way) :: n in g && n !in size
  {
    if way.Above? {
      TrailWalks(g, root, size, way.below);
      var n := Last(way.below.pending);
      assert n in way.below.pending;
      forall q | q in way.pending
        ensures Walk(g, Trail(way) + [q]) && (Trail(way) + [q])[0] == root
      {
        assert Trail(way) + [q] == (Trail(way.below) + [n]) + [q];
      }
    }
  }

  lemma {:induction false} SizingKeepsTheWay(g: Graph, root: Node, size: map<Node, nat>, way: Way, id: Node, total: nat)
    requires Closed(g) && root in g && OnTheWay(g, root, size, way) && id !in Trail(way)
    ensures OnTheWay(g, root, size[id := total], way)
  {
    if way.Above? {
      SizingKeepsTheWay(g, root, size, way.below, id, total);
    }
  }

  /** Taking a sized element off the top. */
  lemma PopSized(g: Graph, root: Node, size: map<Node, nat>, way: Way)
    requires Closed(g) && root in g && OnTheWay(g, root, size, way)
    requires way.pending != [] && Last(way.pending) in size
    ensures OnTheWay(g, root, size, way.(pending := Front(way.pending)))
    ensures Stack(way.(pending := Front(way.pending))) == Front(Stack(way))
    ensures Trail(way.(pending := Front(way.pending))) == Trail(way)
  {
    assert forall q | q in way.pending :: q in Front(way.pending) || q == Last(way.pending);
  }

  ghost function TrailSet(way: Way): set<Node> {
    set n | n in Trail(way)
  }

  /** A part of the element on top that is open: the walk so far, and back. */
  lemma OpenPartIsCycle(g: Graph, root: Node, size: map<Node, nat>, way: Way, part: Node)
    requires Closed(g) && root in g && OnTheWay(g, root, size, way) && way.pending != []
    requires part in g[Last(way.pending)] && (part in Trail(way) || part == Last(way.pending))
    ensures !SmallOnceDrawn(g, root)
  {
    TrailWalks(g, root, size, way);
    assert Last(way.pending) in way.pending;
    var w := Trail(way) + [Last(way.pending)];
    assert part in w;
    var i :| 0 <= i < |w| && w[i] == part;
    forall d
      ensures !Draws(g, root, d)
    {
      CycleHasNoDrawing(g, w + [part], i, |w|, d);
    }
  }

  lemma LargePartIsLarge(g: Graph, root: Node, w: seq<Node>, d: Drawing)
    requires Closed(g) && root in g && Walk(g, w) && w[0] == root
    requires Draws(g, Last(w), d) && Size(d) > SVG_EXPANDED
    ensures !SmallOnceDrawn(g, root)
  {
    forall whole | Draws(g, root, whole)
      ensures Size(whole) > SVG_EXPANDED
    {
      var e := DrawnAlongWalk(g, w, whole);
      DrawingUnique(g, Last(w), d, e);
    }
  }

  /** The element on top of the stack and how the walk got there. */
  ghost function Top(way: Way): Node
    requires Stack(way) != []
  {
    Last(Stack(way))
  }

  ghost function Approach(way: Way): seq<Node> {
    if way.pending == [] then Trail(way) else Trail(way) + [Last(way.pending)]
  }

  lemma TopPending(way: Way)
    requires way.pending != []
    ensures Stack(way) != [] && Top(way) == Last(way.pending) && Top(way) in way.pending
  {
  }

  lemma ApproachWalks(g: Graph, root: Node, size: map<Node, nat>, way: Way)
    requires Closed(g) && root in g && OnTheWay(g, root, size, way) && Stack(way) != []
    ensures var w := Approach(way); Walk(g, w) && w[0] == root && Last(w) == Top(way)
    ensures Top(way) in Trail(way) <==> way.pending == []
    ensures way.pending == [] ==> forall q | q in g[Top(way)] :: q in size
  {
    if way.pending == [] {
      OpenOnTop(g, root, size, way);
    } else {
      TopPending(way);
      TrailWalks(g, root, size, way);
    }
  }

  /** All parts of the last open element have left the stack: it is on top itself. */
  lemma OpenOnTop(g: Graph, root: Node, size: map<Node, nat>, way: Way)
    requires Closed(g) && root in g && OnTheWay(g, root, size, way) && Stack(way) != [] && way.pending == []
    ensures Walk(g, Trail(way)) && Trail(way)[0] == root && Last(Trail(way)) == Top(way)
    ensures forall q | q in g[Top(way)] :: q in size
  {
    var n := Last(way.below.pending);
    assert n in way.below.pending;
    TrailWalks(g, root, size, way.below);
    assert Stack(way) == Stack(way.below);
    assert Trail(way) == Trail(way.below) + [n];
  }

  lemma SizePending(g: Graph, root: Node, size: map<Node, nat>, way: Way, total: nat) returns (left: Way)
    requires Closed(g) && root in g && OnTheWay(g, root, size, way) && way.pending != []
    ensures OnTheWay(g, root, size[Last(way.pending) := total], left)
    ensures Stack(left) == Front(Stack(way)) && Trail(left) == Trail(way) && Last(way.pending) !in Trail(way)
  {
    var id := Last(way.pending);
    TopPending(way);
    assert id !in Trail(way) by {
      TrailWalks(g, root, size, way);
    }
    SizingKeepsTheWay(g, root, size, way, id, total);
    PopSized(g, root, size[id := total], way);
    left := way.(pending := Front(way.pending));
  }

  lemma OpenStack(g: Graph, root: Node, size: map<Node, nat>, way: Way)
    requires Closed(g) && root in g && OnTheWay(g, root, size, way) && Stack(way) != [] && way.pending == []
    requires Top(way) !in size
    ensures way.Above? && way.below.pending != [] && Stack(way) == Stack(way.below) && Top(way) == Last(way.below.pending)
    ensures TrailSet(way) == TrailSet(way.below) + {Top(way)}
  {
    TopPending(way.below);
    assert Stack(way) == Stack(way.below);
  }

  /** The element on top gets its size: it leaves the stack, and the open ones if it was one. */
  lemma SizeTop(g: Graph, root: Node, size: map<Node, nat>, way: Way, total: nat) returns (left: Way)
    requires Closed(g) && root in g && OnTheWay(g, root, size, way) && Stack(way) != []
    requires Top(way) !in size
    ensures OnTheWay(g, root, size[Top(way) := total], left)
    ensures Stack(left) == Front(Stack(way))
    ensures TrailSet(left) == TrailSet(way) - {Top(way)}
  {
    if way.pending == [] {
      OpenStack(g, root, size, way);
      left := SizePending(g, root, size, way.below, total);
    } else {
      TopPending(way);
      left := SizePending(g, root, size, way, total);
    }
  }

  /** The element on top is opened and its unsized parts, none of them open, go above it. */
  lemma OpenTop(g: Graph, root: Node, size: map<Node, nat>, way: Way, missing: seq<Node>)
    requires Closed(g) && root in g && OnTheWay(g, root, size, way) && Stack(way) != []
    requires Top(way) !in size && missing != []
    requires forall p :: p in missing <==> p in g[Top(way)] && p !in size
    requires forall p | p in missing :: p !in TrailSet(way) + {Top(way)}
    ensures OnTheWay(g, root, size, Above(way, missing))
    ensures Stack(Above(way, missing)) == Stack(way) + missing
    ensures TrailSet(Above(way, missing)) == TrailSet(way) + {Top(way)}
    ensures Top(way) !in TrailSet(way)
  {
    ApproachWalks(g, root, size, way);
    TrailWalks(g, root, size, way);
    assert missing[0] in missing;
  }

  /** The size of an element whose parts are sized: remembered, or too large for the whole. */
  lemma SizeOfTop(g: Graph, root: Node, size: map<Node, nat>, drawn: map<Node, Drawing>, way: Way, total: nat)
      returns (d: Drawing)
    requires Closed(g) && root in g && OnTheWay(g, root, size, way) && Stack(way) != []
    requires Remembered(g, size, drawn) && Top(way) in g && Top(way) !in size
    requires forall p | p in g[Top(way)] :: p in size
    requires total == Total(g[Top(way)], size, 1)
    ensures if total > SVG_EXPANDED then !SmallOnceDrawn(g, root)
            else Remembered(g, size[Top(way) := total], drawn[Top(way) := d])
  {
    var id := Top(way);
    var parts := g[id];
    d := Drawing(id, seq(|parts|, i requires 0 <= i < |parts| => drawn[parts[i]]));
    TotalIsSize(g, size, drawn, parts, 1);
    assert Draws(g, id, d);
    if total > SVG_EXPANDED {
      ApproachWalks(g, root, size, way);
      LargePartIsLarge(g, root, Approach(way), d);
    }
  }

  /** The unsized parts go onto the stack, unless one of them is open. */
  method Push(stack: seq<Node>, missing: seq<Node>, open: set<Node>) returns (pushed: Option<seq<Node>>)
    ensures pushed.None? <==> exists p :: p in missing && p in open
    ensures pushed.Some? ==> pushed.value == stack + missing
  {
    var higher := stack;
    var i := 0;
    while i < |missing|
      invariant 0 <= i <= |missing|
      invariant higher == stack + missing[..i]
      invariant forall k | 0 <= k < i :: missing[k] !in open
    {
      if missing[i] in open {
        return None;
      }
      higher := higher + [missing[i]];
      i := i + 1;
    }
    assert higher == stack + missing;
    return Some(higher);
  }

  lemma FewerUnsized(all: set<Node>, open: set<Node>, size: map<Node, nat>, id: Node, total: nat)
    requires id in all && id !in size
    ensures all - size[id := total].Keys < all - size.Keys
    ensures all - (open - {id}) - size[id := total].Keys <= all - open - size.Keys
  {
    assert id in all - size.Keys && id !in all - size[id := total].Keys;
  }

  lemma FewerUnseen(all: set<Node>, open: set<Node>, size: map<Node, nat>, id: Node)
    requires id in all && id !in size && id !in open
    ensures all - (open + {id}) - size.Keys < all - open - size.Keys
  {
    assert id in all - open - size.Keys && id !in all - (open + {id}) - size.Keys;
  }

  /** The invariant of the walk. */
  ghost predicate Walking(g: Graph, root: Node, stack: seq<Node>, open: set<Node>, size: map<Node, nat>,
                          drawn: map<Node, Drawing>, way: Way)
  {
    && Closed(g) && root in g
    && Remembered(g, size, drawn)
    && OnTheWay(g, root, size, way) && stack == Stack(way) && open == TrailSet(way)
  }

  /** How far the walk still is from its end: elements never opened, elements without a size, the stack. */
  ghost predicate Closer(g: Graph, open: set<Node>, size: map<Node, nat>, stack: seq<Node>,
                         open': set<Node>, size': map<Node, nat>, stack': seq<Node>)
  {
    var (a, b) := (g.Keys - open - size.Keys, g.Keys - size.Keys);
    var (a', b') := (g.Keys - open' - size'.Keys, g.Keys - size'.Keys);
    a' < a || (a' == a && (b' < b || (b' == b && |stack'| < |stack|)))
  }

  lemma TopInGraph(g: Graph, root: Node, stack: seq<Node>, open: set<Node>, size: map<Node, nat>,
                   drawn: map<Node, Drawing>, way: Way)
    requires Walking(g, root, stack, open, size, drawn, way) && stack != []
    ensures Last(stack) in g
  {
    ApproachWalks(g, root, size, way);
  }

  lemma StepPop(g: Graph, root: Node, stack: seq<Node>, open: set<Node>, size: map<Node, nat>,
                drawn: map<Node, Drawing>, way: Way) returns (way': Way)
    requires Walking(g, root, stack, open, size, drawn, way) && stack != [] && Last(stack) in size
    ensures Walking(g, root, Front(stack), open, size, drawn, way')
  {
    ApproachWalks(g, root, size, way);
    TrailWalks(g, root, size, way);
    PopSized(g, root, size, way);
    way' := way.(pending := Front(way.pending));
  }

  lemma StepSize(g: Graph, root: Node, stack: seq<Node>, open: set<Node>, size: map<Node, nat>,
                 drawn: map<Node, Drawing>, way: Way, total: nat) returns (way': Way, drawn': map<Node, Drawing>)
    requires Walking(g, root, stack, open, size, drawn, way) && stack != [] && Last(stack) in g && Last(stack) !in size
    requires forall p | p in g[Last(stack)] :: p in size
    requires total == Total(g[Last(stack)], size, 1)
    ensures total > SVG_EXPANDED ==> !SmallOnceDrawn(g, root)
    ensures total <= SVG_EXPANDED ==>
              && Walking(g, root, Front(stack), open - {Last(stack)}, size[Last(stack) := total], drawn', way')
              && Closer(g, open, size, stack, open - {Last(stack)}, size[Last(stack) := total], Front(stack))
  {
    var d := SizeOfTop(g, root, size, drawn, way, total);
    way' := SizeTop(g, root, size, way, total);
    drawn' := drawn[Last(stack) := d];
    FewerUnsized(g.Keys, open, size, Last(stack), total);
  }

  lemma StepOpen(g: Graph, root: Node, stack: seq<Node>, open: set<Node>, size: map<Node, nat>,
                 drawn: map<Node, Drawing>, way: Way, missing: seq<Node>)
    requires Walking(g, root, stack, open, size, drawn, way) && stack != [] && Last(stack) in g && Last(stack) !in size
    requires missing != [] && forall p :: p in missing <==> p in g[Last(stack)] && p !in size
    ensures (exists p :: p in missing && p in open + {Last(stack)}) ==> !SmallOnceDrawn(g, root)
    ensures (forall p | p in missing :: p !in open + {Last(stack)}) ==>
              && Walking(g, root, stack + missing, open + {Last(stack)}, size, drawn, Above(way, missing))
              && Closer(g, open, size, stack, open + {Last(stack)}, size, stack + missing)
  {
    ApproachWalks(g, root, size, way);
    assert missing[0] in missing;
    if part :| part in missing && part in open + {Last(stack)} {
      OpenPartIsCycle(g, root, size, way, part);
    } else {
      OpenTop(g, root, size, way, missing);
      FewerUnseen(g.Keys, open, size, Last(stack));
    }
  }

  lemma WalkedThrough(g: Graph, root: Node, open: set<Node>, size: map<Node, nat>, drawn: map<Node, Drawing>, way: Way)
    requires Walking(g, root, [], open, size, drawn, way)
    ensures SmallOnceDrawn(g, root)
  {
    assert Draws(g, root, drawn[root]);
  }

  /** The walk: true exactly when the document has a drawing and the drawing is small. */
  method Small(g: Graph, root: Node) returns (small: bool)
    requires Closed(g) && root in g
    ensures small <==> SmallOnceDrawn(g, root)
  {
    var size: map<Node, nat> := map[];
    var open: set<Node> := {};
    var stack := [root];
    ghost var drawn: map<Node, Drawing> := map[];
    ghost var way := Start([root]);
    while stack != []
      invariant Walking(g, root, stack, open, size, drawn, way)
      decreases g.Keys - open - size.Keys, g.Keys - size.Keys, |stack|
    {
      TopInGraph(g, root, stack, open, size, drawn, way);
      var id := stack[|stack| - 1];
      if id in size {
        way := StepPop(g, root, stack, open, size, drawn, way);
        stack := stack[..|stack| - 1];
        continue;
      }
      var parts := g[id];
      var missing := Missing(parts, size);
      if missing == [] {
        assert forall p | p in parts :: p in missing || p in size;
        var total := Total(parts, size, 1);
        ghost var way', drawn' := StepSize(g, root, stack, open, size, drawn, way, total);
        if total > SVG_EXPANDED {
          return false;
        }
        size, open, stack := size[id := total], open - {id}, stack[..|stack| - 1];
        way, drawn := way', drawn';
      } else {
        StepOpen(g, root, stack, open, size, drawn, way, missing);
        var pushed := Push(stack, missing, open + {id});
        if pushed.None? {
          return false;
        }
        open, stack := open + {id}, pushed.value;
        way := Above(way, missing);
      }
    }
    WalkedThrough(g, root, open, size, drawn, way);
    small := true;
  }
}
