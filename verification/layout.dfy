/**
 * The monitor layout engine of the application framework
 * (app-framework/monitor-layout-engine/src/lib.rs): horizontal packing of monitors, the
 * integer rectangle tests for touching and overlapping, and the two connectivity checks,
 * each a depth-first search over a `seen` vector.
 *
 * A layout is valid when no two monitors overlap with positive area, every monitor shares an
 * edge with another one, and every monitor can be reached from the first one by walking
 * across shared edges.
 */
module Layout {
  import StringOrder

  const I32_MIN: int := -0x8000_0000
  const I32_MAX: int := 0x7FFF_FFFF

  type I32 = x: int | I32_MIN <= x <= I32_MAX

  datatype MonitorSpec = MonitorSpec(id: string, width: I32, height: I32)

  /** A monitor placed in global layout space; (x, y) is its top-left corner. */
  datatype MonitorPlacement = MonitorPlacement(id: string, x: I32, y: I32, width: I32, height: I32)

  /** `i32::max(0)`: a negative extent counts as zero. */
  function NonNeg(v: int): nat
  {
    if v < 0 then 0 else v
  }

  /** `i32::saturating_add`. */
  function SaturatingAdd(a: I32, b: I32): (r: I32)
    ensures I32_MIN <= a + b <= I32_MAX ==> r == a + b
    ensures a + b > I32_MAX ==> r == I32_MAX
  {
    if a + b > I32_MAX then I32_MAX else if a + b < I32_MIN then I32_MIN else a + b
  }

  function Right(m: MonitorPlacement): int
  {
    m.x + NonNeg(m.width)
  }

  function Bottom(m: MonitorPlacement): int
  {
    m.y + NonNeg(m.height)
  }

  /** The open intervals [a1, a2) and [b1, b2) share a stretch of positive length. */
  predicate Spans(a1: int, a2: int, b1: int, b2: int)
  {
    a1 < b2 && b1 < a2
  }

  /**
   * `monitors_touch`: one monitor's right (bottom) edge lies on the other's left (top)
   * edge, and the two share a stretch of positive length along that edge.
   */
  predicate Touch(a: MonitorPlacement, b: MonitorPlacement)
  {
    var xOverlap := Spans(a.x, Right(a), b.x, Right(b));
    var yOverlap := Spans(a.y, Bottom(a), b.y, Bottom(b));
    ((Right(a) == b.x || Right(b) == a.x) && yOverlap)
    || ((Bottom(a) == b.y || Bottom(b) == a.y) && xOverlap)
  }

  /** `monitors_overlap_area`: the two rectangles share a region of positive area. */
  predicate OverlapArea(a: MonitorPlacement, b: MonitorPlacement)
  {
    Spans(a.x, Right(a), b.x, Right(b)) && Spans(a.y, Bottom(a), b.y, Bottom(b))
  }

  lemma TouchSymmetric(a: MonitorPlacement, b: MonitorPlacement)
    ensures Touch(a, b) <==> Touch(b, a)
    ensures OverlapArea(a, b) <==> OverlapArea(b, a)
  {
  }

  /** Monitors that meet only at a corner do not touch. */
  lemma CornerContactIsNotTouch(a: MonitorPlacement, b: MonitorPlacement)
    requires Right(a) == b.x && Bottom(a) == b.y
    ensures !Touch(a, b) && !OverlapArea(a, b)
  {
  }

  /** Touching monitors never overlap with positive area. */
  lemma TouchExcludesOverlap(a: MonitorPlacement, b: MonitorPlacement)
    requires Touch(a, b)
    ensures !OverlapArea(a, b)
  {
  }

  // ---------------------------------------------------------------------------
  // Connectivity, as specifications

  /** A walk over monitor indices in which consecutive monitors touch. */
  ghost predicate IsTouchPath(ms: seq<MonitorPlacement>, p: seq<nat>)
  {
    |p| >= 1
    && (forall k :: 0 <= k < |p| ==> p[k] < |ms|)
    && (forall k :: 0 <= k < |p| - 1 ==> Touch(ms[p[k]], ms[p[k + 1]]))
  }

  ghost predicate PathTo(ms: seq<MonitorPlacement>, p: seq<nat>, j: nat)
  {
    IsTouchPath(ms, p) && p[0] == 0 && p[|p| - 1] == j
  }

  ghost predicate ReachableFromFirst(ms: seq<MonitorPlacement>, j: nat)
  {
    exists p :: PathTo(ms, p, j)
  }

  /** Every monitor is reachable from monitor 0 through touch edges. */
  ghost predicate AllReachable(ms: seq<MonitorPlacement>)
  {
    forall j :: 0 <= j < |ms| ==> ReachableFromFirst(ms, j)
  }

  predicate NoOverlap(ms: seq<MonitorPlacement>)
  {
    forall p, q :: 0 <= p < q < |ms| ==> !OverlapArea(ms[p], ms[q])
  }

  /** Monitor `i` shares an edge with some other monitor. */
  predicate HasTouchNeighbour(ms: seq<MonitorPlacement>, i: nat)
    requires i < |ms|
  {
    exists k :: 0 <= k < |ms| && k != i && Touch(ms[i], ms[k])
  }

  predicate EveryTouchesAnother(ms: seq<MonitorPlacement>)
  {
    forall i :: 0 <= i < |ms| ==> HasTouchNeighbour(ms, i)
  }

  /** The strict layout invariant that `is_valid_edge_contiguous_layout` decides. */
  ghost predicate ValidLayout(ms: seq<MonitorPlacement>)
  {
    |ms| <= 1 || (NoOverlap(ms) && EveryTouchesAnother(ms) && AllReachable(ms))
  }

  /** A set of monitors (flags) that contains every touch neighbour of its members. */
  ghost predicate TouchClosed(ms: seq<MonitorPlacement>, seen: seq<bool>)
  {
    |seen| == |ms|
    && forall i, k :: 0 <= i < |ms| && 0 <= k < |ms| && seen[i] && Touch(ms[i], ms[k]) ==> seen[k]
  }

  /** A walk that starts inside a touch-closed set stays inside it. */
  lemma {:induction false} ClosedSetHoldsPath(ms: seq<MonitorPlacement>, seen: seq<bool>, p: seq<nat>)
    requires TouchClosed(ms, seen) && IsTouchPath(ms, p) && seen[p[0]]
    ensures seen[p[|p| - 1]]
    decreases |p|
  {
    if |p| > 1 {
      var q := p[..|p| - 1];
      assert IsTouchPath(ms, q);
      ClosedSetHoldsPath(ms, seen, q);
      assert Touch(ms[p[|p| - 2]], ms[p[|p| - 1]]);
    }
  }

  /** A single monitor is reachable from itself. */
  lemma SingleReachable(ms: seq<MonitorPlacement>)
    requires |ms| == 1
    ensures AllReachable(ms)
  {
    assert PathTo(ms, [0], 0);
  }

  /** Extending a walk to monitor `i` by a touch edge gives a walk to `j`. */
  lemma ExtendPath(ms: seq<MonitorPlacement>, p: seq<nat>, i: nat, j: nat)
    requires PathTo(ms, p, i) && j < |ms| && Touch(ms[i], ms[j])
    ensures PathTo(ms, p + [j], j)
  {
    var q := p + [j];
    forall k | 0 <= k < |q| - 1
      ensures Touch(ms[q[k]], ms[q[k + 1]])
    {
      if k < |p| - 1 {
        assert q[k] == p[k] && q[k + 1] == p[k + 1];
      }
    }
  }

  /** Number of unset flags: what a search still has to visit. */
  function Unseen(s: seq<bool>): (c: nat)
    ensures c <= |s|
  {
    if s == [] then 0 else Unseen(s[..|s| - 1]) + (if s[|s| - 1] then 0 else 1)
  }

  lemma {:induction false} UnseenMark(s: seq<bool>, j: nat)
    requires j < |s| && !s[j]
    ensures Unseen(s[j := true]) + 1 == Unseen(s)
    decreases |s|
  {
    var t := s[j := true];
    if j == |s| - 1 {
      assert t[..|t| - 1] == s[..|s| - 1];
    } else {
      assert t[..|t| - 1] == s[..|s| - 1][j := true];
      UnseenMark(s[..|s| - 1], j);
    }
  }

  /** The verdict a finished search gives: all flags set iff everything is reachable. */
  lemma SearchVerdict(ms: seq<MonitorPlacement>, seen: seq<bool>, paths: map<nat, seq<nat>>)
    requires TouchClosed(ms, seen) && |ms| >= 1 && seen[0]
    requires forall i :: 0 <= i < |ms| && seen[i] ==> i in paths && PathTo(ms, paths[i], i)
    ensures (forall k :: 0 <= k < |seen| ==> seen[k]) <==> AllReachable(ms)
  {
    if forall k :: 0 <= k < |seen| ==> seen[k] {
      forall j | 0 <= j < |ms|
        ensures ReachableFromFirst(ms, j)
      {
        assert PathTo(ms, paths[j], j);
      }
    } else {
      var k :| 0 <= k < |seen| && !seen[k];
      if ReachableFromFirst(ms, k) {
        var p :| PathTo(ms, p, k);
        ClosedSetHoldsPath(ms, seen, p);
      }
    }
  }

  // ---------------------------------------------------------------------------
  // Horizontal packing

  /** `sort_by` on the id: stable, so a later element goes after every earlier one with an equal id. */
  function InsertById(s: seq<MonitorSpec>, m: MonitorSpec): (r: seq<MonitorSpec>)
    ensures multiset(r) == multiset(s) + multiset{m}
    ensures |r| == |s| + 1
    decreases |s|
  {
    if s == [] then [m]
    else if StringOrder.Le(s[|s| - 1].id, m.id) then s + [m]
    else
      assert s == s[..|s| - 1] + [s[|s| - 1]];
      InsertById(s[..|s| - 1], m) + [s[|s| - 1]]
  }

  function SortById(s: seq<MonitorSpec>): (r: seq<MonitorSpec>)
    ensures multiset(r) == multiset(s)
    ensures |r| == |s|
    decreases |s|
  {
    if s == [] then []
    else
      assert s == s[..|s| - 1] + [s[|s| - 1]];
      InsertById(SortById(s[..|s| - 1]), s[|s| - 1])
  }

  predicate SortedById(s: seq<MonitorSpec>)
  {
    forall i, j :: 0 <= i < j < |s| ==> StringOrder.Le(s[i].id, s[j].id)
  }

  lemma {:induction false} InsertKeepsSorted(s: seq<MonitorSpec>, m: MonitorSpec)
    requires SortedById(s)
    ensures SortedById(InsertById(s, m))
    decreases |s|
  {
    if s == [] {
    } else if StringOrder.Le(s[|s| - 1].id, m.id) {
      var r := s + [m];
      forall i, j | 0 <= i < j < |r|
        ensures StringOrder.Le(r[i].id, r[j].id)
      {
        if j == |s| && i < |s| - 1 {
          StringOrder.LeTransitive(s[i].id, s[|s| - 1].id, m.id);
        }
      }
    } else {
      var init, last := s[..|s| - 1], s[|s| - 1];
      InsertKeepsSorted(init, m);
      var r0 := InsertById(init, m);
      StringOrder.LeTotal(last.id, m.id);
      forall x | x in r0
        ensures StringOrder.Le(x.id, last.id)
      {
        assert x in multiset(r0);
        if x != m {
          assert x in multiset(init);
          var k :| 0 <= k < |init| && init[k] == x;
        }
      }
      var r := r0 + [last];
      forall i, j | 0 <= i < j < |r|
        ensures StringOrder.Le(r[i].id, r[j].id)
      {
        if j == |r0| {
          assert r[i] in r0;
        }
      }
    }
  }

  /** The library sort is modelled by a stable insertion sort: sorted, and a permutation. */
  lemma {:induction false} SortByIdSorted(s: seq<MonitorSpec>)
    ensures SortedById(SortById(s)) && multiset(SortById(s)) == multiset(s)
    decreases |s|
  {
    if s != [] {
      SortByIdSorted(s[..|s| - 1]);
      InsertKeepsSorted(SortById(s[..|s| - 1]), s[|s| - 1]);
    }
  }

  function SpecOf(p: MonitorPlacement): MonitorSpec
  {
    MonitorSpec(p.id, p.width, p.height)
  }

  function SpecsOf(ps: seq<MonitorPlacement>): (r: seq<MonitorSpec>)
    ensures |r| == |ps|
    ensures forall i :: 0 <= i < |ps| ==> r[i] == SpecOf(ps[i])
  {
    seq(|ps|, i requires 0 <= i < |ps| => SpecOf(ps[i]))
  }

  /**
   * Left to right, all at y = 0: the first monitor starts at x = 0 and every next one starts
   * where the previous one ends, the running x saturating at the i32 limit.
   */
  predicate PackedLeftToRight(ps: seq<MonitorPlacement>)
  {
    (|ps| > 0 ==> ps[0].x == 0)
    && (forall i :: 0 <= i < |ps| ==> ps[i].y == 0)
    && (forall i :: 0 <= i < |ps| - 1 ==> ps[i + 1].x == SaturatingAdd(ps[i].x, NonNeg(ps[i].width)))
  }

  /** Placing the next monitor where the previous one ends keeps the packing. */
  lemma PackAppend(out: seq<MonitorPlacement>, p: MonitorPlacement)
    requires PackedLeftToRight(out) && p.y == 0
    requires |out| == 0 ==> p.x == 0
    requires |out| > 0 ==> p.x == SaturatingAdd(out[|out| - 1].x, NonNeg(out[|out| - 1].width))
    ensures PackedLeftToRight(out + [p])
  {
    var r := out + [p];
    forall i | 0 <= i < |r| - 1
      ensures r[i + 1].x == SaturatingAdd(r[i].x, NonNeg(r[i].width))
    {
      if i < |out| - 1 {
        assert r[i] == out[i] && r[i + 1] == out[i + 1];
      }
    }
  }

  /** `layout_horizontal`. */
  method LayoutHorizontal(monitors: seq<MonitorSpec>) returns (out: seq<MonitorPlacement>)
    ensures SpecsOf(out) == SortById(monitors)
    ensures multiset(SpecsOf(out)) == multiset(monitors)
    ensures SortedById(SpecsOf(out))
    ensures PackedLeftToRight(out)
  {
    var sorted := SortById(monitors);
    SortByIdSorted(monitors);
    out := PackInOrder(sorted);
  }

  /** The placement loop of `layout_horizontal`, in the given order. */
  method PackInOrder(sorted: seq<MonitorSpec>) returns (out: seq<MonitorPlacement>)
    ensures SpecsOf(out) == sorted
    ensures PackedLeftToRight(out)
  {
    var nextX: I32 := 0;
    out := [];
    for k := 0 to |sorted|
      invariant |out| == k
      invariant forall i :: 0 <= i < k ==> SpecOf(out[i]) == sorted[i]
      invariant PackedLeftToRight(out)
      invariant k > 0 ==> nextX == SaturatingAdd(out[k - 1].x, NonNeg(out[k - 1].width))
      invariant k == 0 ==> nextX == 0
    {
      var m := sorted[k];
      var p := MonitorPlacement(m.id, nextX, 0, m.width, m.height);
      PackAppend(out, p);
      out := out + [p];
      nextX := SaturatingAdd(nextX, NonNeg(m.width));
    }
    assert SpecsOf(out) == sorted;
  }

  /** The packing of the source's own example: `mon_a` (1920 wide) first at 0, then `mon_b` at 1920. */
  lemma HorizontalExample(out: seq<MonitorPlacement>)
    requires SpecsOf(out) == SortById([MonitorSpec("mon_b", 2560, 1440), MonitorSpec("mon_a", 1920, 1080)])
    requires PackedLeftToRight(out)
    ensures |out| == 2 && out[0].id == "mon_a" && out[0].x == 0 && out[1].id == "mon_b" && out[1].x == 1920
  {
    var s := [MonitorSpec("mon_b", 2560, 1440), MonitorSpec("mon_a", 1920, 1080)];
    assert s[..1] == [s[0]];
    assert SortById([s[0]]) == [s[0]];
    assert !StringOrder.Le("mon_b", "mon_a");
    assert SortById(s) == [s[1], s[0]];
    assert SpecOf(out[0]) == s[1];
  }


  /** Packed monitors of positive size whose running x never reaches the i32 limit. */
  predicate PackedUnsaturated(ps: seq<MonitorPlacement>)
  {
    PackedLeftToRight(ps)
    && (forall k :: 0 <= k < |ps| ==> ps[k].width > 0 && ps[k].height > 0)
    && (forall k :: 0 <= k < |ps| - 1 ==> ps[k].x + ps[k].width <= I32_MAX)
  }

  lemma PackedNext(ps: seq<MonitorPlacement>, k: nat)
    requires PackedUnsaturated(ps) && k + 1 < |ps|
    ensures ps[k + 1].x == Right(ps[k]) && Touch(ps[k], ps[k + 1])
  {
  }

  /** A packed monitor ends at or before every later one starts. */
  lemma {:induction false} PackedEndsBeforeLater(ps: seq<MonitorPlacement>, i: nat, j: nat)
    requires PackedUnsaturated(ps) && i < j < |ps|
    ensures Right(ps[i]) <= ps[j].x
    decreases j - i
  {
    PackedNext(ps, j - 1);
    if j > i + 1 {
      PackedEndsBeforeLater(ps, i, j - 1);
    }
  }

  /** The walk 0, 1, ..., j. */
  function Upto(j: nat): (p: seq<nat>)
    ensures |p| == j + 1 && forall k :: 0 <= k <= j ==> p[k] == k
  {
    seq(j + 1, k requires 0 <= k <= j => k)
  }

  lemma PackedReachable(ps: seq<MonitorPlacement>, j: nat)
    requires PackedUnsaturated(ps) && j < |ps|
    ensures ReachableFromFirst(ps, j)
  {
    var p := Upto(j);
    forall k | 0 <= k < |p| - 1
      ensures Touch(ps[p[k]], ps[p[k + 1]])
    {
      PackedNext(ps, k);
    }
    assert PathTo(ps, p, j);
  }

  lemma PackedNoOverlap(ps: seq<MonitorPlacement>)
    requires PackedUnsaturated(ps)
    ensures NoOverlap(ps)
  {
    forall p, q | 0 <= p < q < |ps|
      ensures !OverlapArea(ps[p], ps[q])
    {
      PackedEndsBeforeLater(ps, p, q);
    }
  }

  lemma PackedEveryTouches(ps: seq<MonitorPlacement>)
    requires PackedUnsaturated(ps) && |ps| >= 2
    ensures EveryTouchesAnother(ps)
  {
    forall i | 0 <= i < |ps|
      ensures HasTouchNeighbour(ps, i)
    {
      if i < |ps| - 1 {
        PackedNext(ps, i);
      } else {
        PackedNext(ps, i - 1);
        TouchSymmetric(ps[i - 1], ps[i]);
      }
    }
  }

  lemma PackedAllReachable(ps: seq<MonitorPlacement>)
    requires PackedUnsaturated(ps)
    ensures AllReachable(ps)
  {
    forall j | 0 <= j < |ps|
      ensures ReachableFromFirst(ps, j)
    {
      PackedReachable(ps, j);
    }
  }

  /**
   * Packing monitors of positive size left to right, without reaching the i32 limit, gives a
   * valid edge-contiguous layout: neighbours share a full vertical edge, nothing overlaps.
   */
  lemma PackedLayoutIsValid(ps: seq<MonitorPlacement>)
    requires PackedUnsaturated(ps)
    ensures ValidLayout(ps)
  {
    if |ps| >= 2 {
      PackedNoOverlap(ps);
      PackedEveryTouches(ps);
      PackedAllReachable(ps);
    } else if |ps| == 1 {
      SingleReachable(ps);
    }
  }

  // ---------------------------------------------------------------------------
  // The searches

  /** What a search keeps true between steps: flags, the stack, witness walks, closure. */
  ghost predicate SearchInvariant(ms: seq<MonitorPlacement>, seen: seq<bool>, stack: seq<nat>,
                                  paths: map<nat, seq<nat>>, open: set<nat>)
  {
    |seen| == |ms| && |ms| >= 1 && seen[0]
    && (forall s :: s in stack ==> s < |ms| && seen[s])
    && (forall i :: 0 <= i < |ms| && seen[i] ==> i in paths && PathTo(ms, paths[i], i))
    && (forall i, k ::
          0 <= i < |ms| && 0 <= k < |ms| && seen[i] && i !in stack && i !in open && Touch(ms[i], ms[k])
          ==> seen[k])
  }

  /** Marking `j`, a touch neighbour of the monitor `i` being expanded, and pushing it. */
  lemma MarkStep(ms: seq<MonitorPlacement>, seen: seq<bool>, stack: seq<nat>,
                 paths: map<nat, seq<nat>>, i: nat, j: nat)
    requires SearchInvariant(ms, seen, stack, paths, {i})
    requires i < |ms| && seen[i] && j < |ms| && !seen[j] && Touch(ms[i], ms[j])
    ensures SearchInvariant(ms, seen[j := true], stack + [j], paths[j := paths[i] + [j]], {i})
    ensures Unseen(seen[j := true]) + |stack + [j]| == Unseen(seen) + |stack|
  {
    ExtendPath(ms, paths[i], i, j);
    UnseenMark(seen, j);
  }

  /** Once every touch neighbour of `i` is marked, `i` needs no more expanding. */
  lemma CloseExpanded(ms: seq<MonitorPlacement>, seen: seq<bool>, stack: seq<nat>,
                      paths: map<nat, seq<nat>>, i: nat)
    requires SearchInvariant(ms, seen, stack, paths, {i}) && i < |ms|
    requires forall k :: 0 <= k < |ms| && Touch(ms[i], ms[k]) ==> seen[k]
    ensures SearchInvariant(ms, seen, stack, paths, {})
  {
    forall a, k | 0 <= a < |ms| && 0 <= k < |ms| && seen[a] && a !in stack && Touch(ms[a], ms[k])
      ensures seen[k]
    {
      if a != i {
        assert a !in {i};
      }
    }
  }

  /** Popping the top of the stack leaves it open for expansion. */
  lemma PopStep(ms: seq<MonitorPlacement>, seen: seq<bool>, stack: seq<nat>, paths: map<nat, seq<nat>>)
    requires SearchInvariant(ms, seen, stack, paths, {}) && stack != []
    ensures stack[|stack| - 1] < |ms| && seen[stack[|stack| - 1]]
    ensures SearchInvariant(ms, seen, stack[..|stack| - 1], paths, {stack[|stack| - 1]})
  {
    var i := stack[|stack| - 1];
    var rest := stack[..|stack| - 1];
    assert stack == rest + [i];
    assert i in stack;
    forall s | s in rest
      ensures s < |ms| && seen[s]
    {
      assert s in stack;
    }
    forall a, k | 0 <= a < |ms| && 0 <= k < |ms| && seen[a] && a !in rest && a !in {i} && Touch(ms[a], ms[k])
      ensures seen[k]
    {
      assert a !in stack;
    }
  }

  /** Marking the unmarked touch neighbour `j` of `i` and pushing it on the stack. */
  method MarkAndPush(ms: seq<MonitorPlacement>, seen: array<bool>, stack0: seq<nat>,
                     ghost paths0: map<nat, seq<nat>>, i: nat, j: nat)
    returns (stack: seq<nat>, ghost paths: map<nat, seq<nat>>)
    requires i < |ms| && seen.Length == |ms| && seen[i]
    requires j < |ms| && !seen[j] && Touch(ms[i], ms[j])
    requires SearchInvariant(ms, seen[..], stack0, paths0, {i})
    modifies seen
    ensures seen[..] == old(seen[..])[j := true]
    ensures stack == stack0 + [j]
    ensures SearchInvariant(ms, seen[..], stack, paths, {i})
    ensures Unseen(seen[..]) + |stack| == old(Unseen(seen[..])) + |stack0|
  {
    MarkStep(ms, seen[..], stack0, paths0, i, j);
    seen[j] := true;
    stack := stack0 + [j];
    paths := paths0[j := paths0[i] + [j]];
  }

  /** Visiting the listed neighbour `j` of `i`: marked and pushed unless already marked. */
  method Visit(ms: seq<MonitorPlacement>, seen: array<bool>, stack0: seq<nat>,
               ghost paths0: map<nat, seq<nat>>, i: nat, j: nat)
    returns (stack: seq<nat>, ghost paths: map<nat, seq<nat>>)
    requires i < |ms| && seen.Length == |ms| && seen[i]
    requires j < |ms| && Touch(ms[i], ms[j])
    requires SearchInvariant(ms, seen[..], stack0, paths0, {i})
    modifies seen
    ensures seen[j] && forall x :: 0 <= x < seen.Length && old(seen[..])[x] ==> seen[..][x]
    ensures SearchInvariant(ms, seen[..], stack, paths, {i})
    ensures Unseen(seen[..]) + |stack| == old(Unseen(seen[..])) + |stack0|
  {
    stack, paths := stack0, paths0;
    if !seen[j] {
      stack, paths := MarkAndPush(ms, seen, stack, paths, i, j);
    }
  }

  /** One turn of `is_contiguous`'s search: mark and push every unmarked touch neighbour of `i`. */
  method ExpandByTouch(ms: seq<MonitorPlacement>, seen: array<bool>, stack0: seq<nat>,
                       ghost paths0: map<nat, seq<nat>>, i: nat)
    returns (stack: seq<nat>, ghost paths: map<nat, seq<nat>>)
    requires i < |ms| && seen.Length == |ms| && seen[i]
    requires SearchInvariant(ms, seen[..], stack0, paths0, {i})
    modifies seen
    ensures SearchInvariant(ms, seen[..], stack, paths, {})
    ensures Unseen(seen[..]) + |stack| == old(Unseen(seen[..])) + |stack0|
  {
    stack, paths := stack0, paths0;
    for j := 0 to seen.Length
      invariant SearchInvariant(ms, seen[..], stack, paths, {i})
      invariant seen[i]
      invariant forall k :: 0 <= k < j && Touch(ms[i], ms[k]) ==> seen[k]
      invariant Unseen(seen[..]) + |stack| == old(Unseen(seen[..])) + |stack0|
    {
      if !seen[j] && i != j && Touch(ms[i], ms[j]) {
        stack, paths := MarkAndPush(ms, seen, stack, paths, i, j);
      }
    }
    CloseExpanded(ms, seen[..], stack, paths, i);
  }

  /** `is_contiguous`: a search from monitor 0 that tries every other monitor as a neighbour. */
  method IsContiguous(ms: seq<MonitorPlacement>) returns (b: bool)
    ensures b <==> AllReachable(ms)
  {
    if |ms| <= 1 {
      if |ms| == 1 {
        SingleReachable(ms);
      }
      return true;
    }
    var n := |ms|;
    var seen := new bool[n](_ => false);
    var stack: seq<nat> := [0];
    seen[0] := true;
    ghost var paths: map<nat, seq<nat>> := map[0 := [0]];
    assert PathTo(ms, [0], 0);
    while stack != []
      invariant seen.Length == n
      invariant SearchInvariant(ms, seen[..], stack, paths, {})
      decreases Unseen(seen[..]) + |stack|
    {
      var i := stack[|stack| - 1];
      PopStep(ms, seen[..], stack, paths);
      stack := stack[..|stack| - 1];
      stack, paths := ExpandByTouch(ms, seen, stack, paths, i);
    }
    b := forall k :: 0 <= k < n ==> seen[k];
    SearchVerdict(ms, seen[..], paths);
  }

  /** Pair {a, b} comes before pair (i, j) in the order the adjacency loops visit pairs. */
  predicate PairDone(a: nat, b: nat, i: nat, j: nat)
  {
    var lo := if a < b then a else b;
    var hi := if a < b then b else a;
    lo < i || (lo == i && hi < j)
  }

  /** `b` appears in the adjacency list of `a`. */
  predicate Listed(adj: seq<seq<nat>>, a: nat, b: nat)
    requires a < |adj|
  {
    b in adj[a]
  }

  /** The adjacency lists hold exactly the touching pairs visited so far, in both directions. */
  ghost predicate AdjacencyUpTo(ms: seq<MonitorPlacement>, adj: seq<seq<nat>>, i: nat, j: nat)
  {
    |adj| == |ms|
    && (forall a, x :: 0 <= a < |adj| && x in adj[a] ==> x < |ms|)
    && (forall a, b :: 0 <= a < |ms| && 0 <= b < |ms| ==>
          (Listed(adj, a, b) <==> a != b && PairDone(a, b, i, j) && Touch(ms[a], ms[b])))
  }

  /** Every list holds exactly the touch neighbours of its monitor. */
  ghost predicate IsAdjacency(ms: seq<MonitorPlacement>, adj: seq<seq<nat>>)
  {
    |adj| == |ms|
    && (forall a, x :: 0 <= a < |adj| && x in adj[a] ==> x < |ms|)
    && (forall a, b :: 0 <= a < |ms| && 0 <= b < |ms| ==> (Listed(adj, a, b) <==> a != b && Touch(ms[a], ms[b])))
  }

  lemma AdjacencyAdd(ms: seq<MonitorPlacement>, adj: seq<seq<nat>>, i: nat, j: nat)
    requires AdjacencyUpTo(ms, adj, i, j) && i < j < |ms|
    ensures Touch(ms[i], ms[j]) ==> AdjacencyUpTo(ms, adj[i := adj[i] + [j]][j := adj[j] + [i]], i, j + 1)
    ensures !Touch(ms[i], ms[j]) ==> AdjacencyUpTo(ms, adj, i, j + 1)
  {
    TouchSymmetric(ms[i], ms[j]);
  }

  lemma AdjacencyNextRow(ms: seq<MonitorPlacement>, adj: seq<seq<nat>>, i: nat)
    requires AdjacencyUpTo(ms, adj, i, |ms|) && i < |ms|
    ensures AdjacencyUpTo(ms, adj, i + 1, i + 2)
  {
  }

  lemma AdjacencyComplete(ms: seq<MonitorPlacement>, adj: seq<seq<nat>>)
    requires AdjacencyUpTo(ms, adj, |ms|, |ms| + 1)
    ensures IsAdjacency(ms, adj)
  {
  }

  /** The degree and adjacency vectors of `is_valid_edge_contiguous_layout`. */
  method BuildAdjacency(ms: seq<MonitorPlacement>) returns (degree: seq<nat>, adj: seq<seq<nat>>)
    ensures IsAdjacency(ms, adj)
    ensures |degree| == |ms| && forall a :: 0 <= a < |ms| ==> degree[a] == |adj[a]|
  {
    var n := |ms|;
    degree := seq(n, _ => 0);
    adj := seq(n, _ => []);
    for i := 0 to n
      invariant AdjacencyUpTo(ms, adj, i, i + 1)
      invariant |degree| == n && forall a :: 0 <= a < n ==> degree[a] == |adj[a]|
    {
      for j := i + 1 to n
        invariant AdjacencyUpTo(ms, adj, i, j)
        invariant |degree| == n && forall a :: 0 <= a < n ==> degree[a] == |adj[a]|
      {
        AdjacencyAdd(ms, adj, i, j);
        if Touch(ms[i], ms[j]) {
          degree := degree[i := degree[i] + 1];
          degree := degree[j := degree[j] + 1];
          adj := adj[i := adj[i] + [j]];
          adj := adj[j := adj[j] + [i]];
        }
      }
      AdjacencyNextRow(ms, adj, i);
    }
    AdjacencyComplete(ms, adj);
  }

  /** A monitor touches another one exactly when its degree is not zero. */
  lemma DegreesDecideTouching(ms: seq<MonitorPlacement>, degree: seq<nat>, adj: seq<seq<nat>>)
    requires IsAdjacency(ms, adj)
    requires |degree| == |ms| && forall a :: 0 <= a < |ms| ==> degree[a] == |adj[a]|
    ensures EveryTouchesAnother(ms) <==> forall k :: 0 <= k < |ms| ==> degree[k] != 0
  {
    if forall k :: 0 <= k < |ms| ==> degree[k] != 0 {
      forall k | 0 <= k < |ms|
        ensures HasTouchNeighbour(ms, k)
      {
        assert degree[k] == |adj[k]| != 0;
        var x := adj[k][0];
        assert x in adj[k];
        assert Listed(adj, k, x);
      }
    } else {
      var k :| 0 <= k < |ms| && degree[k] == 0;
      forall x | 0 <= x < |ms| && x != k
        ensures !Touch(ms[k], ms[x])
      {
        assert !Listed(adj, k, x);
      }
      assert !HasTouchNeighbour(ms, k);
    }
  }

  /** When every listed neighbour is marked, so is every touch neighbour. */
  lemma ListedNeighboursSeen(ms: seq<MonitorPlacement>, nbrs: seq<nat>, seen: seq<bool>, i: nat)
    requires i < |ms| == |seen| && seen[i]
    requires forall u :: 0 <= u < |nbrs| ==> nbrs[u] < |ms| && seen[nbrs[u]]
    requires forall k :: 0 <= k < |ms| && k != i && Touch(ms[i], ms[k]) ==> k in nbrs
    ensures forall k :: 0 <= k < |ms| && Touch(ms[i], ms[k]) ==> seen[k]
  {
    forall k | 0 <= k < |ms| && Touch(ms[i], ms[k])
      ensures seen[k]
    {
      if k != i {
        var u :| 0 <= u < |nbrs| && nbrs[u] == k;
      }
    }
  }

  /** `nbrs` lists exactly the monitors other than `i` that touch it. */
  ghost predicate NeighbourList(ms: seq<MonitorPlacement>, nbrs: seq<nat>, i: nat)
    requires i < |ms|
  {
    (forall u :: 0 <= u < |nbrs| ==> nbrs[u] < |ms| && Touch(ms[i], ms[nbrs[u]]))
    && (forall k :: 0 <= k < |ms| && k != i && Touch(ms[i], ms[k]) ==> k in nbrs)
  }

  /** One turn of the second search: mark and push every unmarked monitor in `i`'s list. */
  method ExpandByAdjacency(ms: seq<MonitorPlacement>, nbrs: seq<nat>, seen: array<bool>, stack0: seq<nat>,
                           ghost paths0: map<nat, seq<nat>>, i: nat)
    returns (stack: seq<nat>, ghost paths: map<nat, seq<nat>>)
    requires i < |ms| && seen.Length == |ms| && seen[i]
    requires NeighbourList(ms, nbrs, i)
    requires SearchInvariant(ms, seen[..], stack0, paths0, {i})
    modifies seen
    ensures SearchInvariant(ms, seen[..], stack, paths, {})
    ensures Unseen(seen[..]) + |stack| == old(Unseen(seen[..])) + |stack0|
  {
    stack, paths := VisitAll(ms, nbrs, seen, stack0, paths0, i);
    ListedNeighboursSeen(ms, nbrs, seen[..], i);
    CloseExpanded(ms, seen[..], stack, paths, i);
  }

  /** The loop over `i`'s list: afterwards every listed monitor is marked. */
  method VisitAll(ms: seq<MonitorPlacement>, nbrs: seq<nat>, seen: array<bool>, stack0: seq<nat>,
                  ghost paths0: map<nat, seq<nat>>, i: nat)
    returns (stack: seq<nat>, ghost paths: map<nat, seq<nat>>)
    requires i < |ms| && seen.Length == |ms| && seen[i]
    requires forall u :: 0 <= u < |nbrs| ==> nbrs[u] < |ms| && Touch(ms[i], ms[nbrs[u]])
    requires SearchInvariant(ms, seen[..], stack0, paths0, {i})
    modifies seen
    ensures MarkedUpTo(seen[..], nbrs, |nbrs|)
    ensures seen[i]
    ensures SearchInvariant(ms, seen[..], stack, paths, {i})
    ensures Unseen(seen[..]) + |stack| == old(Unseen(seen[..])) + |stack0|
  {
    stack, paths := stack0, paths0;
    for t := 0 to |nbrs|
      invariant SearchInvariant(ms, seen[..], stack, paths, {i})
      invariant seen[i]
      invariant MarkedUpTo(seen[..], nbrs, t)
      invariant Unseen(seen[..]) + |stack| == old(Unseen(seen[..])) + |stack0|
    {
      ghost var before := seen[..];
      stack, paths := Visit(ms, seen, stack, paths, i, nbrs[t]);
      MarkedGrows(before, seen[..], nbrs, t);
    }
  }

  /** The first `t` listed monitors are marked in `s`. */
  ghost predicate MarkedUpTo(s: seq<bool>, nbrs: seq<nat>, t: nat)
  {
    t <= |nbrs| && forall u :: 0 <= u < t ==> nbrs[u] < |s| && s[nbrs[u]]
  }

  lemma MarkedGrows(a: seq<bool>, b: seq<bool>, nbrs: seq<nat>, t: nat)
    requires MarkedUpTo(a, nbrs, t) && t < |nbrs| && nbrs[t] < |b| && b[nbrs[t]]
    requires |a| == |b| && forall x :: 0 <= x < |a| && a[x] ==> b[x]
    ensures MarkedUpTo(b, nbrs, t + 1)
  {
  }

  lemma AdjacencyRow(ms: seq<MonitorPlacement>, adj: seq<seq<nat>>, i: nat)
    requires IsAdjacency(ms, adj) && i < |ms|
    ensures NeighbourList(ms, adj[i], i)
  {
    forall u | 0 <= u < |adj[i]|
      ensures adj[i][u] < |ms| && Touch(ms[i], ms[adj[i][u]])
    {
      assert Listed(adj, i, adj[i][u]);
    }
    forall k | 0 <= k < |ms| && k != i && Touch(ms[i], ms[k])
      ensures k in adj[i]
    {
      assert Listed(adj, i, k);
    }
  }

  /** The last step of `is_valid_edge_contiguous_layout`: a search along the adjacency lists. */
  method SearchAdjacency(ms: seq<MonitorPlacement>, adj: seq<seq<nat>>) returns (b: bool)
    requires |ms| >= 1 && IsAdjacency(ms, adj)
    ensures b <==> AllReachable(ms)
  {
    var n := |ms|;
    var seen := new bool[n](_ => false);
    var stack: seq<nat> := [0];
    seen[0] := true;
    ghost var paths: map<nat, seq<nat>> := map[0 := [0]];
    assert PathTo(ms, [0], 0);
    while stack != []
      invariant seen.Length == n
      invariant SearchInvariant(ms, seen[..], stack, paths, {})
      decreases Unseen(seen[..]) + |stack|
    {
      var i := stack[|stack| - 1];
      PopStep(ms, seen[..], stack, paths);
      stack := stack[..|stack| - 1];
      AdjacencyRow(ms, adj, i);
      stack, paths := ExpandByAdjacency(ms, adj[i], seen, stack, paths, i);
    }
    b := forall k :: 0 <= k < n ==> seen[k];
    SearchVerdict(ms, seen[..], paths);
  }

  /** `is_valid_edge_contiguous_layout`. */
  method IsValidEdgeContiguousLayout(ms: seq<MonitorPlacement>) returns (b: bool)
    ensures b <==> ValidLayout(ms)
  {
    var n := |ms|;
    if n <= 1 {
      return true;
    }
    for i := 0 to n
      invariant forall p, q :: 0 <= p < i && p < q < n ==> !OverlapArea(ms[p], ms[q])
    {
      for j := i + 1 to n
        invariant forall p, q :: 0 <= p < i && p < q < n ==> !OverlapArea(ms[p], ms[q])
        invariant forall q :: i < q < j ==> !OverlapArea(ms[i], ms[q])
      {
        if OverlapArea(ms[i], ms[j]) {
          return false;
        }
      }
    }
    var degree, adj := BuildAdjacency(ms);
    DegreesDecideTouching(ms, degree, adj);
    if exists k :: 0 <= k < n && degree[k] == 0 {
      return false;
    }
    b := SearchAdjacency(ms, adj);
  }

  /** Every layout that passes the strict check also passes `is_contiguous`. */
  lemma ValidLayoutIsContiguous(ms: seq<MonitorPlacement>)
    requires ValidLayout(ms)
    ensures AllReachable(ms)
  {
    if |ms| == 1 {
      SingleReachable(ms);
    }
  }

  /** The source's gap example: a 20-pixel gap between two monitors breaks contiguity. */
  lemma GapIsNotContiguous()
    ensures !AllReachable([MonitorPlacement("a", 0, 0, 100, 100), MonitorPlacement("b", 120, 0, 100, 100)])
  {
    var ms := [MonitorPlacement("a", 0, 0, 100, 100), MonitorPlacement("b", 120, 0, 100, 100)];
    var seen := [true, false];
    assert !Touch(ms[0], ms[1]) && !Touch(ms[1], ms[0]);
    assert TouchClosed(ms, seen);
    if ReachableFromFirst(ms, 1) {
      var p :| PathTo(ms, p, 1);
      ClosedSetHoldsPath(ms, seen, p);
    }
  }

  /** The source's overlap example: a monitor starting halfway across another is rejected. */
  lemma OverlapIsInvalid()
    ensures !ValidLayout([MonitorPlacement("a", 0, 0, 100, 100), MonitorPlacement("b", 50, 0, 100, 100)])
  {
    var ms := [MonitorPlacement("a", 0, 0, 100, 100), MonitorPlacement("b", 50, 0, 100, 100)];
    assert OverlapArea(ms[0], ms[1]);
  }

  // ---------------------------------------------------------------------------
  // Distinct ids survive reordering

  predicate DistinctIds(s: seq<MonitorSpec>)
  {
    forall i, j :: 0 <= i < j < |s| ==> s[i].id != s[j].id
  }

  /** Dropping element `k` keeps the ids of the others apart, and apart from the dropped one. */
  lemma DropKeepsDistinct(s: seq<MonitorSpec>, k: nat, r: seq<MonitorSpec>)
    requires DistinctIds(s) && k < |s| && r == s[..k] + s[k + 1..]
    ensures DistinctIds(r)
    ensures forall m :: 0 <= m < |r| ==> r[m].id != s[k].id
  {
    forall m | 0 <= m < |r|
      ensures r[m] == if m < k then s[m] else s[m + 1]
    {
    }
  }

  /** The last element of `t` sits somewhere in its permutation `s`; without it, the rest match. */
  lemma MatchLast(s: seq<MonitorSpec>, t: seq<MonitorSpec>) returns (k: nat, rest: seq<MonitorSpec>)
    requires multiset(s) == multiset(t) && t != []
    ensures k < |s| && s[k] == t[|t| - 1] && rest == s[..k] + s[k + 1..]
    ensures multiset(rest) == multiset(t[..|t| - 1])
  {
    var x := t[|t| - 1];
    var init := t[..|t| - 1];
    assert t == init + [x];
    assert x in multiset(s);
    k :| 0 <= k < |s| && s[k] == x;
    rest := s[..k] + s[k + 1..];
    assert s == s[..k] + [s[k]] + s[k + 1..];
    assert multiset(s) == multiset(rest) + multiset{x};
    assert multiset(t) == multiset(init) + multiset{x};
    assert multiset(rest) == multiset(s) - multiset{x};
  }

  lemma {:induction false} PermutationKeepsDistinctIds(s: seq<MonitorSpec>, t: seq<MonitorSpec>)
    requires multiset(s) == multiset(t) && DistinctIds(s)
    ensures DistinctIds(t)
    decreases |t|
  {
    if t != [] {
      var x := t[|t| - 1];
      var init := t[..|t| - 1];
      var k, rest := MatchLast(s, t);
      DropKeepsDistinct(s, k, rest);
      PermutationKeepsDistinctIds(rest, init);
      forall i | 0 <= i < |init|
        ensures init[i].id != x.id
      {
        assert init[i] in multiset(rest);
      }
      forall i, j | 0 <= i < j < |t|
        ensures t[i].id != t[j].id
      {
        if j < |init| {
          assert t[i] == init[i] && t[j] == init[j];
        } else {
          assert t[i] == init[i];
        }
      }
    }
  }
}
