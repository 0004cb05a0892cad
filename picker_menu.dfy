/**
 * The searchable drop-down menu the editor builds its pickers with. Items are
 * added by '/'-separated path; each segment is a child of the previous one,
 * created on first use. A leaf that already runs a function and gains a
 * child is turned into a sub-menu, with a copy of itself as its first new
 * child so it stays selectable. With the context-menu style preference set,
 * a plain context menu is used instead and every item is forwarded to it.
 *
 * Items live in an arena: an item is referred to by its position, the root
 * is at position 0, and an item's children are positions after its own.
 */
module PickerMenus {
  import opened Wrappers
  import opened Strings

  /** The identity of the delegate an item runs when it is selected. */
  type FunctionId = nat

  /** One item of the drop-down: the `name`, `id`, `enabled` and `icon` it shows, its function and its children. */
  datatype MenuItem = MenuItem(name: string, id: int, enabled: bool, selectedIcon: bool,
                               action: Option<FunctionId>, children: seq<nat>)

  /** What the menu hands to the context menu in that style. */
  datatype Forwarded = ForwardedItem(path: string, on: bool, action: FunctionId) | ForwardedDisabledItem(path: string)

  /** Every child is a later item of the arena. */
  predicate WellFormed(items: seq<MenuItem>)
  {
    forall i :: 0 <= i < |items| ==> ChildrenIn(items[i].children, i, |items|)
  }

  /** Every child lies strictly between `lo` and `hi`. */
  predicate ChildrenIn(children: seq<nat>, lo: nat, hi: nat)
  {
    forall k :: 0 <= k < |children| ==> lo < children[k] < hi
  }

  /** A fresh item: enabled, no icon, no function, no children. */
  function NewItem(name: string, id: int): MenuItem
  {
    MenuItem(name, id, true, false, None, [])
  }

  /** The position of the first of `children` named `name`, or -1 when none is. */
  function FirstNamed(items: seq<MenuItem>, children: seq<nat>, name: string): (r: int)
    requires forall k :: 0 <= k < |children| ==> children[k] < |items|
    ensures -1 <= r < |children|
    ensures r >= 0 ==> items[children[r]].name == name
    ensures forall k :: 0 <= k < |children| && (r < 0 || k < r) ==> items[children[k]].name != name
    decreases |children|
  {
    if children == [] then -1
    else
      var before := FirstNamed(items, children[..|children| - 1], name);
      if before >= 0 then before
      else if items[children[|children| - 1]].name == name then |children| - 1
      else -1
  }

  /** Only the names of the children decide the search. */
  lemma {:induction false} FirstNamedSameNames(items: seq<MenuItem>, later: seq<MenuItem>, children: seq<nat>, name: string)
    requires forall k :: 0 <= k < |children| ==> children[k] < |items| && children[k] < |later|
    requires forall k :: 0 <= k < |children| ==> later[children[k]].name == items[children[k]].name
    ensures FirstNamed(later, children, name) == FirstNamed(items, children, name)
    decreases |children|
  {
    if children != [] {
      FirstNamedSameNames(items, later, children[..|children| - 1], name);
    }
  }

  /** `AddChild`: the item is appended to the arena and becomes the parent's last child. */
  function AddChild(items: seq<MenuItem>, parent: nat, child: MenuItem): (r: seq<MenuItem>)
    requires WellFormed(items) && parent < |items| && child.children == []
    ensures WellFormed(r) && |r| == |items| + 1 && r[|items|] == child
    ensures r[parent] == items[parent].(children := items[parent].children + [|items|])
    ensures forall k :: 0 <= k < |items| && k != parent ==> r[k] == items[k]
  {
    items[parent := items[parent].(children := items[parent].children + [|items|])] + [child]
  }

  /** The item copied from a parent that runs a function, named as the parent. */
  function ReparentCopy(p: MenuItem, path: string, name: string, hash: string -> int): (r: MenuItem)
    requires |name| <= |path|
    ensures r.name == p.name && r.id == hash(path[..|path| - |name|] + p.name) && r.children == []
    ensures (r.enabled, r.selectedIcon, r.action) == (p.enabled, p.selectedIcon, p.action)
  {
    MenuItem(p.name, hash(path[..|path| - |name|] + p.name), p.enabled, p.selectedIcon, p.action, [])
  }

  /**
   * The first step of `GetOrCreateChild`: a parent that runs a function gets
   * a copy of itself as a new last child, and loses its function and icon
   * and is enabled.
   */
  function Reparented(items: seq<MenuItem>, parent: nat, path: string, name: string, hash: string -> int): (r: seq<MenuItem>)
    requires WellFormed(items) && parent < |items| && |name| <= |path|
    ensures WellFormed(r) && |r| >= |items|
  {
    var p := items[parent];
    if p.action.None? then items
    else
      var added := AddChild(items, parent, ReparentCopy(p, path, name, hash));
      added[parent := added[parent].(enabled := true, selectedIcon := false, action := None)]
  }

  /**
   * The reparenting step leaves a parent without a function alone; from one
   * that runs a function it makes the copy its new last child, and turns the
   * parent into an enabled sub-menu without function or icon. No other item
   * changes.
   */
  lemma {:induction false} ReparentedShape(items: seq<MenuItem>, parent: nat, path: string, name: string, hash: string -> int)
    requires WellFormed(items) && parent < |items| && |name| <= |path|
    ensures var r := Reparented(items, parent, path, name, hash);
      r[parent].action.None? && r[parent].name == items[parent].name
      && (forall k :: 0 <= k < |items| && k != parent ==> r[k] == items[k])
    ensures items[parent].action.None? ==> Reparented(items, parent, path, name, hash) == items
    ensures items[parent].action.Some? ==>
      var r := Reparented(items, parent, path, name, hash);
      |r| == |items| + 1
      && r[|items|] == ReparentCopy(items[parent], path, name, hash)
      && r[parent] == items[parent].(enabled := true, selectedIcon := false, action := None,
                                     children := items[parent].children + [|items|])
  {
  }

  /**
   * `GetOrCreateChild`: after the reparenting step, the first child with the
   * name, or else a new last child with the name and the id of the path.
   */
  function ChildStep(items: seq<MenuItem>, parent: nat, path: string, name: string, hash: string -> int): (r: (seq<MenuItem>, nat))
    requires WellFormed(items) && parent < |items| && |name| <= |path|
    ensures WellFormed(r.0) && parent < r.1 < |r.0| && |r.0| >= |items|
  {
    var mid := Reparented(items, parent, path, name, hash);
    var found := FirstNamed(mid, mid[parent].children, name);
    if found >= 0 then (mid, mid[parent].children[found])
    else (AddChild(mid, parent, NewItem(name, hash(path))), |mid|)
  }

  /** `GetOrCreateChild` changes no item but the parent, and keeps the parent's name. */
  lemma {:induction false} ChildStepFrame(items: seq<MenuItem>, parent: nat, path: string, name: string, hash: string -> int)
    requires WellFormed(items) && parent < |items| && |name| <= |path|
    ensures var r := ChildStep(items, parent, path, name, hash);
      r.0[parent].name == items[parent].name
      && (forall k :: 0 <= k < |items| && k != parent ==> r.0[k] == items[k])
  {
    ReparentedShape(items, parent, path, name, hash);
  }

  /**
   * What `GetOrCreateChild` gives back: an item with the name, which is the
   * parent's first child with that name afterwards, under a parent that no
   * longer runs a function; when it is new, it is a fresh item with the
   * id of the path.
   */
  lemma {:induction false} ChildStepFinds(items: seq<MenuItem>, parent: nat, path: string, name: string, hash: string -> int)
    requires WellFormed(items) && parent < |items| && |name| <= |path|
    ensures var r := ChildStep(items, parent, path, name, hash);
      r.0[r.1].name == name && r.0[parent].action.None?
      && (var f := FirstNamed(r.0, r.0[parent].children, name);
          f >= 0 && r.0[parent].children[f] == r.1)
    ensures var r := ChildStep(items, parent, path, name, hash);
      var mid := Reparented(items, parent, path, name, hash);
      r.1 >= |mid| ==> r.0 == AddChild(mid, parent, NewItem(name, hash(path))) && r.0[r.1] == NewItem(name, hash(path))
  {
    var mid := Reparented(items, parent, path, name, hash);
    ReparentedShape(items, parent, path, name, hash);
    var children := mid[parent].children;
    if FirstNamed(mid, children, name) < 0 {
      var r := AddChild(mid, parent, NewItem(name, hash(path)));
      FirstNamedSameNames(mid, r, children, name);
      assert r[parent].children[..|children|] == children;
    }
  }

  /** A parent without a function that already has a child with the name gains nothing. */
  lemma {:induction false} ChildStepExisting(items: seq<MenuItem>, parent: nat, path: string, name: string, hash: string -> int)
    requires WellFormed(items) && parent < |items| && |name| <= |path|
    requires items[parent].action.None?
    requires exists k :: 0 <= k < |items[parent].children| && items[items[parent].children[k]].name == name
    ensures ChildStep(items, parent, path, name, hash).0 == items
  {
    ReparentedShape(items, parent, path, name, hash);
  }

  /** A parent without a function whose first child named `name` is `c` gives back `c` and adds nothing. */
  lemma {:induction false} ChildStepFindsExisting(items: seq<MenuItem>, parent: nat, path: string, name: string,
                                                  hash: string -> int, c: nat)
    requires WellFormed(items) && parent < |items| && |name| <= |path|
    requires items[parent].action.None?
    requires var f := FirstNamed(items, items[parent].children, name);
      f >= 0 && items[parent].children[f] == c
    ensures ChildStep(items, parent, path, name, hash) == (items, c)
  {
    ReparentedShape(items, parent, path, name, hash);
  }

  /** The end of the segment that starts at the cursor: the next '/', or the end of the path. */
  function SegmentEnd(path: string, start: nat): (r: nat)
    requires start <= |path|
    ensures start <= r <= |path|
  {
    var found := IndexOfFrom(path, '/', start);
    if found < 0 then |path| else found
  }

  /** One level of a path: the path up to and including the segment, and the segment itself. */
  datatype Segment = Segment(prefix: string, name: string)

  /** A segment whose name ends its prefix. */
  type PathSegment = s: Segment | |s.name| <= |s.prefix| witness Segment("", "")

  /**
   * The segments `GetOrCreateItem`'s loop visits from cursor `start`: each
   * runs up to the next '/' (or the end), and the first empty one ends the
   * list.
   */
  function Segments(path: string, start: nat): (r: seq<PathSegment>)
    requires start <= |path|
    decreases |path| - start
  {
    var end := SegmentEnd(path, start);
    if end <= start then []
    else [Segment(path[..end], path[start..end])] + if end < |path| then Segments(path, end + 1) else []
  }

  /** A name of one menu level: non-empty and without '/'. */
  predicate IsName(name: string)
  {
    name != [] && '/' !in name
  }

  /** The segment at the cursor, when not empty, is a name. */
  lemma {:induction false} SegmentIsName(path: string, start: nat, end: nat)
    requires start <= |path| && end == SegmentEnd(path, start) && start < end
    ensures IsName(path[start..end])
  {
    assert forall k :: start <= k < end ==> path[k] != '/';
    assert forall k :: 0 <= k < end - start ==> path[start..end][k] == path[start + k];
  }

  /** Every segment's name is a name. */
  predicate AllNames(segments: seq<PathSegment>)
  {
    forall i :: 0 <= i < |segments| ==> IsName(segments[i].name)
  }

  /** A name followed by names is a list of names. */
  lemma {:induction false} ConsNames(here: PathSegment, rest: seq<PathSegment>, r: seq<PathSegment>)
    requires IsName(here.name) && AllNames(rest) && r == [here] + rest
    ensures AllNames(r)
  {
    forall i | 0 <= i < |r|
      ensures IsName(r[i].name)
    {
      if i > 0 {
        assert r[i] == rest[i - 1];
      }
    }
  }

  /** A named segment followed by named segments after the next '/'. */
  lemma {:induction false} NamesStep(path: string, start: nat, end: nat)
    requires start <= |path| && end == SegmentEnd(path, start) && start < end < |path|
    requires AllNames(Segments(path, end + 1))
    ensures AllNames(Segments(path, start))
  {
    SegmentIsName(path, start, end);
    SegmentsStep(path, start, end);
    ConsNames(Segment(path[..end], path[start..end]), Segments(path, end + 1), Segments(path, start));
  }

  /** A named segment that runs to the end of the path is the last. */
  lemma {:induction false} NamesLast(path: string, start: nat, end: nat)
    requires start <= |path| && end == SegmentEnd(path, start) && start < end == |path|
    ensures AllNames(Segments(path, start))
  {
    SegmentIsName(path, start, end);
    SegmentsStep(path, start, end);
    ConsNames(Segment(path[..end], path[start..end]), [], Segments(path, start));
  }

  /** Every segment is a non-empty name without '/'. */
  lemma {:induction false} SegmentsAreNames(path: string, start: nat)
    requires start <= |path|
    ensures AllNames(Segments(path, start))
    decreases |path| - start
  {
    var end := SegmentEnd(path, start);
    if end <= start {
      SegmentsStop(path, start, end);
    } else if end < |path| {
      SegmentsAreNames(path, end + 1);
      NamesStep(path, start, end);
    } else {
      NamesLast(path, start, end);
    }
  }

  /** The segment at the cursor, when it is not empty, comes first, and the segments after the next '/' follow. */
  lemma {:induction false} SegmentsStep(path: string, start: nat, end: nat)
    requires start <= |path| && end == SegmentEnd(path, start) && end > start
    ensures Segments(path, start) == [Segment(path[..end], path[start..end])] + if end < |path| then Segments(path, end + 1) else []
  {
  }

  /** An empty segment at the cursor leaves no segments. */
  lemma {:induction false} SegmentsStop(path: string, start: nat, end: nat)
    requires start <= |path| && end == SegmentEnd(path, start) && end <= start
    ensures Segments(path, start) == []
  {
  }

  /** The items the segments lead to from `item`, each looked up or created under the one before. */
  function WalkSegments(items: seq<MenuItem>, item: nat, segments: seq<PathSegment>, hash: string -> int): (r: (seq<MenuItem>, nat))
    requires WellFormed(items) && item < |items|
    ensures WellFormed(r.0) && item <= r.1 < |r.0| && |r.0| >= |items|
    decreases |segments|
  {
    if segments == [] then (items, item)
    else
      var step := ChildStep(items, item, segments[0].prefix, segments[0].name, hash);
      WalkSegments(step.0, step.1, segments[1..], hash)
  }

  /** The segments from `done` on are the ones the loop still visits from cursor `start`. */
  predicate SegmentsLeft(path: string, start: nat, segments: seq<PathSegment>, done: nat)
  {
    start <= |path| && done <= |segments| && segments[done..] == Segments(path, start)
  }

  /** The states a walk along `segments` from `(items, item)` passes through, the start first. */
  function Trace(items: seq<MenuItem>, item: nat, segments: seq<PathSegment>, hash: string -> int): (r: seq<(seq<MenuItem>, nat)>)
    requires WellFormed(items) && item < |items|
    ensures |r| == |segments| + 1 && r[0] == (items, item)
    decreases |segments|
  {
    if segments == [] then [(items, item)]
    else
      var step := ChildStep(items, item, segments[0].prefix, segments[0].name, hash);
      [(items, item)] + Trace(step.0, step.1, segments[1..], hash)
  }

  /** State `j + 1` of the trace is the step for segment `j` from state `j`. */
  predicate StepAt(trace: seq<(seq<MenuItem>, nat)>, segments: seq<PathSegment>, hash: string -> int, j: nat)
  {
    j < |segments| && j + 1 < |trace| && WellFormed(trace[j].0) && trace[j].1 < |trace[j].0|
    && trace[j + 1] == ChildStep(trace[j].0, trace[j].1, segments[j].prefix, segments[j].name, hash)
  }

  /** Every state of the trace but the first follows from the one before. */
  predicate Traces(trace: seq<(seq<MenuItem>, nat)>, segments: seq<PathSegment>, hash: string -> int)
  {
    forall j: nat :: j < |segments| ==> StepAt(trace, segments, hash, j)
  }

  /** A trace is its first state followed by the trace from the step for the first segment. */
  lemma {:induction false} TraceCons(items: seq<MenuItem>, item: nat, segments: seq<PathSegment>, hash: string -> int,
                                     step: (seq<MenuItem>, nat))
    requires WellFormed(items) && item < |items| && segments != []
    requires step == ChildStep(items, item, segments[0].prefix, segments[0].name, hash)
    ensures Trace(items, item, segments, hash) == [(items, item)] + Trace(step.0, step.1, segments[1..], hash)
    ensures WalkSegments(items, item, segments, hash) == WalkSegments(step.0, step.1, segments[1..], hash)
  {
  }

  /** Every state of the trace but the first follows from the one before. */
  lemma {:induction false} TraceSteps(items: seq<MenuItem>, item: nat, segments: seq<PathSegment>, hash: string -> int)
    requires WellFormed(items) && item < |items|
    ensures Traces(Trace(items, item, segments, hash), segments, hash)
    decreases |segments|
  {
    if segments != [] {
      var step := ChildStep(items, item, segments[0].prefix, segments[0].name, hash);
      TraceCons(items, item, segments, hash, step);
      var t := Trace(items, item, segments, hash);
      var rest := Trace(step.0, step.1, segments[1..], hash);
      TraceSteps(step.0, step.1, segments[1..], hash);
      forall j: nat | j < |segments|
        ensures StepAt(t, segments, hash, j)
      {
        if j > 0 {
          assert StepAt(rest, segments[1..], hash, j - 1);
          assert t[j] == rest[j - 1] && t[j + 1] == rest[j];
        }
      }
    }
  }

  /** The trace ends where the walk ends. */
  lemma {:induction false} TraceLast(items: seq<MenuItem>, item: nat, segments: seq<PathSegment>, hash: string -> int)
    requires WellFormed(items) && item < |items|
    ensures Trace(items, item, segments, hash)[|segments|] == WalkSegments(items, item, segments, hash)
    decreases |segments|
  {
    if segments != [] {
      var step := ChildStep(items, item, segments[0].prefix, segments[0].name, hash);
      TraceCons(items, item, segments, hash, step);
      TraceLast(step.0, step.1, segments[1..], hash);
    }
  }

  /** `GetOrCreateItem`: the root for an empty path, else the walk from the root along the path's segments. */
  function ItemAt(items: seq<MenuItem>, path: string, hash: string -> int): (r: (seq<MenuItem>, nat))
    requires WellFormed(items) && |items| > 0
    ensures WellFormed(r.0) && r.1 < |r.0| && |r.0| >= |items|
    ensures path == "" ==> r == (items, 0)
  {
    if |path| == 0 then (items, 0) else WalkSegments(items, 0, Segments(path, 0), hash)
  }

  /** The segments of a path and the trace of `GetOrCreateItem`'s walk along them, ending at `ItemAt`. */
  lemma WalkTrace(items: seq<MenuItem>, path: string, hash: string -> int)
    returns (segments: seq<PathSegment>, trace: seq<(seq<MenuItem>, nat)>)
    requires WellFormed(items) && |items| > 0
    ensures |path| > 0 ==> segments == Segments(path, 0)
    ensures |path| == 0 ==> segments == []
    ensures Traces(trace, segments, hash) && |trace| == |segments| + 1
    ensures trace[0] == (items, 0) && trace[|segments|] == ItemAt(items, path, hash)
  {
    segments := if |path| == 0 then [] else Segments(path, 0);
    trace := Trace(items, 0, segments, hash);
    TraceSteps(items, 0, segments, hash);
    TraceLast(items, 0, segments, hash);
  }

  /** The walk keeps every item's name and leaves the items before the one it starts at untouched. */
  lemma {:induction false} WalkFrame(items: seq<MenuItem>, item: nat, segments: seq<PathSegment>, hash: string -> int)
    requires WellFormed(items) && item < |items|
    ensures var r := WalkSegments(items, item, segments, hash);
      (forall k :: 0 <= k < |items| ==> r.0[k].name == items[k].name)
      && (forall k :: 0 <= k < item ==> r.0[k] == items[k])
    decreases |segments|
  {
    if segments != [] {
      var step := ChildStep(items, item, segments[0].prefix, segments[0].name, hash);
      ChildStepFrame(items, item, segments[0].prefix, segments[0].name, hash);
      WalkFrame(step.0, step.1, segments[1..], hash);
    }
  }

  /**
   * A step already taken once is taken again the same way in any later arena
   * that keeps the parent as the step left it and keeps every item's name.
   */
  lemma {:induction false} ChildStepAgain(items: seq<MenuItem>, later: seq<MenuItem>, parent: nat, path: string,
                                          name: string, hash: string -> int)
    requires WellFormed(items) && parent < |items| && |name| <= |path|
    requires var r := ChildStep(items, parent, path, name, hash);
      WellFormed(later) && |later| >= |r.0| && later[parent] == r.0[parent]
      && forall k :: 0 <= k < |r.0| ==> later[k].name == r.0[k].name
    ensures ChildStep(later, parent, path, name, hash) == (later, ChildStep(items, parent, path, name, hash).1)
  {
    var r := ChildStep(items, parent, path, name, hash);
    ChildStepFinds(items, parent, path, name, hash);
    SameChildrenSameSearch(r.0, later, parent, name);
    ChildStepFindsExisting(later, parent, path, name, hash, r.1);
  }

  /** An arena that keeps the parent and every item's name finds the same first child by a name. */
  lemma {:induction false} SameChildrenSameSearch(items: seq<MenuItem>, later: seq<MenuItem>, parent: nat, name: string)
    requires WellFormed(items) && WellFormed(later) && parent < |items| <= |later| && later[parent] == items[parent]
    requires forall k :: 0 <= k < |items| ==> later[k].name == items[k].name
    ensures FirstNamed(later, later[parent].children, name) == FirstNamed(items, items[parent].children, name)
  {
    assert ChildrenIn(items[parent].children, parent, |items|);
    FirstNamedSameNames(items, later, items[parent].children, name);
  }

  /** Walking again along the same segments from the same item finds the same item and adds nothing. */
  lemma {:induction false} WalkTwice(items: seq<MenuItem>, item: nat, segments: seq<PathSegment>, hash: string -> int)
    requires WellFormed(items) && item < |items|
    ensures var first := WalkSegments(items, item, segments, hash);
      WalkSegments(first.0, item, segments, hash) == first
    decreases |segments|
  {
    if segments != [] {
      var seg := segments[0];
      var step := ChildStep(items, item, seg.prefix, seg.name, hash);
      var first := WalkSegments(step.0, step.1, segments[1..], hash);
      WalkTwice(step.0, step.1, segments[1..], hash);
      WalkFrame(step.0, step.1, segments[1..], hash);
      ChildStepAgain(items, first.0, item, seg.prefix, seg.name, hash);
    }
  }

  /** `GetOrCreateItem` twice with the same path adds no items the second time and finds the same item. */
  lemma {:induction false} ItemAtTwice(items: seq<MenuItem>, path: string, hash: string -> int)
    requires WellFormed(items) && |items| > 0
    ensures ItemAt(ItemAt(items, path, hash).0, path, hash) == ItemAt(items, path, hash)
  {
    if |path| > 0 {
      WalkTwice(items, 0, Segments(path, 0), hash);
    }
  }

  /** The walk stops where a segment is empty: at a '/' right after the cursor, or at the end of the path. */
  lemma {:induction false} SegmentsStopAtEmptySegment(path: string, start: nat)
    requires start <= |path|
    requires start == |path| || path[start] == '/'
    ensures Segments(path, start) == []
  {
  }

  /** A path with no '/' names one child of the root. */
  lemma {:induction false} SingleSegment(items: seq<MenuItem>, name: string, hash: string -> int)
    requires WellFormed(items) && |items| > 0 && name != "" && '/' !in name
    ensures ItemAt(items, name, hash) == ChildStep(items, 0, name, name, hash)
  {
    assert name[..|name|] == name && name[0..|name|] == name;
    var segments: seq<PathSegment> := [Segment(name, name)];
    assert Segments(name, 0) == segments;
    assert segments[1..] == [];
    var step := ChildStep(items, 0, name, name, hash);
    assert WalkSegments(items, 0, segments, hash) == WalkSegments(step.0, step.1, [], hash);
  }

  /** `a//b` stops after `a`: the empty segment between the slashes ends the walk. */
  lemma {:induction false} DoubleSlashStops()
    ensures Segments("a//b", 0) == [Segment("a", "a")]
  {
    var path := "a//b";
    assert IndexOfFrom(path, '/', 0) == 1;
    assert path[..1] == "a" && path[0..1] == "a";
    SegmentsStopAtEmptySegment(path, 2);
  }

  class PickerMenu {
    /** Whether the context-menu style preference chose a plain context menu. */
    const usesGenericMenu: bool
    /** `string.GetHashCode`. */
    const hash: string -> int
    /** The drop-down's items, the root first; empty in the context-menu style. */
    var items: seq<MenuItem>
    /** What was handed to the context menu, in order. */
    var forwarded: seq<Forwarded>

    predicate Valid()
      reads this
    {
      (usesGenericMenu <==> |items| == 0) && WellFormed(items)
    }

    /**
     * Creates either the context menu (when the preference exists and is set)
     * or the root item with the title, never both.
     */
    constructor (title: string, contextMenuStyle: Option<bool>, hash: string -> int)
      ensures Valid() && this.hash == hash && forwarded == []
      ensures usesGenericMenu <==> contextMenuStyle == Some(true)
      ensures !usesGenericMenu ==> items == [NewItem(title, hash(title))]
    {
      this.hash := hash;
      usesGenericMenu := contextMenuStyle == Some(true);
      forwarded := [];
      if contextMenuStyle == Some(true) {
        items := [];
      } else {
        items := [NewItem(title, hash(title))];
      }
    }

    /** `GetOrCreateChild`, as `ChildStep` describes it. */
    method GetOrCreateChild(parent: nat, path: string, name: string) returns (child: nat)
      requires Valid() && parent < |items| && |name| <= |path|
      modifies this`items
      ensures Valid()
      ensures (items, child) == ChildStep(old(items), parent, path, name, hash)
    {
      var p := items[parent];
      if p.action.Some? {
        var reparentName := path[..|path| - |name|] + p.name;
        var copy := MenuItem(p.name, hash(reparentName), p.enabled, p.selectedIcon, p.action, []);
        items := AddChild(items, parent, copy);
        items := items[parent := items[parent].(enabled := true, selectedIcon := false, action := None)];
      }
      ReparentedShape(old(items), parent, path, name, hash);
      assert items == Reparented(old(items), parent, path, name, hash);
      var children := items[parent].children;
      var i := 0;
      while i < |children|
        invariant 0 <= i <= |children|
        invariant forall k :: 0 <= k < i ==> items[children[k]].name != name
      {
        if items[children[i]].name == name {
          assert FirstNamed(items, children, name) == i;
          return children[i];
        }
        i := i + 1;
      }
      assert FirstNamed(items, children, name) == -1;
      child := |items|;
      items := AddChild(items, parent, NewItem(name, hash(path)));
    }

    /**
     * One turn of `GetOrCreateItem`'s loop: the child named by the segment
     * from `start` to `end`, under `item`, which is the next state of the trace.
     */
    method DescendSegment(item: nat, path: string, start: nat, end: nat,
                          ghost segments: seq<PathSegment>, ghost trace: seq<(seq<MenuItem>, nat)>, ghost done: nat)
      returns (child: nat)
      requires Valid() && item < |items| && start <= |path| && start < end == SegmentEnd(path, start)
      requires SegmentsLeft(path, start, segments, done)
      requires Traces(trace, segments, hash) && done < |trace| && trace[done] == (items, item)
      modifies this`items
      ensures Valid() && child < |items| && done + 1 < |trace| && trace[done + 1] == (items, child)
      ensures end < |path| ==> SegmentsLeft(path, end + 1, segments, done + 1)
      ensures end == |path| ==> done + 1 == |segments|
    {
      SegmentsStep(path, start, end);
      assert done < |segments| && segments[done] == Segment(path[..end], path[start..end]);
      assert StepAt(trace, segments, hash, done);
      var childPath := path[..end];
      var name := path[start..end];
      child := GetOrCreateChild(item, childPath, name);
      assert segments[done + 1..] == segments[done..][1..];
    }

    /** `GetOrCreateItem`: walks the path's segments from the root, as `ItemAt` describes it. */
    method GetOrCreateItem(path: string) returns (item: nat)
      requires Valid() && !usesGenericMenu
      modifies this`items
      ensures Valid()
      ensures (items, item) == ItemAt(old(items), path, hash)
    {
      ghost var segments, trace := WalkTrace(items, path, hash);
      ghost var done := 0;
      item := 0;
      var start: nat := 0;
      var end: int := 0;
      while end < |path|
        invariant Valid() && item < |items| && done < |trace| && trace[done] == (items, item)
        invariant done <= |segments|
        invariant end < |path| ==> SegmentsLeft(path, start, segments, done)
        invariant end >= |path| ==> done == |segments|
        decreases |path| + 1 - start
      {
        end := IndexOfFrom(path, '/', start);
        if end < 0 {
          end := |path|;
        }
        if end <= start {
          SegmentsStop(path, start, end);
          assert segments[done..] == [];
          break;
        }
        item := DescendSegment(item, path, start, end, segments, trace, done);
        done := done + 1;
        start := end + 1;
      }
    }

    /** `AddItem(path, on, action)`: the item at `path` becomes enabled, runs `action`, and shows the icon iff `on`. */
    method AddItem(path: string, on: bool, action: FunctionId) returns (item: Option<nat>)
      requires Valid()
      modifies this`items, this`forwarded
      ensures Valid()
      ensures usesGenericMenu ==>
        item.None? && items == old(items) && forwarded == old(forwarded) + [ForwardedItem(path, on, action)]
      ensures !usesGenericMenu ==>
        var at := ItemAt(old(items), path, hash);
        item == Some(at.1) && forwarded == old(forwarded)
        && items == at.0[at.1 := at.0[at.1].(enabled := true, action := Some(action), selectedIcon := on)]
    {
      if usesGenericMenu {
        forwarded := forwarded + [ForwardedItem(path, on, action)];
        return None;
      }
      var i := GetOrCreateItem(path);
      items := items[i := items[i].(enabled := true, action := Some(action), selectedIcon := on)];
      item := Some(i);
    }

    /** `AddDisabledItem`: the item at `path` becomes disabled; nothing else about it changes. */
    method AddDisabledItem(path: string) returns (item: Option<nat>)
      requires Valid()
      modifies this`items, this`forwarded
      ensures Valid()
      ensures usesGenericMenu ==>
        item.None? && items == old(items) && forwarded == old(forwarded) + [ForwardedDisabledItem(path)]
      ensures !usesGenericMenu ==>
        var at := ItemAt(old(items), path, hash);
        item == Some(at.1) && forwarded == old(forwarded)
        && items == at.0[at.1 := at.0[at.1].(enabled := false)]
    {
      if usesGenericMenu {
        forwarded := forwarded + [ForwardedDisabledItem(path)];
        return None;
      }
      var i := GetOrCreateItem(path);
      items := items[i := items[i].(enabled := false)];
      item := Some(i);
    }
  }
}
