/** Theseus and the minotaur in a maze: the moves of both, the successor
    states of the game, a breadth-first search for an escape, and the scan
    that finds the marked cells. */
module Minotaur {
  import opened Wrappers

  /** A cell as (column, row). */
  type Pos = (int, int)

  /** Theseus's position and the minotaur's. */
  type State = (Pos, Pos)

  function Abs(a: int): nat
  {
    if a < 0 then -a else a
  }

  /** The number of unit steps between two cells. */
  function Distance(p: Pos, q: Pos): nat
  {
    Abs(p.0 - q.0) + Abs(p.1 - q.1)
  }

  /** A maze is a non-empty list of rows of equal length. */
  predicate Rectangular(maze: seq<string>)
  {
    |maze| > 0 && forall y :: 0 <= y < |maze| ==> |maze[y]| == |maze[0]|
  }

  /** A cell inside the maze that is not a wall. */
  predicate IsPositionValid(maze: seq<string>, p: Pos)
    requires Rectangular(maze)
  {
    0 <= p.0 < |maze[0]| && 0 <= p.1 < |maze| && maze[p.1][p.0] != '#'
  }

  // ---------------------------------------------------------------------
  // Theseus's moves
  // ---------------------------------------------------------------------

  /** Right, down, left, up. */
  const Directions: seq<Pos> := [(1, 0), (0, 1), (-1, 0), (0, -1)]

  function Add(p: Pos, d: Pos): Pos
  {
    (p.0 + d.0, p.1 + d.1)
  }

  /** The valid cells among the first k neighbours of p, in direction order. */
  function ValidSteps(maze: seq<string>, p: Pos, k: nat): seq<Pos>
    requires Rectangular(maze) && k <= |Directions|
  {
    if k == 0 then []
    else
      var n := Add(p, Directions[k - 1]);
      ValidSteps(maze, p, k - 1) + if IsPositionValid(maze, n) then [n] else []
  }

  /** The cells theseus can move to from p. */
  function Neighbours(maze: seq<string>, p: Pos): seq<Pos>
    requires Rectangular(maze)
  {
    ValidSteps(maze, p, |Directions|)
  }

  method NextTheseusPositions(maze: seq<string>, p: Pos) returns (states: seq<Pos>)
    requires Rectangular(maze)
    ensures states == Neighbours(maze, p)
  {
    states := [];
    for k := 0 to |Directions|
      invariant states == ValidSteps(maze, p, k)
    {
      var n := Add(p, Directions[k]);
      if IsPositionValid(maze, n) {
        states := states + [n];
      }
    }
  }

  /** The index in Directions of the step from p to q (3 when q is none of
      the first three). */
  function Direction(p: Pos, q: Pos): nat
  {
    if q == Add(p, Directions[0]) then 0
    else if q == Add(p, Directions[1]) then 1
    else if q == Add(p, Directions[2]) then 2
    else 3
  }

  lemma {:induction false} ValidStepsMember(maze: seq<string>, p: Pos, k: nat, q: Pos)
    requires Rectangular(maze) && k <= |Directions|
    ensures q in ValidSteps(maze, p, k) <==>
              IsPositionValid(maze, q) && Distance(p, q) == 1 && Direction(p, q) < k
  {
    if k > 0 {
      ValidStepsMember(maze, p, k - 1, q);
    }
  }

  /** Theseus moves to exactly the valid cells one step away. */
  lemma NeighboursMember(maze: seq<string>, p: Pos, q: Pos)
    requires Rectangular(maze)
    ensures q in Neighbours(maze, p) <==> IsPositionValid(maze, q) && Distance(p, q) == 1
  {
    ValidStepsMember(maze, p, |Directions|, q);
  }

  lemma {:induction false} ValidStepsOrdered(maze: seq<string>, p: Pos, k: nat)
    requires Rectangular(maze) && k <= |Directions|
    ensures forall i, j :: 0 <= i < j < |ValidSteps(maze, p, k)| ==>
              Direction(p, ValidSteps(maze, p, k)[i]) < Direction(p, ValidSteps(maze, p, k)[j])
  {
    if k > 0 {
      ValidStepsOrdered(maze, p, k - 1);
      var s := ValidSteps(maze, p, k - 1);
      forall q | q in s
        ensures Direction(p, q) < k - 1
      {
        ValidStepsMember(maze, p, k - 1, q);
      }
    }
  }

  /** The neighbours come in the order right, down, left, up, each at most
      once. */
  lemma NeighboursOrdered(maze: seq<string>, p: Pos)
    requires Rectangular(maze)
    ensures forall i, j :: 0 <= i < j < |Neighbours(maze, p)| ==>
              Direction(p, Neighbours(maze, p)[i]) < Direction(p, Neighbours(maze, p)[j])
  {
    ValidStepsOrdered(maze, p, |Directions|);
  }

  // ---------------------------------------------------------------------
  // The minotaur's moves
  // ---------------------------------------------------------------------

  /** The sign of t - m: the unit step that takes m towards t. */
  function MoveTowards(m: int, t: int): (d: int)
    ensures d == 1 <==> m < t
    ensures d == 0 <==> m == t
    ensures d == -1 <==> m > t
    ensures m != t ==> Abs(t - (m + d)) == Abs(t - m) - 1
  {
    if m < t then 1 else if m == t then 0 else -1
  }

  lemma MoveTowardsExamples()
    ensures MoveTowards(2, 3) == 1 && MoveTowards(5, 5) == 0 && MoveTowards(4, 1) == -1
  {
  }

  /** One pass of the minotaur's loop: a unit step towards theseus,
      horizontal when that cell is valid, else vertical when that one is,
      else none. */
  function MinotaurStep(maze: seq<string>, t: Pos, m: Pos): (r: Pos)
    requires Rectangular(maze)
    ensures r == m || (IsPositionValid(maze, r) && Distance(m, r) == 1)
    ensures Abs(r.0 - t.0) <= Abs(m.0 - t.0) && Abs(r.1 - t.1) <= Abs(m.1 - t.1)
    ensures r != m ==> Distance(r, t) == Distance(m, t) - 1
    ensures m.0 != t.0 && IsPositionValid(maze, (m.0 + MoveTowards(m.0, t.0), m.1)) ==> r.1 == m.1 && r.0 != m.0
    ensures r == m <==>
              (m.0 == t.0 || !IsPositionValid(maze, (m.0 + MoveTowards(m.0, t.0), m.1))) &&
              (m.1 == t.1 || !IsPositionValid(maze, (m.0, m.1 + MoveTowards(m.1, t.1))))
  {
    var dx := MoveTowards(m.0, t.0);
    if dx != 0 && IsPositionValid(maze, (m.0 + dx, m.1)) then (m.0 + dx, m.1)
    else
      var dy := MoveTowards(m.1, t.1);
      if dy != 0 && IsPositionValid(maze, (m.0, m.1 + dy)) then (m.0, m.1 + dy)
      else m
  }

  /** The minotaur's move after theseus has moved to t: two passes. It stays
      on a valid cell or where it was, never gets further from theseus in
      either coordinate, and moves at most two steps; on theseus it stays. */
  function MinotaurMove(maze: seq<string>, t: Pos, m: Pos): (r: Pos)
    requires Rectangular(maze)
    ensures r == m || IsPositionValid(maze, r)
    ensures Abs(r.0 - t.0) <= Abs(m.0 - t.0) && Abs(r.1 - t.1) <= Abs(m.1 - t.1)
    ensures Distance(m, r) <= 2 && Distance(r, t) == Distance(m, t) - Distance(m, r)
    ensures m == t ==> r == m
  {
    MinotaurStep(maze, t, MinotaurStep(maze, t, m))
  }

  /** The minotaur's position after i passes of its loop. */
  function Passes(maze: seq<string>, t: Pos, m: Pos, i: nat): Pos
    requires Rectangular(maze)
  {
    if i == 0 then m else MinotaurStep(maze, t, Passes(maze, t, m, i - 1))
  }

  method NextMinotaurPosition(maze: seq<string>, theseus: Pos, minotaur: Pos) returns (r: Pos)
    requires Rectangular(maze)
    ensures r == MinotaurMove(maze, theseus, minotaur)
  {
    var tx, ty := theseus.0, theseus.1;
    var mx, my := minotaur.0, minotaur.1;
    for i := 0 to 2
      invariant (mx, my) == Passes(maze, theseus, minotaur, i)
    {
      var dx := MoveTowards(mx, tx);
      if dx != 0 && IsPositionValid(maze, (mx + dx, my)) {
        mx := mx + dx;
        continue;
      }
      var dy := MoveTowards(my, ty);
      if dy != 0 && IsPositionValid(maze, (mx, my + dy)) {
        my := my + dy;
        continue;
      }
    }
    r := (mx, my);
  }

  // ---------------------------------------------------------------------
  // Successor states
  // ---------------------------------------------------------------------

  /** The states reached when theseus moves to each of ts in turn and the
      minotaur, from m, follows; a move that lands theseus on the minotaur
      is dropped. */
  function SuccessorsFrom(maze: seq<string>, m: Pos, ts: seq<Pos>): seq<State>
    requires Rectangular(maze)
  {
    if |ts| == 0 then []
    else
      var t := ts[|ts| - 1];
      var n := MinotaurMove(maze, t, m);
      SuccessorsFrom(maze, m, ts[..|ts| - 1]) + if t == n then [] else [(t, n)]
  }

  function Successors(maze: seq<string>, s: State): seq<State>
    requires Rectangular(maze)
  {
    SuccessorsFrom(maze, s.1, Neighbours(maze, s.0))
  }

  method NextStates(maze: seq<string>, s: State) returns (states: seq<State>)
    requires Rectangular(maze)
    ensures states == Successors(maze, s)
  {
    var ts := NextTheseusPositions(maze, s.0);
    states := [];
    for k := 0 to |ts|
      invariant states == SuccessorsFrom(maze, s.1, ts[..k])
    {
      assert ts[..k + 1][..k] == ts[..k];
      var newM := NextMinotaurPosition(maze, ts[k], s.1);
      if ts[k] != newM {
        states := states + [(ts[k], newM)];
      }
    }
    assert ts[..|ts|] == ts;
  }

  lemma {:induction false} SuccessorsFromMember(maze: seq<string>, m: Pos, ts: seq<Pos>, s: State)
    requires Rectangular(maze)
    ensures s in SuccessorsFrom(maze, m, ts) <==> s.0 in ts && s.1 == MinotaurMove(maze, s.0, m) && s.0 != s.1
  {
    if |ts| > 0 {
      SuccessorsFromMember(maze, m, ts[..|ts| - 1], s);
      assert ts == ts[..|ts| - 1] + [ts[|ts| - 1]];
    }
  }

  /** The successors are exactly the states where theseus has made a valid
      unit move, the minotaur has followed, and the two are apart. */
  lemma SuccessorsMember(maze: seq<string>, s: State, s': State)
    requires Rectangular(maze)
    ensures s' in Successors(maze, s) <==>
              IsPositionValid(maze, s'.0) && Distance(s.0, s'.0) == 1 &&
              s'.1 == MinotaurMove(maze, s'.0, s.1) && s'.0 != s'.1
  {
    SuccessorsFromMember(maze, s.1, Neighbours(maze, s.0), s');
    NeighboursMember(maze, s.0, s'.0);
  }

  lemma {:induction false} SuccessorsFromOrdered(maze: seq<string>, p: Pos, m: Pos, ts: seq<Pos>)
    requires Rectangular(maze)
    requires forall i, j :: 0 <= i < j < |ts| ==> Direction(p, ts[i]) < Direction(p, ts[j])
    ensures |SuccessorsFrom(maze, m, ts)| <= |ts|
    ensures forall i, j :: 0 <= i < j < |SuccessorsFrom(maze, m, ts)| ==>
              Direction(p, SuccessorsFrom(maze, m, ts)[i].0) < Direction(p, SuccessorsFrom(maze, m, ts)[j].0)
  {
    if |ts| > 0 {
      var init := ts[..|ts| - 1];
      SuccessorsFromOrdered(maze, p, m, init);
      forall s | s in SuccessorsFrom(maze, m, init)
        ensures Direction(p, s.0) < Direction(p, ts[|ts| - 1])
      {
        SuccessorsFromMember(maze, m, init, s);
      }
    }
  }

  /** At most one successor per theseus move, in the order of the moves. */
  lemma SuccessorsOrdered(maze: seq<string>, s: State)
    requires Rectangular(maze)
    ensures |Successors(maze, s)| <= |Neighbours(maze, s.0)|
    ensures forall i, j :: 0 <= i < j < |Successors(maze, s)| ==>
              Direction(s.0, Successors(maze, s)[i].0) < Direction(s.0, Successors(maze, s)[j].0)
  {
    NeighboursOrdered(maze, s.0);
    SuccessorsFromOrdered(maze, s.0, s.1, Neighbours(maze, s.0));
  }

  // ---------------------------------------------------------------------
  // Breadth-first search
  // ---------------------------------------------------------------------

  /** Each state after the first is a successor of the one before it. */
  predicate IsPath(maze: seq<string>, p: seq<State>)
    requires Rectangular(maze)
  {
    |p| > 0 && forall i :: 0 < i < |p| ==> p[i] in Successors(maze, p[i - 1])
  }

  /** The cells of the maze. */
  function Cells(maze: seq<string>): set<Pos>
    requires Rectangular(maze)
  {
    set x, y | 0 <= y < |maze| && 0 <= x < |maze[0]| :: (x, y)
  }

  /** The states the search can meet: each of theseus and the minotaur is on
      a cell of the maze or where it started. */
  function Universe(maze: seq<string>, start: State): set<State>
    requires Rectangular(maze)
  {
    set a, b | a in Cells(maze) + {start.0} && b in Cells(maze) + {start.1} :: (a, b)
  }

  lemma SuccessorsInUniverse(maze: seq<string>, start: State, s: State, n: State)
    requires Rectangular(maze) && s in Universe(maze, start) && n in Successors(maze, s)
    ensures n in Universe(maze, start)
  {
    SuccessorsMember(maze, s, n);
    assert n.0 == (n.0.0, n.0.1);
    assert n.0 in Cells(maze);
    if n.1 != s.1 {
      assert n.1 == (n.1.0, n.1.1);
      assert n.1 in Cells(maze);
    }
  }

  /** The successors of each state, as a function value. */
  function Moves(maze: seq<string>): State -> seq<State>
    requires Rectangular(maze)
  {
    s => Successors(maze, s)
  }

  /** The parent map of the search: the start has no parent, every other
      discovered state is a successor of its discovered parent, and parents
      were discovered first (`order` is the ghost discovery time). */
  ghost predicate ParentMap(succ: State -> seq<State>, start: State, discovered: map<State, Option<State>>, order: map<State, nat>)
  {
    && start in discovered && discovered[start] == None
    && discovered.Keys == order.Keys
    && (forall s :: s in discovered && discovered[s].None? ==> s == start)
    && (forall s :: s in discovered && discovered[s].Some? ==>
          discovered[s].value in discovered && s in succ(discovered[s].value) &&
          order[discovered[s].value] < order[s])
  }

  /** The discovery times after `current` has discovered new states: the
      new states all get time `clock`. */
  ghost function Stamp(order: map<State, nat>, discovered: map<State, Option<State>>, clock: nat): map<State, nat>
  {
    map s | s in discovered :: if s in order then order[s] else clock
  }

  /** Discovering successors of a discovered state keeps the parent map. */
  lemma ParentMapGrow(succ: State -> seq<State>, start: State, current: State,
                      before: map<State, Option<State>>, after: map<State, Option<State>>, order: map<State, nat>, clock: nat)
    requires ParentMap(succ, start, before, order) && current in before
    requires forall s :: s in order ==> order[s] < clock
    requires forall s :: s in before ==> s in after && after[s] == before[s]
    requires forall s :: s in after && s !in before ==> s in succ(current) && after[s] == Some(current)
    ensures ParentMap(succ, start, after, Stamp(order, after, clock))
  {
    var o := Stamp(order, after, clock);
    assert after.Keys == o.Keys;
    forall s | s in after && after[s].None?
      ensures s == start
    {
      assert s in before && before[s].None?;
    }
    forall s | s in after && after[s].Some?
      ensures after[s].value in after && s in succ(after[s].value) && o[after[s].value] < o[s]
    {
      if s in before {
        assert after[s] == before[s] && o[s] == order[s];
      }
    }
  }

  /** Follows the parents from goal back to the start. */
  method TracePath(maze: seq<string>, start: State, discovered: map<State, Option<State>>, ghost order: map<State, nat>, goal: State)
    returns (path: seq<State>)
    requires Rectangular(maze) && ParentMap(Moves(maze), start, discovered, order) && goal in discovered
    ensures IsPath(maze, path) && path[0] == start && path[|path| - 1] == goal
  {
    var current := goal;
    path := [current];
    while discovered[current].Some?
      invariant current in discovered && IsPath(maze, path) && path[0] == current && path[|path| - 1] == goal
      decreases order[current]
    {
      var parent := discovered[current].value;
      assert current in Moves(maze)(parent);
      PathPrepend(maze, parent, path);
      current := parent;
      path := [current] + path;
    }
  }

  /** A path can be extended backwards by a state its first state follows. */
  lemma PathPrepend(maze: seq<string>, s: State, path: seq<State>)
    requires Rectangular(maze) && IsPath(maze, path) && path[0] in Successors(maze, s)
    ensures IsPath(maze, [s] + path)
  {
    var p := [s] + path;
    forall i | 0 < i < |p|
      ensures p[i] in Successors(maze, p[i - 1])
    {
      assert p[i] == path[i - 1];
      if i > 1 {
        assert p[i - 1] == path[i - 2];
      }
    }
  }

  /** What the inner loop of the search does: every successor not yet
      discovered is queued and gets `current` as its parent, and nothing
      discovered earlier changes. */
  predicate Discovered(current: State, nexts: seq<State>, discovered: map<State, Option<State>>, queue: seq<State>,
                       discovered': map<State, Option<State>>, queue': seq<State>)
  {
    && (forall s :: s in discovered ==> s in discovered' && discovered'[s] == discovered[s])
    && (forall s :: s in nexts ==> s in discovered')
    && (forall s :: s in discovered' && s !in discovered ==> s in nexts && discovered'[s] == Some(current) && s in queue')
    && |queue'| >= |queue| && (forall i :: 0 <= i < |queue| ==> queue'[i] == queue[i])
    && (forall i :: |queue| <= i < |queue'| ==> queue'[i] in discovered' && queue'[i] !in discovered)
    && (forall i, j :: |queue| <= i < j < |queue'| ==> queue'[i] != queue'[j])
    && (discovered'.Keys == discovered.Keys ==> queue' == queue)
  }

  method Discover(current: State, nexts: seq<State>, discovered: map<State, Option<State>>, queue: seq<State>)
    returns (discovered': map<State, Option<State>>, queue': seq<State>)
    ensures Discovered(current, nexts, discovered, queue, discovered', queue')
  {
    discovered', queue' := discovered, queue;
    for k := 0 to |nexts|
      invariant forall s :: s in discovered ==> s in discovered' && discovered'[s] == discovered[s]
      invariant forall i :: 0 <= i < k ==> nexts[i] in discovered'
      invariant forall s :: s in discovered' && s !in discovered ==> s in nexts && discovered'[s] == Some(current) && s in queue'
      invariant |queue'| >= |queue| && forall i :: 0 <= i < |queue| ==> queue'[i] == queue[i]
      invariant forall i :: |queue| <= i < |queue'| ==> queue'[i] in discovered' && queue'[i] !in discovered
      invariant forall i, j :: |queue| <= i < j < |queue'| ==> queue'[i] != queue'[j]
      invariant discovered'.Keys == discovered.Keys ==> queue' == queue
    {
      var next := nexts[k];
      if next !in discovered' {
        queue' := queue' + [next];
        discovered' := discovered'[next := Some(current)];
      }
    }
  }

  lemma {:induction false} ClosedContainsPaths(maze: seq<string>, closed: set<State>, p: seq<State>)
    requires Rectangular(maze) && IsPath(maze, p) && p[0] in closed
    requires forall s :: s in closed ==> forall n :: n in Successors(maze, s) ==> n in closed
    ensures p[|p| - 1] in closed
  {
    if |p| > 1 {
      var init := p[..|p| - 1];
      assert IsPath(maze, init) by {
        forall i | 0 < i < |init|
          ensures init[i] in Successors(maze, init[i - 1])
        {
          assert init[i] == p[i] && init[i - 1] == p[i - 1];
        }
      }
      ClosedContainsPaths(maze, closed, init);
      assert p[|p| - 1] in Successors(maze, p[|p| - 2]);
    }
  }

  /** What the search keeps between two iterations. Every queued state is
      discovered, and every discovered state is queued or done. A done state
      fails `stop`, and its successors are all discovered. The discovered
      states stay within the universe, and the parent map holds. */
  ghost predicate Searching(maze: seq<string>, start: State, stop: State -> bool, discovered: map<State, Option<State>>,
                            order: map<State, nat>, clock: nat, queue: seq<State>, done: set<State>)
    requires Rectangular(maze)
  {
    && ParentMap(Moves(maze), start, discovered, order)
    && (forall s :: s in order ==> order[s] < clock)
    && discovered.Keys <= Universe(maze, start)
    && (forall s :: s in queue ==> s in discovered)
    && (forall s :: s in discovered ==> s in done || s in queue)
    && (forall s :: s in done ==> s in discovered && !stop(s) && forall n :: n in Successors(maze, s) ==> n in discovered)
  }

  /** The states `current` discovers stay within the universe. */
  lemma UniverseGrow(maze: seq<string>, start: State, current: State, before: map<State, Option<State>>, after: map<State, Option<State>>)
    requires Rectangular(maze) && before.Keys <= Universe(maze, start) && current in before
    requires forall s :: s in after && s !in before ==> s in Successors(maze, current)
    ensures after.Keys <= Universe(maze, start)
  {
    forall s | s in after
      ensures s in Universe(maze, start)
    {
      if s !in before {
        SuccessorsInUniverse(maze, start, current, s);
      }
    }
  }

  /** One iteration of the search that does not stop keeps `Searching` and
      discovers a new state or shortens the queue. */
  lemma SearchStep(maze: seq<string>, start: State, stop: State -> bool, before: map<State, Option<State>>,
                   order: map<State, nat>, clock: nat, queue: seq<State>, done: set<State>,
                   discovered: map<State, Option<State>>, queue': seq<State>)
    requires Rectangular(maze) && Searching(maze, start, stop, before, order, clock, queue, done)
    requires |queue| > 0 && !stop(queue[0])
    requires Discovered(queue[0], Successors(maze, queue[0]), before, queue[1..], discovered, queue')
    ensures Searching(maze, start, stop, discovered, Stamp(order, discovered, clock), clock + 1, queue', done + {queue[0]})
    ensures before.Keys <= discovered.Keys
    ensures discovered.Keys == before.Keys ==> |queue'| < |queue|
  {
    var current := queue[0];
    ParentMapGrow(Moves(maze), start, current, before, discovered, order, clock);
    UniverseGrow(maze, start, current, before, discovered);
    QueueKept(queue, queue');
    StampBound(order, discovered, clock);
    DoneGrow(maze, stop, before, done, current, discovered);
  }

  /** Apart from its head, everything in the old queue is still queued. */
  lemma QueueKept(queue: seq<State>, queue': seq<State>)
    requires |queue| > 0 && |queue'| >= |queue| - 1
    requires forall i :: 0 <= i < |queue| - 1 ==> queue'[i] == queue[1..][i]
    ensures forall s :: s in queue ==> s == queue[0] || s in queue'
  {
    forall s | s in queue && s != queue[0]
      ensures s in queue'
    {
      var i :| 0 <= i < |queue| && queue[i] == s;
      assert queue'[i - 1] == s;
    }
  }

  lemma StampBound(order: map<State, nat>, discovered: map<State, Option<State>>, clock: nat)
    requires forall s :: s in order ==> order[s] < clock
    ensures forall s :: s in Stamp(order, discovered, clock) ==> Stamp(order, discovered, clock)[s] < clock + 1
  {
  }

  /** Marking `current` done keeps the done states closed, once its
      successors are discovered. */
  lemma DoneGrow(maze: seq<string>, stop: State -> bool, before: map<State, Option<State>>, done: set<State>,
                 current: State, discovered: map<State, Option<State>>)
    requires Rectangular(maze) && !stop(current) && current in before
    requires forall s :: s in done ==> s in before && !stop(s) && forall n :: n in Successors(maze, s) ==> n in before
    requires forall s :: s in before ==> s in discovered
    requires forall n :: n in Successors(maze, current) ==> n in discovered
    ensures forall s :: s in done + {current} ==>
              s in discovered && !stop(s) && forall n :: n in Successors(maze, s) ==> n in discovered
  {
  }

  /** One iteration of the search loop that does not stop: takes the head
      of the queue, marks it done and discovers its successors. */
  method Expand(maze: seq<string>, start: State, ghost stop: State -> bool, discovered: map<State, Option<State>>,
                ghost order: map<State, nat>, ghost clock: nat, queue: seq<State>, ghost done: set<State>)
    returns (discovered': map<State, Option<State>>, queue': seq<State>,
             ghost order': map<State, nat>, ghost clock': nat, ghost done': set<State>)
    requires Rectangular(maze) && Searching(maze, start, stop, discovered, order, clock, queue, done)
    requires |queue| > 0 && !stop(queue[0])
    ensures Searching(maze, start, stop, discovered', order', clock', queue', done')
    ensures Universe(maze, start) - discovered'.Keys < Universe(maze, start) - discovered.Keys ||
            (discovered'.Keys == discovered.Keys && |queue'| < |queue|)
    ensures Discovered(queue[0], Successors(maze, queue[0]), discovered, queue[1..], discovered', queue')
  {
    var current := queue[0];
    var nexts := NextStates(maze, current);
    discovered', queue' := Discover(current, nexts, discovered, queue[1..]);
    SearchStep(maze, start, stop, discovered, order, clock, queue, done, discovered', queue');
    order', clock', done' := Stamp(order, discovered', clock), clock + 1, done + {current};
    if discovered'.Keys != discovered.Keys {
      Shrinks(Universe(maze, start), discovered.Keys, discovered'.Keys);
    }
  }

  /** Growing a subset of u strictly shrinks what is left of u. */
  lemma Shrinks(u: set<State>, a: set<State>, b: set<State>)
    requires a <= b <= u && a != b
    ensures u - b < u - a
  {
    var s :| s in b && s !in a;
    assert s in u - a;
  }

  /** Breadth-first search from `start` for a state satisfying `stop`. A
      returned path runs from the start to such a state through successor
      steps; no path is returned only when no state reachable from the start
      satisfies `stop`. */
  method Bfs(maze: seq<string>, start: State, stop: State -> bool) returns (path: Option<seq<State>>)
    requires Rectangular(maze)
    ensures path.Some? ==> IsPath(maze, path.value) && path.value[0] == start && stop(path.value[|path.value| - 1])
    ensures path.None? ==> forall p :: IsPath(maze, p) && p[0] == start ==> !stop(p[|p| - 1])
  {
    var queue := [start];
    var discovered: map<State, Option<State>> := map[start := None];
    ghost var order: map<State, nat> := map[start := 0];
    ghost var clock: nat := 1;
    ghost var done: set<State> := {};
    assert start == (start.0, start.1);
    while |queue| != 0
      invariant Searching(maze, start, stop, discovered, order, clock, queue, done)
      decreases Universe(maze, start) - discovered.Keys, |queue|
    {
      var current := queue[0];
      if stop(current) {
        var p := TracePath(maze, start, discovered, order, current);
        return Some(p);
      }
      discovered, queue, order, clock, done := Expand(maze, start, stop, discovered, order, clock, queue, done);
    }
    forall p | IsPath(maze, p) && p[0] == start
      ensures !stop(p[|p| - 1])
    {
      ClosedContainsPaths(maze, done, p);
    }
    return None;
  }

  // ---------------------------------------------------------------------
  // Finding the marked cells
  // ---------------------------------------------------------------------

  /** Cell (x, y) comes before (X, Y) in row-major order. */
  predicate Before(x: int, y: int, X: int, Y: int)
  {
    y < Y || (y == Y && x < X)
  }

  /** Among the cells before (X, Y), r is the last one holding c, or None
      when none does. */
  predicate LastMarkBefore(maze: seq<string>, c: char, r: Option<Pos>, X: int, Y: int)
  {
    match r
    case None =>
      forall y, x :: 0 <= y < |maze| && 0 <= x < |maze[y]| && Before(x, y, X, Y) ==> maze[y][x] != c
    case Some(p) =>
      && 0 <= p.1 < |maze| && 0 <= p.0 < |maze[p.1]| && Before(p.0, p.1, X, Y) && maze[p.1][p.0] == c
      && forall y, x :: 0 <= y < |maze| && 0 <= x < |maze[y]| && Before(x, y, X, Y) && Before(p.0, p.1, x, y) ==> maze[y][x] != c
  }

  /** r is the last cell of the maze, in row-major order, holding c. */
  predicate LastMark(maze: seq<string>, c: char, r: Option<Pos>)
  {
    LastMarkBefore(maze, c, r, 0, |maze|)
  }

  /** Scans the maze for theseus, the escape and the minotaur; a later mark
      replaces an earlier one. */
  method FindMarks(maze: seq<string>) returns (theseus: Option<Pos>, escape: Option<Pos>, minotaur: Option<Pos>)
    ensures LastMark(maze, 'T', theseus) && LastMark(maze, 'E', escape) && LastMark(maze, 'M', minotaur)
  {
    theseus, escape, minotaur := None, None, None;
    for y := 0 to |maze|
      invariant LastMarkBefore(maze, 'T', theseus, 0, y)
      invariant LastMarkBefore(maze, 'E', escape, 0, y)
      invariant LastMarkBefore(maze, 'M', minotaur, 0, y)
    {
      theseus, escape, minotaur := ScanRow(maze, y, theseus, escape, minotaur);
    }
  }

  /** The inner loop of the scan, over row y. */
  method ScanRow(maze: seq<string>, y: int, theseus: Option<Pos>, escape: Option<Pos>, minotaur: Option<Pos>)
    returns (theseus': Option<Pos>, escape': Option<Pos>, minotaur': Option<Pos>)
    requires 0 <= y < |maze|
    requires LastMarkBefore(maze, 'T', theseus, 0, y)
    requires LastMarkBefore(maze, 'E', escape, 0, y)
    requires LastMarkBefore(maze, 'M', minotaur, 0, y)
    ensures LastMarkBefore(maze, 'T', theseus', 0, y + 1)
    ensures LastMarkBefore(maze, 'E', escape', 0, y + 1)
    ensures LastMarkBefore(maze, 'M', minotaur', 0, y + 1)
  {
    theseus', escape', minotaur' := theseus, escape, minotaur;
    var row := maze[y];
    for x := 0 to |row|
      invariant LastMarkBefore(maze, 'T', theseus', x, y)
      invariant LastMarkBefore(maze, 'E', escape', x, y)
      invariant LastMarkBefore(maze, 'M', minotaur', x, y)
    {
      var ch := row[x];
      LastMarkStep(maze, 'T', theseus', x, y);
      LastMarkStep(maze, 'E', escape', x, y);
      LastMarkStep(maze, 'M', minotaur', x, y);
      if ch == 'T' {
        theseus' := Some((x, y));
      } else if ch == 'E' {
        escape' := Some((x, y));
      } else if ch == 'M' {
        minotaur' := Some((x, y));
      }
    }
    LastMarkRowEnd(maze, 'T', theseus', y);
    LastMarkRowEnd(maze, 'E', escape', y);
    LastMarkRowEnd(maze, 'M', minotaur', y);
  }

  /** Looking at one more cell of a row. */
  lemma LastMarkStep(maze: seq<string>, c: char, r: Option<Pos>, x: int, y: int)
    requires 0 <= y < |maze| && 0 <= x < |maze[y]| && LastMarkBefore(maze, c, r, x, y)
    ensures LastMarkBefore(maze, c, if maze[y][x] == c then Some((x, y)) else r, x + 1, y)
  {
  }

  /** The end of row y is the start of row y + 1. */
  lemma LastMarkRowEnd(maze: seq<string>, c: char, r: Option<Pos>, y: int)
    requires 0 <= y < |maze| && LastMarkBefore(maze, c, r, |maze[y]|, y)
    ensures LastMarkBefore(maze, c, r, 0, y + 1)
  {
  }

  // ---------------------------------------------------------------------
  // Paths as sequences of moves
  // ---------------------------------------------------------------------

  /** A move of the game: theseus makes a valid unit step, the minotaur
      follows, and they are apart. */
  predicate GameMove(maze: seq<string>, s: State, s': State)
    requires Rectangular(maze)
  {
    IsPositionValid(maze, s'.0) && Distance(s.0, s'.0) == 1 &&
    s'.1 == MinotaurMove(maze, s'.0, s.1) && s'.0 != s'.1
  }

  /** The paths of the search are exactly the sequences of game moves. */
  lemma PathMoves(maze: seq<string>, p: seq<State>)
    requires Rectangular(maze) && |p| > 0
    ensures IsPath(maze, p) <==> forall i :: 0 < i < |p| ==> GameMove(maze, p[i - 1], p[i])
  {
    forall i | 0 < i < |p|
      ensures p[i] in Successors(maze, p[i - 1]) <==> GameMove(maze, p[i - 1], p[i])
    {
      SuccessorsMember(maze, p[i - 1], p[i]);
    }
  }
}
