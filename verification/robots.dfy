/** The robot factory: which robots are worth building, the successor
    states of a turn, the blueprint's costs, and the breadth-first search
    for the most geodes, with its pruning. */
module Robots {
  import opened Wrappers
  import opened Numerals

  /** The resources and robot kinds, in order: ore, clay, obsidian, geode. */
  const Kinds := 4
  const Geode := 3

  /** A search state: the turns remaining, the stock of each resource and
      the number of robots of each kind. */
  datatype State = State(remaining: int, ores: seq<int>, robots: seq<int>)

  /** A blueprint: for each robot kind, its cost in each resource. */
  predicate IsBlueprint(bp: seq<seq<int>>)
  {
    |bp| == Kinds && forall i :: 0 <= i < |bp| ==> |bp[i]| == Kinds
  }

  /** A state with a count for every resource and every robot kind. */
  predicate Fits(s: State)
  {
    |s.ores| == Kinds && |s.robots| == Kinds
  }

  predicate NonNegative(v: seq<int>)
  {
    forall j :: 0 <= j < |v| ==> v[j] >= 0
  }

  // ---------------------------------------------------------------------
  // The rules
  // ---------------------------------------------------------------------

  /** The most geodes a state could still reach if a geode robot were built
      on every remaining turn. */
  function Optimistic(s: State): int
    requires |s.ores| > 0 && |s.robots| > 0
  {
    (s.remaining * (s.remaining - 1)) / 2 + s.robots[|s.robots| - 1] * s.remaining + s.ores[|s.ores| - 1]
  }

  /** The state may still beat the best geode count found so far. */
  predicate CanBeBest(s: State, maxGeodes: int)
    requires |s.ores| > 0 && |s.robots| > 0
  {
    Optimistic(s) > maxGeodes
  }

  /** The stock covers the cost, resource by resource (as far as both
      go). */
  predicate Affordable(ores: seq<int>, cost: seq<int>)
  {
    forall k :: 0 <= k < |ores| && k < |cost| ==> ores[k] >= cost[k]
  }

  method CanBuildRobot(ores: seq<int>, cost: seq<int>) returns (b: bool)
    ensures b <==> Affordable(ores, cost)
  {
    var n := if |ores| < |cost| then |ores| else |cost|;
    for k := 0 to n
      invariant forall j :: 0 <= j < k ==> ores[j] >= cost[j]
    {
      if ores[k] < cost[k] {
        return false;
      }
    }
    return true;
  }

  /** Robots of this kind already produce, every turn, as much of their
      resource as any robot costs. */
  predicate Saturated(robots: seq<int>, robot: int, bp: seq<seq<int>>)
    requires 0 <= robot < |robots| && forall k :: 0 <= k < |bp| ==> robot < |bp[k]|
  {
    forall k :: 0 <= k < |bp| ==> bp[k][robot] <= robots[robot]
  }

  /** A robot is worth building when it is a geode robot, when there is
      none of its kind yet, or when its kind is not yet saturated. */
  predicate Wanted(robots: seq<int>, robot: int, bp: seq<seq<int>>)
    requires 0 <= robot < |robots| && forall k :: 0 <= k < |bp| ==> robot < |bp[k]|
  {
    robot == Geode || robots[robot] == 0 || !Saturated(robots, robot, bp)
  }

  method WantToBuildRobot(robots: seq<int>, robot: int, bp: seq<seq<int>>) returns (b: bool)
    requires 0 <= robot < |robots| && forall k :: 0 <= k < |bp| ==> robot < |bp[k]|
    ensures b <==> Wanted(robots, robot, bp)
  {
    var robotCount := robots[robot];
    if robot == 3 {
      return true;
    }
    if robotCount == 0 {
      return true;
    }
    for k := 0 to |bp|
      invariant forall j :: 0 <= j < k ==> bp[j][robot] <= robotCount
    {
      if bp[k][robot] > robotCount {
        return true;
      }
    }
    return false;
  }

  // ---------------------------------------------------------------------
  // Successor states
  // ---------------------------------------------------------------------

  /** The stock after a turn in which every robot collects one unit. */
  function Produce(ores: seq<int>, robots: seq<int>): seq<int>
    requires |ores| <= |robots|
  {
    seq(|ores|, j requires 0 <= j < |ores| => ores[j] + robots[j])
  }

  /** The turn in which nothing is built. */
  function NoBuild(s: State): State
    requires Fits(s)
  {
    State(s.remaining - 1, Produce(s.ores, s.robots), s.robots)
  }

  /** The turn in which robot i is built: its cost is paid, every old robot
      collects, and the new robot starts collecting next turn. */
  function Build(s: State, cost: seq<int>, i: int): State
    requires Fits(s) && |cost| == Kinds && 0 <= i < Kinds
  {
    State(s.remaining - 1,
          seq(Kinds, j requires 0 <= j < Kinds => s.ores[j] - cost[j] + s.robots[j]),
          s.robots[i := s.robots[i] + 1])
  }

  /** The turns that build one of robots 0..n-1, in that order, for the
      robots that are wanted and affordable. */
  function Builds(s: State, bp: seq<seq<int>>, n: int): seq<State>
    requires Fits(s) && IsBlueprint(bp) && 0 <= n <= Kinds
  {
    if n == 0 then []
    else
      Builds(s, bp, n - 1) +
      if Wanted(s.robots, n - 1, bp) && Affordable(s.ores, bp[n - 1]) then [Build(s, bp[n - 1], n - 1)] else []
  }

  /** The successors of a state: first the turn that builds nothing, then
      one turn per robot built. */
  function Next(s: State, bp: seq<seq<int>>): seq<State>
    requires Fits(s) && IsBlueprint(bp)
  {
    [NoBuild(s)] + Builds(s, bp, Kinds)
  }

  /** The lists the first loop of next_states collects for robot i: the
      stock less the cost and one more unit of the robot's own resource,
      and the robots with one more of kind i. */
  function PendingBuild(s: State, cost: seq<int>, i: int): (seq<int>, seq<int>)
    requires Fits(s) && |cost| == Kinds && 0 <= i < Kinds
  {
    (seq(Kinds, j requires 0 <= j < Kinds => s.ores[j] - cost[j] - (if i != j then 0 else 1)),
     seq(Kinds, j requires 0 <= j < Kinds => s.robots[j] + (if i != j then 0 else 1)))
  }

  function Pending(s: State, bp: seq<seq<int>>, n: int): seq<(seq<int>, seq<int>)>
    requires Fits(s) && IsBlueprint(bp) && 0 <= n <= Kinds
  {
    if n == 0 then []
    else
      Pending(s, bp, n - 1) +
      if Wanted(s.robots, n - 1, bp) && Affordable(s.ores, bp[n - 1]) then [PendingBuild(s, bp[n - 1], n - 1)] else []
  }

  /** The states the second loop of next_states yields for the collected
      lists. */
  function Finish(remaining: int, lists: seq<(seq<int>, seq<int>)>): seq<State>
    requires forall k :: 0 <= k < |lists| ==> |lists[k].0| <= |lists[k].1|
  {
    if |lists| == 0 then []
    else
      var last := lists[|lists| - 1];
      Finish(remaining, lists[..|lists| - 1]) + [State(remaining - 1, Produce(last.0, last.1), last.1)]
  }

  /** The extra unit taken off for the new robot is what it would have
      collected: production cancels it. */
  lemma PendingBuildFinishes(s: State, cost: seq<int>, i: int)
    requires Fits(s) && |cost| == Kinds && 0 <= i < Kinds
    ensures var p := PendingBuild(s, cost, i);
            State(s.remaining - 1, Produce(p.0, p.1), p.1) == Build(s, cost, i)
  {
    var p := PendingBuild(s, cost, i);
    assert Produce(p.0, p.1) == Build(s, cost, i).ores;
    assert p.1 == s.robots[i := s.robots[i] + 1];
  }

  lemma {:induction false} PendingFinishes(s: State, bp: seq<seq<int>>, n: int)
    requires Fits(s) && IsBlueprint(bp) && 0 <= n <= Kinds
    ensures forall k :: 0 <= k < |Pending(s, bp, n)| ==> |Pending(s, bp, n)[k].0| <= |Pending(s, bp, n)[k].1|
    ensures Finish(s.remaining, [(s.ores, s.robots)] + Pending(s, bp, n)) == [NoBuild(s)] + Builds(s, bp, n)
  {
    if n > 0 {
      PendingFinishes(s, bp, n - 1);
      var lists := [(s.ores, s.robots)] + Pending(s, bp, n);
      if Wanted(s.robots, n - 1, bp) && Affordable(s.ores, bp[n - 1]) {
        PendingBuildFinishes(s, bp[n - 1], n - 1);
        assert lists[..|lists| - 1] == [(s.ores, s.robots)] + Pending(s, bp, n - 1);
        assert lists[|lists| - 1] == PendingBuild(s, bp[n - 1], n - 1);
      } else {
        assert lists == [(s.ores, s.robots)] + Pending(s, bp, n - 1);
      }
    }
  }

  /** Adds each robot's production to the stock, in place. */
  method Collect(ores: seq<int>, robots: seq<int>) returns (ores': seq<int>)
    requires |ores| <= |robots|
    ensures ores' == Produce(ores, robots)
  {
    ores' := ores;
    for i := 0 to |ores'|
      invariant |ores'| == |ores|
      invariant forall j :: 0 <= j < i ==> ores'[j] == ores[j] + robots[j]
      invariant forall j :: i <= j < |ores| ==> ores'[j] == ores[j]
    {
      ores' := ores'[i := ores'[i] + robots[i]];
    }
  }

  /** The lists for building robot i, as the first loop of next_states
      writes them. */
  method TakeCost(s: State, cost: seq<int>, i: int) returns (ores: seq<int>, robots: seq<int>)
    requires Fits(s) && |cost| == Kinds && 0 <= i < Kinds
    ensures (ores, robots) == PendingBuild(s, cost, i)
  {
    ores := seq(|s.ores|, j requires 0 <= j < |s.ores| => s.ores[j] - cost[j] - (if i != j then 0 else 1));
    robots := seq(|s.robots|, j requires 0 <= j < |s.robots| => s.robots[j] + (if i != j then 0 else 1));
    var pending := PendingBuild(s, cost, i);
    assert forall j :: 0 <= j < Kinds ==> ores[j] == pending.0[j] && robots[j] == pending.1[j];
    assert ores == pending.0 && robots == pending.1;
  }

  method NextStates(s: State, bp: seq<seq<int>>) returns (states: seq<State>)
    requires Fits(s) && IsBlueprint(bp)
    ensures states == Next(s, bp)
  {
    var lists := [(s.ores, s.robots)];
    for i := 0 to |bp|
      invariant lists == [(s.ores, s.robots)] + Pending(s, bp, i)
    {
      var want := WantToBuildRobot(s.robots, i, bp);
      if !want {
        continue;
      }
      var can := CanBuildRobot(s.ores, bp[i]);
      if !can {
        continue;
      }
      var ores, robots := TakeCost(s, bp[i], i);
      lists := lists + [(ores, robots)];
    }
    PendingFinishes(s, bp, Kinds);
    states := [];
    for k := 0 to |lists|
      invariant states == Finish(s.remaining, lists[..k])
    {
      var (ores, robots) := lists[k];
      ores := Collect(ores, robots);
      assert lists[..k + 1][..k] == lists[..k];
      states := states + [State(s.remaining - 1, ores, robots)];
    }
    assert lists[..|lists|] == lists;
  }

  /** The turns that build something are exactly one per wanted and
      affordable robot. */
  lemma {:induction false} BuildsMember(s: State, bp: seq<seq<int>>, n: int, t: State)
    requires Fits(s) && IsBlueprint(bp) && 0 <= n <= Kinds
    ensures t in Builds(s, bp, n) <==>
              exists i :: 0 <= i < n && Wanted(s.robots, i, bp) && Affordable(s.ores, bp[i]) && t == Build(s, bp[i], i)
  {
    if n > 0 {
      BuildsMember(s, bp, n - 1, t);
    }
  }

  /** The successors of a state are the turn that builds nothing and one
      turn for each robot worth building that the stock affords; the turn
      that builds nothing comes first. */
  lemma NextMember(s: State, bp: seq<seq<int>>, t: State)
    requires Fits(s) && IsBlueprint(bp)
    ensures Next(s, bp)[0] == NoBuild(s)
    ensures t in Next(s, bp) <==>
              t == NoBuild(s) ||
              exists i :: 0 <= i < Kinds && Wanted(s.robots, i, bp) && Affordable(s.ores, bp[i]) && t == Build(s, bp[i], i)
  {
    BuildsMember(s, bp, Kinds, t);
  }

  /** The blueprint's costs are never negative. */
  predicate ValidBlueprint(bp: seq<seq<int>>)
  {
    IsBlueprint(bp) && forall i :: 0 <= i < |bp| ==> NonNegative(bp[i])
  }

  /** A state that can occur: a count for everything, none of them
      negative. */
  predicate Sound(s: State)
  {
    Fits(s) && NonNegative(s.ores) && NonNegative(s.robots)
  }

  lemma BuildTurn(s: State, bp: seq<seq<int>>, i: int)
    requires Fits(s) && IsBlueprint(bp) && 0 <= i < Kinds && Affordable(s.ores, bp[i])
    ensures Sound(s) ==> Sound(Build(s, bp[i], i))
    ensures ValidBlueprint(bp) ==> Build(s, bp[i], i).ores[Geode] <= s.ores[Geode] + s.robots[Geode]
  {
    var t := Build(s, bp[i], i);
    assert forall j :: 0 <= j < Kinds ==> t.ores[j] == s.ores[j] - bp[i][j] + s.robots[j];
    if ValidBlueprint(bp) {
      assert NonNegative(bp[i]);
    }
  }

  /** Every successor is one turn further on, with the same robots or one
      more; it is sound when its predecessor is, and it has at most as many
      more geodes as there are geode robots. */
  lemma NextTurn(s: State, bp: seq<seq<int>>, t: State)
    requires Fits(s) && IsBlueprint(bp) && t in Next(s, bp)
    ensures Fits(t) && t.remaining == s.remaining - 1
    ensures t.robots == s.robots || exists i :: 0 <= i < Kinds && t.robots == s.robots[i := s.robots[i] + 1]
    ensures t.robots[Geode] <= s.robots[Geode] + 1
    ensures Sound(s) ==> Sound(t)
    ensures ValidBlueprint(bp) ==> t.ores[Geode] <= s.ores[Geode] + s.robots[Geode]
  {
    NextMember(s, bp, t);
    if t != NoBuild(s) {
      var i :| 0 <= i < Kinds && Wanted(s.robots, i, bp) && Affordable(s.ores, bp[i]) && t == Build(s, bp[i], i);
      BuildTurn(s, bp, i);
    } else {
      assert forall j :: 0 <= j < Kinds ==> t.ores[j] == s.ores[j] + s.robots[j];
    }
  }

  // ---------------------------------------------------------------------
  // Reading a blueprint
  // ---------------------------------------------------------------------

  /** The ASCII characters Python's `str.split()` treats as whitespace:
      space, tab, line feed, carriage return, vertical tab, form feed and
      the four separators 0x1C to 0x1F. */
  predicate IsSpace(c: char)
  {
    c == ' ' || c == '\t' || c == '\n' || c == '\r' || c == '\U{0B}' || c == '\U{0C}' ||
    c == '\U{1C}' || c == '\U{1D}' || c == '\U{1E}' || c == '\U{1F}'
  }

  /** A non-empty run of characters that are not whitespace. */
  predicate IsWord(w: string)
  {
    |w| > 0 && forall k :: 0 <= k < |w| ==> !IsSpace(w[k])
  }

  /** The length of the run of non-whitespace characters that starts s. */
  function WordEnd(s: string): (n: nat)
    ensures n <= |s|
    ensures forall k :: 0 <= k < n ==> !IsSpace(s[k])
    ensures n < |s| ==> IsSpace(s[n])
  {
    if |s| == 0 || IsSpace(s[0]) then 0 else 1 + WordEnd(s[1..])
  }

  /** The words of a string, as Python's `split()` without arguments finds
      them: the maximal runs of non-whitespace characters, in order. */
  function Words(s: string): (ws: seq<string>)
    ensures forall i :: 0 <= i < |ws| ==> IsWord(ws[i])
    decreases |s|
  {
    if |s| == 0 then []
    else if IsSpace(s[0]) then Words(s[1..])
    else
      var n := WordEnd(s);
      [s[..n]] + Words(s[n..])
  }

  /** The words joined by single spaces. */
  function Join(ws: seq<string>): string
  {
    if |ws| == 0 then ""
    else if |ws| == 1 then ws[0]
    else ws[0] + " " + Join(ws[1..])
  }

  lemma WordEndOfWord(w: string, rest: string)
    requires IsWord(w) && (|rest| == 0 || IsSpace(rest[0]))
    ensures WordEnd(w + rest) == |w|
  {
    var s := w + rest;
    assert forall k :: 0 <= k < |w| ==> s[k] == w[k];
    assert |rest| > 0 ==> s[|w|] == rest[0];
  }

  /** Splitting words joined by spaces gives the words back. */
  lemma {:induction false} WordsOfJoin(ws: seq<string>)
    requires forall i :: 0 <= i < |ws| ==> IsWord(ws[i])
    ensures Words(Join(ws)) == ws
  {
    if |ws| == 1 {
      WordEndOfWord(ws[0], "");
      assert ws[0] + "" == ws[0];
      assert ws[0][..|ws[0]|] == ws[0];
      assert ws[0][|ws[0]|..] == [];
    } else if |ws| > 1 {
      var rest := " " + Join(ws[1..]);
      var s := Join(ws);
      assert s == ws[0] + rest;
      WordEndOfWord(ws[0], rest);
      assert s[..|ws[0]|] == ws[0];
      assert s[|ws[0]|..] == rest;
      assert rest[1..] == Join(ws[1..]);
      WordsOfJoin(ws[1..]);
      assert ws == [ws[0]] + ws[1..];
    }
  }

  /** The robot costs among the words of a blueprint line: the numbers
      that are its words 6, 12, 18, 21, 27 and 30; None when the line has
      too few words or one of them is not a number. */
  function ParseParts(parts: seq<string>): (r: Option<seq<seq<int>>>)
    ensures r.Some? ==> IsBlueprint(r.value)
  {
    if |parts| <= 30 then None
    else
      match (ParseInt(parts[6]), ParseInt(parts[12]), ParseInt(parts[18]),
             ParseInt(parts[21]), ParseInt(parts[27]), ParseInt(parts[30]))
      case (Some(oreOre), Some(clayOre), Some(obsidianOre), Some(obsidianClay), Some(geodeOre), Some(geodeObsidian)) =>
        Some([[oreOre, 0, 0, 0],
              [clayOre, 0, 0, 0],
              [obsidianOre, obsidianClay, 0, 0],
              [geodeOre, 0, geodeObsidian, 0]])
      case _ => None
  }

  /** The robot costs in a blueprint line. */
  function ParseBlueprint(blueprint: string): (r: Option<seq<seq<int>>>)
    ensures r.Some? ==> IsBlueprint(r.value)
    ensures r.Some? <==> |Words(blueprint)| > 30 && forall k :: k in [6, 12, 18, 21, 27, 30] ==> ParseInt(Words(blueprint)[k]).Some?
    ensures r.Some? ==> r.value == [[ParseInt(Words(blueprint)[6]).value, 0, 0, 0],
                                    [ParseInt(Words(blueprint)[12]).value, 0, 0, 0],
                                    [ParseInt(Words(blueprint)[18]).value, ParseInt(Words(blueprint)[21]).value, 0, 0],
                                    [ParseInt(Words(blueprint)[27]).value, 0, ParseInt(Words(blueprint)[30]).value, 0]]
  {
    ParseParts(Words(blueprint))
  }

  /** The words of a blueprint line with the given number and costs. */
  function BlueprintWords(id: nat, oreOre: nat, clayOre: nat, obsidianOre: nat, obsidianClay: nat,
                          geodeOre: nat, geodeObsidian: nat): seq<string>
  {
    ["Blueprint", NatToString(id) + ":",
     "Each", "ore", "robot", "costs", NatToString(oreOre), "ore.",
     "Each", "clay", "robot", "costs", NatToString(clayOre), "ore.",
     "Each", "obsidian", "robot", "costs", NatToString(obsidianOre), "ore", "and", NatToString(obsidianClay), "clay.",
     "Each", "geode", "robot", "costs", NatToString(geodeOre), "ore", "and", NatToString(geodeObsidian), "obsidian."]
  }

  lemma NumberIsWord(n: nat)
    ensures IsWord(NatToString(n)) && ParseInt(NatToString(n)) == Some(n)
  {
    NatToStringDigits(n);
    ParseIntToString(n);
  }

  lemma TemplateWords()
    ensures IsWord("Blueprint") && IsWord("Each") && IsWord("robot") && IsWord("costs")
    ensures IsWord("ore") && IsWord("clay") && IsWord("obsidian") && IsWord("geode")
    ensures IsWord("ore.") && IsWord("clay.") && IsWord("obsidian.") && IsWord("and")
  {
  }

  lemma BlueprintWordsAreWords(id: nat, oreOre: nat, clayOre: nat, obsidianOre: nat, obsidianClay: nat,
                               geodeOre: nat, geodeObsidian: nat)
    ensures var ws := BlueprintWords(id, oreOre, clayOre, obsidianOre, obsidianClay, geodeOre, geodeObsidian);
            forall i :: 0 <= i < |ws| ==> IsWord(ws[i])
  {
    NumberIsWord(id); NumberIsWord(oreOre); NumberIsWord(clayOre); NumberIsWord(obsidianOre);
    NumberIsWord(obsidianClay); NumberIsWord(geodeOre); NumberIsWord(geodeObsidian);
    TemplateWords();
    var w := NatToString(id) + ":";
    assert forall k :: 0 <= k < |NatToString(id)| ==> w[k] == NatToString(id)[k];
  }

  lemma ParsePartsOfWords(id: nat, oreOre: nat, clayOre: nat, obsidianOre: nat, obsidianClay: nat,
                          geodeOre: nat, geodeObsidian: nat)
    ensures ParseParts(BlueprintWords(id, oreOre, clayOre, obsidianOre, obsidianClay, geodeOre, geodeObsidian))
            == Some([[oreOre, 0, 0, 0], [clayOre, 0, 0, 0], [obsidianOre, obsidianClay, 0, 0], [geodeOre, 0, geodeObsidian, 0]])
  {
    NumberIsWord(oreOre); NumberIsWord(clayOre); NumberIsWord(obsidianOre);
    NumberIsWord(obsidianClay); NumberIsWord(geodeOre); NumberIsWord(geodeObsidian);
  }

  /** Reading a blueprint line gives back the costs it was written with. */
  lemma ParseBlueprintWords(id: nat, oreOre: nat, clayOre: nat, obsidianOre: nat, obsidianClay: nat,
                            geodeOre: nat, geodeObsidian: nat)
    ensures ParseBlueprint(Join(BlueprintWords(id, oreOre, clayOre, obsidianOre, obsidianClay, geodeOre, geodeObsidian)))
            == Some([[oreOre, 0, 0, 0], [clayOre, 0, 0, 0], [obsidianOre, obsidianClay, 0, 0], [geodeOre, 0, geodeObsidian, 0]])
  {
    var ws := BlueprintWords(id, oreOre, clayOre, obsidianOre, obsidianClay, geodeOre, geodeObsidian);
    BlueprintWordsAreWords(id, oreOre, clayOre, obsidianOre, obsidianClay, geodeOre, geodeObsidian);
    WordsOfJoin(ws);
    ParsePartsOfWords(id, oreOre, clayOre, obsidianOre, obsidianClay, geodeOre, geodeObsidian);
  }

  /** The blueprint the search runs on. */
  lemma ExampleBlueprint()
    ensures ParseBlueprint(Join(BlueprintWords(1, 4, 2, 3, 14, 2, 7)))
            == Some([[4, 0, 0, 0], [2, 0, 0, 0], [3, 14, 0, 0], [2, 0, 7, 0]])
  {
    ParseBlueprintWords(1, 4, 2, 3, 14, 2, 7);
  }

  // ---------------------------------------------------------------------
  // What a search can reach
  // ---------------------------------------------------------------------

  /** The start of the search: `depth` turns, nothing collected, one ore
      robot. */
  function Start(depth: int): (s: State)
    ensures Sound(s) && s.remaining == depth && s.ores[Geode] == 0
  {
    State(depth, [0, 0, 0, 0], [1, 0, 0, 0])
  }

  /** The successor relation of a blueprint, as a function value. */
  function Moves(bp: seq<seq<int>>): State -> seq<State>
    requires IsBlueprint(bp)
  {
    s => if Fits(s) then Next(s, bp) else []
  }

  /** The geodes collected, and the geode robots. */
  function Geodes(s: State): int
  {
    if |s.ores| == Kinds then s.ores[Geode] else 0
  }

  function GeodeRobots(s: State): int
  {
    if |s.robots| == Kinds then s.robots[Geode] else 0
  }

  /** Every step of succ takes one turn. */
  ghost predicate Ticks(succ: State -> seq<State>)
  {
    forall p, t {:trigger t in succ(p)} :: t in succ(p) ==> t.remaining == p.remaining - 1
  }

  /** Every step of succ from a sound state leads to a sound state. */
  ghost predicate KeepsSound(succ: State -> seq<State>)
  {
    forall p, t {:trigger t in succ(p)} :: Sound(p) && t in succ(p) ==> Sound(t)
  }

  /** Every step of succ adds at most one geode per geode robot, and at most
      one geode robot. */
  ghost predicate GeodesPerRobot(succ: State -> seq<State>)
  {
    forall p, t {:trigger t in succ(p)} :: t in succ(p) ==> GeodeStep(p, t)
  }

  predicate GeodeStep(p: State, t: State)
  {
    Geodes(t) <= Geodes(p) + GeodeRobots(p) && GeodeRobots(t) <= GeodeRobots(p) + 1
  }

  lemma MovesTick(bp: seq<seq<int>>)
    requires IsBlueprint(bp)
    ensures Ticks(Moves(bp))
  {
    forall p, t | t in Moves(bp)(p)
      ensures t.remaining == p.remaining - 1
    {
      assert Fits(p);
      NextTurn(p, bp, t);
    }
  }

  lemma MovesKeepSound(bp: seq<seq<int>>)
    requires IsBlueprint(bp)
    ensures KeepsSound(Moves(bp))
  {
    forall p, t | Sound(p) && t in Moves(bp)(p)
      ensures Sound(t)
    {
      NextTurn(p, bp, t);
    }
  }

  lemma MovesGeodes(bp: seq<seq<int>>)
    requires ValidBlueprint(bp)
    ensures GeodesPerRobot(Moves(bp))
  {
    forall p, t | t in Moves(bp)(p)
      ensures GeodeStep(p, t)
    {
      MoveGeodes(bp, p, t);
    }
  }

  lemma MoveGeodes(bp: seq<seq<int>>, p: State, t: State)
    requires ValidBlueprint(bp) && t in Moves(bp)(p)
    ensures GeodeStep(p, t)
  {
    assert Fits(p) && t in Next(p, bp);
    NextTurn(p, bp, t);
  }

  /** The states reachable from s in at most k steps of succ. */
  ghost function Reach(succ: State -> seq<State>, s: State, k: nat): set<State>
    decreases k
  {
    if k == 0 then {s}
    else
      var r := Reach(succ, s, k - 1);
      r + set p, t | p in r && t in succ(p) :: t
  }

  /** A successor of a state reachable in k steps is reachable in k + 1. */
  lemma ReachStep(succ: State -> seq<State>, s: State, k: nat, p: State, t: State)
    requires p in Reach(succ, s, k) && t in succ(p)
    ensures t in Reach(succ, s, k + 1)
  {
    var r := Reach(succ, s, k);
    assert p in r && t in succ(p);
  }

  lemma {:induction false} ReachGrow(succ: State -> seq<State>, s: State, k: nat, k': nat, t: State)
    requires k <= k' && t in Reach(succ, s, k)
    ensures t in Reach(succ, s, k')
    decreases k'
  {
    if k < k' {
      ReachGrow(succ, s, k, k' - 1, t);
    }
  }

  /** A state reachable in k > 0 steps is reachable in k - 1 steps, or is
      the successor of a state `p` that is. */
  lemma ReachBack(succ: State -> seq<State>, s: State, k: nat, t: State) returns (earlier: bool, p: State)
    requires k > 0 && t in Reach(succ, s, k)
    ensures earlier ==> t in Reach(succ, s, k - 1)
    ensures !earlier ==> p in Reach(succ, s, k - 1) && t in succ(p)
  {
    earlier, p := t in Reach(succ, s, k - 1), t;
    if !earlier {
      p :| p in Reach(succ, s, k - 1) && t in succ(p);
    }
  }

  /** Every state reachable in k steps has used between 0 and k turns. */
  lemma {:induction false} ReachTurns(succ: State -> seq<State>, s: State, k: nat, t: State)
    requires Ticks(succ) && t in Reach(succ, s, k)
    ensures s.remaining - k <= t.remaining <= s.remaining
    decreases k
  {
    if k > 0 {
      var earlier, p := ReachBack(succ, s, k, t);
      ReachTurns(succ, s, k - 1, if earlier then t else p);
    }
  }

  /** A reachable state is reachable in as many steps as the turns it has
      used, and so in any number of steps at least that large. */
  lemma {:induction false} ReachWithin(succ: State -> seq<State>, s: State, k: nat, j: nat, t: State)
    requires Ticks(succ) && t in Reach(succ, s, k) && s.remaining - t.remaining <= j
    ensures t in Reach(succ, s, j)
    decreases k
  {
    if k == 0 {
      ReachGrow(succ, s, 0, j, t);
    } else {
      var earlier, p := ReachBack(succ, s, k, t);
      if earlier {
        ReachWithin(succ, s, k - 1, j, t);
      } else {
        ReachTurns(succ, s, k - 1, p);
        ReachWithin(succ, s, k - 1, j - 1, p);
        ReachStep(succ, s, j - 1, p, t);
      }
    }
  }

  /** States reachable from a sound state are sound. */
  lemma {:induction false} ReachSound(succ: State -> seq<State>, s: State, k: nat, t: State)
    requires KeepsSound(succ) && Sound(s) && t in Reach(succ, s, k)
    ensures Sound(t)
    decreases k
  {
    if k > 0 {
      var earlier, p := ReachBack(succ, s, k, t);
      ReachSound(succ, s, k - 1, if earlier then t else p);
    }
  }

  // ---------------------------------------------------------------------
  // The bound behind the pruning
  // ---------------------------------------------------------------------

  /** The geodes after k turns, from o geodes and g geode robots, when a
      geode robot is built on every one of them. */
  function Ceiling(o: int, g: int, k: nat): int
  {
    if k == 0 then o else Ceiling(o, g, k - 1) + g + (k - 1)
  }

  /** The closed form of the ceiling: the formula of `can_be_best`. */
  lemma {:induction false} CeilingClosed(o: int, g: int, k: nat)
    ensures Ceiling(o, g, k) == o + g * k + k * (k - 1) / 2
  {
    if k > 0 {
      CeilingClosed(o, g, k - 1);
      assert k * (k - 1) == (k - 1) * (k - 2) + 2 * (k - 1);
      assert g * k == g * (k - 1) + g;
    }
  }

  /** The optimistic count of a state is the ceiling over its turns left. */
  lemma OptimisticCeiling(s: State)
    requires Fits(s) && s.remaining >= 0
    ensures Optimistic(s) == Ceiling(Geodes(s), GeodeRobots(s), s.remaining)
  {
    CeilingClosed(Geodes(s), GeodeRobots(s), s.remaining);
  }

  /** Within k turns the geodes grow by at most g per turn plus one more
      per turn for a geode robot built on every turn. */
  lemma {:induction false} GeodeBound(succ: State -> seq<State>, s: State, k: nat, t: State)
    requires GeodesPerRobot(succ) && GeodeRobots(s) >= 0 && t in Reach(succ, s, k)
    ensures GeodeRobots(t) <= GeodeRobots(s) + k
    ensures Geodes(t) <= Ceiling(Geodes(s), GeodeRobots(s), k)
    decreases k
  {
    if k > 0 {
      var earlier, p := ReachBack(succ, s, k, t);
      if earlier {
        GeodeBound(succ, s, k - 1, t);
      } else {
        GeodeBound(succ, s, k - 1, p);
        assert GeodeStep(p, t);
      }
    }
  }

  /** A state that cannot be best leads to no state, within its remaining
      turns, with more geodes than the best found so far. */
  lemma PruneSound(bp: seq<seq<int>>, s: State, maxGeodes: int, t: State)
    requires ValidBlueprint(bp) && Sound(s) && s.remaining >= 0 && !CanBeBest(s, maxGeodes)
    requires t in Reach(Moves(bp), s, s.remaining)
    ensures Geodes(t) <= maxGeodes
  {
    MovesGeodes(bp);
    GeodeBound(Moves(bp), s, s.remaining, t);
    OptimisticCeiling(s);
  }

  // ---------------------------------------------------------------------
  // The search
  // ---------------------------------------------------------------------

  /** A state the search is done with: it has no turn left, it cannot beat
      the best count, or all of its successors are known. */
  ghost predicate Closed(succ: State -> seq<State>, visited: map<State, Option<State>>, maxGeodes: int, d: State)
  {
    d.remaining == 0 || (Sound(d) && !CanBeBest(d, maxGeodes)) || forall c :: c in succ(d) ==> c in visited
  }

  /** The start is known, without a parent. */
  predicate Rooted(start: State, visited: map<State, Option<State>>)
  {
    start in visited && visited[start] == None
  }

  /** Every known state is sound, has between 0 and `depth` turns left, and
      is reachable from the start in the turns it has used. */
  ghost predicate Within(succ: State -> seq<State>, start: State, depth: int, visited: map<State, Option<State>>)
  {
    forall v :: v in visited ==> Sound(v) && 0 <= v.remaining <= depth && v in Reach(succ, start, depth - v.remaining)
  }

  /** Every known state other than the start has a known parent that it
      succeeds. */
  ghost predicate Parented(succ: State -> seq<State>, start: State, visited: map<State, Option<State>>)
  {
    forall v :: v in visited && v != start ==>
      visited[v].Some? && visited[v].value in visited && v in succ(visited[v].value)
  }

  /** `order` lists the known states without repetition, in the order they
      were queued: the first `head` of them have left the queue, the rest
      are the queue. */
  ghost predicate Ordered(visited: map<State, Option<State>>, queue: seq<State>, order: seq<State>, head: nat)
  {
    && Distinct(order)
    && (forall v :: v in visited <==> v in order)
    && |order| == head + |queue|
    && (forall i :: 0 <= i < |queue| ==> order[head + i] == queue[i])
  }

  /** The states that have left the queue have at most `maxGeodes` geodes
      and are done with; some known state has `maxGeodes` geodes. */
  ghost predicate Finished(succ: State -> seq<State>, visited: map<State, Option<State>>, maxGeodes: int,
                           order: seq<State>, head: nat)
    requires head <= |order|
  {
    && (forall i :: 0 <= i < head ==> Geodes(order[i]) <= maxGeodes && Closed(succ, visited, maxGeodes, order[i]))
    && (exists v :: v in visited && Geodes(v) == maxGeodes)
  }

  ghost predicate Searching(bp: seq<seq<int>>, depth: int, visited: map<State, Option<State>>, maxGeodes: int,
                            queue: seq<State>, order: seq<State>, head: nat)
    requires IsBlueprint(bp)
  {
    && Rooted(Start(depth), visited)
    && Within(Moves(bp), Start(depth), depth, visited)
    && Parented(Moves(bp), Start(depth), visited)
    && Ordered(visited, queue, order, head)
    && Finished(Moves(bp), visited, maxGeodes, order, head)
  }

  /** The new successors of `current` the search adds to the known states
      and, in this order, to the queue. */
  predicate Enqueued(current: State, nexts: seq<State>, visited: map<State, Option<State>>,
                     visited': map<State, Option<State>>, added: seq<State>)
  {
    && (forall s :: s in visited ==> s in visited' && visited'[s] == visited[s])
    && (forall s :: s in nexts ==> s in visited')
    && (forall s :: s in visited' && s !in visited ==> s in nexts && visited'[s] == Some(current) && s in added)
    && (forall s :: s in added ==> s in visited' && s !in visited)
    && Distinct(added)
    && (visited'.Keys == visited.Keys ==> added == [])
  }

  predicate Distinct(s: seq<State>)
  {
    forall i, j :: 0 <= i < j < |s| ==> s[i] != s[j]
  }

  method Enqueue(current: State, nexts: seq<State>, visited: map<State, Option<State>>, queue: seq<State>)
    returns (visited': map<State, Option<State>>, queue': seq<State>, ghost added: seq<State>)
    ensures Enqueued(current, nexts, visited, visited', added) && queue' == queue + added
    ensures forall s :: s in visited ==> s in visited' && visited'[s] == visited[s]
    ensures forall s :: s in nexts ==> s in visited'
    ensures forall s :: s in visited' && s !in visited ==> s in nexts && visited'[s] == Some(current) && s in queue'
    ensures queue'[..|queue|] == queue && forall s :: s in queue'[|queue|..] ==> s in visited' && s !in visited
  {
    visited', queue', added := visited, queue, [];
    for k := 0 to |nexts|
      invariant forall s :: s in visited ==> s in visited' && visited'[s] == visited[s]
      invariant forall i :: 0 <= i < k ==> nexts[i] in visited'
      invariant forall s :: s in visited' && s !in visited ==> s in nexts && visited'[s] == Some(current) && s in added
      invariant forall s :: s in added ==> s in visited' && s !in visited
      invariant Distinct(added) && queue' == queue + added
      invariant visited'.Keys == visited.Keys ==> added == []
    {
      var next := nexts[k];
      if next !in visited' {
        queue' := queue' + [next];
        visited' := visited'[next := Some(current)];
        added := added + [next];
      }
    }
  }

  /** Being done with a state survives more known states and a higher
      best count. */
  lemma ClosedGrow(succ: State -> seq<State>, visited: map<State, Option<State>>, visited': map<State, Option<State>>,
                   m: int, m': int, d: State)
    requires Closed(succ, visited, m, d) && visited.Keys <= visited'.Keys && m <= m'
    ensures Closed(succ, visited', m', d)
  {
  }

  lemma PopOrdered(visited: map<State, Option<State>>, queue: seq<State>, order: seq<State>, head: nat)
    requires Ordered(visited, queue, order, head) && |queue| > 0
    ensures Ordered(visited, queue[1..], order, head + 1) && order[head] == queue[0]
  {
  }

  /** Taking `order[head]` off the queue once it is done with. */
  lemma PopFinished(succ: State -> seq<State>, visited: map<State, Option<State>>, visited': map<State, Option<State>>,
                    m: int, m': int, order: seq<State>, head: nat)
    requires head < |order| && Finished(succ, visited, m, order, head)
    requires visited.Keys <= visited'.Keys && m <= m' && (m' == m || m' == Geodes(order[head])) && order[head] in visited
    requires Geodes(order[head]) <= m' && Closed(succ, visited', m', order[head])
    ensures Finished(succ, visited', m', order, head + 1)
  {
    forall i | 0 <= i < head
      ensures Closed(succ, visited', m', order[i])
    {
      ClosedGrow(succ, visited, visited', m, m', order[i]);
    }
    if m' != m {
      assert order[head] in visited';
    } else {
      var v :| v in visited && Geodes(v) == m;
      assert v in visited';
    }
  }

  /** The successors `current` adds are sound, have turns left, and are
      reachable. */
  lemma WithinGrow(succ: State -> seq<State>, start: State, depth: int, current: State,
                   visited: map<State, Option<State>>, visited': map<State, Option<State>>, added: seq<State>)
    requires Ticks(succ) && KeepsSound(succ) && Within(succ, start, depth, visited)
    requires current in visited && current.remaining != 0
    requires Enqueued(current, succ(current), visited, visited', added)
    ensures Within(succ, start, depth, visited')
  {
    forall v | v in visited' && v !in visited
      ensures Sound(v) && 0 <= v.remaining <= depth && v in Reach(succ, start, depth - v.remaining)
    {
      StepWithin(succ, start, depth, current, v);
    }
  }

  lemma StepWithin(succ: State -> seq<State>, start: State, depth: int, current: State, v: State)
    requires Ticks(succ) && KeepsSound(succ) && v in succ(current)
    requires Sound(current) && 0 < current.remaining <= depth && current in Reach(succ, start, depth - current.remaining)
    ensures Sound(v) && 0 <= v.remaining <= depth && v in Reach(succ, start, depth - v.remaining)
  {
    ReachStep(succ, start, depth - current.remaining, current, v);
  }

  lemma ParentedGrow(succ: State -> seq<State>, start: State, current: State,
                     visited: map<State, Option<State>>, visited': map<State, Option<State>>, added: seq<State>)
    requires Parented(succ, start, visited) && Rooted(start, visited) && current in visited
    requires Enqueued(current, succ(current), visited, visited', added)
    ensures Parented(succ, start, visited') && Rooted(start, visited')
  {
  }

  lemma DistinctAppend(order: seq<State>, added: seq<State>, visited: map<State, Option<State>>)
    requires Distinct(order) && Distinct(added)
    requires (forall s :: s in order ==> s in visited) && (forall s :: s in added ==> s !in visited)
    ensures Distinct(order + added)
  {
    var order' := order + added;
    forall i, j | 0 <= i < j < |order'|
      ensures order'[i] != order'[j]
    {
      if i < |order| && j >= |order| {
        assert order'[i] in order && order'[j] in added;
      }
    }
  }

  /** Appending the new states to `order` keeps it free of repetitions and
      in step with the queue. */
  lemma OrderedGrow(current: State, nexts: seq<State>, visited: map<State, Option<State>>, queue: seq<State>,
                    visited': map<State, Option<State>>, added: seq<State>, order: seq<State>, head: nat)
    requires Ordered(visited, queue, order, head)
    requires Enqueued(current, nexts, visited, visited', added)
    ensures Ordered(visited', queue + added, order + added, head)
  {
    DistinctAppend(order, added, visited);
    var order' := order + added;
    forall i | 0 <= i < |queue + added|
      ensures order'[head + i] == (queue + added)[i]
    {
      if i >= |queue| {
        assert order'[head + i] == added[i - |queue|];
      }
    }
  }

  /** Expanding `current` finishes it. */
  lemma ExpandFinished(bp: seq<seq<int>>, current: State, m: int, m': int,
                       visited: map<State, Option<State>>, visited': map<State, Option<State>>, added: seq<State>,
                       order: seq<State>, head: nat)
    requires IsBlueprint(bp) && head < |order| && Finished(Moves(bp), visited, m, order, head)
    requires order[head] == current && current in visited && Fits(current)
    requires m <= m' && (m' == m || m' == Geodes(current)) && Geodes(current) <= m'
    requires Enqueued(current, Next(current, bp), visited, visited', added)
    ensures Finished(Moves(bp), visited', m', order + added, head + 1)
  {
    assert Closed(Moves(bp), visited', m', current);
    PopFinished(Moves(bp), visited, visited', m, m', order, head);
    var order' := order + added;
    assert forall i :: 0 <= i <= head ==> order'[i] == order[i];
  }

  /** Learning new states shrinks the part of the universe still unknown. */
  lemma Shrinks(u: set<State>, a: set<State>, b: set<State>)
    requires a <= b <= u && a != b
    ensures u - b < u - a
  {
    var s :| s in b && s !in a;
    assert s in u - a;
  }

  /** The known states are all reachable within `depth` turns. */
  lemma WithinUniverse(bp: seq<seq<int>>, depth: int, visited: map<State, Option<State>>)
    requires IsBlueprint(bp) && depth >= 0 && Within(Moves(bp), Start(depth), depth, visited)
    ensures visited.Keys <= Reach(Moves(bp), Start(depth), depth)
  {
    forall v | v in visited
      ensures v in Reach(Moves(bp), Start(depth), depth)
    {
      ReachGrow(Moves(bp), Start(depth), depth - v.remaining, depth, v);
    }
  }

  /** One turn of the search loop: the state at the head of the queue is
      taken off, the best count updated, and, unless the state has no turns
      left or cannot be best, its new successors queued. */
  method Expand(bp: seq<seq<int>>, depth: int, visited: map<State, Option<State>>, maxGeodes: int,
                queue: seq<State>, ghost order: seq<State>, ghost head: nat)
    returns (visited': map<State, Option<State>>, maxGeodes': int, queue': seq<State>,
             ghost order': seq<State>, ghost head': nat, ghost added: seq<State>)
    requires IsBlueprint(bp) && depth >= 0 && |queue| > 0
    requires Searching(bp, depth, visited, maxGeodes, queue, order, head)
    ensures Searching(bp, depth, visited', maxGeodes', queue', order', head')
    ensures maxGeodes' == if queue[0].ores[|queue[0].ores| - 1] > maxGeodes then queue[0].ores[|queue[0].ores| - 1] else maxGeodes
    ensures queue[0].remaining == 0 || !CanBeBest(queue[0], maxGeodes') ==>
              visited' == visited && queue' == queue[1..]
    ensures queue[0].remaining != 0 && CanBeBest(queue[0], maxGeodes') ==>
              Enqueued(queue[0], Next(queue[0], bp), visited, visited', added) && queue' == queue[1..] + added
    ensures Reach(Moves(bp), Start(depth), depth) - visited'.Keys < Reach(Moves(bp), Start(depth), depth) - visited.Keys ||
            (visited'.Keys == visited.Keys && |queue'| < |queue|)
  {
    var current := queue[0];
    PopOrdered(visited, queue, order, head);
    assert current in visited && Sound(current);
    var geodes := current.ores[|current.ores| - 1];
    maxGeodes' := if geodes > maxGeodes then geodes else maxGeodes;
    if current.remaining == 0 || !CanBeBest(current, maxGeodes') {
      visited', queue', order', head', added := visited, queue[1..], order, head + 1, [];
      PopFinished(Moves(bp), visited, visited, maxGeodes, maxGeodes', order, head);
      return;
    }
    var nexts := NextStates(current, bp);
    visited', queue', added := Enqueue(current, nexts, visited, queue[1..]);
    order', head' := order + added, head + 1;
    MovesTick(bp);
    MovesKeepSound(bp);
    WithinGrow(Moves(bp), Start(depth), depth, current, visited, visited', added);
    ParentedGrow(Moves(bp), Start(depth), current, visited, visited', added);
    OrderedGrow(current, nexts, visited, queue[1..], visited', added, order, head + 1);
    ExpandFinished(bp, current, maxGeodes, maxGeodes', visited, visited', added, order, head);
    WithinUniverse(bp, depth, visited');
    if visited'.Keys != visited.Keys {
      Shrinks(Reach(Moves(bp), Start(depth), depth), visited.Keys, visited'.Keys);
    }
  }

  /** A known state the search has finished with: it has no turn left,
      it is cut off, or all of its successors are known. */
  ghost predicate ClosedBy(succ: State -> seq<State>, cut: State -> bool, visited: map<State, Option<State>>, d: State)
  {
    d.remaining == 0 || cut(d) || forall c :: c in succ(d) ==> c in visited
  }

  /** `t` lies, within the remaining turns, below a known state that was
      cut off. */
  ghost predicate Pruned(succ: State -> seq<State>, cut: State -> bool, visited: map<State, Option<State>>, t: State)
  {
    exists d :: d in visited && d.remaining >= 0 && cut(d) && t in Reach(succ, d, d.remaining)
  }

  /** Once every known state is finished with, every state reachable within
      `depth` turns is known or lies below a state that was cut off. */
  lemma {:induction false} Covered(succ: State -> seq<State>, cut: State -> bool, start: State, depth: int,
                                   visited: map<State, Option<State>>, k: nat, t: State)
    requires Ticks(succ) && start in visited && start.remaining == depth && k <= depth
    requires forall v :: v in visited ==> ClosedBy(succ, cut, visited, v)
    requires t in Reach(succ, start, k)
    ensures t in visited || Pruned(succ, cut, visited, t)
    decreases k
  {
    if k == 0 {
      assert t == start;
    } else {
      var earlier, p := ReachBack(succ, start, k, t);
      if earlier {
        Covered(succ, cut, start, depth, visited, k - 1, t);
      } else {
        Covered(succ, cut, start, depth, visited, k - 1, p);
        ReachTurns(succ, start, k, t);
        if p in visited {
          KnownStep(succ, cut, visited, p, t);
        } else {
          PrunedStep(succ, cut, visited, p, t);
        }
      }
    }
  }

  /** A successor of a known state is known, or lies below it when it was
      cut off. */
  lemma KnownStep(succ: State -> seq<State>, cut: State -> bool, visited: map<State, Option<State>>, p: State, t: State)
    requires Ticks(succ) && p in visited && ClosedBy(succ, cut, visited, p) && t in succ(p) && t.remaining >= 0
    ensures t in visited || Pruned(succ, cut, visited, t)
  {
    if cut(p) {
      ReachStep(succ, p, 0, p, t);
      ReachGrow(succ, p, 1, p.remaining, t);
    }
  }

  /** A successor, with turns left, of a state below a cut-off state lies
      below it too. */
  lemma PrunedStep(succ: State -> seq<State>, cut: State -> bool, visited: map<State, Option<State>>, p: State, t: State)
    requires Ticks(succ) && Pruned(succ, cut, visited, p) && t in succ(p) && t.remaining >= 0
    ensures Pruned(succ, cut, visited, t)
  {
    var d :| d in visited && d.remaining >= 0 && cut(d) && p in Reach(succ, d, d.remaining);
    BelowStep(succ, d, p, t);
  }

  /** Within the turns of `d`, the successor of a state below `d` is below
      `d` as long as it has turns left. */
  lemma BelowStep(succ: State -> seq<State>, d: State, p: State, t: State)
    requires Ticks(succ) && d.remaining >= 0 && p in Reach(succ, d, d.remaining) && t in succ(p) && t.remaining >= 0
    ensures t in Reach(succ, d, d.remaining)
  {
    ReachStep(succ, d, d.remaining, p, t);
    ReachWithin(succ, d, d.remaining + 1, d.remaining, t);
  }

  /** When the queue runs dry, no state reachable within `depth` turns has
      more geodes than the best count. */
  lemma Optimal(bp: seq<seq<int>>, depth: int, visited: map<State, Option<State>>, m: int, order: seq<State>, head: nat)
    requires ValidBlueprint(bp) && depth >= 0 && Searching(bp, depth, visited, m, [], order, head)
    ensures forall t :: t in Reach(Moves(bp), Start(depth), depth) ==> Geodes(t) <= m
  {
    var cut := d => Sound(d) && !CanBeBest(d, m);
    forall v | v in visited
      ensures Sound(v) && Geodes(v) <= m && ClosedBy(Moves(bp), cut, visited, v)
    {
      var i :| 0 <= i < |order| && order[i] == v;
      assert Closed(Moves(bp), visited, m, v);
    }
    MovesTick(bp);
    forall t | t in Reach(Moves(bp), Start(depth), depth)
      ensures Geodes(t) <= m
    {
      Covered(Moves(bp), cut, Start(depth), depth, visited, depth, t);
      if t !in visited {
        var d :| d in visited && d.remaining >= 0 && cut(d) && t in Reach(Moves(bp), d, d.remaining);
        PruneSound(bp, d, m, t);
      }
    }
  }

  /** The loop after the search that finds the start among the known
      states and writes its entry back unchanged. */
  method KeepRoot(visited: map<State, Option<State>>) returns (visited': map<State, Option<State>>)
    ensures visited' == visited
  {
    visited' := visited;
    var keys := visited.Keys;
    while keys != {}
      invariant visited' == visited && keys <= visited.Keys
      decreases keys
    {
      var k :| k in keys;
      if visited'[k] == None {
        visited' := visited'[k := visited'[k]];
        break;
      }
      keys := keys - {k};
    }
  }

  /** The breadth-first search from `depth` turns with one ore robot. It
      returns the known states with their parents and the best geode count
      it met: the most geodes of any state reachable within `depth` turns. */
  method GetTree(depth: int, bp: seq<seq<int>>) returns (visited: map<State, Option<State>>, maxGeodes: int, ghost order: seq<State>)
    requires depth >= 0 && ValidBlueprint(bp)
    ensures Rooted(Start(depth), visited) && Parented(Moves(bp), Start(depth), visited)
    ensures forall v :: v in visited ==> 0 <= v.remaining <= depth && v in Reach(Moves(bp), Start(depth), depth)
    ensures Distinct(order) && forall v :: v in visited <==> v in order
    ensures forall t :: t in Reach(Moves(bp), Start(depth), depth) ==> Geodes(t) <= maxGeodes
    ensures exists v :: v in visited && Geodes(v) == maxGeodes
  {
    var start := Start(depth);
    var queue := [start];
    visited := map[start := None];
    maxGeodes := 0;
    order := [start];
    ghost var head: nat := 0;
    assert start in Reach(Moves(bp), start, 0);
    while |queue| > 0
      invariant Searching(bp, depth, visited, maxGeodes, queue, order, head)
      decreases Reach(Moves(bp), start, depth) - visited.Keys, |queue|
    {
      ghost var added;
      visited, maxGeodes, queue, order, head, added := Expand(bp, depth, visited, maxGeodes, queue, order, head);
    }
    Optimal(bp, depth, visited, maxGeodes, order, head);
    WithinUniverse(bp, depth, visited);
    visited := KeepRoot(visited);
  }
}
