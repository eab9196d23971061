/**
 * The soccer preset (presets/soccer.py, class SoccerInteractor): teams with
 * a goal each, a score per team shown in the scene's score texts, robots
 * found by key prefix, a kick-off reset of robots and ball, the goal check
 * of every tick, and dragging the ball with the mouse.
 *
 * The scene is the loader's object map (key order plus bodies) and a map
 * from text-object keys to their text. Whether the ball lies in a goal, or
 * the pointer on the ball, is decided by the physics engine: both tests are
 * parameters here. Mouse positions arrive already in world coordinates.
 */
module Soccer {
  import opened Wrappers
  import opened Geometry
  import opened Keys
  import Interactor

  const BOTS_PER_TEAM := 1

  /** The key of the ball in the object map. */
  const BALL_KEY := "IR_BALL"

  /** Where resetPositions puts the ball. */
  const BALL_SPAWN := Vec(0, -18)

  /** Team names when the 'names' option is absent. */
  const DEFAULT_NAMES := ["Team 1", "Team 2"]

  /** The left mouse button, the only one that grabs and releases the ball. */
  const LEFT_BUTTON := 1

  /**
   * One entry of the 'goals' option: its 'position' entry (removed once
   * startUp has read it) and the rest of the options, which describe the
   * goal's shape.
   */
  datatype GoalSpec = GoalSpec(position: Option<Vec>, shape: string)

  /** The physics object startUp builds for a goal. */
  datatype GoalCollider = GoalCollider(position: Vec, shape: string)

  datatype SoccerError =
    | LengthMismatch                   // AssertionError: names, spawns and goals differ in length
    | MissingGoalPosition(team: nat)   // KeyError: goals[team] has no 'position' (any more)
    | MissingRobot(index: nat)         // ValueError: no key starts with Robot-index
    | ScoreIndexError                  // IndexError: team_scores[1 - i] is out of range

  /** A pygame event as far as handleEvent looks at it. */
  datatype MouseEvent =
    | MouseDown(button: int, pos: Vec)
    | MouseUp(button: int, pos: Vec)
    | MouseMotion(pos: Vec)
    | OtherEvent

  /** ball_grabbed, ball_rel_pos and ball_m_pos (None before the first grab). */
  datatype Grab = Grab(grabbed: bool, relPos: Option<Vec>, mousePos: Option<Vec>)

  /** f'name{x+1}Text': the text object showing team x's name. */
  function NameText(x: nat): string
  {
    "name" + Digits(x + 1) + "Text"
  }

  /** f'score{x+1}Text': the text object showing team x's score. */
  function ScoreText(x: nat): string
  {
    "score" + Digits(x + 1) + "Text"
  }

  /** Teams are numbered from 1 in the text keys: the number between prefix and "Text" reads back as x + 1. */
  lemma TextKeysReadBack(x: nat)
    ensures var n := NameText(x);
            |n| > 8 && n[..4] == "name" && n[|n| - 4..] == "Text" &&
            AllDigits(n[4..|n| - 4]) && ParseDigits(n[4..|n| - 4]) == x + 1
    ensures var s := ScoreText(x);
            |s| > 9 && s[..5] == "score" && s[|s| - 4..] == "Text" &&
            AllDigits(s[5..|s| - 4]) && ParseDigits(s[5..|s| - 4]) == x + 1
  {
    ParseDigitsRoundTrip(x + 1);
    var n, s := NameText(x), ScoreText(x);
    assert n[4..|n| - 4] == Digits(x + 1);
    assert s[5..|s| - 4] == Digits(x + 1);
  }

  /** Different teams have different score texts, and no score text is a name text. */
  lemma TextKeysDistinct(x: nat, y: nat)
    ensures ScoreText(x) == ScoreText(y) ==> x == y
    ensures NameText(x) == NameText(y) ==> x == y
    ensures NameText(x) != ScoreText(y)
  {
    var s, t := ScoreText(x), ScoreText(y);
    assert s[5..|s| - 4] == Digits(x + 1);
    assert t[5..|t| - 4] == Digits(y + 1);
    if s == t {
      DigitsInjective(x + 1, y + 1);
    }
    var u, v := NameText(x), NameText(y);
    assert u[4..|u| - 4] == Digits(x + 1);
    assert v[4..|v| - 4] == Digits(y + 1);
    if u == v {
      DigitsInjective(x + 1, y + 1);
    }
    assert u[0] != t[0];
  }

  /** The robot of team `team`, slot `slot`: robots[BOTS_PER_TEAM * team + slot]. */
  function RobotSlot(team: nat, slot: nat): nat
  {
    BOTS_PER_TEAM * team + slot
  }

  /** The robot index gives back its team by division and its slot by remainder. */
  lemma RobotSlotRecovers(team: nat, slot: nat)
    requires slot < BOTS_PER_TEAM
    ensures RobotSlot(team, slot) / BOTS_PER_TEAM == team && RobotSlot(team, slot) % BOTS_PER_TEAM == slot
  {
  }

  /** Slots never overlap: team and slot are recovered from the robot index. */
  lemma RobotSlotInjective(team: nat, slot: nat, team': nat, slot': nat)
    requires slot < BOTS_PER_TEAM && slot' < BOTS_PER_TEAM
    requires RobotSlot(team, slot) == RobotSlot(team', slot')
    ensures team == team' && slot == slot'
  {
  }

  /**
   * The robots startUp finds for slots 0 .. y-1 of a team, or the error of
   * the first slot without a key starting with Robot-k.
   */
  function TeamRoster(keys: seq<string>, team: nat, y: nat): (r: Result<seq<string>, SoccerError>)
    ensures r.Ok? ==> (|r.value| == y &&
                       forall s :: 0 <= s < y ==> FindRobot(keys, RobotSlot(team, s)) == Some(r.value[s]))
    ensures r.Err? ==> (exists s :: 0 <= s < y && r.error == MissingRobot(RobotSlot(team, s)) &&
                                    FindRobot(keys, RobotSlot(team, s)).None?)
  {
    if y == 0 then Ok([])
    else
      match TeamRoster(keys, team, y - 1)
      case Err(e) => Err(e)
      case Ok(rs) =>
        match FindRobot(keys, RobotSlot(team, y - 1))
        case None => Err(MissingRobot(RobotSlot(team, y - 1)))
        case Some(key) =>
          var r := rs + [key];
          assert forall s :: 0 <= s < y - 1 ==> r[s] == rs[s];
          Ok(r)
  }

  /**
   * What the team loop of startUp yields for teams 0 .. n-1: for each team
   * its goal must still have a position, then its robots are looked up.
   * The robot list in slot order, or the first error raised.
   */
  function Roster(goals: seq<GoalSpec>, keys: seq<string>, n: nat): (r: Result<seq<string>, SoccerError>)
    requires n <= |goals|
    ensures r.Ok? ==> |r.value| == BOTS_PER_TEAM * n && forall t :: 0 <= t < n ==> goals[t].position.Some?
  {
    if n == 0 then Ok([])
    else
      match Roster(goals, keys, n - 1)
      case Err(e) => Err(e)
      case Ok(rs) =>
        if goals[n - 1].position.None? then Err(MissingGoalPosition(n - 1))
        else
          match TeamRoster(keys, n - 1, BOTS_PER_TEAM)
          case Err(e) => Err(e)
          case Ok(ts) => Ok(rs + ts)
  }

  /** Robot slot (team, slot) holds the key chosen for Robot-(BOTS_PER_TEAM*team+slot). */
  lemma {:induction false} RosterSlots(goals: seq<GoalSpec>, keys: seq<string>, n: nat)
    requires n <= |goals| && Roster(goals, keys, n).Ok?
    ensures var rs := Roster(goals, keys, n).value;
            forall t, s :: 0 <= t < n && 0 <= s < BOTS_PER_TEAM ==>
              RobotSlot(t, s) < |rs| && FindRobot(keys, RobotSlot(t, s)) == Some(rs[RobotSlot(t, s)])
  {
    if n > 0 {
      RosterSlots(goals, keys, n - 1);
      var rs := Roster(goals, keys, n).value;
      var rs0 := Roster(goals, keys, n - 1).value;
      var ts := TeamRoster(keys, n - 1, BOTS_PER_TEAM).value;
      assert rs == rs0 + ts;
      forall t, s | 0 <= t < n && 0 <= s < BOTS_PER_TEAM
        ensures RobotSlot(t, s) < |rs| && FindRobot(keys, RobotSlot(t, s)) == Some(rs[RobotSlot(t, s)])
      {
        if t < n - 1 {
          assert rs[RobotSlot(t, s)] == rs0[RobotSlot(t, s)];
        } else {
          assert rs[RobotSlot(t, s)] == ts[s];
        }
      }
    }
  }

  /** Every goal with a position and a key for every robot index: startUp finds all robots. */
  lemma {:induction false} RosterComplete(goals: seq<GoalSpec>, keys: seq<string>, n: nat)
    requires n <= |goals|
    requires forall t :: 0 <= t < n ==> goals[t].position.Some?
    requires forall k :: 0 <= k < BOTS_PER_TEAM * n ==> FindRobot(keys, k).Some?
    ensures Roster(goals, keys, n).Ok?
  {
    if n > 0 {
      RosterComplete(goals, keys, n - 1);
      assert FindRobot(keys, RobotSlot(n - 1, 0)).Some?;
    }
  }

  /**
   * Failures name their cause: a goal without a position, or a robot index
   * below BOTS_PER_TEAM * n without a key.
   */
  lemma {:induction false} RosterErrors(goals: seq<GoalSpec>, keys: seq<string>, n: nat)
    requires n <= |goals| && Roster(goals, keys, n).Err?
    ensures var e := Roster(goals, keys, n).error;
            (e.MissingGoalPosition? && e.team < n && goals[e.team].position.None?) ||
            (e.MissingRobot? && e.index < BOTS_PER_TEAM * n && FindRobot(keys, e.index).None?)
  {
    if Roster(goals, keys, n - 1).Err? {
      RosterErrors(goals, keys, n - 1);
    }
  }

  /** Once a team fails, startUp stops: the outcome for more teams is the same error. */
  lemma {:induction false} RosterStopsAtError(goals: seq<GoalSpec>, keys: seq<string>, m: nat, n: nat)
    requires m <= n <= |goals| && Roster(goals, keys, m).Err?
    ensures Roster(goals, keys, n) == Roster(goals, keys, m)
    decreases n
  {
    if m < n {
      RosterStopsAtError(goals, keys, m, n - 1);
    }
  }

  /** One more team set up: its goal position is present and all its robots are found. */
  lemma RosterNext(goals: seq<GoalSpec>, keys: seq<string>, x: nat, rs: seq<string>, ts: seq<string>)
    requires x < |goals| && Roster(goals, keys, x) == Ok(rs)
    requires goals[x].position.Some? && TeamRoster(keys, x, BOTS_PER_TEAM) == Ok(ts)
    ensures Roster(goals, keys, x + 1) == Ok(rs + ts)
  {
  }

  /** A team whose goal lost its position, or one with a missing robot, is the error startUp raises. */
  lemma RosterFailsAt(goals: seq<GoalSpec>, keys: seq<string>, x: nat, n: nat)
    requires x < n <= |goals| && Roster(goals, keys, x).Ok?
    requires goals[x].position.None? || TeamRoster(keys, x, BOTS_PER_TEAM).Err?
    ensures Roster(goals, keys, n) ==
              if goals[x].position.None? then Err(MissingGoalPosition(x))
              else Err(TeamRoster(keys, x, BOTS_PER_TEAM).error)
  {
    RosterStopsAtError(goals, keys, x + 1, n);
  }

  /** The robot lookup of startUp for one index: the first shortest key starting with Robot-k. */
  method LocateRobot(keys: seq<string>, k: nat) returns (r: Option<string>)
    ensures r == FindRobot(keys, k)
  {
    var possible := MatchingKeys(keys, RobotPrefix(k));
    FindKeyIsFirstShortest(keys, RobotPrefix(k));
    if |possible| == 0 {
      return None;
    }
    possible := ShortestFirst(possible);
    return Some(possible[0]);
  }

  /**
   * possible_keys.sort(key=len) as far as startUp uses it: only element 0
   * is read, so the entry the stable sort puts first is moved to the front
   * and the others are left in their order, not sorted.
   */
  method ShortestFirst(ks: seq<string>) returns (r: seq<string>)
    requires |ks| > 0
    ensures |r| == |ks| && r[0] == ks[ShortestIndex(ks)]
    ensures multiset(r) == multiset(ks)
  {
    var i := ShortestIndex(ks);
    r := [ks[i]] + ks[..i] + ks[i + 1..];
    assert ks == ks[..i] + [ks[i]] + ks[i + 1..];
  }

  /** The inner loop of startUp: the robots of every slot of one team, in slot order. */
  method LocateTeam(keys: seq<string>, team: nat) returns (r: Result<seq<string>, SoccerError>)
    ensures r == TeamRoster(keys, team, BOTS_PER_TEAM)
  {
    var found: seq<string> := [];
    for y := 0 to BOTS_PER_TEAM
      invariant TeamRoster(keys, team, y) == Ok(found)
    {
      var key := LocateRobot(keys, RobotSlot(team, y));
      if key.None? {
        return Err(MissingRobot(RobotSlot(team, y)));
      }
      found := found + [key.value];
    }
    return Ok(found);
  }

  /** team_scores[1 - i] += 1 on Python list indexing; None is the IndexError. */
  function PyIndex(j: int, n: nat): (r: Option<nat>)
    ensures r.None? <==> j >= n || j + n < 0
    ensures r.Some? ==> r.value < n && (r.value == j || r.value == n + j)
  {
    if 0 <= j < n then Some(j)
    else if j < 0 && 0 <= j + n then Some(n + j)
    else None
  }

  /** The scores after a goal in net i: the team at index 1 - i gains a point. */
  function Credit(scores: seq<nat>, i: nat): (r: Option<seq<nat>>)
    ensures r.None? <==> PyIndex(1 - i, |scores|).None?
    ensures r.Some? ==> |r.value| == |scores|
    ensures r.Some? ==> forall j :: 0 <= j < |scores| ==>
              r.value[j] == if j == PyIndex(1 - i, |scores|).value then scores[j] + 1 else scores[j]
  {
    match PyIndex(1 - i, |scores|)
    case None => None
    case Some(j) => Some(scores[j := scores[j] + 1])
  }

  /** With two teams a goal in one net is a point for the other team and for no one else. */
  lemma CreditTwoTeams(scores: seq<nat>, i: nat)
    requires |scores| == 2 && i < 2
    ensures Credit(scores, i).Some?
    ensures Credit(scores, i).value[1 - i] == scores[1 - i] + 1
    ensures Credit(scores, i).value[i] == scores[i]
  {
  }

  /** One team only: a goal in its own net makes team_scores[1] raise IndexError. */
  lemma CreditOneTeam(scores: seq<nat>)
    requires |scores| == 1
    ensures Credit(scores, 0).None?
  {
  }

  /** Three teams: 1 - 2 == -1 indexes the last entry, so a goal in net 2 credits team 2 itself. */
  lemma CreditThreeTeams(scores: seq<nat>)
    requires |scores| == 3
    ensures Credit(scores, 2) == Some(scores[2 := scores[2] + 1])
  {
  }

  /** The first goal (in goal order) whose collider contains the ball's position. */
  function FirstGoal(goals: seq<GoalCollider>, ball: Vec, contains: (GoalCollider, Vec) -> bool)
    : (r: Option<nat>)
    ensures r.None? ==> forall i :: 0 <= i < |goals| ==> !contains(goals[i], ball)
    ensures r.Some? ==> (r.value < |goals| && contains(goals[r.value], ball) &&
                         forall i :: 0 <= i < r.value ==> !contains(goals[i], ball))
  {
    if goals == [] then None
    else if contains(goals[0], ball) then Some(0)
    else
      match FirstGoal(goals[1..], ball, contains)
      case None => None
      case Some(i) => Some(i + 1)
  }

  /** The three grab fields stay consistent: while grabbed, both offsets are set. */
  predicate GrabValid(g: Grab)
  {
    g.grabbed ==> g.relPos.Some? && g.mousePos.Some?
  }

  /**
   * handleEvent on the grab fields: a left click on the ball grabs it and
   * remembers the ball's offset from the pointer; moving the mouse while
   * grabbed records the new pointer position; releasing the left button
   * while grabbed lets go.
   */
  function GrabStep(g: Grab, e: MouseEvent, ball: Vec, hitsBall: (Vec, Vec) -> bool): (r: Grab)
    ensures r.grabbed <==> (e.MouseDown? && e.button == LEFT_BUTTON && hitsBall(ball, e.pos)) ||
                           (g.grabbed && !(e.MouseUp? && e.button == LEFT_BUTTON))
    ensures GrabValid(g) ==> GrabValid(r)
    ensures e.MouseDown? && e.button == LEFT_BUTTON && hitsBall(ball, e.pos) ==>
              r.relPos == Some(Sub(ball, e.pos)) && r.mousePos == Some(e.pos)
    ensures e.MouseMotion? && g.grabbed ==> r.relPos == g.relPos && r.mousePos == Some(e.pos)
    ensures !(e.MouseDown? && e.button == LEFT_BUTTON && hitsBall(ball, e.pos)) && !(e.MouseMotion? && g.grabbed) ==>
              r.relPos == g.relPos && r.mousePos == g.mousePos
  {
    match e
    case MouseDown(button, pos) =>
      if button == LEFT_BUTTON && hitsBall(ball, pos) then Grab(true, Some(Sub(ball, pos)), Some(pos)) else g
    case MouseUp(button, _) =>
      if button == LEFT_BUTTON && g.grabbed then g.(grabbed := false) else g
    case MouseMotion(pos) =>
      if g.grabbed then g.(mousePos := Some(pos)) else g
    case OtherEvent => g
  }

  /** Where a grabbed ball is put on each tick: ball_rel_pos + ball_m_pos. */
  function HeldAt(g: Grab): (p: Vec)
    requires GrabValid(g) && g.grabbed
    ensures Sub(p, g.mousePos.value) == g.relPos.value
  {
    Add(g.relPos.value, g.mousePos.value)
  }

  /** Grabbing does not move the ball: right after the click it is held where it lay. */
  lemma GrabDoesNotJump(g: Grab, pos: Vec, ball: Vec, hitsBall: (Vec, Vec) -> bool)
    requires hitsBall(ball, pos)
    ensures var r := GrabStep(g, MouseDown(LEFT_BUTTON, pos), ball, hitsBall);
            r.grabbed && GrabValid(r) && HeldAt(r) == ball
  {
  }

  /** Dragging: a held ball moves by exactly the pointer's displacement. */
  lemma DragFollowsPointer(g: Grab, pos: Vec, ball: Vec, hitsBall: (Vec, Vec) -> bool)
    requires GrabValid(g) && g.grabbed
    ensures var r := GrabStep(g, MouseMotion(pos), ball, hitsBall);
            r.grabbed && GrabValid(r) && HeldAt(r) == Add(HeldAt(g), Sub(pos, g.mousePos.value))
  {
  }

  /** Grab at p0, then move the pointer to p: the ball is held at its old position moved by p - p0. */
  lemma DragFromGrab(g: Grab, p0: Vec, p: Vec, ball: Vec, hitsBall: (Vec, Vec) -> bool)
    requires hitsBall(ball, p0)
    ensures var r := GrabStep(GrabStep(g, MouseDown(LEFT_BUTTON, p0), ball, hitsBall), MouseMotion(p), ball, hitsBall);
            r.grabbed && GrabValid(r) && HeldAt(r) == Add(ball, Sub(p, p0))
  {
  }

  /** Only a left-button release lets go; clicks elsewhere and other buttons keep the state. */
  lemma ReleaseOnlyByLeftButton(g: Grab, e: MouseEvent, ball: Vec, hitsBall: (Vec, Vec) -> bool)
    ensures var r := GrabStep(g, e, ball, hitsBall);
            (g.grabbed && !r.grabbed) <==> (g.grabbed && e.MouseUp? && e.button == LEFT_BUTTON)
  {
  }

  /** Every team lists a spawn for each of its robot slots. */
  predicate SpawnsCover(spawns: seq<seq<Spawn>>)
  {
    forall t :: 0 <= t < |spawns| ==> |spawns[t]| >= BOTS_PER_TEAM
  }

  /** The spawn of robot index i: spawns[team][slot] for i == RobotSlot(team, slot). */
  function SlotSpawn(spawns: seq<seq<Spawn>>, i: nat): Spawn
    requires SpawnsCover(spawns) && i < BOTS_PER_TEAM * |spawns|
  {
    spawns[i / BOTS_PER_TEAM][i % BOTS_PER_TEAM]
  }

  /** Slot indices of the first n teams stay below BOTS_PER_TEAM * n, and follow on team by team. */
  lemma SlotBounds(team: nat, index: nat, n: nat)
    requires team < n && index <= BOTS_PER_TEAM
    ensures RobotSlot(team, index) <= BOTS_PER_TEAM * n
    ensures index < BOTS_PER_TEAM ==> RobotSlot(team, index) < BOTS_PER_TEAM * n
    ensures RobotSlot(team, 0) == BOTS_PER_TEAM * team
    ensures RobotSlot(team, BOTS_PER_TEAM) == BOTS_PER_TEAM * (team + 1)
  {
  }

  lemma SlotSpawnAt(spawns: seq<seq<Spawn>>, team: nat, index: nat)
    requires SpawnsCover(spawns) && team < |spawns| && index < BOTS_PER_TEAM
    ensures RobotSlot(team, index) < BOTS_PER_TEAM * |spawns|
    ensures SlotSpawn(spawns, RobotSlot(team, index)) == spawns[team][index]
  {
  }

  /** A robot put on its spawn: position and heading set, linear velocity zeroed. */
  function ResetBody(b: Body, s: Spawn): Body
  {
    b.(position := s.position, angleDegrees := s.rotationDegrees, velocity := Zero)
  }

  /** The ball put back on the centre spot at rest. */
  function BallAtSpawn(b: Body): Body
  {
    b.(position := BALL_SPAWN, velocity := Zero)
  }

  /** The bodies after the first m robot slots have been put on their spawns, in slot order. */
  function Placed(bodies: map<string, Body>, robots: seq<string>, spawns: seq<seq<Spawn>>, m: nat)
    : (r: map<string, Body>)
    requires m <= |robots| && m <= BOTS_PER_TEAM * |spawns| && SpawnsCover(spawns)
    requires forall i :: 0 <= i < m ==> robots[i] in bodies
    ensures r.Keys == bodies.Keys
  {
    if m == 0 then bodies
    else
      var r := Placed(bodies, robots, spawns, m - 1);
      r[robots[m - 1] := ResetBody(r[robots[m - 1]], SlotSpawn(spawns, m - 1))]
  }

  /**
   * Each robot ends on the spawn of its last slot (a later slot that names
   * the same object wins) with its angular velocity kept; everything else
   * is untouched.
   */
  lemma {:induction false} PlacedBodies(bodies: map<string, Body>, robots: seq<string>, spawns: seq<seq<Spawn>>, m: nat)
    requires m <= |robots| && m <= BOTS_PER_TEAM * |spawns| && SpawnsCover(spawns)
    requires forall i :: 0 <= i < m ==> robots[i] in bodies
    ensures forall k :: k in bodies ==>
              Placed(bodies, robots, spawns, m)[k] ==
                if k in robots[..m] then ResetBody(bodies[k], SlotSpawn(spawns, LastIndexOf(robots[..m], k)))
                else bodies[k]
  {
    if m > 0 {
      PlacedBodies(bodies, robots, spawns, m - 1);
      var front, last := robots[..m - 1], robots[m - 1];
      var prev := Placed(bodies, robots, spawns, m - 1);
      assert robots[..m] == front + [last];
      assert Placed(bodies, robots, spawns, m) == prev[last := ResetBody(prev[last], SlotSpawn(spawns, m - 1))];
      forall k | k in bodies
        ensures Placed(bodies, robots, spawns, m)[k] ==
                  if k in robots[..m] then ResetBody(bodies[k], SlotSpawn(spawns, LastIndexOf(robots[..m], k)))
                  else bodies[k]
      {
        if k == last {
          LastIndexOfSnoc(front, last, k);
          assert k in robots[..m];
        } else if k in front {
          LastIndexOfSnoc(front, last, k);
          assert k in robots[..m];
        } else {
          assert k !in robots[..m];
        }
      }
    }
  }

  /** resetPositions on the bodies of n teams: every robot slot, then the ball. */
  function ResetAll(bodies: map<string, Body>, robots: seq<string>, spawns: seq<seq<Spawn>>, n: nat)
    : (r: map<string, Body>)
    requires n <= |spawns| && BOTS_PER_TEAM * n <= |robots| && SpawnsCover(spawns)
    requires forall i :: 0 <= i < BOTS_PER_TEAM * n ==> robots[i] in bodies
    requires BALL_KEY in bodies
    ensures r.Keys == bodies.Keys
    ensures r[BALL_KEY].position == BALL_SPAWN && r[BALL_KEY].velocity == Zero
  {
    var placed := Placed(bodies, robots, spawns, BOTS_PER_TEAM * n);
    placed[BALL_KEY := BallAtSpawn(placed[BALL_KEY])]
  }

  /**
   * After a reset the ball is on the centre spot at rest and, when no two
   * slots name the same object, the robot of team t, slot s stands on
   * spawns[t][s] with zero velocity.
   */
  lemma ResetAllPlaces(bodies: map<string, Body>, robots: seq<string>, spawns: seq<seq<Spawn>>, n: nat,
                       t: nat, s: nat)
    requires n <= |spawns| && BOTS_PER_TEAM * n <= |robots| && SpawnsCover(spawns)
    requires forall i :: 0 <= i < BOTS_PER_TEAM * n ==> robots[i] in bodies
    requires BALL_KEY in bodies
    requires forall i, j :: 0 <= i < j < BOTS_PER_TEAM * n ==> robots[i] != robots[j]
    requires t < n && s < BOTS_PER_TEAM && robots[RobotSlot(t, s)] != BALL_KEY
    ensures var r := ResetAll(bodies, robots, spawns, n);
            r[BALL_KEY].position == BALL_SPAWN && r[BALL_KEY].velocity == Zero &&
            r[robots[RobotSlot(t, s)]].position == spawns[t][s].position &&
            r[robots[RobotSlot(t, s)]].angleDegrees == spawns[t][s].rotationDegrees &&
            r[robots[RobotSlot(t, s)]].velocity == Zero
  {
    var m := BOTS_PER_TEAM * n;
    var i := RobotSlot(t, s);
    PlacedBodies(bodies, robots, spawns, m);
    LastIndexOfDistinct(robots[..m], i);
    assert robots[..m][i] == robots[i];
  }

  /** The texts once the names of teams 0 .. x-1 are shown, team by team. */
  function NamesShown(texts: map<string, string>, names: seq<string>, x: nat): (r: map<string, string>)
    requires x <= |names|
    ensures texts.Keys <= r.Keys
  {
    if x == 0 then texts else NamesShown(texts, names, x - 1)[NameText(x - 1) := names[x - 1]]
  }

  /** Name text t shows names[t]; every other text is untouched. */
  lemma {:induction false} NamesShownSpec(texts: map<string, string>, names: seq<string>, x: nat)
    requires x <= |names|
    ensures forall t :: 0 <= t < x ==>
              NameText(t) in NamesShown(texts, names, x) && NamesShown(texts, names, x)[NameText(t)] == names[t]
    ensures forall k :: k in texts && (forall t :: 0 <= t < x ==> k != NameText(t)) ==>
              NamesShown(texts, names, x)[k] == texts[k]
  {
    if x > 0 {
      NamesShownSpec(texts, names, x - 1);
      forall t | 0 <= t < x - 1 {
        TextKeysDistinct(t, x - 1);
      }
    }
  }

  /** updateScoreText on the texts: score texts 0 .. n-1 set to the scores, in order. */
  function WithScores(texts: map<string, string>, scores: seq<nat>, n: nat): (r: map<string, string>)
    requires n <= |scores|
    ensures texts.Keys <= r.Keys
  {
    if n == 0 then texts else WithScores(texts, scores, n - 1)[ScoreText(n - 1) := Digits(scores[n - 1])]
  }

  /** With every name text already in the scene, showing the names adds no text object. */
  lemma {:induction false} NamesShownKeys(texts: map<string, string>, names: seq<string>, x: nat)
    requires x <= |names| && forall t :: 0 <= t < x ==> NameText(t) in texts
    ensures NamesShown(texts, names, x).Keys == texts.Keys
  {
    if x > 0 {
      NamesShownKeys(texts, names, x - 1);
    }
  }

  /** With every score text already in the scene, updating the scores adds no text object. */
  lemma {:induction false} WithScoresKeys(texts: map<string, string>, scores: seq<nat>, n: nat)
    requires n <= |scores| && forall x :: 0 <= x < n ==> ScoreText(x) in texts
    ensures WithScores(texts, scores, n).Keys == texts.Keys
  {
    if n > 0 {
      WithScoresKeys(texts, scores, n - 1);
    }
  }

  /** Score text x shows str(scores[x]). */
  lemma {:induction false} WithScoresAt(texts: map<string, string>, scores: seq<nat>, n: nat)
    requires n <= |scores|
    ensures forall x :: 0 <= x < n ==>
              ScoreText(x) in WithScores(texts, scores, n) && WithScores(texts, scores, n)[ScoreText(x)] == Digits(scores[x])
  {
    if n > 0 {
      WithScoresAt(texts, scores, n - 1);
      var prev := WithScores(texts, scores, n - 1);
      assert WithScores(texts, scores, n) == prev[ScoreText(n - 1) := Digits(scores[n - 1])];
      forall x | 0 <= x < n - 1
        ensures ScoreText(x) in WithScores(texts, scores, n) && WithScores(texts, scores, n)[ScoreText(x)] == Digits(scores[x])
      {
        TextKeysDistinct(x, n - 1);
        assert ScoreText(x) in prev && prev[ScoreText(x)] == Digits(scores[x]);
      }
    }
  }

  /** Every text other than the score texts 0 .. n-1 is untouched. */
  lemma {:induction false} WithScoresElsewhere(texts: map<string, string>, scores: seq<nat>, n: nat, k: string)
    requires n <= |scores|
    requires k in texts && forall x :: 0 <= x < n ==> k != ScoreText(x)
    ensures WithScores(texts, scores, n)[k] == texts[k]
  {
    if n > 0 {
      WithScoresElsewhere(texts, scores, n - 1, k);
    }
  }

  /**
   * Score text x shows str(scores[x]) and reads back as scores[x]; the
   * name texts are untouched.
   */
  lemma WithScoresSpec(texts: map<string, string>, scores: seq<nat>, n: nat)
    requires n <= |scores|
    ensures forall x :: 0 <= x < n ==>
              ScoreText(x) in WithScores(texts, scores, n) &&
              WithScores(texts, scores, n)[ScoreText(x)] == Digits(scores[x]) &&
              ParseDigits(WithScores(texts, scores, n)[ScoreText(x)]) == scores[x]
    ensures forall t :: NameText(t) in texts ==> WithScores(texts, scores, n)[NameText(t)] == texts[NameText(t)]
  {
    WithScoresAt(texts, scores, n);
    forall x | 0 <= x < n {
      ParseDigitsRoundTrip(scores[x]);
    }
    forall t | NameText(t) in texts
      ensures WithScores(texts, scores, n)[NameText(t)] == texts[NameText(t)]
    {
      forall x | 0 <= x < n {
        TextKeysDistinct(t, x);
      }
      WithScoresElsewhere(texts, scores, n, NameText(t));
    }
  }

  /** The scores startUp gives n teams: team_scores.append(0), team by team. */
  function Zeros(n: nat): (r: seq<nat>)
    ensures |r| == n && forall i :: 0 <= i < n ==> r[i] == 0
  {
    if n == 0 then [] else Zeros(n - 1) + [0]
  }

  /** The goal options once startUp has deleted the positions of goals 0 .. x-1. */
  function Consumed(goals: seq<GoalSpec>, x: nat): (r: seq<GoalSpec>)
    requires x <= |goals|
    ensures |r| == |goals|
  {
    if x == 0 then goals else Consumed(goals, x - 1)[x - 1 := goals[x - 1].(position := None)]
  }

  /** Goals 0 .. x-1 have lost their position and nothing else; the rest are as given. */
  lemma {:induction false} ConsumedSpec(goals: seq<GoalSpec>, x: nat)
    requires x <= |goals|
    ensures forall t :: 0 <= t < |goals| ==>
              Consumed(goals, x)[t] == if t < x then goals[t].(position := None) else goals[t]
  {
    if x > 0 {
      ConsumedSpec(goals, x - 1);
    }
  }

  /** The goal colliders of goals 0 .. x-1, each at the position its options gave. */
  function Colliders(goals: seq<GoalSpec>, x: nat): (r: seq<GoalCollider>)
    requires x <= |goals| && forall t :: 0 <= t < x ==> goals[t].position.Some?
    ensures |r| == x
  {
    if x == 0 then []
    else Colliders(goals, x - 1) + [GoalCollider(goals[x - 1].position.value, goals[x - 1].shape)]
  }

  /** Collider t sits where goals[t] said, with the shape goals[t] described. */
  lemma {:induction false} CollidersSpec(goals: seq<GoalSpec>, x: nat)
    requires x <= |goals| && forall t :: 0 <= t < x ==> goals[t].position.Some?
    ensures forall t :: 0 <= t < x ==>
              Colliders(goals, x)[t].position == goals[t].position.value &&
              Colliders(goals, x)[t].shape == goals[t].shape
  {
    if x > 0 {
      CollidersSpec(goals, x - 1);
    }
  }

  class SoccerInteractor {
    const names: seq<string>
    /** The 'spawns' option: per team, per slot, [position, rotation in degrees]. */
    const spawns: seq<seq<Spawn>>
    var goals: seq<GoalSpec>
    /** The loader's object map: keys in insertion order and the body behind each key. */
    const objectKeys: seq<string>
    var bodies: map<string, Body>
    /** The scene's text objects, by key. */
    var texts: map<string, string>
    var goalColliders: seq<GoalCollider>
    var teamScores: seq<nat>
    /** The robots found by startUp, by their object-map keys, in slot order. */
    var robots: seq<string>
    var ballGrabbed: bool
    var ballRelPos: Option<Vec>
    var ballMPos: Option<Vec>
    /** Whether the ball is registered with the physics world. */
    var ballInWorld: bool

    function GrabState(): Grab
      reads this
    {
      Grab(ballGrabbed, ballRelPos, ballMPos)
    }

    /**
     * What the scene has to provide: the ball, a body for every key, a name
     * and a score text for each team, and a spawn for every slot of a team.
     */
    ghost predicate Scene()
      reads this
    {
      BALL_KEY in bodies &&
      (forall k :: k in objectKeys ==> k in bodies) &&
      (forall x :: 0 <= x < |names| ==> NameText(x) in texts && ScoreText(x) in texts) &&
      SpawnsCover(spawns)
    }

    /** The state a successful startUp leaves behind. */
    ghost predicate Ready()
      reads this
    {
      Scene() &&
      |spawns| == |names| && |goalColliders| == |names| && |teamScores| == |names| &&
      |robots| == BOTS_PER_TEAM * |names| &&
      (forall i :: 0 <= i < |robots| ==> robots[i] in bodies)
    }

    /** __init__: 'names' defaults to two teams; the ball starts free and in the world. */
    constructor (names: Option<seq<string>>, spawns: seq<seq<Spawn>>, goals: seq<GoalSpec>,
                 objectKeys: seq<string>, bodies: map<string, Body>, texts: map<string, string>)
      ensures this.names == if names.Some? then names.value else DEFAULT_NAMES
      ensures this.spawns == spawns && this.goals == goals && this.objectKeys == objectKeys
      ensures this.bodies == bodies && this.texts == texts
      ensures GrabState() == Grab(false, None, None) && ballInWorld
      ensures goalColliders == [] && teamScores == [] && robots == []
    {
      this.names := if names.Some? then names.value else DEFAULT_NAMES;
      this.spawns := spawns;
      this.goals := goals;
      this.objectKeys := objectKeys;
      this.bodies := bodies;
      this.texts := texts;
      goalColliders := [];
      teamScores := [];
      robots := [];
      ballGrabbed := false;
      ballRelPos := None;
      ballMPos := None;
      ballInWorld := true;
    }

    /** updateScoreText: score text x shows str(team_scores[x]), team by team. */
    method UpdateScoreText()
      requires |names| <= |teamScores|
      requires forall x :: 0 <= x < |names| ==> ScoreText(x) in texts
      modifies this`texts
      ensures texts == WithScores(old(texts), teamScores, |names|)
    {
      for x := 0 to |names|
        invariant texts == WithScores(old(texts), teamScores, x)
      {
        texts := texts[ScoreText(x) := Digits(teamScores[x])];
      }
    }

    /**
     * resetPositions: robot slot (team, index) goes to spawns[team][index]
     * with zero velocity, team by team, then the ball to the centre spot.
     */
    method ResetPositions()
      requires |names| <= |spawns| && SpawnsCover(spawns)
      requires BOTS_PER_TEAM * |names| <= |robots|
      requires forall i :: 0 <= i < BOTS_PER_TEAM * |names| ==> robots[i] in bodies
      requires BALL_KEY in bodies
      modifies this`bodies
      ensures bodies == ResetAll(old(bodies), robots, spawns, |names|)
    {
      ghost var b0 := bodies;
      for team := 0 to |names|
        invariant bodies == Placed(b0, robots, spawns, BOTS_PER_TEAM * team)
      {
        ResetTeam(b0, team);
      }
      bodies := bodies[BALL_KEY := BallAtSpawn(bodies[BALL_KEY])];
    }

    /** The inner loop of resetPositions: the robots of one team put on their spawns, slot by slot. */
    method ResetTeam(ghost b0: map<string, Body>, team: nat)
      requires team < |names| <= |spawns| && SpawnsCover(spawns)
      requires BOTS_PER_TEAM * |names| <= |robots|
      requires forall i :: 0 <= i < BOTS_PER_TEAM * |names| ==> robots[i] in b0
      requires bodies == Placed(b0, robots, spawns, BOTS_PER_TEAM * team)
      modifies this`bodies
      ensures bodies == Placed(b0, robots, spawns, BOTS_PER_TEAM * (team + 1))
    {
      SlotBounds(team, 0, |names|);
      for index := 0 to BOTS_PER_TEAM
        invariant bodies == Placed(b0, robots, spawns, RobotSlot(team, index))
      {
        var i := RobotSlot(team, index);
        SlotBounds(team, index, |names|);
        SlotSpawnAt(spawns, team, index);
        var robot := robots[i];
        bodies := bodies[robot := ResetBody(bodies[robot], spawns[team][index])];
      }
      SlotBounds(team, BOTS_PER_TEAM, |names|);
    }

    /**
     * One round of the team loop of startUp for team x: the goal's position
     * is taken out of its options and becomes a goal collider, the team
     * starts at 0 and has its name shown, and its robots are looked up.
     */
    method SetUpTeam(x: nat) returns (team: Result<seq<string>, SoccerError>)
      requires x < |goals| && x < |names| && NameText(x) in texts
      modifies this`goals, this`goalColliders, this`teamScores, this`texts
      ensures old(goals)[x].position.None? ==>
                team == Err(MissingGoalPosition(x)) && goals == old(goals) &&
                goalColliders == old(goalColliders) && teamScores == old(teamScores) && texts == old(texts)
      ensures old(goals)[x].position.Some? ==>
                team == TeamRoster(objectKeys, x, BOTS_PER_TEAM) &&
                goals == old(goals)[x := old(goals)[x].(position := None)] &&
                goalColliders == old(goalColliders) + [GoalCollider(old(goals)[x].position.value, old(goals)[x].shape)] &&
                teamScores == old(teamScores) + [0] &&
                texts == old(texts)[NameText(x) := names[x]]
    {
      var spec := goals[x];
      if spec.position.None? {
        return Err(MissingGoalPosition(x));
      }
      goals := goals[x := spec.(position := None)];
      goalColliders := goalColliders + [GoalCollider(spec.position.value, spec.shape)];
      teamScores := teamScores + [0];
      texts := texts[NameText(x) := names[x]];
      team := LocateTeam(objectKeys, x);
    }

    /**
     * The state of startUp after the teams 0 .. x-1 of the team loop, from
     * the goal options goals0 and the texts texts0 it started with.
     */
    ghost predicate SetUpAfter(goals0: seq<GoalSpec>, texts0: map<string, string>, x: nat)
      reads this
    {
      x <= |goals0| && x <= |names| &&
      Roster(goals0, objectKeys, x) == Ok(robots) &&
      goals == Consumed(goals0, x) &&
      goalColliders == Colliders(goals0, x) &&
      teamScores == Zeros(x) &&
      texts == NamesShown(texts0, names, x)
    }

    /** One round of the team loop, with its robots appended to self.robots. */
    method SetUpNext(x: nat, ghost goals0: seq<GoalSpec>, ghost texts0: map<string, string>)
      returns (team: Result<seq<string>, SoccerError>)
      requires SetUpAfter(goals0, texts0, x) && x < |names| == |goals0| && NameText(x) in texts0
      modifies this`goals, this`goalColliders, this`teamScores, this`texts, this`robots
      ensures team.Ok? ==> SetUpAfter(goals0, texts0, x + 1)
      ensures team.Err? ==> Roster(goals0, objectKeys, |names|) == Err(team.error)
    {
      ConsumedSpec(goals0, x);
      team := SetUpTeam(x);
      if team.Err? {
        RosterFailsAt(goals0, objectKeys, x, |names|);
        return;
      }
      RosterNext(goals0, objectKeys, x, robots, team.value);
      robots := robots + team.value;
      assert Roster(goals0, objectKeys, x + 1) == Ok(robots);
      assert goals == Consumed(goals0, x + 1);
      assert goalColliders == Colliders(goals0, x + 1);
      assert teamScores == Zeros(x + 1);
      assert texts == NamesShown(texts0, names, x + 1);
    }

    /**
     * The team loop of startUp, team by team; the first error stops it
     * with the teams before it already set up.
     */
    method SetUpTeams() returns (outcome: Outcome<SoccerError>)
      requires |goals| == |names| && forall x :: 0 <= x < |names| ==> NameText(x) in texts
      modifies this`goals, this`goalColliders, this`teamScores, this`texts, this`robots
      ensures outcome == if Roster(old(goals), objectKeys, |names|).Ok? then Pass
                         else Fail(Roster(old(goals), objectKeys, |names|).error)
      ensures outcome.Pass? ==> SetUpAfter(old(goals), old(texts), |names|)
    {
      ghost var goals0, texts0 := goals, texts;
      goalColliders := [];
      teamScores := [];
      robots := [];
      for x := 0 to |names|
        invariant SetUpAfter(goals0, texts0, x)
      {
        var team := SetUpNext(x, goals0, texts0);
        if team.Err? {
          return Fail(team.error);
        }
      }
      outcome := Pass;
    }

    /**
     * startUp: names, spawns and goals must have the same length; then the
     * teams are set up, the scores shown and everything put on its spawn.
     */
    method StartUp() returns (outcome: Outcome<SoccerError>)
      requires Scene()
      modifies this`goals, this`goalColliders, this`teamScores, this`texts, this`robots, this`bodies
      ensures !(|names| == |spawns| == |old(goals)|) ==>
                outcome == Fail(LengthMismatch) && goals == old(goals) && texts == old(texts)
      ensures |names| == |spawns| == |old(goals)| ==>
                outcome == if Roster(old(goals), objectKeys, |names|).Ok? then Pass
                           else Fail(Roster(old(goals), objectKeys, |names|).error)
      ensures outcome.Fail? ==> bodies == old(bodies)
      ensures outcome.Pass? ==> Ready()
      ensures outcome.Pass? ==> robots == Roster(old(goals), objectKeys, |names|).value
      ensures outcome.Pass? ==> goals == Consumed(old(goals), |names|)
      ensures outcome.Pass? ==> goalColliders == Colliders(old(goals), |names|)
      ensures outcome.Pass? ==> teamScores == Zeros(|names|)
      ensures outcome.Pass? ==> texts == WithScores(NamesShown(old(texts), names, |names|), teamScores, |names|)
      ensures outcome.Pass? ==> forall i :: 0 <= i < |robots| ==> robots[i] in objectKeys
      ensures outcome.Pass? ==> bodies == ResetAll(old(bodies), robots, spawns, |names|)
    {
      if !(|names| == |spawns| && |spawns| == |goals|) {
        return Fail(LengthMismatch);
      }
      outcome := SetUpTeams();
      if outcome.Fail? {
        return;
      }
      LocatedRobotsAreKeys(old(goals), objectKeys, |names|);
      UpdateScoreText();
      ResetPositions();
    }

    /**
     * goalScoredIn: team_scores[1 - i] gains a point (an IndexError, with
     * nothing changed, when 1 - i is out of range), the scores are shown
     * again and robots and ball go back to their spawns.
     */
    method GoalScoredIn(teamIndex: nat) returns (outcome: Outcome<SoccerError>)
      requires Ready()
      modifies this`teamScores, this`texts, this`bodies
      ensures Ready()
      ensures Credit(old(teamScores), teamIndex).None? ==>
                outcome == Fail(ScoreIndexError) && teamScores == old(teamScores) &&
                texts == old(texts) && bodies == old(bodies)
      ensures Credit(old(teamScores), teamIndex).Some? ==>
                outcome == Pass && teamScores == Credit(old(teamScores), teamIndex).value &&
                texts == WithScores(old(texts), teamScores, |names|) &&
                bodies == ResetAll(old(bodies), robots, spawns, |names|)
    {
      var j := PyIndex(1 - teamIndex, |teamScores|);
      if j.None? {
        return Fail(ScoreIndexError);
      }
      teamScores := teamScores[j.value := teamScores[j.value] + 1];
      UpdateScoreText();
      ResetPositions();
      outcome := Pass;
    }

    /**
     * tick: the ball's position is tested against the goals in order and
     * only the first goal containing it counts; then a grabbed ball is put
     * where the pointer holds it.
     */
    method Tick(tick: int, contains: (GoalCollider, Vec) -> bool) returns (outcome: Outcome<SoccerError>)
      requires Ready() && GrabValid(GrabState())
      modifies this`teamScores, this`texts, this`bodies
      ensures Ready()
      ensures var g := FirstGoal(old(goalColliders), old(bodies)[BALL_KEY].position, contains);
              (g.None? ==> outcome == Pass && teamScores == old(teamScores) && texts == old(texts)) &&
              (g.Some? && Credit(old(teamScores), g.value).None? ==>
                 outcome == Fail(ScoreIndexError) && teamScores == old(teamScores) &&
                 texts == old(texts) && bodies == old(bodies)) &&
              (g.Some? && Credit(old(teamScores), g.value).Some? ==>
                 outcome == Pass && teamScores == Credit(old(teamScores), g.value).value &&
                 texts == WithScores(old(texts), teamScores, |names|))
      ensures outcome.Pass? ==>
                var g := FirstGoal(old(goalColliders), old(bodies)[BALL_KEY].position, contains);
                var b := if g.Some? then ResetAll(old(bodies), robots, spawns, |names|) else old(bodies);
                bodies == if ballGrabbed then b[BALL_KEY := b[BALL_KEY].(position := HeldAt(GrabState()))] else b
    {
      var _ := Interactor.DefaultTick(tick);
      outcome := ScoreGoal(contains);
      if outcome.Pass? {
        HoldBall();
      }
    }

    /** The goal part of tick: a goal in the first goal containing the ball is scored, and the loop breaks. */
    method ScoreGoal(contains: (GoalCollider, Vec) -> bool) returns (outcome: Outcome<SoccerError>)
      requires Ready()
      modifies this`teamScores, this`texts, this`bodies
      ensures Ready()
      ensures var g := FirstGoal(old(goalColliders), old(bodies)[BALL_KEY].position, contains);
              (g.None? ==> outcome == Pass && teamScores == old(teamScores) && texts == old(texts) && bodies == old(bodies)) &&
              (g.Some? && Credit(old(teamScores), g.value).None? ==>
                 outcome == Fail(ScoreIndexError) && teamScores == old(teamScores) &&
                 texts == old(texts) && bodies == old(bodies)) &&
              (g.Some? && Credit(old(teamScores), g.value).Some? ==>
                 outcome == Pass && teamScores == Credit(old(teamScores), g.value).value &&
                 texts == WithScores(old(texts), teamScores, |names|) &&
                 bodies == ResetAll(old(bodies), robots, spawns, |names|))
    {
      var goal := ScanGoals(bodies[BALL_KEY].position, contains);
      outcome := Pass;
      if goal.Some? {
        outcome := GoalScoredIn(goal.value);
      }
    }

    /** The end of tick: a grabbed ball is put where the pointer holds it. */
    method HoldBall()
      requires Ready() && GrabValid(GrabState())
      modifies this`bodies
      ensures Ready()
      ensures bodies == if ballGrabbed then old(bodies)[BALL_KEY := old(bodies)[BALL_KEY].(position := HeldAt(GrabState()))]
                        else old(bodies)
    {
      if ballGrabbed {
        bodies := bodies[BALL_KEY := bodies[BALL_KEY].(position := Add(ballRelPos.value, ballMPos.value))];
      }
    }

    /** The goal loop of tick: the first goal collider containing the ball, where the loop breaks. */
    method ScanGoals(ball: Vec, contains: (GoalCollider, Vec) -> bool) returns (goal: Option<nat>)
      ensures goal == FirstGoal(goalColliders, ball, contains)
    {
      for i := 0 to |goalColliders|
        invariant forall j :: 0 <= j < i ==> !contains(goalColliders[j], ball)
      {
        if contains(goalColliders[i], ball) {
          return Some(i);
        }
      }
      return None;
    }

    /**
     * handleEvent: the grab fields follow GrabStep; grabbing also stops the
     * ball and takes it out of the physics world, releasing puts it back.
     */
    method HandleEvent(e: MouseEvent, hitsBall: (Vec, Vec) -> bool)
      requires BALL_KEY in bodies && GrabValid(GrabState())
      modifies this`ballGrabbed, this`ballRelPos, this`ballMPos, this`ballInWorld, this`bodies
      ensures GrabState() == GrabStep(old(GrabState()), e, old(bodies)[BALL_KEY].position, hitsBall)
      ensures GrabValid(GrabState())
      ensures var grabs := e.MouseDown? && e.button == LEFT_BUTTON && hitsBall(old(bodies)[BALL_KEY].position, e.pos);
              var releases := e.MouseUp? && e.button == LEFT_BUTTON && old(ballGrabbed);
              bodies == (if grabs then old(bodies)[BALL_KEY := old(bodies)[BALL_KEY].(velocity := Zero)]
                         else old(bodies)) &&
              ballInWorld == (if grabs then false else if releases then true else old(ballInWorld))
    {
      match e
      case MouseDown(button, pos) =>
        var ball := bodies[BALL_KEY];
        if button == LEFT_BUTTON && hitsBall(ball.position, pos) {
          bodies := bodies[BALL_KEY := ball.(velocity := Zero)];
          ballInWorld := false;
          ballGrabbed := true;
          ballRelPos := Some(Sub(ball.position, pos));
          ballMPos := Some(pos);
        }
      case MouseUp(button, _) =>
        if button == LEFT_BUTTON && ballGrabbed {
          ballGrabbed := false;
          ballInWorld := true;
        }
      case MouseMotion(pos) =>
        if ballGrabbed {
          ballMPos := Some(pos);
        }
      case OtherEvent =>
    }
  }

  /** The robots startUp records are keys of the object map. */
  lemma {:induction false} LocatedRobotsAreKeys(goals: seq<GoalSpec>, keys: seq<string>, n: nat)
    requires n <= |goals| && Roster(goals, keys, n).Ok?
    ensures forall i :: 0 <= i < |Roster(goals, keys, n).value| ==> Roster(goals, keys, n).value[i] in keys
  {
    var rs := Roster(goals, keys, n).value;
    RosterSlots(goals, keys, n);
    forall i | 0 <= i < |rs|
      ensures rs[i] in keys
    {
      assert i == RobotSlot(i / BOTS_PER_TEAM, i % BOTS_PER_TEAM);
    }
  }
}
