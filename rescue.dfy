/**
 * The rescue preset (ev3sim/presets/rescue.py, class RescueInteractor):
 * tiles with follow points, one sensor per follow point keyed and tagged
 * with its address, one follower sensor per robot that tracks the robot's
 * position, the contact handler that marks a reached follow point green,
 * robot discovery in the object map, spawn resets and the countdown clock.
 *
 * The physics world, the scene loader and the screen manager are not
 * modelled: the object map is a key order plus a map from key to body, and
 * registered sensors are plain values.
 */
module Rescue {
  import opened Wrappers
  import opened Geometry
  import opened Keys
  import RescueClock
  import Interactor

  /** Tile positions and robot spawns are given in tiles of this many world units. */
  const TILE_LENGTH := 30

  /** Fill of a follow point not yet reached (SHOW_FOLLOW_POINTS is on). */
  const UNREACHED_FILL := "#ff0000"

  /** Fill of a follow point once a robot's follower sensor touched it. */
  const REACHED_FILL := "#00ff00"

  /** Fill of a robot's follower sensor (SHOW_ROBOT_COLLIDER is on). */
  const ROBOT_COLLIDER_FILL := "#00ff00"

  /** (tile index, follow point index): the tag a follow-point sensor carries. */
  type Address = (nat, nat)

  /** A sensor shape: follow-point sensors carry their address as a tag, robot followers none. */
  datatype Sensor = Sensor(key: string, tag: Option<Address>, position: Vec, fill: string)

  /** One entry of `tiles`: the follow points in world space and their sensors. */
  datatype Tile = Tile(follows: seq<Vec>, colliders: seq<Sensor>)

  /**
   * One entry of the 'tiles' option together with the tile file it names:
   * placement (in tiles, and in quarter turns), the keys of the file's scene
   * elements and its follow points in tile-local coordinates.
   */
  datatype TileConfig = TileConfig(
    position: Vec,
    quarterTurns: int,
    elementKeys: seq<string>,
    followPoints: seq<Vec>)

  datatype RescueError =
    | NoRobotsLoaded      // ValueError("No robots loaded.")
    | NotEnoughSpawns     // AssertionError: fewer spawns than robots
    | NoFollowPointTag    // ValueError: neither shape of a contact is a follow point

  /** f'Tile-{i}-{k}': the key of a scene element k of tile i. */
  function TileKey(i: nat, k: string): (r: string)
    ensures |r| > |k| + 6 && r[..5] == "Tile-" && r[|r| - |k| - 1..] == "-" + k
  {
    "Tile-" + Digits(i) + "-" + k
  }

  /** f'Tile-{i}-follow-{j}': the key of follow point j of tile i. */
  function FollowKey(i: nat, j: nat): string
  {
    TileKey(i, "follow-" + Digits(j))
  }

  /** f'Robot-{k}-follow': the key of robot k's follower sensor. */
  function RobotFollowKey(k: nat): (r: string)
    ensures RobotPrefix(k) <= r && |r| > |RobotPrefix(k)|
  {
    RobotPrefix(k) + "-follow"
  }

  /** Tile keys determine the tile and the element they were built from. */
  lemma TileKeyInjective(i: nat, k: string, i': nat, k': string)
    requires TileKey(i, k) == TileKey(i', k')
    ensures i == i' && k == k'
  {
    var s, s' := TileKey(i, k), TileKey(i', k');
    assert s[5..] == Digits(i) + ['-'] + k;
    assert s'[5..] == Digits(i') + ['-'] + k';
    DigitsHaveNoDash(i);
    DigitsHaveNoDash(i');
    SplitAtSeparator(Digits(i), k, Digits(i'), k', '-');
    DigitsInjective(i, i');
  }

  /** Follow-point keys are unique: equal keys mean the same address. */
  lemma FollowKeyInjective(i: nat, j: nat, i': nat, j': nat)
    requires FollowKey(i, j) == FollowKey(i', j')
    ensures i == i' && j == j'
  {
    TileKeyInjective(i, "follow-" + Digits(j), i', "follow-" + Digits(j'));
    assert Digits(j) == ("follow-" + Digits(j))[7..];
    assert Digits(j') == ("follow-" + Digits(j'))[7..];
    DigitsInjective(j, j');
  }

  /**
   * A tile's origin in world space: its position scaled by TILE_LENGTH.
   * OutlineAtTileBase states where it is used.
   */
  function TileBase(c: TileConfig): Vec
  {
    Scale(c.position, TILE_LENGTH)
  }

  /** local_space_to_world_space for quarter-turn rotations: rotate, then move to the tile. */
  function ToWorld(c: TileConfig, local: Vec): (r: Vec)
    ensures Norm2(Sub(r, TileBase(c))) == Norm2(local)
    ensures c.quarterTurns % 4 == 0 ==> r == Add(local, TileBase(c))
  {
    Add(RotateQuarter(local, c.quarterTurns), TileBase(c))
  }

  /** The outline rectangle added to every tile sits on the tile's origin, whatever its rotation. */
  lemma OutlineAtTileBase(c: TileConfig)
    ensures ToWorld(c, Zero) == TileBase(c)
  {
    assert RotateQuarter(Zero, c.quarterTurns) == Zero;
  }

  /**
   * The keys tile i hands to the loader: every element key k renamed to
   * Tile-i-k, followed by the added outline rectangle Tile-i-outline.
   */
  function TileElementKeys(i: nat, c: TileConfig): (r: seq<string>)
    ensures |r| == |c.elementKeys| + 1
    ensures forall e :: 0 <= e < |c.elementKeys| ==> r[e] == TileKey(i, c.elementKeys[e])
    ensures r[|c.elementKeys|] == TileKey(i, "outline")
  {
    seq(|c.elementKeys|, e requires 0 <= e < |c.elementKeys| => TileKey(i, c.elementKeys[e]))
      + [TileKey(i, "outline")]
  }

  /** The keys loaded for the first n tiles, tile by tile. */
  function LoadedKeysUpTo(configs: seq<TileConfig>, n: nat): seq<string>
    requires n <= |configs|
  {
    if n == 0 then [] else LoadedKeysUpTo(configs, n - 1) + TileElementKeys(n - 1, configs[n - 1])
  }

  /** Every key loaded for the tiles is the renamed key of an element (or outline) of one tile. */
  lemma {:induction false} LoadedKeysAreTileKeys(configs: seq<TileConfig>, n: nat, key: string)
    requires n <= |configs| && key in LoadedKeysUpTo(configs, n)
    ensures exists i: nat, k: string :: i < n && key == TileKey(i, k) &&
              (k in configs[i].elementKeys || k == "outline")
  {
    if key in LoadedKeysUpTo(configs, n - 1) {
      LoadedKeysAreTileKeys(configs, n - 1, key);
    } else {
      var t := TileElementKeys(n - 1, configs[n - 1]);
      assert key in t;
      var e :| 0 <= e < |t| && t[e] == key;
      if e < |configs[n - 1].elementKeys| {
        assert configs[n - 1].elementKeys[e] in configs[n - 1].elementKeys;
        assert key == TileKey(n - 1, configs[n - 1].elementKeys[e]);
      } else {
        assert key == TileKey(n - 1, "outline");
      }
    }
  }

  /** The sensor spawned for follow point j of tile i at world position pos. */
  function FollowSensor(i: nat, j: nat, pos: Vec): (r: Sensor)
    ensures forall other :: ContactAddress(r, other) == Some((i, j))
    ensures r.position == pos && r.fill == UNREACHED_FILL
  {
    Sensor(FollowKey(i, j), Some((i, j)), pos, UNREACHED_FILL)
  }

  /** The follower sensor spawned for robot k (no position given: the origin). */
  function RobotFollower(k: nat): (r: Sensor)
    ensures r.tag.None? && RobotPrefix(k) <= r.key
  {
    Sensor(RobotFollowKey(k), None, Zero, ROBOT_COLLIDER_FILL)
  }

  /** The follower sensors of robots 0 .. n-1, in robot order. */
  function RobotFollowers(n: nat): (r: seq<Sensor>)
    ensures |r| == n
    ensures forall k :: 0 <= k < n ==> r[k] == RobotFollower(k)
  {
    if n == 0 then [] else RobotFollowers(n - 1) + [RobotFollower(n - 1)]
  }

  /**
   * Tile i's sensors are registered: one per follow point, in follow-point
   * order, keyed Tile-i-follow-j, tagged (i, j), placed on the point, and
   * either unreached or reached.
   */
  ghost predicate Registered(i: nat, t: Tile)
  {
    |t.colliders| == |t.follows| &&
    forall j :: 0 <= j < |t.colliders| ==>
      t.colliders[j] == FollowSensor(i, j, t.follows[j]) ||
      t.colliders[j] == FollowSensor(i, j, t.follows[j]).(fill := REACHED_FILL)
  }

  ghost predicate AllRegistered(tiles: seq<Tile>)
  {
    forall i :: 0 <= i < |tiles| ==> Registered(i, tiles[i])
  }

  /**
   * The tiles right after spawnFollowPointPhysics: the same tiles with the
   * same follow points, each point carrying a fresh unreached sensor.
   */
  ghost predicate SpawnedFrom(before: seq<Tile>, after: seq<Tile>)
  {
    |after| == |before| &&
    forall i :: 0 <= i < |after| ==>
      after[i].follows == before[i].follows &&
      |after[i].colliders| == |after[i].follows| &&
      forall j :: 0 <= j < |after[i].colliders| ==>
        after[i].colliders[j] == FollowSensor(i, j, after[i].follows[j])
  }

  predicate ValidAddress(tiles: seq<Tile>, a: Address)
  {
    a.0 < |tiles| && a.1 < |tiles[a.0].colliders|
  }

  /**
   * collidedFollowPoint on the tile list: the addressed sensor's fill becomes
   * green and every other sensor and every follow point stays as it was.
   */
  function MarkReached(tiles: seq<Tile>, a: Address): (r: seq<Tile>)
    requires ValidAddress(tiles, a)
    ensures |r| == |tiles|
    ensures forall i :: 0 <= i < |r| ==>
              r[i].follows == tiles[i].follows && |r[i].colliders| == |tiles[i].colliders|
    ensures r[a.0].colliders[a.1] == tiles[a.0].colliders[a.1].(fill := REACHED_FILL)
    ensures forall i, j :: 0 <= i < |r| && 0 <= j < |r[i].colliders| && (i, j) != a ==>
              r[i].colliders[j] == tiles[i].colliders[j]
  {
    var t := tiles[a.0];
    tiles[a.0 := t.(colliders := t.colliders[a.1 := t.colliders[a.1].(fill := REACHED_FILL)])]
  }

  /** Delivering the same contact twice leaves the tiles as delivering it once. */
  lemma MarkReachedIdempotent(tiles: seq<Tile>, a: Address)
    requires ValidAddress(tiles, a)
    ensures ValidAddress(MarkReached(tiles, a), a)
    ensures MarkReached(MarkReached(tiles, a), a) == MarkReached(tiles, a)
  {
    var once := MarkReached(tiles, a);
    var twice := MarkReached(once, a);
    assert forall i :: 0 <= i < |twice| ==> twice[i].colliders == once[i].colliders;
    assert forall i :: 0 <= i < |twice| ==> twice[i] == once[i];
  }

  /** Marking a point keeps every tile's sensors registered. */
  lemma MarkReachedKeepsRegistry(tiles: seq<Tile>, a: Address)
    requires AllRegistered(tiles) && ValidAddress(tiles, a)
    ensures AllRegistered(MarkReached(tiles, a))
  {
    var r := MarkReached(tiles, a);
    forall i | 0 <= i < |r|
      ensures Registered(i, r[i])
    {
      assert Registered(i, tiles[i]);
    }
  }

  /**
   * The contact dispatch choice of handle_collide: shape a's tag if it has
   * one, otherwise shape b's; None when neither shape is a follow point.
   */
  function ContactAddress(a: Sensor, b: Sensor): (r: Option<Address>)
    ensures r.None? <==> a.tag.None? && b.tag.None?
    ensures r.Some? ==> r == a.tag || r == b.tag
    ensures a.tag.Some? ==> r == a.tag
  {
    if a.tag.Some? then a.tag else b.tag
  }

  /**
   * A contact between a registered follow-point sensor and a robot follower
   * addresses exactly the sensor that was touched, whichever order the two
   * shapes come in.
   */
  lemma ContactAddressesTouchedSensor(tiles: seq<Tile>, i: nat, j: nat, follower: Sensor, first: bool)
    requires AllRegistered(tiles) && i < |tiles| && j < |tiles[i].colliders|
    requires follower.tag.None?
    ensures var s := tiles[i].colliders[j];
            var addr := if first then ContactAddress(s, follower) else ContactAddress(follower, s);
            addr == Some((i, j)) && ValidAddress(tiles, addr.value) &&
            tiles[addr.value.0].colliders[addr.value.1].key == s.key
  {
    assert Registered(i, tiles[i]);
  }

  /** Registered sensors on different addresses have different keys. */
  lemma RegisteredKeysUnique(tiles: seq<Tile>, i: nat, j: nat, i': nat, j': nat)
    requires AllRegistered(tiles)
    requires i < |tiles| && j < |tiles[i].colliders|
    requires i' < |tiles| && j' < |tiles[i'].colliders|
    requires (i, j) != (i', j')
    ensures tiles[i].colliders[j].key != tiles[i'].colliders[j'].key
  {
    assert Registered(i, tiles[i]) && Registered(i', tiles[i']);
    assert tiles[i].colliders[j].key == FollowKey(i, j);
    assert tiles[i'].colliders[j'].key == FollowKey(i', j');
    if FollowKey(i, j) == FollowKey(i', j') {
      FollowKeyInjective(i, j, i', j');
    }
  }

  /** Where resetPositions puts a robot: its spawn scaled to world units, at rest. */
  function SpawnBody(s: Spawn): Body
  {
    Body(Scale(s.position, TILE_LENGTH), s.rotationDegrees, Zero, 0)
  }

  /**
   * The loop of locateBots: for index = 0, 1, 2, ... collect the keys that
   * start with Robot-index, stop when there are none, otherwise keep the
   * first shortest and create that robot's follower sensor.
   */
  method DiscoverRobots(keys: seq<string>) returns (found: seq<string>, followers: seq<Sensor>)
    ensures found == Located(keys, 0)
    ensures followers == RobotFollowers(|found|)
  {
    ghost var all := Located(keys, 0);
    found := [];
    followers := [];
    var index := 0;
    while true
      invariant index == |found|
      invariant found + Located(keys, index) == all
      invariant followers == RobotFollowers(index)
      decreases Pow10(MaxLen(keys)) - index
    {
      var possible := MatchingKeys(keys, RobotPrefix(index));
      LocatedNext(keys, index, possible);
      if |possible| == 0 {
        assert found == all;
        break;
      }
      var key := possible[ShortestIndex(possible)];
      LocatedAppend(keys, found, index, all, key);
      found := found + [key];
      followers := followers + [RobotFollower(index)];
      index := index + 1;
    }
  }

  class RescueInteractor {
    /** The 'spawns' option: one [tile position, rotation] per robot. */
    const spawns: seq<Spawn>
    /** The loader's object map: keys in insertion order, and the body behind each key. */
    const objectKeys: seq<string>
    var bodies: map<string, Body>
    /** Keys of the scene elements handed to the loader, in order. */
    var loadedKeys: seq<string>
    var tiles: seq<Tile>
    /** The robots found by locateBots, by their object-map keys. */
    var robots: seq<string>
    var botFollows: seq<Sensor>
    var scores: seq<int>
    var timeTick: nat
    var curTick: int
    /** The text of the TimerText object. */
    var timerText: string

    ghost predicate ObjectMapValid()
      reads this
    {
      forall k :: k in objectKeys ==> k in bodies
    }

    /** Every robot has a follower sensor and a body in the object map. */
    ghost predicate RobotsLinked()
      reads this
    {
      |botFollows| == |robots| && forall r :: r in robots ==> r in bodies
    }

    /** The state startUp leaves behind. */
    ghost predicate Started()
      reads this
    {
      ObjectMapValid() && RobotsLinked() && |robots| <= |spawns| && AllRegistered(tiles)
    }

    /**
     * __init__: one tile per configuration with its follow points moved to
     * world space, and every element key of tile i renamed Tile-i-k before
     * the elements (and the tile's outline) are loaded.
     */
    constructor (spawns: seq<Spawn>, configs: seq<TileConfig>, objectKeys: seq<string>, bodies: map<string, Body>)
      requires forall k :: k in objectKeys ==> k in bodies
      ensures this.spawns == spawns && this.objectKeys == objectKeys && this.bodies == bodies
      ensures timeTick == 0 && robots == [] && botFollows == [] && scores == []
      ensures |tiles| == |configs|
      ensures forall i :: 0 <= i < |configs| ==>
                tiles[i].colliders == [] && |tiles[i].follows| == |configs[i].followPoints| &&
                forall j :: 0 <= j < |configs[i].followPoints| ==>
                  tiles[i].follows[j] == ToWorld(configs[i], configs[i].followPoints[j])
      ensures loadedKeys == LoadedKeysUpTo(configs, |configs|)
      ensures ObjectMapValid()
    {
      var ts: seq<Tile> := [];
      var loaded: seq<string> := [];
      for i := 0 to |configs|
        invariant |ts| == i
        invariant forall t :: 0 <= t < i ==>
                    ts[t].colliders == [] && |ts[t].follows| == |configs[t].followPoints| &&
                    forall j :: 0 <= j < |configs[t].followPoints| ==>
                      ts[t].follows[j] == ToWorld(configs[t], configs[t].followPoints[j])
        invariant loaded == LoadedKeysUpTo(configs, i)
      {
        var c := configs[i];
        var renamed: seq<string> := [];
        for e := 0 to |c.elementKeys|
          invariant |renamed| == e
          invariant forall e' :: 0 <= e' < e ==> renamed[e'] == TileKey(i, c.elementKeys[e'])
        {
          renamed := renamed + [TileKey(i, c.elementKeys[e])];
        }
        renamed := renamed + [TileKey(i, "outline")];
        var follows: seq<Vec> := [];
        for j := 0 to |c.followPoints|
          invariant |follows| == j
          invariant forall j' :: 0 <= j' < j ==> follows[j'] == ToWorld(c, c.followPoints[j'])
        {
          follows := follows + [ToWorld(c, c.followPoints[j])];
        }
        ts := ts + [Tile(follows, [])];
        assert renamed == TileElementKeys(i, c);
        loaded := loaded + renamed;
      }
      this.spawns := spawns;
      this.objectKeys := objectKeys;
      this.bodies := bodies;
      loadedKeys := loaded;
      tiles := ts;
      robots := [];
      botFollows := [];
      scores := [];
      timeTick := 0;
      curTick := 0;
      timerText := "";
    }

    /** collidedFollowPoint: the addressed follow point turns green; nothing else changes. */
    method CollidedFollowPoint(a: Address)
      requires ValidAddress(tiles, a)
      modifies this`tiles
      ensures tiles == MarkReached(old(tiles), a)
    {
      var t := tiles[a.0];
      tiles := tiles[a.0 := t.(colliders := t.colliders[a.1 := t.colliders[a.1].(fill := REACHED_FILL)])];
    }

    /**
     * spawnFollowPointPhysics: for each tile, one sensor per follow point, in
     * order, keyed Tile-i-follow-j and tagged (i, j).
     */
    method SpawnFollowPointPhysics()
      modifies this`tiles
      ensures SpawnedFrom(old(tiles), tiles)
      ensures AllRegistered(tiles)
    {
      for i := 0 to |tiles|
        invariant |tiles| == |old(tiles)|
        invariant forall t :: 0 <= t < |tiles| ==> tiles[t].follows == old(tiles)[t].follows
        invariant forall t :: 0 <= t < i ==>
                    |tiles[t].colliders| == |tiles[t].follows| &&
                    forall j :: 0 <= j < |tiles[t].colliders| ==>
                      tiles[t].colliders[j] == FollowSensor(t, j, tiles[t].follows[j])
      {
        var follows := tiles[i].follows;
        var colliders: seq<Sensor> := [];
        for j := 0 to |follows|
          invariant |colliders| == j
          invariant forall j' :: 0 <= j' < j ==> colliders[j'] == FollowSensor(i, j', follows[j'])
        {
          colliders := colliders + [FollowSensor(i, j, follows[j])];
        }
        tiles := tiles[i := Tile(follows, colliders)];
      }
    }

    /**
     * locateBots: for k = 0, 1, 2, ... take the shortest object key starting
     * with Robot-k, stopping at the first k without one, and give each robot
     * a follower sensor Robot-k-follow; no robot at all is an error.
     */
    method LocateBots() returns (outcome: Outcome<RescueError>)
      requires ObjectMapValid()
      modifies this`robots, this`botFollows
      ensures robots == Located(objectKeys, 0)
      ensures botFollows == RobotFollowers(|robots|)
      ensures RobotsLinked()
      ensures outcome == if robots == [] then Fail(NoRobotsLoaded) else Pass
    {
      robots, botFollows := DiscoverRobots(objectKeys);
      LocatedInKeys(objectKeys, 0);
      outcome := if |robots| == 0 then Fail(NoRobotsLoaded) else Pass;
    }

    /**
     * resetPositions: robot i goes to spawns[i] (scaled by TILE_LENGTH) at
     * rest. Should one object be listed twice, the later spawn wins.
     */
    method ResetPositions()
      requires |robots| <= |spawns| && forall r :: r in robots ==> r in bodies
      modifies this`bodies
      ensures bodies.Keys == old(bodies).Keys
      ensures forall k :: k in bodies ==>
                bodies[k] == if k in robots then SpawnBody(spawns[LastIndexOf(robots, k)]) else old(bodies)[k]
    {
      for i := 0 to |robots|
        invariant bodies.Keys == old(bodies).Keys
        invariant forall k :: k in bodies ==>
                    bodies[k] == if k in robots[..i] then SpawnBody(spawns[LastIndexOf(robots[..i], k)])
                                 else old(bodies)[k]
      {
        assert robots[..i + 1] == robots[..i] + [robots[i]];
        forall k | k in robots[..i + 1]
          ensures LastIndexOf(robots[..i + 1], k) == if k == robots[i] then i else LastIndexOf(robots[..i], k)
        {
          LastIndexOfSnoc(robots[..i], robots[i], k);
        }
        bodies := bodies[robots[i] := SpawnBody(spawns[i])];
      }
      assert robots[..|robots|] == robots;
    }

    /** Copies each robot's position onto its follower sensor (in startUp and tick). */
    method SyncFollowers()
      requires RobotsLinked()
      modifies this`botFollows
      ensures |botFollows| == |old(botFollows)|
      ensures forall i :: 0 <= i < |robots| ==>
                botFollows[i] == old(botFollows)[i].(position := bodies[robots[i]].position)
    {
      for i := 0 to |robots|
        invariant |botFollows| == |old(botFollows)|
        invariant forall t :: 0 <= t < i ==>
                    botFollows[t] == old(botFollows)[t].(position := bodies[robots[t]].position)
        invariant forall t :: i <= t < |botFollows| ==> botFollows[t] == old(botFollows)[t]
      {
        botFollows := botFollows[i := botFollows[i].(position := bodies[robots[i]].position)];
      }
    }

    /**
     * startUp: spawn the follow-point sensors, find the robots, require a
     * spawn per robot, zero the scores, reset the robots and place each
     * follower on its robot.
     */
    method StartUp() returns (outcome: Outcome<RescueError>)
      requires ObjectMapValid()
      modifies this`tiles, this`robots, this`botFollows, this`scores, this`bodies
      ensures SpawnedFrom(old(tiles), tiles) && AllRegistered(tiles)
      ensures robots == Located(objectKeys, 0)
      ensures outcome == if robots == [] then Fail(NoRobotsLoaded)
                         else if |robots| > |spawns| then Fail(NotEnoughSpawns)
                         else Pass
      ensures outcome.Fail? ==> bodies == old(bodies)
      ensures outcome.Pass? ==> Started()
      ensures outcome.Pass? ==> |scores| == |robots| && forall i :: 0 <= i < |scores| ==> scores[i] == 0
      ensures outcome.Pass? ==> bodies.Keys == old(bodies).Keys
      ensures outcome.Pass? ==> forall k :: k in bodies ==>
                bodies[k] == if k in robots then SpawnBody(spawns[LastIndexOf(robots, k)]) else old(bodies)[k]
      ensures outcome.Pass? ==> forall i :: 0 <= i < |robots| ==>
                botFollows[i] == RobotFollower(i).(position := bodies[robots[i]].position)
    {
      SpawnFollowPointPhysics();
      outcome := LocateBots();
      if outcome.Fail? {
        return;
      }
      if |robots| > |spawns| {
        outcome := Fail(NotEnoughSpawns);
        return;
      }
      scores := seq(|robots|, _ => 0);
      ResetPositions();
      SyncFollowers();
    }

    /**
     * handle_collide: mark the follow point the contact addresses and return
     * False (no physical response); a contact without a follow point raises.
     */
    method HandleCollide(a: Sensor, b: Sensor) returns (r: Result<bool, RescueError>)
      requires Started()
      requires ContactAddress(a, b).Some? ==> ValidAddress(tiles, ContactAddress(a, b).value)
      modifies this`tiles
      ensures Started()
      ensures r.Ok? ==> !r.value
      ensures r.Err? <==> a.tag.None? && b.tag.None?
      ensures r.Err? ==> r.error == NoFollowPointTag && tiles == old(tiles)
      ensures r.Ok? ==> tiles == MarkReached(old(tiles), ContactAddress(a, b).value)
    {
      if ContactAddress(a, b).Some? {
        MarkReachedKeepsRegistry(tiles, ContactAddress(a, b).value);
      }
      if a.tag.Some? {
        CollidedFollowPoint(a.tag.value);
      } else if b.tag.Some? {
        CollidedFollowPoint(b.tag.value);
      } else {
        return Err(NoFollowPointTag);
      }
      return Ok(false);
    }

    /**
     * update_time: unless the world is paused, advance the tick counter by
     * one and show the time left.
     */
    method UpdateTime(paused: bool, tickRate: nat)
      requires tickRate > 0
      modifies this`timeTick, this`timerText
      ensures paused ==> timeTick == old(timeTick) && timerText == old(timerText)
      ensures !paused ==> timeTick == old(timeTick) + 1 &&
                          timerText == RescueClock.ClockText(timeTick, tickRate)
    {
      if paused {
        return;
      }
      timeTick := timeTick + 1;
      timerText := RescueClock.ClockText(timeTick, tickRate);
    }

    /**
     * tick: move every follower sensor onto its robot, then update the clock.
     * Robot bodies are not touched.
     */
    method Tick(tick: int, paused: bool, tickRate: nat)
      requires Started() && tickRate > 0
      modifies this`curTick, this`botFollows, this`timeTick, this`timerText
      ensures Started()
      ensures curTick == tick
      ensures |botFollows| == |robots|
      ensures forall i :: 0 <= i < |robots| ==>
                botFollows[i] == old(botFollows)[i].(position := bodies[robots[i]].position)
      ensures paused ==> timeTick == old(timeTick) && timerText == old(timerText)
      ensures !paused ==> timeTick == old(timeTick) + 1 &&
                          timerText == RescueClock.ClockText(timeTick, tickRate)
    {
      var _ := Interactor.DefaultTick(tick);
      curTick := tick;
      SyncFollowers();
      UpdateTime(paused, tickRate);
    }
  }

  /**
   * When no two robots share an object, resetPositions puts robot i exactly
   * at spawns[i], scaled by TILE_LENGTH, with zero velocity.
   */
  lemma ResetPlacesEachRobot(robots: seq<string>, spawns: seq<Spawn>, bodies: map<string, Body>, i: nat)
    requires i < |robots| <= |spawns|
    requires forall j, k :: 0 <= j < k < |robots| ==> robots[j] != robots[k]
    requires robots[i] in bodies
    requires forall k :: k in bodies && k in robots ==> bodies[k] == SpawnBody(spawns[LastIndexOf(robots, k)])
    ensures bodies[robots[i]].position == Scale(spawns[i].position, TILE_LENGTH)
    ensures bodies[robots[i]].velocity == Zero && bodies[robots[i]].angularVelocity == 0
  {
    LastIndexOfDistinct(robots, i);
  }
}
