# ev3sim presets: rescue, soccer and interactor construction

A Dafny model of the game logic of the ev3sim simulator's two presets.

**RescueInteractor** (`ev3sim/presets/rescue.py`):
- loads tiles, renaming each tile's scene elements `Tile-i-k`;
- places one sensor on every follow point, keyed `Tile-i-follow-j` and tagged `(i, j)`;
- finds the robots `Robot-0`, `Robot-1`, … in the object map and gives each a follower sensor;
- turns a follow point green when a follower touches it;
- puts robots on their spawns;
- runs a five-minute countdown clock shown as `MM:SS`.

**SoccerInteractor** (`presets/soccer.py`):
- builds one goal collider, one score and one name text per team;
- finds `BOTS_PER_TEAM` robots per team;
- on each tick, credits a goal in net `i` to team `1 - i` and resets robots and ball;
- lets the user drag the ball with the left mouse button.

**The interactor base** (`ev3sim/simulation/interactor.py`):
- the default `tick`;
- `fromOptions`, which resolves an options map (possibly through a referenced file) to the class to construct and its arguments.

Modules:
- `Wrappers` and `Geometry` (wrappers.dfy): Option, Outcome and Result types. Integer vectors, bodies, spawns and quarter-turn rotation.
- `Keys` (keys.dfy): Python's `str(n)` and `{:02d}` on naturals, and key prefixes. Also the lookup both presets share: collect the keys starting with `Robot-k` in object-map order, sort them by length (stably) and take the first. It also holds the `locateBots` discovery sequence.
- `RescueClock` (rescue_clock.dfy): the `timedelta` arithmetic of `update_time`, with exact integer time.
- `Interactor` (interactor.dfy): `IInteractor.tick` and `fromOptions`.
- `Rescue` (rescue.dfy): class `RescueInteractor`, whose methods update its fields as the source does.
- `Soccer` (soccer.dfy): class `SoccerInteractor`. Specification functions give each method's resulting state. Lemmas state what those states mean.

The loader's object map is a key sequence (insertion order, which decides ties in the stable sort) plus a map from key to body. A robot is stored as its key. The same key twice means the same object twice.

Both presets pick `Robot-k` by prefix, as written. When `Robot-1` is absent and `Robot-10` exists, index 1 is given `Robot-10`'s object. `Keys.PrefixCrossesIndices` shows this.

Goal crediting indexes `team_scores[1 - i]` with Python semantics:
- With two teams it credits the other team.
- With one team it raises `IndexError`.
- With three teams, a goal in net 2 credits team 2 itself, because index `-1` is the last entry.

`Soccer.CreditOneTeam` and `Soccer.CreditThreeTeams` state these cases.

## Model

| member | source | states |
|---|---|---|
| Keys.Digits | presets/soccer.py:65 | str(n) is a non-empty digit string, one digit long exactly when n < 10, starting with '0' only for n = 0 (no leading zeros) |
| Keys.ParseDigitsRoundTrip | presets/soccer.py:65 | reading str(n) back as an integer gives n |
| Keys.DigitsInjective | ev3sim/presets/rescue.py:48 | different indices render differently, so index-built keys never collide |
| Keys.ParseLeadingZero | ev3sim/presets/rescue.py:192 | the zero padding does not change the value a field reads back as |
| Keys.Pad2 | ev3sim/presets/rescue.py:192 | '{:02d}' yields digits that read back as n: a '0' followed by str(n) when n < 10, otherwise str(n) with no padding; exactly two digits when n < 100 |
| Keys.WithPrefix | ev3sim/presets/rescue.py:108-111 | possible_keys holds exactly the object keys that start with the prefix |
| Keys.RobotPrefixReadsBack | ev3sim/presets/rescue.py:110 | the prefix f'Robot-{k}' is "Robot-" followed by digits that read back as k |
| Keys.FindRobot | ev3sim/presets/rescue.py:108-115 | None exactly when no object key starts with Robot-k; otherwise an object key with that prefix |
| Keys.ShortestIndex | ev3sim/presets/rescue.py:114-115 | what a stable sort by length puts first: a shortest entry with every earlier entry strictly longer |
| Keys.FindKey | ev3sim/presets/rescue.py:108-115 | None exactly when no key has the prefix; otherwise a key with the prefix no longer than any other such key |
| Keys.MatchingKeys | ev3sim/presets/rescue.py:108-111 | the loop over the object map collects the keys with the prefix in map order |
| Keys.FindKeyIsFirstShortest | ev3sim/presets/rescue.py:108-115 | collecting in order, sorting by length and taking element 0 picks the same key as FindKey |
| Keys.FoundIndexBounded | ev3sim/presets/rescue.py:106-113 | an index with a matching key is below 10^(longest key length), so the while-True loop ends |
| Keys.LocatedNext | ev3sim/presets/rescue.py:108-115 | one round: no matching key ends the robot list; otherwise the first shortest match is the next robot |
| Keys.LocatedInKeys | ev3sim/presets/rescue.py:115 | every robot discovered is a key of the object map |
| Keys.LocatedAt | ev3sim/presets/rescue.py:108-115 | robot i of the discovered list is the key chosen for index i |
| Keys.LocatedEnd | ev3sim/presets/rescue.py:112-113 | the index just past the discovered robots has no matching key |
| Keys.LastIndexOf | ev3sim/presets/rescue.py:169-173 | the last position of a key: in an in-order loop of writes the last write to an object stays |
| Keys.LastIndexOfSnoc | ev3sim/presets/rescue.py:169-173 | one more write moves the last occurrence of that object to the end and keeps the others |
| Keys.LastIndexOfDistinct | ev3sim/presets/rescue.py:169-173 | without repeated objects each entry is its own last occurrence |
| Keys.PrefixCrossesIndices | ev3sim/presets/rescue.py:110 | with keys Robot-0 and Robot-10, index 1 is given Robot-10 and both are discovered |
| RescueClock.RemainingSeconds | ev3sim/presets/rescue.py:186-188 | the whole seconds of START_TIME minus tick/rate, rounded down and not clamped at zero |
| RescueClock.DaySeconds | ev3sim/presets/rescue.py:189 | timedelta.seconds: below one day and congruent to the remaining seconds modulo a day |
| RescueClock.ClockFields | ev3sim/presets/rescue.py:189-191 | minutes and seconds with seconds below 60 that recombine to timedelta.seconds |
| RescueClock.ClockText | ev3sim/presets/rescue.py:192 | the timer text has ':' three characters from the end and is five characters long exactly when minutes are below 100; it starts with '0' exactly when minutes are below 10, so minutes of three or four digits get no extra padding |
| RescueClock.ClockTextReadsBack | ev3sim/presets/rescue.py:192 | the timer text has a colon, the part after it reads back as the seconds and the part before it as the minutes |
| RescueClock.NoWrapBeforeEnd | ev3sim/presets/rescue.py:186-189 | during the five minutes the clock shows the true remaining time, between 0 and 300 seconds |
| RescueClock.WrapsAfterEnd | ev3sim/presets/rescue.py:188-189 | after the five minutes the remaining time is negative and the shown value is that time plus one day |
| RescueClock.ClockExamples | ev3sim/presets/rescue.py:185-192 | at 30 ticks per second tick 8970 shows 00:01 and tick 9000 shows 00:00 |
| RescueClock.ClockWrapExample | ev3sim/presets/rescue.py:188-192 | one tick later the clock shows 1439:59 |
| Interactor.DefaultTick | ev3sim/simulation/interactor.py:12-13 | the default tick never asks to end the script |
| Interactor.LastDot | ev3sim/simulation/interactor.py:35 | None exactly when there is no '.'; otherwise the position of a '.' with none after it |
| Interactor.SplitClassPath | ev3sim/simulation/interactor.py:35 | rsplit('.', 1) unpacking fails exactly when there is no '.'; otherwise module + '.' + class is the path and the class has no '.' |
| Interactor.SplitClassPathUnique | ev3sim/simulation/interactor.py:35 | any split with a dot-free class name is the one returned |
| Interactor.FromOptions | ev3sim/simulation/interactor.py:25-38 | no filename and no class_path raises; with a class_path, success exactly when it has a '.'; class names never contain '.' |
| Interactor.FilenameTakesPrecedence | ev3sim/simulation/interactor.py:26-32 | with 'filename' present the result is the file's, whatever class_path, args and kwargs say |
| Interactor.DirectConstruction | ev3sim/simulation/interactor.py:33-38 | module and class rejoin to class_path; args and kwargs are passed through, and default to empty |
| Interactor.SelfReferenceFails | ev3sim/simulation/interactor.py:26-32 | a file that names itself never yields an interactor |
| Rescue.TileKeyInjective | ev3sim/presets/rescue.py:47-48 | renamed keys Tile-i-k determine the tile index and the original key |
| Rescue.TileKey | ev3sim/presets/rescue.py:48 | the renamed key starts with "Tile-" and ends with '-' and the element's own key |
| Rescue.FollowKeyInjective | ev3sim/presets/rescue.py:91 | follow-point keys Tile-i-follow-j determine the address (i, j) |
| Rescue.RobotFollowKey | ev3sim/presets/rescue.py:128 | the follower key f'Robot-{k}-follow' starts with, and is longer than, the robot prefix Robot-k |
| Rescue.ToWorld | ev3sim/presets/rescue.py:41-45 | local_space_to_world_space keeps the distance from the tile base; with no rotation it is a translation by the base |
| Rescue.OutlineAtTileBase | ev3sim/presets/rescue.py:50-51 | the tile outline, at local origin, is placed exactly on the tile's base position |
| Rescue.FollowSensor | ev3sim/presets/rescue.py:77-95 | a follow-point sensor lies on its point, is red, and every contact with it addresses (i, j) |
| Rescue.RobotFollower | ev3sim/presets/rescue.py:117-129 | a robot's follower carries no follow-point tag and its key starts with Robot-k |
| Rescue.TileElementKeys | ev3sim/presets/rescue.py:42-63 | tile i's elements renamed Tile-i-k in order, followed by Tile-i-outline |
| Rescue.LoadedKeysAreTileKeys | ev3sim/presets/rescue.py:42-67 | every key loaded is the renamed key of an element, or the outline, of one of the tiles |
| Rescue.RobotFollowers | ev3sim/presets/rescue.py:117-135 | one follower sensor per robot, robot k's being Robot-k-follow |
| Rescue.MarkReached | ev3sim/presets/rescue.py:69-71 | the addressed follow-point sensor turns #00ff00 and every other sensor and follow point is unchanged |
| Rescue.MarkReachedIdempotent | ev3sim/presets/rescue.py:69-71 | a contact delivered twice leaves the tiles as one delivery does |
| Rescue.MarkReachedKeepsRegistry | ev3sim/presets/rescue.py:69-71 | marking keeps every tile's sensors keyed, tagged and placed as spawned |
| Rescue.ContactAddress | ev3sim/presets/rescue.py:157-164 | shape a's tag when it has one, else shape b's; None (the ValueError) exactly when neither has a tag |
| Rescue.ContactAddressesTouchedSensor | ev3sim/presets/rescue.py:157-162 | a follow point touching a follower addresses exactly that follow point, in either shape order |
| Rescue.RegisteredKeysUnique | ev3sim/presets/rescue.py:91 | sensors at different addresses have different keys |
| Rescue.DiscoverRobots | ev3sim/presets/rescue.py:103-136 | the while-True loop yields the discovery sequence and one follower per robot found |
| Rescue.RescueInteractor.constructor | ev3sim/presets/rescue.py:27-67 | one tile per configuration with follow points moved to world space, and the renamed element keys loaded in order |
| Rescue.RescueInteractor.CollidedFollowPoint | ev3sim/presets/rescue.py:69-71 | the tiles become MarkReached of the address |
| Rescue.RescueInteractor.SpawnFollowPointPhysics | ev3sim/presets/rescue.py:73-100 | one red sensor per follow point, keyed Tile-i-follow-j, tagged (i, j) and placed on the point |
| Rescue.RescueInteractor.LocateBots | ev3sim/presets/rescue.py:102-139 | the robots are the discovery sequence, each with its follower; no robot is the "No robots loaded." error |
| Rescue.RescueInteractor.ResetPositions | ev3sim/presets/rescue.py:168-173 | each robot is on its spawn (last one if listed twice), scaled by TILE_LENGTH and at rest; other bodies unchanged |
| Rescue.RescueInteractor.SyncFollowers | ev3sim/presets/rescue.py:148-149 | follower i is moved to robot i's position and is otherwise unchanged |
| Rescue.RescueInteractor.StartUp | ev3sim/presets/rescue.py:141-153 | the tiles keep their follow points and each point gets a fresh red sensor Tile-i-follow-j tagged (i, j), as spawnFollowPointPhysics leaves them; fails with no robots or more robots than spawns; on success scores are zero, robots reset and followers on their robots |
| Rescue.RescueInteractor.HandleCollide | ev3sim/presets/rescue.py:155-165 | only after startUp: returns False after marking the contact's follow point; a contact without one raises and changes nothing |
| Rescue.RescueInteractor.UpdateTime | ev3sim/presets/rescue.py:184-192 | unless paused, one more tick and the timer shows ClockText of it; paused, nothing changes |
| Rescue.RescueInteractor.Tick | ev3sim/presets/rescue.py:175-182 | after startUp: records the tick, moves every follower onto its robot and updates the clock; the started state is kept |
| Rescue.ResetPlacesEachRobot | ev3sim/presets/rescue.py:168-173 | with distinct robots, robot i is exactly on spawns[i], scaled, at rest |
| Soccer.TextKeysDistinct | presets/soccer.py:49-65 | score texts of different teams differ, name texts too, and no name text is a score text |
| Soccer.TextKeysReadBack | presets/soccer.py:49-65 | name and score text keys carry the team number x + 1 as digits between their prefix and "Text" |
| Soccer.RobotSlotRecovers | presets/soccer.py:54-71 | the robot index BOTS_PER_TEAM*x+y gives back team x and slot y by division and remainder |
| Soccer.RobotSlotInjective | presets/soccer.py:69-73 | slot (team, index) is a distinct robot index for every team and index |
| Soccer.TeamRoster | presets/soccer.py:50-59 | a team's robots are the keys chosen for its slot indices; an error names a slot index without a key |
| Soccer.Roster | presets/soccer.py:33-59 | on success BOTS_PER_TEAM robots per team, and every goal had a position |
| Soccer.RosterSlots | presets/soccer.py:50-59 | robot slot (t, s) holds the key chosen for Robot-(BOTS_PER_TEAM*t+s) |
| Soccer.RosterComplete | presets/soccer.py:33-59 | all goal positions present and a key for every index: the team loop succeeds |
| Soccer.RosterErrors | presets/soccer.py:33-59 | a failure is a goal without a position (KeyError) or a robot index without a key (ValueError) |
| Soccer.RosterStopsAtError | presets/soccer.py:33-59 | the first error ends the loop: later teams do not change it |
| Soccer.RosterNext | presets/soccer.py:33-59 | a team with a goal position and all its robots extends the robot list by them |
| Soccer.RosterFailsAt | presets/soccer.py:33-59 | a team without goal position or robot makes the loop fail with that error |
| Soccer.LocateRobot | presets/soccer.py:52-59 | the inner lookup returns the key chosen for the index, None for the ValueError |
| Soccer.ShortestFirst | presets/soccer.py:58-59 | the same keys with the entry the stable sort by length puts first (the first shortest) moved to the front |
| Soccer.LocateTeam | presets/soccer.py:50-59 | the slot loop yields the team's roster or its first missing robot |
| Soccer.PyIndex | presets/soccer.py:95 | Python list indexing: an error exactly outside -n..n-1; negative indices count from the end |
| Soccer.Credit | presets/soccer.py:94-95 | IndexError exactly when 1 - i is out of range; otherwise the score at Python index 1 - i (counting from the end when negative) gains one point and every other score is unchanged |
| Soccer.CreditTwoTeams | presets/soccer.py:94-95 | with two teams the other team gains exactly one point and the scoring net's team nothing |
| Soccer.CreditOneTeam | presets/soccer.py:95 | with one team a goal raises IndexError |
| Soccer.CreditThreeTeams | presets/soccer.py:95 | with three teams a goal in net 2 credits team 2 |
| Soccer.FirstGoal | presets/soccer.py:86-90 | the first goal in order containing the ball; None when none does |
| Soccer.GrabStep | presets/soccer.py:99-121 | grabbed after the event exactly when a left click hits the ball, or it was grabbed and the event is no left release; a grab sets ball_rel_pos to ball.position - m_pos and ball_m_pos to m_pos, motion while grabbed sets ball_m_pos to the pointer, and every other event keeps both; they stay set while grabbed |
| Soccer.HeldAt | presets/soccer.py:91-92 | the held ball sits at offset ball_rel_pos from the pointer |
| Soccer.GrabDoesNotJump | presets/soccer.py:100-114 | right after a grab the held position is where the ball lay |
| Soccer.DragFollowsPointer | presets/soccer.py:120-121 | a held ball moves by exactly the pointer's displacement |
| Soccer.DragFromGrab | presets/soccer.py:100-121 | after a grab at p0 and a move to p the ball is held at its old position plus p - p0 |
| Soccer.ReleaseOnlyByLeftButton | presets/soccer.py:115-117 | a grabbed ball is let go exactly on a left-button release |
| Soccer.Placed | presets/soccer.py:68-73 | placing robots changes no key of the object map |
| Soccer.PlacedBodies | presets/soccer.py:68-73 | each robot ends on the spawn of its last slot, velocity zeroed; other bodies unchanged |
| Soccer.SlotSpawnAt | presets/soccer.py:70-71 | the robot of slot (team, index) reads its spawn from spawns[team][index] |
| Soccer.ResetAll | presets/soccer.py:67-75 | the keys stay the same and the ball is at (0, -18) at rest |
| Soccer.ResetAllPlaces | presets/soccer.py:67-75 | with distinct robots the robot of slot (t, s) is on spawns[t][s] with its heading and zero velocity |
| Soccer.NamesShown | presets/soccer.py:49 | showing names removes no text object |
| Soccer.NamesShownKeys | presets/soccer.py:49 | with every name text present, showing names adds no text object either: the keys are the same |
| Soccer.NamesShownSpec | presets/soccer.py:49 | name text t shows names[t]; every other text is unchanged |
| Soccer.WithScores | presets/soccer.py:63-65 | updating scores removes no text object |
| Soccer.WithScoresKeys | presets/soccer.py:63-65 | with every score text present, updating scores adds no text object either: the keys are the same |
| Soccer.WithScoresAt | presets/soccer.py:63-65 | score text x shows str(team_scores[x]) |
| Soccer.WithScoresElsewhere | presets/soccer.py:63-65 | texts other than the score texts are untouched |
| Soccer.WithScoresSpec | presets/soccer.py:63-65 | score text x reads back as team_scores[x] and name texts keep their names |
| Soccer.Zeros | presets/soccer.py:47 | every team starts with score 0 |
| Soccer.Consumed | presets/soccer.py:35-36 | deleting goal positions keeps the number of goals |
| Soccer.ConsumedSpec | presets/soccer.py:35-36 | goals of the set-up teams lose their position and nothing else; the rest are unchanged |
| Soccer.Colliders | presets/soccer.py:34-43 | one collider per set-up team |
| Soccer.CollidersSpec | presets/soccer.py:34-43 | collider t sits at goal t's position with goal t's shape |
| Soccer.SoccerInteractor.constructor | presets/soccer.py:20-25 | names default to Team 1 and Team 2; the ball is free and in the physics world |
| Soccer.SoccerInteractor.UpdateScoreText | presets/soccer.py:63-65 | the texts become WithScores of the scores |
| Soccer.SoccerInteractor.ResetPositions | presets/soccer.py:67-75 | the bodies become ResetAll of the robots and spawns |
| Soccer.SoccerInteractor.ResetTeam | presets/soccer.py:70-73 | one pass of the inner slot loop takes the bodies from Placed after `team` teams to Placed after team + 1 |
| Soccer.SoccerInteractor.SetUpTeam | presets/soccer.py:34-59 | a missing goal position raises with nothing changed; otherwise position moved into a collider, score 0, name shown, robots looked up |
| Soccer.SoccerInteractor.SetUpNext | presets/soccer.py:33-59 | one team round keeps the loop's state equal to the specification after one more team, or fails with the loop's error |
| Soccer.SoccerInteractor.SetUpTeams | presets/soccer.py:30-59 | the team loop succeeds exactly when Roster does, leaving colliders, scores, names and robots as specified |
| Soccer.SoccerInteractor.StartUp | presets/soccer.py:27-61 | unequal lengths raise; otherwise Roster's outcome; on success teams set up, scores shown and all reset |
| Soccer.SoccerInteractor.GoalScoredIn | presets/soccer.py:94-97 | scores credited, texts updated and everything reset; IndexError changes nothing |
| Soccer.SoccerInteractor.Tick | presets/soccer.py:77-92 | only the first goal containing the ball scores; a grabbed ball is then put at ball_rel_pos + ball_m_pos |
| Soccer.SoccerInteractor.ScanGoals | presets/soccer.py:86-90 | the goal loop stops at FirstGoal: the first collider containing the ball, None when none does |
| Soccer.SoccerInteractor.ScoreGoal | presets/soccer.py:86-90 | no goal changes nothing; a goal is credited as GoalScoredIn does, IndexError leaving everything unchanged |
| Soccer.SoccerInteractor.HoldBall | presets/soccer.py:91-92 | a grabbed ball is moved to HeldAt of the grab fields; otherwise nothing changes |
| Soccer.SoccerInteractor.HandleEvent | presets/soccer.py:99-121 | grab fields follow GrabStep; a grab stops the ball and removes it from the world, a release puts it back |
| Soccer.LocatedRobotsAreKeys | presets/soccer.py:50-59 | every robot found is a key of the object map |

## Left out

- Physics, rendering and the singletons (World, ScriptLoader, ScreenObjectManager): the object map and texts are fields. Registration with the world is a flag for the ball and is not modelled for sensors.
- Collision tests (ball in goal, pointer on ball) are supplied as function parameters. Contacts arrive as pairs of sensor values.
- Screen-to-world conversion of mouse positions: events carry world positions. pygame events are reduced to button down, button up, motion and other.
- YAML parsing, `find_abs` and `importlib`: `fromOptions` takes a map of loadable files and returns the module, class and arguments instead of an instance. Option values are strings.
- Interactor.FromOptions: the interpreter's recursion limit is a depth parameter. A missing file is an error value.
- Floating-point geometry: positions are integers and tile rotation is in quarter turns. Angles stay in degrees. zPos, stroke, radius and the collision categories and types are not modelled.
- RescueClock.RemainingSeconds: exact rational time rather than float `tick / GAME_TICK_RATE`, so microsecond rounding is not modelled.
- The scene loader's `loadElements`: the object map is given at construction. The element keys handed over are recorded separately.
- `addCollisionHandler` registration and `robot_class.onSpawn()` in rescue startUp are not modelled. Only the handler's behaviour is modelled, as HandleCollide.
- `show_goal_colliders` debug rendering in soccer startUp.
- `IInteractor`'s other no-op hooks (`startUp`, `afterPhysics`, `tearDown`, `handleEvent`).
- Rescue.RescueInteractor.StartUp and Soccer.SoccerInteractor.StartUp: the partial state left when an exception stops startUp is unspecified, except for the bodies and, in rescue, the spawned tiles.
- Soccer.SoccerInteractor.StartUp: the scene must hold the ball, a body per key and a name and score text per team. The source would raise KeyError otherwise.
- Missing `spawns` options (None) and spawn lists shorter than a team's slots are excluded by preconditions.
- tests/random_testing.py is not part of this model.
