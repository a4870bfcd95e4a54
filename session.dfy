/** The game session: score, high score, lives and the splash-screen flag, the per-tick
    accounting of the draw handler, the rock spawner timer, the mouse click that starts a
    game and the key handlers. */
module Session {
  import opened Geometry
  import opened Assets
  import opened Sprites
  import opened Groups
  import opened Ships

  const StartingLives: int := 3
  const MaxRocks: int := 20
  const MinSpawnDistance: int := 100

  /** The session counters the draw handler and the click handler update. */
  datatype Scoreboard = Scoreboard(score: int, highScore: int, lives: int, started: bool)

  function Max(a: int, b: int): (m: int)
    ensures m >= a && m >= b && (m == a || m == b)
  {
    if a > b then a else b
  }

  // ---------------------------------------------------------------------------------------
  // Splash screen and click

  /** Whether a click lands strictly inside the splash image, which is drawn centred on the
      field at its own size. */
  function InsideSplash(x: int, y: int): (inside: bool)
    ensures inside <==> 200 < x < 600 && 150 < y < 450
  {
    var center := Vec(WIDTH / 2, HEIGHT / 2);
    var size := SplashInfo.size;
    center.x - size.x / 2 < x < center.x + size.x / 2
    && center.y - size.y / 2 < y < center.y + size.y / 2
  }

  /** A click on the splash screen starts a game with a zero score; any other click changes
      nothing. Lives and the high score are never touched. */
  function Clicked(b: Scoreboard, x: int, y: int): (r: Scoreboard)
    ensures r.lives == b.lives && r.highScore == b.highScore
    ensures r.started <==> b.started || InsideSplash(x, y)
    ensures r != b ==> !b.started && r.started && r.score == 0
    ensures !b.started && InsideSplash(x, y) ==> r.score == 0
  {
    if !b.started && InsideSplash(x, y) then b.(started := true, score := 0) else b
  }

  // ---------------------------------------------------------------------------------------
  // Game over

  /** The game-over step as the draw handler writes it. With lives left nothing happens.
      Otherwise the splash screen comes back and the rocks are cleared one by one, and the
      high-score update and the reset of the lives happen once per cleared rock: so they
      happen only when at least one rock is left to clear. */
  function GameOverAsWritten(b: Scoreboard, rocksLeft: bool): (r: Scoreboard)
    ensures r.score == b.score
    ensures r.highScore >= b.highScore
    ensures r.started <==> b.started && b.lives > 0
    ensures r.lives > 0 <==> b.lives > 0 || rocksLeft
    ensures b.lives > 0 ==> r == b
    ensures b.lives <= 0 && rocksLeft ==> r.lives == StartingLives && r.highScore == Max(b.highScore, b.score)
    ensures b.lives <= 0 && !rocksLeft ==> r.highScore == b.highScore
  {
    if b.lives > 0 then b
    else if rocksLeft then Scoreboard(b.score, Max(b.highScore, b.score), StartingLives, false)
    else b.(started := false)
  }

  /** The game-over step as evidently intended: the high score and the lives are settled
      once, whether or not any rock is left on the field. */
  function GameOverIntended(b: Scoreboard): (r: Scoreboard)
    ensures r.score == b.score
    ensures r.started <==> b.started && b.lives > 0
    ensures r.lives > 0
    ensures b.lives > 0 ==> r == b
    ensures b.lives <= 0 ==> r.lives == StartingLives && r.highScore == Max(b.highScore, b.score)
  {
    if b.lives > 0 then b else Scoreboard(b.score, Max(b.highScore, b.score), StartingLives, false)
  }

  /** The two game-over rules agree whenever a rock is left to clear. */
  lemma GameOverAgreesWhenRocksLeft(b: Scoreboard)
    ensures GameOverAsWritten(b, true) == GameOverIntended(b)
  {
  }

  /** The discrepancy: a ship losing its last life to the last rock on the field leaves the
      session with no lives and an unrecorded high score. */
  lemma LastRockTakesLastLife()
    ensures var after := TickBoard(Scoreboard(5, 0, 1, true), 0, 1, false);
            after == Scoreboard(5, 0, 0, false)
            && after != GameOverIntended(Scoreboard(5, 0, 0, true))
  {
  }

  /** ... and a game started from that state ends on its very first tick, whatever happens
      in it, because the lives are still not positive. */
  lemma RestartWithoutLivesEndsAtOnce(b: Scoreboard, x: int, y: int, points: int, crashes: int, rocksLeft: bool)
    requires b.lives <= 0 && InsideSplash(x, y) && crashes >= 0
    ensures var restarted := Clicked(GameOverAsWritten(b, false), x, y);
            restarted.started && !TickBoard(restarted, points, crashes, rocksLeft).started
  {
  }

  /** Under the intended rule a restarted game survives a tick without crashes. */
  lemma RestartAfterIntendedGameOverPlays(b: Scoreboard, x: int, y: int, points: int, rocksLeft: bool)
    requires b.lives <= 0 && InsideSplash(x, y)
    ensures var restarted := Clicked(GameOverIntended(b), x, y);
            restarted.started && TickBoard(restarted, points, 0, rocksLeft).started
  {
  }

  // ---------------------------------------------------------------------------------------
  // One tick of the draw handler

  /** The counters after one tick: the missile-rock hits are added to the score, the rocks
      that hit the ship are taken from the lives, then game over is checked with
      `rocksLeft` telling whether any rock is still on the field. */
  function TickBoard(b: Scoreboard, points: int, crashes: int, rocksLeft: bool): (r: Scoreboard)
    ensures r.score == b.score + points
    ensures r.highScore >= b.highScore
    ensures r.started ==> b.started
    ensures b.lives - crashes > 0 ==> r.lives == b.lives - crashes && r.started == b.started
  {
    GameOverAsWritten(b.(score := b.score + points, lives := b.lives - crashes), rocksLeft)
  }

  /** Score never goes down during play and is not reset at game over; only a click on the
      splash screen resets it. */
  lemma {:induction false} ScoreOnlyGrowsOverTicks(b: Scoreboard, points: seq<nat>, crashes: seq<nat>, rocksLeft: seq<bool>)
    requires |points| == |crashes| == |rocksLeft|
    ensures Ticks(b, points, crashes, rocksLeft).score >= b.score
    ensures Ticks(b, points, crashes, rocksLeft).highScore >= b.highScore
    decreases |points|
  {
    if |points| > 0 {
      var n := |points| - 1;
      ScoreOnlyGrowsOverTicks(b, points[..n], crashes[..n], rocksLeft[..n]);
    }
  }

  /** Several ticks in a row, with no click between them. */
  function Ticks(b: Scoreboard, points: seq<nat>, crashes: seq<nat>, rocksLeft: seq<bool>): Scoreboard
    requires |points| == |crashes| == |rocksLeft|
    decreases |points|
  {
    if |points| == 0 then b
    else
      var n := |points| - 1;
      TickBoard(Ticks(b, points[..n], crashes[..n], rocksLeft[..n]), points[n], crashes[n], rocksLeft[n])
  }

  // ---------------------------------------------------------------------------------------
  // Rock spawner

  /** Whether the spawner keeps its candidate rock: a game is running, fewer than 20 rocks
      are on the field and the candidate is at least 100 away from the ship. */
  predicate SpawnAccepted(started: bool, count: int, candidate: Vec, shipPos: Vec) {
    started && count < MaxRocks && FarEnough(candidate, shipPos, MinSpawnDistance)
  }

  /** For the true distance `d` between candidate and ship, a rock is spawned exactly when
      a game runs, the cap is not reached and `d >= 100`. */
  lemma SpawnAcceptedIffFarFromShip(started: bool, count: int, candidate: Vec, shipPos: Vec, d: real)
    requires 0.0 <= d && d * d == DistSq(candidate, shipPos) as real
    ensures SpawnAccepted(started, count, candidate, shipPos)
            <==> started && count < MaxRocks && d >= MinSpawnDistance as real
  {
    FarEnoughIffDistance(candidate, shipPos, MinSpawnDistance, d);
  }

  /** The spawner never takes the rock group past 20. */
  lemma SpawnKeepsCap(started: bool, count: int, candidate: Vec, shipPos: Vec)
    requires count <= MaxRocks
    ensures (if SpawnAccepted(started, count, candidate, shipPos) then count + 1 else count) <= MaxRocks
  {
  }

  lemma SubsetSize(small: set<Sprite>, big: set<Sprite>)
    requires small <= big
    ensures |small| <= |big|
  {
    CardDifference(big, small);
  }

  /** No sprite is both a rock and a missile, at most 20 rocks are on the field, and none
      while the splash screen shows. */
  predicate Consistent(rocks: set<Sprite>, missiles: set<Sprite>, started: bool) {
    && rocks !! missiles
    && |rocks| <= MaxRocks
    && (!started ==> rocks == {})
  }

  /** Consistency survives any step that only removes sprites and that shows the splash
      screen only with the rocks cleared. */
  lemma ConsistentAfterRemoval(rocks0: set<Sprite>, missiles0: set<Sprite>, started0: bool,
                               rocks1: set<Sprite>, missiles1: set<Sprite>, started1: bool)
    requires Consistent(rocks0, missiles0, started0)
    requires rocks1 <= rocks0 && missiles1 <= missiles0
    requires !started1 ==> !started0 || rocks1 == {}
    ensures Consistent(rocks1, missiles1, started1)
  {
    SubsetSize(rocks1, rocks0);
  }

  datatype Key = LeftArrow | RightArrow | UpArrow | Space | OtherKey

  // ---------------------------------------------------------------------------------------
  // The game

  class Game {
    var score: int
    var highScore: int
    var lives: int
    var started: bool
    const ship: Ship
    const rocks: Group
    const missiles: Group

    function Board(): Scoreboard
      reads this
    {
      Scoreboard(score, highScore, lives, started)
    }

    /** Two separate groups; see Consistent. */
    predicate Valid()
      reads this, rocks, missiles
    {
      rocks != missiles && Consistent(rocks.members, missiles.members, started)
    }

    /** The start of the program: the splash screen, three lives, no rocks or missiles and
        the ship at rest in the middle of the field. */
    constructor ()
      ensures Valid()
      ensures Board() == Scoreboard(0, 0, StartingLives, false)
      ensures fresh(ship) && fresh(rocks) && fresh(missiles)
      ensures rocks.members == {} && missiles.members == {}
      ensures ship.pos == Vec(WIDTH / 2, HEIGHT / 2) && ship.vel == Vec(0, 0) && ship.angle == 0
      ensures ship.angleVel == 0 && !ship.thrust && ship.radius == ShipInfo.radius
      ensures ship.imageCenter == ShipInfo.center && ship.FrameMatchesThrust()
    {
      score := 0;
      highScore := 0;
      lives := StartingLives;
      started := false;
      rocks := new Group();
      missiles := new Group();
      ship := new Ship(Vec(WIDTH / 2, HEIGHT / 2), Vec(0, 0), 0, ShipInfo);
    }

    /** The last part of the draw handler: out of lives, the splash screen returns and the
        rocks of a snapshot are removed one by one, each removal also raising the high score
        to the score and resetting the lives. */
    method CheckGameOver()
      modifies this`started, this`highScore, this`lives, rocks`members
      ensures Board() == GameOverAsWritten(old(Board()), old(rocks.members) != {})
      ensures started == (old(started) && old(lives) > 0)
      ensures rocks.members == if old(lives) <= 0 then {} else old(rocks.members)
      ensures forall s: Sprite :: old(allocated(s)) ==> s.State() == old(s.State())
    {
      if lives <= 0 {
        started := false;
        ghost var rocks0, lives0, high0 := rocks.members, lives, highScore;
        var rest := rocks.members;
        while rest != {}
          invariant rocks.members == rest && rest <= rocks0 && !started
          invariant rest == rocks0 ==> lives == lives0 && highScore == high0
          invariant rest != rocks0 ==> lives == StartingLives && highScore == Max(high0, score)
          decreases rest
        {
          var rock :| rock in rest;
          rocks.Remove(rock);
          rest := rest - {rock};
          if score > highScore {
            highScore := score;
          }
          lives := StartingLives;
        }
      }
    }

    /** The moving part of the draw handler: the ship moves (its next velocity, computed
        in floating point, is supplied), then every rock and every missile is updated once
        and the expired ones are pruned. */
    method Move(shipVel: Vec, ghost bodies: map<Sprite, Body>)
      requires Valid()
      requires forall s :: s in rocks.members ==> s in bodies && bodies[s] == Body(Advance(s.State()).pos, s.radius)
      requires forall s :: s in missiles.members ==> s in bodies && bodies[s] == Body(Advance(s.State()).pos, s.radius)
      modifies ship`pos, ship`angle, ship`vel, rocks`members, missiles`members, rocks.members, missiles.members
      ensures Valid()
      ensures ship.pos == WrapPos(old(ship.pos).Plus(old(ship.vel))) && ship.vel == shipVel
      ensures ship.angle == old(ship.angle) + ship.angleVel
      ensures forall s :: s in old(rocks.members) ==> s.State() == Advance(old(s.State()))
      ensures forall s :: s in old(missiles.members) ==> s.State() == Advance(old(s.State()))
      ensures rocks.members == old(Survivors(rocks.members))
      ensures missiles.members == old(Survivors(missiles.members))
      ensures Snapshot(bodies, rocks.members) && Snapshot(bodies, missiles.members)
    {
      ship.Update(shipVel);
      AgeSprites(bodies);
    }

    /** The two process_sprite_group calls of the draw handler: every rock and every
        missile is updated once and the expired ones are pruned. */
    method AgeSprites(ghost bodies: map<Sprite, Body>)
      requires Valid()
      requires forall s :: s in rocks.members ==> s in bodies && bodies[s] == Body(Advance(s.State()).pos, s.radius)
      requires forall s :: s in missiles.members ==> s in bodies && bodies[s] == Body(Advance(s.State()).pos, s.radius)
      modifies rocks`members, missiles`members, rocks.members, missiles.members
      ensures Valid()
      ensures forall s :: s in old(rocks.members) ==> s.State() == Advance(old(s.State()))
      ensures forall s :: s in old(missiles.members) ==> s.State() == Advance(old(s.State()))
      ensures rocks.members == old(Survivors(rocks.members))
      ensures missiles.members == old(Survivors(missiles.members))
      ensures Snapshot(bodies, rocks.members) && Snapshot(bodies, missiles.members)
    {
      ProcessSpriteGroup(rocks);
      ProcessSpriteGroup(missiles);
      ConsistentAfterRemoval(old(rocks.members), old(missiles.members), started, rocks.members, missiles.members, started);
    }

    /** The missile pass of the draw handler, with its hits added to the score. */
    method ScoreHits(ghost bodies: map<Sprite, Body>) returns (ghost order: seq<Sprite>, ghost p: PassResult)
      requires rocks != missiles && Snapshot(bodies, rocks.members) && Snapshot(bodies, missiles.members)
      modifies this`score, rocks`members, missiles`members
      ensures Enumerates(order, old(rocks.members)) && Elements(order) == old(rocks.members)
      ensures p == Pass(order, old(missiles.members), bodies)
      ensures rocks.members == old(rocks.members) - p.rocksHit && missiles.members == p.missilesLeft
      ensures score == old(score) + p.count
      ensures Snapshot(bodies, rocks.members) && missiles.members <= old(missiles.members)
      ensures forall s: Sprite :: old(allocated(s)) ==> s.State() == old(s.State())
    {
      var hits;
      hits, order := GroupGroupCollide(rocks, missiles, bodies);
      EnumeratesIff(order, old(rocks.members));
      p := Pass(order, old(missiles.members), bodies);
      score := score + hits;
    }

    /** The ship pass of the draw handler: every rock overlapping the ship is removed and
        costs one life. */
    method CrashShip(ghost bodies: map<Sprite, Body>) returns (ghost crashed: set<Sprite>)
      requires Snapshot(bodies, rocks.members)
      modifies this`lives, rocks`members
      ensures crashed == HitIn(old(rocks.members), Body(ship.pos, ship.radius), bodies)
      ensures rocks.members == old(rocks.members) - crashed && lives == old(lives) - |crashed|
      ensures forall s: Sprite :: old(allocated(s)) ==> s.State() == old(s.State())
    {
      HitByMatchesSnapshot(rocks.members, ship.pos, ship.radius, bodies);
      var crashes := GroupCollide(rocks, ship.pos, ship.radius);
      crashed := HitIn(old(rocks.members), Body(ship.pos, ship.radius), bodies);
      lives := lives - crashes;
    }

    /** The ship pass of the draw handler followed by the game-over check, after a missile
        pass that started from `board0` and the rocks `rocks0`, removed the rocks `shot` and
        scored `points`. `crashed` is the set of rocks that hit the ship and `left` the
        rocks still on the field when game over is checked. */
    method CrashAndCheck(ghost bodies: map<Sprite, Body>, ghost board0: Scoreboard, ghost rocks0: set<Sprite>,
                         ghost shot: set<Sprite>, ghost points: int)
      returns (ghost crashed: set<Sprite>, ghost left: set<Sprite>)
      requires Snapshot(bodies, rocks.members) && rocks.members == rocks0 - shot
      requires Board() == board0.(score := board0.score + points)
      modifies this`lives, this`started, this`highScore, rocks`members
      ensures crashed == HitIn(rocks0 - shot, Body(ship.pos, ship.radius), bodies)
      ensures left == rocks0 - shot - crashed
      ensures Board() == TickBoard(board0, points, |crashed|, left != {})
      ensures rocks.members == if board0.lives - |crashed| <= 0 then {} else left
      ensures rocks.members <= rocks0
      ensures forall s: Sprite :: old(allocated(s)) ==> s.State() == old(s.State())
    {
      crashed := CrashShip(bodies);
      left := rocks.members;
      CheckGameOver();
    }

    /** The accounting part of the draw handler: the collision passes, then the game-over
        check. `left` is the set of rocks still on the field when game over is checked. */
    method Collide(ghost bodies: map<Sprite, Body>)
      returns (ghost order: seq<Sprite>, ghost p: PassResult, ghost crashed: set<Sprite>, ghost left: set<Sprite>)
      requires rocks != missiles && Snapshot(bodies, rocks.members) && Snapshot(bodies, missiles.members)
      modifies this`score, this`lives, this`started, this`highScore, rocks`members, missiles`members
      ensures rocks.members <= old(rocks.members) && missiles.members <= old(missiles.members)
      ensures !started ==> !old(started) || rocks.members == {}
      ensures Enumerates(order, old(rocks.members)) && Elements(order) == old(rocks.members)
      ensures p == Pass(order, old(missiles.members), bodies)
      ensures crashed == HitIn(old(rocks.members) - p.rocksHit, Body(ship.pos, ship.radius), bodies)
      ensures left == old(rocks.members) - p.rocksHit - crashed
      ensures missiles.members == p.missilesLeft
      ensures Board() == TickBoard(old(Board()), p.count, |crashed|, left != {})
      ensures rocks.members == if old(lives) - |crashed| <= 0 then {} else left
      ensures forall s: Sprite :: old(allocated(s)) ==> s.State() == old(s.State())
    {
      order, p := ScoreHits(bodies);
      crashed, left := CrashAndCheck(bodies, old(Board()), old(rocks.members), p.rocksHit, p.count);
    }

    /** One call of the draw handler, less the drawing: Move, then Collide. Everything is
        stated on the state before the tick: the rocks and missiles that survive their
        update, and where they are after it. So expiry is settled before any collision, and
        collisions use the updated positions. */
    method Tick(shipVel: Vec)
      returns (ghost liveRocks: set<Sprite>, ghost liveMissiles: set<Sprite>, ghost order: seq<Sprite>,
               ghost p: PassResult, ghost crashed: set<Sprite>, ghost left: set<Sprite>)
      requires Valid()
      modifies this`score, this`lives, this`started, this`highScore, ship`pos, ship`angle, ship`vel, rocks`members, missiles`members, rocks.members, missiles.members
      ensures Valid()
      ensures ship.pos == WrapPos(old(ship.pos).Plus(old(ship.vel))) && ship.vel == shipVel
      ensures ship.angle == old(ship.angle) + ship.angleVel
      ensures forall s :: s in old(rocks.members) ==> s.State() == Advance(old(s.State()))
      ensures forall s :: s in old(missiles.members) ==> s.State() == Advance(old(s.State()))
      ensures liveRocks == old(Survivors(rocks.members)) && liveMissiles == old(Survivors(missiles.members))
      ensures Enumerates(order, liveRocks) && Elements(order) == liveRocks
      ensures var bodies := old(NextBodies(rocks.members, missiles.members));
              && p == Pass(order, liveMissiles, bodies)
              && crashed == HitIn(liveRocks - p.rocksHit, Body(ship.pos, ship.radius), bodies)
      ensures left == liveRocks - p.rocksHit - crashed
      ensures missiles.members == p.missilesLeft
      ensures Board() == TickBoard(old(Board()), p.count, |crashed|, left != {})
      ensures rocks.members == if old(lives) - |crashed| <= 0 then {} else left
    {
      ghost var bodies := NextBodies(rocks.members, missiles.members);
      Move(shipVel, bodies);
      liveRocks, liveMissiles := rocks.members, missiles.members;
      order, p, crashed, left := Collide(bodies);
      ConsistentAfterRemoval(liveRocks, liveMissiles, old(started), rocks.members, missiles.members, started);
    }

    /** The rock spawner timer. `rockPos`, `rockVel` and `rockAngleVel` are the random draws
        for the candidate rock, which is kept only as SpawnAccepted says. */
    method RockSpawner(rockPos: Vec, rockVel: Vec, rockAngleVel: int) returns (added: Sprite?)
      requires Valid()
      modifies rocks`members
      ensures Valid()
      ensures if SpawnAccepted(started, |old(rocks.members)|, rockPos, ship.pos)
              then added != null && fresh(added) && rocks.members == old(rocks.members) + {added}
                   && added.State() == Motion(rockPos, rockVel, 0, rockAngleVel, 0)
                   && added.radius == AsteroidInfo.radius && added.lifespan == Infinite
              else added == null && rocks.members == old(rocks.members)
    {
      added := null;
      if !started {
        return;
      }
      if |rocks.members| < MaxRocks {
        var rock := new Sprite(rockPos, rockVel, 0, rockAngleVel, AsteroidInfo);
        if FarEnough(rockPos, ship.pos, MinSpawnDistance) {
          rocks.Add(rock);
          added := rock;
        }
      }
    }

    /** The mouse click handler. */
    method Click(x: int, y: int)
      requires Valid()
      modifies this`started, this`score
      ensures Valid()
      ensures Board() == Clicked(old(Board()), x, y)
    {
      var inside := InsideSplash(x, y);
      if !started && inside {
        started := true;
        score := 0;
      }
    }

    /** The key-down handler. `forward` is the unit vector of the ship's heading; a space
        fires one missile, which is returned. */
    method Keydown(key: Key, forward: Vec) returns (fired: Sprite?)
      requires Valid()
      modifies ship`angleVel, ship`thrust, ship`imageCenter, missiles`members
      ensures Valid()
      ensures ship.angleVel == old(ship.angleVel) + (if key == LeftArrow then -1 else if key == RightArrow then 1 else 0)
      ensures key == UpArrow ==> ship.thrust && ship.imageCenter == old(ship.imageCenter).Plus(Vec(ThrustFrameShift, 0))
      ensures key != UpArrow ==> ship.thrust == old(ship.thrust) && ship.imageCenter == old(ship.imageCenter)
      ensures key == Space ==> fired != null && fresh(fired) && missiles.members == old(missiles.members) + {fired}
                               && fired.State() == Motion(old(ship.pos).Plus(forward.Scale(NoseDistance)),
                                                          old(ship.vel).Plus(forward.Scale(MissileSpeed)),
                                                          old(ship.angle), 0, 0)
                               && fired.radius == MissileInfo.radius && fired.lifespan == Finite(50)
      ensures key != Space ==> fired == null && missiles.members == old(missiles.members)
    {
      fired := null;
      match key
      case LeftArrow => ship.KeydownLeft();
      case RightArrow => ship.KeydownRight();
      case UpArrow => ship.Thruston();
      case Space => fired := ship.Shoot(forward, missiles);
      case OtherKey =>
    }

    /** The key-up handler: releasing a turning key stops the turn, releasing the up arrow
        stops the engine; every other key is ignored. */
    method Keyup(key: Key)
      modifies ship`angleVel, ship`thrust, ship`imageCenter
      ensures key == LeftArrow || key == RightArrow ==> ship.angleVel == 0
      ensures key != LeftArrow && key != RightArrow ==> ship.angleVel == old(ship.angleVel)
      ensures key == UpArrow ==> !ship.thrust && ship.imageCenter == old(ship.imageCenter).Plus(Vec(-ThrustFrameShift, 0))
      ensures key != UpArrow ==> ship.thrust == old(ship.thrust) && ship.imageCenter == old(ship.imageCenter)
    {
      match key
      case LeftArrow => ship.KeyupLeft();
      case RightArrow => ship.KeyupRight();
      case UpArrow => ship.Thrustoff();
      case Space =>
      case OtherKey =>
    }
  }
}
