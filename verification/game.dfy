/** The game as a whole: the start state, the progression check and one tick (game.js `init`, `update`, `checkGameConditions`). */
module SpaceInvaders {
  import opened Geometry
  import opened Entities
  import opened Formation
  import opened PlayerStep
  import opened Projectiles
  import opened March
  import opened Collisions

  /** The state `init` builds for a field of the given size: 3 lives, the ship at the bottom centre, a fresh grid. */
  function Init(board: Board): (s: State)
    ensures s.score == 0 && s.lives == 3 && s.running
    ensures s.bullets == [] && s.invaderBullets == [] && |s.invaders| == 50
    ensures s.player.rect.x + s.player.rect.width / 2.0 == board.width / 2.0
    ensures s.player.rect.y + s.player.rect.height + 20.0 == board.height
    ensures s.player.rect.width == 50.0 && s.player.rect.height == 30.0 && s.player.speed == 5.0
    ensures s.direction == 1 && s.dropDistance == 20.0 && s.speed == 1.0
    ensures s.invaders == CreateInvaders([])
  {
    State(
      score := 0,
      lives := 3,
      running := true,
      player := Player(Rect(board.width / 2.0 - 25.0, board.height - 50.0, 50.0, 30.0), 5.0),
      bullets := [],
      invaders := CreateInvaders([]),
      invaderBullets := [],
      direction := 1,
      dropDistance := 20.0,
      speed := 1.0)
  }

  /**
   * When the last invader is gone a fresh grid is built and the formation gets 0.5 faster;
   * otherwise nothing changes.
   */
  function CheckGameConditions(s: State): (r: State)
    ensures |s.invaders| > 0 ==> r == s
    ensures |s.invaders| == 0 ==> r == s.(invaders := r.invaders, speed := s.speed + 0.5)
    ensures |s.invaders| == 0 ==> r.invaders == CreateInvaders([]) && |r.invaders| == 50
  {
    if |s.invaders| == 0 then s.(invaders := CreateInvaders(s.invaders), speed := s.speed + 0.5) else s
  }

  /**
   * The movement half of a tick: the player, the player bullets, the formation and the invader
   * bullets, in that order. Score, lives and the running flag are untouched.
   */
  function Move(s: State, keys: Keys, coins: seq<bool>, board: Board): (r: State)
    ensures r.score == s.score && r.lives == s.lives && r.running == s.running
    ensures r.dropDistance == s.dropDistance
    ensures |r.bullets| <= |s.bullets| + 1
    ensures |s.bullets| <= MaxBullets ==> |r.bullets| <= MaxBullets
    ensures r.direction == s.direction || r.direction == -s.direction
    ensures s.speed <= r.speed
  {
    var s1 := UpdatePlayer(s, keys, board);
    var s2 := s1.(bullets := UpdateBullets(s1.bullets));
    var s3 := UpdateInvaders(s2, coins, board);
    s3.(invaderBullets := UpdateInvaderBullets(s3.invaderBullets, board))
  }

  /** The resolution half of a tick: collisions, then the progression check. */
  function Resolve(s: State): (r: State)
    ensures r.running ==> s.running
    ensures |r.bullets| <= |s.bullets|
    ensures r.lives == s.lives || r.lives == s.lives - 1
    ensures r.lives < s.lives && r.lives <= 0 ==> !r.running
    ensures r.dropDistance == s.dropDistance && r.direction == s.direction
    ensures s.speed <= r.speed
  {
    CheckGameConditions(CheckCollisions(s))
  }

  /**
   * One tick: nothing while the game is over; otherwise the player, the player bullets, the
   * formation, the invader bullets, the collisions and the progression check, in that order.
   * `coins[k]` stands for the random draw of the k-th invader this tick.
   */
  function Update(s: State, keys: Keys, coins: seq<bool>, board: Board): (r: State)
    ensures !s.running ==> r == s
    ensures r.running ==> s.running
    ensures |r.bullets| <= |s.bullets| + 1
    ensures |s.bullets| <= MaxBullets ==> |r.bullets| <= MaxBullets
    ensures r.lives == s.lives || r.lives == s.lives - 1
    ensures r.lives < s.lives && r.lives <= 0 ==> !r.running
    ensures r.dropDistance == s.dropDistance
    ensures r.direction == s.direction || r.direction == -s.direction
    ensures s.speed <= r.speed
  {
    if !s.running then s else Resolve(Move(s, keys, coins, board))
  }

  /** Every invader is a 40 x 30 invader worth 10, 20 or 30 points. */
  ghost predicate GridInvader(v: Invader)
  {
    v.rect.width == 40.0 && v.rect.height == 30.0 && (v.points == 10 || v.points == 20 || v.points == 30)
  }

  /**
   * What holds of every state the game reaches: a score that is never negative, lives between 0 and
   * 3 and at least one while running, at most three player bullets, a direction of +1 or -1, a
   * formation speed of at least 1 and only grid invaders.
   */
  ghost predicate Valid(s: State)
  {
    && s.score >= 0
    && 0 <= s.lives <= 3
    && (s.running ==> s.lives >= 1)
    && |s.bullets| <= MaxBullets
    && (s.direction == 1 || s.direction == -1)
    && s.speed >= 1.0
    && s.dropDistance == 20.0
    && forall k :: 0 <= k < |s.invaders| ==> GridInvader(s.invaders[k])
  }

  lemma InitValid(board: Board)
    ensures Valid(Init(board))
  {
  }

  /** Every tick keeps the state valid. */
  lemma UpdateKeepsValid(s: State, keys: Keys, coins: seq<bool>, board: Board)
    requires Valid(s)
    ensures Valid(Update(s, keys, coins, board))
  {
    if s.running {
      var m := Move(s, keys, coins, board);
      MoveKeepsValid(s, keys, coins, board);
      CollisionsKeepValid(m);
      ProgressKeepsValid(CheckCollisions(m));
    }
  }

  lemma MoveKeepsValid(s: State, keys: Keys, coins: seq<bool>, board: Board)
    requires Valid(s)
    ensures Valid(Move(s, keys, coins, board))
  {
    var s1 := UpdatePlayer(s, keys, board);
    assert Valid(s1);
    var s2 := s1.(bullets := UpdateBullets(s1.bullets));
    assert Valid(s2);
    MarchKeepsValid(s2, coins, board);
  }

  lemma ProgressKeepsValid(s: State)
    requires Valid(s)
    ensures Valid(CheckGameConditions(s))
  {
    if |s.invaders| == 0 {
      var g := CreateInvaders([]);
      forall k | 0 <= k < |g|
        ensures GridInvader(g[k])
      {
        assert g[k].rect.width == 40.0;
      }
    }
  }

  lemma MarchKeepsValid(s: State, coins: seq<bool>, board: Board)
    requires Valid(s)
    ensures Valid(UpdateInvaders(s, coins, board))
  {
    var r := UpdateInvaders(s, coins, board);
    forall k | 0 <= k < |r.invaders|
      ensures GridInvader(r.invaders[k])
    {
      assert GridInvader(s.invaders[k]);
    }
  }

  lemma CollisionsKeepValid(s: State)
    requires Valid(s) && s.running
    ensures Valid(CheckCollisions(s))
    ensures s.score <= CheckCollisions(s).score
  {
    var r := CheckCollisions(s);
    GridInvadersSurvive(s.invaders, r.invaders);
    ScoreNeverDrops(s.invaders, r.invaders);
  }

  /** Invaders that are left from grid invaders are grid invaders. */
  lemma GridInvadersSurvive(before: seq<Invader>, after: seq<Invader>)
    requires forall k :: 0 <= k < |before| ==> GridInvader(before[k])
    requires multiset(after) <= multiset(before)
    ensures forall k :: 0 <= k < |after| ==> GridInvader(after[k])
  {
    forall k | 0 <= k < |after|
      ensures GridInvader(after[k])
    {
      assert after[k] in multiset(before);
    }
  }

  /** Shooting invaders whose points are all non-negative can only raise the score. */
  lemma ScoreNeverDrops(before: seq<Invader>, after: seq<Invader>)
    requires forall k :: 0 <= k < |before| ==> before[k].points >= 0
    requires multiset(after) <= multiset(before)
    ensures SumPoints(after) <= SumPoints(before)
  {
    var gone := multiset(before) - multiset(after);
    var rest := SeqOf(gone);
    assert multiset(before) == multiset(after + rest);
    SumPointsMultiset(before, after + rest);
    SumPointsAppend(after, rest);
    forall k | 0 <= k < |rest|
      ensures rest[k].points >= 0
    {
      assert rest[k] in multiset(before);
    }
    SumPointsNonNegative(rest);
  }

  /** Some sequence holding exactly the invaders of a multiset. */
  ghost function SeqOf(m: multiset<Invader>): (r: seq<Invader>)
    ensures multiset(r) == m
    decreases |m|
  {
    if |m| == 0 then []
    else
      var v :| v in m;
      [v] + SeqOf(m - multiset{v})
  }

  /** The score of a valid game never goes down. */
  lemma ScoreMonotone(s: State, keys: Keys, coins: seq<bool>, board: Board)
    requires Valid(s)
    ensures s.score <= Update(s, keys, coins, board).score
  {
    if s.running {
      var m := Move(s, keys, coins, board);
      MoveKeepsValid(s, keys, coins, board);
      CollisionsKeepValid(m);
    }
  }
}
