/** The player's part of a tick (game.js `updatePlayer` and `shoot`). */
module PlayerStep {
  import opened Geometry
  import opened Entities

  /** At most this many player bullets may be in flight. */
  const MaxBullets: nat := 3

  /**
   * The left move, then the right move, each behind its own guard; the right guard reads the
   * position the left move left behind, so holding both keys inside the field moves nothing.
   */
  function MovePlayer(p: Player, keys: Keys, board: Board): (r: Player)
    ensures r.rect == p.rect.(x := r.rect.x) && r.speed == p.speed
    ensures !keys.left && !keys.right ==> r == p
    ensures p.speed > 0.0 && r.rect.x < p.rect.x ==> keys.left && p.rect.x > 0.0
    ensures p.speed > 0.0 && r.rect.x > p.rect.x ==> keys.right && p.rect.x < board.width - p.rect.width
    ensures r.rect.x == p.rect.x - p.speed || r.rect.x == p.rect.x || r.rect.x == p.rect.x + p.speed
    ensures keys.left && !keys.right && p.rect.x > 0.0 ==> r.rect.x == p.rect.x - p.speed
    ensures keys.right && !keys.left && p.rect.x < board.width - p.rect.width ==> r.rect.x == p.rect.x + p.speed
    ensures keys.left && keys.right && 0.0 < p.rect.x < board.width - p.rect.width + p.speed ==> r == p
    ensures keys.left && keys.right && p.rect.x <= 0.0 && p.rect.x < board.width - p.rect.width ==>
      r.rect.x == p.rect.x + p.speed
    ensures keys.left && keys.right && p.rect.x > 0.0 && p.rect.x - p.speed >= board.width - p.rect.width ==>
      r.rect.x == p.rect.x - p.speed
  {
    var x1 := if keys.left && p.rect.x > 0.0 then p.rect.x - p.speed else p.rect.x;
    var x2 := if keys.right && x1 < board.width - p.rect.width then x1 + p.speed else x1;
    p.(rect := p.rect.(x := x2))
  }

  /**
   * The guards let the ship stop less than one step beyond either edge of the field: a ship that
   * starts within that band stays within it.
   */
  lemma PlayerStaysNearField(p: Player, keys: Keys, board: Board)
    requires p.speed >= 0.0
    requires -p.speed < p.rect.x < board.width - p.rect.width + p.speed
    ensures var r := MovePlayer(p, keys, board);
      -p.speed < r.rect.x < board.width - p.rect.width + p.speed
  {
  }

  /** A new bullet, 4 x 10, centred on the ship and starting at its top edge, rising 7 per tick. */
  function NewBullet(p: Player): (b: Bullet)
    ensures b.rect.x + b.rect.width / 2.0 == p.rect.x + p.rect.width / 2.0
    ensures b.rect.y == p.rect.y && b.rect.width == 4.0 && b.rect.height == 10.0 && b.speed == 7.0
  {
    Bullet(Rect(p.rect.x + p.rect.width / 2.0 - 2.0, p.rect.y, 4.0, 10.0), 7.0)
  }

  /** Fire: one bullet is added when fewer than three are in flight, otherwise nothing happens. */
  function Shoot(p: Player, bullets: seq<Bullet>): (r: seq<Bullet>)
    ensures |bullets| < MaxBullets ==> r == bullets + [NewBullet(p)]
    ensures |bullets| >= MaxBullets ==> r == bullets
    ensures |r| <= |bullets| + 1
    ensures |bullets| <= MaxBullets ==> |r| <= MaxBullets
  {
    if |bullets| < MaxBullets then bullets + [NewBullet(p)] else bullets
  }

  /** One tick of the player: move, then fire from the new position when Space is held. */
  function UpdatePlayer(s: State, keys: Keys, board: Board): (r: State)
    ensures r == s.(player := r.player, bullets := r.bullets)
    ensures r.player == MovePlayer(s.player, keys, board)
    ensures |s.bullets| <= |r.bullets| <= |s.bullets| + 1
    ensures |s.bullets| <= MaxBullets ==> |r.bullets| <= MaxBullets
    ensures r.bullets[..|s.bullets|] == s.bullets
    ensures |r.bullets| > |s.bullets| <==> keys.fire && |s.bullets| < MaxBullets
    ensures |r.bullets| > |s.bullets| ==> r.bullets[|s.bullets|] == NewBullet(r.player)
  {
    var p := MovePlayer(s.player, keys, board);
    var bs := if keys.fire then Shoot(p, s.bullets) else s.bullets;
    s.(player := p, bullets := bs)
  }
}
