/** The formation's move and fire (game.js `updateInvaders`). */
module March {
  import opened Geometry
  import opened Entities

  /** An invader moved sideways by dx. */
  function Shift(v: Invader, dx: real): Invader
  {
    v.(rect := v.rect.(x := v.rect.x + dx))
  }

  /** The edge test of the march: the invader touches or is past the left or the right side. */
  predicate AtEdge(v: Invader, board: Board)
  {
    v.rect.x <= 0.0 || v.rect.x >= board.width - v.rect.width
  }

  /** The bullet an invader drops: 4 x 10, centred under it, falling 3 per tick. */
  function ShotFrom(v: Invader): (b: Bullet)
    ensures b.rect.x + b.rect.width / 2.0 == v.rect.x + v.rect.width / 2.0
    ensures b.rect.y == v.rect.y + v.rect.height && b.rect.width == 4.0 && b.rect.height == 10.0 && b.speed == 3.0
  {
    Bullet(Rect(v.rect.x + v.rect.width / 2.0 - 2.0, v.rect.y + v.rect.height, 4.0, 10.0), 3.0)
  }

  /** Whether coin `k` came up "fire"; a missing coin means no shot. */
  predicate Fires(coins: seq<bool>, k: nat)
  {
    k < |coins| && coins[k]
  }

  /** The coins left for the invaders after the first one. */
  function Rest(coins: seq<bool>): (r: seq<bool>)
    ensures forall k: nat :: Fires(r, k) == Fires(coins, k + 1)
  {
    if |coins| > 0 then coins[1..] else []
  }

  /** How many of the first n coins came up "fire". */
  function CountFires(coins: seq<bool>, n: nat): (c: nat)
    ensures c <= n
    ensures c == 0 <==> forall k :: 0 <= k < n ==> !Fires(coins, k)
  {
    if n == 0 then 0 else CountFires(coins, n - 1) + (if Fires(coins, n - 1) then 1 else 0)
  }

  /** Counting the first n coins is the first coin plus n - 1 of the rest. */
  lemma {:induction false} CountFiresRest(coins: seq<bool>, n: nat)
    requires n > 0
    ensures CountFires(coins, n) == (if Fires(coins, 0) then 1 else 0) + CountFires(Rest(coins), n - 1)
  {
    if n > 1 {
      CountFiresRest(coins, n - 1);
      assert Fires(Rest(coins), n - 2) == Fires(coins, n - 1);
    }
  }

  /** Outcome of the moves of the loop over the invaders: the moved invaders and whether one hit an edge. */
  datatype Pass = Pass(invaders: seq<Invader>, shouldDrop: bool)

  /**
   * The moves of the `for` loop of `updateInvaders`: each invader in turn moves by dx and is
   * checked against the edges at its new position.
   */
  function Advance(invs: seq<Invader>, dx: real, board: Board): (r: Pass)
    ensures |r.invaders| == |invs|
    ensures forall k :: 0 <= k < |invs| ==> r.invaders[k] == Shift(invs[k], dx)
    ensures r.shouldDrop <==> exists k :: 0 <= k < |r.invaders| && AtEdge(r.invaders[k], board)
  {
    if |invs| == 0 then Pass([], false)
    else
      var v := Shift(invs[0], dx);
      var rest := Advance(invs[1..], dx, board);
      var r := Pass([v] + rest.invaders, AtEdge(v, board) || rest.shouldDrop);
      assert forall k :: 1 <= k < |invs| ==> r.invaders[k] == rest.invaders[k - 1];
      r
  }

  /**
   * The shots of the same loop: in invader order, one bullet under each (already moved) invader
   * whose coin came up "fire", and no other.
   */
  function Volley(moved: seq<Invader>, coins: seq<bool>): (r: seq<Bullet>)
    ensures |r| == CountFires(coins, |moved|) <= |moved|
    ensures forall k :: 0 <= k < |moved| && Fires(coins, k) ==> ShotFrom(moved[k]) in r
    ensures (forall k :: 0 <= k < |moved| ==> !Fires(coins, k)) ==> r == []
  {
    if |moved| == 0 then []
    else
      var rest := Volley(moved[1..], Rest(coins));
      assert forall k :: 1 <= k < |moved| ==> moved[k] == moved[1..][k - 1];
      CountFiresRest(coins, |moved|);
      if Fires(coins, 0) then [ShotFrom(moved[0])] + rest else rest
  }

  /** Every shot of the volley is the shot of an invader whose coin says fire. */
  lemma {:induction false} VolleyFrom(moved: seq<Invader>, coins: seq<bool>)
    ensures forall b :: b in Volley(moved, coins) ==> exists k :: 0 <= k < |moved| && Fires(coins, k) && b == ShotFrom(moved[k])
    decreases |moved|
  {
    if |moved| > 0 {
      var rest := Volley(moved[1..], Rest(coins));
      var r := Volley(moved, coins);
      assert r == (if Fires(coins, 0) then [ShotFrom(moved[0])] else []) + rest;
      VolleyFrom(moved[1..], Rest(coins));
      forall b | b in r
        ensures exists k :: 0 <= k < |moved| && Fires(coins, k) && b == ShotFrom(moved[k])
      {
        if b in rest {
          var k :| 0 <= k < |moved| - 1 && Fires(Rest(coins), k) && b == ShotFrom(moved[1..][k]);
          assert moved[1..][k] == moved[k + 1];
        } else {
          assert Fires(coins, 0) && b == ShotFrom(moved[0]);
        }
      }
    }
  }

  /**
   * The shots in invader order: the shot of each firing invader k sits at the index that counts
   * the firing invaders before it.
   */
  ghost predicate InInvaderOrder(moved: seq<Invader>, coins: seq<bool>, r: seq<Bullet>)
  {
    forall k :: 0 <= k < |moved| && Fires(coins, k) ==>
      CountFires(coins, k) < |r| && r[CountFires(coins, k)] == ShotFrom(moved[k])
  }

  /**
   * The shots come in invader order. With the length in Volley's contract this fixes the volley
   * completely: it is the shots of the firing invaders, in the order of the invaders.
   */
  lemma {:induction false} VolleyInOrder(moved: seq<Invader>, coins: seq<bool>)
    ensures InInvaderOrder(moved, coins, Volley(moved, coins))
    decreases |moved|
  {
    if |moved| > 0 {
      var rest := Volley(moved[1..], Rest(coins));
      var r := Volley(moved, coins);
      assert r == (if Fires(coins, 0) then [ShotFrom(moved[0])] else []) + rest;
      VolleyInOrder(moved[1..], Rest(coins));
      OrderStep(moved, coins, rest, r);
    }
  }

  /** Putting the first invader's shot, if any, in front of the ordered shots of the others keeps the order. */
  lemma OrderStep(moved: seq<Invader>, coins: seq<bool>, rest: seq<Bullet>, r: seq<Bullet>)
    requires |moved| > 0 && InInvaderOrder(moved[1..], Rest(coins), rest)
    requires r == (if Fires(coins, 0) then [ShotFrom(moved[0])] else []) + rest
    ensures InInvaderOrder(moved, coins, r)
  {
    forall k | 0 <= k < |moved| && Fires(coins, k)
      ensures CountFires(coins, k) < |r| && r[CountFires(coins, k)] == ShotFrom(moved[k])
    {
      if k > 0 {
        assert Fires(Rest(coins), k - 1);
        assert moved[1..][k - 1] == moved[k];
        OrderAt(moved, coins, rest, k);
      }
    }
  }

  /** The shot of a later invader moves back by one place when the first invader fires. */
  lemma OrderAt(moved: seq<Invader>, coins: seq<bool>, rest: seq<Bullet>, k: nat)
    requires 0 < k < |moved|
    requires CountFires(Rest(coins), k - 1) < |rest| && rest[CountFires(Rest(coins), k - 1)] == ShotFrom(moved[k])
    ensures var r := (if Fires(coins, 0) then [ShotFrom(moved[0])] else []) + rest;
      CountFires(coins, k) < |r| && r[CountFires(coins, k)] == ShotFrom(moved[k])
  {
    CountFiresRest(coins, k);
  }

  /** Every invader moved down by d. */
  function Drop(invs: seq<Invader>, d: real): (r: seq<Invader>)
    ensures |r| == |invs|
    ensures forall k :: 0 <= k < |invs| ==> r[k] == invs[k].(rect := invs[k].rect.(y := invs[k].rect.y + d))
  {
    if |invs| == 0 then [] else [invs[0].(rect := invs[0].rect.(y := invs[0].rect.y + d))] + Drop(invs[1..], d)
  }

  /**
   * One tick of the formation. Every invader moves sideways by speed x direction. When any of them
   * is then at an edge the whole formation reverses once, drops once and speeds up by 0.1;
   * otherwise heights, direction and speed stay. The shots are appended to the invader bullets.
   */
  function UpdateInvaders(s: State, coins: seq<bool>, board: Board): (r: State)
    ensures r == s.(invaders := r.invaders, invaderBullets := r.invaderBullets, direction := r.direction, speed := r.speed)
    ensures |r.invaders| == |s.invaders|
    ensures forall k :: 0 <= k < |s.invaders| ==>
      && r.invaders[k].rect.x == s.invaders[k].rect.x + s.speed * (s.direction as real)
      && r.invaders[k].rect.width == s.invaders[k].rect.width
      && r.invaders[k].rect.height == s.invaders[k].rect.height
      && r.invaders[k].colour == s.invaders[k].colour
      && r.invaders[k].points == s.invaders[k].points
    ensures var edge := exists k :: 0 <= k < |r.invaders| && AtEdge(r.invaders[k], board);
      if edge then
        && r.direction == -s.direction
        && r.speed == s.speed + 0.1
        && forall k :: 0 <= k < |s.invaders| ==> r.invaders[k].rect.y == s.invaders[k].rect.y + s.dropDistance
      else
        && r.direction == s.direction
        && r.speed == s.speed
        && forall k :: 0 <= k < |s.invaders| ==> r.invaders[k].rect.y == s.invaders[k].rect.y
    ensures |s.invaderBullets| <= |r.invaderBullets| <= |s.invaderBullets| + |s.invaders|
    ensures r.invaderBullets[..|s.invaderBullets|] == s.invaderBullets
    ensures (forall k :: 0 <= k < |s.invaders| ==> !Fires(coins, k)) ==> r.invaderBullets == s.invaderBullets
    ensures |r.invaderBullets| == |s.invaderBullets| + CountFires(coins, |s.invaders|)
    ensures r.invaderBullets == s.invaderBullets + Volley(Advance(s.invaders, s.speed * (s.direction as real), board).invaders, coins)
  {
    var pass := Advance(s.invaders, s.speed * (s.direction as real), board);
    var shots := s.invaderBullets + Volley(pass.invaders, coins);
    if pass.shouldDrop then
      var dropped := Drop(pass.invaders, s.dropDistance);
      assert forall k :: 0 <= k < |dropped| ==> AtEdge(dropped[k], board) == AtEdge(pass.invaders[k], board);
      s.(invaders := dropped, invaderBullets := shots, direction := -s.direction, speed := s.speed + 0.1)
    else
      s.(invaders := pass.invaders, invaderBullets := shots)
  }

  /**
   * Every new invader bullet is the shot of an invader whose coin says fire, taken at its position
   * after the sideways move and before any drop.
   */
  lemma ShotsBeforeDrop(s: State, coins: seq<bool>, board: Board)
    ensures var r := UpdateInvaders(s, coins, board);
      forall j :: |s.invaderBullets| <= j < |r.invaderBullets| ==>
        exists k :: 0 <= k < |s.invaders| && Fires(coins, k)
          && r.invaderBullets[j] == ShotFrom(Shift(s.invaders[k], s.speed * (s.direction as real)))
  {
    var dx := s.speed * (s.direction as real);
    var shots := Volley(Advance(s.invaders, dx, board).invaders, coins);
    var all := UpdateInvaders(s, coins, board).invaderBullets;
    VolleyOfShifted(s.invaders, dx, board, coins);
    forall j | |s.invaderBullets| <= j < |all|
      ensures exists k :: 0 <= k < |s.invaders| && Fires(coins, k) && all[j] == ShotFrom(Shift(s.invaders[k], dx))
    {
      var b := shots[j - |s.invaderBullets|];
      assert all[j] == b && b in shots;
      var k :| 0 <= k < |s.invaders| && Fires(coins, k) && b == ShotFrom(Shift(s.invaders[k], dx));
    }
  }

  /** The volley of a shifted formation, stated against the invaders before the shift. */
  lemma VolleyOfShifted(invs: seq<Invader>, dx: real, board: Board, coins: seq<bool>)
    ensures forall b :: b in Volley(Advance(invs, dx, board).invaders, coins) ==>
      exists k :: 0 <= k < |invs| && Fires(coins, k) && b == ShotFrom(Shift(invs[k], dx))
  {
    var moved := Advance(invs, dx, board).invaders;
    VolleyFrom(moved, coins);
    forall b | b in Volley(moved, coins)
      ensures exists k :: 0 <= k < |invs| && Fires(coins, k) && b == ShotFrom(Shift(invs[k], dx))
    {
      var k :| 0 <= k < |moved| && Fires(coins, k) && b == ShotFrom(moved[k]);
      assert moved[k] == Shift(invs[k], dx);
    }
  }
}
