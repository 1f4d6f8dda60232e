/** Bullet flight (game.js `updateBullets` and `updateInvaderBullets`). */
module Projectiles {
  import opened Seqs
  import opened Entities

  /** A player bullet one tick later: it has risen by its speed. */
  function Rise(b: Bullet): Bullet
  {
    b.(rect := b.rect.(y := b.rect.y - b.speed))
  }

  /** An invader bullet one tick later: it has fallen by its speed. */
  function Fall(b: Bullet): Bullet
  {
    b.(rect := b.rect.(y := b.rect.y + b.speed))
  }

  /**
   * Every player bullet rises, and those whose top is no longer below y = 0 are dropped; the rest
   * keep their order.
   */
  function UpdateBullets(bs: seq<Bullet>): (r: seq<Bullet>)
    ensures |r| <= |bs|
    ensures forall i :: 0 <= i < |r| ==> r[i].rect.y > 0.0
    ensures forall b :: b in r <==> exists k :: 0 <= k < |bs| && b == Rise(bs[k]) && b.rect.y > 0.0
    ensures (forall k :: 0 <= k < |bs| ==> Rise(bs[k]).rect.y > 0.0) ==> |r| == |bs|
  {
    if |bs| == 0 then []
    else
      var rest := UpdateBullets(bs[1..]);
      assert forall k :: 0 <= k < |bs[1..]| ==> bs[1..][k] == bs[k + 1];
      var b := Rise(bs[0]);
      if b.rect.y > 0.0 then [b] + rest else rest
  }

  /**
   * Every invader bullet falls, and those whose top is no longer above the bottom of the field are
   * dropped; the rest keep their order.
   */
  function UpdateInvaderBullets(bs: seq<Bullet>, board: Board): (r: seq<Bullet>)
    ensures |r| <= |bs|
    ensures forall i :: 0 <= i < |r| ==> r[i].rect.y < board.height
    ensures forall b :: b in r <==> exists k :: 0 <= k < |bs| && b == Fall(bs[k]) && b.rect.y < board.height
    ensures (forall k :: 0 <= k < |bs| ==> Fall(bs[k]).rect.y < board.height) ==> |r| == |bs|
  {
    if |bs| == 0 then []
    else
      var rest := UpdateInvaderBullets(bs[1..], board);
      assert forall k :: 0 <= k < |bs[1..]| ==> bs[1..][k] == bs[k + 1];
      var b := Fall(bs[0]);
      if b.rect.y < board.height then [b] + rest else rest
  }

  /** Every player bullet risen by one tick, in order. */
  function Risen(bs: seq<Bullet>): (r: seq<Bullet>)
    ensures |r| == |bs|
  {
    seq(|bs|, k requires 0 <= k < |bs| => Rise(bs[k]))
  }

  /** Which risen bullets are still on the field. */
  function StillUp(bs: seq<Bullet>): (r: seq<bool>)
    ensures |r| == |bs|
  {
    seq(|bs|, k requires 0 <= k < |bs| => Rise(bs[k]).rect.y > 0.0)
  }

  /**
   * `updateBullets` is a map and a filter: the result is the risen bullets that are still on the
   * field, each once, in their order.
   */
  lemma {:induction false} UpdateBulletsFilters(bs: seq<Bullet>)
    ensures UpdateBullets(bs) == Keep(Risen(bs), StillUp(bs))
    decreases |bs|
  {
    if |bs| > 0 {
      UpdateBulletsFilters(bs[1..]);
      assert Risen(bs)[1..] == Risen(bs[1..]);
      assert StillUp(bs)[1..] == StillUp(bs[1..]);
    }
  }

  /** Every invader bullet fallen by one tick, in order. */
  function Fallen(bs: seq<Bullet>): (r: seq<Bullet>)
    ensures |r| == |bs|
  {
    seq(|bs|, k requires 0 <= k < |bs| => Fall(bs[k]))
  }

  /** Which fallen bullets are still on the field. */
  function StillIn(bs: seq<Bullet>, board: Board): (r: seq<bool>)
    ensures |r| == |bs|
  {
    seq(|bs|, k requires 0 <= k < |bs| => Fall(bs[k]).rect.y < board.height)
  }

  /**
   * `updateInvaderBullets` is a map and a filter: the result is the fallen bullets that are still
   * on the field, each once, in their order.
   */
  lemma {:induction false} UpdateInvaderBulletsFilters(bs: seq<Bullet>, board: Board)
    ensures UpdateInvaderBullets(bs, board) == Keep(Fallen(bs), StillIn(bs, board))
    decreases |bs|
  {
    if |bs| > 0 {
      UpdateInvaderBulletsFilters(bs[1..], board);
      assert Fallen(bs)[1..] == Fallen(bs[1..]);
      assert StillIn(bs, board)[1..] == StillIn(bs[1..], board);
    }
  }
}
