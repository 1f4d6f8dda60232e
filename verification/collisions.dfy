/** Collision resolution (game.js `checkCollisions` and `isColliding`). */
module Collisions {
  import opened Geometry
  import opened Seqs
  import opened Entities

  /** A player bullet and the invader it destroyed. */
  datatype Hit = Hit(bullet: Bullet, invader: Invader)

  function HitBullets(hits: seq<Hit>): (r: seq<Bullet>)
    ensures |r| == |hits|
  {
    if |hits| == 0 then [] else [hits[0].bullet] + HitBullets(hits[1..])
  }

  function HitInvaders(hits: seq<Hit>): (r: seq<Invader>)
    ensures |r| == |hits|
  {
    if |hits| == 0 then [] else [hits[0].invader] + HitInvaders(hits[1..])
  }

  /** The index the inner loop stops at: the last invader the bullet overlaps, if any. */
  function Target(b: Bullet, invs: seq<Invader>): Option<nat>
  {
    LastWhere(invs, (v: Invader) => IsColliding(b.rect, v.rect))
  }

  /** Outcome of the player-bullet pass: surviving bullets and invaders, the hits, and the points earned. */
  datatype Sweep = Sweep(bullets: seq<Bullet>, invaders: seq<Invader>, hits: seq<Hit>, gained: int)

  /**
   * What the player-bullet pass promises about its outcome `r` on bullets `bs` and invaders
   * `invs`: each hit pairs one bullet with one overlapping invader, so as many bullets as invaders
   * disappear; the survivors and the hits together are exactly the bullets and invaders given;
   * the score earned is the total of the destroyed invaders' points; and no surviving bullet
   * overlaps a surviving invader.
   */
  ghost predicate Resolves(bs: seq<Bullet>, invs: seq<Invader>, r: Sweep)
  {
    Accounts(bs, invs, r) && HitsOverlap(r) && SurvivorsApart(r)
  }

  /** Survivors plus hits are exactly what went in, and the score earned is the points of the hit invaders. */
  ghost predicate Accounts(bs: seq<Bullet>, invs: seq<Invader>, r: Sweep)
  {
    && |r.hits| == |bs| - |r.bullets| == |invs| - |r.invaders|
    && multiset(r.bullets) + multiset(HitBullets(r.hits)) == multiset(bs)
    && multiset(r.invaders) + multiset(HitInvaders(r.hits)) == multiset(invs)
    && r.gained == SumPoints(HitInvaders(r.hits))
  }

  /** Every hit pairs a bullet with an invader it overlaps. */
  ghost predicate HitsOverlap(r: Sweep)
  {
    forall h :: h in r.hits ==> IsColliding(h.bullet.rect, h.invader.rect)
  }

  /** No surviving bullet overlaps a surviving invader. */
  ghost predicate SurvivorsApart(r: Sweep)
  {
    forall b, v :: b in r.bullets && v in r.invaders ==> !IsColliding(b.rect, v.rect)
  }

  /**
   * The first loop of `checkCollisions`. Bullets are taken from the last to the first; each is
   * checked against the invaders still alive, from the last to the first, and the first overlap
   * removes both and scores the invader's points. The bullets before the current one are still
   * untouched, so the scan of `bs` is: the last bullet against `invs`, then the scan of the
   * other bullets against the invaders that are left.
   */
  function Scan(bs: seq<Bullet>, invs: seq<Invader>): Sweep
    decreases |bs|
  {
    if |bs| == 0 then
      Sweep([], invs, [], 0)
    else
      var last := bs[|bs| - 1];
      var front := bs[..|bs| - 1];
      match Target(last, invs)
      case None =>
        var rest := Scan(front, invs);
        Sweep(rest.bullets + [last], rest.invaders, rest.hits, rest.gained)
      case Some(j) =>
        var rest := Scan(front, RemoveAt(invs, j));
        Sweep(rest.bullets, rest.invaders, [Hit(last, invs[j])] + rest.hits, invs[j].points + rest.gained)
  }

  /** The scan resolves the bullets against the invaders. */
  lemma {:induction false} ScanResolves(bs: seq<Bullet>, invs: seq<Invader>)
    ensures Resolves(bs, invs, Scan(bs, invs))
    decreases |bs|
  {
    if |bs| > 0 {
      var front := bs[..|bs| - 1];
      match Target(bs[|bs| - 1], invs)
      case None =>
        ScanResolves(front, invs);
        MissStep(bs, invs, Scan(front, invs));
      case Some(j) =>
        ScanResolves(front, RemoveAt(invs, j));
        HitStep(bs, invs, j, Scan(front, RemoveAt(invs, j)));
    }
  }

  /**
   * The player-bullet pass: the scan, with what it promises. If the last bullet overlaps some
   * invader, it is spent on the last invader it overlaps.
   */
  function PlayerBulletPass(bs: seq<Bullet>, invs: seq<Invader>): (r: Sweep)
    ensures Resolves(bs, invs, r)
    ensures |bs| > 0 && Target(bs[|bs| - 1], invs).Some? ==>
      Hit(bs[|bs| - 1], invs[Target(bs[|bs| - 1], invs).value]) in r.hits
  {
    ScanResolves(bs, invs);
    Scan(bs, invs)
  }

  /**
   * The scan in two parts: the pass over all bullets is the pass over the bullets from index n on,
   * followed by the pass over the bullets before n against the invaders that are left. With the
   * last-bullet clause of PlayerBulletPass this fixes the target of every bullet: the bullet at
   * index i meets the invaders left by the bullets after it and is spent on the last of them it
   * overlaps.
   */
  lemma PassSplits(bs: seq<Bullet>, invs: seq<Invader>, n: nat)
    requires n <= |bs|
    ensures var later := PlayerBulletPass(bs[n..], invs);
      var earlier := PlayerBulletPass(bs[..n], later.invaders);
      PlayerBulletPass(bs, invs)
        == Sweep(earlier.bullets + later.bullets, earlier.invaders, later.hits + earlier.hits, later.gained + earlier.gained)
  {
    ScanSplits(bs, invs, n);
  }

  /**
   * Every bullet, not only the last, meets the invaders that the bullets after it left alive. If
   * it overlaps one of them it is spent on the last one it overlaps; otherwise it survives.
   */
  lemma EveryBulletScanned(bs: seq<Bullet>, invs: seq<Invader>, i: nat)
    requires i < |bs|
    ensures var left := PlayerBulletPass(bs[i + 1..], invs).invaders;
      Target(bs[i], left).Some? ==> Hit(bs[i], left[Target(bs[i], left).value]) in PlayerBulletPass(bs, invs).hits
    ensures var left := PlayerBulletPass(bs[i + 1..], invs).invaders;
      Target(bs[i], left).None? ==> bs[i] in PlayerBulletPass(bs, invs).bullets
  {
    ScanEveryBullet(bs, invs, i);
  }

  lemma ScanEveryBullet(bs: seq<Bullet>, invs: seq<Invader>, i: nat)
    requires i < |bs|
    ensures var left := Scan(bs[i + 1..], invs).invaders;
      Target(bs[i], left).Some? ==> Hit(bs[i], left[Target(bs[i], left).value]) in Scan(bs, invs).hits
    ensures var left := Scan(bs[i + 1..], invs).invaders;
      Target(bs[i], left).None? ==> bs[i] in Scan(bs, invs).bullets
  {
    ScanSplits(bs, invs, i + 1);
    var left := Scan(bs[i + 1..], invs).invaders;
    var upTo := bs[..i + 1];
    assert upTo[|upTo| - 1] == bs[i] && upTo[..|upTo| - 1] == bs[..i];
    var earlier := Scan(upTo, left);
    match Target(bs[i], left)
    case None =>
      assert earlier.bullets == Scan(bs[..i], left).bullets + [bs[i]];
    case Some(j) =>
      assert earlier.hits == [Hit(bs[i], left[j])] + Scan(bs[..i], RemoveAt(left, j)).hits;
  }

  lemma {:induction false} ScanSplits(bs: seq<Bullet>, invs: seq<Invader>, n: nat)
    requires n <= |bs|
    ensures var later := Scan(bs[n..], invs);
      var earlier := Scan(bs[..n], later.invaders);
      Scan(bs, invs)
        == Sweep(earlier.bullets + later.bullets, earlier.invaders, later.hits + earlier.hits, later.gained + earlier.gained)
    decreases |bs|
  {
    if n == |bs| {
      assert bs[n..] == [] && bs[..n] == bs;
      var all := Scan(bs, invs);
      assert all.bullets + [] == all.bullets && [] + all.hits == all.hits;
    } else {
      var last := bs[|bs| - 1];
      var front := bs[..|bs| - 1];
      var tail := bs[n..];
      assert tail[..|tail| - 1] == front[n..] && tail[|tail| - 1] == last;
      assert front[..n] == bs[..n];
      match Target(last, invs)
      case None =>
        ScanSplits(front, invs, n);
        var later' := Scan(front[n..], invs);
        var earlier := Scan(bs[..n], later'.invaders);
        assert (earlier.bullets + later'.bullets) + [last] == earlier.bullets + (later'.bullets + [last]);
      case Some(j) =>
        ScanSplits(front, RemoveAt(invs, j), n);
        var later' := Scan(front[n..], RemoveAt(invs, j));
        var earlier := Scan(bs[..n], later'.invaders);
        var hit := Hit(last, invs[j]);
        assert [hit] + (later'.hits + earlier.hits) == ([hit] + later'.hits) + earlier.hits;
    }
  }

  /**
   * Survivors keep their order: the surviving bullets are the bullets given with the spent ones
   * left out, and likewise for the invaders, as `splice` leaves them.
   */
  lemma {:induction false} PassKeepsOrder(bs: seq<Bullet>, invs: seq<Invader>)
    ensures IsSubsequence(PlayerBulletPass(bs, invs).bullets, bs)
    ensures IsSubsequence(PlayerBulletPass(bs, invs).invaders, invs)
    decreases |bs|
  {
    if |bs| == 0 {
      SubsequenceOfSelf(invs);
      assert Keep(bs, []) == [];
    } else {
      var last := bs[|bs| - 1];
      var front := bs[..|bs| - 1];
      assert front + [last] == bs;
      match Target(last, invs)
      case None =>
        var rest := PlayerBulletPass(front, invs);
        PassKeepsOrder(front, invs);
        SubsequenceSnoc(rest.bullets, front, last, true);
      case Some(j) =>
        var rest := PlayerBulletPass(front, RemoveAt(invs, j));
        PassKeepsOrder(front, RemoveAt(invs, j));
        SubsequenceSnoc(rest.bullets, front, last, false);
        SubsequenceOfRemoveAt(rest.invaders, invs, j);
    }
  }

  /** The last bullet missed: it joins the survivors of the pass on the others. */
  lemma MissStep(bs: seq<Bullet>, invs: seq<Invader>, rest: Sweep)
    requires |bs| > 0 && Target(bs[|bs| - 1], invs).None?
    requires Resolves(bs[..|bs| - 1], invs, rest)
    ensures Resolves(bs, invs, Sweep(rest.bullets + [bs[|bs| - 1]], rest.invaders, rest.hits, rest.gained))
  {
    var last := bs[|bs| - 1];
    assert bs == bs[..|bs| - 1] + [last];
    MissedAll(last, invs, rest.invaders);
  }

  /** The last bullet hit invader j: both go, and the hit joins those of the pass on the others. */
  lemma HitStep(bs: seq<Bullet>, invs: seq<Invader>, j: nat, rest: Sweep)
    requires |bs| > 0 && Target(bs[|bs| - 1], invs) == Some(j)
    requires Resolves(bs[..|bs| - 1], RemoveAt(invs, j), rest)
    ensures Resolves(bs, invs, Sweep(rest.bullets, rest.invaders, [Hit(bs[|bs| - 1], invs[j])] + rest.hits,
                                     invs[j].points + rest.gained))
  {
    var hit := Hit(bs[|bs| - 1], invs[j]);
    assert IsColliding(hit.bullet.rect, hit.invader.rect);
    HitAccounts(bs, invs, j, rest);
    var r := Sweep(rest.bullets, rest.invaders, [hit] + rest.hits, invs[j].points + rest.gained);
    assert forall h :: h in r.hits ==> h == hit || h in rest.hits;
  }

  lemma HitAccounts(bs: seq<Bullet>, invs: seq<Invader>, j: nat, rest: Sweep)
    requires |bs| > 0 && j < |invs|
    requires Accounts(bs[..|bs| - 1], RemoveAt(invs, j), rest)
    ensures Accounts(bs, invs, Sweep(rest.bullets, rest.invaders, [Hit(bs[|bs| - 1], invs[j])] + rest.hits,
                                     invs[j].points + rest.gained))
  {
    var last := bs[|bs| - 1];
    assert bs == bs[..|bs| - 1] + [last];
    var hits := [Hit(last, invs[j])] + rest.hits;
    assert hits[1..] == rest.hits;
    assert HitBullets(hits) == [last] + HitBullets(rest.hits);
    assert HitInvaders(hits) == [invs[j]] + HitInvaders(rest.hits);
    assert HitInvaders(hits)[1..] == HitInvaders(rest.hits);
  }

  /** A bullet that overlaps none of `invs` overlaps none of the invaders left from them. */
  lemma MissedAll(b: Bullet, invs: seq<Invader>, left: seq<Invader>)
    requires Target(b, invs).None?
    requires multiset(left) <= multiset(invs)
    ensures forall v :: v in left ==> !IsColliding(b.rect, v.rect)
  {
    forall v | v in left
      ensures !IsColliding(b.rect, v.rect)
    {
      assert v in multiset(invs);
      var k :| 0 <= k < |invs| && invs[k] == v;
    }
  }

  /** When no bullet overlaps any invader the pass changes nothing. */
  lemma {:induction false} NoOverlapNoChange(bs: seq<Bullet>, invs: seq<Invader>)
    requires forall i, k :: 0 <= i < |bs| && 0 <= k < |invs| ==> !IsColliding(bs[i].rect, invs[k].rect)
    ensures PlayerBulletPass(bs, invs) == Sweep(bs, invs, [], 0)
    decreases |bs|
  {
    if |bs| > 0 {
      var front := bs[..|bs| - 1];
      assert Target(bs[|bs| - 1], invs).None?;
      NoOverlapNoChange(front, invs);
      assert front + [bs[|bs| - 1]] == bs;
    }
  }

  /** Outcome of the invader-bullet pass. */
  datatype Strike = Strike(invaderBullets: seq<Bullet>, lives: int, running: bool)

  /**
   * The second loop of `checkCollisions`: the last invader bullet that overlaps the player is
   * removed, costs one life and ends the game when no life is left; the loop then stops, so at
   * most one bullet and one life go per tick.
   */
  function InvaderBulletPass(ibs: seq<Bullet>, player: Player, lives: int, running: bool): (r: Strike)
    ensures |ibs| - 1 <= |r.invaderBullets| <= |ibs|
    ensures multiset(r.invaderBullets) <= multiset(ibs)
    ensures r.lives == lives - (|ibs| - |r.invaderBullets|)
    ensures |r.invaderBullets| < |ibs| <==> exists k :: 0 <= k < |ibs| && IsColliding(ibs[k].rect, player.rect)
    ensures |r.invaderBullets| == |ibs| ==> r == Strike(ibs, lives, running)
    ensures |r.invaderBullets| < |ibs| ==> (r.running <==> running && r.lives > 0)
    ensures |r.invaderBullets| < |ibs| ==>
      exists i :: 0 <= i < |ibs| && IsColliding(ibs[i].rect, player.rect) && r.invaderBullets == RemoveAt(ibs, i)
        && forall k :: i < k < |ibs| ==> !IsColliding(ibs[k].rect, player.rect)
  {
    match LastWhere(ibs, (b: Bullet) => IsColliding(b.rect, player.rect))
    case None => Strike(ibs, lives, running)
    case Some(i) => Strike(RemoveAt(ibs, i), lives - 1, if lives - 1 <= 0 then false else running)
  }

  /** The ground check: some invader's bottom edge has reached the player's top. */
  predicate Landed(invs: seq<Invader>, player: Player)
  {
    exists k :: 0 <= k < |invs| && invs[k].rect.y + invs[k].rect.height >= player.rect.y
  }

  /** The state part of `gameOver`: only the running flag changes, to false. */
  function GameOver(s: State): (r: State)
    ensures !r.running && r.(running := s.running) == s
  {
    s.(running := false)
  }

  /**
   * The three passes of `checkCollisions` in order. Any of the game-over calls only clears the
   * running flag; the passes after it still run.
   */
  function CheckCollisions(s: State): (r: State)
    ensures r == s.(score := r.score, lives := r.lives, running := r.running, bullets := r.bullets,
                    invaders := r.invaders, invaderBullets := r.invaderBullets)
    ensures |s.bullets| - |r.bullets| == |s.invaders| - |r.invaders|
    ensures multiset(r.invaders) <= multiset(s.invaders)
    ensures SumPoints(s.invaders) == SumPoints(r.invaders) + (r.score - s.score)
    ensures multiset(r.bullets) <= multiset(s.bullets)
    ensures multiset(r.invaderBullets) <= multiset(s.invaderBullets)
    ensures r.lives == s.lives || r.lives == s.lives - 1
    ensures r.lives == s.lives - (|s.invaderBullets| - |r.invaderBullets|)
    ensures r.running ==> s.running
    ensures r.lives < s.lives && r.lives <= 0 ==> !r.running
    ensures Landed(r.invaders, s.player) ==> !r.running
    ensures !Landed(r.invaders, s.player) && r.lives == s.lives ==> r.running == s.running
    ensures var sweep := PlayerBulletPass(s.bullets, s.invaders);
      r.bullets == sweep.bullets && r.invaders == sweep.invaders && r.score == s.score + sweep.gained
    ensures var strike := InvaderBulletPass(s.invaderBullets, s.player, s.lives, s.running);
      && r.invaderBullets == strike.invaderBullets && r.lives == strike.lives
      && r.running == (strike.running && !Landed(r.invaders, s.player))
  {
    var sweep := PlayerBulletPass(s.bullets, s.invaders);
    assert Resolves(s.bullets, s.invaders, sweep);
    var strike := InvaderBulletPass(s.invaderBullets, s.player, s.lives, s.running);
    SumPointsMultiset(s.invaders, sweep.invaders + HitInvaders(sweep.hits));
    SumPointsAppend(sweep.invaders, HitInvaders(sweep.hits));
    var r := s.(score := s.score + sweep.gained,
                bullets := sweep.bullets,
                invaders := sweep.invaders,
                invaderBullets := strike.invaderBullets,
                lives := strike.lives,
                running := strike.running);
    if Landed(r.invaders, r.player) then GameOver(r) else r
  }
}
