/** The records the game keeps: player, bullets, invaders and the whole simulation state. */
module Entities {
  import opened Geometry
  import opened Seqs

  /** Colour tag of an invader; it only follows the row band and never affects play. */
  datatype Colour = Red | Yellow | Cyan

  /** The ship: its rectangle and how far one key press moves it per tick. */
  datatype Player = Player(rect: Rect, speed: real)

  /** A projectile; `speed` is the distance it travels per tick (up for the player's, down for the invaders'). */
  datatype Bullet = Bullet(rect: Rect, speed: real)

  /** One invader of the formation and the score it is worth when shot. */
  datatype Invader = Invader(rect: Rect, colour: Colour, points: int)

  /** The play field size, read once from the canvas. */
  datatype Board = Board(width: real, height: real)

  /** The keys held during one tick: ArrowLeft, ArrowRight and Space. */
  datatype Keys = Keys(left: bool, right: bool, fire: bool)

  /** Everything one tick reads and writes. */
  datatype State = State(
    score: int,
    lives: int,
    running: bool,
    player: Player,
    bullets: seq<Bullet>,
    invaders: seq<Invader>,
    invaderBullets: seq<Bullet>,
    direction: int,
    dropDistance: real,
    speed: real)

  /** Total points of a list of invaders. */
  function SumPoints(invs: seq<Invader>): int
  {
    if |invs| == 0 then 0 else invs[0].points + SumPoints(invs[1..])
  }

  lemma {:induction false} SumPointsAppend(a: seq<Invader>, b: seq<Invader>)
    ensures SumPoints(a + b) == SumPoints(a) + SumPoints(b)
  {
    if |a| == 0 {
      assert a + b == b;
    } else {
      assert (a + b)[1..] == a[1..] + b;
      SumPointsAppend(a[1..], b);
    }
  }

  /** A sum of points none of which is negative is not negative. */
  lemma {:induction false} SumPointsNonNegative(invs: seq<Invader>)
    requires forall k :: 0 <= k < |invs| ==> invs[k].points >= 0
    ensures SumPoints(invs) >= 0
  {
    if |invs| > 0 {
      SumPointsNonNegative(invs[1..]);
    }
  }

  /** Removing one invader takes exactly its points off the total. */
  lemma {:induction false} SumPointsRemoveAt(invs: seq<Invader>, i: nat)
    requires i < |invs|
    ensures SumPoints(invs) == invs[i].points + SumPoints(RemoveAt(invs, i))
  {
    assert invs == invs[..i] + [invs[i]] + invs[i + 1..];
    SumPointsAppend(invs[..i] + [invs[i]], invs[i + 1..]);
    SumPointsAppend(invs[..i], [invs[i]]);
    SumPointsAppend(invs[..i], invs[i + 1..]);
  }

  /** The total depends only on which invaders there are, not on their order. */
  lemma {:induction false} SumPointsMultiset(a: seq<Invader>, b: seq<Invader>)
    requires multiset(a) == multiset(b)
    ensures SumPoints(a) == SumPoints(b)
    decreases |a|
  {
    if |a| == 0 {
      assert |b| == |multiset(b)| == 0;
    } else {
      assert a[0] in multiset(b);
      var i :| 0 <= i < |b| && b[i] == a[0];
      var b' := RemoveAt(b, i);
      assert a == [a[0]] + a[1..];
      assert multiset(a[1..]) == multiset(a) - multiset{a[0]};
      assert multiset(b') == multiset(b) - multiset{b[i]};
      SumPointsMultiset(a[1..], b');
      SumPointsRemoveAt(b, i);
    }
  }
}
