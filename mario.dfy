/** The stand-alone jump demo (MarioRunner.java): a body that walks left
    and right on the ground line and jumps under integer gravity. */
module Mario {
  /** The ground line: y grows downwards, so a jump makes y smaller. */
  const Ground := 300
  const Speed := 2
  const JumpStrength := 12
  const Gravity := 1

  datatype Key = RightKey | LeftKey | SpaceKey | OtherKey

  /** The vertical and horizontal state the event handlers update. */
  datatype Body = Body(x: int, y: int, vy: int, jumping: bool)

  /** One timer tick: rise by the velocity, lose one unit of velocity, and
      snap back to the ground once at or below it. */
  function Tick(b: Body): (r: Body)
    ensures r.x == b.x
    ensures !b.jumping ==> r == b
    ensures b.jumping && r.jumping ==> r.y == b.y - b.vy && r.vy == b.vy - Gravity && r.y < Ground
    ensures b.jumping && !r.jumping ==> r.y == Ground && r.vy == 0 && b.y - b.vy >= Ground
  {
    if b.jumping then
      var y := b.y - b.vy;
      var vy := b.vy - Gravity;
      if y >= Ground then Body(b.x, Ground, 0, false) else Body(b.x, y, vy, true)
    else b
  }

  /** One key press: the arrows walk, space starts a jump only from the ground. */
  function Press(b: Body, k: Key): (r: Body)
    ensures r.y == b.y
    ensures k == RightKey ==> r == b.(x := b.x + Speed)
    ensures k == LeftKey ==> r == b.(x := b.x - Speed)
    ensures k == SpaceKey && !b.jumping ==> r == b.(jumping := true, vy := JumpStrength)
    ensures k == OtherKey || (k == SpaceKey && b.jumping) ==> r == b
  {
    match k
    case RightKey => b.(x := b.x + Speed)
    case LeftKey => b.(x := b.x - Speed)
    case SpaceKey => if !b.jumping then b.(jumping := true, vy := JumpStrength) else b
    case OtherKey => b
  }

  /** n timer ticks in a row. */
  function Ticks(b: Body, n: nat): Body
    decreases n
  {
    if n == 0 then b else Ticks(Tick(b), n - 1)
  }

  /** The states a body can reach from the initial one: on the ground at
      rest, or in flight with a height above ground fixed by the velocity
      (the sum JumpStrength + ... + (vy + 1) of the velocities spent). */
  ghost predicate Trajectory(b: Body)
  {
    if b.jumping then
      -JumpStrength <= b.vy <= JumpStrength &&
      2 * (Ground - b.y) == (JumpStrength - b.vy) * (JumpStrength + 1 + b.vy)
    else
      b.y == Ground && b.vy == 0
  }

  /** The height formula is positive strictly inside the velocity range. */
  lemma AirborneHeight(vy: int)
    requires -JumpStrength <= vy < JumpStrength
    ensures (JumpStrength - vy) * (JumpStrength + 1 + vy) > 0
  {
  }

  /** A tick keeps a body on its trajectory, and the landing happens
      exactly when the velocity drops below -JumpStrength. */
  lemma TickPreserves(b: Body)
    requires Trajectory(b)
    ensures Trajectory(Tick(b))
    ensures b.jumping ==> (Tick(b).jumping <==> b.vy > -JumpStrength)
  {
    if b.jumping {
      var vy := b.vy - Gravity;
      var h := Ground - b.y;
      assert 2 * (h + b.vy) == (JumpStrength - vy) * (JumpStrength + 1 + vy);
      if b.vy > -JumpStrength {
        AirborneHeight(vy);
      }
    }
  }

  /** A key press keeps a body on its trajectory. */
  lemma PressPreserves(b: Body, k: Key)
    requires Trajectory(b)
    ensures Trajectory(Press(b, k))
  {
  }

  /** Every jump lands: a body in flight with velocity vy is still in the
      air for the next vy + JumpStrength ticks and back on the ground, at
      rest and at the same x, after vy + JumpStrength + 1 ticks. */
  lemma {:induction false} JumpLands(b: Body)
    requires Trajectory(b) && b.jumping
    ensures var n := b.vy + JumpStrength + 1;
            n > 0 && Ticks(b, n) == Body(b.x, Ground, 0, false)
    ensures forall n: nat :: n < b.vy + JumpStrength + 1 ==> Ticks(b, n).jumping
    decreases b.vy + JumpStrength
  {
    TickPreserves(b);
    var next := Tick(b);
    if b.vy == -JumpStrength {
      assert Ticks(b, 1) == Ticks(next, 0) == next;
    } else {
      JumpLands(next);
      assert Ticks(b, b.vy + JumpStrength + 1) == Ticks(next, next.vy + JumpStrength + 1);
      forall n: nat | n < b.vy + JumpStrength + 1
        ensures Ticks(b, n).jumping
      {
        if n > 0 {
          assert Ticks(b, n) == Ticks(next, n - 1);
        }
      }
    }
  }

  /** A jump started from the ground lands again after exactly 25 ticks. */
  lemma {:induction false} JumpFromGround(b: Body)
    requires Trajectory(b) && !b.jumping
    ensures Ticks(Press(b, SpaceKey), 2 * JumpStrength + 1) == b
    ensures forall n: nat :: n < 2 * JumpStrength + 1 ==> Ticks(Press(b, SpaceKey), n).jumping
  {
    JumpLands(Press(b, SpaceKey));
  }

  /** The demo panel's game state, updated by its two event handlers. */
  class MarioRunner {
    var marioX: int
    var marioY: int
    var velocityY: int
    var isJumping: bool

    function State(): Body
      reads this
    {
      Body(marioX, marioY, velocityY, isJumping)
    }

    ghost predicate Valid()
      reads this
    {
      Trajectory(State())
    }

    constructor ()
      ensures Valid() && State() == Body(50, Ground, 0, false)
    {
      marioX := 50;
      marioY := Ground;
      velocityY := 0;
      isJumping := false;
    }

    /** `actionPerformed`: one timer tick. */
    method ActionPerformed()
      requires Valid()
      modifies this
      ensures Valid() && State() == Tick(old(State()))
    {
      TickPreserves(State());
      if isJumping {
        marioY := marioY - velocityY;
        velocityY := velocityY - Gravity;
        if marioY >= Ground {
          marioY := Ground;
          isJumping := false;
          velocityY := 0;
        }
      }
    }

    /** `keyPressed`: arrows walk, space jumps when on the ground. */
    method KeyPressed(key: Key)
      requires Valid()
      modifies this
      ensures Valid() && State() == Press(old(State()), key)
    {
      PressPreserves(State(), key);
      if key == RightKey {
        marioX := marioX + Speed;
      }
      if key == LeftKey {
        marioX := marioX - Speed;
      }
      if key == SpaceKey && !isJumping {
        isJumping := true;
        velocityY := JumpStrength;
      }
    }
  }
}
