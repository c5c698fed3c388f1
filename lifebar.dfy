/**
 * The `TimeLifeBar` of script2.js: a life gauge used while idle and a
 * countdown used in battle, driven by a one-second interval timer. Only the
 * integer state is modelled; the bar's width and colour are presentation.
 */
module LifeBar {
  import opened Symbols

  /** The two values `changeMode` is called with, "idle" and "battle". */
  datatype Mode = Idle | Battle

  /** The life after `recoverLife(amount)`: raised by `amount`, but never above `maxLife`. */
  function Recovered(life: int, amount: int, maxLife: int): (l: int)
    ensures l <= maxLife && l <= life + amount
    ensures l == maxLife || l == life + amount
  {
    Min(life + amount, maxLife)
  }

  /** The life after `decreaseLife(amount)`: lowered by `amount`, but never below 0. */
  function Lowered(life: int, amount: int): (l: int)
    ensures 0 <= l && life - amount <= l
    ensures l == 0 || l == life - amount
  {
    Max(life - amount, 0)
  }

  /** The time left after one tick of the countdown: one second less, but never below 0. */
  function Ticked(time: int): (t: int)
    ensures 0 <= t && time - 1 <= t
    ensures t == 0 || t == time - 1
  {
    Max(time - 1, 0)
  }

  /** A gain or a loss that is not negative keeps the life between 0 and `maxLife`. */
  lemma LifeStaysInRange(life: int, amount: int, maxLife: int)
    requires 0 <= life <= maxLife && 0 <= amount
    ensures 0 <= Recovered(life, amount, maxLife) <= maxLife
    ensures 0 <= Lowered(life, amount) <= maxLife
  {
  }

  /** A negative amount breaks the range: `recoverLife(-5)` at life 3 leaves -2, `decreaseLife(-5)` at 8 of 10 leaves 13. */
  lemma NegativeAmountLeavesRange()
    ensures Recovered(3, -5, 10) == -2
    ensures Lowered(8, -5) == 13
  {
  }

  /** `detectLife` after `decreaseLife(amount)` holds exactly when the loss is at least the life. */
  lemma LoweredToDeath(life: int, amount: int)
    ensures Lowered(life, amount) <= 0 <==> amount >= life
  {
  }

  /** The time left after `n` ticks. */
  function Ticks(time: int, n: nat): int
    decreases n
  {
    if n == 0 then time else Ticks(Ticked(time), n - 1)
  }

  /** After `n` ticks the countdown has lost `n` seconds, stopping at 0. */
  lemma {:induction false} TicksCountDown(time: int, n: nat)
    requires 0 <= time
    ensures Ticks(time, n) == Max(time - n, 0)
  {
    if n > 0 {
      TicksCountDown(Ticked(time), n - 1);
    }
  }

  /** A countdown from `maxTime` seconds first reaches 0 at tick `maxTime`. */
  lemma CountdownLength(maxTime: nat, n: nat)
    ensures Ticks(maxTime, n) == 0 <==> n >= maxTime
  {
    TicksCountDown(maxTime, n);
  }

  class TimeLifeBar {
    const maxLife: int
    const maxTime: int
    /** The life shown while idle. */
    var life: int
    /** The seconds left in battle. */
    var time: int
    var mode: Mode
    /** The countdown interval is running. */
    var ticking: bool

    /** Life and time stay within their gauges, and the countdown runs exactly in battle. */
    predicate Valid()
      reads this
    {
      0 <= life <= maxLife && 0 <= time <= maxTime && (ticking <==> mode == Battle)
    }

    /** `constructor(maxLife, maxTime)`: both gauges full, idle, no timer. */
    constructor(maxLife: int, maxTime: int)
      ensures this.maxLife == maxLife && this.maxTime == maxTime
      ensures life == maxLife && time == maxTime && mode == Idle && !ticking
      ensures 0 <= maxLife && 0 <= maxTime ==> Valid()
    {
      this.maxLife := maxLife;
      this.maxTime := maxTime;
      life := maxLife;
      time := maxTime;
      mode := Idle;
      ticking := false;
    }

    /**
     * `changeMode(mode)`: any running countdown is cleared; battle refills the
     * time and starts a new countdown.
     */
    method ChangeMode(m: Mode)
      modifies this
      ensures mode == m && ticking == (m == Battle)
      ensures time == if m == Battle then maxTime else old(time)
      ensures life == old(life)
      ensures old(Valid()) ==> Valid()
    {
      mode := m;
      ticking := false;
      if m == Battle {
        time := maxTime;
        ticking := true;
      }
    }

    /**
     * One tick of the interval set by `startCountdown`: a second less; at 0
     * the bar goes back to idle, which stops the countdown.
     */
    method Tick()
      modifies this
      ensures time == Ticked(old(time)) && life == old(life)
      ensures old(time) <= 1 ==> mode == Idle && !ticking
      ensures old(time) > 1 ==> mode == old(mode) && ticking == old(ticking)
      ensures old(Valid()) ==> Valid()
    {
      time := time - 1;
      if time <= 0 {
        time := 0;
        ChangeMode(Idle);
      }
    }

    /** `recoverLife(amount)`. */
    method RecoverLife(amount: int)
      modifies this
      ensures life == Recovered(old(life), amount, maxLife)
      ensures time == old(time) && mode == old(mode) && ticking == old(ticking)
      ensures old(Valid()) && 0 <= amount ==> Valid()
    {
      life := Min(life + amount, maxLife);
      if old(Valid()) && 0 <= amount {
        LifeStaysInRange(old(life), amount, maxLife);
      }
    }

    /** `decreaseLife(amount)`. */
    method DecreaseLife(amount: int)
      modifies this
      ensures life == Lowered(old(life), amount)
      ensures time == old(time) && mode == old(mode) && ticking == old(ticking)
      ensures old(Valid()) && 0 <= amount ==> Valid()
      ensures life <= 0 <==> amount >= old(life)
    {
      life := Max(life - amount, 0);
      if old(Valid()) && 0 <= amount {
        LifeStaysInRange(old(life), amount, maxLife);
      }
      LoweredToDeath(old(life), amount);
    }

    /** `detectLife()`: the life is used up. */
    method DetectLife() returns (dead: bool)
      ensures dead <==> life <= 0
      ensures Valid() ==> (dead <==> life == 0)
    {
      dead := life <= 0;
    }
  }
}
