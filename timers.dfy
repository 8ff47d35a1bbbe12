/**
 * The delay and sound timers. Each is a byte behind a lock, shared between the execution
 * engine and a thread that ticks sixty times a second; the model keeps one tick.
 */
module Timers {
  import opened Words

  /** One shared timer cell. */
  class Timer {
    var value: u8

    constructor ()
      ensures value == 0
    {
      value := 0;
    }
  }

  /** One tick of one timer: a positive count loses one and zero stays zero. */
  function Decrement(v: u8): (r: u8)
    ensures r <= v && v as int - r as int <= 1
    ensures r == v <==> v == 0
  {
    if v > 0 then v - 1 else v
  }

  /** The body of the timer thread's loop: each timer that is positive loses one. */
  method Tick(delay: Timer, sound: Timer)
    requires delay != sound
    modifies delay, sound
    ensures delay.value == Decrement(old(delay.value))
    ensures sound.value == Decrement(old(sound.value))
  {
    if delay.value > 0 {
      delay.value := delay.value - 1;
    }
    if sound.value > 0 {
      sound.value := sound.value - 1;
    }
  }

  /** The value of a timer after `n` ticks. */
  function Ticks(v: u8, n: nat): u8
    decreases n
  {
    if n == 0 then v else Decrement(Ticks(v, n - 1))
  }

  /** `n` ticks take `v` to `max(v - n, 0)`: the count saturates at zero. */
  lemma {:induction false} TicksSaturate(v: u8, n: nat)
    ensures Ticks(v, n) as int == if n <= v as int then v as int - n else 0
  {
    if n > 0 {
      TicksSaturate(v, n - 1);
    }
  }

  /** A timer set to 200 reads 140 after sixty ticks. */
  lemma TickScenario()
    ensures Ticks(200, 60) == 140
  {
    TicksSaturate(200, 60);
  }
}
