/** `struct timeval` and the macros `timeradd`, `timercmp` and `timersub`. */
module TimeVals {
  datatype TimeVal = TimeVal(sec: int, usec: int)

  const MILLION := 1_000_000

  predicate Normal(t: TimeVal) { 0 <= t.usec < MILLION }

  /** The time a value stands for. */
  function Micros(t: TimeVal): int { t.sec * MILLION + t.usec }

  function TimerAdd(a: TimeVal, b: TimeVal): TimeVal {
    var u := a.usec + b.usec;
    if u >= MILLION then TimeVal(a.sec + b.sec + 1, u - MILLION) else TimeVal(a.sec + b.sec, u)
  }

  function TimerSub(a: TimeVal, b: TimeVal): TimeVal {
    var u := a.usec - b.usec;
    if u < 0 then TimeVal(a.sec - b.sec - 1, u + MILLION) else TimeVal(a.sec - b.sec, u)
  }

  /** `timercmp(&a, &b, <)`; the code's other comparison is this one with its operands swapped. */
  predicate Before(a: TimeVal, b: TimeVal) {
    if a.sec == b.sec then a.usec < b.usec else a.sec < b.sec
  }

  /** A second has a million microseconds. */
  lemma SecondIs()
    ensures Micros(TimeVal(1, 0)) == 1_000_000 && Micros(TimeVal(0, 1)) == 1
    ensures Normal(TimeVal(0, 999_999)) && !Normal(TimeVal(0, 1_000_000))
  {
  }

  /** With normalised operands the field-wise macros are addition, subtraction and order of times. */
  lemma Arithmetic(a: TimeVal, b: TimeVal)
    requires Normal(a) && Normal(b)
    ensures Normal(TimerAdd(a, b)) && Micros(TimerAdd(a, b)) == Micros(a) + Micros(b)
    ensures Normal(TimerSub(a, b)) && Micros(TimerSub(a, b)) == Micros(a) - Micros(b)
    ensures Before(a, b) <==> Micros(a) < Micros(b)
  {
  }
}
