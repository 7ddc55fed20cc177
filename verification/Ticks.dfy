/** The wrapping tick counter of timing.c: 32-bit unsigned words, compared as
    signed differences from the current reading. A word stands for many
    unbounded times; `Unwrap` picks the one nearest to the clock. */
module Ticks {

  const HALF := 0x8000_0000
  const WORD := 0x1_0000_0000

  type Word = w: int | 0 <= w < WORD

  function ToWord(x: int): Word { x % WORD }

  function Minus(a: Word, b: Word): Word { (a - b) % WORD }

  function Plus(a: Word, b: int): Word { (a + b) % WORD }

  /** `long at = a->now - now`. */
  function Signed(w: Word): int { if w < HALF then w else w - WORD }

  /** The unbounded time within half the word range of `clock` that `w` is the
      low word of. */
  function Unwrap(clock: int, w: Word): int { clock + Signed(Minus(w, ToWord(clock))) }

  /** `time` lies within half the word range of `clock`. */
  predicate Near(clock: int, time: int) { -HALF <= time - clock < HALF }

  lemma UnwrapExact(clock: int, time: int)
    requires Near(clock, time)
    ensures Unwrap(clock, ToWord(time)) == time
  {
  }

  lemma UnwrapWord(clock: int, w: Word)
    ensures ToWord(Unwrap(clock, w)) == w && Near(clock, Unwrap(clock, w))
  {
  }

  /** A time near both clocks is unwrapped the same way by both. */
  lemma UnwrapMoves(clock: int, clock': int, w: Word)
    requires Near(clock', Unwrap(clock, w))
    ensures Unwrap(clock', w) == Unwrap(clock, w)
  {
    UnwrapWord(clock, w);
    UnwrapExact(clock', Unwrap(clock, w));
  }

  /** Word arithmetic is the low word of unbounded arithmetic. */
  lemma WordArithmetic(x: int, y: int)
    ensures Minus(ToWord(x), ToWord(y)) == ToWord(x - y)
    ensures Plus(ToWord(x), y) == ToWord(x + y)
  {
    Rounds(x % WORD - y % WORD, x / WORD - y / WORD);
    Rounds(x % WORD + y, x / WORD);
  }

  lemma Rounds(a: int, q: int)
    ensures (a + WORD * q) % WORD == a % WORD
  {
    assert a + WORD * q == WORD * (a / WORD + q) + a % WORD;
  }

  lemma LowWord(x: int)
    ensures 0 <= x < WORD ==> ToWord(x) == x
    ensures -WORD <= x < 0 ==> ToWord(x) == x + WORD
  {
  }
}
