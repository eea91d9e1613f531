/**
 * The sequence cursor moved by the arrow keys: forward and back over the
 * sequence names, wrapping at both ends.
 */
module Navigation {

  /** The `event.key` values the handler tells apart. */
  datatype Key = ArrowLeft | ArrowRight | OtherKey

  /**
   * The cursor after a key press, over `count` sequences. With no sequences at
   * all the cursor stays where it is (see `ScrollAsWritten` for the code as
   * written). The operand of `%` is never negative here, so JavaScript's
   * truncating remainder and Dafny's agree.
   */
  function Scroll(index: nat, count: nat, key: Key): (r: nat)
    requires count == 0 || index < count
    ensures count == 0 ==> r == index
    ensures count > 0 ==> r < count
    ensures count > 0 && key == ArrowRight ==> r == if index == count - 1 then 0 else index + 1
    ensures count > 0 && key == ArrowLeft ==> r == if index == 0 then count - 1 else index - 1
    ensures key == OtherKey ==> r == index
  {
    if count == 0 then index
    else
      match key
      case ArrowLeft =>
        if index == 0 then
          ModSmall(count - 1, count);
          (index - 1 + count) % count
        else
          ModWrap(index - 1, count);
          (index - 1 + count) % count
      case ArrowRight =>
        if index == count - 1 then
          ModWrap(0, count);
          (index + 1) % count
        else
          ModSmall(index + 1, count);
          (index + 1) % count
      case OtherKey => index
  }

  /** Left then right, or right then left, comes back to the same sequence. */
  lemma {:induction false} ScrollBackAndForth(index: nat, count: nat)
    requires index < count
    ensures Scroll(Scroll(index, count, ArrowLeft), count, ArrowRight) == index
    ensures Scroll(Scroll(index, count, ArrowRight), count, ArrowLeft) == index
  {
  }

  /** Pressing ArrowRight `steps` times from `index`. */
  function ScrollRight(index: nat, count: nat, steps: nat): (r: nat)
    requires index < count
    ensures r < count
  {
    if steps == 0 then index else Scroll(ScrollRight(index, count, steps - 1), count, ArrowRight)
  }

  /** Up to one full round of ArrowRight presses moves the cursor on by the number of presses, wrapping once. */
  lemma {:induction false} ScrollRightMoves(index: nat, count: nat, steps: nat)
    requires index < count && steps <= count
    ensures ScrollRight(index, count, steps)
         == if index + steps < count then index + steps else index + steps - count
  {
    if steps > 0 {
      ScrollRightMoves(index, count, steps - 1);
    }
  }

  /** `count` presses of ArrowRight come back to the start, and every sequence is reached on the way. */
  lemma {:induction false} FullCircle(index: nat, count: nat, target: nat)
    requires index < count && target < count
    ensures ScrollRight(index, count, count) == index
    ensures ScrollRight(index, count, if target >= index then target - index else target + count - index) == target
  {
    ScrollRightMoves(index, count, count);
    ScrollRightMoves(index, count, if target >= index then target - index else target + count - index);
  }

  /** A remainder already below the divisor is itself. */
  lemma {:induction false} ModSmall(r: nat, count: nat)
    requires r < count
    ensures r % count == r
  {
  }

  /** One whole round more does not change the remainder. */
  lemma {:induction false} ModWrap(r: nat, count: nat)
    requires r < count
    ensures (r + count) % count == r
  {
  }

  /** A number as JavaScript computes it: an integer here, or NaN. */
  datatype JsNumber = Num(value: int) | NaN

  /** The quotient `a / b` rounded toward zero, which JavaScript's `%` is defined by. */
  function JsTrunc(a: int, b: int): int
    requires b != 0
  {
    var m := if b < 0 then -b else b;
    var q := if a >= 0 then a / m else -((-a) / m);
    if b < 0 then -q else q
  }

  /** JavaScript's `a % b`: the remainder truncated toward zero, NaN for a zero divisor. */
  function JsRemainder(a: int, b: int): (r: JsNumber)
    ensures r == NaN <==> b == 0
    ensures r.Num? ==> r.value == a - b * JsTrunc(a, b)
    ensures r.Num? ==> -b < r.value < b || b < r.value < -b
    ensures r.Num? && a >= 0 ==> r.value >= 0
    ensures r.Num? && a < 0 ==> r.value <= 0
  {
    if b == 0 then NaN
    else
      var m := if b < 0 then -b else b;
      if a >= 0 then Num(a % m) else Num(-((-a) % m))
  }

  /** `scrollImages` as written: the new `currentSequenceIndex`, with no guard for zero sequences. */
  function ScrollAsWritten(index: int, count: int, key: Key): (r: JsNumber)
    ensures key != OtherKey ==> (r == NaN <==> count == 0)
    ensures key == OtherKey ==> r == Num(index)
  {
    match key
    case ArrowLeft => JsRemainder(index - 1 + count, count)
    case ArrowRight => JsRemainder(index + 1, count)
    case OtherKey => Num(index)
  }

  /** With at least one sequence, the code as written moves the cursor as `Scroll` does. */
  lemma {:induction false} ScrollAsWrittenAgrees(index: nat, count: nat, key: Key)
    requires index < count
    ensures ScrollAsWritten(index, count, key) == Num(Scroll(index, count, key))
  {
  }

  /** With no sequence loaded, an arrow key turns the cursor into NaN. */
  lemma {:induction false} ScrollWithoutSequences()
    ensures ScrollAsWritten(0, 0, ArrowLeft) == NaN
    ensures ScrollAsWritten(0, 0, ArrowRight) == NaN
    ensures Scroll(0, 0, ArrowLeft) == 0 && Scroll(0, 0, ArrowRight) == 0
  {
  }
}
