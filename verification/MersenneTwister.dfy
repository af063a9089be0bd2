/**
 The in-place MT19937 generator against its infinite recurrence: the state array always holds 624
 consecutive terms, each output is a tempered term, and bits and bounded integers are drawn from the
 outputs in order.
 */
module MersenneTwister {
  import opened Wrappers
  import opened Arithmetic
  import opened Integers
  import Model

  type Word = bv32
  const SIZE: nat := 624
  const MIDDLE: nat := 397

  /** The high bit of one word above the low bits of the next. */
  function Spliced(upper: Word, lower: Word): Word {
    (upper & 0x80000000) | (lower & 0x7fffffff)
  }

  function IsOdd(y: Word): bool {
    y & 1 != 0
  }

  function Halved(middle: Word, y: Word): Word {
    middle ^ (y >> 1)
  }

  function Flipped(x: Word): Word {
    x ^ 0x9908b0df
  }

  /** One term of the recurrence from x[k], x[k+1] and x[k+397]. */
  function Twist(upper: Word, lower: Word, middle: Word): Word {
    var y := Spliced(upper, lower);
    if IsOdd(y) then Flipped(Halved(middle, y)) else Halved(middle, y)
  }

  /** The infinite sequence that starts with the 624 given words. */
  function Term(init: seq<Word>, k: nat): Word
    requires |init| == SIZE
  {
    if k < SIZE then init[k]
    else Twist(Term(init, k - SIZE), Term(init, k - SIZE + 1), Term(init, k - SIZE + MIDDLE))
  }

  lemma {:induction false} TermFromThree(init: seq<Word>, k: nat)
    requires |init| == SIZE
    ensures Term(init, k + 624) == Twist(Term(init, k), Term(init, k + 1), Term(init, k + 397))
  {
  }

  // ----- the recurrence loses nothing -----

  /** What was spliced, from a new term and the middle one: the flip shows in the top bit. */
  function Untwist(term: Word, middle: Word): Word {
    var shifted := term ^ middle;
    if shifted & 0x80000000 != 0 then ((shifted ^ 0x9908b0df) << 1) | 1 else shifted << 1
  }

  lemma {:induction false} SplicedBits(upper: Word, lower: Word)
    ensures Spliced(upper, lower) >> 31 == upper >> 31 && Spliced(upper, lower) << 1 == lower << 1
  {
  }

  lemma {:induction false} ShiftUndone(y: Word)
    ensures y & 1 == 0 ==> (y >> 1) << 1 == y
    ensures y & 1 != 0 ==> ((y >> 1) << 1) | 1 == y
    ensures (y >> 1) & 0x80000000 == 0
  {
  }

  /** A new term and the middle term determine the top bit and the low bits that it was made of. */
  lemma {:induction false} TwistUndone(upper: Word, lower: Word, middle: Word)
    ensures var y := Untwist(Twist(upper, lower, middle), middle);
            y >> 31 == upper >> 31 && y << 1 == lower << 1
  {
    var y := Spliced(upper, lower);
    SplicedBits(upper, lower);
    ShiftUndone(y);
    CancelMiddle(y >> 1, middle);
    CancelFlip(y >> 1, middle);
  }

  lemma {:induction false} CancelMiddle(h: Word, middle: Word)
    ensures (middle ^ h) ^ middle == h
  {
  }

  lemma {:induction false} CancelFlip(h: Word, middle: Word)
    requires h & 0x80000000 == 0
    ensures (((middle ^ h) ^ 0x9908b0df) ^ middle) ^ 0x9908b0df == h
    ensures (((middle ^ h) ^ 0x9908b0df) ^ middle) & 0x80000000 != 0
  {
  }

  function Right11(y: Word): Word {
    y ^ (y >> 11)
  }

  function Left7(y: Word): Word {
    y ^ ((y << 7) & 0x9d2c5680)
  }

  function Left15(y: Word): Word {
    y ^ ((y << 15) & 0xefc60000)
  }

  function Right18(y: Word): Word {
    y ^ (y >> 18)
  }

  function Temper(y: Word): Word {
    Right18(Left15(Left7(Right11(y))))
  }

  // ----- tempering loses nothing -----

  function UndoRight18(z: Word): Word {
    z ^ (z >> 18)
  }

  function UndoLeft15(z: Word): Word {
    z ^ ((z << 15) & 0xefc60000)
  }

  function UndoLeft7(z: Word): Word {
    var a := z ^ ((z << 7) & 0x9d2c5680);
    var b := z ^ ((a << 7) & 0x9d2c5680);
    var c := z ^ ((b << 7) & 0x9d2c5680);
    z ^ ((c << 7) & 0x9d2c5680)
  }

  function UndoRight11(z: Word): Word {
    var a := z ^ (z >> 11);
    z ^ (a >> 11)
  }

  function Untemper(z: Word): Word {
    UndoRight11(UndoLeft7(UndoLeft15(UndoRight18(z))))
  }

  lemma {:induction false} Shift18Cancels(y: Word)
    ensures UndoRight18(y ^ (y >> 18)) == y
  {
  }

  lemma {:induction false} Shift11Cancels(y: Word)
    ensures UndoRight11(y ^ (y >> 11)) == y
  {
  }

  lemma {:induction false} UndoesRight18(y: Word)
    ensures UndoRight18(Right18(y)) == y
  {
    Shift18Cancels(y);
  }

  lemma {:induction false} UndoesLeft15(y: Word)
    ensures UndoLeft15(Left15(y)) == y
  {
  }

  lemma {:induction false} UndoesLeft7(y: Word)
    ensures UndoLeft7(Left7(y)) == y
  {
  }

  lemma {:induction false} UndoesRight11(y: Word)
    ensures UndoRight11(Right11(y)) == y
  {
    Shift11Cancels(y);
  }

  /** Every output determines the state word it came from. */
  lemma {:induction false} TemperInjective(y: Word)
    ensures Untemper(Temper(y)) == y
  {
    UndoesRight18(Left15(Left7(Right11(y))));
    UndoesLeft15(Left7(Right11(y)));
    UndoesLeft7(Right11(y));
    UndoesRight11(y);
  }

  /** The n-th output, counting from zero. */
  function Output(init: seq<Word>, n: nat): Word
    requires |init| == SIZE
  {
    Temper(Term(init, SIZE + n))
  }

  predicate IsBitLength(value: int, k: nat) {
    0 < k <= 31 && Power(2, k - 1) <= value < Power(2, k)
  }

  /** The first of the draws from the n-th word on that is below the width, within a number of redraws. */
  function FirstBelow(init: seq<Word>, n: nat, k: nat, width: int, redraws: nat): (r: Option<nat>)
    requires |init| == SIZE && 0 < k <= 31
    ensures r.Some? ==> r.value < width
    decreases redraws
  {
    if Bits(init, n, k) < width then Some(Bits(init, n, k))
    else if redraws == 0 then None
    else FirstBelow(init, n + 1, k, width, redraws - 1)
  }

  /** What rejection sampling over `width` values from `low` on gives, with the bit length of the width. */
  ghost predicate Draws(init: seq<Word>, n: nat, low: int, width: int, redraws: nat, drawn: Option<int>) {
    |init| == SIZE && exists k: nat ::
      IsBitLength(width, k) && drawn == Shifted(low, FirstBelow(init, n, k, width, redraws))
  }

  function Shifted(low: int, draw: Option<nat>): Option<int> {
    if draw.Some? then Some(low + draw.value) else None
  }

  class Generator {
    const state: array<Word>
    var index: nat
    ghost const init: seq<Word>
    ghost var block: nat

    /** The state holds one block of 624 consecutive terms. */
    ghost predicate Valid()
      reads this, state
    {
      && |init| == SIZE && state.Length == SIZE && index <= SIZE
      && SIZE * block + index >= SIZE
      && forall j :: 0 <= j < SIZE ==> state[j] == Term(init, SIZE * block + j)
    }

    /** How many words were drawn. */
    ghost function Drawn(): nat
      requires Valid()
      reads this, state
    {
      SIZE * block + index - SIZE
    }

    constructor (words: seq<Word>)
      requires |words| == SIZE
      ensures Valid() && init == words && Drawn() == 0 && fresh(state)
    {
      state := new Word[SIZE](i requires 0 <= i < |words| => words[i]);
      index, init, block := SIZE, words, 0;
    }

    /** Replace the state by the next 624 terms, in place. */
    method Regenerate()
      requires Valid() && index == SIZE
      modifies this, state
      ensures Valid() && index == 0 && block == old(block) + 1
    {
      ghost var base := SIZE * block;
      for i := 0 to SIZE
        invariant forall j :: 0 <= j < i ==> state[j] == Term(init, base + SIZE + j)
        invariant forall j :: i <= j < SIZE ==> state[j] == Term(init, base + j)
        invariant index == SIZE && block == old(block)
      {
        var lower := state[if i + 1 == SIZE then 0 else i + 1];
        var middle := state[if i + MIDDLE < SIZE then i + MIDDLE else i + MIDDLE - SIZE];
        assert lower == Term(init, base + i + 1);
        assert middle == Term(init, base + i + MIDDLE);
        TermFromThree(init, base + i);
        assert Term(init, base + SIZE + i) == Twist(state[i], lower, middle);
        var y := Spliced(state[i], lower);
        var next := Halved(middle, y);
        if IsOdd(y) {
          next := Flipped(next);
        }
        state[i] := next;
      }
      index := 0;
      block := block + 1;
    }

    /** The n-th call returns the n-th output of the recurrence. */
    method Next() returns (word: Word)
      requires Valid()
      modifies this, state
      ensures Valid() && Drawn() == old(Drawn()) + 1
      ensures word == Output(init, old(Drawn()))
    {
      ghost var drawn := Drawn();
      if index >= SIZE {
        Regenerate();
      }
      assert Drawn() == drawn;
      word := Temper(state[index]);
      index := index + 1;
    }

    /** Draw `width` random bits, least significant word first; the last word keeps its high bits. */
    method GetRandBits(width: int) returns (r: Result<nat>)
      requires Valid()
      modifies this, state
      ensures Valid()
      ensures r.Ok? <==> 0 < width <= 64
      ensures r.Ok? ==> r.value == Bits(init, old(Drawn()), width) < Power(2, width)
      ensures r.Ok? ==> Draw(init, old(Drawn()), width, r.value)
      ensures r.Ok? ==> Drawn() == old(Drawn()) + if width <= 32 then 1 else 2
      ensures r.Err? ==> r.error == Invalid(NegativeArgument) && Drawn() == old(Drawn())
    {
      if !(0 < width <= 64) {
        return Err(Invalid(NegativeArgument));
      }
      BitsBounded(init, Drawn(), width);
      BitsAreDrawn(init, Drawn(), width);
      var low := Next();
      if width <= 32 {
        return Ok(HighBits(low, width));
      }
      var high := Next();
      return Ok(Value(low) + 0x1_0000_0000 * HighBits(high, width - 32));
    }

    /** Draws as many bits as the width has, again while the draw is not below the width, up to a number of redraws. */
    method RandInt(low: int, high: int, redraws: nat) returns (r: Result<Option<int>>)
      requires Valid()
      requires -0x8000_0000 <= low < 0x8000_0000 && -0x8000_0000 <= high < 0x8000_0000
      modifies this, state
      ensures Valid()
      ensures r.Ok? <==> low <= high && high - low < 0x7fff_ffff
      ensures r.Ok? && r.value.Some? ==> low <= r.value.value <= high
      ensures r.Ok? ==> Draws(init, old(Drawn()), low, high - low + 1, redraws, r.value)
    {
      if low > high {
        return Err(Invalid(NegativeArgument));
      }
      var width := Model.ToInt32(high - low + 1);
      assert high - low < 0x7fff_ffff ==> width == high - low + 1;
      assert high - low >= 0x7fff_ffff ==> width <= 0;
      var k := IntBitLength(width);
      var value :- GetRandBits(k);
      assert IsBitLength(high - low + 1, k);
      ghost var start := old(Drawn());
      assert Drawn() == start + 1 && value == Bits(init, start, k);
      var draw := Redraw(value, width, k, redraws);
      return Ok(Shifted(low, draw));
    }

    /** The loop of rejection sampling, from a draw already made. */
    method Redraw(drawn: nat, width: int, k: nat, redraws: nat) returns (r: Option<nat>)
      requires Valid() && 0 < k <= 31 && Drawn() > 0 && drawn == Bits(init, Drawn() - 1, k)
      modifies this, state
      ensures Valid()
      ensures r == FirstBelow(init, old(Drawn()) - 1, k, width, redraws)
    {
      var value := drawn;
      ghost var start := Drawn() - 1;
      for i := 0 to redraws
        invariant Valid() && Drawn() == start + i + 1
        invariant value == Bits(init, start + i, k)
        invariant FirstBelow(init, start, k, width, redraws) == FirstBelow(init, start + i, k, width, redraws - i)
      {
        if value < width {
          return Some(value);
        }
        var again := GetRandBits(k);
        value := again.value;
      }
      return if value < width then Some(value) else None;
    }
  }

  function Value(word: Word): (r: nat)
    ensures r < 0x1_0000_0000
  {
    word as nat
  }

  /** The `keep` high bits of a word. */
  function HighBits(word: Word, keep: nat): nat
    requires keep <= 32
  {
    Quotient(Value(word), Power(2, 32 - keep))
  }

  lemma {:induction false} HighBitsBounded(word: Word, keep: nat)
    requires keep <= 32
    ensures HighBits(word, keep) < Power(2, keep)
  {
    PowersOfTwo();
    PowerAdd(2, keep, 32 - keep);
    QuotientBelow(Value(word), Power(2, keep), Power(2, 32 - keep));
  }

  /** The bits a draw of `width` takes from the outputs at position `n`. */
  function Bits(init: seq<Word>, n: nat, width: nat): nat
    requires |init| == SIZE && 0 < width <= 64
  {
    if width <= 32 then HighBits(Output(init, n), width)
    else Value(Output(init, n)) + 0x1_0000_0000 * HighBits(Output(init, n + 1), width - 32)
  }

  /** The value is the number that the `keep` high bits of the word are. */
  predicate IsTop(word: Word, keep: nat, value: nat) {
    keep <= 32 && value * Power(2, 32 - keep) <= Value(word) < (value + 1) * Power(2, 32 - keep)
  }

  /** The high bits of one output, or a whole output below the high bits of the next. */
  ghost predicate Draw(init: seq<Word>, n: nat, width: nat, value: nat)
    requires |init| == SIZE
  {
    if width <= 32 then IsTop(Output(init, n), width, value)
    else
      && width <= 64 && value % 0x1_0000_0000 == Value(Output(init, n))
      && IsTop(Output(init, n + 1), width - 32, value / 0x1_0000_0000)
  }

  lemma {:induction false} HighBitsAreTop(word: Word, keep: nat)
    requires keep <= 32
    ensures IsTop(word, keep, HighBits(word, keep))
  {
    Between(Value(word), Power(2, 32 - keep));
  }

  lemma {:induction false} Between(n: nat, p: nat)
    requires p > 0
    ensures Quotient(n, p) * p <= n < (Quotient(n, p) + 1) * p
  {
    var q, r := QuotientRemainder(n, p);
    Distribute(q, 1, p);
  }

  lemma {:induction false} BitsAreDrawn(init: seq<Word>, n: nat, width: nat)
    requires |init| == SIZE && 0 < width <= 64
    ensures Draw(init, n, width, Bits(init, n, width))
  {
    if width <= 32 {
      HighBitsAreTop(Output(init, n), width);
    } else {
      var low, high := Value(Output(init, n)), HighBits(Output(init, n + 1), width - 32);
      HighBitsAreTop(Output(init, n + 1), width - 32);
      Divides(low + 0x1_0000_0000 * high, 0x1_0000_0000, high, low);
    }
  }

  lemma {:induction false} BitsBounded(init: seq<Word>, n: nat, width: nat)
    requires |init| == SIZE && 0 < width <= 64
    ensures Bits(init, n, width) < Power(2, width)
  {
    if width <= 32 {
      HighBitsBounded(Output(init, n), width);
    } else {
      TwoWords(Value(Output(init, n)), Output(init, n + 1), width - 32);
    }
  }

  lemma {:induction false} TwoWords(low: nat, high: Word, keep: nat)
    requires low < 0x1_0000_0000 && keep <= 32
    ensures low + 0x1_0000_0000 * HighBits(high, keep) < Power(2, keep + 32)
  {
    HighBitsBounded(high, keep);
    PowersOfTwo();
    PowerAdd(2, keep, 32);
  }

  /** The number of binary digits of a positive number, zero otherwise. */
  method IntBitLength(value: int) returns (bits: nat)
    ensures value <= 0 ==> bits == 0
    ensures value > 0 ==> bits > 0 && Power(2, bits - 1) <= value < Power(2, bits)
    ensures value < 0x8000_0000 ==> bits <= 31
  {
    bits := 0;
    var remaining := value;
    while remaining > 0
      invariant remaining <= 0 && value <= 0 ==> bits == 0
      invariant value > 0 ==> 0 <= remaining && remaining * Power(2, bits) <= value < (remaining + 1) * Power(2, bits)
      invariant value > 0 && remaining == 0 ==> bits > 0 && Power(2, bits - 1) <= value
      invariant value <= 0 ==> remaining == value && bits == 0
      decreases remaining
    {
      HalveStep(value, remaining, Power(2, bits));
      bits := bits + 1;
      remaining := remaining / 2;
    }
    if 0 < value < 0x8000_0000 && bits > 31 {
      PowersOfTwo();
      PowerAdd(2, 31, bits - 32);
      assert 0x8000_0000 * Power(2, bits - 32) >= 0x8000_0000;
    }
  }

  lemma {:induction false} HalveStep(value: int, remaining: int, p: nat)
    requires remaining > 0 && p > 0
    requires remaining * p <= value < (remaining + 1) * p
    ensures (remaining / 2) * (2 * p) <= value < (remaining / 2 + 1) * (2 * p)
    ensures p <= value
  {
    var h := remaining / 2;
    assert h * (2 * p) == (2 * h) * p;
    assert (h + 1) * (2 * p) == (2 * h + 2) * p;
    assert (2 * h) * p <= remaining * p;
    assert (remaining + 1) * p <= (2 * h + 2) * p;
    assert 1 * p <= remaining * p;
  }
}
