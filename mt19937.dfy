/**
 * The Mersenne-Twister variant of src/prng/mt19937.rs. It follows MT19937's constants
 * but differs in visible ways: the lower mask is 30 bits wide, initialisation and the
 * twist run over the first 623 words only (so the last word stays 0 for ever), the twist
 * indexes modulo 623, and tempering ends with a shift by 1 instead of 18.
 */
module Mt19937 {
  const Words: nat := 624
  const UpperMask: bv32 := 0x8000_0000
  const LowerMask: bv32 := 0x3FFF_FFFF
  const MatrixA: bv32 := 0x9908_B0DF
  const InitMultiplier: bv64 := 1812433253

  // The generator as a value.

  /** `init`'s word `i` from word `i - 1`: a 64-bit product cut to 32 bits, then a wrapping add. */
  function InitWord(previous: bv32, i: nat): (r: bv32)
    requires i < Words
  {
    var p := previous as bv64;
    var product := (InitMultiplier * (p ^ (p >> 30))) & 0xFFFF_FFFF;
    (product as bv32) + (i as bv32)
  }

  /** Word `k` after `init`, for `k` up to 622. */
  function WordAt(seed: bv32, k: nat): bv32
    requires k < Words - 1
    decreases k
  {
    if k == 0 then seed else InitWord(WordAt(seed, k - 1), k)
  }

  /** The state after `new`: words 0 to 622 initialised, the last word left 0. */
  function InitState(seed: bv32): (r: seq<bv32>)
    ensures |r| == Words && r[0] == seed && r[Words - 1] == 0
    ensures forall k :: 0 <= k < Words - 1 ==> r[k] == WordAt(seed, k)
  {
    seq(Words, k requires 0 <= k < Words => if k < Words - 1 then WordAt(seed, k) else 0)
  }

  /** The upper bit of one word joined to the lower 30 bits of the next. */
  function Combine(upper: bv32, lower: bv32): bv32
  {
    (upper & UpperMask) + (lower & LowerMask)
  }

  /** `x >> 1`, mixed with the matrix constant when `x` is odd. */
  function Shifted(x: bv32): bv32
  {
    if x & 1 != 0 then (x >> 1) ^ MatrixA else x >> 1
  }

  /** The new word: the word 397 places on, mixed with the shifted combination. */
  function Mix(far: bv32, x: bv32): bv32
  {
    far ^ Shifted(x)
  }

  /** Word `i` of the twist, computed from the words as they stand at that step. */
  function TwistWord(s: seq<bv32>, i: nat): bv32
    requires |s| == Words && i < Words - 1
  {
    Mix(s[(i + 397) % (Words - 1)], Combine(s[i], s[(i + 1) % (Words - 1)]))
  }

  /** The first `n` steps of the in-place twist: words 0 to `n - 1` rewritten in ascending order. */
  function TwistSteps(s: seq<bv32>, n: nat): (r: seq<bv32>)
    requires |s| == Words && n < Words
    ensures |r| == Words
    decreases n
  {
    if n == 0 then s
    else
      var t := TwistSteps(s, n - 1);
      t[n - 1 := TwistWord(t, n - 1)]
  }

  /** The whole twist. */
  function Twisted(s: seq<bv32>): (r: seq<bv32>)
    requires |s| == Words
    ensures |r| == Words
  {
    TwistSteps(s, Words - 1)
  }

  /** The tempering of `next_u32`. */
  function Temper(y0: bv32): bv32
  {
    var y1 := y0 ^ (y0 >> 11);
    var y2 := y1 ^ ((y1 << 7) & 0x9D2C_5680);
    var y3 := y2 ^ ((y2 << 15) & 0xEFC6_0000);
    y3 ^ (y3 >> 1)
  }

  /** The state of the generator: the words and the index of the next one to read. */
  datatype Gen = Gen(state: seq<bv32>, index: nat)

  /** What holds between calls: 624 words, an index up to 624, and a last word of 0. */
  predicate Valid(g: Gen)
  {
    |g.state| == Words && g.index <= Words && g.state[Words - 1] == 0
  }

  /** `Mt19937Prng::new(seed)` as a value. */
  function Seeded(seed: bv32): (g: Gen)
    ensures Valid(g) && g.index == 0 && g.state[0] == seed
  {
    Gen(InitState(seed), 0)
  }

  /** One call of `next_u32`: twist when all words are used, read, temper, advance. */
  function Next(g: Gen): (r: (bv32, Gen))
    requires Valid(g)
    ensures Valid(r.1) && 1 <= r.1.index
    ensures g.index < Words ==> r.1 == Gen(g.state, g.index + 1) && r.0 == Temper(g.state[g.index])
    ensures g.index == Words ==> r.1 == Gen(Twisted(g.state), 1) && r.0 == Temper(Twisted(g.state)[0])
  {
    TwistKeepsLast(g.state, Words - 1);
    var h := if g.index == Words then Gen(Twisted(g.state), 0) else g;
    (Temper(h.state[h.index]), Gen(h.state, h.index + 1))
  }

  /** The next `k` outputs. */
  function Stream(g: Gen, k: nat): (r: seq<bv32>)
    requires Valid(g)
    ensures |r| == k
    decreases k
  {
    if k == 0 then [] else [Next(g).0] + Stream(Next(g).1, k - 1)
  }

  // The generator as an object.

  class Mt19937Prng {
    const state: array<bv32>
    var index: nat
    var lowerMask: bv32
    var upperMask: bv32

    /** The object's state as a value. */
    function Model(): Gen
      reads this, state
    {
      Gen(state[..], index)
    }

    predicate Invariant()
      reads this, state
    {
      Valid(Model()) && lowerMask == LowerMask && upperMask == UpperMask
    }

    /** `new`: 624 zero words, the seed in word 0, then `init`. */
    constructor (seed: bv32)
      ensures Invariant() && fresh(state)
      ensures Model() == Seeded(seed)
    {
      state := new bv32[Words](_ => 0);
      index := 0;
      lowerMask := (1 << 30) - 1;
      upperMask := 1 << 31;
      new;
      state[0] := seed;
      Init();
      assert state[..] == InitState(seed);
    }

    /** `init`: words 1 to 622 from their predecessors; word 623 is not touched. */
    method Init()
      requires state.Length == Words
      modifies state
      ensures forall k :: 0 <= k < Words - 1 ==> state[k] == WordAt(old(state[0]), k)
      ensures state[Words - 1] == old(state[Words - 1])
    {
      ghost var seed := state[0];
      for i := 1 to Words - 1
        invariant forall k :: 0 <= k < i ==> state[k] == WordAt(seed, k)
        invariant forall k :: i <= k < Words ==> state[k] == old(state[k])
      {
        state[i] := InitWord(state[i - 1], i);
      }
    }

    /** `twist`: words 0 to 622 rewritten in place in ascending order, then the index reset. */
    method Twist()
      requires Invariant()
      modifies this, state
      ensures Invariant()
      ensures state[..] == Twisted(old(state[..])) && index == 0
    {
      ghost var s := state[..];
      for i := 0 to Words - 1
        invariant state[..] == TwistSteps(s, i)
        invariant lowerMask == LowerMask && upperMask == UpperMask
      {
        ghost var t := state[..];
        var x := Combine(state[i], state[(i + 1) % (Words - 1)]);
        var word := Mix(state[(i + 397) % (Words - 1)], x);
        assert word == TwistWord(t, i);
        state[i] := word;
        assert state[..] == t[i := TwistWord(t, i)];
      }
      TwistKeepsLast(s, Words - 1);
      index := 0;
    }

    /** `next_u32`. */
    method NextU32() returns (y: bv32)
      requires Invariant()
      modifies this, state
      ensures Invariant()
      ensures (y, Model()) == Next(old(Model()))
    {
      if index == Words {
        Twist();
      }
      y := Temper(state[index]);
      index := index + 1;
    }
  }

  // Properties

  /** The twist never writes the last word. */
  lemma {:induction false} TwistKeepsLast(s: seq<bv32>, n: nat)
    requires |s| == Words && n < Words
    ensures TwistSteps(s, n)[Words - 1] == s[Words - 1]
    decreases n
  {
    if n > 0 {
      TwistKeepsLast(s, n - 1);
    }
  }

  /** The two masked parts share no bit, so their sum is their bitwise or. */
  lemma CombineIsDisjoint(upper: bv32, lower: bv32)
    ensures Combine(upper, lower) == (upper & UpperMask) | (lower & LowerMask)
    ensures (upper & UpperMask) & (lower & LowerMask) == 0
  {
  }

  /** Tempering maps 0 to 0. */
  lemma TemperZero()
    ensures Temper(0) == 0
  {
  }

  /**
   * Every 624th output is 0: the output read from the last word, which stays 0, is the
   * tempered 0.
   */
  lemma {:induction false} LastWordOutputsZero(g: Gen, k: nat, j: nat)
    requires Valid(g) && j < k && (g.index + j) % Words == Words - 1
    ensures Stream(g, k)[j] == 0
    decreases k
  {
    var (y, h) := Next(g);
    var i := if g.index == Words then 0 else g.index;
    assert h.index == i + 1;
    if j == 0 {
      assert i == Words - 1;
      TemperZero();
    } else {
      assert (h.index + (j - 1)) % Words == (g.index + j) % Words;
      LastWordOutputsZero(h, k - 1, j - 1);
    }
  }

  /** The 624th number a freshly seeded generator hands out is 0, whatever the seed. */
  lemma FreshGeneratorYieldsZero(seed: bv32)
    ensures Stream(Seeded(seed), Words)[Words - 1] == 0
  {
    LastWordOutputsZero(Seeded(seed), Words, Words - 1);
  }
}
