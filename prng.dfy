/**
 * The game's seeded pseudo-random generator: the xmur3 string hash turns the
 * seed string into a 32-bit state, and mulberry32 draws from it.
 *
 * Every JavaScript operation involved (`Math.imul`, `^`, `|`, `<<`, `>>>` and
 * the additions that feed a later `^`) works modulo 2^32, so the whole
 * generator is exact over `bv32`. A draw of `random()` is the float
 * `u / 2^32` for the 32-bit value `u` below; every float product with it that
 * the game takes is exact, so `floor(random() * n)` is `(u * n) / 2^32`.
 */
module Prng {
  import opened Wrappers
  import opened JsStrings

  const TWO_POW_32: int := 0x1_0000_0000

  // ---------------------------------------------------------------- xmur3

  const XMUR3_BASE: bv32 := 1779033703

  /** The state before any code unit is absorbed: the base constant xor the length. */
  function Xmur3Start(str: JsString): bv32 {
    XMUR3_BASE ^ ((|str| % TWO_POW_32) as bv32)
  }

  /** One round of the xmur3 loop: multiply in a code unit, then rotate left by 13. */
  function Xmur3Absorb(h: bv32, c: CodeUnit): bv32 {
    var m := (h ^ (c as int as bv32)) * 3432918353;
    (m << 13) | (m >> 19)
  }

  /** The loop state after absorbing every code unit of `str`, left to right. */
  function Xmur3Fold(h: bv32, str: JsString): bv32
    decreases |str|
  {
    if str == [] then h else Xmur3Absorb(Xmur3Fold(h, str[..|str| - 1]), str[|str| - 1])
  }

  /** The first value of the generator xmur3 returns: the final avalanche of the state. */
  function Xmur3Finish(h: bv32): bv32 {
    var h1 := (h ^ (h >> 16)) * 2246822507;
    var h2 := (h1 ^ (h1 >> 13)) * 3266489909;
    h2 ^ (h2 >> 16)
  }

  /** `xmur3(String(seed))()`: the 32-bit seed of mulberry32. */
  function SeedHash(str: JsString): bv32 {
    Xmur3Finish(Xmur3Fold(Xmur3Start(str), str))
  }

  /** The hashing loop of xmur3 followed by the first call of the generator it returns. */
  method Xmur3(str: JsString) returns (hash: bv32)
    ensures hash == SeedHash(str)
  {
    var h := Xmur3Start(str);
    var i := 0;
    while i < |str|
      invariant 0 <= i <= |str|
      invariant h == Xmur3Fold(Xmur3Start(str), str[..i])
    {
      assert str[..i + 1][..i] == str[..i];
      h := Xmur3Absorb(h, str[i]);
      i := i + 1;
    }
    assert str[..|str|] == str;
    hash := Xmur3Finish(h);
  }

  // ----------------------------------------------------------- mulberry32

  const MULBERRY_STEP: bv32 := 0x6d2b79f5

  /** The output mixing of mulberry32 applied to the freshly advanced accumulator. */
  function Mulberry32Mix(t0: bv32): bv32 {
    var t1 := (t0 ^ (t0 >> 15)) * (t0 | 1);
    var t2 := t1 ^ (t1 + (t1 ^ (t1 >> 7)) * (t1 | 61));
    t2 ^ (t2 >> 14)
  }

  /** A draw: the accumulator afterwards, and `u`, with `random() == u / 2^32`. */
  datatype Draw = Draw(next: bv32, u: bv32)

  function NextDraw(a: bv32): Draw {
    var t := a + MULBERRY_STEP;
    Draw(t, Mulberry32Mix(t))
  }

  /** The accumulator after `k` draws from accumulator `a`: each draw adds the step once. */
  function Accumulator(a: bv32, k: nat): bv32
    decreases k
  {
    if k == 0 then a else Accumulator(a + MULBERRY_STEP, k - 1)
  }

  /** The value of draw number `k` (counting from 0) of a generator started at accumulator `a`. */
  function DrawValue(a: bv32, k: nat): bv32
    decreases k
  {
    if k == 0 then Mulberry32Mix(a + MULBERRY_STEP) else DrawValue(a + MULBERRY_STEP, k - 1)
  }

  /** Each draw moves the accumulator on by one step. */
  lemma {:induction false} AccumulatorStep(a: bv32, k: nat)
    ensures Accumulator(a, k + 1) == Accumulator(a, k) + MULBERRY_STEP
    decreases k
  {
    if k > 0 {
      AccumulatorStep(a + MULBERRY_STEP, k - 1);
    }
  }

  /** Draw number `k` mixes the accumulator after `k + 1` steps. */
  lemma {:induction false} DrawValueMixes(a: bv32, k: nat)
    ensures DrawValue(a, k) == Mulberry32Mix(Accumulator(a, k + 1))
    decreases k
  {
    if k > 0 {
      DrawValueMixes(a + MULBERRY_STEP, k - 1);
    }
  }

  /** A draw taken after `k` earlier ones yields draw number `k` and moves the accumulator on by one step. */
  lemma NextDrawAt(a: bv32, k: nat, acc: bv32)
    requires acc == Accumulator(a, k)
    ensures acc + MULBERRY_STEP == Accumulator(a, k + 1)
    ensures Mulberry32Mix(acc + MULBERRY_STEP) == DrawValue(a, k)
  {
    AccumulatorStep(a, k);
    DrawValueMixes(a, k);
  }

  // ------------------------------------------------ derived distributions

  /** `Math.floor(random() * n)` for the draw `u`. */
  function Scaled(u: bv32, n: int): (k: int)
    ensures 0 < n ==> 0 <= k < n
    ensures n == 0 ==> k == 0
  {
    ScaledBounds(u, n);
    (u as int * n) / TWO_POW_32
  }

  lemma ScaledBounds(u: bv32, n: int)
    ensures 0 < n ==> 0 <= (u as int * n) / TWO_POW_32 < n
    ensures n == 0 ==> (u as int * n) / TWO_POW_32 == 0
  {
    var v := u as int;
    assert 0 <= v < TWO_POW_32;
    FractionBelowOne(v, n);
  }

  /** `v / 2^32` is a fraction below one, so scaling by `n` stays below `n`. */
  lemma FractionBelowOne(v: int, n: int)
    requires 0 <= v < TWO_POW_32
    ensures 0 < n ==> 0 <= (v * n) / TWO_POW_32 < n
    ensures n == 0 ==> (v * n) / TWO_POW_32 == 0
    ensures 0 <= n ==> v * n <= n * TWO_POW_32
  {
    if 0 <= n {
      ProductBounds(v, n);
      assert n * TWO_POW_32 == TWO_POW_32 * n;
    }
  }

  /** `0 <= v * n <= (2^32 - 1) * n` for a 32-bit `v` and a natural `n`. */
  lemma {:induction false} ProductBounds(v: int, n: nat)
    requires 0 <= v < TWO_POW_32
    ensures 0 <= v * n <= (TWO_POW_32 - 1) * n
  {
    if n > 0 {
      ProductBounds(v, n - 1);
      assert v * n == v * (n - 1) + v;
      assert (TWO_POW_32 - 1) * n == (TWO_POW_32 - 1) * (n - 1) + (TWO_POW_32 - 1);
    }
  }

  /** `randomInt(min, max)` for the draw `u`. */
  function RandomIntOf(u: bv32, min: int, max: int): (r: int)
    ensures min <= max ==> min <= r <= max
  {
    Scaled(u, max - min + 1) + min
  }

  /** `randomPick(list)` for the draw `u`; `None` is JavaScript's `undefined` from an empty list. */
  function PickOf<T>(u: bv32, list: seq<T>): (r: Option<T>)
    ensures r.Some? <==> |list| > 0
    ensures r.Some? ==> r.value in list
  {
    var k := Scaled(u, |list|);
    if k < |list| then Some(list[k]) else None
  }

  /** The sum of the first `n` weights of a weighted table. */
  function Cumulative<T>(entries: seq<(T, nat)>, n: nat): nat
    requires n <= |entries|
  {
    if n == 0 then 0 else Cumulative(entries, n - 1) + entries[n - 1].1
  }

  function Total<T>(entries: seq<(T, nat)>): nat {
    Cumulative(entries, |entries|)
  }

  /**
   * The roulette loop of `weightedRandom` from entry `i` on, with the roll
   * scaled by 2^32 (so a weight `w` takes `w * 2^32` off it): the first entry
   * that brings the roll to zero or below wins, and the last entry is the
   * fallback when none does.
   */
  function RouletteFrom<T>(entries: seq<(T, nat)>, roll: int, i: nat): T
    requires 0 < |entries| && i <= |entries|
    decreases |entries| - i
  {
    if i == |entries| then entries[|entries| - 1].0
    else if roll - entries[i].1 * TWO_POW_32 <= 0 then entries[i].0
    else RouletteFrom(entries, roll - entries[i].1 * TWO_POW_32, i + 1)
  }

  /** `weightedRandom(weights)` for the draw `u`; `None` is the TypeError of an empty table. */
  function WeightedOf<T>(u: bv32, entries: seq<(T, nat)>): (r: Option<T>)
    ensures r.Some? <==> |entries| > 0
  {
    if entries == [] then None else Some(RouletteFrom(entries, u as int * Total(entries), 0))
  }

  /**
   * The roulette result is the first entry whose cumulative weight covers the
   * roll `random() * total`: since a draw is below 1, some entry always
   * covers it, and the fallback to the last entry is never what decides.
   */
  lemma WeightedIsFirstCover<T>(u: bv32, entries: seq<(T, nat)>)
    requires |entries| > 0
    ensures exists j :: (0 <= j < |entries|
                         && WeightedOf(u, entries) == Some(entries[j].0)
                         && u as int * Total(entries) <= Cumulative(entries, j + 1) * TWO_POW_32
                         && forall k :: 1 <= k <= j ==> u as int * Total(entries) > Cumulative(entries, k) * TWO_POW_32)
  {
    var roll := u as int * Total(entries);
    FractionBelowOne(u as int, Total(entries));
    var j := RouletteScan(entries, roll, 0);
    assert WeightedOf(u, entries) == Some(entries[j].0);
  }

  lemma {:induction false} RouletteScan<T>(entries: seq<(T, nat)>, roll: int, i: nat) returns (j: nat)
    requires 0 < |entries| && i < |entries|
    requires roll <= Total(entries) * TWO_POW_32
    requires forall k :: 1 <= k <= i ==> roll > Cumulative(entries, k) * TWO_POW_32
    ensures i <= j < |entries|
    ensures RouletteFrom(entries, roll - Cumulative(entries, i) * TWO_POW_32, i) == entries[j].0
    ensures roll <= Cumulative(entries, j + 1) * TWO_POW_32
    ensures forall k :: 1 <= k <= j ==> roll > Cumulative(entries, k) * TWO_POW_32
    decreases |entries| - i
  {
    var rest := roll - Cumulative(entries, i) * TWO_POW_32;
    assert rest - entries[i].1 * TWO_POW_32 == roll - Cumulative(entries, i + 1) * TWO_POW_32;
    if roll <= Cumulative(entries, i + 1) * TWO_POW_32 {
      j := i;
    } else {
      if i + 1 == |entries| {
        assert false;
      }
      j := RouletteScan(entries, roll, i + 1);
    }
  }

  // ------------------------------------------------------------ the object

  /**
   * The object `createSeededRng` returns; `a` is mulberry32's accumulator.
   * The ghost fields record where the accumulator started and how many draws
   * have been taken since, so that every draw is draw number `drawn` of the
   * stream that `start` determines.
   */
  class SeededRng {
    var a: bv32
    ghost var start: bv32
    ghost var drawn: nat

    ghost predicate Valid()
      reads this
    {
      a == Accumulator(start, drawn)
    }

    constructor (seed: JsString)
      ensures Valid() && start == SeedHash(seed) && drawn == 0
    {
      var hash := Xmur3(seed);
      a := hash;
      start, drawn := hash, 0;
    }

    /** `random()`: the draw is `u / 2^32`. */
    method Random() returns (u: bv32)
      requires Valid()
      modifies this
      ensures Valid() && start == old(start) && drawn == old(drawn) + 1
      ensures u == DrawValue(start, old(drawn))
    {
      var t := a + MULBERRY_STEP;
      u := Mulberry32Mix(t);
      NextDrawAt(start, drawn, a);
      a, drawn := t, drawn + 1;
    }

    method RandomInt(min: int, max: int) returns (r: int)
      requires Valid()
      modifies this
      ensures Valid() && start == old(start) && drawn == old(drawn) + 1
      ensures r == RandomIntOf(DrawValue(start, old(drawn)), min, max)
      ensures min <= max ==> min <= r <= max
    {
      var u := Random();
      r := (u as int * (max - min + 1)) / TWO_POW_32 + min;
    }

    method RandomPick<T>(list: seq<T>) returns (r: Option<T>)
      requires Valid()
      modifies this
      ensures Valid() && start == old(start) && drawn == old(drawn) + 1
      ensures r == PickOf(DrawValue(start, old(drawn)), list)
    {
      var u := Random();
      var k := (u as int * |list|) / TWO_POW_32;
      ScaledBounds(u, |list|);
      r := if k < |list| then Some(list[k]) else None;
    }

    /**
     * `weightedRandom(weights)` over the table's entries in order. The roll
     * `random() * total` is kept multiplied by 2^32, which makes it an integer.
     */
    method WeightedRandom<T>(entries: seq<(T, nat)>) returns (r: Option<T>)
      requires Valid()
      modifies this
      ensures Valid() && start == old(start) && drawn == old(drawn) + 1
      ensures r == WeightedOf(DrawValue(start, old(drawn)), entries)
    {
      var u := Random();
      var roll := u as int * Total(entries);
      ghost var first := roll;
      for i := 0 to |entries|
        invariant entries != [] ==> RouletteFrom(entries, first, 0) == RouletteFrom(entries, roll, i)
      {
        roll := roll - entries[i].1 * TWO_POW_32;
        if roll <= 0 {
          return Some(entries[i].0);
        }
      }
      if entries == [] {
        return None;
      }
      return Some(entries[|entries| - 1].0);
    }
  }
}
