/**
 * `seededShuffle`: a Fisher–Yates shuffle of a copy of an array, driven by
 * the mulberry32 pseudo-random generator.
 *
 * Array elements are `Option<T>`: `None` stands for an `undefined` element or
 * a hole of a sparse array, which makes the shuffle throw when it visits one.
 */
module Shuffle {
  import opened Wrappers

  /** The constant mulberry32 adds to its state on every call. */
  const Increment: bv32 := 0x6D2B79F5

  /** 2^32: the generator's output is a numerator over this denominator. */
  const TwoTo32: nat := 0x1_0000_0000

  /**
   * The generator state for a JavaScript number seed: the seed modulo 2^32,
   * which is what `ToInt32` and `ToUint32` see of an integer seed.
   */
  function InitialState(seed: int): bv32 {
    (seed % TwoTo32) as bv32
  }

  /** `Math.imul`: the low 32 bits of the product. */
  function Imul(a: bv32, b: bv32): bv32 {
    a * b
  }

  /**
   * The mixing statements of one mulberry32 call, in order: statement `k`
   * of the three, applied to the running value `t`. The statements are
   * numbered and applied by `MixFrom` rather than written as three
   * bindings so that the solver unfolds the 32-bit products only where a
   * proof asks for them.
   */
  function MixStep(t: bv32, k: nat): bv32 {
    if k == 0 then Imul(t ^ (t >> 15), t | 1)
    else if k == 1 then t ^ (t + Imul(t ^ (t >> 7), t | 61))
    else t ^ (t >> 14)
  }

  /** The mixing statements from the `k`-th on, applied to `t`. */
  function MixFrom(t: bv32, k: nat): bv32
    decreases 3 - k
  {
    if k >= 3 then t else MixFrom(MixStep(t, k), k + 1)
  }

  /**
   * The mixing of one mulberry32 call, from the advanced state `t` to the
   * unsigned numerator `u` of the returned fraction `u / 2^32`.
   */
  function Mix(t: bv32): (u: bv32) {
    MixFrom(t, 0)
  }

  /**
   * The unsigned numerator `u` of the fraction `u / 2^32` that one call
   * returns, given the state after that call's advance.
   */
  function Draw(t: bv32): (u: nat)
    ensures u < TwoTo32
  {
    Mix(t) as int
  }

  /**
   * `Math.floor(u / 2^32 * (i + 1))` for the numerator `u` of one generator
   * output: an index between 0 and `i`.
   */
  function SwapIndex(u: nat, i: nat): (j: nat)
    requires u < TwoTo32
    ensures j <= i
  {
    ProductBound(u, i + 1);
    Product(u, i + 1) / TwoTo32
  }

  /**
   * `u * n`, as `n` additions of `u`: the product is kept out of the
   * nonlinear arithmetic the solver handles poorly, and `ProductIsMul`
   * shows it is the ordinary product.
   */
  function Product(u: nat, n: nat): nat {
    if n == 0 then 0 else Product(u, n - 1) + u
  }

  /** The repeated addition is the product. */
  lemma {:induction false} ProductIsMul(u: nat, n: nat)
    ensures Product(u, n) == u * n
  {
    if n > 0 {
      ProductIsMul(u, n - 1);
    }
  }

  /** `n` numerators below 2^32 add up to less than `n` times 2^32. */
  lemma {:induction false} ProductBound(u: nat, n: nat)
    requires u < TwoTo32
    ensures Product(u, n) <= n * TwoTo32 - n
  {
    if n > 0 {
      ProductBound(u, n - 1);
    }
  }

  /** The closure `mulberry32(seed)` returns, with the seed it captures and updates. */
  class Mulberry32 {
    var seed: bv32

    constructor (seed: int)
      ensures this.seed == InitialState(seed)
    {
      this.seed := InitialState(seed);
    }

    /**
     * One call: advance the captured seed by the increment, then mix it. The
     * call returns `u / 2^32`; the model returns the numerator `u`.
     */
    method Next() returns (u: nat)
      modifies this
      ensures seed == old(seed) + Increment
      ensures u == Draw(seed) && u < TwoTo32
    {
      seed := seed + Increment;
      u := Draw(seed);
    }
  }

  /** Why the shuffle stops early. */
  datatype ShuffleError = UndefinedElement

  /** `s` with the elements at `i` and `j` exchanged. */
  function Swap<T>(s: seq<T>, i: nat, j: nat): (r: seq<T>)
    requires i < |s| && j < |s|
    ensures |r| == |s|
    ensures r[i] == s[j] && r[j] == s[i]
    ensures forall k :: 0 <= k < |s| && k != i && k != j ==> r[k] == s[k]
  {
    s[i := s[j]][j := s[i]]
  }

  /** A swap only reorders the elements. */
  lemma SwapPermutes<T>(s: seq<T>, i: nat, j: nat)
    requires i < |s| && j < |s|
    ensures multiset(Swap(s, i, j)) == multiset(s)
  {
    var t := s[i := s[j]];
    if i != j {
      assert multiset(t) == multiset(s) - multiset{s[i]} + multiset{s[j]};
      assert multiset(t[j := s[i]]) == multiset(t) - multiset{t[j]} + multiset{s[i]};
    }
  }

  /**
   * The loop of `seededShuffle` from index `i` down to 1, on the array `s`,
   * with the generator at state `state`: each step calls the generator once,
   * turns the output into an index `j` no larger than `i`, rejects an
   * undefined `s[i]` or `s[j]` and otherwise exchanges the two.
   */
  function ShuffleFrom<T>(s: seq<Option<T>>, i: int, state: bv32): Result<seq<Option<T>>, ShuffleError>
    requires i < |s|
    decreases i
  {
    if i <= 0 then Ok(s)
    else
      var j := SwapIndex(Draw(state + Increment), i);
      if s[i].None? || s[j].None? then Err(UndefinedElement)
      else ShuffleFrom(Swap(s, i, j), i - 1, state + Increment)
  }

  /**
   * What `seededShuffle(array, seed)` returns or throws. It is a function of
   * the array and the seed alone: the same inputs always give the same
   * outcome. A successful result is a permutation of the input; arrays of
   * length 0 or 1 come back as they are, and an array without undefined
   * elements is never rejected.
   */
  function Shuffled<T>(s: seq<Option<T>>, seed: int): (r: Result<seq<Option<T>>, ShuffleError>)
    ensures |s| <= 1 ==> r == Ok(s)
    ensures r.Ok? ==> |r.value| == |s| && multiset(r.value) == multiset(s)
    ensures (forall k :: 0 <= k < |s| ==> s[k].Some?) ==> r.Ok?
  {
    var state := InitialState(seed);
    ShuffleFromPermutes(s, |s| - 1, state);
    assert (forall k :: 0 <= k < |s| ==> s[k].Some?) ==> ShuffleFrom(s, |s| - 1, state).Ok? by {
      if forall k :: 0 <= k < |s| ==> s[k].Some? {
        ShuffleFromDefined(s, |s| - 1, state);
      }
    }
    ShuffleFrom(s, |s| - 1, state)
  }

  /** Each step only swaps two positions, so a finished shuffle is a permutation. */
  lemma {:induction false} ShuffleFromPermutes<T>(s: seq<Option<T>>, i: int, state: bv32)
    requires i < |s|
    ensures ShuffleFrom(s, i, state).Ok? ==>
      |ShuffleFrom(s, i, state).value| == |s| && multiset(ShuffleFrom(s, i, state).value) == multiset(s)
    decreases i
  {
    if i > 0 {
      var j := SwapIndex(Draw(state + Increment), i);
      if s[i].Some? && s[j].Some? {
        SwapPermutes(s, i, j);
        ShuffleFromPermutes(Swap(s, i, j), i - 1, state + Increment);
      }
    }
  }

  /** An array without undefined elements is never rejected. */
  lemma {:induction false} ShuffleFromDefined<T>(s: seq<Option<T>>, i: int, state: bv32)
    requires i < |s|
    requires forall k :: 0 <= k < |s| ==> s[k].Some?
    ensures ShuffleFrom(s, i, state).Ok?
    decreases i
  {
    if i > 0 {
      var t := Swap(s, i, SwapIndex(Draw(state + Increment), i));
      assert forall k :: 0 <= k < |t| ==> t[k].Some?;
      ShuffleFromDefined(t, i - 1, state + Increment);
    }
  }

  /**
   * What a successful run leaves and has checked: the positions above `i`
   * are never touched, and every position from 1 to `i` was visited as
   * `arr[i]` and holds a defined element.
   */
  lemma {:induction false} ShuffleFromChecked<T>(s: seq<Option<T>>, i: int, state: bv32, r: seq<Option<T>>)
    requires i < |s|
    requires ShuffleFrom(s, i, state) == Ok(r)
    ensures |r| == |s|
    ensures forall k :: 0 <= k < |s| && i < k ==> r[k] == s[k]
    ensures forall k :: 1 <= k <= i ==> r[k].Some?
    decreases i
  {
    if i > 0 {
      var t := Swap(s, i, SwapIndex(Draw(state + Increment), i));
      ShuffleFromChecked(t, i - 1, state + Increment, r);
      assert r[i] == t[i];
    }
  }

  /**
   * The shuffle rejects an array only when it holds an undefined element, and
   * a successful result holds a defined element at every position but the
   * first.
   */
  lemma ShuffledOutcome<T>(s: seq<Option<T>>, seed: int)
    ensures Shuffled(s, seed).Err? ==> exists k :: 0 <= k < |s| && s[k].None?
    ensures Shuffled(s, seed).Ok? ==> forall k :: 1 <= k < |s| ==> Shuffled(s, seed).value[k].Some?
  {
    if Shuffled(s, seed).Ok? {
      ShuffleFromChecked(s, |s| - 1, InitialState(seed), Shuffled(s, seed).value);
    }
  }

  /**
   * `Math.floor(rand() * (i + 1))`: one call of the generator, which advances
   * its state and scales the output to an index between 0 and `i`.
   */
  method NextSwapIndex(rand: Mulberry32, i: nat) returns (j: nat)
    requires 0 < i
    modifies rand
    ensures rand.seed == old(rand.seed) + Increment
    ensures j == SwapIndex(Draw(old(rand.seed) + Increment), i)
  {
    var u := rand.Next();
    j := SwapIndex(u, i);
  }

  /**
   * One pass of the loop body at index `i`: the next generator output picks
   * `j`, and unless `arr[i]` or `arr[j]` is undefined the two are exchanged.
   * Either way the pass agrees with the loop from `i` down.
   */
  method ShufflePass<T>(arr: array<Option<T>>, rand: Mulberry32, i: nat) returns (ok: bool)
    requires 0 < i < arr.Length
    modifies arr, rand
    ensures ok ==> ShuffleFrom(old(arr[..]), i, old(rand.seed)) == ShuffleFrom(arr[..], i - 1, rand.seed)
    ensures !ok ==> ShuffleFrom(old(arr[..]), i, old(rand.seed)) == Err(UndefinedElement)
  {
    var j := NextSwapIndex(rand, i);
    ok := SwapDefined(arr, i, j);
  }

  /**
   * The check and the exchange of one pass: `arr[i]` and `arr[j]` are
   * exchanged when both are defined, and nothing changes otherwise.
   */
  method SwapDefined<T>(arr: array<Option<T>>, i: nat, j: nat) returns (ok: bool)
    requires i < arr.Length && j < arr.Length
    modifies arr
    ensures ok <==> old(arr[i]).Some? && old(arr[j]).Some?
    ensures arr[..] == if ok then Swap(old(arr[..]), i, j) else old(arr[..])
  {
    if arr[i].None? || arr[j].None? {
      return false;
    }
    ghost var before := arr[..];
    arr[i], arr[j] := arr[j], arr[i];
    assert arr[..] == Swap(before, i, j);
    return true;
  }

  /**
   * `seededShuffle(array, seed)`: shuffles a fresh copy of `input` (which is
   * left as it was) and returns it, or reports the undefined element it met.
   */
  method SeededShuffle<T>(input: array<Option<T>>, seed: int) returns (r: Result<array<Option<T>>, ShuffleError>)
    ensures r.Ok? <==> Shuffled(input[..], seed).Ok?
    ensures r.Ok? ==> fresh(r.value) && r.value[..] == Shuffled(input[..], seed).value
  {
    var rand := new Mulberry32(seed);
    var arr := new Option<T>[input.Length](k requires 0 <= k < input.Length reads input => input[k]);
    assert arr[..] == input[..];
    ghost var outcome := Shuffled(input[..], seed);
    var i := arr.Length - 1;
    while i > 0
      invariant -1 <= i < arr.Length
      invariant arr.Length == 0 ==> i == -1
      invariant fresh(arr) && fresh(rand)
      invariant ShuffleFrom(arr[..], i, rand.seed) == outcome
    {
      var ok := ShufflePass(arr, rand, i);
      if !ok {
        return Err(UndefinedElement);
      }
      i := i - 1;
    }
    return Ok(arr);
  }
}
