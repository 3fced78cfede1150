/** The CPU work function of the benchmark: a linear congruential recurrence
    over a 32-bit accumulator, written three times (C++, Go, Python). The
    three copies differ only in where the reduction modulo 2^32 happens:
    C++ and Go wrap after every `uint32` operation, Python masks once per
    step. All three are shown here to compute one reference recurrence. */
module CpuWork {
  import opened Word32

  const Multiplier: int := 1664525
  const Increment: int := 1013904223

  /** The reference recurrence: `Lcg(0) == 0` and
      `Lcg(n + 1) == (Lcg(n) * 1664525 + 1013904223 + n) mod 2^32`;
      a non-positive unit count performs no step. */
  function Lcg(n: int): U32
    decreases if n <= 0 then 0 else n
  {
    if n <= 0 then 0 else LcgStep(Lcg(n - 1), n - 1)
  }

  /** One step of the recurrence, reduced once. */
  function LcgStep(acc: int, i: int): U32
  {
    (acc * Multiplier + Increment + i) % Modulus
  }

  /** The loop body shared by C++ and Go: every operation is on `uint32`,
      so the product, both sums and the conversion of the index each wrap. */
  function Uint32Step(acc: U32, i: int): U32
  {
    Wrap(Wrap(Wrap(acc * Multiplier) + Increment) + Wrap(i))
  }

  /** Python's `& 0xFFFFFFFF`: on an arbitrary-precision integer (also a
      negative one) masking with 2^32 - 1 keeps the residue modulo 2^32. */
  function Mask32(x: int): int
  {
    x % Modulus
  }

  lemma {:induction false} ModAddLeft(x: int, y: int)
    ensures (x % Modulus + y) % Modulus == (x + y) % Modulus
  {
    var q := x / Modulus;
    assert x == q * Modulus + x % Modulus;
    assert x + y == (x % Modulus + y) + q * Modulus;
  }

  /** Wrapping after every operation agrees with one reduction at the end. */
  lemma {:induction false} Uint32StepIsLcgStep(acc: U32, i: int)
    ensures Uint32Step(acc, i) == LcgStep(acc, i)
  {
    var p := acc * Multiplier;
    ModAddLeft(p, Increment);
    var s := Wrap(p) + Increment;
    assert Wrap(s) == (p + Increment) % Modulus;
    ModAddLeft(p + Increment, i);
    ModAddLeft(i, Wrap(s));
    assert (Wrap(s) + Wrap(i)) % Modulus == (Wrap(s) + i) % Modulus;
  }

  /** Unrolling one step of the reference recurrence. */
  lemma {:induction false} LcgNext(n: nat)
    ensures Uint32Step(Lcg(n), n) == Lcg(n + 1)
  {
    Uint32StepIsLcgStep(Lcg(n), n);
  }

  /** `cpu_work` in C++: `int units`, `int i`, `uint32_t acc`. */
  method CppCpuWork(units: Int32) returns (acc: U32)
    ensures acc == Lcg(units)
    ensures units <= 0 ==> acc == 0
  {
    acc := 0;
    var i: Int32 := 0;
    while i < units
      invariant 0 <= i
      invariant i == 0 || i <= units
      invariant acc == Lcg(i)
    {
      LcgNext(i);
      acc := Uint32Step(acc, i);
      i := i + 1;
    }
  }

  /** `cpuWork` in Go: the unit count and the index are 64-bit `int`s, and
      `uint32(i)` truncates the index once it passes 2^32. */
  method GoCpuWork(units: Int64) returns (acc: U32)
    ensures acc == Lcg(units)
    ensures units <= 0 ==> acc == 0
  {
    acc := 0;
    var i: Int64 := 0;
    while i < units
      invariant 0 <= i
      invariant i == 0 || i <= units
      invariant acc == Lcg(i)
    {
      LcgNext(i);
      acc := Uint32Step(acc, i);
      i := i + 1;
    }
  }

  /** `cpu_work` in Python: unbounded integers, masked once per step. */
  method PyCpuWork(units: int) returns (acc: int)
    ensures 0 <= acc < Modulus
    ensures units <= 0 ==> acc == 0
    ensures acc == Lcg(units)
  {
    acc := 0;
    var i := 0;
    while i < units
      invariant 0 <= i
      invariant i == 0 || i <= units
      invariant acc == Lcg(i)
    {
      acc := Mask32(acc * Multiplier + Increment + i);
      i := i + 1;
    }
  }

  /** `count` steps of the recurrence starting at index `from` — the inner
      loop that one chunk of the coroutine job runs. */
  function Advance(acc: U32, from: int, count: int): U32
    decreases count
  {
    if count <= 0 then acc else Advance(Uint32Step(acc, from), from + 1, count - 1)
  }

  /** Continuing the recurrence from index `d` with the value it has there
      lands on the value at `d + k`: no index is skipped or repeated. */
  lemma {:induction false} AdvanceContinues(d: nat, k: nat)
    ensures Advance(Lcg(d), d, k) == Lcg(d + k)
    decreases k
  {
    if k > 0 {
      LcgNext(d);
      AdvanceContinues(d + 1, k - 1);
    }
  }
}
