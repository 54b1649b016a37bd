/** Session identifiers (generate_id in src/utils/session.rs): when two of them are equal. */
module SessionIds {
  import opened Text

  const WORD: nat := 0x1_0000_0000_0000_0000
  const HALF: int := 0x8000_0000_0000_0000
  const MUL1: nat := 0x9e3779b97f4a7c15
  const MUL2: nat := 0x6c62272e07bb0142
  const NANOS: int := 1_000_000_000
  const PID_LIMIT: nat := 0x40_0000 // Linux: PID_MAX_LIMIT

  /** The mixed value: multiply, add and multiply, wrapping at 64 bits. */
  function Raw(nanos: nat, pid: nat): (r: nat)
    ensures r < WORD
  {
    (nanos * MUL1 % WORD + pid) % WORD * MUL2 % WORD
  }

  /** The {:016x} format. */
  function Hex16(n: nat, width: nat): (s: string)
    ensures |s| == width && All(s, IsDigit)
  {
    if width == 0 then "" else Hex16(n / 16, width - 1) + [DigitChar(n % 16)]
  }

  function GenerateId(nanos: nat, pid: nat): (id: string)
    ensures |id| == 16 && All(id, IsDigit)
  {
    Hex16(Raw(nanos, pid), 16)
  }

  /** generate_id at a time in nanoseconds since the epoch: only the part below a second enters. */
  function IdAt(clock: nat, pid: nat): string { GenerateId(clock % NANOS, pid) }

  function Power16(width: nat): nat { if width == 0 then 1 else 16 * Power16(width - 1) }

  lemma {:induction false} Hex16Read(n: nat, width: nat)
    requires n < Power16(width)
    ensures ParseDigits(Hex16(n, width), 16) == Some(n)
  {
    if width > 0 {
      var s := Hex16(n, width);
      Hex16Read(n / 16, width - 1);
      assert s[..|s| - 1] == Hex16(n / 16, width - 1);
    }
  }

  lemma WordIsPower()
    ensures Power16(16) == WORD
  {
    assert Power16(4) == 0x1_0000;
    assert Power16(8) == 0x1_0000_0000;
    assert Power16(12) == 0x1_0000_0000_0000;
  }

  /** Equal identifiers are equal values. */
  lemma SameIdSameRaw(t: nat, p: nat, u: nat, q: nat)
    ensures GenerateId(t, p) == GenerateId(u, q) <==> Raw(t, p) == Raw(u, q)
  {
    WordIsPower();
    Hex16Read(Raw(t, p), 16);
    Hex16Read(Raw(u, q), 16);
  }

  lemma Remainder(x: nat, q: nat, r: nat)
    requires x == q * WORD + r && r < WORD
    ensures x % WORD == r
  {
  }

  /** One mixed value, to the digit. */
  lemma KnownId()
    ensures Raw(123_456_789, 4242) == 0x14333e3feebc3c56
  {
    Remainder(123_456_789 * MUL1, 76300491, 13722978258477121209);
    Remainder(13722978258477121209 + 4242, 0, 13722978258477125451);
    Remainder(13722978258477125451 * MUL2, 5809934311038451704, 1455575548879977558);
  }

  // ---- Arithmetic ----------------------------------------------------------

  lemma RawIs(t: nat, p: nat) returns (k: int)
    ensures Raw(t, p) == (t * MUL1 + p) * MUL2 - k * WORD
  {
    var a := t * MUL1 / WORD;
    var b := (t * MUL1 % WORD + p) / WORD;
    var c := (t * MUL1 % WORD + p) % WORD * MUL2 / WORD;
    assert t * MUL1 % WORD == t * MUL1 - a * WORD;
    assert (t * MUL1 % WORD + p) % WORD == t * MUL1 + p - (a + b) * WORD;
    k := (a + b) * MUL2 + c;
  }

  const ODD: nat := 0x3631139703dd80a1     // MUL2 / 2
  const INVERSE: nat := 7768279368640783201 // of ODD, modulo HALF
  const EXCESS: nat := 3288877384449544045

  lemma Inverts(x: int, m: int)
    requires x * ODD == m * HALF
    ensures x == (m * INVERSE - x * EXCESS) * HALF
  {
    assert ODD * INVERSE == 1 + EXCESS * HALF;
    calc {
      x + x * EXCESS * HALF;
      x * (ODD * INVERSE);
      (x * ODD) * INVERSE;
      m * HALF * INVERSE;
    }
  }

  lemma MultipleOfHalf(x: int, n: int)
    ensures x == n * HALF ==> x % HALF == 0
    ensures x % HALF == 0 ==> x == x / HALF * HALF
  {
  }

  /** Two pairs mix to the same value exactly when nanos * MUL1 + pid agree modulo 2^63. */
  lemma SameRawExactly(t: nat, p: nat, u: nat, q: nat)
    ensures Raw(t, p) == Raw(u, q) <==> ((t - u) * MUL1 + (p - q)) % HALF == 0
  {
    var k := RawIs(t, p);
    var l := RawIs(u, q);
    hide Raw;
    var x := (t - u) * MUL1 + (p - q);
    var m := k - l;
    assert Raw(t, p) - Raw(u, q) == x * MUL2 - m * WORD;
    if Raw(t, p) == Raw(u, q) {
      assert x * ODD == m * HALF;
      Inverts(x, m);
      MultipleOfHalf(x, m * INVERSE - x * EXCESS);
    }
    if x % HALF == 0 {
      MultipleOfHalf(x, 0);
      var n := x / HALF;
      assert Raw(t, p) - Raw(u, q) == (n * ODD - m) * WORD;
    }
  }

  // ---- The lattice of collisions -------------------------------------------

  // Differences (nanos, pid) that collide form a lattice with this basis:
  // (-NEAR_T, NEAR_P) and (FAR_T, FAR_P).
  const NEAR_T: nat := 567451585
  const NEAR_P: int := 3094517461
  const FAR_T: nat := 2971215073
  const FAR_P: nat := 50920843

  // dt * MUL1 + dp == m * HALF on the lattice; m at the two basis vectors.
  const NEAR_M: int := -701408733
  const FAR_M: int := 3672623806

  lemma Basis()
    ensures NEAR_P - NEAR_T * MUL1 == NEAR_M * HALF && FAR_T * MUL1 + FAR_P == FAR_M * HALF
  {
  }

  lemma SmallMultiple(x: int, n: int)
    requires x == HALF * n && -HALF < x < HALF
    ensures n == 0
  {
  }

  /** No collision is shorter than both a second and NEAR_P process ids. */
  lemma NoShortCollision(dt: int, dp: int)
    requires -NANOS < dt < NANOS && -NEAR_P < dp < NEAR_P
    requires (dt * MUL1 + dp) % HALF == 0
    ensures dt == 0 && dp == 0
  {
    var m := (dt * MUL1 + dp) / HALF;
    assert dp == m * HALF - dt * MUL1;
    var i := dt * NEAR_P + dp * NEAR_T;
    assert i == HALF * (m * NEAR_T + NEAR_M * dt) by { Basis(); }
    SmallMultiple(i, m * NEAR_T + NEAR_M * dt);
    var n := m * FAR_T - FAR_M * dt;
    assert dp * FAR_T - dt * FAR_P == HALF * n;
    assert NEAR_P * n == dp;
  }

  /** Identifiers tell creation times within a second apart for every process, and
      processes apart whose ids differ by less than 3094517461. */
  lemma IdsDistinct(t: nat, p: nat, u: nat, q: nat)
    requires t < NANOS && u < NANOS && -NEAR_P < p - q < NEAR_P
    ensures GenerateId(t, p) == GenerateId(u, q) <==> t == u && p == q
  {
    hide Raw, GenerateId;
    SameIdSameRaw(t, p, u, q);
    SameRawExactly(t, p, u, q);
    if GenerateId(t, p) == GenerateId(u, q) { NoShortCollision(t - u, p - q); }
  }

  /** Over whole timestamps, for process ids as Linux gives them: equal if and only if made in
      one process at the same point of a second, however many seconds apart. */
  lemma IdsEqualExactly(a: nat, p: nat, b: nat, q: nat)
    requires p < PID_LIMIT && q < PID_LIMIT
    ensures IdAt(a, p) == IdAt(b, q) <==> a % NANOS == b % NANOS && p == q
  {
    hide GenerateId;
    IdsDistinct(a % NANOS, p, b % NANOS, q);
  }

  /** The bound of the arithmetic on the distance of process ids is the exact one; it lies
      beyond any two that Linux gives. */
  lemma FirstCollision()
    ensures NEAR_T < NANOS && NEAR_P < 0x1_0000_0000
    ensures GenerateId(NEAR_T, 0) == GenerateId(0, NEAR_P)
  {
    hide Raw, GenerateId;
    SameIdSameRaw(NEAR_T, 0, 0, NEAR_P);
    SameRawExactly(NEAR_T, 0, 0, NEAR_P);
  }
}
