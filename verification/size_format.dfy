/** `VideoScanner.format_size`: picks the unit a byte count is shown in.
    The loop tries B, KB, MB, GB and TB in turn, dividing by 1024 after
    each unit whose value was not below 1024, and falls through to PB. */
module SizeFormat {

  datatype Unit = B | KB | MB | GB | TB | PB {
    /** Position in the progression: the value shown is bytes / 1024^Rank. */
    function Rank(): nat {
      match this
      case B => 0
      case KB => 1
      case MB => 2
      case GB => 3
      case TB => 4
      case PB => 5
    }
  }

  /** The units the loop iterates over; PB is the fall-through. */
  const LoopUnits: seq<Unit> := [B, KB, MB, GB, TB]

  /** The unit of the loop's iteration `k`. */
  function LoopUnit(k: nat): (u: Unit)
    requires k < |LoopUnits|
    ensures u.Rank() == k
  {
    LoopUnits[k]
  }

  /** A size as the formatter shows it: the scaled value and its unit. */
  datatype Scaled = Scaled(value: real, unit: Unit)

  function Pow1024(k: nat): (p: nat)
    ensures p >= 1
  {
    if k == 0 then 1 else 1024 * Pow1024(k - 1)
  }

  lemma {:induction false} Pow1024Monotone(i: nat, j: nat)
    ensures i <= j ==> Pow1024(i) <= Pow1024(j)
    decreases j
  {
    if i < j {
      Pow1024Monotone(i, j - 1);
    }
  }

  /** The loop from its iteration `k` on. After k divisions by 1024 the
      value is `size / 1024^k`; dividing by a power of two is exact in binary
      floating point, so the loop's test `value < 1024` is the integer test
      `size < 1024^(k+1)`, which is what this function evaluates. */
  function ScaleFrom(size: int, k: nat): (r: Scaled)
    requires k <= 5
    decreases 5 - k
  {
    if k == 5 then Scaled(size as real / Pow1024(5) as real, PB)
    else if size < Pow1024(k + 1) then Scaled(size as real / Pow1024(k) as real, LoopUnit(k))
    else ScaleFrom(size, k + 1)
  }

  /** What the loop computes from iteration k on, provided it got that far
      (the size was not below the bound of any earlier unit). */
  lemma {:induction false} ScaleFromSpec(size: int, k: nat)
    requires k <= 5
    requires k > 0 ==> size >= Pow1024(k)
    ensures ScaleFrom(size, k).unit.Rank() >= k
    ensures ScaleFrom(size, k).unit.Rank() > 0 ==> size >= Pow1024(ScaleFrom(size, k).unit.Rank())
    ensures ScaleFrom(size, k).unit.Rank() < 5 ==> size < Pow1024(ScaleFrom(size, k).unit.Rank() + 1)
    ensures ScaleFrom(size, k).value == size as real / Pow1024(ScaleFrom(size, k).unit.Rank()) as real
    decreases 5 - k
  {
    if k < 5 && size >= Pow1024(k + 1) {
      ScaleFromSpec(size, k + 1);
    }
  }

  /** `format_size(size)`: the unit is the first of B, KB, MB, GB, TB in
      which the value is below 1024, PB otherwise, and the value shown is
      the size divided by 1024 once per step. */
  function FormatSize(size: int): (r: Scaled)
    ensures r.value == size as real / Pow1024(r.unit.Rank()) as real
    ensures r.unit == B <==> size < 1024
    ensures r.unit != B ==> size >= Pow1024(r.unit.Rank())
    ensures r.unit != PB ==> size < Pow1024(r.unit.Rank() + 1)
  {
    ScaleFromSpec(size, 0);
    ScaleFrom(size, 0)
  }

  lemma QuotientBounds(a: int, p: nat)
    requires a >= 0 && p >= 1
    ensures a as real / p as real >= 0.0
    ensures a >= p ==> a as real / p as real >= 1.0
    ensures a < 1024 * p ==> a as real / p as real < 1024.0
  {
    var q := a as real / p as real;
    assert q * p as real == a as real;
    assert q >= 1024.0 ==> q * p as real >= 1024.0 * p as real;
    assert q < 1.0 ==> q * p as real < p as real;
  }

  /** For a non-negative size the number shown lies in [1, 1024) except at
      the two ends of the scale: bytes may show less than 1, petabytes 1024
      or more. */
  lemma FormatSizeRange(size: int)
    requires size >= 0
    ensures FormatSize(size).value >= 0.0
    ensures FormatSize(size).unit != B ==> FormatSize(size).value >= 1.0
    ensures FormatSize(size).unit != PB ==> FormatSize(size).value < 1024.0
  {
    var k := FormatSize(size).unit.Rank();
    QuotientBounds(size, Pow1024(k));
    if k < 5 {
      assert Pow1024(k + 1) == 1024 * Pow1024(k);
    }
  }

  /** The unit never goes down as the size goes up. */
  lemma FormatSizeMonotone(s1: int, s2: int)
    requires s1 <= s2
    ensures FormatSize(s1).unit.Rank() <= FormatSize(s2).unit.Rank()
  {
    var k1 := FormatSize(s1).unit.Rank();
    var k2 := FormatSize(s2).unit.Rank();
    Pow1024Monotone(k2 + 1, k1);
  }

  /** Values the formatter shows for some sizes: 0 B, 1023 B, 1 KB, 1.5 KB,
      1 MB and, past the last loop unit, 1 PB and 1024 PB. */
  lemma FormatSizeExamples()
    ensures FormatSize(0) == Scaled(0.0, B)
    ensures FormatSize(1023) == Scaled(1023.0, B)
    ensures FormatSize(1024) == Scaled(1.0, KB)
    ensures FormatSize(1536) == Scaled(1.5, KB)
    ensures FormatSize(1048576) == Scaled(1.0, MB)
    ensures FormatSize(Pow1024(5)) == Scaled(1.0, PB)
    ensures FormatSize(Pow1024(6)) == Scaled(1024.0, PB)
  {
  }
}
