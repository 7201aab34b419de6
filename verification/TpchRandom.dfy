/** The TPC-H generator's random numbers and table sizes (`bench.rs`). */
module TpchRandom {

  const MODULUS := 0x1_0000_0000_0000_0000
  const MULTIPLIER := 6_364_136_223_846_793_005
  const INCREMENT := 1_442_695_040_888_963_407

  /** A linear congruential generator on 64-bit words. */
  class Rng {
    var state: nat

    constructor (seed: nat)
      requires seed < MODULUS
      ensures state == seed
    {
      state := seed;
    }

    method NextU64() returns (r: nat)
      modifies this
      ensures r == state == (old(state) * 6364136223846793005 + 1442695040888963407) % 18446744073709551616
    {
      state := (state * MULTIPLIER + INCREMENT) % MODULUS;
      r := state;
    }

    method NextRange(lo: int, hi: int) returns (r: int)
      requires lo <= hi
      modifies this
      ensures lo <= r <= hi && r == lo + state % (hi - lo + 1)
    {
      var x := NextU64();
      r := lo + x % (hi - lo + 1);
    }

    /** An index into a list of choices. */
    method Pick(choices: nat) returns (k: nat)
      requires choices > 0
      modifies this
      ensures k < choices && k == state % choices
    {
      var x := NextU64();
      k := x % choices;
    }

    method GenString(minLen: nat, maxLen: nat) returns (s: string)
      requires minLen <= maxLen
      modifies this
      ensures minLen <= |s| <= maxLen && forall i :: 0 <= i < |s| ==> 'a' <= s[i] <= 'z'
    {
      var x := NextU64();
      var len := minLen + x % (maxLen - minLen + 1);
      s := "";
      while |s| < len
        invariant |s| <= len && forall i :: 0 <= i < |s| ==> 'a' <= s[i] <= 'z'
      {
        var c := NextU64();
        s := s + [('a' as int + c % 26) as char];
      }
    }

    method GenDate(startYear: int, endYear: int) returns (year: int, month: int, day: int)
      requires startYear <= endYear
      modifies this
      ensures startYear <= year <= endYear && 1 <= month <= 12 && 1 <= day <= 28
    {
      year := NextRange(startYear, endYear);
      month := NextRange(1, 12);
      day := NextRange(1, 28);
    }
  }

  // ---- Table sizes by scale factor ----

  function CountAt(scale: real, unit: nat, least: nat): (n: nat)
    requires least >= 1
    ensures n >= least
  {
    var count := unit as real * scale;
    if count < least as real then least else count.Floor
  }

  function PartCount(scale: real): nat {
    CountAt(scale, 200000, 100)
  }

  function SupplierCount(scale: real): nat {
    CountAt(scale, 100, 10)
  }

  function CustomerCount(scale: real): nat {
    CountAt(scale, 150000, 100)
  }

  function OrderCount(scale: real): nat {
    CountAt(scale, 1500000, 1000)
  }

  /** At whole scale factors the tables grow in proportion, and at the smallest ones they have a least size. */
  lemma CountsAre(n: nat)
    ensures n >= 1 ==>
      PartCount(n as real) == 200000 * n && SupplierCount(n as real) == 100 * n
      && CustomerCount(n as real) == 150000 * n && OrderCount(n as real) == 1500000 * n
    ensures PartCount(0.0) == 100 && SupplierCount(0.0) == 10 && CustomerCount(0.0) == 100 && OrderCount(0.0) == 1000
  {
    WholeCount(n, 200000, 100);
    WholeCount(n, 100, 10);
    WholeCount(n, 150000, 100);
    WholeCount(n, 1500000, 1000);
  }

  lemma WholeCount(n: nat, unit: nat, least: nat)
    requires 1 <= least <= unit
    ensures n >= 1 ==> CountAt(n as real, unit, least) == unit * n
  {
    assert unit as real * n as real == (unit * n) as real;
    if n >= 1 {
      assert unit * n >= unit * 1;
    }
  }
}
