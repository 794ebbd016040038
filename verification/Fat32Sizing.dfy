/** The sectors-per-FAT search that sizes a new FAT32 partition. */
module Fat32Sizing {

  const RESERVED: nat := 32
  const FAT_COUNT: nat := 2
  const SECTORS_PER_CLUSTER: nat := 4
  const ROUNDS: nat := 8
  const STANDARD_MIN_CLUSTERS: nat := 65525

  /** Data clusters left once two FATs of `spf` sectors are taken; floor division, so it may be negative. */
  function Clusters(total: nat, spf: int): int {
    (total - RESERVED - FAT_COUNT * spf) / SECTORS_PER_CLUSTER
  }

  /** Sectors one FAT needs to describe that many clusters. */
  function Next(total: nat, spf: int): int {
    (4 * (Clusters(total, spf) + 2) + 511) / 512
  }

  /** The search itself, with its early exit; the formatter allows it ROUNDS rounds. */
  method Search(total: nat, rounds: nat) returns (spf: nat)
    ensures spf == Estimate(total, rounds)
  {
    spf := 1;
    var round := 0;
    while round < rounds
      invariant 0 <= round <= rounds && spf == Estimate(total, round)
    {
      EstimateRange(total, round + 1);
      var next := Next(total, spf);
      if next == spf {
        EstimateStays(total, round, rounds);
        return;
      }
      spf := next;
      round := round + 1;
    }
  }

  /** The estimate after a number of rounds, starting from one sector. */
  function Estimate(total: nat, rounds: nat): int {
    if rounds == 0 then 1 else Next(total, Estimate(total, rounds - 1))
  }

  lemma {:induction false} EstimateRange(total: nat, rounds: nat)
    ensures 0 <= Estimate(total, rounds) <= total / 500 + 2
    ensures total >= 600 ==> 1 <= Estimate(total, rounds)
  {
    if rounds > 0 { EstimateRange(total, rounds - 1); }
  }

  lemma {:induction false} EstimateStays(total: nat, k: nat, n: nat)
    requires k <= n
    requires Next(total, Estimate(total, k)) == Estimate(total, k)
    ensures Estimate(total, n) == Estimate(total, k)
    decreases n - k
  {
    if k < n {
      assert Estimate(total, k + 1) == Estimate(total, k);
      EstimateStays(total, k + 1, n);
    }
  }

  lemma {:induction false} QuarterGap(u: int, v: int)
    requires u <= v
    ensures 0 <= v / 4 - u / 4 <= (v - u + 3) / 4
  {
  }

  lemma {:induction false} SectorGap(u: int, v: int)
    requires u <= v
    ensures 0 <= (4 * v + 519) / 512 - (4 * u + 519) / 512 <= (v - u + 127) / 128
  {
    assert (4 * v + 519) / 512 == (v + 1 + 128) / 128;
    assert (4 * u + 519) / 512 == (u + 1 + 128) / 128;
  }

  /** A larger FAT leaves fewer clusters: the estimate falls, by at most a 256th of the gap rounded up. */
  lemma {:induction false} Contraction(total: nat, a: int, b: int)
    requires a <= b
    ensures 0 <= Next(total, a) - Next(total, b) <= (b - a + 255) / 256
  {
    QuarterGap(total - RESERVED - 2 * b, total - RESERVED - 2 * a);
    SectorGap(Clusters(total, b), Clusters(total, a));
    assert ((2 * (b - a) + 3) / 4 + 127) / 128 <= (b - a + 255) / 256;
  }

  /** A FAT of `spf` sectors describes every cluster it leaves exactly when it is past `total - 28` over 514. */
  lemma {:induction false} LargeEnough(total: nat, spf: nat)
    ensures Next(total, spf) <= spf <==> total - 28 < 514 * spf
    ensures spf * 128 >= Clusters(total, spf) + 2 <==> total - 28 < 514 * spf
  {
  }

  /** Both sides of the one place where the estimate can settle. */
  lemma {:induction false} Crossing(total: nat, q: nat, m: nat)
    requires total - 28 == 514 * q + m && m < 514 && q >= 1
    ensures m >= 2 ==> Next(total, q + 1) == q + 1
    ensures m < 2 ==> Next(total, q) == q + 1 && Next(total, q + 1) == q && Next(total, q - 1) == q + 1
    ensures 4 <= m ==> Next(total, q + 2) == q + 1
    ensures m < 512 ==> Next(total, q) == q + 1
    ensures m >= 512 ==> Next(total, q) == q + 2
  {
    assert Clusters(total, q) == 128 * q + (m - 4) / 4;
    assert Clusters(total, q + 1) == 128 * q + (m - 6) / 4;
    assert Clusters(total, q + 2) == 128 * q + (m - 8) / 4;
    assert Clusters(total, q - 1) == 128 * q + (m - 2) / 4;
    assert Next(total, q) == q + (4 * ((m - 4) / 4) + 519) / 512;
    assert Next(total, q + 1) == q + (4 * ((m - 6) / 4) + 519) / 512;
    assert Next(total, q + 2) == q + (4 * ((m - 8) / 4) + 519) / 512;
  }

  function Gap(a: int, b: int): nat {
    if a <= b then b - a else a - b
  }

  lemma {:induction false} GapStep(total: nat, k: nat, fixed: nat)
    requires Next(total, fixed) == fixed
    ensures Gap(Estimate(total, k + 1), fixed) <= (Gap(Estimate(total, k), fixed) + 255) / 256
  {
    var s := Estimate(total, k);
    if s <= fixed { Contraction(total, s, fixed); } else { Contraction(total, fixed, s); }
  }

  /** When a fixed point exists, five rounds reach it from any 32-bit sector count. */
  lemma {:induction false} Converges(total: nat, q: nat, m: nat)
    requires total < 0x1_0000_0000
    requires total - 28 == 514 * q + m && 2 <= m < 514 && q >= 1
    ensures Estimate(total, ROUNDS) == q + 1
  {
    Crossing(total, q, m);
    assert Gap(Estimate(total, 0), q + 1) <= 0x80_0000;
    GapStep(total, 0, q + 1);
    GapStep(total, 1, q + 1);
    GapStep(total, 2, q + 1);
    GapStep(total, 3, q + 1);
    SettlesFromOneApart(total, q, m, 3);
    EstimateStays(total, 5, ROUNDS);
  }

  lemma {:induction false} SettlesFromOneApart(total: nat, q: nat, m: nat, k: nat)
    requires total - 28 == 514 * q + m && 2 <= m < 514 && q >= 1
    requires q <= Estimate(total, k) <= q + 2
    requires q <= Estimate(total, k + 1) <= q + 2
    ensures Estimate(total, k + 2) == q + 1 && Next(total, q + 1) == q + 1
  {
    Crossing(total, q, m);
    if Estimate(total, k) == q + 2 && m < 4 {
      assert Next(total, q) == q + 1;
    }
  }

  /** Without a fixed point the search alternates, and every even round is on the side that is too small. */
  lemma {:induction false} Alternates(total: nat, q: nat, m: nat, k: nat)
    requires total - 28 == 514 * q + m && m < 2 && q >= 1
    ensures Estimate(total, 2 * k) <= q && Estimate(total, 2 * k + 1) >= q + 1
  {
    Crossing(total, q, m);
    if k > 0 {
      Alternates(total, q, m, k - 1);
      Contraction(total, q + 1, Estimate(total, 2 * k - 1));
    }
    Contraction(total, Estimate(total, 2 * k), q);
  }

  /** The eight rounds end with a FAT that describes every data cluster for all sector counts but those congruent to 28
      or 29 modulo 514, and for those it is always one sector short. */
  lemma {:induction false} SearchOutcome(total: nat)
    requires 600 <= total < 0x1_0000_0000
    ensures var spf := Estimate(total, ROUNDS);
            var settled := (total - 28) % 514 >= 2;
            && (settled <==> spf * 128 >= Clusters(total, spf) + 2)
            && (settled <==> Next(total, spf) == spf)
            && (!settled ==> Next(total, spf) == spf + 1)
  {
    var q, m := (total - 28) / 514, (total - 28) % 514;
    Crossing(total, q, m);
    if m >= 2 {
      Converges(total, q, m);
      LargeEnough(total, q + 1);
    } else {
      TwoCycleGap(total, q, m);
      LargeEnough(total, q);
    }
  }

  /** The two-cycle is between the quotient and its successor, and eight rounds end on the smaller. */
  lemma {:induction false} TwoCycleGap(total: nat, q: nat, m: nat)
    requires total < 0x1_0000_0000
    requires total - 28 == 514 * q + m && m < 2 && q >= 1
    ensures Estimate(total, ROUNDS) == q
  {
    Crossing(total, q, m);
    assert Estimate(total, 0) == 1;
    hide Next;
    hide Estimate;
    Shrink(total, q, m, 0);
    Shrink(total, q, m, 1);
    Shrink(total, q, m, 2);
    assert q - 1 <= Estimate(total, 6) <= q;
    LastTwo(total, q, m, 6);
  }

  lemma {:induction false} LastTwo(total: nat, q: nat, m: nat, k: nat)
    requires total - 28 == 514 * q + m && m < 2 && q >= 1
    requires q - 1 <= Estimate(total, k) <= q
    ensures Estimate(total, k + 2) == q
  {
    Crossing(total, q, m);
    hide Next;
    assert Estimate(total, k + 1) == q + 1;
  }

  lemma {:induction false} Shrink(total: nat, q: nat, m: nat, k: nat)
    requires total - 28 == 514 * q + m && m < 2 && q >= 1
    ensures Estimate(total, 2 * k) <= q && Estimate(total, 2 * k + 2) <= q
    ensures var d := q - Estimate(total, 2 * k);
            q - Estimate(total, 2 * k + 2) <= ((d + 255) / 256 + 255) / 256
  {
    Crossing(total, q, m);
    Alternates(total, q, m, k);
    Alternates(total, q, m, k + 1);
    Contraction(total, Estimate(total, 2 * k), q);
    Contraction(total, q + 1, Estimate(total, 2 * k + 1));
  }

  /** 514028 sectors: the estimate alternates between 1000 and 1001, and 1000 is one FAT sector short. */
  lemma {:induction false} TwoCycleExample()
    ensures Next(514028, 1000) == 1001 && Next(514028, 1001) == 1000
    ensures (514028 - 28) / 514 == 1000 && (514028 - 28) % 514 < 2
    ensures 1000 * 128 < Clusters(514028, 1000) + 2
  {
  }
}
