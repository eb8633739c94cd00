/** The seeded string hash `cyrb53` (app.js:116-131): two 32-bit accumulators
    mixed with every UTF-16 code unit by wrapping multiplication, two
    avalanche passes, and a 53-bit result assembled from the low 21 bits of
    the second accumulator and all 32 bits of the first.

    `Math.imul` is multiplication of `bv32` values (it wraps modulo 2^32 and
    only the bits matter, since every use reinterprets the result); `^` and
    `>>>` are the `bv32` operators. The final `4294967296 * (2097151 & h2) +
    (h1 >>> 0)` is exact integer arithmetic, because it stays below 2^53. */
module Hash {
  import opened JsString

  newtype CodeUnit = x: int | 0 <= x < 0x1_0000

  /** The UTF-16 code units of a string, as `charCodeAt` sees them: a
      character outside the Basic Multilingual Plane becomes a surrogate pair. */
  function CodeUnits(s: string): (r: seq<CodeUnit>)
    ensures |r| >= |s|
    ensures (forall i :: 0 <= i < |s| ==> s[i] as int < 0x1_0000) ==>
              |r| == |s| && forall i :: 0 <= i < |s| ==> r[i] as int == s[i] as int
  {
    if s == [] then []
    else
      var c := s[|s| - 1] as int;
      var last: seq<CodeUnit> :=
        if c < 0x1_0000 then [c as CodeUnit]
        else [(0xD800 + (c - 0x1_0000) / 0x400) as CodeUnit,
              (0xDC00 + (c - 0x1_0000) % 0x400) as CodeUnit];
      CodeUnits(s[..|s| - 1]) + last
  }

  /** The two accumulators after absorbing `units` from the seeded start values. */
  function Absorb(units: seq<CodeUnit>, seed: bv32): (bv32, bv32)
  {
    if units == [] then (0xdeadbeef ^ seed, 0x41c6ce57 ^ seed)
    else
      var (h1, h2) := Absorb(units[..|units| - 1], seed);
      var ch := units[|units| - 1];
      (MixFirst(h1, ch), MixSecond(h2, ch))
  }

  /** `Math.imul(h1 ^ ch, 2654435761)`. */
  function MixFirst(h: bv32, ch: CodeUnit): bv32 {
    (h ^ ch as int as bv32) * 2654435761
  }

  /** `Math.imul(h2 ^ ch, 1597334677)`. */
  function MixSecond(h: bv32, ch: CodeUnit): bv32 {
    (h ^ ch as int as bv32) * 1597334677
  }

  /** `cyrb53(str, seed)`: the value is a safe integer, below 2^53. */
  function Cyrb53Seeded(s: string, seed: bv32): (r: nat)
    ensures r < 0x20_0000_0000_0000
  {
    var (h1, h2) := Finalize(Absorb(CodeUnits(s), seed));
    0x1_0000_0000 * Low21(h2) + Unsigned(h1)
  }

  /** The two avalanche passes; the second reads the first's new `h1`. */
  function Finalize(acc: (bv32, bv32)): (bv32, bv32)
  {
    var (a1, a2) := acc;
    var h1 := ((a1 ^ (a1 >> 16)) * 2246822507) ^ ((a2 ^ (a2 >> 13)) * 3266489909);
    var h2 := ((a2 ^ (a2 >> 16)) * 2246822507) ^ ((h1 ^ (h1 >> 13)) * 3266489909);
    (h1, h2)
  }

  /** `2097151 & h`: the low 21 bits, a number below 2^21. */
  function Low21(h: bv32): (r: nat)
    ensures r < 0x20_0000
  {
    ((h & 0x1F_FFFF) as bv21) as int
  }

  /** `h >>> 0`: the bits of `h` read as an unsigned 32-bit number. */
  function Unsigned(h: bv32): (r: nat)
    ensures r < 0x1_0000_0000
  {
    h as int
  }

  /** `cyrb53(str)` with the default seed 0, the only form the plan generator uses. */
  function Cyrb53(s: string): (r: nat)
    ensures r < 0x20_0000_0000_0000
  {
    Cyrb53Seeded(s, 0)
  }

  /** Example values published with cyrb53; they pin the constants, the order
      of the two finalisation passes and the bit layout of the result. */
  lemma KnownAnswerA()
    ensures Cyrb53("a") == 7929297801672961
  {
    var u: seq<CodeUnit> := [97];
    assert CodeUnits("a") == u;
    assert Absorb(u[..1], 0) == (0xa9b3de2e, 0xac711d6e);
    assert u[..1] == u;
    assert Finalize((0xa9b3de2e, 0xac711d6e)) == (0x82c97901, 0x501c2ba7);
  }

  lemma KnownAnswerB()
    ensures Cyrb53("b") == 8684336938537663
  {
    var u: seq<CodeUnit> := [98];
    assert CodeUnits("b") == u;
    assert Absorb(u[..1], 0) == (0xb7c647d, 0x4d3bb8d9);
    assert u[..1] == u;
    assert Finalize((0xb7c647d, 0x4d3bb8d9)) == (0xc254d2bf, 0x459eda5b);
  }

  /** One absorption step, stated once so that a chain of them needs no unfolding. */
  lemma AbsorbSnoc(u: seq<CodeUnit>, c: CodeUnit, seed: bv32, h1: bv32, h2: bv32)
    requires Absorb(u, seed) == (h1, h2)
    ensures Absorb(u + [c], seed) == (MixFirst(h1, c), MixSecond(h2, c))
  {
    assert (u + [c])[..|u|] == u;
  }

  /** `cyrb53` as the source writes it: one loop over the code units that
      updates both accumulators in place, then the two passes and the final
      arithmetic. It computes the recursive definition. */
  method Cyrb53Loop(s: string, seed: bv32) returns (r: nat)
    ensures r == Cyrb53Seeded(s, seed)
    ensures r < 0x20_0000_0000_0000
  {
    var units := CodeUnits(s);
    var h1: bv32 := 0xdeadbeef ^ seed;
    var h2: bv32 := 0x41c6ce57 ^ seed;
    var i := 0;
    while i < |units|
      invariant 0 <= i <= |units|
      invariant Absorb(units[..i], seed) == (h1, h2)
    {
      AbsorbSnoc(units[..i], units[i], seed, h1, h2);
      assert units[..i] + [units[i]] == units[..i + 1];
      h1, h2 := MixFirst(h1, units[i]), MixSecond(h2, units[i]);
      i := i + 1;
    }
    assert units[..i] == units;
    var (f1, f2) := Finalize((h1, h2));
    r := 0x1_0000_0000 * Low21(f2) + Unsigned(f1);
  }

  lemma KnownAnswerRevenge()
    ensures Cyrb53("revenge") == 4051478007546757
  {
    var u: seq<CodeUnit> := [114, 101, 118, 101, 110, 103, 101];
    assert CodeUnits("revenge") == u;
    AbsorbRevenge();
    assert Finalize((0xc9949fe7, 0xc62c66a7)) == (0x3b748385, 0xfbce64cc);
  }

  lemma AbsorbRevenge()
    ensures Absorb([114, 101, 118, 101, 110, 103, 101], 0) == (0xc9949fe7, 0xc62c66a7)
  {
    assert Absorb([], 0) == (0xdeadbeef, 0x41c6ce57);
    AbsorbSnoc([], 114, 0, 0xdeadbeef, 0x41c6ce57);
    assert [] + [114] == [114];
    AbsorbSnoc([114], 101, 0, 0xeef3ff8d, 0x59e56f89);
    assert [114] + [101] == [114, 101];
    AbsorbSnoc([114, 101], 118, 0, 0xb5809768, 0xb21e545c);
    assert [114, 101] + [118] == [114, 101, 118];
    AbsorbSnoc([114, 101, 118], 101, 0, 0x40c7a9be, 0x87396472);
    assert [114, 101, 118] + [101] == [114, 101, 118, 101];
    AbsorbSnoc([114, 101, 118, 101], 110, 0, 0xd161f36b, 0x61433d63);
    assert [114, 101, 118, 101] + [110] == [114, 101, 118, 101, 110];
    AbsorbSnoc([114, 101, 118, 101, 110], 103, 0, 0x5ca96375, 0x56ac9c91);
    assert [114, 101, 118, 101, 110] + [103] == [114, 101, 118, 101, 110, 103];
    AbsorbSnoc([114, 101, 118, 101, 110, 103], 101, 0, 0x85cf0172, 0xa8b5732e);
    assert [114, 101, 118, 101, 110, 103] + [101] == [114, 101, 118, 101, 110, 103, 101];
  }

  lemma KnownAnswerRevenue()
    ensures Cyrb53("revenue") == 8309097637345594
  {
    var u: seq<CodeUnit> := [114, 101, 118, 101, 110, 117, 101];
    assert CodeUnits("revenue") == u;
    AbsorbRevenue();
    assert Finalize((0x74f585d5, 0xcc52fda5)) == (0x8d13f93a, 0xfb1d8514);
  }

  lemma AbsorbRevenue()
    ensures Absorb([114, 101, 118, 101, 110, 117, 101], 0) == (0x74f585d5, 0xcc52fda5)
  {
    assert Absorb([], 0) == (0xdeadbeef, 0x41c6ce57);
    AbsorbSnoc([], 114, 0, 0xdeadbeef, 0x41c6ce57);
    assert [] + [114] == [114];
    AbsorbSnoc([114], 101, 0, 0xeef3ff8d, 0x59e56f89);
    assert [114] + [101] == [114, 101];
    AbsorbSnoc([114, 101], 118, 0, 0xb5809768, 0xb21e545c);
    assert [114, 101] + [118] == [114, 101, 118];
    AbsorbSnoc([114, 101, 118], 101, 0, 0x40c7a9be, 0x87396472);
    assert [114, 101, 118] + [101] == [114, 101, 118, 101];
    AbsorbSnoc([114, 101, 118, 101], 110, 0, 0xd161f36b, 0x61433d63);
    assert [114, 101, 118, 101] + [110] == [114, 101, 118, 101, 110];
    AbsorbSnoc([114, 101, 118, 101, 110], 117, 0, 0x5ca96375, 0x56ac9c91);
    assert [114, 101, 118, 101, 110] + [117] == [114, 101, 118, 101, 110, 117];
    AbsorbSnoc([114, 101, 118, 101, 110, 117], 101, 0, 0x65e87300, 0xf6f460b4);
    assert [114, 101, 118, 101, 110, 117] + [101] == [114, 101, 118, 101, 110, 117, 101];
  }
}
