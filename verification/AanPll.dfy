/**
 The clock settings of the AAN chips (driver-aan.c): a frequency is packed into a 16-bit register as a feedback
 divider, a pre-divider and a post-divider.
 */
module AanPll {
  import opened Bits
  import opened Bytes

  const MAX_FBDIV := 0x1ff

  type Unsigned = n: int | 0 <= n < TWO_TO_THE_32
  type Register = n: int | 0 <= n < TWO_TO_THE_16

  /** The three fields of the register. */
  datatype Setting = Setting(postdiv: nat, prediv: nat, fbdiv: nat)

  /** The fields are as wide as the register's layout makes them: 2, 5 and 9 bits. */
  predicate Fits(s: Setting) {
    s.postdiv < 4 && s.prediv < 0x20 && s.fbdiv <= MAX_FBDIV
  }

  /** The code's shifts and ors. */
  function Pack(s: Setting): nat {
    Bitwise(BitOr, Shifted(Bitwise(BitOr, Shifted(s.postdiv, 5), s.prediv), 9), s.fbdiv)
  }

  function Unpack(pll: nat): Setting {
    Setting(pll / 0x4000, pll / 0x200 % 0x20, pll % 0x200)
  }

  lemma {:induction false} ShiftedBy(x: nat)
    ensures Shifted(x, 5) == 0x20 * x && Shifted(x, 9) == 0x200 * x
    ensures Pow2(5) == 0x20 && Pow2(9) == 0x200
  {
    assert Shifted(x, 1) == 2 * x;
    assert Shifted(x, 2) == 4 * x;
    assert Shifted(x, 4) == 0x10 * x;
    assert Shifted(x, 6) == 0x40 * x;
    assert Shifted(x, 8) == 0x100 * x;
    assert Pow2(4) == 0x10;
    assert Pow2(8) == 0x100;
  }

  /** Or of a shifted number with one that fits in the room is a sum. */
  lemma {:induction false} OrIsSum(x: nat, y: nat, n: nat)
    requires y < Pow2(n)
    ensures Bitwise(BitOr, Shifted(x, n), y) == Shifted(x, n) + y
  {
    BitwiseSplits(BitOr, n, x, 0, 0, y);
    BitwiseZero(BitOr, x);
    BitwiseZero(BitOr, y);
    ShiftedZero(n);
  }

  lemma {:induction false} ShiftedZero(n: nat)
    ensures Shifted(0, n) == 0
  {
    if n > 0 {
      ShiftedZero(n - 1);
    }
  }

  /** The fields never overlap: each reads back, and nothing spills out of the 16 bits. */
  lemma FieldsDoNotOverlap(s: Setting)
    requires Fits(s)
    ensures Pack(s) < TWO_TO_THE_16 && Unpack(Pack(s)) == s
  {
    hide Bitwise, Shifted;
    var high := Bitwise(BitOr, Shifted(s.postdiv, 5), s.prediv);
    ShiftedBy(s.postdiv);
    OrIsSum(s.postdiv, s.prediv, 5);
    ShiftedBy(high);
    OrIsSum(high, s.fbdiv, 9);
  }

  /** What the code shifts by, as a factor. */
  function PostFactor(postdiv: nat): nat
    requires 1 <= postdiv < 4
  {
    if postdiv == 1 then 1 else if postdiv == 2 then 2 else 4
  }

  /** The settings the decoder is defined on: it divides by prediv and shifts by postdiv - 1. */
  predicate Defined(s: Setting) {
    Fits(s) && 1 <= s.postdiv && 1 <= s.prediv
  }

  function Decode(s: Setting): nat
    requires Defined(s)
  {
    12 * s.fbdiv / s.prediv / PostFactor(s.postdiv)
  }

  /** aan_pll2freq */
  function Pll2Freq(pll: Register): nat
    requires Defined(Unpack(pll))
  {
    Decode(Unpack(pll))
  }

  /** The setting runs at exactly this frequency: no remainder is dropped. */
  predicate RunsAt(s: Setting, freq: nat) {
    Defined(s) && freq * (s.prediv * PostFactor(s.postdiv)) == 12 * s.fbdiv
  }

  /** Some setting of the register, with whatever dividers, runs at exactly this frequency. */
  ghost predicate Exact(freq: nat) {
    exists s :: RunsAt(s, freq)
  }

  /** The fields one pass of the search computes; its fbdiv is 16 bits wide. */
  function Attempt(freq: Unsigned): Setting {
    var third := freq / 3 % TWO_TO_THE_16;
    var prediv := if third * 3 == freq then 1 else 3;
    var fbdiv := if third * 3 == freq then third else freq % TWO_TO_THE_16;
    if fbdiv % 4 == 0 then Setting(1, prediv, fbdiv / 4)
    else if fbdiv % 2 == 0 then Setting(2, prediv, fbdiv / 2)
    else Setting(3, prediv, fbdiv)
  }

  predicate Accepted(freq: Unsigned) {
    Attempt(freq).fbdiv <= MAX_FBDIV
  }

  /** Where the search stops. */
  function Settled(freq: Unsigned): (r: Unsigned)
    ensures r <= freq && Accepted(r)
    ensures forall f | r < f <= freq :: !Accepted(f)
  {
    if Accepted(freq) then freq else Settled(freq - 1)
  }

  /** The register of the frequency that the search stops at. */
  function Encode(freq: Unsigned): (pll: Register)
    ensures Unpack(pll) == Attempt(Settled(freq)) && Defined(Unpack(pll))
  {
    var s := Attempt(Settled(freq));
    FieldsDoNotOverlap(s);
    Pack(s)
  }

  /** The search's division by 4 or by 2, as far as it goes. */
  function Reduced(n: nat): (r: nat)
    ensures n == r * (if n % 4 == 0 then 4 else if n % 2 == 0 then 2 else 1)
  {
    if n % 4 == 0 then n / 4 else if n % 2 == 0 then n / 2 else n
  }

  // Remainders, one divisor at a time

  lemma ModTwo(n: nat, q: nat, r: nat)
    requires n == 2 * q + r && r < 2
    ensures n % 2 == r
  {
  }

  lemma ModThree(n: nat, q: nat, r: nat)
    requires n == 3 * q + r && r < 3
    ensures n % 3 == r
  {
  }

  lemma ModFour(n: nat, q: nat, r: nat)
    requires n == 4 * q + r && r < 4
    ensures n % 4 == r
  {
  }

  lemma ThirdKeepsFours(k: nat)
    ensures 3 * k % 4 == 0 <==> k % 4 == 0
  {
    var q, r := k / 4, k % 4;
    if r == 0 {
      ModFour(3 * k, 3 * q, 0);
    } else if r == 1 {
      ModFour(3 * k, 3 * q, 3);
    } else if r == 2 {
      ModFour(3 * k, 3 * q + 1, 2);
    } else {
      ModFour(3 * k, 3 * q + 2, 1);
    }
  }

  lemma ThirdKeepsTwos(k: nat)
    ensures 3 * k % 2 == 0 <==> k % 2 == 0
  {
    var q, r := k / 2, k % 2;
    if r == 0 {
      ModTwo(3 * k, 3 * q, 0);
    } else {
      ModTwo(3 * k, 3 * q + 1, 1);
    }
  }

  lemma AttemptReduces(freq: Unsigned)
    requires freq < TWO_TO_THE_16
    ensures Attempt(freq).fbdiv == if freq % 3 == 0 then Reduced(freq / 3) else Reduced(freq)
    ensures Attempt(freq).prediv == if freq % 3 == 0 then 1 else 3
    ensures Attempt(freq).postdiv == if freq % 4 == 0 then 1 else if freq % 2 == 0 then 2 else 3
  {
    var third := freq / 3;
    assert third % TWO_TO_THE_16 == third && freq % TWO_TO_THE_16 == freq;
    ThirdKeepsFours(third);
    ThirdKeepsTwos(third);
    if freq % 3 == 0 {
      assert freq == 3 * third;
    }
  }

  lemma AttemptRunsAt(freq: Unsigned)
    requires freq < TWO_TO_THE_16 && Accepted(freq)
    ensures RunsAt(Attempt(freq), freq)
  {
    hide Attempt;
    AttemptReduces(freq);
    var s := Attempt(freq);
    RunsAtBy(s, freq, if freq % 3 == 0 then freq / 3 else freq);
  }

  lemma RunsAtBy(s: Setting, freq: nat, n: nat)
    requires Fits(s) && s.prediv in {1, 3} && s.postdiv in {1, 2, 3}
    requires freq == (if s.prediv == 1 then 3 * n else n)
    requires n == s.fbdiv * (if s.postdiv == 1 then 4 else if s.postdiv == 2 then 2 else 1)
    ensures RunsAt(s, freq)
  {
  }

  lemma AttemptDecodes(freq: Unsigned)
    requires freq < TWO_TO_THE_16 && Accepted(freq)
    ensures Decode(Attempt(freq)) == freq
  {
    AttemptRunsAt(freq);
    var s := Attempt(freq);
    if s.prediv == 1 {
      assert 12 * s.fbdiv == freq * PostFactor(s.postdiv);
    } else {
      assert 12 * s.fbdiv / 3 == freq * PostFactor(s.postdiv);
    }
  }

  /** The factor that the frequency shares with 12. */
  function Shared(freq: nat): (g: nat)
    ensures g in [1, 2, 3, 4, 6, 12]
  {
    if freq % 3 == 0 then
      if freq % 4 == 0 then 12 else if freq % 2 == 0 then 6 else 3
    else
      if freq % 4 == 0 then 4 else if freq % 2 == 0 then 2 else 1
  }

  lemma AcceptedWhen(freq: Unsigned)
    requires freq < TWO_TO_THE_16
    ensures Accepted(freq) <==> freq <= MAX_FBDIV * Shared(freq)
  {
    hide Attempt;
    AttemptReduces(freq);
    ThirdKeepsFours(freq / 3);
    ThirdKeepsTwos(freq / 3);
    if freq % 3 == 0 {
      assert freq == 3 * (freq / 3);
    }
  }

  // Numbers prime to 12, 4 or 3 have squares that leave 1

  lemma SquareLeavesOneOf12(u: nat) returns (k: int)
    requires u % 2 != 0 && u % 3 != 0
    ensures u * u == 12 * k + 1
  {
    var q := u / 6;
    if u == 6 * q + 1 {
      k := 3 * q * q + q;
    } else {
      assert u == 6 * q + 5;
      k := 3 * q * q + 5 * q + 2;
    }
  }

  lemma SquareLeavesOneOf4(u: nat) returns (k: int)
    requires u % 2 != 0
    ensures u * u == 4 * k + 1
  {
    var q := u / 2;
    assert u == 2 * q + 1;
    k := q * q + q;
  }

  lemma SquareLeavesOneOf3(u: nat) returns (k: int)
    requires u % 3 != 0
    ensures u * u == 3 * k + 1
  {
    var q := u / 3;
    if u == 3 * q + 1 {
      k := 3 * q * q + 2 * q;
    } else {
      assert u == 3 * q + 2;
      k := 3 * q * q + 4 * q + 1;
    }
  }

  lemma SuppliesAll(u: nat, n: nat, k: int, d: nat, m: nat)
    requires u * u == n * k + 1 && u * d == n * m && d >= 1
    ensures d >= n
  {
    var c := u * m - k * d;
    calc {
      n * c;
      u * (n * m) - n * k * d;
      u * (u * d) - n * k * d;
      (n * k + 1) * d - n * k * d;
      d;
    }
    AtLeastOnce(n, c);
  }

  lemma AtLeastOnce(n: nat, c: int)
    requires n * c >= 1
    ensures n * c >= n
  {
  }

  lemma Lacks12(u: nat, d: nat, m: nat)
    requires u % 2 != 0 && u % 3 != 0 && d >= 1 && u * d == 12 * m
    ensures d >= 12
  {
    var k := SquareLeavesOneOf12(u);
    SuppliesAll(u, 12, k, d, m);
  }

  lemma Lacks6(u: nat, d: nat, m: nat)
    requires u % 2 != 0 && u % 3 != 0 && d >= 1 && u * d == 6 * m
    ensures d >= 6
  {
    var k := SquareLeavesOneOf12(u);
    SuppliesAll(u, 6, 2 * k, d, m);
  }

  lemma Lacks4(u: nat, d: nat, m: nat)
    requires u % 2 != 0 && d >= 1 && u * d == 4 * m
    ensures d >= 4
  {
    var k := SquareLeavesOneOf4(u);
    SuppliesAll(u, 4, k, d, m);
  }

  lemma Lacks3(u: nat, d: nat, m: nat)
    requires u % 3 != 0 && d >= 1 && u * d == 3 * m
    ensures d >= 3
  {
    var k := SquareLeavesOneOf3(u);
    SuppliesAll(u, 3, k, d, m);
  }

  lemma Lacks2(u: nat, d: nat, m: nat)
    requires u % 2 != 0 && d >= 1 && u * d == 2 * m
    ensures d >= 2
  {
    if d == 1 {
    }
  }

  lemma Product(freq: nat, g: nat, u: nat, d: nat)
    requires freq == g * u
    ensures freq * d == g * (u * d)
  {
    assert freq * d == (g * u) * d;
  }

  /** What is left of a number after the factor it shares with 12 is prime to what that factor lacks. */
  predicate Rest(g: nat, u: nat) {
    (g in [1, 2, 3, 6] ==> u % 2 != 0) && (g in [1, 2, 4] ==> u % 3 != 0)
  }

  /** The remainders of a number by the divisors of 12, from its remainder by 12. */
  lemma Remainders(n: nat, q: nat, r: nat)
    requires n == 12 * q + r && r < 12
    ensures n % 2 == r % 2 && n % 3 == r % 3 && n % 4 == r % 4
  {
    ModTwo(n, 6 * q + r / 2, r % 2);
    ModThree(n, 4 * q + r / 3, r % 3);
    ModFour(n, 3 * q + r / 4, r % 4);
  }

  lemma SharedLeavesRest(freq: nat) returns (u: nat)
    ensures freq == Shared(freq) * u && Rest(Shared(freq), u)
  {
    var q, r := freq / 12, freq % 12;
    Remainders(freq, q, r);
    if r == 0 {
      u := q;
    } else if r == 6 {
      u := 2 * q + 1;
      ModTwo(u, q, 1);
    } else if r == 4 || r == 8 {
      u := 3 * q + r / 4;
      ModThree(u, q, r / 4);
    } else if r == 3 {
      u := 4 * q + 1;
      ModTwo(u, 2 * q, 1);
    } else if r == 9 {
      u := 4 * q + 3;
      ModTwo(u, 2 * q + 1, 1);
    } else if r == 2 {
      u := 6 * q + 1;
      ModTwo(u, 3 * q, 1);
      ModThree(u, 2 * q, 1);
    } else if r == 10 {
      u := 6 * q + 5;
      ModTwo(u, 3 * q + 2, 1);
      ModThree(u, 2 * q + 1, 2);
    } else {
      u := freq;
    }
  }

  lemma RestSupplies(g: nat, u: nat, d: nat, fbdiv: nat)
    requires g in [1, 2, 3, 4, 6, 12] && Rest(g, u) && d >= 1 && g * (u * d) == 12 * fbdiv
    ensures g * d >= 12
  {
    if g == 1 {
      Lacks12(u, d, fbdiv);
    } else if g == 2 {
      Lacks6(u, d, fbdiv);
    } else if g == 3 {
      Lacks4(u, d, fbdiv);
    } else if g == 4 {
      Lacks3(u, d, fbdiv);
    } else if g == 6 {
      Lacks2(u, d, fbdiv);
    }
  }

  /** A total divider d that makes a multiple of 12 out of freq supplies what freq lacks of the factor 12. */
  lemma DividerSupplies(freq: nat, d: nat, fbdiv: nat)
    requires d >= 1 && freq * d == 12 * fbdiv
    ensures Shared(freq) * d >= 12
  {
    hide Shared, Rest;
    var u := SharedLeavesRest(freq);
    Product(freq, Shared(freq), u, d);
    RestSupplies(Shared(freq), u, d, fbdiv);
  }

  lemma ExactIsBounded(freq: nat, s: Setting)
    requires RunsAt(s, freq)
    ensures freq <= MAX_FBDIV * Shared(freq)
  {
    hide Shared;
    var g, d := Shared(freq), s.prediv * PostFactor(s.postdiv);
    DividerSupplies(freq, d, s.fbdiv);
    Scaled(freq, g * d);
    assert freq * (g * d) == g * (freq * d);
    assert g * (12 * s.fbdiv) == 12 * (g * s.fbdiv);
  }

  lemma Scaled(n: nat, k: nat)
    requires k >= 12
    ensures 12 * n <= n * k
  {
  }

  /** The search accepts exactly the frequencies that the register can hold at all, with any dividers. */
  lemma AcceptedIffExact(freq: Unsigned)
    requires freq < TWO_TO_THE_16
    ensures Accepted(freq) <==> Exact(freq)
  {
    hide RunsAt, Shared;
    AcceptedWhen(freq);
    if Accepted(freq) {
      AttemptRunsAt(freq);
    }
    if Exact(freq) {
      var s :| RunsAt(s, freq);
      ExactIsBounded(freq, s);
    }
  }

  /** Up to 16 bits, the register runs at exactly the greatest frequency not above the request that any register can. */
  lemma {:induction false} EncodeIsBest(freq: Unsigned)
    requires freq < TWO_TO_THE_16
    ensures RunsAt(Unpack(Encode(freq)), Pll2Freq(Encode(freq)))
    ensures Pll2Freq(Encode(freq)) == Settled(freq) <= freq
    ensures forall f | Pll2Freq(Encode(freq)) < f <= freq :: !Exact(f)
  {
    hide Attempt, Accepted, Decode, RunsAt, Encode, Exact;
    var r := Settled(freq);
    AttemptRunsAt(r);
    AttemptDecodes(r);
    forall f: Unsigned | r < f <= freq
      ensures !Exact(f)
    {
      AcceptedIffExact(f);
    }
  }

  lemma MultipleAccepted(k: nat)
    requires k <= MAX_FBDIV
    ensures Accepted(12 * k)
  {
    hide Attempt, Accepted;
    AcceptedWhen(12 * k);
    Remainders(12 * k, k, 0);
  }

  lemma QuotientOf(a: nat, k: nat)
    requires 12 * k <= a < 12 * k + 12
    ensures a / 12 == k
  {
  }

  /** The repository's own check of the pair, exactly where it holds. */
  lemma SameTwelfth(freq: Unsigned)
    ensures Pll2Freq(Encode(freq)) / 12 == freq / 12 <==> freq <= 12 * MAX_FBDIV + 11
  {
    hide Attempt, Encode, Decode, Accepted;
    var k, got := freq / 12, Pll2Freq(Encode(freq));
    DecodeAtMost(Unpack(Encode(freq)));
    if freq <= 12 * MAX_FBDIV + 11 {
      EncodeIsBest(freq);
      MultipleAccepted(k);
      QuotientOf(got, k);
    }
  }

  lemma DecodeAtMost(s: Setting)
    requires Defined(s)
    ensures Decode(s) <= 12 * MAX_FBDIV
  {
    AtMost(12 * s.fbdiv, s.prediv);
    AtMost(12 * s.fbdiv / s.prediv, PostFactor(s.postdiv));
  }

  lemma AtMost(n: nat, d: nat)
    requires d >= 1
    ensures n / d <= n
  {
  }

  /** aan_freq2pll: the retry loop. */
  method Freq2Pll(freq: Unsigned) returns (pll: Register)
    ensures pll == Encode(freq)
  {
    var f: Unsigned := freq;
    while true
      invariant f <= freq && Settled(f) == Settled(freq)
      decreases f
    {
      var postdiv, prediv := 3, 3;
      var fbdiv := f / 3 % TWO_TO_THE_16;
      if fbdiv * 3 == f {
        prediv := 1;
      } else {
        fbdiv := f % TWO_TO_THE_16;
      }
      if fbdiv % 4 == 0 {
        fbdiv := fbdiv / 4;
        postdiv := 1;
      } else if fbdiv % 2 == 0 {
        fbdiv := fbdiv / 2;
        postdiv := 2;
      }
      assert Setting(postdiv, prediv, fbdiv) == Attempt(f);
      if fbdiv <= MAX_FBDIV {
        FieldsDoNotOverlap(Attempt(f));
        return Pack(Setting(postdiv, prediv, fbdiv));
      }
      assert Attempt(0).fbdiv == 0;
      f := f - 1;
    }
  }
}
