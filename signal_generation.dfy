/**
 * The synthesiser of signal_generation_tools.py: stable AR(p) coefficients derived from a decay
 * time scale (`ar_from_timescale`), and the generators of N autoregressive channels
 * (`generate_signals_A1`, `generate_signals_Ap`). Floating point is modelled by `real`; the
 * decay factor `exp(-1 / (f_0 * tau))` and the random innovations are inputs.
 */
module SignalGeneration {

  /** The 10 % margin of `a /= np.sum(a) * 1.1`. */
  const StabilityMargin: real := 1.1

  /** `np.sum` over a sequence of reals. */
  function Sum(s: seq<real>): real
  {
    if s == [] then 0.0 else s[0] + Sum(s[1..])
  }

  /** `v**2`. */
  function Square(v: real): real
  {
    v * v
  }

  /** `np.sum(a**2)`. */
  function SumOfSquares(s: seq<real>): real
  {
    if s == [] then 0.0 else Square(s[0]) + SumOfSquares(s[1..])
  }

  /** `phi ** k`. */
  function Pow(phi: real, k: nat): real
  {
    if k == 0 then 1.0 else phi * Pow(phi, k - 1)
  }

  /** `phi ** np.arange(1, p + 1)`: the unnormalised coefficients. */
  function Geometric(phi: real, p: nat): (g: seq<real>)
    ensures |g| == p
  {
    seq(p, k requires 0 <= k < p => Pow(phi, k + 1))
  }

  /** Element-wise division of a vector by a scalar. */
  function ScaledBy(s: seq<real>, c: real): (r: seq<real>)
    requires c != 0.0
    ensures |r| == |s|
  {
    seq(|s|, k requires 0 <= k < |s| => s[k] / c)
  }

  lemma {:induction false} PowPositive(phi: real, k: nat)
    requires 0.0 < phi
    ensures Pow(phi, k) > 0.0
  {
    if k > 0 {
      PowPositive(phi, k - 1);
    }
  }

  lemma {:induction false} SumPositive(s: seq<real>)
    requires s != []
    requires forall k :: 0 <= k < |s| ==> s[k] > 0.0
    ensures Sum(s) > 0.0
  {
    if |s| > 1 {
      SumPositive(s[1..]);
    }
  }

  /** The unnormalised coefficients are positive and so is their sum. */
  lemma GeometricPositive(phi: real, p: nat)
    requires 0.0 < phi
    ensures forall k :: 0 <= k < p ==> Geometric(phi, p)[k] > 0.0
    ensures p > 0 ==> Sum(Geometric(phi, p)) > 0.0
  {
    forall k | 0 <= k < p ensures Geometric(phi, p)[k] > 0.0 {
      PowPositive(phi, k + 1);
    }
    if p > 0 {
      SumPositive(Geometric(phi, p));
    }
  }

  /**
   * `ar_from_timescale(tau_s, f_0, p)` with `phi = exp(-1 / (f_0 * tau_s))` given directly
   * (an exponential is always positive). Every coefficient is positive and each lag is `phi`
   * times the previous one: the vector is `phi^k` times one positive constant.
   */
  function ArFromTimescale(phi: real, p: nat): (a: seq<real>)
    requires 0.0 < phi
    ensures |a| == p
    ensures forall k :: 0 <= k < p ==> a[k] > 0.0
    ensures forall k :: 0 <= k < p - 1 ==> a[k + 1] == phi * a[k]
  {
    if p == 0 then []
    else
      GeometricPositive(phi, p);
      var c := Sum(Geometric(phi, p)) * StabilityMargin;
      ScaledGeometric(phi, p, c);
      ScaledBy(Geometric(phi, p), c)
  }

  /** Dividing the geometric vector by a positive constant keeps it positive and geometric. */
  lemma ScaledGeometric(phi: real, p: nat, c: real)
    requires 0.0 < phi && 0.0 < c
    ensures forall k :: 0 <= k < p ==> ScaledBy(Geometric(phi, p), c)[k] > 0.0
    ensures forall k :: 0 <= k < p - 1 ==> ScaledBy(Geometric(phi, p), c)[k + 1] == phi * ScaledBy(Geometric(phi, p), c)[k]
  {
    var g := Geometric(phi, p);
    var a := ScaledBy(g, c);
    forall k | 0 <= k < p ensures a[k] > 0.0 {
      PowPositive(phi, k + 1);
      QuotientPositive(g[k], c);
    }
    forall k | 0 <= k < p - 1 ensures a[k + 1] == phi * a[k] {
      assert g[k + 1] == phi * g[k];
      ScaleCommutes(phi, g[k], c);
    }
  }

  lemma QuotientPositive(v: real, c: real)
    requires v > 0.0 && c > 0.0
    ensures v / c > 0.0
  {
  }

  lemma ScaleCommutes(phi: real, v: real, c: real)
    requires c != 0.0
    ensures (phi * v) / c == phi * (v / c)
  {
  }

  lemma {:induction false} SumScaledBy(s: seq<real>, c: real)
    requires c != 0.0
    ensures Sum(ScaledBy(s, c)) == Sum(s) / c
  {
    if s != [] {
      assert ScaledBy(s, c)[1..] == ScaledBy(s[1..], c);
      SumScaledBy(s[1..], c);
    }
  }

  /** After the in-place division the coefficients sum to exactly 1 / 1.1. */
  lemma CoefficientsSumToInverseMargin(phi: real, p: nat)
    requires 0.0 < phi && p > 0
    ensures Sum(ArFromTimescale(phi, p)) == 1.0 / StabilityMargin
  {
    var g := Geometric(phi, p);
    GeometricPositive(phi, p);
    SumScaledBy(g, Sum(g) * StabilityMargin);
  }

  /** A positive sequence whose every element is `phi` in (0, 1) times its predecessor decreases. */
  lemma GeometricDecreasing(a: seq<real>, phi: real, i: nat, j: nat)
    requires 0.0 < phi < 1.0
    requires forall k :: 0 <= k < |a| ==> a[k] > 0.0
    requires forall k :: 0 <= k < |a| - 1 ==> a[k + 1] == phi * a[k]
    requires i < j < |a|
    ensures a[i] > a[j]
  {
    forall k | 0 <= k < |a| - 1 ensures a[k + 1] < a[k] {
      DecayStep(phi, a[k]);
    }
    StepwiseDecreasing(a, i, j);
  }

  /** A sequence whose every element is below its predecessor strictly decreases. */
  lemma {:induction false} StepwiseDecreasing(a: seq<real>, i: nat, j: nat)
    requires forall k :: 0 <= k < |a| - 1 ==> a[k + 1] < a[k]
    requires i < j < |a|
    ensures a[i] > a[j]
  {
    if i < j - 1 {
      StepwiseDecreasing(a, i, j - 1);
    }
    assert a[j - 1 + 1] < a[j - 1];
  }

  /** Multiplying a positive value by `phi` in (0, 1) makes it smaller. */
  lemma DecayStep(phi: real, v: real)
    requires 0.0 < phi < 1.0 && v > 0.0
    ensures phi * v < v
  {
    assert v - phi * v == (1.0 - phi) * v;
    PositiveProduct(1.0 - phi, v);
  }

  lemma PositiveProduct(u: real, v: real)
    requires u > 0.0 && v > 0.0
    ensures u * v > 0.0
  {
  }

  /** With `phi` in (0, 1), i.e. a positive decay time, the coefficients strictly decrease. */
  lemma CoefficientsStrictlyDecreasing(phi: real, p: nat)
    requires 0.0 < phi < 1.0
    ensures forall i, j :: 0 <= i < j < p ==> ArFromTimescale(phi, p)[i] > ArFromTimescale(phi, p)[j]
  {
    var a := ArFromTimescale(phi, p);
    forall i, j | 0 <= i < j < p ensures a[i] > a[j] {
      GeometricDecreasing(a, phi, i, j);
    }
  }

  lemma {:induction false} ElementAtMostSum(s: seq<real>, k: nat)
    requires forall i :: 0 <= i < |s| ==> s[i] >= 0.0
    requires k < |s|
    ensures s[k] <= Sum(s)
  {
    if k == 0 {
      NonNegativeSum(s[1..]);
    } else {
      ElementAtMostSum(s[1..], k - 1);
    }
  }

  lemma {:induction false} NonNegativeSum(s: seq<real>)
    requires forall i :: 0 <= i < |s| ==> s[i] >= 0.0
    ensures Sum(s) >= 0.0
  {
    if s != [] {
      NonNegativeSum(s[1..]);
    }
  }

  lemma {:induction false} SquaresAtMostSum(s: seq<real>)
    requires forall i :: 0 <= i < |s| ==> 0.0 <= s[i] <= 1.0
    ensures SumOfSquares(s) <= Sum(s)
  {
    if s != [] {
      SquareAtMost(s[0]);
      SquaresAtMostSum(s[1..]);
    }
  }

  /** A number in [0, 1] is at least its square. */
  lemma SquareAtMost(v: real)
    requires 0.0 <= v <= 1.0
    ensures Square(v) <= v
  {
    PositiveOrZeroProduct(v, 1.0 - v);
    assert v * v == v - v * (1.0 - v);
  }

  lemma PositiveOrZeroProduct(u: real, v: real)
    requires u >= 0.0 && v >= 0.0
    ensures u * v >= 0.0
  {
  }

  /** The argument of `np.sqrt` in the noise standard deviation of `generate_signals_Ap`. */
  function NoiseRadicand(a: seq<real>): real
  {
    1.0 - SumOfSquares(a)
  }

  /**
   * Derived coefficients always give a positive radicand, so the noise standard deviation
   * `std * sqrt(1 - sum(a**2))` is defined for them.
   */
  lemma CoefficientsGivePositiveRadicand(phi: real, p: nat)
    requires 0.0 < phi
    ensures SumOfSquares(ArFromTimescale(phi, p)) < 1.0
    ensures NoiseRadicand(ArFromTimescale(phi, p)) > 0.0
  {
    var a := ArFromTimescale(phi, p);
    if p > 0 {
      CoefficientsSumToInverseMargin(phi, p);
      forall k | 0 <= k < p ensures 0.0 <= a[k] <= 1.0 {
        ElementAtMostSum(a, k);
      }
      SquaresAtMostSum(a);
    }
  }

  // ---------------------------------------------------------------------------------------------
  // The generators

  /**
   * The lag term of `np.dot(a, x[t-p:t][::-1])` over the first k coefficients, on deviations
   * from `mu`: the sum of `a[j] * (x[t-1-j] - mu)` for j < k, so `a[0]` weighs the latest lag.
   */
  function LagSum(a: seq<real>, x: seq<real>, mu: real, t: nat, k: nat): real
    requires k <= |a| && k <= t <= |x|
  {
    if k == 0 then 0.0 else LagSum(a, x, mu, t, k - 1) + a[k - 1] * (x[t - k] - mu)
  }

  /**
   * `x` is the AR(p) channel with coefficients `a`, innovations `eps` and mean `mu` as
   * `generate_signals_Ap` computes it: one sample per innovation, the first p samples are
   * exactly `mu`, and every later deviation from `mu` is the lag term plus the innovation.
   */
  predicate IsArPath(a: seq<real>, eps: seq<real>, mu: real, x: seq<real>)
  {
    && |x| == |eps|
    && (forall t :: 0 <= t < |x| && t < |a| ==> x[t] == mu)
    && (forall t :: |a| <= t < |x| ==> x[t] - mu == LagSum(a, x, mu, t, |a|) + eps[t])
  }

  /** The lag term reads only the deviations of the k samples before t. */
  lemma {:induction false} LagSumReadsDeviations(
    a: seq<real>, x: seq<real>, mu: real, y: seq<real>, nu: real, t: nat, k: nat)
    requires k <= |a| && k <= t && t <= |x| && t <= |y|
    requires forall u :: t - k <= u < t ==> x[u] - mu == y[u] - nu
    ensures LagSum(a, x, mu, t, k) == LagSum(a, y, nu, t, k)
  {
    if k > 0 {
      LagSumReadsDeviations(a, x, mu, y, nu, t, k - 1);
    }
  }

  /** The recurrence determines the channel: given a, eps and mu there is one AR(p) path. */
  lemma ArPathUnique(a: seq<real>, eps: seq<real>, mu: real, x: seq<real>, y: seq<real>)
    requires IsArPath(a, eps, mu, x) && IsArPath(a, eps, mu, y)
    ensures x == y
  {
    var t := 0;
    while t < |x|
      invariant 0 <= t <= |x|
      invariant forall u :: 0 <= u < t ==> x[u] == y[u]
    {
      if t >= |a| {
        LagSumReadsDeviations(a, x, mu, y, mu, t, |a|);
      }
      t := t + 1;
    }
  }

  /** `np.dot(a, x[t-p:t][::-1])` on the buffer: the latest p samples, latest first. */
  method LagDot(a: seq<real>, x: array<real>, t: nat) returns (dot: real)
    requires |a| <= t <= x.Length
    ensures dot == LagSum(a, x[..], 0.0, t, |a|)
  {
    dot := 0.0;
    var j := 0;
    while j < |a|
      invariant 0 <= j <= |a|
      invariant dot == LagSum(a, x[..], 0.0, t, j)
    {
      dot := dot + a[j] * x[t - 1 - j];
      j := j + 1;
    }
  }

  /** `for t in range(p, n_samples): x[t] = np.dot(a, x[t-p:t][::-1]) + eps[t]` on a zero buffer. */
  method FillArRecurrence(a: seq<real>, eps: seq<real>, x: array<real>)
    requires x.Length == |eps|
    requires forall u :: 0 <= u < x.Length ==> x[u] == 0.0
    modifies x
    ensures IsArPath(a, eps, 0.0, x[..])
  {
    var n, p := x.Length, |a|;
    var t := p;
    while t < n
      invariant p <= t
      invariant forall u :: 0 <= u < n && (u < p || t <= u) ==> x[u] == 0.0
      invariant forall u :: p <= u < t && u < n ==> x[u] == LagSum(a, x[..], 0.0, u, p) + eps[u]
    {
      var dot := LagDot(a, x, t);
      ghost var before := x[..];
      x[t] := dot + eps[t];
      forall u | p <= u <= t
        ensures LagSum(a, x[..], 0.0, u, p) == LagSum(a, before, 0.0, u, p)
      {
        LagSumReadsDeviations(a, x[..], 0.0, before, 0.0, u, p);
      }
      t := t + 1;
    }
  }

  /** `x += mu` (and `x = x + mu`): every sample shifted by the mean. */
  method AddMean(x: array<real>, mu: real)
    modifies x
    ensures forall u :: 0 <= u < x.Length ==> x[u] == old(x[u]) + mu
  {
    var i := 0;
    while i < x.Length
      invariant 0 <= i <= x.Length
      invariant forall u :: 0 <= u < i ==> x[u] == old(x[u]) + mu
      invariant forall u :: i <= u < x.Length ==> x[u] == old(x[u])
    {
      x[i] := x[i] + mu;
      i := i + 1;
    }
  }

  /** Shifting a zero-mean AR(p) path by `mu` gives the AR(p) path of mean `mu`. */
  lemma ShiftedArPath(a: seq<real>, eps: seq<real>, mu: real, deviations: seq<real>, x: seq<real>)
    requires IsArPath(a, eps, 0.0, deviations)
    requires |x| == |deviations|
    requires forall u :: 0 <= u < |x| ==> x[u] == deviations[u] + mu
    ensures IsArPath(a, eps, mu, x)
  {
    forall u | |a| <= u < |x|
      ensures LagSum(a, x, mu, u, |a|) == LagSum(a, deviations, 0.0, u, |a|)
    {
      LagSumReadsDeviations(a, x, mu, deviations, 0.0, u, |a|);
    }
  }

  /** One channel of `generate_signals_Ap`: a zero buffer, the recurrence in place, `x += mu`. */
  method GenerateArChannel(a: seq<real>, eps: seq<real>, mu: real) returns (samples: seq<real>)
    ensures IsArPath(a, eps, mu, samples)
  {
    var x := new real[|eps|](_ => 0.0);
    FillArRecurrence(a, eps, x);
    ghost var deviations := x[..];
    AddMean(x, mu);
    samples := x[..];
    ShiftedArPath(a, eps, mu, deviations, samples);
  }

  /**
   * `x` is the AR(1) channel of `generate_signals_A1`: one sample per noise draw, `x[0] == mu`,
   * and each later deviation is `phi` times the previous one plus the noise (noise[0] is unused).
   */
  predicate IsAr1Path(phi: real, noise: seq<real>, mu: real, x: seq<real>)
  {
    && |x| == |noise|
    && (|x| > 0 ==> x[0] == mu)
    && (forall t {:trigger noise[t]} :: 1 <= t < |x| ==> x[t] - mu == phi * (x[t - 1] - mu) + noise[t])
  }

  /** With one coefficient, the lag term is `phi` times the previous deviation. */
  lemma LagSumOrderOne(phi: real, x: seq<real>, mu: real, t: nat)
    requires 1 <= t <= |x|
    ensures LagSum([phi], x, mu, t, 1) == phi * (x[t - 1] - mu)
  {
    assert LagSum([phi], x, mu, t, 0) == 0.0;
  }

  /** `generate_signals_A1` computes the order-1 case of `generate_signals_Ap` with `a = [phi]`. */
  lemma Ar1IsOrderOneAr(phi: real, noise: seq<real>, mu: real, x: seq<real>)
    ensures IsAr1Path(phi, noise, mu, x) <==> IsArPath([phi], noise, mu, x)
  {
    forall t | 1 <= t <= |x|
      ensures LagSum([phi], x, mu, t, 1) == phi * (x[t - 1] - mu)
    {
      LagSumOrderOne(phi, x, mu, t);
    }
  }

  /** The loop of `generate_signals_A1` over a zero buffer: the deviations of the path. */
  method FillAr1Recurrence(phi: real, noise: seq<real>, x: array<real>)
    modifies x
    requires x.Length == |noise|
    requires forall u :: 0 <= u < x.Length ==> x[u] == 0.0
    ensures IsAr1Path(phi, noise, 0.0, x[..])
  {
    var t := 1;
    while t < x.Length
      invariant 1 <= t
      invariant x.Length > 0 ==> x[0] == 0.0
      invariant forall u {:trigger noise[u]} :: 1 <= u < t && u < x.Length ==> x[u] == phi * x[u - 1] + noise[u]
    {
      x[t] := phi * x[t - 1] + noise[t];
      t := t + 1;
    }
  }

  /** Adding `mu` to every deviation of an AR(1) path gives the path around `mu`. */
  lemma ShiftedAr1Path(phi: real, noise: seq<real>, mu: real, deviations: seq<real>, x: seq<real>)
    requires IsAr1Path(phi, noise, 0.0, deviations)
    requires |x| == |deviations|
    requires forall u :: 0 <= u < |x| ==> x[u] == deviations[u] + mu
    ensures IsAr1Path(phi, noise, mu, x)
  {
    forall t | 1 <= t < |x| ensures x[t] - mu == phi * (x[t - 1] - mu) + noise[t] {
      assert x[t] - mu == deviations[t] && x[t - 1] - mu == deviations[t - 1];
    }
  }

  /** One channel of `generate_signals_A1`: the loop from t = 1 over a zero buffer, then `+ mu`. */
  method GenerateAr1Channel(phi: real, noise: seq<real>, mu: real) returns (samples: seq<real>)
    ensures IsAr1Path(phi, noise, mu, samples)
  {
    var x := new real[|noise|](_ => 0.0);
    FillAr1Recurrence(phi, noise, x);
    ghost var deviations := x[..];
    AddMean(x, mu);
    samples := x[..];
    ShiftedAr1Path(phi, noise, mu, deviations, samples);
  }

  // ---------------------------------------------------------------------------------------------
  // The signal matrix

  /** One named column of the data frame. */
  datatype Column = Column(name: string, samples: seq<real>)

  /** The data frame `{"time_s": time_s, "sig_1": ..., ..., "sig_N": ...}`. */
  datatype SignalMatrix = SignalMatrix(time: seq<real>, channels: seq<Column>)

  /** Every channel has one sample per row of the time column. */
  predicate Rectangular(m: SignalMatrix)
  {
    forall i :: 0 <= i < |m.channels| ==> |m.channels[i].samples| == |m.time|
  }

  /** Per-channel configuration of `generate_signals_Ap`: the mean and the coefficient list. */
  datatype ArSpec = ArSpec(mu: real, coefficients: seq<real>)

  /** Per-channel configuration of `generate_signals_A1`: the mean and `phi`. */
  datatype Ar1Spec = Ar1Spec(mu: real, phi: real)

  /** `np.arange(n_samples) / f_0`: the sample times, a fixed step of 1/f_0 apart from 0. */
  function TimeAxis(n: nat, f0: real): (time: seq<real>)
    requires n == 0 || f0 != 0.0
    ensures |time| == n
    ensures forall t :: 0 <= t < n ==> time[t] * f0 == t as real
  {
    seq(n, t requires 0 <= t < n => t as real / f0)
  }

  /** With a positive sample rate the time column strictly increases, in steps of 1/f_0. */
  lemma TimeAxisIncreasing(n: nat, f0: real)
    requires f0 > 0.0
    ensures forall t :: 0 <= t < n - 1 ==> TimeAxis(n, f0)[t + 1] - TimeAxis(n, f0)[t] == 1.0 / f0
    ensures forall i, j :: 0 <= i < j < n ==> TimeAxis(n, f0)[i] < TimeAxis(n, f0)[j]
  {
    var time := TimeAxis(n, f0);
    forall i, j | 0 <= i < j < n ensures time[i] < time[j] {
      assert time[j] - time[i] == (j - i) as real / f0;
    }
  }

  function DigitChar(d: nat): char
    requires d < 10
  {
    ('0' as int + d) as char
  }

  /** Python's decimal rendering of a natural number, as in `f"{i+1}"`. */
  function Decimal(n: nat): (s: string)
    ensures |s| > 0
    ensures forall i :: 0 <= i < |s| ==> '0' <= s[i] <= '9'
  {
    if n < 10 then [DigitChar(n)] else Decimal(n / 10) + [DigitChar(n % 10)]
  }

  /** The value of a string of decimal digits. */
  function DecimalValue(s: string): nat
    requires forall i :: 0 <= i < |s| ==> '0' <= s[i] <= '9'
  {
    if s == [] then 0 else DecimalValue(s[..|s| - 1]) * 10 + (s[|s| - 1] as int - '0' as int)
  }

  /** Reading back the decimal rendering gives the number: the rendering is injective. */
  lemma {:induction false} DecimalRoundTrip(n: nat)
    ensures DecimalValue(Decimal(n)) == n
  {
    if n >= 10 {
      var s := Decimal(n);
      assert s[..|s| - 1] == Decimal(n / 10);
      DecimalRoundTrip(n / 10);
    }
  }

  /** `f"sig_{i+1}"`: the name of channel i (0-based). */
  function ChannelName(i: nat): (name: string)
    ensures |name| > 4 && name[..4] == "sig_"
    ensures forall k :: 4 <= k < |name| ==> '0' <= name[k] <= '9'
  {
    "sig_" + Decimal(i + 1)
  }

  /** Distinct channels get distinct names, so no channel overwrites another in `sigs`. */
  lemma ChannelNamesDistinct(i: nat, j: nat)
    requires i != j
    ensures ChannelName(i) != ChannelName(j)
  {
    if ChannelName(i) == ChannelName(j) {
      assert Decimal(i + 1) == ChannelName(i)[4..];
      assert Decimal(j + 1) == ChannelName(j)[4..];
      DecimalRoundTrip(i + 1);
      DecimalRoundTrip(j + 1);
    }
  }

  /** The loop of `generate_signals_Ap` over the channels: channel i is named and generated. */
  method ArChannels(nChannels: nat, specs: seq<ArSpec>, innovations: seq<seq<real>>)
    returns (channels: seq<Column>)
    requires nChannels <= |specs| && nChannels <= |innovations|
    ensures |channels| == nChannels
    ensures forall i :: 0 <= i < nChannels ==>
      && channels[i].name == ChannelName(i)
      && IsArPath(specs[i].coefficients, innovations[i], specs[i].mu, channels[i].samples)
  {
    channels := [];
    var i := 0;
    while i < nChannels
      invariant 0 <= i <= nChannels
      invariant |channels| == i
      invariant forall k :: 0 <= k < i ==>
        && channels[k].name == ChannelName(k)
        && IsArPath(specs[k].coefficients, innovations[k], specs[k].mu, channels[k].samples)
    {
      var x := GenerateArChannel(specs[i].coefficients, innovations[i], specs[i].mu);
      ghost var before := channels;
      channels := channels + [Column(ChannelName(i), x)];
      assert forall k :: 0 <= k < i ==> channels[k] == before[k];
      i := i + 1;
    }
  }

  /**
   * `generate_signals_Ap`: N channels named `sig_1 .. sig_N`, channel i an AR(p_i) path of its
   * own coefficients, mean and innovations, beside the shared time column. `nSamples` stands
   * for `int(T * f_0)` and `innovations[i]` for the draws of `rng.normal` for channel i.
   */
  method GenerateSignalsAp(
    nChannels: nat, f0: real, nSamples: nat, specs: seq<ArSpec>, innovations: seq<seq<real>>)
    returns (m: SignalMatrix)
    requires nSamples == 0 || f0 != 0.0
    requires nChannels <= |specs| && nChannels <= |innovations|
    requires forall i :: 0 <= i < nChannels ==> |innovations[i]| == nSamples
    ensures |m.time| == nSamples
    ensures forall t :: 0 <= t < nSamples ==> m.time[t] * f0 == t as real
    ensures |m.channels| == nChannels && Rectangular(m)
    ensures forall i :: 0 <= i < nChannels ==>
      && m.channels[i].name == ChannelName(i)
      && IsArPath(specs[i].coefficients, innovations[i], specs[i].mu, m.channels[i].samples)
  {
    var channels := ArChannels(nChannels, specs, innovations);
    m := SignalMatrix(TimeAxis(nSamples, f0), channels);
  }

  /** The loop of `generate_signals_A1` over the channels: channel i is named and generated. */
  method Ar1Channels(nChannels: nat, specs: seq<Ar1Spec>, noise: seq<seq<real>>)
    returns (channels: seq<Column>)
    requires nChannels <= |specs| && nChannels <= |noise|
    ensures |channels| == nChannels
    ensures forall i :: 0 <= i < nChannels ==>
      && channels[i].name == ChannelName(i)
      && IsAr1Path(specs[i].phi, noise[i], specs[i].mu, channels[i].samples)
  {
    channels := [];
    var i := 0;
    while i < nChannels
      invariant 0 <= i <= nChannels
      invariant |channels| == i
      invariant forall k :: 0 <= k < i ==>
        && channels[k].name == ChannelName(k)
        && IsAr1Path(specs[k].phi, noise[k], specs[k].mu, channels[k].samples)
    {
      var x := GenerateAr1Channel(specs[i].phi, noise[i], specs[i].mu);
      ghost var before := channels;
      channels := channels + [Column(ChannelName(i), x)];
      assert forall k :: 0 <= k < i ==> channels[k] == before[k];
      i := i + 1;
    }
  }

  /**
   * `generate_signals_A1`: as `GenerateSignalsAp`, each channel an AR(1) path of its `phi`
   * (`exp(-1 / (f_0 * lag_s[i]))`), mean and noise draws.
   */
  method GenerateSignalsA1(
    nChannels: nat, f0: real, nSamples: nat, specs: seq<Ar1Spec>, noise: seq<seq<real>>)
    returns (m: SignalMatrix)
    requires nSamples == 0 || f0 != 0.0
    requires nChannels <= |specs| && nChannels <= |noise|
    requires forall i :: 0 <= i < nChannels ==> |noise[i]| == nSamples
    ensures |m.time| == nSamples
    ensures forall t :: 0 <= t < nSamples ==> m.time[t] * f0 == t as real
    ensures |m.channels| == nChannels && Rectangular(m)
    ensures forall i :: 0 <= i < nChannels ==>
      && m.channels[i].name == ChannelName(i)
      && IsAr1Path(specs[i].phi, noise[i], specs[i].mu, m.channels[i].samples)
  {
    var channels := Ar1Channels(nChannels, specs, noise);
    m := SignalMatrix(TimeAxis(nSamples, f0), channels);
  }
}
