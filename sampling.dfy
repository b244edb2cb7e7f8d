/**
 * The pure parts of `thetafit/sampling.py` (`accept`, `out_of_bounds`, the
 * covariance adaptation, the results record) and a step-by-step functional
 * specification of the main loop of `sample`, with the properties it keeps.
 *
 * Randomness and numerics are inputs: the proposal draw is a function of the
 * current point, the proposal covariance (whatever `prop_cov` holds) and the
 * iteration index; the uniform
 * draws are a sequence read from the front; `exp(-0.5 * d)` is an arbitrary
 * map `accProb` from the score difference d; `np.cov` is an arbitrary function
 * `covEntry(rows, j, k)` giving entry (j, k) of the empirical covariance.
 */
module Sampling {
  import opened Wrappers
  import opened Utils

  type Vector = seq<real>

  // ---------------------------------------------------------------------------
  // accept
  // ---------------------------------------------------------------------------

  /** What `accept` decided and how many uniform draws (0 or 1) it consumed. */
  datatype Decision = Decision(accepted: bool, drawsUsed: nat)

  /**
   * `accept(acc_prob)`, given the next uniform of the random stream: saturating
   * at both ends without consuming it, otherwise consuming it and accepting iff
   * acc_prob is strictly above it.
   */
  function Accept(accProb: real, next: real): (d: Decision)
    ensures accProb <= 0.0 ==> !d.accepted && d.drawsUsed == 0
    ensures accProb >= 1.0 ==> d.accepted && d.drawsUsed == 0
    ensures 0.0 < accProb < 1.0 ==> d.drawsUsed == 1 && (d.accepted <==> accProb > next)
  {
    if accProb <= 0.0 then Decision(false, 0)
    else if accProb >= 1.0 then Decision(true, 0)
    else if accProb > next then Decision(true, 1)
    else Decision(false, 1)
  }

  /** acc_prob clamped to [0, 1]: the probability that `accept` says yes. */
  function Clamp(a: real): (c: real)
    ensures 0.0 <= c <= 1.0
  {
    if a <= 0.0 then 0.0 else if a >= 1.0 then 1.0 else a
  }

  /**
   * For a uniform u in [0, 1), `accept(a)` is true exactly when u lies below
   * Clamp(a), an interval of length Clamp(a): so the acceptance probability is
   * min(1, max(0, a)).
   */
  lemma AcceptIsBelowClamp(a: real, u: real)
    requires 0.0 <= u < 1.0
    ensures Accept(a, u).accepted <==> u < Clamp(a)
  {
  }

  /** Raising acc_prob never turns an acceptance into a rejection (same uniform). */
  lemma AcceptMonotone(a: real, b: real, u: real)
    requires a <= b
    ensures Accept(a, u).accepted ==> Accept(b, u).accepted
  {
  }

  // ---------------------------------------------------------------------------
  // out_of_bounds
  // ---------------------------------------------------------------------------

  /** One entry of `bounds`: the pair (minimum, maximum). */
  datatype Interval = Interval(lo: ExtReal, hi: ExtReal)

  /** Strictly outside the closed interval. */
  predicate Outside(x: real, b: Interval) {
    Below(x, b.lo) || Above(x, b.hi)
  }

  /** `out_of_bounds(theta, bounds)`: any over the zip of the two lists (OutOfBoundsIff). */
  function OutOfBounds(theta: Vector, bounds: seq<Interval>): bool
  {
    if |theta| == 0 || |bounds| == 0 then false
    else Outside(theta[0], bounds[0]) || OutOfBounds(theta[1..], bounds[1..])
  }

  /** A vector is out of bounds exactly when some coordinate paired with a bound lies outside it. */
  lemma {:induction false} OutOfBoundsIff(theta: Vector, bounds: seq<Interval>)
    ensures OutOfBounds(theta, bounds) <==> exists k :: 0 <= k < |theta| && k < |bounds| && Outside(theta[k], bounds[k])
  {
    if |theta| > 0 && |bounds| > 0 {
      OutOfBoundsIff(theta[1..], bounds[1..]);
      assert forall k :: 1 <= k < |theta| && k < |bounds| ==>
               theta[k] == theta[1..][k - 1] && bounds[k] == bounds[1..][k - 1];
      if OutOfBounds(theta[1..], bounds[1..]) {
        var k :| 0 <= k < |theta[1..]| && k < |bounds[1..]| && Outside(theta[1..][k], bounds[1..][k]);
        assert Outside(theta[k + 1], bounds[k + 1]);
      }
    }
  }

  /**
   * A vector each of whose coordinates sits exactly on one end of its finite,
   * non-empty interval is in bounds; an empty vector is never out of bounds.
   */
  lemma BoundaryIsInBounds(theta: Vector, bounds: seq<Interval>)
    requires forall k :: 0 <= k < |theta| && k < |bounds| ==>
               bounds[k].lo.Finite? && bounds[k].hi.Finite? && bounds[k].lo.value <= bounds[k].hi.value
               && (theta[k] == bounds[k].lo.value || theta[k] == bounds[k].hi.value)
    ensures !OutOfBounds(theta, bounds)
    ensures !OutOfBounds([], bounds)
  {
    OutOfBoundsIff(theta, bounds);
  }

  /** Moving one coordinate strictly past a finite bound puts the vector out of bounds. */
  lemma PastBoundIsOut(theta: Vector, bounds: seq<Interval>, k: nat, eps: real)
    requires k < |theta| && k < |bounds| && eps > 0.0
    requires bounds[k].lo == Finite(theta[k] + eps) || bounds[k].hi == Finite(theta[k] - eps)
    ensures OutOfBounds(theta, bounds)
  {
    OutOfBoundsIff(theta, bounds);
    assert Outside(theta[k], bounds[k]);
  }

  // ---------------------------------------------------------------------------
  // Covariance adaptation
  // ---------------------------------------------------------------------------

  /** `prop_cov` usable by `np.random.multivariate_normal`: a p x p 2-d array. */
  predicate ValidCov(c: Option<Cov>, p: nat) {
    c.Some? && c.value.Matrix? && |c.value.rows| == p
    && forall j :: 0 <= j < p ==> |c.value.rows[j]| == p
  }

  /** n is a multiple of a, counted down in steps of a. */
  predicate IsMultiple(n: nat, a: nat)
    requires a > 0
    decreases n
  {
    if n < a then n == 0 else IsMultiple(n - a, a)
  }

  /** Adaptation fires when adaptint > 0 and isimu is a multiple of it (`isimu % adaptint == 0`, by AdaptFiresMod). */
  predicate AdaptFires(adaptint: int, isimu: nat) {
    adaptint > 0 && IsMultiple(isimu, adaptint)
  }

  /** The firing test is the remainder test of the loop: adaptint > 0 and isimu % adaptint == 0. */
  lemma AdaptFiresMod(adaptint: int, isimu: nat)
    ensures AdaptFires(adaptint, isimu) <==> adaptint > 0 && isimu % adaptint == 0
  {
    if adaptint > 0 {
      IsMultipleMod(isimu, adaptint);
    }
  }

  lemma {:induction false} IsMultipleMod(n: nat, a: nat)
    requires a > 0
    ensures IsMultiple(n, a) <==> n % a == 0
    decreases n
  {
    if n < a {
      DivModUnique(n, a, 0, n);
    } else {
      IsMultipleMod(n - a, a);
      DivModUnique(n, a, (n - a) / a + 1, (n - a) % a);
    }
  }

  lemma {:induction false} MultipleOfOne(n: nat)
    ensures IsMultiple(n, 1)
    decreases n
  {
    if n >= 1 {
      MultipleOfOne(n - 1);
    }
  }

  /**
   * Adaptation never fires when adaptint <= 0, fires at every iteration when
   * adaptint == 1, fires at no iteration strictly between 0 and adaptint, and
   * fires at iteration adaptint.
   */
  lemma AdaptFiresWhen(adaptint: int, isimu: nat)
    ensures AdaptFires(adaptint, isimu) ==> adaptint > 0
    ensures adaptint == 1 ==> AdaptFires(adaptint, isimu)
    ensures 0 < isimu < adaptint ==> !AdaptFires(adaptint, isimu)
    ensures adaptint > 0 ==> AdaptFires(adaptint, adaptint as nat)
  {
    if adaptint == 1 {
      MultipleOfOne(isimu);
    }
    if adaptint > 0 {
      assert IsMultiple(0, adaptint as nat);
    }
  }

  /** `qcov_scale = 2.4**2 / len(names_opt)`. */
  function QcovScale(p: nat): real
    requires p > 0
  {
    2.4 * 2.4 / (p as real)
  }

  /** Entries covEntry(rows, j, 0..n-1): the first n entries of row j of the empirical covariance. */
  function EntryRow(covEntry: (seq<Vector>, nat, nat) -> real, rows: seq<Vector>, j: nat, n: nat): (r: seq<real>)
    ensures |r| == n
  {
    if n == 0 then [] else EntryRow(covEntry, rows, j, n - 1) + [covEntry(rows, j, n - 1)]
  }

  /** Rows 0..n-1 of the p x p matrix of the entries covEntry(rows, j, k). */
  function EntryRows(covEntry: (seq<Vector>, nat, nat) -> real, rows: seq<Vector>, n: nat, p: nat): (m: seq<seq<real>>)
    ensures |m| == n
  {
    if n == 0 then [] else EntryRows(covEntry, rows, n - 1, p) + [EntryRow(covEntry, rows, n - 1, p)]
  }

  /**
   * `np.cov(rows, rowvar=False)` for rows of p entries: a 0-d scalar when
   * p == 1 or there is a single row, a p x p matrix of the entries
   * covEntry(rows, j, k) otherwise (NpCovShape).
   */
  function NpCov(covEntry: (seq<Vector>, nat, nat) -> real, rows: seq<Vector>, p: nat): Cov
  {
    if p == 1 || |rows| == 1 then Scalar(covEntry(rows, 0, 0))
    else Matrix(EntryRows(covEntry, rows, p, p))
  }

  /**
   * numpy transposes the input of `np.cov(rows, rowvar=False)` only when it has
   * more than one row, so a single row is read as one variable: the result is
   * 0-d, holding covEntry(rows, 0, 0), exactly when p == 1 or there is one row,
   * and otherwise the p x p matrix of the entries covEntry(rows, j, k).
   */
  lemma NpCovShape(covEntry: (seq<Vector>, nat, nat) -> real, rows: seq<Vector>, p: nat)
    ensures NpCov(covEntry, rows, p).Scalar? <==> p == 1 || |rows| == 1
    ensures NpCov(covEntry, rows, p).Scalar? ==> NpCov(covEntry, rows, p).value == covEntry(rows, 0, 0)
    ensures NpCov(covEntry, rows, p).Matrix? ==> ValidCov(Some(NpCov(covEntry, rows, p)), p)
    ensures NpCov(covEntry, rows, p).Matrix? ==>
              forall j, k :: 0 <= j < p && 0 <= k < p ==> NpCov(covEntry, rows, p).rows[j][k] == covEntry(rows, j, k)
  {
    if !(p == 1 || |rows| == 1) {
      forall j | 0 <= j < p
        ensures |EntryRows(covEntry, rows, p, p)[j]| == p
      {
        EntryRowsAt(covEntry, rows, p, p, j, 0);
      }
      forall j, k | 0 <= j < p && 0 <= k < p
        ensures EntryRows(covEntry, rows, p, p)[j][k] == covEntry(rows, j, k)
      {
        EntryRowsAt(covEntry, rows, p, p, j, k);
      }
    }
  }

  /** Every entry of row times s. */
  function ScaleRow(s: real, row: seq<real>): (r: seq<real>)
    ensures |r| == |row|
  {
    if |row| == 0 then [] else ScaleRow(s, row[..|row| - 1]) + [s * row[|row| - 1]]
  }

  /** Every row of m scaled by s. */
  function ScaleRows(s: real, m: seq<seq<real>>): (r: seq<seq<real>>)
    ensures |r| == |m|
  {
    if |m| == 0 then [] else ScaleRows(s, m[..|m| - 1]) + [ScaleRow(s, m[|m| - 1])]
  }

  /** Multiplication of a numpy array by a scalar: every entry times s, the shape kept. */
  function ScaleCov(s: real, c: Cov): Cov
  {
    match c
    case Scalar(v) => Scalar(s * v)
    case Matrix(m) => Matrix(ScaleRows(s, m))
  }

  /** Entry (j, k) of the matrix built by EntryRows is covEntry(rows, j, k). */
  lemma {:induction false} EntryRowsAt(covEntry: (seq<Vector>, nat, nat) -> real, rows: seq<Vector>, n: nat, p: nat, j: nat, k: nat)
    requires j < n && k < p
    ensures |EntryRows(covEntry, rows, n, p)[j]| == p
    ensures EntryRows(covEntry, rows, n, p)[j][k] == covEntry(rows, j, k)
  {
    if j < n - 1 {
      EntryRowsAt(covEntry, rows, n - 1, p, j, k);
    } else {
      EntryRowAt(covEntry, rows, j, p, k);
    }
  }

  lemma {:induction false} EntryRowAt(covEntry: (seq<Vector>, nat, nat) -> real, rows: seq<Vector>, j: nat, n: nat, k: nat)
    requires k < n
    ensures EntryRow(covEntry, rows, j, n)[k] == covEntry(rows, j, k)
  {
    if k < n - 1 {
      EntryRowAt(covEntry, rows, j, n - 1, k);
    }
  }

  /** Entry (j, k) of a scaled matrix is s times entry (j, k), and the row lengths are kept. */
  lemma {:induction false} ScaleRowsAt(s: real, m: seq<seq<real>>, j: nat, k: nat)
    requires j < |m|
    ensures |ScaleRows(s, m)[j]| == |m[j]|
    ensures k < |m[j]| ==> ScaleRows(s, m)[j][k] == s * m[j][k]
  {
    var init := m[..|m| - 1];
    if j < |m| - 1 {
      ScaleRowsAt(s, init, j, k);
      assert init[j] == m[j];
    } else if k < |m[j]| {
      ScaleRowAt(s, m[j], k);
    }
  }

  lemma {:induction false} ScaleRowAt(s: real, row: seq<real>, k: nat)
    requires k < |row|
    ensures ScaleRow(s, row)[k] == s * row[k]
  {
    var init := row[..|row| - 1];
    if k < |row| - 1 {
      ScaleRowAt(s, init, k);
      assert init[k] == row[k];
    }
  }

  /** `x[np.newaxis, np.newaxis]` of a 0-d array: the 1 x 1 matrix holding it. */
  function Newaxis2(c: Cov): (r: Cov)
    requires c.Scalar?
    ensures ValidCov(Some(r), 1) && r.rows[0][0] == c.value
  {
    Matrix([[c.value]])
  }

  /**
   * The adapted proposal covariance computed from `rows` (the chain rows
   * 0..isimu-1): the scaled empirical covariance, reshaped to 1 x 1 when
   * p == 1 (AdaptedCovShape).
   */
  function AdaptedCov(covEntry: (seq<Vector>, nat, nat) -> real, rows: seq<Vector>, p: nat): Cov
    requires p > 0
  {
    var scaled := ScaleCov(QcovScale(p), NpCov(covEntry, rows, p));
    if p == 1 then Newaxis2(scaled) else scaled
  }

  /**
   * The adapted covariance is the p x p matrix of the entries 2.4^2/p times
   * covEntry, so the next draw can use it, except from a single row with
   * p >= 2: that one stays the 0-d scalar 2.4^2/p * covEntry(rows, 0, 0).
   */
  lemma AdaptedCovShape(covEntry: (seq<Vector>, nat, nat) -> real, rows: seq<Vector>, p: nat)
    requires p > 0
    ensures ValidCov(Some(AdaptedCov(covEntry, rows, p)), p) <==> p == 1 || |rows| != 1
    ensures p == 1 || |rows| != 1 ==>
              forall j, k :: 0 <= j < p && 0 <= k < p ==>
                AdaptedCov(covEntry, rows, p).rows[j][k] == QcovScale(p) * covEntry(rows, j, k)
    ensures p == 1 ==> AdaptedCov(covEntry, rows, p) == Matrix([[QcovScale(1) * covEntry(rows, 0, 0)]])
    ensures p >= 2 && |rows| == 1 ==> AdaptedCov(covEntry, rows, p) == Scalar(QcovScale(p) * covEntry(rows, 0, 0))
  {
    NpCovShape(covEntry, rows, p);
    var c := NpCov(covEntry, rows, p);
    if c.Matrix? {
      forall j | 0 <= j < p
        ensures |ScaleRows(QcovScale(p), c.rows)[j]| == p
      {
        ScaleRowsAt(QcovScale(p), c.rows, j, 0);
      }
      forall j, k | 0 <= j < p && 0 <= k < p
        ensures ScaleRows(QcovScale(p), c.rows)[j][k] == QcovScale(p) * c.rows[j][k]
      {
        ScaleRowsAt(QcovScale(p), c.rows, j, k);
      }
    }
    if p == 1 {
      assert ScaleCov(QcovScale(1), NpCov(covEntry, rows, 1)) == Scalar(QcovScale(1) * covEntry(rows, 0, 0));
    }
  }

  // ---------------------------------------------------------------------------
  // The main loop of `sample`, one iteration at a time
  // ---------------------------------------------------------------------------

  /** Everything a run depends on besides its state. */
  datatype Env = Env(
    bounds: seq<Interval>,
    p: nat,
    ssfunVec: Vector -> real,
    draw: (Vector, Option<Cov>, nat) -> Vector,
    uniforms: seq<real>,
    accProb: real -> real,
    covEntry: (seq<Vector>, nat, nat) -> real,
    adaptint: int)

  /** There are free parameters, one bound each, and a draw has the mean's dimension. */
  ghost predicate WellFormed(env: Env) {
    env.p > 0 && |env.bounds| == env.p
    && forall m, c, i :: |env.draw(m, c, i)| == |m|
  }

  /**
   * The loop state: `oldpar`, `oldss`, `rej`, `rejb`, `prop_cov`, the number of
   * uniforms consumed so far, and the rows of `chain`/`sschain` written so far.
   */
  datatype State = State(
    par: Vector,
    ss: real,
    rej: nat,
    rejb: nat,
    propCov: Option<Cov>,
    used: nat,
    chain: seq<Vector>,
    sschain: seq<real>)

  /** The state before the loop: row 0 holds the initial point and its score. */
  function Initial(env: Env, theta0: Vector, qcov: Option<Cov>): (s: State)
    ensures s.chain == [theta0] && s.sschain == [env.ssfunVec(theta0)]
    ensures s.rej == 0 && s.rejb == 0 && s.used == 0 && s.propCov == qcov
  {
    var ss0 := env.ssfunVec(theta0);
    State(theta0, ss0, 0, 0, qcov, 0, [theta0], [ss0])
  }

  /**
   * `np.random.multivariate_normal(oldpar, prop_cov)` at iteration isimu: a
   * point of the mean's dimension. numpy raises unless prop_cov is a p x p
   * matrix; that failure is DrawsOk below, so only those draws reach an outcome.
   */
  function Candidate(env: Env, s: State, isimu: nat): (c: Vector)
    ensures WellFormed(env) ==> |c| == |s.par|
  {
    env.draw(s.par, s.propCov, isimu)
  }

  /** The iteration moves the chain: the candidate is in bounds and accepted. */
  predicate Advances(env: Env, s: State, isimu: nat)
    requires s.used < |env.uniforms|
  {
    var c := Candidate(env, s, isimu);
    !OutOfBounds(c, env.bounds)
    && Accept(env.accProb(env.ssfunVec(c) - s.ss), env.uniforms[s.used]).accepted
  }

  /** The accept/reject part of iteration `isimu` (lines 49-68): it writes row isimu. */
  function Move(env: Env, s: State, isimu: nat): (s': State)
    requires s.used < |env.uniforms|
    ensures s'.chain == s.chain + [s'.par] && s'.sschain == s.sschain + [s'.ss]
    ensures s'.propCov == s.propCov && s.used <= s'.used <= s.used + 1
  {
    var newpar := Candidate(env, s, isimu);
    if OutOfBounds(newpar, env.bounds) then
      s.(rej := s.rej + 1, rejb := s.rejb + 1,
         chain := s.chain + [s.par], sschain := s.sschain + [s.ss])
    else
      var newss := env.ssfunVec(newpar);
      var d := Accept(env.accProb(newss - s.ss), env.uniforms[s.used]);
      if d.accepted then
        s.(par := newpar, ss := newss, used := s.used + d.drawsUsed,
           chain := s.chain + [newpar], sschain := s.sschain + [newss])
      else
        s.(rej := s.rej + 1, used := s.used + d.drawsUsed,
           chain := s.chain + [s.par], sschain := s.sschain + [s.ss])
  }

  /** The three outcomes of the accept/reject part, one equation each. */
  lemma MoveCases(env: Env, s: State, isimu: nat)
    requires s.used < |env.uniforms|
    ensures var c := Candidate(env, s, isimu);
            OutOfBounds(c, env.bounds) ==>
              Move(env, s, isimu) == s.(rej := s.rej + 1, rejb := s.rejb + 1,
                                        chain := s.chain + [s.par], sschain := s.sschain + [s.ss])
    ensures var c := Candidate(env, s, isimu);
            var d := Accept(env.accProb(env.ssfunVec(c) - s.ss), env.uniforms[s.used]);
            !OutOfBounds(c, env.bounds) && d.accepted ==>
              Move(env, s, isimu) == s.(par := c, ss := env.ssfunVec(c), used := s.used + d.drawsUsed,
                                        chain := s.chain + [c], sschain := s.sschain + [env.ssfunVec(c)])
    ensures var c := Candidate(env, s, isimu);
            var d := Accept(env.accProb(env.ssfunVec(c) - s.ss), env.uniforms[s.used]);
            !OutOfBounds(c, env.bounds) && !d.accepted ==>
              Move(env, s, isimu) == s.(rej := s.rej + 1, used := s.used + d.drawsUsed,
                                        chain := s.chain + [s.par], sschain := s.sschain + [s.ss])
  {
  }

  /** The adaptation part of iteration `isimu` (lines 70-76): it touches only prop_cov. */
  function Adapt(env: Env, s: State, isimu: nat): (s': State)
    requires env.p > 0 && |s.chain| >= isimu
    ensures s' == s.(propCov := s'.propCov)
    ensures AdaptFires(env.adaptint, isimu) ==> s'.propCov == Some(AdaptedCov(env.covEntry, s.chain[..isimu], env.p))
    ensures !AdaptFires(env.adaptint, isimu) ==> s'.propCov == s.propCov
  {
    if AdaptFires(env.adaptint, isimu) then
      s.(propCov := Some(AdaptedCov(env.covEntry, s.chain[..isimu], env.p)))
    else s
  }

  /** One whole iteration `isimu` of the loop body (lines 49-76). */
  function Step(env: Env, s: State, isimu: nat): (s': State)
    requires env.p > 0 && |s.chain| == isimu && |s.sschain| == isimu
    requires s.used < |env.uniforms|
    ensures |s'.chain| == isimu + 1 && |s'.sschain| == isimu + 1
    ensures s'.chain[..isimu] == s.chain && s'.sschain[..isimu] == s.sschain
    ensures s.used <= s'.used <= s.used + 1
  {
    var moved := Move(env, s, isimu);
    assert moved.chain[..isimu] == s.chain && moved.sschain[..isimu] == s.sschain;
    Adapt(env, moved, isimu)
  }

  /**
   * The proposal covariance after iteration isimu is a p x p matrix unless
   * that iteration adapted from the single row 0 with p >= 2, in which case it
   * is the 0-d scalar.
   */
  lemma StepCovValid(env: Env, s: State, isimu: nat)
    requires env.p > 0 && |s.chain| == isimu && |s.sschain| == isimu
    requires ValidCov(s.propCov, env.p) && s.used < |env.uniforms|
    ensures ValidCov(Step(env, s, isimu).propCov, env.p) <==> !(isimu == 1 && env.p >= 2 && env.adaptint == 1)
  {
    AdaptFiresWhen(env.adaptint, 1);
    AdaptFiresWhen(env.adaptint, isimu);
    if AdaptFires(env.adaptint, isimu) {
      AdaptedCovShape(env.covEntry, s.chain, env.p);
    }
  }

  /**
   * Iterations 1..n can all draw their candidate without numpy raising: the
   * input qcov is a p x p matrix (when n > 0), and no draw follows the one-row
   * adaptation of iteration 1 that leaves a 0-d covariance when p >= 2 and
   * adaptint == 1.
   */
  predicate DrawsOk(env: Env, qcov: Option<Cov>, n: nat) {
    n == 0 || (ValidCov(qcov, env.p) && (n >= 2 ==> !(env.p >= 2 && env.adaptint == 1)))
  }

  /** The draws of iterations 1..n succeed only if those of 1..m do, for m <= n. */
  lemma DrawsOkPrefix(env: Env, qcov: Option<Cov>, m: nat, n: nat)
    requires m <= n
    ensures DrawsOk(env, qcov, n) ==> DrawsOk(env, qcov, m)
  {
  }

  /** The state after iterations 1..n. */
  function Run(env: Env, s0: State, n: nat): (s: State)
    requires env.p > 0 && |s0.chain| == 1 && |s0.sschain| == 1 && s0.used == 0
    requires n <= |env.uniforms|
    ensures |s.chain| == n + 1 && |s.sschain| == n + 1 && s.used <= n
    decreases n, 1
  {
    if n == 0 then s0 else RunThrough(env, s0, n)
  }

  /**
   * Iterations 1..n for n >= 1: iteration n applied to the state after
   * iterations 1..n-1 (Run's second case, kept apart so that a mention of Run
   * does not bring in the whole of Step; RunUnfold states it over Step).
   */
  function RunThrough(env: Env, s0: State, n: nat): (s: State)
    requires env.p > 0 && |s0.chain| == 1 && |s0.sschain| == 1 && s0.used == 0
    requires 1 <= n <= |env.uniforms|
    ensures |s.chain| == n + 1 && |s.sschain| == n + 1 && s.used <= n
    decreases n, 0
  {
    Step(env, Run(env, s0, n - 1), n)
  }

  /** Iteration n of Run is Step applied to the state after n - 1 iterations. */
  lemma RunUnfold(env: Env, s0: State, n: nat)
    requires env.p > 0 && |s0.chain| == 1 && |s0.sschain| == 1 && s0.used == 0
    requires 1 <= n <= |env.uniforms|
    ensures Run(env, s0, n) == Step(env, Run(env, s0, n - 1), n)
  {
    assert Run(env, s0, n) == RunThrough(env, s0, n);
  }

  /** Iteration n of Run is the accept/reject half followed by the adaptation half. */
  lemma RunNext(env: Env, s0: State, n: nat, moved: State)
    requires env.p > 0 && |s0.chain| == 1 && |s0.sschain| == 1 && s0.used == 0
    requires 1 <= n <= |env.uniforms|
    requires moved == Move(env, Run(env, s0, n - 1), n)
    ensures |moved.chain| >= n && Run(env, s0, n) == Adapt(env, moved, n)
  {
  }

  /**
   * After iteration n the proposal covariance is a p x p matrix exactly when a
   * further draw would be possible: always, except after the one-row
   * adaptation of iteration 1 with p >= 2 and adaptint == 1.
   */
  lemma {:induction false} RunCovValid(env: Env, s0: State, n: nat)
    requires env.p > 0 && |s0.chain| == 1 && |s0.sschain| == 1 && s0.used == 0
    requires n <= |env.uniforms| && DrawsOk(env, s0.propCov, n)
    ensures ValidCov(Run(env, s0, n).propCov, env.p) <==> DrawsOk(env, s0.propCov, n + 1)
  {
    if n > 0 {
      RunCovValid(env, s0, n - 1);
      StepCovValid(env, Run(env, s0, n - 1), n);
    }
  }

  /** The preconditions of Run, for lemmas. */
  ghost predicate RunPre(env: Env, s0: State, n: nat) {
    env.p > 0 && |s0.chain| == 1 && |s0.sschain| == 1 && s0.used == 0
    && n <= |env.uniforms|
  }

  /** What holds after every iteration i (row i just written). */
  ghost predicate Inv(env: Env, s: State, i: nat) {
    |s.chain| == i + 1 && |s.sschain| == i + 1
    && (forall j :: 0 <= j <= i ==> |s.chain[j]| == env.p)
    && (forall j :: 0 <= j <= i ==> s.sschain[j] == env.ssfunVec(s.chain[j]))
    && (forall j :: 0 <= j <= i ==> !OutOfBounds(s.chain[j], env.bounds))
    && s.par == s.chain[i] && s.ss == s.sschain[i]
    && s.rejb <= s.rej <= i && s.used <= i
  }

  lemma InitialInv(env: Env, theta0: Vector, qcov: Option<Cov>)
    requires |theta0| == env.p && !OutOfBounds(theta0, env.bounds)
    ensures Inv(env, Initial(env, theta0, qcov), 0)
  {
  }

  /** One iteration keeps the invariant. */
  lemma StepInv(env: Env, s: State, isimu: nat)
    requires WellFormed(env) && isimu >= 1 && Inv(env, s, isimu - 1)
    requires s.used < |env.uniforms|
    ensures Inv(env, Step(env, s, isimu), isimu)
  {
    var s' := Step(env, s, isimu);
    var c := Candidate(env, s, isimu);
    assert |c| == |s.par|;
    assert forall j :: 0 <= j < isimu ==> s'.chain[j] == s.chain[j] && s'.sschain[j] == s.sschain[j];
  }

  /**
   * After iteration n: every row has p entries, is in bounds and carries its own
   * score in sschain; the current point is the last row; rejb <= rej <= n.
   */
  lemma {:induction false} RunInv(env: Env, s0: State, n: nat)
    requires WellFormed(env) && RunPre(env, s0, n) && Inv(env, s0, 0)
    ensures Inv(env, Run(env, s0, n), n)
  {
    if n > 0 {
      RunInv(env, s0, n - 1);
      StepInv(env, Run(env, s0, n - 1), n);
    }
  }

  /** From an in-bounds initial point of p entries, every row of the chain after iterations 1..n has p entries. */
  lemma RunRowSizes(env: Env, theta0: Vector, qcov: Option<Cov>, n: nat)
    requires WellFormed(env) && |theta0| == env.p && !OutOfBounds(theta0, env.bounds)
    requires n <= |env.uniforms|
    ensures forall i :: 0 <= i < |Run(env, Initial(env, theta0, qcov), n).chain| ==>
              |Run(env, Initial(env, theta0, qcov), n).chain[i]| == env.p
  {
    InitialInv(env, theta0, qcov);
    RunInv(env, Initial(env, theta0, qcov), n);
  }

  /** The rejection counters after iteration n: out-of-bounds rejections <= rejections <= n. */
  lemma {:induction false} RunCounters(env: Env, s0: State, n: nat)
    requires RunPre(env, s0, n) && s0.rej == 0 && s0.rejb == 0
    ensures Run(env, s0, n).rejb <= Run(env, s0, n).rej <= n
  {
    if n > 0 {
      RunCounters(env, s0, n - 1);
      MoveCases(env, Run(env, s0, n - 1), n);
    }
  }

  /** Iteration n appends one row and one score and keeps everything before them. */
  lemma RunAppends(env: Env, s0: State, n: nat)
    requires RunPre(env, s0, n) && n >= 1
    ensures Run(env, s0, n).chain[..n] == Run(env, s0, n - 1).chain
    ensures Run(env, s0, n).sschain[..n] == Run(env, s0, n - 1).sschain
  {
  }

  /** The chain is append-only: the first j+1 rows after iteration n are those after iteration j. */
  lemma {:induction false} RunPrefix(env: Env, s0: State, j: nat, n: nat)
    requires RunPre(env, s0, n) && j <= n
    ensures Run(env, s0, n).chain[..j + 1] == Run(env, s0, j).chain
    ensures Run(env, s0, n).sschain[..j + 1] == Run(env, s0, j).sschain
  {
    var cur := Run(env, s0, n);
    if j == n {
      assert Run(env, s0, j) == cur;
      TakeAll(cur.chain);
      TakeAll(cur.sschain);
    } else {
      RunPrefix(env, s0, j, n - 1);
      RunAppends(env, s0, n);
      var prev := Run(env, s0, n - 1);
      TakeOfTake(cur.chain, prev.chain, n, j + 1);
      TakeOfTake(cur.sschain, prev.sschain, n, j + 1);
    }
  }

  lemma TakeAll<T>(a: seq<T>)
    ensures a[..|a|] == a
  {
  }

  lemma TakeOfTake<T>(a: seq<T>, b: seq<T>, n: nat, m: nat)
    requires m <= n <= |a| && a[..n] == b
    ensures a[..m] == b[..m]
  {
    assert a[..m] == a[..n][..m];
  }

  /**
   * Row isimu is the accepted candidate with its score exactly when the
   * iteration advances, and otherwise a copy of row isimu-1 and its score.
   */
  lemma StepRow(env: Env, s: State, isimu: nat)
    requires env.p > 0 && isimu >= 1 && |s.chain| == isimu && |s.sschain| == isimu
    requires s.par == s.chain[isimu - 1] && s.ss == s.sschain[isimu - 1]
    requires s.used < |env.uniforms|
    ensures Advances(env, s, isimu) ==>
              Step(env, s, isimu).chain[isimu] == Candidate(env, s, isimu)
              && Step(env, s, isimu).sschain[isimu] == env.ssfunVec(Candidate(env, s, isimu))
              && Step(env, s, isimu).par == Candidate(env, s, isimu)
    ensures !Advances(env, s, isimu) ==>
              Step(env, s, isimu).chain[isimu] == s.chain[isimu - 1]
              && Step(env, s, isimu).sschain[isimu] == s.sschain[isimu - 1]
              && Step(env, s, isimu).par == s.par && Step(env, s, isimu).ss == s.ss
  {
  }

  /**
   * The counters of one iteration: an out-of-bounds candidate adds one to both,
   * an in-bounds rejection adds one to rej only, an acceptance to neither.
   */
  lemma StepCounters(env: Env, s: State, isimu: nat)
    requires env.p > 0 && isimu >= 1 && |s.chain| == isimu && |s.sschain| == isimu
    requires s.used < |env.uniforms|
    ensures Step(env, s, isimu).rejb == s.rejb + (if OutOfBounds(Candidate(env, s, isimu), env.bounds) then 1 else 0)
    ensures Step(env, s, isimu).rej == s.rej + (if Advances(env, s, isimu) then 0 else 1)
  {
  }

  /**
   * An out-of-bounds candidate never reaches the objective: with any other
   * objective the iteration produces the same state.
   */
  lemma OutOfBoundsSkipsObjective(env: Env, s: State, isimu: nat, other: Vector -> real)
    requires env.p > 0 && isimu >= 1 && |s.chain| == isimu && |s.sschain| == isimu
    requires s.used < |env.uniforms|
    requires OutOfBounds(Candidate(env, s, isimu), env.bounds)
    ensures Step(env, s, isimu) == Step(env.(ssfunVec := other), s, isimu)
  {
  }

  /**
   * The uniform stream is read only when 0 < acc_prob < 1: an iteration consumes
   * one draw exactly when its candidate is in bounds and its ratio is strictly
   * inside (0, 1).
   */
  lemma StepUniforms(env: Env, s: State, isimu: nat)
    requires env.p > 0 && isimu >= 1 && |s.chain| == isimu && |s.sschain| == isimu
    requires s.used < |env.uniforms|
    ensures var c := Candidate(env, s, isimu);
            Step(env, s, isimu).used == s.used +
              (if !OutOfBounds(c, env.bounds) && 0.0 < env.accProb(env.ssfunVec(c) - s.ss) < 1.0 then 1 else 0)
  {
  }

  /** Row j of Run after n >= j iterations is the row written by iteration j. */
  lemma RunRow(env: Env, s0: State, j: nat, n: nat)
    requires RunPre(env, s0, n) && j <= n
    ensures Run(env, s0, n).chain[j] == Run(env, s0, j).chain[j]
    ensures Run(env, s0, n).sschain[j] == Run(env, s0, j).sschain[j]
  {
    RunPrefix(env, s0, j, n);
    assert Run(env, s0, n).chain[j] == Run(env, s0, n).chain[..j + 1][j];
    assert Run(env, s0, n).sschain[j] == Run(env, s0, n).sschain[..j + 1][j];
  }

  /** StepRow for iteration i of Run. */
  lemma RunStepRow(env: Env, s0: State, i: nat)
    requires RunPre(env, s0, i) && 1 <= i && s0.par == s0.chain[0] && s0.ss == s0.sschain[0]
    ensures var before := Run(env, s0, i - 1);
            var at := Run(env, s0, i);
            if Advances(env, before, i) then at.chain[i] == Candidate(env, before, i)
            else at.chain[i] == before.chain[i - 1] && at.sschain[i] == before.sschain[i - 1]
  {
    RunLast(env, s0, i - 1);
    StepRow(env, Run(env, s0, i - 1), i);
    RunUnfold(env, s0, i);
  }

  /** The current point and score of Run are its last chain and sschain rows. */
  lemma RunLast(env: Env, s0: State, n: nat)
    requires RunPre(env, s0, n) && s0.par == s0.chain[0] && s0.ss == s0.sschain[0]
    ensures Run(env, s0, n).par == Run(env, s0, n).chain[n] && Run(env, s0, n).ss == Run(env, s0, n).sschain[n]
  {
    if n > 0 {
      RunUnfold(env, s0, n);
    }
  }

  /**
   * Each row i >= 1 after iteration n either repeats row i-1 (with its score)
   * or is the in-bounds, accepted candidate drawn at iteration i.
   */
  lemma RowsStickOrAdvance(env: Env, s0: State, n: nat, i: nat)
    requires RunPre(env, s0, n) && s0.par == s0.chain[0] && s0.ss == s0.sschain[0] && 1 <= i <= n
    ensures var s := Run(env, s0, n);
            var before := Run(env, s0, i - 1);
            (s.chain[i] == s.chain[i - 1] && s.sschain[i] == s.sschain[i - 1])
            || (Advances(env, before, i) && s.chain[i] == Candidate(env, before, i))
    ensures Run(env, s0, i - 1).par == Run(env, s0, n).chain[i - 1]
  {
    var s, before, at := Run(env, s0, n), Run(env, s0, i - 1), Run(env, s0, i);
    RunLast(env, s0, i - 1);
    RunStepRow(env, s0, i);
    RunRow(env, s0, i, n);
    RunRow(env, s0, i - 1, n);
    if Advances(env, before, i) {
      assert s.chain[i] == Candidate(env, before, i);
    } else {
      assert s.chain[i] == s.chain[i - 1] && s.sschain[i] == s.sschain[i - 1];
    }
  }


  /** Row i >= 1 repeats row i-1 with its score, or is a proposal drawn around row i-1 at iteration i. */
  lemma RowKeptOrDrawn(env: Env, s0: State, n: nat, i: nat)
    requires WellFormed(env) && RunPre(env, s0, n) && Inv(env, s0, 0) && 1 <= i <= n
    ensures var s := Run(env, s0, n);
            (s.chain[i] == s.chain[i - 1] && s.sschain[i] == s.sschain[i - 1])
            || exists c {:trigger env.draw(s.chain[i - 1], c, i)} :: s.chain[i] == env.draw(s.chain[i - 1], c, i)
  {
    RowsStickOrAdvance(env, s0, n, i);
    var before := Run(env, s0, i - 1);
    var s := Run(env, s0, n);
    if !(s.chain[i] == s.chain[i - 1] && s.sschain[i] == s.sschain[i - 1]) {
      assert s.chain[i] == env.draw(s.chain[i - 1], before.propCov, i);
    }
  }

  /** With adaptation switched off, or before its first firing, the proposal covariance is the input one. */
  lemma {:induction false} RunCovUnadapted(env: Env, s0: State, n: nat)
    requires RunPre(env, s0, n)
    requires env.adaptint <= 0 || n < env.adaptint
    ensures Run(env, s0, n).propCov == s0.propCov
  {
    if n > 0 {
      RunCovUnadapted(env, s0, n - 1);
      RunUnfold(env, s0, n);
      AdaptFiresWhen(env.adaptint, n);
    }
  }

  /** RunCovAdapted with the covariance estimator and the dimension named by the caller. */
  lemma RunCovAdaptedBy(env: Env, s0: State, n: nat, covEntry: (seq<Vector>, nat, nat) -> real, p: nat, a: int)
    requires RunPre(env, s0, n) && env.covEntry == covEntry && env.p == p && env.adaptint == a
    requires a > 0 && n >= a
    ensures 1 <= LastAdaptation(n, a) <= n
    ensures Run(env, s0, n).propCov == Some(AdaptedCov(covEntry, Run(env, s0, n).chain[..LastAdaptation(n, a)], p))
  {
    RunCovAdapted(env, s0, n);
  }

  lemma DivModUnique(x: nat, a: nat, q: int, r: int)
    requires a > 0 && 0 <= r < a && x == q * a + r
    ensures x % a == r
  {
    var q', r' := x / a, x % a;
    assert (q - q') * a == r' - r;
    if q - q' >= 1 {
      MulAtLeast(q - q', a);
    } else if q' - q >= 1 {
      MulAtLeast(q' - q, a);
    }
  }

  lemma MulAtLeast(d: int, a: nat)
    requires d >= 1
    ensures d * a >= a
  {
  }

  /** The last iteration <= n at which the adaptation fires, or 0 when there is none: n rounded down to a multiple of adaptint. */
  function LastAdaptation(n: nat, adaptint: int): nat
    requires adaptint > 0
    decreases n
  {
    if n == 0 || AdaptFires(adaptint, n) then n else LastAdaptation(n - 1, adaptint)
  }

  /**
   * LastAdaptation(n, a) is `n - n % a`: at most n, a firing iteration (or 0),
   * and no iteration after it up to n fires.
   */
  lemma {:induction false} LastAdaptationIs(n: nat, a: int)
    requires a > 0
    ensures LastAdaptation(n, a) <= n
    ensures LastAdaptation(n, a) == 0 || AdaptFires(a, LastAdaptation(n, a))
    ensures forall j :: LastAdaptation(n, a) < j <= n ==> !AdaptFires(a, j)
    ensures LastAdaptation(n, a) == n - n % a
    decreases n
  {
    AdaptFiresMod(a, n);
    if n > 0 && !AdaptFires(a, n) {
      LastAdaptationIs(n - 1, a);
      var q, r := n / a, n % a;
      assert n - 1 == q * a + (r - 1);
      DivModUnique(n - 1, a, q, r - 1);
    }
  }

  /**
   * Once adaptation has fired, the proposal covariance is the adapted covariance
   * of the chain rows 0..k-1, where k is the last iteration at which it fired.
   */
  lemma {:induction false} RunCovAdapted(env: Env, s0: State, n: nat)
    requires RunPre(env, s0, n)
    requires env.adaptint > 0 && n >= env.adaptint
    ensures 1 <= LastAdaptation(n, env.adaptint) <= n
    ensures Run(env, s0, n).propCov == Some(AdaptedCov(env.covEntry, Run(env, s0, n).chain[..LastAdaptation(n, env.adaptint)], env.p))
  {
    var a := env.adaptint;
    var s := Run(env, s0, n);
    var prev := Run(env, s0, n - 1);
    var moved := Move(env, prev, n);
    var k := LastAdaptation(n, a);
    RunUnfold(env, s0, n);
    assert s == Adapt(env, moved, n);
    if AdaptFires(a, n) {
      assert k == n;
      assert s.propCov == Some(AdaptedCov(env.covEntry, moved.chain[..n], env.p));
      assert s.chain[..k] == moved.chain[..n];
    } else {
      AdaptFiresWhen(a, n);
      assert n - 1 >= a;
      RunCovAdapted(env, s0, n - 1);
      assert LastAdaptation(n - 1, a) == k;
      assert prev.propCov == Some(AdaptedCov(env.covEntry, prev.chain[..k], env.p));
      assert s.propCov == prev.propCov;
      assert s.chain[..k] == prev.chain[..k] by {
        assert s.chain[..n] == prev.chain;
      }
    }
    assert s.propCov == Some(AdaptedCov(env.covEntry, s.chain[..k], env.p));
  }

  // ---------------------------------------------------------------------------
  // Results record and chain table
  // ---------------------------------------------------------------------------

  /**
   * The `results` dict. The three percentages are computed from the counters
   * it is built from, as the record's functions below.
   */
  datatype Results = Results(
    n: int,
    rej: int,
    rejb: int,
    qcov: Option<Cov>,
    last: Vector)
  {
    /** `accepted`: the percentage of the n rows that were not rejections. */
    function Accepted(): real
      requires n > 0
    {
      ((n - rej) as real) / (n as real) * 100.0
    }

    /** `rejected`: rej as a percentage of n. */
    function Rejected(): real
      requires n > 0
    {
      (rej as real) / (n as real) * 100.0
    }

    /** `out_of_bounds`: rejb as a percentage of n. */
    function OutOfBoundsPct(): real
      requires n > 0
    {
      (rejb as real) / (n as real) * 100.0
    }
  }

  /** The counters, the final covariance and the last row, once the loop is done. */
  function MakeResults(nsimu: int, s: State): (r: Results)
    requires nsimu >= 1 && |s.chain| == nsimu
    ensures r.n == nsimu && r.qcov == s.propCov && r.last == s.chain[nsimu - 1]
    ensures r.rej == s.rej && r.rejb == s.rejb
  {
    Results(nsimu, s.rej, s.rejb, s.propCov, s.chain[nsimu - 1])
  }

  /**
   * The percentages add up: accepted + rejected == 100; and when
   * 0 <= rejb <= rej < n, 0 <= out_of_bounds <= rejected < 100.
   */
  lemma ResultsPercentages(r: Results)
    requires r.n > 0
    ensures r.Accepted() + r.Rejected() == 100.0
    ensures 0 <= r.rejb <= r.rej < r.n ==> 0.0 <= r.OutOfBoundsPct() <= r.Rejected() < 100.0
  {
    var n := r.n as real;
    var acc, rej, rejb := (r.n - r.rej) as real, r.rej as real, r.rejb as real;
    PercentOf(acc, n);
    PercentOf(rej, n);
    PercentOf(rejb, n);
    var q := 100.0 / n;
    PercentOf(n, n);
    assert n * q == 100.0 && q > 0.0;
    PercentagesAddUp(acc, rej, n, q);
    assert r.Accepted() == acc * q && r.Rejected() == rej * q;
    if 0 <= r.rejb <= r.rej < r.n {
      PercentagesOrdered(rejb, rej, n, q);
      assert r.OutOfBoundsPct() == rejb * q && r.Rejected() == rej * q;
    }
  }

  /** acc*q + rej*q == 100 when acc + rej == n and n*q == 100. */
  lemma PercentagesAddUp(acc: real, rej: real, n: real, q: real)
    requires acc + rej == n && n * q == 100.0
    ensures acc * q + rej * q == 100.0
  {
    assert acc * q + rej * q == (acc + rej) * q;
  }

  /** 0 <= rejb <= rej < n scales by q > 0, where n*q == 100, to 0 <= rejb*q <= rej*q < 100. */
  lemma PercentagesOrdered(rejb: real, rej: real, n: real, q: real)
    requires 0.0 <= rejb <= rej < n && q > 0.0 && n * q == 100.0
    ensures 0.0 <= rejb * q <= rej * q < 100.0
  {
    ScaleMonotone(0.0, rejb, q);
    ScaleMonotone(rejb, rej, q);
    ScaleStrict(rej, n, q);
    BelowEqual(rej * q, n * q, 100.0);
  }

  lemma PercentOf(x: real, n: real)
    requires n > 0.0
    ensures x / n * 100.0 == x * (100.0 / n) && n * (100.0 / n) == 100.0
  {
  }

  lemma ScaleMonotone(a: real, b: real, q: real)
    requires a <= b && q > 0.0
    ensures a * q <= b * q
  {
  }

  lemma ScaleStrict(a: real, b: real, q: real)
    requires a < b && q > 0.0
    ensures a * q < b * q
  {
  }

  /** x < y == c gives x < c, over plain reals (kept apart from the products it is applied to). */
  lemma BelowEqual(x: real, y: real, c: real)
    requires x < y && y == c
    ensures x < c
  {
  }


  /** A column of the returned table: a sampled parameter's values, or a fixed parameter's constant. */
  datatype Column = Samples(values: seq<real>) | Constant(value: real)

  /** Entry j of every row of the chain: one column of `chain.T`. */
  function ColumnValues(chain: seq<Vector>, j: nat): (c: seq<real>)
    requires forall i :: 0 <= i < |chain| ==> j < |chain[i]|
    ensures |c| == |chain|
  {
    if |chain| == 0 then [] else ColumnValues(chain[..|chain| - 1], j) + [chain[|chain| - 1][j]]
  }

  /** The first p columns of the chain (`chain.T` when every row has p entries). */
  function Columns(chain: seq<Vector>, p: nat): (cols: seq<Column>)
    requires forall i :: 0 <= i < |chain| ==> p <= |chain[i]|
    ensures |cols| == p
  {
    if p == 0 then [] else Columns(chain, p - 1) + [Samples(ColumnValues(chain, p - 1))]
  }

  lemma {:induction false} ColumnValuesAt(chain: seq<Vector>, j: nat, i: nat)
    requires forall i :: 0 <= i < |chain| ==> j < |chain[i]|
    requires i < |chain|
    ensures ColumnValues(chain, j)[i] == chain[i][j]
  {
    if i < |chain| - 1 {
      ColumnValuesAt(chain[..|chain| - 1], j, i);
    }
  }

  lemma {:induction false} ColumnsAt(chain: seq<Vector>, p: nat, j: nat)
    requires forall i :: 0 <= i < |chain| ==> p <= |chain[i]|
    requires j < p
    ensures Columns(chain, p)[j] == Samples(ColumnValues(chain, j))
  {
    if j < p - 1 {
      ColumnsAt(chain, p - 1, j);
    }
  }

  /** Column j of `chain.T` holds entry j of every row, in row order. */
  lemma ColumnsShape(chain: seq<Vector>, p: nat)
    requires forall i :: 0 <= i < |chain| ==> |chain[i]| == p
    ensures |Columns(chain, p)| == p
    ensures forall j :: 0 <= j < p ==> Columns(chain, p)[j].Samples? && |Columns(chain, p)[j].values| == |chain|
    ensures forall j, i {:trigger Columns(chain, p)[j].values[i]} :: 0 <= j < p && 0 <= i < |chain| ==>
              Columns(chain, p)[j].values[i] == chain[i][j]
  {
    forall j | 0 <= j < p
      ensures Columns(chain, p)[j].Samples? && |Columns(chain, p)[j].values| == |chain|
    {
      ColumnsAt(chain, p, j);
    }
    forall j, i | 0 <= j < p && 0 <= i < |chain|
      ensures Columns(chain, p)[j].values[i] == chain[i][j]
    {
      ColumnsAt(chain, p, j);
      ColumnValuesAt(chain, j, i);
    }
  }

  /**
   * The table `{**dict(zip(names_opt, chain.T)), **th_no_opt}`: each free name's
   * column is its chain column, each fixed name a constant column of its value.
   */
  function ChainTable(namesOpt: seq<string>, chain: seq<Vector>, p: nat, thNoOpt: map<string, real>): (t: map<string, Column>)
    requires |namesOpt| == p
    requires forall i :: 0 <= i < |chain| ==> |chain[i]| == p
    ensures t.Keys == (set j | 0 <= j < p :: namesOpt[j]) + thNoOpt.Keys
    ensures forall k :: k in thNoOpt ==> t[k] == Constant(thNoOpt[k])
    ensures forall j {:trigger t[namesOpt[j]]} :: 0 <= j < p && namesOpt[j] !in namesOpt[j + 1..] && namesOpt[j] !in thNoOpt ==>
              t[namesOpt[j]].Samples? && |t[namesOpt[j]].values| == |chain|
    ensures forall j, i {:trigger t[namesOpt[j]].values[i]} ::
              0 <= j < p && namesOpt[j] !in namesOpt[j + 1..] && namesOpt[j] !in thNoOpt && 0 <= i < |chain| ==>
              t[namesOpt[j]].values[i] == chain[i][j]
  {
    var cols := Columns(chain, p);
    ColumnsShape(chain, p);
    ZipDictBindings(namesOpt, cols);
    ZipDict(namesOpt, cols) + map k | k in thNoOpt :: Constant(thNoOpt[k])
  }
}
