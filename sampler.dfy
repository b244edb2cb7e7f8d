/**
 * `sample` of `thetafit/sampling.py`: the imperative loop that preallocates
 * `chain`/`sschain` and fills them row by row, proved equal to the functional
 * specification SampleSpec, and the properties of that specification.
 */
module Sampler {
  import opened Wrappers
  import opened Utils
  import opened Sampling

  /** The ways `sample` fails. */
  datatype SampleError =
    | VectorizeFailed(cause: Utils.Error)  // no target parameters
    | InitialOutOfBounds                   // the assert on the initial point
    | EmptyChain                           // nsimu < 1: chain row 0 cannot be written
    | BadProposalCovariance                // a draw meets a prop_cov that is not p x p: multivariate_normal raises

  /**
   * What `sample` returns: the results record, the chain table and `sschain`.
   * The `chain` array itself is not returned by the source (it reaches the
   * caller as the table's columns); it is kept here to state properties of the rows.
   */
  datatype Outcome = Outcome(results: Results, table: map<string, Column>, chain: seq<Vector>, sschain: seq<real>)

  function BoundsOf(par: Parameter): Interval { Interval(par.minimum, par.maximum) }

  /** `bounds`: (minimum, maximum) of each free parameter, in input order. */
  function Bounds(params: seq<Parameter>): (b: seq<Interval>)
    ensures |b| == |Positions(params, true)|
    ensures forall j :: 0 <= j < |b| ==>
              b[j] == Interval(params[Positions(params, true)[j]].minimum, params[Positions(params, true)[j]].maximum)
  {
    SelectAtPositions(params, true, BoundsOf);
    Select(params, true, BoundsOf)
  }

  /** The initial point (`oldpar` before the loop): init of each free parameter, in input order. */
  function FreeInits(params: seq<Parameter>): (theta: Vector)
    ensures |theta| == |Positions(params, true)|
    ensures forall j :: 0 <= j < |theta| ==> theta[j] == params[Positions(params, true)[j]].init
  {
    SelectAtPositions(params, true, Init);
    Select(params, true, Init)
  }

  lemma FreeSizes(params: seq<Parameter>)
    ensures |Bounds(params)| == |NamesOpt(params)| == |FreeInits(params)|
  {
    SelectAtPositions(params, true, BoundsOf);
    SelectAtPositions(params, true, Name);
    SelectAtPositions(params, true, Init);
  }

  function MakeEnv(v: Vectorized, bounds: seq<Interval>, options: McmcOptions,
                   draw: (Vector, Option<Cov>, nat) -> Vector, uniforms: seq<real>,
                   accProb: real -> real, covEntry: (seq<Vector>, nat, nat) -> real): Env
  {
    Env(bounds, |v.namesOpt|, v.ssfunVec, draw, uniforms, accProb, covEntry, options.adaptint)
  }

  /** Results record and table, once the loop is done. */
  function Finish(v: Vectorized, nsimu: int, s: State): Outcome
    requires nsimu >= 1 && |s.chain| == nsimu
    requires forall i :: 0 <= i < |s.chain| ==> |s.chain[i]| == |v.namesOpt|
  {
    Outcome(MakeResults(nsimu, s), ChainTable(v.namesOpt, s.chain, |v.namesOpt|, v.thNoOpt), s.chain, s.sschain)
  }

  /** `sample(ssfun, data, params, options)` with the random draws and numerics as inputs. */
  function SampleSpec<D>(ssfun: (map<string, real>, D) -> real, data: D, params: seq<Parameter>, options: McmcOptions,
                         draw: (Vector, Option<Cov>, nat) -> Vector, uniforms: seq<real>,
                         accProb: real -> real, covEntry: (seq<Vector>, nat, nat) -> real): Result<Outcome, SampleError>
    requires forall m, c, i :: |draw(m, c, i)| == |m|
    requires |uniforms| >= options.nsimu - 1
  {
    match Vectorize(ssfun, data, params)
    case Failure(e) => Failure(VectorizeFailed(e))
    case Success(v) =>
      FreeSizes(params);
      SampleWith(v, Bounds(params), FreeInits(params), options, draw, uniforms, accProb, covEntry)
  }

  /**
   * `sample` after vectorizing: the bounds and initial point of the free
   * parameters, the checks before the loop, the loop and the results.
   */
  function SampleWith(v: Vectorized, bounds: seq<Interval>, theta0: Vector, options: McmcOptions,
                      draw: (Vector, Option<Cov>, nat) -> Vector, uniforms: seq<real>,
                      accProb: real -> real, covEntry: (seq<Vector>, nat, nat) -> real): Result<Outcome, SampleError>
    requires forall m, c, i :: |draw(m, c, i)| == |m|
    requires |uniforms| >= options.nsimu - 1
    requires |bounds| == |v.namesOpt| == |theta0| > 0
  {
    var env := MakeEnv(v, bounds, options, draw, uniforms, accProb, covEntry);
    if OutOfBounds(theta0, bounds) then Failure(InitialOutOfBounds)
    else if options.nsimu < 1 then Failure(EmptyChain)
    else if !DrawsOk(env, options.qcov, options.nsimu - 1) then Failure(BadProposalCovariance)
    else
      var s0 := Initial(env, theta0, options.qcov);
      RunRowSizes(env, theta0, options.qcov, options.nsimu - 1);
      Success(Finish(v, options.nsimu, Run(env, s0, options.nsimu - 1)))
  }

  /**
   * Lines 49-68 of `sample`, the accept/reject half of iteration isimu: draw a
   * candidate, then write row isimu of `chain`/`sschain`.
   */
  method WriteRow(env: Env, isimu: nat, chain: array<Vector>, sschain: array<real>,
                  oldpar: Vector, oldss: real, rej: nat, rejb: nat, used: nat, propCov: Option<Cov>)
    returns (par: Vector, ss: real, rej': nat, rejb': nat, used': nat)
    requires isimu < chain.Length && isimu < sschain.Length
    requires used < |env.uniforms|
    modifies chain, sschain
    ensures chain[..] == old(chain[..])[isimu := chain[isimu]] && sschain[..] == old(sschain[..])[isimu := sschain[isimu]]
    ensures Move(env, State(oldpar, oldss, rej, rejb, propCov, used, old(chain[..isimu]), old(sschain[..isimu])), isimu)
            == State(par, ss, rej', rejb', propCov, used', chain[..isimu + 1], sschain[..isimu + 1])
  {
    ghost var st := State(oldpar, oldss, rej, rejb, propCov, used, chain[..isimu], sschain[..isimu]);
    MoveCases(env, st, isimu);
    par, ss, rej', rejb', used' := oldpar, oldss, rej, rejb, used;
    var newpar := env.draw(oldpar, propCov, isimu);
    if OutOfBounds(newpar, env.bounds) {
      rej' := rej' + 1;
      rejb' := rejb' + 1;
      chain[isimu] := par;
      sschain[isimu] := ss;
    } else {
      var newss := env.ssfunVec(newpar);
      var d := Accept(env.accProb(newss - oldss), env.uniforms[used]);
      used' := used' + d.drawsUsed;
      if d.accepted {
        chain[isimu] := newpar;
        sschain[isimu] := newss;
        par := newpar;
        ss := newss;
      } else {
        rej' := rej' + 1;
        chain[isimu] := par;
        sschain[isimu] := ss;
      }
    }
    assert chain[..isimu + 1] == st.chain + [par];
    assert sschain[..isimu + 1] == st.sschain + [ss];
  }

  /**
   * One pass of the loop body of `sample` at iteration isimu: numpy raises in
   * `multivariate_normal` unless prop_cov is a p x p matrix (ok == false, nothing
   * written); otherwise write row isimu (accept/reject), then adapt the proposal
   * covariance when isimu is a multiple of adaptint.
   */
  method Iteration(env: Env, ghost s0: State, isimu: nat, chain: array<Vector>, sschain: array<real>,
                   oldpar: Vector, oldss: real, rej: nat, rejb: nat, used: nat, propCov: Option<Cov>)
    returns (ok: bool, par: Vector, ss: real, rej': nat, rejb': nat, used': nat, propCov': Option<Cov>)
    requires env.p > 0 && |s0.chain| == 1 && |s0.sschain| == 1 && s0.used == 0
    requires 1 <= isimu <= |env.uniforms| && DrawsOk(env, s0.propCov, isimu - 1)
    requires isimu < chain.Length && isimu < sschain.Length
    requires Run(env, s0, isimu - 1) == State(oldpar, oldss, rej, rejb, propCov, used, chain[..isimu], sschain[..isimu])
    modifies chain, sschain
    ensures ok <==> ValidCov(propCov, env.p)
    ensures ok <==> DrawsOk(env, s0.propCov, isimu)
    ensures chain[..] == old(chain[..])[isimu := chain[isimu]] && sschain[..] == old(sschain[..])[isimu := sschain[isimu]]
    ensures !ok ==> chain[..] == old(chain[..]) && sschain[..] == old(sschain[..])
    ensures ok ==> Run(env, s0, isimu) == State(par, ss, rej', rejb', propCov', used', chain[..isimu + 1], sschain[..isimu + 1])
  {
    RunCovValid(env, s0, isimu - 1);
    if !ValidCov(propCov, env.p) {
      return false, oldpar, oldss, rej, rejb, used, propCov;
    }
    ok := true;
    par, ss, rej', rejb', used' := WriteRow(env, isimu, chain, sschain, oldpar, oldss, rej, rejb, used, propCov);
    ghost var moved := State(par, ss, rej', rejb', propCov, used', chain[..isimu + 1], sschain[..isimu + 1]);
    RunNext(env, s0, isimu, moved);
    assert moved.chain[..isimu] == chain[..isimu];
    propCov' := propCov;
    if AdaptFires(env.adaptint, isimu) {
      propCov' := Some(AdaptedCov(env.covEntry, chain[..isimu], env.p));
    }
  }

  /**
   * Lines 47-82 of `sample`: iterations 1..nsimu-1 over the preallocated
   * `chain` and `sschain`, starting from row 0, each writing exactly one row
   * and then possibly adapting the proposal covariance. An iteration whose
   * prop_cov is not a p x p matrix stops the run: there `multivariate_normal` raises.
   */
  method Loop(env: Env, theta0: Vector, qcov: Option<Cov>, chain: array<Vector>, sschain: array<real>, nsimu: int)
    returns (r: Result<State, SampleError>)
    requires env.p > 0 && nsimu >= 1 && |env.uniforms| >= nsimu - 1
    requires chain.Length == nsimu && sschain.Length == nsimu
    requires chain[0] == theta0 && sschain[0] == env.ssfunVec(theta0)
    modifies chain, sschain
    ensures r.Success? <==> DrawsOk(env, qcov, nsimu - 1)
    ensures r.Success? ==> r.value == Run(env, Initial(env, theta0, qcov), nsimu - 1)
    ensures r.Failure? ==> r.error == BadProposalCovariance
  {
    ghost var s0 := Initial(env, theta0, qcov);
    assert chain[..1] == s0.chain && sschain[..1] == s0.sschain;
    var oldpar, oldss, propCov := theta0, sschain[0], qcov;
    var rej: nat, rejb: nat, used: nat := 0, 0, 0;
    var isimu := 1;
    while isimu < nsimu
      invariant 1 <= isimu <= nsimu && DrawsOk(env, qcov, isimu - 1)
      invariant Run(env, s0, isimu - 1) == State(oldpar, oldss, rej, rejb, propCov, used, chain[..isimu], sschain[..isimu])
    {
      var ok;
      ok, oldpar, oldss, rej, rejb, used, propCov := Iteration(env, s0, isimu, chain, sschain, oldpar, oldss, rej, rejb, used, propCov);
      if !ok {
        DrawsOkPrefix(env, qcov, isimu, nsimu - 1);
        return Failure(BadProposalCovariance);
      }
      isimu := isimu + 1;
    }
    assert chain[..nsimu] == chain[..];
    r := Success(State(oldpar, oldss, rej, rejb, propCov, used, chain[..], sschain[..]));
  }

  /**
   * Lines 37-82 of `sample`: preallocate `chain` and `sschain`, write row 0,
   * then run the loop.
   */
  method Iterate(env: Env, theta0: Vector, qcov: Option<Cov>, nsimu: int) returns (r: Result<State, SampleError>)
    requires env.p > 0 && nsimu >= 1 && |env.uniforms| >= nsimu - 1
    ensures r.Success? <==> DrawsOk(env, qcov, nsimu - 1)
    ensures r.Success? ==> r.value == Run(env, Initial(env, theta0, qcov), nsimu - 1)
    ensures r.Failure? ==> r.error == BadProposalCovariance
  {
    var chain := new Vector[nsimu];
    chain[0] := theta0;
    var sschain := new real[nsimu];
    sschain[0] := env.ssfunVec(theta0);
    r := Loop(env, theta0, qcov, chain, sschain, nsimu);
  }

  /** The whole of `sample`: the configuration checks, the loop, then the results and table. */
  method Sample<D>(ssfun: (map<string, real>, D) -> real, data: D, params: seq<Parameter>, options: McmcOptions,
                   draw: (Vector, Option<Cov>, nat) -> Vector, uniforms: seq<real>,
                   accProb: real -> real, covEntry: (seq<Vector>, nat, nat) -> real)
    returns (r: Result<Outcome, SampleError>)
    requires forall m, c, i :: |draw(m, c, i)| == |m|
    requires |uniforms| >= options.nsimu - 1
    ensures r == SampleSpec(ssfun, data, params, options, draw, uniforms, accProb, covEntry)
  {
    var vectorized := Vectorize(ssfun, data, params);
    if vectorized.Failure? {
      return Failure(VectorizeFailed(vectorized.error));
    }
    FreeSizes(params);
    r := SampleFrom(vectorized.value, Bounds(params), FreeInits(params), options, draw, uniforms, accProb, covEntry);
  }

  method SampleFrom(v: Vectorized, bounds: seq<Interval>, theta0: Vector, options: McmcOptions,
                    draw: (Vector, Option<Cov>, nat) -> Vector, uniforms: seq<real>,
                    accProb: real -> real, covEntry: (seq<Vector>, nat, nat) -> real)
    returns (r: Result<Outcome, SampleError>)
    requires forall m, c, i :: |draw(m, c, i)| == |m|
    requires |uniforms| >= options.nsimu - 1
    requires |bounds| == |v.namesOpt| == |theta0| > 0
    ensures r == SampleWith(v, bounds, theta0, options, draw, uniforms, accProb, covEntry)
  {
    var env := MakeEnv(v, bounds, options, draw, uniforms, accProb, covEntry);
    if OutOfBounds(theta0, bounds) {
      return Failure(InitialOutOfBounds);
    }
    if options.nsimu < 1 {
      return Failure(EmptyChain);
    }
    var run := Iterate(env, theta0, options.qcov, options.nsimu);
    if run.Failure? {
      return Failure(run.error);
    }
    RunRowSizes(env, theta0, options.qcov, options.nsimu - 1);
    r := Success(Finish(v, options.nsimu, run.value));
  }
}

/** What a call of `sample` promises, stated over SampleSpec and SampleWith. */
module SamplerProperties {
  import opened Wrappers
  import opened Utils
  import opened Sampling
  import opened Sampler

  /**
   * `sample` fails exactly when there is no target parameter, the initial point
   * is out of bounds, nsimu < 1, or a draw meets a prop_cov that is not p x p:
   * qcov itself at iteration 1, or the 0-d covariance that the one-row
   * adaptation of iteration 1 leaves (adaptint == 1, p >= 2) at iteration 2.
   * The first of these that applies names the error.
   */
  lemma SampleFailures<D>(ssfun: (map<string, real>, D) -> real, data: D, params: seq<Parameter>, options: McmcOptions,
                          draw: (Vector, Option<Cov>, nat) -> Vector, uniforms: seq<real>,
                          accProb: real -> real, covEntry: (seq<Vector>, nat, nat) -> real)
    requires forall m, c, i :: |draw(m, c, i)| == |m|
    requires |uniforms| >= options.nsimu - 1
    ensures var r := SampleSpec(ssfun, data, params, options, draw, uniforms, accProb, covEntry);
            var noTarget := forall i :: 0 <= i < |params| ==> !params[i].target;
            var badStart := OutOfBounds(FreeInits(params), Bounds(params));
            var p := |NamesOpt(params)|;
            var badCov := (options.nsimu > 1 && !ValidCov(options.qcov, p))
                          || (options.nsimu > 2 && p >= 2 && options.adaptint == 1);
            (r.Failure? <==> noTarget || badStart || options.nsimu < 1 || badCov)
            && (noTarget ==> r == Failure(VectorizeFailed(NoTargetParameters)))
            && (!noTarget && badStart ==> r == Failure(InitialOutOfBounds))
            && (!noTarget && !badStart && options.nsimu < 1 ==> r == Failure(EmptyChain))
            && (!noTarget && !badStart && options.nsimu >= 1 && badCov ==> r == Failure(BadProposalCovariance))
  {
    match Vectorize(ssfun, data, params)
    case Failure(_) =>
    case Success(v) =>
      FreeSizes(params);
      SampleWithFailures(v, Bounds(params), FreeInits(params), options, draw, uniforms, accProb, covEntry);
  }

  /**
   * After vectorizing, `sample` fails exactly when the initial point is out of
   * bounds, nsimu < 1, or a draw meets a prop_cov that is not p x p; the first
   * of these that applies names the error.
   */
  lemma SampleWithFailures(v: Vectorized, bounds: seq<Interval>, theta0: Vector, options: McmcOptions,
                           draw: (Vector, Option<Cov>, nat) -> Vector, uniforms: seq<real>,
                           accProb: real -> real, covEntry: (seq<Vector>, nat, nat) -> real)
    requires forall m, c, i :: |draw(m, c, i)| == |m|
    requires |uniforms| >= options.nsimu - 1
    requires |bounds| == |v.namesOpt| == |theta0| > 0
    ensures var r := SampleWith(v, bounds, theta0, options, draw, uniforms, accProb, covEntry);
            var badStart := OutOfBounds(theta0, bounds);
            var p := |theta0|;
            var badCov := (options.nsimu > 1 && !ValidCov(options.qcov, p))
                          || (options.nsimu > 2 && p >= 2 && options.adaptint == 1);
            (r.Failure? <==> badStart || options.nsimu < 1 || badCov)
            && (badStart ==> r == Failure(InitialOutOfBounds))
            && (!badStart && options.nsimu < 1 ==> r == Failure(EmptyChain))
            && (!badStart && options.nsimu >= 1 && badCov ==> r == Failure(BadProposalCovariance))
  {
  }

  /** The environment, initial state and final state behind a successful SampleWith. */
  lemma SuccessfulRun(v: Vectorized, bounds: seq<Interval>, theta0: Vector, options: McmcOptions,
                      draw: (Vector, Option<Cov>, nat) -> Vector, uniforms: seq<real>,
                      accProb: real -> real, covEntry: (seq<Vector>, nat, nat) -> real)
    returns (env: Env, s0: State, s: State)
    requires forall m, c, i :: |draw(m, c, i)| == |m|
    requires |uniforms| >= options.nsimu - 1
    requires |bounds| == |v.namesOpt| == |theta0| > 0
    requires SampleWith(v, bounds, theta0, options, draw, uniforms, accProb, covEntry).Success?
    ensures env == MakeEnv(v, bounds, options, draw, uniforms, accProb, covEntry)
    ensures s0 == Initial(env, theta0, options.qcov)
    ensures options.nsimu >= 1 && WellFormed(env) && RunPre(env, s0, options.nsimu - 1)
    ensures |theta0| == env.p && !OutOfBounds(theta0, env.bounds)
    ensures s == Run(env, s0, options.nsimu - 1)
    ensures forall i :: 0 <= i < |s.chain| ==> |s.chain[i]| == |v.namesOpt|
    ensures SampleWith(v, bounds, theta0, options, draw, uniforms, accProb, covEntry) == Success(Finish(v, options.nsimu, s))
    ensures env.bounds == bounds && env.p == |theta0| && env.ssfunVec == v.ssfunVec && env.draw == draw
    ensures env.covEntry == covEntry && env.adaptint == options.adaptint
    ensures var o := SampleWith(v, bounds, theta0, options, draw, uniforms, accProb, covEntry).value;
            o.chain == s.chain && o.sschain == s.sschain && o.results == MakeResults(options.nsimu, s)
  {
    env := MakeEnv(v, bounds, options, draw, uniforms, accProb, covEntry);
    s0 := Initial(env, theta0, options.qcov);
    RunRowSizes(env, theta0, options.qcov, options.nsimu - 1);
    s := Run(env, s0, options.nsimu - 1);
  }

  /**
   * The chain of a successful run: nsimu rows of p entries; row 0 is the initial
   * point; every row is in bounds and sschain holds the objective of its row.
   */
  lemma SampleChain(v: Vectorized, bounds: seq<Interval>, theta0: Vector, options: McmcOptions,
                    draw: (Vector, Option<Cov>, nat) -> Vector, uniforms: seq<real>,
                    accProb: real -> real, covEntry: (seq<Vector>, nat, nat) -> real)
    requires forall m, c, i :: |draw(m, c, i)| == |m|
    requires |uniforms| >= options.nsimu - 1
    requires |bounds| == |v.namesOpt| == |theta0| > 0
    ensures var r := SampleWith(v, bounds, theta0, options, draw, uniforms, accProb, covEntry);
            r.Success? ==>
              |r.value.chain| == options.nsimu && |r.value.sschain| == options.nsimu
              && r.value.chain[0] == theta0
              && (forall i :: 0 <= i < options.nsimu ==> |r.value.chain[i]| == |theta0|)
              && (forall i :: 0 <= i < options.nsimu ==> !OutOfBounds(r.value.chain[i], bounds))
              && (forall i :: 0 <= i < options.nsimu ==> r.value.sschain[i] == v.ssfunVec(r.value.chain[i]))
  {
    if SampleWith(v, bounds, theta0, options, draw, uniforms, accProb, covEntry).Success? {
      var env, s0, s := SuccessfulRun(v, bounds, theta0, options, draw, uniforms, accProb, covEntry);
      InitialInv(env, theta0, options.qcov);
      RunInv(env, s0, options.nsimu - 1);
      RunPrefix(env, s0, 0, options.nsimu - 1);
      assert s.chain[..1] == s0.chain;
    }
  }

  /**
   * Row i >= 1 of the chain repeats row i-1 with its score, or is the proposal
   * drawn around row i-1 at iteration i.
   */
  lemma SampleRows(v: Vectorized, bounds: seq<Interval>, theta0: Vector, options: McmcOptions,
                   draw: (Vector, Option<Cov>, nat) -> Vector, uniforms: seq<real>,
                   accProb: real -> real, covEntry: (seq<Vector>, nat, nat) -> real, i: nat)
    requires forall m, c, i :: |draw(m, c, i)| == |m|
    requires |uniforms| >= options.nsimu - 1
    requires |bounds| == |v.namesOpt| == |theta0| > 0
    requires 1 <= i < options.nsimu
    ensures var r := SampleWith(v, bounds, theta0, options, draw, uniforms, accProb, covEntry);
            r.Success? ==>
              |r.value.chain| == |r.value.sschain| == options.nsimu
              && ((r.value.chain[i] == r.value.chain[i - 1] && r.value.sschain[i] == r.value.sschain[i - 1])
                  || exists c {:trigger draw(r.value.chain[i - 1], c, i)} :: r.value.chain[i] == draw(r.value.chain[i - 1], c, i))
  {
    if SampleWith(v, bounds, theta0, options, draw, uniforms, accProb, covEntry).Success? {
      var env, s0, s := SuccessfulRun(v, bounds, theta0, options, draw, uniforms, accProb, covEntry);
      InitialInv(env, theta0, options.qcov);
      RowKeptOrDrawn(env, s0, options.nsimu - 1, i);
    }
  }

  /**
   * The results record: accepted + rejected == 100, 0 <= out_of_bounds <=
   * rejected < 100, `last` is the final chain row, and without any adaptation
   * (adaptint <= 0, or no multiple of it below nsimu) qcov is returned unchanged.
   */
  lemma SampleResults(v: Vectorized, bounds: seq<Interval>, theta0: Vector, options: McmcOptions,
                      draw: (Vector, Option<Cov>, nat) -> Vector, uniforms: seq<real>,
                      accProb: real -> real, covEntry: (seq<Vector>, nat, nat) -> real)
    requires forall m, c, i :: |draw(m, c, i)| == |m|
    requires |uniforms| >= options.nsimu - 1
    requires |bounds| == |v.namesOpt| == |theta0| > 0
    ensures var r := SampleWith(v, bounds, theta0, options, draw, uniforms, accProb, covEntry);
            r.Success? ==>
              var res := r.value.results;
              res.n == options.nsimu && |r.value.chain| == options.nsimu
              && res.Accepted() + res.Rejected() == 100.0
              && 0.0 <= res.OutOfBoundsPct() <= res.Rejected() < 100.0
              && res.last == r.value.chain[options.nsimu - 1]
              && (options.adaptint <= 0 || options.nsimu <= options.adaptint ==> res.qcov == options.qcov)
  {
    if SampleWith(v, bounds, theta0, options, draw, uniforms, accProb, covEntry).Success? {
      var env, s0, s := SuccessfulRun(v, bounds, theta0, options, draw, uniforms, accProb, covEntry);
      RunCounters(env, s0, options.nsimu - 1);
      ResultsPercentages(MakeResults(options.nsimu, s));
      if options.adaptint <= 0 || options.nsimu <= options.adaptint {
        RunCovUnadapted(env, s0, options.nsimu - 1);
      }
    }
  }

  /**
   * The returned covariance is p x p whenever an iteration ran, except when the
   * only iteration adapted from the single row 0 (nsimu == 2, adaptint == 1,
   * p >= 2): then it is numpy's 0-d value. Once adaptation has fired it is
   * 2.4^2/p times the empirical covariance of rows 0..k-1, k the last multiple
   * of adaptint below nsimu (for p == 1 a 1 x 1 matrix, by AdaptedCov).
   */
  lemma SampleCovariance(v: Vectorized, bounds: seq<Interval>, theta0: Vector, options: McmcOptions,
                         draw: (Vector, Option<Cov>, nat) -> Vector, uniforms: seq<real>,
                         accProb: real -> real, covEntry: (seq<Vector>, nat, nat) -> real)
    requires forall m, c, i :: |draw(m, c, i)| == |m|
    requires |uniforms| >= options.nsimu - 1
    requires |bounds| == |v.namesOpt| == |theta0| > 0
    ensures var r := SampleWith(v, bounds, theta0, options, draw, uniforms, accProb, covEntry);
            var p := |theta0|;
            r.Success? ==>
              (options.nsimu > 1 ==>
                 (ValidCov(r.value.results.qcov, p) <==> !(options.nsimu == 2 && p >= 2 && options.adaptint == 1)))
              && (options.adaptint > 0 && options.nsimu - 1 >= options.adaptint ==>
                    var n := options.nsimu - 1;
                    var k := LastAdaptation(n, options.adaptint);
                    1 <= k <= n && |r.value.chain| == options.nsimu
                    && r.value.results.qcov == Some(AdaptedCov(covEntry, r.value.chain[..k], p)))
  {
    if SampleWith(v, bounds, theta0, options, draw, uniforms, accProb, covEntry).Success? {
      var env, s0, s := SuccessfulRun(v, bounds, theta0, options, draw, uniforms, accProb, covEntry);
      var o := SampleWith(v, bounds, theta0, options, draw, uniforms, accProb, covEntry).value;
      RunCovariance(env, s0, options.nsimu - 1, covEntry, |theta0|, options.adaptint, o.results.qcov, o.chain);
    }
  }

  /** The covariance facts of Run, stated of a copy of its proposal covariance and chain. */
  lemma RunCovariance(env: Env, s0: State, n: nat, covEntry: (seq<Vector>, nat, nat) -> real, p: nat, a: int,
                      qcov: Option<Cov>, chain: seq<Vector>)
    requires RunPre(env, s0, n) && env.covEntry == covEntry && env.p == p && env.adaptint == a
    requires DrawsOk(env, s0.propCov, n) && qcov == Run(env, s0, n).propCov && chain == Run(env, s0, n).chain
    ensures n > 0 ==> (ValidCov(qcov, p) <==> !(n == 1 && p >= 2 && a == 1))
    ensures a > 0 && n >= a ==>
              var k := LastAdaptation(n, a);
              1 <= k <= n && |chain| == n + 1 && qcov == Some(AdaptedCov(covEntry, chain[..k], p))
  {
    RunCovValid(env, s0, n);
    if a > 0 && n >= a {
      RunCovAdaptedBy(env, s0, n, covEntry, p, a);
    }
  }

  /**
   * A successful `sample` runs SampleWith on the free parameters: sschain[i] is
   * the user's objective at the parameter map of chain row i merged with the
   * fixed values, row 0 is the free inits and every row is within the free bounds.
   */
  lemma SampleObjective<D>(ssfun: (map<string, real>, D) -> real, data: D, params: seq<Parameter>, options: McmcOptions,
                           draw: (Vector, Option<Cov>, nat) -> Vector, uniforms: seq<real>,
                           accProb: real -> real, covEntry: (seq<Vector>, nat, nat) -> real)
    requires forall m, c, i :: |draw(m, c, i)| == |m|
    requires |uniforms| >= options.nsimu - 1
    ensures var r := SampleSpec(ssfun, data, params, options, draw, uniforms, accProb, covEntry);
            r.Success? ==>
              |r.value.chain| == options.nsimu && |r.value.sschain| == options.nsimu
              && r.value.chain[0] == FreeInits(params)
              && (forall i :: 0 <= i < options.nsimu ==> !OutOfBounds(r.value.chain[i], Bounds(params)))
              && (forall i :: 0 <= i < options.nsimu ==>
                    r.value.sschain[i] == ssfun(ThDict(NamesOpt(params), ThNoOpt(params), r.value.chain[i]), data))
  {
    if SampleSpec(ssfun, data, params, options, draw, uniforms, accProb, covEntry).Success? {
      var v := Vectorize(ssfun, data, params).value;
      FreeSizes(params);
      SampleChain(v, Bounds(params), FreeInits(params), options, draw, uniforms, accProb, covEntry);
    }
  }
}
