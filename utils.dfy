/**
 * The configuration records of thetafit and the partition of parameters into
 * free ("target") and fixed ones that turns a user objective over a name->value
 * map into an objective over the vector of free parameters.
 */
module Utils {
  import opened Wrappers

  /** A float that may be -inf or +inf (the bounds default to the infinities). */
  datatype ExtReal = NegInf | Finite(value: real) | PosInf

  /** `x < b` for a float x and an extended bound b. */
  predicate Below(x: real, b: ExtReal) {
    match b
    case NegInf => false
    case Finite(v) => x < v
    case PosInf => true
  }

  /** `x > b` for a float x and an extended bound b. */
  predicate Above(x: real, b: ExtReal) {
    match b
    case NegInf => true
    case Finite(v) => x > v
    case PosInf => false
  }

  /** An array as numpy holds it: a 0-d scalar or a 2-d matrix given by its rows. */
  datatype Cov = Scalar(value: real) | Matrix(rows: seq<seq<real>>)

  /** A model parameter; the defaults are those of `Parameter.__init__`. */
  datatype Parameter = Parameter(
    name: string,
    init: real,
    minimum: ExtReal := NegInf,
    maximum: ExtReal := PosInf,
    target: bool := true)

  /** Run options; `printint` is already resolved (see NewMcmcOptions). */
  datatype McmcOptions = McmcOptions(nsimu: int, adaptint: int, printint: int, qcov: Option<Cov>)

  /** `McmcOptions.__init__`: an absent printint falls back to adaptint. */
  function NewMcmcOptions(nsimu: int := 10000, adaptint: int := 100,
                          printint: Option<int> := None, qcov: Option<Cov> := None): (o: McmcOptions)
    ensures o.nsimu == nsimu && o.adaptint == adaptint && o.qcov == qcov
    ensures printint.None? ==> o.printint == adaptint
    ensures printint.Some? ==> o.printint == printint.value
  {
    McmcOptions(nsimu, adaptint, if printint.None? then adaptint else printint.value, qcov)
  }

  lemma PrintintDefaultsToAdaptint(adaptint: int)
    ensures NewMcmcOptions(adaptint := adaptint).printint == adaptint
    ensures NewMcmcOptions().nsimu == 10000 && NewMcmcOptions().adaptint == 100
    ensures NewMcmcOptions().printint == 100 && NewMcmcOptions().qcov == None
  {
  }

  lemma ParameterDefaults(name: string, init: real)
    ensures Parameter(name, init).minimum == NegInf
    ensures Parameter(name, init).maximum == PosInf
    ensures Parameter(name, init).target
    ensures forall x: real :: !Below(x, Parameter(name, init).minimum) && !Above(x, Parameter(name, init).maximum)
  {
  }

  // ---------------------------------------------------------------------------
  // List comprehensions over the parameters
  // ---------------------------------------------------------------------------

  /**
   * `[f(par) for par in params if par.target == t]`: the image under f of the
   * parameters whose target flag is t, in input order.
   */
  function Select<T>(params: seq<Parameter>, t: bool, f: Parameter -> T): (r: seq<T>)
    ensures |r| <= |params|
  {
    if |params| == 0 then []
    else
      var last := params[|params| - 1];
      Select(params[..|params| - 1], t, f) + (if last.target == t then [f(last)] else [])
  }

  /** The positions, in increasing order, of the parameters whose target flag is t. */
  function Positions(params: seq<Parameter>, t: bool): (r: seq<nat>)
    ensures forall j :: 0 <= j < |r| ==> r[j] < |params| && params[r[j]].target == t
    ensures forall j, k :: 0 <= j < k < |r| ==> r[j] < r[k]
    ensures forall i :: 0 <= i < |params| && params[i].target == t ==> i in r
  {
    if |params| == 0 then []
    else
      var n := |params| - 1;
      var prefix := params[..n];
      assert forall i :: 0 <= i < n ==> params[i] == prefix[i];
      Positions(prefix, t) + (if params[n].target == t then [n] else [])
  }

  /**
   * A comprehension keeps exactly the parameters with the requested flag, in
   * input order: its j-th element is f of the parameter at the j-th such position.
   */
  lemma {:induction false} SelectAtPositions<T>(params: seq<Parameter>, t: bool, f: Parameter -> T)
    ensures |Select(params, t, f)| == |Positions(params, t)|
    ensures forall j :: 0 <= j < |Positions(params, t)| ==>
              Select(params, t, f)[j] == f(params[Positions(params, t)[j]])
  {
    if |params| > 0 {
      var n := |params| - 1;
      var prefix := params[..n];
      SelectAtPositions(prefix, t, f);
      var sel, pos := Select(prefix, t, f), Positions(prefix, t);
      assert Select(params, t, f) == sel + (if params[n].target == t then [f(params[n])] else []);
      assert Positions(params, t) == pos + (if params[n].target == t then [n] else []);
      forall j | 0 <= j < |pos|
        ensures Select(params, t, f)[j] == f(params[Positions(params, t)[j]])
      {
        assert params[pos[j]] == prefix[pos[j]];
      }
    }
  }

  /**
   * The free and fixed comprehensions split the parameter list: every position
   * is in exactly one of the two, so together they have |params| elements.
   */
  lemma {:induction false} FreeFixedPartition<T, U>(params: seq<Parameter>, f: Parameter -> T, g: Parameter -> U)
    ensures forall i :: 0 <= i < |params| ==> (i in Positions(params, true) <==> i !in Positions(params, false))
    ensures |Select(params, true, f)| + |Select(params, false, g)| == |params|
  {
    if |params| > 0 {
      FreeFixedPartition(params[..|params| - 1], f, g);
    }
  }

  /** There is a free parameter exactly when the free comprehension is non-empty. */
  lemma {:induction false} SelectEmpty<T>(params: seq<Parameter>, t: bool, f: Parameter -> T)
    ensures |Select(params, t, f)| == 0 <==> forall i :: 0 <= i < |params| ==> params[i].target != t
  {
    SelectAtPositions(params, t, f);
    if |Positions(params, t)| > 0 {
      var i := Positions(params, t)[0];
      assert params[i].target == t;
    }
  }

  function Name(p: Parameter): string { p.name }
  function Init(p: Parameter): real { p.init }

  // ---------------------------------------------------------------------------
  // dict(zip(keys, values)) and the overlay {**a, **b}
  // ---------------------------------------------------------------------------

  /**
   * `dict(zip(keys, values))`: pairs up to the shorter length, inserted left to
   * right, so a repeated key keeps the value of its last occurrence.
   */
  function ZipDict<V>(keys: seq<string>, values: seq<V>): map<string, V>
    decreases |keys|
  {
    if |keys| == 0 || |values| == 0 then map[]
    else map[keys[0] := values[0]] + ZipDict(keys[1..], values[1..])
  }

  /** The keys of `dict(zip(keys, values))` are the keys paired with a value. */
  lemma {:induction false} ZipDictKeys<V>(keys: seq<string>, values: seq<V>)
    ensures ZipDict(keys, values).Keys == set j | 0 <= j < |keys| && j < |values| :: keys[j]
    decreases |keys|
  {
    if |keys| > 0 && |values| > 0 {
      var ks, vs := keys[1..], values[1..];
      ZipDictKeys(ks, vs);
      assert forall j :: 1 <= j < |keys| && j < |values| ==> keys[j] == ks[j - 1];
      assert (set j | 0 <= j < |keys| && j < |values| :: keys[j])
          == {keys[0]} + (set j | 0 <= j < |ks| && j < |vs| :: ks[j]);
    }
  }

  /** In `dict(zip(keys, values))` a key whose occurrence at j is its last one is bound to values[j]. */
  lemma {:induction false} ZipDictLast<V>(keys: seq<string>, values: seq<V>, j: nat)
    requires j < |keys| && j < |values| && keys[j] !in keys[j + 1..]
    ensures keys[j] in ZipDict(keys, values) && ZipDict(keys, values)[keys[j]] == values[j]
    decreases j
  {
    var ks, vs := keys[1..], values[1..];
    assert ZipDict(keys, values) == map[keys[0] := values[0]] + ZipDict(ks, vs);
    if j > 0 {
      assert keys[j + 1..] == ks[j..];
      ZipDictLast(ks, vs, j - 1);
    } else {
      ZipDictKeys(ks, vs);
      assert keys[0] !in ZipDict(ks, vs);
    }
  }

  /** Both facts about `dict(zip(keys, values))`, for every position at once. */
  lemma ZipDictBindings<V>(keys: seq<string>, values: seq<V>)
    ensures ZipDict(keys, values).Keys == set j | 0 <= j < |keys| && j < |values| :: keys[j]
    ensures forall j :: 0 <= j < |keys| && j < |values| && keys[j] !in keys[j + 1..] ==>
              keys[j] in ZipDict(keys, values) && ZipDict(keys, values)[keys[j]] == values[j]
  {
    ZipDictKeys(keys, values);
    forall j | 0 <= j < |keys| && j < |values| && keys[j] !in keys[j + 1..]
      ensures keys[j] in ZipDict(keys, values) && ZipDict(keys, values)[keys[j]] == values[j]
    {
      ZipDictLast(keys, values, j);
    }
  }

  // ---------------------------------------------------------------------------
  // vectorize_ssfun
  // ---------------------------------------------------------------------------

  datatype Error = NoTargetParameters

  /**
   * What `vectorize_ssfun` returns: the objective over the free vector, the
   * free names in input order, and the fixed name->init map.
   */
  datatype Vectorized = Vectorized(ssfunVec: seq<real> -> real, namesOpt: seq<string>, thNoOpt: map<string, real>)

  /** The free names (`names_opt`): the name of each target parameter, in input order. */
  function NamesOpt(params: seq<Parameter>): (names: seq<string>)
    ensures |names| == |Positions(params, true)|
    ensures forall j :: 0 <= j < |names| ==> names[j] == params[Positions(params, true)[j]].name
  {
    SelectAtPositions(params, true, Name);
    Select(params, true, Name)
  }

  /** `th_no_opt`: fixed names zipped with their init values. */
  function ThNoOpt(params: seq<Parameter>): (m: map<string, real>)
    ensures m.Keys == set j | 0 <= j < |Select(params, false, Name)| :: Select(params, false, Name)[j]
  {
    var names := Select(params, false, Name);
    var inits := Select(params, false, Init);
    SelectAtPositions(params, false, Name);
    SelectAtPositions(params, false, Init);
    ZipDictBindings(names, inits);
    ZipDict(names, inits)
  }

  /** The map the user objective sees: free names zipped with th, then the fixed values on top. */
  function ThDict(namesOpt: seq<string>, thNoOpt: map<string, real>, th: seq<real>): (d: map<string, real>)
    ensures d.Keys == (set j | 0 <= j < |namesOpt| && j < |th| :: namesOpt[j]) + thNoOpt.Keys
    ensures forall k :: k in thNoOpt ==> d[k] == thNoOpt[k]
    ensures forall j :: 0 <= j < |namesOpt| && j < |th| && namesOpt[j] !in namesOpt[j + 1..] && namesOpt[j] !in thNoOpt ==>
              d[namesOpt[j]] == th[j]
  {
    ZipDictBindings(namesOpt, th);
    ZipDict(namesOpt, th) + thNoOpt
  }

  /** `vectorize_ssfun`: fails when no parameter is a target. */
  function Vectorize<D>(ssfun: (map<string, real>, D) -> real, data: D, params: seq<Parameter>): (r: Result<Vectorized, Error>)
    ensures r.Failure? <==> forall i :: 0 <= i < |params| ==> !params[i].target
    ensures r.Failure? ==> r.error == NoTargetParameters
    ensures r.Success? ==> r.value.namesOpt == NamesOpt(params) && |r.value.namesOpt| > 0
    ensures r.Success? ==> r.value.thNoOpt == ThNoOpt(params)
    ensures r.Success? ==> forall th :: r.value.ssfunVec(th) == ssfun(ThDict(NamesOpt(params), ThNoOpt(params), th), data)
  {
    var namesOpt := NamesOpt(params);
    SelectEmpty(params, true, Name);
    if |namesOpt| == 0 then Failure(NoTargetParameters)
    else
      var thNoOpt := ThNoOpt(params);
      Success(Vectorized(th => ssfun(ThDict(namesOpt, thNoOpt, th), data), namesOpt, thNoOpt))
  }

  /**
   * `th_no_opt` binds each fixed parameter's name to its init value; on a
   * repeated fixed name, the last such parameter wins.
   */
  lemma FixedNamesBindInits(params: seq<Parameter>, j: nat)
    requires j < |Positions(params, false)|
    requires forall k :: j < k < |Positions(params, false)| ==>
               params[Positions(params, false)[k]].name != params[Positions(params, false)[j]].name
    ensures params[Positions(params, false)[j]].name in ThNoOpt(params)
    ensures ThNoOpt(params)[params[Positions(params, false)[j]].name] == params[Positions(params, false)[j]].init
  {
    var names := Select(params, false, Name);
    var inits := Select(params, false, Init);
    SelectAtPositions(params, false, Name);
    SelectAtPositions(params, false, Init);
    ZipDictBindings(names, inits);
    assert names[j] !in names[j + 1..];
  }

  /**
   * What the objective sees: the j-th free name is bound to th[j] (unless a
   * later free name repeats it or a fixed parameter of that name overrides it),
   * and every fixed name is bound to its init value.
   */
  lemma ObjectiveBindings(params: seq<Parameter>, th: seq<real>, j: nat)
    requires j < |Positions(params, true)| && j < |th|
    requires params[Positions(params, true)[j]].name !in ThNoOpt(params)
    requires forall k :: j < k < |Positions(params, true)| ==>
               params[Positions(params, true)[k]].name != params[Positions(params, true)[j]].name
    ensures params[Positions(params, true)[j]].name in ThDict(NamesOpt(params), ThNoOpt(params), th)
    ensures ThDict(NamesOpt(params), ThNoOpt(params), th)[params[Positions(params, true)[j]].name] == th[j]
  {
    var names := NamesOpt(params);
    SelectAtPositions(params, true, Name);
    assert names[j] !in names[j + 1..];
  }

  /** On a name clash between a free and a fixed parameter, the fixed value wins. */
  lemma FixedWinsOnClash(params: seq<Parameter>, th: seq<real>, key: string)
    requires key in NamesOpt(params) && key in ThNoOpt(params)
    ensures ThDict(NamesOpt(params), ThNoOpt(params), th)[key] == ThNoOpt(params)[key]
  {
  }
}
