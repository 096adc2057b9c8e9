/**
  The parameter-name tables of constants.py and the helpers that put a
  parameter dictionary, or its keys, into the canonical order. A Python
  dictionary of numbers is a `map<string, real>`; a keys view is a
  `set<string>`.
 */
module Constants {
  import opened Errors
  import opened Seqs

  /** Parameters that index the synthetic-spectrum grid. */
  const GridParameters: seq<string> := ["temp", "logg", "Z", "alpha"]

  /** Parameters applied after a spectrum is taken from the grid. */
  const PpParameters: seq<string> := ["vsini", "FWHM", "vz", "Av", "logOmega"]

  /** All stellar parameters: the grid ones, then the post-processing ones. */
  const StellarParameters: seq<string> := GridParameters + PpParameters

  const GridSet: set<string> := set x | x in GridParameters
  const PpSet: set<string> := set x | x in PpParameters
  const StellarSet: set<string> := GridSet + PpSet

  /** Default value of every stellar parameter. */
  const VarDefault: map<string, real> := map[
    "temp" := 5800.0, "logg" := 4.5, "Z" := 0.0, "alpha" := 0.0, "vsini" := 0.0,
    "FWHM" := 0.0, "vz" := 0.0, "Av" := 0.0, "logOmega" := 0.0]

  /** Parameters of the covariance kernel. */
  const CovParameters: seq<string> := ["sigAmp", "logAmp", "l"]

  /** The tables agree with each other: no name is both a grid and a
      post-processing parameter, the stellar set is exactly the names of
      the stellar tuple, no table repeats a name, and the defaults have one
      entry per stellar parameter and no other. */
  lemma TablesConsistent()
    ensures GridSet !! PpSet
    ensures StellarSet == set x | x in StellarParameters
    ensures Distinct(GridParameters) && Distinct(PpParameters)
    ensures Distinct(StellarParameters) && Distinct(CovParameters)
    ensures VarDefault.Keys == StellarSet
    ensures |VarDefault| == |StellarParameters| == 9
  {
    GridPpDisjoint();
    StellarSetIsTuple();
    TablesDistinct();
    DefaultsCoverStellar();
    DefaultsCount();
  }

  lemma GridPpDisjoint()
    ensures GridSet !! PpSet
  {
  }

  lemma StellarSetIsTuple()
    ensures StellarSet == set x | x in StellarParameters
  {
  }

  lemma TablesDistinct()
    ensures Distinct(GridParameters) && Distinct(PpParameters)
    ensures Distinct(StellarParameters) && Distinct(CovParameters)
  {
  }

  lemma DefaultsCoverStellar()
    ensures VarDefault.Keys == StellarSet
  {
  }

  lemma DefaultsCount()
    ensures |VarDefault| == |StellarParameters| == 9
  {
  }

  /** The names of `order` that are among `keys`, kept in the order of
      `order` (the loop shared by `dictkeys_to_tuple` and
      `dictkeys_to_covtuple`). */
  method SelectPresent(order: seq<string>, keys: set<string>) returns (tup: seq<string>)
    ensures tup == Filter(order, x => x in keys)
    ensures forall x :: x in tup <==> x in order && x in keys
    ensures Distinct(order) ==> Distinct(tup)
  {
    tup := [];
    var i := 0;
    while i < |order|
      invariant 0 <= i <= |order|
      invariant tup == Filter(order[..i], x => x in keys)
    {
      var param := order[i];
      FilterConcat(order[..i], [param], x => x in keys);
      assert order[..i + 1] == order[..i] + [param];
      assert Filter([param], x => x in keys) == if param in keys then [param] else [];
      if param in keys {
        tup := tup + [param];
      }
      i := i + 1;
    }
    assert order[..i] == order;
    FilterDistinctIf(order, x => x in keys);
  }

  lemma FilterDistinctIf(xs: seq<string>, keep: string -> bool)
    ensures Distinct(xs) ==> Distinct(Filter(xs, keep))
  {
    if Distinct(xs) {
      FilterDistinct(xs, keep);
    }
  }

  /** `dictkeys_to_tuple(keys)`: exactly the stellar parameters among
      `keys`, each once, in the order of `StellarParameters`. */
  method DictkeysToTuple(keys: set<string>) returns (tup: seq<string>)
    ensures tup == Filter(StellarParameters, x => x in keys)
    ensures forall x :: x in tup <==> x in StellarSet && x in keys
    ensures Distinct(tup)
  {
    TablesConsistent();
    tup := SelectPresent(StellarParameters, keys);
  }

  /** `dictkeys_to_covtuple(keys)`: the same over the covariance
      parameters. */
  method DictkeysToCovtuple(keys: set<string>) returns (tup: seq<string>)
    ensures tup == Filter(CovParameters, x => x in keys)
    ensures forall x :: x in tup <==> x in CovParameters && x in keys
    ensures Distinct(tup)
  {
    TablesConsistent();
    tup := SelectPresent(CovParameters, keys);
  }

  /** Looking up `names` in `d` one after the other: the values, or a
      `KeyError` for the first name that is missing. */
  function Lookups(d: map<string, real>, names: seq<string>): (r: Result<seq<real>>)
    ensures r.Ok? <==> forall i :: 0 <= i < |names| ==> names[i] in d
    ensures r.Ok? ==> |r.value| == |names| && forall i :: 0 <= i < |names| ==> r.value[i] == d[names[i]]
    ensures r.Err? ==>
      exists i :: 0 <= i < |names| && names[i] !in d && r.error == KeyNotFound(names[i]) &&
        forall j :: 0 <= j < i ==> names[j] in d
  {
    if |names| == 0 then Ok([])
    else if names[0] !in d then Err(KeyNotFound(names[0]))
    else
      match Lookups(d, names[1..])
      case Err(e) =>
        assert forall j :: 1 <= j < |names| ==> names[j] == names[1..][j - 1];
        Err(e)
      case Ok(rest) => Ok([d[names[0]]] + rest)
  }

  /** Both parts of a tuple, or the first part's error, then the second's. */
  function Join(head: Result<seq<real>>, tail: Result<seq<real>>): (r: Result<seq<real>>)
    ensures r.Ok? <==> head.Ok? && tail.Ok?
    ensures r.Ok? ==> r.value == head.value + tail.value
    ensures head.Err? ==> r == Err(head.error)
    ensures head.Ok? && tail.Err? ==> r == Err(tail.error)
  {
    match head
    case Err(e) => Err(e)
    case Ok(h) =>
      match tail
      case Err(e) => Err(e)
      case Ok(t) => Ok(h + t)
  }

  /** The grid part of `dict_to_tuple` with a missing `alpha` taken from
      the defaults. */
  function Head(d: map<string, real>): (r: Result<seq<real>>)
    ensures r.Ok? <==> "temp" in d && "logg" in d && "Z" in d
    ensures r.Err? ==> r.error.KeyNotFound? && r.error.key !in d
    ensures r.Ok? ==>
      r.value == [d["temp"], d["logg"], d["Z"], if "alpha" in d then d["alpha"] else VarDefault["alpha"]]
  {
    var h3 := ["temp", "logg", "Z"];
    assert h3[0] == "temp" && h3[1] == "logg" && h3[2] == "Z";
    if "alpha" in d then
      var h4 := h3 + ["alpha"];
      assert h4[3] == "alpha" && h4[..3] == h3;
      Lookups(d, h4)
    else
      Join(Lookups(d, h3), Ok([VarDefault["alpha"]]))
  }

  /** The post-processing part of `dict_to_tuple`: `FWHM` is read only when
      it is present, and the last name read is `Omega`, which is not a
      stellar parameter. */
  function Suffix(d: map<string, real>): (r: Result<seq<real>>)
    ensures r.Ok? <==> "vsini" in d && "vz" in d && "Av" in d && "Omega" in d
    ensures r.Err? ==> r.error.KeyNotFound? && r.error.key !in d
    ensures r.Ok? && "FWHM" in d ==> r.value == [d["vsini"], d["FWHM"], d["vz"], d["Av"], d["Omega"]]
    ensures r.Ok? && "FWHM" !in d ==> r.value == [d["vsini"], d["vz"], d["Av"], d["Omega"]]
  {
    if "FWHM" in d then
      var t := ["vsini", "FWHM", "vz", "Av", "Omega"];
      assert t[0] == "vsini" && t[1] == "FWHM" && t[2] == "vz" && t[3] == "Av" && t[4] == "Omega";
      Lookups(d, t)
    else
      var t := ["vsini", "vz", "Av", "Omega"];
      assert t[0] == "vsini" && t[1] == "vz" && t[2] == "Av" && t[3] == "Omega";
      Lookups(d, t)
  }

  /** `dict_to_tuple(mydict)` as written: without `alpha` the default is
      read through a module name `C` that constants.py never defines, so
      after the `temp`, `logg` and `Z` lookups that branch raises a
      `NameError`. */
  function DictToTupleAsWritten(d: map<string, real>): (r: Result<seq<real>>)
    ensures "alpha" in d ==> r == DictToTuple(d)
    ensures "alpha" !in d ==> r.Err?
    ensures "alpha" !in d && "temp" in d && "logg" in d && "Z" in d ==> r == Err(NameNotDefined("C"))
  {
    var h3 := ["temp", "logg", "Z"];
    var head :=
      if "alpha" in d then Lookups(d, h3 + ["alpha"])
      else Join(Lookups(d, h3), Err(NameNotDefined("C")));
    assert h3[0] == "temp" && h3[1] == "logg" && h3[2] == "Z";
    Join(head, Suffix(d))
  }

  /** A dictionary without `alpha` but with every key the function reads
      fails as written and succeeds as intended. */
  lemma AlphaAbsentNameError()
    ensures var d := map["temp" := 5800.0, "logg" := 4.5, "Z" := 0.0, "vsini" := 0.0,
                         "vz" := 0.0, "Av" := 0.0, "Omega" := 0.0];
      DictToTupleAsWritten(d) == Err(NameNotDefined("C")) && DictToTuple(d).Ok?
  {
    var d := map["temp" := 5800.0, "logg" := 4.5, "Z" := 0.0, "vsini" := 0.0,
                 "vz" := 0.0, "Av" := 0.0, "Omega" := 0.0];
    assert "alpha" !in d;
    assert "temp" in d && "logg" in d && "Z" in d;
    assert "vsini" in d && "vz" in d && "Av" in d && "Omega" in d;
  }

  /** `dict_to_tuple(mydict)` with the evident intent for a missing
      `alpha`: its default from `VarDefault`. The result is `temp`, `logg`,
      `Z` and `alpha` (or its default), then `vsini`, `FWHM` when present,
      `vz`, `Av` and `Omega`: nine values with `FWHM`, eight without. It
      fails with a `KeyError` for a missing key exactly when one of the
      seven keys it needs is missing. */
  function DictToTuple(d: map<string, real>): (r: Result<seq<real>>)
    ensures r.Ok? <==>
      "temp" in d && "logg" in d && "Z" in d && "vsini" in d && "vz" in d && "Av" in d && "Omega" in d
    ensures r.Err? ==> r.error.KeyNotFound? && r.error.key !in d
    ensures r.Ok? ==> |r.value| == (if "FWHM" in d then 9 else 8)
    ensures r.Ok? ==>
      r.value[..4] == [d["temp"], d["logg"], d["Z"], if "alpha" in d then d["alpha"] else VarDefault["alpha"]]
    ensures r.Ok? && "FWHM" in d ==> r.value[4..] == [d["vsini"], d["FWHM"], d["vz"], d["Av"], d["Omega"]]
    ensures r.Ok? && "FWHM" !in d ==> r.value[4..] == [d["vsini"], d["vz"], d["Av"], d["Omega"]]
  {
    var h := Head(d);
    var t := Suffix(d);
    if h.Ok? && t.Ok? then
      assert (h.value + t.value)[..4] == h.value;
      assert (h.value + t.value)[4..] == t.value;
      Join(h, t)
    else
      Join(h, t)
  }

  /** The defaults themselves cannot be put in order: they name the scale
      `logOmega`, but the function reads `Omega`. */
  lemma DefaultsLackOmega()
    ensures DictToTuple(VarDefault) == Err(KeyNotFound("Omega"))
  {
    assert "Omega" !in VarDefault;
    assert "temp" in VarDefault && "logg" in VarDefault && "Z" in VarDefault;
    assert "vsini" in VarDefault && "FWHM" in VarDefault && "vz" in VarDefault && "Av" in VarDefault;
  }
}
