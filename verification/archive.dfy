/**
  The spectral archive: its writer (`HDF5Creator.process_grid`) and its reader
  (`HDF5Interface`) from Starfish/grid_tools/base_interfaces.py.

  The HDF5 file is an `Archive` value: the final wavelength grid with its
  `air` and `dv` attributes, the parameter matrix `pars`, and the `flux`
  group as a map from dataset name to stored spectrum. The dataset name of a
  parameter tuple, `key_name.format(*param)`, is the function `key`; loading a
  raw spectrum is the oracle `load`; and the resample/broaden/resample chain
  applied to each loaded spectrum is the opaque function `transform`.
 */
module Archive {
  import opened Errors
  import opened Seqs
  import opened Product
  import opened Creator

  /** A header keyword value: FITS headers hold strings and numbers. */
  datatype HeaderValue = Text(s: string) | Number(x: real)

  type Header = map<string, HeaderValue>

  /** What the raw library's `load_flux(param, header=True)` does for one
      tuple: return the flux and header, or raise `ValueError` (the spectrum
      does not exist). */
  datatype RawLoad = Loaded(flux: seq<real>, header: Header) | Missing

  /** One dataset of the `flux` group: the spectrum and its attributes. */
  datatype Entry = Entry(flux: seq<real>, attrs: Header)

  datatype Archive = Archive(
    gridName: string,
    wl: seq<real>,
    air: bool,
    dv: real,
    pars: seq<seq<real>>,
    flux: map<string, Entry>)

  /** The header keywords copied onto a stored spectrum: non-empty key and
      non-empty value. */
  function KeptAttrs(header: Header): Header {
    map k | k in header && k != "" && header[k] != Text("") :: header[k]
  }

  /** The dataset written for a successfully loaded tuple. */
  function StoredEntry(flux: seq<real>, header: Header, transform: seq<real> -> seq<real>): Entry {
    Entry(transform(flux), KeptAttrs(header))
  }

  function Loads(load: seq<real> -> RawLoad): seq<real> -> bool {
    p => load(p).Loaded?
  }

  function Fails(load: seq<real> -> RawLoad): seq<real> -> bool {
    p => load(p).Missing?
  }

  /** No two loadable tuples of `all` share a dataset name. */
  predicate LoadedKeysDistinct(all: seq<seq<real>>, load: seq<real> -> RawLoad, key: seq<real> -> string) {
    forall i, j :: 0 <= i < j < |all| && load(all[i]).Loaded? && load(all[j]).Loaded? ==>
      key(all[i]) != key(all[j])
  }

  /** `key` names different tuples of `all` differently. */
  predicate InjectiveOn(all: seq<seq<real>>, key: seq<real> -> string) {
    forall i, j :: 0 <= i < |all| && 0 <= j < |all| && key(all[i]) == key(all[j]) ==> all[i] == all[j]
  }

  /** What a completed build holds, given the writer and the oracles:
      the writer's grid; `pars` is the enumeration with the failed tuples
      removed, order kept; one dataset per loaded tuple and no other. */
  ghost predicate BuiltFrom(a: Archive, c: Creator, load: seq<real> -> RawLoad,
                            key: seq<real> -> string, transform: seq<real> -> seq<real>)
  {
    var all := CartesianProduct(c.points);
    && a.gridName == c.name && a.wl == c.wlFinal && a.air == c.air && a.dv == c.dvFinal
    && a.pars == Filter(all, Loads(load))
    && a.flux.Keys == (set p | p in all && load(p).Loaded? :: key(p))
    && forall p :: p in all && load(p).Loaded? ==>
         key(p) in a.flux && a.flux[key(p)] == StoredEntry(load(p).flux, load(p).header, transform)
  }

  /** `process_grid`: walk the product of the axes in `itertools.product`
      order, skip each tuple whose load raises `ValueError` (recording its
      index), store one dataset per loaded tuple, then write `pars` with the
      recorded rows deleted. Creating a dataset under a name already taken
      raises, and that error is not caught. */
  method ProcessGrid(c: Creator, load: seq<real> -> RawLoad, key: seq<real> -> string,
                     transform: seq<real> -> seq<real>) returns (r: Result<Archive>)
    ensures r.Ok? <==> LoadedKeysDistinct(CartesianProduct(c.points), load, key)
    ensures r.Err? ==> r.error.DuplicateKey?
    ensures r.Ok? ==> BuiltFrom(r.value, c, load, key, transform)
    ensures r.Ok? ==>
      |r.value.pars| + |Filter(CartesianProduct(c.points), Fails(load))| == GridSize(c.points)
  {
    var all := CartesianProduct(c.points);
    var walked := Walk(all, load, key, transform);
    if walked.Err? {
      return Err(walked.error);
    }
    var (invalid, store) := walked.value;
    MissingUpToMembers(all, |all|, load);
    var a := Archive(c.name, c.wlFinal, c.air, c.dvFinal, Delete(all, invalid), store);
    FinishBuild(a, c, load, key, transform, invalid);
    return Ok(a);
  }

  /** The loop of `process_grid` over the enumerated tuples `all`: the indices
      of the tuples that failed to load, and the `flux` group. It stops at the
      first loaded tuple whose dataset name is taken. */
  method Walk(all: seq<seq<real>>, load: seq<real> -> RawLoad, key: seq<real> -> string,
              transform: seq<real> -> seq<real>) returns (r: Result<(seq<int>, map<string, Entry>)>)
    ensures r.Ok? <==> LoadedKeysDistinct(all, load, key)
    ensures r.Err? ==> r.error.DuplicateKey?
    ensures r.Ok? ==> r.value == (MissingUpTo(all, |all|, load), StoreUpTo(all, |all|, load, key, transform))
  {
    var invalid: seq<int> := [];
    var store: map<string, Entry> := map[];
    var i := 0;
    while i < |all|
      invariant 0 <= i <= |all|
      invariant invalid == MissingUpTo(all, i, load)
      invariant store == StoreUpTo(all, i, load, key, transform)
      invariant LoadedKeysDistinct(all[..i], load, key)
    {
      var loaded := load(all[i]);
      StoreUpToKeysAll(all, i, load, key, transform);
      if loaded.Missing? {
        invalid := invalid + [i];
      } else {
        var name := key(all[i]);
        if name in store {
          CollisionAt(all, i, load, key, transform);
          return Err(DuplicateKey(name));
        }
        store := store[name := StoredEntry(loaded.flux, loaded.header, transform)];
      }
      DistinctStep(all, i, load, key, StoreUpTo(all, i, load, key, transform).Keys);
      i := i + 1;
    }
    assert all[..i] == all;
    return Ok((invalid, store));
  }

  /** The indices, among the first `i`, of the tuples that failed to load. */
  function MissingUpTo(all: seq<seq<real>>, i: nat, load: seq<real> -> RawLoad): seq<int>
    requires i <= |all|
  {
    if i == 0 then []
    else if load(all[i - 1]).Missing? then MissingUpTo(all, i - 1, load) + [i - 1]
    else MissingUpTo(all, i - 1, load)
  }

  lemma {:induction false} MissingUpToMembers(all: seq<seq<real>>, i: nat, load: seq<real> -> RawLoad)
    requires i <= |all|
    ensures forall j :: j in MissingUpTo(all, i, load) <==> 0 <= j < i && load(all[j]).Missing?
  {
    if i > 0 {
      MissingUpToMembers(all, i - 1, load);
    }
  }

  /** The `flux` group after the first `i` tuples of `all`. */
  ghost function StoreUpTo(all: seq<seq<real>>, i: nat, load: seq<real> -> RawLoad,
                           key: seq<real> -> string, transform: seq<real> -> seq<real>): map<string, Entry>
    requires i <= |all|
  {
    if i == 0 then map[]
    else
      var prev := StoreUpTo(all, i - 1, load, key, transform);
      var p := all[i - 1];
      if load(p).Loaded? then prev[key(p) := StoredEntry(load(p).flux, load(p).header, transform)] else prev
  }

  /** The names in the group so far are those of the loaded tuples so far. */
  lemma {:induction false} StoreUpToKeys(all: seq<seq<real>>, i: nat, load: seq<real> -> RawLoad,
                                         key: seq<real> -> string, transform: seq<real> -> seq<real>, n: string)
    requires i <= |all|
    ensures n in StoreUpTo(all, i, load, key, transform) <==>
      exists j :: 0 <= j < i && load(all[j]).Loaded? && key(all[j]) == n
  {
    if i > 0 {
      StoreUpToKeys(all, i - 1, load, key, transform, n);
    }
  }

  lemma StoreUpToKeysAll(all: seq<seq<real>>, i: nat, load: seq<real> -> RawLoad,
                         key: seq<real> -> string, transform: seq<real> -> seq<real>)
    requires i <= |all|
    ensures forall j :: 0 <= j < i && load(all[j]).Loaded? ==>
      key(all[j]) in StoreUpTo(all, i, load, key, transform)
  {
    forall j | 0 <= j < i && load(all[j]).Loaded?
      ensures key(all[j]) in StoreUpTo(all, i, load, key, transform)
    {
      StoreUpToKeys(all, i, load, key, transform, key(all[j]));
    }
  }

  /** Without collisions, each loaded tuple's name holds that tuple's dataset. */
  lemma {:induction false} StoreUpToValues(all: seq<seq<real>>, i: nat, load: seq<real> -> RawLoad,
                                           key: seq<real> -> string, transform: seq<real> -> seq<real>, j: nat)
    requires j < i <= |all|
    requires LoadedKeysDistinct(all[..i], load, key)
    requires load(all[j]).Loaded?
    ensures key(all[j]) in StoreUpTo(all, i, load, key, transform)
    ensures StoreUpTo(all, i, load, key, transform)[key(all[j])] ==
      StoredEntry(load(all[j]).flux, load(all[j]).header, transform)
  {
    StoreUpToKeys(all, i, load, key, transform, key(all[j]));
    if j < i - 1 {
      assert all[..i - 1] == all[..i][..i - 1];
      assert all[..i][j] == all[j] && all[..i][i - 1] == all[i - 1];
      StoreUpToValues(all, i - 1, load, key, transform, j);
    }
  }

  /** A loaded tuple whose name is already taken breaks distinctness. */
  lemma CollisionAt(all: seq<seq<real>>, i: nat, load: seq<real> -> RawLoad,
                    key: seq<real> -> string, transform: seq<real> -> seq<real>)
    requires i < |all| && load(all[i]).Loaded?
    requires key(all[i]) in StoreUpTo(all, i, load, key, transform)
    ensures !LoadedKeysDistinct(all, load, key)
  {
    StoreUpToKeys(all, i, load, key, transform, key(all[i]));
    var j :| 0 <= j < i && load(all[j]).Loaded? && key(all[j]) == key(all[i]);
  }

  /** Distinctness extends by one tuple when its name was not yet taken. */
  lemma DistinctStep(all: seq<seq<real>>, i: nat, load: seq<real> -> RawLoad,
                     key: seq<real> -> string, taken: set<string>)
    requires i < |all|
    requires LoadedKeysDistinct(all[..i], load, key)
    requires forall j :: 0 <= j < i && load(all[j]).Loaded? ==> key(all[j]) in taken
    requires load(all[i]).Loaded? ==> key(all[i]) !in taken
    ensures LoadedKeysDistinct(all[..i + 1], load, key)
  {
    var pre := all[..i + 1];
    forall j1, j2 | 0 <= j1 < j2 < |pre| && load(pre[j1]).Loaded? && load(pre[j2]).Loaded?
      ensures key(pre[j1]) != key(pre[j2])
    {
      assert pre[j1] == all[j1] && pre[j2] == all[j2];
    }
  }

  /** What the loop of `ProcessGrid` leaves behind, once it has walked every
      tuple without a collision, is a build. */
  lemma FinishBuild(a: Archive, c: Creator, load: seq<real> -> RawLoad,
                    key: seq<real> -> string, transform: seq<real> -> seq<real>, invalid: seq<int>)
    requires var all := CartesianProduct(c.points);
      && a.gridName == c.name && a.wl == c.wlFinal && a.air == c.air && a.dv == c.dvFinal
      && a.pars == Delete(all, invalid)
      && (forall j :: j in invalid <==> 0 <= j < |all| && load(all[j]).Missing?)
      && a.flux == StoreUpTo(all, |all|, load, key, transform)
      && LoadedKeysDistinct(all, load, key)
    ensures BuiltFrom(a, c, load, key, transform)
    ensures |a.pars| + |Filter(CartesianProduct(c.points), Fails(load))| == GridSize(c.points)
  {
    var all := CartesianProduct(c.points);
    assert all[..|all|] == all;
    DeleteIsFilter(all, invalid, Loads(load));
    FilterPartition(all, Loads(load), Fails(load));
    forall j | 0 <= j < |all| && load(all[j]).Loaded?
      ensures key(all[j]) in a.flux
      ensures a.flux[key(all[j])] == StoredEntry(load(all[j]).flux, load(all[j]).header, transform)
    {
      StoreUpToValues(all, |all|, load, key, transform, j);
    }
    forall n | n in a.flux
      ensures exists j :: 0 <= j < |all| && load(all[j]).Loaded? && key(all[j]) == n
    {
      StoreUpToKeys(all, |all|, load, key, transform, n);
    }
    StoreIsBuilt(a, c, load, key, transform);
  }

  /** The index-wise description of the finished loop is `BuiltFrom`. */
  lemma StoreIsBuilt(a: Archive, c: Creator, load: seq<real> -> RawLoad,
                     key: seq<real> -> string, transform: seq<real> -> seq<real>)
    requires var all := CartesianProduct(c.points);
      && a.gridName == c.name && a.wl == c.wlFinal && a.air == c.air && a.dv == c.dvFinal
      && a.pars == Filter(all, Loads(load))
      && (forall j :: 0 <= j < |all| && load(all[j]).Loaded? ==>
            key(all[j]) in a.flux &&
            a.flux[key(all[j])] == StoredEntry(load(all[j]).flux, load(all[j]).header, transform))
      && (forall n :: n in a.flux ==>
            exists j :: 0 <= j < |all| && load(all[j]).Loaded? && key(all[j]) == n)
    ensures BuiltFrom(a, c, load, key, transform)
  {
    var all := CartesianProduct(c.points);
    var names := set p | p in all && load(p).Loaded? :: key(p);
    forall n | n in a.flux
      ensures n in names
    {
      var j :| 0 <= j < |all| && load(all[j]).Loaded? && key(all[j]) == n;
      assert all[j] in all;
    }
    forall p | p in all && load(p).Loaded?
      ensures key(p) in a.flux
      ensures a.flux[key(p)] == StoredEntry(load(p).flux, load(p).header, transform)
    {
      var j :| 0 <= j < |all| && all[j] == p;
    }
  }

  /** With duplicate-free axes and a key format that tells grid tuples apart,
      the build never meets a taken dataset name. */
  lemma BuildNeverCollides(c: Creator, load: seq<real> -> RawLoad, key: seq<real> -> string)
    requires forall i :: 0 <= i < |c.points| ==> Distinct(c.points[i])
    requires InjectiveOn(CartesianProduct(c.points), key)
    ensures LoadedKeysDistinct(CartesianProduct(c.points), load, key)
  {
    ProductDistinct(c.points);
  }

  /** An opened archive (`HDF5Interface`). `ind`, when set, truncates every
      load to `flux[ind[0]:ind[1]]`. */
  datatype Reader = Reader(
    wl: seq<real>,
    dv: real,
    gridPoints: seq<seq<real>>,
    bounds: seq<(real, real)>,
    points: seq<seq<real>>,
    store: map<string, Entry>,
    ind: Option<(int, int)>)

  /** A matrix: every row as wide as the first. */
  predicate IsMatrix(rows: seq<seq<real>>) {
    forall r :: 0 <= r < |rows| ==> |rows[r]| == |rows[0]|
  }

  /** `HDF5Interface.load_flux`: the dataset stored under the tuple's name,
      sliced to `ind` with Python's slice rules when set (so an `ind`
      beyond the stored length is clipped, as h5py does). A name with no
      dataset raises `KeyError`. */
  function LoadFlux(rd: Reader, key: seq<real> -> string, parameters: seq<real>): (r: Result<Entry>)
    ensures r.Ok? <==> key(parameters) in rd.store
    ensures r.Err? ==> r.error == KeyNotFound(key(parameters))
    ensures r.Ok? ==> var stored := rd.store[key(parameters)];
      && r.value.attrs == stored.attrs
      && (rd.ind.None? ==> r.value.flux == stored.flux)
      && (rd.ind.Some? ==> r.value.flux == PySlice(stored.flux, rd.ind.value.0, rd.ind.value.1))
      && (rd.ind.Some? && 0 <= rd.ind.value.0 <= rd.ind.value.1 <= |stored.flux| ==>
            r.value.flux == stored.flux[rd.ind.value.0..rd.ind.value.1])
  {
    var name := key(parameters);
    if name !in rd.store then Err(KeyNotFound(name))
    else
      var stored := rd.store[name];
      match rd.ind
      case None => Ok(stored)
      case Some((lo, hi)) => Ok(Entry(PySlice(stored.flux, lo, hi), stored.attrs))
  }

  /** `(np.min, np.max)` of column `i`. */
  function ColumnBounds(rows: seq<seq<real>>, i: nat): (b: (real, real))
    requires |rows| > 0 && HasColumns(rows, i + 1)
    ensures b.0 in Column(rows, i) && b.1 in Column(rows, i)
    ensures forall row :: 0 <= row < |rows| ==> b.0 <= rows[row][i] <= b.1
  {
    var col := Column(rows, i);
    assert forall row :: 0 <= row < |rows| ==> rows[row][i] in col by {
      forall row | 0 <= row < |rows| ensures rows[row][i] in col {
        assert col[row] == rows[row][i];
      }
    }
    (SeqMin(col), SeqMax(col))
  }

  /** `np.unique` of column `i`. */
  function ColumnPoints(rows: seq<seq<real>>, i: nat): (u: seq<real>)
    requires HasColumns(rows, i + 1)
    ensures StrictlyIncreasing(u)
    ensures forall v :: v in u <==> v in Column(rows, i)
  {
    SortedUnique(Column(rows, i))
  }

  /** The reader's view before the trial load. */
  function Summarise(a: Archive): (rd: Reader)
    requires IsMatrix(a.pars) && |a.pars| > 0
    ensures |rd.bounds| == |a.pars[0]| && |rd.points| == |a.pars[0]|
    ensures HasColumns(a.pars, |a.pars[0]|)
    ensures forall i :: 0 <= i < |a.pars[0]| ==>
      rd.bounds[i] == ColumnBounds(a.pars, i) && rd.points[i] == ColumnPoints(a.pars, i)
    ensures rd.wl == a.wl && rd.dv == a.dv && rd.gridPoints == a.pars && rd.store == a.flux
    ensures rd.ind.None?
  {
    var width := |a.pars[0]|;
    assert HasColumns(a.pars, width);
    Reader(a.wl, a.dv, a.pars,
           seq(width, i requires 0 <= i < width => ColumnBounds(a.pars, i)),
           seq(width, i requires 0 <= i < width => ColumnPoints(a.pars, i)),
           a.flux, None)
  }

  /** `HDF5Interface.__init__`: per-column bounds and sorted unique values of
      `pars`, then a trial load of the first row (a failure there means the
      key format does not match the archive). `np.min` of an empty matrix
      raises before that. */
  function Open(a: Archive, key: seq<real> -> string): (r: Result<Reader>)
    requires IsMatrix(a.pars)
    ensures |a.pars| == 0 ==> r == Err(EmptyMatrix)
    ensures |a.pars| > 0 ==> (r.Ok? <==> key(a.pars[0]) in a.flux)
    ensures r.Err? && |a.pars| > 0 ==> r.error == BadKeyName
    ensures r.Ok? ==>
      var rd := r.value;
      && rd.wl == a.wl && rd.dv == a.dv && rd.gridPoints == a.pars && rd.store == a.flux
      && rd.ind.None?
      && |rd.bounds| == |a.pars[0]| && |rd.points| == |a.pars[0]|
      && HasColumns(a.pars, |a.pars[0]|)
      && forall i :: 0 <= i < |rd.bounds| ==>
           && rd.bounds[i].0 in Column(a.pars, i) && rd.bounds[i].1 in Column(a.pars, i)
           && (forall row :: 0 <= row < |a.pars| ==> rd.bounds[i].0 <= a.pars[row][i] <= rd.bounds[i].1)
           && StrictlyIncreasing(rd.points[i])
           && (forall v :: v in rd.points[i] <==> v in Column(a.pars, i))
  {
    if |a.pars| == 0 then Err(EmptyMatrix)
    else
      var rd := Summarise(a);
      if LoadFlux(rd, key, a.pars[0]).Err? then Err(BadKeyName) else Ok(rd)
  }

  /** `HDF5Interface.fluxes`: one flux per row of the parameter matrix, in
      row order; the first row whose dataset is missing raises. */
  method Fluxes(rd: Reader, key: seq<real> -> string) returns (r: Result<seq<seq<real>>>)
    ensures r.Ok? <==> forall i :: 0 <= i < |rd.gridPoints| ==> key(rd.gridPoints[i]) in rd.store
    ensures r.Ok? ==> |r.value| == |rd.gridPoints|
    ensures r.Ok? ==>
      forall i :: 0 <= i < |r.value| ==> r.value[i] == LoadFlux(rd, key, rd.gridPoints[i]).value.flux
    ensures r.Err? ==> exists i :: (0 <= i < |rd.gridPoints| &&
      key(rd.gridPoints[i]) !in rd.store &&
      r.error == KeyNotFound(key(rd.gridPoints[i])) &&
      forall j :: 0 <= j < i ==> key(rd.gridPoints[j]) in rd.store)
  {
    var out: seq<seq<real>> := [];
    var i := 0;
    while i < |rd.gridPoints|
      invariant 0 <= i <= |rd.gridPoints|
      invariant |out| == i
      invariant forall j :: 0 <= j < i ==> key(rd.gridPoints[j]) in rd.store
      invariant forall j :: 0 <= j < i ==> out[j] == LoadFlux(rd, key, rd.gridPoints[j]).value.flux
    {
      var loaded := LoadFlux(rd, key, rd.gridPoints[i]);
      if loaded.Err? {
        return Err(loaded.error);
      }
      out := out + [loaded.value.flux];
      i := i + 1;
    }
    return Ok(out);
  }

  /** Every stored row has one coordinate per axis. */
  lemma BuiltParsIsMatrix(a: Archive, c: Creator, load: seq<real> -> RawLoad,
                          key: seq<real> -> string, transform: seq<real> -> seq<real>)
    requires BuiltFrom(a, c, load, key, transform)
    ensures IsMatrix(a.pars)
    ensures forall r :: 0 <= r < |a.pars| ==> IsGridPoint(a.pars[r], c.points)
  {
    var all := CartesianProduct(c.points);
    forall r | 0 <= r < |a.pars|
      ensures IsGridPoint(a.pars[r], c.points)
    {
      assert a.pars[r] in a.pars;
      ProductMembers(c.points, a.pars[r]);
    }
  }

  /** The archive round trip: reading back a built archive with the key
      format the writer used returns, for every tuple of the grid, the
      transformed spectrum and kept header of a tuple that loaded, and
      `KeyError` for one that did not. */
  lemma RoundTrip(a: Archive, c: Creator, load: seq<real> -> RawLoad,
                  key: seq<real> -> string, transform: seq<real> -> seq<real>,
                  rd: Reader, p: seq<real>)
    requires BuiltFrom(a, c, load, key, transform)
    requires InjectiveOn(CartesianProduct(c.points), key)
    requires rd.store == a.flux && rd.ind.None?
    requires p in CartesianProduct(c.points)
    ensures load(p).Loaded? ==>
      LoadFlux(rd, key, p) == Ok(StoredEntry(load(p).flux, load(p).header, transform))
    ensures load(p).Missing? ==> LoadFlux(rd, key, p) == Err(KeyNotFound(key(p)))
  {
  }

  /** Excluded tuples are gone from both `pars` and the `flux` group; kept
      ones are in both. */
  lemma ExcludedPointsAbsent(a: Archive, c: Creator, load: seq<real> -> RawLoad,
                             key: seq<real> -> string, transform: seq<real> -> seq<real>,
                             p: seq<real>)
    requires BuiltFrom(a, c, load, key, transform)
    requires InjectiveOn(CartesianProduct(c.points), key)
    requires p in CartesianProduct(c.points)
    ensures p in a.pars <==> load(p).Loaded?
    ensures key(p) in a.flux <==> load(p).Loaded?
  {
  }

  /** A built archive with at least one stored row opens, and its reader
      yields one flux per row. */
  lemma BuiltArchiveOpens(a: Archive, c: Creator, load: seq<real> -> RawLoad,
                          key: seq<real> -> string, transform: seq<real> -> seq<real>)
    requires BuiltFrom(a, c, load, key, transform)
    requires |a.pars| > 0
    ensures IsMatrix(a.pars)
    ensures Open(a, key).Ok?
    ensures forall i :: 0 <= i < |a.pars| ==> key(a.pars[i]) in Open(a, key).value.store
  {
    BuiltParsIsMatrix(a, c, load, key, transform);
    var all := CartesianProduct(c.points);
    forall i | 0 <= i < |a.pars|
      ensures key(a.pars[i]) in a.flux
    {
      assert a.pars[i] in a.pars;
    }
  }
}
