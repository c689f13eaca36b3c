/** The layout of the SNOwGLoBES input files (write_fluxes.py): a key table
    relating file numbers to time bins, and one flux table per time bin in
    which the six physical neutrino flavours are filled from the three
    computed flavour classes. The text formatting of the files is not
    modelled; a table is its column names and its rows. */
module FluxFiles {
  import opened Numeric
  import opened Interpolation
  import opened TimeBinning
  import opened Fluence

  /** One row of the key table: 1-based file number, left edge of the
      time bin, and the bin width. */
  datatype KeyRow = KeyRow(index: nat, time: real, dt: real)

  /** Column headings of the key table. */
  const KeyColumns: seq<string> := ["i", "time[s]", "dt[s]"]

  /** get_key_table: one row per time bin, numbered from 1. */
  function GetKeyTable(timebins: seq<real>, dt: real): (r: seq<KeyRow>)
    ensures |r| == |timebins|
  {
    seq(|timebins|, i requires 0 <= i < |timebins| => KeyRow(i + 1, timebins[i], dt))
  }

  /** The physical flavours in column order, each with the computed class
      (e = nu_e, a = nu_ebar, x = heavy-lepton) whose fluence it takes. */
  const FlavorMap: seq<(string, string)> :=
    [("e", "e"), ("mu", "x"), ("tau", "x"), ("ebar", "a"), ("mubar", "x"), ("taubar", "x")]

  /** Column headings of a flux table: the energy bin, then the flavours. */
  const FluxColumns: seq<string> := ["E_nu", "e", "mu", "tau", "ebar", "mubar", "taubar"]

  /** The fluences of every computed class hold a row for time bin
      `timeI`, one entry per energy bin. */
  ghost predicate HasTimeRow(fluxes: map<string, seq<seq<real>>>, timeI: nat, nE: nat) {
    forall c :: c in {"e", "a", "x"} ==>
      c in fluxes && timeI < |fluxes[c]| && |fluxes[c][timeI]| == nE
  }

  /** get_flux_table: one row per energy bin holding the bin energy followed
      by the six flavour fluences of time bin `timeI`. */
  function GetFluxTable(timeI: nat, eBins: seq<real>, fluxes: map<string, seq<seq<real>>>): (r: seq<seq<real>>)
    requires HasTimeRow(fluxes, timeI, |eBins|)
    ensures |r| == |eBins|
    ensures Rectangular(r, |FluxColumns|)
  {
    seq(|eBins|, k requires 0 <= k < |eBins| =>
      [eBins[k]] + seq(|FlavorMap|, c requires 0 <= c < |FlavorMap| => fluxes[FlavorMap[c].1][timeI][k]))
  }

  /** The two files write_fluxes produces, as data: the key table and the
      numbered flux tables. */
  datatype FluxFile = FluxFile(number: nat, rows: seq<seq<real>>)
  datatype FluxOutput = FluxOutput(key: seq<KeyRow>, files: seq<FluxFile>)

  /** write_fluxes without the file system: the bin width is the first
      difference of the time bins, which fails with fewer than two bins
      before anything is written, and the flux file of bin i is numbered
      i + 1. */
  function WriteFluxes(timebins: seq<real>, eBins: seq<real>, fluxes: map<string, seq<seq<real>>>)
    : (r: Result<FluxOutput, ShapeError>)
    requires 2 <= |timebins| ==> forall i :: 0 <= i < |timebins| ==> HasTimeRow(fluxes, i, |eBins|)
    ensures r.Failure? <==> |timebins| < 2
    ensures r.Failure? ==> r.error == NoBinWidth
    ensures r.Success? ==> |r.value.key| == |r.value.files| == |timebins|
  {
    if |timebins| < 2 then Failure(NoBinWidth)
    else
      Success(FluxOutput(
        GetKeyTable(timebins, BinWidth(timebins)),
        seq(|timebins|, i requires 0 <= i < |timebins| => FluxFile(i + 1, GetFluxTable(i, eBins, fluxes)))))
  }

  // ---------------------------------------------------------------------
  // Key table
  // ---------------------------------------------------------------------

  /** The key table's index column is 1..n, its time column is `timebins`
      and its dt column is the same value on every row. */
  lemma {:induction false} KeyTableColumns(timebins: seq<real>, dt: real)
    ensures var r := GetKeyTable(timebins, dt);
      && (forall i :: 0 <= i < |r| ==> r[i].index == i + 1)
      && seq(|r|, i requires 0 <= i < |r| => r[i].time) == timebins
      && (forall i :: 0 <= i < |r| ==> r[i].dt == dt)
  {
  }

  /** The key table read backwards: the number of the file whose time bin
      starts at `t`, if there is one. */
  function FileForTime(key: seq<KeyRow>, t: real): (r: Option<nat>)
    ensures r.Some? <==> exists i :: 0 <= i < |key| && key[i].time == t
    ensures r.Some? ==> exists i :: 0 <= i < |key| && key[i].time == t && key[i].index == r.value
  {
    if |key| == 0 then None
    else if key[0].time == t then Some(key[0].index)
    else
      var rest := FileForTime(key[1..], t);
      assert forall i :: 0 < i < |key| ==> key[i] == key[1..][i - 1];
      rest
  }

  /** Looking up the left edge of bin i in the key table finds file i + 1:
      on strictly increasing time bins the key table is a bijection between
      bin edges and file numbers. */
  lemma {:induction false} KeyTableLookup(timebins: seq<real>, dt: real, i: nat)
    requires StrictlyIncreasing(timebins)
    requires i < |timebins|
    ensures FileForTime(GetKeyTable(timebins, dt), timebins[i]) == Some(i + 1)
  {
    var key := GetKeyTable(timebins, dt);
    forall j | 0 <= j < |key| && j != i
      ensures key[j].time != key[i].time
    {
      if j < i {
        assert timebins[j] < timebins[i];
      } else {
        assert timebins[i] < timebins[j];
      }
    }
    FileForTimeUnique(key, i);
  }

  /** A time that starts exactly one row is found at that row. */
  lemma {:induction false} FileForTimeUnique(key: seq<KeyRow>, i: nat)
    requires i < |key|
    requires forall j :: 0 <= j < |key| && j != i ==> key[j].time != key[i].time
    ensures FileForTime(key, key[i].time) == Some(key[i].index)
    decreases |key|
  {
    if i > 0 {
      FileForTimeUnique(key[1..], i - 1);
    }
  }

  // ---------------------------------------------------------------------
  // Flux tables
  // ---------------------------------------------------------------------

  /** The flavour class of the physical flavour in flux-table column c
      (1-based among the flavour columns). */
  function ClassOfColumn(c: nat): (r: string)
    requires 1 <= c < |FluxColumns|
    ensures r in {"e", "a", "x"}
  {
    FlavorMap[c - 1].1
  }

  /** The flavour columns are named in the order of the flavour map, and
      nu_e and nu_ebar take their own class while the four heavy-lepton
      flavours all take class x. */
  lemma FlavorMapShape()
    ensures forall c :: 1 <= c < |FluxColumns| ==> FluxColumns[c] == FlavorMap[c - 1].0
    ensures ClassOfColumn(1) == "e" && ClassOfColumn(4) == "a"
    ensures forall c :: c in {2, 3, 5, 6} ==> ClassOfColumn(c) == "x"
    ensures (set c | 1 <= c < |FluxColumns| :: ClassOfColumn(c)) == {"e", "a", "x"}
  {
    assert ClassOfColumn(1) == "e" && ClassOfColumn(4) == "a" && ClassOfColumn(2) == "x";
  }

  /** Reading a flux table back column by column: column 0 is the energy
      grid and flavour column c is the time-bin row of its class. */
  lemma {:induction false} FluxTableColumns(timeI: nat, eBins: seq<real>, fluxes: map<string, seq<seq<real>>>)
    requires HasTimeRow(fluxes, timeI, |eBins|)
    ensures var r := GetFluxTable(timeI, eBins, fluxes);
      && Column(r, 0) == eBins
      && forall c :: 1 <= c < |FluxColumns| ==> Column(r, c) == fluxes[ClassOfColumn(c)][timeI]
  {
    var r := GetFluxTable(timeI, eBins, fluxes);
    assert Column(r, 0) == eBins;
    forall c | 1 <= c < |FluxColumns|
      ensures Column(r, c) == fluxes[ClassOfColumn(c)][timeI]
    {
      var col := Column(r, c);
      forall k | 0 <= k < |eBins|
        ensures col[k] == fluxes[ClassOfColumn(c)][timeI][k]
      {
      }
    }
  }

  /** mu, tau, mubar and taubar receive identical columns. */
  lemma {:induction false} HeavyFlavorsAgree(timeI: nat, eBins: seq<real>, fluxes: map<string, seq<seq<real>>>, k: nat)
    requires HasTimeRow(fluxes, timeI, |eBins|)
    requires k < |eBins|
    ensures var row := GetFluxTable(timeI, eBins, fluxes)[k];
      row[2] == row[3] == row[5] == row[6] == fluxes["x"][timeI][k]
  {
  }

  // ---------------------------------------------------------------------
  // The written files
  // ---------------------------------------------------------------------

  /** The flux file of bin i carries the number the key table gives bin i,
      and holds that bin's flux table. */
  lemma {:induction false} WriteFluxesNumbering(timebins: seq<real>, eBins: seq<real>,
                             fluxes: map<string, seq<seq<real>>>, i: nat)
    requires 2 <= |timebins|
    requires forall i :: 0 <= i < |timebins| ==> HasTimeRow(fluxes, i, |eBins|)
    requires i < |timebins|
    ensures WriteFluxes(timebins, eBins, fluxes).Success?
    ensures var out := WriteFluxes(timebins, eBins, fluxes).value;
      && out.files[i].number == out.key[i].index == i + 1
      && out.key[i].time == timebins[i]
      && out.key[i].dt == timebins[1] - timebins[0]
      && out.files[i].rows == GetFluxTable(i, eBins, fluxes)
  {
  }

  /** Fluences that get_fluences computes always satisfy what get_flux_table
      looks up: the three classes are present, and each has a row of
      n_ebins entries for every time bin, so no lookup can fail and
      write_fluxes succeeds on the same time bins. */
  lemma {:induction false} FluencesFeedFluxTables(time: seq<real>, lum: seq<seq<real>>, avg: seq<seq<real>>,
                               rms: seq<seq<real>>, timebins: seq<real>, eBins: seq<real>,
                               binFluence: (BinSlice, seq<real>, nat, nat) -> real)
    requires ValidFluenceInput(time, lum, avg, rms, timebins)
    requires GetFluences(time, lum, avg, rms, timebins, eBins, binFluence).Success?
    ensures var f := GetFluences(time, lum, avg, rms, timebins, eBins, binFluence).value;
      && (forall i :: 0 <= i < |timebins| ==> HasTimeRow(f, i, |eBins|))
      && WriteFluxes(timebins, eBins, f).Success?
  {
  }
}
