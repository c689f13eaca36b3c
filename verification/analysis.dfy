/** Aggregation of the detector's per-channel event counts
    (flash2snowglobes/analysis.py): channels are summed per energy bin into
    named groups and a running `Total`, each group gets a total count and a
    count-weighted mean energy, and the results are laid out as tables with
    a fixed column order. Python dictionaries are Dafny maps; where their
    insertion order is observable it is carried as an explicit key
    sequence. Reading the detector output files is not modelled: the
    per-timestep channel counts and the raw energy grid are inputs. */
module Analysis {
  import opened Numeric
  import opened Text

  /** A named group of detector channels (one entry of channel_groups). */
  datatype Group = Group(name: string, channels: seq<string>)

  /** The key under which all groups are accumulated. */
  const TotalKey: string := "Total"

  function Names(groups: seq<Group>): (r: seq<string>)
    ensures |r| == |groups|
    ensures forall i :: 0 <= i < |groups| ==> r[i] == groups[i].name
  {
    seq(|groups|, i requires 0 <= i < |groups| => groups[i].name)
  }

  /** Group names are dictionary keys, hence distinct. */
  ghost predicate DistinctNames(groups: seq<Group>) {
    forall i, j :: 0 <= i < j < |groups| ==> groups[i].name != groups[j].name
  }

  /** No group uses the reserved name `Total`. */
  ghost predicate NoTotalGroup(groups: seq<Group>) {
    forall i :: 0 <= i < |groups| ==> groups[i].name != TotalKey
  }

  // ---------------------------------------------------------------------
  // Channel lists
  // ---------------------------------------------------------------------

  /** get_all_channels: the groups' channel lists concatenated in group
      order (duplicates kept). */
  function GetAllChannels(groups: seq<Group>): (r: seq<string>)
    ensures forall c :: c in r <==> exists i :: 0 <= i < |groups| && c in groups[i].channels
  {
    if |groups| == 0 then []
    else
      var n := |groups| - 1;
      var prev := GetAllChannels(groups[..n]);
      assert forall i :: 0 <= i < n ==> groups[..n][i] == groups[i];
      prev + groups[n].channels
  }

  /** Number of channels listed by the first i groups. */
  function Offset(groups: seq<Group>, i: nat): nat
    requires i <= |groups|
  {
    if i == 0 then 0 else Offset(groups, i - 1) + |groups[i - 1].channels|
  }

  lemma {:induction false} OffsetPrefix(groups: seq<Group>, n: nat, i: nat)
    requires i <= n <= |groups|
    ensures Offset(groups[..n], i) == Offset(groups, i)
  {
    if i > 0 {
      OffsetPrefix(groups, n, i - 1);
    }
  }

  lemma {:induction false} OffsetMonotone(groups: seq<Group>, i: nat, j: nat)
    requires i <= j <= |groups|
    ensures Offset(groups, i) <= Offset(groups, j)
  {
    if i < j {
      OffsetMonotone(groups, i, j - 1);
    }
  }

  /** The concatenated list has one entry per listed channel. */
  lemma {:induction false} AllChannelsLength(groups: seq<Group>)
    ensures |GetAllChannels(groups)| == Offset(groups, |groups|)
    decreases |groups|
  {
    if |groups| > 0 {
      var n := |groups| - 1;
      AllChannelsLength(groups[..n]);
      OffsetPrefix(groups, n, n);
    }
  }

  /** The concatenated list is empty exactly when every group is. */
  lemma {:induction false} AllChannelsEmpty(groups: seq<Group>)
    ensures |GetAllChannels(groups)| == 0 <==> forall g :: 0 <= g < |groups| ==> |groups[g].channels| == 0
  {
    var all := GetAllChannels(groups);
    if exists g :: 0 <= g < |groups| && |groups[g].channels| > 0 {
      var g :| 0 <= g < |groups| && |groups[g].channels| > 0;
      assert groups[g].channels[0] in all;
    }
    if |all| > 0 {
      assert all[0] in all;
    }
  }

  /** Channel j of group i sits at position Offset(i) + j of the
      concatenated list. */
  lemma {:induction false} AllChannelsIndex(groups: seq<Group>, i: nat, j: nat)
    requires i < |groups| && j < |groups[i].channels|
    ensures Offset(groups, i) + j < |GetAllChannels(groups)|
    ensures GetAllChannels(groups)[Offset(groups, i) + j] == groups[i].channels[j]
    decreases |groups|
  {
    var n := |groups| - 1;
    var prev := GetAllChannels(groups[..n]);
    AllChannelsLength(groups);
    AllChannelsLength(groups[..n]);
    OffsetPrefix(groups, n, n);
    OffsetMonotone(groups, i + 1, n + 1);
    if i < n {
      assert groups[..n][i] == groups[i];
      AllChannelsIndex(groups[..n], i, j);
      OffsetPrefix(groups, n, i);
      OffsetMonotone(groups, i + 1, n);
    }
  }

  // ---------------------------------------------------------------------
  // Group counts
  // ---------------------------------------------------------------------

  /** Every listed channel has a count array of n_bins entries. */
  ghost predicate CoversChannels(counts: map<string, seq<real>>, chans: seq<string>, nBins: nat) {
    forall c :: c in chans ==> c in counts && |counts[c]| == nBins
  }

  ghost predicate CoversGroups(counts: map<string, seq<real>>, groups: seq<Group>, nBins: nat) {
    forall i :: 0 <= i < |groups| ==> CoversChannels(counts, groups[i].channels, nBins)
  }

  /** The count arrays of the listed channels, in listed order. */
  function ChannelRows(counts: map<string, seq<real>>, chans: seq<string>, nBins: nat): (r: seq<seq<real>>)
    requires CoversChannels(counts, chans, nBins)
    ensures |r| == |chans| && Rectangular(r, nBins)
  {
    seq(|chans|, i requires 0 <= i < |chans| => counts[chans[i]])
  }

  /** `counts = np.zeros(n_bins)` followed by `counts += channel_counts[chan]`
      for every listed channel. */
  function GroupSum(counts: map<string, seq<real>>, chans: seq<string>, nBins: nat): (r: seq<real>)
    requires CoversChannels(counts, chans, nBins)
    ensures |r| == nBins
  {
    SumArrays(ChannelRows(counts, chans, nBins), nBins)
  }

  /** get_group_counts: for each group in order, its channel sum is added
      to `Total` and then stored under the group's name. A group named
      `Total` would overwrite the running total; the map update reproduces
      that. */
  function GetGroupCounts(counts: map<string, seq<real>>, groups: seq<Group>, nBins: nat): (r: map<string, seq<real>>)
    requires CoversGroups(counts, groups, nBins)
    ensures forall k :: k in r <==> k == TotalKey || k in Names(groups)
    ensures forall k :: k in r ==> |r[k]| == nBins
    decreases |groups|
  {
    if |groups| == 0 then map[TotalKey := Zeros(nBins)]
    else
      var n := |groups| - 1;
      assert forall i :: 0 <= i < n ==> groups[..n][i] == groups[i];
      var prev := GetGroupCounts(counts, groups[..n], nBins);
      var sum := GroupSum(counts, groups[n].channels, nBins);
      prev[TotalKey := Add(prev[TotalKey], sum)][groups[n].name := sum]
  }

  /** Each group's channel sum, in group order. */
  function GroupSums(counts: map<string, seq<real>>, groups: seq<Group>, nBins: nat): (r: seq<seq<real>>)
    requires CoversGroups(counts, groups, nBins)
    ensures |r| == |groups| && Rectangular(r, nBins)
  {
    seq(|groups|, i requires 0 <= i < |groups| => GroupSum(counts, groups[i].channels, nBins))
  }

  /** Entry e of a group's array is the sum of entry e over its channels. */
  lemma {:induction false} GroupSumEntry(counts: map<string, seq<real>>, chans: seq<string>, nBins: nat, e: nat)
    requires CoversChannels(counts, chans, nBins)
    requires e < nBins
    ensures GroupSum(counts, chans, nBins)[e] == Sum(seq(|chans|, i requires 0 <= i < |chans| => counts[chans[i]][e]))
  {
    var rows := ChannelRows(counts, chans, nBins);
    SumArraysEntry(rows, nBins, e);
    assert Column(rows, e) == seq(|chans|, i requires 0 <= i < |chans| => counts[chans[i]][e]);
  }

  /** One step of get_group_counts' loop, and the facts its prefix keeps. */
  lemma {:induction false} GroupCountsUnfold(counts: map<string, seq<real>>, groups: seq<Group>, nBins: nat)
    requires CoversGroups(counts, groups, nBins)
    requires 0 < |groups|
    ensures var n := |groups| - 1;
      && CoversGroups(counts, groups[..n], nBins)
      && (DistinctNames(groups) ==> DistinctNames(groups[..n]))
      && (NoTotalGroup(groups) ==> NoTotalGroup(groups[..n]))
      && var prev := GetGroupCounts(counts, groups[..n], nBins);
         var sum := GroupSum(counts, groups[n].channels, nBins);
         GetGroupCounts(counts, groups, nBins) == prev[TotalKey := Add(prev[TotalKey], sum)][groups[n].name := sum]
  {
    var n := |groups| - 1;
    assert forall i :: 0 <= i < n ==> groups[..n][i] == groups[i];
  }

  /** Every group's entry is the element-wise sum of its own channels. */
  lemma {:induction false} GroupCountsOfGroup(counts: map<string, seq<real>>, groups: seq<Group>, nBins: nat, i: nat)
    requires CoversGroups(counts, groups, nBins)
    requires DistinctNames(groups) && NoTotalGroup(groups)
    requires i < |groups|
    ensures GetGroupCounts(counts, groups, nBins)[groups[i].name] == GroupSum(counts, groups[i].channels, nBins)
    decreases |groups|
  {
    var n := |groups| - 1;
    GroupCountsUnfold(counts, groups, nBins);
    if i < n {
      GroupCountsOfGroup(counts, groups[..n], nBins, i);
      assert groups[..n][i] == groups[i];
      assert groups[i].name != groups[n].name && groups[i].name != TotalKey;
    }
  }

  /** With no group named `Total`, the `Total` entry is the element-wise sum
      of the group arrays. */
  lemma {:induction false} GroupCountsTotal(counts: map<string, seq<real>>, groups: seq<Group>, nBins: nat)
    requires CoversGroups(counts, groups, nBins)
    requires NoTotalGroup(groups)
    ensures GetGroupCounts(counts, groups, nBins)[TotalKey] == SumArrays(GroupSums(counts, groups, nBins), nBins)
    decreases |groups|
  {
    if |groups| == 0 {
      assert GroupSums(counts, groups, nBins) == [];
    } else {
      var n := |groups| - 1;
      GroupsPrefix(counts, groups, nBins, n);
      GroupCountsTotal(counts, groups[..n], nBins);
      GroupCountsTotalStep(counts, groups, nBins);
    }
  }

  /** A prefix of the groups keeps the facts the group lemmas require. */
  lemma {:induction false} GroupsPrefix(counts: map<string, seq<real>>, groups: seq<Group>, nBins: nat, n: nat)
    requires n <= |groups|
    ensures CoversGroups(counts, groups, nBins) ==> CoversGroups(counts, groups[..n], nBins)
    ensures NoTotalGroup(groups) ==> NoTotalGroup(groups[..n])
    ensures DistinctNames(groups) ==> DistinctNames(groups[..n])
  {
    assert forall i :: 0 <= i < n ==> groups[..n][i] == groups[i];
  }

  /** The inductive step of GroupCountsTotal: adding the last group adds its
      array to both sides. */
  lemma {:induction false} GroupCountsTotalStep(counts: map<string, seq<real>>, groups: seq<Group>, nBins: nat)
    requires CoversGroups(counts, groups, nBins)
    requires NoTotalGroup(groups)
    requires 0 < |groups|
    requires CoversGroups(counts, groups[..|groups| - 1], nBins)
    requires GetGroupCounts(counts, groups[..|groups| - 1], nBins)[TotalKey]
          == SumArrays(GroupSums(counts, groups[..|groups| - 1], nBins), nBins)
    ensures GetGroupCounts(counts, groups, nBins)[TotalKey] == SumArrays(GroupSums(counts, groups, nBins), nBins)
  {
    var n := |groups| - 1;
    var rows := GroupSums(counts, groups, nBins);
    var prev := GetGroupCounts(counts, groups[..n], nBins);
    assert GetGroupCounts(counts, groups, nBins)[TotalKey] == Add(prev[TotalKey], rows[n]) by {
      GroupCountsUnfold(counts, groups, nBins);
      assert groups[n].name != TotalKey;
    }
    assert prev[TotalKey] == SumArrays(rows[..n], nBins) by {
      GroupSumsPrefix(counts, groups, nBins, n);
    }
    assert SumArrays(rows, nBins) == Add(SumArrays(rows[..n], nBins), rows[n]);
  }

  /** The group arrays of a prefix of the groups are a prefix of the group
      arrays. */
  lemma {:induction false} GroupSumsPrefix(counts: map<string, seq<real>>, groups: seq<Group>, nBins: nat, n: nat)
    requires CoversGroups(counts, groups, nBins)
    requires n <= |groups|
    ensures CoversGroups(counts, groups[..n], nBins)
    ensures GroupSums(counts, groups[..n], nBins) == GroupSums(counts, groups, nBins)[..n]
  {
    assert forall i :: 0 <= i < n ==> groups[..n][i] == groups[i];
  }

  lemma {:induction false} AllChannelsCovered(counts: map<string, seq<real>>, groups: seq<Group>, nBins: nat)
    requires CoversGroups(counts, groups, nBins)
    ensures CoversChannels(counts, GetAllChannels(groups), nBins)
  {
  }

  lemma {:induction false} ChannelRowsConcat(counts: map<string, seq<real>>, a: seq<string>, b: seq<string>, nBins: nat)
    requires CoversChannels(counts, a, nBins) && CoversChannels(counts, b, nBins)
    ensures CoversChannels(counts, a + b, nBins)
    ensures ChannelRows(counts, a + b, nBins) == ChannelRows(counts, a, nBins) + ChannelRows(counts, b, nBins)
  {
  }

  /** `Total` counts every listed channel once per listing: it is the sum of
      the concatenated channel list, so a channel in two groups counts
      twice. */
  lemma {:induction false} TotalOverAllChannels(counts: map<string, seq<real>>, groups: seq<Group>, nBins: nat)
    requires CoversGroups(counts, groups, nBins)
    requires NoTotalGroup(groups)
    ensures CoversChannels(counts, GetAllChannels(groups), nBins)
    ensures GetGroupCounts(counts, groups, nBins)[TotalKey] == GroupSum(counts, GetAllChannels(groups), nBins)
    decreases |groups|
  {
    AllChannelsCovered(counts, groups, nBins);
    if |groups| == 0 {
    } else {
      var n := |groups| - 1;
      var g := groups[..n];
      GroupCountsUnfold(counts, groups, nBins);
      TotalOverAllChannels(counts, g, nBins);
      AllChannelsCovered(counts, g, nBins);
      var a := ChannelRows(counts, GetAllChannels(g), nBins);
      var b := ChannelRows(counts, groups[n].channels, nBins);
      assert GetAllChannels(groups) == GetAllChannels(g) + groups[n].channels;
      ChannelRowsConcat(counts, GetAllChannels(g), groups[n].channels, nBins);
      SumArraysConcat(a, b, nBins);
    }
  }

  // ---------------------------------------------------------------------
  // Totals and mean energies
  // ---------------------------------------------------------------------

  /** get_totals: every array summed over its energy bins; non-negative
      counts give a non-negative total. */
  function GetTotals(groupCounts: map<string, seq<real>>): (r: map<string, real>)
    ensures r.Keys == groupCounts.Keys
    ensures forall k :: k in r && AllNonNegative(groupCounts[k]) ==> 0.0 <= r[k]
  {
    assert forall k :: k in groupCounts && AllNonNegative(groupCounts[k]) ==> 0.0 <= Sum(groupCounts[k]) by {
      forall k | k in groupCounts && AllNonNegative(groupCounts[k])
        ensures 0.0 <= Sum(groupCounts[k])
      {
        SumNonNegative(groupCounts[k]);
      }
    }
    map k | k in groupCounts :: Sum(groupCounts[k])
  }

  lemma {:induction false} TotalsEntry(groupCounts: map<string, seq<real>>, k: string)
    requires k in groupCounts
    ensures GetTotals(groupCounts)[k] == Sum(groupCounts[k])
  {
  }

  /** The `Total` total equals the sum of the group totals (no group named
      `Total`, distinct names). */
  lemma {:induction false} TotalOfTotals(counts: map<string, seq<real>>, groups: seq<Group>, nBins: nat)
    requires CoversGroups(counts, groups, nBins)
    requires DistinctNames(groups) && NoTotalGroup(groups)
    ensures var t := GetTotals(GetGroupCounts(counts, groups, nBins));
      t[TotalKey] == Sum(seq(|groups|, i requires 0 <= i < |groups| => t[groups[i].name]))
  {
    var t := GetTotals(GetGroupCounts(counts, groups, nBins));
    var rows := GroupSums(counts, groups, nBins);
    GroupCountsTotal(counts, groups, nBins);
    TotalsEntry(GetGroupCounts(counts, groups, nBins), TotalKey);
    SumOfSumArrays(rows, nBins);
    RowSumsAreTotals(counts, groups, nBins);
    SumExtensional(RowSums(rows), seq(|groups|, i requires 0 <= i < |groups| => t[groups[i].name]));
  }

  lemma {:induction false} RowSumsAreTotals(counts: map<string, seq<real>>, groups: seq<Group>, nBins: nat)
    requires CoversGroups(counts, groups, nBins)
    requires DistinctNames(groups) && NoTotalGroup(groups)
    ensures var t := GetTotals(GetGroupCounts(counts, groups, nBins));
      forall i :: 0 <= i < |groups| ==> RowSums(GroupSums(counts, groups, nBins))[i] == t[groups[i].name]
  {
    var gc := GetGroupCounts(counts, groups, nBins);
    forall i | 0 <= i < |groups|
      ensures RowSums(GroupSums(counts, groups, nBins))[i] == GetTotals(gc)[groups[i].name]
    {
      GroupCountsOfGroup(counts, groups, nBins, i);
      TotalsEntry(gc, groups[i].name);
    }
  }

  /** The mean energy of one group: the count-weighted energy sum over the
      total, or exactly 0 when the total is 0. */
  function AvgOf(weighted: real, total: real): (r: real)
    ensures total == 0.0 ==> r == 0.0
  {
    if total != 0.0 then weighted / total else 0.0
  }

  /** For a non-zero total, the mean times the total gives back the
      weighted sum. */
  lemma AvgTimesTotal(weighted: real, total: real)
    requires total != 0.0
    ensures AvgOf(weighted, total) * total == weighted
  {
  }

  /** get_avg: one mean energy per key of `groupTotals`. */
  function GetAvg(groupCounts: map<string, seq<real>>, groupTotals: map<string, real>,
                  energyBins: seq<real>): (r: map<string, real>)
    requires forall k :: k in groupTotals ==> k in groupCounts && |groupCounts[k]| == |energyBins|
    ensures r.Keys == groupTotals.Keys
    ensures forall k :: k in r && groupTotals[k] == 0.0 ==> r[k] == 0.0
  {
    map k | k in groupTotals :: AvgOf(Dot(groupCounts[k], energyBins), groupTotals[k])
  }

  /** A weighted sum that is c times the total averages to c. */
  lemma AvgOfScaled(weighted: real, total: real, c: real)
    requires total != 0.0
    requires weighted == Times(c, total)
    ensures AvgOf(weighted, total) == c
  {
  }

  /** A weighted sum between lo and hi times a positive total averages to
      a value between lo and hi. */
  lemma AvgBounds(weighted: real, total: real, lo: real, hi: real)
    requires 0.0 < total
    requires Times(lo, total) <= weighted <= Times(hi, total)
    ensures lo <= AvgOf(weighted, total) <= hi
  {
  }

  /** With non-negative counts and a non-zero total, the mean energy lies
      within the energy range of the bins. */
  lemma {:induction false} AvgWithinEnergyRange(counts: seq<real>, energyBins: seq<real>, lo: real, hi: real)
    requires |counts| == |energyBins|
    requires AllNonNegative(counts)
    requires forall i :: 0 <= i < |energyBins| ==> lo <= energyBins[i] <= hi
    requires Sum(counts) != 0.0
    ensures lo <= AvgOf(Dot(counts, energyBins), Sum(counts)) <= hi
  {
    WeightedEnergyBounds(counts, energyBins, lo, hi);
    AvgBounds(Dot(counts, energyBins), Sum(counts), lo, hi);
  }

  lemma {:induction false} WeightedEnergyBounds(counts: seq<real>, energyBins: seq<real>, lo: real, hi: real)
    requires |counts| == |energyBins|
    requires AllNonNegative(counts)
    requires forall i :: 0 <= i < |energyBins| ==> lo <= energyBins[i] <= hi
    ensures 0.0 <= Sum(counts)
    ensures Times(lo, Sum(counts)) <= Dot(counts, energyBins) <= Times(hi, Sum(counts))
  {
    SumNonNegative(counts);
    DotBounds(energyBins, counts, lo, hi);
    DotCommutes(counts, energyBins);
  }

  /** When every bin has the same energy the mean is that energy. */
  lemma {:induction false} AvgOfConstantEnergy(counts: seq<real>, energyBins: seq<real>, c: real)
    requires |counts| == |energyBins|
    requires forall i :: 0 <= i < |energyBins| ==> energyBins[i] == c
    requires Sum(counts) != 0.0
    ensures AvgOf(Dot(counts, energyBins), Sum(counts)) == c
  {
    WeightedConstantEnergy(counts, energyBins, c);
    AvgOfScaled(Dot(counts, energyBins), Sum(counts), c);
  }

  lemma {:induction false} WeightedConstantEnergy(counts: seq<real>, energyBins: seq<real>, c: real)
    requires |counts| == |energyBins|
    requires forall i :: 0 <= i < |energyBins| ==> energyBins[i] == c
    ensures Dot(counts, energyBins) == Times(c, Sum(counts))
  {
    DotConstant(energyBins, counts, c);
    DotCommutes(counts, energyBins);
  }

  lemma {:induction false} DotCommutes(a: seq<real>, b: seq<real>)
    requires |a| == |b|
    ensures Dot(a, b) == Dot(b, a)
  {
    assert Mul(a, b) == Mul(b, a);
  }

  /** Group counts, totals and mean energies all carry exactly the keys
      `Total` and the group names. */
  lemma {:induction false} KeySetsAgree(counts: map<string, seq<real>>, groups: seq<Group>, nBins: nat, energyBins: seq<real>)
    requires CoversGroups(counts, groups, nBins)
    requires |energyBins| == nBins
    ensures var gc := GetGroupCounts(counts, groups, nBins);
      && GetTotals(gc).Keys == gc.Keys
      && GetAvg(gc, GetTotals(gc), energyBins).Keys == {TotalKey} + (set i | 0 <= i < |groups| :: groups[i].name)
  {
  }

  // ---------------------------------------------------------------------
  // Energy grid
  // ---------------------------------------------------------------------

  const MeVPerGeV: real := 1000.0

  /** load_energy_bins: the grid read in GeV, returned in MeV. */
  function ScaleEnergyBins(raw: seq<real>): (r: seq<real>)
    ensures |r| == |raw|
    ensures forall i :: 0 <= i < |raw| ==> r[i] / MeVPerGeV == raw[i]
  {
    seq(|raw|, i requires 0 <= i < |raw| => raw[i] * MeVPerGeV)
  }

  /** A mean energy read against the MeV grid is 1000 times the one read
      against the GeV grid the file holds. */
  lemma {:induction false} MeanEnergyInMeV(counts: seq<real>, raw: seq<real>)
    requires |counts| == |raw|
    ensures AvgOf(Dot(counts, ScaleEnergyBins(raw)), Sum(counts))
         == MeVPerGeV * AvgOf(Dot(counts, raw), Sum(counts))
  {
    var m := Mul(counts, ScaleEnergyBins(raw));
    var g := Mul(counts, raw);
    forall i | 0 <= i < |g|
      ensures g[i] == m[i] / MeVPerGeV
    {
      ScaledEntry(counts, raw, i);
    }
    SumDivide(m, g, MeVPerGeV);
    AvgOfRescaled(Sum(m), Sum(counts));
  }

  lemma {:induction false} ScaledEntry(counts: seq<real>, raw: seq<real>, i: nat)
    requires |counts| == |raw| && i < |raw|
    ensures Mul(counts, raw)[i] == Mul(counts, ScaleEnergyBins(raw))[i] / MeVPerGeV
  {
    var scaled := ScaleEnergyBins(raw);
    ScaledProduct(counts[i], raw[i], scaled[i], Mul(counts, scaled)[i]);
  }

  lemma ScaledProduct(c: real, e: real, scaled: real, product: real)
    requires scaled / MeVPerGeV == e
    requires product == c * scaled
    ensures c * e == product / MeVPerGeV
  {
  }

  lemma AvgOfRescaled(x: real, total: real)
    ensures AvgOf(x, total) == MeVPerGeV * AvgOf(x / MeVPerGeV, total)
  {
    if total != 0.0 {
      assert (x / MeVPerGeV) / total == (x / total) / MeVPerGeV;
    }
  }

  /** Scaling keeps the grid's order. */
  lemma {:induction false} ScaleKeepsOrder(raw: seq<real>)
    requires StrictlyIncreasing(raw)
    ensures StrictlyIncreasing(ScaleEnergyBins(raw))
  {
  }

  // ---------------------------------------------------------------------
  // Tables and text lines
  // ---------------------------------------------------------------------

  /** One named column of a table. */
  datatype TableColumn = TableColumn(heading: string, values: seq<real>)

  /** No string occurs twice. */
  ghost predicate Distinct(s: seq<string>) {
    forall a, b :: 0 <= a < b < |s| ==> s[a] != s[b]
  }

  /** `keys` lists the keys of dictionary `m` in its iteration order: each
      key exactly once, and nothing else. */
  ghost predicate DictOrder<V>(keys: seq<string>, m: map<string, V>) {
    && Distinct(keys)
    && forall k :: k in m <==> k in keys
  }

  /** Keys of a dictionary built by assigning `keys` in order: each key at
      its first assignment. */
  function InsertionOrder(order: seq<string>, keys: seq<string>): (r: seq<string>)
    ensures forall k :: k in r <==> k in order || k in keys
    ensures Distinct(order) ==> Distinct(r)
    decreases |keys|
  {
    if |keys| == 0 then order
    else InsertionOrder(if keys[0] in order then order else order + [keys[0]], keys[1..])
  }

  /** The key order of time_totals and time_avg in analyze_output: `Total`,
      then the groups. */
  function TimeKeys(groups: seq<Group>): (r: seq<string>)
    ensures forall k :: k in r <==> k == TotalKey || k in Names(groups)
    ensures Distinct(r)
  {
    InsertionOrder([TotalKey], Names(groups))
  }

  lemma {:induction false} InsertionOrderFresh(order: seq<string>, keys: seq<string>)
    requires forall i, j :: 0 <= i < j < |keys| ==> keys[i] != keys[j]
    requires forall i :: 0 <= i < |keys| ==> keys[i] !in order
    ensures InsertionOrder(order, keys) == order + keys
    decreases |keys|
  {
    if |keys| > 0 {
      var order', rest := order + [keys[0]], keys[1..];
      assert InsertionOrder(order, keys) == InsertionOrder(order', rest) by {
        assert keys[0] !in order;
      }
      assert forall i :: 0 <= i < |rest| ==> rest[i] !in order' by {
        forall i | 0 <= i < |rest|
          ensures rest[i] !in order'
        {
          assert rest[i] == keys[i + 1] && keys[0] != keys[i + 1];
        }
      }
      assert forall i, j :: 0 <= i < j < |rest| ==> rest[i] != rest[j] by {
        forall i, j | 0 <= i < j < |rest|
          ensures rest[i] != rest[j]
        {
          assert rest[i] == keys[i + 1] && rest[j] == keys[j + 1];
        }
      }
      InsertionOrderFresh(order', rest);
      ConsAppend(order, keys);
    }
  }

  /** Moving the head of `s` onto the end of `a` keeps the concatenation. */
  lemma ConsAppend<T>(a: seq<T>, s: seq<T>)
    requires 0 < |s|
    ensures a + [s[0]] + s[1..] == a + s
  {
    HeadTail(s);
  }

  /** With distinct names and none called `Total`, the key order is exactly
      `Total` followed by the group names. */
  lemma {:induction false} TimeKeysPlain(groups: seq<Group>)
    requires DistinctNames(groups) && NoTotalGroup(groups)
    ensures TimeKeys(groups) == [TotalKey] + Names(groups)
  {
    InsertionOrderFresh([TotalKey], Names(groups));
  }

  function Prefixed(prefix: string, keys: seq<string>): (r: seq<string>)
    ensures |r| == |keys|
    ensures forall i :: 0 <= i < |keys| ==> r[i] == prefix + keys[i]
  {
    seq(|keys|, i requires 0 <= i < |keys| => prefix + keys[i])
  }

  /** create_time_table: `Time`, then `Avg_<key>` for every key of
      time_avg, then `Tot_<key>` for every key of time_totals. */
  function CreateTimeTable(timesteps: seq<real>, avgKeys: seq<string>, timeAvg: map<string, seq<real>>,
                           totKeys: seq<string>, timeTotals: map<string, seq<real>>): (r: seq<TableColumn>)
    requires DictOrder(avgKeys, timeAvg)
    requires DictOrder(totKeys, timeTotals)
    ensures |r| == 1 + |avgKeys| + |totKeys|
    ensures r[0] == TableColumn("Time", timesteps)
  {
    [TableColumn("Time", timesteps)]
    + seq(|avgKeys|, i requires 0 <= i < |avgKeys| => TableColumn("Avg_" + avgKeys[i], timeAvg[avgKeys[i]]))
    + seq(|totKeys|, i requires 0 <= i < |totKeys| => TableColumn("Tot_" + totKeys[i], timeTotals[totKeys[i]]))
  }

  /** The values of the first column with the given heading. */
  function FindColumn(table: seq<TableColumn>, heading: string): (r: Option<seq<real>>)
    ensures r.Some? <==> exists i :: 0 <= i < |table| && table[i].heading == heading
  {
    if |table| == 0 then None
    else if table[0].heading == heading then Some(table[0].values)
    else
      assert forall i :: 0 < i < |table| ==> table[i] == table[1..][i - 1];
      FindColumn(table[1..], heading)
  }

  lemma {:induction false} FindColumnUnique(table: seq<TableColumn>, i: nat)
    requires i < |table|
    requires forall j :: 0 <= j < |table| && j != i ==> table[j].heading != table[i].heading
    ensures FindColumn(table, table[i].heading) == Some(table[i].values)
    decreases |table|
  {
    if i > 0 {
      FindColumnUnique(table[1..], i - 1);
    }
  }

  lemma {:induction false} PrefixCancels(p: string, a: string, b: string)
    requires p + a == p + b
    ensures a == b
  {
    assert a == (p + a)[|p|..];
    assert b == (p + b)[|p|..];
  }

  /** In a time table with distinct keys, looking a heading up finds the
      series it was built from: `Avg_<k>` gives time_avg[k] and `Tot_<k>`
      gives time_totals[k]. */
  lemma {:induction false} TimeTableLookup(timesteps: seq<real>, keys: seq<string>, timeAvg: map<string, seq<real>>,
                        timeTotals: map<string, seq<real>>, i: nat)
    requires DictOrder(keys, timeAvg) && DictOrder(keys, timeTotals)
    requires i < |keys|
    ensures var t := CreateTimeTable(timesteps, keys, timeAvg, keys, timeTotals);
      && FindColumn(t, "Avg_" + keys[i]) == Some(timeAvg[keys[i]])
      && FindColumn(t, "Tot_" + keys[i]) == Some(timeTotals[keys[i]])
  {
    AvgHeadingUnique(timesteps, keys, timeAvg, timeTotals, i);
    TotHeadingUnique(timesteps, keys, timeAvg, timeTotals, i);
    var t := CreateTimeTable(timesteps, keys, timeAvg, keys, timeTotals);
    FindColumnUnique(t, 1 + i);
    FindColumnUnique(t, 1 + |keys| + i);
  }

  lemma {:induction false} AvgHeadingUnique(timesteps: seq<real>, keys: seq<string>, timeAvg: map<string, seq<real>>,
                         timeTotals: map<string, seq<real>>, i: nat)
    requires DictOrder(keys, timeAvg) && DictOrder(keys, timeTotals)
    requires i < |keys|
    ensures var t := CreateTimeTable(timesteps, keys, timeAvg, keys, timeTotals);
      && t[1 + i] == TableColumn("Avg_" + keys[i], timeAvg[keys[i]])
      && forall j :: 0 <= j < |t| && j != 1 + i ==> t[j].heading != t[1 + i].heading
  {
    var t := CreateTimeTable(timesteps, keys, timeAvg, keys, timeTotals);
    var n := |keys|;
    forall j | 0 <= j < |t| && j != 1 + i
      ensures t[j].heading != t[1 + i].heading
    {
      if j == 0 {
        assert t[j].heading[0] != t[1 + i].heading[0];
      } else if j <= n {
        if t[j].heading == t[1 + i].heading {
          PrefixCancels("Avg_", keys[j - 1], keys[i]);
        }
      } else {
        assert t[j].heading[0] != t[1 + i].heading[0];
      }
    }
  }

  lemma {:induction false} TotHeadingUnique(timesteps: seq<real>, keys: seq<string>, timeAvg: map<string, seq<real>>,
                         timeTotals: map<string, seq<real>>, i: nat)
    requires DictOrder(keys, timeAvg) && DictOrder(keys, timeTotals)
    requires i < |keys|
    ensures var t := CreateTimeTable(timesteps, keys, timeAvg, keys, timeTotals);
      && t[1 + |keys| + i] == TableColumn("Tot_" + keys[i], timeTotals[keys[i]])
      && forall j :: 0 <= j < |t| && j != 1 + |keys| + i ==> t[j].heading != t[1 + |keys| + i].heading
  {
    var t := CreateTimeTable(timesteps, keys, timeAvg, keys, timeTotals);
    var n := |keys|;
    forall j | 0 <= j < |t| && j != 1 + n + i
      ensures t[j].heading != t[1 + n + i].heading
    {
      if j == 0 {
        assert t[j].heading[1] != t[1 + n + i].heading[1];
      } else if j <= n {
        assert t[j].heading[0] != t[1 + n + i].heading[0];
      } else {
        if t[j].heading == t[1 + n + i].heading {
          PrefixCancels("Tot_", keys[j - 1 - n], keys[i]);
        }
      }
    }
  }

  /** The header cells of the time-integrated file: Mass, Avg_Total, one
      Avg_ per group, Tot_Total, one Tot_ per group. */
  function HeaderCells(groups: seq<Group>): (r: seq<string>)
    ensures |r| == 3 + 2 * |groups|
  {
    ["Mass"] + Prefixed("Avg_", [TotalKey] + Names(groups)) + Prefixed("Tot_", [TotalKey] + Names(groups))
  }

  /** open_tot_file: the header line written when the file is opened. */
  function OpenTotFile(groups: seq<Group>): (r: string)
    ensures ParseTabLine(r).Some?
  {
    TabLine(HeaderCells(groups))
  }

  /** The cells of one line of the time-integrated file. */
  function IntegratedCells(mass: string, avgKeys: seq<string>, integratedAvg: map<string, real>,
                           totKeys: seq<string>, integratedTotals: map<string, real>,
                           format: real -> string): (r: seq<string>)
    requires DictOrder(avgKeys, integratedAvg)
    requires DictOrder(totKeys, integratedTotals)
    ensures |r| == 1 + |avgKeys| + |totKeys|
  {
    [mass]
    + seq(|avgKeys|, i requires 0 <= i < |avgKeys| => format(integratedAvg[avgKeys[i]]))
    + seq(|totKeys|, i requires 0 <= i < |totKeys| => format(integratedTotals[totKeys[i]]))
  }

  /** write_to_integrated_file: mass, the mean energies, then the totals,
      each followed by a tab. How a number is printed is a parameter. */
  function WriteToIntegratedFile(mass: string, avgKeys: seq<string>, integratedAvg: map<string, real>,
                                 totKeys: seq<string>, integratedTotals: map<string, real>,
                                 format: real -> string): (r: string)
    requires DictOrder(avgKeys, integratedAvg)
    requires DictOrder(totKeys, integratedTotals)
    ensures ParseTabLine(r).Some?
  {
    TabLine(IntegratedCells(mass, avgKeys, integratedAvg, totKeys, integratedTotals, format))
  }

  /** A data line written with the keys `Total` and the groups, in order,
      lines up with the header cell for cell: both have 3 + 2 * n_groups
      cells, and cell j of the line holds the quantity cell j of the header
      names. */
  lemma {:induction false} IntegratedLineAligned(groups: seq<Group>, mass: string, integratedAvg: map<string, real>,
                              integratedTotals: map<string, real>, format: real -> string)
    requires DictOrder([TotalKey] + Names(groups), integratedAvg)
    requires DictOrder([TotalKey] + Names(groups), integratedTotals)
    ensures var keys := [TotalKey] + Names(groups);
      var header := HeaderCells(groups);
      var line := IntegratedCells(mass, keys, integratedAvg, keys, integratedTotals, format);
      && |header| == |line|
      && header[0] == "Mass" && line[0] == mass
      && (forall i :: 0 <= i < |keys| ==>
            header[1 + i] == "Avg_" + keys[i] && line[1 + i] == format(integratedAvg[keys[i]]))
      && (forall i :: 0 <= i < |keys| ==>
            header[1 + |keys| + i] == "Tot_" + keys[i] && line[1 + |keys| + i] == format(integratedTotals[keys[i]]))
  {
    HeaderLayout(groups);
    var keys := [TotalKey] + Names(groups);
    IntegratedLayout(mass, keys, integratedAvg, integratedTotals, format);
  }

  lemma {:induction false} HeaderLayout(groups: seq<Group>)
    ensures var keys := [TotalKey] + Names(groups);
      var header := HeaderCells(groups);
      && |header| == 1 + 2 * |keys|
      && header[0] == "Mass"
      && (forall i :: 0 <= i < |keys| ==> header[1 + i] == "Avg_" + keys[i])
      && (forall i :: 0 <= i < |keys| ==> header[1 + |keys| + i] == "Tot_" + keys[i])
  {
  }

  lemma {:induction false} IntegratedLayout(mass: string, keys: seq<string>, integratedAvg: map<string, real>,
                         integratedTotals: map<string, real>, format: real -> string)
    requires DictOrder(keys, integratedAvg) && DictOrder(keys, integratedTotals)
    ensures var line := IntegratedCells(mass, keys, integratedAvg, keys, integratedTotals, format);
      && line[0] == mass
      && (forall i :: 0 <= i < |keys| ==> line[1 + i] == format(integratedAvg[keys[i]]))
      && (forall i :: 0 <= i < |keys| ==> line[1 + |keys| + i] == format(integratedTotals[keys[i]]))
  {
  }

  /** The cells of a data line contain no tab or newline when the mass and
      every printed number are free of them. */
  lemma {:induction false} IntegratedCellsPlain(mass: string, keys: seq<string>, integratedAvg: map<string, real>,
                             integratedTotals: map<string, real>, format: real -> string)
    requires DictOrder(keys, integratedAvg) && DictOrder(keys, integratedTotals)
    requires PlainCells([mass]) && forall x: real :: PlainCells([format(x)])
    ensures PlainCells(IntegratedCells(mass, keys, integratedAvg, keys, integratedTotals, format))
  {
    var cells := IntegratedCells(mass, keys, integratedAvg, keys, integratedTotals, format);
    forall i, k | 0 <= i < |cells| && 0 <= k < |cells[i]|
      ensures cells[i][k] != '\t' && cells[i][k] != '\n'
    {
      if i == 0 {
        assert cells[0] == [mass][0];
      } else if i <= |keys| {
        var x := integratedAvg[keys[i - 1]];
        assert cells[i] == [format(x)][0];
      } else {
        var x := integratedTotals[keys[i - 1 - |keys|]];
        assert cells[i] == [format(x)][0];
      }
    }
  }

  /** The header and every data line read back to exactly the cells
      written. */
  lemma {:induction false} IntegratedFileReadsBack(groups: seq<Group>, mass: string, integratedAvg: map<string, real>,
                                integratedTotals: map<string, real>, format: real -> string)
    requires DictOrder([TotalKey] + Names(groups), integratedAvg)
    requires DictOrder([TotalKey] + Names(groups), integratedTotals)
    requires PlainCells(HeaderCells(groups))
    requires PlainCells([mass]) && forall x: real :: PlainCells([format(x)])
    ensures ParseTabLine(OpenTotFile(groups)) == Some(HeaderCells(groups))
    ensures var keys := [TotalKey] + Names(groups);
      ParseTabLine(WriteToIntegratedFile(mass, keys, integratedAvg, keys, integratedTotals, format))
        == Some(IntegratedCells(mass, keys, integratedAvg, keys, integratedTotals, format))
  {
    var keys := [TotalKey] + Names(groups);
    IntegratedCellsPlain(mass, keys, integratedAvg, integratedTotals, format);
    TabLineRoundTrip(IntegratedCells(mass, keys, integratedAvg, keys, integratedTotals, format));
    TabLineRoundTrip(HeaderCells(groups));
  }

  // ---------------------------------------------------------------------
  // The per-timestep analysis
  // ---------------------------------------------------------------------

  /** What analyze_output needs: for every timestep a count array of
      n_bins entries for every listed channel. */
  ghost predicate ValidAnalysisInput(time: seq<real>, rawEnergy: seq<real>,
                                     countsAt: seq<map<string, seq<real>>>, groups: seq<Group>)
  {
    && |countsAt| == |time|
    && forall i :: 0 <= i < |countsAt| ==> CoversGroups(countsAt[i], groups, |rawEnergy|)
  }

  /** The group counts of timestep i. */
  function StepCounts(rawEnergy: seq<real>, countsAt: seq<map<string, seq<real>>>, groups: seq<Group>, i: nat): (r: map<string, seq<real>>)
    requires i < |countsAt| && CoversGroups(countsAt[i], groups, |rawEnergy|)
    ensures forall k :: k in r <==> k in TimeKeys(groups)
    ensures forall k :: k in r ==> |r[k]| == |rawEnergy|
  {
    var r := GetGroupCounts(countsAt[i], groups, |rawEnergy|);
    assert forall k :: k in Names(groups) ==> k in r by {
      forall k | k in Names(groups)
        ensures k in r
      {
        var j :| 0 <= j < |groups| && Names(groups)[j] == k;
        assert groups[j].name in r;
      }
    }
    r
  }

  /** The totals column of every key, one entry per timestep. */
  function TimeTotals(time: seq<real>, rawEnergy: seq<real>,
                      countsAt: seq<map<string, seq<real>>>, groups: seq<Group>): (r: map<string, seq<real>>)
    requires ValidAnalysisInput(time, rawEnergy, countsAt, groups)
    ensures forall k :: k in r <==> k in TimeKeys(groups)
    ensures forall k :: k in r ==> |r[k]| == |time|
  {
    map k | k in TimeKeys(groups) ::
      seq(|time|, i requires 0 <= i < |time| => GetTotals(StepCounts(rawEnergy, countsAt, groups, i))[k])
  }

  /** The mean-energy column of every key, one entry per timestep, against
      the energy grid scaled once to MeV. */
  function TimeAvg(time: seq<real>, rawEnergy: seq<real>,
                   countsAt: seq<map<string, seq<real>>>, groups: seq<Group>): (r: map<string, seq<real>>)
    requires ValidAnalysisInput(time, rawEnergy, countsAt, groups)
    ensures forall k :: k in r <==> k in TimeKeys(groups)
    ensures forall k :: k in r ==> |r[k]| == |time|
  {
    var energy := ScaleEnergyBins(rawEnergy);
    map k | k in TimeKeys(groups) ::
      seq(|time|, i requires 0 <= i < |time| => StepAvg(StepCounts(rawEnergy, countsAt, groups, i), energy)[k])
  }

  /** get_avg applied to get_totals of the same counts, as analyze_output
      does at every timestep. */
  function StepAvg(gc: map<string, seq<real>>, energy: seq<real>): (r: map<string, real>)
    requires forall k :: k in gc ==> |gc[k]| == |energy|
    ensures r.Keys == gc.Keys
    ensures forall k :: k in r ==> r[k] == AvgOf(Dot(gc[k], energy), Sum(gc[k]))
  {
    GetAvg(gc, GetTotals(gc), energy)
  }

  /** Entry i of a key's columns is that key's total and mean energy at
      timestep i. */
  lemma {:induction false} TimeColumnsEntry(time: seq<real>, rawEnergy: seq<real>,
                         countsAt: seq<map<string, seq<real>>>, groups: seq<Group>, k: string, i: nat)
    requires ValidAnalysisInput(time, rawEnergy, countsAt, groups)
    requires k in TimeKeys(groups) && i < |time|
    ensures var gc := StepCounts(rawEnergy, countsAt, groups, i);
      && TimeTotals(time, rawEnergy, countsAt, groups)[k][i] == Sum(gc[k])
      && TimeAvg(time, rawEnergy, countsAt, groups)[k][i] == AvgOf(Dot(gc[k], ScaleEnergyBins(rawEnergy)), Sum(gc[k]))
  {
  }

  /** analyze_output reads the energy grid from the first channel's file,
      so a channel list with no channel raises IndexError at channels[0]. */
  datatype AnalysisError = NoChannels

  /** analyze_output without the file system: for every timestep the group
      totals and mean energies become one row of the time table. */
  function AnalyzeOutput(time: seq<real>, rawEnergy: seq<real>,
                         countsAt: seq<map<string, seq<real>>>, groups: seq<Group>): (r: Result<seq<TableColumn>, AnalysisError>)
    requires ValidAnalysisInput(time, rawEnergy, countsAt, groups)
    ensures r.Failure? <==> forall g :: 0 <= g < |groups| ==> |groups[g].channels| == 0
    ensures r.Failure? ==> r.error == NoChannels
    ensures r.Success? ==> |r.value| == 1 + 2 * |TimeKeys(groups)|
  {
    AllChannelsEmpty(groups);
    if |GetAllChannels(groups)| == 0 then
      Failure(NoChannels)
    else
      var keys := TimeKeys(groups);
      Success(CreateTimeTable(time, keys, TimeAvg(time, rawEnergy, countsAt, groups), keys, TimeTotals(time, rawEnergy, countsAt, groups)))
  }

  /** Reading the time table back: for group g (or `Total`) at timestep i,
      column `Tot_<g>` holds the total of g's counts and column `Avg_<g>`
      holds g's mean energy against the MeV grid. */
  lemma {:induction false} AnalyzeOutputColumns(time: seq<real>, rawEnergy: seq<real>,
                             countsAt: seq<map<string, seq<real>>>, groups: seq<Group>, k: string, i: nat)
    requires ValidAnalysisInput(time, rawEnergy, countsAt, groups)
    requires k == TotalKey || k in Names(groups)
    requires i < |time|
    ensures AnalyzeOutput(time, rawEnergy, countsAt, groups).Success? ==>
      var table := AnalyzeOutput(time, rawEnergy, countsAt, groups).value;
      var gc := GetGroupCounts(countsAt[i], groups, |rawEnergy|);
      && FindColumn(table, "Tot_" + k).Some?
      && FindColumn(table, "Avg_" + k).Some?
      && |FindColumn(table, "Tot_" + k).value| == |FindColumn(table, "Avg_" + k).value| == |time|
      && FindColumn(table, "Tot_" + k).value[i] == Sum(gc[k])
      && FindColumn(table, "Avg_" + k).value[i] == AvgOf(Dot(gc[k], ScaleEnergyBins(rawEnergy)), Sum(gc[k]))
  {
    var keys := TimeKeys(groups);
    assert k in keys;
    var p :| 0 <= p < |keys| && keys[p] == k;
    TimeColumnsEntry(time, rawEnergy, countsAt, groups, k, i);
    TimeTableLookup(time, keys, TimeAvg(time, rawEnergy, countsAt, groups), TimeTotals(time, rawEnergy, countsAt, groups), p);
  }
}
