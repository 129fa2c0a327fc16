/**
 * The program's own chart: the twelve points Sun..Pluto, ASC, MC and the
 * eight-entry `IMPORTANT_AXES`. For any ephemeris and any symbol table the
 * halfsum table has 66 rows, of which exactly 8 are important axes.
 */
module StandardChart {
  import Axes
  import Symbols
  import opened Chart

  /** The index pairs (i, j), i < j, of the twelve points whose names form an
      important axis: Sun/Jupiter, Venus/Jupiter, Sun/Moon, Mars/Jupiter,
      Saturn/Pluto, Jupiter/Uranus, Sun/ASC and Jupiter/MC. */
  const AXIS_PAIRS: set<(nat, nat)> := {(0, 5), (3, 5), (0, 1), (4, 5), (6, 9), (5, 7), (0, 10), (5, 11)}
  /** Eight pairs, each of two different points among the twelve. */
  lemma AxisPairsFacts()
    ensures |AXIS_PAIRS| == 8
    ensures forall x :: x in AXIS_PAIRS ==> x.0 < x.1 < 12
  {
  }

  /** Where the first and the second name of each axis sit among the points. */
  const AXIS_FIRST: seq<nat> := [0, 3, 0, 4, 6, 5, 0, 11]
  const AXIS_SECOND: seq<nat> := [5, 5, 1, 5, 9, 7, 10, 5]

  /** The twelve point names are all different. */
  lemma PointNamesDistinct()
    ensures |POINT_NAMES| == 12
    ensures forall x, y :: 0 <= x < y < 12 ==> POINT_NAMES[x] != POINT_NAMES[y]
  {
  }

  /** Every axis names two of the twelve points. */
  lemma AxisIndices()
    ensures forall k :: 0 <= k < 8 ==>
      Axes.IMPORTANT_AXES[k].first == POINT_NAMES[AXIS_FIRST[k]] && Axes.IMPORTANT_AXES[k].second == POINT_NAMES[AXIS_SECOND[k]]
    ensures forall k :: 0 <= k < 8 ==>
      (if AXIS_FIRST[k] < AXIS_SECOND[k] then (AXIS_FIRST[k], AXIS_SECOND[k]) else (AXIS_SECOND[k], AXIS_FIRST[k])) in AXIS_PAIRS
  {
  }

  /** A pair of points named by an axis is one of the axis pairs. */
  lemma NamedPairIsAxisPair(i: nat, j: nat, k: nat)
    requires i < j < 12 && k < 8
    requires Axes.Names(Axes.IMPORTANT_AXES[k], POINT_NAMES[i], POINT_NAMES[j])
    ensures (i, j) in AXIS_PAIRS
  {
    AxisIndices();
    PointNamesDistinct();
    var a, b := AXIS_FIRST[k], AXIS_SECOND[k];
    // Equal names at two indices force equal indices: each case split below
    // puts the smaller index first so the distinct-names fact applies.
    if POINT_NAMES[a] == POINT_NAMES[i] {
      assert a == i by { if a < i {} else if i < a {} }
      assert b == j by { if b < j {} else if j < b {} }
    } else {
      assert a == j by { if a < j {} else if j < a {} }
      assert b == i by { if b < i {} else if i < b {} }
    }
  }

  /** Each axis pair is named by some axis. */
  lemma AxisPairIsNamed(i: nat, j: nat)
    requires (i, j) in AXIS_PAIRS
    ensures exists k :: 0 <= k < 8 && Axes.Names(Axes.IMPORTANT_AXES[k], POINT_NAMES[i], POINT_NAMES[j])
  {
    AxisIndices();
    if (i, j) == (0, 5) { assert Axes.Names(Axes.IMPORTANT_AXES[0], POINT_NAMES[i], POINT_NAMES[j]); }
    else if (i, j) == (3, 5) { assert Axes.Names(Axes.IMPORTANT_AXES[1], POINT_NAMES[i], POINT_NAMES[j]); }
    else if (i, j) == (0, 1) { assert Axes.Names(Axes.IMPORTANT_AXES[2], POINT_NAMES[i], POINT_NAMES[j]); }
    else if (i, j) == (4, 5) { assert Axes.Names(Axes.IMPORTANT_AXES[3], POINT_NAMES[i], POINT_NAMES[j]); }
    else if (i, j) == (6, 9) { assert Axes.Names(Axes.IMPORTANT_AXES[4], POINT_NAMES[i], POINT_NAMES[j]); }
    else if (i, j) == (5, 7) { assert Axes.Names(Axes.IMPORTANT_AXES[5], POINT_NAMES[i], POINT_NAMES[j]); }
    else if (i, j) == (0, 10) { assert Axes.Names(Axes.IMPORTANT_AXES[6], POINT_NAMES[i], POINT_NAMES[j]); }
    else { assert Axes.Names(Axes.IMPORTANT_AXES[7], POINT_NAMES[i], POINT_NAMES[j]); }
  }

  /** Points i < j form an important axis exactly when (i, j) is an axis pair. */
  lemma ChartAxisPair(i: nat, j: nat)
    requires i < j < 12
    ensures Axes.Classify(Axes.IMPORTANT_AXES, POINT_NAMES[i], POINT_NAMES[j]).Some? <==> (i, j) in AXIS_PAIRS
  {
    Axes.ClassifySpec(Axes.IMPORTANT_AXES, POINT_NAMES[i], POINT_NAMES[j]);
    AxisIndices();
    if Axes.Classify(Axes.IMPORTANT_AXES, POINT_NAMES[i], POINT_NAMES[j]).Some? {
      var k :| 0 <= k < |Axes.IMPORTANT_AXES| && Axes.Names(Axes.IMPORTANT_AXES[k], POINT_NAMES[i], POINT_NAMES[j]);
      NamedPairIsAxisPair(i, j, k);
    }
    if (i, j) in AXIS_PAIRS {
      AxisPairIsNamed(i, j);
    }
  }

  /** Among the chart's points, i < j form an important axis exactly when
      (i, j) is an axis pair, whatever the longitudes. */
  lemma ChartImportantPairs(ephemeris: string -> real, asc: real, mc: real)
    ensures forall i: nat, j: nat :: i < j < 12 ==>
      var ps := ChartPositions(ephemeris, asc, mc);
      (Axes.Classify(Axes.IMPORTANT_AXES, ps[i].name, ps[j].name).Some? <==> (i, j) in AXIS_PAIRS)
  {
    var ps := ChartPositions(ephemeris, asc, mc);
    forall i: nat, j: nat | i < j < 12
      ensures Axes.Classify(Axes.IMPORTANT_AXES, ps[i].name, ps[j].name).Some? <==> (i, j) in AXIS_PAIRS
    {
      assert NamesOf(ps)[i] == ps[i].name && NamesOf(ps)[j] == ps[j].name;
      ChartAxisPair(i, j);
    }
  }

  /** The halfsum table of the program's chart: 66 rows, 8 of them important. */
  lemma StandardHalfsumCounts(table: Symbols.SymbolTable, ephemeris: string -> real, asc: real, mc: real)
    ensures |AllRows(table, Axes.IMPORTANT_AXES, ChartPositions(ephemeris, asc, mc))| == 66
    ensures |Important(AllRows(table, Axes.IMPORTANT_AXES, ChartPositions(ephemeris, asc, mc)))| == 8
  {
    var ps := ChartPositions(ephemeris, asc, mc);
    AllRowsCount(table, Axes.IMPORTANT_AXES, ps);
    ChartImportantPairs(ephemeris, asc, mc);
    AxisPairsFacts();
    ImportantCountOf(table, Axes.IMPORTANT_AXES, ps, AXIS_PAIRS);
  }
}
