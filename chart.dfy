/**
 * The chart pipeline: the position map of the ten bodies and the two chart
 * angles, the natal table (one row per point, with its Sabian label and its
 * 8th-harmonic position and label), and the halfsum tables (one row per
 * unordered pair of points, the important-axis rows picked out in order).
 *
 * The ephemeris is a parameter: a function from body name to longitude
 * standing for the Swiss Ephemeris call at the chart's instant, plus the
 * Ascendant and Midheaven from the house computation.
 */
module Chart {

  import opened Circle
  import Symbols
  import Axes
  import Opt

  /** One entry of the `positions` dictionary: a point name and its longitude. */
  datatype Position = Position(name: string, longitude: real)

  /** The keys of the `bodies` dictionary, in insertion order. */
  const BODY_NAMES: seq<string> :=
    ["Sun", "Moon", "Mercury", "Venus", "Mars", "Jupiter", "Saturn", "Uranus", "Neptune", "Pluto"]

  /** The keys of `positions`: the ten bodies, then the two chart angles. */
  const POINT_NAMES: seq<string> := BODY_NAMES + ["ASC", "MC"]

  function NamesOf(ps: seq<Position>): (names: seq<string>)
    ensures |names| == |ps| && forall k :: 0 <= k < |ps| ==> names[k] == ps[k].name
  {
    seq(|ps|, k requires 0 <= k < |ps| => ps[k].name)
  }

  /** A dictionary has no repeated key. */
  predicate DistinctNames(ps: seq<Position>) {
    forall k, l :: 0 <= k < l < |ps| ==> ps[k].name != ps[l].name
  }

  /** The `positions` dictionary: each body's longitude from the ephemeris,
      in the order of `bodies`, then the Ascendant and the Midheaven. */
  function ChartPositions(ephemeris: string -> real, asc: real, mc: real): (ps: seq<Position>)
    ensures |ps| == 12 && NamesOf(ps) == POINT_NAMES && DistinctNames(ps)
    ensures forall k :: 0 <= k < 10 ==> ps[k].longitude == ephemeris(BODY_NAMES[k])
    ensures ps[10].longitude == asc && ps[11].longitude == mc
  {
    seq(10, k requires 0 <= k < 10 => Position(BODY_NAMES[k], ephemeris(BODY_NAMES[k])))
      + [Position("ASC", asc), Position("MC", mc)]
  }

  // ---------------------------------------------------------------------
  // Natal table.
  // ---------------------------------------------------------------------

  /** One row of the natal table. Longitudes are kept exact; app.py
      rounds them to two decimals for display only. */
  datatype NatalRow = NatalRow(point: string, longitude: real, sabian: string, hn8: real, hn8Sabian: string)

  /** The natal row of one point. */
  function NatalRowOf(table: Symbols.SymbolTable, p: Position): NatalRow {
    var hn8 := Harmonic8(p.longitude);
    NatalRow(p.name, p.longitude, Symbols.Lookup(table, SabianDegree(p.longitude)),
             hn8, Symbols.Lookup(table, SabianDegree(hn8)))
  }

  /** The natal row of a point in [0, 360) carries the label of the whole
      degree holding its longitude, an 8th-harmonic position in [0, 360),
      and the same harmonic label as the point 45 degrees further on. */
  lemma NatalRowSpec(table: Symbols.SymbolTable, p: Position, n: int)
    requires 0.0 <= p.longitude < 360.0
    requires (n - 1) as real <= p.longitude < n as real
    ensures NatalRowOf(table, p).point == p.name && NatalRowOf(table, p).longitude == p.longitude
    ensures NatalRowOf(table, p).sabian == Symbols.Lookup(table, n)
    ensures 0.0 <= NatalRowOf(table, p).hn8 < 360.0
    ensures NatalRowOf(table, p).hn8Sabian
         == NatalRowOf(table, Position(p.name, p.longitude + 45.0)).hn8Sabian
  {
    SabianDegreeOfNormal(p.longitude, n);
    Harmonic8Period45(p.longitude);
  }

  /** The natal loop: one row per point, in the order of the position map. */
  method NatalRows(table: Symbols.SymbolTable, ps: seq<Position>) returns (rows: seq<NatalRow>)
    ensures |rows| == |ps|
    ensures forall k :: 0 <= k < |ps| ==> rows[k] == NatalRowOf(table, ps[k])
  {
    rows := [];
    for k := 0 to |ps|
      invariant |rows| == k
      invariant forall l :: 0 <= l < k ==> rows[l] == NatalRowOf(table, ps[l])
    {
      var deg := ps[k].longitude;
      var sDeg := SabianDegree(deg);
      var hn8Deg := Harmonic8(deg);
      var h8SDeg := SabianDegree(hn8Deg);
      rows := rows + [NatalRow(ps[k].name, deg, Symbols.Lookup(table, sDeg), hn8Deg, Symbols.Lookup(table, h8SDeg))];
    }
  }

  /** For the chart's twelve points the natal table has twelve rows, named
      Sun to Pluto, then ASC and MC. */
  lemma NatalRowsOfChart(table: Symbols.SymbolTable, ephemeris: string -> real, asc: real, mc: real, k: nat)
    requires k < 12
    ensures NatalRowOf(table, ChartPositions(ephemeris, asc, mc)[k]).point == POINT_NAMES[k]
  {
    var ps := ChartPositions(ephemeris, asc, mc);
    assert NamesOf(ps)[k] == ps[k].name;
  }

  // ---------------------------------------------------------------------
  // The pairs the nested loop visits.
  // ---------------------------------------------------------------------

  /** The pairs (i, j) for lo <= j < hi, in increasing j. */
  function InnerPairs(i: nat, lo: nat, hi: nat): (r: seq<(nat, nat)>)
    decreases hi
    ensures |r| == if lo <= hi then hi - lo else 0
    ensures forall m :: 0 <= m < |r| ==> r[m] == (i, lo + m)
  {
    if hi <= lo then [] else InnerPairs(i, lo, hi - 1) + [(i, hi - 1)]
  }

  /** The pairs visited by the first k passes of the outer loop over n points:
      for each i < k, the pairs (i, j) with i < j < n. */
  function OuterPairs(k: nat, n: nat): (r: seq<(nat, nat)>)
    requires k <= n
    ensures forall m :: 0 <= m < |r| ==> r[m].0 < k && r[m].0 < r[m].1 < n
  {
    if k == 0 then [] else OuterPairs(k - 1, n) + InnerPairs(k - 1, k, n)
  }

  /** All pairs the nested loop visits for n points. */
  function Pairs(n: nat): seq<(nat, nat)> {
    OuterPairs(n, n)
  }

  /** Strict lexicographic order on index pairs. */
  predicate LexLess(p: (nat, nat), q: (nat, nat)) {
    p.0 < q.0 || (p.0 == q.0 && p.1 < q.1)
  }

  /** Twice the number of pairs after k outer passes is k * (2n - k - 1). */
  lemma {:induction false} OuterPairsLength(k: nat, n: nat)
    requires k <= n
    ensures 2 * |OuterPairs(k, n)| == k * (2 * n - k - 1)
  {
    if k > 0 {
      OuterPairsLength(k - 1, n);
      assert (k - 1) * (2 * n - k) + 2 * (n - k) == k * (2 * n - k - 1);
    }
  }

  /** The pairs come in strictly increasing lexicographic order. */
  lemma {:induction false} OuterPairsSorted(k: nat, n: nat)
    requires k <= n
    ensures forall a, b :: 0 <= a < b < |OuterPairs(k, n)| ==> LexLess(OuterPairs(k, n)[a], OuterPairs(k, n)[b])
  {
    if k > 0 {
      OuterPairsSorted(k - 1, n);
      var prev, inner := OuterPairs(k - 1, n), InnerPairs(k - 1, k, n);
      var r := prev + inner;
      forall a, b | 0 <= a < b < |r| ensures LexLess(r[a], r[b]) {
        if b < |prev| {
          assert r[a] == prev[a] && r[b] == prev[b];
        } else if a < |prev| {
          assert r[a] == prev[a] && r[b] == inner[b - |prev|];
        } else {
          assert r[a] == inner[a - |prev|] && r[b] == inner[b - |prev|];
        }
      }
    }
  }

  /** Every pair i < j < n with i among the first k rows is visited. */
  lemma {:induction false} OuterPairsComplete(k: nat, n: nat, i: nat, j: nat)
    requires k <= n && i < k && i < j < n
    ensures (i, j) in OuterPairs(k, n)
  {
    if i < k - 1 {
      OuterPairsComplete(k - 1, n, i, j);
    } else {
      var inner := InnerPairs(k - 1, k, n);
      assert inner[j - k] == (i, j);
    }
  }

  /** The nested `i < j` loop over n points visits n(n-1)/2 pairs; the visited
      pairs are exactly those with i < j < n, so there are no self-pairs; they
      come in lexicographic order, so none is visited twice. */
  lemma PairsSpec(n: nat)
    ensures 2 * |Pairs(n)| == n * (n - 1)
    ensures forall i: nat, j: nat :: (i, j) in Pairs(n) <==> i < j < n
    ensures forall a, b :: 0 <= a < b < |Pairs(n)| ==> LexLess(Pairs(n)[a], Pairs(n)[b])
    ensures forall a, b :: 0 <= a < b < |Pairs(n)| ==> Pairs(n)[a] != Pairs(n)[b]
  {
    OuterPairsLength(n, n);
    OuterPairsSorted(n, n);
    forall i: nat, j: nat | i < j < n ensures (i, j) in Pairs(n) {
      OuterPairsComplete(n, n, i, j);
    }
  }

  // ---------------------------------------------------------------------
  // Halfsum table.
  // ---------------------------------------------------------------------

  /** One row of the halfsum table: the two points, the midpoint, its label,
      its 8th harmonic and that label, and the axis meaning when the pair is
      an important axis. */
  datatype MidpointRow = MidpointRow(
    first: string, second: string,
    midpoint: real, sabian: string,
    hn8: real, hn8Sabian: string,
    meaning: Opt.Option<string>)
  {
    /** The `Combination` column, "A / B": both names, in loop order,
        around the separator. */
    function Combination(): (c: string)
      ensures |c| == |first| + |second| + 3
      ensures c[..|first|] == first && c[|first|..|first| + 3] == " / " && c[|first| + 3..] == second
    {
      first + " / " + second
    }
  }

  /** The halfsum row of two points, in the order the loop meets them. */
  function PairRow(table: Symbols.SymbolTable, axes: seq<Axes.Axis>, p1: Position, p2: Position): MidpointRow {
    var mid := Midpoint(p1.longitude, p2.longitude);
    var hn8 := Harmonic8(mid);
    MidpointRow(p1.name, p2.name, mid, Symbols.Lookup(table, SabianDegree(mid)),
                hn8, Symbols.Lookup(table, SabianDegree(hn8)), Axes.Classify(axes, p1.name, p2.name))
  }

  /** The items one pass of the outer loop produces for point i: `row` of
      the points i and j for i < j < hi, in increasing j. */
  function BlockRows<R>(row: (Position, Position) -> R, ps: seq<Position>, i: nat, hi: nat): seq<R>
    requires i < |ps| && hi <= |ps|
    decreases hi
  {
    if hi <= i + 1 then [] else BlockRows(row, ps, i, hi - 1) + [row(ps[i], ps[hi - 1])]
  }

  /** The items of the first k passes of the outer loop. */
  function RowsBefore<R>(row: (Position, Position) -> R, ps: seq<Position>, k: nat): seq<R>
    requires k <= |ps|
  {
    if k == 0 then [] else RowsBefore(row, ps, k - 1) + BlockRows(row, ps, k - 1, |ps|)
  }

  /** Each block holds the items of its inner pairs, in order. */
  lemma {:induction false} BlockRowsAt<R>(row: (Position, Position) -> R, ps: seq<Position>, i: nat, hi: nat)
    requires i < |ps| && hi <= |ps|
    ensures |BlockRows(row, ps, i, hi)| == |InnerPairs(i, i + 1, hi)|
    ensures forall m :: 0 <= m < |BlockRows(row, ps, i, hi)| ==>
      BlockRows(row, ps, i, hi)[m] == row(ps[i], ps[i + 1 + m])
  {
    if hi > i + 1 {
      BlockRowsAt(row, ps, i, hi - 1);
      var prev := BlockRows(row, ps, i, hi - 1);
      assert BlockRows(row, ps, i, hi) == prev + [row(ps[i], ps[hi - 1])];
    }
  }

  /** The first k passes produce the items of the first k passes' pairs. */
  lemma {:induction false} RowsBeforeAt<R>(row: (Position, Position) -> R, ps: seq<Position>, k: nat)
    requires k <= |ps|
    ensures |RowsBefore(row, ps, k)| == |OuterPairs(k, |ps|)|
    ensures forall m :: 0 <= m < |RowsBefore(row, ps, k)| ==>
      RowsBefore(row, ps, k)[m] == row(ps[OuterPairs(k, |ps|)[m].0], ps[OuterPairs(k, |ps|)[m].1])
  {
    if k > 0 {
      var n := |ps|;
      RowsBeforeAt(row, ps, k - 1);
      BlockRowsAt(row, ps, k - 1, n);
      var prev, block := RowsBefore(row, ps, k - 1), BlockRows(row, ps, k - 1, n);
      var pp: seq<(nat, nat)> := OuterPairs(k - 1, n);
      var ip: seq<(nat, nat)> := InnerPairs(k - 1, k, n);
      forall m | 0 <= m < |prev + block|
        ensures (prev + block)[m] == row(ps[(pp + ip)[m].0], ps[(pp + ip)[m].1])
      {
        if m < |prev| {
          assert (prev + block)[m] == prev[m] && (pp + ip)[m] == pp[m];
        } else {
          assert (prev + block)[m] == block[m - |prev|] && (pp + ip)[m] == ip[m - |pp|];
        }
      }
    }
  }

  /** The row builder of the halfsum table, as a function value. */
  function PairRowOf(table: Symbols.SymbolTable, axes: seq<Axes.Axis>): (Position, Position) -> MidpointRow {
    (p1, p2) => PairRow(table, axes, p1, p2)
  }

  /** `all_results`: the halfsum rows of all visited pairs. */
  function AllRows(table: Symbols.SymbolTable, axes: seq<Axes.Axis>, ps: seq<Position>): seq<MidpointRow> {
    RowsBefore(PairRowOf(table, axes), ps, |ps|)
  }

  /** `all_results` has one row per visited pair: n(n-1)/2 rows for n points. */
  lemma AllRowsCount(table: Symbols.SymbolTable, axes: seq<Axes.Axis>, ps: seq<Position>)
    ensures |AllRows(table, axes, ps)| == |Pairs(|ps|)|
    ensures 2 * |AllRows(table, axes, ps)| == |ps| * (|ps| - 1)
  {
    RowsBeforeAt(PairRowOf(table, axes), ps, |ps|);
    PairsSpec(|ps|);
  }

  /** Row m of `all_results` is the row of the m-th visited pair (i, j):
      it names point i first and point j second, and carries the axis
      meaning of those two names. */
  lemma AllRowsAt(table: Symbols.SymbolTable, axes: seq<Axes.Axis>, ps: seq<Position>, m: nat)
    requires m < |Pairs(|ps|)|
    ensures |AllRows(table, axes, ps)| == |Pairs(|ps|)|
    ensures AllRows(table, axes, ps)[m] == PairRow(table, axes, ps[Pairs(|ps|)[m].0], ps[Pairs(|ps|)[m].1])
    ensures AllRows(table, axes, ps)[m].first == ps[Pairs(|ps|)[m].0].name
    ensures AllRows(table, axes, ps)[m].second == ps[Pairs(|ps|)[m].1].name
    ensures AllRows(table, axes, ps)[m].meaning == Axes.Classify(axes, AllRows(table, axes, ps)[m].first, AllRows(table, axes, ps)[m].second)
  {
    RowsBeforeAt(PairRowOf(table, axes), ps, |ps|);
  }

  /** The rows that carry a meaning, in their original order. */
  function Important(rows: seq<MidpointRow>): seq<MidpointRow> {
    if rows == [] then []
    else
      var last := rows[|rows| - 1];
      Important(rows[..|rows| - 1]) + if last.meaning.Some? then [last] else []
  }

  lemma ImportantSnoc(rows: seq<MidpointRow>, r: MidpointRow)
    ensures Important(rows + [r]) == Important(rows) + if r.meaning.Some? then [r] else []
  {
    assert (rows + [r])[..|rows|] == rows;
  }

  /** The positions in `rows` of the rows that carry a meaning, ascending. */
  function MeaningIndices(rows: seq<MidpointRow>): seq<nat> {
    if rows == [] then []
    else
      var last := |rows| - 1;
      MeaningIndices(rows[..last]) + if rows[last].meaning.Some? then [last] else []
  }

  /** `important_results` is the subsequence of `all_results` made of exactly
      the rows with a meaning: row m of it is row MeaningIndices[m] of the
      whole, these indices ascend strictly, and an index is among them iff its
      row has a meaning. */
  lemma {:induction false} ImportantIsSubsequence(rows: seq<MidpointRow>)
    ensures |Important(rows)| == |MeaningIndices(rows)|
    ensures forall m :: 0 <= m < |MeaningIndices(rows)| ==>
      MeaningIndices(rows)[m] < |rows| && Important(rows)[m] == rows[MeaningIndices(rows)[m]]
    ensures forall a, b :: 0 <= a < b < |MeaningIndices(rows)| ==> MeaningIndices(rows)[a] < MeaningIndices(rows)[b]
    ensures forall k: nat :: k < |rows| ==> (k in MeaningIndices(rows) <==> rows[k].meaning.Some?)
  {
    if rows != [] {
      var init := rows[..|rows| - 1];
      ImportantIsSubsequence(init);
      var mi := MeaningIndices(rows);
      forall m | 0 <= m < |mi| ensures mi[m] < |rows| && Important(rows)[m] == rows[mi[m]] {
        if m < |MeaningIndices(init)| {
          assert rows[mi[m]] == init[mi[m]];
        }
      }
      forall k: nat | k < |rows| ensures k in mi <==> rows[k].meaning.Some? {
        if k < |init| {
          assert rows[k] == init[k];
        }
      }
    }
  }

  /** Every row of `important_results` has a meaning and comes from `all_results`,
      and every row of `all_results` with a meaning is in it. */
  lemma ImportantMembers(rows: seq<MidpointRow>)
    ensures forall r :: r in Important(rows) ==> r.meaning.Some? && r in rows
    ensures forall r :: r in rows && r.meaning.Some? ==> r in Important(rows)
  {
    ImportantIsSubsequence(rows);
    var mi := MeaningIndices(rows);
    forall r | r in Important(rows) ensures r.meaning.Some? && r in rows {
      var m :| 0 <= m < |Important(rows)| && Important(rows)[m] == r;
      assert mi[m] in mi;
    }
    forall r | r in rows && r.meaning.Some? ensures r in Important(rows) {
      var k :| 0 <= k < |rows| && rows[k] == r;
      assert k in mi;
      var m :| 0 <= m < |mi| && mi[m] == k;
      assert Important(rows)[m] == r;
    }
  }

  /** Sequence concatenation is associative. */
  lemma AppendAssoc<T>(a: seq<T>, b: seq<T>, c: seq<T>)
    ensures (a + b) + c == a + (b + c)
  {
  }

  /** How many entries of `pairs` lie in `s`. */
  function CountIn(pairs: seq<(nat, nat)>, s: set<(nat, nat)>): nat {
    if pairs == [] then 0
    else CountIn(pairs[..|pairs| - 1], s) + if pairs[|pairs| - 1] in s then 1 else 0
  }

  /** When the rows carry a meaning exactly at the positions whose pair lies
      in `s`, `important_results` has as many rows as there are such pairs. */
  lemma {:induction false} ImportantCount(rows: seq<MidpointRow>, pairs: seq<(nat, nat)>, s: set<(nat, nat)>)
    requires |rows| == |pairs|
    requires forall m :: 0 <= m < |rows| ==> (rows[m].meaning.Some? <==> pairs[m] in s)
    ensures |Important(rows)| == CountIn(pairs, s)
  {
    if rows != [] {
      var n := |rows| - 1;
      ImportantCount(rows[..n], pairs[..n], s);
    }
  }

  /** The entries of `pairs` lying in `s`, as a set. */
  function InSet(pairs: seq<(nat, nat)>, s: set<(nat, nat)>): set<(nat, nat)> {
    set x | x in pairs && x in s
  }

  /** Appending an entry adds it to the set when it lies in `s`. */
  lemma InSetSnoc(pairs: seq<(nat, nat)>, last: (nat, nat), s: set<(nat, nat)>)
    ensures InSet(pairs + [last], s) == InSet(pairs, s) + if last in s then {last} else {}
  {
    forall x | x in InSet(pairs + [last], s) ensures x in InSet(pairs, s) + if last in s then {last} else {} {
      var a :| 0 <= a < |pairs + [last]| && (pairs + [last])[a] == x;
      if a < |pairs| { assert pairs[a] == x; }
    }
  }

  /** In a sequence without repeats, the entries lying in `s` are counted
      once each. */
  lemma {:induction false} CountInDistinct(pairs: seq<(nat, nat)>, s: set<(nat, nat)>)
    requires forall a, b :: 0 <= a < b < |pairs| ==> pairs[a] != pairs[b]
    ensures CountIn(pairs, s) == |InSet(pairs, s)|
  {
    if pairs != [] {
      var n := |pairs| - 1;
      var init, last := pairs[..n], pairs[n];
      CountInDistinct(init, s);
      assert forall a :: 0 <= a < n ==> init[a] != last;
      assert last !in InSet(init, s);
      assert init + [last] == pairs;
      InSetSnoc(init, last, s);
    }
  }

  /** When the important pairs of points are exactly the index pairs in `s`,
      `important_results` has |s| rows: each such pair is visited once. */
  lemma ImportantCountOf(table: Symbols.SymbolTable, axes: seq<Axes.Axis>, ps: seq<Position>, s: set<(nat, nat)>)
    requires forall x :: x in s ==> x.0 < x.1 < |ps|
    requires forall i: nat, j: nat :: i < j < |ps| ==> (Axes.Classify(axes, ps[i].name, ps[j].name).Some? <==> (i, j) in s)
    ensures |Important(AllRows(table, axes, ps))| == |s|
  {
    var rows := AllRows(table, axes, ps);
    var pairs := Pairs(|ps|);
    AllRowsCount(table, axes, ps);
    PairsSpec(|ps|);
    forall m | 0 <= m < |rows| ensures rows[m].meaning.Some? <==> pairs[m] in s {
      AllRowsAt(table, axes, ps, m);
      assert pairs[m] in pairs;
    }
    ImportantCount(rows, pairs, s);
    CountInDistinct(pairs, s);
    assert InSet(pairs, s) == s;
  }

  // ---------------------------------------------------------------------
  // The pair loop. Its proof sees the row builder only through the
  // pointwise fact below, so that the halfsum computation is unfolded
  // just for the row the loop body builds.
  // ---------------------------------------------------------------------

  /** A row builder that agrees with `PairRow` everywhere. */
  lemma PairRowBuilder(table: Symbols.SymbolTable, axes: seq<Axes.Axis>) returns (row: (Position, Position) -> MidpointRow)
    ensures forall p1, p2 {:trigger PairRow(table, axes, p1, p2)} :: row(p1, p2) == PairRow(table, axes, p1, p2)
  {
    row := PairRowOf(table, axes);
  }

  /** Builders that agree everywhere give the same blocks. */
  lemma {:induction false} BlockRowsExt<R>(f: (Position, Position) -> R, g: (Position, Position) -> R, ps: seq<Position>, i: nat, hi: nat)
    requires i < |ps| && hi <= |ps|
    requires forall p1, p2 :: f(p1, p2) == g(p1, p2)
    ensures BlockRows(f, ps, i, hi) == BlockRows(g, ps, i, hi)
    decreases hi
  {
    if hi > i + 1 {
      BlockRowsExt(f, g, ps, i, hi - 1);
    }
  }

  /** Builders that agree everywhere give the same rows. */
  lemma {:induction false} RowsBeforeExt<R>(f: (Position, Position) -> R, g: (Position, Position) -> R, ps: seq<Position>, k: nat)
    requires k <= |ps|
    requires forall p1, p2 :: f(p1, p2) == g(p1, p2)
    ensures RowsBefore(f, ps, k) == RowsBefore(g, ps, k)
  {
    if k > 0 {
      RowsBeforeExt(f, g, ps, k - 1);
      BlockRowsExt(f, g, ps, k - 1, |ps|);
    }
  }

  /** One pass of the inner loop, for point i: the rows of the pairs (i, j),
      j > i, are appended to `all_results`, and the important ones also to
      `important_results`. `row` is `PairRow` of `table` and `axes`. */
  method AppendPairRows(table: Symbols.SymbolTable, axes: seq<Axes.Axis>, ps: seq<Position>, i: nat,
                        ghost row: (Position, Position) -> MidpointRow,
                        all0: seq<MidpointRow>, important0: seq<MidpointRow>)
      returns (allResults: seq<MidpointRow>, importantResults: seq<MidpointRow>)
    requires i < |ps|
    requires forall p1, p2 {:trigger PairRow(table, axes, p1, p2)} :: row(p1, p2) == PairRow(table, axes, p1, p2)
    requires important0 == Important(all0)
    ensures allResults == all0 + BlockRows(row, ps, i, |ps|)
    ensures importantResults == Important(allResults)
  {
    allResults, importantResults := all0, important0;
    for j := i + 1 to |ps|
      invariant allResults == all0 + BlockRows(row, ps, i, j)
      invariant importantResults == Important(allResults)
    {
      var p1, p2 := ps[i], ps[j];
      var mid := Midpoint(p1.longitude, p2.longitude);
      var hn8Mid := Harmonic8(mid);
      var sDeg := SabianDegree(mid);
      var hDeg := SabianDegree(hn8Mid);
      var data := MidpointRow(p1.name, p2.name, mid, Symbols.Lookup(table, sDeg),
                              hn8Mid, Symbols.Lookup(table, hDeg), Opt.None);
      var meaning := Axes.Classify(axes, p1.name, p2.name);
      if meaning.Some? {
        data := data.(meaning := meaning);
        importantResults := importantResults + [data];
      }
      assert data == PairRow(table, axes, p1, p2);
      ImportantSnoc(allResults, data);
      AppendAssoc(all0, BlockRows(row, ps, i, j), [data]);
      allResults := allResults + [data];
    }
  }

  /** The pair loop: for each i, for each j > i, the halfsum row of points i
      and j is appended to `all_results`, and also to `important_results` when
      the pair is an important axis. */
  method PairRows(table: Symbols.SymbolTable, axes: seq<Axes.Axis>, ps: seq<Position>)
      returns (allResults: seq<MidpointRow>, importantResults: seq<MidpointRow>)
    ensures allResults == AllRows(table, axes, ps)
    ensures importantResults == Important(allResults)
  {
    ghost var row := PairRowBuilder(table, axes);
    allResults, importantResults := [], [];
    for i := 0 to |ps|
      invariant allResults == RowsBefore(row, ps, i)
      invariant importantResults == Important(allResults)
    {
      allResults, importantResults := AppendPairRows(table, axes, ps, i, row, allResults, importantResults);
    }
    RowsBeforeExt(row, PairRowOf(table, axes), ps, |ps|);
  }
}
