# Sumiyui chart core in Dafny

This project models the calculation core of the Sumiyui destiny-redesign
tool (`app.py`). The tool computes an astrological chart. It places ten bodies
and two chart angles on the ecliptic, maps each longitude to a 1-based
Sabian degree with a text label, and takes each longitude's 8th harmonic. It
then forms the shortest-arc midpoint ("halfsum") of every pair of points and
picks out the pairs that make one of eight "important axes".

Modules:

- `Circle` (circle.dfy) covers Python's floor modulo on longitudes, `get_sabian_degree`, the
  8th-harmonic transform `(x * 8) % 360` and `calculate_midpoint`. It also
  defines a shorter-arc distance that states what the midpoint means.
- `Symbols` (symbols.dfy) covers the Sabian symbol table: the placeholder table, the
  conversion of parsed CSV rows into `"【symbol】 meaning"` labels, `load_sabian`
  and the lookup with its `"Degree n"` fallback.
- `Axes` (axes.dfy) covers `IMPORTANT_AXES` and the order-independent match of a
  pair against it through Python's sorted tuples.
- `Chart` (chart.dfy) covers the position map, the natal loop, the pairs the nested
  `i < j` loop visits, the pair loop building `all_results` and
  `important_results`, and their relation.
- `StandardChart` (standard_chart.dfy) covers the program's own twelve points: 66 halfsum rows,
  exactly 8 of them important.
- `Opt` (opt.dfy) is the option type used for the optional `Meaning`.

Longitudes are exact reals. The ephemeris is a parameter: a function from
body name to longitude, plus the Ascendant and the Midheaven. The parsed CSV
file is a parameter too: no file, an unreadable file, or its rows.

Behaviour of app.py that is easy to misread:

- A lookup miss yields `"Degree n"`, not `"Degree n Symbol"`. Only the
  placeholder table holds the longer form (app.py:106, app.py:131).
- `calculate_midpoint(0, 180)` is 90. At a difference of exactly 180 the
  no-offset branch is taken.
- `load_sabian` never fails. A missing file and any parse error both give
  the placeholder table inside the function.
- `calculate_midpoint` accepts any longitudes, not only ones in [0, 360).
  The shorter-arc property (`Circle.MidpointOnShorterArc`) needs both inputs
  in [0, 360), which the ephemeris delivers: `Midpoint(0, 710)` is 175,
  while the shorter-arc midpoint of 0 and 710 (the point 350) is 355.

## Model

| member | source | states |
|---|---|---|
| Circle.Mod360 | app.py:61 | `x % 360` lies in [0, 360) and differs from x by a whole number of turns (floor modulo, never negative) |
| Circle.Mod360Unique | app.py:61 | the remainder is the only value in [0, 360) a whole number of turns from x |
| Circle.Mod360Periodic | app.py:61 | shifting x by whole turns leaves `x % 360` unchanged |
| Circle.SabianDegree | app.py:53-55 | the degree index is in 1..360 and is the whole-degree part of `d % 360` plus one |
| Circle.SabianDegreePeriodic | app.py:53-55 | the index is unchanged when d moves by any multiple of 360 |
| Circle.SabianDegreeOfNormal | app.py:53-55 | for d in [0, 360) with n-1 <= d < n the index is n (0 to 1 is degree 1, 359 to 360 is degree 360) |
| Circle.Harmonic8 | app.py:100 | the 8th-harmonic longitude is in [0, 360) and differs from 8x by whole turns |
| Circle.Harmonic8Period45 | app.py:123 | the 8th harmonic repeats every 45 degrees |
| Circle.Harmonic8Degree | app.py:100-101 | the harmonic's degree index is in 1..360 and repeats every 45 degrees |
| Circle.Midpoint | app.py:57-61 | the midpoint always lies in [0, 360) |
| Circle.MidpointSymmetric | app.py:57-61 | the midpoint does not depend on the argument order |
| Circle.CircDist | app.py:58 | the shorter-arc distance between two longitudes is in [0, 180] |
| Circle.CircDistSymmetric | app.py:58 | the shorter-arc distance is symmetric |
| Circle.MidpointOnShorterArc | app.py:57-61 | for a, b in [0, 360) the midpoint is equally far from a and b along the shorter arc, each half being half the arc and at most 90 degrees |
| Circle.MidpointExamples | app.py:59-61 | midpoint(10, 20) = 15, midpoint(350, 10) = 0, and the ties midpoint(0, 180) = 90 and midpoint(280, 100) = 190 |
| Circle.MidpointOutsideTurn | app.py:59-61 | with an input outside [0, 360) the formula leaves the shorter arc: midpoint(0, 710) is 175, not the 355 of the equivalent point 350 |
| Symbols.NatToStringRoundTrip | app.py:29 | the decimal numeral of a degree reads back as that degree |
| Symbols.IntToStringInjective | app.py:29 | different integers get different numerals |
| Symbols.PlaceholderTable | app.py:29 | the placeholder table has exactly the keys 1..360, each mapped to "Degree i Symbol" |
| Symbols.RowLabel | app.py:41-44 | a row's label is "【", the symbol, "】 ", then the meaning, or nothing when there is no meaning column |
| Symbols.BuildTable | app.py:39-45 | the loop builds the table of the rows in order, and its keys are exactly the rows' degrees |
| Symbols.TableOfKeys | app.py:39-44 | a degree is a key exactly when some row has it |
| Symbols.TableOfLastWins | app.py:40-44 | the label stored for a degree is the last row's with that degree |
| Symbols.LoadSabian | app.py:26-48 | the rows' table when the file parses, the placeholder table when it is missing or unreadable |
| Symbols.Lookup | app.py:106 | a present degree gives its stored label, an absent one exactly "Degree n" |
| Symbols.LookupPlaceholder | app.py:29 | with the placeholder table each valid degree finds its own label and different degrees find different labels |
| Symbols.LookupMiss | app.py:131 | a degree no CSV row mentions gives "Degree n" |
| Axes.StrLessAsymmetric | app.py:137 | Python's string order is strict |
| Axes.StrLessTotal | app.py:137 | Python's string order is total on different strings |
| Axes.SortedPairEq | app.py:137-138 | two sorted pairs are equal exactly when they hold the same two names in either order |
| Axes.FirstMatchSpec | app.py:138-140 | a key matches exactly when some entry names the pair, and the meaning is that of the first such entry |
| Axes.ClassifySpec | app.py:137-140 | a pair is important exactly when some axis names it in either order, with that axis's meaning, and an unknown pair just has no meaning |
| Axes.ClassifySymmetric | app.py:137 | classification does not depend on the order of the two points |
| Axes.AxesDistinct | app.py:13-22 | the table has 8 entries and no two name the same pair |
| Axes.ClassifySunJupiter | app.py:14 | Sun/Jupiter is the success axis whichever way round |
| Chart.ChartPositions | app.py:80-90 | the position map has 12 distinct keys, Sun..Pluto then ASC and MC, each with its longitude |
| Chart.NatalRowSpec | app.py:97-108 | a natal row carries the label of its whole degree, an 8th harmonic in [0, 360), and the harmonic label of the point 45 degrees on |
| Chart.NatalRows | app.py:96-109 | the natal loop emits one row per point, in the position map's order |
| Chart.NatalRowsOfChart | app.py:80-90 | the chart's natal rows are named Sun..Pluto, ASC, MC in that order |
| Chart.InnerPairs | app.py:119 | the inner loop visits (i, j) for each j in range, in increasing j |
| Chart.OuterPairs | app.py:118-119 | every visited pair has i < j < n |
| Chart.OuterPairsLength | app.py:118-119 | after k outer passes twice the number of pairs is k(2n - k - 1) |
| Chart.OuterPairsSorted | app.py:118-119 | pairs are visited in strictly increasing lexicographic order |
| Chart.OuterPairsComplete | app.py:118-119 | every pair i < j < n with i among the first k is visited |
| Chart.PairsSpec | app.py:118-119 | n points give n(n-1)/2 pairs, exactly the i < j < n, each once, in lexicographic order |
| Chart.MidpointRow.Combination | app.py:129 | the combination label is both names, in loop order, around " / " |
| Chart.BlockRowsAt | app.py:119-142 | pass i of the outer loop yields the rows of (i, i+1), (i, i+2), ... in order |
| Chart.RowsBeforeAt | app.py:118-142 | the first k passes yield the rows of the first k passes' pairs, in visiting order |
| Chart.AllRowsCount | app.py:116-142 | `all_results` has n(n-1)/2 rows, one per visited pair |
| Chart.AllRowsAt | app.py:118-142 | row m of `all_results` is the halfsum row of the m-th pair (i, j), names point i then j, and carries the axis meaning of the two names |
| Chart.ImportantIsSubsequence | app.py:139-142 | `important_results` is the subsequence of `all_results` at the ascending positions of the rows with a meaning, and a position is among them exactly when its row has one |
| Chart.ImportantMembers | app.py:139-142 | every important row has a meaning and is in `all_results`, and every row of it with a meaning is important |
| Chart.ImportantCountOf | app.py:137-142 | when the important index pairs form a set s, `important_results` has exactly one row per element of s |
| Chart.AppendPairRows | app.py:119-142 | one inner pass appends its block of rows to `all_results` and keeps `important_results` the important subsequence |
| Chart.PairRows | app.py:114-142 | the nested loop builds exactly `all_results` and its important subsequence |
| StandardChart.ChartAxisPair | app.py:13-22 | among the twelve points, i < j is important exactly when (i, j) is one of the eight axis pairs |
| StandardChart.ChartImportantPairs | app.py:80-90 | for any ephemeris, the important pairs of the chart are exactly the eight axis pairs |
| StandardChart.StandardHalfsumCounts | app.py:116-142 | for any ephemeris and symbol table the halfsum table has 66 rows, exactly 8 of them important |

## Left out

- The Streamlit page is not modelled: page setup, sidebar inputs, tables, the expander, the download button, error display and `@st.cache_data`. It is presentation only.
- The Swiss Ephemeris calls (`swe.julday`, `swe.calc_ut`, `swe.houses_ex`) and the local-time-to-UT conversion feeding them are not modelled. They are a foreign numerical library; longitudes enter as a parameter.
- Reading `sabian.csv` is not modelled. That covers the file-existence test, the UTF-8 then Shift-JIS retry, pandas parsing and column lower-casing. It is I/O; the outcome enters as `CsvSource`, and any parse or `int()` failure is its `Unreadable` case.
- pandas turns an empty meaning cell into the text "nan". That is a library artefact; a row's meaning is taken as given text.
- `round(x, 2)` in the displayed columns is not modelled, because it is display formatting; rows keep exact longitudes.
- Floating-point behaviour is not modelled. Reals are exact, so an IEEE case such as a tiny negative longitude whose `% 360` rounds to 360.0 does not arise.
- The CSV export (`to_csv(...).encode('utf-8')`) is not modelled. It is output formatting of `all_results`.
- In the source, `data` is one dictionary appended to both lists and updated before either append. Rows here are immutable values, so that aliasing has no observable effect and is not modelled.
