/**
 * The important-axis table and the order-independent classification of a
 * pair of chart points against it. A pair is compared with each table key
 * after both are sorted as two-element tuples of strings, as Python's
 * `tuple(sorted(...))` does; the first matching entry gives the meaning.
 */
module Axes {

  import Opt

  // ---------------------------------------------------------------------
  // Python's string order: lexicographic by code point.
  // ---------------------------------------------------------------------

  predicate StrLess(a: string, b: string) {
    if a == [] then b != []
    else if b == [] then false
    else if a[0] != b[0] then a[0] < b[0]
    else StrLess(a[1..], b[1..])
  }

  /** The order is strict: never both ways round. */
  lemma {:induction false} StrLessAsymmetric(a: string, b: string)
    ensures !(StrLess(a, b) && StrLess(b, a))
  {
    if a != [] && b != [] && a[0] == b[0] {
      StrLessAsymmetric(a[1..], b[1..]);
    }
  }

  /** The order is total: two different strings are always comparable. */
  lemma {:induction false} StrLessTotal(a: string, b: string)
    requires a != b
    ensures StrLess(a, b) || StrLess(b, a)
  {
    if a != [] && b != [] && a[0] == b[0] {
      assert a == [a[0]] + a[1..] && b == [b[0]] + b[1..];
      StrLessTotal(a[1..], b[1..]);
    }
  }

  /** `tuple(sorted((a, b)))`: the smaller name first. */
  function SortedPair(a: string, b: string): (string, string) {
    if StrLess(b, a) then (b, a) else (a, b)
  }

  /** Two pairs have the same sorted form exactly when they hold the same
      two names, in either order. */
  lemma SortedPairEq(a: string, b: string, c: string, d: string)
    ensures SortedPair(a, b) == SortedPair(c, d) <==> (a == c && b == d) || (a == d && b == c)
  {
    StrLessAsymmetric(a, b);
    StrLessAsymmetric(c, d);
    if a != b { StrLessTotal(a, b); }
    if c != d { StrLessTotal(c, d); }
  }

  /** One entry of `IMPORTANT_AXES`: a key of two point names and its meaning. */
  datatype Axis = Axis(first: string, second: string, meaning: string)

  /** `IMPORTANT_AXES`, in the order the dictionary literal lists them. */
  const IMPORTANT_AXES: seq<Axis> := [
    Axis("Sun", "Jupiter", "成功軸: 社会的発展のトリガー"),
    Axis("Venus", "Jupiter", "幸福軸: 感情的充足と豊かさ"),
    Axis("Sun", "Moon", "家庭・結婚軸: 公私の統合点"),
    Axis("Mars", "Jupiter", "飛躍軸: 実行力と拡大の結びつき"),
    Axis("Saturn", "Pluto", "忍耐軸: 根本的な再構築のデバッグ"),
    Axis("Jupiter", "Uranus", "開運軸: 突然のシステム更新"),
    Axis("Sun", "ASC", "健康・自己表現軸: 生命力のデバッグ"),
    Axis("MC", "Jupiter", "社会・成功軸: キャリアの最大チャンス")
  ]

  /** The entry's key holds the names `a` and `b`, in either order. */
  predicate Names(axis: Axis, a: string, b: string) {
    (axis.first == a && axis.second == b) || (axis.first == b && axis.second == a)
  }

  /** The meaning of the first entry whose sorted key equals `key`. */
  function FirstMatch(axes: seq<Axis>, key: (string, string)): Opt.Option<string> {
    if axes == [] then Opt.None
    else if SortedPair(axes[0].first, axes[0].second) == key then Opt.Some(axes[0].meaning)
    else FirstMatch(axes[1..], key)
  }

  /** The important-axis judgement of a pair of points against an axis
      table (the program passes `IMPORTANT_AXES`). */
  function Classify(axes: seq<Axis>, a: string, b: string): Opt.Option<string> {
    FirstMatch(axes, SortedPair(a, b))
  }

  /** `FirstMatch` finds a meaning exactly when some entry names the pair,
      and the meaning it finds is that of the first such entry. */
  lemma {:induction false} FirstMatchSpec(axes: seq<Axis>, a: string, b: string)
    ensures FirstMatch(axes, SortedPair(a, b)).Some? <==>
      exists k :: 0 <= k < |axes| && Names(axes[k], a, b)
    ensures FirstMatch(axes, SortedPair(a, b)).Some? ==>
      exists k :: 0 <= k < |axes| && Names(axes[k], a, b)
        && FirstMatch(axes, SortedPair(a, b)).value == axes[k].meaning
        && forall l :: 0 <= l < k ==> !Names(axes[l], a, b)
  {
    if axes != [] {
      SortedPairEq(axes[0].first, axes[0].second, a, b);
      FirstMatchSpec(axes[1..], a, b);
      if !Names(axes[0], a, b) {
        if exists k :: 0 <= k < |axes| && Names(axes[k], a, b) {
          var k :| 0 <= k < |axes| && Names(axes[k], a, b);
          assert Names(axes[1..][k - 1], a, b);
        }
        if FirstMatch(axes, SortedPair(a, b)).Some? {
          var k :| 0 <= k < |axes| - 1 && Names(axes[1..][k], a, b)
            && FirstMatch(axes, SortedPair(a, b)).value == axes[1..][k].meaning
            && forall l :: 0 <= l < k ==> !Names(axes[1..][l], a, b);
          assert Names(axes[k + 1], a, b);
          forall l | 0 <= l < k + 1 ensures !Names(axes[l], a, b) {
            if l > 0 { assert axes[l] == axes[1..][l - 1]; }
          }
        }
      }
    }
  }

  /** A pair is important exactly when some entry names it, in either order;
      its meaning is that entry's. No pair is ever rejected with an error:
      an unknown pair just has no meaning. */
  lemma ClassifySpec(axes: seq<Axis>, a: string, b: string)
    ensures Classify(axes, a, b).Some? <==>
      exists k :: 0 <= k < |axes| && Names(axes[k], a, b)
    ensures Classify(axes, a, b).Some? ==>
      exists k :: 0 <= k < |axes| && Names(axes[k], a, b)
        && Classify(axes, a, b).value == axes[k].meaning
  {
    FirstMatchSpec(axes, a, b);
  }

  /** The order of the two points does not matter. */
  lemma ClassifySymmetric(axes: seq<Axis>, a: string, b: string)
    ensures Classify(axes, a, b) == Classify(axes, b, a)
  {
    SortedPairEq(a, b, b, a);
  }

  /** The table has eight entries and no two of them name the same pair,
      so the sorted-key match can never be ambiguous. */
  lemma AxesDistinct()
    ensures |IMPORTANT_AXES| == 8
    ensures forall k, l :: 0 <= k < l < |IMPORTANT_AXES| ==>
      !Names(IMPORTANT_AXES[l], IMPORTANT_AXES[k].first, IMPORTANT_AXES[k].second)
  {
  }

  /** Success axis looked up both ways round. */
  lemma ClassifySunJupiter()
    ensures Classify(IMPORTANT_AXES, "Jupiter", "Sun") == Classify(IMPORTANT_AXES, "Sun", "Jupiter")
         == Opt.Some("成功軸: 社会的発展のトリガー")
  {
    ClassifySymmetric(IMPORTANT_AXES, "Jupiter", "Sun");
    assert SortedPair("Sun", "Jupiter") == ("Jupiter", "Sun");
  }
}
