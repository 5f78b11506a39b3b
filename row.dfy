/** The linear container solver of `RowState` (src/layout/row.rs): the desired
    pass, the practical pass with its growth and shrink branches, and the row
    object with its two keyed caches. Each child is an abstract widget whose
    dimensions at a width are given by an estimator. */
module Row {
  import opened Dimensions
  import opened SeqMath

  // ---------------------------------------------------------------------
  // Projections of the children's dimension records
  // ---------------------------------------------------------------------

  function PrefWidths(ds: seq<Dims>): (r: seq<int>)
    ensures |r| == |ds| && forall i :: 0 <= i < |ds| ==> r[i] == ds[i].preferred.width
  {
    if ds == [] then [] else PrefWidths(ds[..|ds| - 1]) + [ds[|ds| - 1].preferred.width]
  }

  function MinWidths(ds: seq<Dims>): (r: seq<int>)
    ensures |r| == |ds| && forall i :: 0 <= i < |ds| ==> r[i] == ds[i].min.width
  {
    if ds == [] then [] else MinWidths(ds[..|ds| - 1]) + [ds[|ds| - 1].min.width]
  }

  function AlignWidths(ds: seq<Dims>): (r: seq<int>)
    ensures |r| == |ds| && forall i :: 0 <= i < |ds| ==> r[i] == ds[i].alignSizeTo.width
  {
    if ds == [] then [] else AlignWidths(ds[..|ds| - 1]) + [ds[|ds| - 1].alignSizeTo.width]
  }

  function MinHeights(ds: seq<Dims>): (r: seq<int>)
    ensures |r| == |ds| && forall i :: 0 <= i < |ds| ==> r[i] == ds[i].min.height
  {
    if ds == [] then [] else MinHeights(ds[..|ds| - 1]) + [ds[|ds| - 1].min.height]
  }

  function PrefHeights(ds: seq<Dims>): (r: seq<int>)
    ensures |r| == |ds| && forall i :: 0 <= i < |ds| ==> r[i] == ds[i].preferred.height
  {
    if ds == [] then [] else PrefHeights(ds[..|ds| - 1]) + [ds[|ds| - 1].preferred.height]
  }

  function HSpacers(ds: seq<Dims>): (r: seq<nat>)
    ensures |r| == |ds| && forall i :: 0 <= i < |ds| ==> r[i] == ds[i].horizontalSpacerCount
  {
    if ds == [] then [] else HSpacers(ds[..|ds| - 1]) + [ds[|ds| - 1].horizontalSpacerCount]
  }

  function VSpacers(ds: seq<Dims>): (r: seq<nat>)
    ensures |r| == |ds| && forall i :: 0 <= i < |ds| ==> r[i] == ds[i].verticalSpacerCount
  {
    if ds == [] then [] else VSpacers(ds[..|ds| - 1]) + [ds[|ds| - 1].verticalSpacerCount]
  }

  /** What `fixup()` is relied on to guarantee before the shrink loop: every
      horizontal alignment quantum is a positive number of cells. */
  predicate AlignPositive(ds: seq<Dims>) {
    forall i :: 0 <= i < |ds| ==> ds[i].alignSizeTo.width >= 1
  }

  // ---------------------------------------------------------------------
  // Desired pass
  // ---------------------------------------------------------------------

  /** A desired plot together with the row's own dimensions. */
  datatype Desired = Desired(plots: seq<int>, dims: Dims)

  /** The desired pass panics (`assert_ne!`) exactly when there are children
      and the running minimum of vertical spacer counts, started at
      `usize::MAX`, is still `usize::MAX`. */
  predicate DesiredPanics(ds: seq<Dims>) {
    |ds| > 0 && CappedMin(VSpacers(ds), USIZE_MAX) == USIZE_MAX
  }

  /** The row's desired dimensions: widths add up along the row, heights are
      the tallest child's, spacer counts are summed across and minimised down. */
  function DesiredDims(ds: seq<Dims>): Dims {
    Dims(
      Size(Sum(MinWidths(ds)), Max0(MinHeights(ds))),
      Size(Sum(PrefWidths(ds)), Max0(PrefHeights(ds))),
      None,
      Size(1, 1),
      SumNat(HSpacers(ds)),
      if |ds| > 0 then CappedMin(VSpacers(ds), USIZE_MAX) else 0)
  }

  /** `internal_compute_plots_desired`; `None` is the assertion failure. */
  method ComputePlotsDesired(ds: seq<Dims>) returns (r: Option<Desired>)
    ensures r.None? <==> DesiredPanics(ds)
    ensures r.Some? ==> r.value.plots == PrefWidths(ds) && r.value.dims == DesiredDims(ds)
  {
    var preferred: seq<int> := [];
    var minHMax, preferredHMax := 0, 0;
    var minW, preferredW := 0, 0;
    var horizontalSpacerCount: nat := 0;
    var verticalSpacerCount: nat := if |ds| > 0 then USIZE_MAX else 0;
    for w := 0 to |ds|
      invariant preferred == PrefWidths(ds[..w])
      invariant minHMax == Max0(MinHeights(ds[..w])) && preferredHMax == Max0(PrefHeights(ds[..w]))
      invariant minW == Sum(MinWidths(ds[..w])) && preferredW == Sum(PrefWidths(ds[..w]))
      invariant horizontalSpacerCount == SumNat(HSpacers(ds[..w]))
      invariant |ds| > 0 ==> verticalSpacerCount == CappedMin(VSpacers(ds[..w]), USIZE_MAX)
      invariant |ds| == 0 ==> verticalSpacerCount == 0
    {
      var dim := ds[w];
      assert ds[..w + 1][..w] == ds[..w];
      Max0Append(MinHeights(ds[..w]), dim.min.height);
      Max0Append(PrefHeights(ds[..w]), dim.preferred.height);
      SumAppend(MinWidths(ds[..w]), dim.min.width);
      SumAppend(PrefWidths(ds[..w]), dim.preferred.width);
      SumNatAppend(HSpacers(ds[..w]), dim.horizontalSpacerCount);
      CappedMinAppend(VSpacers(ds[..w]), USIZE_MAX, dim.verticalSpacerCount);

      preferred := preferred + [dim.preferred.width];
      minHMax := if minHMax < dim.min.height then dim.min.height else minHMax;
      preferredHMax := if preferredHMax < dim.preferred.height then dim.preferred.height else preferredHMax;
      minW := minW + dim.min.width;
      preferredW := preferredW + dim.preferred.width;
      horizontalSpacerCount := horizontalSpacerCount + dim.horizontalSpacerCount;
      verticalSpacerCount := if dim.verticalSpacerCount < verticalSpacerCount then dim.verticalSpacerCount else verticalSpacerCount;
    }
    assert ds[..|ds|] == ds;
    if verticalSpacerCount == USIZE_MAX {
      return None;
    }
    var dims := Dims(Size(minW, minHMax), Size(preferredW, preferredHMax), None, Size(1, 1),
                     horizontalSpacerCount, verticalSpacerCount);
    return Some(Desired(preferred, dims));
  }

  /** The row's desired heights are those of its tallest child (0 with no children). */
  lemma DesiredHeights(ds: seq<Dims>)
    ensures var h := DesiredDims(ds).min.height;
      h >= 0 && (forall i :: 0 <= i < |ds| ==> ds[i].min.height <= h) &&
      (h == 0 || exists i :: 0 <= i < |ds| && h == ds[i].min.height)
    ensures var h := DesiredDims(ds).preferred.height;
      h >= 0 && (forall i :: 0 <= i < |ds| ==> ds[i].preferred.height <= h) &&
      (h == 0 || exists i :: 0 <= i < |ds| && h == ds[i].preferred.height)
  {
    Max0IsMax(MinHeights(ds));
    Max0IsMax(PrefHeights(ds));
  }

  /** The vertical spacer count of a row that does not panic is 0 for no
      children, and otherwise the smallest child count, below `usize::MAX`;
      the pass panics only if every child reports `usize::MAX` or more. */
  lemma DesiredVerticalSpacers(ds: seq<Dims>)
    ensures DesiredPanics(ds) <==> |ds| > 0 && forall i :: 0 <= i < |ds| ==> ds[i].verticalSpacerCount >= USIZE_MAX
    ensures |ds| == 0 ==> DesiredDims(ds).verticalSpacerCount == 0
    ensures |ds| > 0 && !DesiredPanics(ds) ==>
      var v := DesiredDims(ds).verticalSpacerCount;
      v < USIZE_MAX && (forall i :: 0 <= i < |ds| ==> v <= ds[i].verticalSpacerCount) &&
      exists i :: 0 <= i < |ds| && v == ds[i].verticalSpacerCount
  {
    VSpacerBounds(ds);
    assert |ds| > 0 ==> DesiredDims(ds).verticalSpacerCount == CappedMin(VSpacers(ds), USIZE_MAX);
  }

  /** The running minimum of the vertical spacer counts, in terms of the children. */
  lemma VSpacerBounds(ds: seq<Dims>)
    ensures var v := CappedMin(VSpacers(ds), USIZE_MAX);
      && v <= USIZE_MAX
      && (forall i :: 0 <= i < |ds| ==> v <= ds[i].verticalSpacerCount)
      && (v == USIZE_MAX || exists i :: 0 <= i < |ds| && v == ds[i].verticalSpacerCount)
  {
    CappedMinIsMin(VSpacers(ds), USIZE_MAX);
  }

  // ---------------------------------------------------------------------
  // Practical pass: the resize list and the growth branch
  // ---------------------------------------------------------------------

  /** Each child index, repeated by its horizontal spacer count, in child order. */
  function SpacerList(ds: seq<Dims>): seq<nat> {
    if ds == [] then [] else SpacerList(ds[..|ds| - 1]) + Repeat(|ds| - 1, ds[|ds| - 1].horizontalSpacerCount)
  }

  /** The children that take part in growth: the spacer list, or every child once if it is empty. */
  function ResizeList(ds: seq<Dims>): seq<nat> {
    if SpacerList(ds) == [] then Range(|ds|) else SpacerList(ds)
  }

  lemma {:induction false} SpacerListShape(ds: seq<Dims>)
    ensures |SpacerList(ds)| == SumNat(HSpacers(ds))
    ensures forall k :: 0 <= k < |SpacerList(ds)| ==> SpacerList(ds)[k] < |ds|
    ensures forall k, l :: 0 <= k < l < |SpacerList(ds)| ==> SpacerList(ds)[k] <= SpacerList(ds)[l]
    ensures forall i :: 0 <= i < |ds| ==> Count(SpacerList(ds), i) == ds[i].horizontalSpacerCount
  {
    if ds != [] {
      var n := |ds| - 1;
      var t := ds[..n];
      SpacerListShape(t);
      var a, b := SpacerList(t), Repeat(n, ds[n].horizontalSpacerCount);
      assert HSpacers(ds)[..n] == HSpacers(t);
      forall i | 0 <= i < |ds| ensures Count(SpacerList(ds), i) == ds[i].horizontalSpacerCount {
        CountConcat(a, b, i);
        CountRepeat(n, ds[n].horizontalSpacerCount, i);
        if i == n {
          CountAbsent(a, i);
        }
      }
    }
  }

  /** Which children the growth branch widens and how often: each child once
      per spacer unit, or every child exactly once when no child has any; in
      child order. */
  lemma ResizeListMeaning(ds: seq<Dims>)
    requires |ds| > 0
    ensures |ResizeList(ds)| > 0
    ensures forall k :: 0 <= k < |ResizeList(ds)| ==> ResizeList(ds)[k] < |ds|
    ensures forall k, l :: 0 <= k < l < |ResizeList(ds)| ==> ResizeList(ds)[k] <= ResizeList(ds)[l]
    ensures forall i :: 0 <= i < |ds| ==>
      Count(ResizeList(ds), i) == if SumNat(HSpacers(ds)) == 0 then 1 else ds[i].horizontalSpacerCount
  {
    SpacerListShape(ds);
    if SpacerList(ds) == [] {
      forall i | 0 <= i < |ds| ensures Count(Range(|ds|), i) == 1 {
        CountRange(|ds|, i);
      }
    }
  }

  /** The growth branch's result: every list entry gained `surplus / k` cells
      and the first `surplus % k` entries one more, so the plot fills `width`. */
  ghost predicate Grown(pref: seq<int>, likes: seq<nat>, width: int, r: seq<int>) {
    var surplus := width - Sum(pref);
    && |likes| > 0
    && surplus >= 0
    && var portion, rem := surplus / |likes|, surplus % |likes|;
    && |r| == |pref|
    && Sum(r) == width
    && (forall i :: 0 <= i < |pref| ==> r[i] == pref[i] + portion * Count(likes, i) + Count(likes[..rem], i))
  }

  /** Each child has gained `portion` cells per entry naming it among the
      first `k` entries of the resize list. */
  ghost predicate Gained(base: seq<int>, r: seq<int>, likes: seq<nat>, k: nat, portion: int)
    requires k <= |likes|
  {
    |r| == |base| && forall j :: 0 <= j < |base| ==> r[j] == base[j] + portion * Count(likes[..k], j)
  }

  /** One entry of the resize list gains `portion` cells: the per-child
      account moves from the first `k` entries to the first `k + 1`. */
  lemma {:induction false} GainStep(base: seq<int>, r: seq<int>, likes: seq<nat>, k: nat, portion: int)
    requires k < |likes| && likes[k] < |base|
    requires Gained(base, r, likes, k, portion)
    ensures Gained(base, r[likes[k] := r[likes[k]] + portion], likes, k + 1, portion)
    ensures Sum(r[likes[k] := r[likes[k]] + portion]) == Sum(r) + portion
  {
    var r' := r[likes[k] := r[likes[k]] + portion];
    SumUpdate(r, likes[k], r[likes[k]] + portion);
    assert likes[..k + 1] == likes[..k] + [likes[k]];
    forall j | 0 <= j < |base|
      ensures r'[j] == base[j] + portion * Count(likes[..k + 1], j)
    {
      CountAppend(likes[..k], likes[k], j);
      var c := Count(likes[..k], j);
      assert r[j] == base[j] + portion * c;
      if likes[k] == j {
        MulSucc(c, portion);
        assert portion * (c + 1) == portion * c + portion;
      }
    }
  }

  /** The growth branch of `internal_compute_plots_practical`. */
  method Grow(pref: seq<int>, likes: seq<nat>, width: int) returns (r: seq<int>)
    requires |likes| > 0 && forall k :: 0 <= k < |likes| ==> likes[k] < |pref|
    requires Sum(pref) < width
    ensures Grown(pref, likes, width, r)
  {
    r := pref;
    var ogRem := width - Sum(pref);
    var currentRem := ogRem;
    var portion := ogRem / |likes|;
    assert Gained(pref, r, likes, 0, portion);
    for k := 0 to |likes|
      invariant currentRem == ogRem - k * portion
      invariant Sum(r) == Sum(pref) + k * portion
      invariant Gained(pref, r, likes, k, portion)
    {
      var i := likes[k];
      GainStep(pref, r, likes, k, portion);
      MulSucc(k, portion);
      r := r[i := r[i] + portion];
      currentRem := currentRem - portion;
    }
    assert likes[..|likes|] == likes;
    DivModSplit(ogRem, |likes|);
    assert currentRem == ogRem % |likes|;
    ghost var grown := r;
    assert Gained(grown, r, likes, 0, 1);
    for k := 0 to currentRem
      invariant Sum(r) == Sum(pref) + |likes| * portion + k
      invariant Gained(grown, r, likes, k, 1)
    {
      var i := likes[k];
      GainStep(grown, r, likes, k, 1);
      r := r[i := r[i] + 1];
    }
    GrownFrom(pref, likes, width, grown, r, portion, currentRem);
  }

  lemma DivModSplit(x: int, n: int)
    requires n > 0
    ensures x - n * (x / n) == x % n
  {
  }

  /** The two growth loops' end state is `Grown`. */
  lemma GrownFrom(pref: seq<int>, likes: seq<nat>, width: int, grown: seq<int>, r: seq<int>,
                  portion: int, rem: int)
    requires |likes| > 0 && 0 <= width - Sum(pref)
    requires portion == (width - Sum(pref)) / |likes| && rem == (width - Sum(pref)) % |likes|
    requires 0 <= rem <= |likes| && Sum(r) == Sum(pref) + |likes| * portion + rem
    requires Gained(pref, grown, likes, |likes|, portion) && Gained(grown, r, likes, rem, 1)
    ensures Grown(pref, likes, width, r)
  {
    assert likes[..|likes|] == likes;
    DivModSplit(width - Sum(pref), |likes|);
  }

  // ---------------------------------------------------------------------
  // Practical pass: the shrink branch
  // ---------------------------------------------------------------------

  /** A child may lose a quantum in a sweep: outside desperate mode only above
      its minimum, and in any mode only while its allotment is positive. */
  predicate Eligible(v: int, minimum: int, desperate: bool) {
    (desperate || v > minimum) && v > 0
  }

  /** Above its floor: eligible in either mode. */
  predicate AboveFloor(v: int, minimum: int) {
    v > minimum && v > 0
  }

  /** Minimums are non-negative and each preferred width is its minimum plus
      a whole number of quanta (what the alignment contract describes). */
  predicate Tidy(pref: seq<int>, mins: seq<int>, aligns: seq<int>)
    requires |pref| == |mins| == |aligns|
    requires forall i :: 0 <= i < |aligns| ==> aligns[i] >= 1
  {
    forall i :: 0 <= i < |pref| ==> 0 <= mins[i] <= pref[i] && (pref[i] - mins[i]) % aligns[i] == 0
  }

  /** Number of quanta the shrink took from child `i`. */
  function Steps(pref: seq<int>, r: seq<int>, aligns: seq<int>, i: nat): int
    requires |pref| == |r| == |aligns| && i < |aligns| && aligns[i] >= 1
  {
    (pref[i] - r[i]) / aligns[i]
  }

  /** Outside desperate mode a child is shrunk only while above this: its
      minimum, and never below 0. */
  function Floor(minimum: int): int {
    if minimum < 0 then 0 else minimum
  }

  /** The quanta of `a` taken one at a time from `v` until it is at most `f`:
      the distance rounded up to whole quanta. */
  function Quanta(v: int, f: int, a: int): nat
    requires a >= 1
  {
    if v <= f then 0 else (v - f + a - 1) / a
  }

  /** After `c` of those quanta the value is still above `f` exactly while
      some remain. */
  lemma QuantaMeaning(v: int, f: int, a: int, c: nat)
    requires a >= 1 && c <= Quanta(v, f, a)
    ensures v - c * a > f <==> c < Quanta(v, f, a)
  {
    if v > f {
      var q := Quanta(v, f, a);
      var rem := (v - f + a - 1) % a;
      assert v - f + a - 1 == q * a + rem && 0 <= rem < a;
      MulSucc(q - 1, a);
      if c < q {
        MulLe(c, q - 1, a);
      }
    }
  }

  /** A value a whole number of quanta above `f` steps down onto `f` exactly. */
  lemma QuantaExact(v: int, f: int, a: int)
    requires a >= 1 && f <= v && (v - f) % a == 0
    ensures v - Quanta(v, f, a) * a == f
  {
    if v > f {
      var k := (v - f) / a;
      assert v - f == k * a;
      DivUnique(v - f + a - 1, a, k, a - 1);
    }
  }

  /** Quanta a child preferring `v` with minimum `m` gives up outside desperate mode. */
  function CalmQuanta(v: int, m: int, a: int): nat
    requires a >= 1
  {
    Quanta(v, Floor(m), a)
  }

  /** Quanta it gives up afterwards in desperate mode, down to 0. */
  function DespQuanta(v: int, m: int, a: int): nat
    requires a >= 1
  {
    Quanta(v - CalmQuanta(v, m, a) * a, 0, a)
  }

  /** Quanta that child has lost after `visits` visits in the calm phase, or
      after the whole calm phase and `visits` visits in the desperate one. */
  function Lost(v: int, m: int, a: int, desperate: bool, visits: nat): nat
    requires a >= 1
  {
    var k := CalmQuanta(v, m, a);
    if !desperate then (if visits < k then visits else k)
    else k + (var l := DespQuanta(v, m, a); if visits < l then visits else l)
  }

  /** The next visit, number `visits + 1` of the phase, takes a quantum. */
  predicate Takes(v: int, m: int, a: int, desperate: bool, visits: nat)
    requires a >= 1
  {
    visits < if desperate then DespQuanta(v, m, a) else CalmQuanta(v, m, a)
  }

  /** Sweeps child `j` has been visited in: every completed sweep, plus the
      current partial one if it has reached `j` (it visits `from` and above). */
  function Visits(j: nat, sweeps: nat, from: nat): nat {
    if j >= from then sweeps + 1 else sweeps
  }

  /** The allotments once sweep `s` of the calm or desperate phase has visited
      the children from `f` on; with `f == |pref|` the sweeps before it are
      complete. */
  function Outcome(pref: seq<int>, mins: seq<int>, aligns: seq<int>, desperate: bool, s: nat, f: nat): (r: seq<int>)
    requires |pref| == |mins| == |aligns|
    requires forall i :: 0 <= i < |aligns| ==> aligns[i] >= 1
    ensures |r| == |pref|
  {
    seq(|pref|, j requires 0 <= j < |pref| =>
      pref[j] - Lost(pref[j], mins[j], aligns[j], desperate, Visits(j, s, f)) * aligns[j])
  }

  /** The allotments when the calm phase is over: every child at or below its floor. */
  function CalmEnd(pref: seq<int>, mins: seq<int>, aligns: seq<int>): (r: seq<int>)
    requires |pref| == |mins| == |aligns|
    requires forall i :: 0 <= i < |aligns| ==> aligns[i] >= 1
  {
    Outcome(pref, mins, aligns, true, 0, |pref|)
  }

  /** The shrink loop breaks in sweep `s` of its calm or desperate phase,
      right after child `f` gave up a quantum: that step is the first to bring
      the sum to at most `width`, and a desperate phase happens only when the
      calm one ends above `width`. */
  ghost predicate BreaksAt(pref: seq<int>, mins: seq<int>, aligns: seq<int>, width: int,
                           desperate: bool, s: nat, f: nat)
    requires |pref| == |mins| == |aligns|
    requires forall i :: 0 <= i < |aligns| ==> aligns[i] >= 1
  {
    && f < |pref|
    && Takes(pref[f], mins[f], aligns[f], desperate, s)
    && (desperate ==> Sum(CalmEnd(pref, mins, aligns)) > width)
    && var r := Outcome(pref, mins, aligns, desperate, s, f);
       Sum(r) <= width < Sum(r) + aligns[f]
  }

  /** The shrink branch's result: the preferred widths when they already fit,
      and otherwise the allotments at the step where the loop breaks. */
  ghost predicate Shrunk(pref: seq<int>, mins: seq<int>, aligns: seq<int>, width: int, r: seq<int>)
    requires |pref| == |mins| == |aligns|
    requires forall i :: 0 <= i < |aligns| ==> aligns[i] >= 1
  {
    && (Sum(pref) <= width ==> r == pref)
    && (Sum(pref) > width ==> exists desperate: bool, s: nat, f: nat ::
          BreaksAt(pref, mins, aligns, width, desperate, s, f) && r == Outcome(pref, mins, aligns, desperate, s, f))
  }

  lemma MulSucc(c: int, a: int)
    ensures (c + 1) * a == c * a + a
  {
  }

  /** One visit to child `j`: it is eligible exactly when the visit takes a
      quantum, and the loss so far then grows by one. */
  lemma ChildStep(v: int, m: int, a: int, desperate: bool, visits: nat)
    requires a >= 1
    ensures Eligible(v - Lost(v, m, a, desperate, visits) * a, m, desperate) <==> Takes(v, m, a, desperate, visits)
    ensures Takes(v, m, a, desperate, visits) ==>
      Lost(v, m, a, desperate, visits + 1) == Lost(v, m, a, desperate, visits) + 1
    ensures !Takes(v, m, a, desperate, visits) ==>
      Lost(v, m, a, desperate, visits + 1) == Lost(v, m, a, desperate, visits)
  {
    var c := Lost(v, m, a, desperate, visits);
    if desperate {
      DespEligible(v, m, a, c - CalmQuanta(v, m, a));
    } else {
      QuantaMeaning(v, Floor(m), a, c);
    }
  }

  /** In desperate mode a child stays eligible while desperate quanta remain. */
  lemma DespEligible(v: int, m: int, a: int, e: nat)
    requires a >= 1 && e <= DespQuanta(v, m, a)
    ensures v - (CalmQuanta(v, m, a) + e) * a > 0 <==> e < DespQuanta(v, m, a)
  {
    var k := CalmQuanta(v, m, a);
    assert v - (k + e) * a == (v - k * a) - e * a;
    QuantaMeaning(v - k * a, 0, a, e);
  }

  /** What one child's allotment `r` at a step of the shrink says. */
  lemma ChildFacts(v: int, m: int, a: int, desperate: bool, visits: nat, r: int)
    requires a >= 1 && r == v - Lost(v, m, a, desperate, visits) * a
    ensures var c := Lost(v, m, a, desperate, visits);
      && r <= v && (v - r) % a == 0 && (v - r) / a == c
      && (r < v <==> c >= 1)
      && (r < v ==> v > 0 && r + a > 0)
      && (!desperate ==> c <= visits && r >= v - CalmQuanta(v, m, a) * a)
      && (AboveFloor(r, m) ==> !desperate && c == visits)
  {
    var c := Lost(v, m, a, desperate, visits);
    MulDivCancel(c, a);
    MulBound(c, a);
    if desperate {
      DespChild(v, m, a, c - CalmQuanta(v, m, a));
    } else {
      CalmChild(v, m, a, c);
    }
  }

  /** A child that has lost `c` of its calm quanta. */
  lemma CalmChild(v: int, m: int, a: int, c: nat)
    requires a >= 1 && c <= CalmQuanta(v, m, a)
    ensures 0 < c ==> v > 0 && v - c * a + a > 0
    ensures v - c * a >= v - CalmQuanta(v, m, a) * a
    ensures AboveFloor(v - c * a, m) ==> c < CalmQuanta(v, m, a)
  {
    MulLe(c, CalmQuanta(v, m, a), a);
    QuantaMeaning(v, Floor(m), a, c);
    if c > 0 {
      QuantaMeaning(v, Floor(m), a, c - 1);
      MulSucc(c - 1, a);
    }
  }

  /** A child that has lost all its calm quanta and `e` of its desperate ones. */
  lemma DespChild(v: int, m: int, a: int, e: nat)
    requires a >= 1 && e <= DespQuanta(v, m, a)
    ensures var k := CalmQuanta(v, m, a);
      var r := v - (k + e) * a;
      && (0 < k + e ==> v > 0 && r + a > 0)
      && !AboveFloor(r, m)
  {
    var k := CalmQuanta(v, m, a);
    var b := v - k * a;
    QuantaMeaning(v, Floor(m), a, k);
    assert v - (k + e) * a == b - e * a;
    MulLe(0, e, a);
    if e > 0 {
      QuantaMeaning(b, 0, a, e - 1);
      MulSucc(e - 1, a);
      MulLe(0, k, a);
    } else if k > 0 {
      QuantaMeaning(v, Floor(m), a, k - 1);
      MulSucc(k - 1, a);
    }
  }

  /** One reverse sweep of the shrink loop. `stopped` is the labelled break
      out of the whole loop; `from` is the lowest index visited. */
  method Sweep(p: seq<int>, mins: seq<int>, aligns: seq<int>, width: int, desperate: bool, sum: int)
    returns (q: seq<int>, s: int, stopped: bool, ghost from: nat)
    requires |p| == |mins| == |aligns|
    requires forall j :: 0 <= j < |aligns| ==> aligns[j] >= 1
    requires sum == Sum(p) && sum > width
    ensures |q| == |p| && s == Sum(q) && from <= |p|
    ensures stopped <==> s <= width
    ensures stopped ==> from < |p| && Eligible(p[from], mins[from], desperate) && s + aligns[from] > width
    ensures !stopped ==> from == 0
    ensures SweepEffect(p, q, mins, aligns, desperate, from)
    ensures s <= sum
    ensures s == sum ==> q == p
    ensures s < sum ==> PosSum(q) < PosSum(p)
  {
    q, s, stopped := p, sum, false;
    var i := |p|;
    while i > 0
      invariant 0 <= i <= |p|
      invariant |q| == |p| && s == Sum(q) && s > width
      invariant SweepEffect(p, q, mins, aligns, desperate, i)
      invariant s <= sum
      invariant s == sum ==> q == p
      invariant s < sum ==> PosSum(q) < PosSum(p)
    {
      i := i - 1;
      if !desperate && q[i] <= mins[i] {
        SweepSkip(p, q, mins, aligns, desperate, i);
        continue;
      }
      if q[i] <= 0 {
        SweepSkip(p, q, mins, aligns, desperate, i);
        continue;
      }
      SweepTake(p, q, mins, aligns, desperate, i);
      q := q[i := q[i] - aligns[i]];
      s := s - aligns[i];
      if s <= width {
        stopped, from := true, i;
        return;
      }
    }
    from := 0;
  }

  /** A sweep's effect on the children it visited (`from` and above): each
      eligible child loses one quantum, the others keep their allotment. */
  ghost predicate SweepEffect(p: seq<int>, q: seq<int>, mins: seq<int>, aligns: seq<int>,
                              desperate: bool, from: nat)
    requires |p| == |q| == |mins| == |aligns|
  {
    && (forall j :: 0 <= j < from && j < |p| ==> q[j] == p[j])
    && (forall j :: from <= j < |p| ==>
          q[j] == if Eligible(p[j], mins[j], desperate) then p[j] - aligns[j] else p[j])
  }

  /** The sweep passes over child `i`, which is not eligible. */
  lemma SweepSkip(p: seq<int>, q: seq<int>, mins: seq<int>, aligns: seq<int>, desperate: bool, i: nat)
    requires |p| == |q| == |mins| == |aligns| && i < |p|
    requires SweepEffect(p, q, mins, aligns, desperate, i + 1)
    requires !Eligible(q[i], mins[i], desperate)
    ensures SweepEffect(p, q, mins, aligns, desperate, i)
  {
  }

  /** The sweep takes a quantum from child `i`, which is eligible. */
  lemma SweepTake(p: seq<int>, q: seq<int>, mins: seq<int>, aligns: seq<int>, desperate: bool, i: nat)
    requires |p| == |q| == |mins| == |aligns| && i < |p|
    requires SweepEffect(p, q, mins, aligns, desperate, i + 1)
    requires Eligible(q[i], mins[i], desperate) && aligns[i] >= 1
    ensures SweepEffect(p, q[i := q[i] - aligns[i]], mins, aligns, desperate, i)
    ensures q[i] == p[i]
    ensures Sum(q[i := q[i] - aligns[i]]) == Sum(q) - aligns[i]
    ensures PosSum(q[i := q[i] - aligns[i]]) < PosSum(q)
  {
    SumUpdate(q, i, q[i] - aligns[i]);
    PosSumUpdate(q, i, q[i] - aligns[i]);
  }

  /** A sweep run on the allotments after `s` complete sweeps of a phase
      leaves the allotments of step (`s`, `from`), and finds a child eligible
      exactly when its visit takes a quantum. */
  lemma SweepOutcome(pref: seq<int>, mins: seq<int>, aligns: seq<int>, p: seq<int>, q: seq<int>,
                     desperate: bool, s: nat, from: nat)
    requires |pref| == |mins| == |aligns| == |p| == |q| && from <= |p|
    requires forall i :: 0 <= i < |aligns| ==> aligns[i] >= 1
    requires p == Outcome(pref, mins, aligns, desperate, s, |p|)
    requires SweepEffect(p, q, mins, aligns, desperate, from)
    ensures q == Outcome(pref, mins, aligns, desperate, s, from)
    ensures forall j :: 0 <= j < |p| ==>
      (Eligible(p[j], mins[j], desperate) <==> Takes(pref[j], mins[j], aligns[j], desperate, s))
  {
    forall j | 0 <= j < |p|
      ensures q[j] == Outcome(pref, mins, aligns, desperate, s, from)[j]
      ensures Eligible(p[j], mins[j], desperate) <==> Takes(pref[j], mins[j], aligns[j], desperate, s)
    {
      ChildStep(pref[j], mins[j], aligns[j], desperate, s);
      if j >= from && Takes(pref[j], mins[j], aligns[j], desperate, s) {
        MulSucc(Lost(pref[j], mins[j], aligns[j], desperate, s), aligns[j]);
      }
    }
  }

  /** A sweep that changed nothing found no child eligible. */
  lemma Unproductive(p: seq<int>, mins: seq<int>, aligns: seq<int>, desperate: bool)
    requires |p| == |mins| == |aligns|
    requires forall i :: 0 <= i < |aligns| ==> aligns[i] >= 1
    requires SweepEffect(p, p, mins, aligns, desperate, 0)
    ensures forall j :: 0 <= j < |p| ==> !Eligible(p[j], mins[j], desperate)
  {
  }

  /** The loop starts at step 0 of the calm phase with nothing lost. */
  lemma ShrinkStart(pref: seq<int>, mins: seq<int>, aligns: seq<int>)
    requires |pref| == |mins| == |aligns|
    requires forall i :: 0 <= i < |aligns| ==> aligns[i] >= 1
    ensures Outcome(pref, mins, aligns, false, 0, |pref|) == pref
  {
    var o := Outcome(pref, mins, aligns, false, 0, |pref|);
    forall j | 0 <= j < |pref| ensures o[j] == pref[j] {
      assert Lost(pref[j], mins[j], aligns[j], false, 0) == 0;
    }
  }

  /** A sweep that visits every child completes that sweep. */
  lemma SweepComplete(pref: seq<int>, mins: seq<int>, aligns: seq<int>, desperate: bool, s: nat)
    requires |pref| == |mins| == |aligns|
    requires forall i :: 0 <= i < |aligns| ==> aligns[i] >= 1
    ensures Outcome(pref, mins, aligns, desperate, s, 0) == Outcome(pref, mins, aligns, desperate, s + 1, |pref|)
  {
    var o1 := Outcome(pref, mins, aligns, desperate, s, 0);
    var o2 := Outcome(pref, mins, aligns, desperate, s + 1, |pref|);
    forall j | 0 <= j < |pref| ensures o1[j] == o2[j] {
      assert Visits(j, s, 0) == Visits(j, s + 1, |pref|);
    }
  }

  /** A calm sweep in which no visit took a quantum ends the calm phase. */
  lemma CalmPhaseOver(pref: seq<int>, mins: seq<int>, aligns: seq<int>, s: nat)
    requires |pref| == |mins| == |aligns|
    requires forall i :: 0 <= i < |aligns| ==> aligns[i] >= 1
    requires forall j :: 0 <= j < |pref| ==> !Takes(pref[j], mins[j], aligns[j], false, s)
    ensures Outcome(pref, mins, aligns, false, s + 1, |pref|) == CalmEnd(pref, mins, aligns)
  {
    var o1 := Outcome(pref, mins, aligns, false, s + 1, |pref|);
    var o2 := CalmEnd(pref, mins, aligns);
    forall j | 0 <= j < |pref| ensures o1[j] == o2[j] {
      assert !Takes(pref[j], mins[j], aligns[j], false, s);
    }
  }

  /** The shrink branch of `internal_compute_plots_practical`: sweeps until the
      plot fits, turning desperate after a sweep that removed nothing. */
  method Shrink(pref: seq<int>, mins: seq<int>, aligns: seq<int>, width: int) returns (r: seq<int>)
    requires |pref| == |mins| == |aligns| && width >= 0
    requires forall i :: 0 <= i < |aligns| ==> aligns[i] >= 1
    ensures |r| == |pref|
    ensures Shrunk(pref, mins, aligns, width, r)
  {
    var n := |pref|;
    var p := pref;
    var sum := Sum(pref);
    var desperate := false;
    ghost var sweeps: nat := 0;
    ShrinkStart(pref, mins, aligns);
    while sum > width
      invariant |p| == n && sum == Sum(p) && sum <= Sum(pref)
      invariant p == pref || sum > width
      invariant p == Outcome(pref, mins, aligns, desperate, sweeps, n)
      invariant desperate ==> Sum(CalmEnd(pref, mins, aligns)) > width
      decreases PosSum(p), if desperate then 0 else 1
    {
      var prevSum := sum;
      var q, s, stopped;
      ghost var from;
      q, s, stopped, from := Sweep(p, mins, aligns, width, desperate, sum);
      SweepOutcome(pref, mins, aligns, p, q, desperate, sweeps, from);
      if stopped {
        r := q;
        assert BreaksAt(pref, mins, aligns, width, desperate, sweeps, from);
        return;
      }
      SweepComplete(pref, mins, aligns, desperate, sweeps);
      p, sum := q, s;
      if sum == prevSum {
        Unproductive(p, mins, aligns, desperate);
        if desperate {
          // no positive allotment is left, yet the sum exceeds a width of at least 0
          SumNonPositive(p);
        }
        CalmPhaseOver(pref, mins, aligns, sweeps);
        desperate, sweeps := true, 0;
      } else {
        sweeps := sweeps + 1;
      }
    }
    r := p;
  }

  // ---------------------------------------------------------------------
  // What the shrink result means
  // ---------------------------------------------------------------------

  /** The order the shrink loop takes its steps in: the calm phase before the
      desperate one, sweeps in turn, and within a sweep the last child first. */
  predicate Earlier(d1: bool, s1: nat, f1: nat, d2: bool, s2: nat, f2: nat) {
    (!d1 && d2) || (d1 == d2 && (s1 < s2 || (s1 == s2 && f1 > f2)))
  }

  /** Losses only grow along the steps. */
  lemma LostMonotone(v: int, m: int, a: int, d1: bool, x1: nat, d2: bool, x2: nat)
    requires a >= 1
    requires (!d1 && d2) || (d1 == d2 && x1 <= x2)
    ensures Lost(v, m, a, d1, x1) <= Lost(v, m, a, d2, x2)
  {
  }

  /** A child's allotment at a step, with the quantum taken at that step (if
      `taken`) given back, is at most its allotment at any earlier step. */
  lemma LossBefore(v: int, m: int, a: int, d1: bool, x1: nat, d2: bool, x2: nat, taken: bool)
    requires a >= 1
    requires taken ==> x2 >= 1 && Takes(v, m, a, d2, x2 - 1)
    requires (!d1 && d2) || (d1 == d2 && x1 <= if taken then x2 - 1 else x2)
    ensures v - Lost(v, m, a, d2, x2) * a + (if taken then a else 0) <= v - Lost(v, m, a, d1, x1) * a
  {
    var y := if taken then x2 - 1 else x2;
    if taken {
      ChildStep(v, m, a, d2, y);
      MulSucc(Lost(v, m, a, d2, y), a);
    }
    LostMonotone(v, m, a, d1, x1, d2, y);
    MulLe(Lost(v, m, a, d1, x1), Lost(v, m, a, d2, y), a);
  }

  /** After a breaking step, any later step that takes a quantum undoes into
      allotments no larger, so it does not reach `width` for the first time. */
  lemma NotAfterBreak(pref: seq<int>, mins: seq<int>, aligns: seq<int>, width: int,
                      d1: bool, s1: nat, f1: nat, d2: bool, s2: nat, f2: nat)
    requires |pref| == |mins| == |aligns|
    requires forall i :: 0 <= i < |aligns| ==> aligns[i] >= 1
    requires BreaksAt(pref, mins, aligns, width, d1, s1, f1)
    requires Earlier(d1, s1, f1, d2, s2, f2)
    requires f2 < |pref| && Takes(pref[f2], mins[f2], aligns[f2], d2, s2)
    ensures Sum(Outcome(pref, mins, aligns, d2, s2, f2)) + aligns[f2] <= width
  {
    var r1 := Outcome(pref, mins, aligns, d1, s1, f1);
    var r2 := Outcome(pref, mins, aligns, d2, s2, f2);
    var back := r2[f2 := r2[f2] + aligns[f2]];
    forall j | 0 <= j < |pref| ensures back[j] <= r1[j] {
      LossBefore(pref[j], mins[j], aligns[j], d1, Visits(j, s1, f1), d2, Visits(j, s2, f2), j == f2);
    }
    SumMonotone(back, r1);
    SumUpdate(r2, f2, r2[f2] + aligns[f2]);
  }

  /** The loop breaks at one step only. */
  lemma BreaksOnce(pref: seq<int>, mins: seq<int>, aligns: seq<int>, width: int,
                   d1: bool, s1: nat, f1: nat, d2: bool, s2: nat, f2: nat)
    requires |pref| == |mins| == |aligns|
    requires forall i :: 0 <= i < |aligns| ==> aligns[i] >= 1
    requires BreaksAt(pref, mins, aligns, width, d1, s1, f1)
    requires BreaksAt(pref, mins, aligns, width, d2, s2, f2)
    ensures d1 == d2 && s1 == s2 && f1 == f2
  {
    if Earlier(d1, s1, f1, d2, s2, f2) {
      NotAfterBreak(pref, mins, aligns, width, d1, s1, f1, d2, s2, f2);
      assert false;
    } else if Earlier(d2, s2, f2, d1, s1, f1) {
      NotAfterBreak(pref, mins, aligns, width, d2, s2, f2, d1, s1, f1);
      assert false;
    }
  }

  /** The specification fixes the shrink result: two results it accepts are equal. */
  lemma ShrunkUnique(pref: seq<int>, mins: seq<int>, aligns: seq<int>, width: int, r1: seq<int>, r2: seq<int>)
    requires |pref| == |mins| == |aligns|
    requires forall i :: 0 <= i < |aligns| ==> aligns[i] >= 1
    requires Shrunk(pref, mins, aligns, width, r1) && Shrunk(pref, mins, aligns, width, r2)
    ensures r1 == r2
  {
    if Sum(pref) > width {
      var d1: bool, s1: nat, f1: nat :|
        BreaksAt(pref, mins, aligns, width, d1, s1, f1) && r1 == Outcome(pref, mins, aligns, d1, s1, f1);
      var d2: bool, s2: nat, f2: nat :|
        BreaksAt(pref, mins, aligns, width, d2, s2, f2) && r2 == Outcome(pref, mins, aligns, d2, s2, f2);
      BreaksOnce(pref, mins, aligns, width, d1, s1, f1, d2, s2, f2);
    }
  }

  /** The allotments at a breaking step are the shrink result. */
  lemma BreakShrunk(pref: seq<int>, mins: seq<int>, aligns: seq<int>, width: int,
                    d: bool, s: nat, f: nat, r: seq<int>)
    requires |pref| == |mins| == |aligns|
    requires forall i :: 0 <= i < |aligns| ==> aligns[i] >= 1
    requires Sum(pref) > width
    requires BreaksAt(pref, mins, aligns, width, d, s, f) && r == Outcome(pref, mins, aligns, d, s, f)
    ensures Shrunk(pref, mins, aligns, width, r)
  {
  }

  /** Tidy children end the calm phase exactly at their minimums. */
  lemma TidyCalmEnd(pref: seq<int>, mins: seq<int>, aligns: seq<int>)
    requires |pref| == |mins| == |aligns|
    requires forall i :: 0 <= i < |aligns| ==> aligns[i] >= 1
    requires Tidy(pref, mins, aligns)
    ensures CalmEnd(pref, mins, aligns) == mins
  {
    var o := CalmEnd(pref, mins, aligns);
    forall j | 0 <= j < |pref| ensures o[j] == mins[j] {
      QuantaExact(pref[j], mins[j], aligns[j]);
    }
  }

  /** What ChildFacts says about child `j` of the allotments `r` at step (`d`, `s`, `f`). */
  ghost predicate BrokenChild(pref: seq<int>, mins: seq<int>, aligns: seq<int>,
                              d: bool, s: nat, f: nat, r: seq<int>, j: nat)
    requires |pref| == |mins| == |aligns| == |r| && j < |pref|
    requires forall i :: 0 <= i < |aligns| ==> aligns[i] >= 1
  {
    && r[j] <= pref[j] && (pref[j] - r[j]) % aligns[j] == 0
    && (r[j] < pref[j] ==> pref[j] > 0 && r[j] + aligns[j] > 0)
    && (!d ==> Steps(pref, r, aligns, j) <= Visits(j, s, f))
    && (!d ==> r[j] >= pref[j] - CalmQuanta(pref[j], mins[j], aligns[j]) * aligns[j])
    && (AboveFloor(r[j], mins[j]) ==> !d && Steps(pref, r, aligns, j) == Visits(j, s, f))
    && (j == f ==> (r[j] < pref[j] <==> Lost(pref[j], mins[j], aligns[j], d, Visits(j, s, f)) >= 1))
  }

  /** What the allotments at the breaking step say about each child. */
  lemma BreakMeaning(pref: seq<int>, mins: seq<int>, aligns: seq<int>, width: int,
                     d: bool, s: nat, f: nat, r: seq<int>)
    requires |pref| == |mins| == |aligns|
    requires forall i :: 0 <= i < |aligns| ==> aligns[i] >= 1
    requires BreaksAt(pref, mins, aligns, width, d, s, f) && r == Outcome(pref, mins, aligns, d, s, f)
    ensures f < |pref| && r[f] < pref[f]
    ensures forall i :: 0 <= i < |pref| ==> r[i] <= pref[i] && (pref[i] - r[i]) % aligns[i] == 0
    ensures forall i :: 0 <= i < |pref| && r[i] < pref[i] ==> pref[i] > 0 && r[i] + aligns[i] > 0
    ensures Tidy(pref, mins, aligns) && Sum(mins) <= width ==> forall i :: 0 <= i < |pref| ==> r[i] >= mins[i]
    ensures forall i :: 0 <= i < |pref| && AboveFloor(r[i], mins[i]) ==>
      !d && Steps(pref, r, aligns, i) == Visits(i, s, f)
    ensures !d ==> forall i :: 0 <= i < |pref| ==> Steps(pref, r, aligns, i) <= Visits(i, s, f)
  {
    forall j | 0 <= j < |pref| ensures BrokenChild(pref, mins, aligns, d, s, f, r, j) {
      assert r[j] == pref[j] - Lost(pref[j], mins[j], aligns[j], d, Visits(j, s, f)) * aligns[j];
      ChildFacts(pref[j], mins[j], aligns[j], d, Visits(j, s, f), r[j]);
    }
    forall j | 0 <= j < |pref|
      ensures r[j] <= pref[j] && (pref[j] - r[j]) % aligns[j] == 0
      ensures r[j] < pref[j] ==> pref[j] > 0 && r[j] + aligns[j] > 0
      ensures AboveFloor(r[j], mins[j]) ==> !d && Steps(pref, r, aligns, j) == Visits(j, s, f)
      ensures !d ==> Steps(pref, r, aligns, j) <= Visits(j, s, f)
    {
      assert BrokenChild(pref, mins, aligns, d, s, f, r, j);
    }
    assert BrokenChild(pref, mins, aligns, d, s, f, r, f);
    ChildStep(pref[f], mins[f], aligns[f], d, s);
    if Tidy(pref, mins, aligns) && Sum(mins) <= width {
      TidyCalmEnd(pref, mins, aligns);
      forall j | 0 <= j < |pref| ensures r[j] >= mins[j] {
        assert BrokenChild(pref, mins, aligns, d, s, f, r, j);
        QuantaExact(pref[j], mins[j], aligns[j]);
      }
    }
  }

  /** Children visited in reverse order: a later child still above its floor
      lost at least as much as an earlier one, and an earlier one still above
      its floor at most one quantum less than a later one. */
  lemma StepOrder(pref: seq<int>, mins: seq<int>, aligns: seq<int>, r: seq<int>, d: bool, s: nat, f: nat)
    requires |pref| == |mins| == |aligns| == |r|
    requires forall i :: 0 <= i < |aligns| ==> aligns[i] >= 1
    requires forall i :: 0 <= i < |pref| && AboveFloor(r[i], mins[i]) ==>
      !d && Steps(pref, r, aligns, i) == Visits(i, s, f)
    requires !d ==> forall i :: 0 <= i < |pref| ==> Steps(pref, r, aligns, i) <= Visits(i, s, f)
    ensures forall i, j :: 0 <= i < j < |pref| && AboveFloor(r[j], mins[j]) ==>
      Steps(pref, r, aligns, i) <= Steps(pref, r, aligns, j)
    ensures forall i, j :: 0 <= i < j < |pref| && AboveFloor(r[i], mins[i]) ==>
      Steps(pref, r, aligns, j) <= Steps(pref, r, aligns, i) + 1
  {
  }

  /** What a shrink result says about the sum and about each child. */
  lemma ShrunkMeaning(pref: seq<int>, mins: seq<int>, aligns: seq<int>, width: int, r: seq<int>)
    requires |pref| == |mins| == |aligns|
    requires forall i :: 0 <= i < |aligns| ==> aligns[i] >= 1
    requires Shrunk(pref, mins, aligns, width, r)
    ensures |r| == |pref|
    // it reaches the target, stopping at a quantum without which it would not
    ensures Sum(r) <= width
    ensures Sum(pref) > width ==> exists k :: 0 <= k < |pref| && r[k] < pref[k] && Sum(r) + aligns[k] > width
    // children only lose whole quanta, and only while their allotment is positive
    ensures forall i :: 0 <= i < |pref| ==> r[i] <= pref[i] && (pref[i] - r[i]) % aligns[i] == 0
    ensures forall i :: 0 <= i < |pref| && r[i] < pref[i] ==> pref[i] > 0 && r[i] + aligns[i] > 0
    // with tidy children and enough room for the minimums, no child goes below its minimum
    ensures Tidy(pref, mins, aligns) && Sum(mins) <= width ==> forall i :: 0 <= i < |pref| ==> r[i] >= mins[i]
    // sweeps run from the last child: a later child still above its floor lost at least as much ...
    ensures forall i, j :: 0 <= i < j < |pref| && AboveFloor(r[j], mins[j]) ==>
      Steps(pref, r, aligns, i) <= Steps(pref, r, aligns, j)
    // ... and an earlier child still above its floor lost at most one quantum less
    ensures forall i, j :: 0 <= i < j < |pref| && AboveFloor(r[i], mins[i]) ==>
      Steps(pref, r, aligns, j) <= Steps(pref, r, aligns, i) + 1
  {
    if Sum(pref) > width {
      var d: bool, s: nat, f: nat :|
        BreaksAt(pref, mins, aligns, width, d, s, f) && r == Outcome(pref, mins, aligns, d, s, f);
      BreakMeaning(pref, mins, aligns, width, d, s, f, r);
      StepOrder(pref, mins, aligns, r, d, s, f);
    } else {
      forall j | 0 <= j < |pref| ensures (pref[j] - r[j]) % aligns[j] == 0 && Steps(pref, r, aligns, j) == 0 {
        MulDivCancel(0, aligns[j]);
        assert pref[j] - r[j] == 0 * aligns[j];
      }
    }
  }

  // ---------------------------------------------------------------------
  // Practical pass
  // ---------------------------------------------------------------------

  /** The first loop of `internal_compute_plots_practical`: each child's index
      once per spacer unit, and its minimum, preferred and alignment widths. */
  method CollectChildren(ds: seq<Dims>)
    returns (likesBeingResized: seq<nat>, minimum: seq<int>, practical: seq<int>, align: seq<int>)
    ensures likesBeingResized == SpacerList(ds)
    ensures minimum == MinWidths(ds) && practical == PrefWidths(ds) && align == AlignWidths(ds)
  {
    likesBeingResized, minimum, practical, align := [], [], [], [];
    for w := 0 to |ds|
      invariant likesBeingResized == SpacerList(ds[..w])
      invariant minimum == MinWidths(ds[..w]) && practical == PrefWidths(ds[..w]) && align == AlignWidths(ds[..w])
    {
      var dim := ds[w];
      assert ds[..w + 1][..w] == ds[..w];
      for t := 0 to dim.horizontalSpacerCount
        invariant likesBeingResized == SpacerList(ds[..w]) + Repeat(w, t)
      {
        likesBeingResized := likesBeingResized + [w];
      }
      minimum := minimum + [dim.min.width];
      practical := practical + [dim.preferred.width];
      align := align + [dim.alignSizeTo.width];
    }
    assert ds[..|ds|] == ds;
  }

  /** `internal_compute_plots_practical` on the children's dimensions at the row width. */
  method ComputePlotsPractical(ds: seq<Dims>, width: int) returns (r: seq<int>)
    requires 0 <= width < Sum(PrefWidths(ds)) ==> AlignPositive(ds)
    ensures |r| == |ds|
    ensures |ds| == 0 || width < 0 ==> r == PrefWidths(ds)
    ensures |ds| > 0 && 0 <= width && Sum(PrefWidths(ds)) < width ==>
      |ResizeList(ds)| > 0 && Grown(PrefWidths(ds), ResizeList(ds), width, r)
    ensures 0 <= width == Sum(PrefWidths(ds)) ==> r == PrefWidths(ds)
    ensures |ds| > 0 && 0 <= width < Sum(PrefWidths(ds)) ==>
      Shrunk(PrefWidths(ds), MinWidths(ds), AlignWidths(ds), width, r)
  {
    var likesBeingResized, minimum, practical, align := CollectChildren(ds);

    if |practical| == 0 || width < 0 {
      return practical;
    }

    var practicalSum := Sum(practical);
    if practicalSum < width {
      if |likesBeingResized| == 0 {
        // every child once
        for k := 0 to |ds|
          invariant likesBeingResized == Range(k)
        {
          likesBeingResized := likesBeingResized + [k];
        }
      }
      ResizeListMeaning(ds);
      r := Grow(practical, likesBeingResized, width);
    } else if practicalSum > width {
      r := Shrink(practical, minimum, align, width);
    } else {
      // the shrink loop's condition fails at once
      r := practical;
    }
  }

  // ---------------------------------------------------------------------
  // The row object and its caches
  // ---------------------------------------------------------------------

  /** The children's dimensions at a width, in child order. */
  function ChildDims(widgets: seq<WidgetId>, est: Estimator, width: int): (r: seq<Dims>)
    ensures |r| == |widgets| && forall i :: 0 <= i < |widgets| ==> r[i] == est(widgets[i], width)
  {
    seq(|widgets|, i requires 0 <= i < |widgets| => est(widgets[i], width))
  }

  class RowState {
    var widgets: seq<WidgetId>
    /** `plots_desired`: the key width and the stored plot and dimensions. */
    var desiredKey: int
    var desired: Desired
    /** `plots_practical`: the key size and the stored plot. */
    var practicalKey: Size
    var practicalPlots: seq<int>

    /** `create`: no children, both caches empty under impossible keys. */
    constructor ()
      ensures widgets == []
      ensures desiredKey == -1 && desired == Desired([], Zero())
      ensures practicalKey == Size(-1, -1) && practicalPlots == []
    {
      widgets := [];
      desiredKey, desired := -1, Desired([], Zero());
      practicalKey, practicalPlots := Size(-1, -1), [];
    }

    /** `add`: the new child goes last; the caches are left alone. */
    method Add(w: WidgetId)
      modifies this
      ensures widgets == old(widgets) + [w]
      ensures desiredKey == old(desiredKey) && desired == old(desired)
      ensures practicalKey == old(practicalKey) && practicalPlots == old(practicalPlots)
    {
      widgets := widgets + [w];
    }

    /** `clear_layout_cache`: resets both caches and forwards the clear to
        every child; `forwarded` lists the children it was forwarded to. */
    method ClearLayoutCache() returns (forwarded: seq<WidgetId>)
      modifies this
      ensures widgets == old(widgets)
      ensures desiredKey == -1 && desired == Desired([], Zero())
      ensures practicalKey == Size(-1, -1) && practicalPlots == []
      ensures forwarded == widgets
    {
      desiredKey, desired := -1, Desired([], Zero());
      practicalKey, practicalPlots := Size(-1, -1), [];
      forwarded := [];
      for i := 0 to |widgets|
        invariant forwarded == widgets[..i]
      {
        assert widgets[..i + 1] == widgets[..i] + [widgets[i]];
        forwarded := forwarded + [widgets[i]];
      }
      assert widgets[..|widgets|] == widgets;
    }

    /** `get_plots_desired`: a stored entry is reused when its key is `width`
        and its plot has one entry per current child; otherwise the desired
        pass runs and its result is stored under `width`. `None` is the
        desired pass's panic, which leaves the cache as it was. */
    method GetPlotsDesired(est: Estimator, width: int) returns (r: Option<Desired>)
      modifies this
      ensures widgets == old(widgets)
      ensures practicalKey == old(practicalKey) && practicalPlots == old(practicalPlots)
      ensures old(desiredKey) == width && |old(desired).plots| == |widgets| ==>
        r == Some(old(desired)) && desiredKey == old(desiredKey) && desired == old(desired)
      ensures !(old(desiredKey) == width && |old(desired).plots| == |widgets|) ==>
        var ds := ChildDims(widgets, est, width);
        && (r.None? <==> DesiredPanics(ds))
        && (r.Some? ==> r.value.plots == PrefWidths(ds) && r.value.dims == DesiredDims(ds))
      ensures !(old(desiredKey) == width && |old(desired).plots| == |widgets|) ==>
        && (r.Some? ==> desiredKey == width && desired == r.value)
        && (r.None? ==> desiredKey == old(desiredKey) && desired == old(desired))
    {
      if desiredKey == width && |desired.plots| == |widgets| {
        return Some(desired);
      }
      var ds := ChildDims(widgets, est, width);
      r := ComputePlotsDesired(ds);
      if r.Some? {
        desiredKey, desired := width, r.value;
      }
      assert ds == ChildDims(widgets, est, width);
    }

    /** `estimate_dimensions`: the dimensions half of the desired cache entry. */
    method EstimateDimensions(est: Estimator, width: int) returns (r: Option<Dims>)
      modifies this
      ensures widgets == old(widgets)
      ensures practicalKey == old(practicalKey) && practicalPlots == old(practicalPlots)
      ensures old(desiredKey) == width && |old(desired).plots| == |widgets| ==>
        r == Some(old(desired).dims) && desiredKey == old(desiredKey) && desired == old(desired)
      ensures !(old(desiredKey) == width && |old(desired).plots| == |widgets|) ==>
        && (r.None? <==> DesiredPanics(ChildDims(widgets, est, width)))
        && (r.Some? ==> r.value == DesiredDims(ChildDims(widgets, est, width)) &&
                        desiredKey == width && desired.dims == r.value &&
                        desired.plots == PrefWidths(ChildDims(widgets, est, width)))
        && (r.None? ==> desiredKey == old(desiredKey) && desired == old(desired))
    {
      var d := GetPlotsDesired(est, width);
      r := if d.Some? then Some(d.value.dims) else None;
    }

    /** `get_plots_practical`: keyed by the full size, reused only while the
        plot has one entry per current child; the pass itself sees only the width. */
    method GetPlotsPractical(est: Estimator, size: Size) returns (r: seq<int>)
      requires !(practicalKey == size && |practicalPlots| == |widgets|) &&
               0 <= size.width < Sum(PrefWidths(ChildDims(widgets, est, size.width))) ==>
               AlignPositive(ChildDims(widgets, est, size.width))
      modifies this
      ensures widgets == old(widgets)
      ensures desiredKey == old(desiredKey) && desired == old(desired)
      ensures practicalKey == size && practicalPlots == r
      ensures old(practicalKey) == size && |old(practicalPlots)| == |widgets| ==> r == old(practicalPlots)
      ensures !(old(practicalKey) == size && |old(practicalPlots)| == |widgets|) ==>
        var ds := ChildDims(widgets, est, size.width);
        && |r| == |ds|
        && (size.width < 0 || |ds| == 0 ==> r == PrefWidths(ds))
        && (|ds| > 0 && 0 <= size.width && Sum(PrefWidths(ds)) < size.width ==>
              |ResizeList(ds)| > 0 && Grown(PrefWidths(ds), ResizeList(ds), size.width, r))
        && (0 <= size.width == Sum(PrefWidths(ds)) ==> r == PrefWidths(ds))
        && (|ds| > 0 && 0 <= size.width < Sum(PrefWidths(ds)) ==>
              Shrunk(PrefWidths(ds), MinWidths(ds), AlignWidths(ds), size.width, r))
    {
      if practicalKey == size && |practicalPlots| == |widgets| {
        return practicalPlots;
      }
      r := ComputePlotsPractical(ChildDims(widgets, est, size.width), size.width);
      practicalKey, practicalPlots := size, r;
    }
  }

  // ---------------------------------------------------------------------
  // Worked example: three children preferring 5 cells with minimum 2
  // ---------------------------------------------------------------------

  function Child5(): Dims {
    Dims(Size(2, 1), Size(5, 1), None, Size(1, 1), 0, 0)
  }

  /** With 18 cells the three inelastic children all grow to 6. */
  lemma GrowExample(r: seq<int>)
    requires Grown(PrefWidths([Child5(), Child5(), Child5()]), ResizeList([Child5(), Child5(), Child5()]), 18, r)
    ensures r == [6, 6, 6]
  {
    FivesResize();
    GrowOfFives(r);
  }

  /** Three `Child5`s prefer 5 cells each and, having no spacers, are each resized once. */
  lemma FivesResize()
    ensures PrefWidths([Child5(), Child5(), Child5()]) == [5, 5, 5]
    ensures ResizeList([Child5(), Child5(), Child5()]) == [0, 1, 2]
  {
    var ds := [Child5(), Child5(), Child5()];
    assert ds[..2] == [Child5(), Child5()] && ds[..2][..1] == [Child5()];
    assert SpacerList(ds) == [] by {
      assert SpacerList(ds[..2][..1]) == [];
      assert SpacerList(ds[..2]) == [];
    }
    assert Range(3) == [0, 1, 2];
  }

  lemma GrowOfFives(r: seq<int>)
    requires Grown([5, 5, 5], [0, 1, 2], 18, r)
    ensures r == [6, 6, 6]
  {
    var likes: seq<nat> := [0, 1, 2];
    Sum3([5, 5, 5]);
    assert likes[..0] == [];
    assert likes[..2] == [0, 1] && likes[..2][..1] == [0];
    assert Count(likes, 0) == 1 && Count(likes, 1) == 1 && Count(likes, 2) == 1;
    assert r[0] == 6 && r[1] == 6 && r[2] == 6;
  }

  /** With 9 cells each child gives up two cells, the last child first in every sweep. */
  lemma ShrinkExample(r: seq<int>)
    requires Shrunk(PrefWidths([Child5(), Child5(), Child5()]), MinWidths([Child5(), Child5(), Child5()]),
                    AlignWidths([Child5(), Child5(), Child5()]), 9, r)
    ensures r == [3, 3, 3]
  {
    var ds := [Child5(), Child5(), Child5()];
    assert PrefWidths(ds) == [5, 5, 5] && MinWidths(ds) == [2, 2, 2] && AlignWidths(ds) == [1, 1, 1];
    ShrinkOfFives(r);
  }

  /** The loop breaks in the second calm sweep, at the first child. */
  lemma ShrinkOfFives(r: seq<int>)
    requires Shrunk([5, 5, 5], [2, 2, 2], [1, 1, 1], 9, r)
    ensures r == [3, 3, 3]
  {
    var t: seq<int> := [3, 3, 3];
    FivesShrinkResult();
    assert Shrunk([5, 5, 5], [2, 2, 2], [1, 1, 1], 9, t);
    ShrunkUnique([5, 5, 5], [2, 2, 2], [1, 1, 1], 9, r, t);
  }

  lemma FivesShrinkResult()
    ensures Shrunk([5, 5, 5], [2, 2, 2], [1, 1, 1], 9, [3, 3, 3])
  {
    assert Outcome([5, 5, 5], [2, 2, 2], [1, 1, 1], false, 1, 0) == [3, 3, 3];
    Sum3([5, 5, 5]);
    Sum3([3, 3, 3]);
    BreakShrunk([5, 5, 5], [2, 2, 2], [1, 1, 1], 9, false, 1, 0, [3, 3, 3]);
  }

  /** A child at its minimum is skipped outside desperate mode, and the loop
      stops at the reduction that reaches the width: preferred [3, 1] with
      minimums [0, 1] and quanta [1, 5] in 2 cells gives [1, 1]. */
  lemma ShrinkSkipsFloor(r: seq<int>)
    requires Shrunk([3, 1], [0, 1], [1, 5], 2, r)
    ensures r == [1, 1]
  {
    var t: seq<int> := [1, 1];
    SkipsFloorResult();
    assert Shrunk([3, 1], [0, 1], [1, 5], 2, t);
    ShrunkUnique([3, 1], [0, 1], [1, 5], 2, r, t);
  }

  lemma SkipsFloorResult()
    ensures Shrunk([3, 1], [0, 1], [1, 5], 2, [1, 1])
  {
    assert Outcome([3, 1], [0, 1], [1, 5], false, 1, 0) == [1, 1];
    Sum2([3, 1]);
    Sum2([1, 1]);
    BreakShrunk([3, 1], [0, 1], [1, 5], 2, false, 1, 0, [1, 1]);
  }

  /** A quantum that takes a child below its minimum is still taken while the
      child is above it: preferred [5, 5] with minimums [4, 0] and quanta
      [3, 1] in 6 cells gives [2, 4] after the first child's single quantum. */
  lemma ShrinkPastMinimum(r: seq<int>)
    requires Shrunk([5, 5], [4, 0], [3, 1], 6, r)
    ensures r == [2, 4]
  {
    var t: seq<int> := [2, 4];
    PastMinimumResult();
    assert Shrunk([5, 5], [4, 0], [3, 1], 6, t);
    ShrunkUnique([5, 5], [4, 0], [3, 1], 6, r, t);
  }

  lemma PastMinimumResult()
    ensures Shrunk([5, 5], [4, 0], [3, 1], 6, [2, 4])
  {
    assert Outcome([5, 5], [4, 0], [3, 1], false, 0, 0) == [2, 4];
    Sum2([5, 5]);
    Sum2([2, 4]);
    BreakShrunk([5, 5], [4, 0], [3, 1], 6, false, 0, 0, [2, 4]);
  }

  /** Children at their minimums make the first sweep change nothing; the
      desperate sweep after it takes a cell from each: [2, 2] with minimums
      [2, 2] in 2 cells gives [1, 1], which by ShrunkUnique is the only result. */
  lemma ShrinkTurnsDesperate()
    ensures Shrunk([2, 2], [2, 2], [1, 1], 2, [1, 1])
  {
    EqualShares([2, 2], [2, 2], [1, 1], 2, [1, 1], 2, 1);
  }

  /** Hence [1, 1] is the only result for that row. */
  lemma TurnsDesperateOnly(r: seq<int>)
    requires Shrunk([2, 2], [2, 2], [1, 1], 2, r)
    ensures r == [1, 1]
  {
    EqualSharesOnly([2, 2], [2, 2], [1, 1], 2, r, [1, 1], 2, 1);
  }

  /** Three children preferring 80 cells, each at its minimum, share 150 cells
      equally: the loop breaks in desperate sweep 29 at the first child. By
      EqualSharesOnly, [50, 50, 50] is the only result. */
  lemma ShrinkSharesEqually()
    ensures Shrunk([80, 80, 80], [80, 80, 80], [1, 1, 1], 150, [50, 50, 50])
  {
    EqualShares([80, 80, 80], [80, 80, 80], [1, 1, 1], 150, [50, 50, 50], 80, 50);
  }

  /** Children that all prefer `v` cells, already at their minimum `v`, in
      quanta of one cell, squeezed into `w` cells each: the calm phase takes
      nothing, and the desperate phase breaks at the first child in sweep
      `v - w - 1`, leaving every child `w` cells. */
  lemma EqualShares(pref: seq<int>, mins: seq<int>, aligns: seq<int>, width: int, r: seq<int>, v: int, w: int)
    requires |pref| >= 1 && |mins| == |pref| && |aligns| == |pref| && |r| == |pref|
    requires forall j :: 0 <= j < |pref| ==> pref[j] == v && mins[j] == v && aligns[j] == 1 && r[j] == w
    requires 0 <= w < v && width == |pref| * w
    ensures Shrunk(pref, mins, aligns, width, r)
  {
    AtMinimumUnit(v, v, v - w - 1);
    MulGap(|pref|, v, w, 1);
    UniformBreak(pref, mins, aligns, width, r, |pref|, v, v, 1, true, v - w - 1, w, v);
  }

  /** With EqualShares, ShrunkUnique leaves `w` cells per child as the only result. */
  lemma EqualSharesOnly(pref: seq<int>, mins: seq<int>, aligns: seq<int>, width: int, r: seq<int>, t: seq<int>, v: int, w: int)
    requires |pref| >= 1 && |mins| == |pref| && |aligns| == |pref| && |t| == |pref|
    requires forall j :: 0 <= j < |pref| ==> pref[j] == v && mins[j] == v && aligns[j] == 1 && t[j] == w
    requires 0 <= w < v && width == |pref| * w
    requires Shrunk(pref, mins, aligns, width, r)
    ensures r == t
  {
    EqualShares(pref, mins, aligns, width, t, v, w);
    ShrunkUnique(pref, mins, aligns, width, r, t);
  }

  /** A child already at its minimum, with quanta of one cell, keeps giving
      one cell per desperate visit until it reaches 0. */
  lemma AtMinimumUnit(v: int, m: int, visits: nat)
    requires 0 <= v <= m && visits < v
    ensures CalmQuanta(v, m, 1) == 0 && DespQuanta(v, m, 1) == v
    ensures Takes(v, m, 1, true, visits) && Lost(v, m, 1, true, visits + 1) == visits + 1
  {
  }

  /** `n` alike children, where the loop breaks at the first child in sweep
      `s` of a phase: each has had `s + 1` visits of that phase. */
  lemma UniformBreak(pref: seq<int>, mins: seq<int>, aligns: seq<int>, width: int, r: seq<int>,
                     n: nat, v: int, m: int, a: int, d: bool, s: nat, w: int, k: int)
    requires |pref| == n >= 1 && |mins| == n && |aligns| == n && |r| == n && a >= 1
    requires forall j :: 0 <= j < n ==> pref[j] == v && mins[j] == m && aligns[j] == a && r[j] == w
    requires Takes(v, m, a, d, s)
    requires w == v - Lost(v, m, a, d, s + 1) * a && k == v - CalmQuanta(v, m, a) * a
    requires d ==> n * k > width
    requires n * w <= width < n * w + a
    ensures Shrunk(pref, mins, aligns, width, r)
  {
    var o := Outcome(pref, mins, aligns, d, s, 0);
    assert o == r by {
      forall j | 0 <= j < n ensures o[j] == r[j] {
        assert Visits(j, s, 0) == s + 1;
      }
    }
    var e := CalmEnd(pref, mins, aligns);
    assert e == seq(n, _ => k) by {
      forall j | 0 <= j < n ensures e[j] == k {
        assert Lost(v, m, a, true, 0) == CalmQuanta(v, m, a);
      }
    }
    assert pref == seq(n, _ => v);
    assert r == seq(n, _ => w);
    SumConst(n, v);
    SumConst(n, w);
    SumConst(n, k);
    // the step took a quantum, so the preferred widths did not fit
    ChildStep(v, m, a, d, s);
    MulBound(Lost(v, m, a, d, s + 1), a);
    MulGap(n, v, w, a);
    BreakShrunk(pref, mins, aligns, width, d, s, 0, r);
  }

  lemma Sum2(s: seq<int>)
    requires |s| == 2
    ensures Sum(s) == s[0] + s[1]
  {
    assert s[..1] == [s[0]];
    assert Sum([s[0]]) == s[0];
  }

  lemma Sum3(s: seq<int>)
    requires |s| == 3
    ensures Sum(s) == s[0] + s[1] + s[2]
  {
    assert s[..2][..1] == [s[0]];
    assert s[..2] == [s[0], s[1]];
    assert Sum([s[0]]) == s[0];
  }
}
