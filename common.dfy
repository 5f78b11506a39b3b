/** The state every widget carries besides its own (`WidgetCommon`): a
    one-entry memo of the last dimension estimate, keyed by width, and the
    layout token that says which layout generation the memo belongs to. */
module Common {
  import opened Dimensions

  /** The memo slot: the width it was computed for and the dimensions. */
  datatype Memo = Memo(key: int, dims: Dims)

  /** The memo as created and as reset: key -1, which no clamped width equals. */
  function Cleared(): Memo {
    Memo(-1, Zero())
  }

  /** Negative widths are treated as 0. */
  function Clamp(width: int): nat {
    if width < 0 then 0 else width
  }

  /** A lookup of `width` would be answered from the memo. */
  predicate Hits(m: Memo, width: int) {
    m.key == Clamp(width)
  }

  /** One memoised estimate as the code performs it: the answer and the new memo.
      On a miss the fresh dimensions are stored under the OLD key. */
  function Lookup(m: Memo, width: int, estimate: int -> Dims): (r: (Dims, Memo))
    ensures r.1.key == m.key
    ensures Hits(m, width) ==> r == (m.dims, m)
    ensures !Hits(m, width) ==> r.0 == estimate(Clamp(width)) && r.1.dims == r.0
  {
    var w := Clamp(width);
    if m.key == w then (m.dims, m) else (estimate(w), Memo(m.key, estimate(w)))
  }

  /** The lookup with the key the memo evidently means to keep: the clamped width. */
  function LookupIntended(m: Memo, width: int, estimate: int -> Dims): (r: (Dims, Memo))
    ensures Hits(r.1, width) && r.1.dims == r.0
    ensures Hits(m, width) ==> r == (m.dims, m)
    ensures !Hits(m, width) ==> r.0 == estimate(Clamp(width))
  {
    var w := Clamp(width);
    if m.key == w then (m.dims, m) else (estimate(w), Memo(w, estimate(w)))
  }

  /** A memo is coherent with an estimator when a stored key is answered with
      what the estimator gives at that width. */
  predicate Coherent(m: Memo, estimate: int -> Dims) {
    m.key >= 0 ==> m.dims == estimate(m.key)
  }

  /** Replays a series of lookups against the memo, as written. */
  function Replay(m: Memo, widths: seq<int>, estimate: int -> Dims): (seq<Dims>, Memo) {
    if widths == [] then ([], m) else
      var (ds, m') := Replay(m, widths[..|widths| - 1], estimate);
      var (d, m'') := Lookup(m', widths[|widths| - 1], estimate);
      (ds + [d], m'')
  }

  /** From a cleared memo, as written, no lookup in any series ever hits: the
      key stays negative, and every answer is a fresh estimate. */
  lemma {:induction false} ReplayNeverHits(m: Memo, widths: seq<int>, estimate: int -> Dims)
    requires m.key < 0
    ensures Replay(m, widths, estimate).1.key == m.key
    ensures |Replay(m, widths, estimate).0| == |widths|
    ensures forall i :: 0 <= i < |widths| ==> Replay(m, widths, estimate).0[i] == estimate(Clamp(widths[i]))
  {
    if widths != [] {
      var init := widths[..|widths| - 1];
      ReplayNeverHits(m, init, estimate);
      var (ds, m') := Replay(m, init, estimate);
    }
  }

  /** The same width asked twice in a row, starting from a fresh memo: as
      written, the second lookup still misses. */
  lemma RepeatedQueryMisses(estimate: int -> Dims)
    ensures !Hits(Lookup(Cleared(), 5, estimate).1, 5)
  {
  }

  /** With the intended key, asking the same width again hits and gives the same answer. */
  lemma IntendedRepeatHits(m: Memo, width: int, estimate: int -> Dims)
    ensures LookupIntended(LookupIntended(m, width, estimate).1, width, estimate).0
         == LookupIntended(m, width, estimate).0
  {
  }

  /** With the intended key the memo is transparent: a coherent memo answers
      every lookup with the estimator's value and stays coherent. */
  lemma IntendedTransparent(m: Memo, width: int, estimate: int -> Dims)
    requires Coherent(m, estimate)
    ensures LookupIntended(m, width, estimate).0 == estimate(Clamp(width))
    ensures Coherent(LookupIntended(m, width, estimate).1, estimate)
  {
  }

  /** The layout token and memo after `clear_layout_cache_if_needed`, and
      whether the clear was forwarded to the widget's own state. */
  function ClearIfNeeded(token: nat, m: Memo, uiToken: nat): (r: (nat, Memo, bool))
    ensures r.2 <==> token < uiToken
    ensures r.2 ==> r.0 == uiToken && r.1 == Cleared()
    ensures !r.2 ==> r.0 == token && r.1 == m
    ensures r.0 >= token && r.0 >= uiToken
  {
    if token < uiToken then (uiToken, Cleared(), true) else (token, m, false)
  }

  /** A second clear with the same UI token does nothing, whatever the first did. */
  lemma ClearIfNeededTwice(token: nat, m: Memo, uiToken: nat)
    ensures var (t, m', _) := ClearIfNeeded(token, m, uiToken);
            ClearIfNeeded(t, m', uiToken) == (t, m', false)
  {
  }

  class WidgetCommon {
    /** Whether the widget holds the UI's selection. */
    var selected: bool
    var layoutToken: nat
    var memo: Memo

    /** As written, the memo key never leaves -1. */
    ghost predicate KeyCleared()
      reads this
    {
      memo.key == -1
    }

    constructor()
      ensures !selected && layoutToken == 0 && memo == Cleared()
      ensures KeyCleared()
    {
      selected := false;
      memo := Cleared();
      layoutToken := 0;
    }

    /** `estimate_dimensions`: `estimate` stands for the widget's own estimator
        followed by `fixup`. */
    method EstimateDimensions(width: int, estimate: int -> Dims) returns (d: Dims)
      modifies this
      ensures (d, memo) == Lookup(old(memo), width, estimate)
      ensures selected == old(selected) && layoutToken == old(layoutToken)
      ensures old(KeyCleared()) ==> KeyCleared() && d == estimate(Clamp(width))
    {
      var w := width;
      if w < 0 {
        w := 0;
      }
      var lastWidth, lastDims := memo.key, memo.dims;
      if lastWidth == w {
        return lastDims;
      }
      var newDims := estimate(w);
      memo := Memo(lastWidth, newDims);
      d := newDims;
    }

    /** `clear_layout_cache_if_needed`; `forwarded` is whether the widget's own
        `clear_layout_cache` was called. */
    method ClearLayoutCacheIfNeeded(uiToken: nat) returns (forwarded: bool)
      modifies this
      ensures (layoutToken, memo, forwarded) == ClearIfNeeded(old(layoutToken), old(memo), uiToken)
      ensures selected == old(selected)
      ensures old(KeyCleared()) ==> KeyCleared()
    {
      forwarded := false;
      if layoutToken < uiToken {
        memo := Cleared();
        forwarded := true;
        layoutToken := uiToken;
      }
    }
  }
}
