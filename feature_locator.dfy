/** The searches the window selector and the guess heuristics run over a trace:
    `argmax`/`argmin` and the first or last index of `np.nonzero(mask)`. A search
    that finds nothing returns None where the source indexes an empty array. */
module FeatureLocator {
  import opened Wrappers

  /** The comparison of a threshold mask: `x <= t` or `x >= t`. */
  datatype Cmp = AtMost | AtLeast

  predicate Passes(x: real, c: Cmp, t: real) {
    match c
    case AtMost => x <= t
    case AtLeast => x >= t
  }

  /** No sample of `s` passes the mask: `np.nonzero(mask)[0]` is empty. */
  predicate NonePass(s: seq<real>, c: Cmp, t: real) {
    forall j | 0 <= j < |s| :: !Passes(s[j], c, t)
  }

  /** `k` is `np.nonzero(mask)[0][0]`. */
  predicate IsFirst(s: seq<real>, c: Cmp, t: real, k: nat) {
    && k < |s|
    && Passes(s[k], c, t)
    && forall j | 0 <= j < k :: !Passes(s[j], c, t)
  }

  /** `k` is `np.nonzero(mask)[0][-1]`. */
  predicate IsLast(s: seq<real>, c: Cmp, t: real, k: nat) {
    && k < |s|
    && Passes(s[k], c, t)
    && forall j | k < j < |s| :: !Passes(s[j], c, t)
  }

  /** `k` is where `argmax` (and `list.index(max(...))`) lands: a largest sample,
      and no earlier sample equals it. */
  predicate IsPeak(s: seq<real>, k: nat) {
    && k < |s|
    && (forall j | 0 <= j < |s| :: s[j] <= s[k])
    && (forall j | 0 <= j < k :: s[j] < s[k])
  }

  /** `k` is where `argmin` lands: a smallest sample, and the first one. */
  predicate IsTrough(s: seq<real>, k: nat) {
    && k < |s|
    && (forall j | 0 <= j < |s| :: s[k] <= s[j])
    && (forall j | 0 <= j < k :: s[k] < s[j])
  }

  /** `argmax`: first index of the maximum. */
  function PeakIndex(s: seq<real>): (k: nat)
    requires |s| > 0
    ensures IsPeak(s, k)
  {
    if |s| == 1 then 0
    else
      var k := PeakIndex(s[..|s| - 1]);
      if s[|s| - 1] > s[k] then |s| - 1 else k
  }

  /** `argmin`: first index of the minimum. */
  function TroughIndex(s: seq<real>): (k: nat)
    requires |s| > 0
    ensures IsTrough(s, k)
  {
    if |s| == 1 then 0
    else
      var k := TroughIndex(s[..|s| - 1]);
      if s[|s| - 1] < s[k] then |s| - 1 else k
  }

  /** `max(s)`: the largest sample. */
  function Max(s: seq<real>): (m: real)
    requires |s| > 0
    ensures m in s
    ensures forall j | 0 <= j < |s| :: s[j] <= m
  {
    s[PeakIndex(s)]
  }

  /** `min(s)`: the smallest sample. */
  function Min(s: seq<real>): (m: real)
    requires |s| > 0
    ensures m in s
    ensures forall j | 0 <= j < |s| :: m <= s[j]
  {
    s[TroughIndex(s)]
  }

  /** `np.nonzero(mask)[0][0]`, or None for an empty match. */
  function FirstIndexWhere(s: seq<real>, c: Cmp, t: real): (r: Option<nat>)
    ensures r.None? <==> NonePass(s, c, t)
    ensures r.Some? ==> IsFirst(s, c, t, r.value)
  {
    if |s| == 0 then None
    else if Passes(s[0], c, t) then Some(0)
    else
      match FirstIndexWhere(s[1..], c, t)
      case None => None
      case Some(k) => Some(k + 1)
  }

  /** `np.nonzero(mask)[0][-1]`, or None for an empty match. */
  function LastIndexWhere(s: seq<real>, c: Cmp, t: real): (r: Option<nat>)
    ensures r.None? <==> NonePass(s, c, t)
    ensures r.Some? ==> IsLast(s, c, t, r.value)
  {
    if |s| == 0 then None
    else if Passes(s[|s| - 1], c, t) then Some(|s| - 1)
    else LastIndexWhere(s[..|s| - 1], c, t)
  }

  /** Threshold `u` is weaker than `t` for comparison `c`: every sample that
      passes `t` also passes `u`. */
  predicate Weaker(c: Cmp, t: real, u: real) {
    match c
    case AtMost => t <= u
    case AtLeast => u <= t
  }

  /** argmax has one answer: the search specification pins the index down. */
  lemma PeakIsUnique(s: seq<real>, k1: nat, k2: nat)
    requires IsPeak(s, k1) && IsPeak(s, k2)
    ensures k1 == k2
  {
    // Both are maxima, so they hold the same value; an earlier one would be strictly smaller.
    assert s[k1] == s[k2];
  }

  /** Searching forward with a weaker threshold stops no later. */
  lemma FirstWeakerNoLater(s: seq<real>, c: Cmp, t: real, u: real)
    requires Weaker(c, t, u)
    requires FirstIndexWhere(s, c, t).Some?
    ensures FirstIndexWhere(s, c, u).Some?
    ensures FirstIndexWhere(s, c, u).value <= FirstIndexWhere(s, c, t).value
  {
    var k := FirstIndexWhere(s, c, t).value;
    assert Passes(s[k], c, u);
  }

  /** Searching backward with a weaker threshold stops no earlier. */
  lemma LastWeakerNoEarlier(s: seq<real>, c: Cmp, t: real, u: real)
    requires Weaker(c, t, u)
    requires LastIndexWhere(s, c, t).Some?
    ensures LastIndexWhere(s, c, u).Some?
    ensures LastIndexWhere(s, c, u).value >= LastIndexWhere(s, c, t).value
  {
    var k := LastIndexWhere(s, c, t).value;
    assert Passes(s[k], c, u);
  }
}
