/** The unit pool as a value: a sequence of owners where FREE (-1) marks a
    free unit. Placement rules, maximal free runs and the counting used by
    the metrics, stated once here and used by both the allocator state
    machine and the allocator's loops. */
module Pool {

  const FREE: int := -1

  /** Units s..s+n-1 exist and are all free. */
  ghost predicate Fits(u: seq<int>, s: int, n: int)
  {
    0 <= s && s + n <= |u| && forall k :: s <= k < s + n ==> u[k] == FREE
  }

  /** First Fit's rule: r is the lowest start of n free units, or -1 if none. */
  ghost predicate IsFirstFit(u: seq<int>, n: int, r: int)
  {
    if r == -1 then forall s :: 0 <= s && s + n <= |u| ==> !Fits(u, s, n)
    else Fits(u, r, n) && forall s :: 0 <= s < r ==> !Fits(u, s, n)
  }

  /** Reference search: try every start from s upward. */
  function FirstFitFrom(u: seq<int>, n: nat, s: nat): (r: int)
    ensures r == -1 || (s <= r && r + n <= |u|)
    decreases |u| - s
  {
    if s + n > |u| then -1
    else if forall k :: s <= k < s + n ==> u[k] == FREE then s
    else FirstFitFrom(u, n, s + 1)
  }

  /** The search from s returns a fit at or after s with no fit between s and it. */
  lemma {:induction false} FirstFitFromRule(u: seq<int>, n: nat, s: nat)
    ensures var r := FirstFitFrom(u, n, s);
      (r == -1 || (s <= r && Fits(u, r, n))) &&
      forall t :: s <= t && (r == -1 || t < r) ==> !Fits(u, t, n)
    decreases |u| - s
  {
    if s + n <= |u| && !(forall k :: s <= k < s + n ==> u[k] == FREE) {
      FirstFitFromRule(u, n, s + 1);
    }
  }

  function FirstFit(u: seq<int>, n: nat): (r: int)
    ensures r == -1 || (0 <= r && r + n <= |u|)
  {
    FirstFitFrom(u, n, 0)
  }

  /** The reference search meets First Fit's rule. */
  lemma FirstFitRule(u: seq<int>, n: nat)
    ensures IsFirstFit(u, n, FirstFit(u, n))
  {
    FirstFitFromRule(u, n, 0);
  }

  /** Two starts that both meet First Fit's rule are the same start. */
  lemma FirstFitUnique(u: seq<int>, n: nat, r1: int, r2: int)
    requires IsFirstFit(u, n, r1) && IsFirstFit(u, n, r2)
    ensures r1 == r2
  {
  }

  // ---------------------------------------------------------------- runs

  /** s begins a maximal run of free units. */
  predicate IsRunStart(u: seq<int>, s: int)
  {
    0 <= s < |u| && u[s] == FREE && (s == 0 || u[s - 1] != FREE)
  }

  /** Number of consecutive free units from s: the run ends at the pool's
      end or at the first owned unit. */
  function RunLen(u: seq<int>, s: int): (r: nat)
    requires 0 <= s <= |u|
    ensures s + r <= |u|
    ensures forall k :: s <= k < s + r ==> u[k] == FREE
    ensures s + r == |u| || u[s + r] != FREE
    decreases |u| - s
  {
    if s == |u| || u[s] != FREE then 0 else 1 + RunLen(u, s + 1)
  }

  /** Distinct runs do not overlap: a run ends before the next one starts. */
  lemma RunStartsApart(u: seq<int>, s: int, t: int)
    requires IsRunStart(u, s) && IsRunStart(u, t) && s < t
    ensures s + RunLen(u, s) < t
  {
  }

  /** Every free unit lies in the run of some run start at or before it. */
  lemma {:induction false} RunStartBefore(u: seq<int>, i: int) returns (s: int)
    requires 0 <= i < |u| && u[i] == FREE
    ensures IsRunStart(u, s) && s <= i < s + RunLen(u, s)
    decreases i
  {
    if i == 0 || u[i - 1] != FREE {
      s := i;
    } else {
      s := RunStartBefore(u, i - 1);
      assert s + RunLen(u, s) == |u| || u[s + RunLen(u, s)] != FREE;
    }
  }

  /** Best Fit's rule: r starts a run of at least n units whose length is
      minimal among such runs, lowest start on ties; -1 when none exists. */
  ghost predicate IsBestFitFrom(u: seq<int>, n: int, s: int, r: int)
  {
    if r == -1 then forall t :: s <= t && IsRunStart(u, t) ==> RunLen(u, t) < n
    else
      s <= r && IsRunStart(u, r) && RunLen(u, r) >= n &&
      forall t :: s <= t && IsRunStart(u, t) && RunLen(u, t) >= n ==>
        RunLen(u, r) <= RunLen(u, t) && (t < r ==> RunLen(u, r) < RunLen(u, t))
  }

  ghost predicate IsBestFit(u: seq<int>, n: int, r: int)
  {
    IsBestFitFrom(u, n, 0, r)
  }

  /** Worst Fit's rule: as Best Fit with maximal instead of minimal length. */
  ghost predicate IsWorstFitFrom(u: seq<int>, n: int, s: int, r: int)
  {
    if r == -1 then forall t :: s <= t && IsRunStart(u, t) ==> RunLen(u, t) < n
    else
      s <= r && IsRunStart(u, r) && RunLen(u, r) >= n &&
      forall t :: s <= t && IsRunStart(u, t) && RunLen(u, t) >= n ==>
        RunLen(u, r) >= RunLen(u, t) && (t < r ==> RunLen(u, r) > RunLen(u, t))
  }

  ghost predicate IsWorstFit(u: seq<int>, n: int, r: int)
  {
    IsWorstFitFrom(u, n, 0, r)
  }

  /** Reference Best Fit: compare each run start with the best later one. */
  function BestFitFrom(u: seq<int>, n: int, s: nat): (r: int)
    ensures r == -1 || s <= r < |u|
    decreases |u| - s
  {
    if s >= |u| then -1
    else
      var rest := BestFitFrom(u, n, s + 1);
      if IsRunStart(u, s) && RunLen(u, s) >= n && (rest == -1 || RunLen(u, s) <= RunLen(u, rest))
      then s else rest
  }

  /** Extending the search one start to the left keeps the rule. */
  lemma BestFitStep(u: seq<int>, n: int, s: nat, rest: int)
    requires s < |u| && IsBestFitFrom(u, n, s + 1, rest)
    ensures var here := IsRunStart(u, s) && RunLen(u, s) >= n;
      IsBestFitFrom(u, n, s, if here && (rest == -1 || RunLen(u, s) <= RunLen(u, rest)) then s else rest)
  {
  }

  lemma {:induction false} BestFitFromRule(u: seq<int>, n: int, s: nat)
    ensures IsBestFitFrom(u, n, s, BestFitFrom(u, n, s))
    decreases |u| - s
  {
    if s < |u| {
      BestFitFromRule(u, n, s + 1);
      BestFitStep(u, n, s, BestFitFrom(u, n, s + 1));
    }
  }

  function BestFit(u: seq<int>, n: int): (r: int)
    ensures r == -1 || 0 <= r < |u|
  {
    BestFitFrom(u, n, 0)
  }

  /** The reference search meets Best Fit's rule. */
  lemma BestFitRule(u: seq<int>, n: int)
    ensures IsBestFit(u, n, BestFit(u, n))
  {
    BestFitFromRule(u, n, 0);
  }

  /** Reference Worst Fit. */
  function WorstFitFrom(u: seq<int>, n: int, s: nat): (r: int)
    ensures r == -1 || s <= r < |u|
    decreases |u| - s
  {
    if s >= |u| then -1
    else
      var rest := WorstFitFrom(u, n, s + 1);
      if IsRunStart(u, s) && RunLen(u, s) >= n && (rest == -1 || RunLen(u, s) >= RunLen(u, rest))
      then s else rest
  }

  /** Extending the search one start to the left keeps the rule. */
  lemma WorstFitStep(u: seq<int>, n: int, s: nat, rest: int)
    requires s < |u| && IsWorstFitFrom(u, n, s + 1, rest)
    ensures var here := IsRunStart(u, s) && RunLen(u, s) >= n;
      IsWorstFitFrom(u, n, s, if here && (rest == -1 || RunLen(u, s) >= RunLen(u, rest)) then s else rest)
  {
  }

  lemma {:induction false} WorstFitFromRule(u: seq<int>, n: int, s: nat)
    ensures IsWorstFitFrom(u, n, s, WorstFitFrom(u, n, s))
    decreases |u| - s
  {
    if s < |u| {
      WorstFitFromRule(u, n, s + 1);
      WorstFitStep(u, n, s, WorstFitFrom(u, n, s + 1));
    }
  }

  function WorstFit(u: seq<int>, n: int): (r: int)
    ensures r == -1 || 0 <= r < |u|
  {
    WorstFitFrom(u, n, 0)
  }

  /** The reference search meets Worst Fit's rule. */
  lemma WorstFitRule(u: seq<int>, n: int)
    ensures IsWorstFit(u, n, WorstFit(u, n))
  {
    WorstFitFromRule(u, n, 0);
  }

  lemma BestFitUnique(u: seq<int>, n: int, r1: int, r2: int)
    requires IsBestFit(u, n, r1) && IsBestFit(u, n, r2)
    ensures r1 == r2
  {
  }

  lemma WorstFitUnique(u: seq<int>, n: int, r1: int, r2: int)
    requires IsWorstFit(u, n, r1) && IsWorstFit(u, n, r2)
    ensures r1 == r2
  {
  }

  /** A placement that starts a run of at least n units fits n units there. */
  lemma RunStartFits(u: seq<int>, s: int, n: nat)
    requires IsRunStart(u, s) && RunLen(u, s) >= n
    ensures Fits(u, s, n)
  {
  }

  // ------------------------------------------------ scanning with a run

  /** Scan state after inspecting units 0..i-1: `len` is the number of free
      units immediately before i. */
  ghost predicate TrailingFree(u: seq<int>, i: int, len: int)
  {
    0 <= len <= i <= |u| &&
    (forall k :: i - len <= k < i ==> u[k] == FREE) &&
    (len < i ==> u[i - len - 1] != FREE)
  }

  /** A run is closed at i when the owned unit that ends it lies before i. */
  ghost predicate Closed(u: seq<int>, t: int, i: int)
  {
    IsRunStart(u, t) && t + RunLen(u, t) < i
  }

  lemma TrailingStart(u: seq<int>, i: int, len: int)
    requires TrailingFree(u, i, len) && len > 0
    ensures IsRunStart(u, i - len) && RunLen(u, i - len) >= len
  {
  }

  /** Inspecting unit i: a free unit extends the trailing run, an owned one
      resets it. */
  lemma TrailingStep(u: seq<int>, i: int, len: int)
    requires TrailingFree(u, i, len) && i < |u|
    ensures u[i] == FREE ==> TrailingFree(u, i + 1, len + 1)
    ensures u[i] != FREE ==> TrailingFree(u, i + 1, 0)
  {
  }

  /** Inspecting unit i: a free unit extends the trailing run, an owned one
      closes it; a run becomes closed at i+1 exactly when it is the trailing
      run and unit i is owned. */
  lemma ScanStep(u: seq<int>, i: int, len: int)
    requires TrailingFree(u, i, len) && i < |u|
    ensures u[i] == FREE ==> TrailingFree(u, i + 1, len + 1)
    ensures u[i] != FREE ==> TrailingFree(u, i + 1, 0)
    ensures u[i] != FREE && len > 0 ==> Closed(u, i - len, i + 1) && RunLen(u, i - len) == len
    ensures forall t :: Closed(u, t, i + 1) <==>
      Closed(u, t, i) || (u[i] != FREE && len > 0 && t == i - len)
  {
    forall t | Closed(u, t, i + 1) && !Closed(u, t, i)
      ensures u[i] != FREE && len > 0 && t == i - len
    {
      assert t + RunLen(u, t) == i;
      assert u[i] != FREE;
      assert u[i - 1] == FREE;
      assert len > 0;
      TrailingStart(u, i, len);
      if t < i - len {
        RunStartsApart(u, t, i - len);
      } else if t > i - len {
        RunStartsApart(u, i - len, t);
      }
    }
    if u[i] != FREE && len > 0 {
      TrailingStart(u, i, len);
    }
  }

  /** At the end of the scan every run is closed or is the trailing run. */
  lemma ScanEnd(u: seq<int>, len: int)
    requires TrailingFree(u, |u|, len)
    ensures len > 0 ==> IsRunStart(u, |u| - len) && RunLen(u, |u| - len) == len
    ensures forall t :: IsRunStart(u, t) <==>
      Closed(u, t, |u|) || (len > 0 && t == |u| - len)
  {
    if len > 0 {
      TrailingStart(u, |u|, len);
    }
    forall t | IsRunStart(u, t) && !Closed(u, t, |u|)
      ensures len > 0 && t == |u| - len
    {
      assert t + RunLen(u, t) == |u|;
      assert u[|u| - 1] == FREE;
      assert len > 0;
      TrailingStart(u, |u|, len);
      if t < |u| - len {
        RunStartsApart(u, t, |u| - len);
      } else if t > |u| - len {
        RunStartsApart(u, |u| - len, t);
      }
    }
  }

  // ------------------------------------------------ rotation and marking

  /** An index below twice the pool's size, wrapped once at its end. */
  function WrapOnce(x: int, n: int): int
  {
    if x < n then x else x - n
  }

  /** The pool read from `c` onward and then from its start: unit k of the
      result is unit c+k of the pool, wrapped once at the pool's end. */
  function Rotate(u: seq<int>, c: int): (r: seq<int>)
    requires 0 <= c <= |u|
    ensures |r| == |u|
  {
    u[c..] + u[..c]
  }

  /** Unit k of the rotation is unit c+k of the pool, wrapped once at its end. */
  lemma RotateAt(u: seq<int>, c: int, k: int)
    requires 0 <= c <= |u| && 0 <= k < |u|
    ensures Rotate(u, c)[k] == u[WrapOnce(c + k, |u|)]
  {
  }

  function MarkRange(u: seq<int>, s: int, n: int, v: int): (r: seq<int>)
    ensures |r| == |u|
    ensures forall k :: 0 <= k < |u| ==> r[k] == (if s <= k < s + n then v else u[k])
  {
    seq(|u|, k requires 0 <= k < |u| => if s <= k < s + n then v else u[k])
  }

  // ------------------------------------------------ counting

  function CountFree(u: seq<int>): nat
  {
    if |u| == 0 then 0
    else CountFree(u[..|u| - 1]) + (if u[|u| - 1] == FREE then 1 else 0)
  }

  function CountUsed(u: seq<int>): nat
  {
    if |u| == 0 then 0
    else CountUsed(u[..|u| - 1]) + (if u[|u| - 1] != FREE then 1 else 0)
  }

  /** Every unit is exactly one of free or owned. */
  lemma {:induction false} FreePlusUsed(u: seq<int>)
    ensures CountFree(u) + CountUsed(u) == |u|
    decreases |u|
  {
    if |u| > 0 {
      FreePlusUsed(u[..|u| - 1]);
    }
  }

  /** There is a free unit exactly when the free count is positive. */
  lemma {:induction false} CountFreePositive(u: seq<int>)
    ensures CountFree(u) > 0 <==> exists i :: 0 <= i < |u| && u[i] == FREE
    decreases |u|
  {
    if |u| > 0 {
      var w := u[..|u| - 1];
      CountFreePositive(w);
      if exists i :: 0 <= i < |w| && w[i] == FREE {
        var i :| 0 <= i < |w| && w[i] == FREE;
        assert u[i] == FREE;
      }
      if exists i :: 0 <= i < |u| && u[i] == FREE {
        var i :| 0 <= i < |u| && u[i] == FREE;
        if i < |w| {
          assert w[i] == FREE;
        }
      }
    }
  }

  /** The run starts among units 0..i-1. */
  function RunStartsBelow(u: seq<int>, i: int): set<int>
  {
    set s | 0 <= s < i && IsRunStart(u, s)
  }

  /** All run starts: one per maximal free run. */
  function RunStartSet(u: seq<int>): set<int>
  {
    RunStartsBelow(u, |u|)
  }

  /** Some run exists exactly when some unit is free. */
  lemma RunExistsIffFree(u: seq<int>)
    ensures RunStartSet(u) != {} <==> CountFree(u) > 0
  {
    CountFreePositive(u);
    if CountFree(u) > 0 {
      var i :| 0 <= i < |u| && u[i] == FREE;
      var s := RunStartBefore(u, i);
      assert s in RunStartSet(u);
    }
    if RunStartSet(u) != {} {
      var s :| s in RunStartSet(u);
      assert u[s] == FREE;
    }
  }

  /** The longest run among run starts at or after s, 0 if there is none. */
  function MaxRunFrom(u: seq<int>, s: nat): nat
    decreases |u| - s
  {
    if s >= |u| then 0
    else
      var rest := MaxRunFrom(u, s + 1);
      if IsRunStart(u, s) && RunLen(u, s) > rest then RunLen(u, s) else rest
  }

  /** MaxRunFrom bounds every run from s on and is attained, 0 when there is none. */
  lemma {:induction false} MaxRunFromBounds(u: seq<int>, s: nat)
    ensures var r := MaxRunFrom(u, s);
      (forall t :: s <= t && IsRunStart(u, t) ==> RunLen(u, t) <= r) &&
      (r > 0 ==> exists t :: s <= t && IsRunStart(u, t) && RunLen(u, t) == r) &&
      (r == 0 ==> forall t :: s <= t ==> !IsRunStart(u, t))
    decreases |u| - s
  {
    if s < |u| {
      MaxRunFromBounds(u, s + 1);
    }
  }

  /** The shortest run among run starts at or after s, 0 if there is none. */
  function MinRunFrom(u: seq<int>, s: nat): nat
    decreases |u| - s
  {
    if s >= |u| then 0
    else
      var rest := MinRunFrom(u, s + 1);
      if IsRunStart(u, s) && (rest == 0 || RunLen(u, s) < rest) then RunLen(u, s) else rest
  }

  /** MinRunFrom is a positive lower bound of every run from s on and is
      attained, 0 when there is none. */
  lemma {:induction false} MinRunFromBounds(u: seq<int>, s: nat)
    ensures var r := MinRunFrom(u, s);
      (forall t :: s <= t && IsRunStart(u, t) ==> 0 < r <= RunLen(u, t)) &&
      (r > 0 ==> exists t :: s <= t && IsRunStart(u, t) && RunLen(u, t) == r) &&
      (r == 0 ==> forall t :: s <= t ==> !IsRunStart(u, t))
    decreases |u| - s
  {
    if s < |u| {
      MinRunFromBounds(u, s + 1);
    }
  }

  /** The longest run is determined by being an upper bound that is attained. */
  lemma MaxRunUnique(u: seq<int>, m: nat)
    requires forall t :: IsRunStart(u, t) ==> RunLen(u, t) <= m
    requires m > 0 ==> exists t :: IsRunStart(u, t) && RunLen(u, t) == m
    ensures m == MaxRunFrom(u, 0)
  {
    MaxRunFromBounds(u, 0);
  }

  /** The shortest run is determined by being a lower bound that is attained. */
  lemma MinRunUnique(u: seq<int>, m: nat)
    requires forall t :: IsRunStart(u, t) ==> 0 < m <= RunLen(u, t)
    requires m > 0 ==> exists t :: IsRunStart(u, t) && RunLen(u, t) == m
    ensures m == MinRunFrom(u, 0)
  {
    MinRunFromBounds(u, 0);
  }
}
