/** Lists of block intervals and the sets of used blocks they stand for: the canonical form
    of the PMFS in-use list, its updates, and what a first fit is. */
module IntervalList {
  import opened Wrappers
  import opened BlockSizes

  // ------------------------------------------------- interval lists as sets

  datatype Interval = Interval(low: nat, high: nat)

  ghost predicate Covers(s: seq<Interval>, b: nat) {
    exists i :: 0 <= i < |s| && s[i].low <= b <= s[i].high
  }

  ghost function Used(s: seq<Interval>, end: nat): set<nat> {
    set b: nat | b < end && Covers(s, b)
  }

  function Run(base: nat, n: nat): (r: set<nat>)
    ensures forall b :: b in r <==> base <= b < base + n
    ensures |r| == n
  {
    if n == 0 then {} else Run(base, n - 1) + {base + n - 1}
  }

  /** Sorted, disjoint, inside [start, end) and with at least one free block
      between neighbours. */
  ghost predicate Canonical(s: seq<Interval>, start: nat, end: nat) {
    && (forall i :: 0 <= i < |s| ==> start <= s[i].low <= s[i].high < end)
    && (forall i, j :: 0 <= i < j < |s| ==> s[i].high + 1 < s[j].low)
  }

  /** Replacing s[i..j] by mid, the shape of every list update in the source. */
  function Splice(s: seq<Interval>, i: nat, j: nat, mid: seq<Interval>): seq<Interval>
    requires i <= j <= |s|
  {
    s[..i] + mid + s[j..]
  }

  lemma CanonicalConcat(s: seq<Interval>, t: seq<Interval>, start: nat, end: nat)
    requires Canonical(s, start, end) && Canonical(t, start, end)
    requires s != [] && t != [] ==> s[|s| - 1].high + 1 < t[0].low
    ensures Canonical(s + t, start, end)
  {
    var u := s + t;
    forall i, j | 0 <= i < j < |u| ensures u[i].high + 1 < u[j].low {
      if i < |s| <= j {
        assert s[i].high <= s[|s| - 1].high && t[0].low <= t[j - |s|].low;
      }
    }
  }

  lemma SpliceCanonical(s: seq<Interval>, i: nat, j: nat, mid: seq<Interval>, start: nat, end: nat)
    requires Canonical(s, start, end) && Canonical(mid, start, end) && i <= j <= |s|
    requires mid != [] && 0 < i ==> s[i - 1].high + 1 < mid[0].low
    requires mid != [] && j < |s| ==> mid[|mid| - 1].high + 1 < s[j].low
    ensures Canonical(Splice(s, i, j, mid), start, end)
  {
    Front(s, i, mid, start, end);
    CanonicalPart(s, j, |s|, start, end);
    GapAtSeam(s, i, j, mid, start, end);
    hide Canonical;
    assert s[j..|s|] == s[j..];
    CanonicalConcat(s[..i] + mid, s[j..], start, end);
  }

  lemma Front(s: seq<Interval>, i: nat, mid: seq<Interval>, start: nat, end: nat)
    requires Canonical(s, start, end) && Canonical(mid, start, end) && i <= |s|
    requires mid != [] && 0 < i ==> s[i - 1].high + 1 < mid[0].low
    ensures Canonical(s[..i] + mid, start, end)
  {
    CanonicalPart(s, 0, i, start, end);
    hide Canonical;
    assert s[0..i] == s[..i];
    CanonicalConcat(s[..i], mid, start, end);
  }

  lemma CanonicalPart(s: seq<Interval>, i: nat, j: nat, start: nat, end: nat)
    requires Canonical(s, start, end) && i <= j <= |s|
    ensures Canonical(s[i..j], start, end)
  {
  }

  lemma GapAtSeam(s: seq<Interval>, i: nat, j: nat, mid: seq<Interval>, start: nat, end: nat)
    requires Canonical(s, start, end) && i <= j <= |s|
    requires mid != [] && j < |s| ==> mid[|mid| - 1].high + 1 < s[j].low
    ensures var u := s[..i] + mid; u != [] && j < |s| ==> u[|u| - 1].high + 1 < s[j..][0].low
  {
    var u := s[..i] + mid;
    if u != [] && j < |s| {
      assert u[|u| - 1] == if mid == [] then s[i - 1] else mid[|mid| - 1];
      assert s[j..][0] == s[j];
    }
  }

  lemma SpliceOneCanonical(s: seq<Interval>, i: nat, j: nat, iv: Interval, start: nat, end: nat)
    requires Canonical(s, start, end) && i <= j <= |s| && start <= iv.low <= iv.high < end
    requires 0 < i ==> s[i - 1].high + 1 < iv.low
    requires j < |s| ==> iv.high + 1 < s[j].low
    ensures Canonical(Splice(s, i, j, [iv]), start, end)
  {
    SpliceCanonical(s, i, j, [iv], start, end);
  }

  lemma ConcatCovers(s: seq<Interval>, t: seq<Interval>, b: nat)
    ensures Covers(s + t, b) <==> Covers(s, b) || Covers(t, b)
  {
    var u := s + t;
    assert forall k :: 0 <= k < |s| ==> u[k] == s[k];
    assert forall k :: 0 <= k < |t| ==> u[|s| + k] == t[k];
    assert forall k :: |s| <= k < |u| ==> u[k] == t[k - |s|];
  }

  lemma SpliceCovers(s: seq<Interval>, i: nat, j: nat, mid: seq<Interval>, start: nat, end: nat, b: nat)
    requires Canonical(s, start, end) && i <= j <= |s|
    ensures Covers(Splice(s, i, j, mid), b) <==> (Covers(s, b) && !Covers(s[i..j], b)) || Covers(mid, b)
  {
    assert s == s[..i] + s[i..j] + s[j..];
    ConcatCovers(s[..i] + s[i..j], s[j..], b);
    ConcatCovers(s[..i], s[i..j], b);
    ConcatCovers(s[..i] + mid, s[j..], b);
    ConcatCovers(s[..i], mid, b);
    assert Covers(s[i..j], b) ==> !Covers(s[..i], b) && !Covers(s[j..], b);
  }

  /** A run of used blocks lies inside one interval, because neighbours never touch. */
  lemma UsedRunInOneInterval(s: seq<Interval>, start: nat, end: nat, base: nat, n: nat) returns (k: nat)
    requires Canonical(s, start, end) && n > 0
    requires Run(base, n) <= Used(s, end)
    ensures k < |s| && s[k].low <= base && base + n - 1 <= s[k].high
  {
    assert base in Run(base, n);
    k :| 0 <= k < |s| && s[k].low <= base <= s[k].high;
    assert !Covers(s, s[k].high + 1);
    assert s[k].high + 1 !in Run(base, n);
  }

  lemma NonEmptyIff(s: seq<Interval>, start: nat, end: nat)
    requires Canonical(s, start, end)
    ensures s != [] <==> Used(s, end) != {}
  {
    assert s != [] ==> s[0].low in Used(s, end);
  }

  lemma TailsAgree(s: seq<Interval>, t: seq<Interval>, start: nat, end: nat)
    requires Canonical(s, start, end) && Canonical(t, start, end) && s != [] && t != []
    requires Used(s, end) == Used(t, end) && s[0] == t[0]
    ensures Canonical(s[1..], start, end) && Canonical(t[1..], start, end) && Used(s[1..], end) == Used(t[1..], end)
  {
    forall b ensures b in Used(s[1..], end) <==> b in Used(t[1..], end) {
      TailCovers(s, start, end, b);
      TailCovers(t, start, end, b);
      assert b in Used(s, end) <==> b in Used(t, end);
    }
  }

  /** The list is determined by the set it covers. */
  lemma {:induction false} CanonicalIsUnique(s: seq<Interval>, t: seq<Interval>, start: nat, end: nat)
    requires Canonical(s, start, end) && Canonical(t, start, end)
    requires Used(s, end) == Used(t, end)
    ensures s == t
  {
    if s == [] || t == [] {
      NonEmptyIff(s, start, end);
      NonEmptyIff(t, start, end);
    } else {
      FirstIntervalWithin(s, t, start, end);
      FirstIntervalWithin(t, s, start, end);
      assert s[0] == t[0];
      TailsAgree(s, t, start, end);
      CanonicalIsUnique(s[1..], t[1..], start, end);
      assert s == [s[0]] + s[1..] && t == [t[0]] + t[1..];
    }
  }

  lemma TailCovers(s: seq<Interval>, start: nat, end: nat, b: nat)
    requires Canonical(s, start, end) && s != []
    ensures Covers(s[1..], b) <==> Covers(s, b) && b > s[0].high
  {
    if Covers(s[1..], b) {
      var k :| 0 <= k < |s[1..]| && s[1..][k].low <= b <= s[1..][k].high;
      assert s[k + 1] == s[1..][k];
    }
    if Covers(s, b) && b > s[0].high {
      var k :| 0 <= k < |s| && s[k].low <= b <= s[k].high;
      assert s[1..][k - 1] == s[k];
    }
  }

  lemma FirstIntervalWithin(s: seq<Interval>, t: seq<Interval>, start: nat, end: nat)
    requires Canonical(s, start, end) && Canonical(t, start, end) && s != [] && t != []
    requires Used(s, end) == Used(t, end)
    ensures t[0].low <= s[0].low && (t[0].low == s[0].low ==> s[0].high <= t[0].high)
  {
    assert s[0].low in Used(s, end);
    assert s[0].low in Used(t, end);
    assert !Covers(t, t[0].high + 1);
    assert t[0].high + 1 !in Used(s, end);
  }

  // ------------------------------------------ the two list updates, on values

  predicate Within(low: nat, high: nat, iv: Interval) {
    iv.low <= low <= high <= iv.high
  }

  function GapEnd(s: seq<Interval>, i: nat, end: nat): nat
    requires i < |s|
  {
    if i + 1 < |s| then s[i + 1].low else end
  }

  /** What is left of an interval once the run [base, base + n) is freed. */
  function Pieces(iv: Interval, base: nat, n: nat): seq<Interval> {
    (if iv.low < base then [Interval(iv.low, base - 1)] else [])
    + (if base + n <= iv.high then [Interval(base + n, iv.high)] else [])
  }

  lemma UsedMinus(s: seq<Interval>, t: seq<Interval>, end: nat, base: nat, n: nat)
    requires base + n <= end
    requires forall b :: Covers(t, b) <==> Covers(s, b) && b !in Run(base, n)
    requires forall b :: b in Run(base, n) ==> Covers(s, b)
    ensures Run(base, n) <= Used(s, end)
    ensures Used(t, end) == Used(s, end) - Run(base, n)
    ensures |Used(t, end)| + n == |Used(s, end)|
  {
    assert Used(t, end) + Run(base, n) == Used(s, end);
  }

  lemma UsedPlus(s: seq<Interval>, t: seq<Interval>, end: nat, base: nat, n: nat)
    requires base + n <= end
    requires forall b :: Covers(t, b) <==> Covers(s, b) || b in Run(base, n)
    requires forall b :: b in Run(base, n) ==> !Covers(s, b)
    ensures Run(base, n) !! Used(s, end)
    ensures Used(t, end) == Used(s, end) + Run(base, n)
    ensures |Used(t, end)| == |Used(s, end)| + n
  {
    assert Used(t, end) - Run(base, n) == Used(s, end);
  }

  lemma FreeUpdateCanonical(s: seq<Interval>, i: nat, base: nat, n: nat, start: nat, end: nat)
    requires Canonical(s, start, end) && i < |s| && n > 0
    requires s[i].low <= base && base + n - 1 <= s[i].high
    ensures Canonical(Splice(s, i, i + 1, Pieces(s[i], base, n)), start, end)
  {
    var mid := Pieces(s[i], base, n);
    SpliceCanonical(s, i, i + 1, mid, start, end);
  }

  lemma OneOrTwoCover(s: seq<Interval>, from: nat, to: nat, b: nat)
    requires from <= to <= |s| && to <= from + 2
    ensures Covers(s[from..to], b) <==>
      || (from < to && s[from].low <= b <= s[from].high)
      || (from + 1 < to && s[from + 1].low <= b <= s[from + 1].high)
  {
    var u := s[from..to];
    assert from < to ==> u[0] == s[from];
    assert from + 1 < to ==> u[1] == s[from + 1];
  }

  lemma PiecesCover(iv: Interval, base: nat, n: nat, b: nat)
    ensures Covers([iv], b) <==> iv.low <= b <= iv.high
    ensures n > 0 && iv.low <= base && base + n - 1 <= iv.high ==>
      (Covers(Pieces(iv, base, n), b) <==> iv.low <= b <= iv.high && b !in Run(base, n))
  {
    var p := Pieces(iv, base, n);
    assert [iv][0] == iv;
    assert |p| > 0 ==> p[0] == (if iv.low < base then Interval(iv.low, base - 1) else Interval(base + n, iv.high));
    assert |p| > 1 ==> p[1] == Interval(base + n, iv.high);
  }

  lemma FreeUpdateCovers(s: seq<Interval>, i: nat, base: nat, n: nat, start: nat, end: nat, b: nat)
    requires Canonical(s, start, end) && i < |s| && n > 0
    requires s[i].low <= base && base + n - 1 <= s[i].high
    ensures Covers(Splice(s, i, i + 1, Pieces(s[i], base, n)), b) <==> Covers(s, b) && b !in Run(base, n)
    ensures b in Run(base, n) ==> Covers(s, b)
  {
    SpliceCovers(s, i, i + 1, Pieces(s[i], base, n), start, end, b);
    OneOrTwoCover(s, i, i + 1, b);
    PiecesCover(s[i], base, n, b);
  }

  lemma FreeUpdate(s: seq<Interval>, i: nat, base: nat, n: nat, start: nat, end: nat)
    requires Canonical(s, start, end) && i < |s| && n > 0
    requires s[i].low <= base && base + n - 1 <= s[i].high
    ensures var t := Splice(s, i, i + 1, Pieces(s[i], base, n));
      && Canonical(t, start, end)
      && Run(base, n) <= Used(s, end)
      && Used(t, end) == Used(s, end) - Run(base, n)
      && |Used(t, end)| + n == |Used(s, end)|
  {
    var t := Splice(s, i, i + 1, Pieces(s[i], base, n));
    FreeUpdateCanonical(s, i, base, n, start, end);
    forall b: nat
      ensures Covers(t, b) <==> Covers(s, b) && b !in Run(base, n)
      ensures b in Run(base, n) ==> Covers(s, b)
    {
      FreeUpdateCovers(s, i, base, n, start, end, b);
    }
    UsedMinus(s, t, end, base, n);
  }

  /** The list after using [base, base + n), a run in the gap behind node i: the run
      is merged with each neighbour it touches. */
  function AllocUpdate(s: seq<Interval>, i: nat, base: nat, n: nat): seq<Interval>
    requires i < |s| && n > 0
  {
    var left := base == s[i].high + 1;
    var right := i + 1 < |s| && base + n == s[i + 1].low;
    Splice(s, if left then i else i + 1, if right then i + 2 else i + 1,
           [Interval(if left then s[i].low else base, if right then s[i + 1].high else base + n - 1)])
  }

  lemma NothingBetween(s: seq<Interval>, i: nat, start: nat, end: nat, b: nat)
    requires Canonical(s, start, end) && i < |s| && s[i].high < b < GapEnd(s, i, end)
    ensures !Covers(s, b)
  {
    forall k | 0 <= k < |s| ensures !(s[k].low <= b <= s[k].high) {
      assert k <= i || i + 1 <= k;
    }
  }

  lemma AllocUpdateCovers(s: seq<Interval>, i: nat, base: nat, n: nat, start: nat, end: nat, b: nat)
    requires Canonical(s, start, end) && i < |s| && n > 0
    requires s[i].high < base && base + n <= GapEnd(s, i, end)
    ensures Covers(AllocUpdate(s, i, base, n), b) <==> Covers(s, b) || b in Run(base, n)
    ensures Covers(s, b) ==> b !in Run(base, n)
  {
    var left := base == s[i].high + 1;
    var right := i + 1 < |s| && base + n == s[i + 1].low;
    var from, to := if left then i else i + 1, if right then i + 2 else i + 1;
    var iv := Interval(if left then s[i].low else base, if right then s[i + 1].high else base + n - 1);
    SpliceCovers(s, from, to, [iv], start, end, b);
    OneOrTwoCover([iv], 0, 1, b);
    OneOrTwoCover(s, from, to, b);
    if b in Run(base, n) {
      NothingBetween(s, i, start, end, b);
    }
  }

  lemma AllocUpdateCanonical(s: seq<Interval>, i: nat, base: nat, n: nat, start: nat, end: nat)
    requires Canonical(s, start, end) && i < |s| && n > 0
    requires s[i].high < base && base + n <= GapEnd(s, i, end)
    ensures Canonical(AllocUpdate(s, i, base, n), start, end)
  {
    var left := base == s[i].high + 1;
    var right := i + 1 < |s| && base + n == s[i + 1].low;
    var from, to := if left then i else i + 1, if right then i + 2 else i + 1;
    var iv := Interval(if left then s[i].low else base, if right then s[i + 1].high else base + n - 1);
    MergedIsApart(s, i, base, n, start, end, left, right, iv);
    SpliceOneCanonical(s, from, to, iv, start, end);
  }

  /** The merged interval lies in the region with a free block on either side. */
  lemma MergedIsApart(s: seq<Interval>, i: nat, base: nat, n: nat, start: nat, end: nat, left: bool, right: bool,
                      iv: Interval)
    requires Canonical(s, start, end) && i < |s| && n > 0
    requires s[i].high < base && base + n <= GapEnd(s, i, end)
    requires (left <==> base == s[i].high + 1) && (right <==> i + 1 < |s| && base + n == s[i + 1].low)
    requires iv.low == (if left then s[i].low else base) && iv.high == if right then s[i + 1].high else base + n - 1
    ensures start <= iv.low <= iv.high < end
    ensures left && 0 < i ==> s[i - 1].high + 1 < iv.low
    ensures !left ==> s[i].high + 1 < iv.low
    ensures right && i + 2 < |s| ==> iv.high + 1 < s[i + 2].low
    ensures !right && i + 1 < |s| ==> iv.high + 1 < s[i + 1].low
  {
  }

  lemma AllocUpdateUses(s: seq<Interval>, i: nat, base: nat, n: nat, start: nat, end: nat)
    requires Canonical(s, start, end) && i < |s| && n > 0
    requires s[i].high < base && base + n <= GapEnd(s, i, end)
    ensures var t := AllocUpdate(s, i, base, n);
      && Canonical(t, start, end)
      && Run(base, n) !! Used(s, end)
      && Used(t, end) == Used(s, end) + Run(base, n)
      && |Used(t, end)| == |Used(s, end)| + n
  {
    AllocUpdateCanonical(s, i, base, n, start, end);
    var t := AllocUpdate(s, i, base, n);
    forall b: nat
      ensures Covers(t, b) <==> Covers(s, b) || b in Run(base, n)
      ensures Covers(s, b) ==> b !in Run(base, n)
    {
      AllocUpdateCovers(s, i, base, n, start, end, b);
    }
    assert GapEnd(s, i, end) <= end;
    UsedPlus(s, t, end, base, n);
  }

  // -------------------------------------------------------- what a fit means

  /** An aligned run of n blocks inside [start, end), all of them free. */
  ghost predicate Fits(used: set<nat>, start: nat, end: nat, n: nat, base: nat)
    requires n > 0
  {
    Aligned(base, n) && start <= base && base + n <= end && Run(base, n) !! used
  }

  /** base is the least fit above floor. */
  ghost predicate LeastFitAbove(used: set<nat>, floor: nat, start: nat, end: nat, n: nat, base: nat)
    requires n > 0
  {
    && floor < base && Fits(used, start, end, n, base)
    && forall c :: floor < c < base ==> !Fits(used, start, end, n, c)
  }

  ghost predicate LeastFit(used: set<nat>, start: nat, end: nat, n: nat, base: nat)
    requires n > 0
  {
    && Fits(used, start, end, n, base)
    && forall c :: 0 <= c < base ==> !Fits(used, start, end, n, c)
  }

  /** No aligned run fits between node i and its successor. */
  ghost predicate NoRoom(s: seq<Interval>, i: nat, end: nat, n: nat)
    requires i < |s| && n > 0
  {
    forall c :: s[i].high < c && Aligned(c, n) ==> GapEnd(s, i, end) < c + n
  }

  /** Between one node and the next, a run fits exactly if it clears both nodes. */
  lemma FitInGap(s: seq<Interval>, i: nat, start: nat, end: nat, n: nat, base: nat)
    requires Canonical(s, start, end) && i < |s| && n > 0
    requires s[i].low <= base < GapEnd(s, i, end)
    ensures Fits(Used(s, end), start, end, n, base)
       <==> Aligned(base, n) && s[i].high < base && base + n <= GapEnd(s, i, end)
  {
    var used := Used(s, end);
    if Fits(used, start, end, n, base) {
      assert base in Run(base, n);
      assert base <= s[i].high ==> base in used;
      assert i + 1 < |s| ==> s[i + 1].low in used && s[i + 1].low !in Run(base, n);
    }
    if Aligned(base, n) && s[i].high < base && base + n <= GapEnd(s, i, end) {
      forall b | b in Run(base, n) ensures b !in used {
        forall k | 0 <= k < |s| ensures !(s[k].low <= b <= s[k].high) {
          assert k <= i || i + 1 <= k;
        }
      }
    }
  }

  /** Where the part of the region ends that the walk never looks at: all of it if the list is empty. */
  function FrontEnd(s: seq<Interval>, end: nat): nat {
    if s == [] then end else s[0].low
  }

  /** No aligned run of n blocks lies there. */
  ghost predicate NoRoomInFront(s: seq<Interval>, start: nat, end: nat, n: nat)
    requires n > 0
  {
    forall c :: start <= c && Aligned(c, n) ==> FrontEnd(s, end) < c + n
  }

  /** It is enough to look at the first aligned block of the region. */
  lemma FirstAlignedDecides(s: seq<Interval>, start: nat, end: nat, n: nat, first: nat)
    requires n > 0 && start <= first < start + n && Aligned(first, n)
    ensures NoRoomInFront(s, start, end, n) <==> FrontEnd(s, end) < first + n
  {
    forall c | start <= c && Aligned(c, n) ensures first <= c {
      MultiplesApart(c, first, n);
    }
  }

  lemma FitInFront(s: seq<Interval>, start: nat, end: nat, n: nat, c: nat)
    requires Canonical(s, start, end) && n > 0 && (s == [] || c <= s[0].low)
    ensures Fits(Used(s, end), start, end, n, c) <==> start <= c && Aligned(c, n) && c + n <= FrontEnd(s, end)
  {
    if s != [] {
      assert s[0].low in Used(s, end);
      assert c + n > s[0].low ==> s[0].low in Run(c, n);
    }
  }

  /** The walk never looks before the head node, so it finds the least fit of all exactly if
      no aligned run lies there; while the first block of the region is used, none does. */
  lemma FirstFitIsGlobal(s: seq<Interval>, start: nat, end: nat, n: nat, base: nat)
    requires Canonical(s, start, end) && s != [] && n > 0
    requires LeastFitAbove(Used(s, end), s[0].low, start, end, n, base)
    ensures LeastFit(Used(s, end), start, end, n, base) <==> NoRoomInFront(s, start, end, n)
    ensures s[0].low == start ==> NoRoomInFront(s, start, end, n)
  {
    forall c | start <= c <= s[0].low && Aligned(c, n)
      ensures Fits(Used(s, end), start, end, n, c) <==> c + n <= s[0].low
    {
      FitInFront(s, start, end, n, c);
    }
  }

  ghost predicate SomeFit(used: set<nat>, start: nat, end: nat, n: nat)
    requires n > 0
  {
    exists c :: Fits(used, start, end, n, c)
  }

  /** Where some run fits above floor, there is a least one. */
  lemma {:induction false} LeastFitExists(used: set<nat>, floor: nat, start: nat, end: nat, n: nat, c: nat)
    returns (b: nat)
    requires n > 0 && floor < c && Fits(used, start, end, n, c)
    ensures LeastFitAbove(used, floor, start, end, n, b)
    decreases c
  {
    b := c;
    if d :| floor < d < c && Fits(used, start, end, n, d) {
      b := LeastFitExists(used, floor, start, end, n, d);
    }
  }

  /** With a node at hand the walk is refused exactly when no run fits above the head node. */
  lemma RefusedIff(s: seq<Interval>, start: nat, end: nat, n: nat)
    requires Canonical(s, start, end) && n > 0
    ensures (forall b :: !CanAllocate(s, start, end, n, true, b)) <==>
      (forall c :: s != [] && s[0].low < c ==> !Fits(Used(s, end), start, end, n, c))
  {
    if c :| s != [] && s[0].low < c && Fits(Used(s, end), start, end, n, c) {
      var b := LeastFitExists(Used(s, end), s[0].low, start, end, n, c);
      assert CanAllocate(s, start, end, n, true, b);
    }
  }

  /** With a node at hand the walk is refused although some run fits exactly when none fits above the head node
      and one lies before it, as always when the list is empty and the region has room; otherwise it is
      refused exactly when no run fits at all. */
  lemma RefusalIsExact(s: seq<Interval>, start: nat, end: nat, n: nat)
    requires Canonical(s, start, end) && n > 0
    ensures ((forall b :: !CanAllocate(s, start, end, n, true, b)) && SomeFit(Used(s, end), start, end, n)) <==>
      ((forall c :: s != [] && s[0].low < c ==> !Fits(Used(s, end), start, end, n, c))
       && !NoRoomInFront(s, start, end, n))
    ensures NoRoomInFront(s, start, end, n) ==>
      ((forall b :: !CanAllocate(s, start, end, n, true, b)) <==> !SomeFit(Used(s, end), start, end, n))
  {
    RefusedIff(s, start, end, n);
    forall c: nat | s == [] || c <= s[0].low
      ensures Fits(Used(s, end), start, end, n, c) <==> start <= c && Aligned(c, n) && c + n <= FrontEnd(s, end)
    {
      FitInFront(s, start, end, n, c);
    }
  }

  lemma RefusalMeans(s: seq<Interval>, start: nat, end: nat, n: nat)
    requires Canonical(s, start, end) && n > 0 && forall b :: !CanAllocate(s, start, end, n, true, b)
    ensures SomeFit(Used(s, end), start, end, n) <==> !NoRoomInFront(s, start, end, n)
  {
    RefusalIsExact(s, start, end, n);
    RefusedIff(s, start, end, n);
  }

  /** Once everything has been freed every allocation is refused, on a region with room for one. */
  lemma EmptyListRefuses()
    ensures Canonical([], 0, 10) && SomeFit(Used([], 10), 0, 10, 1)
    ensures forall b :: !CanAllocate([], 0, 10, 1, true, b)
  {
    assert Fits(Used([], 10), 0, 10, 1, 0);
  }

  /** Once the first block has been freed the walk can miss the least fit. */
  lemma FirstFitCanMissTheFront()
    ensures var s := [Interval(5, 5)];
      && Canonical(s, 0, 10)
      && LeastFitAbove(Used(s, 10), 5, 0, 10, 1, 6)
      && !LeastFit(Used(s, 10), 0, 10, 1, 6)
  {
    var s := [Interval(5, 5)];
    assert s[0].low == 5;
    var used := Used(s, 10);
    assert used == {5} by {
      assert Covers(s, 5);
      forall b | b in used ensures b == 5 {}
    }
    assert Fits(used, 0, 10, 1, 0);
    assert Fits(used, 0, 10, 1, 6);
  }

  /** A free succeeds exactly if the whole run is used and, where the run touches no free
      block, a node for the second piece can be allocated. */
  ghost predicate CanFree(used: set<nat>, base: nat, n: nat, nodeAvailable: bool) {
    Run(base, n) <= used && (nodeAvailable || base - 1 !in used || base + n !in used)
  }

  /** A run inside node i can be freed without a new node exactly if it reaches an end of it. */
  lemma TouchesEdge(s: seq<Interval>, i: nat, base: nat, n: nat, start: nat, end: nat)
    requires Canonical(s, start, end) && i < |s| && n > 0
    requires s[i].low <= base && base + n - 1 <= s[i].high
    ensures base - 1 in Used(s, end) <==> s[i].low < base
    ensures base + n in Used(s, end) <==> base + n <= s[i].high
  {
    if s[i].high + 1 < end {
      assert GapEnd(s, i, end) > s[i].high + 1 || i + 1 == |s|;
      NothingBetween(s, i, start, end, s[i].high + 1);
    }
    forall k | 0 <= k < |s| && k != i ensures !(s[k].low <= s[i].low - 1 <= s[k].high) {
      assert k < i || i < k;
    }
  }

  lemma CanFreeInside(s: seq<Interval>, i: nat, base: nat, n: nat, start: nat, end: nat, avail: bool)
    requires Canonical(s, start, end) && i < |s| && n > 0
    requires s[i].low <= base && base + n - 1 <= s[i].high
    ensures CanFree(Used(s, end), base, n, avail) <==>
      avail || s[i].low == base || base + n - 1 == s[i].high
  {
    FreeUpdate(s, i, base, n, start, end);
    TouchesEdge(s, i, base, n, start, end);
  }

  /** The node at position h, NULL behind the last one. */
  function NextAfter(s: seq<Interval>, h: nat): Option<nat> {
    if h < |s| then Some(h) else None
  }

  /** The hint a successful free hands on: the first node above b, NULL if there is none. */
  ghost predicate FirstNodeAbove(s: seq<Interval>, b: nat, hint: Option<nat>) {
    var h := if hint.Some? then hint.value else |s|;
    && h <= |s| && (hint.Some? ==> h < |s|)
    && (forall m :: 0 <= m < h ==> s[m].high < b)
    && (forall m :: h <= m < |s| ==> b < s[m].low)
  }

  lemma HintIsNext(s: seq<Interval>, i: nat, base: nat, n: nat, start: nat, end: nat)
    requires Canonical(s, start, end) && i < |s| && n > 0
    requires s[i].low <= base && base + n - 1 <= s[i].high
    ensures var t, k := Splice(s, i, i + 1, Pieces(s[i], base, n)), if base == s[i].low then i else i + 1;
      k <= |t| && FirstNodeAbove(t, base, NextAfter(t, k))
  {
  }

  lemma FreeMiss(s: seq<Interval>, first: nat, base: nat, n: nat, high: nat, start: nat, end: nat)
    requires Canonical(s, start, end) && n > 0 && end <= MAX_BLOCKS
    requires first == 0 || (first < |s| && s[first].low <= base)
    requires if base + n <= ULONG then high == base + n - 1 else high < base
    requires forall m :: first <= m < |s| ==> !Within(base, high, s[m])
    ensures !(Run(base, n) <= Used(s, end))
  {
    if Run(base, n) <= Used(s, end) {
      var k := UsedRunInOneInterval(s, start, end, base, n);
    }
  }

  lemma FreeHit(s: seq<Interval>, t: seq<Interval>, k: nat, freed: bool, next: Option<nat>,
                base: nat, n: nat, start: nat, end: nat, avail: bool)
    requires Canonical(s, start, end) && n > 0 && k < |s| && Within(base, base + n - 1, s[k])
    requires freed <==> avail || s[k].low == base || base + n - 1 == s[k].high
    requires t == if freed then Splice(s, k, k + 1, Pieces(s[k], base, n)) else s
    requires freed ==> next == NextAfter(t, if base == s[k].low then k else k + 1)
    ensures Canonical(t, start, end)
    ensures Used(t, end) == if freed then Used(s, end) - Run(base, n) else Used(s, end)
    ensures |Used(t, end)| + (if freed then n else 0) == |Used(s, end)|
    ensures freed <==> CanFree(Used(s, end), base, n, avail)
    ensures freed ==> FirstNodeAbove(t, base, next)
  {
    FreeUpdate(s, k, base, n, start, end);
    CanFreeInside(s, k, base, n, start, end, avail);
    if freed {
      HintIsNext(s, k, base, n, start, end);
    }
  }

  /** What the walk of a free achieves: k is the node that holds the run, or the length of
      the list; high is the run's last block in 64-bit arithmetic. */
  lemma FreeOutcome(s: seq<Interval>, t: seq<Interval>, first: nat, k: nat, freed: bool,
                    next: Option<nat>, base: nat, n: nat, high: nat, start: nat, end: nat, avail: bool)
    requires Canonical(s, start, end) && n > 0 && k <= |s| && end <= MAX_BLOCKS
    requires first == 0 || (first < |s| && s[first].low <= base)
    requires if base + n <= ULONG then high == base + n - 1 else high < base
    requires k < |s| ==> Within(base, high, s[k])
    requires k == |s| ==> forall m :: first <= m < k ==> !Within(base, high, s[m])
    requires freed <==> k < |s| && (avail || s[k].low == base || high == s[k].high)
    requires t == if freed then Splice(s, k, k + 1, Pieces(s[k], base, high + 1 - base)) else s
    requires freed ==> next == NextAfter(t, if base == s[k].low then k else k + 1)
    ensures Canonical(t, start, end)
    ensures Used(t, end) == if freed then Used(s, end) - Run(base, n) else Used(s, end)
    ensures |Used(t, end)| + (if freed then high + 1 - base else 0) == |Used(s, end)|
    ensures freed <==> CanFree(Used(s, end), base, n, avail)
    ensures freed ==> FirstNodeAbove(t, base, next)
  {
    if k < |s| {
      assert n == high + 1 - base;
      FreeHit(s, t, k, freed, next, base, n, start, end, avail);
    } else {
      FreeMiss(s, first, base, n, high, start, end);
    }
  }

  /** Every block at or above the head node lies in the stretch from some node to the next. */
  lemma {:induction false} LocateGap(s: seq<Interval>, start: nat, end: nat, c: nat) returns (k: nat)
    requires Canonical(s, start, end) && s != [] && s[0].low <= c < end
    ensures k < |s| && s[k].low <= c < GapEnd(s, k, end)
  {
    if c < GapEnd(s, 0, end) {
      k := 0;
    } else {
      var m := LocateGap(s[1..], start, end, c);
      k := m + 1;
    }
  }

  /** The gaps a walk of pmfs_new_block skips hold no fit. */
  lemma SkippedGaps(s: seq<Interval>, k: nat, start: nat, end: nat, n: nat, c: nat)
    requires Canonical(s, start, end) && n > 0 && k <= |s| && s != []
    requires forall m :: 0 <= m < k ==> NoRoom(s, m, end, n)
    requires s[0].low <= c && (k < |s| ==> c < s[k].low)
    ensures !Fits(Used(s, end), start, end, n, c)
  {
    if c < end {
      var m := LocateGap(s, start, end, c);
      assert NoRoom(s, m, end, n);
      FitInGap(s, m, start, end, n, c);
    }
  }

  lemma FirstGapWins(s: seq<Interval>, k: nat, base: nat, start: nat, end: nat, n: nat)
    requires Canonical(s, start, end) && n > 0 && k < |s|
    requires forall m :: 0 <= m < k ==> NoRoom(s, m, end, n)
    requires NextAligned(s[k].high, n, base) && base + n <= GapEnd(s, k, end)
    ensures LeastFitAbove(Used(s, end), s[0].low, start, end, n, base)
  {
    FitInGap(s, k, start, end, n, base);
    assert k > 0 ==> s[0].high + 1 < s[k].low;
    forall c | s[0].low < c < base ensures !Fits(Used(s, end), start, end, n, c) {
      if c < s[k].low {
        SkippedGaps(s, k, start, end, n, c);
      } else {
        FitInGap(s, k, start, end, n, c);
      }
    }
  }

  /** An allocation needs a new node exactly if the run touches no used block. */
  ghost predicate NeedsNode(used: set<nat>, base: nat, n: nat) {
    base - 1 !in used && base + n !in used
  }

  predicate TouchesLeft(s: seq<Interval>, k: nat, base: nat)
    requires k < |s|
  {
    base == s[k].high + 1
  }

  predicate TouchesRight(s: seq<Interval>, k: nat, base: nat, n: nat)
    requires k < |s|
  {
    k + 1 < |s| && base + n == s[k + 1].low
  }

  lemma NeedsNodeIff(s: seq<Interval>, k: nat, base: nat, n: nat, start: nat, end: nat)
    requires Canonical(s, start, end) && k < |s| && n > 0
    requires s[k].high < base && base + n <= GapEnd(s, k, end)
    ensures NeedsNode(Used(s, end), base, n) <==> !TouchesLeft(s, k, base) && !TouchesRight(s, k, base, n)
  {
    if s[k].high < base - 1 {
      NothingBetween(s, k, start, end, base - 1);
    }
    if base + n < GapEnd(s, k, end) {
      NothingBetween(s, k, start, end, base + n);
    }
    assert k + 1 < |s| ==> Covers(s, s[k + 1].low);
  }

  lemma SubsetSize(a: set<nat>, b: set<nat>)
    requires a <= b
    ensures |a| <= |b|
  {
    assert b == a + (b - a);
  }

  lemma UsedBounded(s: seq<Interval>, start: nat, end: nat)
    requires Canonical(s, start, end) && start <= end
    ensures |Used(s, end)| <= end - start
  {
    SubsetSize(Used(s, end), Run(start, end - start));
  }

  lemma LeastFitIsUnique(used: set<nat>, floor: nat, start: nat, end: nat, n: nat, a: nat, b: nat)
    requires n > 0
    requires LeastFitAbove(used, floor, start, end, n, a) && LeastFitAbove(used, floor, start, end, n, b)
    ensures a == b
  {
    assert !(a < b) && !(b < a);
  }

  /** b is the first fit behind the head node, and a node for it, if it needs one, is available. */
  ghost predicate CanAllocate(s: seq<Interval>, start: nat, end: nat, n: nat, avail: bool, b: nat)
    requires n > 0
  {
    && s != []
    && LeastFitAbove(Used(s, end), s[0].low, start, end, n, b)
    && (avail || !NeedsNode(Used(s, end), b, n))
  }

  ghost predicate IsLeast(used: set<nat>, f: nat) {
    f in used && forall b :: b in used ==> f <= b
  }

  /** The same on the used set alone: the head of the list starts at the least used block. */
  ghost predicate Grants(used: set<nat>, start: nat, end: nat, n: nat, avail: bool, b: nat)
    requires n > 0
  {
    exists f :: IsLeast(used, f) && LeastFitAbove(used, f, start, end, n, b) && (avail || !NeedsNode(used, b, n))
  }

  lemma GrantsIsCanAllocate(s: seq<Interval>, start: nat, end: nat, n: nat, avail: bool, b: nat)
    requires Canonical(s, start, end) && n > 0
    ensures CanAllocate(s, start, end, n, avail, b) <==> Grants(Used(s, end), start, end, n, avail, b)
  {
    if s == [] {
      assert Used(s, end) == {};
    } else {
      HeadIsLeast(s, start, end);
    }
  }

  lemma HeadIsLeast(s: seq<Interval>, start: nat, end: nat)
    requires Canonical(s, start, end) && s != []
    ensures forall f :: IsLeast(Used(s, end), f) <==> f == s[0].low
  {
    assert s[0].low in Used(s, end);
  }

  /** What the walk of pmfs_new_block achieves: k is the first node whose gap holds an
      aligned run, or the length of the list. */
  lemma AllocOutcome(s: seq<Interval>, t: seq<Interval>, k: nat, done: bool, base: nat,
                     start: nat, end: nat, n: nat, avail: bool)
    requires Canonical(s, start, end) && n > 0 && k <= |s|
    requires forall m :: 0 <= m < k ==> NoRoom(s, m, end, n)
    requires k < |s| ==> NextAligned(s[k].high, n, base) && base + n <= GapEnd(s, k, end)
    requires done <==> k < |s| && (avail || TouchesLeft(s, k, base) || TouchesRight(s, k, base, n))
    requires t == if done then AllocUpdate(s, k, base, n) else s
    ensures Canonical(t, start, end)
    ensures Used(t, end) == if done then Used(s, end) + Run(base, n) else Used(s, end)
    ensures |Used(t, end)| == |Used(s, end)| + if done then n else 0
    ensures start <= end ==> |Used(t, end)| <= end - start
    ensures done ==> CanAllocate(s, start, end, n, avail, base)
    ensures !done ==> forall b :: !CanAllocate(s, start, end, n, avail, b)
  {
    if k < |s| {
      AllocUpdateUses(s, k, base, n, start, end);
      NeedsNodeIff(s, k, base, n, start, end);
      FirstGapWins(s, k, base, start, end, n);
      forall b | LeastFitAbove(Used(s, end), s[0].low, start, end, n, b) ensures b == base {
        LeastFitIsUnique(Used(s, end), s[0].low, start, end, n, b, base);
      }
    } else if s != [] {
      forall c | s[0].low < c ensures !Fits(Used(s, end), start, end, n, c) {
        SkippedGaps(s, k, start, end, n, c);
      }
    }
    if start <= end {
      UsedBounded(t, start, end);
    }
  }
}
