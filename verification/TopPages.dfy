/** The page selection of drivers/NVMSIM/syncer.c: one pass keeps the k largest (or smallest)
    access counts seen so far; over the compacted list of pages in use it finds the pages with
    the most and the fewest accesses. */
module TopPages {
  import opened Words
  import opened Wrappers

  // ----------------------------------------------------- extremes of an array

  /** minium: the first index of a smallest element. */
  method Minium(arr: array<nat>, n: nat) returns (index: nat)
    requires 0 < n <= arr.Length
    ensures index < n && forall j :: 0 <= j < n ==> arr[index] <= arr[j]
    ensures forall j :: 0 <= j < index ==> arr[index] < arr[j]
  {
    var min := arr[0];
    index := 0;
    for i := 0 to n
      invariant index < n && min == arr[index] && (index < i || index == 0)
      invariant forall j :: 0 <= j < i ==> min <= arr[j]
      invariant forall j :: 0 <= j < index ==> min < arr[j]
    {
      if min > arr[i] {
        min := arr[i];
        index := i;
      }
    }
  }

  /** maxium: the first index of a largest element. */
  method Maxium(arr: array<nat>, n: nat) returns (index: nat)
    requires 0 < n <= arr.Length
    ensures index < n && forall j :: 0 <= j < n ==> arr[j] <= arr[index]
    ensures forall j :: 0 <= j < index ==> arr[j] < arr[index]
  {
    var max := arr[0];
    index := 0;
    for i := 0 to n
      invariant index < n && max == arr[index] && (index < i || index == 0)
      invariant forall j :: 0 <= j < i ==> arr[j] <= max
      invariant forall j :: 0 <= j < index ==> arr[j] < max
    {
      if max < arr[i] {
        max := arr[i];
        index := i;
      }
    }
  }

  // ------------------------------------------------------------ k of n values

  ghost predicate DistinctBelow(addr: seq<nat>, n: nat) {
    && (forall t :: 0 <= t < |addr| ==> addr[t] < n)
    && (forall t, u :: 0 <= t < u < |addr| ==> addr[t] != addr[u])
  }

  /** addr picks distinct indices of s[..n] whose values are not below any value left out. */
  ghost predicate Largest(s: seq<nat>, n: nat, addr: seq<nat>)
    requires n <= |s|
  {
    && DistinctBelow(addr, n)
    && forall j, t :: 0 <= j < n && j !in addr && 0 <= t < |addr| ==> s[j] <= s[addr[t]]
  }

  ghost predicate Smallest(s: seq<nat>, n: nat, addr: seq<nat>)
    requires n <= |s|
  {
    && DistinctBelow(addr, n)
    && forall j, t :: 0 <= j < n && j !in addr && 0 <= t < |addr| ==> s[addr[t]] <= s[j]
  }

  lemma LeftOut(addr: seq<nat>, m: nat, n: nat)
    requires m < |addr|
    ensures forall j :: j !in addr[m := n] ==> j != n && (j in addr ==> j == addr[m])
  {
    var addr' := addr[m := n];
    assert addr'[m] == n;
    assert forall t :: 0 <= t < |addr| && t != m ==> addr'[t] == addr[t];
  }

  /** Replacing the least of the picked values by a larger new one keeps the largest. */
  /** The index put in place of another one is new. */
  lemma ReplacedStaysDistinct(s: seq<nat>, n: nat, key: seq<nat>, addr: seq<nat>, m: nat)
    requires n < |s| && Mirrors(s, key, addr) && DistinctBelow(addr, n) && m < |key|
    ensures Mirrors(s, key[m := s[n]], addr[m := n]) && DistinctBelow(addr[m := n], n + 1)
  {
    LeftOut(addr, m, n);
  }

  lemma ReplaceLeast(s: seq<nat>, n: nat, key: seq<nat>, addr: seq<nat>, m: nat)
    requires n < |s| && Mirrors(s, key, addr) && Largest(s, n, addr)
    requires m < |key| && forall t :: 0 <= t < |key| ==> key[m] <= key[t]
    ensures s[n] > key[m] ==> Mirrors(s, key[m := s[n]], addr[m := n]) && Largest(s, n + 1, addr[m := n])
    ensures s[n] <= key[m] ==> Largest(s, n + 1, addr)
  {
    ReplacedStaysDistinct(s, n, key, addr, m);
    LeftOut(addr, m, n);
    var addr' := addr[m := n];
    if s[n] > key[m] {
      forall j, t | 0 <= j < n + 1 && j !in addr' && 0 <= t < |addr'| ensures s[j] <= s[addr'[t]] {
        assert s[j] <= s[addr[m]] && (t != m ==> addr'[t] == addr[t] && key[t] == s[addr[t]]);
      }
    }
  }

  lemma ReplaceGreatest(s: seq<nat>, n: nat, key: seq<nat>, addr: seq<nat>, m: nat)
    requires n < |s| && Mirrors(s, key, addr) && Smallest(s, n, addr)
    requires m < |key| && forall t :: 0 <= t < |key| ==> key[t] <= key[m]
    ensures s[n] < key[m] ==> Mirrors(s, key[m := s[n]], addr[m := n]) && Smallest(s, n + 1, addr[m := n])
    ensures s[n] >= key[m] ==> Smallest(s, n + 1, addr)
  {
    ReplacedStaysDistinct(s, n, key, addr, m);
    LeftOut(addr, m, n);
    var addr' := addr[m := n];
    if s[n] < key[m] {
      forall j, t | 0 <= j < n + 1 && j !in addr' && 0 <= t < |addr'| ensures s[addr'[t]] <= s[j] {
        assert s[addr[m]] <= s[j] && (t != m ==> addr'[t] == addr[t] && key[t] == s[addr[t]]);
      }
    }
  }

  lemma AllOfThem(s: seq<nat>, k: nat, addr: seq<nat>)
    requires k <= |s| && |addr| == k && forall t :: 0 <= t < k ==> addr[t] == t
    ensures Largest(s, k, addr) && Smallest(s, k, addr)
  {
    forall j | 0 <= j < k ensures j in addr {
      assert addr[j] == j;
    }
  }

  /** key mirrors the values at the picked indices. */
  ghost predicate Mirrors(s: seq<nat>, key: seq<nat>, addr: seq<nat>) {
    |key| == |addr| && forall t :: 0 <= t < |key| ==> addr[t] < |s| && key[t] == s[addr[t]]
  }

  /** The loop invariant of bigK_index: the k largest of s[..n] are picked, the least of them at m. */
  ghost predicate KeepsLargest(s: seq<nat>, n: nat, key: seq<nat>, addr: seq<nat>, m: nat) {
    && n <= |s| && Mirrors(s, key, addr) && Largest(s, n, addr)
    && m < |key| && forall t :: 0 <= t < |key| ==> key[m] <= key[t]
  }

  /** One turn of the loop of bigK_index. */
  method OfferLarger(v: nat, i: nat, key: array<nat>, addr: array<nat>, m: nat, ghost s: seq<nat>) returns (m': nat)
    requires i < |s| && s[i] == v && key != addr && KeepsLargest(s, i, key[..], addr[..], m)
    modifies key, addr
    ensures KeepsLargest(s, i + 1, key[..], addr[..], m')
  {
    ReplaceLeast(s, i, key[..], addr[..], m);
    m' := m;
    if v > key[m] {
      ghost var k0, a0 := key[..], addr[..];
      key[m] := v;
      addr[m] := i;
      assert key[..] == k0[m := v] && addr[..] == a0[m := i];
      m' := Minium(key, key.Length);
    }
  }

  /** bigK_index: k indices of the largest values, or None for NULL. */
  method BigKIndex(arr: array<nat>, n: nat, k: nat, memory: bool) returns (r: Option<seq<nat>>)
    requires n <= arr.Length
    ensures r.Some? <==> 0 < k <= n && memory
    ensures r.Some? ==> |r.value| == k && Largest(arr[..], n, r.value)
  {
    if n <= 0 || k > n || k <= 0 || !memory {
      return None;
    }
    var key, addr := FirstK(arr, k);
    ghost var s := arr[..];
    AllOfThem(s, k, addr[..]);
    var minIndex := Minium(key, k);
    for i := k to n
      invariant arr[..] == s && KeepsLargest(s, i, key[..], addr[..], minIndex)
    {
      minIndex := OfferLarger(arr[i], i, key, addr, minIndex, s);
    }
    r := Some(addr[..]);
  }

  /** The loop invariant of smallK_index: the k smallest of s[..n] are picked, the greatest of them at m. */
  ghost predicate KeepsSmallest(s: seq<nat>, n: nat, key: seq<nat>, addr: seq<nat>, m: nat) {
    && n <= |s| && Mirrors(s, key, addr) && Smallest(s, n, addr)
    && m < |key| && forall t :: 0 <= t < |key| ==> key[t] <= key[m]
  }

  /** One turn of the loop of smallK_index. */
  method OfferSmaller(v: nat, i: nat, key: array<nat>, addr: array<nat>, m: nat, ghost s: seq<nat>) returns (m': nat)
    requires i < |s| && s[i] == v && key != addr && KeepsSmallest(s, i, key[..], addr[..], m)
    modifies key, addr
    ensures KeepsSmallest(s, i + 1, key[..], addr[..], m')
  {
    ReplaceGreatest(s, i, key[..], addr[..], m);
    m' := m;
    if v < key[m] {
      ghost var k0, a0 := key[..], addr[..];
      key[m] := v;
      addr[m] := i;
      assert key[..] == k0[m := v] && addr[..] == a0[m := i];
      m' := Maxium(key, key.Length);
    }
  }

  /** smallK_index: k indices of the smallest values, or None for NULL. */
  method SmallKIndex(arr: array<nat>, n: nat, k: nat, memory: bool) returns (r: Option<seq<nat>>)
    requires n <= arr.Length
    ensures r.Some? <==> 0 < k <= n && memory
    ensures r.Some? ==> |r.value| == k && Smallest(arr[..], n, r.value)
  {
    if n <= 0 || k > n || k <= 0 || !memory {
      return None;
    }
    var key, addr := FirstK(arr, k);
    ghost var s := arr[..];
    AllOfThem(s, k, addr[..]);
    var maxIndex := Maxium(key, k);
    for i := k to n
      invariant arr[..] == s && KeepsSmallest(s, i, key[..], addr[..], maxIndex)
    {
      maxIndex := OfferSmaller(arr[i], i, key, addr, maxIndex, s);
    }
    r := Some(addr[..]);
  }

  /** The start of both selections: the first k values with their indices. */
  method FirstK(arr: array<nat>, k: nat) returns (key: array<nat>, addr: array<nat>)
    requires k <= arr.Length
    ensures fresh(key) && fresh(addr) && key != addr && key.Length == addr.Length == k
    ensures Mirrors(arr[..], key[..], addr[..]) && forall t :: 0 <= t < k ==> addr[t] == t
  {
    key, addr := new nat[k], new nat[k];
    for i := 0 to k
      invariant forall t :: 0 <= t < i ==> key[t] == arr[t] && addr[t] == t
      invariant arr[..] == old(arr[..])
    {
      key[i] := arr[i];
      addr[i] := i;
    }
  }

  // -------------------------------------------------------- pages of a bitmap

  /** The pages in use, in order: those whose bitmap word is not 0. */
  function InUse(bitmap: seq<nat>): seq<nat> {
    if bitmap == [] then [] else
      InUse(bitmap[..|bitmap| - 1]) + if bitmap[|bitmap| - 1] != 0 then [|bitmap| - 1] else []
  }

  /** The access counts of the pages in use, in the same order. */
  function Counts(bitmap: seq<nat>, info: seq<nat>): seq<nat>
    requires |bitmap| <= |info|
  {
    if bitmap == [] then [] else
      Counts(bitmap[..|bitmap| - 1], info)
      + if bitmap[|bitmap| - 1] != 0 then [info[|bitmap| - 1]] else []
  }

  function Sum(s: seq<nat>): nat {
    if s == [] then 0 else Sum(s[..|s| - 1]) + s[|s| - 1]
  }

  lemma {:induction false} InUseAscends(bitmap: seq<nat>)
    ensures forall t :: 0 <= t < |InUse(bitmap)| ==> InUse(bitmap)[t] < |bitmap| && bitmap[InUse(bitmap)[t]] != 0
    ensures forall t, u :: 0 <= t < u < |InUse(bitmap)| ==> InUse(bitmap)[t] < InUse(bitmap)[u]
  {
    if bitmap != [] {
      InUseAscends(bitmap[..|bitmap| - 1]);
    }
  }

  lemma {:induction false} InUseHasAll(bitmap: seq<nat>, page: nat)
    requires page < |bitmap| && bitmap[page] != 0
    ensures page in InUse(bitmap)
  {
    var rest := InUse(bitmap[..|bitmap| - 1]);
    if page < |bitmap| - 1 {
      InUseHasAll(bitmap[..|bitmap| - 1], page);
    } else {
      assert InUse(bitmap)[|rest|] == page;
    }
  }

  lemma {:induction false} CountsArePages(bitmap: seq<nat>, info: seq<nat>)
    requires |bitmap| <= |info|
    ensures |Counts(bitmap, info)| == |InUse(bitmap)|
    ensures forall t :: 0 <= t < |InUse(bitmap)| ==> InUse(bitmap)[t] < |info|
    ensures forall t :: 0 <= t < |InUse(bitmap)| ==> Counts(bitmap, info)[t] == info[InUse(bitmap)[t]]
  {
    if bitmap != [] {
      CountsArePages(bitmap[..|bitmap| - 1], info);
    }
  }

  lemma CompactStep(b: seq<nat>, f: seq<nat>, i: nat)
    requires i < |b| <= |f|
    ensures b[i] == 0 ==> InUse(b[..i + 1]) == InUse(b[..i]) && Counts(b[..i + 1], f) == Counts(b[..i], f)
    ensures b[i] != 0 ==>
      InUse(b[..i + 1]) == InUse(b[..i]) + [i] && Counts(b[..i + 1], f) == Counts(b[..i], f) + [f[i]]
    ensures b[i] != 0 ==> Sum(Counts(b[..i + 1], f)) == Sum(Counts(b[..i], f)) + f[i]
  {
    assert b[..i + 1][..i] == b[..i];
    var c := Counts(b[..i], f);
    assert (c + [f[i]])[..|c|] == c;
  }

  lemma {:induction false} InUseGrows(b: seq<nat>, i: nat)
    requires i <= |b|
    ensures |InUse(b[..i])| <= |InUse(b)|
    decreases |b|
  {
    if i < |b| {
      assert b[..|b| - 1][..i] == b[..i];
      InUseGrows(b[..|b| - 1], i);
    } else {
      assert b[..i] == b;
    }
  }

  /** pageCount. */
  method PageCount(bitmap: array<nat>, len: nat) returns (total: nat)
    requires len <= bitmap.Length
    ensures total == |InUse(bitmap[..len])|
  {
    total := 0;
    for i := 0 to len
      invariant total == |InUse(bitmap[..i])|
    {
      assert bitmap[..i + 1][..i] == bitmap[..i];
      if bitmap[i] != 0 {
        total := total + 1;
      }
    }
  }

  method AddWord(sum: nat, x: nat, ghost total: nat) returns (r: nat)
    requires sum == total % WORD
    ensures r == (total + x) % WORD
  {
    r := (sum + x) % WORD;
  }

  /** Appends to the filled part of both arrays. */
  method Append(pages: array<nat>, counts: array<nat>, found: nat, page: nat, count: nat)
    requires found < pages.Length == counts.Length && pages != counts
    modifies pages, counts
    ensures pages[..found + 1] == old(pages[..found]) + [page] && counts[..found + 1] == old(counts[..found]) + [count]
  {
    pages[found] := page;
    counts[found] := count;
  }

  /** What the two arrays and the sum hold after the first i words of the bitmap. */
  ghost predicate Compacted(b: seq<nat>, f: seq<nat>, i: nat, pages: seq<nat>, counts: seq<nat>, sum: nat) {
    && i <= |b| <= |f|
    && pages == InUse(b[..i]) && counts == Counts(b[..i], f) && sum == Sum(counts) % WORD
    && |pages| == |counts| <= |InUse(b)|
  }

  lemma CompactedNext(b: seq<nat>, f: seq<nat>, i: nat, pages: seq<nat>, counts: seq<nat>, sum: nat)
    requires Compacted(b, f, i, pages, counts, sum) && i < |b|
    ensures b[i] == 0 ==> Compacted(b, f, i + 1, pages, counts, sum)
    ensures b[i] != 0 ==> |pages| < |InUse(b)|
    ensures b[i] != 0 ==> Compacted(b, f, i + 1, pages + [i], counts + [f[i]], (Sum(counts) + f[i]) % WORD)
  {
    CompactStep(b, f, i);
    InUseGrows(b, i + 1);
  }

  /** One turn of the compaction loop. */
  method CompactOne(bitmap: array<nat>, info: array<nat>, pages: array<nat>, counts: array<nat>, i: nat, found: nat,
                    sum: nat, ghost b: seq<nat>, ghost f: seq<nat>)
    returns (found': nat, sum': nat)
    requires i < |b| <= bitmap.Length && |f| == info.Length && b[i] == bitmap[i] && (i < |f| ==> f[i] == info[i])
    requires |InUse(b)| <= pages.Length == counts.Length && pages != counts && found <= pages.Length
    requires Compacted(b, f, i, pages[..found], counts[..found], sum)
    modifies pages, counts
    ensures found' <= pages.Length && Compacted(b, f, i + 1, pages[..found'], counts[..found'], sum')
  {
    found', sum' := found, sum;
    CompactedNext(b, f, i, pages[..found], counts[..found], sum);
    if bitmap[i] != 0 {
      sum' := AddWord(sum, info[i], Sum(counts[..found]));
      Append(pages, counts, found, i, info[i]);
      found' := found + 1;
    }
  }

  /** The compaction loop of extract_small and extract_big_small: the pages in use, their access
      counts and the sum of these as a 32-bit word.  The arrays are sized by pageCount, so the
      bitmap must not have more pages in use than that. */
  method Compact(bitmap: array<nat>, info: array<nat>, n: nat, pageCount: nat, ghost b: seq<nat>, ghost f: seq<nat>)
    returns (pages: array<nat>, counts: array<nat>, found: nat, sum: nat)
    requires n <= bitmap.Length && n <= info.Length && b == bitmap[..n] && f == info[..] && |InUse(b)| <= pageCount
    ensures fresh(pages) && fresh(counts) && pages.Length == counts.Length == pageCount
    ensures found == |InUse(b)| && pages[..found] == InUse(b) && counts[..found] == Counts(b, f)
    ensures sum == Sum(Counts(b, f)) % WORD
  {
    pages, counts := new nat[pageCount], new nat[pageCount];
    found, sum := 0, 0;
    CompactedStart(b, f);
    for i := 0 to n
      invariant bitmap[..n] == b && info[..] == f && found <= pageCount
      invariant Compacted(b, f, i, pages[..found], counts[..found], sum)
    {
      found, sum := CompactOne(bitmap, info, pages, counts, i, found, sum, b, f);
    }
    CompactedAll(b, f, pages[..found], counts[..found], sum);
  }

  lemma CompactedStart(b: seq<nat>, f: seq<nat>)
    requires |b| <= |f|
    ensures Compacted(b, f, 0, [], [], 0)
  {
    assert b[..0] == [];
  }

  lemma CompactedAll(b: seq<nat>, f: seq<nat>, pages: seq<nat>, counts: seq<nat>, sum: nat)
    requires Compacted(b, f, |b|, pages, counts, sum)
    ensures pages == InUse(b) && counts == Counts(b, f) && sum == Sum(counts) % WORD
  {
    assert b[..|b|] == b;
  }

  /** Distinct pages in use. */
  ghost predicate PagesInUse(bitmap: seq<nat>, picks: seq<nat>) {
    DistinctBelow(picks, |bitmap|) && forall t :: 0 <= t < |picks| ==> bitmap[picks[t]] != 0
  }

  /** Distinct pages in use, none with more accesses than a page in use that was not picked. */
  ghost predicate LeastAccessed(bitmap: seq<nat>, info: seq<nat>, picks: seq<nat>)
    requires |bitmap| <= |info|
  {
    PagesInUse(bitmap, picks)
    && forall p, t :: 0 <= p < |bitmap| && bitmap[p] != 0 && p !in picks && 0 <= t < |picks| ==>
      info[picks[t]] <= info[p]
  }

  /** Distinct pages in use, none with fewer accesses than a page in use that was not picked. */
  ghost predicate MostAccessed(bitmap: seq<nat>, info: seq<nat>, picks: seq<nat>)
    requires |bitmap| <= |info|
  {
    PagesInUse(bitmap, picks)
    && forall p, t :: 0 <= p < |bitmap| && bitmap[p] != 0 && p !in picks && 0 <= t < |picks| ==>
      info[p] <= info[picks[t]]
  }

  ghost predicate LooksUp(pages: seq<nat>, addr: seq<nat>, picks: seq<nat>) {
    |picks| == |addr| && forall t :: 0 <= t < |addr| ==> addr[t] < |pages| && picks[t] == pages[addr[t]]
  }

  /** Picking indices of the compacted list picks pages in use, and leaves out only pages whose index was left out. */
  lemma PicksArePages(bitmap: seq<nat>, addr: seq<nat>, picks: seq<nat>)
    requires DistinctBelow(addr, |InUse(bitmap)|) && LooksUp(InUse(bitmap), addr, picks)
    ensures PagesInUse(bitmap, picks)
    ensures forall j :: 0 <= j < |InUse(bitmap)| && InUse(bitmap)[j] !in picks ==> j !in addr
  {
    InUseAscends(bitmap);
    forall t, u | 0 <= t < u < |picks| ensures picks[t] != picks[u] {
      assert addr[t] < addr[u] || addr[u] < addr[t];
    }
    forall j | 0 <= j < |InUse(bitmap)| && j in addr ensures InUse(bitmap)[j] in picks {
      var t :| 0 <= t < |addr| && addr[t] == j;
      assert picks[t] == InUse(bitmap)[j];
    }
  }

  lemma SelectionIsLeast(bitmap: seq<nat>, info: seq<nat>, addr: seq<nat>, picks: seq<nat>)
    requires |bitmap| <= |info| && Smallest(Counts(bitmap, info), |Counts(bitmap, info)|, addr)
    requires LooksUp(InUse(bitmap), addr, picks)
    ensures LeastAccessed(bitmap, info, picks)
  {
    CountsArePages(bitmap, info);
    PicksArePages(bitmap, addr, picks);
    forall p, t | 0 <= p < |bitmap| && bitmap[p] != 0 && p !in picks && 0 <= t < |picks|
      ensures info[picks[t]] <= info[p]
    {
      InUseHasAll(bitmap, p);
      var j :| 0 <= j < |InUse(bitmap)| && InUse(bitmap)[j] == p;
      assert Counts(bitmap, info)[addr[t]] <= Counts(bitmap, info)[j];
    }
  }

  lemma SelectionIsMost(bitmap: seq<nat>, info: seq<nat>, addr: seq<nat>, picks: seq<nat>)
    requires |bitmap| <= |info| && Largest(Counts(bitmap, info), |Counts(bitmap, info)|, addr)
    requires LooksUp(InUse(bitmap), addr, picks)
    ensures MostAccessed(bitmap, info, picks)
  {
    CountsArePages(bitmap, info);
    PicksArePages(bitmap, addr, picks);
    forall p, t | 0 <= p < |bitmap| && bitmap[p] != 0 && p !in picks && 0 <= t < |picks|
      ensures info[p] <= info[picks[t]]
    {
      InUseHasAll(bitmap, p);
      var j :| 0 <= j < |InUse(bitmap)| && InUse(bitmap)[j] == p;
      assert Counts(bitmap, info)[j] <= Counts(bitmap, info)[addr[t]];
    }
  }

  /** The last loop of an extraction: page numbers for indices. */
  method Look(pages: array<nat>, addr: seq<nat>) returns (picks: seq<nat>)
    requires forall t :: 0 <= t < |addr| ==> addr[t] < pages.Length
    ensures LooksUp(pages[..], addr, picks)
  {
    picks := [];
    for i := 0 to |addr|
      invariant |picks| == i && forall t :: 0 <= t < i ==> picks[t] == pages[addr[t]]
    {
      picks := picks + [pages[addr[i]]];
    }
  }

  /** The average access count rounded down, of a sum kept in a 32-bit word. */
  predicate IsAverage(a: nat, counts: seq<nat>) {
    a * |counts| <= Sum(counts) % 0x1_0000_0000 < (a + 1) * |counts|
  }

  method Divide(sum: nat, pageCount: nat, ghost counts: seq<nat>) returns (average: nat)
    requires pageCount == |counts| > 0 && sum == Sum(counts) % WORD
    ensures IsAverage(average, counts)
  {
    average := sum / pageCount;
    QuotientIsBetween(sum, pageCount);
  }

  lemma QuotientIsBetween(a: nat, n: nat)
    requires n > 0
    ensures a / n * n <= a < (a / n + 1) * n
  {
    assert a == n * (a / n) + a % n;
    assert (a / n + 1) * n == a / n * n + n;
  }

  /** Which allocations succeed: the two compacted arrays, the two work arrays of each selection, the results. */
  datatype Memory = Memory(arrays: bool, big: bool, small: bool, results: bool)

  /** Refused where the source returns 0 and stores no array; it does not look at the result arrays before it
      fills them, and crashes if they are missing. */
  datatype Extraction<T> = Done(average: nat, picks: T) | Refused | Crashed

  /** Everything up to the result arrays can be had, the page count is right, and k is in range. */
  predicate Extracts(bitmap: seq<nat>, pageCount: nat, k: nat, arrays: bool, work: bool) {
    arrays && |InUse(bitmap)| == pageCount && 0 < k <= pageCount && work
  }

  /** extract_small. */
  method ExtractSmall(bitmap: array<nat>, info: array<nat>, pageCount: nat, n: nat, k: nat, memory: Memory)
    returns (r: Extraction<seq<nat>>)
    requires n <= bitmap.Length && n <= info.Length && |InUse(bitmap[..n])| <= pageCount
    ensures r.Refused? <==> !Extracts(bitmap[..n], pageCount, k, memory.arrays, memory.small)
    ensures r.Crashed? <==> Extracts(bitmap[..n], pageCount, k, memory.arrays, memory.small) && !memory.results
    ensures r.Done? ==> |r.picks| == k && LeastAccessed(bitmap[..n], info[..], r.picks)
    ensures r.Done? ==> IsAverage(r.average, Counts(bitmap[..n], info[..]))
  {
    if !memory.arrays {
      return Refused;
    }
    ghost var b, f := bitmap[..n], info[..];
    var pages, counts, found, sum := Compact(bitmap, info, n, pageCount, b, f);
    if found != pageCount {
      return Refused;
    }
    assert pages[..] == InUse(b) && counts[..] == Counts(b, f) && |Counts(b, f)| == pageCount;
    var chosen := SmallKIndex(counts, pageCount, k, memory.small);
    if chosen.None? {
      return Refused;
    }
    if !memory.results {
      return Crashed;
    }
    var picks := Look(pages, chosen.value);
    SelectionIsLeast(b, f, chosen.value, picks);
    var average := Divide(sum, pageCount, Counts(b, f));
    r := Done(average, picks);
  }

  /** extract_big_small. */
  method ExtractBigSmall(bitmap: array<nat>, info: array<nat>, pageCount: nat, n: nat, k: nat, memory: Memory)
    returns (r: Extraction<(seq<nat>, seq<nat>)>)
    requires n <= bitmap.Length && n <= info.Length && |InUse(bitmap[..n])| <= pageCount
    ensures r.Refused? <==> !Extracts(bitmap[..n], pageCount, k, memory.arrays, memory.big && memory.small)
    ensures r.Crashed? <==>
      Extracts(bitmap[..n], pageCount, k, memory.arrays, memory.big && memory.small) && !memory.results
    ensures r.Done? ==> |r.picks.0| == k && MostAccessed(bitmap[..n], info[..], r.picks.0)
    ensures r.Done? ==> |r.picks.1| == k && LeastAccessed(bitmap[..n], info[..], r.picks.1)
    ensures r.Done? ==> IsAverage(r.average, Counts(bitmap[..n], info[..]))
  {
    if !memory.arrays {
      return Refused;
    }
    ghost var b, f := bitmap[..n], info[..];
    var pages, counts, found, sum := Compact(bitmap, info, n, pageCount, b, f);
    if found != pageCount {
      return Refused;
    }
    assert pages[..] == InUse(b) && counts[..] == Counts(b, f) && |Counts(b, f)| == pageCount;
    var most := BigKIndex(counts, pageCount, k, memory.big);
    var least := SmallKIndex(counts, pageCount, k, memory.small);
    if most.None? || least.None? {
      return Refused;
    }
    if !memory.results {
      return Crashed;
    }
    var big := Look(pages, most.value);
    var small := Look(pages, least.value);
    SelectionIsMost(b, f, most.value, big);
    SelectionIsLeast(b, f, least.value, small);
    var average := Divide(sum, pageCount, Counts(b, f));
    r := Done(average, (big, small));
  }
}
