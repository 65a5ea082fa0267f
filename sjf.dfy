/** The "SJF" policy: the cloudlet list is sorted in place by length with a stable sort
    (List.sort with Comparator.comparingLong(Cloudlet::getCloudletLength)). */
module ShortestJobFirst {
  import opened Cloudlets

  /** The cloudlets of `s` whose length is `len`, in their order in `s`. */
  function WithLength(s: seq<Cloudlet>, len: int): (r: seq<Cloudlet>)
    ensures |r| <= |s|
    ensures forall k :: 0 <= k < |r| ==> r[k].length == len
  {
    if s == [] then []
    else
      var last := s[|s| - 1];
      WithLength(s[..|s| - 1], len) + (if last.length == len then [last] else [])
  }

  /** Non-decreasing by length. */
  predicate SortedByLength(s: seq<Cloudlet>)
  {
    forall p, q :: 0 <= p < q < |s| ==> s[p].length <= s[q].length
  }

  /** `s` and `t` hold, for every length, the same cloudlets in the same order: this is what
      a stable reordering by length keeps. */
  ghost predicate SameLengthOrder(s: seq<Cloudlet>, t: seq<Cloudlet>)
  {
    forall len :: WithLength(s, len) == WithLength(t, len)
  }

  lemma {:induction false} WithLengthAppend(s: seq<Cloudlet>, u: seq<Cloudlet>, len: int)
    ensures WithLength(s + u, len) == WithLength(s, len) + WithLength(u, len)
  {
    if u == [] {
      assert s + u == s;
    } else {
      var init := u[..|u| - 1];
      assert (s + u)[..|s + u| - 1] == s + init;
      WithLengthAppend(s, init, len);
    }
  }

  /** Two cloudlets of different lengths can be listed in either order as far as any one
      length is concerned. */
  lemma PairKeepsLengthOrder(x: Cloudlet, y: Cloudlet, len: int)
    requires x.length != y.length
    ensures WithLength([x, y], len) == WithLength([y, x], len)
  {
    assert [x, y][..1] == [x] && [y, x][..1] == [y];
    assert [x][..0] == [] && [y][..0] == [];
  }

  /** Exchanging two neighbours of different lengths keeps every length's order. */
  lemma SwapKeepsLengthOrder(s: seq<Cloudlet>, j: int)
    requires 0 < j < |s|
    requires s[j - 1].length != s[j].length
    ensures SameLengthOrder(s[j - 1 := s[j]][j := s[j - 1]], s)
  {
    var x, y := s[j - 1], s[j];
    var swapped := s[j - 1 := y][j := x];
    var pre, post := s[..j - 1], s[j + 1..];
    assert s == (pre + [x, y]) + post;
    assert swapped == (pre + [y, x]) + post;
    forall len ensures WithLength(swapped, len) == WithLength(s, len) {
      WithLengthAppend(pre + [x, y], post, len);
      WithLengthAppend(pre + [y, x], post, len);
      WithLengthAppend(pre, [x, y], len);
      WithLengthAppend(pre, [y, x], len);
      PairKeepsLengthOrder(x, y, len);
    }
  }

  lemma {:induction false} CountThroughLength(s: seq<Cloudlet>, c: Cloudlet)
    ensures multiset(s)[c] == multiset(WithLength(s, c.length))[c]
  {
    if s != [] {
      var init := s[..|s| - 1];
      assert s == init + [s[|s| - 1]];
      CountThroughLength(init, c);
    }
  }

  /** Keeping every length's order is a permutation: no cloudlet is lost or duplicated. */
  lemma SameLengthOrderIsPermutation(s: seq<Cloudlet>, t: seq<Cloudlet>)
    requires SameLengthOrder(s, t)
    ensures multiset(s) == multiset(t)
    ensures |s| == |t|
  {
    forall c ensures multiset(s)[c] == multiset(t)[c] {
      CountThroughLength(s, c);
      CountThroughLength(t, c);
      assert WithLength(s, c.length) == WithLength(t, c.length);
    }
    assert multiset(s) == multiset(t);
    assert |multiset(s)| == |multiset(t)|;
  }

  /** The last cloudlets of two sorted permutations of each other have the same length. */
  lemma LastLengthsAgree(s: seq<Cloudlet>, t: seq<Cloudlet>)
    requires SortedByLength(s) && SortedByLength(t)
    requires multiset(s) == multiset(t) && |s| == |t| > 0
    ensures s[|s| - 1].length == t[|t| - 1].length
  {
    var n := |s|;
    var x, y := s[n - 1], t[n - 1];
    assert x in multiset(t) && y in multiset(s);
    var i :| 0 <= i < n && t[i] == x;
    var j :| 0 <= j < n && s[j] == y;
  }

  /** Two sequences that keep every length's order and end in cloudlets of the same length
      end in the same cloudlet, and keep every length's order without it. */
  lemma DropLastKeepsOrder(s: seq<Cloudlet>, t: seq<Cloudlet>)
    requires SameLengthOrder(s, t)
    requires |s| == |t| > 0 && s[|s| - 1].length == t[|t| - 1].length
    ensures s[|s| - 1] == t[|t| - 1]
    ensures SameLengthOrder(s[..|s| - 1], t[..|t| - 1])
  {
    var n := |s|;
    var x, y := s[n - 1], t[n - 1];
    var ss, ts := s[..n - 1], t[..n - 1];
    var w := WithLength(s, x.length);
    assert w == WithLength(ss, x.length) + [x];
    assert w == WithLength(t, x.length) == WithLength(ts, x.length) + [y];
    assert w[|w| - 1] == x && w[|w| - 1] == y;
    forall len ensures WithLength(ss, len) == WithLength(ts, len) {
      var tail := if x.length == len then [x] else [];
      var a, b := WithLength(ss, len), WithLength(ts, len);
      assert WithLength(s, len) == a + tail;
      assert WithLength(t, len) == b + tail;
      assert WithLength(s, len) == WithLength(t, len);
      assert (a + tail)[..|a|] == a && (b + tail)[..|b|] == b;
    }
  }

  /** A stable sort by length has exactly one possible result: any two sorted sequences that
      keep every length's order of the same input are equal. */
  lemma {:induction false} StableSortUnique(s: seq<Cloudlet>, t: seq<Cloudlet>)
    requires SortedByLength(s) && SortedByLength(t)
    requires SameLengthOrder(s, t)
    ensures s == t
  {
    SameLengthOrderIsPermutation(s, t);
    if s != [] {
      var n := |s|;
      LastLengthsAgree(s, t);
      DropLastKeepsOrder(s, t);
      StableSortUnique(s[..n - 1], t[..n - 1]);
      assert s == s[..n - 1] + [s[n - 1]] && t == t[..n - 1] + [t[n - 1]];
    }
  }

  lemma SameLengthOrderTransitive(s: seq<Cloudlet>, t: seq<Cloudlet>, u: seq<Cloudlet>)
    requires SameLengthOrder(s, t) && SameLengthOrder(t, u)
    ensures SameLengthOrder(s, u)
  {
  }

  /** Part way through inserting s[i]: it has moved to position j, everything else in
      s[..i + 1] is sorted, and s[j] is shorter than everything after it up to i. */
  predicate Inserting(s: seq<Cloudlet>, j: int, i: int)
  {
    && 0 <= j <= i < |s|
    && (forall p, q :: 0 <= p < q <= i && p != j && q != j ==> s[p].length <= s[q].length)
    && (forall q :: j < q <= i ==> s[j].length < s[q].length)
  }

  lemma InsertStep(s: seq<Cloudlet>, j: int, i: int)
    requires Inserting(s, j, i) && 0 < j && s[j].length < s[j - 1].length
    ensures Inserting(s[j - 1 := s[j]][j := s[j - 1]], j - 1, i)
  {
  }

  lemma InsertDone(s: seq<Cloudlet>, j: int, i: int)
    requires Inserting(s, j, i) && (j == 0 || s[j - 1].length <= s[j].length)
    ensures forall p, q :: 0 <= p < q <= i ==> s[p].length <= s[q].length
  {
    assert forall p :: 0 <= p < j ==> s[p].length <= s[j - 1].length;
  }

  /** Exchanges a[j - 1] and a[j] when a[j] is strictly shorter. */
  method SwapNeighbours(a: array<Cloudlet>, j: int)
    requires 0 < j < a.Length
    requires a[j].length < a[j - 1].length
    modifies a
    ensures a[..] == old(a[..])[j - 1 := old(a[j])][j := old(a[j - 1])]
    ensures SameLengthOrder(a[..], old(a[..]))
  {
    SwapKeepsLengthOrder(a[..], j);
    a[j - 1], a[j] := a[j], a[j - 1];
  }

  /** Moves a[i] left past every strictly longer cloudlet, so that a[..i + 1] becomes sorted
      when a[..i] was. */
  method InsertAt(a: array<Cloudlet>, i: int)
    requires 0 <= i < a.Length
    requires forall p, q :: 0 <= p < q < i ==> a[p].length <= a[q].length
    modifies a
    ensures forall p, q :: 0 <= p < q <= i ==> a[p].length <= a[q].length
    ensures a[i + 1..] == old(a[i + 1..])
    ensures SameLengthOrder(a[..], old(a[..]))
  {
    var j := i;
    while 0 < j && a[j].length < a[j - 1].length
      invariant Inserting(a[..], j, i)
      invariant a[i + 1..] == old(a[i + 1..])
      invariant SameLengthOrder(a[..], old(a[..]))
    {
      ghost var before := a[..];
      InsertStep(before, j, i);
      SwapNeighbours(a, j);
      SameLengthOrderTransitive(a[..], before, old(a[..]));
      assert a[i + 1..] == before[i + 1..];
      j := j - 1;
    }
    InsertDone(a[..], j, i);
  }

  /** Sorts `a` in place by length, keeping equal lengths in their original order
      (insertion sort by exchanges of neighbours with strictly decreasing lengths). */
  method SortByLength(a: array<Cloudlet>)
    modifies a
    ensures SortedByLength(a[..])
    ensures SameLengthOrder(a[..], old(a[..]))
  {
    var i := 0;
    while i < a.Length
      invariant 0 <= i <= a.Length
      invariant forall p, q :: 0 <= p < q < i ==> a[p].length <= a[q].length
      invariant SameLengthOrder(a[..], old(a[..]))
    {
      ghost var before := a[..];
      InsertAt(a, i);
      SameLengthOrderTransitive(a[..], before, old(a[..]));
      i := i + 1;
    }
  }

  /** The "SJF" branch on a list value: the list is copied into its backing array, sorted in
      place, and read back. */
  method SortedByLengthCopy(cs: seq<Cloudlet>) returns (sorted: seq<Cloudlet>)
    ensures SortedByLength(sorted)
    ensures SameLengthOrder(sorted, cs)
    ensures multiset(sorted) == multiset(cs)
  {
    var a := new Cloudlet[|cs|](k requires 0 <= k < |cs| => cs[k]);
    assert a[..] == cs;
    SortByLength(a);
    sorted := a[..];
    SameLengthOrderIsPermutation(sorted, cs);
  }
}
