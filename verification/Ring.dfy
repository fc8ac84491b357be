// The points of the consistent-hash ring: their order (continuum_item_cmp), look-up (dispatch_host) and
// what happens to look-ups when hosts come and go.
module Ring {
  datatype Point = Point(value: nat, index: nat)

  // continuum_item_cmp.
  function Compare(p: Point, q: Point): int {
    if p.value == q.value then
      if p.index == q.index then 0 else if p.index > q.index then 1 else -1
    else if p.value > q.value then 1
    else -1
  }

  predicate AtMost(p: Point, q: Point) { Compare(p, q) <= 0 }

  ghost predicate Sorted(s: seq<Point>) {
    forall i, j :: 0 <= i < j < |s| ==> AtMost(s[i], s[j])
  }

  // Sorted by value, and then by host.
  lemma SortedMeaning(s: seq<Point>)
    ensures Sorted(s) <==>
            forall i, j :: 0 <= i < j < |s| ==>
              s[i].value < s[j].value || (s[i].value == s[j].value && s[i].index <= s[j].index)
  {
  }

  // ---------------------------------------------------------------- sorting

  function Insert(p: Point, s: seq<Point>): seq<Point> {
    if s == [] || AtMost(p, s[0]) then [p] + s else [s[0]] + Insert(p, s[1..])
  }

  // qsort: any sorting would do, as the next lemmas show that the result is determined.
  function Sort(s: seq<Point>): seq<Point> {
    if s == [] then [] else Insert(s[0], Sort(s[1..]))
  }

  lemma SortedCons(p: Point, s: seq<Point>)
    requires Sorted(s) && forall q :: q in s ==> AtMost(p, q)
    ensures Sorted([p] + s)
  {
    hide AtMost;
  }

  lemma HeadAtMost(p: Point, s: seq<Point>)
    requires Sorted(s) && s != [] && AtMost(p, s[0])
    ensures forall q :: q in s ==> AtMost(p, q)
  {
  }

  lemma {:induction false} InsertSorted(p: Point, s: seq<Point>)
    requires Sorted(s)
    ensures Sorted(Insert(p, s)) && multiset(Insert(p, s)) == multiset(s) + multiset{p}
  {
    hide AtMost;
    if s == [] {
    } else if AtMost(p, s[0]) {
      HeadAtMost(p, s);
      SortedCons(p, s);
    } else {
      var r := Insert(p, s[1..]);
      InsertSorted(p, s[1..]);
      assert s == [s[0]] + s[1..];
      forall q | q in r
        ensures AtMost(s[0], q)
      {
        assert q in multiset(r);
        assert q == p || q in s[1..];
        Total(p, s[0]);
      }
      SortedCons(s[0], r);
    }
  }

  lemma Total(p: Point, q: Point)
    ensures AtMost(p, q) || AtMost(q, p)
    ensures AtMost(p, q) && AtMost(q, p) ==> p == q
  {
  }

  lemma {:induction false} SortSorts(s: seq<Point>)
    ensures Sorted(Sort(s)) && multiset(Sort(s)) == multiset(s) && |Sort(s)| == |s|
  {
    if s != [] {
      SortSorts(s[1..]);
      InsertSorted(s[0], Sort(s[1..]));
      assert s == [s[0]] + s[1..];
    }
    assert |Sort(s)| == |multiset(Sort(s))| && |s| == |multiset(s)|;
  }

  // Two sorted arrangements of the same points are equal: points that compare equal are equal.
  lemma {:induction false} SortUnique(s: seq<Point>, t: seq<Point>)
    requires Sorted(s) && Sorted(t) && multiset(s) == multiset(t)
    ensures s == t
    decreases |s|
  {
    hide AtMost;
    if s == [] {
      assert |t| == |multiset(t)| == 0;
    } else {
      assert |t| == |multiset(t)| == |multiset(s)| == |s|;
      SameHead(s, t);
      TailPoints(s);
      TailPoints(t);
      SortUnique(s[1..], t[1..]);
    }
  }

  lemma TailPoints(s: seq<Point>)
    requires Sorted(s) && s != []
    ensures Sorted(s[1..]) && multiset(s[1..]) == multiset(s) - multiset{s[0]} && s == [s[0]] + s[1..]
  {
    hide AtMost;
    assert s == [s[0]] + s[1..];
  }

  lemma SameHead(s: seq<Point>, t: seq<Point>)
    requires Sorted(s) && Sorted(t) && multiset(s) == multiset(t) && s != [] && t != []
    ensures s[0] == t[0]
  {
    hide AtMost;
    assert s[0] in multiset(s) && t[0] in multiset(t);
    var i :| 0 <= i < |t| && t[i] == s[0];
    var j :| 0 <= j < |s| && s[j] == t[0];
    Total(s[0], t[0]);
    assert i > 0 ==> AtMost(t[0], t[i]);
    assert j > 0 ==> AtMost(s[0], s[j]);
  }

  // ---------------------------------------------------------------- look-up as a linear scan

  // p is met no later than q going up from hash and around the ring.
  predicate Earlier(hash: nat, p: Point, q: Point) {
    if (p.value >= hash) == (q.value >= hash) then AtMost(p, q) else p.value >= hash
  }

  // The least point with value >= hash, or else the least point.
  function Scan(s: seq<Point>, hash: nat): (p: Point)
    requires s != []
    ensures p in s && forall q :: q in s ==> Earlier(hash, p, q)
  {
    if |s| == 1 then s[0]
    else
      var p := Scan(s[1..], hash);
      assert s == [s[0]] + s[1..];
      if Earlier(hash, s[0], p) then s[0] else p
  }

  lemma ScanIsFirst(s: seq<Point>, hash: nat, p: Point)
    requires p in s && forall q :: q in s ==> Earlier(hash, p, q)
    ensures Scan(s, hash) == p
  {
    assert Earlier(hash, p, Scan(s, hash)) && Earlier(hash, Scan(s, hash), p);
  }

  // The plain reading of the scan: the least value at or above the hash, else the least of all, and of points with
  // the same value the one of the first host.
  lemma ScanMeaning(s: seq<Point>, hash: nat)
    requires s != []
    ensures var p := Scan(s, hash);
            if exists q :: q in s && q.value >= hash
            then p.value >= hash
                 && forall q :: q in s && q.value >= hash ==>
                      p.value < q.value || (p.value == q.value && p.index <= q.index)
            else forall q :: q in s ==> p.value < q.value || (p.value == q.value && p.index <= q.index)
  {
  }

  // The search of dispatch_host over the first num points of the ring.
  method Dispatch(ring: array<Point>, num: nat, hash: nat) returns (host: nat)
    requires 0 < num <= ring.Length && Sorted(ring[..num])
    ensures host == Scan(ring[..num], hash).index
  {
    var left, right := 0, num;
    ghost var s := ring[..num];
    while left < right
      invariant 0 <= left <= right <= num
      invariant forall i :: 0 <= i < left ==> ring[i].value < hash
      invariant forall i :: right <= i < num ==> ring[i].value >= hash
    {
      var middle := left + (right - left) / 2;
      if ring[middle].value < hash {
        assert forall i :: 0 <= i < middle ==> AtMost(s[i], s[middle]);
        left := middle + 1;
      } else {
        assert forall i :: middle < i < num ==> AtMost(s[middle], s[i]);
        right := middle;
      }
    }
    if right == num {
      right := 0;
    }
    FirstInRing(s, right, hash);
    host := ring[right].index;
  }

  lemma FirstInRing(s: seq<Point>, r: nat, hash: nat)
    requires Sorted(s) && r < |s|
    requires forall i :: 0 <= i < r ==> s[i].value < hash
    requires || (forall i :: r <= i < |s| ==> s[i].value >= hash)
             || (r == 0 && forall i :: 0 <= i < |s| ==> s[i].value < hash)
    ensures Scan(s, hash) == s[r]
  {
    forall q | q in s
      ensures Earlier(hash, s[r], q)
    {
      var i :| 0 <= i < |s| && s[i] == q;
      assert i > r ==> AtMost(s[r], s[i]);
    }
    ScanIsFirst(s, hash, s[r]);
  }

  // ---------------------------------------------------------------- adding and removing points

  // If the winner survives the removal of points it stays the winner; if added points do not win,
  // the old winner does.
  lemma ScanSubset(small: seq<Point>, big: seq<Point>, hash: nat)
    requires small != [] && big != []
    requires forall p :: p in small ==> p in big
    requires Scan(big, hash) in small
    ensures Scan(small, hash) == Scan(big, hash)
  {
    ScanIsFirst(small, hash, Scan(big, hash));
  }

  // The scan does not depend on the order of the points.
  lemma ScanReordered(s: seq<Point>, t: seq<Point>, hash: nat)
    requires s != [] && t != [] && multiset(s) == multiset(t)
    ensures Scan(s, hash) == Scan(t, hash)
  {
    forall p | p in s
      ensures p in t
    {
      assert p in multiset(s);
    }
    assert Scan(t, hash) in multiset(t);
    ScanSubset(s, t, hash);
  }
}
