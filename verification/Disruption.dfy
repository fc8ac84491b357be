// What happens to look-ups when hosts come and go: the rings of two builds compared.
module Disruption {
  import opened Ring
  import opened Continuum

  // ---------------------------------------------------------------- owners

  ghost function All(env: Env, b: Build): seq<Point>
    requires Feasible(env, b)
  {
    Points(env, b, |b.hosts|)
  }

  // The host that owns a hash.
  ghost function Owner(env: Env, b: Build, hash: nat): nat
    requires Feasible(env, b) && All(env, b) != []
  {
    Scan(All(env, b), hash).index
  }

  // The digests of host i on the ring of a build: none if it is not live or not there.
  ghost function Count(env: Env, b: Build, i: nat): nat
    requires Feasible(env, b)
  {
    if i < |b.hosts| && b.Live(i) then Digests(env, b, i) else 0
  }

  // v is a point of the first digests digests of h.
  ghost predicate HasValue(env: Env, h: Host, digests: nat, perHash: nat, v: nat) {
    exists k: nat, x: nat :: k < digests && x < perHash && v == env.value(h.name, h.port, k, x)
  }

  lemma {:induction false} HostPointsAre(env: Env, h: Host, index: nat, digests: nat, perHash: nat, p: Point)
    ensures p in HostPoints(env, h, index, digests, perHash) <==>
            p.index == index && HasValue(env, h, digests, perHash, p.value)
  {
    if digests > 0 {
      var d := DigestPoints(env, h, index, digests - 1, perHash);
      HostPointsAre(env, h, index, digests - 1, perHash, p);
      if p in d {
        var x :| 0 <= x < |d| && d[x] == p;
        assert p.value == env.value(h.name, h.port, digests - 1, x);
      }
      if p.index == index && HasValue(env, h, digests, perHash, p.value) {
        var k: nat, x: nat :| k < digests && x < perHash && p.value == env.value(h.name, h.port, k, x);
        if k == digests - 1 {
          assert d[x] == p;
        }
      }
    }
  }

  lemma AllAre(env: Env, b: Build, p: Point)
    requires Feasible(env, b)
    ensures p in All(env, b) <==>
            p.index < |b.hosts| && HasValue(env, b.hosts[p.index], Count(env, b, p.index), b.PerHash(), p.value)
  {
    PointsAre(env, b, |b.hosts|, p);
    if p.index < |b.hosts| && b.Live(p.index) {
      HostPointsAre(env, b.hosts[p.index], p.index, Digests(env, b, p.index), b.PerHash(), p);
    }
  }

  // ---- over retry times and weights

  // The hosts that are not waiting to be retried, or all of them without auto-eject; and one entry for each unit
  // of weight they have.
  ghost function LiveHosts(b: Build, n: nat): set<nat>
    requires n <= |b.hosts|
  {
    set i: nat | i < n && (!b.ejecting || b.hosts[i].nextRetry <= b.now)
  }

  ghost function LiveWeights(b: Build, n: nat): set<(nat, nat)>
    requires n <= |b.hosts|
  {
    set i: nat, u: nat | i in LiveHosts(b, n) && u < b.hosts[i].weight :: (i, u)
  }

  lemma {:induction false} LiveMeaning(b: Build, n: nat)
    requires n <= |b.hosts|
    ensures b.LiveCount(n) == |LiveHosts(b, n)|
  {
    if n > 0 {
      LiveMeaning(b, n - 1);
      assert LiveHosts(b, n) == LiveHosts(b, n - 1) + if b.Live(n - 1) then {n - 1} else {};
    }
  }

  lemma {:induction false} WeightMeaning(b: Build, n: nat)
    requires n <= |b.hosts|
    ensures b.Weight(n) == |LiveWeights(b, n)|
  {
    if n > 0 {
      WeightMeaning(b, n - 1);
      var units := NextUnits(b, n);
      hide LiveWeights;
      assert |LiveWeights(b, n - 1) + units| == |LiveWeights(b, n - 1)| + |units|;
    }
  }

  lemma NextUnits(b: Build, n: nat) returns (units: set<(nat, nat)>)
    requires 0 < n <= |b.hosts|
    ensures LiveWeights(b, n) == LiveWeights(b, n - 1) + units && LiveWeights(b, n - 1) !! units
    ensures |units| == if b.Live(n - 1) then b.hosts[n - 1].weight else 0
  {
    hide LiveWeights, LiveHosts;
    var w := if b.Live(n - 1) then b.hosts[n - 1].weight else 0;
    units := Units(n - 1, w);
    forall p | p in LiveWeights(b, n)
      ensures p in LiveWeights(b, n - 1) || p in units
    {
      InWeights(b, n, p);
      InWeights(b, n - 1, p);
      InUnits(n - 1, w, p);
      hide Units;
    }
    forall p | p in LiveWeights(b, n - 1)
      ensures p in LiveWeights(b, n) && p !in units
    {
      InWeights(b, n, p);
      InWeights(b, n - 1, p);
      InUnits(n - 1, w, p);
      hide Units;
    }
    forall p | p in units
      ensures p in LiveWeights(b, n)
    {
      InWeights(b, n, p);
      InUnits(n - 1, w, p);
      hide Units;
    }
    hide Units;
    Union(LiveWeights(b, n), LiveWeights(b, n - 1), units);
  }

  lemma Union<T>(all: set<T>, a: set<T>, b: set<T>)
    requires forall p :: p in all ==> p in a || p in b
    requires forall p :: p in a ==> p in all && p !in b
    requires forall p :: p in b ==> p in all
    ensures all == a + b && a !! b
  {
  }

  lemma InUnits(i: nat, w: nat, p: (nat, nat))
    ensures p in Units(i, w) <==> p.0 == i && p.1 < w
  {
  }

  lemma InWeights(b: Build, n: nat, p: (nat, nat))
    requires n <= |b.hosts|
    ensures p in LiveWeights(b, n) <==> p.0 < n && b.Live(p.0) && p.1 < b.hosts[p.0].weight
  {
    InLive(b, n, p.0);
    hide LiveHosts;
  }

  lemma InLive(b: Build, n: nat, i: nat)
    requires n <= |b.hosts|
    ensures i in LiveHosts(b, n) <==> i < n && b.Live(i)
  {
  }

  ghost function Units(i: nat, w: nat): (s: set<(nat, nat)>)
    ensures |s| == w && forall p :: p in s <==> p.0 == i && p.1 < w
  {
    if w == 0 then {} else Units(i, w - 1) + {(i, w - 1)}
  }

  // The points of a build: 100 digests of one point for each live host, or by its share of the weight, digests of
  // four points.
  ghost predicate IsPoint(env: Env, b: Build, p: Point) {
    var n := |b.hosts|;
    && p.index in LiveHosts(b, n)
    && var h := b.hosts[p.index];
       if b.weighted
       then var d := env.share(h.weight, |LiveWeights(b, n)|, |LiveHosts(b, n)|).Floor;
            d >= 0 && HasValue(env, h, d, 4, p.value)
       else HasValue(env, h, 100, 1, p.value)
  }

  lemma RingMeaning(env: Env, b: Build, p: Point)
    requires Feasible(env, b)
    ensures p in All(env, b) <==> IsPoint(env, b, p)
  {
    AllAre(env, b, p);
    LiveMeaning(b, |b.hosts|);
    WeightMeaning(b, |b.hosts|);
  }

  lemma RingSize(env: Env, b: Build)
    requires Feasible(env, b) && !b.weighted
    ensures |All(env, b)| == 100 * |LiveHosts(b, |b.hosts|)|
  {
    PointsCounted(env, b, |b.hosts|);
    LiveMeaning(b, |b.hosts|);
  }

  // Host i has a point of value v on the ring.
  ghost predicate OnRing(env: Env, b: Build, i: nat, v: nat)
    requires Feasible(env, b)
  {
    Point(v, i) in All(env, b)
  }

  // The owner of a hash has the least value at or above it, or the least of all if there is none, and is the first
  // host with that value.
  lemma OwnerMeaning(env: Env, b: Build, hash: nat) returns (v: nat)
    requires Feasible(env, b) && All(env, b) != []
    ensures var o := Owner(env, b, hash);
            && OnRing(env, b, o, v)
            && if exists j: nat, w: nat :: OnRing(env, b, j, w) && w >= hash
               then v >= hash
                    && forall j: nat, w: nat :: OnRing(env, b, j, w) && w >= hash ==> v < w || (v == w && o <= j)
               else forall j: nat, w: nat :: OnRing(env, b, j, w) ==> v < w || (v == w && o <= j)
  {
    hide All;
    var p := Scan(All(env, b), hash);
    ScanMeaning(All(env, b), hash);
    v := p.value;
    if q :| q in All(env, b) && q.value >= hash {
      assert OnRing(env, b, q.index, q.value);
    }
  }

  // ---------------------------------------------------------------- which hashes keep their owner

  predicate SameAddress(h: Host, h': Host) {
    h.name == h'.name && h.port == h'.port
  }

  // The builds agree on their mode and on the hosts at the places both have.
  ghost predicate Alike(a: Build, b: Build) {
    a.weighted == b.weighted
    && forall i :: 0 <= i < |a.hosts| && i < |b.hosts| ==> SameAddress(a.hosts[i], b.hosts[i])
  }

  // Going from big to small, no other host than h gains digests while one of the rest has some, and none
  // loses digests while one of the rest keeps some.
  ghost predicate Undisturbed(env: Env, big: Build, small: Build, h: nat)
    requires Feasible(env, big) && Feasible(env, small)
  {
    forall i: nat, j: nat :: i != j && i != h && j != h ==>
      && (Count(env, big, i) > 0 ==> Count(env, small, j) <= Count(env, big, j))
      && (Count(env, small, j) > 0 ==> Count(env, big, i) <= Count(env, small, i))
  }

  // A host that has no fewer digests keeps all its points.
  lemma PointKept(env: Env, a: Build, b: Build, p: Point)
    requires Feasible(env, a) && Feasible(env, b) && Alike(a, b)
    requires p in All(env, a) && Count(env, a, p.index) <= Count(env, b, p.index)
    ensures p in All(env, b)
  {
    AllAre(env, a, p);
    AllAre(env, b, p);
    var h := a.hosts[p.index];
    var k: nat, x: nat :| k < Count(env, a, p.index) && x < a.PerHash() && p.value == env.value(h.name, h.port, k, x);
    assert HasValue(env, b.hosts[p.index], Count(env, b, p.index), b.PerHash(), p.value);
  }

  // Every hash that h does not own keeps its owner on the way from big to small, where h has no digests.
  lemma OwnerSurvives(env: Env, big: Build, small: Build, h: nat, hash: nat)
    requires Feasible(env, big) && Feasible(env, small) && Alike(big, small)
    requires All(env, big) != [] && All(env, small) != []
    requires Count(env, small, h) == 0 && Undisturbed(env, big, small, h)
    ensures Owner(env, big, hash) != h ==> Owner(env, small, hash) == Owner(env, big, hash)
  {
    hide All, Count;
    var p, q := Scan(All(env, big), hash), Scan(All(env, small), hash);
    Counted(env, big, p);
    Counted(env, small, q);
    if p.index != h && p.index != q.index {
      PointKept(env, small, big, q);
      PointKept(env, big, small, p);
    }
  }

  lemma Counted(env: Env, b: Build, p: Point)
    requires Feasible(env, b) && p in All(env, b)
    ensures Count(env, b, p.index) > 0
  {
    AllAre(env, b, p);
  }

  // ---------------------------------------------------------------- and when they do not

  ghost predicate Separate(hosts: seq<Host>) {
    forall i, j :: 0 <= i < j < |hosts| ==> !SameAddress(hosts[i], hosts[j])
  }

  // Digest values that put digest d of host a first, then the first digest of host c, then all others.
  function Rigged(a: Host, d: nat, c: Host): (string, nat, nat, nat) -> nat {
    (name, port, k, x) =>
      if name == a.name && port == a.port && k == d then 0
      else if name == c.name && port == c.port && k == 0 then 1
      else 2
  }

  lemma RiggedFirst(env: Env, b: Build, a: Host, d: nat, c: Host, i: nat)
    requires Feasible(env, b) && Separate(b.hosts) && env.value == Rigged(a, d, c)
    requires i < |b.hosts| && SameAddress(b.hosts[i], a) && Count(env, b, i) > d
    ensures All(env, b) != [] && Owner(env, b, 0) == i
  {
    var p := Point(0, i);
    assert env.value(b.hosts[i].name, b.hosts[i].port, d, 0) == 0;
    AllAre(env, b, p);
    forall q | q in All(env, b)
      ensures Earlier(0, p, q)
    {
      AllAre(env, b, q);
    }
    ScanIsFirst(All(env, b), 0, p);
  }

  lemma RiggedSecond(env: Env, b: Build, a: Host, d: nat, c: Host, i: nat)
    requires Feasible(env, b) && Separate(b.hosts) && env.value == Rigged(a, d, c) && !SameAddress(a, c)
    requires i < |b.hosts| && SameAddress(b.hosts[i], c) && Count(env, b, i) > 0
    requires forall m :: 0 <= m < |b.hosts| && SameAddress(b.hosts[m], a) ==> Count(env, b, m) <= d
    ensures All(env, b) != [] && Owner(env, b, 0) == i
  {
    var p := Point(1, i);
    assert env.value(b.hosts[i].name, b.hosts[i].port, 0, 0) == 1;
    AllAre(env, b, p);
    forall q | q in All(env, b)
      ensures Earlier(0, p, q)
    {
      AllAre(env, b, q);
    }
    ScanIsFirst(All(env, b), 0, p);
  }

  // How many digests a host has does not depend on their values.
  lemma SameCount(env: Env, e: Env, b: Build, i: nat)
    requires env.share == e.share && Feasible(env, b)
    ensures Feasible(e, b) && Count(e, b, i) == Count(env, b, i)
  {
    forall m | 0 <= m < |b.hosts|
      ensures Digests(e, b, m) == Digests(env, b, m)
    {
    }
  }

  // Hosts at different places have different addresses, also across the two builds.
  ghost predicate Apart(big: Build, small: Build) {
    Alike(big, small) && Separate(big.hosts) && Separate(small.hosts)
  }

  lemma AcrossBuilds(big: Build, small: Build, m: nat, j: nat)
    requires Apart(big, small) && m < |big.hosts| && j < |small.hosts| && SameAddress(big.hosts[m], small.hosts[j])
    ensures m == j
  {
    if m < |small.hosts| {
      assert SameAddress(small.hosts[m], small.hosts[j]);
    }
  }

  // A host that gains digests can take a hash from another.
  lemma GainDisturbs(env: Env, big: Build, small: Build, i: nat, j: nat) returns (e: Env)
    requires Feasible(env, big) && Feasible(env, small) && Apart(big, small) && i != j
    requires Count(env, big, i) > 0 && Count(env, small, j) > Count(env, big, j)
    ensures e.share == env.share && Feasible(e, big) && Feasible(e, small)
    ensures All(e, big) != [] && All(e, small) != [] && Owner(e, big, 0) == i && Owner(e, small, 0) == j
  {
    var a, d, c := small.hosts[j], Count(env, big, j), big.hosts[i];
    if SameAddress(a, c) {
      AcrossBuilds(big, small, i, j);
    }
    e := env.(value := Rigged(a, d, c));
    SameCount(env, e, big, i);
    SameCount(env, e, small, j);
    forall m | 0 <= m < |big.hosts| && SameAddress(big.hosts[m], a)
      ensures Count(e, big, m) <= d
    {
      AcrossBuilds(big, small, m, j);
      SameCount(env, e, big, m);
    }
    RiggedSecond(e, big, a, d, c, i);
    RiggedFirst(e, small, a, d, c, j);
  }

  // A host that loses digests can lose a hash to another.
  lemma LossDisturbs(env: Env, big: Build, small: Build, i: nat, j: nat) returns (e: Env)
    requires Feasible(env, big) && Feasible(env, small) && Apart(big, small) && i != j
    requires Count(env, small, j) > 0 && Count(env, big, i) > Count(env, small, i)
    ensures e.share == env.share && Feasible(e, big) && Feasible(e, small)
    ensures All(e, big) != [] && All(e, small) != [] && Owner(e, big, 0) == i && Owner(e, small, 0) == j
  {
    var a, d, c := big.hosts[i], Count(env, small, i), small.hosts[j];
    if SameAddress(a, c) {
      AcrossBuilds(big, small, i, j);
    }
    e := env.(value := Rigged(a, d, c));
    SameCount(env, e, big, i);
    SameCount(env, e, small, j);
    forall m | 0 <= m < |small.hosts| && SameAddress(small.hosts[m], a)
      ensures Count(e, small, m) <= d
    {
      AcrossBuilds(big, small, i, m);
      SameCount(env, e, small, m);
    }
    RiggedFirst(e, big, a, d, c, i);
    RiggedSecond(e, small, a, d, c, j);
  }

  // From big to small, only hashes of h change their owner.
  ghost predicate MovesOnly(env: Env, big: Build, small: Build, h: nat) {
    && Feasible(env, big) && Feasible(env, small) && All(env, big) != [] && All(env, small) != []
    && forall hash: nat :: Owner(env, big, hash) != h ==> Owner(env, small, hash) == Owner(env, big, hash)
  }

  lemma SameLength(env: Env, e: Env, b: Build)
    requires env.share == e.share && Feasible(env, b)
    ensures Feasible(e, b) && |All(e, b)| == |All(env, b)|
  {
    SameCount(env, e, b, 0);
    SamePrefix(env, e, b, |b.hosts|);
  }

  lemma {:induction false} SamePrefix(env: Env, e: Env, b: Build, n: nat)
    requires env.share == e.share && Feasible(env, b) && Feasible(e, b) && n <= |b.hosts|
    ensures |Points(e, b, n)| == |Points(env, b, n)|
  {
    if n > 0 {
      SamePrefix(env, e, b, n - 1);
      assert Digests(e, b, n - 1) == Digests(env, b, n - 1);
    }
  }

  // Whatever the digest function, only hashes of h change their owner, exactly when the other hosts'
  // digests are undisturbed.
  lemma DisruptionExact(env: Env, big: Build, small: Build, h: nat)
    requires Feasible(env, big) && Feasible(env, small) && Apart(big, small)
    requires All(env, big) != [] && All(env, small) != [] && Count(env, small, h) == 0
    ensures Undisturbed(env, big, small, h) <==>
            forall e: Env :: e.share == env.share ==> MovesOnly(e, big, small, h)
  {
    hide Points;
    if Undisturbed(env, big, small, h) {
      forall e: Env | e.share == env.share
        ensures MovesOnly(e, big, small, h)
      {
        SameLength(env, e, big);
        SameLength(env, e, small);
        StillUndisturbed(env, e, big, small, h);
        forall hash: nat
          ensures Owner(e, big, hash) != h ==> Owner(e, small, hash) == Owner(e, big, hash)
        {
          OwnerSurvives(e, big, small, h, hash);
        }
      }
    } else {
      var i: nat, j: nat :| i != j && i != h && j != h
        && !((Count(env, big, i) > 0 ==> Count(env, small, j) <= Count(env, big, j))
             && (Count(env, small, j) > 0 ==> Count(env, big, i) <= Count(env, small, i)));
      var e;
      if Count(env, big, i) > 0 && Count(env, small, j) > Count(env, big, j) {
        e := GainDisturbs(env, big, small, i, j);
      } else {
        e := LossDisturbs(env, big, small, i, j);
      }
      assert !MovesOnly(e, big, small, h);
    }
  }

  lemma StillUndisturbed(env: Env, e: Env, big: Build, small: Build, h: nat)
    requires env.share == e.share && Feasible(env, big) && Feasible(env, small) && Undisturbed(env, big, small, h)
    requires Count(env, small, h) == 0
    ensures Feasible(e, big) && Feasible(e, small) && Undisturbed(e, big, small, h) && Count(e, small, h) == 0
  {
    SameCount(env, e, big, h);
    SameCount(env, e, small, h);
    forall i: nat, j: nat | i != j && i != h && j != h
      ensures && (Count(e, big, i) > 0 ==> Count(e, small, j) <= Count(e, big, j))
              && (Count(e, small, j) > 0 ==> Count(e, big, i) <= Count(e, small, i))
    {
      SameCount(env, e, big, i);
      SameCount(env, e, big, j);
      SameCount(env, e, small, i);
      SameCount(env, e, small, j);
    }
  }

  // ---------------------------------------------------------------- without weights

  // Ejecting host h, with another host still live, changes the owner only of hashes that h owned.
  lemma EjectionMovesOnlyItsHashes(env: Env, before: Build, after: Build, h: nat)
    requires !before.weighted && |before.hosts| == |after.hosts| && Alike(before, after)
    requires forall i :: 0 <= i < |before.hosts| ==> (after.Live(i) <==> before.Live(i) && i != h)
    requires after.LiveCount(|after.hosts|) > 0
    ensures MovesOnly(env, before, after, h)
  {
    PointsFit(env, after, 0.0);
    LiveCountMonotone(after, before, |after.hosts|);
    PointsFit(env, before, 0.0);
    forall hash: nat
      ensures Owner(env, before, hash) != h ==> Owner(env, after, hash) == Owner(env, before, hash)
    {
      OwnerSurvives(env, before, after, h, hash);
    }
  }

  lemma {:induction false} LiveCountMonotone(a: Build, b: Build, n: nat)
    requires n <= |a.hosts| && n <= |b.hosts|
    requires forall i :: 0 <= i < n && a.Live(i) ==> b.Live(i)
    ensures a.LiveCount(n) <= b.LiveCount(n)
  {
    if n > 0 {
      LiveCountMonotone(a, b, n - 1);
    }
  }

  // A host added at the end takes hashes only for itself: going back, only its own hashes move.
  lemma AdditionMovesOnlyToNewHost(env: Env, before: Build, after: Build)
    requires !before.weighted && |after.hosts| == |before.hosts| + 1 && Alike(before, after)
    requires forall i :: 0 <= i < |before.hosts| ==> (after.Live(i) <==> before.Live(i))
    requires before.LiveCount(|before.hosts|) > 0
    ensures MovesOnly(env, after, before, |before.hosts|)
  {
    PointsFit(env, before, 0.0);
    LiveCountMonotone(before, after, |before.hosts|);
    WeightGrows(after, |before.hosts|, |after.hosts|);
    PointsFit(env, after, 0.0);
    forall hash: nat
      ensures Owner(env, after, hash) != |before.hosts| ==> Owner(env, before, hash) == Owner(env, after, hash)
    {
      OwnerSurvives(env, after, before, |before.hosts|, hash);
    }
  }

  // ---------------------------------------------------------------- with weights

  // The shares as update_continuum means them, without rounding.
  function ExactShare(weight: nat, total: nat, live: nat): real {
    if total == 0 then 0.0 else 40.0 * (live as real) * (weight as real) / (total as real)
  }

  // Hosts of weight 1, 1 and 2 at time 0, the last of them waiting until nextRetry.
  function Weighted(nextRetry: nat): Build {
    Build([Host("a", 1, 1, 0), Host("b", 1, 1, 0), Host("c", 1, 2, nextRetry)], true, 0, true)
  }

  // When the third is ejected the others go from 30 to 40 digests each, and a hash can move from the first
  // to the second.
  lemma WeightedEjectionMoves() returns (e: Env)
    ensures e.share == ExactShare && Feasible(e, Weighted(0)) && Feasible(e, Weighted(1))
    ensures All(e, Weighted(0)) != [] && All(e, Weighted(1)) != []
    ensures Owner(e, Weighted(0), 0) == 0 && Owner(e, Weighted(1), 0) == 1
  {
    var env := Env((name, port, k, x) => 0, ExactShare);
    var before, after := Weighted(0), Weighted(1);
    assert before.LiveCount(3) == 3 && before.Weight(3) == 4;
    assert after.LiveCount(3) == 2 && after.Weight(3) == 2;
    assert Digests(env, before, 0) == Digests(env, before, 1) == 30 && Digests(env, before, 2) == 60;
    assert Digests(env, after, 0) == Digests(env, after, 1) == 40;
    e := GainDisturbs(env, before, after, 0, 1);
  }
}
