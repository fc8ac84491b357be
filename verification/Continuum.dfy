// The points of a build of the ring (update_continuum of src/libmemcached/hosts.cc).
module Continuum {
  import opened Ring

  const POINTS_PER_SERVER: nat := 100
  const POINTS_PER_SERVER_KETAMA: nat := 160
  const CONTINUUM_ADDITION: nat := 10

  // One instance: weight is at least 1 (instance_create_with), nextRetry a time in seconds.
  datatype Host = Host(name: string, port: nat, weight: nat, nextRetry: nat)

  // The digest of a host's key number k (its x-th word in weighted mode), and the float that
  // update_continuum passes to floor for a weight, a total weight and a number of live hosts.
  datatype Env = Env(value: (string, nat, nat, nat) -> nat, share: (nat, nat, nat) -> real)

  // What a build looks at.
  datatype Build = Build(hosts: seq<Host>, ejecting: bool, now: nat, weighted: bool)
  {
    predicate Live(i: nat)
      requires i < |hosts|
    {
      !ejecting || hosts[i].nextRetry <= now
    }

    // Live hosts, and their weight, among the first n.
    function LiveCount(n: nat): (c: nat)
      requires n <= |hosts|
      ensures c <= n
    {
      if n == 0 then 0 else LiveCount(n - 1) + if Live(n - 1) then 1 else 0
    }

    function Weight(n: nat): nat
      requires n <= |hosts|
    {
      if n == 0 then 0 else Weight(n - 1) + if Live(n - 1) then hosts[n - 1].weight else 0
    }

    function PerHash(): nat {
      if weighted then 4 else 1
    }

    function PointsPerServer(): nat {
      if weighted then POINTS_PER_SERVER_KETAMA else POINTS_PER_SERVER
    }
  }

  // Digests a live host contributes: pointer_per_server / pointer_per_hash.
  function Digests(env: Env, b: Build, i: nat): int
    requires i < |b.hosts|
  {
    if b.weighted
    then env.share(b.hosts[i].weight, b.Weight(|b.hosts|), b.LiveCount(|b.hosts|)).Floor
    else POINTS_PER_SERVER
  }

  // ---------------------------------------------------------------- the points of a build

  // The first n points of digest k of a host.
  function DigestPoints(env: Env, h: Host, index: nat, k: nat, n: nat): (s: seq<Point>)
    ensures |s| == n
  {
    seq(n, x requires 0 <= x => Point(env.value(h.name, h.port, k, x), index))
  }

  function HostPoints(env: Env, h: Host, index: nat, digests: nat, perHash: nat): (s: seq<Point>)
    ensures |s| == digests * perHash
  {
    if digests == 0 then []
    else HostPoints(env, h, index, digests - 1, perHash) + DigestPoints(env, h, index, digests - 1, perHash)
  }

  // The points of the first n hosts, in the order they are written.
  function Points(env: Env, b: Build, n: nat): seq<Point>
    requires n <= |b.hosts| && Feasible(env, b)
  {
    if n == 0 then []
    else if b.Live(n - 1) then
      Points(env, b, n - 1) + HostPoints(env, b.hosts[n - 1], n - 1, Digests(env, b, n - 1), b.PerHash())
    else Points(env, b, n - 1)
  }

  predicate Feasible(env: Env, b: Build) {
    forall i :: 0 <= i < |b.hosts| && b.Live(i) ==> Digests(env, b, i) >= 0
  }

  // ---------------------------------------------------------------- weighted allocation

  ghost predicate Weights(hosts: seq<Host>) {
    forall i :: 0 <= i < |hosts| ==> hosts[i].weight >= 1
  }

  // t * s is k * w up to a relative error eps, and c times the 1e-10 added before rounding down.
  ghost predicate Within(k: real, w: real, t: real, s: real, c: real, eps: real) {
    k * w * (1.0 - eps) <= t * s <= k * w * (1.0 + eps) + t * c * 0.0000000001
  }

  // The float is 40 * live * weight / total, computed with relative error eps.
  ghost predicate Accurate(env: Env, eps: real) {
    0.0 <= eps
    && forall w: nat, t: nat, l: nat :: 0 < w <= t && 0 < l ==>
         Within(40.0 * l as real, w as real, t as real, env.share(w, t, l), 1.0, eps)
  }

  // Few enough live hosts for the rounding errors not to add up to a whole digest.
  ghost predicate Precise(eps: real, live: nat) {
    40.0 * live as real * eps + live as real * 0.0000000001 < 1.0
  }

  function TotalDigests(env: Env, b: Build, n: nat): int
    requires n <= |b.hosts|
  {
    if n == 0 then 0 else TotalDigests(env, b, n - 1) + if b.Live(n - 1) then Digests(env, b, n - 1) else 0
  }

  function TotalShare(env: Env, b: Build, n: nat): real
    requires n <= |b.hosts|
  {
    if n == 0 then 0.0
    else TotalShare(env, b, n - 1)
         + if b.Live(n - 1) then env.share(b.hosts[n - 1].weight, b.Weight(|b.hosts|), b.LiveCount(|b.hosts|)) else 0.0
  }

  lemma {:induction false} DigestsAtMostShare(env: Env, b: Build, n: nat)
    requires n <= |b.hosts| && b.weighted
    ensures TotalDigests(env, b, n) as real <= TotalShare(env, b, n)
    ensures TotalShare(env, b, n) <= TotalDigests(env, b, n) as real + b.LiveCount(n) as real
  {
    if n > 0 {
      DigestsAtMostShare(env, b, n - 1);
    }
  }

  lemma {:induction false} WeightGrows(b: Build, n: nat, m: nat)
    requires n <= m <= |b.hosts|
    ensures b.Weight(n) <= b.Weight(m) && b.LiveCount(n) <= b.LiveCount(m)
    decreases m - n
  {
    if n < m {
      WeightGrows(b, n, m - 1);
    }
  }

  // The shares add up to what all the weight is worth.
  lemma {:induction false} ShareBounds(env: Env, b: Build, eps: real, n: nat)
    requires n <= |b.hosts| && Accurate(env, eps) && Weights(b.hosts)
    ensures Within(40.0 * b.LiveCount(|b.hosts|) as real, b.Weight(n) as real, b.Weight(|b.hosts|) as real,
                   TotalShare(env, b, n), b.LiveCount(n) as real, eps)
  {
    var k, t := 40.0 * b.LiveCount(|b.hosts|) as real, b.Weight(|b.hosts|);
    if n == 0 {
    } else {
      ShareBounds(env, b, eps, n - 1);
      if b.Live(n - 1) {
        ShareBoundsStep(env, b, eps, n);
      }
    }
  }

  lemma ShareBoundsStep(env: Env, b: Build, eps: real, n: nat)
    requires 0 < n <= |b.hosts| && Accurate(env, eps) && Weights(b.hosts) && b.Live(n - 1)
    requires Within(40.0 * b.LiveCount(|b.hosts|) as real, b.Weight(n - 1) as real, b.Weight(|b.hosts|) as real,
                    TotalShare(env, b, n - 1), b.LiveCount(n - 1) as real, eps)
    ensures Within(40.0 * b.LiveCount(|b.hosts|) as real, b.Weight(n) as real, b.Weight(|b.hosts|) as real,
                   TotalShare(env, b, n), b.LiveCount(n) as real, eps)
  {
    hide Within;
    WeightGrows(b, n, |b.hosts|);
    var w, t, l := b.hosts[n - 1].weight, b.Weight(|b.hosts|), b.LiveCount(|b.hosts|);
    assert 0 < w <= t && 0 < l;
    WithinSum(40.0 * l as real, b.Weight(n - 1) as real, w as real, t as real,
              TotalShare(env, b, n - 1), env.share(w, t, l), b.LiveCount(n - 1) as real, 1.0, eps);
  }

  lemma WithinSum(k: real, w: real, w': real, t: real, s: real, s': real, c: real, c': real, eps: real)
    requires Within(k, w, t, s, c, eps) && Within(k, w', t, s', c', eps)
    ensures Within(k, w + w', t, s + s', c + c', eps)
  {
  }

  // Never more digests than 40 per live host, and at least one in all.
  lemma AllocationBound(env: Env, b: Build, eps: real)
    requires b.weighted && Accurate(env, eps) && Weights(b.hosts) && Precise(eps, b.LiveCount(|b.hosts|))
    requires b.LiveCount(|b.hosts|) > 0
    ensures 0 < TotalDigests(env, b, |b.hosts|) <= 40 * b.LiveCount(|b.hosts|)
  {
    hide Within, Accurate, Precise, Near;
    var n := |b.hosts|;
    var l, t, s := b.LiveCount(n), b.Weight(n), TotalShare(env, b, n);
    WeightPositive(b, n);
    ShareBounds(env, b, eps, n);
    DigestsAtMostShare(env, b, n);
    CancelWeight(l, t, s, eps);
    EpsNonNegative(env, eps);
    RoundedDown(TotalDigests(env, b, n), l, s, eps);
  }

  lemma EpsNonNegative(env: Env, eps: real)
    requires Accurate(env, eps)
    ensures 0.0 <= eps
  {
  }

  lemma RoundedDown(d: int, l: nat, s: real, eps: real)
    requires l > 0 && d as real <= s <= d as real + l as real
    requires Near(l, s, eps) && Precise(eps, l)
    ensures 0 < d <= 40 * l
  {
    var error := 40.0 * l as real * eps;
    assert s < 40.0 * l as real + 1.0 && s > 40.0 * l as real - 1.0;
  }

  lemma {:induction false} WeightPositive(b: Build, n: nat)
    requires n <= |b.hosts| && Weights(b.hosts)
    ensures b.Weight(n) >= b.LiveCount(n)
  {
    if n > 0 {
      WeightPositive(b, n - 1);
    }
  }

  ghost predicate Near(l: nat, s: real, eps: real) {
    40.0 * l as real * (1.0 - eps) <= s <= 40.0 * l as real * (1.0 + eps) + l as real * 0.0000000001
  }

  lemma CancelWeight(l: nat, t: nat, s: real, eps: real)
    requires t > 0 && Within(40.0 * l as real, t as real, t as real, s, l as real, eps)
    ensures Near(l, s, eps)
  {
    var k, c, t := 40.0 * l as real, l as real, t as real;
    assert t * (k * (1.0 - eps)) <= t * s;
    assert t * s <= t * (k * (1.0 + eps) + c * 0.0000000001);
  }

  lemma FewerPrecise(eps: real, l: nat, n: nat)
    requires l <= n && 0.0 <= eps && Precise(eps, n)
    ensures Precise(eps, l)
  {
    assert l as real * eps <= n as real * eps;
  }

  lemma DigestsNonNegative(env: Env, b: Build, eps: real)
    requires b.weighted ==> Accurate(env, eps) && Weights(b.hosts) && Precise(eps, b.LiveCount(|b.hosts|))
    ensures Feasible(env, b)
  {
    if b.weighted {
      forall i | 0 <= i < |b.hosts| && b.Live(i)
        ensures Digests(env, b, i) >= 0
      {
        WeightGrows(b, i + 1, |b.hosts|);
        var w, t, l := b.hosts[i].weight, b.Weight(|b.hosts|), b.LiveCount(|b.hosts|);
        assert Within(40.0 * l as real, w as real, t as real, env.share(w, t, l), 1.0, eps);
        FewerPrecise(eps, 1, l);
        ShareNonNegative(l as real, w as real, t as real, env.share(w, t, l), eps);
      }
    }
  }

  lemma ProductNonNegative(x: real, y: real)
    requires x >= 0.0 && y >= 0.0
    ensures x * y >= 0.0
  {
  }

  lemma ShareNonNegative(l: real, w: real, t: real, s: real, eps: real)
    requires l >= 0.0 && w >= 0.0 && t > 0.0 && eps < 1.0 && Within(40.0 * l, w, t, s, 1.0, eps)
    ensures s >= 0.0
  {
    ProductNonNegative(l, w);
    ProductNonNegative(l * w, 1.0 - eps);
    assert 40.0 * l * w * (1.0 - eps) == 40.0 * ((l * w) * (1.0 - eps));
    assert t * s >= 0.0;
  }

  // The points written are counted by pointer_counter, and never exceed the room allocated for them.
  lemma {:induction false} PointsCounted(env: Env, b: Build, n: nat)
    requires n <= |b.hosts| && Feasible(env, b)
    ensures |Points(env, b, n)| == TotalDigests(env, b, n) * b.PerHash()
    ensures !b.weighted ==> TotalDigests(env, b, n) == POINTS_PER_SERVER * b.LiveCount(n)
  {
    if n > 0 {
      PointsCounted(env, b, n - 1);
    }
  }

  lemma {:induction false} PointsGrow(env: Env, b: Build, n: nat, m: nat)
    requires n <= m <= |b.hosts| && Feasible(env, b)
    ensures |Points(env, b, n)| <= |Points(env, b, m)|
    decreases m - n
  {
    if n < m {
      PointsGrow(env, b, n, m - 1);
    }
  }

  // The ring of a build fits the continuum and is not empty.
  lemma PointsFit(env: Env, b: Build, eps: real)
    requires b.weighted ==> Accurate(env, eps) && Weights(b.hosts) && Precise(eps, b.LiveCount(|b.hosts|))
    requires b.LiveCount(|b.hosts|) > 0
    ensures Feasible(env, b)
    ensures 0 < |Points(env, b, |b.hosts|)| <= b.LiveCount(|b.hosts|) * b.PointsPerServer()
  {
    hide Accurate, Precise;
    DigestsNonNegative(env, b, eps);
    PointsCounted(env, b, |b.hosts|);
    if b.weighted {
      AllocationBound(env, b, eps);
    }
  }

  // ---------------------------------------------------------------- which points there are

  lemma {:induction false} HostPointsIndex(env: Env, h: Host, index: nat, digests: nat, perHash: nat)
    ensures forall p :: p in HostPoints(env, h, index, digests, perHash) ==> p.index == index
  {
    if digests > 0 {
      HostPointsIndex(env, h, index, digests - 1, perHash);
    }
  }

  // Which points a build has.
  lemma {:induction false} PointsAre(env: Env, b: Build, n: nat, p: Point)
    requires n <= |b.hosts| && Feasible(env, b)
    ensures p in Points(env, b, n) <==>
            p.index < n && b.Live(p.index)
            && p in HostPoints(env, b.hosts[p.index], p.index, Digests(env, b, p.index), b.PerHash())
  {
    if n > 0 {
      PointsAre(env, b, n - 1, p);
      if b.Live(n - 1) {
        HostPointsIndex(env, b.hosts[n - 1], n - 1, Digests(env, b, n - 1), b.PerHash());
      }
    }
  }
}
