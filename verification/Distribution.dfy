// The consistent distribution of a client over its life: adding hosts, resetting them, hosts going in
// and out of retry, rebuilds and look-ups (src/libmemcached/hosts.cc, hash.cc, memcached.cc).
module Distribution {
  import opened Ring
  import opened Continuum
  import opened Disruption

  datatype Return = Ok | OutOfMemory

  // What the weighted arithmetic needs of the float computation for so many live hosts.
  ghost predicate Computable(env: Env, eps: real, weighted: bool, live: nat) {
    weighted ==> Accurate(env, eps) && Precise(eps, live)
  }

  class Client {
    const env: Env
    const autoEject: bool
    var hosts: seq<Host>
    var weighted: bool
    // ketama.continuum with continuum_count == continuum.Length, and continuum_points_counter.
    var continuum: array<Point>
    var counter: nat
    var nextRebuild: nat

    // The build whose points are on the ring, when there are any, and the retry times of the hosts left
    // out by the last call of update_continuum.
    ghost const eps: real
    ghost var built: Build
    ghost var leftOut: map<nat, nat>

    ghost predicate Valid()
      reads this, continuum
    {
      && Weights(hosts)
      && counter <= continuum.Length
      && (counter > 0 ==> RingOf(continuum[..counter], built, hosts))
      && Least(leftOut, nextRebuild)
    }

    // The ring is the sorted points of a build of hosts that are still there, in the same order.
    ghost predicate RingOf(ring: seq<Point>, b: Build, now: seq<Host>) {
      && Feasible(env, b) && ring == Sort(Points(env, b, |b.hosts|))
      && |b.hosts| <= |now|
      && forall i :: 0 <= i < |b.hosts| ==> b.hosts[i].name == now[i].name && b.hosts[i].port == now[i].port
    }

    constructor (env: Env, autoEject: bool, ghost eps: real)
      ensures Valid() && hosts == [] && counter == 0 && !weighted
    {
      this.env, this.autoEject, this.eps := env, autoEject, eps;
      hosts, weighted, counter, nextRebuild := [], false, 0, 0;
      continuum := new Point[0];
      built, leftOut := Build([], autoEject, 0, false), map[];
    }

    ghost function BuildAt(now: nat): Build
      reads this
    {
      Build(hosts, autoEject, now, weighted)
    }

    // The first loop of update_continuum.
    method CountLive(now: nat) returns (live: nat)
      modifies this`nextRebuild, this`leftOut
      ensures live == BuildAt(now).LiveCount(|hosts|)
      ensures autoEject ==> Least(leftOut, nextRebuild) && leftOut == LeftOut(hosts, now, |hosts|)
      ensures autoEject ==> Scheduled(hosts, now, nextRebuild)
      ensures !autoEject ==> nextRebuild == old(nextRebuild) && leftOut == old(leftOut)
    {
      live := 0;
      ghost var b := BuildAt(now);
      if !autoEject {
        AllLive(b, |hosts|);
        return |hosts|;
      }
      hide Least;
      nextRebuild, leftOut := 0, map[];
      LeastOfNone();
      for i := 0 to |hosts|
        invariant live == b.LiveCount(i)
        invariant Least(leftOut, nextRebuild) && leftOut == LeftOut(hosts, now, i)
      {
        LeftOutNext(hosts, now, i);
        if hosts[i].nextRetry <= now {
          live := live + 1;
        } else {
          LeastUpdate(leftOut, nextRebuild, i, hosts[i].nextRetry);
          if nextRebuild == 0 || hosts[i].nextRetry < nextRebuild {
            nextRebuild := hosts[i].nextRetry;
          }
          leftOut := leftOut[i := hosts[i].nextRetry];
        }
      }
      LeastIsScheduled(hosts, now, nextRebuild);
    }

    // update_continuum at time now.  With no live host, or no memory, the old ring stays.
    method UpdateContinuum(now: nat, canAllocate: bool) returns (rc: Return)
      requires Valid() && Computable(env, eps, weighted, BuildAt(now).LiveCount(|hosts|))
      modifies this`nextRebuild, this`leftOut, this`continuum, this`counter, this`built, continuum
      ensures Valid() && (continuum == old(continuum) || fresh(continuum))
      ensures autoEject ==> leftOut == LeftOut(hosts, now, |hosts|) && Scheduled(hosts, now, nextRebuild)
      ensures !autoEject ==> leftOut == old(leftOut) && nextRebuild == old(nextRebuild)
      ensures rc == OutOfMemory <==> !canAllocate && Needed(BuildAt(now), 0) > old(continuum.Length)
      ensures continuum.Length == if rc == Ok && Needed(BuildAt(now), 0) > old(continuum.Length)
                                  then Needed(BuildAt(now), 10) else old(continuum.Length)
      ensures rc == Ok && BuildAt(now).LiveCount(|hosts|) > 0 ==> counter > 0 && built == BuildAt(now)
      ensures autoEject ==> forall i :: 0 <= i < |hosts| ==> (i in leftOut <==> hosts[i].nextRetry > now)
      ensures rc == Ok && (exists i :: 0 <= i < |hosts| && (autoEject ==> hosts[i].nextRetry <= now)) ==>
                counter > 0 && forall p :: p in continuum[..counter] <==> IsPoint(env, BuildAt(now), p)
      ensures rc == OutOfMemory || BuildAt(now).LiveCount(|hosts|) == 0 ==>
                counter == old(counter) && built == old(built) && continuum == old(continuum)
                && continuum[..] == old(continuum[..])
    {
      hide Least, LeftOut, Scheduled, Feasible, Points, Sort;
      var live := CountLive(now);
      ghost var b := BuildAt(now);
      LiveOrLeftOut(b);
      LiveMeaning(b, |hosts|);
      if live == 0 {
        return Ok;
      }
      PointsFit(env, b, eps);
      var pointsPerServer := if weighted then POINTS_PER_SERVER_KETAMA else POINTS_PER_SERVER;
      var limit := live * pointsPerServer;
      var extra := CONTINUUM_ADDITION * pointsPerServer;
      if limit > continuum.Length {
        if !canAllocate {
          return OutOfMemory;
        }
        continuum := new Point[limit + extra](_ => Point(0, 0));
      }
      Rebuild(now, live);
      rc := Ok;
      assert forall p :: p in continuum[..counter] <==> IsPoint(env, b, p) by {
        RebuiltPoints(env, b, continuum[..counter]);
      }
    }

    // update_continuum once the continuum is large enough.
    method Rebuild(now: nat, live: nat)
      requires live == BuildAt(now).LiveCount(|hosts|) && Feasible(env, BuildAt(now))
      requires 0 < |Points(env, BuildAt(now), |hosts|)| <= continuum.Length
      modifies this`counter, this`built, continuum
      ensures 0 < counter <= continuum.Length && built == BuildAt(now)
      ensures continuum[..counter] == Sort(Points(env, built, |hosts|))
    {
      hide Points, Sort, Feasible, Sorted;
      built := BuildAt(now);
      ghost var points := Points(env, built, |hosts|);
      var total := TotalWeight(now);
      counter := Fill(now, live, total);
      SortPrefix(continuum, counter);
      SortSorts(points);
      SortUnique(continuum[..counter], Sort(points));
    }

    // The weight of the live hosts, summed only in weighted mode.
    method TotalWeight(now: nat) returns (total: nat)
      ensures weighted ==> total == BuildAt(now).Weight(|hosts|)
    {
      total := 0;
      if weighted {
        for i := 0 to |hosts|
          invariant total == BuildAt(now).Weight(i)
        {
          if !autoEject || hosts[i].nextRetry <= now {
            total := total + hosts[i].weight;
          }
        }
      }
    }

    // The loop that writes the points of every live host; pointerCounter is how many it counts.
    method Fill(now: nat, live: nat, total: nat) returns (pointerCounter: nat)
      requires live == BuildAt(now).LiveCount(|hosts|) && (weighted ==> total == BuildAt(now).Weight(|hosts|))
      requires Feasible(env, BuildAt(now)) && |Points(env, BuildAt(now), |hosts|)| <= continuum.Length
      modifies continuum
      ensures pointerCounter == |Points(env, BuildAt(now), |hosts|)|
      ensures continuum[..pointerCounter] == Points(env, BuildAt(now), |hosts|)
    {
      hide Points, HostPoints, Digests;
      ghost var b := BuildAt(now);
      PointsNone(env, b);
      var continuumIndex := 0;
      pointerCounter := 0;
      for i := 0 to |hosts|
        invariant pointerCounter == continuumIndex == |Points(env, b, i)| <= continuum.Length
        invariant continuum[..continuumIndex] == Points(env, b, i)
      {
        PointsNext(env, b, i);
        PointsGrow(env, b, i + 1, |hosts|);
        if autoEject && hosts[i].nextRetry > now {
          continue;
        }
        var perServer, perHash := POINTS_PER_SERVER, 1;
        if weighted {
          perServer := env.share(hosts[i].weight, total, live).Floor * 4;
          perHash := 4;
        }
        DigestsOf(env, b, i, live, total);
        continuumIndex := WriteHost(hosts[i], i, perServer / perHash, perHash, continuumIndex);
        pointerCounter := pointerCounter + perServer;
      }
    }

    method WriteHost(h: Host, index: nat, digests: nat, perHash: nat, at: nat) returns (end: nat)
      requires perHash == 1 || perHash == 4
      requires at + digests * perHash <= continuum.Length
      modifies continuum
      ensures end == at + digests * perHash
      ensures continuum[..end] == old(continuum[..at]) + HostPoints(env, h, index, digests, perHash)
    {
      end := at;
      for k := 0 to digests
        invariant end == at + k * perHash
        invariant continuum[..end] == old(continuum[..at]) + HostPoints(env, h, index, k, perHash)
      {
        ghost var before := continuum[..end];
        for x := 0 to perHash
          invariant end == at + k * perHash + x
          invariant continuum[..end] == before + DigestPoints(env, h, index, k, x)
        {
          continuum[end] := Point(env.value(h.name, h.port, k, x), index);
          end := end + 1;
        }
      }
    }

    // server_add of a host to a consistent distribution; the weight defaults to 1.  The host list and the
    // continuum may each fail to grow.
    method ServerAdd(name: string, port: nat, weight: nat, now: nat, canGrow: bool, canAllocate: bool)
      returns (rc: Return)
      requires Valid() && Computable(env, eps, weighted || weight > 1, BuildAt(now).LiveCount(|hosts|) + 1)
      modifies this, continuum
      ensures Valid() && (continuum == old(continuum) || fresh(continuum))
      ensures canGrow && canAllocate ==> rc == Ok
      ensures canGrow ==> hosts == old(hosts) + [Host(name, port, if weight == 0 then 1 else weight, 0)]
                          && weighted == (old(weighted) || weight > 1)
      ensures rc == Ok ==> canGrow && counter > 0 && built == BuildAt(now)
      ensures canGrow && autoEject ==> leftOut == LeftOut(hosts, now, |hosts|) && Scheduled(hosts, now, nextRebuild)
      ensures !canGrow || !autoEject ==> leftOut == old(leftOut) && nextRebuild == old(nextRebuild)
      ensures !canGrow ==> hosts == old(hosts) && weighted == old(weighted) && counter == old(counter)
                           && built == old(built) && continuum == old(continuum) && continuum[..] == old(continuum[..])
    {
      hide Valid, Computable, Scheduled, LeftOut;
      if !canGrow {
        return OutOfMemory;
      }
      AppendHost(name, port, weight, now);
      rc := UpdateContinuum(now, canAllocate);
    }

    // The new instance at the end of the list.
    method AppendHost(name: string, port: nat, weight: nat, ghost now: nat)
      requires Valid() && Computable(env, eps, weighted || weight > 1, BuildAt(now).LiveCount(|hosts|) + 1)
      modifies this`hosts, this`weighted
      ensures Valid() && hosts == old(hosts) + [Host(name, port, if weight == 0 then 1 else weight, 0)]
      ensures weighted == (old(weighted) || weight > 1)
      ensures BuildAt(now).LiveCount(|hosts|) > 0 && Computable(env, eps, weighted, BuildAt(now).LiveCount(|hosts|))
    {
      hide Least, Sort, Points, Feasible, Computable, LeftOut;
      ghost var before := BuildAt(now);
      ghost var was := hosts;
      hosts := hosts + [Host(name, port, if weight == 0 then 1 else weight, 0)];
      if weight > 1 {
        weighted := true;
      }
      OneMoreLive(before, BuildAt(now));
      assert Weights(hosts);
      assert forall i :: 0 <= i < |was| ==> hosts[i] == was[i];
      assert counter > 0 ==> RingOf(continuum[..counter], built, hosts);
    }

    // memcached_servers_reset; the rebuild time is not touched.
    method ServersReset()
      requires Valid()
      modifies this
      ensures Valid() && hosts == [] && counter == 0 && fresh(continuum) && continuum.Length == 0
      ensures nextRebuild == old(nextRebuild) && leftOut == old(leftOut) && weighted == old(weighted)
    {
      hide Least;
      continuum := new Point[0];
      counter := 0;
      hosts := [];
    }

    // A host is taken out of or put back into retry.
    method SetRetry(i: nat, time: nat)
      requires Valid() && i < |hosts|
      modifies this`hosts
      ensures Valid() && hosts == old(hosts)[i := old(hosts)[i].(nextRetry := time)]
    {
      hide Least, Sort, Points, Feasible, Accurate;
      hosts := hosts[i := hosts[i].(nextRetry := time)];
    }

    // The retry time of some host left out has passed.
    ghost predicate RetryDue(now: nat)
      reads this
    {
      autoEject && exists i :: i in leftOut && leftOut[i] < now
    }

    // memcached_generate_hash_with_redistribution on a digest: the clock reads t1 when
    // _regen_for_auto_eject looks at it and t2 when update_continuum does.
    method Lookup(hash: nat, t1: nat, t2: nat, canAllocate: bool) returns (host: nat)
      requires Valid() && counter > 0 && t1 <= t2
      requires RetryDue(t1) ==> Computable(env, eps, weighted, BuildAt(t2).LiveCount(|hosts|))
      modifies this`nextRebuild, this`leftOut, this`continuum, this`counter, this`built, continuum
      ensures Valid() && counter > 0
      ensures built == old(built) || built == BuildAt(t2)
      ensures !old(RetryDue(t1)) ==> built == old(built)
      ensures old(RetryDue(t1)) && canAllocate && BuildAt(t2).LiveCount(|hosts|) > 0 ==> built == BuildAt(t2)
      ensures Points(env, built, |built.hosts|) != []
      ensures host == Scan(Points(env, built, |built.hosts|), hash).index && host < |hosts|
      ensures old(RetryDue(t1)) ==> leftOut == LeftOut(hosts, t2, |hosts|) && Scheduled(hosts, t2, nextRebuild)
      ensures !old(RetryDue(t1)) ==> leftOut == old(leftOut) && nextRebuild == old(nextRebuild)
      ensures autoEject ==> forall i :: i in leftOut ==> leftOut[i] >= t1
    {
      hide Scheduled, LeftOut;
      Regenerate(t1, t2, canAllocate);
      LookupPoints(env, built, continuum[..counter], hash);
      host := Dispatch(continuum, counter, hash);
    }

    // _regen_for_auto_eject.
    method Regenerate(t1: nat, t2: nat, canAllocate: bool)
      requires Valid() && counter > 0 && t1 <= t2
      requires RetryDue(t1) ==> Computable(env, eps, weighted, BuildAt(t2).LiveCount(|hosts|))
      modifies this`nextRebuild, this`leftOut, this`continuum, this`counter, this`built, continuum
      ensures Valid() && counter > 0
      ensures built == old(built) || built == BuildAt(t2)
      ensures !old(RetryDue(t1)) ==> built == old(built)
      ensures old(RetryDue(t1)) && canAllocate && BuildAt(t2).LiveCount(|hosts|) > 0 ==> built == BuildAt(t2)
      ensures old(RetryDue(t1)) ==> leftOut == LeftOut(hosts, t2, |hosts|) && Scheduled(hosts, t2, nextRebuild)
      ensures !old(RetryDue(t1)) ==> leftOut == old(leftOut) && nextRebuild == old(nextRebuild)
      ensures autoEject ==> forall i :: i in leftOut ==> leftOut[i] >= t1
    {
      hide Sort, Points, Feasible, Accurate, Scheduled;
      if autoEject && nextRebuild != 0 {
        if t1 > nextRebuild {
          var rc := UpdateContinuum(t2, canAllocate);
        }
      }
    }
  }

  // A host added is live.
  lemma OneMoreLive(a: Build, b: Build)
    requires |b.hosts| == |a.hosts| + 1 && b.hosts[..|a.hosts|] == a.hosts && b.hosts[|a.hosts|].nextRetry == 0
    requires a.ejecting == b.ejecting && a.now == b.now
    ensures b.LiveCount(|b.hosts|) == a.LiveCount(|a.hosts|) + 1
  {
    SameLive(a, b, |a.hosts|);
  }

  lemma {:induction false} SameLive(a: Build, b: Build, n: nat)
    requires n <= |a.hosts| <= |b.hosts| && b.hosts[..|a.hosts|] == a.hosts
    requires a.ejecting == b.ejecting && a.now == b.now
    ensures a.LiveCount(n) == b.LiveCount(n)
  {
    if n > 0 {
      assert a.hosts[n - 1] == b.hosts[..|a.hosts|][n - 1];
      SameLive(a, b, n - 1);
    }
  }

  // Searching the sorted ring finds what a scan of the points finds, a host of the build.
  lemma LookupPoints(env: Env, b: Build, ring: seq<Point>, hash: nat)
    requires Feasible(env, b) && ring == Sort(Points(env, b, |b.hosts|)) && ring != []
    ensures Sorted(ring) && Points(env, b, |b.hosts|) != []
    ensures Scan(ring, hash) == Scan(Points(env, b, |b.hosts|), hash)
    ensures Scan(ring, hash).index < |b.hosts|
  {
    hide Sort, Points, Scan;
    var s := Points(env, b, |b.hosts|);
    SortSorts(s);
    ScanReordered(ring, s, hash);
    PointsAre(env, b, |b.hosts|, Scan(s, hash));
  }

  // A sorted ring has the points of the build and no others.
  lemma RebuiltPoints(env: Env, b: Build, ring: seq<Point>)
    requires Feasible(env, b) && ring == Sort(Points(env, b, |b.hosts|))
    ensures forall p :: p in ring <==> IsPoint(env, b, p)
  {
    hide Sort, Points, IsPoint;
    var s := Points(env, b, |b.hosts|);
    SortSorts(s);
    forall p
      ensures p in ring <==> IsPoint(env, b, p)
    {
      assert p in ring <==> p in multiset(ring);
      assert p in s <==> p in multiset(s);
      RingMeaning(env, b, p);
    }
  }

  lemma PointsNone(env: Env, b: Build)
    requires Feasible(env, b)
    ensures Points(env, b, 0) == []
  {
  }

  lemma PointsNext(env: Env, b: Build, i: nat)
    requires i < |b.hosts| && Feasible(env, b)
    ensures Points(env, b, i + 1)
            == if b.Live(i) then Points(env, b, i) + HostPoints(env, b.hosts[i], i, Digests(env, b, i), b.PerHash())
               else Points(env, b, i)
  {
  }

  lemma DigestsOf(env: Env, b: Build, i: nat, live: nat, total: nat)
    requires i < |b.hosts| && live == b.LiveCount(|b.hosts|) && (b.weighted ==> total == b.Weight(|b.hosts|))
    ensures Digests(env, b, i)
            == if b.weighted then env.share(b.hosts[i].weight, total, live).Floor else POINTS_PER_SERVER
  {
  }

  // qsort over the first n points.
  method SortPrefix(a: array<Point>, n: nat)
    requires n <= a.Length
    modifies a
    ensures Sorted(a[..n]) && multiset(a[..n]) == multiset(old(a[..n])) && a[n..] == old(a[n..])
  {
    hide Sort, Sorted;
    var s := Sort(a[..n]);
    SortSorts(a[..n]);
    forall i | 0 <= i < n {
      a[i] := s[i];
    }
    assert a[..n] == s;
  }

  lemma {:induction false} AllLive(b: Build, n: nat)
    requires n <= |b.hosts| && !b.ejecting
    ensures b.LiveCount(n) == n
  {
    if n > 0 {
      AllLive(b, n - 1);
    }
  }

  // The hosts among the first n that are waiting to be retried.
  ghost function LeftOut(hosts: seq<Host>, now: nat, n: nat): map<nat, nat>
    requires n <= |hosts|
  {
    map i | 0 <= i < n && hosts[i].nextRetry > now :: hosts[i].nextRetry
  }

  // t is when the next rebuild is due: the least retry time of the hosts still waiting at now, zero if none is.
  ghost predicate Scheduled(hosts: seq<Host>, now: nat, t: nat) {
    if forall i :: 0 <= i < |hosts| ==> hosts[i].nextRetry <= now then t == 0
    else
      && t > now && (exists i :: 0 <= i < |hosts| && hosts[i].nextRetry == t)
      && forall i :: 0 <= i < |hosts| && hosts[i].nextRetry > now ==> t <= hosts[i].nextRetry
  }

  lemma LeastIsScheduled(hosts: seq<Host>, now: nat, t: nat)
    requires Least(LeftOut(hosts, now, |hosts|), t)
    ensures Scheduled(hosts, now, t)
  {
    var m := LeftOut(hosts, now, |hosts|);
    if m != map[] {
      var i :| i in m && m[i] == t;
      assert hosts[i].nextRetry == t > now;
      forall j | 0 <= j < |hosts| && hosts[j].nextRetry > now
        ensures t <= hosts[j].nextRetry
      {
        assert j in m && m[j] == hosts[j].nextRetry;
      }
    } else {
      forall i | 0 <= i < |hosts|
        ensures hosts[i].nextRetry <= now
      {
        assert i !in m;
      }
    }
  }

  // Points allocated for the live hosts and spare more: 160 each with weights, 100 without.
  ghost function Needed(b: Build, spare: nat): nat {
    (|LiveHosts(b, |b.hosts|)| + spare) * if b.weighted then 160 else 100
  }

  // Every host is either live or left out, by its retry time.
  lemma LiveOrLeftOut(b: Build)
    ensures b.LiveCount(|b.hosts|) == 0 <==>
            b.hosts == [] || (b.ejecting && forall i :: 0 <= i < |b.hosts| ==> b.hosts[i].nextRetry > b.now)
    ensures forall i :: 0 <= i < |b.hosts| ==>
              (i in LeftOut(b.hosts, b.now, |b.hosts|) <==> b.hosts[i].nextRetry > b.now)
  {
    NoneLive(b, |b.hosts|);
  }

  lemma {:induction false} NoneLive(b: Build, n: nat)
    requires n <= |b.hosts|
    ensures b.LiveCount(n) == 0 <==> n == 0 || (b.ejecting && forall i :: 0 <= i < n ==> b.hosts[i].nextRetry > b.now)
  {
    if n > 0 {
      NoneLive(b, n - 1);
    }
  }

  lemma LeftOutNext(hosts: seq<Host>, now: nat, n: nat)
    requires n < |hosts|
    ensures n !in LeftOut(hosts, now, n)
    ensures LeftOut(hosts, now, n + 1)
            == if hosts[n].nextRetry > now then LeftOut(hosts, now, n)[n := hosts[n].nextRetry]
               else LeftOut(hosts, now, n)
  {
  }

  // v is the least time in m, zero if there is none.
  ghost predicate Least(m: map<nat, nat>, v: nat) {
    if m == map[] then v == 0
    else (exists i :: i in m && m[i] == v) && v > 0 && forall i :: i in m ==> v <= m[i]
  }

  lemma LeastOfNone()
    ensures Least(map[], 0)
  {
  }

  lemma LeastUpdate(m: map<nat, nat>, v: nat, i: nat, t: nat)
    requires Least(m, v) && i !in m && t > 0
    ensures Least(m[i := t], if v == 0 || t < v then t else v)
  {
    var m' := m[i := t];
    assert i in m' && m'[i] == t;
    if m != map[] {
      var j :| j in m && m[j] == v;
      assert j in m' && m'[j] == v;
    }
  }
}
