// replication_binary_mget of src/libmemcached/get.cc: sending each key to one of its replicas under
// arbitrary connect and write failures.
module MultiGet {
  // One attempt: connecting (when needed) and writing the request for a key to a server.
  datatype Attempt = Attempt(key: nat, server: nat, ok: bool)

  // ok(k) is the outcome of the k-th attempt of the call; start is zero unless reads are randomized.
  datatype Config = Config(servers: nat, replicas: nat, randomize: bool, start: nat, ok: nat -> bool)
  {
    ghost predicate Valid() {
      servers > 0 && start <= replicas && (!randomize ==> start == 0)
    }

    // How far from its hash a key is sent in a round.
    function Offset(replica: nat): nat {
      if randomize && replica + start <= replicas then replica + start else replica
    }
  }

  // hash[x] == servers marks key x as sent; log is every attempt so far.
  datatype State = State(hash: seq<nat>, dead: seq<bool>, log: seq<Attempt>)

  ghost predicate Fits(c: Config, st: State) {
    c.Valid() && |st.dead| == c.servers && forall x :: 0 <= x < |st.hash| ==> st.hash[x] <= c.servers
  }

  // The remainder; a function so that proofs can do without its definition.
  function Rem(a: nat, n: nat): (r: nat)
    requires n > 0
    ensures r < n
  {
    a % n
  }

  // ---------------------------------------------------------------- the loops, as functions

  function TryKey(c: Config, st: State, x: nat, replica: nat): (r: (State, bool))
    requires Fits(c, st) && x < |st.hash|
    ensures Fits(c, r.0) && |r.0.hash| == |st.hash|
  {
    if st.hash[x] == c.servers then (st, true) else
    var server := Rem(st.hash[x] + c.Offset(replica), c.servers);
    if st.dead[server] then (st, true)
    else if c.ok(|st.log|) then
      (State(st.hash[x := c.servers], st.dead, st.log + [Attempt(x, server, true)]), true)
    else
      (State(st.hash, st.dead[server := true], st.log + [Attempt(x, server, false)]), false)
  }

  function Round(c: Config, st: State, x: nat, replica: nat): (r: (State, bool))
    requires Fits(c, st) && x <= |st.hash|
    ensures Fits(c, r.0) && |r.0.hash| == |st.hash|
    decreases |st.hash| - x
  {
    if x == |st.hash| then (st, true) else
    var (st1, success1) := TryKey(c, st, x, replica);
    var (st2, success2) := Round(c, st1, x + 1, replica);
    (st2, success1 && success2)
  }

  function Rounds(c: Config, st: State, replica: nat): (r: State)
    requires Fits(c, st)
    ensures Fits(c, r) && |r.hash| == |st.hash|
    decreases c.replicas + 1 - replica
  {
    if replica > c.replicas then st else
    var (st1, success) := Round(c, st, 0, replica);
    if success then st1 else Rounds(c, st1, replica + 1)
  }

  ghost predicate Hashes(c: Config, hash: seq<nat>) {
    c.Valid() && forall x :: 0 <= x < |hash| ==> hash[x] < c.servers
  }

  function Initial(c: Config, hash: seq<nat>): State {
    State(hash, seq(c.servers, _ => false), [])
  }

  function Send(c: Config, hash: seq<nat>): State
    requires Hashes(c, hash)
  {
    Rounds(c, Initial(c, hash), 0)
  }

  // ---------------------------------------------------------------- safety

  ghost predicate IsReplica(c: Config, h: nat, server: nat)
    requires c.Valid()
  {
    exists i :: 0 <= i <= c.replicas && server == Target(c, h, i)
  }

  function Target(c: Config, h: nat, i: nat): (t: nat)
    requires c.servers > 0
    ensures t < c.servers
  {
    Rem(h + i, c.servers)
  }

  function CountSent(hash: seq<nat>, servers: nat): nat {
    if hash == [] then 0 else CountSent(hash[1..], servers) + if hash[0] == servers then 1 else 0
  }

  function CountDead(dead: seq<bool>): nat {
    if dead == [] then 0 else CountDead(dead[1..]) + if dead[0] then 1 else 0
  }

  // Every attempt goes to a replica of its key.
  ghost predicate Placed(c: Config, h0: seq<nat>, log: seq<Attempt>)
    requires c.Valid()
  {
    forall k :: 0 <= k < |log| ==>
      log[k].key < |h0| && log[k].server < c.servers && IsReplica(c, h0[log[k].key], log[k].server)
  }

  // What hash and dead_servers say is what happened.
  ghost predicate Recorded(c: Config, st: State) {
    forall k :: 0 <= k < |st.log| ==>
      st.log[k].key < |st.hash| && st.log[k].server < |st.dead|
      && if st.log[k].ok then st.hash[st.log[k].key] == c.servers else st.dead[st.log[k].server]
  }

  // No attempt for a key that was sent, and none on a server that failed.
  ghost predicate NoRepeats(log: seq<Attempt>) {
    forall i, j :: 0 <= i < j < |log| ==>
      (log[i].key == log[j].key ==> !log[i].ok) && (log[i].server == log[j].server ==> log[i].ok)
  }

  // What every step keeps, for keys that started with the hashes h0.
  ghost predicate Safe(c: Config, h0: seq<nat>, st: State) {
    && Hashes(c, h0) && Fits(c, st) && |st.hash| == |h0|
    && (forall x :: 0 <= x < |h0| ==> st.hash[x] == h0[x] || st.hash[x] == c.servers)
    && Placed(c, h0, st.log) && Recorded(c, st) && NoRepeats(st.log)
    && |st.log| == CountSent(st.hash, c.servers) + CountDead(st.dead)
  }

  lemma {:induction false} CountSentUpdate(hash: seq<nat>, x: nat, servers: nat)
    requires x < |hash| && hash[x] != servers
    ensures CountSent(hash[x := servers], servers) == CountSent(hash, servers) + 1
  {
    if x == 0 {
      assert hash[0 := servers][1..] == hash[1..];
    } else {
      CountSentUpdate(hash[1..], x - 1, servers);
      assert hash[x := servers][1..] == hash[1..][x - 1 := servers];
    }
  }

  lemma {:induction false} CountDeadUpdate(dead: seq<bool>, s: nat)
    requires s < |dead| && !dead[s]
    ensures CountDead(dead[s := true]) == CountDead(dead) + 1
  {
    if s == 0 {
      assert dead[0 := true][1..] == dead[1..];
    } else {
      CountDeadUpdate(dead[1..], s - 1);
      assert dead[s := true][1..] == dead[1..][s - 1 := true];
    }
  }

  lemma {:induction false} CountsBounded(hash: seq<nat>, servers: nat, dead: seq<bool>)
    ensures CountSent(hash, servers) <= |hash|
    ensures CountDead(dead) <= |dead|
    decreases |hash| + |dead|
  {
    if hash != [] {
      CountsBounded(hash[1..], servers, dead);
    } else if dead != [] {
      CountsBounded(hash, servers, dead[1..]);
    }
  }

  lemma NoRepeatsAppend(c: Config, st: State, a: Attempt)
    requires Recorded(c, st) && NoRepeats(st.log)
    requires a.key < |st.hash| && st.hash[a.key] != c.servers
    requires a.server < |st.dead| && !st.dead[a.server]
    ensures NoRepeats(st.log + [a])
  {
  }

  lemma RecordedAppend(c: Config, st: State, a: Attempt)
    requires Recorded(c, st) && a.key < |st.hash| && a.server < |st.dead|
    ensures a.ok ==> Recorded(c, State(st.hash[a.key := c.servers], st.dead, st.log + [a]))
    ensures !a.ok ==> Recorded(c, State(st.hash, st.dead[a.server := true], st.log + [a]))
  {
  }

  lemma PlacedAppend(c: Config, h0: seq<nat>, log: seq<Attempt>, a: Attempt)
    requires c.Valid() && Placed(c, h0, log)
    requires a.key < |h0| && a.server < c.servers && IsReplica(c, h0[a.key], a.server)
    ensures Placed(c, h0, log + [a])
  {
  }

  lemma TryKeySafe(c: Config, h0: seq<nat>, st: State, x: nat, replica: nat)
    requires Safe(c, h0, st) && x < |h0| && replica <= c.replicas
    ensures Safe(c, h0, TryKey(c, st, x, replica).0)
  {
    hide Placed, Recorded, NoRepeats, IsReplica;
    if st.hash[x] != c.servers {
      var server := Rem(st.hash[x] + c.Offset(replica), c.servers);
      if !st.dead[server] {
        var a := Attempt(x, server, c.ok(|st.log|));
        ReplicaOffset(c, h0[x], replica);
        NoRepeatsAppend(c, st, a);
        RecordedAppend(c, st, a);
        PlacedAppend(c, h0, st.log, a);
        CountSentUpdate(st.hash, x, c.servers);
        CountDeadUpdate(st.dead, server);
      }
    }
  }

  lemma ReplicaOffset(c: Config, h: nat, replica: nat)
    requires c.Valid() && replica <= c.replicas
    ensures IsReplica(c, h, Rem(h + c.Offset(replica), c.servers))
  {
    assert Rem(h + c.Offset(replica), c.servers) == Target(c, h, c.Offset(replica));
  }

  lemma {:induction false} RoundSafe(c: Config, h0: seq<nat>, st: State, x: nat, replica: nat)
    requires Safe(c, h0, st) && x <= |h0| && replica <= c.replicas
    ensures Safe(c, h0, Round(c, st, x, replica).0)
    decreases |h0| - x
  {
    hide Safe, TryKey;
    assert Fits(c, st) && |st.hash| == |h0| by { SafeFits(c, h0, st); }
    if x < |st.hash| {
      TryKeySafe(c, h0, st, x, replica);
      RoundSafe(c, h0, TryKey(c, st, x, replica).0, x + 1, replica);
    }
  }

  lemma SafeFits(c: Config, h0: seq<nat>, st: State)
    requires Safe(c, h0, st)
    ensures Fits(c, st) && |st.hash| == |h0|
  {
  }

  lemma {:induction false} RoundsSafe(c: Config, h0: seq<nat>, st: State, replica: nat)
    requires Safe(c, h0, st)
    ensures Safe(c, h0, Rounds(c, st, replica))
    decreases c.replicas + 1 - replica
  {
    hide Safe, Round;
    SafeFits(c, h0, st);
    if replica <= c.replicas {
      RoundSafe(c, h0, st, 0, replica);
      RoundsSafe(c, h0, Round(c, st, 0, replica).0, replica + 1);
    }
  }

  // Every run of the call is safe: a key is written at most once, only to one of its replicas, never
  // to a server that already failed, and there are at most keys + servers attempts.
  lemma SendSafe(c: Config, h0: seq<nat>)
    requires Hashes(c, h0)
    ensures Safe(c, h0, Send(c, h0))
    ensures |Send(c, h0).log| <= |h0| + c.servers
  {
    NothingCounted(h0, c.servers, c.servers);
    RoundsSafe(c, h0, Initial(c, h0), 0);
    CountsBounded(Send(c, h0).hash, c.servers, Send(c, h0).dead);
  }

  lemma {:induction false} NothingCounted(h0: seq<nat>, servers: nat, n: nat)
    requires forall x :: 0 <= x < |h0| ==> h0[x] < servers
    ensures CountSent(h0, servers) == 0
    ensures CountDead(seq(n, _ => false)) == 0
    decreases |h0| + n
  {
    if h0 != [] {
      NothingCounted(h0[1..], servers, n);
    } else if n > 0 {
      assert seq(n, _ => false)[1..] == seq(n - 1, _ => false);
      NothingCounted(h0, servers, n - 1);
    }
  }

  // ---------------------------------------------------------------- completeness, from the primary on

  // Every key not sent has the targets of its first r offsets dead.
  ghost predicate Swept(c: Config, h0: seq<nat>, st: State, r: nat)
    requires c.Valid() && |st.dead| == c.servers && |st.hash| == |h0|
  {
    forall x, i :: 0 <= x < |h0| && st.hash[x] != c.servers && 0 <= i < r ==> st.dead[Target(c, h0[x], i)]
  }

  // Every key was sent or all its replicas are dead.
  ghost predicate Complete(c: Config, h0: seq<nat>, st: State)
    requires c.Valid() && |st.dead| == c.servers && |st.hash| == |h0|
  {
    Swept(c, h0, st, c.replicas + 1)
  }

  // Nothing is ever unsent or revived.
  ghost predicate Grows(c: Config, a: State, b: State) {
    && |a.hash| == |b.hash| && |a.dead| == |b.dead|
    && (forall x :: 0 <= x < |a.hash| ==> b.hash[x] == a.hash[x] || b.hash[x] == c.servers)
    && (forall s :: 0 <= s < |a.dead| && a.dead[s] ==> b.dead[s])
  }

  lemma TryKeySettles(c: Config, h0: seq<nat>, st: State, x: nat, replica: nat)
    requires Hashes(c, h0) && Fits(c, st) && x < |h0| == |st.hash|
    requires forall y :: 0 <= y < |h0| ==> st.hash[y] == h0[y] || st.hash[y] == c.servers
    ensures var (r, success) := TryKey(c, st, x, replica);
            && Grows(c, st, r)
            && (r.hash[x] == c.servers || r.dead[Target(c, h0[x], c.Offset(replica))])
            && (success ==> r.dead == st.dead)
  {
  }

  // From key x on, a round settles every key: sent, or its target of this round dead.  It succeeds
  // only if no server died.
  lemma {:induction false} RoundSettles(c: Config, h0: seq<nat>, st: State, x: nat, replica: nat)
    requires Hashes(c, h0) && Fits(c, st) && x <= |h0| == |st.hash|
    requires forall y :: 0 <= y < |h0| ==> st.hash[y] == h0[y] || st.hash[y] == c.servers
    ensures var (r, success) := Round(c, st, x, replica);
            && Grows(c, st, r)
            && (forall y :: x <= y < |h0| ==> r.hash[y] == c.servers || r.dead[Target(c, h0[y], c.Offset(replica))])
            && (success ==> r.dead == st.dead)
    decreases |h0| - x
  {
    hide TryKey, Target;
    if x < |h0| {
      TryKeySettles(c, h0, st, x, replica);
      var (st1, success1) := TryKey(c, st, x, replica);
      RoundSettles(c, h0, st1, x + 1, replica);
    }
  }

  lemma SweptNext(c: Config, h0: seq<nat>, st: State, replica: nat)
    requires Hashes(c, h0) && c.start == 0 && Fits(c, st) && |h0| == |st.hash|
    requires forall y :: 0 <= y < |h0| ==> st.hash[y] == h0[y] || st.hash[y] == c.servers
    requires Swept(c, h0, st, replica)
    ensures Swept(c, h0, Round(c, st, 0, replica).0, replica + 1)
  {
    assert c.Offset(replica) == replica;
    RoundSettles(c, h0, st, 0, replica);
  }

  // A server dead after the rounds so far was a target of some round so far of some key.
  ghost predicate DeadExplained(c: Config, h0: seq<nat>, st: State, r: nat)
    requires c.Valid() && |st.dead| == c.servers
  {
    forall s :: 0 <= s < c.servers && st.dead[s] ==> KilledBy(c, h0, s, r)
  }

  ghost predicate KilledBy(c: Config, h0: seq<nat>, s: nat, r: nat)
    requires c.Valid()
  {
    exists x, i :: 0 <= x < |h0| && 0 <= i < r && s == Target(c, h0[x], i)
  }

  lemma {:induction false} RoundExplains(c: Config, h0: seq<nat>, st: State, x: nat, replica: nat)
    requires Hashes(c, h0) && c.start == 0 && Fits(c, st) && x <= |h0| == |st.hash|
    requires forall y :: 0 <= y < |h0| ==> st.hash[y] == h0[y] || st.hash[y] == c.servers
    requires DeadExplained(c, h0, st, replica + 1)
    ensures DeadExplained(c, h0, Round(c, st, x, replica).0, replica + 1)
    decreases |h0| - x
  {
    hide KilledBy;
    if x < |h0| {
      KilledNow(c, h0, x, replica);
      RoundExplains(c, h0, TryKey(c, st, x, replica).0, x + 1, replica);
    }
  }

  lemma KilledNow(c: Config, h0: seq<nat>, x: nat, replica: nat)
    requires Hashes(c, h0) && x < |h0|
    ensures KilledBy(c, h0, Rem(h0[x] + replica, c.servers), replica + 1)
  {
    assert Rem(h0[x] + replica, c.servers) == Target(c, h0[x], replica);
  }

  lemma ExplainedLater(c: Config, h0: seq<nat>, st: State, r: nat)
    requires c.Valid() && |st.dead| == c.servers && DeadExplained(c, h0, st, r)
    ensures DeadExplained(c, h0, st, r + 1)
  {
    forall s | 0 <= s < c.servers && st.dead[s]
      ensures KilledBy(c, h0, s, r + 1)
    {
      assert KilledBy(c, h0, s, r);
    }
  }

  // ---- targets repeat every c.servers offsets

  lemma {:induction false} ModPlusMultiple(a: nat, q: nat, n: nat)
    requires n > 0
    ensures Rem(a + q * n, n) == Rem(a, n)
  {
    hide Rem;
    if q > 0 {
      ModPlusMultiple(a, q - 1, n);
      assert a + q * n == (a + (q - 1) * n) + n;
      ModPlusN(a + (q - 1) * n, n);
    }
  }

  lemma Product(n: nat, x: int)
    ensures x >= 1 ==> n * x >= n
    ensures x <= -1 ==> n * x <= 0 - n
  {
  }

  lemma ModPlusN(a: nat, n: nat)
    requires n > 0
    ensures Rem(a + n, n) == Rem(a, n)
  {
    var q, m := a / n, a % n;
    var q', m' := (a + n) / n, (a + n) % n;
    assert n * (q + 1 - q') == m' - m;
    Product(n, q + 1 - q');
  }

  lemma SmallMod(a: nat, n: nat)
    requires a < n
    ensures Rem(a, n) == a
  {
  }

  lemma DivMod(a: nat, n: nat)
    requires n > 0
    ensures a == Rem(a, n) + (a / n) * n
  {
  }

  lemma AddMod(a: nat, s: nat, n: nat)
    requires n > 0
    ensures Rem(a + s, n) == Rem(a + Rem(s, n), n)
  {
    var m, q := Rem(s, n), s / n;
    hide Rem;
    DivMod(s, n);
    ModPlusMultiple(a + m, q, n);
  }

  lemma TargetPeriodic(c: Config, h: nat, i: nat)
    requires c.servers > 0
    ensures Target(c, h, i) == Target(c, h, Rem(i, c.servers))
  {
    hide Rem;
    AddMod(h, i, c.servers);
  }

  // Two different offsets with the same target are at least c.servers apart.
  lemma TargetsDiffer(c: Config, h: nat, i: nat, j: nat)
    requires c.servers > 0 && i < j && Target(c, h, i) == Target(c, h, j)
    ensures j - i >= c.servers
  {
    hide Rem;
    var n, a, d := c.servers, h + i, j - i;
    if d < n {
      var m := Rem(a, n);
      AddMod(d, a, n);
      assert Rem(m + d, n) == m;
      if m + d < n {
        SmallMod(m + d, n);
      } else {
        ModPlusN(m + d - n, n);
        SmallMod(m + d - n, n);
      }
    }
  }

  // ---- the early break

  // Some round before the last one had no failures, so the later rounds are not run.
  predicate BreaksEarly(c: Config, st: State, replica: nat)
    requires Fits(c, st)
    decreases c.replicas + 1 - replica
  {
    replica < c.replicas
    && var (st1, success) := Round(c, st, 0, replica);
       success || BreaksEarly(c, st1, replica + 1)
  }

  // With at most one key, one extra replica or two servers an early break loses nothing.
  predicate Harmless(servers: nat, replicas: nat, keys: nat) {
    keys <= 1 || replicas <= 1 || servers <= 2
  }

  lemma {:induction false} RoundsComplete(c: Config, h0: seq<nat>, st: State, r: nat)
    requires Hashes(c, h0) && c.start == 0 && Fits(c, st) && |h0| == |st.hash| && r <= c.replicas + 1
    requires forall y :: 0 <= y < |h0| ==> st.hash[y] == h0[y] || st.hash[y] == c.servers
    requires Swept(c, h0, st, r) && DeadExplained(c, h0, st, r)
    requires Harmless(c.servers, c.replicas, |h0|) || !BreaksEarly(c, st, r)
    ensures Complete(c, h0, Rounds(c, st, r))
    decreases c.replicas + 1 - r
  {
    hide Swept, DeadExplained, Round;
    if r <= c.replicas {
      var (st1, success) := Round(c, st, 0, r);
      RoundSettles(c, h0, st, 0, r);
      SweptNext(c, h0, st, r);
      ExplainedLater(c, h0, st, r);
      RoundExplains(c, h0, st, 0, r);
      if !success {
        RoundsComplete(c, h0, st1, r + 1);
      } else if r < c.replicas {
        SameDead(c, h0, st, st1, r);
        BreakHarmless(c, h0, st1, r);
      }
    }
  }

  lemma SameDead(c: Config, h0: seq<nat>, a: State, b: State, r: nat)
    requires c.Valid() && |a.dead| == c.servers && a.dead == b.dead && DeadExplained(c, h0, a, r)
    ensures DeadExplained(c, h0, b, r)
  {
  }

  // Round r failed nowhere, so everything dead was killed before it.
  lemma BreakHarmless(c: Config, h0: seq<nat>, st: State, r: nat)
    requires Hashes(c, h0) && |st.dead| == c.servers && |h0| == |st.hash| && r < c.replicas
    requires Swept(c, h0, st, r + 1) && DeadExplained(c, h0, st, r)
    requires Harmless(c.servers, c.replicas, |h0|)
    ensures Complete(c, h0, st)
  {
    hide Target;
    forall x, i | 0 <= x < |h0| && st.hash[x] != c.servers && 0 <= i <= c.replicas
      ensures st.dead[Target(c, h0[x], i)]
    {
      assert KilledBy(c, h0, Target(c, h0[x], r), r);
      var y, j :| 0 <= y < |h0| && 0 <= j < r && Target(c, h0[x], r) == Target(c, h0[y], j);
      if |h0| <= 1 {
        TargetsDiffer(c, h0[x], j, r);
      }
      if i > r {
        TargetPeriodic(c, h0[x], i);
      }
    }
  }

  // If no early break happens, or it is harmless, every key not sent has only dead replicas.
  lemma SendComplete(c: Config, h0: seq<nat>)
    requires Hashes(c, h0) && c.start == 0
    requires Harmless(c.servers, c.replicas, |h0|) || !BreaksEarly(c, Initial(c, h0), 0)
    ensures Complete(c, h0, Send(c, h0))
  {
    RoundsComplete(c, h0, Initial(c, h0), 0);
  }

  // ---- where a start leads

  // A start from which the rounds can come to every replica: a multiple of the server count, or one that
  // leaves a shifted round for every server.
  predicate ReachesAll(servers: nat, replicas: nat, start: nat)
    requires servers > 0
  {
    Rem(start, servers) == 0 || replicas + 1 - start >= servers
  }

  // The hash whose targets in the first two rounds are cls and cls + 1.
  function Back(c: Config, cls: nat): (h: nat)
    requires c.servers > 0
    ensures h < c.servers
  {
    Rem(cls + c.servers - Rem(c.start, c.servers), c.servers)
  }

  lemma BackTarget(c: Config, cls: nat, r: nat)
    requires c.Valid() && c.servers >= 3 && ReachesAll(c.servers, c.replicas, c.start) && r <= 1 && cls + r <= 2
    ensures Rem(Back(c, cls) + c.Offset(r), c.servers) == cls + r
  {
    hide Rem;
    OffsetMod(c, Back(c, cls), r);
    BackMod(cls, r, Rem(c.start, c.servers), c.servers);
  }

  lemma OffsetMod(c: Config, h: nat, r: nat)
    requires c.Valid() && c.servers >= 3 && ReachesAll(c.servers, c.replicas, c.start) && r <= 1
    ensures Rem(h + c.Offset(r), c.servers) == Rem(h + r + Rem(c.start, c.servers), c.servers)
  {
    hide Rem;
    if Rem(c.start, c.servers) == 0 {
      OffsetWraps(c, h, r);
    } else {
      AddMod(h + r, c.start, c.servers);
    }
  }

  lemma BackMod(cls: nat, r: nat, m: nat, n: nat)
    requires m < n && cls + r < n
    ensures Rem(Rem(cls + n - m, n) + r + m, n) == cls + r
  {
    hide Rem;
    if cls < m {
      SmallMod(cls + n - m, n);
      ModPlusN(cls + r, n);
    } else {
      ModPlusN(cls - m, n);
      SmallMod(cls - m, n);
    }
    SmallMod(cls + r, n);
  }

  // With many keys it may lose one: the first two attempts fail, killing the first target of key 0 and, on
  // behalf of key 1, its second target; round 1 then has no failures, and key 0 is never offered to
  // its third replica, which is alive.
  function LosingHashes(c: Config, keys: nat): (h: seq<nat>)
    requires c.servers > 0 && keys >= 2
    ensures |h| == keys
  {
    [Back(c, 0), Back(c, 1)] + seq(keys - 2, _ => Back(c, 2))
  }

  // Only the first two attempts fail.
  ghost predicate Losing(c: Config) {
    && c.Valid() && c.servers >= 3 && c.replicas >= 2 && ReachesAll(c.servers, c.replicas, c.start)
    && forall k :: c.ok(k) <==> k >= 2
  }

  lemma {:induction false} OthersSent(c: Config, st: State, x: nat)
    requires Losing(c) && Fits(c, st) && 2 <= x <= |st.hash| && |st.log| >= 2 && !st.dead[2]
    requires forall y :: x <= y < |st.hash| ==> st.hash[y] == Back(c, 2)
    ensures var (r, success) := Round(c, st, x, 0);
            && success && r.dead == st.dead && |r.log| >= 2
            && (forall y :: 0 <= y < x ==> r.hash[y] == st.hash[y])
            && (forall y :: x <= y < |st.hash| ==> r.hash[y] == c.servers)
    decreases |st.hash| - x
  {
    hide Rem, Back;
    if x < |st.hash| {
      BackTarget(c, 2, 0);
      OthersSent(c, TryKey(c, st, x, 0).0, x + 1);
    }
  }

  lemma {:induction false} AllAlreadySent(c: Config, st: State, x: nat, replica: nat)
    requires Fits(c, st) && x <= |st.hash|
    requires forall y :: x <= y < |st.hash| ==> st.hash[y] == c.servers
    ensures Round(c, st, x, replica) == (st, true)
    decreases |st.hash| - x
  {
    if x < |st.hash| {
      AllAlreadySent(c, st, x + 1, replica);
    }
  }

  lemma KeyLost(c: Config, keys: nat)
    requires Losing(c) && keys >= 2
    ensures var h0 := LosingHashes(c, keys);
            Hashes(c, h0) && !Complete(c, h0, Send(c, h0))
  {
    hide Back, Losing, Round, Rounds, LosingHashes, Complete;
    LosingSizes(c);
    var h0 := LosingHashes(c, keys);
    FirstRoundFails(c, keys);
    var s := Round(c, Initial(c, h0), 0, 0).0;
    SecondRoundBreaks(c, s);
    FirstRounds(c, Initial(c, h0));
    FirstHash(c, keys);
    AliveReplica(c, h0, Send(c, h0));
  }

  lemma FirstHash(c: Config, keys: nat)
    requires c.servers > 0 && keys >= 2
    ensures LosingHashes(c, keys)[0] == Back(c, 0)
  {
  }

  lemma LosingSizes(c: Config)
    requires Losing(c)
    ensures c.Valid() && c.servers >= 3 && c.replicas >= 2
  {
  }

  lemma FirstRoundFails(c: Config, keys: nat)
    requires Losing(c) && keys >= 2
    ensures var h0 := LosingHashes(c, keys);
            && Hashes(c, h0)
            && var (s, success) := Round(c, Initial(c, h0), 0, 0);
               && !success && |s.log| >= 2 && s.dead[1] && !s.dead[2]
               && s.hash[0] == Back(c, 0) && s.hash[1] == Back(c, 1)
               && (forall y :: 2 <= y < |s.hash| ==> s.hash[y] == c.servers)
  {
    hide Rem, Back;
    var h0 := LosingHashes(c, keys);
    BackTarget(c, 0, 0);
    BackTarget(c, 1, 0);
    var s0 := Initial(c, h0);
    var s1 := TryKey(c, s0, 0, 0).0;
    assert s1.hash == h0 && s1.dead[0] && |s1.log| == 1;
    var s2 := TryKey(c, s1, 1, 0).0;
    assert s2.hash == h0 && s2.dead[1] && !s2.dead[2] && |s2.log| == 2;
    OthersSent(c, s2, 2);
    var s3 := Round(c, s2, 2, 0).0;
    assert Round(c, s1, 1, 0) == (s3, false);
    assert Round(c, s0, 0, 0) == (s3, false);
  }

  lemma SecondRoundBreaks(c: Config, st: State)
    requires Losing(c) && Fits(c, st) && |st.hash| >= 2 && |st.log| >= 2 && st.dead[1] && !st.dead[2]
    requires st.hash[0] == Back(c, 0) && st.hash[1] == Back(c, 1)
    requires forall y :: 2 <= y < |st.hash| ==> st.hash[y] == c.servers
    ensures var (r, success) := Round(c, st, 0, 1);
            success && r.hash[0] == Back(c, 0) && r.dead == st.dead
  {
    hide Rem, Back;
    BackTarget(c, 0, 1);
    BackTarget(c, 1, 1);
    assert TryKey(c, st, 0, 1) == (st, true);
    var st1 := TryKey(c, st, 1, 1).0;
    AllAlreadySent(c, st1, 2, 1);
    assert Round(c, st, 1, 1) == (st1, true);
  }

  // Server 2 is among the replicas of key 0.
  lemma AliveReplica(c: Config, h0: seq<nat>, st: State)
    requires Losing(c) && Hashes(c, h0) && h0 != [] && |h0| == |st.hash| && |st.dead| == c.servers
    requires st.hash[0] == h0[0] == Back(c, 0) && !st.dead[2]
    ensures !Complete(c, h0, st)
  {
    hide Rem;
    var i;
    if Rem(c.start, c.servers) == 0 {
      i := 2;
      ModPlusN(0, c.servers);
      SmallMod(0, c.servers);
      SmallMod(2, c.servers);
    } else {
      i := TargetFrom(c, h0[0], 0, 2);
    }
    assert i <= c.replicas && Target(c, h0[0], i) == 2;
  }

  // ---- a randomized start above zero

  // Helper for PrimaryUntouched: then no round ever offers a key to its primary server.
  lemma PrimarySkipped(c: Config, replica: nat)
    requires c.Valid() && replica <= c.replicas
    ensures c.Offset(replica) == 0 <==> replica == 0 && c.start == 0
    ensures c.Offset(replica) <= c.replicas
  {
  }

  // Every key is at h and not sent.
  ghost predicate AllAt(st: State, h: nat) {
    st.hash != [] && forall x :: 0 <= x < |st.hash| ==> st.hash[x] == h
  }

  lemma {:induction false} AllSkip(c: Config, h: nat, st: State, x: nat, r: nat)
    requires Fits(c, st) && h < c.servers && AllAt(st, h) && x <= |st.hash| && st.dead[Target(c, h, c.Offset(r))]
    ensures Round(c, st, x, r) == (st, true)
    decreases |st.hash| - x
  {
    hide Rem;
    if x < |st.hash| {
      AllSkip(c, h, st, x + 1, r);
    }
  }

  // When every attempt fails, keys with the same hash go the way of one.
  lemma SameKeysRound(c: Config, h: nat, st: State, r: nat)
    requires Fits(c, st) && h < c.servers && AllAt(st, h) && (forall k :: !c.ok(k))
    ensures var t := Target(c, h, c.Offset(r));
            var (st1, success) := Round(c, st, 0, r);
            if st.dead[t] then st1 == st && success
            else st1.hash == st.hash && st1.dead == st.dead[t := true] && !success
  {
    hide Rem;
    var t := Target(c, h, c.Offset(r));
    if st.dead[t] {
      AllSkip(c, h, st, 0, r);
    } else {
      var (st1, success1) := TryKey(c, st, 0, r);
      assert st1.hash == st.hash && st1.dead == st.dead[t := true] && !success1;
      AllSkip(c, h, st1, 1, r);
    }
  }

  lemma {:induction false} PrimaryUntouched(c: Config, h: nat, st: State, r: nat)
    requires Fits(c, st) && 0 < c.start && c.replicas < c.servers && (forall k :: !c.ok(k))
    requires h < c.servers && AllAt(st, h) && !st.dead[Target(c, h, 0)]
    ensures Rounds(c, st, r).hash == st.hash && !Rounds(c, st, r).dead[Target(c, h, 0)]
    decreases c.replicas + 1 - r
  {
    hide Rem, Round;
    if r <= c.replicas {
      PrimarySkipped(c, r);
      if Target(c, h, c.Offset(r)) == Target(c, h, 0) {
        TargetsDiffer(c, h, 0, c.Offset(r));
      }
      SameKeysRound(c, h, st, r);
      var (st1, success) := Round(c, st, 0, r);
      if !success {
        PrimaryUntouched(c, h, st1, r + 1);
      }
    }
  }

  // A start that is a multiple of the server count is as good as none.
  lemma OffsetWraps(c: Config, h: nat, replica: nat)
    requires c.Valid() && Rem(c.start, c.servers) == 0
    ensures Rem(h + c.Offset(replica), c.servers) == Rem(h + replica, c.servers)
  {
    hide Rem;
    AddMod(h + replica, c.start, c.servers);
  }

  lemma {:induction false} RoundUnshifted(c: Config, st: State, x: nat, replica: nat)
    requires Fits(c, st) && x <= |st.hash| && Rem(c.start, c.servers) == 0
    ensures Round(c, st, x, replica) == Round(c.(start := 0), st, x, replica)
    decreases |st.hash| - x
  {
    hide Rem;
    if x < |st.hash| {
      OffsetWraps(c, st.hash[x], replica);
      RoundUnshifted(c, TryKey(c, st, x, replica).0, x + 1, replica);
    }
  }

  lemma {:induction false} RoundsUnshifted(c: Config, st: State, replica: nat)
    requires Fits(c, st) && Rem(c.start, c.servers) == 0
    ensures Rounds(c, st, replica) == Rounds(c.(start := 0), st, replica)
    decreases c.replicas + 1 - replica
  {
    if replica <= c.replicas {
      RoundUnshifted(c, st, 0, replica);
      RoundsUnshifted(c, Round(c, st, 0, replica).0, replica + 1);
    }
  }

  lemma {:induction false} RoundsGrow(c: Config, h: nat, st: State, r: nat)
    requires Fits(c, st) && st.hash == [h]
    ensures Grows(c, st, Rounds(c, st, r))
    decreases c.replicas + 1 - r
  {
    if r <= c.replicas {
      var (st1, success) := TryKey(c, st, 0, r);
      OneKeyRound(c, st, r);
      if !success {
        RoundsGrow(c, h, st1, r + 1);
      }
    }
  }

  lemma OneKeyRound(c: Config, st: State, r: nat)
    requires Fits(c, st) && |st.hash| == 1
    ensures Round(c, st, 0, r) == TryKey(c, st, 0, r)
  {
    var st1 := TryKey(c, st, 0, r).0;
    assert Round(c, st1, 1, r) == (st1, true);
  }

  // Every server is among any c.servers targets in a row.
  lemma TargetFrom(c: Config, h: nat, start: nat, s: nat) returns (j: nat)
    requires s < c.servers
    ensures start <= j < start + c.servers && Target(c, h, j) == s
  {
    hide Rem;
    var n, a := c.servers, h + start;
    var base := Rem(a, n);
    var i := if s >= base then s - base else n - base + s;
    j := start + i;
    AddMod(i, a, n);
    if s >= base {
      SmallMod(s, n);
    } else {
      ModPlusN(s, n);
      SmallMod(s, n);
    }
  }

  // If at least c.servers rounds are shifted, they try every server.
  lemma {:induction false} ShiftedTryAll(c: Config, h: nat, st: State, r: nat)
    requires Fits(c, st) && h < c.servers && c.replicas + 1 - c.start >= c.servers && r <= c.servers
    requires st.hash == [h] && (c.start > 0 ==> c.randomize)
    requires forall s :: 0 <= s < c.servers ==>
               (st.dead[s] <==> exists j :: c.start <= j < c.start + r && Target(c, h, j) == s)
    ensures var f := Rounds(c, st, r);
            f.hash == [c.servers] || forall s :: 0 <= s < c.servers ==> f.dead[s]
    decreases c.servers - r
  {
    hide Round, Target, TryKey;
    if r == c.servers {
      forall s | 0 <= s < c.servers
        ensures st.dead[s]
      {
        var j := TargetFrom(c, h, c.start, s);
      }
      RoundsGrow(c, h, st, r);
    } else {
      OneKeyRound(c, st, r);
      var t := Target(c, h, c.start + r);
      if st.dead[t] {
        var j :| c.start <= j < c.start + r && Target(c, h, j) == t;
        TargetsDiffer(c, h, j, c.start + r);
      }
      assert c.Offset(r) == c.start + r && r <= c.replicas;
      TryAt(c, h, st, r);
      var (st1, success) := TryKey(c, st, 0, r);
      if success {
        assert Rounds(c, st, r) == st1;
      } else {
        assert Rounds(c, st, r) == Rounds(c, st1, r + 1);
        ShiftedTryAll(c, h, st1, r + 1);
        var f := Rounds(c, st1, r + 1);
        assert f.hash == [c.servers] || forall s :: 0 <= s < c.servers ==> f.dead[s];
      }
    }
  }

  // One attempt for a single key at a live target.
  lemma TryAt(c: Config, h: nat, st: State, r: nat)
    requires Fits(c, st) && h < c.servers && st.hash == [h]
    ensures var t := Target(c, h, c.Offset(r));
            var (st1, success) := TryKey(c, st, 0, r);
            if st.dead[t] then st1 == st && success
            else if c.ok(|st.log|) then st1.hash == [c.servers] && success
            else st1.hash == [h] && st1.dead == st.dead[t := true] && !success
  {
    hide Rem;
    assert [h][0 := c.servers] == [c.servers];
  }

  lemma NextDiffers(a: nat, b: nat, n: nat)
    requires n > 0 && Rem(a + 1, n) == Rem(b + 1, n)
    ensures Rem(a, n) == Rem(b, n)
  {
    hide Rem;
    AddMod(n - 1, a + 1, n);
    AddMod(n - 1, b + 1, n);
    ModPlusN(a, n);
    ModPlusN(b, n);
  }

  // Otherwise, if every attempt fails, the server behind the last replica is never tried: the shifted
  // rounds end just before it, and the others meet a dead server, which ends the call, before they
  // come to it.
  lemma {:induction false} LastSkipped(c: Config, h: nat, st: State, r: nat)
    requires Fits(c, st) && h < c.servers && AllAt(st, h) && r <= c.replicas + 1 && (forall k :: !c.ok(k))
    requires c.randomize && Rem(c.start, c.servers) != 0 && c.replicas + 1 - c.start < c.servers
    requires var x := Target(c, h, c.replicas + 1);
             !st.dead[x]
             && (r + c.start > c.replicas ==> Target(c, h, r) != x && st.dead[Target(c, h, c.replicas)])
    ensures var f := Rounds(c, st, r);
            f.hash == st.hash && !f.dead[Target(c, h, c.replicas + 1)]
    decreases c.replicas + 1 - r
  {
    hide Rem, Round;
    if r <= c.replicas {
      SameKeysRound(c, h, st, r);
      var (st1, success) := Round(c, st, 0, r);
      if r + c.start <= c.replicas {
        if Target(c, h, r + c.start) == Target(c, h, c.replicas + 1) {
          TargetsDiffer(c, h, r + c.start, c.replicas + 1);
        }
        if r + c.start == c.replicas && Target(c, h, r + 1) == Target(c, h, c.replicas + 1) {
          StartIsMultiple(c, h, r + 1);
        }
      } else if !success && Target(c, h, r + 1) == Target(c, h, c.replicas + 1) {
        NextDiffers(h + r, h + c.replicas, c.servers);
      }
      if !success {
        LastSkipped(c, h, st1, r + 1);
      }
    }
  }

  lemma StartIsMultiple(c: Config, h: nat, r: nat)
    requires c.servers > 0 && r + c.start == c.replicas + 1 && Target(c, h, r) == Target(c, h, c.replicas + 1)
    ensures Rem(c.start, c.servers) == 0
  {
    hide Rem;
    var n, a := c.servers, h + r;
    var m := Rem(c.start, n);
    AddMod(a, c.start, n);
    if m > 0 {
      assert Target(c, h, r) == Target(c, h, r + m);
      TargetsDiffer(c, h, r, r + m);
    }
  }

  // With two servers the first two shifted rounds try both for every key.
  lemma TwoServers(c: Config, h0: seq<nat>)
    requires Hashes(c, h0) && c.servers == 2 && c.replicas + 1 - c.start >= 2
    ensures Complete(c, h0, Send(c, h0))
  {
    hide Round, Rounds, Target;
    var s0, a, b := Initial(c, h0), c.Offset(0), c.Offset(1);
    assert b == a + 1;
    RoundSettles(c, h0, s0, 0, 0);
    var (s1, success) := Round(c, s0, 0, 0);
    FirstRounds(c, s0);
    if !success {
      RoundSettles(c, h0, s1, 0, 1);
      var s2 := Round(c, s1, 0, 1).0;
      var f := Send(c, h0);
      RoundsGrowAll(c, h0, s2, 2);
      forall x, i | 0 <= x < |h0| && f.hash[x] != c.servers && 0 <= i <= c.replicas
        ensures f.dead[Target(c, h0[x], i)]
      {
        if Target(c, h0[x], a) == Target(c, h0[x], b) {
          TargetsDiffer(c, h0[x], a, b);
        }
        assert f.dead[Target(c, h0[x], a)] && f.dead[Target(c, h0[x], b)];
      }
    }
  }

  lemma FirstRounds(c: Config, st: State)
    requires Fits(c, st) && c.replicas >= 1
    ensures var (s1, success1) := Round(c, st, 0, 0);
            var (s2, success2) := Round(c, s1, 0, 1);
            Rounds(c, st, 0) == if success1 then s1 else if success2 then s2 else Rounds(c, s2, 2)
  {
    hide Round;
  }

  lemma {:induction false} RoundsGrowAll(c: Config, h0: seq<nat>, st: State, r: nat)
    requires Hashes(c, h0) && Fits(c, st) && |h0| == |st.hash|
    requires forall y :: 0 <= y < |h0| ==> st.hash[y] == h0[y] || st.hash[y] == c.servers
    ensures Grows(c, st, Rounds(c, st, r))
    decreases c.replicas + 1 - r
  {
    hide Round;
    if r <= c.replicas {
      RoundSettles(c, h0, st, 0, r);
      var (st1, success) := Round(c, st, 0, r);
      if !success {
        RoundsGrowAll(c, h0, st1, r + 1);
      }
    }
  }

  lemma ReachingComplete(c: Config, h0: seq<nat>)
    requires Hashes(c, h0) && h0 != []
    requires ReachesAll(c.servers, c.replicas, c.start) && Harmless(c.servers, c.replicas, |h0|)
    ensures Complete(c, h0, Send(c, h0))
  {
    if Rem(c.start, c.servers) == 0 {
      hide Rounds, Swept;
      RoundsUnshifted(c, Initial(c, h0), 0);
      SendComplete(c.(start := 0), h0);
      CompleteUnshifted(c, h0, Send(c, h0));
    } else if |h0| == 1 {
      hide Rounds, Target;
      assert h0 == [h0[0]];
      ShiftedTryAll(c, h0[0], Initial(c, h0), 0);
    } else {
      AtLeastTwo(c);
      TwoServers(c, h0);
    }
  }

  lemma AtLeastTwo(c: Config)
    requires c.servers > 0 && Rem(c.start, c.servers) != 0
    ensures c.servers >= 2 && c.start >= 1
  {
    hide Rem;
    if c.start == 0 {
      SmallMod(0, c.servers);
    }
  }

  lemma CompleteUnshifted(c: Config, h0: seq<nat>, st: State)
    requires c.Valid() && |st.dead| == c.servers && |st.hash| == |h0| && Complete(c.(start := 0), h0, st)
    ensures Complete(c, h0, st)
  {
    forall x, i | 0 <= x < |h0| && 0 <= i <= c.replicas && st.hash[x] != c.servers
      ensures st.dead[Target(c, h0[x], i)]
    {
      assert Target(c.(start := 0), h0[x], i) == Target(c, h0[x], i);
    }
  }

  // A start that does not reach all replicas, and no attempt ever succeeds.
  lemma UnreachedReplica(c: Config, h0: seq<nat>)
    requires c.Valid() && !ReachesAll(c.servers, c.replicas, c.start) && (forall k :: !c.ok(k))
    requires h0 != [] && forall x :: 0 <= x < |h0| ==> h0[x] == 0
    ensures !Complete(c, h0, Send(c, h0))
  {
    hide Rem, Rounds;
    var st := Initial(c, h0);
    AtLeastTwo(c);
    assert AllAt(st, 0);
    if c.replicas < c.servers {
      PrimaryUntouched(c, 0, st, 0);
      assert !Send(c, h0).dead[Target(c, h0[0], 0)];
    } else {
      LastSkipped(c, 0, st, 0);
      ModPlusN(c.replicas + 1 - c.servers, c.servers);
      assert !Send(c, h0).dead[Target(c, h0[0], c.replicas + 1 - c.servers)];
    }
  }

  // Every key is sent unless all its replicas failed, for all hashes and all failure patterns, exactly when
  // there is no key, or the start reaches all replicas and an early end loses nothing.
  lemma CompletenessExact(servers: nat, replicas: nat, keys: nat, randomize: bool, start: nat)
    requires servers > 0 && start <= replicas && (!randomize ==> start == 0)
    ensures keys == 0 || (ReachesAll(servers, replicas, start) && Harmless(servers, replicas, keys)) <==>
            forall c: Config, h0: seq<nat> ::
              (c.servers == servers && c.replicas == replicas && c.randomize == randomize && c.start == start
               && |h0| == keys && Hashes(c, h0)) ==> Complete(c, h0, Send(c, h0))
  {
    if keys == 0 || (ReachesAll(servers, replicas, start) && Harmless(servers, replicas, keys)) {
      forall c: Config, h0: seq<nat> |
        c.servers == servers && c.replicas == replicas && c.randomize == randomize && c.start == start
        && |h0| == keys && Hashes(c, h0)
        ensures Complete(c, h0, Send(c, h0))
      {
        if keys > 0 {
          ReachingComplete(c, h0);
        }
      }
    } else if ReachesAll(servers, replicas, start) {
      KeyLost(Config(servers, replicas, randomize, start, k => k >= 2), keys);
    } else {
      UnreachedReplica(Config(servers, replicas, randomize, start, k => false), seq(keys, _ => 0));
    }
  }

  // ---------------------------------------------------------------- which replica is tried when

  // The server for a key in a round: the randomized replicas from start on, then those a plain read would try.
  function Choice(c: Config, h: nat, round: nat): (s: nat)
    requires c.servers > 0
    ensures s < c.servers
  {
    (h + if c.randomize && round + c.start <= c.replicas then round + c.start else round) % c.servers
  }

  lemma ChoiceIsTarget(c: Config, h: nat, round: nat)
    requires c.servers > 0
    ensures Choice(c, h, round) == Target(c, h, c.Offset(round)) == Rem(h + c.Offset(round), c.servers)
  {
  }

  // An attempt on s among the first n failed; one for key x among them succeeded.
  ghost predicate FailedOn(log: seq<Attempt>, n: nat, s: nat) {
    exists j :: 0 <= j < n && j < |log| && !log[j].ok && log[j].server == s
  }

  ghost predicate Wrote(log: seq<Attempt>, x: nat) {
    exists j :: 0 <= j < |log| && log[j].ok && log[j].key == x
  }

  // Attempt k went to the first choice of its key that had not failed by then.
  ghost predicate InTurn(c: Config, h: nat, log: seq<Attempt>, k: nat)
    requires c.Valid() && k < |log|
  {
    exists r: nat :: r <= c.replicas && log[k].server == Choice(c, h, r)
                     && forall q: nat :: q < r ==> FailedOn(log, k, Choice(c, h, q))
  }

  // The attempts are those of the environment, each in its turn, and hash and dead_servers follow from them.
  ghost predicate Traced(c: Config, h0: seq<nat>, st: State) {
    && Fits(c, st) && |st.hash| == |h0|
    && (forall k :: 0 <= k < |st.log| ==>
          st.log[k].ok == c.ok(k) && st.log[k].key < |h0| && InTurn(c, h0[st.log[k].key], st.log, k))
    && (forall s :: 0 <= s < c.servers && st.dead[s] ==> FailedOn(st.log, |st.log|, s))
    && (forall x :: 0 <= x < |h0| ==> if st.hash[x] == c.servers then Wrote(st.log, x) else st.hash[x] == h0[x])
  }

  // Every choice of a key before round r failed, if it is still unsent.
  ghost predicate Tried(c: Config, h0: seq<nat>, st: State, x: nat, r: nat)
    requires Fits(c, st) && x < |st.hash| == |h0|
  {
    st.hash[x] != c.servers ==> forall q: nat :: q < r ==> st.dead[Choice(c, h0[x], q)]
  }

  lemma TracedAttempt(c: Config, h0: seq<nat>, st: State, x: nat, r: nat)
    requires Hashes(c, h0) && Traced(c, h0, st) && x < |h0| && r <= c.replicas && Tried(c, h0, st, x, r)
    requires st.hash[x] != c.servers && !st.dead[Choice(c, h0[x], r)]
    ensures var s, log := Choice(c, h0[x], r), st.log + [Attempt(x, Choice(c, h0[x], r), c.ok(|st.log|))];
            if c.ok(|st.log|) then Traced(c, h0, State(st.hash[x := c.servers], st.dead, log))
            else Traced(c, h0, State(st.hash, st.dead[s := true], log))
  {
    var s := Choice(c, h0[x], r);
    var a := Attempt(x, s, c.ok(|st.log|));
    var log := st.log + [a];
    assert log[|st.log|] == a;
    hide Choice;
    NowInTurn(c, h0, st, x, r, a);
    hide Tried;
    forall k | 0 <= k < |st.log|
      ensures InTurn(c, h0[st.log[k].key], log, k) && log[k] == st.log[k]
    {
      InTurnStill(c, h0[st.log[k].key], st.log, a, k);
    }
    hide InTurn;
    forall t: nat
      ensures FailedOn(log, |log|, t) <==> FailedOn(st.log, |st.log|, t) || (t == s && !a.ok)
      ensures Wrote(log, t) <==> Wrote(st.log, t) || (t == x && a.ok)
    {
      OneMore(st.log, a, t);
    }
    hide FailedOn, Wrote;
  }

  // The new attempt is the first choice that has not failed.
  lemma NowInTurn(c: Config, h0: seq<nat>, st: State, x: nat, r: nat, a: Attempt)
    requires Hashes(c, h0) && Traced(c, h0, st) && x < |h0| && r <= c.replicas && Tried(c, h0, st, x, r)
    requires st.hash[x] != c.servers && a.server == Choice(c, h0[x], r)
    ensures InTurn(c, h0[x], st.log + [a], |st.log|)
  {
    hide Choice, InTurn, Wrote, FailedOn;
    var log := st.log + [a];
    forall q: nat | q < r
      ensures FailedOn(log, |st.log|, Choice(c, h0[x], q))
    {
      FailedStill(st.log, a, |st.log|, Choice(c, h0[x], q));
    }
    TurnIs(c, h0[x], log, |st.log|, r);
  }

  lemma TurnIs(c: Config, h: nat, log: seq<Attempt>, k: nat, r: nat)
    requires c.Valid() && k < |log| && r <= c.replicas && log[k].server == Choice(c, h, r)
    requires forall q: nat :: q < r ==> FailedOn(log, k, Choice(c, h, q))
    ensures InTurn(c, h, log, k)
  {
    hide Choice, FailedOn;
  }

  lemma OneMore(log: seq<Attempt>, a: Attempt, t: nat)
    ensures FailedOn(log + [a], |log| + 1, t) <==> FailedOn(log, |log|, t) || (t == a.server && !a.ok)
    ensures Wrote(log + [a], t) <==> Wrote(log, t) || (t == a.key && a.ok)
  {
    var all := log + [a];
    assert all[|log|] == a && forall j :: 0 <= j < |log| ==> all[j] == log[j];
    if FailedOn(log, |log|, t) {
      FailedStill(log, a, |log|, t);
    }
    if Wrote(log, t) {
      var j :| 0 <= j < |log| && log[j].ok && log[j].key == t;
      assert all[j].ok && all[j].key == t;
    }
  }

  lemma FailedStill(log: seq<Attempt>, a: Attempt, n: nat, s: nat)
    requires FailedOn(log, n, s) && n <= |log|
    ensures FailedOn(log + [a], n, s) && FailedOn(log + [a], |log| + 1, s)
  {
    var j :| 0 <= j < n && j < |log| && !log[j].ok && log[j].server == s;
    assert (log + [a])[j] == log[j];
  }

  lemma InTurnStill(c: Config, h: nat, log: seq<Attempt>, a: Attempt, k: nat)
    requires c.Valid() && k < |log| && InTurn(c, h, log, k)
    ensures InTurn(c, h, log + [a], k)
  {
    hide Choice;
    var r: nat :| r <= c.replicas && log[k].server == Choice(c, h, r)
                  && forall q: nat :: q < r ==> FailedOn(log, k, Choice(c, h, q));
    forall q: nat | q < r
      ensures FailedOn(log + [a], k, Choice(c, h, q))
    {
      FailedStill(log, a, k, Choice(c, h, q));
    }
    assert (log + [a])[k] == log[k];
  }

  lemma TryKeyTraced(c: Config, h0: seq<nat>, st: State, x: nat, r: nat)
    requires Hashes(c, h0) && Traced(c, h0, st) && x < |h0| && r <= c.replicas && Tried(c, h0, st, x, r)
    ensures var (st1, success) := TryKey(c, st, x, r);
            Traced(c, h0, st1) && Grows(c, st, st1) && Tried(c, h0, st1, x, r + 1)
  {
    hide Choice, Rem, Target, InTurn, FailedOn, Wrote;
    ChoiceIsTarget(c, h0[x], r);
    if st.hash[x] != c.servers && !st.dead[Choice(c, h0[x], r)] {
      assert st.hash[x] == h0[x];
      TracedAttempt(c, h0, st, x, r);
    }
  }

  lemma TriedStill(c: Config, h0: seq<nat>, a: State, b: State, x: nat, r: nat)
    requires Fits(c, a) && Fits(c, b) && x < |a.hash| == |h0| && Grows(c, a, b) && Tried(c, h0, a, x, r)
    ensures Tried(c, h0, b, x, r)
  {
    hide Choice;
  }

  lemma {:induction false} RoundTraced(c: Config, h0: seq<nat>, st: State, x: nat, r: nat)
    requires Hashes(c, h0) && Traced(c, h0, st) && x <= |h0| && r <= c.replicas
    requires forall y :: x <= y < |h0| ==> Tried(c, h0, st, y, r)
    ensures var st1, next := Round(c, st, x, r).0, r + 1;
            Traced(c, h0, st1) && Grows(c, st, st1) && forall y :: x <= y < |h0| ==> Tried(c, h0, st1, y, next)
    decreases |h0| - x
  {
    hide TryKey, Tried, InTurn, FailedOn, Wrote;
    if x < |h0| {
      TryKeyTraced(c, h0, st, x, r);
      var st1 := TryKey(c, st, x, r).0;
      forall y | x < y < |h0|
        ensures Tried(c, h0, st1, y, r)
      {
        TriedStill(c, h0, st, st1, y, r);
      }
      RoundTraced(c, h0, st1, x + 1, r);
      TriedStill(c, h0, st1, Round(c, st1, x + 1, r).0, x, r + 1);
    }
  }

  lemma {:induction false} RoundsTraced(c: Config, h0: seq<nat>, st: State, r: nat)
    requires Hashes(c, h0) && Traced(c, h0, st) && forall y :: 0 <= y < |h0| ==> Tried(c, h0, st, y, r)
    ensures Traced(c, h0, Rounds(c, st, r))
    decreases c.replicas + 1 - r
  {
    hide Round, Tried, InTurn, FailedOn, Wrote;
    if r <= c.replicas {
      RoundTraced(c, h0, st, 0, r);
      RoundsTraced(c, h0, Round(c, st, 0, r).0, r + 1);
    }
  }

  // Over the attempts alone: each goes to the first choice of its key that has not failed, a key is marked sent
  // exactly when it was written, and a server dead exactly when it failed.
  lemma SendMeaning(c: Config, h0: seq<nat>)
    requires Hashes(c, h0)
    ensures var st := Send(c, h0);
            && (forall k :: 0 <= k < |st.log| ==>
                  st.log[k].ok == c.ok(k) && st.log[k].key < |h0| && InTurn(c, h0[st.log[k].key], st.log, k))
            && |st.hash| == |h0| && |st.dead| == c.servers
            && (forall x :: 0 <= x < |h0| ==> (st.hash[x] == c.servers <==> Wrote(st.log, x)))
            && (forall s :: 0 <= s < c.servers ==> (st.dead[s] <==> FailedOn(st.log, |st.log|, s)))
  {
    hide InTurn, Rounds, Placed, NoRepeats, Choice;
    RoundsTraced(c, h0, Initial(c, h0), 0);
    SendSafe(c, h0);
  }

  // The attempts come round by round, and in each round key by key: rounds says in which round each was made, to the
  // choice of its key in that round.
  ghost predicate InOrder(c: Config, h0: seq<nat>, log: seq<Attempt>, rounds: seq<nat>)
    requires c.servers > 0
  {
    && |rounds| == |log|
    && (forall k :: 0 <= k < |log| ==>
          rounds[k] <= c.replicas && log[k].key < |h0| && log[k].server == Choice(c, h0[log[k].key], rounds[k]))
    && forall i, j :: 0 <= i < j < |log| ==>
         rounds[i] < rounds[j] || (rounds[i] == rounds[j] && log[i].key < log[j].key)
  }

  // All attempts so far were made before key x in round r.
  ghost predicate Before(log: seq<Attempt>, rounds: seq<nat>, r: nat, x: nat) {
    |rounds| == |log|
    && forall k :: 0 <= k < |log| ==> rounds[k] < r || (rounds[k] == r && log[k].key < x)
  }

  ghost predicate Ordered(c: Config, h0: seq<nat>, st: State, rounds: seq<nat>, r: nat, x: nat) {
    && Fits(c, st) && |st.hash| == |h0|
    && (forall y :: 0 <= y < |h0| ==> st.hash[y] == h0[y] || st.hash[y] == c.servers)
    && InOrder(c, h0, st.log, rounds) && Before(st.log, rounds, r, x)
  }

  lemma TryKeyOrdered(c: Config, h0: seq<nat>, st: State, rounds: seq<nat>, r: nat, x: nat) returns (rounds': seq<nat>)
    requires Ordered(c, h0, st, rounds, r, x) && x < |h0| && r <= c.replicas
    ensures Ordered(c, h0, TryKey(c, st, x, r).0, rounds', r, x + 1)
  {
    hide Choice, Rem, InOrder, Before, Target;
    ChoiceIsTarget(c, h0[x], r);
    rounds' := rounds;
    BeforeKey(st.log, rounds, r, x);
    if st.hash[x] != c.servers && !st.dead[Choice(c, h0[x], r)] {
      rounds' := rounds + [r];
      OneMoreInOrder(c, h0, st.log, rounds, Attempt(x, Choice(c, h0[x], r), c.ok(|st.log|)), r);
    }
  }

  lemma BeforeKey(log: seq<Attempt>, rounds: seq<nat>, r: nat, x: nat)
    requires Before(log, rounds, r, x)
    ensures Before(log, rounds, r, x + 1)
  {
  }

  lemma OneMoreInOrder(c: Config, h0: seq<nat>, log: seq<Attempt>, rounds: seq<nat>, a: Attempt, r: nat)
    requires c.servers > 0 && InOrder(c, h0, log, rounds) && Before(log, rounds, r, a.key)
    requires a.key < |h0| && r <= c.replicas && a.server == Choice(c, h0[a.key], r)
    ensures InOrder(c, h0, log + [a], rounds + [r]) && Before(log + [a], rounds + [r], r, a.key + 1)
  {
    hide Choice;
  }

  lemma {:induction false} RoundOrdered(c: Config, h0: seq<nat>, st: State, rounds: seq<nat>, r: nat, x: nat)
    returns (rounds': seq<nat>)
    requires Ordered(c, h0, st, rounds, r, x) && x <= |h0| && r <= c.replicas
    ensures Ordered(c, h0, Round(c, st, x, r).0, rounds', r, |h0|)
    decreases |h0| - x
  {
    hide TryKey, InOrder, Before;
    rounds' := rounds;
    if x < |h0| {
      rounds' := TryKeyOrdered(c, h0, st, rounds, r, x);
      rounds' := RoundOrdered(c, h0, TryKey(c, st, x, r).0, rounds', r, x + 1);
    }
  }

  lemma {:induction false} RoundsOrdered(c: Config, h0: seq<nat>, st: State, rounds: seq<nat>, r: nat)
    returns (rounds': seq<nat>)
    requires Ordered(c, h0, st, rounds, r, 0)
    ensures Fits(c, st) && InOrder(c, h0, Rounds(c, st, r).log, rounds')
    decreases c.replicas + 1 - r
  {
    hide Round, InOrder, Before;
    rounds' := rounds;
    if r <= c.replicas {
      rounds' := RoundOrdered(c, h0, st, rounds, r, 0);
      var (st1, success) := Round(c, st, 0, r);
      if !success {
        BeforeNext(st1.log, rounds', r, |h0|);
        rounds' := RoundsOrdered(c, h0, st1, rounds', r + 1);
      }
    }
  }

  lemma BeforeNext(log: seq<Attempt>, rounds: seq<nat>, r: nat, x: nat)
    requires Before(log, rounds, r, x)
    ensures Before(log, rounds, r + 1, 0)
  {
  }

  lemma SendOrdered(c: Config, h0: seq<nat>) returns (rounds: seq<nat>)
    requires Hashes(c, h0)
    ensures InOrder(c, h0, Send(c, h0).log, rounds)
  {
    hide Rounds;
    rounds := RoundsOrdered(c, h0, Initial(c, h0), [], 0);
  }

  // Without failures every key is sent, to its first choice.
  lemma NoFailures(c: Config, h0: seq<nat>)
    requires Hashes(c, h0) && forall k :: c.ok(k)
    ensures var st := Send(c, h0);
            && (forall x :: 0 <= x < |h0| ==> st.hash[x] == c.servers)
            && forall k :: 0 <= k < |st.log| ==>
                 st.log[k].key < |h0| && st.log[k].server == Choice(c, h0[st.log[k].key], 0)
  {
    hide Rounds, Choice, Wrote, Round;
    SendMeaning(c, h0);
    var st := Send(c, h0);
    forall k | 0 <= k < |st.log|
      ensures st.log[k].server == Choice(c, h0[st.log[k].key], 0)
    {
      assert st.log[k].ok == c.ok(k);
      var h := h0[st.log[k].key];
      var r: nat :| r <= c.replicas && st.log[k].server == Choice(c, h, r)
                    && forall q: nat :: q < r ==> FailedOn(st.log, k, Choice(c, h, q));
      assert !FailedOn(st.log, k, Choice(c, h, 0));
    }
    FirstRound(c, h0);
  }

  lemma FirstRound(c: Config, h0: seq<nat>)
    requires Hashes(c, h0) && forall s :: 0 <= s < c.servers ==> !Send(c, h0).dead[s]
    ensures forall x :: 0 <= x < |h0| ==> Send(c, h0).hash[x] == c.servers
  {
    var st := Initial(c, h0);
    RoundSettles(c, h0, st, 0, 0);
    var (st1, success) := Round(c, st, 0, 0);
    if !success {
      RoundsGrowAll(c, h0, st1, 1);
    }
    hide Round, Rounds, Target;
  }

  // ---------------------------------------------------------------- the loops, on arrays

  // Successful attempts on a server.
  function Accepted(log: seq<Attempt>, s: nat): nat {
    if log == [] then 0
    else Accepted(log[..|log| - 1], s) + if log[|log| - 1].ok && log[|log| - 1].server == s then 1 else 0
  }

  // The purges inside the writes: heavy(k) says that the byte watermark is reached at one in the k-th
  // attempt, and read(k) how many replies they read there if one is due.
  datatype Purges = Purges(msgMark: nat, heavy: nat -> bool, read: nat -> nat)
  {
    function Read(k: nat, owed: nat): (r: nat)
      ensures r <= owed
    {
      var due := if heavy(k) then owed >= 2 else owed >= msgMark;
      if !due then 0 else if read(k) < owed then read(k) else owed
    }
  }

  // The replies a server still owes: one for each request it accepted, less those read by purges.
  function Owed(p: Purges, log: seq<Attempt>, s: nat): nat {
    if log == [] then 0
    else
      var before, a := Owed(p, log[..|log| - 1], s), log[|log| - 1];
      if a.ok && a.server == s then before - p.Read(|log| - 1, before) + 1 else before
  }

  lemma {:induction false} OwedAtMost(p: Purges, log: seq<Attempt>, s: nat)
    ensures Owed(p, log, s) <= Accepted(log, s)
  {
    if log != [] {
      OwedAtMost(p, log[..|log| - 1], s);
    }
  }

  // One more request to a server that owes n replies: below both watermarks, or with fewer than two replies past the
  // byte watermark, nothing is read; otherwise the purge reads its number of them, at most all.
  lemma OwedNext(p: Purges, log: seq<Attempt>, a: Attempt, s: nat)
    ensures var n, k, now := Owed(p, log, s), |log|, Owed(p, log + [a], s);
            if !a.ok || a.server != s then now == n
            else if (p.heavy(k) && n < 2) || (!p.heavy(k) && n < p.msgMark) then now == n + 1
            else now == n + 1 - (if p.read(k) <= n then p.read(k) else n)
  {
    assert (log + [a])[..|log|] == log;
  }

  // While both watermarks are unreached it owes one for each.
  lemma {:induction false} OwedExactly(p: Purges, log: seq<Attempt>, s: nat)
    requires Accepted(log, s) <= p.msgMark && forall k :: 0 <= k < |log| ==> !p.heavy(k)
    ensures Owed(p, log, s) == Accepted(log, s)
  {
    if log != [] {
      OwedExactly(p, log[..|log| - 1], s);
    }
  }

  // Response counters: a server that failed was reset, any other owes what was not yet read.
  ghost predicate Counted(p: Purges, st: State, responses: seq<nat>) {
    |responses| == |st.dead|
    && forall s :: 0 <= s < |st.dead| ==> responses[s] == if st.dead[s] then 0 else Owed(p, st.log, s)
  }

  method SendKeys(c: Config, p: Purges, hash: array<nat>, dead: array<bool>, responses: array<nat>)
    returns (ghost log: seq<Attempt>)
    requires Hashes(c, hash[..]) && dead.Length == responses.Length == c.servers && hash != responses
    requires forall s :: 0 <= s < c.servers ==> !dead[s] && responses[s] == 0
    modifies hash, dead, responses
    ensures State(hash[..], dead[..], log) == Send(c, old(hash[..]))
    ensures Counted(p, State(hash[..], dead[..], log), responses[..])
  {
    hide Round, Counted;
    ghost var init := State(hash[..], dead[..], []);
    assert init == Initial(c, hash[..]);
    assert Counted(p, init, responses[..]) by { CountedInitially(p, init, responses[..]); }
    log := [];
    var attempts, replica := 0, 0;
    while replica <= c.replicas
      invariant Fits(c, State(hash[..], dead[..], log)) && attempts == |log|
      invariant Rounds(c, State(hash[..], dead[..], log), replica) == Rounds(c, init, 0)
      invariant Counted(p, State(hash[..], dead[..], log), responses[..])
    {
      var success: bool;
      log, attempts, success := SendRound(c, p, hash, dead, responses, replica, attempts, log);
      if success {
        break;
      }
      replica := replica + 1;
    }
  }

  lemma CountedInitially(p: Purges, st: State, responses: seq<nat>)
    requires st.log == [] && |responses| == |st.dead| && forall s :: 0 <= s < |st.dead| ==> responses[s] == 0
    ensures Counted(p, st, responses)
  {
  }

  // One pass over the keys.
  method SendRound(c: Config, p: Purges, hash: array<nat>, dead: array<bool>, responses: array<nat>,
                   replica: nat, attempts0: nat, ghost log0: seq<Attempt>)
    returns (ghost log: seq<Attempt>, attempts: nat, success: bool)
    requires Fits(c, State(hash[..], dead[..], log0)) && attempts0 == |log0|
    requires hash != responses && Counted(p, State(hash[..], dead[..], log0), responses[..])
    modifies hash, dead, responses
    ensures Fits(c, State(hash[..], dead[..], log)) && attempts == |log|
    ensures (State(hash[..], dead[..], log), success) == Round(c, State(old(hash[..]), old(dead[..]), log0), 0, replica)
    ensures Counted(p, State(hash[..], dead[..], log), responses[..])
  {
    hide Counted, TryKey;
    ghost var first := State(hash[..], dead[..], log0);
    log, attempts, success := log0, attempts0, true;
    for x := 0 to hash.Length
      invariant Fits(c, State(hash[..], dead[..], log)) && attempts == |log|
      invariant Counted(p, State(hash[..], dead[..], log), responses[..])
      invariant var (r, rest) := Round(c, State(hash[..], dead[..], log), x, replica);
                (r, success && rest) == Round(c, first, 0, replica)
    {
      var sent: bool;
      log, attempts, sent := SendKey(c, p, hash, dead, responses, x, replica, attempts, log);
      success := success && sent;
    }
  }

  // One key in one round.
  method SendKey(c: Config, p: Purges, hash: array<nat>, dead: array<bool>, responses: array<nat>,
                 x: nat, replica: nat, attempts0: nat, ghost log0: seq<Attempt>)
    returns (ghost log: seq<Attempt>, attempts: nat, success: bool)
    requires Fits(c, State(hash[..], dead[..], log0)) && attempts0 == |log0| && x < hash.Length
    requires hash != responses && Counted(p, State(hash[..], dead[..], log0), responses[..])
    modifies hash, dead, responses
    ensures Fits(c, State(hash[..], dead[..], log)) && attempts == |log|
    ensures (State(hash[..], dead[..], log), success)
            == TryKey(c, State(old(hash[..]), old(dead[..]), log0), x, replica)
    ensures Counted(p, State(hash[..], dead[..], log), responses[..])
  {
    log, attempts, success := log0, attempts0, true;
    if hash[x] == c.servers {
      return;
    }
    var server := ServerFor(c, hash[x], replica);
    if dead[server] {
      return;
    }
    attempts := attempts + 1;
    if !c.ok(attempts0) {
      responses[server] := 0;
      dead[server] := true;
      success := false;
    } else {
      responses[server] := responses[server] - p.Read(attempts0, responses[server]) + 1;
      hash[x] := c.servers;
    }
    log := log + [Attempt(x, server, success)];
    assert log[..|log| - 1] == log0;
  }

  // The server a key is offered to in a round.
  method ServerFor(c: Config, h: nat, replica: nat) returns (server: nat)
    requires c.Valid()
    ensures server == Rem(h + c.Offset(replica), c.servers)
  {
    hide Rem;
    server := h + replica;
    if c.randomize && server + c.start <= h + c.replicas {
      server := server + c.start;
    }
    while server >= c.servers
      invariant Rem(server, c.servers) == Rem(h + c.Offset(replica), c.servers)
    {
      ModPlusN(server - c.servers, c.servers);
      server := server - c.servers;
    }
    SmallMod(server, c.servers);
  }
}
