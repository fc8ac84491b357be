// What the example server's commands do to its store, and what compare-and-swap guarantees over any
// run of them.  example/interface_v0.cc and example/interface_v1.cc implement these (module Handlers).
module Commands {
  import opened Octets
  import opened Storage

  // The two callback interfaces; they differ in delete, flush and the flags of counters.
  datatype Api = V0 | V1

  datatype Status = Success | NotFound | Exists | NoMemory

  datatype Request =
    | Get(key: Bytes)
    | Set(key: Bytes, data: Bytes, flags: nat, exp: nat, cas: nat)
    | Add(key: Bytes, data: Bytes, flags: nat, exp: nat)
    | Replace(key: Bytes, data: Bytes, flags: nat, exp: nat, cas: nat)
    | Concat(append: bool, key: Bytes, data: Bytes, cas: nat)
    | Arithmetic(increment: bool, key: Bytes, delta: nat, initial: nat, exp: nat)
    | Delete(key: Bytes, cas: nat)
    | Flush

  datatype Db = Db(items: map<Bytes, Item>, cas: nat)

  // ---------------------------------------------------------------- counters

  const VALUE_MODULUS: nat := 0x1_0000_0000_0000_0000

  // A 64-bit value in memory, low byte first.
  function Encode(v: nat, n: nat): (b: Bytes)
    ensures |b| == n
  {
    if n == 0 then [] else [v % 0x100] + Encode(v / 0x100, n - 1)
  }

  function Decode(b: Bytes): nat {
    if b == [] then 0 else b[0] + 0x100 * Decode(b[1..])
  }

  function Power(n: nat): nat {
    if n == 0 then 1 else 0x100 * Power(n - 1)
  }

  lemma {:induction false} DecodeEncode(v: nat, n: nat)
    requires v < Power(n)
    ensures Decode(Encode(v, n)) == v
  {
    if n > 0 {
      DecodeEncode(v / 0x100, n - 1);
      assert Encode(v, n)[1..] == Encode(v / 0x100, n - 1);
    }
  }

  // Addition wraps around; subtraction stops at zero.
  function Count(increment: bool, value: nat, delta: nat): nat {
    if increment then (value + delta) % VALUE_MODULUS else if delta > value then 0 else value - delta
  }

  // ---------------------------------------------------------------- one command

  // The source reads eight bytes of a counter's data.
  predicate Admissible(db: Db, req: Request) {
    match req
    case Arithmetic(_, key, delta, initial, _) =>
      && (key in db.items ==> |db.items[key].data| >= 8)
      && delta < 0x1_0000_0000_0000_0000 && initial < 0x1_0000_0000_0000_0000
    case _ => true
  }

  function Put(db: Db, key: Bytes, data: Bytes, flags: nat, exp: nat): Db {
    var cas := (db.cas + 1) % CAS_MODULUS;
    Db(db.items[key := Item(cas, key, data, flags, exp)], cas)
  }

  function Drop(db: Db, key: Bytes): Db {
    Db(db.items - {key}, db.cas)
  }

  function NewValue(db: Db, req: Request): nat
    requires req.Arithmetic? && Admissible(db, req)
  {
    if req.key in db.items then Count(req.increment, Decode(db.items[req.key].data[..8]), req.delta) else req.initial
  }

  // alloc says whether create_item delivers.  Commands that delete before they create lose the item
  // when it does not.
  function Step(api: Api, db: Db, req: Request, alloc: bool): (Db, Status)
    requires Admissible(db, req)
  {
    match req
    case Get(key) =>
      (db, if key in db.items then Success else NotFound)
    case Set(key, data, flags, exp, cas) =>
      if cas != 0 && key in db.items && db.items[key].cas != cas then (db, Exists)
      else if alloc then (Put(db, key, data, flags, exp), Success)
      else (Drop(db, key), NoMemory)
    case Add(key, data, flags, exp) =>
      if key in db.items then (db, Exists)
      else if alloc then (Put(db, key, data, flags, exp), Success)
      else (db, NoMemory)
    case Replace(key, data, flags, exp, cas) =>
      if key !in db.items then (db, NotFound)
      else if cas != 0 && db.items[key].cas != cas then (db, Exists)
      else if alloc then (Put(db, key, data, flags, exp), Success)
      else (Drop(db, key), NoMemory)
    case Concat(append, key, data, cas) =>
      if key !in db.items then (db, NotFound)
      else if cas != 0 && db.items[key].cas != cas then (db, Exists)
      else if !alloc then (db, NoMemory)
      else
        var it := db.items[key];
        (Put(db, key, if append then it.data + data else data + it.data, it.flags, it.exp), Success)
    case Arithmetic(_, key, _, _, exp) =>
      if !alloc then (Drop(db, key), NoMemory)
      else
        var flags := if api == V0 && key in db.items then db.items[key].flags else 0;
        var expiration := if key in db.items then db.items[key].exp % 0x1_0000_0000 else exp;
        (Put(db, key, Encode(NewValue(db, req), 8), flags, expiration), Success)
    case Delete(key, cas) =>
      if api == V1 && cas != 0 && key in db.items && db.items[key].cas != cas then (db, Exists)
      else (Drop(db, key), if key in db.items then Success else NotFound)
    case Flush =>
      (if api == V0 then Db(map[], db.cas) else db, Success)
  }

  // Every command either only removes items or stores one new item under a new token.
  ghost predicate OnlyRemoves(a: Db, b: Db) {
    b.cas == a.cas && forall k :: k in b.items ==> k in a.items && b.items[k] == a.items[k]
  }

  ghost predicate Stores(a: Db, b: Db, key: Bytes) {
    && b.cas == (a.cas + 1) % 0x1_0000_0000_0000_0000
    && key in b.items && b.items[key].key == key && b.items[key].cas == b.cas
    && forall k :: k in b.items && k != key ==> k in a.items && b.items[k] == a.items[k]
  }

  lemma StepShape(api: Api, db: Db, req: Request, alloc: bool)
    requires Admissible(db, req)
    ensures var db' := Step(api, db, req, alloc).0;
            OnlyRemoves(db, db') || (!req.Flush? && Stores(db, db', req.key))
  {
    hide Encode, NewValue;
  }

  // What a command is asked to store: the given data, the old data followed or preceded by it, or the new
  // count, with flags and expiration given or kept.
  predicate AsAsked(api: Api, db: Db, req: Request, it: Item)
    requires Admissible(db, req)
  {
    match req
    case Set(_, data, flags, exp, _) => it.data == data && it.flags == flags && it.exp == exp
    case Add(key, data, flags, exp) => it.data == data && it.flags == flags && it.exp == exp && key !in db.items
    case Replace(key, data, flags, exp, _) => it.data == data && it.flags == flags && it.exp == exp && key in db.items
    case Concat(append, key, data, _) =>
      && key in db.items && it.flags == db.items[key].flags && it.exp == db.items[key].exp
      && var was := db.items[key].data;
         var (first, second) := if append then (was, data) else (data, was);
         first <= it.data && it.data[|first|..] == second
    case Arithmetic(_, key, _, _, exp) =>
      && |it.data| == 8 && Counts(db, req, Decode(it.data))
      && (if key in db.items
          then it.exp == db.items[key].exp % 0x1_0000_0000 && it.flags == if api == V0 then db.items[key].flags else 0
          else it.exp == exp && it.flags == 0)
    case _ => false
  }

  // Helper for StoreReadBack: reads the cases of Step off the item it leaves.
  lemma StoredItem(api: Api, db: Db, req: Request, alloc: bool)
    requires Admissible(db, req) && !req.Flush? && Stores(db, Step(api, db, req, alloc).0, req.key)
    ensures AsAsked(api, db, req, Step(api, db, req, alloc).0.items[req.key])
  {
    hide Encode, Decode, NewValue, Counts;
    if req.Arithmetic? && alloc {
      CounterStored(api, db, req);
      CountMeaning(db, req);
    }
  }

  // The commands that lose an item: they delete it before they find no memory for the new one.
  predicate Loses(db: Db, req: Request, alloc: bool) {
    && !alloc && !req.Flush? && req.key in db.items
    && (req.Arithmetic? || ((req.Set? || req.Replace?) && (req.cas == 0 || req.cas == db.items[req.key].cas)))
  }

  // A command that fails changes nothing, unless it is one of these; then it costs the old item.
  lemma FailureEffect(api: Api, db: Db, req: Request, alloc: bool)
    requires Admissible(db, req)
    ensures var (db', status) := Step(api, db, req, alloc);
            (status != Success && db' != db <==> Loses(db, req, alloc))
            && (Loses(db, req, alloc) ==> db' == Drop(db, req.key))
  {
    if !req.Flush? && req.key !in db.items {
      assert db.items - {req.key} == db.items;
    }
    if !req.Flush? && req.key in db.items {
      assert req.key !in db.items - {req.key};
    }
  }

  // The token of a request, zero for those that carry none.
  function Token(req: Request): nat {
    if req.Set? || req.Replace? || req.Concat? || req.Delete? then req.cas else 0
  }

  // The key is there, with another token than the one given.
  predicate Mismatch(api: Api, db: Db, req: Request) {
    && !req.Flush? && req.key in db.items && Token(req) != 0 && Token(req) != db.items[req.key].cas
    && !(api == V0 && req.Delete?)
  }

  // Which answer is given, said of the inputs: a missing item first, then one that is in the way, then memory.
  lemma Answer(api: Api, db: Db, req: Request, alloc: bool)
    requires Admissible(db, req)
    ensures var status := Step(api, db, req, alloc).1;
            var there := !req.Flush? && req.key in db.items;
            var creates := req.Set? || req.Add? || req.Replace? || req.Concat? || req.Arithmetic?;
            && (status == NotFound <==> !there && (req.Get? || req.Replace? || req.Concat? || req.Delete?))
            && (status == Exists <==> (there && req.Add?) || Mismatch(api, db, req))
            && (status == NoMemory <==> creates && !alloc && status != NotFound && status != Exists)
  {
    hide Encode, NewValue;
  }

  // What a command that succeeds has done: stored what it was asked to under the next token, removed its key, or
  // emptied the store, and nothing else.
  lemma Effect(api: Api, db: Db, req: Request, alloc: bool)
    requires Admissible(db, req) && Step(api, db, req, alloc).1 == Success
    ensures var db' := Step(api, db, req, alloc).0;
            match req
            case Get(_) => db' == db
            case Delete(key, _) => db' == Db(db.items - {key}, db.cas)
            case Flush => db' == if api == V0 then Db(map[], db.cas) else db
            case _ =>
              && Stores(db, db', req.key) && AsAsked(api, db, req, db'.items[req.key])
              && (db.cas < 0xffff_ffff_ffff_ffff ==> db'.items[req.key].cas == db'.cas == db.cas + 1)
              && forall k :: k in db.items && k != req.key ==> k in db'.items
  {
    hide Encode, NewValue, AsAsked;
    if !req.Flush? && !req.Get? && !req.Delete? {
      StoredItem(api, db, req, alloc);
    }
  }

  // What counting leaves, in numbers below 2^64: the sum or what is left of it after a wrap-around, the difference
  // or zero when there is none, the initial value for a key that is not there.
  predicate Counts(db: Db, req: Request, v: nat)
    requires req.Arithmetic? && Admissible(db, req)
  {
    v < 0x1_0000_0000_0000_0000
    && if req.key !in db.items then v == req.initial
       else
         var was := Decode(db.items[req.key].data[..8]);
         if req.increment then v == was + req.delta || v + 0x1_0000_0000_0000_0000 == was + req.delta
         else v + req.delta == was || (v == 0 && was < req.delta)
  }

  lemma CountMeaning(db: Db, req: Request)
    requires req.Arithmetic? && Admissible(db, req)
    ensures NewValue(db, req) < VALUE_MODULUS && Counts(db, req, NewValue(db, req))
  {
    hide Decode;
    PowerOfEight();
    if req.key in db.items {
      DecodeBound(db.items[req.key].data[..8]);
    }
  }

  lemma PowerOfEight()
    ensures Power(8) == VALUE_MODULUS
  {
    assert Power(4) == 0x1_0000_0000;
  }

  // The eight bytes of the new item are the new count.
  lemma CounterStored(api: Api, db: Db, req: Request)
    requires req.Arithmetic? && Admissible(db, req)
    ensures var it := Step(api, db, req, true).0.items[req.key];
            |it.data| == 8 && Decode(it.data) == NewValue(db, req) && Counts(db, req, Decode(it.data))
  {
    hide Decode, Counts;
    PowerOfEight();
    CountMeaning(db, req);
    DecodeEncode(NewValue(db, req), 8);
  }

  // Byte i of a counter is digit i of its value to the base 256.
  lemma {:induction false} DecodeMeaning(b: Bytes, i: nat)
    requires i < |b|
    ensures Power(i) > 0 && Decode(b) / Power(i) % 0x100 == b[i]
    decreases i
  {
    if i > 0 {
      DecodeMeaning(b[1..], i - 1);
      DigitsAbove(b[0], Decode(b[1..]), Power(i - 1));
    }
  }

  lemma DigitsAbove(x: nat, d: nat, p: nat)
    requires x < 0x100 && p > 0
    ensures (x + 0x100 * d) / (0x100 * p) == d / p
  {
    var q, r := d / p, d % p;
    Quotient(x + 0x100 * d, 0x100 * p, q, x + 0x100 * r);
  }

  lemma Quotient(n: nat, m: nat, q: nat, r: nat)
    requires r < m && n == m * q + r
    ensures n / m == q
  {
    var e := n / m - q;
    assert m * e == r - n % m;
    assert e >= 1 ==> m * e >= m;
    assert e <= -1 ==> m * e + m <= 0;
  }

  lemma {:induction false} DecodeBound(b: Bytes)
    ensures Decode(b) < Power(|b|)
  {
    if b != [] {
      DecodeBound(b[1..]);
    }
  }

  // ---------------------------------------------------------------- runs

  // The store with every item ever stored, in order.
  datatype World = World(db: Db, history: seq<Item>)

  datatype Call = Call(api: Api, req: Request, alloc: bool)

  function Next(w: World, c: Call): World
    requires Admissible(w.db, c.req)
  {
    var db := Step(c.api, w.db, c.req, c.alloc).0;
    World(db, if db.cas == w.db.cas then w.history else w.history + [db.items[c.req.key]])
  }

  // Tokens count the stores: token i + 1 was given to history[i] alone.  What is in the store is
  // unaltered since it was stored.
  ghost predicate Consistent(w: World) {
    && |w.history| == w.db.cas < 0x1_0000_0000_0000_0000
    && (forall i :: 0 <= i < |w.history| ==> w.history[i].cas == i + 1)
    && (forall key :: key in w.db.items ==>
          var it := w.db.items[key];
          it.key == key && 0 < it.cas <= |w.history| && w.history[it.cas - 1] == it)
  }

  ghost predicate IsStore(w: World, c: Call)
    requires Admissible(w.db, c.req)
  {
    Step(c.api, w.db, c.req, c.alloc).0.cas != w.db.cas
  }

  ghost predicate NoWrap(w: World, c: Call)
    requires Admissible(w.db, c.req)
  {
    IsStore(w, c) ==> w.db.cas + 1 < 0x1_0000_0000_0000_0000
  }

  lemma NextConsistent(w: World, c: Call)
    requires Consistent(w) && Admissible(w.db, c.req) && NoWrap(w, c)
    ensures Consistent(Next(w, c))
    ensures w.history <= Next(w, c).history
    ensures Next(w, c).db.cas == w.db.cas + if IsStore(w, c) then 1 else 0
  {
    hide Step, OnlyRemoves, Stores;
    StepShape(c.api, w.db, c.req, c.alloc);
    var db := Step(c.api, w.db, c.req, c.alloc).0;
    if OnlyRemoves(w.db, db) {
      RemovalConsistent(w, db);
    } else {
      StoreConsistent(w, db, c.req.key);
    }
  }

  lemma RemovalConsistent(w: World, db: Db)
    requires Consistent(w) && OnlyRemoves(w.db, db)
    ensures db.cas == w.db.cas && Consistent(World(db, w.history))
  {
  }

  lemma StoreConsistent(w: World, db: Db, key: Bytes)
    requires Consistent(w) && Stores(w.db, db, key)
    ensures key in db.items && db.cas == (w.db.cas + 1) % 0x1_0000_0000_0000_0000 != w.db.cas
    ensures w.db.cas + 1 < 0x1_0000_0000_0000_0000 ==>
              db.cas == w.db.cas + 1 && Consistent(World(db, w.history + [db.items[key]]))
  {
  }

  // Different keys never hold the same token.
  lemma TokensDistinct(w: World, j: Bytes, k: Bytes)
    requires Consistent(w) && j in w.db.items && k in w.db.items && j != k
    ensures w.db.items[j].cas != w.db.items[k].cas
  {
  }

  // ---------------------------------------------------------------- compare-and-swap

  // The commands whose token is a condition on the very item that was given it.  Set is one while its key is
  // there.
  predicate Swaps(w: World, c: Call, token: nat) {
    token != 0
    && match c.req
       case Set(key, _, _, _, cas) => cas == token && key in w.db.items
       case Replace(_, _, _, _, cas) => cas == token
       case Concat(_, _, _, cas) => cas == token
       case Delete(_, cas) => c.api == V1 && cas == token
       case _ => false
  }

  ghost predicate Succeeds(w: World, c: Call)
    requires Admissible(w.db, c.req)
  {
    Step(c.api, w.db, c.req, c.alloc).1 == Success
  }

  // The token has been issued and its item is gone.
  ghost predicate Spent(w: World, token: nat) {
    token <= w.db.cas && forall key :: key in w.db.items ==> w.db.items[key].cas != token
  }

  // A swap succeeds only on the item that was given its token, and spends the token.
  lemma SwapIsExact(w: World, c: Call, token: nat)
    requires Consistent(w) && Admissible(w.db, c.req) && NoWrap(w, c)
    requires Swaps(w, c, token) && Succeeds(w, c)
    ensures token <= |w.history| && c.req.key in w.db.items
    ensures w.db.items[c.req.key] == w.history[token - 1] && w.history[token - 1].key == c.req.key
    ensures Spent(Next(w, c), token)
  {
    hide Step, Admissible, Consistent;
    SwapStep(w, c, token);
    var key := c.req.key;
    GivenTo(w, key);
    StepShape(c.api, w.db, c.req, c.alloc);
    forall k | k in w.db.items && k != key
      ensures w.db.items[k].cas != token
    {
      TokensDistinct(w, k, key);
    }
  }

  // With memory at hand a swap succeeds exactly on an item that has its token.
  lemma SwapSucceeds(w: World, c: Call, token: nat)
    requires Admissible(w.db, c.req) && Swaps(w, c, token) && (c.alloc || c.req.Delete?)
    ensures Succeeds(w, c) <==> c.req.key in w.db.items && w.db.items[c.req.key].cas == token
  {
    hide Step;
    Answer(c.api, w.db, c.req, c.alloc);
  }

  lemma SwapStep(w: World, c: Call, token: nat)
    requires Admissible(w.db, c.req) && Swaps(w, c, token) && Succeeds(w, c)
    ensures var db := Step(c.api, w.db, c.req, c.alloc).0;
            && c.req.key in w.db.items && w.db.items[c.req.key].cas == token
            && (c.req.key in db.items ==> db.items[c.req.key].cas == db.cas == (w.db.cas + 1) % 0x1_0000_0000_0000_0000)
  {
    hide Encode, NewValue;
  }

  lemma GivenTo(w: World, key: Bytes)
    requires Consistent(w) && key in w.db.items
    ensures var it := w.db.items[key];
            it.key == key && 0 < it.cas <= |w.history| == w.db.cas && w.history[it.cas - 1] == it
  {
  }

  lemma SpentStays(w: World, c: Call, token: nat)
    requires Consistent(w) && Admissible(w.db, c.req) && NoWrap(w, c)
    requires Spent(w, token)
    ensures Spent(Next(w, c), token)
    ensures Swaps(w, c, token) ==> !Succeeds(w, c)
  {
    hide Encode, NewValue, Put;
    StepShape(c.api, w.db, c.req, c.alloc);
  }

  // A run from a world: every command admissible, and the outcomes in order.
  ghost predicate Runs(w: World, calls: seq<Call>)
    decreases |calls|
  {
    calls == [] || (Admissible(w.db, calls[0].req) && Runs(Next(w, calls[0]), calls[1..]))
  }

  ghost function AfterRun(w: World, calls: seq<Call>): World
    requires Runs(w, calls)
    decreases |calls|
  {
    if calls == [] then w else AfterRun(Next(w, calls[0]), calls[1..])
  }

  ghost function StoreCount(w: World, calls: seq<Call>): nat
    requires Runs(w, calls)
    decreases |calls|
  {
    if calls == [] then 0
    else StoreCount(Next(w, calls[0]), calls[1..]) + if IsStore(w, calls[0]) then 1 else 0
  }

  lemma {:induction false} RunConsistent(w: World, calls: seq<Call>)
    requires Consistent(w) && Runs(w, calls) && w.db.cas + StoreCount(w, calls) < 0x1_0000_0000_0000_0000
    ensures Consistent(AfterRun(w, calls)) && w.history <= AfterRun(w, calls).history
    ensures AfterRun(w, calls).db.cas == w.db.cas + StoreCount(w, calls)
    decreases |calls|
  {
    if calls != [] {
      hide Step;
      NextConsistent(w, calls[0]);
      RunConsistent(Next(w, calls[0]), calls[1..]);
    }
  }

  // How many swaps with a token succeed in a run.
  ghost function Successes(w: World, calls: seq<Call>, token: nat): nat
    requires Runs(w, calls)
    decreases |calls|
  {
    if calls == [] then 0
    else Successes(Next(w, calls[0]), calls[1..], token)
         + if Swaps(w, calls[0], token) && Succeeds(w, calls[0]) then 1 else 0
  }

  lemma {:induction false} NoneOnceSpent(w: World, calls: seq<Call>, token: nat)
    requires Consistent(w) && Runs(w, calls) && w.db.cas + StoreCount(w, calls) < 0x1_0000_0000_0000_0000
    requires Spent(w, token)
    ensures Successes(w, calls, token) == 0
    decreases |calls|
  {
    if calls != [] {
      hide Step;
      NextConsistent(w, calls[0]);
      SpentStays(w, calls[0], token);
      NoneOnceSpent(Next(w, calls[0]), calls[1..], token);
    }
  }

  // No lost update: in any run of fewer than 2^64 - 1 stores, at most one swap per token succeeds.
  lemma {:induction false} AtMostOneSwap(w: World, calls: seq<Call>, token: nat)
    requires Consistent(w) && Runs(w, calls) && w.db.cas + StoreCount(w, calls) < 0x1_0000_0000_0000_0000
    ensures Successes(w, calls, token) <= 1
    decreases |calls|
  {
    if calls != [] {
      hide Step;
      NextConsistent(w, calls[0]);
      if Swaps(w, calls[0], token) && Succeeds(w, calls[0]) {
        SwapIsExact(w, calls[0], token);
        NoneOnceSpent(Next(w, calls[0]), calls[1..], token);
      } else {
        AtMostOneSwap(Next(w, calls[0]), calls[1..], token);
      }
    }
  }

  // What each command of a run answers.
  ghost function Outcomes(w: World, calls: seq<Call>): (s: seq<Status>)
    requires Runs(w, calls)
    ensures |s| == |calls|
    decreases |calls|
  {
    if calls == [] then []
    else [Step(calls[0].api, w.db, calls[0].req, calls[0].alloc).1] + Outcomes(Next(w, calls[0]), calls[1..])
  }

  // Command i of a run is a swap with the token when its turn comes.
  ghost predicate SwapsAt(w: World, calls: seq<Call>, i: nat, token: nat)
    requires Runs(w, calls) && i < |calls|
    decreases |calls|
  {
    if i == 0 then Swaps(w, calls[0], token) else SwapsAt(Next(w, calls[0]), calls[1..], i - 1, token)
  }

  lemma {:induction false} SpentFails(w: World, calls: seq<Call>, token: nat, j: nat)
    requires Consistent(w) && Runs(w, calls) && w.db.cas + StoreCount(w, calls) < 0x1_0000_0000_0000_0000
    requires Spent(w, token) && j < |calls| && SwapsAt(w, calls, j, token)
    ensures Outcomes(w, calls)[j] != Success
    decreases |calls|
  {
    hide Step, Consistent, Spent, Swaps, Admissible, Next, IsStore;
    NextConsistent(w, calls[0]);
    SpentStays(w, calls[0], token);
    if j > 0 {
      SpentFails(Next(w, calls[0]), calls[1..], token, j - 1);
    }
  }

  // Of two swaps with one token in a run, the later one fails if the earlier one succeeded.
  lemma {:induction false} OneWinner(w: World, calls: seq<Call>, token: nat, i: nat, j: nat)
    requires Consistent(w) && Runs(w, calls) && w.db.cas + StoreCount(w, calls) < 0x1_0000_0000_0000_0000
    requires i < j < |calls| && SwapsAt(w, calls, i, token) && SwapsAt(w, calls, j, token)
    ensures Outcomes(w, calls)[i] == Success ==> Outcomes(w, calls)[j] != Success
    decreases |calls|
  {
    hide Step, Consistent, Spent, Swaps, Admissible, Next, IsStore;
    NextConsistent(w, calls[0]);
    if i > 0 {
      OneWinner(Next(w, calls[0]), calls[1..], token, i - 1, j - 1);
    } else if Outcomes(w, calls)[0] == Success {
      SwapIsExact(w, calls[0], token);
      SpentFails(Next(w, calls[0]), calls[1..], token, j - 1);
    }
  }

  // The first command of a run.
  lemma RunUnfold(w: World, calls: seq<Call>)
    requires Runs(w, calls)
    ensures calls == [] ==> AfterRun(w, calls) == w && Outcomes(w, calls) == []
    ensures calls != [] ==>
              && Admissible(w.db, calls[0].req)
              && var (db, status) := Step(calls[0].api, w.db, calls[0].req, calls[0].alloc);
                 var w' := Next(w, calls[0]);
                 && w'.db == db && Runs(w', calls[1..]) && AfterRun(w, calls) == AfterRun(w', calls[1..])
                 && Outcomes(w, calls) == [status] + Outcomes(w', calls[1..])
  {
  }

  // A command that can touch what is stored under key.
  predicate Touches(c: Call, key: Bytes) {
    if c.req.Flush? then c.api == V0 else !c.req.Get? && c.req.key == key
  }

  // What a command stores under a key can be read back after any run of commands that do not touch it.
  lemma {:induction false} ReadBack(w: World, calls: seq<Call>, key: Bytes)
    requires Runs(w, calls) && forall i :: 0 <= i < |calls| ==> !Touches(calls[i], key)
    ensures var items := AfterRun(w, calls).db.items;
            (key in items <==> key in w.db.items) && (key in items ==> items[key] == w.db.items[key])
    decreases |calls|
  {
    if calls != [] {
      OtherKeyKept(w, calls[0], key);
      hide Step;
      ReadBack(Next(w, calls[0]), calls[1..], key);
    }
  }

  // What a command stored can be read as it was asked for, after any run of commands that do not touch it.
  lemma StoreReadBack(w: World, c: Call, calls: seq<Call>)
    requires Admissible(w.db, c.req) && !c.req.Flush? && Stores(w.db, Next(w, c).db, c.req.key)
    requires Runs(Next(w, c), calls) && forall i :: 0 <= i < |calls| ==> !Touches(calls[i], c.req.key)
    ensures var db := AfterRun(Next(w, c), calls).db;
            && c.req.key in db.items && AsAsked(c.api, w.db, c.req, db.items[c.req.key])
            && forall api, alloc :: Step(api, db, Get(c.req.key), alloc) == (db, Success)
  {
    hide AsAsked, Admissible, Runs, AfterRun, Touches;
    StoredItem(c.api, w.db, c.req, c.alloc);
    ReadBack(Next(w, c), calls, c.req.key);
  }

  lemma OtherKeyKept(w: World, c: Call, key: Bytes)
    requires Admissible(w.db, c.req) && !Touches(c, key)
    ensures var items := Next(w, c).db.items;
            (key in items <==> key in w.db.items) && (key in items ==> items[key] == w.db.items[key])
  {
    hide Encode, NewValue;
  }

  // A token read from an item is good after any run, for a swap with memory at hand, exactly while that very item
  // is there; so always after a run that does not touch its key.
  lemma FreshTokenWins(w: World, calls: seq<Call>, c: Call, key: Bytes)
    requires Consistent(w) && Runs(w, calls) && w.db.cas + StoreCount(w, calls) < 0x1_0000_0000_0000_0000
    requires key in w.db.items && Admissible(AfterRun(w, calls).db, c.req)
    requires Swaps(AfterRun(w, calls), c, w.db.items[key].cas) && c.req.key == key && (c.alloc || c.req.Delete?)
    ensures var items := AfterRun(w, calls).db.items;
            Succeeds(AfterRun(w, calls), c) <==> key in items && items[key] == w.db.items[key]
    ensures (forall i :: 0 <= i < |calls| ==> !Touches(calls[i], key)) ==> Succeeds(AfterRun(w, calls), c)
  {
    hide Step, Admissible, Consistent, Runs, AfterRun, StoreCount, Touches, Swaps, Succeeds;
    var w', token := AfterRun(w, calls), w.db.items[key].cas;
    RunConsistent(w, calls);
    SwapSucceeds(w', c, token);
    GivenTo(w, key);
    if key in w'.db.items {
      GivenTo(w', key);
    }
    if forall i :: 0 <= i < |calls| ==> !Touches(calls[i], key) {
      ReadBack(w, calls, key);
    }
  }

  // Once its key is gone set is no swap: with a spent token it succeeds exactly then.
  lemma SetOnSpentToken(w: World, c: Call)
    requires Consistent(w) && c.req.Set? && c.req.cas != 0 && Spent(w, c.req.cas)
    ensures Succeeds(w, c) <==> c.alloc && c.req.key !in w.db.items
  {
  }

  // Such a set: the item that was given token 1 is deleted, and its token is accepted for a new one.
  lemma SpentTokenAccepted(api: Api, key: Bytes, first: Bytes, second: Bytes)
    ensures var empty := World(Db(map[], 0), []);
            var calls := [Call(api, Set(key, first, 0, 0, 0), true), Call(api, Delete(key, 0), true),
                          Call(api, Set(key, second, 0, 0, 1), true)];
            && Runs(empty, calls) && Outcomes(empty, calls) == [Success, Success, Success]
            && Runs(empty, calls[..2]) && Spent(AfterRun(empty, calls[..2]), 1)
  {
    var empty := World(Db(map[], 0), []);
    var c0, c1 := Call(api, Set(key, first, 0, 0, 0), true), Call(api, Delete(key, 0), true);
    var c2 := Call(api, Set(key, second, 0, 0, 1), true);
    var calls := [c0, c1, c2];
    var w1 := Next(empty, c0);
    var w2 := Next(w1, c1);
    var w3 := Next(w2, c2);
    assert w1.db.items == map[key := Item(1, key, first, 0, 0)] && w1.db.cas == 1;
    assert w2.db.items == map[] && w2.db.cas == 1;
    assert calls[1..] == [c1, c2] && [c1, c2][1..] == [c2] && [c2][1..] == [];
    assert calls[..2] == [c0, c1] && [c0, c1][1..] == [c1] && [c1][1..] == [];
    assert Runs(w3, []) && Runs(w2, []);
    assert Runs(w2, [c2]) && Runs(w1, [c1, c2]) && Runs(empty, calls);
    assert Runs(w1, [c1]) && Runs(empty, calls[..2]);
    hide Next, Runs, AfterRun, Outcomes;
    RunUnfold(empty, calls);
    RunUnfold(w1, [c1, c2]);
    RunUnfold(w2, [c2]);
    RunUnfold(w3, []);
    RunUnfold(empty, calls[..2]);
    RunUnfold(w1, [c1]);
    RunUnfold(w2, []);
  }
}
