// The command handlers of example/interface_v1.cc and, after header decoding, of
// example/interface_v0.cc, working on the linked store.
module Handlers {
  import opened Octets
  import opened Storage
  import opened Commands

  ghost function Abstract(store: Store): Db
    requires store.Valid()
    reads store, store.nodes
  {
    Db(store.Contents(), store.cas)
  }

  // A handler call: the store stays well formed and changes as the command says; the only entries it
  // has that it did not have before are new.
  twostate predicate Did(store: Store, api: Api, req: Request, alloc: bool, status: Status)
    requires old(store.Valid())
    requires Admissible(old(Abstract(store)), req)
    reads store, store.nodes
  {
    && store.Valid()
    && (Abstract(store), status) == Step(api, old(Abstract(store)), req, alloc)
    && forall i :: 0 <= i < |store.nodes| ==> store.nodes[i] in old(store.nodes) || fresh(store.nodes[i])
  }

  // create_item and put_item for a key that is not there.
  method Create(store: Store, key: Bytes, data: Bytes, flags: nat, exp: nat) returns (resultCas: nat)
    requires store.Valid() && key !in store.Contents()
    modifies store, store.nodes
    ensures store.Valid() && Abstract(store) == Put(old(Abstract(store)), key, data, flags, exp)
    ensures resultCas == store.cas
    ensures forall i :: 0 <= i < |store.nodes| ==> store.nodes[i] in old(store.nodes) || fresh(store.nodes[i])
  {
    hide Store.Linked, ToMap;
    var item := new Entry(key, data, flags, exp);
    store.PutItem(item);
    resultCas := item.item.cas;
  }

  // The same where delete_item comes first.
  method Exchange(store: Store, key: Bytes, data: Bytes, flags: nat, exp: nat) returns (resultCas: nat)
    requires store.Valid()
    modifies store, store.nodes
    ensures store.Valid() && Abstract(store) == Put(old(Abstract(store)), key, data, flags, exp)
    ensures resultCas == store.cas
    ensures forall i :: 0 <= i < |store.nodes| ==> store.nodes[i] in old(store.nodes) || fresh(store.nodes[i])
  {
    hide Store.Linked, Store.Valid, Store.Contents, ToMap;
    ghost var db := Abstract(store);
    var found := store.DeleteItem(key);
    DropPut(db, key, data, flags, exp);
    resultCas := Create(store, key, data, flags, exp);
  }

  lemma DropPut(db: Db, key: Bytes, data: Bytes, flags: nat, exp: nat)
    ensures Put(Drop(db, key), key, data, flags, exp) == Put(db, key, data, flags, exp)
  {
  }

  // add_handler; add_command_handler.
  method Add(store: Store, api: Api, key: Bytes, data: Bytes, flags: nat, exp: nat, alloc: bool)
    returns (status: Status, resultCas: nat)
    requires store.Valid()
    modifies store, store.nodes
    ensures Did(store, api, Request.Add(key, data, flags, exp), alloc, status)
    ensures status == Success ==> store.Contents()[key].cas == resultCas
  {
    hide Store.Linked, Store.Valid, Store.Contents, ToMap;
    status, resultCas := Success, 0;
    var item := store.GetItem(key);
    if item == null {
      if !alloc {
        status := NoMemory;
      } else {
        resultCas := Create(store, key, data, flags, exp);
      }
    } else {
      status := Exists;
    }
  }

  // append_handler and prepend_handler; concat_command_handler.
  method Concat(store: Store, api: Api, append: bool, key: Bytes, val: Bytes, cas: nat, alloc: bool)
    returns (status: Status, resultCas: nat)
    requires store.Valid()
    modifies store, store.nodes
    ensures Did(store, api, Request.Concat(append, key, val, cas), alloc, status)
    ensures status == Success ==> store.Contents()[key].cas == resultCas
  {
    hide Store.Linked, Store.Valid, Store.Contents, ToMap;
    status, resultCas := Success, 0;
    var item := store.GetItem(key);
    if item == null {
      status := NotFound;
    } else if cas != 0 && cas != item.item.cas {
      status := Exists;
    } else if !alloc {
      status := NoMemory;
    } else {
      var data := if append then item.item.data + val else val + item.item.data;
      resultCas := Exchange(store, key, data, item.item.flags, item.item.exp);
    }
  }

  // The local buffer of increment_handler.
  const KEY_BUFFER: nat := 1024

  // A call that copies its key into that buffer, or any other.
  predicate KeyFits(c: Call) {
    c.api == V1 && c.req.Arithmetic? && c.req.increment && c.alloc ==> |c.req.key| <= 1024
  }

  // memcpy of the key into a buffer of that size: every byte has its place exactly when KeyFits says so.
  method CopyKey(key: Bytes) returns (buffer: array<Byte>)
    requires forall k :: 0 <= k < |key| ==> InBuffer(key, k)
    ensures fresh(buffer) && |key| <= buffer.Length == 1024 && buffer[..|key|] == key
  {
    buffer := new Byte[KEY_BUFFER](_ => 0);
    CopyInBounds(key);
    forall k | 0 <= k < |key| {
      buffer[k] := key[k];
    }
  }

  predicate InBuffer(key: Bytes, k: nat) {
    k < |key| && k < KEY_BUFFER
  }

  lemma CopyInBounds(key: Bytes)
    ensures (forall k :: 0 <= k < |key| ==> InBuffer(key, k)) <==> |key| <= 1024
  {
    if |key| > KEY_BUFFER {
      assert !InBuffer(key, KEY_BUFFER);
    }
  }

  // increment_handler and decrement_handler; arithmetic_command_handler.
  method Arithmetic(store: Store, api: Api, increment: bool, key: Bytes, delta: nat, initial: nat, exp: nat,
                    alloc: bool)
    returns (status: Status, result: nat, resultCas: nat)
    requires store.Valid() && Admissible(Abstract(store), Request.Arithmetic(increment, key, delta, initial, exp))
    requires KeyFits(Call(api, Request.Arithmetic(increment, key, delta, initial, exp), alloc))
    modifies store, store.nodes
    ensures Did(store, api, Request.Arithmetic(increment, key, delta, initial, exp), alloc, status)
    ensures status == Success ==>
              store.Contents()[key].cas == resultCas
              && result == Decode(store.Contents()[key].data)
              && Counts(old(Abstract(store)), Request.Arithmetic(increment, key, delta, initial, exp), result)
  {
    hide Encode, Decode, Count, Counts, Store.Linked, Store.Valid, Store.Contents, ToMap;
    status, result, resultCas := Success, 0, 0;
    CounterStored(api, Abstract(store), Request.Arithmetic(increment, key, delta, initial, exp));
    var val, flags, expiration := initial, 0, exp;
    var item := store.GetItem(key);
    if item != null {
      val := Count(increment, Decode(item.item.data[..8]), delta);
      expiration := item.item.exp % 0x1_0000_0000;
      if api == V0 {
        flags := item.item.flags;
      }
    }
    if !alloc {
      var found := store.DeleteItem(key);
      status := NoMemory;
    } else {
      if api == V1 && increment {
        CopyInBounds(key);
        var buffer := CopyKey(key);
      }
      resultCas := Exchange(store, key, Encode(val, 8), flags, expiration);
      result := val;
    }
  }

  // delete_handler; delete_command_handler, which ignores the token.
  method Delete(store: Store, api: Api, key: Bytes, cas: nat) returns (status: Status)
    requires store.Valid()
    modifies store, store.nodes
    ensures Did(store, api, Request.Delete(key, cas), true, status)
  {
    hide Store.Linked, Store.Valid, Store.Contents, ToMap, Without;
    if api == V1 && cas != 0 {
      var item := store.GetItem(key);
      if item != null {
        if item.item.cas != cas {
          return Exists;
        }
      }
    }
    var found := store.DeleteItem(key);
    status := if found then Success else NotFound;
  }

  // get_handler; get_command_handler.
  method Get(store: Store, key: Bytes) returns (status: Status, item: Item)
    requires store.Valid()
    ensures status == Step(V1, Abstract(store), Request.Get(key), true).1
    ensures status == Success ==> key in store.Contents() && item == store.Contents()[key]
  {
    var entry := store.GetItem(key);
    if entry == null {
      return NotFound, Item(0, [], [], 0, 0);
    }
    return Success, entry.item;
  }

  // flush_handler does nothing; flush_command_handler empties the store.
  method Flush(store: Store, api: Api) returns (status: Status)
    requires store.Valid()
    modifies store, store.nodes
    ensures Did(store, api, Request.Flush, true, status)
  {
    if api == V0 {
      store.Flush();
    }
    status := Success;
  }

  // replace_handler; replace_command_handler.
  method Replace(store: Store, api: Api, key: Bytes, data: Bytes, flags: nat, exp: nat, cas: nat, alloc: bool)
    returns (status: Status, resultCas: nat)
    requires store.Valid()
    modifies store, store.nodes
    ensures Did(store, api, Request.Replace(key, data, flags, exp, cas), alloc, status)
    ensures status == Success ==> store.Contents()[key].cas == resultCas
  {
    hide Store.Linked, Store.Valid, Store.Contents, ToMap;
    status, resultCas := Success, 0;
    var item := store.GetItem(key);
    if item == null {
      status := NotFound;
    } else if cas == 0 || cas == item.item.cas {
      if !alloc {
        var found := store.DeleteItem(key);
        status := NoMemory;
      } else {
        resultCas := Exchange(store, key, data, flags, exp);
      }
    } else {
      status := Exists;
    }
  }

  // set_handler; set_command_handler.
  method Set(store: Store, api: Api, key: Bytes, data: Bytes, flags: nat, exp: nat, cas: nat, alloc: bool)
    returns (status: Status, resultCas: nat)
    requires store.Valid()
    modifies store, store.nodes
    ensures Did(store, api, Request.Set(key, data, flags, exp, cas), alloc, status)
    ensures status == Success ==> store.Contents()[key].cas == resultCas
  {
    hide Store.Linked, Store.Valid, Store.Contents, ToMap;
    status, resultCas := Success, 0;
    if cas != 0 {
      var item := store.GetItem(key);
      if item != null && cas != item.item.cas {
        return Exists, 0;
      }
    }
    if !alloc {
      var found := store.DeleteItem(key);
      status := NoMemory;
    } else {
      resultCas := Exchange(store, key, data, flags, exp);
    }
  }

  // The handler for a request.
  method Dispatch(store: Store, c: Call) returns (status: Status)
    requires store.Valid() && Admissible(Abstract(store), c.req) && KeyFits(c)
    modifies store, store.nodes
    ensures Did(store, c.api, c.req, c.alloc, status)
  {
    hide Store.Linked, Store.Valid, Store.Contents, ToMap;
    var cas: nat;
    match c.req {
      case Get(key) =>
        var item: Item;
        status, item := Get(store, key);
      case Set(key, data, flags, exp, token) =>
        status, cas := Set(store, c.api, key, data, flags, exp, token, c.alloc);
      case Add(key, data, flags, exp) =>
        status, cas := Add(store, c.api, key, data, flags, exp, c.alloc);
      case Replace(key, data, flags, exp, token) =>
        status, cas := Replace(store, c.api, key, data, flags, exp, token, c.alloc);
      case Concat(append, key, data, token) =>
        status, cas := Concat(store, c.api, append, key, data, token, c.alloc);
      case Arithmetic(increment, key, delta, initial, exp) =>
        var value: nat;
        status, value, cas := Arithmetic(store, c.api, increment, key, delta, initial, exp, c.alloc);
      case Delete(key, token) =>
        status := Delete(store, c.api, key, token);
      case Flush =>
        status := Flush(store, c.api);
    }
  }

  // Any run of handlers on the linked store is the same run on the map.
  method Serve(store: Store, calls: seq<Call>, ghost history: seq<Item>) returns (statuses: seq<Status>)
    requires store.Valid() && Runs(World(Abstract(store), history), calls)
    requires forall i :: 0 <= i < |calls| ==> KeyFits(calls[i])
    modifies store, store.nodes
    ensures store.Valid()
    ensures Abstract(store) == AfterRun(old(World(Abstract(store), history)), calls).db
    ensures statuses == Outcomes(old(World(Abstract(store), history)), calls)
  {
    hide Store.Linked, Store.Valid, Store.Contents, ToMap, Step, Next, Runs, AfterRun, Outcomes, Admissible;
    ghost var w := World(Abstract(store), history);
    statuses := [];
    for i := 0 to |calls|
      invariant store.Valid() && w.db == Abstract(store)
      invariant Runs(w, calls[i..])
      invariant AfterRun(w, calls[i..]) == AfterRun(old(World(Abstract(store), history)), calls)
      invariant statuses + Outcomes(w, calls[i..]) == Outcomes(old(World(Abstract(store), history)), calls)
      invariant forall i :: 0 <= i < |store.nodes| ==> store.nodes[i] in old(store.nodes) || fresh(store.nodes[i])
    {
      assert calls[i..][1..] == calls[i + 1..];
      RunUnfold(w, calls[i..]);
      var status := Dispatch(store, calls[i]);
      w := Next(w, calls[i]);
      statuses := statuses + [status];
    }
    RunUnfold(w, calls[|calls|..]);
  }
}
