// The growable byte string of src/libhashkit/string.cc.
module GrowableString {
  const BLOCK_SIZE: nat := 1024
  // size_t is 64 bits; no object is larger than PTRDIFF_MAX.
  const SIZE_MODULUS: nat := 0x1_0000_0000_0000_0000
  const MAX_OBJECT: nat := 0x7fff_ffff_ffff_ffff

  // The size that growing by whole blocks asks for, before it is truncated to size_t.
  function GrownSize(size: nat, used: nat, need: nat): nat
    requires used <= size && need > size - used
  {
    ((need - (size - used)) / BLOCK_SIZE + 1) * BLOCK_SIZE + size
  }

  // The overflow test (new_size < need, on the truncated size) is exact: it fires just when
  // the size did not fit in size_t.
  lemma OverflowTestExact(size: nat, used: nat, need: nat)
    requires used <= size <= 0x7fff_ffff_ffff_ffff && size - used < need < 0x1_0000_0000_0000_0000
    ensures var grown := GrownSize(size, used, need);
            grown % 0x1_0000_0000_0000_0000 < need <==> grown >= 0x1_0000_0000_0000_0000
    ensures used + need < GrownSize(size, used, need) <= used + need + 1024
    ensures (GrownSize(size, used, need) - size) % 1024 == 0
  {
    var grown := GrownSize(size, used, need);
    assert used + need < grown <= used + need + BLOCK_SIZE;
    if grown >= SIZE_MODULUS {
      assert grown < 2 * SIZE_MODULUS;
      assert grown % SIZE_MODULUS == grown - SIZE_MODULUS;
    }
  }

  class HashkitString {
    // string, with current_size == buffer.Length (a null string is an empty buffer), and end - string.
    var buffer: array<bv8>
    var used: nat

    ghost predicate Valid()
      reads this
    {
      used <= buffer.Length <= 0x7fff_ffff_ffff_ffff
    }

    function Contents(): seq<bv8>
      requires Valid()
      reads this, buffer
    {
      buffer[..used]
    }

    // calloc: no buffer yet.
    constructor ()
      ensures Valid() && Contents() == [] && buffer.Length == 0 && fresh(buffer)
    {
      buffer := new bv8[0];
      used := 0;
    }

    // _string_check.  Whether realloc delivers is up to the environment, but it never delivers more
    // than MAX_OBJECT bytes.
    method Check(need: nat, canAllocate: bool) returns (ok: bool)
      requires Valid() && need < 0x1_0000_0000_0000_0000
      modifies this
      ensures Valid() && used == old(used) && Contents() == old(Contents())
      ensures ok <==> need <= old(buffer.Length - used)
                      || (canAllocate && GrownSize(old(buffer.Length), used, need) <= 0x7fff_ffff_ffff_ffff)
      ensures ok ==> need <= buffer.Length - used
      ensures buffer.Length == if ok && need > old(buffer.Length - used)
                               then GrownSize(old(buffer.Length), used, need) else old(buffer.Length)
      ensures if ok && need > old(buffer.Length - used) then fresh(buffer) else buffer == old(buffer)
    {
      if need != 0 && need > buffer.Length - used {
        OverflowTestExact(buffer.Length, used, need);
        var adjust := (need - (buffer.Length - used)) / BLOCK_SIZE;
        adjust := adjust + 1;
        var newSize := (adjust * BLOCK_SIZE + buffer.Length) % SIZE_MODULUS;
        if newSize < need {
          return false;
        }
        if !canAllocate || newSize > MAX_OBJECT {
          return false;
        }
        var newValue := new bv8[newSize];
        forall i | 0 <= i < buffer.Length {
          newValue[i] := buffer[i];
        }
        buffer := newValue;
      }
      return true;
    }

    // hashkit_string_set_length.
    method SetLength(length: nat, canAllocate: bool)
      requires Valid() && length < 0x1_0000_0000_0000_0000
      modifies this
      ensures Valid()
      ensures used == if length <= old(buffer.Length - used)
                         || (canAllocate && GrownSize(old(buffer.Length), old(used), length) <= 0x7fff_ffff_ffff_ffff)
                      then length else old(used)
      ensures length <= old(buffer.Length - used) ==> buffer == old(buffer)
      ensures old(used) <= buffer.Length && buffer[..old(used)] == old(Contents())
    {
      var ok := Check(length, canAllocate);
      if ok {
        used := length;
      }
    }
  }

  // hashkit_string_create.
  method Create(initialSize: nat, canAllocate: bool) returns (s: HashkitString?)
    requires initialSize < 0x1_0000_0000_0000_0000
    ensures s != null ==> s.Valid() && fresh(s) && fresh(s.buffer) && s.used == 0
                          && s.buffer.Length == CreatedCapacity(initialSize)
    ensures s == null <==> !canAllocate || CreatedCapacity(initialSize) > 0x7fff_ffff_ffff_ffff
  {
    if !canAllocate {
      return null;
    }
    s := new HashkitString();
    var ok := s.Check(initialSize, canAllocate);
    if !ok {
      return null;
    }
  }

  // A whole number of blocks, with less than one to spare beyond the next byte.
  function CreatedCapacity(n: nat): (c: nat)
    ensures c % 1024 == 0 && if n == 0 then c == 0 else n < c <= n + 1024
  {
    if n == 0 then 0 else (n / BLOCK_SIZE + 1) * BLOCK_SIZE
  }
}
