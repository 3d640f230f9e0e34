/** The resizable list of digests that holds one level of the tree: as many entries as the least power
    of two at or above its size, in an array that is reallocated when the size passes one.  Whether an
    allocation succeeds is a parameter. */
module ArrayList {
  import opened Options
  import opened Powers
  import opened BitTricks
  import opened MerkleConfig
  import opened MerkleReference

  ghost predicate HasRoom(capacity: nat, elems: nat) {
    capacity >= elems && exists k: nat :: capacity == Pow2(k)
  }

  lemma PowerHasRoom(elems: nat)
    requires IsPowerOfTwo(elems)
    ensures IsLeastPower(2 * elems, elems + 1) && HasRoom(2 * elems, elems + 1)
  {
    PowerOfTwoIff(elems);
    var k: nat :| elems == Pow2(k);
    assert 2 * elems == Pow2(k + 1);
    forall j: nat | Pow2(j) >= elems + 1 ensures Pow2(j) >= 2 * elems {
      if j <= k {
        Pow2Monotone(j, k);
      } else {
        Pow2Monotone(k + 1, j);
      }
    }
  }

  lemma OtherHasRoom(capacity: nat, elems: nat)
    requires HasRoom(capacity, elems) && !IsPowerOfTwo(elems)
    ensures HasRoom(capacity, elems + 1) && (IsLeastPower(capacity, elems) ==> IsLeastPower(capacity, elems + 1))
  {
    var k: nat :| capacity == Pow2(k);
    PowerPasses(k);
  }

  /** Before an entry is added there is room for it, or the size is a power of two and twice that gives
      room; what was least stays so. */
  lemma RoomForOneMore(capacity: nat, elems: nat)
    requires elems > 0 && HasRoom(capacity, elems)
    ensures if IsPowerOfTwo(elems) then IsLeastPower(2 * elems, elems + 1) && HasRoom(2 * elems, elems + 1)
            else HasRoom(capacity, elems + 1) && (IsLeastPower(capacity, elems) ==> IsLeastPower(capacity, elems + 1))
  {
    if IsPowerOfTwo(elems) {
      PowerHasRoom(elems);
    } else {
      OtherHasRoom(capacity, elems);
    }
  }

  class List {
    var elems: nat
    var store: array<Digest>
    /** The store has been freed and not replaced; its entries are out of reach here. */
    var freed: bool

    ghost predicate Valid()
      reads this
    {
      elems <= MAX_ELEMS && (elems > 0 ==> HasRoom(store.Length, elems) && !freed)
    }

    /** Nothing is wasted: a non-empty list has the least capacity. */
    ghost predicate Tight()
      reads this
    {
      elems > 0 ==> IsLeastPower(store.Length, elems)
    }

    ghost function Contents(): seq<Digest>
      reads this, store
      requires Valid()
    {
      if elems == 0 then [] else store[..elems]
    }

    constructor ()
      ensures Valid() && Tight() && Contents() == [] && fresh(store) && !freed
    {
      elems, freed := 0, false;
      store := new Digest[0];
    }

    /** The store with another capacity, its entries kept as far as they fit. */
    method Reallocate(capacity: nat)
      modifies this`store
      ensures fresh(store) && store.Length == capacity
      ensures forall i :: 0 <= i < capacity && i < old(store.Length) ==> store[i] == old(store[i])
    {
      var from := store;
      store := new Digest[capacity](i reads from => if 0 <= i < from.Length then from[i] else []);
    }

    /** Twice the entries, the same contents.  The doubled size never passes the maximum. */
    method Double(canAllocate: bool) returns (status: Status)
      requires 0 < elems < MAX_ELEMS && elems <= store.Length && IsPowerOfTwo(elems)
      modifies this`store
      ensures status == if canAllocate then Success else OutOfMemory
      ensures !canAllocate ==> store == old(store)
      ensures canAllocate ==> fresh(store) && store.Length == 2 * elems && store[..elems] == old(store[..elems])
    {
      NoOverflow(elems);
      if 2 * elems % WORD < elems || 2 * elems % WORD > MAX_ELEMS {
        return IllegalState;
      }
      if !canAllocate {
        return OutOfMemory;
      }
      ghost var was := store[..elems];
      Reallocate(elems * 2);
      assert store[..elems] == was;
      return Success;
    }

    /** Room for one entry more, if it can be had, and the same entries. */
    method MakeRoom(canAllocate: bool) returns (status: Status)
      requires Valid() && 0 < elems < MAX_ELEMS
      modifies this`store
      ensures status == if canAllocate || !IsPowerOfTwo(elems) then Success else OutOfMemory
      ensures status != Success ==> store == old(store)
      ensures status == Success ==> HasRoom(store.Length, elems + 1) && store[..elems] == old(store[..elems])
      ensures status == Success && old(Tight()) ==> IsLeastPower(store.Length, elems + 1)
      ensures store == old(store) || fresh(store)
    {
      RoomForOneMore(store.Length, elems);
      if !IsPowerOfTwo(elems) {
        return Success;
      }
      status := Double(canAllocate);
    }

    /** An entry more at the end.  The doubled size never passes the maximum, so that the state is
        never found illegal. */
    method Add(hash: Option<Digest>, canAllocate: bool) returns (status: Status)
      requires Valid() && elems < MAX_ELEMS
      modifies this, store
      ensures Valid() && (old(Tight()) ==> Tight()) && (store == old(store) || fresh(store))
      ensures status == if hash.None? then IllegalParam
                        else if (old(elems) == 0 || IsPowerOfTwo(old(elems))) && !canAllocate then OutOfMemory
                        else Success
      ensures Contents() == old(Contents()) + if status == Success then [hash.value] else []
      ensures freed == (old(freed) && hash.None?)
    {
      if hash.None? {
        return IllegalParam;
      }
      if elems == 0 {
        freed := false;
        if !canAllocate {
          return OutOfMemory;
        }
        store := new Digest[1](i => []);
        OneIsLeast();
      } else {
        status := MakeRoom(canAllocate);
        if status != Success {
          return;
        }
      }
      store[elems] := hash.value;
      elems := elems + 1;
      assert store[..elems] == store[..elems - 1] + [hash.value];
      return Success;
    }

    method Update(hash: Option<Digest>, offset: nat) returns (status: Status)
      requires Valid() && elems < MAX_ELEMS
      modifies store
      ensures Valid() && Tight() == old(Tight())
      ensures status == if hash.Some? && offset < elems then Success else IllegalParam
      ensures Contents() == if status == Success then old(Contents())[offset := hash.value] else old(Contents())
    {
      if hash.None? || offset >= elems {
        return IllegalParam;
      }
      store[offset] := hash.value;
      return Success;
    }

    method UpdateIfExists(hash: Option<Digest>, offset: nat) returns (status: Status)
      requires Valid() && elems < MAX_ELEMS
      modifies store
      ensures Valid() && Tight() == old(Tight())
      ensures status == if hash.Some? then Success else IllegalParam
      ensures Contents() == if hash.Some? && offset < elems then old(Contents())[offset := hash.value]
                            else old(Contents())
    {
      if hash.None? {
        return IllegalParam;
      }
      if offset >= elems {
        return Success;
      }
      store[offset] := hash.value;
      return Success;
    }

    method AddOrUpdate(hash: Option<Digest>, offset: nat, canAllocate: bool) returns (status: Status)
      requires Valid() && elems < MAX_ELEMS
      modifies this, store
      ensures Valid() && (old(Tight()) ==> Tight()) && (store == old(store) || fresh(store))
      ensures hash.None? || offset > old(elems) ==> status == IllegalParam
      ensures hash.Some? && offset < old(elems) ==>
                status == Success && Contents() == old(Contents())[offset := hash.value]
      ensures hash.Some? && offset == old(elems) ==>
                status == if (old(elems) == 0 || IsPowerOfTwo(old(elems))) && !canAllocate then OutOfMemory else Success
      ensures status == Success && offset == old(elems) ==> Contents() == old(Contents()) + [hash.value]
      ensures status != Success ==> Contents() == old(Contents())
      ensures freed == (old(freed) && (hash.None? || offset != old(elems)))
    {
      if hash.None? || offset > elems {
        return IllegalParam;
      }
      if offset == elems {
        status := Add(hash, canAllocate);
      } else {
        status := Update(hash, offset);
      }
    }

    /** Cuts the list down.  The size is cut even if the smaller store cannot be had; the larger one is
        kept then, and the list is no longer tight. */
    method Truncate(size: nat, canAllocate: bool) returns (status: Status)
      requires Valid() && elems < MAX_ELEMS
      modifies this, store
      ensures Valid() && (store == old(store) || fresh(store))
      ensures status == if size >= old(elems) then IllegalParam
                        else if size > 0 && !canAllocate then OutOfMemory else Success
      ensures Contents() == if size < old(elems) then old(Contents())[..size] else old(Contents())
      ensures status == Success || (status == IllegalParam && old(Tight())) ==> Tight()
      ensures freed == (old(freed) || (size == 0 && old(elems) > 0))
    {
      if size >= elems {
        return IllegalParam;
      }
      elems := size;
      if size == 0 {
        freed := true;
        store := new Digest[0];
        return Success;
      }
      if !canAllocate {
        return OutOfMemory;
      }
      RoundIsLeastIff(size);
      ghost var was := store[..size];
      Reallocate(RoundNextPowerTwo(size));
      assert store[..size] == was;
      return Success;
    }

    method Get(offset: nat) returns (r: Option<Digest>)
      requires Valid() && elems < MAX_ELEMS
      ensures r == if offset < elems then Some(Contents()[offset]) else None
    {
      if offset >= elems {
        return None;
      }
      return Some(store[offset]);
    }

    /** Frees the store.  That is sound exactly if it has not been freed yet: if the list was not cut
        down to nothing, or has been added to since. */
    method Delete() returns (sound: bool)
      requires Valid()
      modifies this`freed
      ensures sound == !old(freed) && freed
    {
      sound := !freed;
      freed := true;
    }
  }

  /** A list that was cut down to nothing keeps its pointer, so that deleting it frees the store again. */
  method EmptiedThenDeleted(hash: Digest) returns (sound: bool)
    ensures !sound
  {
    var list := new List();
    var added := list.Add(Some(hash), true);
    var cut := list.Truncate(0, true);
    sound := list.Delete();
  }

  lemma OneIsLeast()
    ensures IsLeastPower(1, 1)
  {
    assert 1 == Pow2(0);
  }

  /** A power of two below the maximum is at most half of it. */
  lemma NoOverflow(elems: nat)
    requires IsPowerOfTwo(elems) && elems < MAX_ELEMS
    ensures 2 * elems <= MAX_ELEMS
  {
    PowerOfTwoIff(elems);
    var k: nat :| elems == Pow2(k);
    Pow2Values();
    PowersLess(k, 19);
    Pow2Monotone(k + 1, 19);
  }
}
