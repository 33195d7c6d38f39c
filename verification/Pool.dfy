/** The block pool `mem_container`, used sequentially, with a ghost ledger of every block. */
module Pool {
  import opened Blocks

  /** Every block in `born` that is not in `old` was allocated since. */
  twostate predicate OnlyFresh(was: multiset<array<byte>>, new now: multiset<array<byte>>) {
    was <= now && forall b :: b in now && b !in was ==> fresh(b)
  }

  const MIN_CAPACITY: nat := 0x100

  class MemContainer {
    var container: seq<array<byte>>
    var size: nat
    var maxSize: nat
    ghost var born: multiset<array<byte>>   // every block ever allocated
    ghost var freed: multiset<array<byte>>  // every block deleted again

    ghost predicate Valid()
      reads this
    {
      && (forall k :: 0 <= k < |container| ==> container[k].Length == DEFAULT_SIZE)
      && size == |container|
      && Linear(born)
      && multiset(container) + freed <= born
    }

    /** The pool keeps at least MIN_CAPACITY blocks before it frees any. */
    constructor (n: nat)
      ensures Valid() && container == [] && born == multiset{} && freed == multiset{}
      ensures maxSize >= MIN_CAPACITY && maxSize >= n && maxSize in {n, MIN_CAPACITY}
    {
      container, size, born, freed := [], 0, multiset{}, multiset{};
      maxSize := if n > MIN_CAPACITY then n else MIN_CAPACITY;
    }

    method Get() returns (b: array<byte>)
      requires Valid()
      modifies this
      ensures Valid() && b.Length == DEFAULT_SIZE
      ensures freed == old(freed) && maxSize == old(maxSize)
      ensures if old(container) != []
              then old(container) == [b] + container && born == old(born)
              else fresh(b) && container == [] && born == old(born) + multiset{b}
    {
      if container != [] {
        b := container[0];
        assert container == [b] + container[1..];
        container := container[1..];
        size := size - 1;
      } else {
        b := new byte[DEFAULT_SIZE];
        born := born + multiset{b};
      }
    }

    /** The `new char[DEFAULT_SIZE]` of the transfers, which does not go through the pool. */
    method Allocate() returns (b: array<byte>)
      requires Valid()
      modifies this`born
      ensures Valid() && fresh(b) && b.Length == DEFAULT_SIZE && born == old(born) + multiset{b}
    {
      b := new byte[DEFAULT_SIZE];
      born := born + multiset{b};
    }

    method Push(b: array<byte>)
      requires Valid() && b.Length == DEFAULT_SIZE
      requires multiset(container) + freed + multiset{b} <= born
      modifies this
      ensures Valid() && born == old(born) && maxSize == old(maxSize)
      ensures if old(size) <= maxSize
              then container == old(container) + [b] && freed == old(freed)
              else container == old(container) && freed == old(freed) + multiset{b}
      ensures multiset(container) + freed == old(multiset(container) + freed) + multiset{b}
    {
      if size <= maxSize {
        container := container + [b];
        size := size + 1;
      } else {
        freed := freed + multiset{b};
      }
    }
  }
}
