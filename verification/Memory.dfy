/** The process memory: bytes at addresses, and the C heap as a partial map from base addresses to sizes. */
module Memory {
  import opened Words

  /** No address at or above this one is ever handed out (the lower half of the 64-bit address space). */
  const ADDRESS_LIMIT: nat := 0x8000_0000_0000_0000

  type Byte = b: int | 0 <= b < 256

  type Mem = nat -> Byte

  /** Allocated regions: base address to size in bytes. */
  type Regions = map<nat, nat>

  function Store(m: Mem, a: nat, v: Byte): Mem {
    (p: nat) => if p == a then v else m(p)
  }

  /** memcpy: the bytes at [src, src+n) as they were, written to [dst, dst+n). */
  function CopyBytes(m: Mem, dst: nat, src: nat, n: nat): Mem {
    (p: nat) => if dst <= p < dst + n then m(p - dst + src) else m(p)
  }

  /** The region at b ends at or below address c. */
  predicate EndsBy(regions: Regions, b: nat, c: nat)
    requires b in regions
  {
    b + regions[b] <= c
  }

  function StoreElem(m: Mem, a: nat, e: seq<Byte>): Mem {
    (p: nat) => if a <= p < a + |e| then e[p - a] else m(p)
  }

  ghost predicate RegionsOk(regions: Regions) {
    && (forall b :: b in regions ==> 0 < b && Aligned(b) && b + regions[b] <= ADDRESS_LIMIT)
    && (forall b, c {:trigger EndsBy(regions, b, c)} :: b in regions && c in regions && b < c ==> EndsBy(regions, b, c))
  }

  /** What `malloc(n)` promises of the address it returns: non-null, 16-aligned, inside the address space
      and disjoint from every allocated region. (A null return aborts the process, so nothing follows it.) */
  ghost predicate MallocOk(regions: Regions, at: nat, n: nat) {
    && 0 < at && Aligned(at) && at + n <= ADDRESS_LIMIT
    && at !in regions
    && (forall b :: b in regions && b < at ==> b + regions[b] <= at)
    && (forall b :: b in regions && at < b ==> at + n <= b)
  }

  lemma MallocKeepsRegionsOk(regions: Regions, at: nat, n: nat)
    requires RegionsOk(regions) && MallocOk(regions, at, n)
    ensures RegionsOk(regions[at := n])
  {
    var r := regions[at := n];
    forall b, c | b in r && c in r && b < c ensures EndsBy(r, b, c) {
      if b != at && c != at {
        assert EndsBy(regions, b, c);
      }
    }
  }

  lemma FreeKeepsRegionsOk(regions: Regions, gone: set<nat>)
    requires RegionsOk(regions)
    ensures RegionsOk(regions - gone)
  {
    var r := regions - gone;
    forall b, c | b in r && c in r && b < c ensures EndsBy(r, b, c) {
      assert EndsBy(regions, b, c);
    }
  }

  lemma RegionsApart(regions: Regions, b: nat, c: nat)
    requires RegionsOk(regions) && b in regions && c in regions && b != c
    ensures EndsBy(regions, b, c) || EndsBy(regions, c, b)
  {
    if b < c {
      assert EndsBy(regions, b, c);
    } else {
      assert EndsBy(regions, c, b);
    }
  }

  class CHeap {
    var regions: Regions
    var mem: Mem

    /** `at` is the address that the C library picks. */
    method AllocateHeap(n: nat, at: nat) returns (p: nat)
      requires MallocOk(regions, at, n)
      modifies `regions
      ensures p == at && regions == old(regions)[at := n]
    {
      regions := regions[at := n];
      p := at;
    }

    /** Only null or the base of an allocated region may be freed, so no region is freed twice. */
    method FreeHeap(p: nat)
      requires p == 0 || p in regions
      modifies `regions
      ensures regions == if p == 0 then old(regions) else old(regions) - {p}
    {
      if p != 0 {
        regions := regions - {p};
      }
    }

    /** Placement-construct or assign an object: its representation goes to address a. */
    method StoreObject(a: nat, e: seq<Byte>)
      modifies `mem
      ensures mem == StoreElem(old(mem), a, e)
    {
      mem := StoreElem(mem, a, e);
    }

    /** The two ranges must not overlap. */
    method Memcpy(dst: nat, src: nat, n: nat)
      requires n == 0 || dst + n <= src || src + n <= dst
      modifies `mem
      ensures mem == CopyBytes(old(mem), dst, src, n)
    {
      mem := CopyBytes(mem, dst, src, n);
    }
  }
}
