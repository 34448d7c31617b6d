/** The memory the operating system lends to the allocator. */
module AddressSpaces {
  import opened SizeClass
  import opened Utils

  /** The addresses `ptr` to `ptr + len - 1`. */
  predicate In(a: nat, ptr: int, len: nat) {
    ptr <= a < ptr + len
  }

  /** The mapping at `ptr`, which is a page and not the first one, consists of zero bytes; nothing
      else differs. */
  ghost predicate Mapped(before: map<nat, bv8>, after: map<nat, bv8>, ptr: nat, len: nat) {
    && ptr > 0 && ptr % PAGE_SIZE == 0
    && (forall a: nat :: In(a, ptr, len) ==> a !in before)
    && (forall a :: a in after <==> a in before || In(a, ptr, len))
    && (forall a :: a in before ==> after[a] == before[a])
    && (forall a :: a in after && In(a, ptr, len) ==> after[a] == 0)
  }

  ghost predicate Unmapped(before: map<nat, bv8>, after: map<nat, bv8>, ptr: nat, len: nat) {
    && (forall a :: a in after <==> a in before && !In(a, ptr, len))
    && (forall a :: a in after ==> after[a] == before[a])
  }

  /** The first `n` bytes at `dst` are those that were at `src`; nothing else differs. */
  ghost predicate Copied(before: map<nat, bv8>, after: map<nat, bv8>, dst: nat, src: nat, n: nat) {
    && after.Keys == before.Keys
    && (forall a :: a in after && !In(a, dst, n) ==> after[a] == before[a])
    && (forall a: nat :: In(a, dst, n) ==> a in after && a - dst + src in before && after[a] == before[a - dst + src])
  }

  /** All bytes of a range are mapped. */
  ghost predicate HasRange(bytes: map<nat, bv8>, ptr: nat, len: nat) {
    forall a: nat :: In(a, ptr, len) ==> a in bytes
  }

  /** A new mapping does not overlap a range that was mapped before. */
  lemma FreshApart(before: map<nat, bv8>, after: map<nat, bv8>, base: nat, len: nat, ptr: nat, n: nat)
    requires Mapped(before, after, base, len) && HasRange(before, ptr, n) && len > 0 && n > 0
    ensures ptr + n <= base || base + len <= ptr
  {
    var a := if ptr <= base then base else ptr;
    assert In(a, ptr, n) ==> a in before;
    assert In(a, base, len) ==> a !in before;
  }

  /** Largest number that can be rounded up to pages in 64 bits. */
  const MAX_REQUEST: nat := WORD_LIMIT - PAGE_SIZE

  /** Rounds up to pages, in 64 bits. */
  function AlignUpPage(n: nat): nat {
    var m := (n + (PAGE_SIZE - 1)) % WORD_LIMIT;
    m - m % PAGE_SIZE
  }

  lemma PageAligned(n: nat)
    ensures AlignUpPage(n) % PAGE_SIZE == 0 && AlignUpPage(n) <= MAX_REQUEST
    ensures n <= MAX_REQUEST ==> n <= AlignUpPage(n) < n + PAGE_SIZE
    ensures n <= MAX_REQUEST && n % PAGE_SIZE == 0 ==> AlignUpPage(n) == n
  {
  }

  /** Rounding up yields at least the number exactly if it does not wrap around; if it does, 0 is left. */
  lemma PageRoundsUp(n: nat)
    requires n < WORD_LIMIT
    ensures AlignUpPage(n) >= n <==> n <= MAX_REQUEST
    ensures AlignUpPage(n) == 0 <==> n == 0 || n > MAX_REQUEST
  {
  }

  /** The first page that does not start before `n`. */
  function PageFrom(n: nat): (p: nat)
    ensures p % PAGE_SIZE == 0 && n <= p
  {
    (n + (PAGE_SIZE - 1)) / PAGE_SIZE * PAGE_SIZE
  }

  class AddressSpace {
    var bytes: map<nat, bv8>

    constructor ()
      ensures bytes == map[]
    {
      bytes := map[];
    }

    /** The system may place a mapping anywhere: at any page that leaves all mappings alone. It refuses a
        mapping of length 0. */
    method Map(len: nat) returns (ptr: nat)
      requires len > 0
      modifies this
      ensures Mapped(old(bytes), bytes, ptr, len)
    {
      var hint: nat := *;
      ptr := PageFrom(hint);
      if ptr == 0 || exists a :: a in bytes.Keys && ptr <= a < ptr + len {
        ptr := Beyond(bytes.Keys);
      }
      bytes := map a | a in bytes.Keys + (set b | ptr <= b < ptr + len && In(b, ptr, len)) :: if ptr <= a < ptr + len
        then 0 else bytes[a];
    }

    method Unmap(ptr: nat, len: nat)
      modifies this
      ensures Unmapped(old(bytes), bytes, ptr, len)
    {
      bytes := map a | a in bytes.Keys && !(ptr <= a < ptr + len) :: bytes[a];
    }

    /** Copies between two mapped ranges that do not overlap. */
    method Copy(dst: nat, src: nat, n: nat)
      requires HasRange(bytes, dst, n) && HasRange(bytes, src, n)
      requires dst + n <= src || src + n <= dst
      modifies this
      ensures Copied(old(bytes), bytes, dst, src, n)
    {
      for i := 0 to n
        invariant bytes.Keys == old(bytes).Keys
        invariant forall a :: a in bytes && !In(a, dst, i) ==> bytes[a] == old(bytes)[a]
        invariant forall a: nat :: In(a, dst, i) ==>
                    a in bytes && a - dst + src in old(bytes) && bytes[a] == old(bytes)[a - dst + src]
      {
        assert In(dst + i, dst, n) && In(src + i, src, n) && !In(src + i, dst, i);
        bytes := bytes[dst + i := bytes[src + i]];
      }
    }

    /** Overwrites a mapped range with zero bytes. */
    method Clear(dst: nat, n: nat)
      requires HasRange(bytes, dst, n)
      modifies this
      ensures bytes.Keys == old(bytes).Keys
      ensures forall a :: a in bytes ==> bytes[a] == if In(a, dst, n) then 0 else old(bytes)[a]
    {
      for i := 0 to n
        invariant bytes.Keys == old(bytes).Keys
        invariant forall a :: a in bytes ==> bytes[a] == if In(a, dst, i) then 0 else old(bytes)[a]
      {
        assert In(dst + i, dst, n);
        bytes := bytes[dst + i := 0];
      }
    }
  }

  /** A page behind all addresses of a finite set. */
  method Beyond(s: set<nat>) returns (p: nat)
    ensures p > 0 && p % PAGE_SIZE == 0 && forall a :: a in s ==> a < p
  {
    p := PAGE_SIZE;
    var rest := s;
    while rest != {}
      invariant p > 0 && p % PAGE_SIZE == 0 && forall a :: a in s && a !in rest ==> a < p
      decreases rest
    {
      var a :| a in rest;
      if p <= a {
        p := PageFrom(a + 1);
      }
      rest := rest - {a};
    }
  }
}
