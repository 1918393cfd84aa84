/** Copying between the kernel and user memory (kernel/vm.c): page by page in the code, byte by byte
    in what it means.  Page tables and the data pages they map are kept apart. */
module VmCopy {
  import opened Common
  import opened VmTables
  import opened Vm

  /** Physical memory, byte by byte. */
  type Bytes = map<nat, nat>

  /** An address space: the tables of one root. */
  datatype Space = Space(ts: Tables, at: Layout, root: nat)

  /** Physical address of the page of `va`; 0 if it is not mapped for the user. */
  function PageAddr(s: Space, va: nat): nat
  {
    Phys(s.ts, s.at, s.root, PageRoundDown(va))
  }

  /** Where the user byte `j` after `va` lies; 0 if its page is not mapped. */
  function Addr(s: Space, va: nat, j: nat): nat
  {
    if PageAddr(s, va + j) == 0 then 0 else PageAddr(s, va + j) + (va + j) % PGSIZE
  }

  /** In terms of the entry for the page: it must be valid, for the user, and not for page 0. */
  lemma AddrMeans(s: Space, va: nat, j: nat)
    ensures var a := va + j;
      var w := Leaf(s.ts, s.at, s.root, a - a % 4096);
      Addr(s, va, j) ==
        if a - a % 4096 < 0x40_0000_0000 && w % 2 == 1 && w / 16 % 2 == 1 && w / 1024 > 0
        then w / 1024 * 4096 + a % 4096 else 0
  {
  }

  function Byte(mem: Bytes, a: nat): nat
  {
    if a in mem then mem[a] else 0
  }

  /** The `n` bytes from `va` on are all mapped. */
  ghost predicate Mapped(s: Space, va: nat, n: nat)
  {
    forall j :: 0 <= j < n ==> Addr(s, va, j) > 0
  }

  /** All mapped user bytes exist. */
  ghost predicate Backed(mem: Bytes, s: Space)
  {
    forall va: nat, j: nat :: Addr(s, va, j) > 0 ==> Addr(s, va, j) in mem
  }

  /** Memory with `src` written from `va` on, one byte after the other. */
  function Poke(mem: Bytes, s: Space, va: nat, src: seq<nat>): Bytes
  {
    if src == [] then mem else Poke(mem, s, va, src[..|src| - 1])[Addr(s, va, |src| - 1) := src[|src| - 1]]
  }

  /** No two bytes of the range are the same in physical memory. */
  ghost predicate Unaliased(s: Space, va: nat, n: nat)
  {
    forall i, j :: 0 <= i < j < n ==> Addr(s, va, i) != Addr(s, va, j)
  }

  lemma AddrShift(s: Space, va: nat, i: nat, j: nat)
    ensures Addr(s, va + i, j) == Addr(s, va, i + j)
  {
    assert va + i + j == va + (i + j);
  }

  /** In a mapped page addresses go up with the offset; in an unmapped one nothing is mapped. */
  lemma SamePage(s: Space, va: nat, j: nat)
    requires va % PGSIZE + j < PGSIZE
    ensures Addr(s, va, j) == if PageAddr(s, va) == 0 then 0 else PageAddr(s, va) + va % PGSIZE + j
  {
    OffsetInPage(va, j);
  }

  lemma OffsetInPage(va: nat, j: nat)
    requires va % PGSIZE + j < PGSIZE
    ensures PageRoundDown(va + j) == PageRoundDown(va) && (va + j) % PGSIZE == va % PGSIZE + j
  {
    var q := va / PGSIZE;
    assert va + j == q * PGSIZE + (va % PGSIZE + j);
  }

  /** What has been written can be read back, if no byte of the range is written twice. */
  lemma {:induction false} PokeReads(mem: Bytes, s: Space, va: nat, src: seq<nat>, j: nat)
    requires Unaliased(s, va, |src|) && j < |src|
    ensures Byte(Poke(mem, s, va, src), Addr(s, va, j)) == src[j]
    decreases |src|
  {
    hide Addr;
    var n := |src| - 1;
    if j < n {
      PokeReads(mem, s, va, src[..n], j);
      assert Addr(s, va, j) != Addr(s, va, n);
    }
  }

  /** All other bytes stay as they are. */
  lemma {:induction false} PokeElsewhere(mem: Bytes, s: Space, va: nat, src: seq<nat>, a: nat)
    requires forall j :: 0 <= j < |src| ==> Addr(s, va, j) != a
    ensures Byte(Poke(mem, s, va, src), a) == Byte(mem, a)
    decreases |src|
  {
    hide Addr;
    if src != [] { PokeElsewhere(mem, s, va, src[..|src| - 1], a); }
  }

  /** copyin of a range that copyout has just written gives the bytes back, whatever page boundaries lie
      in between, if the pages are not aliased. */
  lemma CopyRoundTrip(mem: Bytes, s: Space, va: nat, src: seq<nat>, got: seq<nat>)
    requires Unaliased(s, va, |src|) && |got| == |src|
    requires forall j :: 0 <= j < |got| ==> got[j] == Byte(Poke(mem, s, va, src), Addr(s, va, j))
    ensures got == src
  {
    forall j | 0 <= j < |src| ensures got[j] == src[j] { PokeReads(mem, s, va, src, j); }
  }

  /** Different pages of memory behind different pages of the range: no byte is shared. */
  lemma UnaliasedPages(s: Space, va: nat, n: nat)
    requires Mapped(s, va, n)
    requires forall a: nat, b: nat :: va <= a < va + n && va <= b < va + n && PageRoundDown(a) != PageRoundDown(b) ==>
      PageAddr(s, a) != PageAddr(s, b)
    ensures Unaliased(s, va, n)
  {
    forall i, j | 0 <= i < j < n ensures Addr(s, va, i) != Addr(s, va, j) {
      assert Addr(s, va, i) > 0 && Addr(s, va, j) > 0;
      AddressesApart(s, va + i, va + j);
    }
  }

  lemma AddressesApart(s: Space, a: nat, b: nat)
    requires a != b && PageAddr(s, a) > 0 && PageAddr(s, b) > 0 &&
      (PageRoundDown(a) != PageRoundDown(b) ==> PageAddr(s, a) != PageAddr(s, b))
    ensures PageAddr(s, a) + a % PGSIZE != PageAddr(s, b) + b % PGSIZE
  {
    hide PageAddr; hide PageRoundDown;
    PageAligned(s, a);
    PageAligned(s, b);
    SameAddress(a, b);
    PagesPlus(PageAddr(s, a), PageAddr(s, b), a % PGSIZE, b % PGSIZE);
  }

  lemma SameAddress(a: nat, b: nat)
    ensures PageRoundDown(a) == PageRoundDown(b) && a % PGSIZE == b % PGSIZE ==> a == b
  {
  }

  lemma PagesPlus(x: nat, y: nat, i: nat, j: nat)
    requires x % PGSIZE == 0 && y % PGSIZE == 0 && i < PGSIZE && j < PGSIZE && (x != y || i != j)
    ensures x + i != y + j
  {
  }

  lemma PageAligned(s: Space, a: nat)
    ensures PageAddr(s, a) % PGSIZE == 0
  {
    assert PageRoundDown(a) == a / PGSIZE * PGSIZE;
    assert PageRoundDown(a) % PGSIZE == 0;
    PhysAligned(s, PageRoundDown(a));
  }

  lemma PhysAligned(s: Space, va: nat)
    requires va % PGSIZE == 0
    ensures Phys(s.ts, s.at, s.root, va) % PGSIZE == 0
  {
    var w := Leaf(s.ts, s.at, s.root, va);
    hide Leaf;
    assert PTE2PA(w) % PGSIZE == 0;
  }

  // ---------------------------------------------------------------------------------------
  // Strings

  /** How far a string can be read: up to its zero byte, an unmapped byte, or the limit. */
  function Reach(mem: Bytes, s: Space, va: nat, k: nat, max: nat): (r: nat)
    requires k <= max
    ensures k <= r <= max
    decreases max - k
  {
    if k == max || Addr(s, va, k) == 0 || Byte(mem, Addr(s, va, k)) == 0 then k else Reach(mem, s, va, k + 1, max)
  }

  /** The result of reading a string: its length if its end was found within `max` bytes, else -1. */
  function StrLen(mem: Bytes, s: Space, va: nat, max: nat): int
  {
    var k := Reach(mem, s, va, 0, max);
    if k < max && Addr(s, va, k) > 0 then k else -1
  }

  /** The buffer after the string has been read: the bytes up to its end, and zero if it was found. */
  function StrBuf(mem: Bytes, s: Space, va: nat, max: nat, buf: seq<nat>): seq<nat>
  {
    var k := Reach(mem, s, va, 0, max);
    var all: seq<nat> := seq(|buf|, (j: int) requires 0 <= j < |buf| =>
      if j < k then Byte(mem, Addr(s, va, j)) else if j == k && StrLen(mem, s, va, max) >= 0 then 0 else buf[j]);
    all
  }

  /** A C string of length `n` lies at `va`. */
  ghost predicate EndsAt(mem: Bytes, s: Space, va: nat, n: nat)
  {
    && (forall j :: 0 <= j < n ==> Addr(s, va, j) > 0 && Byte(mem, Addr(s, va, j)) != 0)
    && Addr(s, va, n) > 0 && Byte(mem, Addr(s, va, n)) == 0
  }

  /** The result is the length of the string if one ends within the limit, and -1 if none does; the buffer
      then holds the string and its zero byte, and otherwise what could be read. */
  lemma StrMeans(mem: Bytes, s: Space, va: nat, max: nat, buf: seq<nat>)
    requires max <= |buf|
    ensures var r, got := StrLen(mem, s, va, max), StrBuf(mem, s, va, max, buf);
      && (forall n: nat :: r == n <==> n < max && EndsAt(mem, s, va, n))
      && -1 <= r < max && |got| == |buf|
      && (r >= 0 ==> got[r] == 0 && forall j :: 0 <= j < r ==> got[j] == Byte(mem, Addr(s, va, j)))
      && (r >= 0 ==> forall j :: r < j < |buf| ==> got[j] == buf[j])
  {
    hide Addr; hide Byte;
    ReachStops(mem, s, va, 0, max);
  }

  lemma {:induction false} ReachStops(mem: Bytes, s: Space, va: nat, k: nat, max: nat)
    requires k <= max
    ensures var r := Reach(mem, s, va, k, max);
      && (forall j :: k <= j < r ==> Addr(s, va, j) > 0 && Byte(mem, Addr(s, va, j)) != 0)
      && (r < max ==> Addr(s, va, r) == 0 || Byte(mem, Addr(s, va, r)) == 0)
    decreases max - k
  {
    hide Addr; hide Byte;
    if k < max && Addr(s, va, k) != 0 && Byte(mem, Addr(s, va, k)) != 0 { ReachStops(mem, s, va, k + 1, max); }
  }

  /** `k` bytes have been read, none of them zero, and copied to the buffer. */
  ghost predicate ReadSoFar(mem: Bytes, s: Space, va: nat, k: nat, max: nat, buf0: seq<nat>, buf: seq<nat>)
  {
    && k <= max <= |buf| == |buf0| && Reach(mem, s, va, 0, max) == Reach(mem, s, va, k, max)
    && forall j :: 0 <= j < |buf| ==> buf[j] == if j < k then Byte(mem, Addr(s, va, j)) else buf0[j]
  }

  lemma ReadNext(mem: Bytes, s: Space, va: nat, k: nat, max: nat, buf0: seq<nat>, buf: seq<nat>)
    requires ReadSoFar(mem, s, va, k, max, buf0, buf)
    ensures k < max && Addr(s, va, k) > 0 && Byte(mem, Addr(s, va, k)) != 0 ==>
      ReadSoFar(mem, s, va, k + 1, max, buf0, buf[k := Byte(mem, Addr(s, va, k))])
    ensures k < max && Addr(s, va, k) > 0 && Byte(mem, Addr(s, va, k)) == 0 ==>
      StrLen(mem, s, va, max) == k && StrBuf(mem, s, va, max, buf0) == buf[k := 0]
    ensures k == max || Addr(s, va, k) == 0 ==>
      StrLen(mem, s, va, max) == -1 && StrBuf(mem, s, va, max, buf0) == buf
  {
    hide Addr;
  }

  // ---------------------------------------------------------------------------------------
  // The methods

  class Copier {
    const vm: PageTables
    var mem: Bytes

    constructor (vm: PageTables, mem: Bytes)
      ensures this.vm == vm && this.mem == mem
    {
      this.vm, this.mem := vm, mem;
    }

    ghost function SpaceOf(root: nat): Space
      reads vm
    {
      Space(vm.tables, vm.at, root)
    }

    ghost predicate Ready(root: nat)
      reads this, vm
    {
      vm.Valid() && Top(root) in vm.at && Backed(mem, SpaceOf(root))
    }

    /** copyout: `done` bytes are copied; it fails at the first byte that is not mapped. */
    method CopyOut(root: nat, dstva: nat, src: seq<nat>) returns (r: int, ghost done: nat)
      requires Ready(root)
      modifies vm`tables, vm`free, vm`at, this`mem
      ensures Ready(root) && SpaceOf(root) == old(SpaceOf(root)) && vm.free == old(vm.free)
      ensures r == (if done == |src| then 0 else -1) && done <= |src| && Mapped(SpaceOf(root), dstva, done)
      ensures done < |src| ==> Addr(SpaceOf(root), dstva, done) == 0
      ensures mem == Poke(old(mem), SpaceOf(root), dstva, src[..done])
      ensures forall a :: (forall j :: 0 <= j < done ==> Addr(SpaceOf(root), dstva, j) != a) ==>
        Byte(mem, a) == Byte(old(mem), a)
      ensures Unaliased(SpaceOf(root), dstva, done) ==>
        forall j :: 0 <= j < done ==> Byte(mem, Addr(SpaceOf(root), dstva, j)) == src[j]
    {
      r, done := CopyLoop(root, dstva, src);
      hide Addr; hide Byte; hide Poke; hide Ready;
      forall a | forall j :: 0 <= j < done ==> Addr(SpaceOf(root), dstva, j) != a
        ensures Byte(mem, a) == Byte(old(mem), a)
      {
        PokeElsewhere(old(mem), SpaceOf(root), dstva, src[..done], a);
      }
      if Unaliased(SpaceOf(root), dstva, done) {
        forall j | 0 <= j < done ensures Byte(mem, Addr(SpaceOf(root), dstva, j)) == src[j] {
          PokeReads(old(mem), SpaceOf(root), dstva, src[..done], j);
        }
      }
    }

    /** The loop of copyout. */
    method CopyLoop(root: nat, dstva: nat, src: seq<nat>) returns (r: int, ghost done: nat)
      requires Ready(root)
      modifies vm`tables, vm`free, vm`at, this`mem
      ensures Ready(root) && SpaceOf(root) == old(SpaceOf(root)) && vm.free == old(vm.free)
      ensures r == (if done == |src| then 0 else -1) && done <= |src| && Mapped(SpaceOf(root), dstva, done)
      ensures done < |src| ==> Addr(SpaceOf(root), dstva, done) == 0
      ensures mem == Poke(old(mem), SpaceOf(root), dstva, src[..done])
    {
      hide Addr; hide Backed; hide PageRoundDown; hide Phys; hide Ok; hide Poke;
      PokeNone(mem, SpaceOf(root), dstva, src);
      var va, len, from := dstva, |src|, 0;
      done := 0;
      while len > 0
        invariant from == done && 0 <= len && done + len == |src| && va == dstva + done
        invariant SpaceOf(root) == old(SpaceOf(root)) && vm.free == old(vm.free) && Ready(root)
        invariant Mapped(SpaceOf(root), dstva, done)
        invariant mem == Poke(old(mem), SpaceOf(root), dstva, src[..done])
        decreases len
      {
        var va0 := PageRoundDown(va);
        var pa0 := vm.WalkAddr(root, va0);
        PageStart(SpaceOf(root), dstva, done);
        if pa0 == 0 {
          return -1, done;
        }
        var n := PGSIZE - (va - va0);
        if n > len {
          n := len;
        }
        Memmove(root, pa0 + (va - va0), src, from, n, dstva, old(mem));
        len := len - n;
        from := from + n;
        done := done + n;
        va := va0 + PGSIZE;
        if len == 0 {
          return 0, done;
        }
      }
      r := 0;
    }

    /** memmove of `n` bytes of `src`, from index `from`, to physical address `pa`. */
    method Memmove(ghost root: nat, pa: nat, src: seq<nat>, from: nat, n: nat, ghost dstva: nat, ghost mem0: Bytes)
      requires Ready(root) && from + n <= |src| && dstva + from + n <= PageRoundDown(dstva + from) + PGSIZE
      requires Addr(SpaceOf(root), dstva, from) == pa > 0 && Mapped(SpaceOf(root), dstva, from)
      requires mem == Poke(mem0, SpaceOf(root), dstva, src[..from])
      modifies this`mem
      ensures Ready(root) && Mapped(SpaceOf(root), dstva, from + n)
      ensures mem == Poke(mem0, SpaceOf(root), dstva, src[..from + n])
    {
      hide Addr; hide PageRoundDown; hide Ok;
      for i := 0 to n
        invariant Ready(root) && Mapped(SpaceOf(root), dstva, from + i)
        invariant mem == Poke(mem0, SpaceOf(root), dstva, src[..from + i])
      {
        PageStep(SpaceOf(root), dstva, from, i);
        assert src[..from + i + 1][..from + i] == src[..from + i];
        mem := mem[pa + i := src[from + i]];
      }
    }

    /** copyin: `done` bytes are copied; it fails at the first byte that is not mapped. */
    method CopyIn(root: nat, dst: array<nat>, srcva: nat, count: nat) returns (r: int, ghost done: nat)
      requires Ready(root) && count <= dst.Length
      modifies vm`tables, vm`free, vm`at, dst
      ensures Ready(root) && SpaceOf(root) == old(SpaceOf(root)) && vm.free == old(vm.free) && mem == old(mem)
      ensures r == (if done == count then 0 else -1) && done <= count && Mapped(SpaceOf(root), srcva, done)
      ensures done < count ==> Addr(SpaceOf(root), srcva, done) == 0
      ensures forall j :: 0 <= j < dst.Length ==>
        dst[j] == if j < done then Byte(mem, Addr(SpaceOf(root), srcva, j)) else old(dst[j])
    {
      hide Addr; hide Backed; hide PageRoundDown; hide Phys; hide Ok;
      var va, len, d := srcva, count, 0;
      done := 0;
      while len > 0
        invariant d == done && 0 <= len && done + len == count && va == srcva + done
        invariant SpaceOf(root) == old(SpaceOf(root)) && vm.free == old(vm.free) && Ready(root)
        invariant Mapped(SpaceOf(root), srcva, done)
        invariant forall j :: 0 <= j < dst.Length ==>
          dst[j] == if j < done then Byte(mem, Addr(SpaceOf(root), srcva, j)) else old(dst[j])
        decreases len
      {
        var va0 := PageRoundDown(va);
        var pa0 := vm.WalkAddr(root, va0);
        PageStart(SpaceOf(root), srcva, done);
        if pa0 == 0 {
          return -1, done;
        }
        var n := PGSIZE - (va - va0);
        if n > len {
          n := len;
        }
        Fetch(root, pa0 + (va - va0), dst, d, n, srcva);
        len := len - n;
        d := d + n;
        done := done + n;
        va := va0 + PGSIZE;
        if len == 0 {
          return 0, done;
        }
      }
      r := 0;
    }

    /** copyout and then copyin over the same range: it works exactly for a mapped range, and the bytes
        come back if no byte of it is aliased. */
    method OutAndIn(root: nat, va: nat, src: seq<nat>, dst: array<nat>) returns (r: int)
      requires Ready(root) && dst.Length == |src|
      modifies vm`tables, vm`free, vm`at, this`mem, dst
      ensures Ready(root) && SpaceOf(root) == old(SpaceOf(root))
      ensures r == (if Mapped(SpaceOf(root), va, |src|) then 0 else -1)
      ensures r == 0 && Unaliased(SpaceOf(root), va, |src|) ==> dst[..] == src
    {
      hide Addr; hide Backed; hide Ok; hide Poke; hide Byte;
      ghost var before, done, got := mem, 0, 0;
      r, done := CopyOut(root, va, src);
      if r != 0 {
        return;
      }
      assert src[..done] == src;
      r, got := CopyIn(root, dst, va, |src|);
      if Unaliased(SpaceOf(root), va, |src|) {
        CopyRoundTrip(before, SpaceOf(root), va, src, dst[..]);
      }
    }

    /** memmove of `n` bytes from physical address `pa` to index `d` of the kernel's buffer. */
    method Fetch(ghost root: nat, pa: nat, dst: array<nat>, d: nat, n: nat, ghost srcva: nat)
      requires Ready(root) && d + n <= dst.Length && srcva + d + n <= PageRoundDown(srcva + d) + PGSIZE
      requires Addr(SpaceOf(root), srcva, d) == pa > 0 && Mapped(SpaceOf(root), srcva, d)
      modifies dst
      ensures Mapped(SpaceOf(root), srcva, d + n)
      ensures forall j :: 0 <= j < dst.Length ==>
        dst[j] == if d <= j < d + n then Byte(mem, Addr(SpaceOf(root), srcva, j)) else old(dst[j])
    {
      hide Addr; hide PageRoundDown; hide Ok;
      for i := 0 to n
        invariant Mapped(SpaceOf(root), srcva, d + i)
        invariant forall j :: 0 <= j < dst.Length ==>
          dst[j] == if d <= j < d + i then Byte(mem, Addr(SpaceOf(root), srcva, j)) else old(dst[j])
      {
        PageStep(SpaceOf(root), srcva, d, i);
        dst[d + i] := mem[pa + i];
      }
    }

    /** copyinstr */
    method CopyInStr(root: nat, dst: array<nat>, srcva: nat, max: nat) returns (r: int)
      requires Ready(root) && max <= dst.Length
      modifies vm`tables, vm`free, vm`at, dst
      ensures Ready(root) && SpaceOf(root) == old(SpaceOf(root)) && vm.free == old(vm.free) && mem == old(mem)
      ensures r == StrLen(mem, SpaceOf(root), srcva, max)
      ensures dst[..] == StrBuf(mem, SpaceOf(root), srcva, max, old(dst[..]))
    {
      hide Addr; hide Backed; hide Reach; hide StrLen; hide StrBuf; hide ReadSoFar; hide PageRoundDown; hide Phys;
        hide Ok;
      NothingRead(mem, SpaceOf(root), srcva, max, dst[..]);
      var len, va := 0, srcva;
      while len < max
        invariant len <= max && va == srcva + len
        invariant SpaceOf(root) == old(SpaceOf(root)) && vm.free == old(vm.free) && Ready(root)
        invariant ReadSoFar(mem, SpaceOf(root), srcva, len, max, old(dst[..]), dst[..])
        decreases max - len
      {
        var va0 := PageRoundDown(va);
        var pa0 := vm.WalkAddr(root, va0);
        PageStart(SpaceOf(root), srcva, len);
        ReadNext(mem, SpaceOf(root), srcva, len, max, old(dst[..]), dst[..]);
        if pa0 == 0 {
          return -1;
        }
        var n := PGSIZE - (va - va0);
        if n > max - len {
          n := max - len;
        }
        ghost var start := len;
        for i := 0 to n
          invariant len == start + i && va == srcva + len 
          invariant va < va0 + PGSIZE || i == n
          invariant SpaceOf(root) == old(SpaceOf(root)) && vm.free == old(vm.free) && Ready(root)
          invariant ReadSoFar(mem, SpaceOf(root), srcva, len, max, old(dst[..]), dst[..])
        {
          PageStep(SpaceOf(root), srcva, start, i);
          ReadNext(mem, SpaceOf(root), srcva, len, max, old(dst[..]), dst[..]);
          BackedAt(mem, SpaceOf(root), srcva, len);
          ghost var before := dst[..];
          var c := mem[pa0 + (va - va0)];
          if c == 0 {
            dst[len] := 0;
            assert dst[..] == before[len := 0];
            return len;
          }
          dst[len] := c;
          assert dst[..] == before[len := c];
          len := len + 1;
          va := va + 1;
        }
      }
      ReadNext(mem, SpaceOf(root), srcva, len, max, old(dst[..]), dst[..]);
      return -1;
    }

    /** fetchstr: the same, one copyin for every byte. */
    method FetchStr(root: nat, srcva: nat, dst: array<nat>, max: nat) returns (r: int)
      requires Ready(root) && max <= dst.Length
      modifies vm`tables, vm`free, vm`at, dst
      ensures Ready(root) && SpaceOf(root) == old(SpaceOf(root)) && vm.free == old(vm.free) && mem == old(mem)
      ensures r == StrLen(mem, SpaceOf(root), srcva, max)
      ensures dst[..] == StrBuf(mem, SpaceOf(root), srcva, max, old(dst[..]))
    {
      hide Addr; hide Backed; hide Reach; hide StrLen; hide StrBuf; hide ReadSoFar; hide PageRoundDown; hide Phys;
        hide Ok;
      NothingRead(mem, SpaceOf(root), srcva, max, dst[..]);
      var len, va := 0, srcva;
      while len < max
        invariant len <= max && va == srcva + len && mem == old(mem)
        invariant SpaceOf(root) == old(SpaceOf(root)) && vm.free == old(vm.free) && Ready(root)
        invariant ReadSoFar(mem, SpaceOf(root), srcva, len, max, old(dst[..]), dst[..])
        decreases max - len
      {
        ReadNext(mem, SpaceOf(root), srcva, len, max, old(dst[..]), dst[..]);
        AddrShift(SpaceOf(root), srcva, len, 0);
        var one := new nat[1];
        ghost var before := dst[..];
        var got, _ := CopyIn(root, one, va, 1);
        if got < 0 {
          return -1;
        }
        var c := one[0];
        if c == 0 {
          dst[len] := 0;
          assert dst[..] == before[len := 0];
          return len;
        }
        dst[len] := c;
        assert dst[..] == before[len := c];
        len := len + 1;
        va := va + 1;
      }
      ReadNext(mem, SpaceOf(root), srcva, len, max, old(dst[..]), dst[..]);
      return -1;
    }
  }

  lemma PokeNone(mem: Bytes, s: Space, va: nat, src: seq<nat>)
    ensures Poke(mem, s, va, src[..0]) == mem && src[..|src|] == src
  {
  }

  lemma NothingRead(mem: Bytes, s: Space, va: nat, max: nat, buf: seq<nat>)
    requires max <= |buf|
    ensures ReadSoFar(mem, s, va, 0, max, buf, buf)
  {
  }

  lemma BackedAt(mem: Bytes, s: Space, va: nat, j: nat)
    requires Backed(mem, s)
    ensures Addr(s, va, j) > 0 ==> Addr(s, va, j) in mem
  {
  }

  /** The byte at which a copy loop starts a page. */
  lemma PageStart(s: Space, va: nat, k: nat)
    ensures var b := va + k;
      && PageRoundDown(b) <= b < PageRoundDown(b) + PGSIZE
      && Addr(s, va, k) == (var pa0 := Phys(s.ts, s.at, s.root, PageRoundDown(b));
        if pa0 == 0 then 0 else pa0 + (b - PageRoundDown(b)))
  {
  }

  /** The byte `i` further on in the same page. */
  lemma PageStep(s: Space, va: nat, k: nat, i: nat)
    requires va + k + i < PageRoundDown(va + k) + PGSIZE
    ensures Addr(s, va, k) > 0 ==> Addr(s, va, k + i) == Addr(s, va, k) + i
    ensures Addr(s, va, k) == 0 ==> Addr(s, va, k + i) == 0
  {
    SamePage(s, va + k, i);
    SamePage(s, va + k, 0);
    AddrShift(s, va, k, i);
    AddrShift(s, va, k, 0);
  }
}
