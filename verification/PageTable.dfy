/** A linear memory as it is stored: a table of tables of tables of 4096-byte pages, each made
    when it is first touched. It stands for a flat memory of zero bytes. */
module PageTable {
  import opened Syntax
  import opened Runtime
  import opened Bulk

  const PAGE: nat := 0x1000

  type Page = array<Byte>
  type Table0 = array<array?<Byte>>
  type Table1 = array<array?<array?<Byte>>>

  // ---------------------------------------------------------------- splitting an address

  /** The three table indices of an address: bits 30-31, 21-29 and 12-20. */
  function Vpn2(ea: nat): (i: nat)
    ensures i < 4
  {
    ea / 0x4000_0000 % 4
  }

  function Vpn1(ea: nat): (i: nat)
    ensures i < 0x200
  {
    ea / 0x20_0000 % 0x200
  }

  function Vpn0(ea: nat): (i: nat)
    ensures i < 0x200
  {
    ea / 0x1000 % 0x200
  }

  function Region(ea: nat): (nat, nat, nat) { (Vpn2(ea), Vpn1(ea), Vpn0(ea)) }

  /** On 32-bit addresses the indices and the offset determine the address. */
  lemma SplitAddress(ea: nat)
    requires ea < SPACE
    ensures ea == Vpn2(ea) * 0x4000_0000 + Vpn1(ea) * 0x20_0000 + Vpn0(ea) * 0x1000 + ea % PAGE
  {
  }

  lemma SplitInjective(a: nat, b: nat)
    requires a < SPACE && b < SPACE
    requires Region(a) == Region(b) && a % PAGE == b % PAGE
    ensures a == b
  {
    SplitAddress(a);
    SplitAddress(b);
  }

  /** The indices are functions of the page number. */
  lemma ByPageNumber(ea: nat)
    ensures Vpn2(ea) == ea / PAGE / 0x200 / 0x200 % 4 && Vpn1(ea) == ea / PAGE / 0x200 % 0x200 && Vpn0(ea) == ea / PAGE % 0x200
  {
  }

  lemma SamePage(ea: nat, n: nat, i: nat)
    requires i < n && !CrossesPage(ea, n)
    ensures (ea + i) / PAGE == ea / PAGE && (ea + i) % PAGE == ea % PAGE + i
  {
  }

  // ---------------------------------------------------------------- the memory instance

  /** How a memory instruction ends. A load or store that crosses a page is translated at its
      first byte only, and what it touches beyond the page is left open; so is what follows a
      signed overflow in a loop. */
  datatype Accessed<+T> = Accessed(value: T) | OutOfRange | LeftOpen

  class Memory {
    var numPages: nat
    var typeMin: U32 // the least size in the memory's type, updated as the memory grows
    const max: U32
    const table2: array<array?<array?<array?<Byte>>>>

    // What the tables hold, by the indices that lead there.
    ghost var ones: map<nat, Table1>
    ghost var zeros: map<(nat, nat), Table0>
    ghost var pages: map<(nat, nat, nat), Page>

    // The tables of one level are distinct and of full length; their entries are null or
    // the tables of the next level.

    ghost predicate Level2()
      reads this`ones, table2
    {
      && table2.Length == 4
      && (forall i :: 0 <= i < 4 ==> (if table2[i] == null then i !in ones else i in ones && ones[i] == table2[i]))
    }

    ghost predicate Ones()
      reads this`ones
    {
      && (forall i :: i in ones ==> i < 4 && ones[i].Length == 0x200)
      && (forall i, j :: i in ones && j in ones && i != j ==> ones[i] != ones[j])
    }

    ghost predicate Level1()
      reads this`ones, this`zeros, ones.Values
    {
      && (forall k :: k in zeros ==> k.0 in ones && k.1 < 0x200)
      && (forall i, j :: i in ones && 0 <= j < ones[i].Length ==>
            (if ones[i][j] == null then (i, j) !in zeros else (i, j) in zeros && zeros[(i, j)] == ones[i][j]))
    }

    ghost predicate Zeros()
      reads this`zeros
    {
      && (forall k :: k in zeros ==> zeros[k].Length == 0x200)
      && (forall k, l :: k in zeros && l in zeros && k != l ==> zeros[k] != zeros[l])
    }

    ghost predicate Level0()
      reads this`zeros, this`pages, zeros.Values
    {
      && (forall p :: p in pages ==> (p.0, p.1) in zeros && p.2 < 0x200)
      && (forall k, j :: k in zeros && 0 <= j < zeros[k].Length ==>
            (if zeros[k][j] == null then (k.0, k.1, j) !in pages
             else (k.0, k.1, j) in pages && pages[(k.0, k.1, j)] == zeros[k][j]))
    }

    ghost predicate Pages()
      reads this`pages
    {
      && (forall p :: p in pages ==> pages[p].Length == PAGE)
      && (forall p, q :: p in pages && q in pages && p != q ==> pages[p] != pages[q])
    }

    ghost predicate Valid()
      reads this`ones, this`zeros, this`pages, table2, ones.Values, zeros.Values
    {
      Ones() && Zeros() && Pages() && Level2() && Level1() && Level0()
    }

    ghost function Parts(): set<object>
      reads this
    {
      {this, table2} + ones.Values + zeros.Values + pages.Values
    }

    constructor (min: nat, max: U32)
      requires min <= NUM_PAGE_MAX
      ensures fresh(Parts()) && Represents(MemInst(min, max, map[]))
    {
      numPages := min;
      typeMin := min;
      this.max := max;
      ones, zeros, pages := map[], map[], map[];
      table2 := new array?<array?<array?<Byte>>>[4](_ => null);
    }

    /** One more second-level table, empty. */
    twostate lemma Empty1(i: nat)
      requires old(Ones()) && old(Level1()) && Ones() && zeros == old(zeros) && i !in old(ones)
      requires i in ones && ones == old(ones)[i := ones[i]]
      requires forall n :: 0 <= n < 0x200 ==> ones[i][n] == null
      requires forall k, n :: k in old(ones) && 0 <= n < 0x200 ==> old(ones)[k][n] == old(ones[k][n])
      ensures Level1()
    {
    }

    method NewTable1(i: nat)
      requires Valid() && i < 4 && table2[i] == null
      modifies this, table2
      ensures Valid() && i in ones && fresh(ones[i]) && ones == old(ones)[i := ones[i]]
      ensures zeros == old(zeros) && pages == old(pages) && numPages == old(numPages) && typeMin == old(typeMin)
    {
      hide Level0, Level1, Zeros, Pages;
      var t := new array?<array?<Byte>>[0x200](_ => null);
      table2[i] := t;
      ones := ones[i := t];
      Empty1(i);
    }

    /** One more entry in a second-level table. */
    twostate lemma Entry1(k: (nat, nat))
      requires old(Ones()) && old(Level1()) && ones == old(ones) && k.0 in ones && k.1 < 0x200
      requires k in zeros && zeros == old(zeros)[k := zeros[k]] && ones[k.0][k.1] == zeros[k]
      requires forall i, j :: i in ones && 0 <= j < 0x200 && (i, j) != k ==> ones[i][j] == old(ones[i][j])
      ensures Level1()
    {
    }

    /** One more first-level table, empty. */
    twostate lemma Empty0(k: (nat, nat))
      requires old(Zeros()) && old(Level0()) && pages == old(pages) && k !in old(zeros)
      requires k in zeros && zeros == old(zeros)[k := zeros[k]] && zeros[k].Length == 0x200
      requires forall l :: l in old(zeros) ==> old(zeros)[l] != zeros[k]
      requires forall n :: 0 <= n < 0x200 ==> zeros[k][n] == null
      requires forall l, n :: l in old(zeros) && 0 <= n < 0x200 ==> old(zeros)[l][n] == old(zeros[l][n])
      ensures Zeros() && Level0()
    {
    }

    method NewTable0(table1: Table1, ghost i: nat, j: nat)
      requires Valid() && i in ones && ones[i] == table1 && j < table1.Length == 0x200 && table1[j] == null
      modifies this, table1
      ensures Valid() && (i, j) in zeros && fresh(zeros[(i, j)]) && zeros == old(zeros)[(i, j) := zeros[(i, j)]]
      ensures ones == old(ones) && pages == old(pages) && numPages == old(numPages) && typeMin == old(typeMin)
    {
      NoEntry1(i, j);
      hide Level2, Level0, Level1, Zeros, Pages;
      assert (table1 as object) != table2;
      var t := new array?<Byte>[0x200](_ => null);
      table1[j] := t;
      zeros := zeros[(i, j) := t];
      Entry1((i, j));
      Empty0((i, j));
    }

    lemma NoEntry1(i: nat, j: nat)
      requires Ones() && Level1() && i in ones && j < 0x200 && ones[i][j] == null
      ensures (i, j) !in zeros
    {
    }

    /** One more page in a first-level table. */
    twostate lemma Entry0(p: (nat, nat, nat))
      requires old(Zeros()) && old(Level0()) && zeros == old(zeros) && (p.0, p.1) in zeros && p.2 < 0x200
      requires p in pages && pages == old(pages)[p := pages[p]] && zeros[(p.0, p.1)][p.2] == pages[p]
      requires forall l, n :: l in zeros && 0 <= n < 0x200 && (l.0, l.1, n) != p ==> zeros[l][n] == old(zeros[l][n])
      ensures Level0()
    {
    }

    method NewPage(table0: Table0, ghost i: nat, ghost j: nat, k: nat)
      requires Valid() && (i, j) in zeros && zeros[(i, j)] == table0 && k < table0.Length == 0x200 && table0[k] == null
      modifies this, table0
      ensures Valid() && (i, j, k) in pages && fresh(pages[(i, j, k)]) && pages == old(pages)[(i, j, k) := pages[(i, j, k)]]
      ensures ones == old(ones) && zeros == old(zeros) && numPages == old(numPages) && typeMin == old(typeMin)
      ensures forall n :: 0 <= n < PAGE ==> pages[(i, j, k)][n] == 0
    {
      hide Level1, Level2, Level0;
      assert (table0 as object) != table2;
      assert forall i :: i in ones ==> (ones[i] as object) != table0;
      var t := new Byte[PAGE](_ => 0);
      table0[k] := t;
      pages := pages[(i, j, k) := t];
      Entry0((i, j, k));
    }

    // -------------------------------------------------------------- the flat memory

    /** The byte at `a` of the flat memory this object stands for. */
    ghost function ByteAt(a: nat): Byte
      requires Pages()
      reads this`pages, pages.Values
    {
      if Region(a) in pages then pages[Region(a)][a % PAGE] else 0
    }

    ghost predicate Holds(data: map<int, Byte>)
      requires Pages()
      reads this`pages, pages.Values
    {
      forall a: nat :: a < SPACE ==> ByteAt(a) == Get(data, a)
    }

    /** This object stands for `mem`. */
    ghost predicate Represents(mem: MemInst)
      reads this, table2, ones.Values, zeros.Values, pages.Values
    {
      Valid() && numPages == typeMin == mem.pages <= NUM_PAGE_MAX && max == mem.max && Holds(mem.data)
    }

    /** No byte of any page differs from before, and only new pages are zero pages. */
    twostate predicate SameBytes()
      reads this`pages, pages.Values
    {
      && (forall p :: p in old(pages) ==> p in pages && pages[p] == old(pages)[p] && pages[p].Length == PAGE)
      && (forall p, n :: p in old(pages) && 0 <= n < old(pages)[p].Length ==> old(pages)[p][n] == old(pages[p][n]))
      && (forall p, n :: p in pages && p !in old(pages) && 0 <= n < pages[p].Length ==> pages[p][n] == 0)
    }

    method Find1(i: nat) returns (t: Table1)
      requires Valid() && i < 4
      modifies this, table2
      ensures Valid() && i in ones && ones[i] == t && t.Length == 0x200
      ensures forall j :: j in ones ==> (j in old(ones) && ones[j] == old(ones)[j]) || fresh(ones[j])
      ensures zeros == old(zeros) && pages == old(pages) && numPages == old(numPages) && typeMin == old(typeMin)
    {
      if table2[i] == null {
        NewTable1(i);
      }
      t := table2[i];
    }

    method Find0(table1: Table1, ghost i: nat, j: nat) returns (t: Table0)
      requires Valid() && i in ones && ones[i] == table1 && j < table1.Length == 0x200
      modifies this, table1
      ensures Valid() && (i, j) in zeros && zeros[(i, j)] == t && t.Length == 0x200
      ensures forall k :: k in zeros ==> (k in old(zeros) && zeros[k] == old(zeros)[k]) || fresh(zeros[k])
      ensures ones == old(ones) && pages == old(pages) && numPages == old(numPages) && typeMin == old(typeMin)
    {
      if table1[j] == null {
        NewTable0(table1, i, j);
      }
      t := table1[j];
    }

    method FindPage(table0: Table0, ghost i: nat, ghost j: nat, k: nat) returns (page: Page)
      requires Valid() && (i, j) in zeros && zeros[(i, j)] == table0 && k < table0.Length == 0x200
      modifies this, table0
      ensures Valid() && (i, j, k) in pages && pages[(i, j, k)] == page
      ensures ones == old(ones) && zeros == old(zeros) && numPages == old(numPages) && typeMin == old(typeMin)
      ensures forall p :: p in pages ==> (p in old(pages) && pages[p] == old(pages)[p]) || fresh(pages[p])
      ensures SameBytes()
    {
      hide Ones, Level1, Level2;
      if table0[k] == null {
        NewPage(table0, i, j, k);
      }
      page := table0[k];
    }

    /** `eaddr_to_paddr`: the page of an address, made if need be. */
    method Translate(ea: nat) returns (page: Page)
      requires Valid()
      modifies this, table2, ones.Values, zeros.Values
      ensures Valid() && Region(ea) in pages && pages[Region(ea)] == page
      ensures numPages == old(numPages) && typeMin == old(typeMin)
      ensures fresh(Parts() - old(Parts()))
      ensures SameBytes()
    {
      hide Level2, Level1, Level0, Ones, Zeros;
      var i, j, k := Vpn2(ea), Vpn1(ea), Vpn0(ea);
      var table1 := Find1(i);
      var table0 := Find0(table1, i, j);
      page := FindPage(table0, i, j, k);
    }

    twostate lemma SameBytesHold(data: map<int, Byte>)
      requires old(Pages()) && Pages() && SameBytes() && old(Holds(data))
      ensures Holds(data)
    {
      forall a: nat | a < SPACE
        ensures ByteAt(a) == Get(data, a)
      {
        assert old(ByteAt(a)) == Get(data, a);
      }
    }

    /** One byte of a page, as a byte of the flat memory. */
    method PutByte(page: Page, ghost a: nat, off: nat, b: Byte, ghost data: map<int, Byte>)
      requires Valid() && Holds(data) && a < SPACE && Region(a) in pages && pages[Region(a)] == page && off == a % PAGE
      modifies page
      ensures Valid() && Holds(data[a as int := b])
    {
      hide Level2, Level1, Level0;
      page[off] := b;
      forall c: nat | c < SPACE
        ensures ByteAt(c) == Get(data[a as int := b], c)
      {
        assert old(ByteAt(c)) == Get(data, c);
        if c != a && Region(c) == Region(a) && c % PAGE == a % PAGE {
          SplitInjective(a, c);
        }
      }
    }

    /** The bytes an access touches without crossing a page lie in one region. */
    lemma OneRegion(ea: nat, n: nat, i: nat)
      requires i < n && ea + n <= SPACE && !CrossesPage(ea, n)
      ensures Region(ea + i) == Region(ea) && (ea + i) % PAGE == ea % PAGE + i
    {
      ByPageNumber(ea);
      ByPageNumber(ea + i);
      SamePage(ea, n, i);
    }

    /** A store of `n` bytes, lowest first. */
    method StoreRaw(ea: nat, n: nat, v: nat, ghost data: map<int, Byte>)
      requires Valid() && Holds(data) && n > 0 && ea + n <= SPACE && !CrossesPage(ea, n)
      modifies this, table2, ones.Values, zeros.Values, pages.Values
      ensures Valid() && Holds(WriteLE(data, ea, n, v)) && numPages == old(numPages) && typeMin == old(typeMin)
      ensures fresh(Parts() - old(Parts()))
    {
      hide Level2, Level1, Level0, CrossesPage, Region, ByteAt, SameBytes, Ones, Zeros, Holds;
      var page := Translate(ea);
      SameBytesHold(data);
      var i, rest := 0, v;
      ghost var d: map<int, Byte> := data;
      while i < n
        invariant Valid() && Region(ea) in pages && page == pages[Region(ea)] && numPages == old(numPages) && typeMin == old(typeMin) && i <= n
        invariant fresh(Parts() - old(Parts()))
        invariant Holds(d) && WriteLE(d, ea + i, n - i, rest) == WriteLE(data, ea, n, v)
        modifies page
      {
        OneRegion(ea, n, i);
        PutByte(page, ea + i, ea % PAGE + i, rest % 0x100, d);
        d := d[ea + i := rest % 0x100];
        rest := rest / 0x100;
        i := i + 1;
      }
    }

    /** A load of `n` bytes, the last the most significant. */
    method LoadRaw(ea: nat, n: nat, ghost data: map<int, Byte>) returns (v: nat)
      requires Valid() && Holds(data) && n > 0 && ea + n <= SPACE && !CrossesPage(ea, n)
      modifies this, table2, ones.Values, zeros.Values
      ensures Valid() && Holds(data) && numPages == old(numPages) && typeMin == old(typeMin)
      ensures v == ReadLE(data, ea, n)
      ensures fresh(Parts() - old(Parts()))
    {
      hide Level2, Level1, Level0, CrossesPage, Region, SameBytes, Ones, Zeros, Parts;
      var page := Translate(ea);
      SameBytesHold(data);
      var i := n;
      v := 0;
      while i > 0
        invariant i <= n && v == ReadLE(data, ea + i, n - i)
        modifies {}
      {
        i := i - 1;
        OneRegion(ea, n, i);
        assert ByteAt(ea + i) == Get(data, ea + i);
        v := page[ea % PAGE + i] + 0x100 * v;
      }
    }

    // -------------------------------------------------------------- instructions

    method Load(opcode: Byte, base: U32, offset: U32, ghost mem: MemInst) returns (r: Accessed<U64>)
      requires Represents(mem) && IsLoad(opcode)
      modifies this, table2, ones.Values, zeros.Values
      ensures Represents(mem) && r == LoadResult(mem, opcode, base + offset)
      ensures fresh(Parts() - old(Parts()))
    {
      hide Level2, Level1, Level0, CrossesPage, Ones, Zeros, Holds, ReadLE, ExtendLoaded, Parts;
      var ea, n := base + offset, Width(opcode);
      if ea + n > numPages * WASM_PAGE_SIZE {
        return OutOfRange;
      }
      if CrossesPage(ea, n) {
        return LeftOpen;
      }
      var raw := LoadRaw(ea, n, mem.data);
      r := Accessed(ExtendLoaded(opcode, raw));
    }

    method Store(opcode: Byte, base: U32, offset: U32, c: U64, ghost mem: MemInst) returns (r: Accessed<()>)
      requires Represents(mem) && IsStore(opcode)
      modifies this, table2, ones.Values, zeros.Values, pages.Values
      ensures match StoreResult(mem, opcode, base + offset, c)
              case Accessed(mem') => r == Accessed(()) && Represents(mem')
              case OutOfRange => r == OutOfRange && Represents(mem)
              case LeftOpen => r == LeftOpen && Represents(mem)
      ensures fresh(Parts() - old(Parts()))
    {
      hide Level2, Level1, Level0, CrossesPage, Ones, Zeros, Holds, WriteLE, Parts;
      var ea, n := base + offset, Width(opcode);
      if ea + n > numPages * WASM_PAGE_SIZE {
        return OutOfRange;
      }
      if CrossesPage(ea, n) {
        return LeftOpen;
      }
      StoreRaw(ea, n, c, mem.data);
      r := Accessed(());
    }

    /** memory.grow: the old size, or -1. */
    method Grow(n: int, ghost mem: MemInst) returns (r: int)
      requires Represents(mem) && -0x8000_0000 <= n < 0x8000_0000
      modifies this`numPages, this`typeMin
      ensures if GrowFails(mem, n) then r == -1 && Represents(mem)
              else r == mem.pages && Represents(mem.(pages := GrownPages(mem.pages, n)))
    {
      hide Level2, Level1, Level0, Ones, Zeros, Holds;
      r := numPages;
      var sum := (numPages + n) % 0x1_0000_0000_0000_0000;
      if (max != 0 && sum > max) || sum > NUM_PAGE_MAX {
        return -1;
      }
      numPages := sum;
      typeMin := (typeMin + n) % 0x1_0000_0000;
    }

    /** i32.load8_u and then i32.store8, as the bulk operations run them for one byte. */
    method CopyByte(d: U32, s: U32, ghost mem: MemInst)
      requires Represents(mem) && d < mem.pages * WASM_PAGE_SIZE && s < mem.pages * WASM_PAGE_SIZE
      modifies Parts()
      ensures Represents(mem.(data := mem.data[d as int := Get(mem.data, s)])) && fresh(Parts() - old(Parts()))
    {
      hide Represents;
      LoadedByte(mem, s);
      hide LoadResult;
      var v := Load(0x2D, s, 0, mem);
      StoreByte(d, v.value, mem);
    }

    method StoreByte(d: U32, v: U64, ghost mem: MemInst)
      requires Represents(mem) && d < mem.pages * WASM_PAGE_SIZE
      modifies Parts()
      ensures Represents(mem.(data := mem.data[d as int := v % 0x100])) && fresh(Parts() - old(Parts()))
    {
      hide Represents, StoreResult;
      StoredByte(mem, d, v);
      var r := Store(0x3A, d, 0, v, mem);
    }

    /** memory.copy: one load and one store of a byte in every round; the direction is chosen
        again each time. */
    method Copy(dest: U32, src: U32, count: U32, ghost mem: MemInst) returns (r: Accessed<()>)
      requires Represents(mem)
      modifies Parts()
      ensures fresh(Parts() - old(Parts()))
      ensures if OutOfBounds(src, count, mem) || OutOfBounds(dest, count, mem) then r == OutOfRange && Represents(mem)
              else if CopyOverflows(dest, src, count) then r == LeftOpen
              else r == Accessed(()) && Represents(mem.(data := CopyBytes(mem.data, dest, src, count)))
    {
      hide Represents, CopyBytes, CopyOverflows, EndFits, ToI32, Get;
      Bounds(mem);
      var d: U32, s: U32, n: U32 := dest, src, count;
      if s + n > numPages * WASM_PAGE_SIZE || d + n > numPages * WASM_PAGE_SIZE {
        return OutOfRange;
      }
      ghost var data: map<int, Byte> := mem.data;
      while n > 0
        invariant Represents(mem.(data := data)) && fresh(Parts() - old(Parts()))
        invariant n > 0 ==> !OutOfBounds(d, n, mem) && !OutOfBounds(s, n, mem)
        invariant CopyBytes(data, d, s, n) == CopyBytes(mem.data, dest, src, count)
        invariant CopyOverflows(d, s, n) == CopyOverflows(dest, src, count)
      {
        CopyRound(data, d, s, n);
        CopyOverflowsStep(d, s, n);
        LoopEnds(d, s, n);
        if ToI32(d) <= ToI32(s) {
          CopyByte(d, s, mem.(data := data));
          data := data[d as int := Get(data, s)];
          if ToI32(d) == INT_MAX || ToI32(s) == INT_MAX || ToI32(n) == INT_MIN {
            return LeftOpen;
          }
          d, s := (d + 1) % SPACE, (s + 1) % SPACE;
        } else {
          if !EndFits(d, n) || !EndFits(s, n) {
            return LeftOpen;
          }
          CopyByte(d + n - 1, s + n - 1, mem.(data := data));
          data := data[d + n - 1 := Get(data, s + n - 1)];
          if ToI32(n) == INT_MIN {
            return LeftOpen;
          }
        }
        n := n - 1;
      }
      CopyNone(data, d, s);
      CopyOverflowsStep(d, s, 0);
      r := Accessed(());
    }

    method Fill(dest: U32, val: U32, count: U32, ghost mem: MemInst) returns (r: Accessed<()>)
      requires Represents(mem)
      modifies Parts()
      ensures fresh(Parts() - old(Parts()))
      ensures if OutOfBounds(dest, count, mem) then r == OutOfRange && Represents(mem)
              else if FillOverflows(dest, count) then r == LeftOpen
              else r == Accessed(()) && Represents(mem.(data := FillBytes(mem.data, dest, val % 0x100, count)))
    {
      hide Represents, FillOverflows, ToI32;
      Bounds(mem);
      var d: U32, n: U32 := dest, count;
      if d + n > numPages * WASM_PAGE_SIZE {
        return OutOfRange;
      }
      ghost var data: map<int, Byte> := mem.data;
      while n > 0
        invariant Represents(mem.(data := data)) && fresh(Parts() - old(Parts()))
        invariant n > 0 ==> !OutOfBounds(d, n, mem)
        invariant FillBytes(data, d, val % 0x100, n) == FillBytes(mem.data, dest, val % 0x100, count)
        invariant FillOverflows(d, n) == FillOverflows(dest, count)
      {
        FillOverflowsStep(d, n);
        LoopEnds(d, d, n);
        if ToI32(n) == INT_MIN {
          return LeftOpen;
        }
        StoreByte(d, val, mem.(data := data));
        data := data[d as int := val % 0x100];
        if ToI32(d) == INT_MAX {
          return LeftOpen;
        }
        d, n := (d + 1) % SPACE, n - 1;
      }
      FillOverflowsStep(d, 0);
      r := Accessed(());
    }

    method Init(dest: U32, bytes: seq<Byte>, src: U32, count: U32, ghost mem: MemInst) returns (r: Accessed<()>)
      requires Represents(mem)
      modifies Parts()
      ensures fresh(Parts() - old(Parts()))
      ensures if src + count > |bytes| || OutOfBounds(dest, count, mem) then r == OutOfRange && Represents(mem)
              else if InitOverflows(dest, src, count) then r == LeftOpen
              else r == Accessed(()) && Represents(mem.(data := InitBytes(mem.data, dest, bytes, src, count)))
    {
      hide Represents, InitOverflows, ToI32;
      Bounds(mem);
      var d: U32, s: U32, n: U32 := dest, src, count;
      if s + n > |bytes| || d + n > numPages * WASM_PAGE_SIZE {
        return OutOfRange;
      }
      ghost var data: map<int, Byte> := mem.data;
      while n > 0
        invariant Represents(mem.(data := data)) && fresh(Parts() - old(Parts()))
        invariant s + n <= |bytes| && (n > 0 ==> !OutOfBounds(d, n, mem))
        invariant InitBytes(data, d, bytes, s, n) == InitBytes(mem.data, dest, bytes, src, count)
        invariant InitOverflows(d, s, n) == InitOverflows(dest, src, count)
      {
        InitOverflowsStep(d, s, n);
        LoopEnds(d, s, n);
        if ToI32(n) == INT_MIN || ToI32(s) < 0 {
          return LeftOpen;
        }
        StoreByte(d, bytes[s], mem.(data := data));
        data := data[d as int := bytes[s]];
        if ToI32(s) == INT_MAX || ToI32(d) == INT_MAX {
          return LeftOpen;
        }
        d, s, n := (d + 1) % SPACE, s + 1, n - 1;
      }
      InitOverflowsStep(d, s, 0);
      r := Accessed(());
    }

    /** The ends of the signed range, among the unsigned numbers. */
    static lemma LoopEnds(d: U32, s: U32, n: U32)
      ensures ToI32(d) == INT_MAX <==> d == HALF - 1
      ensures (ToI32(s) == INT_MAX <==> s == HALF - 1) && (ToI32(s) < 0 <==> s >= HALF)
      ensures ToI32(n) == INT_MIN <==> n == HALF
    {
    }

    lemma Bounds(mem: MemInst)
      requires Represents(mem)
      ensures numPages == mem.pages && mem.pages * WASM_PAGE_SIZE <= SPACE
    {
    }
  }

  /** What a load or store at `ea` does to a flat memory. */
  ghost function LoadResult(mem: MemInst, opcode: Byte, ea: nat): Accessed<U64> {
    var n := Width(opcode);
    if OutOfBounds(ea, n, mem) then OutOfRange
    else if CrossesPage(ea, n) then LeftOpen
    else Accessed(ExtendLoaded(opcode, ReadLE(mem.data, ea, n)))
  }

  ghost function StoreResult(mem: MemInst, opcode: Byte, ea: nat, c: U64): Accessed<MemInst> {
    var n := Width(opcode);
    if OutOfBounds(ea, n, mem) then OutOfRange
    else if CrossesPage(ea, n) then LeftOpen
    else Accessed(mem.(data := WriteLE(mem.data, ea, n, c)))
  }

  lemma LoadedByte(mem: MemInst, s: U32)
    requires s < mem.pages * WASM_PAGE_SIZE
    ensures LoadResult(mem, 0x2D, s) == Accessed(Get(mem.data, s)) && Get(mem.data, s) % 0x100 == Get(mem.data, s)
  {
    hide ReadLE;
    ReadOne(mem.data, s);
  }

  lemma StoredByte(mem: MemInst, d: U32, v: U64)
    requires d < mem.pages * WASM_PAGE_SIZE
    ensures StoreResult(mem, 0x3A, d, v) == Accessed(mem.(data := mem.data[d as int := v % 0x100]))
  {
    hide WriteLE;
    WriteOne(mem.data, d, v);
  }

  /** The machine's loads and stores are these, on the memory of the current module. */
  lemma LoadIsPerformed(opcode: Byte, align: U32, offset: U32, base: Val, locals: seq<Val>, S: Store, m: ModInst)
    requires IsLoad(opcode) && ValidAddr(m.memaddrs, 0, |S.mems|)
    ensures Perform(Access(opcode, align, offset), [base], locals, S, m) ==
            match LoadResult(S.mems[m.memaddrs[0]], opcode, AsU32(base) + offset)
            case Accessed(v) => Did([Val(AccessType(opcode), v)], locals, S)
            case OutOfRange => Traps(TrapOutOfBoundsMemoryAccess)
            case LeftOpen => EffectUB
  {
    hide ReadLE, ExtendLoaded;
  }

  lemma StoreIsPerformed(opcode: Byte, align: U32, offset: U32, base: Val, c: Val, locals: seq<Val>, S: Store, m: ModInst)
    requires IsStore(opcode) && ValidAddr(m.memaddrs, 0, |S.mems|)
    ensures Perform(Access(opcode, align, offset), [base, c], locals, S, m) ==
            match StoreResult(S.mems[m.memaddrs[0]], opcode, AsU32(base) + offset, c.bits)
            case Accessed(mem) => Did([], locals, S.(mems := S.mems[m.memaddrs[0] := mem]))
            case OutOfRange => Traps(TrapOutOfBoundsMemoryAccess)
            case LeftOpen => EffectUB
  {
    hide WriteLE;
  }
}
