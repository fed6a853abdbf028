/** gen-disk.py: which blocks the items of an input claim, the bitmap built from the claims, and directory blocks. */
module Generating {
  import opened Format
  import opened Bits
  import opened Image
  import opened Device
  import opened Diskfmt

  /** One entry of a directory in the input. */
  datatype Line = Line(valid: bool, name: Str, inum: nat)

  /** A file or a directory of the input: its inode number and its blocks. */
  datatype Item = Item(inum: nat, blocks: seq<nat>)

  /** What one block of the image is for. */
  datatype Cell = Nothing | InodeOf(item: nat) | DataOf(item: nat, index: nat)

  datatype Claim = Claim(block: nat, cell: Cell)

  // ---- claims ----

  function DataClaims(x: nat, blocks: seq<nat>, k: nat): seq<Claim>
    requires k <= |blocks|
  { if k == 0 then [] else DataClaims(x, blocks, k - 1) + [Claim(blocks[k - 1], DataOf(x, k - 1))] }

  /** What the first x items claim, in the order of the loop. */
  function Claims(items: seq<Item>, x: nat): seq<Claim>
    requires x <= |items|
  {
    if x == 0 then []
    else
      var f := items[x - 1];
      Claims(items, x - 1) + [Claim(f.inum, InodeOf(x - 1))] + DataClaims(x - 1, f.blocks, |f.blocks|)
  }

  predicate Claimed(cs: seq<Claim>, b: nat) { exists p :: 0 <= p < |cs| && cs[p].block == b }

  /** No block is claimed twice, and blocks 0 and 1 are not claimed. */
  ghost predicate Apart(cs: seq<Claim>) {
    && (forall p, q :: 0 <= p < q < |cs| ==> cs[p].block != cs[q].block)
    && (forall p :: 0 <= p < |cs| ==> cs[p].block >= 2)
  }

  /** Data block q of the claims was free when it was claimed. */
  ghost predicate FreshAt(cs: seq<Claim>, q: nat)
    requires q < |cs|
  { cs[q].block >= 2 && forall p :: 0 <= p < q ==> cs[p].block != cs[q].block }

  /** Every data block was free when it was claimed; an inode's block need not have been. */
  ghost predicate NoDoubles(cs: seq<Claim>) {
    forall q :: 0 <= q < |cs| && cs[q].cell.DataOf? ==> FreshAt(cs, q)
  }

  /** The data blocks that had been claimed before, in the order of the loop. */
  ghost function Doubled(cs: seq<Claim>): seq<nat> {
    if cs == [] then []
    else
      var q := |cs| - 1;
      Doubled(cs[..q]) + if cs[q].cell.DataOf? && !FreshAt(cs, q) then [cs[q].block] else []
  }

  lemma {:induction false} DoubledNone(cs: seq<Claim>)
    ensures Doubled(cs) == [] <==> NoDoubles(cs)
  {
    if cs != [] {
      var f := cs[..|cs| - 1];
      DoubledNone(f);
      forall q | 0 <= q < |f|
        ensures FreshAt(cs, q) <==> FreshAt(f, q)
      {
        assert forall p :: 0 <= p < q ==> f[p] == cs[p];
      }
    }
  }

  /** Claim p is the last of its block. */
  ghost predicate LastAt(cs: seq<Claim>, p: nat) {
    p < |cs| && forall q :: p < q < |cs| ==> cs[q].block != cs[p].block
  }

  /** The bitmap marks the first two blocks and what has been claimed. */
  ghost predicate MarksClaims(m: Block, cs: seq<Claim>) {
    forall b: nat :: Bit(m, b) <==> b == 0 || b == 1 || Claimed(cs, b)
  }

  lemma ClaimedGrows(cs: seq<Claim>, c: Claim, b: nat)
    ensures Claimed(cs + [c], b) <==> Claimed(cs, b) || b == c.block
  {
    assert (cs + [c])[|cs|] == c;
    forall p | 0 <= p < |cs| ensures (cs + [c])[p] == cs[p] { }
  }

  lemma MarkClaim(m: Block, cs: seq<Claim>, c: Claim)
    requires MarksClaims(m, cs) && c.block < 32768
    ensures MarksClaims(SetBit(m, c.block), cs + [c])
    ensures Doubled(cs + [c]) == Doubled(cs) + if c.cell.DataOf? && Bit(m, c.block) then [c.block] else []
  {
    hide Bit, SetBit;
    var ds := cs + [c];
    forall b: nat
      ensures Bit(SetBit(m, c.block), b) <==> b == 0 || b == 1 || Claimed(ds, b)
    {
      SetThenTest(m, c.block, b);
      ClaimedGrows(cs, c, b);
    }
    assert ds[..|cs|] == cs;
    assert ds[|cs|] == c;
    assert FreshAt(ds, |cs|) <==> !Bit(m, c.block) by {
      assert forall p :: 0 <= p < |cs| ==> ds[p] == cs[p];
    }
  }

  /** Each cell holds the last claim of its block, or nothing. */
  ghost predicate CellsHold(cells: seq<Cell>, cs: seq<Claim>) {
    && (forall p :: 0 <= p < |cs| ==> cs[p].block < |cells|)
    && (forall p: nat :: LastAt(cs, p) ==> cells[cs[p].block] == cs[p].cell)
    && (forall b :: 0 <= b < |cells| && !Claimed(cs, b) ==> cells[b] == Nothing)
  }

  lemma CellClaim(cells: seq<Cell>, cs: seq<Claim>, c: Claim)
    requires CellsHold(cells, cs) && c.block < |cells|
    ensures CellsHold(cells[c.block := c.cell], cs + [c])
  {
    var ds := cs + [c];
    assert ds[|cs|] == c;
    forall p: nat | LastAt(ds, p) && p < |cs|
      ensures LastAt(cs, p) && cs[p].block != c.block
    {
      assert forall q :: p < q < |cs| ==> ds[q] == cs[q];
    }
    forall b | 0 <= b < |cells| && !Claimed(ds, b)
      ensures !Claimed(cs, b) && b != c.block
    {
      ClaimedGrows(cs, c, b);
    }
  }

  lemma ClaimsNext(items: seq<Item>, x: nat, k: nat)
    requires x < |items| && k < |items[x].blocks|
    ensures DataClaims(x, items[x].blocks, k + 1) == DataClaims(x, items[x].blocks, k) +
        [Claim(items[x].blocks[k], DataOf(x, k))]
  {}

  lemma {:induction false} ClaimsPrefix(items: seq<Item>, x: nat, y: nat) returns (rest: seq<Claim>)
    requires x <= y <= |items|
    ensures Claims(items, y) == Claims(items, x) + rest
    decreases y - x
  {
    if x == y {
      rest := [];
    } else {
      rest := ClaimsPrefix(items, x, y - 1);
      var last := [Claim(items[y - 1].inum, InodeOf(y - 1))] +
          DataClaims(y - 1, items[y - 1].blocks, |items[y - 1].blocks|);
      assert Claims(items, y) == Claims(items, x) + (rest + last);
      rest := rest + last;
    }
  }

  lemma {:induction false} ClaimsCut(x: nat, blocks: seq<nat>, k: nat, n: nat) returns (rest: seq<Claim>)
    requires k <= n <= |blocks|
    ensures DataClaims(x, blocks, n) == DataClaims(x, blocks, k) + rest
    decreases n - k
  {
    if k == n {
      rest := [];
    } else {
      rest := ClaimsCut(x, blocks, k, n - 1);
      assert DataClaims(x, blocks, n) == DataClaims(x, blocks, k) + (rest + [Claim(blocks[n - 1], DataOf(x, n - 1))]);
      rest := rest + [Claim(blocks[n - 1], DataOf(x, n - 1))];
    }
  }

  /** All claims lie in the image, which has at most 400 blocks. */
  predicate InImage(items: seq<Item>, n: nat) {
    n <= 400 && forall x :: 0 <= x < |items| ==> items[x].inum < n && forall k :: 0 <= k < |items[x].blocks| ==>
        items[x].blocks[k] < n
  }

  /** The state of the claim loop when the claims cs have been made. */
  ghost predicate Built(m: Block, cells: seq<Cell>, errors: seq<nat>, cs: seq<Claim>) {
    MarksClaims(m, cs) && errors == Doubled(cs) && |cells| == 400 && CellsHold(cells, cs)
  }

  lemma BuiltNext(m: Block, cells: seq<Cell>, errors: seq<nat>, cs: seq<Claim>, c: Claim)
    requires Built(m, cells, errors, cs) && c.block < 400
    ensures Built(SetBit(m, c.block), cells[c.block := c.cell],
                  if c.cell.DataOf? && Bit(m, c.block) then errors + [c.block] else errors, cs + [c])
  {
    MarkClaim(m, cs, c);
    CellClaim(cells, cs, c);
    hide MarksClaims, Doubled, CellsHold, Bit, SetBit;
  }

  lemma BuiltStart(m: Block, z: Block, cells: seq<Cell>)
    requires (forall b: nat :: !Bit(z, b)) && m == SetBit(SetBit(z, 0), 1)
    requires |cells| == 400 && forall b :: 0 <= b < 400 ==> cells[b] == Nothing
    ensures Built(m, cells, [], [])
  {
    hide Bit, SetBit;
    forall b: nat
      ensures Bit(m, b) <==> b == 0 || b == 1
    {
      SetThenTest(z, 0, b);
      SetThenTest(SetBit(z, 0), 1, b);
    }
  }

  lemma ClaimsStep(items: seq<Item>, x: nat)
    requires x < |items|
    ensures var head := Claims(items, x) + [Claim(items[x].inum, InodeOf(x))];
      Claims(items, x + 1) == head + DataClaims(x, items[x].blocks, |items[x].blocks|) &&
          head + DataClaims(x, items[x].blocks, 0) == head
  {}

  lemma ItemInImage(items: seq<Item>, n: nat, x: nat)
    requires InImage(items, n) && x < |items|
    ensures items[x].inum < 400 && forall k :: 0 <= k < |items[x].blocks| ==> items[x].blocks[k] < 400
  {}

  /** The inner loop: claim the blocks of one item. */
  method ClaimBlocks(blockmap: Bitmap, blocks: array<Cell>, errors: seq<nat>, f: Item, x: nat,
      ghost items: seq<Item>) returns (r: seq<nat>)
    requires blockmap.Valid() && blocks.Length == 400 && blockmap.vals as object != blocks && x < |items|
    requires items[x] == f
    requires forall k :: 0 <= k < |f.blocks| ==> f.blocks[k] < 400
    requires Built(blockmap.Bytes(), blocks[..], errors, Claims(items, x) + [Claim(f.inum, InodeOf(x))])
    modifies blockmap.vals, blocks
    ensures blockmap.Valid() && Built(blockmap.Bytes(), blocks[..], r, Claims(items, x + 1))
  {
    hide *;
    ghost var head := Claims(items, x) + [Claim(f.inum, InodeOf(x))];
    r := errors;
    ClaimsStep(items, x);
    for i := 0 to |f.blocks|
      invariant blockmap.Valid() && Built(blockmap.Bytes(), blocks[..], r, head + DataClaims(x, f.blocks, i))
    {
      var b := f.blocks[i];
      ghost var cs, c := head + DataClaims(x, f.blocks, i), Claim(b, DataOf(x, i));
      ClaimsNext(items, x, i);
      BuiltNext(blockmap.Bytes(), blocks[..], r, cs, c);
      assert cs + [c] == head + DataClaims(x, f.blocks, i + 1);
      var marked := blockmap.Get(b);
      if marked {
        r := r + [b];
      }
      blockmap.Set(b, true);
      blocks[b] := DataOf(x, i);
    }
  }

  /** The claim loop: set bits 0 and 1, then for each item claim its inode and its blocks, reporting data blocks that
      are marked already. The bitmap marks exactly blocks 0 and 1 and the claims; every data block that was not free
      when its turn came is reported, in order; and the cells say what the last claim of each block was. */
  method BuildMap(items: seq<Item>, nblocks: nat) returns (blockmap: Bitmap, blocks: array<Cell>, errors: seq<nat>)
    requires InImage(items, nblocks)
    ensures fresh(blockmap.vals) && blockmap.Valid() && MarksClaims(blockmap.Bytes(), Claims(items, |items|))
    ensures errors == Doubled(Claims(items, |items|)) && (errors == [] <==> NoDoubles(Claims(items, |items|)))
    ensures blocks.Length == 400 && CellsHold(blocks[..], Claims(items, |items|))
  {
    hide *;
    blockmap := new Bitmap();
    ghost var zero := blockmap.Bytes();
    FreshIsValid(blockmap);
    blockmap.Set(0, true);
    blockmap.Set(1, true);
    blocks := new Cell[400](_ => Nothing);
    errors := [];
    BuiltStart(blockmap.Bytes(), zero, blocks[..]);
    NoClaims(items);
    for x := 0 to |items|
      invariant blockmap.Valid() && fresh(blockmap.vals) && fresh(blocks) && blocks.Length == 400
      invariant Built(blockmap.Bytes(), blocks[..], errors, Claims(items, x))
    {
      var f := items[x];
      ItemInImage(items, nblocks, x);
      BuiltNext(blockmap.Bytes(), blocks[..], errors, Claims(items, x), Claim(f.inum, InodeOf(x)));
      blocks[f.inum] := InodeOf(x);
      blockmap.Set(f.inum, true);
      errors := ClaimBlocks(blockmap, blocks, errors, f, x, items);
    }
    BuiltParts(blockmap.Bytes(), blocks[..], errors, Claims(items, |items|));
  }

  lemma BuiltParts(m: Block, cells: seq<Cell>, errors: seq<nat>, cs: seq<Claim>)
    requires Built(m, cells, errors, cs)
    ensures MarksClaims(m, cs) && errors == Doubled(cs) && (errors == [] <==> NoDoubles(cs)) && |cells| == 400
    ensures CellsHold(cells, cs)
  {
    DoubledNone(cs);
    hide MarksClaims, Doubled, NoDoubles, CellsHold;
  }

  lemma FreshIsValid(m: Bitmap)
    requires m.vals.Length == 1024
    ensures m.Valid()
  {}

  lemma NoClaims(items: seq<Item>)
    ensures Claims(items, 0) == []
  {}

  // ---- inodes ----

  /** inode(): the fields of an item, and its blocks as the first pointers. */
  method BuildInode(fields: Inode, blocks: seq<nat>) returns (b: Block)
    requires |blocks| <= 1019 && forall k :: 0 <= k < |blocks| ==> blocks[k] < 0x1_0000_0000
    ensures FieldsAt(b, fields) && TableAt(b, blocks)
  {
    hide EncodeInode, FieldsAt, TableAt, InodeAt;
    var ptrs := NoPtrs();
    for j := 0 to |blocks|
      invariant forall k :: 0 <= k < 1019 ==> ptrs[k] == if k < j then blocks[k] else 0
    {
      ptrs := ptrs[j := blocks[j]];
    }
    b := EncodeInode(fields.(ptrs := ptrs));
    InodeWrites(b, fields.(ptrs := ptrs));
    FieldsAlone(b, fields.(ptrs := ptrs), fields);
    TablePadded(b, ptrs, blocks);
  }

  // ---- directory blocks ----

  /** Assigning a name to the c_char array of the one dirent the loop reuses: the bytes, a NUL if there is room, and
      then whatever the entry before left there. */
  function Assigned(field: NameField, name: Str): NameField
    requires |name| <= 28
  { if |name| < 28 then name + [0] + field[|name| + 1..] else name }

  lemma AssignedReads(field: NameField, name: Str)
    requires |name| <= 28 && 0 !in name
    ensures CStr(Assigned(field, name)) == name
  {
    if |name| < 28 {
      CStrIsPrefix(Assigned(field, name), name);
    } else {
      NoNul(name);
    }
  }

  lemma {:induction false} NoNul(s: Str)
    requires 0 !in s
    ensures CStr(s) == s
  {
    if s != [] {
      NoNul(s[1..]);
    }
  }

  /** A line the format can hold. */
  predicate Holdable(l: Line) { |l.name| <= 28 && 0 !in l.name && l.inum < 0x8000_0000 }

  /** Entry r of a block shows the line at offset * 128 + r, or nothing behind the last line. */
  ghost predicate ShowsLine(block: Block, entries: seq<Line>, offset: nat, r: nat)
    requires r < 128
  {
    var e := DecodeDirent(block, r);
    if offset * 128 + r < |entries| then
      var l := entries[offset * 128 + r];
      e.valid == l.valid && e.inode == l.inum && CStr(e.name) == l.name
    else !e.valid
  }

  function Zeros(n: nat): Str { seq(n, _ => 0) }

  /** The first four bytes of entry r: flag and inode number. */
  predicate WordBytes(block: Block, r: nat, l: Line)
    requires r < 128
  {
    && block[32 * r] == (if l.valid then 1 else 0) + 2 * (l.inum % 128)
    && block[32 * r + 1] == l.inum / 128 % 256 && block[32 * r + 2] == l.inum / 32768 % 256
    && block[32 * r + 3] == l.inum / 8388608
  }

  /** The other 28: the name, a NUL if there is room, and behind it whatever entry r - 1 has there. */
  predicate NameBytes(block: Block, r: nat, name: Str)
    requires r < 128
  {
    var o, n := 32 * r + 4, |name|;
    && n <= 28 && block[o..o + n] == name
    && (n < 28 ==> block[o + n] == 0)
    && (n < 28 ==> block[o + n + 1..o + 28] == if r == 0 then Zeros(27 - n) else block[o + n - 31..o - 4])
  }

  /** Entry r is that of the line at offset * 128 + r; with no such line it is zero. */
  predicate LineBytes(block: Block, entries: seq<Line>, offset: nat, r: nat)
    requires r < 128
  {
    if offset * 128 + r < |entries| then
      var l := entries[offset * 128 + r];
      WordBytes(block, r, l) && NameBytes(block, r, l.name)
    else block[32 * r..32 * r + 32] == Zeros(32)
  }

  /** The name field that the reused structure has before entry j. */
  predicate Carried(block: Block, j: nat, field: NameField)
    requires j <= 128
  { field == if j == 0 then Zeros(28) else block[32 * j - 28..32 * j] }

  ghost predicate BytesSoFar(block: Block, entries: seq<Line>, offset: nat, j: nat) {
    && (forall r: nat :: r < j && r < 128 ==> LineBytes(block, entries, offset, r))
    && (forall x: nat :: 32 * j <= x < 4096 ==> block[x] == 0)
  }

  lemma SubSlice(b: Str, a: nat, c: nat, i: nat, j: nat)
    requires a <= c <= |b| && i <= j <= c - a
    ensures b[a..c][i..j] == b[a + i..a + j]
  {
    forall k | 0 <= k < j - i
      ensures b[a..c][i..j][k] == b[a + i..a + j][k]
    {}
  }

  lemma LineBytesSame(block: Block, e: Block, entries: seq<Line>, offset: nat, r: nat)
    requires r < 128 && LineBytes(block, entries, offset, r) && block[..32 * r + 32] == e[..32 * r + 32]
    ensures LineBytes(e, entries, offset, r)
  {
    forall x: nat, y: nat | x <= y <= 32 * r + 32
      ensures block[x..y] == e[x..y]
    {
      SubSlice(block, 0, 32 * r + 32, x, y);
      SubSlice(e, 0, 32 * r + 32, x, y);
    }
    forall x | 0 <= x < 32 * r + 32
      ensures block[x] == e[x]
    {
      assert block[x] == block[..32 * r + 32][x] && e[x] == e[..32 * r + 32][x];
    }
  }

  lemma AssignedParts(field: NameField, name: Str)
    requires |name| <= 28
    ensures Assigned(field, name)[..|name|] == name
    ensures |name| < 28 ==>
      Assigned(field, name)[|name|] == 0 && Assigned(field, name)[|name| + 1..28] == field[|name| + 1..28]
  {
    if |name| < 28 { assert Assigned(field, name)[|name| + 1..28] == field[|name| + 1..28]; }
  }

  /** The entry just written: its word ... */
  lemma WordWritten(b: Block, j: nat, e: Dirent, l: Line)
    requires j < 128 && EntryAt(b, j, e) && e.valid == l.valid && e.inode == l.inum
    ensures WordBytes(b, j, l) && b[32 * j + 4..32 * j + 32] == e.name
  {}

  /** ... and its name. */
  lemma NameWritten(b: Block, j: nat, before: NameField, name: Str)
    requires j < 128 && |name| <= 28 && b[32 * j + 4..32 * j + 32] == Assigned(before, name)
    requires |name| < 28 ==>
      before[|name| + 1..28] == if j == 0 then Zeros(27 - |name|) else b[32 * j - 27 + |name|..32 * j]
    ensures NameBytes(b, j, name)
  {
    var n, o := |name|, 32 * j;
    AssignedParts(before, name);
    hide Assigned, Zeros;
    SubSlice(b, o + 4, o + 32, 0, n);
    if n < 28 {
      assert b[o + 4 + n] == b[o + 4..o + 32][n];
      SubSlice(b, o + 4, o + 32, n + 1, 28);
    }
  }

  lemma CarriedTail(block: Block, j: nat, field: NameField, n: nat)
    requires j <= 128 && Carried(block, j, field) && n < 28
    ensures field[n + 1..28] == if j == 0 then Zeros(27 - n) else block[32 * j - 27 + n..32 * j]
  {
    if j == 0 {
      assert field[n + 1..28] == Zeros(27 - n);
    } else {
      SubSlice(block, 32 * j - 28, 32 * j, n + 1, 28);
    }
  }

  lemma LineWritten(block: Block, entries: seq<Line>, offset: nat, j: nat, field: NameField)
    requires j < 128 && offset * 128 + j < |entries| && Holdable(entries[offset * 128 + j])
    requires Carried(block, j, field)
    ensures var l := entries[offset * 128 + j]; var e := Dirent(l.valid, l.inum, Assigned(field, l.name));
      LineBytes(PutDirent(block, j, e), entries, offset, j) && Carried(PutDirent(block, j, e), j + 1, e.name)
  {
    var l := entries[offset * 128 + j];
    var e := Dirent(l.valid, l.inum, Assigned(field, l.name));
    var b, n := PutDirent(block, j, e), |l.name|;
    hide PutDirent, Assigned, Carried, Zeros, EntryAt, WordBytes, NameBytes;
    EntryWrites(block, j, e);
    WordWritten(b, j, e, l);
    CarriedIs(b, j + 1, e.name);
    BeforeSame(block, j, e);
    if n < 28 { CarriedTail(block, j, field, n); }
    NameWritten(b, j, field, l.name);
  }

  lemma CarriedIs(b: Block, j: nat, field: NameField)
    requires 0 < j <= 128 && field == b[32 * j - 28..32 * j]
    ensures Carried(b, j, field)
  {}

  lemma BeforeSame(block: Block, j: nat, e: Dirent)
    requires j < 128
    ensures forall x: nat, y: nat :: x <= y <= 32 * j ==> PutDirent(block, j, e)[x..y] == block[x..y]
  {
    EntryWrites(block, j, e);
    hide PutDirent;
    forall x: nat | x < 32 * j ensures PutDirent(block, j, e)[x] == block[x] { assert x / 32 < j; }
  }

  lemma LineStays(block: Block, entries: seq<Line>, offset: nat, j: nat, e: Dirent, r: nat)
    requires r < j < 128 && LineBytes(block, entries, offset, r)
    ensures LineBytes(PutDirent(block, j, e), entries, offset, r)
  {
    BeforeSame(block, j, e);
    hide PutDirent, LineBytes;
    var b := PutDirent(block, j, e);
    assert b[0..32 * r + 32] == block[0..32 * r + 32];
    LineBytesSame(block, b, entries, offset, r);
  }

  lemma BytesNext(block: Block, entries: seq<Line>, offset: nat, j: nat, field: NameField)
    requires j < 128 && offset * 128 + j < |entries| && Holdable(entries[offset * 128 + j])
    requires Carried(block, j, field) && BytesSoFar(block, entries, offset, j)
    ensures var l := entries[offset * 128 + j]; var e := Dirent(l.valid, l.inum, Assigned(field, l.name));
      BytesSoFar(PutDirent(block, j, e), entries, offset, j + 1)
  {
    var l := entries[offset * 128 + j];
    var e := Dirent(l.valid, l.inum, Assigned(field, l.name));
    var b := PutDirent(block, j, e);
    LineWritten(block, entries, offset, j, field);
    hide PutDirent, LineBytes, Carried, Holdable, EntryAt, Assigned;
    forall r: nat | r < j
      ensures LineBytes(b, entries, offset, r)
    {
      LineStays(block, entries, offset, j, e, r);
    }
    EntryWrites(block, j, e);
    forall x: nat | 32 * (j + 1) <= x < 4096
      ensures b[x] == 0
    {
      assert x / 32 != j;
    }
  }

  lemma BytesStart(entries: seq<Line>, offset: nat, field: NameField)
    requires field == Zeros(28)
    ensures BytesSoFar(ZeroBlock(), entries, offset, 0) && Carried(ZeroBlock(), 0, field)
  {}

  lemma BytesAll(block: Block, entries: seq<Line>, offset: nat, j: nat)
    requires BytesSoFar(block, entries, offset, j) && j <= 128 && (j == 128 || offset * 128 + j >= |entries|)
    ensures forall r: nat :: r < 128 ==> LineBytes(block, entries, offset, r)
  {
    forall r: nat | j <= r < 128
      ensures LineBytes(block, entries, offset, r)
    {
      assert block[32 * r..32 * r + 32] == Zeros(32);
    }
    hide LineBytes;
  }

  /** The first j entries of the block show their lines, the others nothing. */
  ghost predicate ShowsLines(block: Block, entries: seq<Line>, offset: nat, j: nat) {
    && (forall r: nat :: r < j && r < 128 ==> ShowsLine(block, entries, offset, r))
    && (forall r: nat :: j <= r < 128 ==> !DecodeDirent(block, r).valid)
  }

  lemma LineNext(block: Block, entries: seq<Line>, offset: nat, j: nat, field: NameField)
    requires ShowsLines(block, entries, offset, j) && j < 128 && offset * 128 + j < |entries|
    requires Holdable(entries[offset * 128 + j])
    ensures var l := entries[offset * 128 + j];
      ShowsLines(PutDirent(block, j, Dirent(l.valid, l.inum, Assigned(field, l.name))), entries, offset, j + 1)
  {
    var l := entries[offset * 128 + j];
    var e := Dirent(l.valid, l.inum, Assigned(field, l.name));
    AssignedReads(field, l.name);
    hide DecodeDirent, PutDirent, CStr, Assigned;
    forall r: nat | r < 128
      ensures DecodeDirent(PutDirent(block, j, e), r) == if r == j then e else DecodeDirent(block, r)
      ensures r <= j ==> ShowsLine(PutDirent(block, j, e), entries, offset, r)
    {
      PutThenGet(block, j, e, r);
      assert r < j ==> ShowsLine(block, entries, offset, r);
    }
  }

  lemma ShowsNone(entries: seq<Line>, offset: nat)
    ensures ShowsLines(ZeroBlock(), entries, offset, 0)
  {
    forall r: nat | r < 128 ensures !DecodeDirent(ZeroBlock(), r).valid { ZeroBlockEmpty(r); }
  }

  lemma ShowsAll(block: Block, entries: seq<Line>, offset: nat, j: nat)
    requires ShowsLines(block, entries, offset, j) && j <= 128 && (j == 128 || offset * 128 + j >= |entries|)
    ensures forall r: nat :: r < 128 ==> ShowsLine(block, entries, offset, r)
  {
    hide DecodeDirent, CStr;
  }

  /** The block and the reused structure when j lines have been written. */
  ghost predicate Filling(block: Block, entries: seq<Line>, offset: nat, j: nat, field: NameField) {
    && j <= 128 && ShowsLines(block, entries, offset, j) && BytesSoFar(block, entries, offset, j)
    && Carried(block, j, field)
  }

  lemma FillStart(entries: seq<Line>, offset: nat, field: NameField)
    requires field == Zeros(28)
    ensures Filling(ZeroBlock(), entries, offset, 0, field)
  {
    ShowsNone(entries, offset);
    BytesStart(entries, offset, field);
    hide ShowsLines, BytesSoFar, Carried;
  }

  lemma FillNext(block: Block, entries: seq<Line>, offset: nat, j: nat, field: NameField)
    requires Filling(block, entries, offset, j, field) && j < 128 && offset * 128 + j < |entries|
    requires Holdable(entries[offset * 128 + j])
    ensures var l := entries[offset * 128 + j]; var f := Assigned(field, l.name);
      Filling(PutDirent(block, j, Dirent(l.valid, l.inum, f)), entries, offset, j + 1, f)
  {
    hide ShowsLines, BytesSoFar, Carried, Assigned, PutDirent, LineBytes;
    LineNext(block, entries, offset, j, field);
    LineWritten(block, entries, offset, j, field);
    BytesNext(block, entries, offset, j, field);
  }

  lemma FillEnd(block: Block, entries: seq<Line>, offset: nat, j: nat, field: NameField)
    requires Filling(block, entries, offset, j, field) && (j == 128 || offset * 128 + j >= |entries|)
    ensures forall r: nat :: r < 128 ==> ShowsLine(block, entries, offset, r) && LineBytes(block, entries, offset, r)
  {
    hide ShowsLines, BytesSoFar, Carried, ShowsLine, LineBytes;
    ShowsAll(block, entries, offset, j);
    BytesAll(block, entries, offset, j);
  }

  /** block(offset): up to 128 lines of the directory from offset * 128 on, one after the other. */
  method DirBlock(entries: seq<Line>, offset: nat) returns (data: Block)
    requires forall l :: l in entries ==> Holdable(l)
    ensures forall r: nat :: r < 128 ==> ShowsLine(data, entries, offset, r) && LineBytes(data, entries, offset, r)
  {
    assert forall x :: 0 <= x < |entries| ==>
      Holdable(entries[x]) && |entries[x].name| <= 28 && entries[x].inum < 0x8000_0000;
    hide *;
    data := ZeroBlock();
    var field: NameField := Zeros(28);
    FillStart(entries, offset, field);
    var last := if |entries| < (offset + 1) * 128 then |entries| else (offset + 1) * 128;
    var i, j := offset * 128, 0;
    while i < last
      invariant i == offset * 128 + j && j <= 128 && Filling(data, entries, offset, j, field)
    {
      var l := entries[i];
      FillNext(data, entries, offset, j, field);
      field := Assigned(field, l.name);
      data := PutDirent(data, j, Dirent(l.valid, l.inum, field));
      j := j + 1;
      i := i + 1;
    }
    FillEnd(data, entries, offset, j, field);
  }

  // ---- scanning what was generated ----

  /** The valid lines among the first n of the input, in order. */
  function ValidLines(entries: seq<Line>, n: nat): seq<(Str, nat)> {
    if n == 0 then []
    else if n <= |entries| && entries[n - 1].valid then
        ValidLines(entries, n - 1) + [(entries[n - 1].name, entries[n - 1].inum)]
    else ValidLines(entries, n - 1)
  }

  /** The children that a scan of the first n slots of directory i collects. */
  function Scanned(d: Disk, i: nat, n: nat): seq<(Str, nat)> {
    if n == 0 then []
    else Scanned(d, i, n - 1) + if Ent(d, i, n - 1).valid then [(NameAt(d, i, n - 1), Ent(d, i, n - 1).inode)] else []
  }

  /** Directory i of the image holds the generated blocks of these lines. */
  ghost predicate HoldsLines(bs: seq<Block>, i: nat, entries: seq<Line>, nblocks: nat) {
    && nblocks <= 1019
    && forall k :: 0 <= k < nblocks ==> forall r: nat :: r < 128 ==>
        ShowsLine(BlockAt(bs, Ptr(Sectors(bs), i, k)), entries, k, r)
  }

  lemma SlotReads(bs: seq<Block>, i: nat, k: nat)
    ensures var d := Sectors(bs); Ent(d, i, k) == DecodeDirent(BlockAt(bs, Ptr(d, i, k / 128)), k % 128)
  {
    var d := Sectors(bs);
    SectorAt(bs, Ptr(d, i, k / 128));
    hide DecodeDirent, DecodeInode, Sectors, BlockAt, Ptr;
  }

  lemma LineAt(bs: seq<Block>, i: nat, entries: seq<Line>, nblocks: nat, k: nat)
    requires HoldsLines(bs, i, entries, nblocks) && k < 128 * nblocks
    ensures ShowsLine(BlockAt(bs, Ptr(Sectors(bs), i, k / 128)), entries, k / 128, k % 128)
  {
    hide ShowsLine, BlockAt, Ptr, Sectors;
  }

  lemma SlotShows(bs: seq<Block>, i: nat, entries: seq<Line>, nblocks: nat, k: nat)
    requires HoldsLines(bs, i, entries, nblocks) && k < 128 * nblocks
    ensures var e := Ent(Sectors(bs), i, k);
      if k < |entries| then e.valid == entries[k].valid && e.inode == entries[k].inum &&
          NameAt(Sectors(bs), i, k) == entries[k].name
      else !e.valid
  {
    hide HoldsLines, DecodeDirent, CStr, Sectors, BlockAt, Ptr, Ent;
    SlotReads(bs, i, k);
    LineAt(bs, i, entries, nblocks, k);
    assert k / 128 * 128 + k % 128 == k;
  }

  /** Scanning the generated blocks of a directory slot by slot, across the boundaries of 128 entries, yields its valid
      lines in order. */
  lemma {:induction false} ScanYieldsLines(bs: seq<Block>, i: nat, entries: seq<Line>, nblocks: nat, n: nat)
    requires HoldsLines(bs, i, entries, nblocks) && n <= 128 * nblocks
    ensures Scanned(Sectors(bs), i, n) == ValidLines(entries, n)
  {
    hide HoldsLines, Sectors, Ent, CStr;
    if n > 0 {
      ScanYieldsLines(bs, i, entries, nblocks, n - 1);
      SlotShows(bs, i, entries, nblocks, n - 1);
    }
  }

  // ---- the image file ----

  /** What the output loop writes for a cell: zeros, an inode, or a block of an item. */
  function Filled(c: Cell, inodes: seq<Block>, data: seq<seq<Block>>): Block {
    match c
    case Nothing => ZeroBlock()
    case InodeOf(x) => if x < |inodes| then inodes[x] else ZeroBlock()
    case DataOf(x, k) => if x < |data| && k < |data[x]| then data[x][k] else ZeroBlock()
  }

  /** The superblock, the bitmap, and one block for every cell. */
  method WriteImage(nblocks: nat, blocks: seq<Cell>, top: Block, bm: Block, inodes: seq<Block>, data: seq<seq<Block>>)
    returns (image: seq<Block>)
    requires 2 <= nblocks <= |blocks|
    ensures |image| == nblocks && image[..2] == [top, bm] && forall i :: 2 <= i < nblocks ==>
        image[i] == Filled(blocks[i], inodes, data)
    ensures forall i :: 2 <= i < nblocks && blocks[i] == Nothing ==> forall x :: 0 <= x < 4096 ==> image[i][x] == 0
  {
    assert forall x :: 0 <= x < 4096 ==> Filled(Nothing, inodes, data)[x] == 0;
    hide Filled;
    image := [top, bm];
    for i := 2 to nblocks
      invariant |image| == i && image[..2] == [top, bm] && forall j :: 2 <= j < i ==>
          image[j] == Filled(blocks[j], inodes, data)
    {
      image := image + [Filled(blocks[i], inodes, data)];
    }
  }

  lemma ClaimsOf(items: seq<Item>, x: nat, k: nat)
    requires x < |items|
    ensures Claim(items[x].inum, InodeOf(x)) in Claims(items, |items|)
    ensures k < |items[x].blocks| ==> Claim(items[x].blocks[k], DataOf(x, k)) in Claims(items, |items|)
  {
    hide Claims, DataClaims;
    ClaimsStep(items, x);
    var rest := ClaimsPrefix(items, x + 1, |items|);
    if k < |items[x].blocks| {
      ClaimsNext(items, x, k);
      var more := ClaimsCut(x, items[x].blocks, k + 1, |items[x].blocks|);
    }
  }

  lemma CellOf(cells: seq<Cell>, cs: seq<Claim>, c: Claim)
    requires CellsHold(cells, cs) && Apart(cs) && c in cs
    ensures c.block < |cells| && cells[c.block] == c.cell
  {
    var p: nat :| p < |cs| && cs[p] == c;
    assert LastAt(cs, p);
  }

  /** In the image of an input that claims no block twice, the blocks that a directory's pointers lead to are its
      generated blocks in order, wherever in the image they lie. */
  lemma DirectoryLies(items: seq<Item>, cells: seq<Cell>, image: seq<Block>, inodes: seq<Block>, data: seq<seq<Block>>,
      x: nat, entries: seq<Line>)
    requires x < |items| && |inodes| == |items| == |data| && |data[x]| == |items[x].blocks| <= 1019
    requires InImage(items, |image|) && |image| <= |cells| && Apart(Claims(items, |items|))
    requires CellsHold(cells, Claims(items, |items|))
    requires forall i :: 2 <= i < |image| ==> image[i] == Filled(cells[i], inodes, data)
    requires forall k :: 0 <= k < |items[x].blocks| ==> DecodeInode(inodes[x]).ptrs[k] == items[x].blocks[k]
    requires forall k :: 0 <= k < |items[x].blocks| ==> forall r: nat :: r < 128 ==>
        ShowsLine(data[x][k], entries, k, r)
    ensures HoldsLines(image, items[x].inum, entries, |items[x].blocks|)
  {
    var i := items[x].inum;
    forall k | 0 <= k < |items[x].blocks|
      ensures BlockAt(image, Ptr(Sectors(image), i, k)) == data[x][k]
    {
      DirectoryBlock(items, cells, image, inodes, data, x, k);
    }
    hide DecodeInode, ShowsLine, Sectors, BlockAt, Ptr, Claims, Apart, CellsHold, Filled;
  }

  lemma DirectoryBlock(items: seq<Item>, cells: seq<Cell>, image: seq<Block>, inodes: seq<Block>,
      data: seq<seq<Block>>, x: nat, k: nat)
    requires x < |items| && |inodes| == |items| == |data| && |data[x]| == |items[x].blocks| <= 1019
    requires k < |items[x].blocks|
    requires InImage(items, |image|) && |image| <= |cells| && Apart(Claims(items, |items|))
    requires CellsHold(cells, Claims(items, |items|))
    requires forall i :: 2 <= i < |image| ==> image[i] == Filled(cells[i], inodes, data)
    requires DecodeInode(inodes[x]).ptrs[k] == items[x].blocks[k]
    ensures BlockAt(image, Ptr(Sectors(image), items[x].inum, k)) == data[x][k]
  {
    var i, b := items[x].inum, items[x].blocks[k];
    var cs := Claims(items, |items|);
    ClaimsOf(items, x, k);
    CellOf(cells, cs, Claim(i, InodeOf(x)));
    CellOf(cells, cs, Claim(b, DataOf(x, k)));
    ApartLow(cs, Claim(i, InodeOf(x)));
    ApartLow(cs, Claim(b, DataOf(x, k)));
    ImageInode(image, i, inodes[x], k);
    hide DecodeInode, Sectors, Claims, Apart, CellsHold;
  }

  lemma ApartLow(cs: seq<Claim>, c: Claim)
    requires Apart(cs) && c in cs
    ensures c.block >= 2
  {}

  lemma ImageInode(image: seq<Block>, i: nat, b: Block, k: nat)
    requires i < |image| && image[i] == b && k < 1019
    ensures Ptr(Sectors(image), i, k) == DecodeInode(b).ptrs[k]
  {
    hide DecodeInode, DecodeDirents;
  }
}
