/** The map behind its one-block buffer (map.c). */
module MapStore {
  import opened CInt
  import opened MapAddress

  const HOLE := -128

  type Block = seq<int>

  /** All fields of the map, as the user of access_field sees them. */
  type Plane = imap<Cell, int>

  predicate IsBlock(b: Block) {
    |b| == BLOCK_SIZE && forall i :: 0 <= i < BLOCK_SIZE ==> Int8(b[i])
  }

  predicate IsFile(file: seq<Block>) {
    |file| == BLOCKS && forall b :: 0 <= b < BLOCKS ==> IsBlock(file[b])
  }

  function BlockOf(c: Cell): (b: nat)
    requires InMap(c)
    ensures b < BLOCKS
  {
    CellIsAtItsPlace(c);
    GetBlock(c.x, c.y)
  }

  function OffsetOf(c: Cell): (o: nat)
    requires InMap(c)
    ensures o < BLOCK_SIZE
  {
    CellIsAtItsPlace(c);
    Offset(c.x, c.y)
  }

  function Value(file: seq<Block>, buffer: Block, block: nat, c: Cell): (v: int)
    requires IsFile(file) && IsBlock(buffer) && InMap(c)
    ensures Int8(v)
  {
    if BlockOf(c) == block then buffer[OffsetOf(c)] else file[BlockOf(c)][OffsetOf(c)]
  }

  /** What the file holds of a cell. */
  function FileValue(file: seq<Block>, c: Cell): (v: int)
    requires IsFile(file) && InMap(c)
    ensures Int8(v)
  {
    file[BlockOf(c)][OffsetOf(c)]
  }

  /** The file with the buffer laid over the current block. */
  ghost function Overlay(file: seq<Block>, buffer: Block, block: nat): Plane
    requires IsFile(file) && IsBlock(buffer)
  {
    imap c: Cell | InMap(c) :: Value(file, buffer, block, c)
  }

  /** The same as a relation. */
  ghost predicate Shows(cells: Plane, file: seq<Block>, buffer: Block, block: nat)
    requires IsFile(file) && IsBlock(buffer)
  {
    && (forall c: Cell :: c in cells <==> InMap(c))
    && (forall c: Cell {:trigger Value(file, buffer, block, c)} :: InMap(c) ==> cells[c] == Value(file, buffer, block, c))
  }

  lemma ShowsIsOverlay(cells: Plane, file: seq<Block>, buffer: Block, block: nat)
    requires IsFile(file) && IsBlock(buffer)
    ensures Shows(cells, file, buffer, block) <==> cells == Overlay(file, buffer, block)
  {
    if Shows(cells, file, buffer, block) {
      forall c | InMap(c)
        ensures cells[c] == Overlay(file, buffer, block)[c]
      {
        assert cells[c] == Value(file, buffer, block, c);
      }
    }
  }

  lemma InSection(x: int, y: int)
    requires InMap(Cell(x, y))
    ensures OffsetOf(Cell(x, y)) == Half(x) * (SECTION * SECTION) + U16(x) % SECTION * SECTION + U16(y) % SECTION
  {
    assert U16(x) == x;
  }

  lemma DifferentPlaces(c: Cell, d: Cell)
    requires InMap(c) && InMap(d) && c != d
    ensures BlockOf(c) != BlockOf(d) || OffsetOf(c) != OffsetOf(d)
  {
    CellIsAtItsPlace(c);
    CellIsAtItsPlace(d);
  }

  /** Writing into the buffer changes one cell. */
  lemma BufferWrite(cells: Plane, file: seq<Block>, buffer: Block, c: Cell, v: int)
    requires IsFile(file) && IsBlock(buffer) && InMap(c) && Int8(v) && Shows(cells, file, buffer, BlockOf(c))
    ensures Shows(cells[c := v], file, buffer[OffsetOf(c) := v], BlockOf(c))
  {
    forall d | InMap(d)
      ensures cells[c := v][d] == Value(file, buffer[OffsetOf(c) := v], BlockOf(c), d)
    {
      assert cells[d] == Value(file, buffer, BlockOf(c), d);
      if d != c {
        DifferentPlaces(c, d);
      }
    }
  }

  /** What the file holds after the current block was swapped out. */
  function Saved(file: seq<Block>, buffer: Block, block: nat, updated: bool): (saved: seq<Block>)
    requires IsFile(file) && IsBlock(buffer) && block < BLOCKS
    ensures IsFile(saved)
  {
    if updated then file[block := buffer] else file
  }

  /** Exchanging the block in the buffer changes no cell. */
  lemma SwapKeeps(cells: Plane, file: seq<Block>, buffer: Block, block: nat, updated: bool, next: nat)
    requires IsFile(file) && IsBlock(buffer) && block < BLOCKS && next < BLOCKS
    requires updated || buffer == file[block]
    requires Shows(cells, file, buffer, block)
    ensures var saved := Saved(file, buffer, block, updated);
      Shows(cells, saved, saved[next], next)
  {
    var saved := Saved(file, buffer, block, updated);
    assert saved[block] == buffer;
    forall c | InMap(c)
      ensures cells[c] == Value(saved, saved[next], next, c)
    {
      assert cells[c] == Value(file, buffer, block, c);
    }
  }

  /** Reading the current block again without saving the buffer changes no cell exactly if nothing is lost. */
  lemma DropKeepsIffClean(file: seq<Block>, buffer: Block, block: nat)
    requires IsFile(file) && IsBlock(buffer) && block < BLOCKS
    ensures Overlay(file, file[block], block) == Overlay(file, buffer, block) <==> buffer == file[block]
  {
    if Overlay(file, file[block], block) == Overlay(file, buffer, block) {
      forall o | 0 <= o < BLOCK_SIZE
        ensures buffer[o] == file[block][o]
      {
        PlaceHoldsACell(block, o);
        var c := CellAt(block, o);
        assert Overlay(file, file[block], block)[c] == Overlay(file, buffer, block)[c];
        assert BlockOf(c) == block && OffsetOf(c) == o;
      }
    }
  }

  /* ---- The used part of the map ---- */

  datatype Extent = Extent(minX: int, maxX: int, minY: int, maxY: int)

  /** get_section, when it saves the block with the given corner. */
  function Grow(e: Extent, corner: Cell): Extent {
    var x := if corner.x < e.minX then e.(minX := corner.x)
             else if corner.x > e.maxX then e.(maxX := corner.x + 31)
             else e;
    if corner.y < x.minY then x.(minY := corner.y)
    else if corner.y > x.maxY then x.(maxY := corner.y + 15)
    else x
  }

  predicate Covers(e: Extent, x: int, y: int) {
    e.minX <= x <= e.maxX && e.minY <= y <= e.maxY
  }

  predicate CoversBlock(e: Extent, corner: Cell) {
    Covers(e, corner.x, corner.y) && Covers(e, corner.x + 31, corner.y + 15)
  }

  /** The used part only grows and takes in the corner of every saved block; it takes in the whole block
      exactly if the block does not begin inside it and reach over its far edge. */
  lemma GrowCovers(e: Extent, corner: Cell)
    requires e.minX <= e.maxX && e.minY <= e.maxY
    ensures var e' := Grow(e, corner);
      && Covers(e', corner.x, corner.y) && e'.minX <= e.minX && e.maxX <= e'.maxX && e'.minY <= e.minY && e.maxY <= e'.maxY
      && (CoversBlock(e', corner) <==>
            (corner.x > e.maxX || corner.x + 31 <= e.maxX) && (corner.y > e.maxY || corner.y + 15 <= e.maxY))
  {
  }

  /* ---- The header of the file ---- */

  function Low(n: int): (b: int)
    ensures Int8(b)
  {
    ToInt8(n)
  }

  function High(n: int): (b: int)
    ensures Int8(b)
  {
    ToInt8(n / 256)
  }

  function WithExtent(header: Block, e: Extent): (h: Block)
    requires IsBlock(header)
    ensures IsBlock(h)
  {
    header[2 := Low(e.minX)][3 := High(e.minX)][4 := Low(e.maxX)][5 := High(e.maxX)]
          [6 := Low(e.minY)][7 := High(e.minY)][8 := Low(e.maxY)][9 := High(e.maxY)]
  }

  function Word(h: Block, i: nat): int
    requires i + 1 < |h|
  {
    h[i] % 256 + h[i + 1] * 256
  }

  lemma BytesOfWord(n: int)
    requires Int16(n)
    ensures Low(n) % 256 + High(n) * 256 == n
  {
    assert n / 256 * 256 + n % 256 == n && -128 <= n / 256 <= 127;
    assert High(n) == n / 256;
    assert Low(n) % 256 == n % 256;
  }

  /** What init reads from the header is the extent last written; the rest of the header stays. */
  lemma ExtentReadsBack(header: Block, e: Extent)
    requires IsBlock(header) && Int16(e.minX) && Int16(e.maxX) && Int16(e.minY) && Int16(e.maxY)
    ensures var h := WithExtent(header, e);
      && e == Extent(Word(h, 2), Word(h, 4), Word(h, 6), Word(h, 8))
      && h[..2] == header[..2] && h[10..] == header[10..]
  {
    BytesOfWord(e.minX);
    BytesOfWord(e.maxX);
    BytesOfWord(e.minY);
    BytesOfWord(e.maxY);
  }

  /* ---- Changing a field ---- */

  function Clamp(n: int): int {
    if n > 127 then 127 else if n < -127 then -127 else n
  }

  /** The new value update_field computes on 8 bits. */
  function Saturate(tmp: int, value: int): int {
    var sum := ToInt8(tmp + value);
    if value > 0 then (if sum < tmp then 127 else sum)
    else if sum > tmp || sum == -128 then -127
    else sum
  }

  /** It is the sum, kept in [-127, 127]. */
  lemma SaturateIsClamp(tmp: int, value: int)
    requires Int8(tmp) && Int8(value) && tmp != HOLE
    ensures Saturate(tmp, value) == Clamp(tmp + value)
  {
  }

  /** A field changed by value; holes and what lies outside stay. */
  ghost function Bumped(cells: Plane, c: Cell, value: int): Plane {
    if c in cells && cells[c] != HOLE then cells[c := Clamp(cells[c] + value)] else cells
  }

  /** v' is v changed by value: the sum, or the end of the range it leaves; -128 marks a hole, which stays. */
  predicate IsRaised(v: int, value: int, v': int) {
    if v == -128 then v' == -128
    else if v + value > 127 then v' == 127
    else if v + value < -127 then v' == -127
    else v' == v + value
  }

  lemma BumpedIsRaised(cells: Plane, c: Cell, value: int)
    requires forall d: Cell :: d in cells <==> InMap(d)
    ensures forall d :: InMap(d) && d != c ==> Bumped(cells, c, value)[d] == cells[d]
    ensures InMap(c) ==> IsRaised(cells[c], value, Bumped(cells, c, value)[c])
  {
  }

  class MapCache {
    var file: seq<Block>            // the blocks of the map behind the header
    var header: Block
    const buffer: array<int>
    var block: nat                  // map_current_block
    var updated: bool
    var corner: Cell
    var extent: Extent
    var minMaxUpdated: bool

    ghost var cells: Plane          // what the map holds

    ghost predicate Valid()
      reads this, buffer
    {
      && IsFile(file) && IsBlock(header) && IsBlock(buffer[..]) && block < BLOCKS
      && (updated || buffer[..] == file[block])
      && Shows(cells, file, buffer[..], block)
    }

    /** init on an existing file: block 0 is loaded. */
    constructor (file: seq<Block>, header: Block)
      requires IsFile(file) && IsBlock(header)
      ensures Valid() && fresh(buffer) && this.file == file && this.header == header && block == 0 && !updated
      ensures cells == Overlay(file, file[0], 0)
    {
      this.file, this.header := file, header;
      buffer := new int[BLOCK_SIZE](i requires 0 <= i < BLOCK_SIZE => file[0][i]);
      block, updated, corner, minMaxUpdated := 0, false, Cell(0, 0), false;
      extent := Extent(Word(header, 2), Word(header, 4), Word(header, 6), Word(header, 8));
      cells := Overlay(file, file[0], 0);
      new;
      assert buffer[..] == file[0];
      ShowsIsOverlay(cells, file, file[0], 0);
    }

    /** sdfat_read of one block. */
    method Load(from: Block)
      requires IsBlock(from) && buffer.Length == BLOCK_SIZE
      modifies buffer
      ensures buffer[..] == from
    {
      var i := 0;
      while i < BLOCK_SIZE
        invariant 0 <= i <= BLOCK_SIZE && buffer[..i] == from[..i]
      {
        buffer[i] := from[i];
        i := i + 1;
      }
    }

    /** The half of the buffer in which the section of (x|y) lies, or nothing outside the map. */
    method GetSection(x: int, y: int) returns (half: int)
      requires Valid() && Int16(x) && Int16(y)
      modifies this, buffer
      ensures Valid() && cells == old(cells) && header == old(header)
      ensures half == if InMap(Cell(x, y)) then Half(x) else -1
      ensures InMap(Cell(x, y)) ==> block == GetBlock(x, y)
      ensures !InMap(Cell(x, y)) || block == old(block) ==>
        unchanged(this) && buffer[..] == old(buffer[..])
      ensures block != old(block) ==>
        && !updated && corner == Corner(x, y) && file == Saved(old(file), old(buffer[..]), old(block), old(updated))
        && extent == (if old(updated) then Grow(old(extent), old(corner)) else old(extent))
        && minMaxUpdated == (old(minMaxUpdated) || extent != old(extent))
    {
      OutsideHasNoBlock(x, y);
      var next := GetBlock(x, y);
      if next == NO_BLOCK {
        return -1;
      }
      CellIsAtItsPlace(Cell(x, y));
      half := Half(x);
      if block == next {
        return;
      }
      SwapKeeps(cells, file, buffer[..], block, updated, next);
      if updated {
        if corner.x < extent.minX {
          extent, minMaxUpdated := extent.(minX := corner.x), true;
        } else if corner.x > extent.maxX {
          extent, minMaxUpdated := extent.(maxX := corner.x + 31), true;
        }
        if corner.y < extent.minY {
          extent, minMaxUpdated := extent.(minY := corner.y), true;
        } else if corner.y > extent.maxY {
          extent, minMaxUpdated := extent.(maxY := corner.y + 15), true;
        }
        file := file[block := buffer[..]];
      }
      block, corner, updated := next, Corner(x, y), false;
      Load(file[next]);
    }

    /** Reads a field, or writes it first if set. */
    method AccessField(x: int, y: int, value: int, set_: bool) returns (r: int)
      requires Valid() && Int16(x) && Int16(y) && Int8(value)
      modifies this, buffer
      ensures Valid() && header == old(header)
      ensures Int8(r) && (InMap(Cell(x, y)) ==> r == cells[Cell(x, y)])
      ensures InMap(Cell(x, y)) ==> cells == if set_ then old(cells)[Cell(x, y) := value] else old(cells)
      ensures !InMap(Cell(x, y)) ==> r == 0 && unchanged(this) && buffer[..] == old(buffer[..])
      ensures InMap(Cell(x, y)) ==> block == BlockOf(Cell(x, y))
      ensures InMap(Cell(x, y)) ==> updated == (set_ || (block == old(block) && old(updated)))
      ensures block == old(block) ==> file == old(file) && extent == old(extent) && minMaxUpdated == old(minMaxUpdated)
      ensures block != old(block) ==>
        && file == Saved(old(file), old(buffer[..]), old(block), old(updated))
        && extent == (if old(updated) then Grow(old(extent), old(corner)) else old(extent))
        && minMaxUpdated == (old(minMaxUpdated) || extent != old(extent))
    {
      var half := GetSection(x, y);
      if half < 0 {
        return 0;
      }
      var at := half * (SECTION * SECTION) + U16(x) % SECTION * SECTION + U16(y) % SECTION;
      InSection(x, y);
      if set_ {
        Store(Cell(x, y), at, value);
      }
      assert cells[Cell(x, y)] == Value(file, buffer[..], block, Cell(x, y));
      r := buffer[at];
    }

    method Store(c: Cell, at: nat, value: int)
      requires Valid() && InMap(c) && block == BlockOf(c) && at == OffsetOf(c) && Int8(value)
      modifies this, buffer
      ensures Valid() && header == old(header) && block == old(block) && updated && file == old(file)
      ensures extent == old(extent) && minMaxUpdated == old(minMaxUpdated)
      ensures cells == old(cells)[c := value]
    {
      BufferWrite(cells, file, buffer[..], c, value);
      ghost var was := buffer[..];
      buffer[at] := value;
      updated := true;
      cells := cells[c := value];
      assert buffer[..] == was[at := value];
    }

    method UpdateField(x: int, y: int, value: int)
      requires Valid() && Int16(x) && Int16(y) && Int8(value)
      modifies this, buffer
      ensures Valid() && header == old(header) && cells == Bumped(old(cells), Cell(x, y), value)
      ensures forall c :: InMap(c) && c != Cell(x, y) ==> cells[c] == old(cells)[c]
      ensures InMap(Cell(x, y)) ==> IsRaised(old(cells)[Cell(x, y)], value, cells[Cell(x, y)])
    {
      BumpedIsRaised(cells, Cell(x, y), value);
      var tmp := AccessField(x, y, 0, false);
      if tmp == HOLE {
        return;
      }
      SaturateIsClamp(tmp, value);
      var newValue := ToInt8(tmp + value);
      if value > 0 {
        if newValue < tmp {
          newValue := 127;
        }
      } else if newValue > tmp || newValue == -128 {
        newValue := -127;
      }
      var _ := AccessField(x, y, newValue, true);
    }

    /** map_update_main with an empty queue: saves the block and the extent. */
    method WriteBack()
      requires Valid()
      modifies this, buffer
      ensures Valid() && cells == old(cells) && extent == old(extent) && block == old(block)
      ensures !minMaxUpdated
      ensures old(minMaxUpdated) ==> !updated && header == WithExtent(old(header), extent)
      ensures old(minMaxUpdated) ==> cells == Overlay(file, file[block], block)
      ensures !old(minMaxUpdated) ==> file == old(file) && header == old(header) && updated == old(updated)
    {
      if minMaxUpdated {
        SwapKeeps(cells, file, buffer[..], block, updated, block);
        if updated {
          file := file[block := buffer[..]];
          updated := false;
        }
        minMaxUpdated := false;
        HeaderThroughBuffer();
        Load(file[block]);
        ShowsIsOverlay(cells, file, file[block], block);
      }
    }

    /** The header is read into the map buffer, changed there and written. */
    method HeaderThroughBuffer()
      requires IsBlock(header) && buffer.Length == BLOCK_SIZE
      modifies this`header, buffer
      ensures header == WithExtent(old(header), extent)
    {
      Load(header);
      buffer[2], buffer[3] := Low(extent.minX), High(extent.minX);
      buffer[4], buffer[5] := Low(extent.maxX), High(extent.maxX);
      buffer[6], buffer[7] := Low(extent.minY), High(extent.minY);
      buffer[8], buffer[9] := Low(extent.maxY), High(extent.maxY);
      header := buffer[..];
    }

    /** map_flush_cache: what is in the buffer and not in the file is lost. A field keeps its value exactly if
        the file holds the value last written to it. */
    method FlushCache()
      requires Valid()
      modifies this, buffer
      ensures Valid() && file == old(file) && block == old(block) && updated == old(updated) && extent == old(extent)
      ensures header == WithExtent(old(header), extent)
      ensures cells == Overlay(file, file[block], block)
      ensures cells == old(cells) <==> old(buffer[..]) == old(file[block])
      ensures forall c :: InMap(c) ==> cells[c] == FileValue(file, c)
    {
      DropKeepsIffClean(file, buffer[..], block);
      ShowsIsOverlay(cells, file, buffer[..], block);
      HeaderThroughBuffer();
      Load(file[block]);
      cells := Overlay(file, file[block], block);
      ShowsIsOverlay(cells, file, file[block], block);
    }
  }

  /** The write that gets lost: after writing a field and flushing, it reads what the file held before, so the
      write has taken effect exactly if it wrote what the file held anyway. A fresh 5 over a 0 reads 0. */
  method WriteFlushRead(map_: MapCache, x: int, y: int, value: int) returns (r: int)
    requires map_.Valid() && Int16(x) && Int16(y) && Int8(value) && InMap(Cell(x, y))
    modifies map_, map_.buffer
    ensures map_.Valid() && r == FileValue(old(map_.file), Cell(x, y))
    ensures r == value <==> value == FileValue(old(map_.file), Cell(x, y))
    ensures !old(map_.updated) ==> r == old(map_.cells)[Cell(x, y)]
  {
    ghost var c := Cell(x, y);
    assert !map_.updated ==> map_.cells[c] == Value(map_.file, map_.buffer[..], map_.block, c) == FileValue(map_.file, c);
    var _ := map_.AccessField(x, y, value, true);
    assert FileValue(map_.file, c) == FileValue(old(map_.file), c);
    map_.FlushCache();
    r := map_.AccessField(x, y, 0, false);
  }
}
