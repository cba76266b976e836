/** Where a map cell lies in the map file (map.c): macroblocks of 512 x 512 cells, in them blocks of two
    sections of 16 x 16 cells. */
module MapAddress {
  import opened CInt

  const EDGE := 1536              // MAP_SIZE * MAP_RESOLUTION
  const SECTION := 16             // MAP_SECTION_POINTS
  const MACRO := 512              // MACRO_BLOCK_LENGTH
  const MACROS := 3               // MAP_LENGTH_IN_MACRO_BLOCKS
  const BLOCK_SIZE := 512         // MAP_BLOCK_SIZE
  const BLOCKS := 4608            // blocks of the whole map
  const NO_BLOCK := 0xffff

  datatype Cell = Cell(x: int, y: int)

  predicate InMap(c: Cell) {
    0 <= c.x < EDGE && 0 <= c.y < EDGE
  }

  /** Number of the block inside its macroblock, two sections to a block. */
  function LocalBlock(x: nat, y: nat): nat {
    (x % MACRO / SECTION + y % MACRO / SECTION * (MACRO / SECTION)) / 2
  }

  function Macroblock(x: nat, y: nat): nat {
    x / MACRO + y / MACRO * MACROS
  }

  /** get_block, with its unsigned conversions. */
  function GetBlock(x: int, y: int): nat {
    if U16(x) >= EDGE || U16(y) >= EDGE then NO_BLOCK
    else U16(LocalBlock(U16(x), U16(y)) + U16(Macroblock(U16(x), U16(y)) * MACRO * (MACRO / BLOCK_SIZE)))
  }

  /** The half of the block, as get_section chooses it. */
  function Half(x: nat): nat {
    x / SECTION % 2
  }

  /** The place of a cell in the 512 byte buffer: section[x][y] of one of its halves. */
  function Offset(x: int, y: int): nat {
    Half(U16(x)) * (SECTION * SECTION) + U16(x) % SECTION * SECTION + U16(y) % SECTION
  }

  /** The cell at a place of the file. */
  function CellAt(block: nat, offset: nat): Cell {
    var macroblock := block / MACRO;
    var local := block % MACRO;
    Cell(macroblock % MACROS * MACRO + local % 16 * 32 + offset / 256 * SECTION + offset % 256 / SECTION,
         macroblock / MACROS * MACRO + local / 16 * SECTION + offset % SECTION)
  }

  /** A coordinate in macroblock, column (or row), half and place inside the section. */
  ghost predicate XParts(x: int, m: nat, column: nat, half: nat, ix: nat) {
    x == m * 512 + column * 32 + half * 16 + ix && column < 16 && half < 2 && ix < 16
  }

  ghost predicate YParts(y: int, m: nat, row: nat, iy: nat) {
    y == m * 512 + row * 16 + iy && row < 32 && iy < 16
  }

  lemma SplitX(x: nat) returns (m: nat, column: nat, half: nat, ix: nat)
    ensures XParts(x, m, column, half, ix)
  {
    m := x / 512;
    var local := x % 512;
    column := local / 32;
    half := local % 32 / 16;
    ix := local % 32 % 16;
  }

  lemma SplitY(y: nat) returns (m: nat, row: nat, iy: nat)
    ensures YParts(y, m, row, iy)
  {
    m := y / 512;
    row := y % 512 / 16;
    iy := y % 512 % 16;
  }

  lemma XQuotients(x: nat, m: nat, column: nat, half: nat, ix: nat)
    requires XParts(x, m, column, half, ix)
    ensures x / 512 == m && x % 512 / 16 == column * 2 + half
    ensures x / 16 % 2 == half && x % 16 == ix && x % 32 == half * 16 + ix
  {
    Quotient(x, 512, m, column * 32 + half * 16 + ix);
    Quotient(x % 512, 16, column * 2 + half, ix);
    Quotient(x, 16, m * 32 + column * 2 + half, ix);
    Quotient(x / 16, 2, m * 16 + column, half);
    Quotient(x, 32, m * 16 + column, half * 16 + ix);
  }

  lemma YQuotients(y: nat, m: nat, row: nat, iy: nat)
    requires YParts(y, m, row, iy)
    ensures y / 512 == m && y % 512 / 16 == row && y % 16 == iy
  {
    Quotient(y, 512, m, row * 16 + iy);
    Quotient(y % 512, 16, row, iy);
    Quotient(y, 16, m * 32 + row, iy);
  }

  /** The place of a cell from its parts: no 16 bit result overflows. */
  lemma PlaceOfParts(x: nat, y: nat, mx: nat, column: nat, half: nat, ix: nat, my: nat, row: nat, iy: nat)
    requires XParts(x, mx, column, half, ix) && YParts(y, my, row, iy) && mx < MACROS && my < MACROS
    ensures GetBlock(x, y) == (mx + my * 3) * 512 + row * 16 + column < BLOCKS
    ensures Offset(x, y) == half * 256 + ix * 16 + iy < BLOCK_SIZE
  {
    BlockOfParts(x, y, mx, column, half, ix, my, row, iy);
    SmallIsItself(x);
    SmallIsItself(y);
    XQuotients(x, mx, column, half, ix);
    YQuotients(y, my, row, iy);
  }

  lemma BlockOfParts(x: nat, y: nat, mx: nat, column: nat, half: nat, ix: nat, my: nat, row: nat, iy: nat)
    requires XParts(x, mx, column, half, ix) && YParts(y, my, row, iy) && mx < MACROS && my < MACROS
    ensures GetBlock(x, y) == (mx + my * 3) * 512 + row * 16 + column < BLOCKS
  {
    LocalOfParts(x, y, mx, column, half, ix, my, row, iy);
    BlockOfSmall(x, y, mx + my * 3, row * 16 + column);
  }

  lemma BlockOfSmall(x: nat, y: nat, macroblock: nat, local: nat)
    requires x < EDGE && y < EDGE && macroblock <= 8 && local < 512
    requires Macroblock(x, y) == macroblock && LocalBlock(x, y) == local
    ensures GetBlock(x, y) == macroblock * 512 + local
  {
    SmallIsItself(x);
    SmallIsItself(y);
    BlockOfLocal(macroblock, local);
  }

  lemma BlockOfLocal(macroblock: nat, local: nat)
    requires macroblock <= 8 && local < 512
    ensures U16(local + U16(macroblock * MACRO * (MACRO / BLOCK_SIZE))) == macroblock * 512 + local
  {
    var first := macroblock * MACRO * (MACRO / BLOCK_SIZE);
    assert first == macroblock * 512;
    SmallIsItself(first);
    SmallIsItself(local + first);
  }

  lemma LocalOfParts(x: nat, y: nat, mx: nat, column: nat, half: nat, ix: nat, my: nat, row: nat, iy: nat)
    requires XParts(x, mx, column, half, ix) && YParts(y, my, row, iy)
    ensures LocalBlock(x, y) == row * 16 + column && Macroblock(x, y) == mx + my * 3
  {
    XQuotients(x, mx, column, half, ix);
    YQuotients(y, my, row, iy);
    Quotient(column * 2 + half + row * 32, 2, column + row * 16, half);
  }

  /** The cell of a place from the parts. */
  lemma CellOfParts(block: nat, offset: nat, c: Cell, mx: nat, column: nat, half: nat, ix: nat, my: nat, row: nat, iy: nat)
    requires XParts(c.x, mx, column, half, ix) && YParts(c.y, my, row, iy) && mx < MACROS && my < MACROS
    requires block == (mx + my * 3) * 512 + row * 16 + column && offset == half * 256 + ix * 16 + iy
    ensures CellAt(block, offset) == c
  {
    Quotient(block, 512, mx + my * 3, row * 16 + column);
    Quotient(mx + my * 3, 3, my, mx);
    Quotient(row * 16 + column, 16, row, column);
    Quotient(offset, 256, half, ix * 16 + iy);
    Quotient(ix * 16 + iy, 16, ix, iy);
    Quotient(offset, 16, half * 16 + ix, iy);
  }

  lemma InsideUnsigned(x: int)
    requires Int16(x)
    ensures U16(x) < EDGE <==> 0 <= x < EDGE
  {
  }

  /** get_block accepts exactly the cells of the map, whatever 16 bit coordinates it is given. */
  lemma OutsideHasNoBlock(x: int, y: int)
    requires Int16(x) && Int16(y)
    ensures InMap(Cell(x, y)) <==> GetBlock(x, y) != NO_BLOCK
  {
    InsideUnsigned(x);
    InsideUnsigned(y);
    if InMap(Cell(x, y)) {
      CellIsAtItsPlace(Cell(x, y));
    }
  }

  /** Every cell is found where it is stored ... */
  lemma CellIsAtItsPlace(c: Cell)
    requires InMap(c)
    ensures GetBlock(c.x, c.y) < BLOCKS && Offset(c.x, c.y) < BLOCK_SIZE
    ensures CellAt(GetBlock(c.x, c.y), Offset(c.x, c.y)) == c
  {
    var mx, column, half, ix := SplitX(c.x);
    var my, row, iy := SplitY(c.y);
    PlaceOfParts(c.x, c.y, mx, column, half, ix, my, row, iy);
    CellOfParts(GetBlock(c.x, c.y), Offset(c.x, c.y), c, mx, column, half, ix, my, row, iy);
  }

  /** ... and every place of the file holds a cell of the map: the addresses are a bijection. */
  lemma PlaceHoldsACell(block: nat, offset: nat)
    requires block < BLOCKS && offset < BLOCK_SIZE
    ensures var c := CellAt(block, offset);
      InMap(c) && GetBlock(c.x, c.y) == block && Offset(c.x, c.y) == offset
  {
    var macroblock, local := block / 512, block % 512;
    var mx, my, row, column := macroblock % 3, macroblock / 3, local / 16, local % 16;
    var half, ix, iy := offset / 256, offset % 256 / 16, offset % 256 % 16;
    var c := Cell(mx * 512 + column * 32 + half * 16 + ix, my * 512 + row * 16 + iy);
    CellOfParts(block, offset, c, mx, column, half, ix, my, row, iy);
    PlaceOfParts(c.x, c.y, mx, column, half, ix, my, row, iy);
  }

  /** The corner get_section keeps in map_current_block. */
  function Corner(x: nat, y: nat): Cell {
    Cell(x - x % (2 * SECTION), y - y % SECTION)
  }

  /** It is the first cell of the block: a block covers the 32 x 16 cells that share a corner. */
  lemma CornerOfBlock(c: Cell)
    requires InMap(c)
    ensures Corner(c.x, c.y) == CellAt(GetBlock(c.x, c.y), 0) && InMap(Corner(c.x, c.y))
  {
    var mx, column, half, ix := SplitX(c.x);
    var my, row, iy := SplitY(c.y);
    PlaceOfParts(c.x, c.y, mx, column, half, ix, my, row, iy);
    var corner := Cell(mx * 512 + column * 32, my * 512 + row * 16);
    CellOfParts(GetBlock(c.x, c.y), 0, corner, mx, column, 0, 0, my, row, 0);
    XQuotients(c.x, mx, column, half, ix);
    YQuotients(c.y, my, row, iy);
  }

  lemma BlockIsARectangle(c: Cell, d: Cell)
    requires InMap(c) && InMap(d)
    ensures GetBlock(c.x, c.y) == GetBlock(d.x, d.y) <==> Corner(c.x, c.y) == Corner(d.x, d.y)
  {
    CornerOfBlock(c);
    CornerOfBlock(d);
    CellIsAtItsPlace(c);
    CellIsAtItsPlace(d);
    PlaceHoldsACell(GetBlock(c.x, c.y), 0);
    PlaceHoldsACell(GetBlock(d.x, d.y), 0);
  }

  /* ---- World coordinates ---- */

  /** world_to_map on the PC. */
  function WorldToMap(k: int): int {
    TruncDiv(k + 6144, 8)
  }

  /** Three logical shifts, the sign bits put back if bit 12 is set, and 768 added, on 16 bit registers. */
  function WorldToMapMcu(k: int): int {
    var shifted := U16(k) / 8;
    var signed := if shifted / 4096 % 2 == 1 then shifted + 57344 else shifted;
    var sum := U16(signed + 768);
    if sum >= 32768 then sum - 65536 else sum
  }

  /** The shifts round down. */
  lemma McuRoundsDown(k: int)
    requires Int16(k)
    ensures WorldToMapMcu(k) == k / 8 + 768
  {
    var u := if k >= 0 then k else k + 65536;
    Quotient(k, 65536, if k >= 0 then 0 else -1, u);
    if k < 0 {
      assert u / 8 == k / 8 + 8192;
    }
  }

  /** The division rounds towards cell 0. */
  lemma PcRoundsToZero(k: int)
    ensures WorldToMap(k) == k / 8 + 768 + if k < -6144 && k % 8 != 0 then 1 else 0
  {
    if k < -6144 {
      var n := -(k + 6144);
      assert -n == k + 6144 && (k + 6144) / 8 == k / 8 + 768;
      assert n / 8 == -((k + 6144) / 8) - (if k % 8 == 0 then 0 else 1);
    }
  }

  /** The two variants of world_to_map differ exactly below the map, off the multiples of 8; there one cell
      in front of the map is taken for cell 0 on the PC. */
  lemma WorldToMapVariants(k: int)
    requires Int16(k)
    ensures WorldToMap(k) == WorldToMapMcu(k) <==> k >= -6144 || k % 8 == 0
    ensures 0 <= WorldToMapMcu(k) < EDGE <==> -6144 <= k < 6144
    ensures 0 <= WorldToMap(k) < EDGE <==> -6152 < k < 6144
    ensures -3328 <= WorldToMap(k) <= 4863 && -3328 <= WorldToMapMcu(k) <= 4863
  {
    McuRoundsDown(k);
    PcRoundsToZero(k);
  }
}
