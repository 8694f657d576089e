/**
 * What `draw_sprite` does to the pixel grid (src/emulator/cpu.rs): every row
 * of the sprite is XORed onto the grid, most significant bit leftmost,
 * wrapping around both edges of the screen.
 */
module Sprite {
  import opened Bytes
  import opened Display

  /** Pixel `j` (0 = leftmost) of a sprite row is bit `7 - j` of its byte. */
  predicate SpriteBit(byte: u8, j: nat)
    requires j < 8
  {
    BitSet(byte as bv8, 7 - j)
  }

  /**
   * Drawing `sprite` with its top-left corner at column `x`, row `y` flips
   * pixel (`r`, `c`): the sprite row and bit that wrap onto it exist and the bit is set.
   */
  predicate Covers(sprite: seq<u8>, x: int, y: int, r: int, c: int)
  {
    var k := (r - y) % Height;
    var j := (c - x) % Width;
    k < |sprite| && j < 8 && SpriteBit(sprite[k], j)
  }

  /** The grid after XORing `sprite` onto `g` at (`x`, `y`). */
  function Blit(g: seq<seq<bool>>, sprite: seq<u8>, x: int, y: int): (g': seq<seq<bool>>)
    requires ValidGrid(g)
    ensures ValidGrid(g')
  {
    seq(Height, r requires 0 <= r < Height =>
      seq(Width, c requires 0 <= c < Width => g[r][c] != Covers(sprite, x, y, r, c)))
  }

  /** A set bit of the sprite lands on a pixel that is on. */
  predicate Collides(g: seq<seq<bool>>, sprite: seq<u8>, x: nat, y: nat)
    requires ValidGrid(g)
    ensures (forall r, c :: 0 <= r < Height && 0 <= c < Width ==> !g[r][c]) ==> !Collides(g, sprite, x, y)
  {
    exists k, j :: 0 <= k < |sprite| && 0 <= j < 8 && SpriteBit(sprite[k], j) && g[(y + k) % Height][(x + j) % Width]
  }

  lemma RowOffset(r: int, y: int, k: int)
    requires 0 <= r < Height && 0 <= k < Height
    ensures (r == (y + k) % Height) <==> ((r - y) % Height == k)
  {
  }

  lemma ColumnOffset(c: int, x: int, j: int)
    requires 0 <= c < Width && 0 <= j < Width
    ensures (c == (x + j) % Width) <==> ((c - x) % Width == j)
  {
  }

  /**
   * Bit `7 - j` of sprite row `k` decides whether pixel
   * ((y + k) mod 32, (x + j) mod 64) is flipped.
   */
  lemma BlitPixel(g: seq<seq<bool>>, sprite: seq<u8>, x: nat, y: nat, k: nat, j: nat)
    requires ValidGrid(g) && |sprite| <= Height && k < |sprite| && j < 8
    ensures var r, c := (y + k) % Height, (x + j) % Width;
            Blit(g, sprite, x, y)[r][c] == (g[r][c] != SpriteBit(sprite[k], j))
  {
    var r, c := (y + k) % Height, (x + j) % Width;
    RowOffset(r, y, k);
    ColumnOffset(c, x, j);
  }

  /** A pixel that changes is the image of a set sprite bit. */
  lemma BlitChangesOnlyDrawnPixels(g: seq<seq<bool>>, sprite: seq<u8>, x: nat, y: nat, r: nat, c: nat)
    requires ValidGrid(g) && r < Height && c < Width
    requires Blit(g, sprite, x, y)[r][c] != g[r][c]
    ensures exists k, j :: 0 <= k < |sprite| && 0 <= j < 8 && SpriteBit(sprite[k], j)
                        && r == (y + k) % Height && c == (x + j) % Width
  {
    var k, j := (r - y) % Height, (c - x) % Width;
    RowOffset(r, y, k);
    ColumnOffset(c, x, j);
    assert SpriteBit(sprite[k], j) && r == (y + k) % Height && c == (x + j) % Width;
  }

  /** Drawing the same sprite twice at the same place restores the grid. */
  lemma BlitTwice(g: seq<seq<bool>>, sprite: seq<u8>, x: int, y: int)
    requires ValidGrid(g)
    ensures Blit(Blit(g, sprite, x, y), sprite, x, y) == g
  {
    var g2 := Blit(Blit(g, sprite, x, y), sprite, x, y);
    forall r | 0 <= r < Height
      ensures g2[r] == g[r]
    {
    }
  }

  /** A collision is exactly a pixel that went from on to off. */
  lemma CollidesIffTurnedOff(g: seq<seq<bool>>, sprite: seq<u8>, x: nat, y: nat)
    requires ValidGrid(g) && |sprite| <= Height
    ensures Collides(g, sprite, x, y) <==>
            exists r, c :: 0 <= r < Height && 0 <= c < Width && g[r][c] && !Blit(g, sprite, x, y)[r][c]
  {
    var g' := Blit(g, sprite, x, y);
    if Collides(g, sprite, x, y) {
      var k, j :| 0 <= k < |sprite| && 0 <= j < 8 && SpriteBit(sprite[k], j)
                  && g[(y + k) % Height][(x + j) % Width];
      BlitPixel(g, sprite, x, y, k, j);
      var r, c := (y + k) % Height, (x + j) % Width;
      assert g[r][c] && !g'[r][c];
    }
    if exists r, c :: 0 <= r < Height && 0 <= c < Width && g[r][c] && !g'[r][c] {
      var r, c :| 0 <= r < Height && 0 <= c < Width && g[r][c] && !g'[r][c];
      BlitChangesOnlyDrawnPixels(g, sprite, x, y, r, c);
      var k, j :| 0 <= k < |sprite| && 0 <= j < 8 && SpriteBit(sprite[k], j)
                  && r == (y + k) % Height && c == (x + j) % Width;
      assert g[(y + k) % Height][(x + j) % Width];
    }
  }

  /**
   * Pixel (`r`, `c`) is flipped by one of the first `n` bits of a sprite row
   * drawn at column `x` of screen row `y` mod 32.
   */
  predicate RowCovers(byte: u8, x: int, y: int, n: nat, r: int, c: int)
  {
    var j := (c - x) % Width;
    r == y % Height && j < n && j < 8 && SpriteBit(byte, j)
  }

  /**
   * One of the first `n` set bits of a row drawn at (`x`, `y`) lands on a
   * pixel that is on in `g`, checked bit by bit as `draw_byte` does.
   */
  predicate RowCollides(g: seq<seq<bool>>, byte: u8, x: int, y: int, n: nat)
    requires ValidGrid(g)
  {
    if n == 0 then false
    else RowCollides(g, byte, x, y, n - 1) || (n - 1 < 8 && SpriteBit(byte, n - 1) && g[y % Height][(x + n - 1) % Width])
  }

  /** The same, as an existential over bit positions. */
  lemma {:induction false} RowCollidesExists(g: seq<seq<bool>>, byte: u8, x: int, y: int, n: nat)
    requires ValidGrid(g)
    ensures RowCollides(g, byte, x, y, n) <==>
            exists j :: 0 <= j < n && j < 8 && SpriteBit(byte, j) && g[y % Height][(x + j) % Width]
  {
    if n > 0 {
      RowCollidesExists(g, byte, x, y, n - 1);
      if exists j :: 0 <= j < n && j < 8 && SpriteBit(byte, j) && g[y % Height][(x + j) % Width] {
        var j :| 0 <= j < n && j < 8 && SpriteBit(byte, j) && g[y % Height][(x + j) % Width];
        if j < n - 1 {
          assert RowCollides(g, byte, x, y, n - 1);
        }
      }
    }
  }

  /** Bit `n` of the row adds exactly pixel (y mod 32, (x + n) mod 64). */
  lemma RowCoversNext(byte: u8, x: int, y: int, n: nat, r: int, c: int)
    requires n < 8 && 0 <= c < Width
    ensures RowCovers(byte, x, y, n + 1, r, c) ==
            (RowCovers(byte, x, y, n, r, c) != (r == y % Height && c == (x + n) % Width && SpriteBit(byte, n)))
  {
    ColumnOffset(c, x, n);
  }

  /**
   * The pixels the first `n` bits of a row flip, bit by bit as `draw_byte`
   * visits them: bit `n - 1` flips pixel (y mod 32, (x + n - 1) mod 64).
   */
  predicate Flipped(byte: u8, x: int, y: int, n: nat, r: int, c: int)
  {
    if n == 0 then false
    else Flipped(byte, x, y, n - 1, r, c) != (n - 1 < 8 && r == y % Height && c == (x + n - 1) % Width && SpriteBit(byte, n - 1))
  }

  /** Bit by bit, the row flips exactly the pixels it covers. */
  lemma {:induction false} FlippedIsRowCovers(byte: u8, x: int, y: int, n: nat, r: int, c: int)
    requires n <= 8 && 0 <= c < Width
    ensures Flipped(byte, x, y, n, r, c) == RowCovers(byte, x, y, n, r, c)
  {
    if n > 0 {
      FlippedIsRowCovers(byte, x, y, n - 1, r, c);
      RowCoversNext(byte, x, y, n - 1, r, c);
    }
  }

  /** The pixel bit `n` lands on is not flipped by the earlier bits. */
  lemma FlippedNotYet(byte: u8, x: int, y: int, n: nat)
    requires n < 8
    ensures !Flipped(byte, x, y, n, y % Height, (x + n) % Width)
  {
    FlippedIsRowCovers(byte, x, y, n, y % Height, (x + n) % Width);
    ColumnOffset((x + n) % Width, x, n);
  }

  /** Collisions of a row depend only on the screen row it is drawn on. */
  lemma {:induction false} RowCollidesSameRow(g: seq<seq<bool>>, g': seq<seq<bool>>, byte: u8, x: int, y: int, n: nat)
    requires ValidGrid(g) && ValidGrid(g')
    requires forall c :: 0 <= c < Width ==> g[y % Height][c] == g'[y % Height][c]
    ensures RowCollides(g, byte, x, y, n) == RowCollides(g', byte, x, y, n)
  {
    if n > 0 {
      RowCollidesSameRow(g, g', byte, x, y, n - 1);
    }
  }

  /**
   * Drawing one more row: row `k` of the sprite lands on screen row
   * (y + k) mod 32, which the earlier rows do not touch.
   */
  lemma CoversNextRow(sprite: seq<u8>, x: nat, y: nat, k: nat, r: nat, c: nat)
    requires k < |sprite| <= Height && r < Height && c < Width
    ensures r == (y + k) % Height ==> !Covers(sprite[..k], x, y, r, c)
    ensures Covers(sprite[..k + 1], x, y, r, c) ==
            (Covers(sprite[..k], x, y, r, c) != RowCovers(sprite[k], x, y + k, 8, r, c))
  {
    RowOffset(r, y, k);
  }

  /** Collisions of one more row: those of the earlier rows or those of row `k`. */
  lemma CollidesNextRow(g: seq<seq<bool>>, sprite: seq<u8>, x: nat, y: nat, k: nat)
    requires ValidGrid(g) && k < |sprite|
    ensures Collides(g, sprite[..k + 1], x, y) <==>
            Collides(g, sprite[..k], x, y) || RowCollides(g, sprite[k], x, y + k, 8)
  {
    var s, p := sprite[..k + 1], sprite[..k];
    if Collides(g, s, x, y) {
      var k', j :| 0 <= k' < |s| && 0 <= j < 8 && SpriteBit(s[k'], j) && g[(y + k') % Height][(x + j) % Width];
      if k' < k {
        assert s[k'] == p[k'];
      } else {
        assert s[k'] == sprite[k];
      }
    }
    if Collides(g, p, x, y) {
      var k', j :| 0 <= k' < |p| && 0 <= j < 8 && SpriteBit(p[k'], j) && g[(y + k') % Height][(x + j) % Width];
      assert s[k'] == p[k'];
    }
    RowCollidesExists(g, sprite[k], x, y + k, 8);
    if RowCollides(g, sprite[k], x, y + k, 8) {
      var j :| 0 <= j < 8 && SpriteBit(sprite[k], j) && g[(y + k) % Height][(x + j) % Width];
      assert s[k] == sprite[k];
    }
  }

  /** Drawing row `k` onto the picture of the first `k` rows gives the picture of the first `k + 1`. */
  lemma BlitNextRow(g: seq<seq<bool>>, sprite: seq<u8>, x: nat, y: nat, k: nat)
    requires ValidGrid(g) && k < |sprite| <= Height
    ensures forall r, c :: 0 <= r < Height && 0 <= c < Width ==>
      Blit(g, sprite[..k + 1], x, y)[r][c] == (Blit(g, sprite[..k], x, y)[r][c] != RowCovers(sprite[k], x, y + k, 8, r, c))
  {
    forall r, c | 0 <= r < Height && 0 <= c < Width
      ensures Blit(g, sprite[..k + 1], x, y)[r][c] == (Blit(g, sprite[..k], x, y)[r][c] != RowCovers(sprite[k], x, y + k, 8, r, c))
    {
      CoversNextRow(sprite, x, y, k, r, c);
    }
  }

  /**
   * Row `k` collides with the picture of the first `k` rows exactly where it
   * collides with the original grid, since no earlier row touches its screen row.
   */
  lemma CollidesNextRowBlit(g: seq<seq<bool>>, sprite: seq<u8>, x: nat, y: nat, k: nat)
    requires ValidGrid(g) && k < |sprite| <= Height
    ensures Collides(g, sprite[..k + 1], x, y) ==
            (Collides(g, sprite[..k], x, y) || RowCollides(Blit(g, sprite[..k], x, y), sprite[k], x, y + k, 8))
  {
    var cur := Blit(g, sprite[..k], x, y);
    var row := (y + k) % Height;
    forall c | 0 <= c < Width
      ensures cur[row][c] == g[row][c]
    {
      CoversNextRow(sprite, x, y, k, row, c);
    }
    RowCollidesSameRow(cur, g, sprite[k], x, y + k, 8);
    CollidesNextRow(g, sprite, x, y, k);
  }
}
