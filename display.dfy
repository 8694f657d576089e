/**
 * The pixel buffer the CPU draws into (`DisplayBuffer`, src/emulator/ui.rs):
 * 32 rows of 64 on/off pixels and a flag telling the renderer that it changed.
 */
module Display {
  const Width: nat := 64
  const Height: nat := 32

  /** The value of a display buffer: `buffer[row][column]`, and the dirty flag. */
  datatype Frame = Frame(buffer: seq<seq<bool>>, isDirty: bool)

  /** A grid has 32 rows of 64 pixels. */
  predicate ValidGrid(g: seq<seq<bool>>)
  {
    |g| == Height && forall r :: 0 <= r < Height ==> |g[r]| == Width
  }

  predicate ValidFrame(f: Frame)
  {
    ValidGrid(f.buffer)
  }

  /** A 32 x 64 grid with every pixel off. */
  function Blank(): (g: seq<seq<bool>>)
    ensures ValidGrid(g)
    ensures forall r, c :: 0 <= r < Height && 0 <= c < Width ==> !g[r][c]
  {
    seq(Height, r => seq(Width, c => false))
  }

  /** `DisplayBuffer`: the grid as a two-dimensional array, updated in place. */
  class DisplayBuffer {
    const buffer: array2<bool>
    var isDirty: bool

    ghost predicate Valid()
    {
      buffer.Length0 == Height && buffer.Length1 == Width
    }

    /** The current contents as a value. */
    function Model(): (f: Frame)
      requires Valid()
      reads this, buffer
      ensures ValidFrame(f) && f.isDirty == isDirty
      ensures forall r, c :: 0 <= r < Height && 0 <= c < Width ==> f.buffer[r][c] == buffer[r, c]
    {
      Frame(seq(Height, r requires 0 <= r < Height reads buffer =>
                  seq(Width, c requires 0 <= c < Width reads buffer => buffer[r, c])),
            isDirty)
    }

    /** The buffer `Screen::new` starts with: every pixel off, marked dirty. */
    constructor ()
      ensures Valid() && fresh(buffer)
      ensures Model() == Frame(Blank(), true)
    {
      buffer := new bool[Height, Width]((r, c) => false);
      isDirty := true;
      new;
      ModelIs(Frame(Blank(), true));
    }

    /** The array shows frame `f` pixel for pixel, so `Model()` is `f`. */
    lemma ModelIs(f: Frame)
      requires Valid() && ValidFrame(f) && f.isDirty == isDirty
      requires forall r, c :: 0 <= r < Height && 0 <= c < Width ==> buffer[r, c] == f.buffer[r][c]
      ensures Model() == f
    {
      forall r | 0 <= r < Height
        ensures Model().buffer[r] == f.buffer[r]
      {
      }
    }
  }
}
