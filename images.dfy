/** Images as the core sees a Multik `D3Array<Byte>` of shape
    (rows, cols, 3): a grid of three-channel byte pixels. */
module Images {

  /** The three channel bytes at one (row, column). */
  datatype Pixel = Pixel(c0: bv8, c1: bv8, c2: bv8)

  /** The value of a freshly allocated `mk.zeros<Byte>` pixel. */
  const Black: Pixel := Pixel(0, 0, 0)

  /** An image with `rows` x `cols` pixels; `pixels[y][x]` is row y, column x. */
  datatype Image = Image(rows: nat, cols: nat, pixels: seq<seq<Pixel>>)
  {
    /** The shape of the grid agrees with `rows` and `cols`. */
    predicate Valid()
    {
      |pixels| == rows && forall y :: 0 <= y < rows ==> |pixels[y]| == cols
    }
  }

  /** Every image of a list is well formed. */
  predicate AllValid(imgs: seq<Image>)
  {
    forall i :: 0 <= i < |imgs| ==> imgs[i].Valid()
  }
}
