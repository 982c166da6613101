/** Path concatenation and the conversion of occupancy-grid cells. */
module Utilities {
  /** The start appendix, then the course path, then the end appendix. */
  function Combine<T>(start: seq<T>, centre: seq<T>, end: seq<T>): (r: seq<T>)
    ensures r == start + centre + end
    ensures start == [] && end == [] ==> r == centre
  {
    if start == [] && end == [] then centre
    else start + centre + end
  }

  /** A signed byte of the occupancy grid and an unsigned byte of the collision grid. */
  newtype Int8 = x: int | -128 <= x < 128
  newtype UInt8 = x: int | 0 <= x < 256

  const UInt32Modulus: nat := 0x1_0000_0000

  /**
   * One cell: `min(100, v + 1)` computed on int and stored in an unsigned
   * byte, which wraps negative values. Only the unknown value becomes 0,
   * and no value from -1 up exceeds 100.
   */
  function CellValue(v: Int8): (r: UInt8)
    ensures r == 0 <==> v == -1
    ensures v >= -1 ==> r <= 100
  {
    var m := if 100 < (v as int) + 1 then 100 else (v as int) + 1;
    (m % 256) as UInt8
  }

  /** Unknown (-1) becomes 0, probabilities 0..100 become 1..100, so every grid value lands in [0, 100]. */
  lemma CellValueRange(v: Int8)
    ensures v == -1 ==> CellValue(v) == 0
    ensures -1 <= v < 100 ==> CellValue(v) as int == v as int + 1
    ensures -1 <= v <= 100 ==> 0 <= CellValue(v) <= 100
    ensures v >= 99 ==> CellValue(v) == 100
    ensures v < -1 ==> CellValue(v) as int == v as int + 257
  {
  }

  /**
   * The cell loop of the map set-up: a buffer of `width * height` bytes
   * (an unsigned 32-bit product), written cell by cell in input order.
   */
  method ConvertMapData(width: nat, height: nat, cells: seq<Int8>) returns (data: seq<UInt8>)
    requires |cells| <= (width * height) % UInt32Modulus
    ensures |data| == (width * height) % UInt32Modulus
    ensures forall i :: 0 <= i < |cells| ==> data[i] == CellValue(cells[i])
    ensures forall i :: |cells| <= i < |data| ==> data[i] == 0
  {
    data := seq((width * height) % UInt32Modulus, _ => 0);
    var i := 0;
    while i < |cells|
      invariant 0 <= i <= |cells|
      invariant |data| == (width * height) % UInt32Modulus
      invariant forall j :: 0 <= j < i ==> data[j] == CellValue(cells[j])
      invariant forall j :: i <= j < |data| ==> data[j] == 0
    {
      data := data[i := CellValue(cells[i])];
      i := i + 1;
    }
  }
}
