/** makeFloorTexture: the 16 x 16 RGB floor image built from the ASCII-art
    `circles` table. */
module FloorTexture {

  /** A GLubyte. */
  newtype byte = b: int | 0 <= b < 256

  /** The floor tiling pattern: 'x' marks a texel of a circle. */
  const Circles: seq<string> := [
    "......xxxx......",
    "....xxxxxxxx....",
    "...xxx....xxx...",
    "..xxx......xxx..",
    ".xxxx......xxxx.",
    ".xxxx......xxxx.",
    ".xxxx......xxxx.",
    ".xxxx......xxxx.",
    "..xxx......xxx..",
    "...xxx....xxx...",
    "....xxxxxxxx....",
    "......xxxx......",
    "................",
    "................",
    "................",
    "................"
  ]

  /** Every row of a pattern is 16 characters wide. */
  predicate IsPattern(rows: seq<string>)
  {
    forall t :: 0 <= t < |rows| ==> |rows[t]| == 16
  }

  lemma CirclesIsPattern()
    ensures |Circles| == 16 && IsPattern(Circles)
  {
  }

  /** Light blue for a circle texel, dark blue for the rest. */
  function TexelColor(c: char): (rgb: seq<byte>)
    ensures |rgb| == 3
  {
    if c == 'x' then [0x1f, 0x1f, 0xcf] else [0x1a, 0x1a, 0x3a]
  }

  /** The bytes of one pattern row, texel after texel, left to right. */
  function RowBytes(row: string): seq<byte>
  {
    if row == [] then [] else RowBytes(row[..|row| - 1]) + TexelColor(row[|row| - 1])
  }

  /** The bytes of a whole pattern, row after row, top to bottom. */
  function ImageBytes(rows: seq<string>): seq<byte>
  {
    if rows == [] then [] else ImageBytes(rows[..|rows| - 1]) + RowBytes(rows[|rows| - 1])
  }

  lemma {:induction false} RowBytesAt(row: string, s: nat, k: nat)
    requires s < |row| && k < 3
    ensures |RowBytes(row)| == 3 * |row|
    ensures RowBytes(row)[s * 3 + k] == TexelColor(row[s])[k]
  {
    var n := |row| - 1;
    var init := row[..n];
    if s < n {
      RowBytesAt(init, s, k);
    } else if n > 0 {
      RowBytesAt(init, 0, 0);
    }
  }

  lemma {:induction false} RowBytesLength(row: string)
    ensures |RowBytes(row)| == 3 * |row|
  {
    if row != [] {
      RowBytesLength(row[..|row| - 1]);
    }
  }

  /** Byte k of texel (t, s) sits at offset (t * 16 + s) * 3 + k of the image,
      and the image of an n-row pattern is 48 * n bytes long. */
  lemma {:induction false} ImageBytesAt(rows: seq<string>, t: nat, s: nat, k: nat)
    requires IsPattern(rows)
    requires t < |rows| && s < 16 && k < 3
    ensures |ImageBytes(rows)| == 48 * |rows|
    ensures ImageBytes(rows)[(t * 16 + s) * 3 + k] == TexelColor(rows[t][s])[k]
  {
    var n := |rows| - 1;
    var init := rows[..n];
    assert IsPattern(init) by {
      forall u | 0 <= u < |init| ensures |init[u]| == 16 {
        assert init[u] == rows[u];
      }
    }
    RowBytesAt(rows[n], s, k);
    if t < n {
      ImageBytesAt(init, t, s, k);
    } else {
      ImageBytesLength(init);
    }
  }

  lemma {:induction false} ImageBytesLength(rows: seq<string>)
    requires IsPattern(rows)
    ensures |ImageBytes(rows)| == 48 * |rows|
  {
    if rows != [] {
      var init := rows[..|rows| - 1];
      assert IsPattern(init) by {
        forall u | 0 <= u < |init| ensures |init[u]| == 16 {
          assert init[u] == rows[u];
        }
      }
      ImageBytesLength(init);
      RowBytesLength(rows[|rows| - 1]);
    }
  }

  /** The floor image: byte k of texel (t, s) is channel k of the colour
      the pattern gives that texel, at offset (t * 16 + s) * 3 + k. */
  lemma FloorImageAt(t: nat, s: nat, k: nat)
    requires t < 16 && s < 16 && k < 3
    ensures |ImageBytes(Circles)| == 768
    ensures ImageBytes(Circles)[(t * 16 + s) * 3 + k]
         == if Circles[t][s] == 'x' then [0x1f, 0x1f, 0xcf][k] else [0x1a, 0x1a, 0x3a][k]
  {
    CirclesIsPattern();
    ImageBytesAt(Circles, t, s, k);
  }

  /** The offsets written so far, in the order they were written. */
  function Upto(n: nat): (offsets: seq<nat>)
    ensures |offsets| == n
    ensures forall i :: 0 <= i < n ==> offsets[i] == i
  {
    if n == 0 then [] else Upto(n - 1) + [n - 1]
  }

  lemma UptoStep(n: nat)
    ensures Upto(n + 3) == Upto(n) + [n, n + 1, n + 2]
  {
    assert Upto(n + 3) == Upto(n + 2) + [n + 2];
    assert Upto(n + 2) == Upto(n + 1) + [n + 1];
  }

  /** makeFloorTexture, reading the 16 x 16 table `circles` (the program
      passes Circles): walks the table with a pointer `loc` that moves 3
      bytes per texel. The result is the row-major image of the table, and
      `writes` (the offset of every store, in order) shows that each of the
      768 bytes is stored exactly once, in increasing order. */
  method MakeFloorTexture(circles: seq<string>) returns (floorTexture: array<byte>, ghost writes: seq<nat>)
    requires |circles| == 16 && IsPattern(circles)
    ensures floorTexture.Length == 768
    ensures floorTexture[..] == ImageBytes(circles)
    ensures writes == Upto(768)
  {
    ghost var image := ImageBytes(circles);
    ImageBytesLength(circles);
    floorTexture := new byte[768];
    writes := [];
    var loc := 0;
    var t := 0;
    while t < 16
      invariant 0 <= t <= 16
      invariant loc == 48 * t
      invariant forall i :: 0 <= i < loc ==> floorTexture[i] == image[i]
      invariant writes == Upto(loc)
    {
      var s := 0;
      while s < 16
        invariant 0 <= s <= 16
        invariant loc == 48 * t + 3 * s
        invariant forall i :: 0 <= i < loc ==> floorTexture[i] == image[i]
        invariant writes == Upto(loc)
      {
        var rgb := TexelColor(circles[t][s]);
        ImageBytesAt(circles, t, s, 0);
        ImageBytesAt(circles, t, s, 1);
        ImageBytesAt(circles, t, s, 2);
        floorTexture[loc] := rgb[0];
        floorTexture[loc + 1] := rgb[1];
        floorTexture[loc + 2] := rgb[2];
        writes := writes + [loc, loc + 1, loc + 2];
        UptoStep(loc);
        loc := loc + 3;
        s := s + 1;
      }
      t := t + 1;
    }
  }
}
