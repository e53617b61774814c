/** The picture the work farm draws (patmos/c/cmp/mandelbrot_par.c): the farm's guarantee for its rows, put
    together with the kernel's guarantee for every point. */
module Picture {

  import opened EscapeTime
  import opened Farm
  import opened FarmRuns

  /** The map of 64 characters, each of one byte. */
  type Colors = c: seq<char> | |c| == 64 && forall k :: 0 <= k < 64 ==> c[k] as int < 256 witness seq(64, _ => ' ')

  /** Four characters as they stand in a word of the row buffer. */
  function Packed(a: char, b: char, c: char, d: char): int
  {
    ((a as int * 256 + b as int) * 256 + c as int) * 256 + d as int
  }

  /** Word `k` of the line at height `y`. */
  function PixelWord(colors: Colors, y: int, k: nat): int
  {
    Packed(Pixel(colors, y, 4 * k), Pixel(colors, y, 4 * k + 1), Pixel(colors, y, 4 * k + 2),
      Pixel(colors, y, 4 * k + 3))
  }

  /** What a slave computes for a packet. */
  function Work(colors: Colors): (seq<int>, nat) -> int
  {
    (p: seq<int>, k: nat) => if p == [] then 0 else PixelWord(colors, p[0], k)
  }

  /** The height of line `r`. */
  function Height(r: int): int
  {
    YSTART + r * ((YEND - YSTART + 24 - 1) / 24)
  }

  lemma RowIsLine(colors: Colors, r: int, k: nat)
    requires k < 8
    ensures Sound(Program(Work(colors))) && Rows(Program(Work(colors))) == 24
    ensures RowFor(Program(Work(colors)), r)[k] == PixelWord(colors, Height(r), k)
  {
    var c := Program(Work(colors));
    assert Rows(c) == 24;
    hide PixelWord;
    assert PacketFor(c, r)[0] == Height(r);
  }

  /** The four characters of a word, the first in the highest byte. */
  lemma Unpacked(a: char, b: char, c: char, d: char)
    requires a as int < 256 && b as int < 256 && c as int < 256 && d as int < 256
    ensures var w := Packed(a, b, c, d);
            && a as int == w / 0x100_0000 && b as int == w / 0x1_0000 % 0x100
            && c as int == w / 0x100 % 0x100 && d as int == w % 0x100
  {
  }

  /** The escape count of character `x` of the line at height `y`. */
  function CountAt(y: int, x: nat): nat
  {
    Count(Point(XSTART + x * XSTEP_SIZE, y), 0)
  }

  lemma CountEscapes(colors: Colors, y: int, x: nat)
    ensures Escapes(Point(-0x2_0000 + 6144 * x, y), 0x10_0000, 64, CountAt(y, x))
    ensures Pixel(colors, y, x) == colors[CountAt(y, x) % 64]
  {
    hide Count; hide Escapes;
    var n := PixelIs(colors, y, x);
    assert Point(XSTART + x * XSTEP_SIZE, y) == Point(-0x2_0000 + 6144 * x, y);
  }

  /** Word `k` of a line: four characters, the first in the highest byte, each the colour of the count of its point. */
  lemma WordIs(colors: Colors, y: int, k: nat)
    ensures var w := PixelWord(colors, y, k);
            && w / 0x100_0000 == colors[CountAt(y, 4 * k) % 64] as int
            && w / 0x1_0000 % 0x100 == colors[CountAt(y, 4 * k + 1) % 64] as int
            && w / 0x100 % 0x100 == colors[CountAt(y, 4 * k + 2) % 64] as int
            && w % 0x100 == colors[CountAt(y, 4 * k + 3) % 64] as int
  {
    hide Escapes; hide CountAt; hide Pixel; hide Packed;
    CountEscapes(colors, y, 4 * k);
    CountEscapes(colors, y, 4 * k + 1);
    CountEscapes(colors, y, 4 * k + 2);
    CountEscapes(colors, y, 4 * k + 3);
    Unpacked(Pixel(colors, y, 4 * k), Pixel(colors, y, 4 * k + 1), Pixel(colors, y, 4 * k + 2),
      Pixel(colors, y, 4 * k + 3));
  }

  lemma HeightIs(r: int)
    ensures Height(r) == -0x1_0000 + 5462 * r
  {
  }

  /** The counts of the 32 characters of each line written. */
  function CountsOf(out: seq<Line>): (counts: seq<seq<nat>>)
    ensures |counts| == |out| && forall j :: 0 <= j < |counts| ==> |counts[j]| == 32
    ensures forall j, x :: 0 <= j < |counts| && 0 <= x < 32 ==> counts[j][x] == CountAt(Height(out[j].row), x)
  {
    seq(|out|, j requires 0 <= j < |out| => seq(32, x requires 0 <= x < 32 => CountAt(Height(out[j].row), x)))
  }

  /** When the farm leaves its main loop it has written 24 lines, one for every row of the picture, of eight words.
      Each word holds four characters, the first in its highest byte, and each character is the colour of the escape
      count of its own point. */
  lemma PictureComplete(colors: Colors, s: State) returns (counts: seq<seq<nat>>)
    requires Sound(Program(Work(colors))) && Reachable(Program(Work(colors)), s) && Received(s.pc)
    ensures |s.out| == |counts| == 24 && Distinct(s.out) && forall r :: 0 <= r < 24 ==> Written(s.out, r)
    ensures forall j :: 0 <= j < 24 ==> |s.out[j].data| == 8 && |counts[j]| == 32
    ensures forall j, x: nat :: 0 <= j < 24 && x < 32 ==>
      Escapes(Point(-0x2_0000 + 6144 * x, -0x1_0000 + 5462 * s.out[j].row), 0x10_0000, 64, counts[j][x])
    ensures forall j, k :: 0 <= j < 24 && 0 <= k < 8 ==>
      var w := s.out[j].data[k];
      && w / 0x100_0000 == colors[counts[j][4 * k] % 64] as int
      && w / 0x1_0000 % 0x100 == colors[counts[j][4 * k + 1] % 64] as int
      && w / 0x100 % 0x100 == colors[counts[j][4 * k + 2] % 64] as int
      && w % 0x100 == colors[counts[j][4 * k + 3] % 64] as int
  {
    var c := Program(Work(colors));
    RowIsLine(colors, 0, 0);
    EveryRowOnce(c, s);
    counts := CountsOf(s.out);
    hide PixelWord; hide Reachable; hide CountAt; hide Escapes; hide Height; hide CountsOf;
    forall j | 0 <= j < 24 ensures |s.out[j].data| == 8 {
      RowIsLine(colors, s.out[j].row, 0);
    }
    forall j, x: nat | 0 <= j < 24 && x < 32
      ensures Escapes(Point(-0x2_0000 + 6144 * x, -0x1_0000 + 5462 * s.out[j].row), 0x10_0000, 64, counts[j][x])
    {
      HeightIs(s.out[j].row);
      CountEscapes(colors, Height(s.out[j].row), x);
    }
    forall j, k | 0 <= j < 24 && 0 <= k < 8
      ensures var w := s.out[j].data[k];
              && w / 0x100_0000 == colors[counts[j][4 * k] % 64] as int
              && w / 0x1_0000 % 0x100 == colors[counts[j][4 * k + 1] % 64] as int
              && w / 0x100 % 0x100 == colors[counts[j][4 * k + 2] % 64] as int
              && w % 0x100 == colors[counts[j][4 * k + 3] % 64] as int
    {
      RowIsLine(colors, s.out[j].row, k);
      WordIs(colors, Height(s.out[j].row), k);
    }
  }
}
