/** The escape-time kernel, the pixel loop and the decimal writer (patmos/c/cmp/mandelbrot_par.c): 32-bit
    arithmetic is exact for every point of the picture, so the count is the first escape of the ideal orbit. */
module EscapeTime {

  import F = Farm
  import opened Machine
  import opened Products

  const MAX_SQUARE: nat := 16 * F.FRAC_ONE
  const MAX_ITER := 64

  /** (long long)x*y >> FRAC_BITS, an arithmetic shift; the result is cut to 32 bits. */
  function FracMul(x: int, y: int): int
  {
    Int32(x * y / F.FRAC_ONE)
  }

  // ----- The ideal orbit ---------------------------------------------------------------------------------

  datatype Point = Point(x: int, y: int)

  /** Fixed-point product over the integers. */
  function Times(x: int, y: int): int
  {
    x * y / F.FRAC_ONE
  }

  function Square(p: Point): int
  {
    Times(p.x, p.x) + Times(p.y, p.y)
  }

  function NextPoint(p: Point, c: Point): Point
  {
    Point(Times(p.x, p.x) - Times(p.y, p.y) + c.x, 2 * Times(p.x, p.y) + c.y)
  }

  /** Point `n` of the orbit of z*z + c from 0. */
  function Orbit(c: Point, n: nat): Point
  {
    if n == 0 then Point(0, 0) else NextPoint(Orbit(c, n - 1), c)
  }

  /** `q` is `a` in units of 1/65536, rounded down. */
  predicate Floored(a: int, q: int)
  {
    0x1_0000 * q <= a < 0x1_0000 * (q + 1)
  }

  /** What the orbit is: z*z + c in 16.16 fixed point, each product rounded down, from the origin; and the square of the
      distance likewise. */
  lemma OrbitEquation(c: Point, n: nat) returns (xx: int, yy: int, xy: int)
    ensures Orbit(c, 0) == Point(0, 0)
    ensures var p, q := Orbit(c, n), Orbit(c, n + 1);
            && Floored(p.x * p.x, xx) && Floored(p.y * p.y, yy) && Floored(p.x * p.y, xy)
            && q == Point(xx - yy + c.x, xy + xy + c.y) && Square(p) == xx + yy
  {
    var p := Orbit(c, n);
    xx, yy, xy := Times(p.x, p.x), Times(p.y, p.y), Times(p.x, p.y);
    FlooredTimes(p.x, p.x);
    FlooredTimes(p.y, p.y);
    FlooredTimes(p.x, p.y);
    hide Times;
  }

  lemma FlooredTimes(x: int, y: int)
    ensures Floored(x * y, Times(x, y))
  {
    FlooredIs(x * y);
  }

  lemma FlooredIs(a: int)
    ensures Floored(a, a / 0x1_0000)
  {
  }

  /** The picture's region: -2 to 1 and -1 to 1. */
  predicate InPicture(c: Point)
  {
    F.XSTART <= c.x <= F.XEND && F.YSTART <= c.y <= F.YEND
  }

  lemma Quotient(a: int, q: int)
    requires a / F.FRAC_ONE <= q
    ensures a < (q + 1) * F.FRAC_ONE
  {
  }

  lemma SquareNonnegative(x: int)
    ensures 0 <= x * x && 0 <= Times(x, x)
  {
  }

  /** A number that is not within `b` has a square of at least (b + 1)^2. */
  lemma Root(x: int, b: int)
    requires 0 <= b && !(-b <= x <= b)
    ensures x * x >= (b + 1) * (b + 1)
  {
    if x > b {
      MulBound(b + 1, b + 1, x, x);
    } else {
      MulBound(b + 1, b + 1, -x, -x);
      assert (-x) * (-x) == x * x;
    }
  }

  lemma RootBound(x: int)
    requires Times(x, x) <= MAX_SQUARE
    ensures -0x4_0000 <= x <= 0x4_0000
  {
    Quotient(x * x, MAX_SQUARE);
    if !(-0x4_0000 <= x <= 0x4_0000) {
      Root(x, 0x4_0000);
    }
  }

  /** A point that has not escaped lies within 4 of the origin in both coordinates. */
  lemma InsideBound(p: Point)
    requires Square(p) <= MAX_SQUARE
    ensures -0x4_0000 <= p.x <= 0x4_0000 && -0x4_0000 <= p.y <= 0x4_0000
  {
    SquareNonnegative(p.x);
    SquareNonnegative(p.y);
    hide Times;
    RootBound(p.x);
    RootBound(p.y);
  }

  /** The fixed-point value of a product of two numbers within `b`. */
  lemma TimesBound(x: int, y: int, b: int, t: int)
    requires 0 <= b && -b <= x <= b && -b <= y <= b && b * b <= t * F.FRAC_ONE
    ensures -t <= Times(x, y) <= t
    ensures t <= INT_MAX ==> FracMul(x, y) == Times(x, y)
  {
    ProductBound(x, y, b, b);
    ShiftBound(x * y, t);
  }

  lemma ShiftBound(a: int, t: int)
    requires -(t * F.FRAC_ONE) <= a <= t * F.FRAC_ONE
    ensures -t <= a / F.FRAC_ONE <= t
  {
  }

  /** One round from a point that has not escaped: the next point and its square fit 32 bits, and so does every
      value on the way, so that machine arithmetic computes them exactly. */
  lemma RoundExact(p: Point, c: Point)
    requires InPicture(c) && Square(p) <= MAX_SQUARE
    ensures var xx, yy, xy := FracMul(p.x, p.x), FracMul(p.y, p.y), FracMul(p.x, p.y);
            && NextPoint(p, c) == Point(Int32(Int32(xx - yy) + c.x), Int32(Int32(2 * xy) + c.y))
    ensures var q := NextPoint(p, c);
            && Square(q) == Int32(FracMul(q.x, q.x) + FracMul(q.y, q.y)) && 0 <= Square(q) <= INT_MAX
  {
    InsideBound(p);
    TimesBound(p.x, p.x, 0x4_0000, 0x10_0000);
    TimesBound(p.y, p.y, 0x4_0000, 0x10_0000);
    TimesBound(p.x, p.y, 0x4_0000, 0x10_0000);
    hide Times; hide FracMul; hide Int32;
    var q := NextPoint(p, c);
    assert -0x24_0000 <= q.x <= 0x24_0000 && -0x24_0000 <= q.y <= 0x24_0000;
    TimesBound(q.x, q.x, 0x24_0000, 0x510_0000);
    TimesBound(q.y, q.y, 0x24_0000, 0x510_0000);
    SquareNonnegative(q.x);
    SquareNonnegative(q.y);
  }

  // ----- Counting ------------------------------------------------------------------------------------------

  /** `k` is the number of rounds: the orbit first exceeds the limit there, or the limit of rounds is reached. */
  predicate Escapes(c: Point, maxSquare: nat, maxIter: int, k: nat)
  {
    && Inside(c, maxSquare, k)
    && (k > 0 ==> k <= maxIter)
    && (Square(Orbit(c, k)) > maxSquare || k >= maxIter)
  }

  /** There is only one such number. */
  lemma EscapesOnce(c: Point, maxSquare: nat, maxIter: int, j: nat, k: nat)
    requires Escapes(c, maxSquare, maxIter, j) && Escapes(c, maxSquare, maxIter, k)
    ensures j == k
  {
  }

  /** The first `n` points of the orbit stay within the limit. */
  predicate Inside(c: Point, maxSquare: nat, n: nat)
  {
    forall j :: 0 <= j < n ==> Square(Orbit(c, j)) <= maxSquare
  }

  /** One more round from a point within the limit. */
  lemma Round(c: Point, maxSquare: nat, n: nat)
    requires InPicture(c) && Inside(c, maxSquare, n) && Square(Orbit(c, n)) <= maxSquare <= MAX_SQUARE
    ensures Inside(c, maxSquare, n + 1)
    ensures var p, q := Orbit(c, n), Orbit(c, n + 1);
            && q.x == Int32(Int32(FracMul(p.x, p.x) - FracMul(p.y, p.y)) + c.x)
            && q.y == Int32(Int32(2 * FracMul(p.x, p.y)) + c.y)
            && Square(q) == Int32(FracMul(q.x, q.x) + FracMul(q.y, q.y)) && 0 <= Square(q)
  {
    RoundExact(Orbit(c, n), c);
    hide Int32; hide FracMul; hide Square; hide NextPoint;
  }

  lemma Origin(c: Point, maxSquare: nat, n: nat)
    requires n == 0
    ensures Orbit(c, n) == Point(0, 0) && Inside(c, maxSquare, n)
  {
    hide NextPoint; hide Square;
  }

  lemma SquareOrigin()
    ensures Square(Point(0, 0)) == 0
  {
    assert Times(0, 0) == 0;
    hide Times;
  }

  /** do_iter, with 32-bit arithmetic throughout. */
  method DoIter(cx: int, cy: int, maxSquare: nat, maxIter: int) returns (iter: nat)
    requires InPicture(Point(cx, cy)) && maxSquare <= MAX_SQUARE && maxIter <= INT_MAX
    ensures Escapes(Point(cx, cy), maxSquare, maxIter, iter)
  {
    hide Int32; hide FracMul; hide Square; hide Orbit; hide Inside; hide InPicture;
    var square := 0;
    iter := 0;
    var x, y := 0, 0;
    ghost var c := Point(cx, cy);
    Origin(c, maxSquare, iter);
    SquareOrigin();
    while square <= maxSquare && iter < maxIter
      invariant Point(x, y) == Orbit(c, iter) && square == Square(Point(x, y)) && square >= 0
      invariant Inside(c, maxSquare, iter) && (iter > 0 ==> iter <= maxIter)
      decreases maxIter - iter
    {
      Round(c, maxSquare, iter);
      var xt := Int32(Int32(FracMul(x, x) - FracMul(y, y)) + cx);
      var yt := Int32(Int32(2 * FracMul(x, y)) + cy);
      x := xt;
      y := yt;
      iter := iter + 1;
      square := Int32(FracMul(x, x) + FracMul(y, y));
    }
  }

  // ----- A row of pixels -------------------------------------------------------------------------------------

  /** The number of rounds for a point, counted along the ideal orbit. */
  function Count(c: Point, n: nat): (k: nat)
    requires n <= MAX_ITER && Inside(c, MAX_SQUARE, n)
    ensures Escapes(c, MAX_SQUARE, MAX_ITER, k)
    decreases MAX_ITER - n
  {
    if n < MAX_ITER && Square(Orbit(c, n)) <= MAX_SQUARE then Count(c, n + 1) else n
  }

  /** Pixel `k` of the line at height `y`. */
  function Pixel(colors: seq<char>, y: int, k: nat): char
    requires |colors| == 64
  {
    colors[Count(Point(F.XSTART + k * F.XSTEP_SIZE, y), 0) % 64]
  }

  /** A pixel is the colour of the escape count of its point: 16 is the limit of the square, 64 that of the rounds. */
  lemma PixelIs(colors: seq<char>, y: int, k: nat) returns (n: nat)
    requires |colors| == 64
    ensures Escapes(Point(-0x2_0000 + 6144 * k, y), 0x10_0000, 64, n) && Pixel(colors, y, k) == colors[n % 64]
  {
    hide Escapes; hide Count;
    var c := Point(-0x2_0000 + 6144 * k, y);
    n := Count(c, 0);
    assert Point(F.XSTART + k * F.XSTEP_SIZE, y) == c;
  }

  /** The loop of the slave that computes one row: 32 pixels, no more and no fewer, each the colour of the count
      for its own point. */
  method ComputeRow(colors: seq<char>, p: seq<int>, data: array<char>) returns (ghost counts: seq<nat>)
    requires |colors| == 64 && |p| == 5 && F.YSTART <= p[0] <= F.YEND
    requires p[1] == F.XSTART && p[2] == F.XEND && p[3] == F.XSTEP_SIZE
    requires data.Length == F.COLS
    modifies data
    ensures data.Length == |counts| == 32
    ensures forall k :: 0 <= k < 32 ==>
      Escapes(Point(-0x2_0000 + 6144 * k, p[0]), 0x10_0000, 64, counts[k]) && data[k] == colors[counts[k] % 64]
    ensures forall k :: 0 <= k < 32 ==> data[k] == Pixel(colors, p[0], k)
  {
    hide Count; hide Escapes;
    counts := [];
    var idx, x := 0, p[1];
    while x < p[2]
      invariant 0 <= idx == |counts| <= F.COLS && x == F.XSTART + idx * F.XSTEP_SIZE
      invariant forall k :: 0 <= k < idx ==> data[k] == Pixel(colors, p[0], k)
      invariant forall k :: 0 <= k < idx ==>
        Escapes(Point(-0x2_0000 + 6144 * k, p[0]), 0x10_0000, 64, counts[k]) && data[k] == colors[counts[k] % 64]
      decreases F.COLS - idx
    {
      var val := DoIter(x, p[0], MAX_SQUARE, MAX_ITER);
      var c := Point(x, p[0]);
      EscapesOnce(c, MAX_SQUARE, MAX_ITER, val, Count(c, 0));
      data[idx] := colors[val % 64];
      counts := counts + [val];
      idx, x := idx + 1, x + p[3];
    }
  }

  /** The program's own configuration: three slaves, 24 rows of 32 characters, four to a word. */
  function Program(work: (seq<int>, nat) -> int): F.Config
  {
    F.Config(3, 8, 8, work)
  }

  /** Every packet of the program is one ComputeRow can take: its line lies in the picture. */
  lemma PacketsInPicture(work: (seq<int>, nat) -> int, r: nat)
    requires r < F.Rows(Program(work))
    ensures F.Rows(Program(work)) == 24
    ensures var p := F.PacketFor(Program(work), r);
            F.YSTART <= p[0] <= F.YEND && p[1] == F.XSTART && p[2] == F.XEND && p[3] == F.XSTEP_SIZE
  {
    assert F.Rows(Program(work)) == 24;
  }

  // ----- Writing the row number ----------------------------------------------------------------------------------

  function Pow10(n: nat): (p: nat)
    ensures p >= 1
  {
    if n == 0 then 1 else 10 * Pow10(n - 1)
  }

  function DigitOf(ch: char): nat
  {
    if '0' <= ch <= '9' then ch as int - '0' as int else 0
  }

  /** The number a text of blanks and digits stands for. */
  function Number(t: seq<char>): nat
  {
    if t == [] then 0 else DigitOf(t[0]) * Pow10(|t| - 1) + Number(t[1..])
  }

  /** Ten characters, right-aligned: character `j` is blank exactly when no digit of the number stands there. */
  predicate Aligned(t: seq<char>, v: nat)
  {
    && |t| == 10
    && forall j :: 0 <= j < 10 ==>
         && (t[j] == ' ' || '0' <= t[j] <= '9')
         && (t[j] == ' ' <==> j < 9 && v < Pow10(9 - j))
  }

  lemma NumberStep(ch: char, t: seq<char>)
    ensures Number([ch] + t) == DigitOf(ch) * Pow10(|t|) + Number(t)
  {
    assert ([ch] + t)[1..] == t;
  }

  /** The text `t` holds the low digits of the number, `v` is what remains of it. */
  predicate Split(number: nat, v: nat, t: seq<char>)
  {
    number == v * Pow10(|t|) + Number(t) && Number(t) < Pow10(|t|)
  }

  /** The character the loop writes in front of `t`. */
  function Front(v: nat, t: seq<char>): char
  {
    if v == 0 && t != [] then ' ' else ('0' as int + v % 10) as char
  }

  lemma QuotientIs(number: nat, v: nat, p: nat, rest: nat)
    requires number == v * p + rest && rest < p
    ensures number / p == v
  {
    var q := number / p;
    assert number == q * p + number % p;
    if q < v { MulBound(q + 1, p, v, p); }
    if q > v { MulBound(v + 1, p, q, p); }
  }

  /** The digit of the number that stands in front of `t`. */
  lemma DigitAt(number: nat, v: nat, t: seq<char>)
    requires Split(number, v, t)
    ensures number / Pow10(|t|) == v
  {
    QuotientIs(number, v, Pow10(|t|), Number(t));
  }

  lemma NothingLeft(number: nat, v: nat, t: seq<char>)
    requires Split(number, v, t)
    ensures v == 0 <==> number < Pow10(|t|)
  {
    hide Number; hide Pow10;
    if v >= 1 {
      MulBound(1, Pow10(|t|), v, Pow10(|t|));
    }
  }

  /** Moving the lowest digit of `v` over. */
  lemma DigitMoves(v: nat, p: nat)
    ensures v * p == (v / 10) * (10 * p) + (v % 10) * p
    ensures (v % 10) * p <= 9 * p
  {
    var q, d := v / 10, v % 10;
    assert v == 10 * q + d;
    assert (10 * q + d) * p == q * (10 * p) + d * p;
    MulBound(d, p, 9, p);
  }

  /** One more character. */
  lemma SplitStep(number: nat, v: nat, t: seq<char>)
    requires Split(number, v, t)
    ensures Split(number, v / 10, [Front(v, t)] + t)
  {
    var ch, p := Front(v, t), Pow10(|t|);
    NumberStep(ch, t);
    assert DigitOf(ch) == v % 10;
    hide Number; hide DigitOf; hide Front;
    assert Pow10(|[ch] + t|) == 10 * p;
    hide Pow10;
    DigitMoves(v, p);
  }

  /** itoa: the decimal text of a 32-bit number, that reads back as the number. */
  method Itoa(buf: array<char>, number: nat)
    requires buf.Length >= 10 && number < 0x1_0000_0000
    modifies buf
    ensures Aligned(buf[..10], number) && Number(buf[..10]) == number
    ensures forall j :: 0 <= j < 10 && buf[j] != ' ' ==> buf[j] as int == 48 + number / Pow10(9 - j) % 10
    ensures buf[10..] == old(buf[10..])
  {
    hide Number; hide Pow10;
    var v := number;
    var i := 9;
    ghost var t: seq<char> := [];
    EmptyText(number);
    while i >= 0
      invariant -1 <= i <= 9
      invariant t == buf[i + 1..10] && Split(number, v, t)
      invariant forall j :: i < j < 10 ==>
                  && (buf[j] == ' ' || '0' <= buf[j] <= '9')
                  && (buf[j] == ' ' <==> j < 9 && number < Pow10(9 - j))
      invariant forall j :: i < j < 10 && buf[j] != ' ' ==> buf[j] as int == 48 + number / Pow10(9 - j) % 10
      invariant buf[10..] == old(buf[10..])
    {
      DigitAt(number, v, t);
      NothingLeft(number, v, t);
      SplitStep(number, v, t);
      buf[i] := if v == 0 && i != 9 then ' ' else ('0' as int + v % 10) as char;
      t := [buf[i]] + t;
      assert t == buf[i..10];
      v := v / 10;
      i := i - 1;
    }
    TenDigits();
    NothingLeft(number, v, t);
    assert t == buf[..10];
  }

  lemma EmptyText(number: nat)
    ensures Split(number, number, [])
  {
  }

  lemma TenDigits()
    ensures Pow10(10) == 10_000_000_000
  {
  }
}
