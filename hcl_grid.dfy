/**
 * The quantised hue/chroma/luminance grid of the colour picker and the way a
 * grid point is packed into one `int`: hue in the low bits, chroma from bit 8,
 * luminance from bit 16.
 */
module HclGrid {
  import opened JavaInt

  /** Chroma and luminance are sampled in steps of SLICE_SIZE ... */
  const SLICE_SIZE: int := 4
  /** ... and there are SLICE_COUNT samples of each: 0, 4, ..., 100. */
  const SLICE_COUNT: int := 26
  const MAX_SLICE: int := (SLICE_COUNT - 1) * SLICE_SIZE
  /** Hues are the whole degrees 0 .. 359. */
  const HUE_COUNT: int := 360
  /** The number of grid points, that is, of iterations of the table loop. */
  const TRIPLE_COUNT: int := HUE_COUNT * SLICE_COUNT * SLICE_COUNT

  datatype Hcl = Hcl(hue: int, chroma: int, luminance: int)

  /** A chroma or luminance value that the grid samples. */
  predicate OnSlice(v: int) {
    0 <= v <= MAX_SLICE && v % SLICE_SIZE == 0
  }

  predicate OnGrid(t: Hcl) {
    0 <= t.hue < HUE_COUNT && OnSlice(t.chroma) && OnSlice(t.luminance)
  }

  /** The packed key of a grid point, written arithmetically. */
  function Pack(t: Hcl): int {
    t.hue + t.chroma * 256 + t.luminance * 65536
  }

  /**
   * The packing as the Java code writes it, `h | (c << 8) | (l << 16)`.
   * For chroma and luminance up to MAX_SLICE the shifts cannot overflow, so
   * they are the multiplications by 256 and 65536.
   */
  function PackBits(h: int, c: int, l: int): (k: int)
    requires InInt32(h) && 0 <= c <= MAX_SLICE && 0 <= l <= MAX_SLICE
    ensures InInt32(k)
    ensures 0 <= h ==> 0 <= k
  {
    Or32(Or32(h, c * 256), l * 65536)
  }

  /** The bitwise packing equals the arithmetic one whenever the hue fits in ten bits. */
  lemma PackBitsIsPack(h: int, c: int, l: int)
    requires 0 <= h < 1024 && OnSlice(c) && OnSlice(l)
    ensures PackBits(h, c, l) == Pack(Hcl(h, c, l))
  {
    Pow2Values();
    assert c * 256 == c / 4 * Pow2(10);
    BitOrDisjoint(h, c / 4, 10);
    var low := h + c * 256;
    assert Or32(h, c * 256) == low;
    assert low < Pow2(16) && l * 65536 == l * Pow2(16);
    BitOrDisjoint(low, l, 16);
  }

  /** Reads a grid point back from its key. */
  function Unpack(k: int): Hcl {
    Hcl(k % 1024, (k % 65536) / 1024 * SLICE_SIZE, k / 65536)
  }

  lemma UnpackPack(t: Hcl)
    requires OnGrid(t)
    ensures Unpack(Pack(t)) == t
  {
    var k, j := Pack(t), t.chroma / 4;
    assert k == 1024 * (j + 64 * t.luminance) + t.hue;
    DivModUnique(k, 1024, j + 64 * t.luminance, t.hue);
    DivModUnique(k, 65536, t.luminance, t.hue + 1024 * j);
    DivModUnique(t.hue + 1024 * j, 1024, j, t.hue);
  }

  /** Packing is injective on the grid: no two grid points share a key. */
  lemma PackInjective(t1: Hcl, t2: Hcl)
    requires OnGrid(t1) && OnGrid(t2) && Pack(t1) == Pack(t2)
    ensures t1 == t2
  {
    UnpackPack(t1);
    UnpackPack(t2);
  }

  /** The keys that are the packing of some grid point. */
  predicate IsGridKey(k: int) {
    OnGrid(Unpack(k)) && Pack(Unpack(k)) == k
  }

  lemma PackIsGridKey(t: Hcl)
    requires OnGrid(t)
    ensures IsGridKey(Pack(t)) && Unpack(Pack(t)) == t
  {
    UnpackPack(t);
  }

  /**
   * The position of a grid point in the table loop, which runs over hue,
   * then luminance, then chroma (innermost).
   */
  function Order(t: Hcl): int {
    (t.hue * SLICE_COUNT + t.luminance / SLICE_SIZE) * SLICE_COUNT + t.chroma / SLICE_SIZE
  }

  /** The grid point the table loop visits at iteration i. */
  function TripleAt(i: int): Hcl
    requires 0 <= i < TRIPLE_COUNT
  {
    var q := i / SLICE_COUNT;
    Hcl(q / SLICE_COUNT, i % SLICE_COUNT * SLICE_SIZE, q % SLICE_COUNT * SLICE_SIZE)
  }

  lemma TripleAtOrder(i: int)
    requires 0 <= i < TRIPLE_COUNT
    ensures OnGrid(TripleAt(i)) && Order(TripleAt(i)) == i
  {
  }

  lemma OrderTripleAt(t: Hcl)
    requires OnGrid(t)
    ensures 0 <= Order(t) < TRIPLE_COUNT && TripleAt(Order(t)) == t
  {
    var lum, chr := t.luminance / SLICE_SIZE, t.chroma / SLICE_SIZE;
    var i := Order(t);
    DivModUnique(i, SLICE_COUNT, t.hue * SLICE_COUNT + lum, chr);
    DivModUnique(t.hue * SLICE_COUNT + lum, SLICE_COUNT, t.hue, lum);
  }

  /** The grid point at hue h, luminance index lum and chroma index chr, as the table loop names it. */
  lemma LoopPosition(h: int, lum: int, chr: int)
    requires 0 <= h < HUE_COUNT && 0 <= lum < SLICE_COUNT && 0 <= chr < SLICE_COUNT
    ensures OnGrid(Hcl(h, chr * SLICE_SIZE, lum * SLICE_SIZE))
    ensures Order(Hcl(h, chr * SLICE_SIZE, lum * SLICE_SIZE)) == (h * SLICE_COUNT + lum) * SLICE_COUNT + chr
    ensures TripleAt((h * SLICE_COUNT + lum) * SLICE_COUNT + chr) == Hcl(h, chr * SLICE_SIZE, lum * SLICE_SIZE)
  {
    var t := Hcl(h, chr * SLICE_SIZE, lum * SLICE_SIZE);
    assert t.chroma == chr * 4 && t.luminance == lum * 4;
    OrderTripleAt(t);
  }

  /**
   * `hcl & 0xFF`, which the picker takes as the hue of a packed key. It keeps
   * only the low eight bits, so a packed hue of 256 or more comes out reduced
   * modulo 256.
   */
  function HueByte(hcl: int): (h: int)
    requires InInt32(hcl)
    ensures 0 <= hcl ==> h == hcl % 256
  {
    if 0 <= hcl then AndLowByte(hcl); And32(hcl, 0xFF) else And32(hcl, 0xFF)
  }

  lemma HueBytePack(t: Hcl)
    requires OnGrid(t)
    ensures Pack(t) < TWO31 && HueByte(Pack(t)) == t.hue % 256
    ensures t.hue < 256 ==> HueByte(Pack(t)) == t.hue
  {
    var k := Pack(t);
    assert k == 256 * (t.chroma + 256 * t.luminance) + t.hue;
    DivModUnique(k, 256, t.chroma + 256 * t.luminance + t.hue / 256, t.hue % 256);
  }
}
