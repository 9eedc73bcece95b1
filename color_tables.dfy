/**
 * The two static lookup tables of the colour picker, RGB_TO_HCL and HCL_TO_RGB,
 * and the loop that fills them once when the class is loaded.
 *
 * The colour conversion hclToRgb is floating-point code; here it is a
 * parameter `conv` of arrow type, so every statement about the tables holds for
 * whatever conversion is used. Its result 0 (NO_COLOR) means "out of gamut".
 */
module ColorTables {
  import opened JavaInt
  import opened HclGrid

  /** The sentinel that hclToRgb returns for a colour sRGB cannot represent. */
  const NO_COLOR: int := 0

  /** The colour conversion hclToRgb(hue, chroma, luminance), abstracted. */
  type Converter = (int, int, int) -> int

  function Convert(conv: Converter, t: Hcl): int {
    conv(t.hue, t.chroma, t.luminance)
  }

  /** Int2IntOpenHashMap.get (and getOrDefault with NO_COLOR): a missing key reads as 0. */
  function Get(m: map<int, int>, k: int): (v: int)
    ensures k in m ==> v == m[k]
    ensures k !in m ==> v == 0
  {
    if k in m then m[k] else 0
  }

  datatype Tables = Tables(rgbToHcl: map<int, int>, hclToRgb: map<int, int>)

  /** One pass of the body of the innermost table loop, at grid point t. */
  function Step(tb: Tables, conv: Converter, t: Hcl): Tables
  {
    var rgb := Convert(conv, t);
    if rgb != NO_COLOR then
      Tables(tb.rgbToHcl[rgb := Pack(t)], tb.hclToRgb[Pack(t) := rgb])
    else
      tb
  }

  /** The two tables after the first n passes of the table loop. */
  function Build(conv: Converter, n: nat): Tables
    requires n <= TRIPLE_COUNT
  {
    if n == 0 then Tables(map[], map[])
    else Step(Build(conv, n - 1), conv, TripleAt(n - 1))
  }

  /** The tables as they stand once the static initializer has run. */
  ghost predicate Built(conv: Converter, rgbToHcl: map<int, int>, hclToRgb: map<int, int>) {
    Tables(rgbToHcl, hclToRgb) == Build(conv, TRIPLE_COUNT)
  }

  /** Key k packs an in-gamut grid point that the first n passes of the table loop visit. */
  ghost predicate VisitedInGamut(conv: Converter, k: int, n: nat) {
    IsGridKey(k) && Order(Unpack(k)) < n && Convert(conv, Unpack(k)) != NO_COLOR
  }

  /** The converted colour of the grid point that key k packs. */
  function KeyColor(conv: Converter, k: int): int {
    Convert(conv, Unpack(k))
  }

  /** HCL_TO_RGB of `tb` holds exactly the in-gamut grid points of the first n passes, each with its colour. */
  ghost predicate HclHolds(conv: Converter, tb: Tables, n: nat) {
    && (forall k :: k in tb.hclToRgb <==> VisitedInGamut(conv, k, n))
    && (forall k :: k in tb.hclToRgb ==> tb.hclToRgb[k] == KeyColor(conv, k) != NO_COLOR)
  }

  /** RGB_TO_HCL of `tb` round-trips through HCL_TO_RGB and keeps the last grid point of each colour. */
  ghost predicate RgbHolds(tb: Tables) {
    && (forall r :: r in tb.rgbToHcl ==>
         tb.rgbToHcl[r] in tb.hclToRgb && tb.hclToRgb[tb.rgbToHcl[r]] == r)
    && (forall k :: k in tb.hclToRgb ==>
         tb.hclToRgb[k] in tb.rgbToHcl &&
         Order(Unpack(k)) <= Order(Unpack(tb.rgbToHcl[tb.hclToRgb[k]])))
  }

  /** One pass of the loop keeps HclHolds, with one more pass counted. */
  lemma HclStep(conv: Converter, prev: Tables, cur: Tables, i: nat)
    requires i < TRIPLE_COUNT && HclHolds(conv, prev, i)
    requires cur == Step(prev, conv, TripleAt(i))
    ensures HclHolds(conv, cur, i + 1)
  {
    var t := TripleAt(i);
    TripleAtOrder(i);
    PackIsGridKey(t);
    var rgb, p := Convert(conv, t), Pack(t);
    if rgb != NO_COLOR {
      assert cur.hclToRgb == prev.hclToRgb[p := rgb];
    } else {
      assert cur == prev;
    }
    forall k
      ensures k in cur.hclToRgb <==> VisitedInGamut(conv, k, i + 1)
      ensures k in cur.hclToRgb ==> cur.hclToRgb[k] == KeyColor(conv, k) != NO_COLOR
    {
      if k != p && IsGridKey(k) && Order(Unpack(k)) == i {
        OrderTripleAt(Unpack(k));
        assert false;
      }
    }
  }

  /** One pass of the loop keeps RgbHolds; the key it writes is new, so nothing is overwritten. */
  lemma RgbStep(conv: Converter, prev: Tables, cur: Tables, i: nat)
    requires i < TRIPLE_COUNT && HclHolds(conv, prev, i) && RgbHolds(prev)
    requires cur == Step(prev, conv, TripleAt(i))
    ensures RgbHolds(cur)
  {
    var t := TripleAt(i);
    TripleAtOrder(i);
    PackIsGridKey(t);
    var rgb, p := Convert(conv, t), Pack(t);
    assert p !in prev.hclToRgb;
    if rgb != NO_COLOR {
      assert cur.rgbToHcl == prev.rgbToHcl[rgb := p];
      assert cur.hclToRgb == prev.hclToRgb[p := rgb];
      forall r | r in cur.rgbToHcl
        ensures cur.rgbToHcl[r] in cur.hclToRgb && cur.hclToRgb[cur.rgbToHcl[r]] == r
      {
        if r != rgb {
          assert cur.rgbToHcl[r] == prev.rgbToHcl[r] != p;
        }
      }
      forall k | k in cur.hclToRgb
        ensures cur.hclToRgb[k] in cur.rgbToHcl &&
          Order(Unpack(k)) <= Order(Unpack(cur.rgbToHcl[cur.hclToRgb[k]]))
      {
        if k != p {
          assert k in prev.hclToRgb && cur.hclToRgb[k] == prev.hclToRgb[k];
          assert Order(Unpack(k)) < i;
        }
      }
    }
  }

  /**
   * After n passes HCL_TO_RGB holds exactly the grid points visited so far that
   * are in gamut, each with its converted colour; NO_COLOR is never a value.
   */
  lemma {:induction false} HclTableContents(conv: Converter, n: nat)
    requires n <= TRIPLE_COUNT
    ensures forall k :: k in Build(conv, n).hclToRgb <==> VisitedInGamut(conv, k, n)
    ensures forall k :: k in Build(conv, n).hclToRgb ==>
      Build(conv, n).hclToRgb[k] == KeyColor(conv, k) != NO_COLOR
  {
    if n > 0 {
      HclTableContents(conv, n - 1);
      HclStep(conv, Build(conv, n - 1), Build(conv, n), n - 1);
    }
  }

  /** The key the loop is about to write at pass n is not in HCL_TO_RGB yet: no entry is overwritten. */
  lemma NoOverwrite(conv: Converter, n: nat)
    requires n < TRIPLE_COUNT
    ensures Pack(TripleAt(n)) !in Build(conv, n).hclToRgb
  {
    HclTableContents(conv, n);
    TripleAtOrder(n);
    PackIsGridKey(TripleAt(n));
  }

  /**
   * After n passes every key of RGB_TO_HCL maps to a key of HCL_TO_RGB that
   * maps back to it, every colour in HCL_TO_RGB is a key of RGB_TO_HCL, and
   * RGB_TO_HCL keeps, of all grid points with that colour, the one the loop
   * visited last.
   */
  lemma {:induction false} RgbTableContents(conv: Converter, n: nat)
    requires n <= TRIPLE_COUNT
    ensures forall r :: r in Build(conv, n).rgbToHcl ==>
      Build(conv, n).rgbToHcl[r] in Build(conv, n).hclToRgb &&
      Build(conv, n).hclToRgb[Build(conv, n).rgbToHcl[r]] == r
    ensures forall k :: k in Build(conv, n).hclToRgb ==>
      Build(conv, n).hclToRgb[k] in Build(conv, n).rgbToHcl &&
      Order(Unpack(k)) <= Order(Unpack(Build(conv, n).rgbToHcl[Build(conv, n).hclToRgb[k]]))
  {
    if n > 0 {
      RgbTableContents(conv, n - 1);
      HclTableContents(conv, n - 1);
      RgbStep(conv, Build(conv, n - 1), Build(conv, n), n - 1);
    }
  }

  /**
   * What the finished tables hold. HCL_TO_RGB at a grid point is the converted
   * colour, or 0 when it is out of gamut; a key off the grid is absent. RGB_TO_HCL
   * round-trips exactly through HCL_TO_RGB and has no NO_COLOR key; every
   * in-gamut colour is a key of it, mapped to the last grid point (in loop
   * order) that converts to it.
   */
  lemma BuiltTables(conv: Converter, rgbToHcl: map<int, int>, hclToRgb: map<int, int>)
    requires Built(conv, rgbToHcl, hclToRgb)
    ensures forall t :: OnGrid(t) ==> Get(hclToRgb, Pack(t)) == Convert(conv, t)
    ensures forall k :: !IsGridKey(k) ==> k !in hclToRgb
    ensures forall r :: r in rgbToHcl ==>
      r != NO_COLOR && IsGridKey(rgbToHcl[r]) && Get(hclToRgb, rgbToHcl[r]) == r
    ensures forall t :: OnGrid(t) && Convert(conv, t) != NO_COLOR ==>
      Convert(conv, t) in rgbToHcl && Order(t) <= Order(Unpack(rgbToHcl[Convert(conv, t)]))
  {
    HclTableContents(conv, TRIPLE_COUNT);
    RgbTableContents(conv, TRIPLE_COUNT);
    forall t | OnGrid(t)
      ensures Get(hclToRgb, Pack(t)) == Convert(conv, t)
    {
      PackIsGridKey(t);
      OrderTripleAt(t);
    }
    forall t | OnGrid(t) && Convert(conv, t) != NO_COLOR
      ensures Convert(conv, t) in rgbToHcl && Order(t) <= Order(Unpack(rgbToHcl[Convert(conv, t)]))
    {
      PackIsGridKey(t);
      OrderTripleAt(t);
      assert Pack(t) in hclToRgb;
    }
  }

  /**
   * The body of the innermost table loop at hue h, luminance index lum and
   * chroma index chr: convert, and when the colour is in gamut record it in
   * both directions. It is pass number n = (h * 26 + lum) * 26 + chr of the loop.
   */
  method VisitGridPoint(conv: Converter, h: int, lum: int, chr: int, ghost n: nat,
                        rgbToHcl: map<int, int>, hclToRgb: map<int, int>)
    returns (rgbToHcl': map<int, int>, hclToRgb': map<int, int>)
    requires 0 <= h < HUE_COUNT && 0 <= lum < SLICE_COUNT && 0 <= chr < SLICE_COUNT
    requires n == (h * SLICE_COUNT + lum) * SLICE_COUNT + chr
    requires Tables(rgbToHcl, hclToRgb) == Build(conv, n)
    ensures Tables(rgbToHcl', hclToRgb') == Build(conv, n + 1)
  {
    var c := chr * SLICE_SIZE;
    var l := lum * SLICE_SIZE;
    ghost var t := Hcl(h, c, l);
    LoopPosition(h, lum, chr);
    assert Build(conv, n + 1) == Step(Build(conv, n), conv, t);
    rgbToHcl', hclToRgb' := rgbToHcl, hclToRgb;
    var rgb := conv(h, c, l);
    assert Convert(conv, t) == rgb;
    if rgb != NO_COLOR {
      var hcl := PackBits(h, c, l);
      PackBitsIsPack(h, c, l);
      rgbToHcl' := rgbToHcl'[rgb := hcl];
      hclToRgb' := hclToRgb'[hcl := rgb];
    }
  }

  /**
   * The middle table loop at hue h and luminance index lum: every chroma, in
   * order. The ghost counters n0 and n are the numbers of passes made before
   * this row and so far.
   */
  method VisitRow(conv: Converter, h: int, lum: int, ghost n0: nat,
                  rgbToHcl: map<int, int>, hclToRgb: map<int, int>)
    returns (rgbToHcl': map<int, int>, hclToRgb': map<int, int>)
    requires 0 <= h < HUE_COUNT && 0 <= lum < SLICE_COUNT
    requires n0 == (h * SLICE_COUNT + lum) * SLICE_COUNT
    requires Tables(rgbToHcl, hclToRgb) == Build(conv, n0)
    ensures Tables(rgbToHcl', hclToRgb') == Build(conv, n0 + SLICE_COUNT)
  {
    rgbToHcl', hclToRgb' := rgbToHcl, hclToRgb;
    ghost var n := n0;
    var chr := 0;
    while chr < SLICE_COUNT
      invariant 0 <= chr <= SLICE_COUNT && n == n0 + chr
      invariant Tables(rgbToHcl', hclToRgb') == Build(conv, n)
    {
      rgbToHcl', hclToRgb' := VisitGridPoint(conv, h, lum, chr, n, rgbToHcl', hclToRgb');
      chr, n := chr + 1, n + 1;
    }
  }

  /**
   * The outer table loop's body at hue h: every luminance and chroma, in loop
   * order. The ghost counters n0 and n are the numbers of passes made before
   * this hue and so far.
   */
  method VisitHue(conv: Converter, h: int, ghost n0: nat,
                  rgbToHcl: map<int, int>, hclToRgb: map<int, int>)
    returns (rgbToHcl': map<int, int>, hclToRgb': map<int, int>)
    requires 0 <= h < HUE_COUNT && n0 == h * SLICE_COUNT * SLICE_COUNT
    requires Tables(rgbToHcl, hclToRgb) == Build(conv, n0)
    ensures Tables(rgbToHcl', hclToRgb') == Build(conv, n0 + SLICE_COUNT * SLICE_COUNT)
  {
    rgbToHcl', hclToRgb' := rgbToHcl, hclToRgb;
    ghost var n := n0;
    var lum := 0;
    while lum < SLICE_COUNT
      invariant 0 <= lum <= SLICE_COUNT && n == n0 + lum * SLICE_COUNT
      invariant Tables(rgbToHcl', hclToRgb') == Build(conv, n)
    {
      rgbToHcl', hclToRgb' := VisitRow(conv, h, lum, n, rgbToHcl', hclToRgb');
      lum, n := lum + 1, n + SLICE_COUNT;
    }
  }

  /**
   * The static initializer: for every hue, luminance and chroma of the grid,
   * convert, and record an in-gamut result in both tables.
   */
  method BuildTables(conv: Converter) returns (rgbToHcl: map<int, int>, hclToRgb: map<int, int>)
    ensures Built(conv, rgbToHcl, hclToRgb)
    ensures forall t :: OnGrid(t) ==> Get(hclToRgb, Pack(t)) == Convert(conv, t)
    ensures forall r :: r in rgbToHcl ==>
      r != NO_COLOR && IsGridKey(rgbToHcl[r]) && Get(hclToRgb, rgbToHcl[r]) == r
  {
    rgbToHcl, hclToRgb := map[], map[];
    ghost var n: nat := 0;
    var h := 0;
    while h < HUE_COUNT
      invariant 0 <= h <= HUE_COUNT && n == h * SLICE_COUNT * SLICE_COUNT
      invariant Tables(rgbToHcl, hclToRgb) == Build(conv, n)
    {
      rgbToHcl, hclToRgb := VisitHue(conv, h, n, rgbToHcl, hclToRgb);
      h, n := h + 1, n + SLICE_COUNT * SLICE_COUNT;
    }
    BuiltTables(conv, rgbToHcl, hclToRgb);
  }
}
