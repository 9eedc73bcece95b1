/**
 * The radial colour picker: a hue ring around a chroma/luminance grid.
 *
 * The picker keeps the current hue, the selected colour as a packed HCL key
 * and its RGB value, and a SLICE_COUNT x SLICE_COUNT cache `mix` of the RGB
 * values of the current hue's slice of the table. The floating-point geometry
 * that turns a mouse position into a ring angle or a grid cell is not modelled:
 * a click arrives as a ClickTarget that already holds the integer result.
 */
module ColorPickerModel {
  import opened JavaInt
  import opened HclGrid
  import opened ColorTables

  /** The initial selection, `100 << 16`: hue 0, chroma 0, luminance 100. */
  const DEFAULT_HCL: int := 100 * 65536

  /** The initial hue, `DEFAULT_HCL & 0xFF`, is 0. */
  lemma DefaultHue()
    ensures HueByte(DEFAULT_HCL) == 0
  {
    assert DEFAULT_HCL % 256 == 0;
  }

  /**
   * Where a click landed, as decided by the floating-point part of handleMouseClick.
   * Ring carries the rounded `atan2` angle in whole degrees, which lies in -180 .. 180;
   * Grid carries the rounded, non-negative cell indices of a point that is not left
   * of or below the grid; OffGrid is a point inside the inner radius that is.
   */
  datatype ClickTarget =
    | Outside
    | Ring(angle: int)
    | OffGrid
    | Grid(x: nat, y: nat)

  /** The key rebuildMix looks up for cell (lum, chr): `hue | ((lum * 4) << 16) | ((chr * 4) << 8)`. */
  function MixKey(hue: int, lum: int, chr: int): (k: int)
    requires InInt32(hue) && 0 <= lum < SLICE_COUNT && 0 <= chr < SLICE_COUNT
    ensures 0 <= hue < HUE_COUNT ==> k == Pack(Hcl(hue, chr * SLICE_SIZE, lum * SLICE_SIZE))
  {
    var k := Or32(Or32(hue, lum * SLICE_SIZE * 65536), chr * SLICE_SIZE * 256);
    if 0 <= hue < HUE_COUNT then
      Or32Regroup(hue, lum * SLICE_SIZE * 65536, chr * SLICE_SIZE * 256);
      LoopPosition(hue, lum, chr);
      PackBitsIsPack(hue, chr * SLICE_SIZE, lum * SLICE_SIZE);
      k
    else
      k
  }

  /** The hue a ring click selects: the angle, moved into 0 .. 359 when negative. */
  function RingHue(angle: int): (h: int)
    requires -180 <= angle <= 180
    ensures 0 <= h < HUE_COUNT
    ensures h % 360 == angle % 360
  {
    if angle < 0 then angle + 360 else angle
  }

  /**
   * The hue after a scroll by a non-zero increment: the Java `int` sum, then a
   * single correction by 360 in the direction that brings it back towards 0 .. 359.
   */
  function ScrollHue(hue: int, inc: int): (h: int)
    requires InInt32(hue) && InInt32(inc)
    ensures InInt32(h)
    ensures InInt32(hue + inc) ==> h % 360 == (hue + inc) % 360
    ensures InInt32(hue + inc) && -360 <= hue + inc < 2 * 360 ==> 0 <= h < HUE_COUNT
    ensures InInt32(hue + inc) && 0 <= h < HUE_COUNT ==> -360 <= hue + inc < 2 * 360
  {
    var newHue := Wrap32(hue + inc);
    if newHue < 0 then
      ShiftMod360(newHue, 1);
      newHue + 360
    else if newHue >= 360 then
      ShiftMod360(newHue, -1);
      newHue - 360
    else newHue
  }

  /** Moving by a whole turn does not change the remainder modulo 360. */
  lemma ShiftMod360(s: int, j: int)
    ensures (s + 360 * j) % 360 == s % 360
  {
    DivModUnique(s + 360 * j, 360, s / 360 + j, s % 360);
  }

  /** From a hue in range, an increment of magnitude below 360 wraps modulo 360. */
  lemma ScrollWraps(hue: int, inc: int)
    requires 0 <= hue < HUE_COUNT && -360 < inc < 360
    ensures 0 <= ScrollHue(hue, inc) < HUE_COUNT
    ensures ScrollHue(hue, inc) == (hue + inc) % 360
  {
    var s := hue + inc;
    if s < 0 {
      DivModUnique(s, 360, -1, s + 360);
    } else if s >= 360 {
      DivModUnique(s, 360, 1, s - 360);
    } else {
      DivModUnique(s, 360, 0, s);
    }
  }

  /**
   * The correction is applied once only, so a sum outside -360 .. 719 leaves the
   * range (0 - 400 gives -40), while a large increment whose sum is inside it does not.
   */
  lemma ScrollLargeIncrement()
    ensures ScrollHue(0, -400) == -40
    ensures ScrollHue(359, -360) == 359
    ensures ScrollHue(0, 800) == 440
    ensures ScrollHue(359, 2) == 1
  {
  }

  class ColorPicker {
    /** The colour conversion and the two static tables it produced. */
    const conv: Converter
    const rgbToHcl: map<int, int>
    const hclToRgb: map<int, int>

    var hue: int
    var hcl: int
    var rgb: int
    const mix: array2<int>

    /** Everything the picker keeps true, except the cache. */
    ghost predicate Ready()
      reads this
    {
      && Built(conv, rgbToHcl, hclToRgb)
      && mix.Length0 == SLICE_COUNT && mix.Length1 == SLICE_COUNT
      && InInt32(hue) && InInt32(hcl)
    }

    /** Every cell of the cache holds the table's colour at the current hue (0 when absent). */
    ghost predicate MixConsistent()
      reads this, mix
      requires Ready()
    {
      forall lum, chr | 0 <= lum < SLICE_COUNT && 0 <= chr < SLICE_COUNT ::
        mix[lum, chr] == Get(hclToRgb, MixKey(hue, lum, chr))
    }

    ghost predicate Valid()
      reads this, mix
    {
      Ready() && MixConsistent()
    }

    /** The selected RGB value is the table's colour for the selected HCL key. */
    ghost predicate Selected()
      reads this
    {
      rgb == Get(hclToRgb, hcl)
    }

    constructor (conv: Converter, rgbToHcl: map<int, int>, hclToRgb: map<int, int>)
      requires Built(conv, rgbToHcl, hclToRgb)
      ensures Valid() && fresh(mix)
      ensures this.conv == conv && this.rgbToHcl == rgbToHcl && this.hclToRgb == hclToRgb
      ensures hue == 0 && hcl == DEFAULT_HCL && rgb == Get(hclToRgb, DEFAULT_HCL)
      ensures Selected()
    {
      this.conv := conv;
      this.rgbToHcl := rgbToHcl;
      this.hclToRgb := hclToRgb;
      DefaultHue();
      hue := HueByte(DEFAULT_HCL);
      hcl := DEFAULT_HCL;
      rgb := Get(hclToRgb, DEFAULT_HCL);
      mix := new int[SLICE_COUNT, SLICE_COUNT];
      new;
      RebuildMix();
    }

    /** The selected colour. */
    function GetRgb(): (r: int)
      reads this
      ensures r == rgb
    {
      rgb
    }

    /** With the hue in 0 .. 359 the cache shows that hue's slice of the grid, as converted. */
    lemma MixShowsSlice(lum: int, chr: int)
      requires Valid() && 0 <= hue < HUE_COUNT
      requires 0 <= lum < SLICE_COUNT && 0 <= chr < SLICE_COUNT
      ensures mix[lum, chr] == Convert(conv, Hcl(hue, chr * SLICE_SIZE, lum * SLICE_SIZE))
    {
      LoopPosition(hue, lum, chr);
      BuiltTables(conv, rgbToHcl, hclToRgb);
    }

    /** Refills the whole cache for the current hue. */
    method RebuildMix()
      requires Ready()
      modifies mix
      ensures Valid()
    {
      for lum := 0 to SLICE_COUNT
        invariant forall l, c | 0 <= l < lum && 0 <= c < SLICE_COUNT ::
          mix[l, c] == Get(hclToRgb, MixKey(hue, l, c))
      {
        var hl := Or32(hue, lum * SLICE_SIZE * 65536);
        for chr := 0 to SLICE_COUNT
          invariant forall l, c | 0 <= l < lum && 0 <= c < SLICE_COUNT ::
            mix[l, c] == Get(hclToRgb, MixKey(hue, l, c))
          invariant forall c | 0 <= c < chr :: mix[lum, c] == Get(hclToRgb, MixKey(hue, lum, c))
        {
          mix[lum, chr] := Get(hclToRgb, Or32(hl, chr * SLICE_SIZE * 256));
        }
      }
    }

    /** Sets the hue and refills the cache, unless the hue is already the current one. */
    method ChangeHueIfDifferent(newHue: int)
      requires Valid() && InInt32(newHue)
      modifies this`hue, mix
      ensures Valid() && hue == newHue
      ensures newHue == old(hue) ==> unchanged(mix)
    {
      if newHue != hue {
        hue := newHue;
        RebuildMix();
      }
    }

    /** A click on the ring selects the hue at the clicked angle. */
    method ClickRing(angle: int)
      requires Valid() && -180 <= angle <= 180
      modifies this`hue, mix
      ensures Valid() && hue == RingHue(angle)
      ensures RingHue(angle) == old(hue) ==> unchanged(mix)
    {
      var a := angle;
      if a < 0 {
        a := a + 360;
      }
      ChangeHueIfDifferent(a);
    }

    /**
     * A click on grid cell (x, y) selects chroma 4x and luminance 4y at the
     * current hue, provided the cell is on the grid and the table has a colour
     * there; otherwise nothing changes.
     */
    method ClickGrid(x: nat, y: nat)
      requires Valid()
      modifies this`hcl, this`rgb
      ensures Valid()
      ensures
        if x < SLICE_COUNT && y < SLICE_COUNT
           && Get(hclToRgb, PackBits(hue, x * SLICE_SIZE, y * SLICE_SIZE)) != NO_COLOR
        then hcl == PackBits(hue, x * SLICE_SIZE, y * SLICE_SIZE) && rgb == hclToRgb[hcl] && Selected()
        else hcl == old(hcl) && rgb == old(rgb)
      ensures old(Selected()) ==> Selected()
      ensures 0 <= hue < HUE_COUNT && x < SLICE_COUNT && y < SLICE_COUNT ==>
        var t := Hcl(hue, x * SLICE_SIZE, y * SLICE_SIZE);
        if Convert(conv, t) != NO_COLOR then hcl == Pack(t) && rgb == Convert(conv, t)
        else hcl == old(hcl) && rgb == old(rgb)
    {
      if x < SLICE_COUNT && y < SLICE_COUNT {
        var key := PackBits(hue, x * SLICE_SIZE, y * SLICE_SIZE);
        var color := Get(hclToRgb, key);
        if 0 <= hue < HUE_COUNT {
          LoopPosition(hue, y, x);
          PackBitsIsPack(hue, x * SLICE_SIZE, y * SLICE_SIZE);
          BuiltTables(conv, rgbToHcl, hclToRgb);
        }
        if color != NO_COLOR {
          rgb := color;
          hcl := key;
        }
      }
    }

    /** handleMouseClick: dispatch on where the click landed. */
    method HandleMouseClick(target: ClickTarget)
      requires Valid()
      requires target.Ring? ==> -180 <= target.angle <= 180
      modifies this`hue, this`hcl, this`rgb, mix
      ensures Valid()
      ensures old(Selected()) ==> Selected()
      ensures target.Outside? || target.OffGrid? ==>
        hue == old(hue) && hcl == old(hcl) && rgb == old(rgb) && unchanged(mix)
      ensures target.Ring? ==>
        hue == RingHue(target.angle) && hcl == old(hcl) && rgb == old(rgb)
      ensures target.Grid? ==> hue == old(hue) && unchanged(mix)
      ensures target.Grid? ==>
        if target.x < SLICE_COUNT && target.y < SLICE_COUNT
           && Get(hclToRgb, PackBits(hue, target.x * SLICE_SIZE, target.y * SLICE_SIZE)) != NO_COLOR
        then hcl == PackBits(hue, target.x * SLICE_SIZE, target.y * SLICE_SIZE) && rgb == hclToRgb[hcl]
        else hcl == old(hcl) && rgb == old(rgb)
    {
      match target {
        case Outside =>
        case OffGrid =>
        case Ring(angle) => ClickRing(angle);
        case Grid(x, y) => ClickGrid(x, y);
      }
    }

    /** handleMouseDrag treats every drag position as a click. */
    method HandleMouseDrag(target: ClickTarget)
      requires Valid()
      requires target.Ring? ==> -180 <= target.angle <= 180
      modifies this`hue, this`hcl, this`rgb, mix
      ensures Valid()
      ensures old(Selected()) ==> Selected()
      ensures target.Outside? || target.OffGrid? ==>
        hue == old(hue) && hcl == old(hcl) && rgb == old(rgb) && unchanged(mix)
      ensures target.Ring? ==>
        hue == RingHue(target.angle) && hcl == old(hcl) && rgb == old(rgb)
      ensures target.Grid? ==> hue == old(hue) && unchanged(mix)
      ensures target.Grid? ==>
        if target.x < SLICE_COUNT && target.y < SLICE_COUNT
           && Get(hclToRgb, PackBits(hue, target.x * SLICE_SIZE, target.y * SLICE_SIZE)) != NO_COLOR
        then hcl == PackBits(hue, target.x * SLICE_SIZE, target.y * SLICE_SIZE) && rgb == hclToRgb[hcl]
        else hcl == old(hcl) && rgb == old(rgb)
    {
      HandleMouseClick(target);
    }

    /** handleMouseScroll with the host's increment `inc`: a zero increment does nothing. */
    method HandleMouseScroll(inc: int)
      requires Valid() && InInt32(inc)
      modifies this`hue, mix
      ensures Valid()
      ensures inc == 0 ==> hue == old(hue) && unchanged(mix)
      ensures inc != 0 ==> hue == ScrollHue(old(hue), inc)
      ensures inc != 0 && 0 <= old(hue) < HUE_COUNT && -360 < inc < 360 ==>
        0 <= hue < HUE_COUNT && hue == (old(hue) + inc) % 360
    {
      if inc != 0 {
        ghost var h0 := hue;
        var newHue := Wrap32(hue + inc);
        if newHue < 0 {
          newHue := newHue + 360;
        } else if newHue >= 360 {
          newHue := newHue - 360;
        }
        if 0 <= h0 < HUE_COUNT && -360 < inc < 360 {
          ScrollWraps(h0, inc);
        }
        ChangeHueIfDifferent(newHue);
      }
    }

    /**
     * setRgb: select `v` and its HCL key from RGB_TO_HCL (0 when `v` is not a
     * key), then take the hue from the key's low byte.
     */
    method SetRgb(v: int)
      requires Valid() && InInt32(v)
      modifies this`hue, this`hcl, this`rgb, mix
      ensures Valid()
      ensures GetRgb() == v && hcl == Get(rgbToHcl, v) && hue == HueByte(hcl)
      ensures v in rgbToHcl ==> Selected() && IsGridKey(hcl) && hue == Unpack(hcl).hue % 256
      ensures v !in rgbToHcl ==> hcl == 0 && hue == 0
    {
      BuiltTables(conv, rgbToHcl, hclToRgb);
      rgb := v;
      var key := Get(rgbToHcl, v);
      if v in rgbToHcl {
        PackIsGridKey(Unpack(key));
        HueBytePack(Unpack(key));
      } else {
        AndLowByte(0);
      }
      hcl := key;
      ChangeHueIfDifferent(HueByte(hcl));
    }
  }
}
