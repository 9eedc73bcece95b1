/**
 * The texture-layer selector: a strip with a texture swatch on the left and a
 * "clear" button to its right. A click on the swatch asks for a texture to be
 * created or selected, a click on the button clears the texture; each request
 * goes to the registered callback, modelled here as the log of actions it has
 * received so far.
 */
module LayerSelectorModel {

  datatype Option<T> = None | Some(value: T)

  /** Stands for the host's texture set; only its identity matters here. */
  type TextureId = int

  datatype MouseLocation = NONE | TEXTURE | CLEAR

  datatype Action = CREATE | SELECT | CLEAR

  /** The left edge of the clear button lies just past this x coordinate. */
  function SwatchRight(left: int, itemSpacing: int, itemSize: int): int {
    left + itemSpacing + itemSize + itemSpacing
  }

  predicate InBounds(left: int, top: int, right: int, bottom: int, x: int, y: int) {
    left <= x <= right && top <= y <= bottom
  }

  /** updateMouseLocation: which zone of the control a point is in. */
  function Locate(left: int, top: int, right: int, bottom: int, itemSpacing: int, itemSize: int,
                  x: int, y: int): (loc: MouseLocation)
    ensures loc == NONE <==> !InBounds(left, top, right, bottom, x, y)
    ensures loc == MouseLocation.TEXTURE <==>
      InBounds(left, top, right, bottom, x, y) && x <= SwatchRight(left, itemSpacing, itemSize)
    ensures loc == MouseLocation.CLEAR <==>
      InBounds(left, top, right, bottom, x, y) && x > SwatchRight(left, itemSpacing, itemSize)
  {
    if x < left || x > right || y < top || y > bottom then NONE
    else if x <= left + itemSpacing + itemSize + itemSpacing then MouseLocation.TEXTURE
    else MouseLocation.CLEAR
  }

  /**
   * Along a row inside the control the swatch is the part left of the button:
   * moving a point left, within bounds, never takes it from TEXTURE to CLEAR,
   * and moving it right never takes it from CLEAR to TEXTURE.
   */
  lemma LocateMonotone(left: int, top: int, right: int, bottom: int, itemSpacing: int, itemSize: int,
                       x1: int, x2: int, y: int)
    requires InBounds(left, top, right, bottom, x1, y) && InBounds(left, top, right, bottom, x2, y)
    requires x1 <= x2
    ensures Locate(left, top, right, bottom, itemSpacing, itemSize, x1, y) != NONE
    ensures Locate(left, top, right, bottom, itemSpacing, itemSize, x2, y) == MouseLocation.TEXTURE ==>
      Locate(left, top, right, bottom, itemSpacing, itemSize, x1, y) == MouseLocation.TEXTURE
    ensures Locate(left, top, right, bottom, itemSpacing, itemSize, x1, y) == MouseLocation.CLEAR ==>
      Locate(left, top, right, bottom, itemSpacing, itemSize, x2, y) == MouseLocation.CLEAR
  {
  }

  /** The action a click in zone `loc` sends, given the current texture; None for no action. */
  function ClickAction(loc: MouseLocation, tex: Option<TextureId>): (a: Option<Action>)
    ensures a.None? <==> loc == NONE
    ensures loc == MouseLocation.TEXTURE ==> a == Some(if tex.None? then CREATE else SELECT)
    ensures loc == MouseLocation.CLEAR ==> a == Some(Action.CLEAR)
  {
    match loc
    case NONE => None
    case TEXTURE => Some(if tex == None then CREATE else SELECT)
    case CLEAR => Some(Action.CLEAR)
  }

  /** The texture after a click in zone `loc`: only the clear button removes it. */
  function ClickTexture(loc: MouseLocation, tex: Option<TextureId>): (t: Option<TextureId>)
    ensures loc == MouseLocation.CLEAR ==> t == None
    ensures loc != MouseLocation.CLEAR ==> t == tex
  {
    if loc == MouseLocation.CLEAR then None else tex
  }

  /** Two clicks in the same zone leave the texture as one does, and each click on the clear button sends CLEAR. */
  lemma ClearIsIdempotent(loc: MouseLocation, tex: Option<TextureId>)
    ensures ClickTexture(loc, ClickTexture(loc, tex)) == ClickTexture(loc, tex)
    ensures loc == MouseLocation.CLEAR ==>
      ClickAction(loc, ClickTexture(loc, tex)) == ClickAction(loc, tex) == Some(Action.CLEAR)
  {
  }

  function Emitted(a: Option<Action>): seq<Action> {
    if a.Some? then [a.value] else []
  }

  class LayerSelector {
    /** Layout, as the host's control base class keeps it. */
    var left: int
    var top: int
    var right: int
    var bottom: int
    var height: int

    var itemSize: int
    var itemSpacing: int
    var itemSelectionMargin: int
    var isSelected: bool
    var isClearable: bool
    var rgb: int
    var tex: Option<TextureId>
    /** Null in the source until the first update. */
    var currentMouseLocation: Option<MouseLocation>
    /** Everything the onAction callback has been handed, oldest first. */
    var actions: seq<Action>

    /** A new selector with the theme's item metrics and the host's layout. */
    constructor (left: int, top: int, right: int, bottom: int, height: int,
                 itemSize: int, itemSpacing: int, itemSelectionMargin: int)
      ensures this.left == left && this.top == top && this.right == right && this.bottom == bottom
      ensures this.height == height
      ensures this.itemSize == itemSize && this.itemSpacing == itemSpacing
      ensures this.itemSelectionMargin == itemSelectionMargin
      ensures !isSelected && isClearable && rgb == -1 && tex == None
      ensures currentMouseLocation == None && actions == []
    {
      this.left, this.top, this.right, this.bottom, this.height := left, top, right, bottom, height;
      this.itemSize, this.itemSpacing, this.itemSelectionMargin := itemSize, itemSpacing, itemSelectionMargin;
      isSelected, isClearable, rgb, tex := false, true, -1, None;
      currentMouseLocation, actions := None, [];
    }

    /** The texture setTexture last stored, None when there is none. */
    function GetTexture(): (t: Option<TextureId>)
      reads this
      ensures t == tex
    {
      tex
    }

    method SetTexture(t: Option<TextureId>)
      modifies this`tex
      ensures GetTexture() == t
    {
      tex := t;
    }

    method UpdateMouseLocation(x: int, y: int)
      modifies this`currentMouseLocation
      ensures currentMouseLocation == Some(Locate(left, top, right, bottom, itemSpacing, itemSize, x, y))
    {
      currentMouseLocation := Some(Locate(left, top, right, bottom, itemSpacing, itemSize, x, y));
    }

    /** handleCoordinateUpdate: the height becomes top plus the item and its two margins. */
    method HandleCoordinateUpdate()
      modifies this`height
      ensures height == top + 2 * itemSelectionMargin + itemSize
    {
      height := top + itemSelectionMargin * 2 + itemSize;
    }

    /**
     * handleMouseClick: locate the click afresh, then send the zone's action (if
     * any) and clear the texture when the clear button was hit.
     */
    method HandleMouseClick(x: int, y: int)
      modifies this`currentMouseLocation, this`tex, this`actions
      ensures currentMouseLocation == Some(Locate(left, top, right, bottom, itemSpacing, itemSize, x, y))
      ensures tex == ClickTexture(currentMouseLocation.value, old(tex))
      ensures actions == old(actions) + Emitted(ClickAction(currentMouseLocation.value, old(tex)))
      ensures currentMouseLocation == Some(NONE) ==> tex == old(tex) && actions == old(actions)
      ensures currentMouseLocation == Some(MouseLocation.TEXTURE) ==>
        tex == old(tex) && actions == old(actions) + [if old(tex).None? then CREATE else SELECT]
      ensures currentMouseLocation == Some(MouseLocation.CLEAR) ==>
        tex == None && actions == old(actions) + [Action.CLEAR]
    {
      UpdateMouseLocation(x, y);
      match currentMouseLocation.value {
        case TEXTURE =>
          actions := actions + [if tex == None then CREATE else SELECT];
        case CLEAR =>
          tex := None;
          actions := actions + [Action.CLEAR];
        case NONE =>
      }
    }

    /** Dragging does nothing. */
    method HandleMouseDrag(x: int, y: int, dx: int, dy: int)
      ensures unchanged(this)
    {
    }

    /** Scrolling does nothing. */
    method HandleMouseScroll(x: int, y: int, scrollDelta: int)
      ensures unchanged(this)
    {
    }

    method SetRgb(v: int)
      modifies this`rgb
      ensures rgb == v
    {
      rgb := v;
    }

    method SetItemSize(v: int)
      modifies this`itemSize
      ensures itemSize == v
    {
      itemSize := v;
    }

    method SetItemSpacing(v: int)
      modifies this`itemSpacing
      ensures itemSpacing == v
    {
      itemSpacing := v;
    }

    method SetSelected(v: bool)
      modifies this`isSelected
      ensures isSelected == v
    {
      isSelected := v;
    }

    method SetClearable(v: bool)
      modifies this`isClearable
      ensures isClearable == v
    {
      isClearable := v;
    }
  }
}
