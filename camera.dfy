/**
 * The Camera of include/su_camera.h and src/su_camera.c: an integer view
 * rectangle in the game world plus the render-target texture it is drawn into.
 *
 * SDL_CreateTexture becomes the parameter `created` (None when SDL returns
 * NULL), su_malloc becomes `allocOk`, and textures, renderers and viewport
 * pointers are opaque handles. The double `rotation` is not modelled.
 */
module Cameras {
  import opened SdlTypes

  /** An SDL_Texture* that SDL handed out. */
  datatype Texture = Texture(id: nat)

  /** An SDL_Renderer*. */
  datatype Renderer = Renderer(id: nat)

  /** The Rectangle* the camera keeps as its viewport (the pointer, not the rectangle). */
  datatype ViewportRef = ViewportRef(id: nat)

  predicate InI32(v: int) {
    -0x8000_0000 <= v < 0x8000_0000
  }

  /** `r` can be moved by `d` without signed overflow, which C leaves undefined. */
  predicate CanTranslate(r: Rect, d: Point) {
    InI32(r.x + d.x) && InI32(r.y + d.y)
  }

  /** The view after camera_move by `d`. */
  function Translated(r: Rect, d: Point): Rect
    requires CanTranslate(r, d)
  {
    r.(x := r.x + d.x, y := r.y + d.y)
  }

  /** `-d`, when neither coordinate is INT_MIN. */
  function Negated(d: Point): Point
    requires d.x > -0x8000_0000 && d.y > -0x8000_0000
  {
    Point(-d.x, -d.y)
  }

  /** Moving the view leaves its size alone, and moving back by `-d` restores it. */
  lemma TranslateRoundTrip(r: Rect, d: Point)
    requires CanTranslate(r, d) && d.x > -0x8000_0000 && d.y > -0x8000_0000
    ensures Translated(r, d).w == r.w && Translated(r, d).h == r.h
    ensures CanTranslate(Translated(r, d), Negated(d))
    ensures Translated(Translated(r, d), Negated(d)) == r
  {
  }

  /** `p` can be made the centre of `r` without signed overflow. */
  predicate CanCenter(r: Rect, p: Point) {
    InI32(p.x - CHalf(r.w)) && InI32(p.y - CHalf(r.h))
  }

  /** The view after camera_lookat(p): x = p.x - w / 2 and y = p.y - h / 2, with C division. */
  function CenteredOn(r: Rect, p: Point): Rect
    requires CanCenter(r, p)
  {
    r.(x := p.x - CHalf(r.w), y := p.y - CHalf(r.h))
  }

  /**
   * For a view of non-negative size, camera_lookat puts `p` in the middle of the view:
   * at half the width from the left edge (rounded down), and likewise vertically.
   */
  lemma CenteredOnMiddle(r: Rect, p: Point)
    requires CanCenter(r, p) && r.w >= 0 && r.h >= 0
    ensures var c := CenteredOn(r, p);
      && c.w == r.w && c.h == r.h
      && 0 <= 2 * (p.x - c.x) <= c.w <= 2 * (p.x - c.x) + 1
      && 0 <= 2 * (p.y - c.y) <= c.h <= 2 * (p.y - c.y) + 1
  {
  }

  /** Everything a Camera holds besides its view rectangle. */
  datatype Resources = Resources(viewport: ViewportRef, renderer: Renderer, renderTarget: Option<Texture>, pixelFormat: u32)

  /** A Camera, updated in place by the camera_* functions. */
  class Camera {
    var view: Rect
    var viewport: ViewportRef
    var renderer: Renderer
    var renderTarget: Option<Texture>
    var pixelFormat: u32
    /** The render targets handed to SDL_DestroyTexture, oldest first. */
    ghost var Destroyed: seq<Option<Texture>>

    function GetResources(): Resources
      reads this
    {
      Resources(viewport, renderer, renderTarget, pixelFormat)
    }

    /** camera_get_position. */
    function GetPosition(): (p: Point)
      reads this
      ensures p == Point(GetBounds().x, GetBounds().y)
    {
      Point(view.x, view.y)
    }

    /** camera_get_x. */
    function GetX(): (x: i32)
      reads this
      ensures x == GetPosition().x
    {
      view.x
    }

    /** camera_get_y. */
    function GetY(): (y: i32)
      reads this
      ensures y == GetPosition().y
    {
      view.y
    }

    /** camera_get_size. */
    function GetSize(): (size: Point)
      reads this
      ensures size == Point(GetBounds().w, GetBounds().h)
    {
      Point(view.w, view.h)
    }

    /** camera_get_width. */
    function GetWidth(): (w: i32)
      reads this
      ensures w == GetSize().x
    {
      view.w
    }

    /** camera_get_height. */
    function GetHeight(): (h: i32)
      reads this
      ensures h == GetSize().y
    {
      view.h
    }

    /** camera_get_bounds. */
    function GetBounds(): (bounds: Rect)
      reads this
      ensures bounds == view
    {
      view
    }

    /** camera_get_render_target. */
    function GetRenderTarget(): (target: Option<Texture>)
      reads this
      ensures target == GetResources().renderTarget
    {
      renderTarget
    }

    /**
     * camera_init. The texture is created first; when that fails the NULL is
     * stored and nothing else is written.
     */
    method Init(renderer: Renderer, width: i32, height: i32, viewport: ViewportRef, pixelFormat: u32,
                created: Option<Texture>) returns (ok: bool)
      modifies this
      ensures ok <==> created.Some?
      ensures renderTarget == created && Destroyed == old(Destroyed)
      ensures !ok ==> view == old(view) && GetResources() == old(GetResources()).(renderTarget := None)
      ensures ok ==> GetBounds() == Rect(0, 0, width, height)
      ensures ok ==> GetResources() == Resources(viewport, renderer, created, pixelFormat)
    {
      renderTarget := created;
      if renderTarget == None {
        return false;
      }
      view := view.(x := 0, y := 0, w := width, h := height);
      this.renderer := renderer;
      this.viewport := viewport;
      this.pixelFormat := pixelFormat;
      return true;
    }

    /** camera_move: shift the view by `d`. */
    method Move(d: Point)
      requires CanTranslate(view, d)
      modifies this
      ensures view == Translated(old(view), d)
      ensures GetSize() == old(GetSize())
      ensures GetResources() == old(GetResources()) && Destroyed == old(Destroyed)
    {
      view := view.(x := view.x + d.x);
      view := view.(y := view.y + d.y);
    }

    /** camera_lookat: centre the view on `p`. */
    method LookAt(p: Point)
      requires CanCenter(view, p)
      modifies this
      ensures view == CenteredOn(old(view), p)
      ensures GetSize() == old(GetSize())
      ensures GetResources() == old(GetResources()) && Destroyed == old(Destroyed)
    {
      view := view.(x := p.x - CHalf(view.w));
      view := view.(y := p.y - CHalf(view.h));
    }

    /** camera_set_position: place the top-left corner at `p`. */
    method SetPosition(p: Point)
      modifies this
      ensures GetPosition() == p && GetSize() == old(GetSize())
      ensures GetResources() == old(GetResources()) && Destroyed == old(Destroyed)
    {
      view := view.(x := p.x);
      view := view.(y := p.y);
    }

    /** camera_set_x: only the left edge moves. */
    method SetX(x: i32)
      modifies this
      ensures GetBounds() == old(GetBounds()).(x := x)
      ensures GetResources() == old(GetResources()) && Destroyed == old(Destroyed)
    {
      view := view.(x := x);
    }

    /** camera_set_y: only the top edge moves. */
    method SetY(y: i32)
      modifies this
      ensures GetBounds() == old(GetBounds()).(y := y)
      ensures GetResources() == old(GetResources()) && Destroyed == old(Destroyed)
    {
      view := view.(y := y);
    }

    /**
     * camera_set_size. Same size: nothing happens and the result is true.
     * Otherwise the new size is stored first; if the new texture cannot be
     * created the result is false and the old render target stays, and on
     * success the old target is destroyed and replaced.
     */
    method SetSize(size: Point, created: Option<Texture>) returns (ok: bool)
      modifies this
      ensures GetSize() == size && GetPosition() == old(GetPosition())
      ensures viewport == old(viewport) && renderer == old(renderer) && pixelFormat == old(pixelFormat)
      ensures old(GetSize()) == size ==> ok && renderTarget == old(renderTarget) && Destroyed == old(Destroyed)
      ensures old(GetSize()) != size ==> ok == created.Some?
      ensures old(GetSize()) != size && !ok ==> renderTarget == old(renderTarget) && Destroyed == old(Destroyed)
      ensures old(GetSize()) != size && ok ==> renderTarget == created && Destroyed == old(Destroyed) + [old(renderTarget)]
    {
      if view.w == size.x && view.h == size.y {
        return true;
      }
      view := view.(w := size.x);
      view := view.(h := size.y);
      var texture := created;
      if texture == None {
        return false;
      }
      Destroyed := Destroyed + [renderTarget];
      renderTarget := texture;
      return true;
    }

    /** camera_set_width: as camera_set_size, for the width alone. */
    method SetWidth(width: i32, created: Option<Texture>) returns (ok: bool)
      modifies this
      ensures GetBounds() == old(GetBounds()).(w := width)
      ensures viewport == old(viewport) && renderer == old(renderer) && pixelFormat == old(pixelFormat)
      ensures old(GetWidth()) == width ==> ok && renderTarget == old(renderTarget) && Destroyed == old(Destroyed)
      ensures old(GetWidth()) != width ==> ok == created.Some?
      ensures old(GetWidth()) != width && !ok ==> renderTarget == old(renderTarget) && Destroyed == old(Destroyed)
      ensures old(GetWidth()) != width && ok ==> renderTarget == created && Destroyed == old(Destroyed) + [old(renderTarget)]
    {
      if view.w == width {
        return true;
      }
      view := view.(w := width);
      var texture := created;
      if texture == None {
        return false;
      }
      Destroyed := Destroyed + [renderTarget];
      renderTarget := texture;
      return true;
    }

    /** camera_set_height: as camera_set_size, for the height alone. */
    method SetHeight(height: i32, created: Option<Texture>) returns (ok: bool)
      modifies this
      ensures GetBounds() == old(GetBounds()).(h := height)
      ensures viewport == old(viewport) && renderer == old(renderer) && pixelFormat == old(pixelFormat)
      ensures old(GetHeight()) == height ==> ok && renderTarget == old(renderTarget) && Destroyed == old(Destroyed)
      ensures old(GetHeight()) != height ==> ok == created.Some?
      ensures old(GetHeight()) != height && !ok ==> renderTarget == old(renderTarget) && Destroyed == old(Destroyed)
      ensures old(GetHeight()) != height && ok ==> renderTarget == created && Destroyed == old(Destroyed) + [old(renderTarget)]
    {
      if view.h == height {
        return true;
      }
      view := view.(h := height);
      var texture := created;
      if texture == None {
        return false;
      }
      Destroyed := Destroyed + [renderTarget];
      renderTarget := texture;
      return true;
    }
  }

  /** The bounds are the rectangle built from the position and the size the other getters report. */
  lemma GettersAgree(c: Camera)
    ensures c.GetBounds() == Rect(c.GetPosition().x, c.GetPosition().y, c.GetSize().x, c.GetSize().y)
    ensures c.GetBounds() == Rect(c.GetX(), c.GetY(), c.GetWidth(), c.GetHeight())
  {
  }

  /**
   * camera_create: NULL when su_malloc fails or when camera_init fails (the
   * block is then freed); otherwise a fresh camera initialised by camera_init.
   */
  method Create(renderer: Renderer, width: i32, height: i32, viewport: ViewportRef, pixelFormat: u32,
                allocOk: bool, created: Option<Texture>) returns (c: Camera?, ghost freedBlock: bool)
    ensures c != null <==> allocOk && created.Some?
    ensures freedBlock <==> allocOk && created.None?
    ensures c != null ==> fresh(c) && c.GetBounds() == Rect(0, 0, width, height)
    ensures c != null ==> c.GetResources() == Resources(viewport, renderer, created, pixelFormat)
  {
    freedBlock := false;
    if !allocOk {
      return null, freedBlock;
    }
    var camera := new Camera;
    var ok := camera.Init(renderer, width, height, viewport, pixelFormat, created);
    if !ok {
      // su_free(camera): the block is released and NULL returned
      freedBlock := true;
      return null, freedBlock;
    }
    return camera, freedBlock;
  }
}
