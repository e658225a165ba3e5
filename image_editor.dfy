/**
 * The editor object: the element store, the id counter and the image cache,
 * with the canvas it draws on modelled as the log of calls its 2D context
 * receives. Every mutator ends with one redraw, taken to run to completion
 * before the next call.
 */
module Editor {

  import opened Types
  import opened ImageUtils
  import opened Store
  import opened Composer

  /**
   * The payload addImage stores: an absent or zero opacity becomes 1, an
   * absent position becomes the canvas centre, and an absent size becomes
   * the canvas height with the width that keeps the image's natural aspect
   * ratio.
   */
  function InsertedImage(src: string, options: ImageOptions, img: Raster, width: nat, height: nat): (im: ImageData)
    ensures im.src == src && im.position.Some? && im.size.Some?
  {
    var aspectRatio := img.width as real / img.height as real;
    var h := height as real;
    ImageData(
      src,
      if options.opacity.Some? && options.opacity.value != 0.0 then options.opacity.value else 1.0,
      Some(options.position.GetOr(Centre(width, height))),
      Some(options.size.GetOr(Size(h * aspectRatio, h))))
  }

  lemma AspectAlgebra(h: real, iw: real, ih: real)
    requires ih > 0.0
    ensures (h * (iw / ih)) * ih == h * iw
  {
    var a := iw / ih;
    assert a * ih == iw;
    assert (h * a) * ih == h * (a * ih);
  }

  /**
   * What the inserted payload means: the opacity is never zero and is the
   * requested one whenever that is non-zero; the given position and size are
   * kept; the default size fills the canvas height at the natural aspect
   * ratio.
   */
  lemma InsertedImageMeaning(src: string, options: ImageOptions, img: Raster, width: nat, height: nat)
    ensures var im := InsertedImage(src, options, img, width, height);
      im.opacity != 0.0
      && (options.opacity.Some? && options.opacity.value != 0.0 ==> im.opacity == options.opacity.value)
      && (options.opacity.None? || options.opacity.value == 0.0 ==> im.opacity == 1.0)
      && (options.position.Some? ==> im.position == options.position)
      && (options.position.None? ==> im.position == Some(Centre(width, height)))
      && (options.size.Some? ==> im.size == options.size)
      && (options.size.None? ==> im.size.value.height == height as real
                                 && im.size.value.width * img.height as real == height as real * img.width as real)
  {
    AspectAlgebra(height as real, img.width as real, img.height as real);
  }

  /** The cache once updateElement has dropped the entry of the element's current frame. */
  function Evict(cache: map<string, Raster>, e: Element, width: nat, height: nat): (r: map<string, Raster>)
    ensures e.data.Frame? ==> FrameKey(e.data.frame, width, height) !in r
    ensures !e.data.Frame? ==> r == cache
    ensures forall k :: k in r ==> k in cache && r[k] == cache[k]
    ensures forall k :: k in cache && (e.data.Frame? ==> k != FrameKey(e.data.frame, width, height)) ==> k in r
  {
    if e.data.Frame? then cache - {FrameKey(e.data.frame, width, height)} else cache
  }

  /**
   * What eviction does for the frame's next fetch, which is of the merged
   * frame. The merged frame fetches under the evicted key exactly when the
   * partial leaves its colour, style and radius as they were; then that
   * fetch misses and loads the merged frame's SVG. Otherwise it fetches
   * under another key, which eviction left as it was, so a raster cached
   * there is drawn without a load.
   */
  lemma UpdatedFrameNextFetch(cache: map<string, Raster>, env: Effects, e: Element, p: Patch, width: nat, height: nat, load: Loader)
    requires e.data.Frame?
    ensures var m := e.(data := Merge(e.data, p));
      m.data.Frame?
      && (CacheKey(m, width, height) == CacheKey(e, width, height)
          <==> m.data.frame.color == e.data.frame.color && m.data.frame.style == e.data.frame.style
               && m.data.frame.borderRadius == e.data.frame.borderRadius)
    ensures p.color.None? && p.style.None? && p.borderRadius.None? ==>
      CacheKey(e.(data := Merge(e.data, p)), width, height) == CacheKey(e, width, height)
    ensures var m := e.(data := Merge(e.data, p));
      var evicted := env.(cache := Evict(cache, e, width, height));
      CacheKey(m, width, height) == CacheKey(e, width, height) ==>
        Fetch(CacheKey(m, width, height), LoadRequest(m, width, height), evicted, load).0.loads
          == env.loads + [FromSvg(GenerateFrameSvg(m.data.frame, width, height))]
    ensures var m := e.(data := Merge(e.data, p));
      var evicted := Evict(cache, e, width, height);
      CacheKey(m, width, height) != CacheKey(e, width, height) ==>
        (CacheKey(m, width, height) in evicted <==> CacheKey(m, width, height) in cache)
        && (CacheKey(m, width, height) in cache ==> evicted[CacheKey(m, width, height)] == cache[CacheKey(m, width, height)])
  {
    var m := e.(data := Merge(e.data, p));
    if CacheKey(m, width, height) == CacheKey(e, width, height) {
      FrameKeyInjective(m.data.frame, width, height, e.data.frame, width, height);
    }
  }

  class ImageEditor {
    const width: nat
    const height: nat
    var elements: seq<Element>
    var nextId: nat
    var imageCache: map<string, Raster>
    /** The calls made on the 2D context so far. */
    var canvas: seq<DrawOp>
    /** The loadImage calls made so far. */
    var loads: seq<Request>
    /** The ids whose draw was abandoned, one console error each. */
    var errors: seq<string>

    /** The state a drawing pass acts on. */
    function Env(): Effects
      reads this
    {
      Effects(canvas, imageCache, loads, errors)
    }

    /** The counter starts at 1 and every stored id was minted from an earlier value of it, for its own kind. */
    ghost predicate Valid()
      reads this
    {
      nextId >= 1 && UniqueIds(elements) && AllIssued(elements, nextId)
    }

    /** A fresh editor over a canvas with a context: empty store, empty cache, one redraw. */
    constructor (width: nat, height: nat, load: Loader)
      ensures Valid()
      ensures this.width == width && this.height == height
      ensures elements == [] && nextId == 1 && loads == [] && errors == []
      ensures Env() == Composer.Redraw([], Effects([], map[], [], []), width, height, load)
    {
      this.width := width;
      this.height := height;
      elements := [];
      nextId := 1;
      imageCache := map[];
      canvas := [];
      loads := [];
      errors := [];
      new;
      Redraw(load);
    }

    /** The constructor's guard: without a 2D context construction fails (None), otherwise it succeeds. */
    static method Create(width: nat, height: nat, hasContext: bool, load: Loader) returns (r: Option<ImageEditor>)
      ensures r.Some? <==> hasContext
      ensures r.Some? ==> fresh(r.value) && r.value.Valid() && r.value.elements == []
                          && r.value.width == width && r.value.height == height
    {
      if !hasContext {
        return None;
      }
      var editor := new ImageEditor(width, height, load);
      r := Some(editor);
    }

    /** `${type}-${this.nextId++}`: the id of kind k minted from the counter, which advances. */
    method MintId(k: Kind) returns (id: string)
      requires Valid()
      modifies this
      ensures Valid()
      ensures id == IdFor(k, old(nextId)) && nextId == old(nextId) + 1
      ensures IssuedBelow(id, k, nextId)
      ensures forall j :: 0 <= j < |elements| ==> elements[j].id != id
      ensures elements == old(elements) && Env() == old(Env())
    {
      id := IdFor(k, nextId);
      MintedIsFresh(elements, nextId, k);
      AllIssuedGrows(elements, nextId);
      nextId := nextId + 1;
    }

    /** `this.elements.push(e)` for an element under an issued id no stored element holds. */
    method Push(e: Element)
      requires Valid()
      requires IssuedBelow(e.id, e.data.Kind(), nextId)
      requires forall j :: 0 <= j < |elements| ==> elements[j].id != e.id
      modifies this
      ensures Valid()
      ensures elements == old(elements) + [e] && nextId == old(nextId) && Env() == old(Env())
    {
      AppendIssued(elements, nextId, e);
      elements := elements + [e];
    }

    /** Stores a text under a freshly minted id and redraws. */
    method AddText(t: TextData, load: Loader) returns (id: string)
      requires Valid()
      modifies this
      ensures Valid()
      ensures id == IdFor(TextKind, old(nextId)) && nextId == old(nextId) + 1
      ensures forall j :: 0 <= j < |old(elements)| ==> old(elements)[j].id != id
      ensures elements == old(elements) + [Element(id, Text(t))]
      ensures Env() == Composer.Redraw(elements, old(Env()), width, height, load)
    {
      id := MintId(TextKind);
      Push(Element(id, Text(t)));
      Redraw(load);
    }

    /**
     * Mints an id, fetches the image by its source (from the cache when it is
     * there) and, when that succeeds, stores it with its defaults and redraws.
     * A failed load rejects the call (None): the id is used up, the load is
     * logged, and nothing else changes.
     */
    method AddImage(src: string, options: ImageOptions, load: Loader) returns (r: Option<string>)
      requires Valid()
      modifies this
      ensures Valid()
      ensures nextId == old(nextId) + 1
      ensures var f := Fetch(src, FromUrl(src), old(Env()), load);
        (r.Some? <==> f.1)
        && (r.None? ==> elements == old(elements) && Env() == f.0)
        && (r.Some? ==>
              r.value == IdFor(ImageKind, old(nextId))
              && elements == old(elements) + [Element(r.value, Image(InsertedImage(src, options, f.0.cache[src], width, height)))]
              && Env() == Composer.Redraw(elements, f.0, width, height, load))
    {
      var id := MintId(ImageKind);
      var ok := FetchImage(src, FromUrl(src), load);
      if !ok {
        return None;
      }
      Push(Element(id, Image(InsertedImage(src, options, imageCache[src], width, height))));
      Redraw(load);
      r := Some(id);
    }

    /** Stores a frame under a freshly minted id and redraws. */
    method AddFrame(f: FrameData, load: Loader) returns (id: string)
      requires Valid()
      modifies this
      ensures Valid()
      ensures id == IdFor(FrameKind, old(nextId)) && nextId == old(nextId) + 1
      ensures forall j :: 0 <= j < |old(elements)| ==> old(elements)[j].id != id
      ensures elements == old(elements) + [Element(id, Frame(f))]
      ensures Env() == Composer.Redraw(elements, old(Env()), width, height, load)
    {
      id := MintId(FrameKind);
      Push(Element(id, Frame(f)));
      Redraw(load);
    }

    /** Removes the first element with the id and redraws; an unknown id changes nothing. */
    method RemoveElement(id: string, load: Loader) returns (removed: bool)
      requires Valid()
      modifies this
      ensures Valid()
      ensures removed <==> exists j :: 0 <= j < |old(elements)| && old(elements)[j].id == id
      ensures !removed ==> unchanged(this)
      ensures removed ==> elements == RemoveAt(old(elements), IndexOf(old(elements), id).value)
                          && Env() == Composer.Redraw(elements, old(Env()), width, height, load)
      ensures forall j :: 0 <= j < |elements| ==> elements[j].id != id
      ensures nextId == old(nextId)
    {
      var index := IndexOf(elements, id);
      if index.None? {
        return false;
      }
      RemoveAtKeepsIds(elements, index.value, nextId);
      elements := RemoveAt(elements, index.value);
      Redraw(load);
      removed := true;
    }

    /** Empties the store and redraws; the counter and the cache are kept. */
    method RemoveAllElements(load: Loader)
      requires Valid()
      modifies this
      ensures Valid()
      ensures elements == [] && nextId == old(nextId) && imageCache == old(imageCache)
      ensures Env() == Composer.Redraw([], old(Env()), width, height, load)
    {
      elements := [];
      Redraw(load);
      RedrawEmptyKeepsCache(old(Env()), load);
    }

    lemma RedrawEmptyKeepsCache(env: Effects, load: Loader)
      ensures Composer.Redraw([], env, width, height, load).cache == env.cache
    {
    }

    /**
     * Merges the partial into the first element with the id and redraws; for
     * a frame the cache entry under its current key is dropped first. An
     * unknown id changes nothing.
     */
    method UpdateElement(id: string, patch: Patch, load: Loader) returns (updated: bool)
      requires Valid()
      modifies this
      ensures Valid()
      ensures updated <==> exists j :: 0 <= j < |old(elements)| && old(elements)[j].id == id
      ensures !updated ==> unchanged(this)
      ensures updated ==> var i := IndexOf(old(elements), id).value;
        elements == ReplaceData(old(elements), i, Merge(old(elements)[i].data, patch))
        && Env() == Composer.Redraw(elements, old(Env()).(cache := Evict(old(imageCache), old(elements)[i], width, height)),
                                    width, height, load)
      ensures nextId == old(nextId)
    {
      var index := IndexOf(elements, id);
      if index.None? {
        return false;
      }
      var element := elements[index.value];
      EvictFrame(element);
      ReplaceDataKeepsIds(elements, index.value, Merge(element.data, patch), nextId);
      elements := ReplaceData(elements, index.value, Merge(element.data, patch));
      Redraw(load);
      updated := true;
    }

    /** For a frame, drops the cache entry under its current key; other kinds leave the cache alone. */
    method EvictFrame(e: Element)
      modifies this
      ensures imageCache == Evict(old(imageCache), e, width, height)
      ensures Env() == old(Env()).(cache := imageCache)
      ensures elements == old(elements) && nextId == old(nextId)
    {
      if e.data.Frame? {
        var oldCacheKey := FrameKey(e.data.frame, width, height);
        imageCache := imageCache - {oldCacheKey};
      }
    }

    /** Writes the position of the first element with the id and redraws. An unknown id changes nothing. */
    method UpdateElementPosition(id: string, position: Point, load: Loader) returns (updated: bool)
      requires Valid()
      modifies this
      ensures Valid()
      ensures updated <==> exists j :: 0 <= j < |old(elements)| && old(elements)[j].id == id
      ensures !updated ==> unchanged(this)
      ensures updated ==> var i := IndexOf(old(elements), id).value;
        elements == ReplaceData(old(elements), i, SetPosition(old(elements)[i].data, position))
        && Env() == Composer.Redraw(elements, old(Env()), width, height, load)
      ensures nextId == old(nextId)
    {
      var index := IndexOf(elements, id);
      if index.None? {
        return false;
      }
      var element := elements[index.value];
      ReplaceDataKeepsIds(elements, index.value, SetPosition(element.data, position), nextId);
      elements := ReplaceData(elements, index.value, SetPosition(element.data, position));
      Redraw(load);
      updated := true;
    }

    /** Clears the canvas to white, then draws the images, the frames and the texts. */
    method Redraw(load: Loader)
      modifies this
      ensures Env() == Composer.Redraw(elements, old(Env()), width, height, load)
      ensures elements == old(elements) && nextId == old(nextId)
    {
      canvas := canvas + [SetFillStyle("#ffffff")];
      canvas := canvas + [FillRect(0.0, 0.0, width as real, height as real)];
      ghost var cleared := Env();
      assert cleared == old(Env()).(ops := old(Env()).ops + ClearOps(width, height));
      DrawElementsByType(ImageKind, load);
      ghost var afterImages := Env();
      DrawElementsByType(FrameKind, load);
      ghost var afterFrames := Env();
      DrawElementsByType(TextKind, load);
      RedrawPasses(elements, old(Env()), cleared, afterImages, afterFrames, Env(), load);
    }

    /** Three passes after the clear make up one redraw. */
    lemma RedrawPasses(es: seq<Element>, env: Effects, cleared: Effects, afterImages: Effects, afterFrames: Effects,
                       r: Effects, load: Loader)
      requires cleared == env.(ops := env.ops + ClearOps(width, height))
      requires afterImages == DrawAll(OfKind(es, ImageKind), cleared, width, height, load)
      requires afterFrames == DrawAll(OfKind(es, FrameKind), afterImages, width, height, load)
      requires r == DrawAll(OfKind(es, TextKind), afterFrames, width, height, load)
      ensures r == Composer.Redraw(es, env, width, height, load)
    {
    }

    /** Draws the elements of one kind in store order. */
    method DrawElementsByType(k: Kind, load: Loader)
      modifies this
      ensures Env() == DrawAll(OfKind(elements, k), old(Env()), width, height, load)
      ensures elements == old(elements) && nextId == old(nextId)
    {
      var es := OfKind(elements, k);
      ghost var env0 := Env();
      var i := 0;
      while i < |es|
        invariant 0 <= i <= |es|
        invariant Env() == DrawAll(es[..i], env0, width, height, load)
        invariant elements == old(elements) && nextId == old(nextId)
      {
        DrawAllStep(es, i, env0, width, height, load);
        DrawOne(es[i], load);
        i := i + 1;
      }
      assert es[..|es|] == es;
    }

    /** The try block for one element: a failed fetch abandons the draw and logs the id. */
    method DrawOne(e: Element, load: Loader)
      modifies this
      ensures Env() == DrawElement(e, old(Env()), width, height, load)
      ensures elements == old(elements) && nextId == old(nextId)
    {
      match e.data
      case Image(im) =>
        var ok := FetchImage(im.src, FromUrl(im.src), load);
        if ok {
          canvas := canvas + [Save, SetGlobalAlpha(im.opacity)];
          var position := im.position.GetOr(Centre(width, height));
          var size := im.size.GetOr(Size(width as real, height as real));
          canvas := canvas + [DrawImage(im.src, position.x - size.width / 2.0, position.y - size.height / 2.0,
                                        size.width, size.height)];
          canvas := canvas + [Restore];
        } else {
          errors := errors + [e.id];
        }
      case Text(t) =>
        var ops := DrawText(t);
        canvas := canvas + ops;
      case Frame(f) =>
        var svg := GenerateFrameSvg(f, width, height);
        var cacheKey := FrameKey(f, width, height);
        var ok := FetchImage(cacheKey, FromSvg(svg), load);
        if ok {
          canvas := canvas + [DrawImage(cacheKey, 0.0, 0.0, width as real, height as real)];
        } else {
          errors := errors + [e.id];
        }
    }

    /** The cached image under key, or else a load of req, cached when it succeeds. */
    method FetchImage(key: string, req: Request, load: Loader) returns (ok: bool)
      modifies this
      ensures (Env(), ok) == Fetch(key, req, old(Env()), load)
      ensures elements == old(elements) && nextId == old(nextId)
    {
      if key in imageCache {
        return true;
      }
      loads := loads + [req];
      var img := load(req);
      if img.Some? {
        imageCache := imageCache[key := img.value];
        ok := true;
      } else {
        ok := false;
      }
    }

    /** A copy of the store. */
    method GetElements() returns (es: seq<Element>)
      ensures es == elements
    {
      es := elements;
    }
  }
}
