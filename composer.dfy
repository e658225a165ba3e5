/**
 * The value-level semantics of one redraw pass: the effects of drawing
 * elements on the canvas log, the image cache, the load log and the error
 * log.
 */
module Composer {

  import opened Types
  import opened ImageUtils
  import opened Store

  // ---------------------------------------------------------------------
  // Drawing
  // ---------------------------------------------------------------------

  /** The natural size of a loaded image; the height is at least 1. */
  datatype Raster = Raster(width: nat, height: PosNat)

  type PosNat = n: int | n >= 1 witness 1

  /** What loadImage is asked for: an image URL, or the data URL of a frame's SVG. */
  datatype Request = FromUrl(src: string) | FromSvg(svg: FrameSvg)

  /**
   * What a drawing pass acts on: the call log of the 2D context, the image
   * cache, the log of loadImage calls and the log of console errors (the
   * ids of the elements whose draw threw).
   */
  datatype Effects = Effects(ops: seq<DrawOp>, cache: map<string, Raster>, loads: seq<Request>, errors: seq<string>)

  /** `loadImage(src)` stands for a browser that yields a raster or fails; the same request always yields the same outcome. */
  type Loader = Request -> Option<Raster>

  /**
   * The cached image under key, or else the outcome of loading req, stored
   * under key when it succeeds. The flag says whether an image is at hand.
   */
  function Fetch(key: string, req: Request, env: Effects, load: Loader): (r: (Effects, bool))
    ensures r.0.ops == env.ops && r.0.errors == env.errors
    ensures r.1 <==> key in r.0.cache
    ensures key in env.cache ==> r.0 == env
    ensures key !in env.cache ==> r.0.loads == env.loads + [req]
    ensures key !in env.cache ==> r.0.cache == (if load(req).Some? then env.cache[key := load(req).value] else env.cache)
  {
    if key in env.cache then (env, true)
    else match load(req)
      case None => (env.(loads := env.loads + [req]), false)
      case Some(img) => (env.(loads := env.loads + [req], cache := env.cache[key := img]), true)
  }

  /** The canvas centre, where an image without a position is drawn. */
  function Centre(width: nat, height: nat): Point {
    Point(width as real / 2.0, height as real / 2.0)
  }

  /** The calls of one image draw: the opacity is set inside a save/restore pair around the drawImage. */
  function ImageOps(im: ImageData, width: nat, height: nat): seq<DrawOp> {
    var pos := im.position.GetOr(Centre(width, height));
    var size := im.size.GetOr(Size(width as real, height as real));
    [Save, SetGlobalAlpha(im.opacity),
     DrawImage(im.src, pos.x - size.width / 2.0, pos.y - size.height / 2.0, size.width, size.height),
     Restore]
  }

  /** An image is drawn centred on its position, at its size (the canvas centre and size when it has none). */
  lemma ImageCentredOnPosition(im: ImageData, width: nat, height: nat)
    ensures var d := ImageOps(im, width, height)[2];
      var pos := im.position.GetOr(Centre(width, height));
      var size := im.size.GetOr(Size(width as real, height as real));
      ImageOps(im, width, height)[0] == Save && ImageOps(im, width, height)[1] == SetGlobalAlpha(im.opacity)
      && ImageOps(im, width, height)[3] == Restore && |ImageOps(im, width, height)| == 4
      && d.DrawImage? && d.key == im.src
      && d.x + d.width / 2.0 == pos.x && d.y + d.height / 2.0 == pos.y
      && d.width == size.width && d.height == size.height
  {
  }

  /** The call of one frame draw: its image stretched over the whole canvas. */
  function FrameOps(f: FrameData, width: nat, height: nat): seq<DrawOp> {
    [DrawImage(FrameKey(f, width, height), 0.0, 0.0, width as real, height as real)]
  }

  /** What a successful draw of the element sends to the context. */
  function DrawnOps(e: Element, width: nat, height: nat): seq<DrawOp> {
    match e.data
    case Text(t) => TextOps(t)
    case Image(im) => ImageOps(im, width, height)
    case Frame(f) => FrameOps(f, width, height)
  }

  /** The key and the request under which an image or frame is fetched. */
  function CacheKey(e: Element, width: nat, height: nat): string
    requires !e.data.Text?
  {
    match e.data
    case Image(im) => im.src
    case Frame(f) => FrameKey(f, width, height)
  }

  function LoadRequest(e: Element, width: nat, height: nat): Request
    requires !e.data.Text?
  {
    match e.data
    case Image(im) => FromUrl(im.src)
    case Frame(f) => FromSvg(GenerateFrameSvg(f, width, height))
  }

  /**
   * The body of the try block for one element: text is drawn at once; an
   * image or frame is fetched first, and when that fails the draw is
   * abandoned and the element's id logged.
   */
  function DrawElement(e: Element, env: Effects, width: nat, height: nat, load: Loader): Effects {
    if e.data.Text? then env.(ops := env.ops + TextOps(e.data.text))
    else
      var (env1, ok) := Fetch(CacheKey(e, width, height), LoadRequest(e, width, height), env, load);
      if ok then env1.(ops := env1.ops + DrawnOps(e, width, height))
      else env1.(errors := env1.errors + [e.id])
  }

  /** The elements of one kind, in store order: `elements.filter(element => element.type === type)`. */
  function OfKind(es: seq<Element>, k: Kind): (r: seq<Element>)
    ensures |r| <= |es|
    ensures forall i :: 0 <= i < |r| ==> r[i].data.Kind() == k && r[i] in es
    ensures forall i :: 0 <= i < |es| && es[i].data.Kind() == k ==> es[i] in r
  {
    if |es| == 0 then []
    else OfKind(es[..|es| - 1], k) + (if es[|es| - 1].data.Kind() == k then [es[|es| - 1]] else [])
  }

  /** The three kinds split the store: every element is drawn in exactly one of the three passes. */
  lemma {:induction false} OfKindPartition(es: seq<Element>)
    ensures |OfKind(es, ImageKind)| + |OfKind(es, FrameKind)| + |OfKind(es, TextKind)| == |es|
  {
    if |es| > 0 {
      OfKindPartition(es[..|es| - 1]);
    }
  }

  /**
   * filter keeps store order and multiplicity: it distributes over
   * concatenation, and keeps a single element exactly when it has the kind.
   */
  lemma {:induction false} OfKindConcat(a: seq<Element>, b: seq<Element>, k: Kind)
    ensures OfKind(a + b, k) == OfKind(a, k) + OfKind(b, k)
  {
    if |b| == 0 {
      assert a + b == a;
    } else {
      var init := b[..|b| - 1];
      OfKindConcat(a, init, k);
      assert (a + b)[..|a + b| - 1] == a + init;
      assert (a + b)[|a + b| - 1] == b[|b| - 1];
      var last := if b[|b| - 1].data.Kind() == k then [b[|b| - 1]] else [];
      ConcatAssoc(OfKind(a, k), OfKind(init, k), last);
    }
  }

  lemma OfKindSingle(e: Element, k: Kind)
    ensures OfKind([e], k) == if e.data.Kind() == k then [e] else []
  {
    assert [e][..0] == [];
  }

  /** The elements drawn one after the other. */
  function DrawAll(es: seq<Element>, env: Effects, width: nat, height: nat, load: Loader): Effects {
    if |es| == 0 then env
    else DrawElement(es[|es| - 1], DrawAll(es[..|es| - 1], env, width, height, load), width, height, load)
  }

  /** A pass over one more element is the pass so far followed by that element's draw. */
  lemma DrawAllStep(es: seq<Element>, i: nat, env: Effects, width: nat, height: nat, load: Loader)
    requires i < |es|
    ensures DrawAll(es[..i + 1], env, width, height, load)
         == DrawElement(es[i], DrawAll(es[..i], env, width, height, load), width, height, load)
  {
    assert es[..i + 1][..i] == es[..i];
  }

  /** The white clear that starts every redraw. */
  function ClearOps(width: nat, height: nat): seq<DrawOp> {
    [SetFillStyle("#ffffff"), FillRect(0.0, 0.0, width as real, height as real)]
  }

  /** One redraw pass: the clear, then the images, then the frames, then the texts. */
  function Redraw(es: seq<Element>, env: Effects, width: nat, height: nat, load: Loader): Effects {
    var cleared := env.(ops := env.ops + ClearOps(width, height));
    var afterImages := DrawAll(OfKind(es, ImageKind), cleared, width, height, load);
    var afterFrames := DrawAll(OfKind(es, FrameKind), afterImages, width, height, load);
    DrawAll(OfKind(es, TextKind), afterFrames, width, height, load)
  }

  // ---------------------------------------------------------------------
  // Properties of drawing
  // ---------------------------------------------------------------------

  /**
   * A draw is all or nothing: the element's calls all reach the context and
   * nothing is logged, or (for an image or frame whose fetch failed) no call
   * reaches it and exactly its id is logged. Cached entries are never lost.
   */
  lemma DrawElementOutcome(e: Element, env: Effects, width: nat, height: nat, load: Loader)
    ensures var r := DrawElement(e, env, width, height, load);
      (r.errors == env.errors && r.ops == env.ops + DrawnOps(e, width, height))
      || (!e.data.Text? && r.errors == env.errors + [e.id] && r.ops == env.ops)
    ensures var r := DrawElement(e, env, width, height, load);
      forall k :: k in env.cache ==> k in r.cache && r.cache[k] == env.cache[k]
  {
  }

  /** What each of the elements, drawn successfully, sends to the context, in order. */
  function DrawnAll(es: seq<Element>, width: nat, height: nat): seq<DrawOp> {
    if |es| == 0 then [] else DrawnAll(es[..|es| - 1], width, height) + DrawnOps(es[|es| - 1], width, height)
  }

  /** One effects record extends another: the logs only grow and cached entries stay. */
  predicate Extends(r: Effects, env: Effects) {
    env.ops <= r.ops && env.loads <= r.loads && env.errors <= r.errors
    && forall k :: k in env.cache ==> k in r.cache && r.cache[k] == env.cache[k]
  }

  /** Drawing only appends to the canvas, load and error logs, and never evicts a cache entry. */
  lemma {:induction false} DrawAllExtends(es: seq<Element>, env: Effects, width: nat, height: nat, load: Loader)
    ensures Extends(DrawAll(es, env, width, height, load), env)
  {
    if |es| > 0 {
      DrawAllExtends(es[..|es| - 1], env, width, height, load);
      var mid := DrawAll(es[..|es| - 1], env, width, height, load);
      DrawElementOutcome(es[|es| - 1], mid, width, height, load);
    }
  }

  /** Every image or frame of the list has its key in the cache. */
  predicate Cached(es: seq<Element>, cache: map<string, Raster>, width: nat, height: nat) {
    forall i :: 0 <= i < |es| && !es[i].data.Text? ==> CacheKey(es[i], width, height) in cache
  }

  /** A draw that logs nothing sent all the element's calls and left its image or frame cached. */
  lemma DrawElementClean(e: Element, env: Effects, width: nat, height: nat, load: Loader)
    requires DrawElement(e, env, width, height, load).errors == env.errors
    ensures DrawElement(e, env, width, height, load).ops == env.ops + DrawnOps(e, width, height)
    ensures !e.data.Text? ==> CacheKey(e, width, height) in DrawElement(e, env, width, height, load).cache
  {
  }

  /** Cached entries stay cached, so a list cached before stays cached after. */
  lemma CachedGrows(es: seq<Element>, r: Effects, env: Effects, width: nat, height: nat)
    requires Extends(r, env) && Cached(es, env.cache, width, height)
    ensures Cached(es, r.cache, width, height)
  {
  }

  lemma CachedSnoc(es: seq<Element>, cache: map<string, Raster>, width: nat, height: nat)
    requires |es| > 0
    requires Cached(es[..|es| - 1], cache, width, height)
    requires !es[|es| - 1].data.Text? ==> CacheKey(es[|es| - 1], width, height) in cache
    ensures Cached(es, cache, width, height)
  {
    forall i | 0 <= i < |es| - 1 && !es[i].data.Text?
      ensures CacheKey(es[i], width, height) in cache
    {
      assert es[i] == es[..|es| - 1][i];
    }
  }

  /**
   * When a pass logs no error, every element was drawn in full, in order,
   * and every image and frame it drew is now in the cache.
   */
  lemma {:induction false} DrawAllClean(es: seq<Element>, env: Effects, width: nat, height: nat, load: Loader)
    requires DrawAll(es, env, width, height, load).errors == env.errors
    ensures DrawAll(es, env, width, height, load).ops == env.ops + DrawnAll(es, width, height)
    ensures Cached(es, DrawAll(es, env, width, height, load).cache, width, height)
  {
    if |es| > 0 {
      CleanSplit(es, env, width, height, load);
      DrawAllClean(es[..|es| - 1], env, width, height, load);
      CleanStep(es, DrawAll(es[..|es| - 1], env, width, height, load), env.ops, width, height, load);
    }
  }

  /** A pass that logs nothing logged nothing before its last element, nor at it. */
  lemma CleanSplit(es: seq<Element>, env: Effects, width: nat, height: nat, load: Loader)
    requires |es| > 0 && DrawAll(es, env, width, height, load).errors == env.errors
    ensures DrawAll(es[..|es| - 1], env, width, height, load).errors == env.errors
    ensures var mid := DrawAll(es[..|es| - 1], env, width, height, load);
      DrawElement(es[|es| - 1], mid, width, height, load).errors == mid.errors
  {
    var mid := DrawAll(es[..|es| - 1], env, width, height, load);
    DrawAllExtends(es[..|es| - 1], env, width, height, load);
    DrawElementOutcome(es[|es| - 1], mid, width, height, load);
  }

  /** A clean draw of the last element extends a clean pass over the others. */
  lemma CleanStep(es: seq<Element>, mid: Effects, start: seq<DrawOp>, width: nat, height: nat, load: Loader)
    requires |es| > 0
    requires mid.ops == start + DrawnAll(es[..|es| - 1], width, height)
    requires Cached(es[..|es| - 1], mid.cache, width, height)
    requires DrawElement(es[|es| - 1], mid, width, height, load).errors == mid.errors
    ensures DrawElement(es[|es| - 1], mid, width, height, load).ops == start + DrawnAll(es, width, height)
    ensures Cached(es, DrawElement(es[|es| - 1], mid, width, height, load).cache, width, height)
  {
    var last := es[|es| - 1];
    var r := DrawElement(last, mid, width, height, load);
    DrawElementClean(last, mid, width, height, load);
    DrawElementOutcome(last, mid, width, height, load);
    CachedKept(es[..|es| - 1], mid.cache, r.cache, width, height);
    CachedSnoc(es, r.cache, width, height);
    ConcatAssoc(start, DrawnAll(es[..|es| - 1], width, height), DrawnOps(last, width, height));
  }

  lemma CachedKept(es: seq<Element>, c1: map<string, Raster>, c2: map<string, Raster>, width: nat, height: nat)
    requires Cached(es, c1, width, height)
    requires forall k :: k in c1 ==> k in c2 && c2[k] == c1[k]
    ensures Cached(es, c2, width, height)
  {
  }

  lemma CachedInit(es: seq<Element>, cache: map<string, Raster>, width: nat, height: nat)
    requires |es| > 0 && Cached(es, cache, width, height)
    ensures Cached(es[..|es| - 1], cache, width, height)
    ensures !es[|es| - 1].data.Text? ==> CacheKey(es[|es| - 1], width, height) in cache
  {
    var init := es[..|es| - 1];
    forall i | 0 <= i < |init| && !init[i].data.Text?
      ensures CacheKey(init[i], width, height) in cache
    {
      assert init[i] == es[i];
    }
  }

  lemma ConcatAssoc<T>(a: seq<T>, b: seq<T>, c: seq<T>)
    ensures a + b + c == a + (b + c)
  {
  }

  /** A cached image or frame, and any text, is drawn without a load. */
  lemma DrawElementWarm(e: Element, env: Effects, width: nat, height: nat, load: Loader)
    requires !e.data.Text? ==> CacheKey(e, width, height) in env.cache
    ensures DrawElement(e, env, width, height, load) == env.(ops := env.ops + DrawnOps(e, width, height))
  {
  }

  /** When every image and frame is already cached, a pass loads nothing, logs nothing and draws everything. */
  lemma {:induction false} DrawAllWarm(es: seq<Element>, env: Effects, width: nat, height: nat, load: Loader)
    requires Cached(es, env.cache, width, height)
    ensures DrawAll(es, env, width, height, load) == env.(ops := env.ops + DrawnAll(es, width, height))
  {
    if |es| > 0 {
      var init := es[..|es| - 1];
      var last := es[|es| - 1];
      CachedInit(es, env.cache, width, height);
      DrawAllWarm(init, env, width, height, load);
      var mid := env.(ops := env.ops + DrawnAll(init, width, height));
      DrawElementWarm(last, mid, width, height, load);
      ConcatAssoc(env.ops, DrawnAll(init, width, height), DrawnOps(last, width, height));
    }
  }

  /** Text is never fetched: a pass over texts always draws every one of them, in order. */
  lemma {:induction false} TextsAlwaysDrawn(es: seq<Element>, env: Effects, width: nat, height: nat, load: Loader)
    requires forall i :: 0 <= i < |es| ==> es[i].data.Text?
    ensures DrawAll(es, env, width, height, load) == env.(ops := env.ops + DrawnAll(es, width, height))
  {
    DrawAllWarm(es, env, width, height, load);
  }

  predicate NoFills(ops: seq<DrawOp>) {
    forall i :: 0 <= i < |ops| ==> !ops[i].FillText?
  }

  predicate NoImages(ops: seq<DrawOp>) {
    forall i :: 0 <= i < |ops| ==> !ops[i].DrawImage?
  }

  /** `later` extends `earlier` with calls none of which fills text. */
  predicate FillFree(later: seq<DrawOp>, earlier: seq<DrawOp>) {
    earlier <= later && NoFills(later[|earlier|..])
  }

  lemma FillFreeChain(a: seq<DrawOp>, b: seq<DrawOp>, c: seq<DrawOp>)
    requires FillFree(b, a) && FillFree(c, b)
    ensures FillFree(c, a)
  {
    forall i | 0 <= i < |c[|a|..]|
      ensures !c[|a|..][i].FillText?
    {
      if |a| + i < |b| {
        assert c[|a|..][i] == b[|a|..][i];
      } else {
        assert c[|a|..][i] == c[|b|..][|a| + i - |b|];
      }
    }
  }

  /** Drawing an image or a frame fills no text. */
  lemma NonTextStepFillFree(e: Element, env: Effects, width: nat, height: nat, load: Loader)
    requires !e.data.Text?
    ensures FillFree(DrawElement(e, env, width, height, load).ops, env.ops)
  {
    DrawElementOutcome(e, env, width, height, load);
    var r := DrawElement(e, env, width, height, load);
    if r.ops == env.ops + DrawnOps(e, width, height) {
      assert r.ops[|env.ops|..] == DrawnOps(e, width, height);
    } else {
      assert r.ops[|env.ops|..] == [];
    }
  }

  /** A pass over images and frames fills no text. */
  lemma {:induction false} NonTextPassFillFree(es: seq<Element>, env: Effects, width: nat, height: nat, load: Loader)
    requires forall i :: 0 <= i < |es| ==> !es[i].data.Text?
    ensures FillFree(DrawAll(es, env, width, height, load).ops, env.ops)
  {
    if |es| > 0 {
      var init := es[..|es| - 1];
      var mid := DrawAll(init, env, width, height, load);
      NonTextPassFillFree(init, env, width, height, load);
      NonTextStepFillFree(es[|es| - 1], mid, width, height, load);
      FillFreeChain(env.ops, mid.ops, DrawElement(es[|es| - 1], mid, width, height, load).ops);
    }
  }

  lemma KindPassFillFree(es: seq<Element>, k: Kind, env: Effects, width: nat, height: nat, load: Loader)
    requires k != TextKind
    ensures FillFree(DrawAll(OfKind(es, k), env, width, height, load).ops, env.ops)
  {
    NonTextPassFillFree(OfKind(es, k), env, width, height, load);
  }

  /** Text draws never draw an image. */
  lemma {:induction false} TextsDrawNoImages(es: seq<Element>, width: nat, height: nat)
    requires forall i :: 0 <= i < |es| ==> es[i].data.Text?
    ensures NoImages(DrawnAll(es, width, height))
  {
    if |es| > 0 {
      TextsDrawNoImages(es[..|es| - 1], width, height);
      var t := es[|es| - 1].data.text;
      TextOpsShape(t);
    }
  }

  /** The text pass draws every text, and none of its calls draws an image. */
  lemma TextPass(es: seq<Element>, env: Effects, width: nat, height: nat, load: Loader)
    ensures DrawAll(OfKind(es, TextKind), env, width, height, load).ops == env.ops + DrawnAll(OfKind(es, TextKind), width, height)
    ensures NoImages(DrawnAll(OfKind(es, TextKind), width, height))
  {
    TextsAlwaysDrawn(OfKind(es, TextKind), env, width, height, load);
    TextsDrawNoImages(OfKind(es, TextKind), width, height);
  }

  /** Once a stretch without fills is followed by a stretch without images, no image follows a fill. */
  lemma FillsAfterImages(a: seq<DrawOp>, b: seq<DrawOp>, c: seq<DrawOp>)
    requires FillFree(b, a) && NoImages(c)
    ensures forall i, j :: |a| <= i < j < |b + c| && (b + c)[i].FillText? ==> !(b + c)[j].DrawImage?
  {
    var ops := b + c;
    forall i | |a| <= i < |b|
      ensures !ops[i].FillText?
    {
      assert ops[i] == b[|a|..][i - |a|];
    }
    forall j | |b| <= j < |ops|
      ensures !ops[j].DrawImage?
    {
      assert ops[j] == c[j - |b|];
    }
  }

  /** A redraw starts with the white clear. */
  lemma RedrawStartsWithClear(es: seq<Element>, env: Effects, width: nat, height: nat, load: Loader)
    ensures env.ops + ClearOps(width, height) <= Redraw(es, env, width, height, load).ops
  {
    var cleared := env.(ops := env.ops + ClearOps(width, height));
    var e1 := DrawAll(OfKind(es, ImageKind), cleared, width, height, load);
    var e2 := DrawAll(OfKind(es, FrameKind), e1, width, height, load);
    DrawAllExtends(OfKind(es, ImageKind), cleared, width, height, load);
    DrawAllExtends(OfKind(es, FrameKind), e1, width, height, load);
    DrawAllExtends(OfKind(es, TextKind), e2, width, height, load);
  }

  /** The kinds are drawn as layers: within a redraw no image or frame is drawn after a line of text. */
  lemma RedrawTextOnTop(es: seq<Element>, env: Effects, width: nat, height: nat, load: Loader)
    ensures var r := Redraw(es, env, width, height, load);
      forall i, j :: |env.ops| <= i < j < |r.ops| && r.ops[i].FillText? ==> !r.ops[j].DrawImage?
  {
    var cleared := env.(ops := env.ops + ClearOps(width, height));
    var e1 := DrawAll(OfKind(es, ImageKind), cleared, width, height, load);
    var e2 := DrawAll(OfKind(es, FrameKind), e1, width, height, load);
    assert FillFree(cleared.ops, env.ops) by {
      assert cleared.ops[|env.ops|..] == ClearOps(width, height);
    }
    KindPassFillFree(es, ImageKind, cleared, width, height, load);
    KindPassFillFree(es, FrameKind, e1, width, height, load);
    FillFreeChain(env.ops, cleared.ops, e1.ops);
    FillFreeChain(env.ops, e1.ops, e2.ops);
    TextPass(es, e2, width, height, load);
    FillsAfterImages(env.ops, e2.ops, DrawnAll(OfKind(es, TextKind), width, height));
  }

  /** What a redraw sends to the context when every draw succeeds. */
  function RedrawnOps(es: seq<Element>, width: nat, height: nat): seq<DrawOp> {
    ClearOps(width, height)
    + DrawnAll(OfKind(es, ImageKind), width, height)
    + DrawnAll(OfKind(es, FrameKind), width, height)
    + DrawnAll(OfKind(es, TextKind), width, height)
  }

  lemma ExtendsTrans(a: Effects, b: Effects, c: Effects)
    requires Extends(b, a) && Extends(c, b)
    ensures Extends(c, a)
  {
  }

  /** When the error log has not grown over three steps, it did not grow at any of them. */
  lemma ErrorsSettled(a: Effects, b: Effects, c: Effects, d: Effects)
    requires Extends(b, a) && Extends(c, b) && Extends(d, c) && d.errors == a.errors
    ensures b.errors == a.errors && c.errors == a.errors
  {
    assert |a.errors| <= |b.errors| <= |c.errors| <= |d.errors|;
  }

  /**
   * A redraw that logs no error drew every element in full, layer by layer,
   * and left every image and frame in the cache.
   */
  lemma RedrawClean(es: seq<Element>, env: Effects, width: nat, height: nat, load: Loader)
    requires Redraw(es, env, width, height, load).errors == env.errors
    ensures Redraw(es, env, width, height, load).ops == env.ops + RedrawnOps(es, width, height)
    ensures Cached(OfKind(es, ImageKind), Redraw(es, env, width, height, load).cache, width, height)
    ensures Cached(OfKind(es, FrameKind), Redraw(es, env, width, height, load).cache, width, height)
  {
    var cleared := env.(ops := env.ops + ClearOps(width, height));
    var e1 := DrawAll(OfKind(es, ImageKind), cleared, width, height, load);
    var e2 := DrawAll(OfKind(es, FrameKind), e1, width, height, load);
    var r := DrawAll(OfKind(es, TextKind), e2, width, height, load);
    DrawAllExtends(OfKind(es, ImageKind), cleared, width, height, load);
    DrawAllExtends(OfKind(es, FrameKind), e1, width, height, load);
    DrawAllExtends(OfKind(es, TextKind), e2, width, height, load);
    ErrorsSettled(cleared, e1, e2, r);
    DrawAllClean(OfKind(es, ImageKind), cleared, width, height, load);
    DrawAllClean(OfKind(es, FrameKind), e1, width, height, load);
    DrawAllClean(OfKind(es, TextKind), e2, width, height, load);
    ExtendsTrans(e1, e2, r);
    CachedGrows(OfKind(es, ImageKind), r, e1, width, height);
    CachedGrows(OfKind(es, FrameKind), r, e2, width, height);
    LayersAssoc(env.ops, ClearOps(width, height), DrawnAll(OfKind(es, ImageKind), width, height),
                DrawnAll(OfKind(es, FrameKind), width, height), DrawnAll(OfKind(es, TextKind), width, height));
  }

  /** When every image and frame is cached, a redraw loads nothing, logs nothing and draws every element. */
  lemma RedrawWarm(es: seq<Element>, env: Effects, width: nat, height: nat, load: Loader)
    requires Cached(OfKind(es, ImageKind), env.cache, width, height)
    requires Cached(OfKind(es, FrameKind), env.cache, width, height)
    ensures Redraw(es, env, width, height, load) == env.(ops := env.ops + RedrawnOps(es, width, height))
  {
    var cleared := env.(ops := env.ops + ClearOps(width, height));
    DrawAllWarm(OfKind(es, ImageKind), cleared, width, height, load);
    var e1 := cleared.(ops := cleared.ops + DrawnAll(OfKind(es, ImageKind), width, height));
    DrawAllWarm(OfKind(es, FrameKind), e1, width, height, load);
    var e2 := e1.(ops := e1.ops + DrawnAll(OfKind(es, FrameKind), width, height));
    TextsAlwaysDrawn(OfKind(es, TextKind), e2, width, height, load);
    assert Redraw(es, env, width, height, load) == e2.(ops := e2.ops + DrawnAll(OfKind(es, TextKind), width, height));
    LayersAssoc(env.ops, ClearOps(width, height), DrawnAll(OfKind(es, ImageKind), width, height),
                DrawnAll(OfKind(es, FrameKind), width, height), DrawnAll(OfKind(es, TextKind), width, height));
  }

  lemma LayersAssoc(start: seq<DrawOp>, a: seq<DrawOp>, b: seq<DrawOp>, c: seq<DrawOp>, d: seq<DrawOp>)
    ensures start + a + b + c + d == start + (a + b + c + d)
  {
  }

  /**
   * The cache at work: after a redraw that logged no error, the next redraw
   * of the same elements loads nothing, logs nothing, keeps the cache and
   * draws the same calls again.
   */
  lemma RedrawFromCache(es: seq<Element>, env: Effects, width: nat, height: nat, load: Loader)
    requires Redraw(es, env, width, height, load).errors == env.errors
    ensures Redraw(es, env, width, height, load).ops == env.ops + RedrawnOps(es, width, height)
    ensures var r := Redraw(es, env, width, height, load);
      Redraw(es, r, width, height, load) == r.(ops := r.ops + RedrawnOps(es, width, height))
  {
    RedrawClean(es, env, width, height, load);
    RedrawWarm(es, Redraw(es, env, width, height, load), width, height, load);
  }

  /** Whether the draw of e from env reaches the context: texts always do, images and frames when their fetch succeeds. */
  function Succeeds(e: Element, env: Effects, width: nat, height: nat, load: Loader): bool {
    e.data.Text? || Fetch(CacheKey(e, width, height), LoadRequest(e, width, height), env, load).1
  }

  /** The elements of a pass split into those drawn and the ids of those whose draw failed, each in order. */
  function PassSplit(es: seq<Element>, env: Effects, width: nat, height: nat, load: Loader): (r: (seq<Element>, seq<string>))
    ensures |r.0| + |r.1| == |es|
  {
    if |es| == 0 then ([], [])
    else
      var init := PassSplit(es[..|es| - 1], env, width, height, load);
      var last := es[|es| - 1];
      if Succeeds(last, DrawAll(es[..|es| - 1], env, width, height, load), width, height, load)
      then (init.0 + [last], init.1)
      else (init.0, init.1 + [last.id])
  }

  /**
   * A failure never stops a pass: every element is either drawn in full or
   * logged, the drawn ones send their calls in order, and the log receives
   * exactly the ids of the others.
   */
  lemma {:induction false} PassOutcome(es: seq<Element>, env: Effects, width: nat, height: nat, load: Loader)
    ensures DrawAll(es, env, width, height, load).ops == env.ops + DrawnAll(PassSplit(es, env, width, height, load).0, width, height)
    ensures DrawAll(es, env, width, height, load).errors == env.errors + PassSplit(es, env, width, height, load).1
  {
    if |es| > 0 {
      var init := es[..|es| - 1];
      var last := es[|es| - 1];
      var mid := DrawAll(init, env, width, height, load);
      var split := PassSplit(init, env, width, height, load);
      PassOutcome(init, env, width, height, load);
      DrawElementOutcome(last, mid, width, height, load);
      if Succeeds(last, mid, width, height, load) {
        assert (split.0 + [last])[..|split.0|] == split.0;
        ConcatAssoc(env.ops, DrawnAll(split.0, width, height), DrawnOps(last, width, height));
      } else {
        ConcatAssoc(env.errors, split.1, [last.id]);
      }
    }
  }

  /**
   * A redraw whatever its loads do: the clear, then the images drawn in
   * store order, then the frames drawn in store order, then every text; the
   * error log receives the ids of the images that failed, then those of the
   * frames that failed.
   */
  lemma RedrawOutcome(es: seq<Element>, env: Effects, width: nat, height: nat, load: Loader)
    ensures var cleared := env.(ops := env.ops + ClearOps(width, height));
      var images := PassSplit(OfKind(es, ImageKind), cleared, width, height, load);
      var frames := PassSplit(OfKind(es, FrameKind), DrawAll(OfKind(es, ImageKind), cleared, width, height, load),
                              width, height, load);
      var r := Redraw(es, env, width, height, load);
      r.ops == env.ops + ClearOps(width, height) + DrawnAll(images.0, width, height) + DrawnAll(frames.0, width, height)
               + DrawnAll(OfKind(es, TextKind), width, height)
      && r.errors == env.errors + images.1 + frames.1
  {
    var cleared := env.(ops := env.ops + ClearOps(width, height));
    var e1 := DrawAll(OfKind(es, ImageKind), cleared, width, height, load);
    var e2 := DrawAll(OfKind(es, FrameKind), e1, width, height, load);
    PassOutcome(OfKind(es, ImageKind), cleared, width, height, load);
    PassOutcome(OfKind(es, FrameKind), e1, width, height, load);
    TextsAlwaysDrawn(OfKind(es, TextKind), e2, width, height, load);
  }

  /** However the images and frames fare, a redraw ends with every text drawn, in store order. */
  lemma RedrawEndsWithTexts(es: seq<Element>, env: Effects, width: nat, height: nat, load: Loader)
    ensures var ops := Redraw(es, env, width, height, load).ops;
      var texts := DrawnAll(OfKind(es, TextKind), width, height);
      |texts| <= |ops| && ops[|ops| - |texts|..] == texts
  {
    var cleared := env.(ops := env.ops + ClearOps(width, height));
    var e1 := DrawAll(OfKind(es, ImageKind), cleared, width, height, load);
    var e2 := DrawAll(OfKind(es, FrameKind), e1, width, height, load);
    TextPass(es, e2, width, height, load);
  }

  /**
   * Images and frames share one cache: an image whose source text is a
   * frame's key fills the frame's entry in the image pass, so the frame pass
   * draws that raster and never loads the frame's SVG.
   */
  lemma ImageShadowsFrame(im: Element, fr: Element, env: Effects, width: nat, height: nat, load: Loader)
    requires im.data.Image? && fr.data.Frame?
    requires im.data.image.src == FrameKey(fr.data.frame, width, height)
    requires im.data.image.src !in env.cache
    requires load(FromUrl(im.data.image.src)).Some?
    ensures var key := im.data.image.src;
      var r := Redraw([im, fr], env, width, height, load);
      r.loads == env.loads + [FromUrl(key)] && r.errors == env.errors
      && key in r.cache && r.cache[key] == load(FromUrl(key)).value
  {
    RedrawImageThenFrame(im, fr, env, width, height, load);
  }

  /** A redraw of one image and one frame is the clear, the image's draw and then the frame's. */
  lemma RedrawImageThenFrame(im: Element, fr: Element, env: Effects, width: nat, height: nat, load: Loader)
    requires im.data.Image? && fr.data.Frame?
    ensures Redraw([im, fr], env, width, height, load)
         == DrawElement(fr, DrawElement(im, env.(ops := env.ops + ClearOps(width, height)), width, height, load),
                        width, height, load)
  {
    KindsOfImageThenFrame(im, fr);
    var cleared := env.(ops := env.ops + ClearOps(width, height));
    DrawAllOne(im, cleared, width, height, load);
    DrawAllOne(fr, DrawElement(im, cleared, width, height, load), width, height, load);
  }

  lemma KindsOfImageThenFrame(im: Element, fr: Element)
    requires im.data.Image? && fr.data.Frame?
    ensures OfKind([im, fr], ImageKind) == [im]
    ensures OfKind([im, fr], FrameKind) == [fr]
    ensures OfKind([im, fr], TextKind) == []
  {
    OfKindSingle(im, ImageKind);
    OfKindSingle(fr, ImageKind);
    OfKindSingle(im, FrameKind);
    OfKindSingle(fr, FrameKind);
    OfKindSingle(im, TextKind);
    OfKindSingle(fr, TextKind);
    OfKindConcat([im], [fr], ImageKind);
    OfKindConcat([im], [fr], FrameKind);
    OfKindConcat([im], [fr], TextKind);
    assert [im, fr] == [im] + [fr];
  }

  lemma DrawAllOne(e: Element, env: Effects, width: nat, height: nat, load: Loader)
    ensures DrawAll([e], env, width, height, load) == DrawElement(e, env, width, height, load)
  {
    assert [e][..0] == [];
  }
}
