/**
 * The editor's bookkeeping as values: element ids and the id counter, the
 * store edits of removal and update, the shallow merge of an update, and
 * the cache key of a frame.
 */
module Store {

  import opened Types
  import opened Strings
  import opened ImageUtils

  // ---------------------------------------------------------------------
  // Element ids
  // ---------------------------------------------------------------------

  /** The `type` field of an element: "text", "image" or "frame". */
  function KindName(k: Kind): (name: string)
    ensures |name| >= 4 && '-' !in name
  {
    match k
    case TextKind => "text"
    case ImageKind => "image"
    case FrameKind => "frame"
  }

  /** The id an add mints: `<type>-<n>`. */
  function IdFor(k: Kind, n: nat): string {
    KindName(k) + "-" + NatToString(n)
  }

  lemma DigitsHaveNoDash(n: nat)
    ensures '-' !in NatToString(n)
  {
  }

  /** The decimal text of an integer starts with a minus sign or a digit. */
  lemma IntTextStart(v: int)
    ensures IntToString(v)[0] == '-' || IsDigit(IntToString(v)[0])
  {
  }

  /** Different kinds or different counters always give different ids. */
  lemma IdForInjective(k1: Kind, n1: nat, k2: Kind, n2: nat)
    requires IdFor(k1, n1) == IdFor(k2, n2)
    ensures k1 == k2 && n1 == n2
  {
    DigitsHaveNoDash(n1);
    DigitsHaveNoDash(n2);
    SplitAtLast(KindName(k1), NatToString(n1), KindName(k2), NatToString(n2), '-');
    NatToStringInjective(n1, n2);
  }

  predicate UniqueIds(es: seq<Element>) {
    forall i, j :: 0 <= i < j < |es| ==> es[i].id != es[j].id
  }

  /** The id was minted for kind k from one of the counter values below n. */
  predicate IssuedBelow(id: string, k: Kind, n: nat) {
    n > 0 && (id == IdFor(k, n - 1) || IssuedBelow(id, k, n - 1))
  }

  /** An id minted below n differs from the id minted from n itself. */
  lemma {:induction false} IssuedBelowIsNotFresh(id: string, k: Kind, n: nat, k2: Kind, n2: nat)
    requires IssuedBelow(id, k, n) && n <= n2
    ensures id != IdFor(k2, n2)
  {
    if id == IdFor(k, n - 1) {
      if id == IdFor(k2, n2) {
        IdForInjective(k, n - 1, k2, n2);
      }
    } else {
      IssuedBelowIsNotFresh(id, k, n - 1, k2, n2);
    }
  }

  /** Every id in the store was minted for its element's kind from a counter value below n. */
  predicate AllIssued(es: seq<Element>, n: nat) {
    forall i :: 0 <= i < |es| ==> IssuedBelow(es[i].id, es[i].data.Kind(), n)
  }

  /** Advancing the counter keeps every id issued. */
  lemma AllIssuedGrows(es: seq<Element>, n: nat)
    requires AllIssued(es, n)
    ensures AllIssued(es, n + 1)
  {
    forall i | 0 <= i < |es|
      ensures IssuedBelow(es[i].id, es[i].data.Kind(), n + 1)
    {
    }
  }

  /** The id minted from the counter's current value is held by no stored element. */
  lemma MintedIsFresh(es: seq<Element>, n: nat, k: Kind)
    requires AllIssued(es, n)
    ensures forall j :: 0 <= j < |es| ==> es[j].id != IdFor(k, n)
  {
    forall j | 0 <= j < |es|
      ensures es[j].id != IdFor(k, n)
    {
      IssuedBelowIsNotFresh(es[j].id, es[j].data.Kind(), n, k, n);
    }
  }

  /** Appending an element under an issued id no stored element holds keeps the ids unique and issued. */
  lemma AppendIssued(es: seq<Element>, n: nat, e: Element)
    requires UniqueIds(es) && AllIssued(es, n)
    requires IssuedBelow(e.id, e.data.Kind(), n)
    requires forall j :: 0 <= j < |es| ==> es[j].id != e.id
    ensures UniqueIds(es + [e]) && AllIssued(es + [e], n)
  {
  }

  // ---------------------------------------------------------------------
  // Finding, removing and updating elements
  // ---------------------------------------------------------------------

  /** `findIndex(element => element.id === id)`: the first index holding the id. */
  function IndexOf(es: seq<Element>, id: string): (r: Option<nat>)
    ensures r.Some? ==> r.value < |es| && es[r.value].id == id
    ensures r.Some? ==> forall j :: 0 <= j < r.value ==> es[j].id != id
    ensures r.None? <==> forall j :: 0 <= j < |es| ==> es[j].id != id
  {
    if |es| == 0 then None
    else if es[0].id == id then Some(0)
    else match IndexOf(es[1..], id)
      case None => None
      case Some(k) => Some(k + 1)
  }

  /** `splice(i, 1)`: the elements without the one at i. */
  function RemoveAt(es: seq<Element>, i: nat): (r: seq<Element>)
    requires i < |es|
    ensures |r| == |es| - 1
    ensures forall j :: 0 <= j < i ==> r[j] == es[j]
    ensures forall j :: i <= j < |r| ==> r[j] == es[j + 1]
    ensures multiset(r) + multiset{es[i]} == multiset(es)
  {
    assert es == es[..i] + [es[i]] + es[i + 1..];
    es[..i] + es[i + 1..]
  }

  /** Removing an element keeps the remaining ids unique and issued, and its id is gone. */
  lemma RemoveAtKeepsIds(es: seq<Element>, i: nat, n: nat)
    requires i < |es| && UniqueIds(es) && AllIssued(es, n)
    ensures UniqueIds(RemoveAt(es, i)) && AllIssued(RemoveAt(es, i), n)
    ensures forall j :: 0 <= j < |RemoveAt(es, i)| ==> RemoveAt(es, i)[j].id != es[i].id
  {
  }

  /** The store after element i's payload is replaced; its id stays. */
  function ReplaceData(es: seq<Element>, i: nat, data: ElementData): (r: seq<Element>)
    requires i < |es|
    ensures |r| == |es| && r[i] == Element(es[i].id, data)
    ensures forall j :: 0 <= j < |es| && j != i ==> r[j] == es[j]
  {
    es[i := Element(es[i].id, data)]
  }

  /** A payload replacement of the same kind keeps ids unique and issued. */
  lemma ReplaceDataKeepsIds(es: seq<Element>, i: nat, data: ElementData, n: nat)
    requires i < |es| && UniqueIds(es) && AllIssued(es, n)
    requires data.Kind() == es[i].data.Kind()
    ensures UniqueIds(ReplaceData(es, i, data)) && AllIssued(ReplaceData(es, i, data), n)
  {
  }

  // ---------------------------------------------------------------------
  // The shallow merge of updateElement and the position write
  // ---------------------------------------------------------------------

  /**
   * `{ ...element.data, ...data }`: every field the partial carries replaces
   * the element's field of the same name; the others keep their values.
   */
  function Merge(d: ElementData, p: Patch): (r: ElementData)
    ensures r.Kind() == d.Kind()
  {
    match d
    case Text(t) =>
      Text(TextData(p.text.GetOr(t.text), p.color.GetOr(t.color), p.fontSize.GetOr(t.fontSize),
                    p.fontFamily.GetOr(t.fontFamily), p.position.GetOr(t.position), p.weight.GetOr(t.weight)))
    case Image(im) =>
      Image(ImageData(p.src.GetOr(im.src), p.opacity.GetOr(im.opacity), p.position.Or(im.position), p.size.Or(im.size)))
    case Frame(f) =>
      Frame(FrameData(p.color.GetOr(f.color), p.style.GetOr(f.style), p.borderRadius.Or(f.borderRadius),
                      p.position.Or(f.position), p.size.Or(f.size)))
  }

  const EmptyPatch := Patch(None, None, None, None, None, None, None, None, None, None, None)

  /** A partial carrying only a position. */
  function PositionPatch(pos: Point): Patch {
    EmptyPatch.(position := Some(pos))
  }

  /** `(element.data as any).position = position`. */
  function SetPosition(d: ElementData, pos: Point): (r: ElementData)
    ensures r.Kind() == d.Kind()
  {
    match d
    case Text(t) => Text(t.(position := pos))
    case Image(im) => Image(im.(position := Some(pos)))
    case Frame(f) => Frame(f.(position := Some(pos)))
  }

  /** An empty partial changes nothing. */
  lemma MergeEmpty(d: ElementData)
    ensures Merge(d, EmptyPatch) == d
  {
  }

  /** Applying the same partial twice is the same as applying it once. */
  lemma MergeIdempotent(d: ElementData, p: Patch)
    ensures Merge(Merge(d, p), p) == Merge(d, p)
  {
  }

  /**
   * Field by field: a field the partial carries takes the partial's value,
   * a field it lacks keeps the element's value; the kind never changes.
   */
  lemma MergeFields(d: ElementData, p: Patch)
    ensures d.Text? ==>
      var r := Merge(d, p);
      r.Text?
      && r.text.text == (if p.text.Some? then p.text.value else d.text.text)
      && r.text.color == (if p.color.Some? then p.color.value else d.text.color)
      && r.text.fontSize == (if p.fontSize.Some? then p.fontSize.value else d.text.fontSize)
      && r.text.fontFamily == (if p.fontFamily.Some? then p.fontFamily.value else d.text.fontFamily)
      && r.text.position == (if p.position.Some? then p.position.value else d.text.position)
      && r.text.weight == (if p.weight.Some? then p.weight.value else d.text.weight)
    ensures d.Image? ==>
      var r := Merge(d, p);
      r.Image?
      && r.image.src == (if p.src.Some? then p.src.value else d.image.src)
      && r.image.opacity == (if p.opacity.Some? then p.opacity.value else d.image.opacity)
      && r.image.position == (if p.position.Some? then p.position else d.image.position)
      && r.image.size == (if p.size.Some? then p.size else d.image.size)
    ensures d.Frame? ==>
      var r := Merge(d, p);
      r.Frame?
      && r.frame.color == (if p.color.Some? then p.color.value else d.frame.color)
      && r.frame.style == (if p.style.Some? then p.style.value else d.frame.style)
      && r.frame.borderRadius == (if p.borderRadius.Some? then p.borderRadius else d.frame.borderRadius)
      && r.frame.position == (if p.position.Some? then p.position else d.frame.position)
      && r.frame.size == (if p.size.Some? then p.size else d.frame.size)
  {
  }

  /** The partial `{ ...p, ...q }`: q's fields win, p's fill in the rest. */
  function Override(p: Patch, q: Patch): Patch {
    Patch(q.text.Or(p.text), q.color.Or(p.color), q.fontSize.Or(p.fontSize), q.fontFamily.Or(p.fontFamily),
          q.position.Or(p.position), q.weight.Or(p.weight), q.src.Or(p.src), q.opacity.Or(p.opacity),
          q.size.Or(p.size), q.style.Or(p.style), q.borderRadius.Or(p.borderRadius))
  }

  /** Two updates in a row are one update with the combined partial. */
  lemma MergeComposes(d: ElementData, p: Patch, q: Patch)
    ensures Merge(Merge(d, p), q) == Merge(d, Override(p, q))
  {
  }

  /** Merging a position-only partial is exactly the position write of updateElementPosition. */
  lemma MergePositionIsSetPosition(d: ElementData, pos: Point)
    ensures Merge(d, PositionPatch(pos)) == SetPosition(d, pos)
  {
  }

  // ---------------------------------------------------------------------
  // The frame cache key
  // ---------------------------------------------------------------------

  function StyleName(s: FrameStyle): (name: string)
    ensures |name| >= 5 && '-' !in name
  {
    match s
    case Solid => "solid"
    case Dashed => "dashed"
    case Double => "double"
  }

  /** `${borderRadius}`: the decimal text of the radius, or "undefined" when it is absent. */
  function RadiusText(r: Option<int>): string {
    match r
    case None => "undefined"
    case Some(v) => IntToString(v)
  }

  /** `frame-${color}-${style}-${borderRadius}-${width}-${height}`, built alike for eviction and for drawing. */
  function FrameKey(f: FrameData, width: nat, height: nat): string {
    "frame-" + f.color + "-" + StyleName(f.style) + "-" + RadiusText(f.borderRadius) + "-"
      + NatToString(width) + "-" + NatToString(height)
  }

  lemma RadiusTextInjective(r1: Option<int>, r2: Option<int>)
    requires RadiusText(r1) == RadiusText(r2)
    ensures r1 == r2
  {
    if r1.Some? && r2.Some? {
      IntToStringInjective(r1.value, r2.value);
    } else if r1.Some? {
      IntTextStart(r1.value);
      assert false;
    } else if r2.Some? {
      IntTextStart(r2.value);
      assert false;
    }
  }

  /** `q + "-" + RadiusText(r)` determines q and r when q does not end in a dash. */
  lemma RadiusSuffix(q1: string, r1: Option<int>, q2: string, r2: Option<int>)
    requires |q1| >= 1 && q1[|q1| - 1] != '-' && |q2| >= 1 && q2[|q2| - 1] != '-'
    requires q1 + "-" + RadiusText(r1) == q2 + "-" + RadiusText(r2)
    ensures q1 == q2 && r1 == r2
  {
    var neg1 := r1.Some? && r1.value < 0;
    var neg2 := r2.Some? && r2.value < 0;
    if !neg1 && !neg2 {
      RadiusDashFree(r1);
      RadiusDashFree(r2);
      SplitAtLast(q1, RadiusText(r1), q2, RadiusText(r2), '-');
      RadiusTextInjective(r1, r2);
    } else if neg1 && neg2 {
      NegativeRadii(q1, r1.value, q2, r2.value);
    } else if neg1 {
      NegativeAgainstDashFree(q1, r1.value, q2, r2);
      assert false;
    } else {
      NegativeAgainstDashFree(q2, r2.value, q1, r1);
      assert false;
    }
  }

  lemma RadiusDashFree(r: Option<int>)
    requires r.None? || r.value >= 0
    ensures '-' !in RadiusText(r)
  {
    if r.Some? {
      DigitsHaveNoDash(r.value);
    }
  }

  /** A negative radius writes a second dash: `q + "-" + "-" + digits`. */
  lemma NegativeRadiusText(q: string, v: int)
    requires v < 0
    ensures q + "-" + RadiusText(Some(v)) == (q + "-") + "-" + NatToString(-v)
    ensures '-' !in NatToString(-v)
  {
    DigitsHaveNoDash(-v);
  }

  lemma NegativeRadii(q1: string, v1: int, q2: string, v2: int)
    requires v1 < 0 && v2 < 0
    requires q1 + "-" + RadiusText(Some(v1)) == q2 + "-" + RadiusText(Some(v2))
    ensures q1 == q2 && v1 == v2
  {
    NegativeRadiusText(q1, v1);
    NegativeRadiusText(q2, v2);
    SplitAtLast(q1 + "-", NatToString(-v1), q2 + "-", NatToString(-v2), '-');
    SameBeforeDash(q1, q2);
    NatToStringInjective(-v1, -v2);
  }

  lemma SameBeforeDash(q1: string, q2: string)
    requires q1 + "-" == q2 + "-"
    ensures q1 == q2
  {
    assert q1 == (q1 + "-")[..|q1|];
    assert q2 == (q2 + "-")[..|q2|];
  }

  /** Against a radius text without a dash, a negative radius forces the other prefix to end in a dash. */
  lemma NegativeAgainstDashFree(q1: string, v1: int, q2: string, r2: Option<int>)
    requires v1 < 0 && (r2.None? || r2.value >= 0)
    requires q1 + "-" + RadiusText(Some(v1)) == q2 + "-" + RadiusText(r2)
    ensures q2 == q1 + "-"
  {
    NegativeRadiusText(q1, v1);
    RadiusDashFree(r2);
    SplitAtLast(q1 + "-", NatToString(-v1), q2, RadiusText(r2), '-');
  }

  /** Equal frame keys come from equal colour, style, radius and canvas size. */
  lemma FrameKeyInjective(f1: FrameData, w1: nat, h1: nat, f2: FrameData, w2: nat, h2: nat)
    requires FrameKey(f1, w1, h1) == FrameKey(f2, w2, h2)
    ensures f1.color == f2.color && f1.style == f2.style && f1.borderRadius == f2.borderRadius
    ensures w1 == w2 && h1 == h2
  {
    var c1 := "frame-" + f1.color;
    var c2 := "frame-" + f2.color;
    var q1 := c1 + "-" + StyleName(f1.style);
    var q2 := c2 + "-" + StyleName(f2.style);
    var p1 := q1 + "-" + RadiusText(f1.borderRadius);
    var p2 := q2 + "-" + RadiusText(f2.borderRadius);
    DigitsHaveNoDash(w1);
    DigitsHaveNoDash(w2);
    DigitsHaveNoDash(h1);
    DigitsHaveNoDash(h2);
    assert FrameKey(f1, w1, h1) == (p1 + "-" + NatToString(w1)) + "-" + NatToString(h1);
    assert FrameKey(f2, w2, h2) == (p2 + "-" + NatToString(w2)) + "-" + NatToString(h2);
    SplitAtLast(p1 + "-" + NatToString(w1), NatToString(h1), p2 + "-" + NatToString(w2), NatToString(h2), '-');
    NatToStringInjective(h1, h2);
    SplitAtLast(p1, NatToString(w1), p2, NatToString(w2), '-');
    NatToStringInjective(w1, w2);
    assert q1[|q1| - 1] == StyleName(f1.style)[|StyleName(f1.style)| - 1];
    assert q2[|q2| - 1] == StyleName(f2.style)[|StyleName(f2.style)| - 1];
    RadiusSuffix(q1, f1.borderRadius, q2, f2.borderRadius);
    SplitAtLast(c1, StyleName(f1.style), c2, StyleName(f2.style), '-');
    assert f1.color == c1[6..] && f2.color == c2[6..];
  }

  /**
   * Frames with equal cache keys have equal SVG, so among frames a cached
   * entry is the image of the SVG its key stands for. Images share the
   * cache under their source text, which this does not cover.
   */
  lemma FrameKeySameSvg(f1: FrameData, w1: nat, h1: nat, f2: FrameData, w2: nat, h2: nat)
    requires FrameKey(f1, w1, h1) == FrameKey(f2, w2, h2)
    ensures GenerateFrameSvg(f1, w1, h1) == GenerateFrameSvg(f2, w2, h2)
  {
    FrameKeyInjective(f1, w1, h1, f2, w2, h2);
    FrameSvgIgnoresPlacement(f1, f2.position, f2.size, w1, h1);
    assert f1.(position := f2.position, size := f2.size) == f2;
  }
}
