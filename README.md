# Image editor core in Dafny

This project models the core of a browser image editor. The `ImageEditor` class keeps an ordered store of
text, image and frame elements, one id counter shared by all kinds, and an image cache. It draws the
store onto a canvas: a white clear, then the images, the frames and the texts, with each element's draw
isolated in its own try/catch. Beside it are the helpers that lay text out (`drawText`), describe a
frame's SVG (`generateFrameSvg`), wrap text greedily (`getWrappedLines`) and turn a base64 data URL into
bytes (`dataURLtoBlob`).

Modules:

- `Types` (types.dfy) holds the element kinds as one tagged union, the partial record of an update, the
  options of an image insertion, and the calls a 2D context receives (`DrawOp`).
- `Strings` (strings.dfy) holds the decimal text of numbers as a template literal writes it, and `split`
  and `join` with a one-character separator, with their round trips.
- `Base64` (base64.dfy) holds `atob`: the forgiving-base64 decode of the WHATWG Infra standard, over the
  alphabet of section 4 of RFC 4648. Beside it is the canonical encoder of that section, given as its
  inverse.
- `ImageUtils` (image_utils.dfy) holds `drawText` and `getWrappedLines`, written as loops proved against
  specification functions. It also holds `generateFrameSvg` as a structured SVG value, and
  `dataURLtoBlob` with its byte-array copy loop.
- `Store` (store.dfy) holds the editor's bookkeeping as values: id minting, the store edits of removal
  and update, the shallow merge of an update, and the frame cache key.
- `Composer` (composer.dfy) holds one redraw pass as a function from the store and an `Effects` record to
  a new `Effects` record. The record holds the context's call log, the cache, the log of `loadImage`
  calls and the log of console errors.
- `Editor` (image_editor.dfy) holds `class ImageEditor`. Its fields `elements`, `nextId` and `imageCache`
  are updated in place; `canvas`, `loads` and `errors` are the append-only logs. Every method is proved
  against the `Store` and `Composer` functions. `Valid()` is the class invariant: the counter starts at 1 and every
  id was minted for its own kind from an earlier counter value, so the ids are distinct.

Browser parts are parameters of the model:

- `loadImage` is a `Loader`, a function from a request (an image URL, or a frame's SVG) to a natural size
  or a failure.
- `ctx.measureText(s).width` is a function `measure(font, s)`.
- The presence of a 2D context is a boolean passed to `ImageEditor.Create`.

Images and frames share one cache. An image is cached under its `src` and a frame under
`frame-<color>-<style>-<radius>-<width>-<height>`. So an image whose `src` is exactly a frame's key
fills that frame's entry, and the frame pass then draws the image's raster without loading the frame's
SVG. `Composer.ImageShadowsFrame` states this for a store of one such image and one frame. Frame keys
are apart from each other: two frames with equal keys have the same SVG.

## Model

| member | source | states |
|---|---|---|
| Editor.ImageEditor.Create | src/ImageEditor.ts:18-26 | construction fails (None) exactly when the canvas has no 2D context; otherwise the editor is fresh, valid and empty, with the canvas size |
| Editor.ImageEditor.constructor | src/ImageEditor.ts:8-26 | starts with an empty store, counter 1 and an empty cache, then performs one redraw from empty logs |
| Editor.ImageEditor.MintId | src/ImageEditor.ts:34 | the id is `<type>-<nextId>` and the counter advances by one; no stored element holds the id |
| Editor.ImageEditor.Push | src/ImageEditor.ts:35-39 | appends exactly one element at the end and keeps the ids unique |
| Editor.ImageEditor.AddText | src/ImageEditor.ts:33-42 | appends one text element under `text-N`, where N is the old counter, which advances by one; the id is new to the store; then one redraw |
| Editor.ImageEditor.AddImage | src/ImageEditor.ts:50-84 | the counter always advances; the image is taken from the cache when present, else loaded once and cached under its source; a failed load leaves the store, canvas and errors as they were; on success it appends `image-N` with the defaults of InsertedImage and redraws |
| Editor.InsertedImage | src/ImageEditor.ts:63-76 | the stored image keeps the requested `src` and always has a position and a size |
| Editor.InsertedImageMeaning | src/ImageEditor.ts:63-76 | the stored opacity is the requested one unless it is absent or 0, when it is 1; the position defaults to the canvas centre; the default size has the canvas height and keeps the natural aspect ratio (width × natural height = height × natural width) |
| Editor.ImageEditor.AddFrame | src/ImageEditor.ts:91-100 | appends one frame element under `frame-N` and advances the counter; then one redraw |
| Store.IdForInjective | src/ImageEditor.ts:34 | two ids are equal only when they have the same kind and the same counter value, so the shared counter gives distinct ids across kinds |
| Store.MintedIsFresh | src/ImageEditor.ts:34 | the id minted from the current counter differs from every id issued earlier |
| Store.AppendIssued | src/ImageEditor.ts:35-39 | appending under an issued id that no stored element holds keeps the ids unique and issued |
| Store.IndexOf | src/ImageEditor.ts:108 | the first index holding the id, or None exactly when no element holds it |
| Editor.ImageEditor.RemoveElement | src/ImageEditor.ts:107-115 | an unknown id returns false and changes nothing; otherwise the first element with the id is removed, the redraw follows, and no remaining element holds the id |
| Store.RemoveAt | src/ImageEditor.ts:112 | the list is one shorter, the elements before the index stay and those after it shift down by one in order; the multiset loses exactly the removed element |
| Store.RemoveAtKeepsIds | src/ImageEditor.ts:112 | removal keeps the ids unique and issued, and the removed id is gone |
| Editor.ImageEditor.RemoveAllElements | src/ImageEditor.ts:120-123 | the store becomes empty; the counter and the cache are kept; then one redraw |
| Editor.ImageEditor.UpdateElement | src/ImageEditor.ts:131-147 | an unknown id returns false and changes nothing; otherwise only the target's data changes, to the merge, after the cache entry under a frame's pre-merge key is dropped; then one redraw |
| Editor.ImageEditor.EvictFrame | src/ImageEditor.ts:138-142 | a frame's entry under its current key is dropped; other kinds leave the cache as it is |
| Editor.Evict | src/ImageEditor.ts:138-142 | for a frame, the key is absent afterwards and every other entry stays; for a text or image, the cache is unchanged |
| Editor.UpdatedFrameNextFetch | src/ImageEditor.ts:138-144 | the merged frame fetches under the evicted key exactly when the partial keeps its colour, style and radius, and always when the partial carries none of them; then a fetch under that key from the evicted cache misses and logs one load of the merged frame's SVG (within the same redraw an image whose `src` is that key, or an earlier frame with the same key, may refill the entry first); otherwise the merged frame's key is another one, whose presence and entry eviction left untouched |
| Store.ReplaceData | src/ImageEditor.ts:144 | only the target's data changes; its id and every other element stay |
| Store.ReplaceDataKeepsIds | src/ImageEditor.ts:144 | a same-kind data change keeps the ids unique and issued |
| Store.Merge | src/ImageEditor.ts:144 | the merge keeps the element's kind |
| Store.MergeFields | src/ImageEditor.ts:144 | field by field, a field the partial carries takes its value, and a field it lacks keeps the old value |
| Store.MergeEmpty | src/ImageEditor.ts:144 | an empty partial changes nothing |
| Store.MergeIdempotent | src/ImageEditor.ts:144 | applying the same partial twice equals applying it once |
| Store.MergeComposes | src/ImageEditor.ts:144 | two updates in a row equal one update with `{ ...p, ...q }` |
| Editor.ImageEditor.UpdateElementPosition | src/ImageEditor.ts:155-163 | an unknown id returns false and changes nothing; otherwise only the target's position is replaced; then one redraw |
| Store.MergePositionIsSetPosition | src/ImageEditor.ts:160 | writing the position equals merging a partial that carries only the position |
| Store.FrameKeyInjective | src/ImageEditor.ts:231 | equal frame keys mean equal colour, style, radius and canvas size |
| Store.FrameKeySameSvg | src/ImageEditor.ts:225-231 | two frames with equal keys have the same SVG, so one frame never gets another frame's cached image |
| Store.RadiusTextInjective | src/ImageEditor.ts:231 | the radius text (`undefined` for no radius) differs for different radii |
| Editor.ImageEditor.Redraw | src/ImageEditor.ts:168-182 | the white full-canvas clear, then the image pass, the frame pass and the text pass; the store and counter are untouched |
| Editor.ImageEditor.DrawElementsByType | src/ImageEditor.ts:188-191 | the elements of one kind are drawn in store order, each from the state the previous one left |
| Editor.ImageEditor.DrawOne | src/ImageEditor.ts:192-245 | one element's try block: a text is drawn at once; an image or frame is fetched first, and is drawn when that succeeds and otherwise its id is logged |
| Editor.ImageEditor.FetchImage | src/ImageEditor.ts:198-239 | a cached image is used without a load; otherwise one load is made and logged, and a success is cached under the key |
| Composer.Fetch | src/ImageEditor.ts:198-239 | the flag says whether the key is now cached; a hit changes nothing; a miss logs one load and caches the result if there is one |
| Composer.DrawElementOutcome | src/ImageEditor.ts:192-245 | a draw is all or nothing: all of the element's calls and no log, or for an image or frame no call and exactly its id logged; cached entries are never lost |
| Composer.ImageCentredOnPosition | src/ImageEditor.ts:205-219 | an image draw is save, alpha, drawImage, restore; the image is centred on its position (default: canvas centre) at its size (default: canvas size) |
| Composer.OfKind | src/ImageEditor.ts:189 | holds exactly the elements of the kind, drawn from the store |
| Composer.OfKindConcat | src/ImageEditor.ts:189 | filtering distributes over concatenation, so the group keeps store order and multiplicity |
| Composer.OfKindPartition | src/ImageEditor.ts:175-189 | the three passes together draw every element exactly once |
| Composer.PassOutcome | src/ImageEditor.ts:191-246 | a failure never stops a pass: every element is either drawn in full, in order, or logged by id |
| Composer.DrawAllExtends | src/ImageEditor.ts:191-246 | a pass only appends to the call, load and error logs and never evicts a cache entry |
| Composer.DrawAllClean | src/ImageEditor.ts:191-246 | a pass that logs nothing drew every element in order and left every image and frame cached |
| Composer.DrawAllWarm | src/ImageEditor.ts:198-239 | when every image and frame is cached, a pass loads nothing, logs nothing and draws everything |
| Composer.TextsAlwaysDrawn | src/ImageEditor.ts:220-222 | a text pass always draws every text, in order |
| Composer.RedrawStartsWithClear | src/ImageEditor.ts:170-171 | every redraw starts with the white clear of the whole canvas |
| Composer.RedrawTextOnTop | src/ImageEditor.ts:173-181 | within a redraw no image or frame is drawn after a line of text |
| Composer.RedrawEndsWithTexts | src/ImageEditor.ts:180-181 | however the images and frames fare, a redraw ends with every text drawn in store order |
| Composer.RedrawClean | src/ImageEditor.ts:168-182 | a redraw that logs no error draws clear, images, frames and texts in full and leaves all images and frames cached |
| Composer.RedrawWarm | src/ImageEditor.ts:168-182 | with every image and frame cached, a redraw leaves the cache and the load and error logs unchanged and draws the full picture |
| Composer.RedrawOutcome | src/ImageEditor.ts:168-182 | whatever the loads do: the clear, then the images that drew, in store order, then the frames that drew, in store order, then every text; the error log gets the failed images' ids, then the failed frames' ids |
| Composer.ImageShadowsFrame | src/ImageEditor.ts:198-238 | when that key is not yet cached and the URL loads, an image whose `src` equals a frame's key is loaded once by its URL, and the frame is then drawn from that entry: the redraw makes no other load and logs no error |
| Composer.RedrawFromCache | src/ImageEditor.ts:168-247 | after a redraw that logged no error, the next redraw loads nothing, logs nothing, keeps the cache and repeats the same calls |
| Editor.ImageEditor.GetElements | src/ImageEditor.ts:263-265 | returns the store's elements in order |
| ImageUtils.DrawText | src/utils/imageUtils.ts:22-40 | the calls equal TextOps: fill style, font, centre alignment, middle baseline, then one fill per line |
| ImageUtils.TextOpsShape | src/utils/imageUtils.ts:23-39 | four setup calls, then exactly one fill per `\n`-separated line, in order, at x = position.x and y = first baseline + i × 1.2 × fontSize |
| ImageUtils.TextFillsCoverText | src/utils/imageUtils.ts:29-39 | joining the filled lines with `\n` gives the text back |
| ImageUtils.TextBlockCentred | src/utils/imageUtils.ts:32-38 | the number of fills is the number of lines, and their y values sum to n × position.y, so the block is centred on position.y |
| ImageUtils.LineFillsClosed | src/utils/imageUtils.ts:34-39 | line i is filled at the first baseline plus i line heights |
| ImageUtils.EffectiveRadius | src/utils/imageUtils.ts:54 | the radius is borderRadius unless it is absent or 0, when it is 20 |
| ImageUtils.GenerateFrameSvg | src/utils/imageUtils.ts:49-66 | an outer width×height rect with stroke colour and width 10, dashed `20 10` only for dashed; a second rect at (20,20) of size (width−40, height−40) with radius r−10 only for double |
| ImageUtils.FrameSvgIgnoresPlacement | src/utils/imageUtils.ts:49-66 | the SVG never depends on the frame's position or size |
| ImageUtils.GetWrappedLines | src/utils/imageUtils.ts:78-111 | the lines equal the greedy wrap of each `\n`-separated paragraph, in order |
| ImageUtils.WrapWords | src/utils/imageUtils.ts:92-107 | the greedy wrap of a paragraph of at least one word has at least one line |
| ImageUtils.WrapParagraph | src/utils/imageUtils.ts:92-107 | the inner loop yields the greedy wrap of one paragraph |
| ImageUtils.WrappedLinesCount | src/utils/imageUtils.ts:89-110 | at least one line per paragraph |
| ImageUtils.ParagraphLinesJoin | src/utils/imageUtils.ts:92-107 | joining a paragraph's lines with one space gives the paragraph back |
| ImageUtils.ParagraphLinesGreedy | src/utils/imageUtils.ts:95-104 | every line with a space was measured below maxWidth, and every break happened because the next word did not fit |
| ImageUtils.DataUrlToBlob | src/utils/imageUtils.ts:118-130 | the result equals ParseDataUrl: a missing media type and an atob error are failures |
| ImageUtils.StoreCharCodes | src/utils/imageUtils.ts:122-127 | a new array with one byte per decoded character, each the character's code |
| ImageUtils.ParseDataUrlMeaning | src/utils/imageUtils.ts:119-129 | success carries the media type between `:` and `;` before the first comma, and bytes equal to the decoded character codes; it fails exactly when there is no media type or atob rejects the payload |
| ImageUtils.DataUrlRoundTrip | src/utils/imageUtils.ts:118-130 | `data:<mime>;base64,<encoding of bytes>` converts back to exactly those bytes and that media type |
| ImageUtils.SemicolonFrom | src/utils/imageUtils.ts:120 | the first `;` at or after a position, with neither `;` nor a line terminator before it; None exactly when every `;` from there on has a line terminator before it |
| ImageUtils.MatchFrom | src/utils/imageUtils.ts:120 | the matched media type holds no `;` and no line terminator |
| ImageUtils.MatchFromNone | src/utils/imageUtils.ts:120 | there is no match exactly when no colon from the position on is followed by a `;` before a line terminator |
| ImageUtils.MatchFromSome | src/utils/imageUtils.ts:120 | a match is the text between the leftmost colon that a `;` follows before a line terminator and that `;`; no earlier colon opens a match |
| Base64.AtobEncode | src/utils/imageUtils.ts:121 | atob decodes the canonical base64 encoding of any bytes back to the binary string of those bytes |
| Base64.Atob | src/utils/imageUtils.ts:121 | a decoded string holds only character codes below 256 |
| Strings.JoinSplit | src/utils/imageUtils.ts:30 | joining the pieces of a split yields the string |
| Strings.SplitJoin | src/utils/imageUtils.ts:30 | splitting a join of separator-free pieces yields the pieces |
| Strings.ParseNatToString | src/ImageEditor.ts:34 | the decimal text of a counter reads back as the counter |

## Left out

- The async interleaving of redraws is left out. Every mutator starts an un-awaited `redraw`, and so does
  the constructor. The model runs each redraw to completion over the current store before the next
  call. `AddImage` is modelled as running to completion as well.
- `loadImage` is opaque browser I/O. It is a function parameter that maps a request to a natural size or
  a failure, and the same request always gives the same answer. A failed load is the only draw failure
  modelled; `drawImage` and `fillText` are taken never to throw.
- The frame request is abstract. It is the structured SVG (`FromSvg`), not the
  `data:image/svg+xml,<encodeURIComponent(svg)>` text: the SVG text serialisation and URI encoding are
  left out.
- Pixels are not modelled. The canvas is the log of context calls, and a drawn image is named by its cache
  key.
- Coordinates, sizes, opacity and aspect ratios are exact reals, not IEEE doubles. `fontSize`, the frame
  radius and the canvas size are integers. So the decimal text in keys is the integer text, and NaN and
  infinities do not arise.
- A loaded image always has a height of at least 1. The model therefore does not cover the
  division by zero that an image of height 0 would cause in `addImage`.
- Editor.ImageEditor: the canvas size is fixed when the editor is built (`const width`, `const height`).
  The code reads `canvas.width` and `canvas.height` on every use, and a caller may resize the canvas. A
  resize under a live editor is not modelled: it would change the cleared area, the defaults of later
  images and frames, and the frame keys.
- Editor.ImageEditor.AddImage: `options?.opacity || 1` is modelled for an absent or zero opacity only.
  NaN, the other falsy value, does not exist in the model.
- Editor.ImageEditor.UpdateElement: a partial is a record of optional fields. So it cannot carry a field
  set explicitly to `undefined`. Nor can it carry, in a way that is then seen, a field of another kind
  (an extra `src` on a text, say), which the spread would copy but drawing ignores.
- Store.IdForInjective, Store.MintedIsFresh: the counter is an unbounded `nat`. In the code `nextId` is a
  JavaScript number; from 2^53 on, `nextId++` no longer changes it and ids repeat. That is not modelled.
- Editor.ImageEditor.AddText, Editor.ImageEditor.AddFrame: the model stores a copy of the payload. The
  code stores the caller's own object, so the later in-place write of `updateElementPosition` also changes
  the caller's object. Two elements added from one caller object share it in the code, so a position
  update of one moves both. That aliasing is not modelled.
- Editor.ImageEditor.UpdateElementPosition: the position is written into a new value of the element. The
  code writes it into the stored object in place, which may be the caller's object (see above).
- ImageUtils.GetWrappedLines: the font is passed to `measure`. The code also assigns it to `ctx.font`,
  and that assignment stays on the context after the call. The model has no context here, so this
  effect is not modelled.
- Editor.ImageEditor.GetElements: the result is a value. The shallow copy in the code shares the element
  objects with the store, and that aliasing is not modelled.
- `exportToDataURL`, `getCanvas` and the `Blob` object itself are left out: they are browser encoders
  and accessors. `dataURLtoBlob` returns the bytes and the media type that it would hand to `Blob`.
- `drawText` declares `maxWidth = 600` and never uses it; the model has no such constant.
- Some inner loops are separate helper methods, proved one at a time: the inner wrap loop of
  `getWrappedLines` is `WrapParagraph`, the copy loop of `dataURLtoBlob` is `StoreCharCodes`, and the
  body of the draw loop is `DrawOne`. Their order and effects are those of the inline code.
- Nothing is left out of frame eviction, but note its cost: `updateElement` always drops the cache entry
  under the frame's pre-merge key, whatever the partial holds. So even a position-only update makes the
  next redraw load an identical SVG again. `Editor.ImageEditor.UpdateElement` does the same.
