/**
 * The data model of the editor: the three element kinds as one tagged union,
 * the partial record accepted by an update, the options of an image insertion,
 * and the drawing operations a 2D context receives.
 */
module Types {

  datatype Option<+T> = None | Some(value: T) {
    function GetOr(default: T): T {
      match this
      case Some(v) => v
      case None => default
    }

    /** This option when it holds a value, otherwise the fallback. */
    function Or(fallback: Option<T>): Option<T> {
      if this.Some? then this else fallback
    }
  }

  datatype Result<+R, +E> = Success(value: R) | Failure(error: E)

  /** An 8-bit unsigned integer, as stored in a Uint8Array. */
  type Byte = x: int | 0 <= x < 256

  datatype Point = Point(x: real, y: real)

  datatype Size = Size(width: real, height: real)

  /** The three border styles of a frame. */
  datatype FrameStyle = Solid | Dashed | Double

  datatype TextData = TextData(
    text: string,
    color: string,
    fontSize: nat,
    fontFamily: string,
    position: Point,
    weight: string)

  datatype ImageData = ImageData(
    src: string,
    opacity: real,
    position: Option<Point>,
    size: Option<Size>)

  datatype FrameData = FrameData(
    color: string,
    style: FrameStyle,
    borderRadius: Option<int>,
    position: Option<Point>,
    size: Option<Size>)

  /** The type discriminator of an element. */
  datatype Kind = TextKind | ImageKind | FrameKind

  /** The payload of an element; its variant is the element's type. */
  datatype ElementData =
    | Text(text: TextData)
    | Image(image: ImageData)
    | Frame(frame: FrameData)
  {
    function Kind(): Kind {
      match this
      case Text(_) => TextKind
      case Image(_) => ImageKind
      case Frame(_) => FrameKind
    }
  }

  datatype Element = Element(id: string, data: ElementData)

  /**
   * A partial element payload: every field any of the three kinds has,
   * with None standing for a field the partial object does not carry.
   */
  datatype Patch = Patch(
    text: Option<string>,
    color: Option<string>,
    fontSize: Option<nat>,
    fontFamily: Option<string>,
    position: Option<Point>,
    weight: Option<string>,
    src: Option<string>,
    opacity: Option<real>,
    size: Option<Size>,
    style: Option<FrameStyle>,
    borderRadius: Option<int>)

  /** The options of an image insertion; None is an absent field. */
  datatype ImageOptions = ImageOptions(
    opacity: Option<real>,
    position: Option<Point>,
    size: Option<Size>)

  /** One call made on the 2D drawing context, in the order it is made. */
  datatype DrawOp =
    | SetFillStyle(color: string)
    | FillRect(x: real, y: real, width: real, height: real)
    | SetFont(font: string)
    | SetTextAlign(align: string)
    | SetTextBaseline(baseline: string)
    | FillText(line: string, x: real, y: real)
    | Save
    | Restore
    | SetGlobalAlpha(alpha: real)
    | DrawImage(key: string, x: real, y: real, width: real, height: real)
}
