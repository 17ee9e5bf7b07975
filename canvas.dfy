/** The browser services the image code relies on, reduced to values and function
    parameters: decoding a data URL into an image element, and drawing that image
    onto a canvas of a chosen size and exporting it as a JPEG data URL. */
module Canvas {

  datatype Option<+T> = None | Some(value: T)

  /** Why a returned promise rejected: the raw `error` event of an image element,
      or an `Error` object carrying a message. */
  datatype Rejection = LoadErrorEvent | ErrorMessage(message: string)

  /** The settled state of a promise: fulfilled with a value, or rejected. */
  datatype Result<+T> = Ok(value: T) | Rejected(reason: Rejection)

  /** The natural (decoded) pixel size of an image. */
  datatype Size = Size(width: nat, height: nat)

  /** One call of the canvas encoder: the canvas size in pixels, and the JPEG
      quality as an integer percentage (0.9 is 90). */
  datatype DrawCall = DrawCall(size: Size, quality: nat)

  /** Loading a data URL into an image element: its natural size, or None when the
      element fires `error`. */
  type Decoder = string -> Option<Size>

  /** Drawing the image loaded from the given data URL at (width, height) and
      exporting it with `toDataURL('image/jpeg', quality / 100)`. */
  type Encoder = (string, nat, nat, nat) -> string

  /** The data URL one encoder call produces. */
  function Render(draw: Encoder, src: string, call: DrawCall): string
  {
    draw(src, call.size.width, call.size.height, call.quality)
  }
}
