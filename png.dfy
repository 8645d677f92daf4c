/** The pixel type of the PNG library the renderer writes into: an RGB triple of bytes.
    A default-constructed pixel is black. */
module Png {
  type Channel = c: int | 0 <= c <= 255

  datatype Rgb = Rgb(red: Channel, green: Channel, blue: Channel)

  const Black: Rgb := Rgb(0, 0, 0)
}
