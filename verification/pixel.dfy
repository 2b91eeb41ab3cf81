/** Pixels, their packed 32-bit word, the named colours and the blend modes (Melody.h, `struct Pixel`). */
module Pixels {

  /** One `uint8_t` colour channel. */
  newtype byte = x: int | 0 <= x < 256

  /** A `uint32_t`: the word the channels share through the union. */
  newtype uint32 = x: int | 0 <= x < 0x1_0000_0000

  /** Four 8-bit channels, red first in memory. */
  datatype Pixel = Pixel(r: byte, g: byte, b: byte, a: byte)

  /** How `draw_pixel` combines a source pixel with the drawing target. */
  datatype Mode = Normal | Mask | Alpha

  /** The union's word view on a little-endian host: red in the low byte, alpha in the high byte. */
  function Pack(p: Pixel): (n: uint32)
    ensures n as int % 256 == p.r as int
    ensures n as int / 0x100_0000 == p.a as int
  {
    (p.r as int + 0x100 * p.g as int + 0x1_0000 * p.b as int + 0x100_0000 * p.a as int) as uint32
  }

  /** The channel view of a word. */
  function Unpack(n: uint32): (p: Pixel)
    ensures p.a as int == n as int / 0x100_0000
  {
    Pixel((n % 0x100) as byte, (n / 0x100 % 0x100) as byte, (n / 0x1_0000 % 0x100) as byte, (n / 0x100_0000) as byte)
  }

  lemma UnpackPack(p: Pixel)
    ensures Unpack(Pack(p)) == p
  {
    var n := Pack(p) as int;
    assert n == p.r as int + 0x100 * (p.g as int + 0x100 * (p.b as int + 0x100 * p.a as int));
    assert n / 0x100 == p.g as int + 0x100 * (p.b as int + 0x100 * p.a as int);
    assert n / 0x1_0000 == (n / 0x100) / 0x100;
    assert n / 0x1_0000 == p.b as int + 0x100 * p.a as int;
  }

  lemma PackUnpack(n: uint32)
    ensures Pack(Unpack(n)) == n
  {
    var m := n as int;
    var p := Unpack(n);
    assert m / 0x1_0000 == (m / 0x100) / 0x100;
    assert m / 0x100_0000 == (m / 0x1_0000) / 0x100;
    assert m == m % 0x100 + 0x100 * (m / 0x100);
    assert m / 0x100 == m / 0x100 % 0x100 + 0x100 * (m / 0x1_0000);
    assert m / 0x1_0000 == m / 0x1_0000 % 0x100 + 0x100 * (m / 0x100_0000);
  }

  /** `Pixel()`: the constructor's channels agree with the union's initial word 0xFF000000. */
  function Default(): (p: Pixel)
    ensures Pack(p) == 0xFF00_0000
  {
    Pixel(0, 0, 0, 255)
  }

  /** `Pixel(r, g, b)`: the four-argument constructor with its default alpha. */
  function Rgb(r: byte, g: byte, b: byte): (p: Pixel)
    ensures Pack(p) as int == 0xFF00_0000 + Pack(Pixel(r, g, b, 0)) as int
  {
    Pixel(r, g, b, 255)
  }

  const White := Rgb(255, 255, 255)
  const Grey := Rgb(192, 192, 192)
  const DarkGrey := Rgb(128, 128, 128)
  const VeryDarkGrey := Rgb(64, 64, 64)
  const Red := Rgb(255, 0, 0)
  const DarkRed := Rgb(128, 0, 0)
  const VeryDarkRed := Rgb(64, 0, 0)
  const Yellow := Rgb(255, 255, 0)
  const DarkYellow := Rgb(128, 128, 0)
  const VeryDarkYellow := Rgb(64, 64, 0)
  const Green := Rgb(0, 255, 0)
  const DarkGreen := Rgb(0, 128, 0)
  const VeryDarkGreen := Rgb(0, 64, 0)
  const Cyan := Rgb(0, 255, 255)
  const DarkCyan := Rgb(0, 128, 128)
  const VeryDarkCyan := Rgb(0, 64, 64)
  const Blue := Rgb(0, 0, 255)
  const DarkBlue := Rgb(0, 0, 128)
  const VeryDarkBlue := Rgb(0, 0, 64)
  const Magenta := Rgb(255, 0, 255)
  const DarkMagenta := Rgb(128, 0, 128)
  const VeryDarkMagenta := Rgb(64, 0, 64)
  const Black := Rgb(0, 0, 0)
}
