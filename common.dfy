/** Types shared by the virtual-computer devices: register and memory word
    widths, the answer to an interrupt poll, and the device snapshot
    (registers plus named typed properties) used by GetState/SetState. */
module Common {

  /** A 16-bit register or command word, as a number. */
  type Word = x: int | 0 <= x < 0x1_0000

  /** An unsigned 32-bit number (key events, addresses, sizes, counters).
      Shifts and masks on such numbers are written as multiplication,
      division and remainder by powers of two; wrap-around of sums and
      differences is written out with Wrap. */
  type U32 = x: int | 0 <= x < 0x1_0000_0000

  /** A 32-bit colour, as a bit-vector: the rasterizer only moves its bytes. */
  type DWord = bv32

  /** A font byte, as a bit-vector: the rasterizer tests its bits. */
  type Byte = bv8

  const Modulus: int := 0x1_0000_0000

  /** The 32-bit unsigned result of an addition or subtraction: the
      number itself when it fits, otherwise shifted by 2^32. */
  function Wrap(x: int): (r: U32)
    ensures 0 <= x < Modulus ==> r == x
    ensures Modulus <= x < 2 * Modulus ==> r == x - Modulus
    ensures -Modulus <= x < 0 ==> r == x + Modulus
  {
    x % Modulus
  }

  /** The low 16 bits of a 32-bit number, as an assignment to a Word
      truncates it. */
  function Low16(v: U32): (w: Word)
    ensures v < 0x1_0000 ==> w == v
  {
    v % 0x1_0000
  }

  /** What DoesInterrupt answers: whether an interrupt is raised, and the
      value of its by-reference message argument afterwards. */
  datatype Poll = Poll(fires: bool, msg: Word)

  /** The type tag of a snapshot property. */
  datatype PropertyType = Int | Bool | Raw

  /** One named property of a snapshot. Like the message it models, every
      property has all three value slots; the ones not set keep their
      default (0, false, empty). The RAW blob is carried as 32-bit numbers. */
  datatype Property = Property(kind: PropertyType, name: string, ivalue: U32, bvalue: bool, rvalue: seq<U32>)

  function IntProperty(name: string, v: U32): Property
  {
    Property(Int, name, v, false, [])
  }

  function BoolProperty(name: string, v: bool): Property
  {
    Property(Bool, name, 0, v, [])
  }

  function RawProperty(name: string, words: seq<U32>): Property
  {
    Property(Raw, name, 0, false, words)
  }

  /** A device snapshot: the register slots and an ordered list of
      properties. */
  datatype Snapshot = Snapshot(a: Word, b: Word, c: Word, d: Word, e: Word, properties: seq<Property>)
}
