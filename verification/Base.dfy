/** Types shared by every layer. */
module Base {
  datatype Option<+T> = None | Some(value: T)

  newtype byte = b: int | 0 <= b < 0x100
  type u16 = n: int | 0 <= n < 0x1_0000

  /** A monotone clock reading, in milliseconds. */
  type Time = int

  /** `Instant::duration_since`, which saturates at zero. */
  function Since(now: Time, start: Time): (d: nat)
    ensures now >= start ==> d == now - start
    ensures now < start ==> d == 0
  {
    if now < start then 0 else now - start
  }

  function Min(a: int, b: int): (r: int) { if a <= b then a else b }

  function Max(a: int, b: int): (r: int) { if a >= b then a else b }
}
