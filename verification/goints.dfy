/** Go's fixed-width integers. Dafny integers are unbounded, so the widths
    the core relies on are written out here, with Go's two's-complement
    wrap-around on overflow. */
module GoInts {

  /** The width of a Go integer type: 32 or 64 bits. */
  datatype Width = W32 | W64 {

    /** 2^bits */
    function Modulus(): int {
      if W32? then 0x1_0000_0000 else 0x1_0000_0000_0000_0000
    }

    /** 2^(bits-1) */
    function Half(): int {
      if W32? then 0x8000_0000 else 0x8000_0000_0000_0000
    }

    /** `x` is a value of the signed type (int32, int64). */
    predicate InSigned(x: int) {
      -Half() <= x < Half()
    }

    /** `x` is a value of the unsigned type (uint32, uint64). */
    predicate InUnsigned(x: int) {
      0 <= x < Modulus()
    }

    /** The signed value with the same low `bits` bits as `x`: the result
        of a signed Go operation whose exact value is `x`. */
    function WrapSigned(x: int): (r: int)
      ensures InSigned(r)
      ensures InSigned(x) ==> r == x
      ensures Half() <= x < Modulus() ==> r == x - Modulus()
    {
      var m := x % Modulus();
      if m >= Half() then m - Modulus() else m
    }

    /** The unsigned value with the same low `bits` bits as `x`. */
    function WrapUnsigned(x: int): (r: int)
      ensures InUnsigned(r)
      ensures InUnsigned(x) ==> r == x
    {
      x % Modulus()
    }
  }
}
