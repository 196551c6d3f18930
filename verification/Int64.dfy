/** The wrap-around of Go's 64-bit integers. */
module Int64 {
  const MAX_INT64 := 0x7fff_ffff_ffff_ffff
  const TWO_64 := 0x1_0000_0000_0000_0000

  function Wrap64(n: int): int {
    var m := n % TWO_64;
    if m > MAX_INT64 then m - TWO_64 else m
  }
}
