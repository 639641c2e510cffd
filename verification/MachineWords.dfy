/** 64-bit machine words. */
module MachineWords {

  const W64: nat := 0x1_0000_0000_0000_0000

  /** What 64 bits keep of a number. */
  function Wrap(x: int): (r: nat)
    ensures r < W64 && (0 <= x < W64 ==> r == x)
  {
    x % W64
  }
}
