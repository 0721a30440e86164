/** Integer helpers shared by the server and client models. */
module Numbers {

  /** The smaller of two integers. */
  function Min(a: int, b: int): int {
    if a <= b then a else b
  }
}
