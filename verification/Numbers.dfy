/** Arithmetic shared by several modules. */
module Numbers {

  function Max(x: int, y: int): (r: int)
    ensures r >= x && r >= y
  {
    if x < y then y else x
  }
}
