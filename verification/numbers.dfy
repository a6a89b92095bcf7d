module Numbers {
  const UINT32_MAX: int := 0xFFFF_FFFF

  function Min(a: int, b: int): int {
    if a < b then a else b
  }
}
