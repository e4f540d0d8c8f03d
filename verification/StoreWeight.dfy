/** server/core/store.go:253: scores are divided by a store's weight, but by no less than this. */
module StoreWeight {
  const MIN_WEIGHT := 0.000001

  function Weight(weight: real): (w: real)
    ensures w > 0.0
  {
    if weight > MIN_WEIGHT then weight else MIN_WEIGHT
  }
}
