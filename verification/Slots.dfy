/** What the entry of a leaf holds. */
module Slots {
  import opened KeySlices

  type LayerRef = nat
  type Value = nat

  /** What a leaf stores: a value, a value with the rest of its key, or a layer for all keys
      with this slice.  `Unlinked` is a layer slot whose pointer is not yet stored. */
  datatype Slot = Plain(v: Value) | Suffix(rest: Key, v: Value) | LayerAt(layer: LayerRef) | Unlinked
}
