/** Where a block stands: how many blocks its lineage has before it. */
module Positions {
  datatype Position<D> = Position(lineage: D, index: nat)
}
