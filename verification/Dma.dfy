/** What the models of the DMA paths have in common. */
module Dma {

  type Byte = int

  /** Identifies a bounce buffer of the user-space engine. */
  type BufId = int

  /** A part of a call's slice that has been given a ticket. */
  datatype Chunk = Chunk(ticket: nat, off: nat, len: nat)
}
