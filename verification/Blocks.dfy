/** The blocks of heap memory the configuration reader allocates, by what holds on to them. */
module Blocks {

  /**
    * A block is known by its owner: a node of the document (its own struct, its
    * key, the vectors of its entries, and what an entry consists of), a place in
    * `tpath`, or nobody yet.
    */
  datatype Block =
    | Scratch
    | PathKey(top: nat)
    | NodeBlk(id: nat)
    | KeyBlk(id: nat)
    | KvalVec(id: nat)
    | ArrVec(id: nat)
    | TabVec(id: nat)
    | ElemVec(id: nat)
    | KvBlk(id: nat, i: nat)
    | KvKey(id: nat, i: nat)
    | KvVal(id: nat, i: nat)
    | ElemStr(id: nat, i: nat)

  /** The block a pointer to this one is read from; a block for itself where that is no block of the same node. */
  function Holder(b: Block): Block {
    match b
    case KeyBlk(id) => NodeBlk(id)
    case KvalVec(id) => NodeBlk(id)
    case ArrVec(id) => NodeBlk(id)
    case TabVec(id) => NodeBlk(id)
    case ElemVec(id) => NodeBlk(id)
    case KvBlk(id, _) => KvalVec(id)
    case KvKey(id, i) => KvBlk(id, i)
    case KvVal(id, i) => KvBlk(id, i)
    case ElemStr(id, _) => ElemVec(id)
    case _ => b
  }

  /**
    * `malloc` and `free`: what is allocated was not, what is freed or handed on was.
    * A pointer to be freed is read from memory that is still allocated.
    */
  class Allocator {
    ghost var live: set<Block>

    constructor ()
      ensures live == {}
    {
      live := {};
    }

    method Alloc(ghost b: Block)
      requires b !in live
      modifies this
      ensures live == old(live) + {b}
    {
      live := live + {b};
    }

    method Free(ghost b: Block)
      requires b in live && Holder(b) in live
      modifies this
      ensures live == old(live) - {b}
    {
      live := live - {b};
    }

    /** `realloc`: a block where there was none, or the same one grown. */
    method Grow(ghost b: Block, empty: bool)
      requires empty <==> b !in live
      modifies this
      ensures live == old(live) + {b}
    {
      if empty {
        Alloc(b);
      }
    }

    /** A block gets another owner. */
    method Give(ghost b: Block, ghost c: Block)
      requires b in live && c !in live
      modifies this
      ensures live == old(live) - {b} + {c}
    {
      live := live - {b} + {c};
    }
  }
}
