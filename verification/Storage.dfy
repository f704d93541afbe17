/** The block store (internal/storage/storage.go) as an in-memory map; writes do not fail. */
module Storage {
  import opened Numbers
  import opened Results
  import opened Types

  datatype StoreVal = StoreVal(blocks: map<u64, Block>, height: u64)

  function Put(s: StoreVal, b: Block): StoreVal {
    StoreVal(s.blocks[b.header.index := b], if s.height < b.header.index then b.header.index else s.height)
  }

  function PutAll(s: StoreVal, bs: seq<Block>): StoreVal {
    if bs == [] then s else Put(PutAll(s, bs[..|bs| - 1]), bs[|bs| - 1])
  }

  function Tip(s: StoreVal): Option<Block> {
    if s.height in s.blocks then Some(s.blocks[s.height]) else None
  }

  class Store {
    var blocks: map<u64, Block>
    var height: u64

    constructor ()
      ensures Value() == StoreVal(map[], 0)
    {
      blocks, height := map[], 0;
    }

    function Value(): StoreVal
      reads this
    {
      StoreVal(blocks, height)
    }

    method PutBlock(b: Block)
      modifies this
      ensures Value() == Put(old(Value()), b)
      ensures blocks == old(blocks)[b.header.index := b]
      ensures old(height) <= height && b.header.index <= height && (height == old(height) || height == b.header.index)
    {
      blocks := blocks[b.header.index := b];
      if height < b.header.index {
        height := b.header.index;
      }
    }

    method GetBlock(i: u64) returns (b: Option<Block>)
      ensures b == if i in blocks then Some(blocks[i]) else None
    {
      b := if i in blocks then Some(blocks[i]) else None;
    }

    method GetTip() returns (b: Option<Block>)
      ensures b == Tip(Value())
    {
      b := GetBlock(height);
    }
  }
}
