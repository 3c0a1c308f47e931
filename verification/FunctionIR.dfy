/** The mutable function the passes rewrite in place. */
module FunctionState {
  import opened IR

  class FunctionIR {
    var order: seq<Label>
    var blocks: map<Label, Block>

    constructor (f: Func)
      ensures Value() == f
    {
      order, blocks := f.order, f.blocks;
    }

    /** The function as a value. */
    function Value(): Func
      reads this
    {
      Func(order, blocks)
    }
  }
}
