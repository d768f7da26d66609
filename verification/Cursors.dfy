/** The highest journal entry of each device that this node has applied. */
module Cursors {
  type Table = map<string, int>

  function AppliedSeq(m: Table, device: string): int {
    if device in m then m[device] else 0
  }

  function Max(a: int, b: int): int {
    if a >= b then a else b
  }

  function Advance(m: Table, device: string, upto: int): Table {
    m[device := Max(AppliedSeq(m, device), upto)]
  }

  function Remove(m: Table, device: string): Table {
    map d | d in m && d != device :: m[d]
  }

  /** DeviceCursors with the content of its file as a field. */
  class DeviceCursors {
    var seqs: Table

    constructor (onDisk: Table)
      ensures seqs == onDisk
    {
      seqs := onDisk;
    }

    method Applied(device: string) returns (n: int)
      ensures n == AppliedSeq(seqs, device)
    {
      n := 0;
      if device in seqs { n := seqs[device]; }
    }

    method AdvanceTo(device: string, upto: int) returns (next: int)
      modifies this
      ensures seqs == Advance(old(seqs), device, upto)
      ensures next == AppliedSeq(seqs, device) && next >= upto && next >= AppliedSeq(old(seqs), device)
    {
      var cur := Applied(device);
      next := if upto > cur then upto else cur;
      seqs := seqs[device := next];
    }

    method Forget(device: string)
      modifies this
      ensures seqs == Remove(old(seqs), device)
      ensures AppliedSeq(seqs, device) == 0 && forall d | d != device :: AppliedSeq(seqs, d) == AppliedSeq(old(seqs), d)
    {
      if device in seqs {
        seqs := map d | d in seqs && d != device :: seqs[d];
      }
    }
  }
}
