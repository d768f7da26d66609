/** The master pointer of one node: load, apply, migrate, and the write fence. */
module Master {
  import opened Wrappers
  import opened Layout

  const MAX_I64 := 0x7fff_ffff_ffff_ffff

  datatype Pointer = Pointer(master: string, epoch: int)

  datatype Reply = Stale | Unchanged | SameEpochConflict | Applied(p: Pointer)

  /** i64 addition of one, as a release build does it. */
  function Increment(e: int): int {
    if e == MAX_I64 then -MAX_I64 - 1 else e + 1
  }

  /** load_pointer: no file, or a file naming no device, means this node. */
  function Load(file: Option<Pointer>, self: string): Pointer {
    match file
    case None => Pointer(self, 0)
    case Some(p) => if IsValidDeviceId(p.master) then p else p.(master := self)
  }

  predicate ValidMessage(p: Pointer) {
    IsValidDeviceId(p.master) && p.epoch > 0
  }

  /** pointer_apply on a loaded pointer. */
  function Apply(cur: Pointer, msg: Pointer): Pointer {
    if ValidMessage(msg) && msg.epoch > cur.epoch then msg else cur
  }

  function ApplyReply(cur: Pointer, msg: Pointer): Result<Reply, OpError> {
    if !ValidMessage(msg) then Err(BadOp)
    else if msg.epoch < cur.epoch then Ok(Stale)
    else if msg.epoch == cur.epoch then Ok(if msg.master == cur.master then Unchanged else SameEpochConflict)
    else Ok(Applied(msg))
  }

  /** migrate on a loaded pointer. */
  function Migrated(cur: Pointer, self: string): Pointer {
    var e := Increment(cur.epoch);
    Pointer(self, if e < 1 then 1 else e)
  }

  /** A migration raises the epoch of every reachable pointer exactly below the largest i64; there
      the wrapped epoch is pulled up to 1, and the fence of every older master is undercut. */
  lemma MigrationRaisesIff(cur: Pointer, self: string)
    requires 0 <= cur.epoch <= MAX_I64
    ensures Migrated(cur, self).epoch > cur.epoch <==> cur.epoch < MAX_I64
    ensures cur.epoch == MAX_I64 ==> Migrated(cur, self).epoch == 1
    ensures cur.epoch < MAX_I64 ==> Migrated(cur, self).epoch == cur.epoch + 1
  {
  }

  class PointerFile {
    const self: string
    var file: Option<Pointer>

    ghost function Current(): Pointer
      reads this
    {
      Load(file, self)
    }

    /** Local::open writes the initial pointer if there is none. */
    constructor (self: string, onDisk: Option<Pointer>)
      ensures this.self == self && Current() == Load(onDisk, self) && file.Some?
      ensures onDisk.None? ==> Current() == Pointer(self, 0)
      ensures onDisk.Some? ==> Current().epoch == onDisk.value.epoch
      ensures onDisk.Some? ==> Current().master == if IsValidDeviceId(onDisk.value.master) then onDisk.value.master
                                                   else self
    {
      this.self := self;
      file := if onDisk.None? then Some(Pointer(self, 0)) else onDisk;
    }

    method Query() returns (p: Pointer)
      ensures p == Current()
    {
      if file.None? { return Pointer(self, 0); }
      p := file.value;
      if !IsValidDeviceId(p.master) { p := p.(master := self); }
    }

    method RequireMaster() returns (ok: bool)
      ensures ok <==> Current().master == self
    {
      var p := Query();
      ok := p.master == self;
    }

    method ApplyPointer(master: string, epoch: int) returns (r: Result<Reply, OpError>)
      modifies this
      ensures Current() == Apply(old(Current()), Pointer(master, epoch))
      ensures r == ApplyReply(old(Current()), Pointer(master, epoch))
    {
      if !IsValidDeviceId(master) || epoch <= 0 { return Err(BadOp); }
      var cur := Query();
      if epoch < cur.epoch { return Ok(Stale); }
      if epoch == cur.epoch {
        if cur.master == master { return Ok(Unchanged); }
        return Ok(SameEpochConflict);
      }
      file := Some(Pointer(master, epoch));
      return Ok(Applied(Pointer(master, epoch)));
    }

    method Migrate() returns (p: Pointer)
      requires IsValidDeviceId(self)
      modifies this
      ensures Current() == Migrated(old(Current()), self) && p == Current()
    {
      var cur := Query();
      var epoch := Increment(cur.epoch);
      if epoch < 1 { epoch := 1; }
      p := Pointer(self, epoch);
      file := Some(p);
    }
  }

  // ---------- convergence ----------

  function ApplyAll(start: Pointer, msgs: seq<Pointer>): Pointer {
    if msgs == [] then start else Apply(ApplyAll(start, msgs[..|msgs| - 1]), msgs[|msgs| - 1])
  }

  /** The result is the start or one of the valid messages, and none of these has a higher epoch. */
  lemma {:induction false} ApplyAllIsMaximal(start: Pointer, msgs: seq<Pointer>)
    ensures var r := ApplyAll(start, msgs);
            && (r == start || (r in msgs && ValidMessage(r)))
            && r.epoch >= start.epoch
            && forall m <- msgs | ValidMessage(m) :: m.epoch <= r.epoch
  {
    if msgs != [] {
      var n := |msgs| - 1;
      ApplyAllIsMaximal(start, msgs[..n]);
      forall m <- msgs | ValidMessage(m) ensures m.epoch <= ApplyAll(start, msgs).epoch {
        if m != msgs[n] {
          var i :| 0 <= i < |msgs| && msgs[i] == m;
          assert msgs[..n][i] == m;
        }
      }
    }
  }

  /** Equal epochs carry equal masters, the starting pointer's included. */
  ghost predicate Consistent(start: Pointer, msgs: seq<Pointer>) {
    forall a, b | (a == start || (a in msgs && ValidMessage(a))) && (b == start || (b in msgs && ValidMessage(b))) ::
      a.epoch == b.epoch ==> a == b
  }

  /** Messages may come in any order and any number of times: two nodes that start alike and hear
      the same messages end alike. */
  lemma OrderDoesNotMatter(start: Pointer, msgs: seq<Pointer>, others: seq<Pointer>)
    requires Consistent(start, msgs) && forall m :: m in msgs <==> m in others
    ensures ApplyAll(start, msgs) == ApplyAll(start, others)
  {
    ApplyAllIsMaximal(start, msgs);
    ApplyAllIsMaximal(start, others);
  }

  /** Without consistency it does: two conflicting messages of one epoch, whichever comes first wins. */
  lemma ConflictFirstWins(start: Pointer, a: Pointer, b: Pointer)
    requires ValidMessage(a) && ValidMessage(b) && a.epoch == b.epoch > start.epoch && a.master != b.master
    ensures ApplyAll(start, [a, b]) == a && ApplyAll(start, [b, a]) == b
  {
    assert [a, b][..1] == [a] && [b, a][..1] == [b];
    assert [a][..0] == [] && [b][..0] == [];
    assert ApplyAll(start, [a]) == a && ApplyAll(start, [b]) == b;
  }
}
