/** The disk over any sequence of block requests: the last write of a byte wins. Guest memory may change
    in any way between two requests. */
module DiskRuns {
  import opened Words
  import opened VirtioBlock

  /** One request as it is carried out: its plan, guest memory at the time, what pread or pwrite gives. */
  datatype Transfer = Transfer(plan: Plan, host: seq<U8>, io: int)

  /** Every request can be carried out on the disk that those before it leave. */
  predicate Feasible(disk: seq<U8>, ts: seq<Transfer>)
    decreases |ts|, 0
  {
    ts == [] ||
    var (before, last) := (ts[..|ts| - 1], ts[|ts| - 1]);
    Feasible(disk, before) && Possible(last.plan, Media(last.host, DiskAfter(disk, before)), last.io)
  }

  function DiskAfter(disk: seq<U8>, ts: seq<Transfer>): seq<U8>
    requires Feasible(disk, ts)
    decreases |ts|, 1
  {
    if ts == [] then disk
    else
      var last := ts[|ts| - 1];
      Performed(last.plan, Media(last.host, DiskAfter(disk, ts[..|ts| - 1])), last.io).disk
  }

  /** The request writes byte b of the disk. */
  predicate Writes(t: Transfer, b: nat) {
    t.plan.Plan? && t.plan.kind == T_OUT && Offset(t.plan) <= b < Offset(t.plan) + t.io
  }

  /** What it writes there. */
  function ByteFor(t: Transfer, b: nat): U8
    requires Writes(t, b) && t.plan.dataAt + t.io <= |t.host|
  {
    t.host[t.plan.dataAt + (b - Offset(t.plan))]
  }

  /** Request j is the last one that writes byte b. */
  ghost predicate LastWriter(ts: seq<Transfer>, j: nat, b: nat) {
    j < |ts| && Writes(ts[j], b) && forall k :: j < k < |ts| ==> !Writes(ts[k], b)
  }

  /** A byte of the disk is what the last request that wrote it took from guest memory at the time. */
  lemma {:induction false} LastWriteWins(disk: seq<U8>, ts: seq<Transfer>, j: nat, b: nat)
    requires Feasible(disk, ts) && LastWriter(ts, j, b)
    ensures ts[j].plan.dataAt + ts[j].io <= |ts[j].host|
    ensures b < |DiskAfter(disk, ts)| && DiskAfter(disk, ts)[b] == ByteFor(ts[j], b)
    decreases |ts|
  {
    var n := |ts| - 1;
    if j < n {
      assert LastWriter(ts[..n], j, b);
      LastWriteWins(disk, ts[..n], j, b);
      assert !Writes(ts[n], b);
    }
    StepByte(DiskAfter(disk, ts[..n]), ts[n], b);
  }

  /** A byte that no request wrote is as it was, or zero where the disk has grown past it. */
  lemma {:induction false} UnwrittenByteStays(disk: seq<U8>, ts: seq<Transfer>, b: nat)
    requires Feasible(disk, ts) && forall k :: 0 <= k < |ts| ==> !Writes(ts[k], b)
    ensures |disk| <= |DiskAfter(disk, ts)|
    ensures b < |DiskAfter(disk, ts)| ==> DiskAfter(disk, ts)[b] == if b < |disk| then disk[b] else 0
    decreases |ts|
  {
    if ts != [] {
      var n := |ts| - 1;
      UnwrittenByteStays(disk, ts[..n], b);
      assert !Writes(ts[n], b);
      StepByte(DiskAfter(disk, ts[..n]), ts[n], b);
    }
  }

  lemma StepByte(disk: seq<U8>, t: Transfer, b: nat)
    requires Possible(t.plan, Media(t.host, disk), t.io)
    ensures var r := Performed(t.plan, Media(t.host, disk), t.io).disk;
      && |disk| <= |r|
      && (Writes(t, b) ==> t.plan.dataAt + t.io <= |t.host| && b < |r| && r[b] == ByteFor(t, b))
      && (!Writes(t, b) && b < |r| ==> r[b] == if b < |disk| then disk[b] else 0)
  {
  }

  /** The value is what the last write of byte b stored, or the original disk's if there was none. */
  ghost predicate IsLastWritten(disk: seq<U8>, ts: seq<Transfer>, b: nat, value: U8) {
    && (forall j: nat :: LastWriter(ts, j, b) ==>
          ts[j].plan.dataAt + ts[j].io <= |ts[j].host| && value == ByteFor(ts[j], b))
    && ((forall j :: 0 <= j < |ts| ==> !Writes(ts[j], b)) ==> value == if b < |disk| then disk[b] else 0)
  }

  /** After any requests every byte of the disk is what the last write of it stored. */
  lemma DiskHoldsLastWrites(disk: seq<U8>, ts: seq<Transfer>, b: nat)
    requires Feasible(disk, ts) && b < |DiskAfter(disk, ts)|
    ensures IsLastWritten(disk, ts, b, DiskAfter(disk, ts)[b])
  {
    forall j: nat | LastWriter(ts, j, b)
      ensures ts[j].plan.dataAt + ts[j].io <= |ts[j].host| && DiskAfter(disk, ts)[b] == ByteFor(ts[j], b)
    {
      LastWriteWins(disk, ts, j, b);
    }
    if forall j :: 0 <= j < |ts| ==> !Writes(ts[j], b) {
      UnwrittenByteStays(disk, ts, b);
    }
  }

  /** And a read returns the bytes of the disk. */
  lemma ReadReturnsDisk(t: Transfer, disk: seq<U8>, k: nat)
    requires Possible(t.plan, Media(t.host, disk), t.io)
    requires t.plan.kind == T_IN && k < t.io && t.plan.dataAt + k != t.plan.statusAt
    ensures Offset(t.plan) + k < |disk| && t.plan.dataAt + k < |t.host|
    ensures Performed(t.plan, Media(t.host, disk), t.io).host[t.plan.dataAt + k] == disk[Offset(t.plan) + k]
  {
  }
}
