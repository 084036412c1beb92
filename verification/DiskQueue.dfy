/** The DiskQueue object of diskqueue.go. Its methods change its fields in place
    and are proved to be the steps of QueueSteps, so every run-level result holds
    of any interleaving of calls. */
module DiskQueues {
  import opened Wrappers
  import opened WalFrame
  import opened WalCodec
  import opened QueueSteps

  const DEFAULT_MAX_WAL: nat := 500 * 1024 * 1024

  /** n turns of the reader, each publishing what it handed over. */
  function ReaderTurns(n: nat): seq<Action> {
    if n == 0 then [] else ReaderTurns(n - 1) + [Read, Publish]
  }

  lemma ExecTwo(q: Queue, a: Action, b: Action)
    ensures Exec(q, [a, b]) == Step(Step(q, a), b)
  {
    hide Step;
    assert [a, b][1..] == [b] && [b][1..] == [];
    assert Exec(Step(Step(q, a), b), []) == Step(Step(q, a), b);
  }

  lemma ExecFour(q: Queue, a: Action, b: Action, c: Action, d: Action)
    ensures Exec(q, [a, b, c, d]) == Step(Step(Step(Step(q, a), b), c), d)
  {
    hide Step, Exec;
    ExecTwo(q, a, b);
    ExecTwo(Step(Step(q, a), b), c, d);
    ExecAppend(q, [a, b], [c, d]);
    assert [a, b] + [c, d] == [a, b, c, d];
  }

  class DiskQueue {
    const maxBytes: nat
    var wal: string
    var ckptFile: Option<string>
    var writePos: nat
    var sentPos: nat
    var ackPos: nat
    var cursor: nat
    var outCh: seq<DataPoint>
    ghost var handed: seq<DataPoint>
    ghost var received: seq<DataPoint>

    /** The state between critical sections: a running queue, nothing half done. */
    ghost function Snapshot(): Queue
      reads this
    {
      Queue(maxBytes, wal, ckptFile, true, writePos, sentPos, ackPos, cursor, false, Idle, outCh, handed, received)
    }

    /** The write position is the end of the file. */
    ghost predicate Valid()
      reads this
    {
      writePos == |wal|
    }

    /** NewDiskQueue on the two files found in the directory. */
    constructor (walBytes: string, ckptText: Option<string>, limit: int)
      ensures Snapshot() == DoRestart(Queue(if limit <= 0 then DEFAULT_MAX_WAL else limit,
                                            walBytes, ckptText, false, 0, 0, 0, 0, false, Idle, [], [], []))
      ensures Valid()
    {
      maxBytes := if limit <= 0 then DEFAULT_MAX_WAL else limit;
      wal, ckptFile := walBytes, ckptText;
      writePos := |walBytes|;
      var ack := LoadCkpt(ckptText);
      ackPos, sentPos, cursor := ack, ack, ack;
      outCh, handed, received := [], [], [];
    }

    method Write(p: Point) returns (ok: bool)
      requires Valid()
      modifies this
      ensures Valid()
      ensures Snapshot() == DoWrite(old(Snapshot()), p)
      ensures ok <==> Accepts(old(Snapshot()), p)
    {
      var encoded := Encode(p);
      if encoded.None? {
        return false;
      }
      var data := encoded.value + "\n";
      if writePos >= maxBytes {
        return false;
      }
      wal := wal + data;
      writePos := writePos + |data|;
      ok := true;
    }

    /** One pass of the reader's scan loop from where it stands: it stops at the
        end of the file or when the channel is full. */
    method ReadPass() returns (turns: nat)
      requires Valid()
      modifies this
      ensures Valid()
      ensures Snapshot() == Exec(old(Snapshot()), ReaderTurns(turns))
      ensures DoRead(Snapshot()) == Snapshot()
      ensures old(cursor) <= cursor
    {
      hide Decode, ScanLine;
      turns := 0;
      ghost var before := Snapshot();
      assert Exec(before, ReaderTurns(0)) == before;
      var more := cursor <= |wal|;
      while more
        invariant Snapshot() == Exec(before, ReaderTurns(turns))
        invariant cursor >= old(cursor)
        invariant !more ==> DoRead(Snapshot()) == Snapshot()
        invariant wal == old(wal) && writePos == old(writePos)
        decreases if more && cursor <= |wal| then |wal| + 1 - cursor else 0, more
      {
        ghost var here := Snapshot();
        var scanned := if cursor <= |wal| then ScanLine(wal[cursor..]) else None;
        if scanned.None? {
          more := false;
        } else {
          var line := scanned.value.0;
          var pos := cursor + |line| + 1;
          var decoded := Decode(line);
          if decoded.Some? && |outCh| >= OUT_CAPACITY {
            more := false;
          } else {
            cursor := pos;
            if decoded.Some? {
              outCh := outCh + [decoded.value];
              handed := handed + [decoded.value];
              sentPos := pos;
            }
            OneTurn(before, here, turns);
            turns := turns + 1;
          }
        }
      }
    }

    static lemma OneTurn(before: Queue, here: Queue, n: nat)
      requires here == Exec(before, ReaderTurns(n))
      ensures Exec(before, ReaderTurns(n + 1)) == DoPublish(DoRead(here))
    {
      hide DoRead, DoPublish, Exec;
      ExecAppend(before, ReaderTurns(n), [Read, Publish]);
      ExecTwo(here, Read, Publish);
    }

    /** RunStream receiving from the output channel. */
    method Receive() returns (dp: Option<DataPoint>)
      requires Valid()
      modifies this
      ensures Valid()
      ensures Snapshot() == DoTake(old(Snapshot()))
      ensures dp == if old(outCh) == [] then None else Some(old(outCh)[0])
    {
      if outCh == [] {
        return None;
      }
      dp := Some(outCh[0]);
      received := received + [outCh[0]];
      outCh := outCh[1..];
    }

    /** The first section of tryCompact: both offsets, under the lock. */
    method CompactGuard() returns (worth: bool, drained: bool, ack: nat)
      ensures worth <==> WorthCompacting(writePos, ackPos)
      ensures ack == ackPos && (drained <==> ackPos >= writePos)
    {
      ack, drained := ackPos, ackPos >= writePos;
      if writePos == 0 || ackPos == 0 {
        worth := false;
      } else {
        worth := !(10 * ackPos < 8 * writePos);
      }
    }

    /** The section that empties a drained file, whatever was written since the
        guard; the checkpoint file still names the old offset. */
    method CompactTruncate()
      requires Valid()
      modifies this
      ensures Valid()
      ensures Snapshot() == old(Snapshot()).(wal := "", writePos := 0, sentPos := 0, ackPos := 0)
    {
      wal := "";
      writePos, sentPos, ackPos := 0, 0, 0;
    }

    /** The copy, without the lock: the file from the offset the guard saw. */
    method CompactCopy(ack: nat) returns (copied: string)
      ensures copied == if ack <= |wal| then wal[ack..] else ""
    {
      copied := if ack <= |wal| then wal[ack..] else "";
    }

    /** The section that puts the copy in the file's place. */
    method CompactSwap(copied: string, ack: nat)
      requires Valid()
      modifies this
      ensures Valid()
      ensures Snapshot() == old(Snapshot()).(wal := copied, writePos := |copied|, ackPos := 0,
                sentPos := if old(sentPos) < ack then 0 else old(sentPos) - ack)
    {
      wal := copied;
      writePos := |copied|;
      sentPos := if sentPos < ack then 0 else sentPos - ack;
      ackPos := 0;
    }

    /** The checkpoint reset that ends either branch. */
    method CompactReset()
      requires Valid()
      modifies this
      ensures Valid()
      ensures Snapshot() == old(Snapshot()).(ckptFile := Some(CkptText(0)))
    {
      ckptFile := Some(CkptText(0));
    }

    /** tryCompact with nothing between its sections: the files and the queue's own
        offsets only. The number of bytes cut off the front is returned for the
        reader's sake. */
    method TryCompact() returns (cut: nat)
      requires Valid()
      modifies this
      ensures Valid()
      ensures Snapshot() == if CanCompact(old(Snapshot())) then CompactFields(old(Snapshot())) else old(Snapshot())
      ensures cut == if CanCompact(old(Snapshot())) then old(ackPos) else 0
    {
      var worth, drained, ack := CompactGuard();
      if !worth {
        return 0;
      }
      if drained {
        CompactTruncate();
      } else {
        var copied := CompactCopy(ack);
        CompactSwap(copied, ack);
      }
      CompactReset();
      cut := ack;
    }

    static lemma KeepsCursor()
      ensures forall q: Queue :: CompactFields(q).cursor == q.cursor
    {
    }

    /** One tick of the checkpointer, with the reader told how far to move back:
        the intended protocol. */
    method Tick()
      requires Valid()
      modifies this
      ensures Valid()
      ensures Snapshot() == Exec(old(Snapshot()), [CkptHold, CkptSave, CkptAck, Compact])
    {
      ExecFour(Snapshot(), CkptHold, CkptSave, CkptAck, Compact);
      hide Exec, CompactFields, WorthCompacting, CkptText, DoRead, DoWrite;
      KeepsCursor();
      var pos := sentPos;
      if pos != ackPos {
        ckptFile := Some(CkptText(pos));
        ackPos := pos;
      }
      var cut := TryCompact();
      cursor := if cursor < cut then 0 else cursor - cut;
    }

    method Shutdown()
      requires Valid()
      modifies this
      ensures Valid()
      ensures Snapshot() == DoClose(old(Snapshot()))
    {
      ckptFile := Some(CkptText(sentPos));
    }
  }
}
