/** The buffer in front of the append-only file and the flush that empties it,
    with every way in which write(2) and ftruncate(2) may fail. */
module AofFlush {

  datatype Policy = Always | EverySecond | No

  /** One call of write(2): so many bytes, EINTR, or another error. */
  datatype WriteResult = Wrote(count: nat) | Interrupted | Failed

  /** What the surroundings decide during one flush.  Once the write results are
      used up, writes succeed; `cut` says whether ftruncate works. */
  datatype World = World(now: nat, syncing: bool, results: seq<WriteResult>, cut: bool, noFsync: bool)

  datatype Event = Feed(bytes: string) | Flush(force: bool, world: World)

  function Fed(events: seq<Event>): string {
    if events == [] then "" else
      Fed(events[..|events| - 1]) + match events[|events| - 1] case Feed(bytes) => bytes case Flush(_, _) => ""
  }

  predicate NoneFails(results: seq<WriteResult>) { forall i | 0 <= i < |results| :: !results[i].Failed? }

  class AppendOnlyFile {
    const policy: Policy
    var file: string
    var buf: string
    var currentSize: nat
    var fsyncOffset: nat
    var lastFsync: nat
    var postponedStart: nat
    var lastWriteOk: bool

    ghost predicate Valid()
      reads this
    {
      currentSize == |file| && fsyncOffset <= currentSize
    }

    constructor (policy: Policy)
      ensures Valid() && file == buf == "" && this.policy == policy && lastWriteOk
    {
      this.policy := policy;
      file, buf, currentSize, fsyncOffset, lastFsync, postponedStart, lastWriteOk := "", "", 0, 0, 0, 0, true;
    }

    /** The tail of feedAppendOnlyFile. */
    method Append(bytes: string)
      requires Valid()
      modifies this`buf
      ensures Valid() && file + buf == old(file + buf) + bytes
    {
      buf := buf + bytes;
    }

    /** aofWrite: retries until everything is written or a write fails. */
    method Write(results: seq<WriteResult>) returns (n: int)
      requires buf != ""
      modifies this`file
      ensures n == -1 || 0 < n <= |buf|
      ensures file == old(file) + buf[..if n == -1 then 0 else n]
      ensures NoneFails(results) ==> n == |buf|
    {
      var i, written := 0, 0;
      while written < |buf|
        invariant 0 <= written <= |buf| && 0 <= i <= |results| + 1
        invariant file == old(file) + buf[..written]
        invariant i > |results| ==> written == |buf|
        decreases |results| + 1 - i, |buf| - written
      {
        var left := |buf| - written;
        if i >= |results| {
          file := file + buf[written..];
          written := |buf|;
          break;
        } else {
          match results[i]
          case Failed =>
            n := if written > 0 then written else -1;
            return;
          case Interrupted =>
          case Wrote(count) =>
            var k := if count < left then count else left;
            file := file + buf[written..written + k];
            assert buf[..written + k] == buf[..written] + buf[written..written + k];
            written := written + k;
        }
        i := i + 1;
      }
      assert buf[..|buf|] == buf;
      return written;
    }

    /** Nothing is lost, repeated or reordered between the file and the buffer. */
    twostate predicate Conserves()
      reads this
    {
      file + buf == old(file + buf) && old(file) <= file && old(fsyncOffset) <= fsyncOffset
    }

    /** A background fsync is running, and the write has waited less than two seconds for it. */
    predicate Postpones(force: bool, w: World)
      reads this
    {
      policy == EverySecond && !force && w.syncing && (postponedStart == 0 || w.now - postponedStart < 2)
    }

    /** flushAppendOnlyFile; with the policy Always a write error ends the process. */
    method Flush(force: bool, w: World) returns (exited: bool)
      requires Valid()
      modifies this
      ensures !exited ==> Valid() && Conserves()
      ensures exited ==> policy == Always && !NoneFails(w.results) && old(file) <= file <= old(file + buf)
      ensures !exited && policy == Always ==> buf == ""
      // what is written: nothing while it is postponed, everything if no write fails
      ensures old(Postpones(force, w)) ==> file == old(file)
      ensures old(buf) != "" ==>
        postponedStart == if !old(Postpones(force, w)) then 0
          else if old(postponedStart) == 0 then w.now else old(postponedStart)
      ensures !exited && old(buf) != "" && file == old(file) && NoneFails(w.results) ==>
        policy == EverySecond && !force && w.syncing && w.now < postponedStart + 2
      ensures !old(Postpones(force, w)) && NoneFails(w.results) ==> buf == "" && file == old(file + buf)
      ensures !exited && !old(Postpones(force, w)) && buf != "" ==> !lastWriteOk && !NoneFails(w.results)
      ensures !exited && w.cut && buf != "" ==> file == old(file)
      ensures !exited && old(buf) != "" && buf == "" ==> lastWriteOk
      ensures old(buf) == "" ==> !exited && file == old(file) && buf == "" && lastWriteOk == old(lastWriteOk)
      // what is on disk
      ensures lastFsync == old(lastFsync) || lastFsync == w.now
      ensures w.noFsync || policy == No ==> lastFsync == old(lastFsync)
      ensures old(buf) == "" && (policy == Always || old(fsyncOffset) == |file|) ==>
        lastFsync == old(lastFsync) && fsyncOffset == old(fsyncOffset)
      ensures w.noFsync || policy == No ==> fsyncOffset == old(fsyncOffset)
      ensures !exited && policy == Always && !w.noFsync && old(buf) != "" ==> fsyncOffset == |file|
      ensures policy == EverySecond && fsyncOffset != old(fsyncOffset) ==>
        fsyncOffset == |file| && !w.syncing && w.now > old(lastFsync) && lastFsync == w.now
      ensures policy == EverySecond && !w.noFsync && !w.syncing && w.now > old(lastFsync) && buf == "" ==>
        fsyncOffset == |file|
    {
      var syncing := false;
      if buf == "" {
        if policy == EverySecond && fsyncOffset != currentSize && w.now > lastFsync {
          syncing := w.syncing;
          if !syncing {
            TryFsync(w, syncing);
          }
        }
        return false;
      }
      if policy == EverySecond {
        syncing := w.syncing;
      }
      if policy == EverySecond && !force {
        if syncing {
          if postponedStart == 0 {
            postponedStart := w.now;
            return false;
          } else if w.now - postponedStart < 2 {
            return false;
          }
        }
      }
      var n := Write(w.results);
      postponedStart := 0;
      if n != |buf| {
        if n != -1 {
          if w.cut {
            file := file[..currentSize];
            n := -1;
          }
        }
        if policy == Always {
          return true;
        }
        lastWriteOk := false;
        if n > 0 {
          currentSize := currentSize + n;
          buf := buf[n..];
        }
        return false;
      }
      lastWriteOk := true;
      currentSize := currentSize + n;
      buf := "";
      TryFsync(w, syncing);
      return false;
    }

    method TryFsync(w: World, syncing: bool)
      requires Valid()
      modifies this`fsyncOffset, this`lastFsync
      ensures Valid() && old(fsyncOffset) <= fsyncOffset
      ensures lastFsync == if !w.noFsync && (policy == Always || (policy == EverySecond && w.now > old(lastFsync)))
        then w.now else old(lastFsync)
      ensures policy == Always && !w.noFsync ==> fsyncOffset == currentSize
      ensures w.noFsync || policy == No ==> fsyncOffset == old(fsyncOffset)
      ensures policy == EverySecond && !w.noFsync && !syncing && w.now > old(lastFsync) ==> fsyncOffset == currentSize
      ensures policy == EverySecond && fsyncOffset != old(fsyncOffset) ==>
        fsyncOffset == currentSize && !syncing && w.now > old(lastFsync) && lastFsync == w.now
    {
      if w.noFsync {
        return;
      }
      if policy == Always {
        fsyncOffset := currentSize;
        lastFsync := w.now;
      } else if policy == EverySecond && w.now > lastFsync {
        if !syncing {
          fsyncOffset := currentSize;
        }
        lastFsync := w.now;
      }
    }

    /** The file is replaced by a rewritten one that already holds whatever is in
        the buffer and was not written yet: the bytes before the rewrite are
        `replaced` by a snapshot, those fed since follow it. */
    method Switch(rewritten: string, ghost replaced: string, ghost since: string, ghost snapshot: string)
      requires Valid() && file + buf == replaced + since && rewritten == snapshot + since
      modifies this
      ensures Valid() && file + buf == snapshot + since && buf == "" && fsyncOffset == |file|
    {
      file := rewritten;
      currentSize := |rewritten|;
      fsyncOffset := currentSize;
      buf := "";
    }
  }

  /** No flush is told to leave out the fsync. */
  ghost predicate Syncs(events: seq<Event>) {
    forall i | 0 <= i < |events| :: events[i].Flush? ==> !events[i].world.noFsync
  }

  /** Any sequence of feeds and flushes: as long as the process lives, the file
      followed by the buffer is everything that was fed, and the recorded size
      is the file's; if it exits, the file is a prefix of what was fed.  With
      the policy Always a flush leaves everything on disk that was fed. */
  method RunEvents(policy: Policy, events: seq<Event>)
      returns (file: string, pending: string, size: nat, synced: nat, exited: bool)
    ensures !exited ==> file + pending == Fed(events) && synced <= size == |file|
    ensures exited ==> policy == Always && file <= Fed(events)
    ensures !exited && policy == Always && Syncs(events) && events != [] && events[|events| - 1].Flush? ==>
      pending == "" && synced == |Fed(events)|
  {
    var aof := new AppendOnlyFile(policy);
    exited := false;
    for i := 0 to |events|
      invariant aof.Valid() && aof.policy == policy
      invariant aof.file + aof.buf == Fed(events[..i])
      invariant policy == Always && Syncs(events) && aof.buf == "" ==> aof.fsyncOffset == |aof.file|
      invariant policy == Always && i > 0 && events[i - 1].Flush? ==> aof.buf == ""
    {
      assert events[..i + 1][..i] == events[..i];
      match events[i]
      case Feed(bytes) => aof.Append(bytes);
      case Flush(force, world) =>
        exited := aof.Flush(force, world);
        if exited {
          FedGrows(events, i + 1);
          return aof.file, aof.buf, aof.currentSize, aof.fsyncOffset, true;
        }
    }
    assert events[..|events|] == events;
    return aof.file, aof.buf, aof.currentSize, aof.fsyncOffset, false;
  }

  lemma {:induction false} FedGrows(events: seq<Event>, i: nat)
    requires i <= |events|
    ensures Fed(events[..i]) <= Fed(events)
    decreases |events|
  {
    if i < |events| {
      var init := events[..|events| - 1];
      FedGrows(init, i);
      assert init[..i] == events[..i];
    } else {
      assert events[..i] == events;
    }
  }
}
