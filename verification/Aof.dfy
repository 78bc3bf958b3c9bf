/**
 aof.c: the append-only file as the server runs it. Commands are fed to a
 buffer, the buffer is flushed by writes that may fall short, a background child
 rewrites the log from a snapshot while the parent collects a diff, and the log
 can be stopped and started. Outcomes of system calls are parameters.
 */
module Aof {
  import opened AofCodec
  import opened AofData

  // The rewrite buffer.

  const BLOCK: nat := 10 * 1024 * 1024

  function Join(bs: seq<Bytes>): Bytes {
    if bs == [] then "" else bs[0] + Join(bs[1..])
  }

  lemma {:induction false} JoinSnoc(bs: seq<Bytes>, b: Bytes)
    ensures Join(bs + [b]) == Join(bs) + b
  {
    if bs == [] {
      assert bs + [b] == [b];
    } else {
      assert (bs + [b])[1..] == bs[1..] + [b];
      JoinSnoc(bs[1..], b);
    }
  }

  lemma {:induction false} JoinFull(bs: seq<Bytes>)
    requires forall i :: 0 <= i < |bs| ==> |bs[i]| == BLOCK
    ensures |Join(bs)| == |bs| * BLOCK
  {
    if bs != [] { JoinFull(bs[1..]); }
  }

  lemma JoinLast(bs: seq<Bytes>)
    requires bs != []
    ensures Join(bs) == Join(bs[..|bs| - 1]) + bs[|bs| - 1]
  {
    assert bs == bs[..|bs| - 1] + [bs[|bs| - 1]];
    JoinSnoc(bs[..|bs| - 1], bs[|bs| - 1]);
  }

  lemma JoinGrow(bs: seq<Bytes>, t: Bytes)
    requires bs != []
    ensures Join(bs[|bs| - 1 := bs[|bs| - 1] + t]) == Join(bs) + t
  {
    var n := |bs| - 1;
    var r := bs[n := bs[n] + t];
    JoinLast(bs);
    JoinLast(r);
    assert r[..n] == bs[..n];
    assert Join(bs[..n]) + (bs[n] + t) == Join(bs[..n]) + bs[n] + t;
  }

  /** A list of blocks; only the last may have room. */
  class RewriteBuffer {
    var blocks: seq<Bytes>

    ghost predicate Valid()
      reads this
    {
      && (forall i :: 0 <= i < |blocks| - 1 ==> |blocks[i]| == BLOCK)
      && (forall i :: 0 <= i < |blocks| ==> |blocks[i]| <= BLOCK)
    }

    ghost function Contents(): Bytes
      reads this
    {
      Join(blocks)
    }

    constructor ()
      ensures Valid() && Contents() == ""
    {
      blocks := [];
    }

    method Reset()
      modifies this
      ensures Valid() && Contents() == ""
    {
      blocks := [];
    }

    method Size() returns (n: nat)
      requires Valid()
      ensures n == |Contents()|
    {
      if |blocks| == 0 { return 0; }
      JoinLast(blocks);
      JoinFull(blocks[..|blocks| - 1]);
      n := (|blocks| - 1) * BLOCK + |blocks[|blocks| - 1]|;
    }

    /** `aofRewriteBufferAppend`: fill the last block, then open new ones. */
    method Append(s: Bytes)
      requires Valid()
      modifies this
      ensures Valid() && Contents() == old(Contents()) + s
    {
      var pos: nat := 0;
      assert old(Contents()) + s[..0] == old(Contents());
      while pos < |s|
        invariant pos <= |s| && Valid() && Contents() == old(Contents()) + s[..pos]
        decreases |s| - pos, BLOCK - (if |blocks| == 0 then BLOCK else |blocks[|blocks| - 1]|) == 0, |blocks| == 0
      {
        if |blocks| > 0 {
          var n := Fill(s, pos);
          assert old(Contents()) + s[..pos] + s[pos..pos + n] == old(Contents()) + s[..pos + n];
          pos := pos + n;
        }
        if pos < |s| {
          JoinSnoc(blocks, "");
          assert Join(blocks) + "" == Join(blocks);
          blocks := blocks + [""];
        }
      }
      assert s[..pos] == s;
    }

    /** Copies what fits into the last block. */
    method Fill(s: Bytes, pos: nat) returns (n: nat)
      requires Valid() && |blocks| > 0 && pos <= |s|
      modifies this
      ensures Valid() && pos + n <= |s| && |blocks| == old(|blocks|)
      ensures Contents() == old(Contents()) + s[pos..pos + n]
      ensures pos + n == |s| || |blocks[|blocks| - 1]| == BLOCK
      ensures n == 0 ==> blocks == old(blocks)
    {
      hide Join;
      var last := blocks[|blocks| - 1];
      var room := BLOCK - |last|;
      n := if room < |s| - pos then room else |s| - pos;
      if n > 0 {
        JoinGrow(blocks, s[pos..pos + n]);
        blocks := blocks[|blocks| - 1 := last + s[pos..pos + n]];
      } else {
        assert old(Contents()) + s[pos..pos] == old(Contents());
      }
    }

    /** `aofRewriteBufferWrite`: block number `shortAt` is written short. */
    method WriteTo(file: Bytes, shortAt: int) returns (ok: bool, out: Bytes)
      requires Valid()
      ensures ok ==> out == file + Contents()
      ensures ok <==> !(0 <= shortAt < |blocks| && |blocks[shortAt]| > 0)
    {
      out := file;
      assert file + Join(blocks[..0]) == file;
      for i := 0 to |blocks|
        invariant out == file + Join(blocks[..i])
        invariant 0 <= shortAt < i ==> |blocks[shortAt]| == 0
      {
        if |blocks[i]| > 0 {
          if i == shortAt { return false, out; }
          JoinSnoc(blocks[..i], blocks[i]);
          out := out + blocks[i];
        } else {
          JoinSnoc(blocks[..i], "");
        }
        assert blocks[..i + 1] == blocks[..i] + [blocks[i]];
      }
      assert blocks[..|blocks|] == blocks;
      ok := true;
    }
  }

  // Flushing.

  /** `ftruncate`: cut, or pad with zero bytes. */
  function Truncate(f: Bytes, n: nat): Bytes {
    if n <= |f| then f[..n] else f + seq(n - |f|, _ => '\0')
  }

  datatype Disk = Disk(file: Bytes, buf: Bytes, size: nat)

  /** File, buffer and believed size after a flush that returns; `n` is what
      write(2) reported. */
  function Flushed(d: Disk, n: int, truncated: bool): Disk
    requires -1 <= n <= |d.buf|
  {
    if d.buf == "" then d
    else if n == |d.buf| then Disk(d.file + d.buf, "", d.size + n)
    else if n == -1 then d
    else
      var f := d.file + d.buf[..n];
      if truncated then d.(file := Truncate(f, d.size)) else Disk(f, d.buf[n..], d.size + n)
  }

  lemma Split(f: Bytes, b: Bytes, n: nat)
    requires n <= |b|
    ensures f + b[..n] + b[n..] == f + b
  {
    assert b[..n] + b[n..] == b;
  }

  lemma CutBack(d: Disk, n: nat)
    requires n <= |d.buf|
    ensures var t := Truncate(d.file + d.buf[..n], d.size);
            |t| == d.size && (d.size == |d.file| ==> t == d.file)
            && (t + d.buf == d.file + d.buf ==> d.size == |d.file|)
  {
    var t := Truncate(d.file + d.buf[..n], d.size);
    assert |t + d.buf| == d.size + |d.buf|;
  }

  /** No byte is lost or duplicated by a flush exactly when no short write is cut
      back to a believed size that is not the real one. */
  lemma FlushLossless(d: Disk, n: int, truncated: bool)
    requires -1 <= n <= |d.buf|
    ensures var r := Flushed(d, n, truncated);
            && (r.file + r.buf == d.file + d.buf <==>
                !(0 <= n < |d.buf| && truncated) || d.size == |d.file|)
            && (d.size == |d.file| ==> r.size == |r.file| && d.file <= r.file)
  {
    var r := Flushed(d, n, truncated);
    if 0 <= n < |d.buf| {
      if truncated { CutBack(d, n); } else { Split(d.file, d.buf, n); }
    } else if n == |d.buf| {
      assert r.file + "" == d.file + d.buf;
    }
  }

  /** A short write cut back to a recorded size that is not the real one: too small a size
      takes flushed commands with it, too large a one keeps bytes that are written again. */
  lemma StaleSize(d: Disk, n: nat)
    requires d.size != |d.file| && 0 < n < |d.buf|
    ensures var r := Flushed(d, n, true);
            && r.file + r.buf != d.file + d.buf && r.size == d.size == |r.file| && r.buf == d.buf
            && (d.size < |d.file| ==> r.file == d.file[..d.size])
            && (d.size > |d.file| ==> r.file[..|d.file|] == d.file && |r.file| > |d.file|)
  {
    FlushLossless(d, n, true);
    CutBack(d, n);
    var f := d.file + d.buf[..n];
    if d.size < |d.file| { assert f[..d.size] == d.file[..d.size]; }
  }

  // Replaying the log.

  /** Replaying from an empty dataset gives `data`, and the log knows which
      database is selected unless `selected` is -1. */
  ghost predicate ReplaysTo(other: Other, cs: seq<Cmd>, selected: int, data: Dataset) {
    && data != [] && -1 <= selected < |data|
    && var r := Run(other, cs, Replay(0, EmptyData(|data|)));
       r.data == data && (selected != -1 ==> r.sel == selected)
  }

  /** What `feedAppendOnlyFile` appends. */
  function Fed(c: Cmd, db: nat, selected: int): seq<Cmd> {
    if db != selected then [Select(db), c] else [c]
  }

  /** The bytes of what is fed. */
  lemma FedEncoding(c: Cmd, db: nat, selected: int)
    requires db < 0x8000_0000 && Representable(c)
    ensures EncodeAll(Fed(c, db, selected)) == (if db != selected then "" + Encode(Select(db)) else "") + Encode(c)
    ensures AllRepresentable(Fed(c, db, selected))
  {
    hide EncodeAll, Encode, Digits, Representable;
    OneCommand(c);
    if db != selected {
      OneCommand(Select(db));
      EncodeSnoc([Select(db)], c);
      assert [Select(db), c] == [Select(db)] + [c];
      SelectRepresentable(db, []);
      assert ([] + [Select(db)])[0] == Select(db);
    }
  }

  lemma FedRuns(other: Other, c: Cmd, db: nat, selected: int, r: Replay)
    requires r.sel < |r.data| && db < |r.data| && !IsSelect(c) && (selected == -1 || r.sel == selected)
    ensures Run(other, Fed(c, db, selected), r) == Replay(db, Exec(other, c, db, r.data))
  {
    hide Exec, Digits;
    if db != selected {
      SelectSelects(other, db, r);
      RunOne(other, Select(db), r);
      RunAppend(other, [Select(db)], [c], r);
      assert [Select(db), c] == [Select(db)] + [c];
      RunOne(other, c, Replay(db, r.data));
    } else {
      RunOne(other, c, r);
    }
  }

  /** Feeding a command keeps the log in step with the dataset. */
  lemma FedReplays(other: Other, cs: seq<Cmd>, selected: int, data: Dataset, c: Cmd, db: nat)
    requires ReplaysTo(other, cs, selected, data) && db < |data| && !IsSelect(c)
    ensures ReplaysTo(other, cs + Fed(c, db, selected), db, Exec(other, c, db, data))
  {
    hide Run, Exec, Digits;
    var r0 := Replay(0, EmptyData(|data|));
    RunAppend(other, cs, Fed(c, db, selected), r0);
    FedRuns(other, c, db, selected, Run(other, cs, r0));
  }

  /** The rewrite in progress: the snapshot commands followed by the diff give
      the current dataset; the diff selects its own database. */
  ghost predicate RewriteOk(other: Other, base: seq<Cmd>, diff: seq<Cmd>, selected: int, data: Dataset) {
    && data != [] && -1 <= selected < |data|
    && (diff == [] ==> selected == -1)
    && forall sel: nat :: sel < |data| ==>
         var r := Run(other, base + diff, Replay(sel, EmptyData(|data|)));
         r.data == data && (selected != -1 ==> r.sel == selected)
  }

  lemma FedRewrite(other: Other, base: seq<Cmd>, diff: seq<Cmd>, selected: int, data: Dataset, c: Cmd, db: nat)
    requires RewriteOk(other, base, diff, selected, data) && db < |data| && !IsSelect(c)
    ensures RewriteOk(other, base, diff + Fed(c, db, selected), db, Exec(other, c, db, data))
  {
    hide Run, Exec, Digits;
    var d := Exec(other, c, db, data);
    var f := Fed(c, db, selected);
    forall sel: nat | sel < |d|
      ensures Run(other, base + (diff + f), Replay(sel, EmptyData(|d|))) == Replay(db, d)
    {
      var r0 := Replay(sel, EmptyData(|data|));
      assert base + (diff + f) == base + diff + f;
      RunAppend(other, base + diff, f, r0);
      FedRuns(other, c, db, selected, Run(other, base + diff, r0));
    }
  }

  lemma RebuildsRewrite(other: Other, base: seq<Cmd>, data: Dataset)
    requires data != [] && Rebuilds(other, base, data)
    ensures RewriteOk(other, base, [], -1, data)
  {
    assert base + [] == base;
  }

  /** A log: the bytes it had when loaded, their commands, and those logged since. */
  datatype Log = Log(origin: Bytes, early: seq<Cmd>, since: seq<Cmd>)

  /** File and buffer hold the log, and the log replays to the dataset. */
  ghost predicate Durable(other: Other, d: Disk, l: Log, selected: int, data: Dataset) {
    && d.size == |d.file|
    && d.file + d.buf == l.origin + EncodeAll(l.since) && AllRepresentable(l.since)
    && l.origin <= d.file && LoadFrom(l.origin, 0, []) == Loaded(l.early)
    && ReplaysTo(other, l.early + l.since, selected, data)
  }

  /** Child's file and diff buffer, and what they replay to. */
  ghost predicate Rewriting(other: Other, temp: Bytes, buffered: Bytes, base: seq<Cmd>, diff: seq<Cmd>,
                            selected: int, data: Dataset)
  {
    && temp == EncodeAll(base) && AllRepresentable(base)
    && buffered == EncodeAll(diff) && AllRepresentable(diff)
    && RewriteOk(other, base, diff, selected, data)
  }

  lemma AppendRepresentable(a: seq<Cmd>, b: seq<Cmd>)
    requires AllRepresentable(a) && AllRepresentable(b)
    ensures AllRepresentable(a + b)
  {
    hide Representable;
  }

  lemma FedDurable(other: Other, d: Disk, l: Log, selected: int, data: Dataset, c: Cmd, db: nat, bytes: Bytes)
    requires Durable(other, d, l, selected, data) && db < |data| && !IsSelect(c)
    requires bytes == EncodeAll(Fed(c, db, selected)) && AllRepresentable(Fed(c, db, selected))
    ensures Durable(other, d.(buf := d.buf + bytes), l.(since := l.since + Fed(c, db, selected)), db,
                    Exec(other, c, db, data))
  {
    hide EncodeAll, Exec, LoadFrom, ReplaysTo, AllRepresentable, Digits;
    var f := Fed(c, db, selected);
    FedReplays(other, l.early + l.since, selected, data, c, db);
    EncodeAllAppend(l.since, f);
    AppendRepresentable(l.since, f);
    assert l.early + (l.since + f) == l.early + l.since + f;
    assert d.file + (d.buf + bytes) == (d.file + d.buf) + bytes;
    assert l.origin + (EncodeAll(l.since) + bytes) == l.origin + EncodeAll(l.since) + bytes;
  }

  lemma FedRewriting(other: Other, temp: Bytes, buffered: Bytes, base: seq<Cmd>, diff: seq<Cmd>, selected: int,
                     data: Dataset, c: Cmd, db: nat, bytes: Bytes)
    requires Rewriting(other, temp, buffered, base, diff, selected, data) && db < |data| && !IsSelect(c)
    requires bytes == EncodeAll(Fed(c, db, selected)) && AllRepresentable(Fed(c, db, selected))
    ensures Rewriting(other, temp, buffered + bytes, base, diff + Fed(c, db, selected), db, Exec(other, c, db, data))
  {
    hide EncodeAll, Exec, RewriteOk, AllRepresentable, Digits;
    FedRewrite(other, base, diff, selected, data, c, db);
    EncodeAllAppend(diff, Fed(c, db, selected));
    AppendRepresentable(diff, Fed(c, db, selected));
  }

  lemma FlushDurable(other: Other, d: Disk, l: Log, selected: int, data: Dataset, n: int, truncated: bool)
    requires Durable(other, d, l, selected, data) && -1 <= n <= |d.buf|
    ensures Durable(other, Flushed(d, n, truncated), l, selected, data)
  {
    hide EncodeAll, LoadFrom, ReplaysTo, AllRepresentable, Flushed;
    FlushLossless(d, n, truncated);
  }

  lemma ForgetSelected(other: Other, d: Disk, l: Log, selected: int, data: Dataset)
    requires Durable(other, d, l, selected, data)
    ensures Durable(other, d, l, -1, data)
  {
    hide EncodeAll, LoadFrom, Run;
  }

  lemma SnapshotRewriting(other: Other, temp: Bytes, base: seq<Cmd>, data: Dataset)
    requires data != [] && temp == EncodeAll(base) && AllRepresentable(base) && Rebuilds(other, base, data)
    ensures Rewriting(other, temp, "", base, [], -1, data)
  {
    hide EncodeAll, AllRepresentable, RewriteOk, Rebuilds;
    RebuildsRewrite(other, base, data);
    NothingFed();
  }

  /** Installing the child's file with the diff appended gives a log of its own. */
  lemma SwapDurable(other: Other, temp: Bytes, buffered: Bytes, base: seq<Cmd>, diff: seq<Cmd>, selected: int,
                    data: Dataset)
    requires Rewriting(other, temp, buffered, base, diff, selected, data)
    ensures var f := temp + buffered;
            Durable(other, Disk(f, "", |f|), Log("", [], base + diff), -1, data)
  {
    hide EncodeAll, LoadFrom, RewriteOk, ReplaysTo, AllRepresentable;
    SwapReplays(other, base, diff, selected, data);
    EncodeAllAppend(base, diff);
    AppendRepresentable(base, diff);
    NothingFed();
    assert [] + (base + diff) == base + diff;
  }

  // The server.

  datatype AofState = Off | On | WaitRewrite

  /** The log's descriptor: none, usable, or one that has been closed but whose
      number is still recorded. */
  datatype Fd = NoFd | Open | Stale

  /** Outcome of the system calls when a rewrite child has ended. */
  datatype ChildOutcome = ChildOutcome(exitOk: bool, openOk: bool, shortAt: int, renameOk: bool, statOk: bool)

  class Server {
    const other: Other
    var state: AofState
    var fd: Fd
    var file: Bytes
    var buf: Bytes
    var selected: int
    var currentSize: nat
    var lastWriteOk: bool
    var child: bool
    var scheduled: bool
    var temp: Bytes
    const rw: RewriteBuffer
    var data: Dataset

    ghost var log: Log
    ghost var base: seq<Cmd>       // commands of the child's file
    ghost var diff: seq<Cmd>       // commands in the rewrite buffer

    ghost predicate Valid()
      reads this, rw
    {
      && rw.Valid() && Storable(data) && -1 <= selected < |data|
      && (!child ==> rw.Contents() == "")
      && (state != Off ==> fd == Open)
      && (state == On ==> Durable(other, Disk(file, buf, currentSize), log, selected, data))
      && (state != Off && child ==> Rewriting(other, temp, rw.Contents(), base, diff, selected, data))
    }

    /** A server with the log disabled. */
    constructor Disabled(data: Dataset, file: Bytes, other: Other)
      requires Storable(data)
      ensures Valid() && state == Off && this.data == data && this.file == file && fresh(rw)
    {
      this.other := other;
      state, fd, this.file, buf, selected := Off, NoFd, file, "", -1;
      currentSize, lastWriteOk, child, scheduled, temp := 0, true, false, false, "";
      rw := new RewriteBuffer();
      this.data := data;
      log, base, diff := Log("", [], []), [], [];
    }

    /** A server that has loaded its log, whoever wrote it. */
    constructor Booted(file: Bytes, data: Dataset, ghost cmds: seq<Cmd>, other: Other)
      requires Storable(data) && LoadFrom(file, 0, []) == Loaded(cmds)
      requires data == Run(other, cmds, Replay(0, EmptyData(|data|))).data
      ensures Valid() && state == On && this.data == data && this.file == file && fresh(rw)
    {
      this.other := other;
      state, fd, this.file, buf, selected := On, Open, file, "", -1;
      currentSize, lastWriteOk, child, scheduled, temp := |file|, true, false, false, "";
      rw := new RewriteBuffer();
      this.data := data;
      log, base, diff := Log(file, cmds, []), [], [];
      new;
      assert cmds + [] == cmds && file + "" == file;
    }

    /** A write command is executed and, unless the log is off, fed to it. */
    method Command(db: nat, c: Cmd)
      requires Valid() && db < |data| && Representable(c) && !IsSelect(c)
      requires Storable(Exec(other, c, db, data))
      modifies this, rw
      ensures Valid() && state == old(state) && file == old(file)
      ensures data == Exec(other, c, db, old(data))
      ensures state == On ==> buf == old(buf) + EncodeAll(Fed(c, db, old(selected)))
      ensures state == Off ==> buf == old(buf)
    {
      hide EncodeAll, Exec, Storable, Representable, Durable, Rewriting, Digits, Join;
      if state != Off {
        StorableSize(data);
        var bytes := FedBytes(c, db);
        ghost var f := Fed(c, db, selected);
        if state == On {
          FedDurable(other, Disk(file, buf, currentSize), log, selected, data, c, db, bytes);
          buf := buf + bytes;
          log := log.(since := log.since + f);
        }
        if child {
          FedRewriting(other, temp, rw.Contents(), base, diff, selected, data, c, db, bytes);
          rw.Append(bytes);
          diff := diff + f;
        }
        selected := db;
      }
      data := Exec(other, c, db, data);
    }

    /** The bytes fed for one command, with a SELECT when the database changes. */
    method FedBytes(c: Cmd, db: nat) returns (bytes: Bytes)
      requires db < 0x8000_0000 && Representable(c)
      ensures bytes == EncodeAll(Fed(c, db, selected)) && AllRepresentable(Fed(c, db, selected))
    {
      hide EncodeAll, Encode, Digits, AllRepresentable, Fed;
      FedEncoding(c, db, selected);
      bytes := "";
      if db != selected { bytes := CatCommand(bytes, Select(db)); }
      bytes := CatCommand(bytes, c);
    }

    /** `flushAppendOnlyFile`: `n` is what write(2) reports, `truncated` whether
        ftruncate(2) succeeds, `always` the fsync policy under which a write error
        ends the process. A descriptor that was closed but is still recorded may stand
        for another file by now. */
    method Flush(postpone: bool, n: int, truncated: bool, always: bool) returns (exits: bool)
      requires Valid() && -1 <= n <= |buf| && (fd == NoFd ==> n == -1)
      modifies this
      ensures state == old(state) && data == old(data) && fd == old(fd) && child == old(child)
      ensures !exits ==> Valid()
      ensures fd != Open ==> file == old(file)
      ensures !exits && !postpone && fd == Open ==>
                Disk(file, buf, currentSize) == Flushed(old(Disk(file, buf, currentSize)), n, truncated)
      ensures !exits && state == On ==> file + buf == old(file + buf) && old(file) <= file
      ensures exits ==> always && n != old(|buf|)
      ensures log == old(log)
      // A complete write moves the whole buffer into the file.
      ensures !postpone && fd == Open && n == old(|buf|) > 0 ==>
                !exits && buf == "" && file == old(file) + old(buf) && currentSize == old(currentSize) + n
      // A short one that cannot be cut back moves exactly what was written.
      ensures !exits && !postpone && fd == Open && 0 <= n < old(|buf|) && !truncated ==>
                file == old(file) + old(buf)[..n] && buf == old(buf)[n..] && currentSize == old(currentSize) + n
      // One cut back to the right size, or a failed one, moves nothing.
      ensures !exits && !postpone && fd == Open && n < old(|buf|) && (n == -1 || truncated) ==>
                old(currentSize == |file|) || n == -1 ==>
                  file == old(file) && buf == old(buf) && currentSize == old(currentSize)
      ensures !exits && !postpone && old(|buf|) > 0 ==> lastWriteOk == (n == old(|buf|))
      ensures postpone || old(|buf|) == 0 ==> lastWriteOk == old(lastWriteOk) && file == old(file) && buf == old(buf)
    {
      hide Storable, Durable, Rewriting, Truncate, Join;
      exits := false;
      if |buf| == 0 || postpone { return; }
      ghost var d := Disk(file, buf, currentSize);
      if state == On {
        DurableSize(other, d, log, selected, data);
        FlushDurable(other, d, log, selected, data, n, truncated);
      }
      FlushLossless(d, n, truncated);
      assert d.file + d.buf[..0] == d.file && d.buf[..|d.buf|] == d.buf;
      var written := n;
      if n > 0 && fd == Open { file := file + buf[..n]; }
      if written != |buf| {
        if written != -1 && truncated {
          if fd == Open { file := Truncate(file, currentSize); }
          written := -1;
        }
        if always { return true; }
        lastWriteOk := false;
        if written > 0 {
          currentSize := currentSize + written;
          buf := buf[written..];
        }
        return;
      }
      lastWriteOk := true;
      currentSize := currentSize + written;
      buf := "";
    }

    /** `rewriteAppendOnlyFileBackground`. The child sees the dataset as of the
        fork; what it will write is fixed there. */
    method Fork(forkOk: bool) returns (ok: bool)
      requires Valid()
      modifies this
      ensures Valid() && ok == (!old(child) && forkOk)
      ensures state == old(state) && data == old(data) && file == old(file) && buf == old(buf) && fd == old(fd)
      ensures ok ==> child && selected == -1 && Rewriting(other, temp, rw.Contents(), base, diff, selected, data)
      ensures scheduled == (!ok && old(scheduled))
      ensures !ok ==> child == old(child)
    {
      hide Durable, Rewriting, Rebuilds, AllRepresentable, EncodeAll, Join;
      if child || !forkOk { return false; }
      temp, base := RewriteAll(data, other);
      SnapshotRewriting(other, temp, base, data);
      if state == On { ForgetSelected(other, Disk(file, buf, currentSize), log, selected, data); }
      scheduled := false;
      child := true;
      selected := -1;
      diff := [];
      return true;
    }

    /** `backgroundRewriteDoneHandler`: on success the rewritten file and the diff
        become the log, and the buffer, whose commands are in the diff, is dropped. When
        the new file's size cannot be read the recorded one stays as it was. */
    method ChildDone(o: ChildOutcome) returns (swapped: bool)
      requires Valid() && child
      modifies this, rw
      ensures !child && data == old(data)
      ensures !swapped || o.statOk || old(fd) == NoFd ==> Valid()
      ensures swapped && !o.statOk && state == On ==>
                Durable(other, Disk(file, buf, |file|), log, selected, data) && currentSize == old(currentSize)
      ensures swapped ==> file == old(temp + rw.Contents())
      ensures swapped ==> o.exitOk && o.openOk && o.renameOk
      ensures o.exitOk && o.openOk && o.renameOk && o.shortAt < 0 ==> swapped
      ensures !swapped ==> file == old(file) && buf == old(buf) && state == old(state)
      ensures swapped ==> state == if old(state) == WaitRewrite then On else old(state)
      ensures state == On && swapped ==> buf == ""
      ensures state == WaitRewrite ==> scheduled
      ensures state != WaitRewrite ==> scheduled == old(scheduled)
    {
      hide Storable, Durable, Rewriting, Join;
      swapped := false;
      if o.exitOk && o.openOk {
        var ok, merged := rw.WriteTo(temp, o.shortAt);
        if ok && o.renameOk {
          swapped := true;
          Install(merged, o.statOk);
        }
      }
      rw.Reset();
      child := false;
      if state == WaitRewrite { scheduled := true; }
    }

    /** The rewritten file takes the place of the log. */
    method Install(merged: Bytes, statOk: bool)
      requires Valid() && child && merged == temp + rw.Contents()
      modifies this`file, this`log, this`fd, this`selected, this`currentSize, this`buf, this`state
      ensures file == merged && state == if old(state) == WaitRewrite then On else old(state)
      ensures -1 <= selected < |data| && (state != Off ==> fd == Open)
      ensures state == On ==> buf == "" && Durable(other, Disk(file, buf, |file|), log, selected, data)
      ensures currentSize == if statOk && old(fd) != NoFd then |file| else old(currentSize)
    {
      hide Storable, Durable, Rewriting, Join;
      file := merged;
      if state != Off {
        SwapDurable(other, temp, rw.Contents(), base, diff, selected, data);
        log := Log("", [], base + diff);
      }
      if fd != NoFd {
        fd := Open;
        selected := -1;
        if statOk { currentSize := |file|; }
        buf := "";
      }
      if state == WaitRewrite { state := On; }
    }

    /** `stopAppendOnly`: a last flush, then the child, if any, is killed. */
    method Stop(n: int, truncated: bool, always: bool) returns (exits: bool)
      requires Valid() && state != Off && -1 <= n <= |buf|
      modifies this, rw
      ensures data == old(data)
      ensures !exits ==> Valid() && state == Off && fd == NoFd && selected == -1 && !child
      ensures !exits && old(state) == On ==> file + buf == old(file + buf)
    {
      hide Storable, Durable, Rewriting, Flushed, Join;
      exits := Flush(false, n, truncated, always);
      if exits { return; }
      fd := NoFd;
      selected := -1;
      state := Off;
      if child {
        rw.Reset();
        child := false;
      }
    }

    /** `startAppendOnly`: the log stays unused until a rewrite has completed. */
    method Start(openOk: bool, forkOk: bool) returns (ok: bool)
      requires Valid() && state == Off
      modifies this
      ensures Valid() && data == old(data) && file == old(file)
      ensures ok == (openOk && !old(child) && forkOk)
      ensures state == if ok then WaitRewrite else Off
      ensures ok ==> child && fd == Open
    {
      hide Storable, Durable, Rewriting, Join;
      if !openOk {
        fd := NoFd;
        return false;
      }
      fd := Open;
      ok := Fork(forkOk);
      if !ok {
        fd := Stale;
        return;
      }
      state := WaitRewrite;
    }

    /** While the log is on, loading it would give back the current dataset. */
    lemma LogLoads()
      requires Valid() && state == On
      ensures var r := LoadFrom(file + buf, 0, []);
              r.Loaded? && Run(other, r.cmds, Replay(0, EmptyData(|data|))).data == data
    {
      hide Durable, Rewriting, Storable, LoadFrom, Run, Join;
      DurableLoads(other, Disk(file, buf, currentSize), log, selected, data);
    }

    /** If the process dies while the log is on, the file alone loads a prefix of
        the logged commands; nothing flushed is missing from it. */
    lemma CrashLoads()
      requires Valid() && state == On
      ensures var m := Whole(log.since, |file| - |log.origin|);
              var r := LoadFrom(file, 0, []);
              && (r.Loaded? || r.Truncated?) && r.cmds == log.early + log.since[..m]
              && (buf == "" ==> r == Loaded(log.early + log.since))
    {
      hide Durable, Rewriting, Storable, LoadFrom, Whole, EncodeAll, Join;
      CrashPrefix(other, Disk(file, buf, currentSize), log, selected, data);
    }

    /** With the buffer flushed, the file alone loads every logged command and gives the
        dataset. */
    lemma FlushedLoads()
      requires Valid() && state == On && buf == ""
      ensures LoadFrom(file, 0, []) == Loaded(log.early + log.since)
      ensures Run(other, log.early + log.since, Replay(0, EmptyData(|data|))).data == data
    {
      hide Durable, Rewriting, Storable, LoadFrom, Run, Join;
      DurableLoads(other, Disk(file, buf, currentSize), log, selected, data);
      assert file + buf == file;
    }
  }

  lemma DurableSize(other: Other, d: Disk, l: Log, selected: int, data: Dataset)
    requires Durable(other, d, l, selected, data)
    ensures d.size == |d.file|
  {
  }

  lemma StorableSize(data: Dataset)
    requires Storable(data)
    ensures 1 <= |data| < 0x8000_0000
  {
  }

  lemma DurableLoads(other: Other, d: Disk, l: Log, selected: int, data: Dataset)
    requires Durable(other, d, l, selected, data)
    ensures LoadFrom(d.file + d.buf, 0, []) == Loaded(l.early + l.since)
    ensures Run(other, l.early + l.since, Replay(0, EmptyData(|data|))).data == data
  {
    hide Run, LoadFrom, EncodeAll, AllRepresentable;
    var n := |EncodeAll(l.since)|;
    LoadPrefix(l.origin, l.early, l.since, n);
    WholeAll(l.since);
    assert EncodeAll(l.since)[..n] == EncodeAll(l.since) && l.since[..|l.since|] == l.since;
  }

  /** The file of a durable log is cut at most inside one of its commands. */
  lemma CrashPrefix(other: Other, d: Disk, l: Log, selected: int, data: Dataset)
    requires Durable(other, d, l, selected, data)
    ensures var m := Whole(l.since, |d.file| - |l.origin|);
            var end := |l.origin| + |EncodeAll(l.since[..m])|;
            && LoadFrom(d.file, 0, []) ==
               (if end == |d.file| then Loaded(l.early + l.since[..m]) else Truncated(l.early + l.since[..m], end))
            && (d.buf == "" ==> LoadFrom(d.file, 0, []) == Loaded(l.early + l.since))
  {
    hide Run, LoadFrom, EncodeAll, AllRepresentable;
    var n := |d.file| - |l.origin|;
    assert d.file == (d.file + d.buf)[..|d.file|] == l.origin + EncodeAll(l.since)[..n];
    LoadPrefix(l.origin, l.early, l.since, n);
    if d.buf == "" {
      DurableLoads(other, d, l, selected, data);
      assert d.file + d.buf == d.file;
    }
  }

  lemma NothingFed()
    ensures EncodeAll([]) == "" && AllRepresentable([]) && LoadFrom("", 0, []) == Loaded([])
  {
  }

  lemma SwapReplays(other: Other, base: seq<Cmd>, diff: seq<Cmd>, selected: int, data: Dataset)
    requires RewriteOk(other, base, diff, selected, data)
    ensures ReplaysTo(other, base + diff, -1, data)
  {
  }

  lemma LoadPrefix(origin: Bytes, early: seq<Cmd>, log: seq<Cmd>, n: nat)
    requires LoadFrom(origin, 0, []) == Loaded(early) && AllRepresentable(log) && n <= |EncodeAll(log)|
    ensures var m := Whole(log, n);
            var end := |EncodeAll(log[..m])|;
            LoadFrom(origin + EncodeAll(log)[..n], 0, []) ==
              if end == n then Loaded(early + log[..m]) else Truncated(early + log[..m], |origin| + end)
  {
    hide LoadFrom, EncodeAll, Representable;
    LoadAppend(origin, EncodeAll(log)[..n], 0, []);
    LoadPrefixFrom(log, n, |origin|, early);
  }
}
