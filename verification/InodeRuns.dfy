/** Whole runs of requests against one file system refine a plain array of byte sequences, and stop exactly at
    a write that lacks more blocks than are free. */
module InodeRuns {
  import opened FsBlocks
  import opened InodeSpec
  import opened InodeProofs
  import opened InodeSpace
  import opened InodeCode

  datatype Request =
    | Read(i: nat, off: nat, n: nat)
    | Write(i: nat, off: nat, src: seq<Byte>)
    | Truncate(i: nat)

  datatype Reply = Reply(ret: int, data: seq<Byte>)

  type Files = seq<seq<Byte>>

  predicate Proper(req: Request, files: nat) {
    && req.i < files
    && (req.Read? ==> req.off < WORD && req.n < WORD)
    && (req.Write? ==> req.off < WORD && |req.src| < WORD)
  }

  /** writei of n bytes at off in a file of `size` bytes returns -1. */
  predicate Refused(size: nat, off: nat, n: nat) {
    off > size || off + n >= WORD || off + n > MAXFILE * BSIZE
  }

  /** What the file system is meant to be. */
  function Next(files: Files, req: Request): (r: Files)
    requires Proper(req, |files|)
    ensures |r| == |files|
  {
    var f := files[req.i];
    match req
    case Read(_, _, _) => files
    case Write(i, off, src) =>
      if Refused(|f|, off, |src|) then files
      else files[i := WriteAt(f, off, src)]
    case Truncate(i) => files[i := []]
  }

  function Answer(files: Files, req: Request): Reply
    requires Proper(req, |files|)
  {
    var f := files[req.i];
    match req
    case Read(_, off, n) =>
      if off > |f| || off + n >= WORD then Reply(ERROR, [])
      else var m := if off + n > |f| then |f| - off else n; Reply(m, f[off..off + m])
    case Write(_, off, src) =>
      if Refused(|f|, off, |src|) then Reply(ERROR, []) else Reply(|src|, [])
    case Truncate(_) => Reply(0, [])
  }

  predicate AllProper(reqs: seq<Request>, files: nat) {
    forall k :: 0 <= k < |reqs| ==> Proper(reqs[k], files)
  }

  function After(files: Files, reqs: seq<Request>): (r: Files)
    requires AllProper(reqs, |files|)
    ensures |r| == |files|
  {
    if reqs == [] then files else Next(After(files, reqs[..|reqs| - 1]), reqs[|reqs| - 1])
  }

  function Answers(files: Files, reqs: seq<Request>): (r: seq<Reply>)
    requires AllProper(reqs, |files|)
    ensures |r| == |reqs|
  {
    if reqs == [] then []
    else
      var before := reqs[..|reqs| - 1];
      Answers(files, before) + [Answer(After(files, before), reqs[|reqs| - 1])]
  }

  /** The stored bytes are the abstract files. */
  ghost predicate Represents(disk: seq<Block>, inodes: seq<Inode>, files: Files) {
    && |files| == |inodes|
    && forall k :: 0 <= k < |inodes| ==> InodeOk(inodes[k]) && Content(disk, inodes[k]) == files[k]
  }

  /** The files as they are stored. */
  function FilesOf(disk: seq<Block>, inodes: seq<Inode>): (files: Files)
    ensures |files| == |inodes|
  {
    seq(|inodes|, k requires 0 <= k < |inodes| => if InodeOk(inodes[k]) then Content(disk, inodes[k]) else [])
  }

  lemma FilesRepresented(sb: Super, disk: seq<Block>, inodes: seq<Inode>, owner: Owners)
    requires Owned(sb, disk, inodes, owner)
    ensures Represents(disk, inodes, FilesOf(disk, inodes))
  {
    hide Bytes, RefsOk, BitsOk;
  }

  lemma OthersRepresented(disk: seq<Block>, inodes: seq<Inode>, disk': seq<Block>, inodes': seq<Inode>, i: nat,
                          files: Files)
    requires Represents(disk, inodes, files) && OthersKept(disk, inodes, disk', inodes', i) && i < |inodes|
    requires forall k :: 0 <= k < |inodes| ==> InodeOk(inodes[k]) && Mapped(disk, inodes[k], inodes[k].size)
    requires InodeOk(inodes'[i])
    ensures Represents(disk', inodes', files[i := Content(disk', inodes'[i])])
  {
    hide Mapped, Bytes;
  }

  /** What a run goes through. */
  datatype Stage = Stage(disk: seq<Block>, inodes: seq<Inode>, owner: Owners)

  ghost function Now(fs: FileSystem): Stage
    reads fs
  {
    Stage(fs.disk, fs.inodes, fs.owner)
  }

  /** A proper write for which there are not enough free blocks. */
  predicate Starved(sb: Super, s: Stage, req: Request)
    requires Wf(sb, s.disk, s.inodes) && req.i < |s.inodes|
  {
    && req.Write? && !Refused(s.inodes[req.i].size, req.off, |req.src|)
    && Short(sb, s.disk, s.inodes[req.i], req.off, |req.src|)
  }

  /** What a request costs: a write the blocks it lacks, a truncation gives all of them back. */
  ghost predicate Billed(sb: Super, s: Stage, req: Request, s': Stage)
    requires Wf(sb, s.disk, s.inodes) && Wf(sb, s'.disk, s'.inodes) && req.i < |s.inodes|
  {
    match req
    case Read(_, _, _) => s' == s
    case Write(i, off, src) =>
      if Refused(s.inodes[i].size, off, |src|) then s' == s
      else
        && EndBlock(off, |src|) <= MAXFILE
        && |FreeSet(sb, s'.disk)| == |FreeSet(sb, s.disk)| - Lacking(s.disk, s.inodes[i], off, |src|)
    case Truncate(i) => FreeSet(sb, s'.disk) == FreeSet(sb, s.disk) + BlocksOf(s.disk, s.inodes[i])
  }

  lemma EndFits(off: nat, n: nat)
    requires off + n <= MAXFILE * BSIZE
    ensures EndBlock(off, n) <= MAXFILE
  {}

  lemma WellFormed(sb: Super, disk: seq<Block>, inodes: seq<Inode>, owner: Owners)
    requires Owned(sb, disk, inodes, owner)
    ensures Wf(sb, disk, inodes)
  {}

  /** One request, through the code. */
  method Serve(fs: FileSystem, req: Request, ghost files: Files) returns (reply: Reply)
    requires fs.Valid() && Represents(fs.disk, fs.inodes, files) && Proper(req, |fs.inodes|)
    modifies fs
    ensures fs.Consistent() && |fs.inodes| == |old(fs.inodes)|
    ensures reply.ret == PANIC <==> Starved(fs.sb, old(Now(fs)), req)
    ensures reply.ret != PANIC ==> fs.Valid() && Represents(fs.disk, fs.inodes, Next(files, req))
    ensures reply.ret != PANIC ==> reply == Answer(files, req)
    ensures reply.ret != PANIC ==> Billed(fs.sb, old(Now(fs)), req, Now(fs))
  {
    hide Owned, Mapped, Bytes, OthersKept, FreeSet, BlocksOf, Short, Lacking, EndBlock;
    AllOk(fs.sb, fs.disk, fs.inodes, fs.owner);
    WellFormed(fs.sb, fs.disk, fs.inodes, fs.owner);
    match req
    case Read(i, off, n) =>
      var r, dst := fs.Readi(i, off, n);
      reply := Reply(r, if r == ERROR then [] else dst);
    case Write(i, off, src) =>
      if off + |src| <= MAXFILE * BSIZE { EndFits(off, |src|); }
      var r := fs.Writei(i, off, src);
      reply := Reply(r, []);
      WellFormed(fs.sb, fs.disk, fs.inodes, fs.owner);
      KeptLength(old(fs.disk), old(fs.inodes), fs.disk, fs.inodes, i);
      if r != PANIC {
        OthersRepresented(old(fs.disk), old(fs.inodes), fs.disk, fs.inodes, i, files);
      }
    case Truncate(i) =>
      fs.Itrunc(i);
      WellFormed(fs.sb, fs.disk, fs.inodes, fs.owner);
      OthersRepresented(old(fs.disk), old(fs.inodes), fs.disk, fs.inodes, i, files);
      GivenBack(fs.sb, old(fs.disk), old(fs.inodes), old(fs.owner), i, fs.disk);
      reply := Reply(0, []);
  }

  lemma KeptLength(disk: seq<Block>, inodes: seq<Inode>, disk': seq<Block>, inodes': seq<Inode>, i: nat)
    requires OthersKept(disk, inodes, disk', inodes', i)
    ensures |inodes'| == |inodes|
  {}

  // ---- Whole runs ------------------------------------------------------------------------

  ghost predicate Sound(sb: Super, s: Stage, files: Files) {
    Owned(sb, s.disk, s.inodes, s.owner) && Represents(s.disk, s.inodes, files)
  }

  ghost predicate Served(sb: Super, s: Stage, req: Request, s': Stage) {
    && Wf(sb, s.disk, s.inodes) && Wf(sb, s'.disk, s'.inodes) && req.i < |s.inodes|
    && !Starved(sb, s, req) && Billed(sb, s, req, s')
  }

  /** The first n requests were served: at every stage the blocks are in order and the stored files are the
      plain ones, no request lacked blocks, and each cost what it should. */
  ghost predicate History(sb: Super, files: Files, reqs: seq<Request>, n: nat, stages: seq<Stage>)
    requires AllProper(reqs, |files|)
  {
    && n <= |reqs| && |stages| == n + 1
    && (forall k :: 0 <= k <= n ==> SoundAt(sb, files, reqs, stages[k], k))
    && (forall k :: 0 <= k < n ==> ServedAt(sb, reqs, stages, k))
  }

  /** After k requests. */
  ghost predicate SoundAt(sb: Super, files: Files, reqs: seq<Request>, s: Stage, k: nat)
    requires AllProper(reqs, |files|)
  {
    k <= |reqs| && Sound(sb, s, After(files, reqs[..k]))
  }

  ghost predicate ServedAt(sb: Super, reqs: seq<Request>, stages: seq<Stage>, k: nat) {
    k < |reqs| && k + 1 < |stages| && Served(sb, stages[k], reqs[k], stages[k + 1])
  }

  lemma HistorySnoc(sb: Super, files: Files, reqs: seq<Request>, n: nat, stages: seq<Stage>, s: Stage)
    requires AllProper(reqs, |files|) && History(sb, files, reqs, n, stages) && n < |reqs|
    requires SoundAt(sb, files, reqs, s, n + 1) && Served(sb, stages[n], reqs[n], s)
    ensures History(sb, files, reqs, n + 1, stages + [s])
  {
    hide SoundAt, Served, AllProper;
    forall k | 0 <= k < n ensures ServedAt(sb, reqs, stages + [s], k) {
      assert ServedAt(sb, reqs, stages, k);
    }
  }

  /** Every sequence of requests is answered as the plain files would answer it, up to the first write that
      lacks more blocks than are free. */
  method ServeAll(fs: FileSystem, reqs: seq<Request>) returns (replies: seq<Reply>, ghost stages: seq<Stage>)
    requires fs.Valid() && AllProper(reqs, |fs.inodes|)
    modifies fs
    ensures |replies| <= |reqs| && replies == Answers(FilesOf(old(fs.disk), old(fs.inodes)), reqs[..|replies|])
    ensures History(fs.sb, FilesOf(old(fs.disk), old(fs.inodes)), reqs, |replies|, stages) && stages[0] == old(Now(fs))
    ensures |replies| < |reqs| ==>
              var s := stages[|replies|];
              && fs.Consistent() && Wf(fs.sb, s.disk, s.inodes) && reqs[|replies|].i < |s.inodes|
              && Starved(fs.sb, s, reqs[|replies|])
    ensures |replies| == |reqs| ==> fs.Valid() && stages[|reqs|] == Now(fs)
    ensures |replies| == |reqs| ==>
              FilesOf(fs.disk, fs.inodes) == After(FilesOf(old(fs.disk), old(fs.inodes)), reqs)
  {
    hide Owned, Next, Answer, FilesOf, Starved, Billed, History;
    ghost var files := FilesOf(fs.disk, fs.inodes);
    FilesRepresented(fs.sb, fs.disk, fs.inodes, fs.owner);
    HistoryStart(fs.sb, files, reqs, Now(fs));
    replies := [];
    stages := [Now(fs)];
    var k := 0;
    while k < |reqs|
      invariant k == |replies| <= |reqs| && |fs.inodes| == |files|
      invariant fs.Valid() && Represents(fs.disk, fs.inodes, After(files, reqs[..k]))
      invariant replies == Answers(files, reqs[..k])
      invariant History(fs.sb, files, reqs, k, stages) && |stages| == k + 1
      invariant stages[0] == old(Now(fs)) && stages[k] == Now(fs)
    {
      assert reqs[..k + 1][..k] == reqs[..k];
      WellFormed(fs.sb, fs.disk, fs.inodes, fs.owner);
      var reply := Serve(fs, reqs[k], After(files, reqs[..k]));
      if reply.ret == PANIC {
        return;
      }
      WellFormed(fs.sb, fs.disk, fs.inodes, fs.owner);
      HistorySnoc(fs.sb, files, reqs, k, stages, Now(fs));
      replies := replies + [reply];
      stages := stages + [Now(fs)];
      k := k + 1;
    }
    assert reqs[..k] == reqs;
    OneFiles(fs.disk, fs.inodes, After(files, reqs));
  }

  lemma HistoryStart(sb: Super, files: Files, reqs: seq<Request>, s: Stage)
    requires AllProper(reqs, |files|) && Sound(sb, s, files)
    ensures History(sb, files, reqs, 0, [s])
  {
    hide Sound;
    assert reqs[..0] == [];
  }

  lemma OneFiles(disk: seq<Block>, inodes: seq<Inode>, files: Files)
    requires Represents(disk, inodes, files)
    ensures FilesOf(disk, inodes) == files
  {
    hide Bytes;
  }
}
