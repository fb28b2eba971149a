/** What clients can tell from requests and replies alone: a read returns, byte by byte, what the last successful
    write put there since the last truncation, and stops short only where nothing has been written. */
module InodeHistory {
  import opened FsBlocks
  import P = InodeProofs
  import opened InodeCode
  import opened InodeRuns

  datatype Cell = Unwritten | Written(x: Byte)

  function CellOf(f: seq<Byte>, o: nat): Cell { if o < |f| then Written(f[o]) else Unwritten }

  /** What a request that returned `ret` makes of byte o of file i. */
  function Updated(before: Cell, req: Request, ret: int, i: nat, o: nat): Cell {
    match req
    case Read(_, _, _) => before
    case Truncate(j) => if j == i then Unwritten else before
    case Write(j, off, src) =>
      if j == i && ret != ERROR && off <= o < off + |src| then Written(src[o - off]) else before
  }

  /** Byte o of file i after these requests got these replies; `first` is the file before them. */
  function Remembered(first: seq<Byte>, reqs: seq<Request>, replies: seq<Reply>, i: nat, o: nat): Cell
    requires |reqs| == |replies|
  {
    if reqs == [] then CellOf(first, o)
    else
      var k := |reqs| - 1;
      Updated(Remembered(first, reqs[..k], replies[..k], i, o), reqs[k], replies[k].ret, i, o)
  }

  lemma WriteCell(f: seq<Byte>, off: nat, src: seq<Byte>, o: nat)
    requires off <= |f|
    ensures CellOf(P.WriteAt(f, off, src), o) == if off <= o < off + |src| then Written(src[o - off]) else CellOf(f, o)
  {}

  lemma NextCell(files: Files, req: Request, i: nat, o: nat)
    requires Proper(req, |files|) && i < |files|
    ensures CellOf(Next(files, req)[i], o) == Updated(CellOf(files[i], o), req, Answer(files, req).ret, i, o)
  {
    if req.Write? && req.i == i && !Refused(|files[i]|, req.off, |req.src|) {
      WriteCell(files[i], req.off, req.src, o);
    }
  }

  lemma AnswersLast(files: Files, reqs: seq<Request>, k: nat)
    requires AllProper(reqs, |files|) && k + 1 == |reqs|
    ensures AllProper(reqs[..k], |files|) && Proper(reqs[k], |files|)
    ensures Answers(files, reqs)[..k] == Answers(files, reqs[..k])
    ensures Answers(files, reqs)[k] == Answer(After(files, reqs[..k]), reqs[k])
    ensures After(files, reqs) == Next(After(files, reqs[..k]), reqs[k])
  {
    hide Next, Answer;
  }

  /** The plain files hold what the history says. */
  lemma {:induction false} LastWriteWins(files: Files, reqs: seq<Request>, i: nat, o: nat)
    requires AllProper(reqs, |files|) && i < |files|
    ensures Remembered(files[i], reqs, Answers(files, reqs), i, o) == CellOf(After(files, reqs)[i], o)
  {
    hide Next, Answer, CellOf, Updated, AllProper, Proper;
    if reqs != [] {
      hide After, Answers;
      var k := |reqs| - 1;
      AnswersLast(files, reqs, k);
      LastWriteWins(files, reqs[..k], i, o);
      NextCell(After(files, reqs[..k]), reqs[k], i, o);
    }
  }

  /** A read that is served gives the remembered bytes, as many as asked for or up to the first unwritten one. */
  lemma ReadsRemember(files: Files, reqs: seq<Request>, i: nat, off: nat, n: nat)
    requires AllProper(reqs, |files|) && Proper(Read(i, off, n), |files|)
    ensures var reply, replies := Answer(After(files, reqs), Read(i, off, n)), Answers(files, reqs);
            reply.ret != ERROR ==>
              && 0 <= reply.ret == |reply.data| <= n
              && (forall m :: 0 <= m < |reply.data| ==>
                    Remembered(files[i], reqs, replies, i, off + m) == Written(reply.data[m]))
              && (reply.ret < n ==> Remembered(files[i], reqs, replies, i, off + reply.ret) == Unwritten)
  {
    hide After, Answers, Remembered;
    forall o: nat ensures Remembered(files[i], reqs, Answers(files, reqs), i, o) == CellOf(After(files, reqs)[i], o) {
      LastWriteWins(files, reqs, i, o);
    }
  }
}
