/** bio.c over the memory disk of memide.c. Each method is one critical section of bcache.lock or
    one use of a locked buffer, so any interleaving of threads is a sequence of calls. */
module BufferCache {
  import opened LogSpec
  import opened LruRing

  const ROOTDEV: nat := 1

  /** struct buf; `holder` is the thread holding the buffer's sleep lock, or -1. */
  datatype Buf = Buf(dev: nat, blockno: nat, valid: bool, dirty: bool, refcnt: nat, holder: int, data: Block)

  predicate Caches(buf: Buf, blockno: nat) { buf.dev == ROOTDEV && buf.blockno == blockno }

  predicate Busy(buf: Buf) { buf.refcnt > 0 || buf.dirty }

  /** b is the last buffer of the ring that is not busy. */
  ghost predicate Oldest(bufs: seq<Buf>, ring: seq<nat>, b: nat) {
    exists k :: 0 <= k < |ring| && ring[k] == b && BusyBehind(bufs, ring, k)
  }

  predicate BusyBehind(bufs: seq<Buf>, ring: seq<nat>, k: nat) {
    forall j :: k < j < |ring| && ring[j] < |bufs| ==> Busy(bufs[ring[j]])
  }

  ghost predicate MovedToFront(ring: seq<nat>, b: nat, ring': seq<nat>) {
    exists k :: 0 <= k < |ring| && ring[k] == b && ring' == [b] + Drop(ring, k)
  }

  /** One more user. */
  function Referenced(buf: Buf): Buf { buf.(refcnt := buf.refcnt + 1) }

  /** The buffer taken over for another block: neither valid nor dirty, one user. */
  function Recycled(buf: Buf, blockno: nat): Buf { Buf(ROOTDEV, blockno, false, false, 1, buf.holder, buf.data) }

  /** The index of the buffer that caches each block of ROOTDEV: at most one per block. */
  ghost predicate WhereOk(bufs: seq<Buf>, whereIs: map<nat, nat>) {
    && (forall b :: 0 <= b < |bufs| && bufs[b].dev == ROOTDEV ==>
          bufs[b].blockno in whereIs && whereIs[bufs[b].blockno] == b)
    && (forall blk <- whereIs ::
          whereIs[blk] < |bufs| && bufs[whereIs[blk]].dev == ROOTDEV && bufs[whereIs[blk]].blockno == blk)
  }

  /** Reference counts and sleep locks belong to the threads using the buffer. */
  predicate UsersOk(bufs: seq<Buf>, users: seq<multiset<nat>>) {
    && |users| == |bufs|
    && forall b :: 0 <= b < |bufs| ==>
         bufs[b].refcnt == |users[b]| && (bufs[b].holder == -1 || (bufs[b].holder >= 0 && bufs[b].holder in users[b]))
  }

  /** `logical` is the plain disk the cache stands for: the last contents that any client passed to
      log_write or bwrite. `unsaved` are the locked buffers changed since. */
  predicate DataOk(bufs: seq<Buf>, whereIs: map<nat, nat>, disk: Disk, logical: Disk, unsaved: set<nat>) {
    && |logical| == |disk|
    && (forall b :: 0 <= b < |bufs| ==>
          && (bufs[b].dev == ROOTDEV ==> bufs[b].blockno < |disk|)
          && (bufs[b].dirty ==> bufs[b].valid)
          && (bufs[b].valid ==> bufs[b].dev == ROOTDEV)
          && (bufs[b].valid && bufs[b].dev == ROOTDEV && bufs[b].blockno < |disk| && b !in unsaved ==>
                bufs[b].data == logical[bufs[b].blockno]))
    && (forall blk :: 0 <= blk < |disk| && disk[blk] != logical[blk] ==>
          blk in whereIs && whereIs[blk] < |bufs| && bufs[whereIs[blk]].dirty)
    && (forall b <- unsaved :: b < |bufs| && bufs[b].holder != -1 && bufs[b].valid)
  }

  class Cache {
    const n: nat  // NBUF
    const next: array<nat>
    const prev: array<nat>
    var bufs: seq<Buf>
    var users: seq<multiset<nat>>  // the threads between bget and brelse of each buffer
    var disk: Disk
    var unsaved: set<nat>          // the locked buffers changed since their last log_write or bwrite
    ghost var ring: seq<nat>
    ghost var whereIs: map<nat, nat>
    ghost var logical: Disk

    ghost predicate RingOk()
      reads this, next, prev
    {
      && next != prev
      && IsRing(next[..], prev[..], n, ring)
      && |ring| == n && forall x :: 0 <= x < n ==> x in ring
    }

    ghost predicate Valid()
      reads this, next, prev
    {
      && RingOk() && |bufs| == n
      && WhereOk(bufs, whereIs) && UsersOk(bufs, users) && DataOk(bufs, whereIs, disk, logical, unsaved)
    }

    /** Link b in after the head: bio.c:50-54 and bio.c:134-137. */
    method LinkFront(b: nat)
      requires next != prev && IsRing(next[..], prev[..], n, ring) && b < n && b !in ring
      modifies next, prev, this`ring
      ensures IsRing(next[..], prev[..], n, ring) && ring == [b] + old(ring)
    {
      InsertFront(next[..], prev[..], n, ring, b);
      var first := next[n];
      next[b] := first;
      prev[b] := n;
      prev[first] := b;
      next[n] := b;
      ring := [b] + ring;
      assert next[..] == old(next[..])[b := first][n := b];
      assert prev[..] == old(prev[..])[b := n][first := b];
    }

    /** binit, on a disk that no buffer caches. */
    constructor (n: nat, disk: Disk)
      ensures Valid() && this.n == n && this.disk == logical == disk && unsaved == {}
      ensures fresh(next) && fresh(prev)
      ensures forall b :: 0 <= b < n ==> bufs[b].refcnt == 0 && !bufs[b].dirty
    {
      this.n := n;
      next := new nat[n + 1](i => n);
      prev := new nat[n + 1](i => n);
      bufs := EmptyBufs(n);
      users := NoUsers(n);
      this.disk := disk;
      ring := [];
      whereIs := map[];
      logical := disk;
      unsaved := {};
      new;
      var b := 0;
      while b < n
        invariant 0 <= b <= n && fresh(next) && fresh(prev) && next != prev
        invariant IsRing(next[..], prev[..], n, ring) && |ring| == b
        invariant forall x :: 0 <= x < n ==> (x in ring <==> x < b)
        invariant bufs == EmptyBufs(n) && users == NoUsers(n) && this.disk == disk == logical && whereIs == map[]
        invariant unsaved == {}
      {
        LinkFront(b);
        b := b + 1;
      }
    }
  
    /** The first loop of bget: the buffer that caches the block, or -1. */
    method FindCached(blockno: nat) returns (b: int)
      requires Valid()
      ensures -1 <= b < n
      ensures b != -1 ==> Caches(bufs[b], blockno)
      ensures b == -1 ==> forall x :: 0 <= x < n ==> !Caches(bufs[x], blockno)
    {
      hide UsersOk, DataOk, WhereOk;
      ghost var k := 0;
      assert next[..][At(n, ring, -1)] == At(n, ring, 0);
      b := next[n];
      while b != n
        invariant 0 <= k <= n && b == At(n, ring, k)
        invariant forall j :: 0 <= j < k ==> !(bufs[ring[j]].dev == ROOTDEV && bufs[ring[j]].blockno == blockno)
        decreases n - k
      {
        if bufs[b].dev == ROOTDEV && bufs[b].blockno == blockno {
          return;
        }
        assert next[..][At(n, ring, k)] == At(n, ring, k + 1);
        b := next[b];
        k := k + 1;
      }
      forall x | 0 <= x < n ensures !(bufs[x].dev == ROOTDEV && bufs[x].blockno == blockno) { assert x in ring; }
      b := -1;
    }

    /** The second loop of bget: the least recently released buffer that is neither referenced nor
        dirty, or -1. */
    method FindVictim() returns (b: int)
      requires Valid()
      ensures -1 <= b < n
      ensures b != -1 ==> !Busy(bufs[b]) && Oldest(bufs, ring, b)
      ensures b == -1 ==> forall x :: 0 <= x < n ==> Busy(bufs[x])
    {
      hide UsersOk, DataOk, WhereOk;
      ghost var k := n - 1;
      assert prev[..][At(n, ring, n)] == At(n, ring, n - 1);
      b := prev[n];
      while b != n
        invariant -1 <= k < n && b == At(n, ring, k)
        invariant forall j :: k < j < n ==> Busy(bufs[ring[j]])
        decreases k
      {
        if bufs[b].refcnt == 0 && !bufs[b].dirty {
          assert ring[k] == b && BusyBehind(bufs, ring, k);
          return;
        }
        assert prev[..][At(n, ring, k)] == At(n, ring, k - 1);
        b := prev[b];
        k := k - 1;
      }
      forall x | 0 <= x < n ensures Busy(bufs[x]) { assert x in ring; }
      b := -1;
    }

    /** bget up to the release of bcache.lock: thread t gets a reference to the buffer of the block,
        which may recycle another block's buffer; -1 is the panic "bget: no buffers". */
    method Bget(t: nat, blockno: nat) returns (b: int)
      requires Valid() && blockno < |disk|
      modifies this`bufs, this`users, this`whereIs
      ensures Valid()
      ensures b == -1 ==> bufs == old(bufs) && users == old(users)
      ensures b == -1 ==> forall x :: 0 <= x < n ==> Busy(bufs[x])
      ensures b != -1 ==> 0 <= b < n && bufs[b].dev == ROOTDEV && bufs[b].blockno == blockno
      ensures b != -1 ==> users == old(users)[b := old(users)[b] + multiset{t}]
      ensures b != -1 && Caches(old(bufs)[b], blockno) ==> bufs == old(bufs)[b := Referenced(old(bufs)[b])]
      ensures b != -1 && !Caches(old(bufs)[b], blockno) ==>
                && bufs == old(bufs)[b := Recycled(old(bufs)[b], blockno)]
                && !Busy(old(bufs)[b]) && Oldest(old(bufs), ring, b)
      ensures b == -1 || !Caches(old(bufs)[b], blockno) ==> forall x :: 0 <= x < n ==> !Caches(old(bufs)[x], blockno)
      ensures b != -1 && b in unsaved ==> old(bufs)[b].holder != -1
    {
      hide DataOk, WhereOk, IsRing, UsersOk;
      b := FindCached(blockno);
      if b == -1 {
        var v := FindVictim();
        if v == -1 {
          return;
        }
        Recycle(bufs, users, whereIs, disk, logical, unsaved, v, blockno, t);
        whereIs := (if bufs[v].dev == ROOTDEV then whereIs - {bufs[v].blockno} else whereIs)[blockno := v];
        bufs := bufs[v := Recycled(bufs[v], blockno)];
        users := users[v := users[v] + multiset{t}];
        b := v;
      } else {
        Reference(bufs, users, whereIs, disk, logical, unsaved, b, t);
        bufs := bufs[b := Referenced(bufs[b])];
        users := users[b := users[b] + multiset{t}];
      }
    }

    /** acquiresleep, when the lock is free: the end of bget. */
    method AcquireSleep(t: nat, b: nat)
      requires Valid() && b < n && t in users[b] && bufs[b].holder == -1
      modifies this`bufs
      ensures Valid() && bufs == old(bufs)[b := old(bufs)[b].(holder := t)] && b !in unsaved
    {
      hide WhereOk;
      WhereFrame(bufs, whereIs, b, bufs[b].(holder := t));
      bufs := bufs[b := bufs[b].(holder := t)];
    }

    /** iderw of memide.c; its panics are the precondition. */
    method Iderw(b: nat)
      requires b < |bufs| && bufs[b].holder != -1 && !(bufs[b].valid && !bufs[b].dirty)
      requires bufs[b].dev == ROOTDEV && bufs[b].blockno < |disk|
      modifies this`bufs, this`disk
      ensures old(bufs)[b].dirty ==> disk == old(disk)[old(bufs)[b].blockno := old(bufs)[b].data]
      ensures old(bufs)[b].dirty ==> bufs == old(bufs)[b := old(bufs)[b].(dirty := false, valid := true)]
      ensures !old(bufs)[b].dirty ==> disk == old(disk)
      ensures !old(bufs)[b].dirty ==>
                bufs == old(bufs)[b := old(bufs)[b].(data := old(disk)[old(bufs)[b].blockno], valid := true)]
    {
      if bufs[b].dirty {
        bufs := bufs[b := bufs[b].(dirty := false)];
        disk := disk[bufs[b].blockno := bufs[b].data];
      } else {
        bufs := bufs[b := bufs[b].(data := disk[bufs[b].blockno])];
      }
      bufs := bufs[b := bufs[b].(valid := true)];
    }

    /** The rest of bread: the locked buffer holds the last contents written to its block. */
    method Bread(t: nat, b: nat) returns (data: Block)
      requires Valid() && b < n && bufs[b].dev == ROOTDEV && bufs[b].holder == t && b !in unsaved
      modifies this`bufs, this`disk
      ensures Valid() && disk == old(disk) && bufs[b].valid && bufs[b].blockno == old(bufs)[b].blockno < |logical|
      ensures data == bufs[b].data == logical[bufs[b].blockno]
      ensures forall x :: 0 <= x < n && x != b ==> bufs[x] == old(bufs)[x]
      ensures bufs[b] == old(bufs)[b].(valid := true, data := data)
    {
      hide IsRing;
      if !bufs[b].valid {
        LoadOk(bufs, users, whereIs, disk, logical, unsaved, b);
        Iderw(b);
      }
      data := bufs[b].data;
    }

    /** The caller changes b->data under the lock. */
    method Modify(t: nat, b: nat, data: Block)
      requires Valid() && b < n && bufs[b].holder == t && bufs[b].valid
      modifies this`bufs, this`unsaved
      ensures Valid() && bufs == old(bufs)[b := old(bufs)[b].(data := data)] && unsaved == old(unsaved) + {b}
    {
      hide IsRing, WhereOk;
      WhereFrame(bufs, whereIs, b, bufs[b].(data := data));
      bufs := bufs[b := bufs[b].(data := data)];
      unsaved := unsaved + {b};
    }

    /** log_write, as the cache sees it: B_DIRTY pins the buffer. */
    method LogWrite(t: nat, b: nat)
      requires Valid() && b < n && bufs[b].holder == t && bufs[b].valid
      modifies this`bufs, this`unsaved, this`logical
      ensures Valid() && bufs == old(bufs)[b := old(bufs)[b].(dirty := true)] && unsaved == old(unsaved) - {b}
      ensures bufs[b].blockno < |old(logical)| && logical == old(logical)[bufs[b].blockno := bufs[b].data]
    {
      hide IsRing, WhereOk, UsersOk, DataOk;
      PinOk(bufs, users, whereIs, disk, logical, unsaved, b);
      bufs := bufs[b := bufs[b].(dirty := true)];
      unsaved := unsaved - {b};
      logical := logical[bufs[b].blockno := bufs[b].data];
    }

    /** bwrite: the block reaches the disk and the buffer is clean again. */
    method Bwrite(t: nat, b: nat)
      requires Valid() && b < n && bufs[b].holder == t && bufs[b].valid
      modifies this`bufs, this`unsaved, this`logical, this`disk
      ensures Valid() && bufs == old(bufs)[b := old(bufs)[b].(dirty := false)] && unsaved == old(unsaved) - {b}
      ensures bufs[b].blockno < |old(logical)|
      ensures logical == old(logical)[bufs[b].blockno := bufs[b].data]
      ensures disk == old(disk)[bufs[b].blockno := bufs[b].data]
    {
      hide IsRing, WhereOk, UsersOk, DataOk;
      PinOk(bufs, users, whereIs, disk, logical, unsaved, b);
      bufs := bufs[b := bufs[b].(dirty := true)];
      logical := logical[bufs[b].blockno := bufs[b].data];
      unsaved := unsaved - {b};
      CleanOk(bufs, users, whereIs, disk, logical, unsaved, b);
      Iderw(b);
    }

    /** releasesleep, the first half of brelse. The caller has logged or written its changes. */
    method ReleaseSleep(t: nat, b: nat)
      requires Valid() && b < n && bufs[b].holder == t && b !in unsaved
      modifies this`bufs
      ensures Valid() && bufs == old(bufs)[b := old(bufs)[b].(holder := -1)]
    {
      hide IsRing, WhereOk;
      WhereFrame(bufs, whereIs, b, bufs[b].(holder := -1));
      bufs := bufs[b := bufs[b].(holder := -1)];
    }

    /** The second half of brelse: an unreferenced buffer moves to the front of the ring. */
    method DropReference(t: nat, b: nat)
      requires Valid() && b < n && t in users[b] && bufs[b].holder != t
      modifies this`bufs, this`users, this`ring, next, prev
      ensures Valid()
      ensures old(bufs)[b].refcnt > 0 && bufs == old(bufs)[b := old(bufs)[b].(refcnt := old(bufs)[b].refcnt - 1)]
      ensures users == old(users)[b := old(users)[b] - multiset{t}]
      ensures if bufs[b].refcnt == 0
                then MovedToFront(old(ring), b, ring)
                else ring == old(ring)
    {
      hide IsRing, WhereOk, DataOk;
      Unreference(bufs, users, whereIs, disk, logical, unsaved, b, t);
      bufs := bufs[b := bufs[b].(refcnt := bufs[b].refcnt - 1)];
      users := users[b := users[b] - multiset{t}];
      if bufs[b].refcnt == 0 {
        MoveToFront(b);
      }
    }

    /** bio.c:132-137. */
    method MoveToFront(b: nat)
      requires RingOk() && b < n
      modifies next, prev, this`ring
      ensures RingOk() && MovedToFront(old(ring), b, ring)
    {
      hide IsRing;
      RingLength(next[..], prev[..], n, ring);
      assert b in ring;
      ghost var k :| 0 <= k < n && ring[k] == b;
      Unlink(next[..], prev[..], n, ring, k);
      var nx, pv := next[b], prev[b];
      prev[nx] := pv;
      next[pv] := nx;
      assert next[..] == old(next[..])[pv := nx];
      assert prev[..] == old(prev[..])[nx := pv];
      ring := Drop(ring, k);
      LinkFront(b);
      forall x | 0 <= x < n ensures x in ring { DropInsert(old(ring), k, x); }
    }
  }

  lemma RingLength(next: seq<nat>, prev: seq<nat>, n: nat, ring: seq<nat>)
    requires IsRing(next, prev, n, ring)
    ensures |next| == |prev| == n + 1
  {}

  lemma WhereFrame(bufs: seq<Buf>, whereIs: map<nat, nat>, b: nat, buf: Buf)
    requires WhereOk(bufs, whereIs) && b < |bufs| && buf.dev == bufs[b].dev && buf.blockno == bufs[b].blockno
    ensures WhereOk(bufs[b := buf], whereIs)
  {}

  lemma Reference(bufs: seq<Buf>, users: seq<multiset<nat>>, whereIs: map<nat, nat>, disk: Disk, logical: Disk,
                  unsaved: set<nat>, b: nat, t: nat)
    requires WhereOk(bufs, whereIs) && UsersOk(bufs, users) && DataOk(bufs, whereIs, disk, logical, unsaved)
    requires b < |bufs|
    ensures |users| == |bufs| && (b in unsaved ==> bufs[b].holder != -1)
    ensures var bufs' := bufs[b := Referenced(bufs[b])];
            && WhereOk(bufs', whereIs) && UsersOk(bufs', users[b := users[b] + multiset{t}])
            && DataOk(bufs', whereIs, disk, logical, unsaved)
  {}

  lemma Unreference(bufs: seq<Buf>, users: seq<multiset<nat>>, whereIs: map<nat, nat>, disk: Disk, logical: Disk,
                    unsaved: set<nat>, b: nat, t: nat)
    requires WhereOk(bufs, whereIs) && UsersOk(bufs, users) && DataOk(bufs, whereIs, disk, logical, unsaved)
    requires b < |bufs| && t in users[b] && bufs[b].holder != t
    ensures bufs[b].refcnt > 0
    ensures var bufs' := bufs[b := bufs[b].(refcnt := bufs[b].refcnt - 1)];
            && WhereOk(bufs', whereIs) && UsersOk(bufs', users[b := users[b] - multiset{t}])
            && DataOk(bufs', whereIs, disk, logical, unsaved)
  {}

  /** An unreferenced clean buffer equals its disk block, so recycling it loses nothing. */
  lemma Recycle(bufs: seq<Buf>, users: seq<multiset<nat>>, whereIs: map<nat, nat>, disk: Disk, logical: Disk,
                unsaved: set<nat>, v: nat, blockno: nat, t: nat)
    requires WhereOk(bufs, whereIs) && UsersOk(bufs, users) && DataOk(bufs, whereIs, disk, logical, unsaved)
    requires v < |bufs| && bufs[v].refcnt == 0 && !bufs[v].dirty && blockno < |disk|
    requires forall x :: 0 <= x < |bufs| ==> !Caches(bufs[x], blockno)
    ensures bufs[v].holder == -1 && v !in unsaved && |users| == |bufs|
    ensures var bufs' := bufs[v := Recycled(bufs[v], blockno)];
            var whereIs' := (if bufs[v].dev == ROOTDEV then whereIs - {bufs[v].blockno} else whereIs)[blockno := v];
            && WhereOk(bufs', whereIs') && UsersOk(bufs', users[v := users[v] + multiset{t}])
            && DataOk(bufs', whereIs', disk, logical, unsaved)
  {
    RecycleWhere(bufs, whereIs, v, blockno);
  }

  lemma RecycleWhere(bufs: seq<Buf>, whereIs: map<nat, nat>, v: nat, blockno: nat)
    requires WhereOk(bufs, whereIs) && v < |bufs|
    requires forall x :: 0 <= x < |bufs| ==> !Caches(bufs[x], blockno)
    ensures var bufs' := bufs[v := Recycled(bufs[v], blockno)];
            var whereIs' := (if bufs[v].dev == ROOTDEV then whereIs - {bufs[v].blockno} else whereIs)[blockno := v];
            WhereOk(bufs', whereIs') && blockno !in whereIs
  {}

  lemma LoadOk(bufs: seq<Buf>, users: seq<multiset<nat>>, whereIs: map<nat, nat>, disk: Disk, logical: Disk,
               unsaved: set<nat>, b: nat)
    requires WhereOk(bufs, whereIs) && UsersOk(bufs, users) && DataOk(bufs, whereIs, disk, logical, unsaved)
    requires b < |bufs| && bufs[b].dev == ROOTDEV && !bufs[b].valid
    ensures bufs[b].blockno < |disk| == |logical| && disk[bufs[b].blockno] == logical[bufs[b].blockno]
    ensures var bufs' := bufs[b := bufs[b].(data := disk[bufs[b].blockno], valid := true)];
            WhereOk(bufs', whereIs) && UsersOk(bufs', users) && DataOk(bufs', whereIs, disk, logical, unsaved)
  {
    assert whereIs[bufs[b].blockno] == b;
  }

  lemma PinOk(bufs: seq<Buf>, users: seq<multiset<nat>>, whereIs: map<nat, nat>, disk: Disk, logical: Disk,
              unsaved: set<nat>, b: nat)
    requires WhereOk(bufs, whereIs) && UsersOk(bufs, users) && DataOk(bufs, whereIs, disk, logical, unsaved)
    requires b < |bufs| && bufs[b].valid
    ensures bufs[b].blockno < |disk| == |logical|
    ensures var bufs' := bufs[b := bufs[b].(dirty := true)];
            && WhereOk(bufs', whereIs) && UsersOk(bufs', users)
            && DataOk(bufs', whereIs, disk, logical[bufs[b].blockno := bufs[b].data], unsaved - {b})
  {
    assert whereIs[bufs[b].blockno] == b;
  }

  lemma CleanOk(bufs: seq<Buf>, users: seq<multiset<nat>>, whereIs: map<nat, nat>, disk: Disk, logical: Disk,
                unsaved: set<nat>, b: nat)
    requires WhereOk(bufs, whereIs) && UsersOk(bufs, users) && DataOk(bufs, whereIs, disk, logical, unsaved)
    requires b < |bufs| && bufs[b].valid && bufs[b].dirty && b !in unsaved
    ensures bufs[b].dev == ROOTDEV && bufs[b].blockno < |disk|
    ensures var bufs' := bufs[b := bufs[b].(dirty := false, valid := true)];
            && WhereOk(bufs', whereIs) && UsersOk(bufs', users)
            && DataOk(bufs', whereIs, disk[bufs[b].blockno := bufs[b].data], logical, unsaved)
  {
    assert whereIs[bufs[b].blockno] == b;
  }

  function EmptyBufs(n: nat): seq<Buf> { seq(n, i => Buf(0, 0, false, false, 0, -1, seq(WORDS, k => 0))) }

  function NoUsers(n: nat): seq<multiset<nat>> { seq(n, i => multiset{}) }
}
