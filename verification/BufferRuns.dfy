/** Any interleaving of threads over the buffer cache behaves as a plain disk. */
module BufferRuns {
  import opened LogSpec
  import opened LruRing
  import opened BufferCache

  /** One critical section of one thread; b is a buffer number. */
  datatype Action =
    | Get(t: nat, blockno: nat)
    | Lock(t: nat, b: nat)
    | Read(t: nat, b: nat)
    | Change(t: nat, b: nat, data: Block)
    | Log(t: nat, b: nat)
    | Write(t: nat, b: nat)
    | Unlock(t: nat, b: nat)
    | Leave(t: nat, b: nat)

  /** What a client sees bread return, and what it passes to log_write or bwrite. */
  datatype Event = Saw(blockno: nat, data: Block) | Stored(blockno: nat, data: Block)

  /** A disk with the stored blocks written in order. */
  function Plain(d: Disk, events: seq<Event>): (r: Disk)
    ensures |r| == |d|
  {
    if events == [] then d
    else
      var e := events[|events| - 1];
      var r := Plain(d, events[..|events| - 1]);
      if e.Stored? && e.blockno < |r| then r[e.blockno := e.data] else r
  }

  /** Every read returned what the plain disk held at that moment. */
  ghost predicate Faithful(d: Disk, events: seq<Event>) {
    forall k :: 0 <= k < |events| && events[k].Saw? ==>
      events[k].blockno < |d| && events[k].data == Plain(d, events[..k])[events[k].blockno]
  }

  lemma FaithfulSnoc(d: Disk, events: seq<Event>, e: Event)
    requires Faithful(d, events)
    requires e.Saw? ==> e.blockno < |d| && e.data == Plain(d, events)[e.blockno]
    ensures Faithful(d, events + [e])
    ensures Plain(d, events + [e]) ==
              if e.Stored? && e.blockno < |d| then Plain(d, events)[e.blockno := e.data] else Plain(d, events)
  {
    var es := events + [e];
    assert es[..|events|] == events;
    forall k | 0 <= k < |es| && es[k].Saw?
      ensures es[k].blockno < |d| && es[k].data == Plain(d, es[..k])[es[k].blockno]
    {
      assert es[..k] == events[..k] || k == |events|;
      if k < |events| { assert es[..k] == events[..k]; }
    }
  }

  // ---- One action --------------------------------------------------------------------------

  /** What the clients and the disk can tell of a cache, and the order of its buffers. */
  datatype View = View(bufs: seq<Buf>, users: seq<multiset<nat>>, unsaved: set<nat>, disk: Disk, logical: Disk,
                       ring: seq<nat>)

  /** What came of an action: nothing because its thread must wait or may not do it, a buffer for Get, the
      panic of bget, or done, with the event if there was one. */
  datatype Outcome = Waits | Refers(b: nat) | NoBuffers | Done | Happened(event: Event)

  /** The clients' protocol (log.c:204-212), and the waiting for sleep locks. */
  predicate Ready(v: View, a: Action) {
    |v.users| == |v.bufs| &&
    match a
    case Get(t, blockno) => blockno < |v.disk|
    case Lock(t, b) => b < |v.bufs| && t in v.users[b] && v.bufs[b].holder == -1
    case Read(t, b) =>
      && b < |v.bufs| && v.bufs[b].holder == t && v.bufs[b].dev == ROOTDEV && b !in v.unsaved
      && v.bufs[b].blockno < |v.logical|
    case Change(t, b, data) => b < |v.bufs| && v.bufs[b].holder == t && v.bufs[b].valid
    case Log(t, b) => b < |v.bufs| && v.bufs[b].holder == t && v.bufs[b].valid && v.bufs[b].blockno < |v.logical|
    case Write(t, b) =>
      && b < |v.bufs| && v.bufs[b].holder == t && v.bufs[b].valid
      && v.bufs[b].blockno < |v.logical| == |v.disk|
    case Unlock(t, b) => b < |v.bufs| && v.bufs[b].holder == t && b !in v.unsaved
    case Leave(t, b) => b < |v.bufs| && t in v.users[b] && v.bufs[b].holder != t && v.bufs[b].refcnt > 0
  }

  /** bget of a block: the buffer that caches it; else the last in the ring of the unreferenced clean ones, taken
      over; else none. */
  ghost predicate Got(v: View, t: nat, blockno: nat, v': View, out: Outcome)
    requires |v.users| == |v.bufs|
  {
    if out.NoBuffers? then
      v' == v && forall x :: 0 <= x < |v.bufs| ==> !Caches(v.bufs[x], blockno) && Busy(v.bufs[x])
    else
      && out.Refers? && out.b < |v.bufs|
      && v' == v.(bufs := v'.bufs, users := v.users[out.b := v.users[out.b] + multiset{t}])
      && if Caches(v.bufs[out.b], blockno)
           then v'.bufs == v.bufs[out.b := Referenced(v.bufs[out.b])]
           else
             && v'.bufs == v.bufs[out.b := Recycled(v.bufs[out.b], blockno)]
             && !Busy(v.bufs[out.b]) && Oldest(v.bufs, v.ring, out.b)
             && forall x :: 0 <= x < |v.bufs| ==> !Caches(v.bufs[x], blockno)
  }

  /** The whole effect of an action that is ready. Reads give the plain disk's block; Log and Write put the
      buffer's contents on the plain disk, and Write on the real one too. Only the last user's Leave moves a
      buffer in the ring. */
  ghost predicate Acted(v: View, a: Action, v': View, out: Outcome)
    requires Ready(v, a)
  {
    match a
    case Get(t, blockno) => Got(v, t, blockno, v', out)
    case Lock(t, b) => out == Done && v' == v.(bufs := v.bufs[b := v.bufs[b].(holder := t)])
    case Read(t, b) =>
      var blockno := v.bufs[b].blockno;
      && out == Happened(Saw(blockno, v.logical[blockno]))
      && v' == v.(bufs := v.bufs[b := v.bufs[b].(valid := true, data := v.logical[blockno])])
    case Change(t, b, data) =>
      out == Done && v' == v.(bufs := v.bufs[b := v.bufs[b].(data := data)], unsaved := v.unsaved + {b})
    case Log(t, b) =>
      var buf := v.bufs[b];
      && out == Happened(Stored(buf.blockno, buf.data))
      && v' == v.(bufs := v.bufs[b := buf.(dirty := true)], unsaved := v.unsaved - {b},
                  logical := v.logical[buf.blockno := buf.data])
    case Write(t, b) =>
      var buf := v.bufs[b];
      && out == Happened(Stored(buf.blockno, buf.data))
      && v' == v.(bufs := v.bufs[b := buf.(dirty := false)], unsaved := v.unsaved - {b},
                  logical := v.logical[buf.blockno := buf.data], disk := v.disk[buf.blockno := buf.data])
    case Unlock(t, b) => out == Done && v' == v.(bufs := v.bufs[b := v.bufs[b].(holder := -1)])
    case Leave(t, b) =>
      && out == Done
      && v' == v.(bufs := v.bufs[b := v.bufs[b].(refcnt := v.bufs[b].refcnt - 1)],
                  users := v.users[b := v.users[b] - multiset{t}], ring := v'.ring)
      && if v.bufs[b].refcnt == 1 then MovedToFront(v.ring, b, v'.ring) else v'.ring == v.ring
  }

  /** An action that is ready happens, and one that is not changes nothing. */
  ghost predicate Performed(v: View, a: Action, v': View, out: Outcome) {
    if Ready(v, a) then Acted(v, a, v', out) else v' == v && out == Waits
  }

  ghost function Seen(c: Cache): View
    reads c
  {
    View(c.bufs, c.users, c.unsaved, c.disk, c.logical, c.ring)
  }

  method Perform(c: Cache, a: Action) returns (out: Outcome)
    requires c.Valid()
    modifies c, c.next, c.prev
    ensures c.Valid() && Performed(old(Seen(c)), a, Seen(c), out)
  {
    hide IsRing, WhereOk, UsersOk, DataOk;
    out := Waits;
    Sane(c.bufs, c.users, c.whereIs, c.disk, c.logical, c.unsaved);
    match a
    case Get(t, blockno) =>
      if blockno < |c.disk| {
        var b := c.Bget(t, blockno);
        out := if b == -1 then NoBuffers else Refers(b);
      }
    case Lock(t, b) =>
      if b < c.n && t in c.users[b] && c.bufs[b].holder == -1 {
        c.AcquireSleep(t, b);
        out := Done;
      }
    case Read(t, b) =>
      if b < c.n && c.bufs[b].holder == t && c.bufs[b].dev == ROOTDEV && b !in c.unsaved {
        var data := c.Bread(t, b);
        out := Happened(Saw(c.bufs[b].blockno, data));
      }
    case Change(t, b, data) =>
      if b < c.n && c.bufs[b].holder == t && c.bufs[b].valid {
        c.Modify(t, b, data);
        out := Done;
      }
    case Log(t, b) =>
      if b < c.n && c.bufs[b].holder == t && c.bufs[b].valid {
        c.LogWrite(t, b);
        out := Happened(Stored(c.bufs[b].blockno, c.bufs[b].data));
      }
    case Write(t, b) =>
      if b < c.n && c.bufs[b].holder == t && c.bufs[b].valid {
        c.Bwrite(t, b);
        out := Happened(Stored(c.bufs[b].blockno, c.bufs[b].data));
      }
    case Unlock(t, b) =>
      if b < c.n && c.bufs[b].holder == t && b !in c.unsaved {
        c.ReleaseSleep(t, b);
        out := Done;
      }
    case Leave(t, b) =>
      if b < c.n && t in c.users[b] && c.bufs[b].holder != t {
        c.DropReference(t, b);
        out := Done;
      }
  }

  /** Facts of Valid that Ready mentions. */
  lemma Sane(bufs: seq<Buf>, users: seq<multiset<nat>>, whereIs: map<nat, nat>, disk: Disk, logical: Disk,
             unsaved: set<nat>)
    requires WhereOk(bufs, whereIs) && UsersOk(bufs, users) && DataOk(bufs, whereIs, disk, logical, unsaved)
    ensures |users| == |bufs| && |logical| == |disk|
    ensures forall b :: 0 <= b < |bufs| && (bufs[b].valid || bufs[b].dev == ROOTDEV) ==> bufs[b].blockno < |logical|
    ensures forall b, t :: 0 <= b < |bufs| && t in users[b] ==> bufs[b].refcnt > 0
  {
    forall b, t | 0 <= b < |bufs| && t in users[b] ensures bufs[b].refcnt > 0 {
      assert bufs[b].refcnt == |users[b]|;
    }
  }

  // ---- Whole runs --------------------------------------------------------------------------

  /** The events of a run, in order. */
  function Events(outs: seq<Outcome>): seq<Event> {
    if outs == [] then []
    else
      var last := outs[|outs| - 1];
      Events(outs[..|outs| - 1]) + if last.Happened? then [last.event] else []
  }

  /** `views` are the states the run goes through, each action performed in turn. */
  ghost predicate RunOf(acts: seq<Action>, views: seq<View>, outs: seq<Outcome>) {
    && |views| == |acts| + 1 && |outs| == |acts|
    && forall k :: 0 <= k < |acts| ==> Performed(views[k], acts[k], views[k + 1], outs[k])
  }

  lemma RunSnoc(acts: seq<Action>, views: seq<View>, outs: seq<Outcome>, a: Action, v: View, out: Outcome)
    requires RunOf(acts, views, outs) && Performed(views[|acts|], a, v, out)
    ensures RunOf(acts + [a], views + [v], outs + [out])
  {
    hide Performed;
    var acts', views', outs' := acts + [a], views + [v], outs + [out];
    forall k | 0 <= k < |acts'| ensures Performed(views'[k], acts'[k], views'[k + 1], outs'[k]) {
      if k < |acts| { assert Performed(views[k], acts[k], views[k + 1], outs[k]); }
    }
  }

  /** An action changes the plain disk exactly by its event. */
  lemma EventEffect(v: View, a: Action, v': View, out: Outcome)
    requires Performed(v, a, v', out) && |v.logical| == |v.disk|
    ensures !out.Happened? ==> v'.logical == v.logical
    ensures out.Happened? && out.event.Saw? ==>
              && v'.logical == v.logical && out.event.blockno < |v.logical|
              && out.event.data == v.logical[out.event.blockno]
    ensures out.Happened? && out.event.Stored? ==>
              out.event.blockno < |v.logical| && v'.logical == v.logical[out.event.blockno := out.event.data]
  {}

  /** So far the run is a history of the plain disk d, which now reads `logical`. */
  ghost predicate History(d: Disk, outs: seq<Outcome>, logical: Disk) {
    Faithful(d, Events(outs)) && logical == Plain(d, Events(outs))
  }

  lemma HistorySnoc(d: Disk, outs: seq<Outcome>, v: View, a: Action, v': View, out: Outcome)
    requires History(d, outs, v.logical) && Performed(v, a, v', out) && |v.logical| == |v.disk|
    ensures History(d, outs + [out], v'.logical)
  {
    hide Performed, Faithful, Plain;
    EventEffect(v, a, v', out);
    assert (outs + [out])[..|outs|] == outs;
    if out.Happened? {
      FaithfulSnoc(d, Events(outs), out.event);
    } else {
      assert Events(outs) + [] == Events(outs);
    }
  }

  /** For every schedule: each action is performed when it is ready, the cache stays valid, and the reads
      and writes that happened are a history of one plain disk. */
  method Play(c: Cache, acts: seq<Action>) returns (outs: seq<Outcome>, ghost views: seq<View>)
    requires c.Valid()
    modifies c, c.next, c.prev
    ensures c.Valid()
    ensures RunOf(acts, views, outs) && views[0] == old(Seen(c)) && views[|acts|] == Seen(c)
    ensures Nodes(c.n, views[0].ring)
    ensures History(old(c.logical), outs, c.logical)
  {
    hide IsRing, WhereOk, UsersOk, DataOk, Performed, History;
    outs, views := [], [Seen(c)];
    NoHistory(c.logical);
    RingNodes(c.next[..], c.prev[..], c.n, c.ring);
    var k := 0;
    while k < |acts|
      invariant k <= |acts| && c.Valid() && RunOf(acts[..k], views, outs)
      invariant views[0] == old(Seen(c)) && views[k] == Seen(c)
      invariant History(old(c.logical), outs, c.logical)
    {
      Sane(c.bufs, c.users, c.whereIs, c.disk, c.logical, c.unsaved);
      ghost var v := Seen(c);
      var out := Perform(c, acts[k]);
      HistorySnoc(old(c.logical), outs, v, acts[k], Seen(c), out);
      RunSnoc(acts[..k], views, outs, acts[k], Seen(c), out);
      assert acts[..k] + [acts[k]] == acts[..k + 1];
      outs, views := outs + [out], views + [Seen(c)];
      k := k + 1;
    }
    assert acts[..k] == acts;
  }

  lemma RingNodes(next: seq<nat>, prev: seq<nat>, n: nat, ring: seq<nat>)
    requires IsRing(next, prev, n, ring)
    ensures Nodes(n, ring)
  {}

  lemma NoHistory(d: Disk)
    ensures History(d, [], d)
  {}

  /** What Valid says at any moment: at most one buffer per block, and every valid, clean buffer
      that nobody references equals its disk block. */
  lemma CacheAgrees(bufs: seq<Buf>, users: seq<multiset<nat>>, whereIs: map<nat, nat>, disk: Disk, logical: Disk,
                    unsaved: set<nat>)
    requires WhereOk(bufs, whereIs) && UsersOk(bufs, users) && DataOk(bufs, whereIs, disk, logical, unsaved)
    ensures forall b, c ::
              && 0 <= b < |bufs| && 0 <= c < |bufs|
              && bufs[b].dev == ROOTDEV == bufs[c].dev && bufs[b].blockno == bufs[c].blockno
              ==> b == c
    ensures forall b :: 0 <= b < |bufs| && bufs[b].valid && !bufs[b].dirty && bufs[b].refcnt == 0 ==>
              bufs[b].blockno < |disk| && bufs[b].data == disk[bufs[b].blockno]
  {
    forall b | 0 <= b < |bufs| && bufs[b].valid && !bufs[b].dirty && bufs[b].refcnt == 0
      ensures bufs[b].blockno < |disk| && bufs[b].data == disk[bufs[b].blockno]
    {
      assert whereIs[bufs[b].blockno] == b;
    }
  }
}
