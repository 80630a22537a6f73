/** The buffer cache: NBUF buffers on a doubly linked ring in order of last release, over a flat block store. */
module Bio {
  import opened Blocks
  import opened Options
  import opened Params

  const HEAD: nat := NBUF          // bcache.head

  datatype Key = Key(dev: nat, blockno: nat)

  datatype Buf = Buf(key: Key, valid: bool, dirty: bool, refcnt: nat, locked: bool, data: Block)

  /** The key that binit leaves in every buffer. */
  const ZeroKey: Key := Key(0, 0)

  // ---------- The ring ----------

  type Links = map<nat, nat>

  function Succ(k: nat, n: nat): (r: nat)
    requires k < n
    ensures r < n
  {
    if k + 1 < n then k + 1 else 0
  }

  function Pred(k: nat, n: nat): (r: nat)
    requires k < n
    ensures r < n
  {
    if k > 0 then k - 1 else n - 1
  }

  predicate Hooked(next: Links, prev: Links, ring: seq<nat>, k: nat)
    requires k < |ring|
  {
    && ring[k] in next && next[ring[k]] == ring[Succ(k, |ring|)]
    && ring[k] in prev && prev[ring[k]] == ring[Pred(k, |ring|)]
  }

  predicate Distinct(q: seq<nat>)
  {
    forall i, j :: 0 <= i < j < |q| ==> q[i] != q[j]
  }

  /** next goes round the ring, prev goes round it the other way. */
  ghost predicate Ring(next: Links, prev: Links, ring: seq<nat>)
  {
    Distinct(ring) && forall k :: 0 <= k < |ring| ==> Hooked(next, prev, ring, k)
  }

  function Without(q: seq<nat>, k: nat): (r: seq<nat>)
    requires k < |q|
    ensures |r| == |q| - 1
  {
    q[..k] + q[k + 1..]
  }

  lemma WithoutAt(q: seq<nat>, k: nat, i: nat)
    requires k < |q| && i < |q| - 1
    ensures Without(q, k)[i] == if i < k then q[i] else q[i + 1]
  {
  }

  lemma CanFollow(next: Links, prev: Links, ring: seq<nat>, k: nat)
    requires Ring(next, prev, ring) && k < |ring|
    ensures ring[k] in next && next[ring[k]] == ring[Succ(k, |ring|)]
    ensures ring[k] in prev && prev[ring[k]] == ring[Pred(k, |ring|)]
  {
    assert Hooked(next, prev, ring, k);
  }

  lemma DistinctWithout(q: seq<nat>, k: nat)
    requires Distinct(q) && k < |q|
    ensures Distinct(Without(q, k)) && q[k] !in Without(q, k)
  {
  }

  lemma UnhookedAt(next: Links, prev: Links, ring: seq<nat>, k: nat, i: nat, z: nat)
    requires Ring(next, prev, ring) && 0 < k < |ring| && i < |ring| - 1 && z == if i < k then i else i + 1
    requires ring[k] in next && ring[k] in prev
    ensures Hooked(next[prev[ring[k]] := next[ring[k]]], prev[next[ring[k]] := prev[ring[k]]], Without(ring, k), i)
  {
    var r, n := Without(ring, k), |ring|;
    assert Hooked(next, prev, ring, z) && Hooked(next, prev, ring, k);
    var s, p := Succ(i, n - 1), Pred(i, n - 1);
    WithoutAt(ring, k, i);
    WithoutAt(ring, k, s);
    WithoutAt(ring, k, p);
    hide Without;
    assert z != Pred(k, n) ==> ring[z] != ring[Pred(k, n)];
    assert z != Succ(k, n) ==> ring[z] != ring[Succ(k, n)];
  }

  /** Making its two neighbours point at each other takes a buffer out of the ring. */
  lemma Unhook(next: Links, prev: Links, ring: seq<nat>, k: nat)
    requires Ring(next, prev, ring) && 0 < k < |ring|
    ensures ring[k] in next && ring[k] in prev
    ensures Ring(next[prev[ring[k]] := next[ring[k]]], prev[next[ring[k]] := prev[ring[k]]], Without(ring, k))
  {
    CanFollow(next, prev, ring, k);
    DistinctWithout(ring, k);
    var next', prev', r := next[prev[ring[k]] := next[ring[k]]], prev[next[ring[k]] := prev[ring[k]]], Without(ring, k);
    hide Distinct;
    forall i | 0 <= i < |r|
      ensures Hooked(next', prev', r, i)
    {
      UnhookedAt(next, prev, ring, k, i, if i < k then i else i + 1);
    }
  }

  /** The links after b is put behind the head. */
  function FrontNext(next: Links, head: nat, b: nat): (r: Links)
    requires head in next
  {
    next[b := next[head]][head := b]
  }

  function FrontPrev(next: Links, prev: Links, head: nat, b: nat): (r: Links)
    requires head in next
  {
    prev[b := head][next[head] := b]
  }

  function Front(ring: seq<nat>, b: nat): (r: seq<nat>)
    requires ring != []
  {
    [ring[0], b] + ring[1..]
  }

  lemma FrontAt(next: Links, prev: Links, ring: seq<nat>, b: nat, i: nat)
    requires Ring(next, prev, ring) && ring != [] && b !in ring && i < |ring| + 1 && ring[0] in next
    ensures Hooked(FrontNext(next, ring[0], b), FrontPrev(next, prev, ring[0], b), Front(ring, b), i)
  {
    var r, n := Front(ring, b), |ring|;
    CanFollow(next, prev, ring, 0);
    var z := if i <= 1 then 0 else i - 1;
    CanFollow(next, prev, ring, z);
    assert r[i] == if i == 1 then b else ring[z];
    var s, p := Succ(i, n + 1), Pred(i, n + 1);
    assert r[s] == if s == 1 then b else if s == 0 then ring[0] else ring[s - 1];
    assert r[p] == if p == 1 then b else if p == 0 then ring[0] else ring[p - 1];
    assert z != 0 ==> ring[z] != ring[0];
    assert z != Succ(0, n) ==> ring[z] != ring[Succ(0, n)];
  }

  lemma DistinctFront(ring: seq<nat>, b: nat)
    requires Distinct(ring) && ring != [] && b !in ring
    ensures Distinct(Front(ring, b))
  {
  }

  lemma HookFront(next: Links, prev: Links, ring: seq<nat>, b: nat)
    requires Ring(next, prev, ring) && ring != [] && b !in ring
    ensures ring[0] in next
    ensures Ring(FrontNext(next, ring[0], b), FrontPrev(next, prev, ring[0], b), Front(ring, b))
  {
    CanFollow(next, prev, ring, 0);
    var r := Front(ring, b);
    DistinctFront(ring, b);
    var next', prev' := FrontNext(next, ring[0], b), FrontPrev(next, prev, ring[0], b);
    hide Distinct;
    forall i | 0 <= i < |r|
      ensures Hooked(next', prev', r, i)
    {
      FrontAt(next, prev, ring, b, i);
    }
  }

  // ---------- Buffers and blocks ----------

  type Bufs = seq<Buf>
  type Store = map<Key, Block>

  /** At most one buffer per block. */
  predicate Unique(bs: Bufs)
  {
    forall i, j :: 0 <= i < j < |bs| && bs[i].key == bs[j].key ==> bs[i].key == ZeroKey
  }

  /** A buffer nobody has locked shows its block, unless it waits to be written. */
  predicate Agrees(b: Buf, disk: Store)
  {
    && (b.locked ==> b.refcnt > 0)
    && (!b.locked && b.valid && !b.dirty && b.key != ZeroKey ==> b.key in disk && b.data == disk[b.key])
  }

  predicate Idle(b: Buf)
  {
    b.refcnt == 0 && !b.dirty
  }

  /** What the cache shows for a block: a valid buffer if there is one, else the disk. */
  ghost predicate Shows(bs: Bufs, disk: Store, key: Key, data: Block)
  {
    && (forall i :: 0 <= i < |bs| && bs[i].key == key && bs[i].valid ==> data == bs[i].data)
    && ((forall i :: 0 <= i < |bs| && bs[i].key == key ==> !bs[i].valid) ==> key in disk && data == disk[key])
  }

  ghost predicate Sound(bs: Bufs, disk: Store)
  {
    |bs| == NBUF && Unique(bs) && forall i :: 0 <= i < |bs| ==> Agrees(bs[i], disk)
  }

  /** Each buffer is on the list once, most recently released first. */
  ghost predicate Listed(order: seq<nat>, stamp: map<nat, int>, clock: int)
  {
    && |order| == NBUF && Distinct([HEAD] + order)
    && (forall k :: 0 <= k < |order| ==> order[k] < NBUF && order[k] in stamp && stamp[order[k]] < clock)
    && (forall j, k :: 0 <= j < k < |order| ==> stamp[order[j]] > stamp[order[k]])
    && (forall b: nat :: b < NBUF ==> b in order)
  }

  lemma SetSound(bs: Bufs, disk: Store, i: nat, b: Buf)
    requires Sound(bs, disk) && i < |bs| && Agrees(b, disk)
    requires b.key == bs[i].key || forall j :: 0 <= j < |bs| ==> bs[j].key != b.key
    ensures Sound(bs[i := b], disk)
  {
    hide Agrees;
  }

  lemma WriteSound(bs: Bufs, disk: Store, i: nat)
    requires Sound(bs, disk) && i < |bs| && bs[i].locked
    ensures var b := bs[i].(valid := true, dirty := false); Sound(bs[i := b], disk[b.key := b.data])
  {
    var b := bs[i].(valid := true, dirty := false);
    var bs' := bs[i := b];
    forall j | 0 <= j < |bs'|
      ensures Agrees(bs'[j], disk[b.key := b.data])
    {
      assert Agrees(bs[j], disk);
    }
  }

  /** Both states show the same content for every block but one. */
  ghost predicate SameBut(bs: Bufs, disk: Store, bs': Bufs, disk': Store, but: Key)
  {
    forall key, data :: key != ZeroKey && key != but ==> (Shows(bs, disk, key, data) <==> Shows(bs', disk', key, data))
  }

  ghost predicate Same(bs: Bufs, bs': Bufs, disk: Store)
  {
    SameBut(bs, disk, bs', disk, ZeroKey)
  }

  lemma ShownSame(bs: Bufs, disk: Store, bs': Bufs, disk': Store, b: nat, key: Key, data: Block)
    requires |bs| == |bs'| && b < |bs| && bs' == bs[b := bs'[b]]
    requires key in disk <==> key in disk'
    requires key in disk ==> disk[key] == disk'[key]
    requires bs[b].key == key && bs[b].valid ==> Only(bs, b) && key in disk && bs[b].data == disk[key]
    requires bs'[b].key == key && bs'[b].valid ==> Only(bs', b) && key in disk && bs'[b].data == disk[key]
    ensures Shows(bs, disk, key, data) <==> Shows(bs', disk', key, data)
  {
    assert forall i :: 0 <= i < |bs| && i != b ==> bs[i] == bs'[i];
  }

  ghost predicate Only(bs: Bufs, b: nat)
    requires b < |bs|
  {
    forall i :: 0 <= i < |bs| && bs[i].key == bs[b].key ==> i == b
  }

  /** Recycling an idle buffer, and loading a block into it, change nothing that the cache shows. */
  lemma RecycledSame(bs: Bufs, disk: Store, b: nat, key: Key, nb: Buf)
    requires Sound(bs, disk) && b < |bs| && Idle(bs[b]) && key in disk && nb.key == key
    requires forall i :: 0 <= i < |bs| ==> bs[i].key != key
    requires nb.valid ==> nb.data == disk[key]
    ensures Same(bs, bs[b := nb], disk)
  {
    var bs' := bs[b := nb];
    assert Only(bs', b);
    assert Agrees(bs[b], disk);
    assert bs[b].key != ZeroKey ==> Only(bs, b);
    hide Shows, Only, Unique;
    forall k, data | k != ZeroKey
      ensures Shows(bs, disk, k, data) <==> Shows(bs', disk, k, data)
    {
      ShownSame(bs, disk, bs', disk, b, k, data);
    }
  }

  lemma LoadedSame(bs: Bufs, disk: Store, b: nat, nb: Buf)
    requires Sound(bs, disk) && b < |bs| && bs[b].key in disk && bs[b].key != ZeroKey && nb.key == bs[b].key
    requires nb.valid && if bs[b].valid then nb.data == bs[b].data else nb.data == disk[nb.key]
    ensures Same(bs, bs[b := nb], disk)
  {
    var bs' := bs[b := nb];
    if bs[b].valid {
      assert forall i :: 0 <= i < |bs| ==>
        bs[i].key == bs'[i].key && bs[i].valid == bs'[i].valid && bs[i].data == bs'[i].data;
      ViewSame(bs, bs', disk);
    } else {
      assert Only(bs', b);
      hide Shows, Only, Unique;
      forall k, data | k != ZeroKey
        ensures Shows(bs, disk, k, data) <==> Shows(bs', disk, k, data)
      {
        ShownSame(bs, disk, bs', disk, b, k, data);
      }
    }
  }

  lemma ViewSame(bs: Bufs, bs': Bufs, disk: Store)
    requires |bs| == |bs'|
    requires forall i :: 0 <= i < |bs| ==>
      bs[i].key == bs'[i].key && bs[i].valid == bs'[i].valid && bs[i].data == bs'[i].data
    ensures Same(bs, bs', disk)
  {
  }

  /** A change to one valid buffer, or to its block, shows there and nowhere else. */
  lemma ChangedOne(bs: Bufs, disk: Store, b: nat, nb: Buf, disk': Store)
    requires Sound(bs, disk) && b < |bs| && nb.key == bs[b].key != ZeroKey && nb.valid
    requires disk' == disk || disk' == disk[nb.key := nb.data]
    ensures SameBut(bs, disk, bs[b := nb], disk', nb.key)
    ensures Shows(bs[b := nb], disk', nb.key, nb.data)
  {
    var bs' := bs[b := nb];
    assert Only(bs', b);
    forall k, data | k != ZeroKey && k != nb.key
      ensures Shows(bs, disk, k, data) <==> Shows(bs', disk', k, data)
    {
      hide Shows, Only, Unique;
      ShownSame(bs, disk, bs', disk', b, k, data);
    }
  }

  function MovedFront(order: seq<nat>, k: nat): (r: seq<nat>)
    requires k < |order|
    ensures |r| == |order|
  {
    [order[k]] + Without(order, k)
  }

  lemma MovedAt(order: seq<nat>, k: nat, x: nat)
    requires k < |order| && x < |order|
    ensures MovedFront(order, k)[x] == if x == 0 then order[k] else if x <= k then order[x - 1] else order[x]
  {
  }

  lemma MovedDistinct(order: seq<nat>, k: nat)
    requires k < |order| && Distinct([HEAD] + order)
    ensures Distinct([HEAD] + MovedFront(order, k))
    ensures forall b: nat :: b in order ==> b in MovedFront(order, k)
  {
    var all, r := [HEAD] + order, MovedFront(order, k);
    DistinctWithout(all, k + 1);
    var w := Without(all, k + 1);
    assert w == [HEAD] + Without(order, k);
    assert Front(w, order[k]) == [HEAD] + r;
    DistinctFront(w, order[k]);
    hide Distinct;
    forall b: nat | b in order
      ensures b in r
    {
      var x :| 0 <= x < |order| && order[x] == b;
      MovedAt(order, k, if x < k then x + 1 else if x == k then 0 else x);
    }
  }

  /** Moved[x] was released after moved[y], when x comes first. */
  lemma ReleasedLater(order: seq<nat>, stamp: map<nat, int>, clock: int, k: nat, x: nat, y: nat)
    requires Listed(order, stamp, clock) && k < |order| && x < y < |order|
    ensures var r, stamp' := MovedFront(order, k), stamp[order[k] := clock];
      r[x] in stamp' && r[y] in stamp' && clock >= stamp'[r[x]] > stamp'[r[y]] && r[x] < NBUF && r[y] < NBUF
  {
    var all := [HEAD] + order;
    var x', y' := if x <= k then x - 1 else x, if y <= k then y - 1 else y;
    MovedAt(order, k, x);
    MovedAt(order, k, y);
    assert all[k + 1] == order[k] && all[y' + 1] == order[y'];
    assert x != 0 ==> all[x' + 1] == order[x'];
    hide MovedFront;
  }

  lemma Released(order: seq<nat>, stamp: map<nat, int>, clock: int, k: nat)
    requires Listed(order, stamp, clock) && k < |order|
    ensures Listed(MovedFront(order, k), stamp[order[k] := clock], clock + 1)
  {
    var r, stamp' := MovedFront(order, k), stamp[order[k] := clock];
    MovedDistinct(order, k);
    hide Distinct, MovedFront;
    forall x, y | 0 <= x < y < |r|
      ensures r[x] in stamp' && r[y] in stamp' && clock >= stamp'[r[x]] > stamp'[r[y]] && r[x] < NBUF && r[y] < NBUF
    {
      ReleasedLater(order, stamp, clock, k, x, y);
    }
    forall x | 0 <= x < |r|
      ensures r[x] < NBUF && r[x] in stamp' && stamp'[r[x]] < clock + 1
    {
      assert x == 0 ==> r[x] in stamp' && r[1] in stamp';
    }
  }

  const Blank: Buf := Buf(ZeroKey, false, false, 0, false, ZeroBlock())

  function Filled(n: nat): (r: seq<nat>)
  {
    seq(n, (k: nat) => if k < n then n - 1 - k else 0)
  }

  lemma FilledFront(n: nat)
    requires n < NBUF
    ensures n !in [HEAD] + Filled(n) && ([HEAD] + Filled(n))[0] == HEAD
    ensures Front([HEAD] + Filled(n), n) == [HEAD] + Filled(n + 1)
  {
  }

  lemma BlankSound(bs: Bufs, disk: Store)
    requires |bs| == NBUF && forall i :: 0 <= i < |bs| ==> bs[i] == Blank
    ensures Sound(bs, disk)
  {
  }

  lemma FilledListed(stamp: map<nat, int>)
    requires forall b: nat :: b < NBUF ==> b in stamp && stamp[b] == b
    ensures Listed(Filled(NBUF), stamp, NBUF)
  {
    var r := Filled(NBUF);
    forall b: nat | b < NBUF
      ensures b in r
    {
      assert r[NBUF - 1 - b] == b;
    }
  }

  class Bcache {
    const buf: array<Buf>
    var next: Links
    var prev: Links
    var disk: Store
    ghost var order: seq<nat>          // from head.next on
    ghost var stamp: map<nat, int>     // when each buffer was last released
    ghost var clock: int

    ghost predicate Valid()
      reads this, buf
    {
      Sound(buf[..], disk) && Listed(order, stamp, clock) && Ring(next, prev, [HEAD] + order)
    }

    /** binit. */
    constructor (disk0: Store)
      ensures Valid() && fresh(buf) && disk == disk0
      ensures buf.Length == 30
      ensures forall i :: 0 <= i < 30 ==> buf[i] == Buf(Key(0, 0), false, false, 0, false, ZeroBlock())
    {
      buf := new Buf[NBUF](_ => Blank);
      next, prev, disk := map[HEAD := HEAD], map[HEAD := HEAD], disk0;
      order, stamp, clock := [], map[], NBUF;
      new;
      BlankSound(buf[..], disk);
      hide Sound, Listed;
      var b := 0;
      while b < NBUF
        invariant b <= NBUF && order == Filled(b) && Ring(next, prev, [HEAD] + order)
        invariant forall c: nat :: c < b ==> c in stamp && stamp[c] == c
        modifies `next, `prev, `order, `stamp
      {
        hide Ring;
        FilledFront(b);
        HookFront(next, prev, [HEAD] + order, b);
        prev, next := FrontPrev(next, prev, HEAD, b), FrontNext(next, HEAD, b);
        order, stamp := Filled(b + 1), stamp[b := b];
        b := b + 1;
      }
      FilledListed(stamp);
    }

    /** The first scan of bget: forward from the head for the block. */
    method Find(key: Key) returns (r: Option<nat>)
      requires Valid()
      ensures r.Some? ==> r.value < NBUF && buf[r.value].key == key
      ensures r.None? ==> forall i :: 0 <= i < NBUF ==> buf[i].key != key
    {
      hide Ring, Sound, Listed;
      ListFacts(order, stamp, clock, buf[..], disk);
      ghost var ring := [HEAD] + order;
      ghost var k: nat := 0;
      CanFollow(next, prev, ring, 0);
      var b := next[HEAD];
      k := Succ(0, |ring|);
      while b != HEAD
        invariant k < |ring| && b == ring[k]
        invariant forall i :: 1 <= i < (if k == 0 then |ring| else k) ==> buf[ring[i]].key != key
        decreases if k == 0 then 0 else |ring| - k
      {
        OffHead(ring, k);
        if buf[b].key == key {
          return Some(b);
        }
        CanFollow(next, prev, ring, k);
        b := next[b];
        k := Succ(k, |ring|);
      }
      r := None;
      forall i | 0 <= i < NBUF
        ensures buf[i].key != key
      {
        var x := PlaceOf(order, stamp, clock, i);
        assert ring[x + 1] == i;
      }
    }

    /** The second scan of bget: backward from the head for the least recently released idle buffer. */
    method FindIdle() returns (r: Option<nat>, ghost at: nat)
      requires Valid()
      ensures r.Some? ==> r.value < NBUF && at < |order| && order[at] == r.value && Idle(buf[r.value])
      ensures r.Some? ==> forall k :: at < k < |order| ==> order[k] < NBUF && !Idle(buf[order[k]])
      ensures r.None? ==> forall i :: 0 <= i < NBUF ==> !Idle(buf[i])
    {
      hide Ring, Sound, Listed, Idle;
      ListFacts(order, stamp, clock, buf[..], disk);
      ghost var ring := [HEAD] + order;
      ghost var k: nat := Pred(0, |ring|);
      CanFollow(next, prev, ring, 0);
      var b := prev[HEAD];
      at := 0;
      while b != HEAD
        invariant k < |ring| && b == ring[k]
        invariant forall i :: k < i < |ring| ==> !Idle(buf[ring[i]])
        decreases k
      {
        OffHead(ring, k);
        if Idle(buf[b]) {
          r, at := Some(b), k - 1;
          forall x | at < x < |order|
            ensures order[x] < NBUF && !Idle(buf[order[x]])
          {
            assert ring[x + 1] == order[x];
          }
          return;
        }
        CanFollow(next, prev, ring, k);
        b := prev[b];
        k := Pred(k, |ring|);
      }
      AtHead(ring, k);
      r := None;
      forall i | 0 <= i < NBUF
        ensures !Idle(buf[i])
      {
        var x := PlaceOf(order, stamp, clock, i);
        assert ring[x + 1] == i;
      }
    }

    /** bget up to the wait for the buffer's lock. A cached block is found; otherwise the least recently released
        buffer that is neither referenced nor dirty is recycled. None is the "no buffers" panic. */
    method Bget(key: Key) returns (r: Option<nat>)
      requires Valid()
      modifies buf
      ensures Valid()
      ensures r.None? <==> (forall i :: 0 <= i < NBUF ==> old(buf[i]).key != key && !Idle(old(buf[i])))
      ensures r.None? ==> buf[..] == old(buf[..])
      ensures r.Some? ==> r.value < NBUF
      ensures r.Some? && old(buf[r.value]).key == key ==>
        buf[..] == old(buf[..])[r.value := old(buf[r.value]).(refcnt := old(buf[r.value]).refcnt + 1)]
      ensures r.Some? && old(buf[r.value]).key != key ==>
        && (forall i :: 0 <= i < NBUF ==> old(buf[i]).key != key)
        && Idle(old(buf[r.value])) && LeastRecent(order, old(buf[..]), r.value)
        && buf[..] == old(buf[..])[r.value := Buf(key, false, false, 1, false, old(buf[r.value]).data)]
    {
      hide Ring, Sound, Listed, Idle;
      ListFacts(order, stamp, clock, buf[..], disk);
      ghost var bs := buf[..];
      r := Find(key);
      if r.Some? {
        var b := r.value;
        AgreesAt(bs, disk, b);
        SetSound(bs, disk, b, bs[b].(refcnt := bs[b].refcnt + 1));
        buf[b] := buf[b].(refcnt := buf[b].refcnt + 1);
        assert buf[..] == bs[b := bs[b].(refcnt := bs[b].refcnt + 1)];
        return;
      }
      ghost var at;
      r, at := FindIdle();
      if r.Some? {
        var b := r.value;
        AgreesAt(bs, disk, b);
        IdleUnlocked(bs[b], disk);
        SetSound(bs, disk, b, Buf(key, false, false, 1, false, bs[b].data));
        buf[b] := Buf(key, false, false, 1, buf[b].locked, buf[b].data);
        assert buf[..] == bs[b := Buf(key, false, false, 1, false, bs[b].data)];
      }
    }

    /** bread once the lock is free: the buffer is locked and shows what the flat block store holds. */
    method Bread(key: Key) returns (r: Option<nat>)
      requires Valid() && key in disk && key != ZeroKey
      requires forall i :: 0 <= i < NBUF && buf[i].key == key ==> !buf[i].locked
      modifies buf
      ensures Valid()
      ensures r.None? <==> (forall i :: 0 <= i < NBUF ==> old(buf[i]).key != key && !Idle(old(buf[i])))
      ensures r.None? ==> buf[..] == old(buf[..])
      ensures r.Some? ==> r.value < NBUF && buf[r.value].key == key && buf[r.value].locked && buf[r.value].valid
      ensures r.Some? ==> Shows(old(buf[..]), disk, key, buf[r.value].data)
      ensures r.Some? ==> forall i :: 0 <= i < NBUF && i != r.value ==> buf[i] == old(buf[i])
      ensures r.Some? ==> Same(old(buf[..]), buf[..], disk)
    {
      hide Ring, Sound, Listed, Idle, Same, Shows;
      ListFacts(order, stamp, clock, buf[..], disk);
      ghost var bs0 := buf[..];
      r := Bget(key);
      if r.Some? {
        var b := r.value;
        ghost var bs := buf[..];
        AgreesAt(bs, disk, b);
        buf[b] := buf[b].(locked := true);                                // acquiresleep
        if !buf[b].valid {
          buf[b] := buf[b].(valid := true, data := disk[key]);            // iderw
        }
        assert buf[..] == bs[b := buf[b]];
        SetSound(bs, disk, b, buf[b]);
        assert buf[..] == bs0[b := buf[b]];
        if bs0[b].key == key {
          LoadedSame(bs0, disk, b, buf[b]);
        } else {
          RecycledSame(bs0, disk, b, key, buf[b]);
        }
        ShowsIt(buf[..], disk, b);
        TellSame(bs0, buf[..], disk, key, buf[b].data);
      }
    }

    /** bwrite: the buffer's content goes to its block. */
    method Bwrite(b: nat)
      requires Valid() && b < NBUF && buf[b].locked
      modifies buf, this`disk
      ensures Valid() && disk == old(disk)[buf[b].key := buf[b].data]
      ensures buf[..] == old(buf[..])[b := old(buf[b]).(valid := true, dirty := false)]
      ensures buf[b].key != ZeroKey ==>
        Shows(buf[..], disk, buf[b].key, buf[b].data) && SameBut(old(buf[..]), old(disk), buf[..], disk, buf[b].key)
    {
      hide Ring, Sound, Listed, SameBut, Shows;
      ListFacts(order, stamp, clock, buf[..], disk);
      ghost var bs := buf[..];
      WriteSound(bs, disk, b);
      if bs[b].key != ZeroKey {
        ChangedOne(bs, disk, b, bs[b].(valid := true, dirty := false), disk[bs[b].key := bs[b].data]);
      }
      disk := disk[buf[b].key := buf[b].data];
      buf[b] := buf[b].(valid := true, dirty := false);
      assert buf[..] == bs[b := bs[b].(valid := true, dirty := false)];
    }

    /** The holder of the lock changes the content; mark is log_write setting B_DIRTY. */
    method Fill(b: nat, data: Block, mark: bool)
      requires Valid() && b < NBUF && buf[b].locked && buf[b].valid
      modifies buf
      ensures Valid()
      ensures buf[..] == old(buf[..])[b := old(buf[b]).(data := data, dirty := mark || old(buf[b]).dirty)]
      ensures buf[b].key != ZeroKey ==>
        Shows(buf[..], disk, buf[b].key, data) && SameBut(old(buf[..]), disk, buf[..], disk, buf[b].key)
    {
      hide Ring, Sound, Listed, SameBut, Shows;
      ListFacts(order, stamp, clock, buf[..], disk);
      ghost var bs := buf[..];
      AgreesAt(bs, disk, b);
      buf[b] := buf[b].(data := data, dirty := mark || buf[b].dirty);
      assert buf[..] == bs[b := buf[b]];
      SetSound(bs, disk, b, buf[b]);
      if bs[b].key != ZeroKey {
        ChangedOne(bs, disk, b, buf[b], disk);
      }
    }

    /** brelse: the last reference moves the buffer to the front of the list. The holder has written or marked
        dirty what it changed. */
    method Brelse(b: nat)
      requires Valid() && b < NBUF && buf[b].locked
      requires Agrees(buf[b].(locked := false), disk)
      modifies this, buf
      ensures Valid() && disk == old(disk)
      ensures buf[..] == old(buf[..])[b := old(buf[b]).(locked := false, refcnt := old(buf[b]).refcnt - 1)]
      ensures Same(old(buf[..]), buf[..], disk)
      ensures if buf[b].refcnt > 0 then order == old(order)
        else exists k :: 0 <= k < |old(order)| && old(order)[k] == b && order == MovedFront(old(order), k)
    {
      hide Ring, Sound, Listed;
      ListFacts(order, stamp, clock, buf[..], disk);
      ghost var bs := buf[..];
      AgreesAt(bs, disk, b);
      SetSound(bs, disk, b, bs[b].(locked := false, refcnt := bs[b].refcnt - 1));
      buf[b] := buf[b].(locked := false, refcnt := buf[b].refcnt - 1);
      assert buf[..] == bs[b := bs[b].(locked := false, refcnt := bs[b].refcnt - 1)];
      ViewSame(bs, buf[..], disk);
      hide Same;
      if buf[b].refcnt == 0 {
        ghost var ring := [HEAD] + order;
        ghost var k := PlaceOf(order, stamp, clock, b);
        Unhook(next, prev, ring, k + 1);
        MoveRing(order, k);
        Released(order, stamp, clock, k);
        prev, next := prev[next[b] := prev[b]], next[prev[b] := next[b]];
        HookFront(next, prev, Without(ring, k + 1), b);
        prev, next := FrontPrev(next, prev, HEAD, b), FrontNext(next, HEAD, b);
        order, stamp, clock := MovedFront(order, k), stamp[b := clock], clock + 1;
      }
    }
  }

  /** No idle buffer was released longer ago than b. */
  ghost predicate LeastRecent(order: seq<nat>, bs: Bufs, b: nat)
  {
    exists at :: 0 <= at < |order| && order[at] == b && forall k :: at < k < |order| ==>
      order[k] < |bs| && !Idle(bs[order[k]])
  }

  lemma ListFacts(order: seq<nat>, stamp: map<nat, int>, clock: int, bs: Bufs, disk: Store)
    requires Listed(order, stamp, clock) && Sound(bs, disk)
    ensures |order| == NBUF && |bs| == NBUF && ([HEAD] + order)[0] == HEAD && Distinct([HEAD] + order)
    ensures forall k :: 1 <= k < |[HEAD] + order| ==> ([HEAD] + order)[k] < NBUF
  {
  }

  lemma OffHead(ring: seq<nat>, k: nat)
    requires |ring| == NBUF + 1 && k < |ring| && ring[k] != HEAD && ring[0] == HEAD
    ensures k > 0
  {
  }

  lemma AtHead(ring: seq<nat>, k: nat)
    requires |ring| == NBUF + 1 && k < |ring| && ring[k] == HEAD && forall i :: 1 <= i < |ring| ==> ring[i] < NBUF
    ensures k == 0
  {
  }

  lemma PlaceOf(order: seq<nat>, stamp: map<nat, int>, clock: int, b: nat) returns (k: nat)
    requires Listed(order, stamp, clock) && b < NBUF
    ensures k < |order| && order[k] == b
  {
    assert b in order;
    k :| k < |order| && order[k] == b;
  }

  lemma AgreesAt(bs: Bufs, disk: Store, b: nat)
    requires Sound(bs, disk) && b < NBUF
    ensures |bs| == NBUF && Agrees(bs[b], disk)
  {
  }

  lemma IdleUnlocked(b: Buf, disk: Store)
    requires Idle(b) && Agrees(b, disk)
    ensures !b.locked
  {
  }

  lemma ShowsIt(bs: Bufs, disk: Store, b: nat)
    requires Sound(bs, disk) && b < |bs| && bs[b].key != ZeroKey && bs[b].valid
    ensures Shows(bs, disk, bs[b].key, bs[b].data)
  {
  }

  lemma TellSame(bs: Bufs, bs': Bufs, disk: Store, key: Key, data: Block)
    requires Same(bs, bs', disk) && key != ZeroKey && Shows(bs', disk, key, data)
    ensures Shows(bs, disk, key, data)
  {
  }

  lemma MoveRing(order: seq<nat>, k: nat)
    requires k < |order|
    ensures Front(Without([HEAD] + order, k + 1), order[k]) == [HEAD] + MovedFront(order, k)
    ensures Without([HEAD] + order, k + 1)[0] == HEAD
    ensures Distinct([HEAD] + order) ==> order[k] !in Without([HEAD] + order, k + 1)
  {
    if Distinct([HEAD] + order) {
      DistinctWithout([HEAD] + order, k + 1);
    }
  }
}
