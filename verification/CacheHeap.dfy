/**
 The cache as the program builds it: entry objects chained by next and prev
 pointers, a hash map, and a byte count.  Every method refines the function
 of the same purpose in CacheState.
 */
module CacheHeap {
  import S = CacheState
  import opened CacheEviction

  class CacheEntry {
    const key: string
    var value: S.Any
    var expiration: int
    var size: int
    var waiting: int
    var next: CacheEntry?
    var prev: CacheEntry?

    /** The entry without its list pointers. */
    ghost function View(): S.Entry
      reads `value, `expiration, `size, `waiting
    {
      S.Entry(key, value, expiration, size, waiting)
    }

    constructor (key: string, value: S.Any, expiration: int, waiting: int)
      ensures View() == S.Entry(key, value, expiration, 0, waiting)
      ensures next == null && prev == null
    {
      this.key, this.value, this.expiration, this.size, this.waiting := key, value, expiration, 0, waiting;
      next, prev := null, null;
    }

    /** An entry that the next step could use but does not. */
    ghost constructor Spare()
    {
      key, value, expiration, size, waiting, next, prev := "", S.Nil, 0, 0, 0, null, null;
    }
  }

  class Cache {
    const maxmemory: int
    var usedmemory: int
    var entries: map<string, CacheEntry>
    var head: CacheEntry?
    var tail: CacheEntry?
    ghost var List: seq<CacheEntry>     // the entries from head to tail
    ghost var Objects: set<CacheEntry>  // every entry ever allocated

    /** The pointers spell out List in both directions. */
    ghost predicate Linked()
      reads `List, `Objects, `head, `tail, Objects`next, Objects`prev
    {
      && (forall e :: e in List ==> e in Objects)
      && S.NoDup(List)
      && head == At(List, 0)
      && tail == At(List, |List| - 1)
      && (forall i {:trigger List[i].prev} :: 0 <= i < |List| ==> List[i].prev == At(List, i - 1))
      && (forall i {:trigger List[i].next} :: 0 <= i < |List| ==> List[i].next == At(List, i + 1))
    }

    /** The i-th list entry, nil beyond either end. */
    static ghost function At(q: seq<CacheEntry>, i: int): CacheEntry? {
      if 0 <= i < |q| then q[i] else null
    }

    ghost function Views(): map<CacheEntry, S.Entry>
      reads `Objects, Objects`value, Objects`expiration, Objects`size, Objects`waiting
    {
      map e | e in Objects :: e.View()
    }

    ghost function Abs(): S.State<CacheEntry>
      reads `Objects, `entries, `List, `usedmemory, Objects`value, Objects`expiration, Objects`size, Objects`waiting
    {
      S.State(Views(), entries, List, usedmemory, maxmemory)
    }

    /** Entries still being computed hang in no list. */
    ghost predicate InFlightUnlinked()
      reads `Objects, `List, Objects`expiration, Objects`next, Objects`prev
    {
      forall e :: e in Objects && e !in List && e.expiration == 0 ==> e.next == null && e.prev == null
    }

    ghost predicate Valid()
      reads this, Objects
    {
      Linked() && S.Inv(Abs()) && InFlightUnlinked()
    }

    constructor (maxmemory: int)
      ensures Valid() && Abs() == S.Empty(maxmemory) && Objects == {}
    {
      this.maxmemory := maxmemory;
      usedmemory, entries, head, tail := 0, map[], null, null;
      List, Objects := [], {};
    }

    /** The pointers of insertFront: e in front of the list q. */
    ghost predicate Heads(q: seq<CacheEntry>, e: CacheEntry)
      reads `head, `tail, e`next, e`prev, q`next, q`prev
    {
      && head == e && tail == (if q == [] then e else q[|q| - 1])
      && e.prev == null && e.next == At(q, 0)
      && (forall j {:trigger q[j].prev} :: 0 <= j < |q| ==> q[j].prev == if j == 0 then e else q[j - 1])
      && (forall j {:trigger q[j].next} :: 0 <= j < |q| ==> q[j].next == At(q, j + 1))
    }

    lemma HeadsChain(q: seq<CacheEntry>, e: CacheEntry)
      requires S.NoDup(q) && e !in q && e in Objects && (forall o :: o in q ==> o in Objects)
      requires Heads(q, e) && List == [e] + q
      ensures Linked()
    {
      forall i | 0 <= i < |List|
        ensures List[i] in Objects && List[i].prev == At(List, i - 1) && List[i].next == At(List, i + 1)
      {
        assert i > 0 ==> List[i] == q[i - 1];
      }
    }

    /** insertFront. */
    method InsertFront(e: CacheEntry)
      requires Linked() && e in Objects && e !in List
      modifies this`head, this`tail, this`List, Objects`next, Objects`prev
      ensures Linked() && List == [e] + old(List)
      ensures forall o :: o in Objects && o !in List ==> o.next == old(o.next) && o.prev == old(o.prev)
    {
      e.next := head;
      head := e;
      e.prev := null;
      if e.next != null {
        e.next.prev := e;
      }
      if tail == null {
        tail := e;
      }
      ghost var q := List;
      assert Heads(q, e);
      List := [e] + q;
      hide Linked;
      HeadsChain(q, e);
    }

    /** The pointers skip the i-th entry of q. */
    ghost predicate Skips(q: seq<CacheEntry>, i: nat)
      requires i < |q|
      reads `head, `tail, q`next, q`prev
    {
      && head == At(q, if i == 0 then 1 else 0)
      && tail == At(q, if i == |q| - 1 then |q| - 2 else |q| - 1)
      && (forall j {:trigger q[j].prev} :: 0 <= j < |q| && j != i ==> q[j].prev == At(q, if j == i + 1 then i - 1 else j - 1))
      && (forall j {:trigger q[j].next} :: 0 <= j < |q| && j != i ==> q[j].next == At(q, if j == i - 1 then i + 1 else j + 1))
    }

    /** The pointer updates of unlinkEntry; the list they leave skips e. */
    method Bypass(e: CacheEntry, ghost i: nat)
      requires Linked() && i < |List| && List[i] == e
      modifies this`head, this`tail, Objects`next, Objects`prev
      ensures Skips(List, i)
      ensures forall o :: o in Objects && o !in List ==> o.next == old(o.next) && o.prev == old(o.prev)
    {
      assert e.prev == At(List, i - 1) && e.next == At(List, i + 1);
      assert (e == head <==> i == 0) && (e == tail <==> i == |List| - 1);
      if e == head {
        head := e.next;
      }
      if e.prev != null {
        e.prev.next := e.next;
      }
      if e.next != null {
        e.next.prev := e.prev;
      }
      if e == tail {
        tail := e.prev;
      }
    }

    lemma Rechain(q: seq<CacheEntry>, i: nat)
      requires S.NoDup(q) && i < |q| && (forall e :: e in q ==> e in Objects) && Skips(q, i)
      requires List == q[..i] + q[i+1..]
      ensures Linked() && q[i] !in List
    {
      forall k | 0 <= k < |List|
        ensures List[k] in Objects && List[k] != q[i]
        ensures List[k].prev == At(List, k - 1) && List[k].next == At(List, k + 1)
      {
        assert List[k] == q[if k < i then k else k + 1];
      }
    }

    method UnlinkEntry(e: CacheEntry)
      requires Linked() && e in List
      modifies this`head, this`tail, this`List, Objects`next, Objects`prev
      ensures Linked() && List == S.Drop(old(List), {e}) && e !in List
      ensures (forall o :: o in old(List) ==> o in List || o == e) && (forall o :: o in List ==> o in old(List))
      ensures forall o :: o in Objects && o !in old(List) ==> o.next == old(o.next) && o.prev == old(o.prev)
    {
      ghost var q := List;
      ghost var i :| 0 <= i < |q| && q[i] == e;
      Bypass(e, i);
      S.DropAt(q, i);
      S.DropMember(q, {e});
      List := S.Drop(q, {e});
      Rechain(q, i);
    }

    /** Allocating an entry leaves the list alone. */
    twostate lemma StillLinked()
      requires old(Linked()) && old(Objects) <= Objects
      requires List == old(List) && head == old(head) && tail == old(tail)
      requires forall o :: o in old(List) ==> o.next == old(o.next) && o.prev == old(o.prev)
      ensures Linked()
    {
    }

    /** Entries in flight stay out of the list. */
    twostate lemma StillUnlinked(new e: CacheEntry)
      requires old(InFlightUnlinked()) && e.expiration != 0
      requires forall o :: o in Objects && o.expiration == 0 ==> o in old(Objects) && old(o.expiration) == 0
      requires forall o :: o in old(List) ==> o in List || o == e
      requires forall o :: o in old(Objects) && o !in old(List) && o != e ==> o.next == old(o.next) && o.prev == old(o.prev)
      ensures InFlightUnlinked()
    {
    }

    /** What evictEntry leaves behind is the evicted state. */
    twostate lemma Evicted(e: CacheEntry)
      requires old(S.Inv(Abs())) && e in old(List) && old(e.waiting) == 0
      requires Objects == old(Objects) && entries == old(entries) - {e.key}
      requires List == S.Drop(old(List), {e}) && usedmemory == old(usedmemory) - old(e.size)
      requires forall o :: o in Objects ==> o.View() == old(o.View())
      ensures S.Inv(Abs()) && Abs() == S.Evict(old(Abs()), e)
    {
      hide S.Inv, S.Drop;
      ghost var s := old(Abs());
      S.Listed(s);
      assert s.objs[e] == old(e.View());
      S.CompleteListed(s, e);
      S.EvictInv(s, e);
      hide S.Mapped;
      assert Views() == s.objs;
    }

    /** evictEntry. */
    method EvictEntry(e: CacheEntry) returns (ok: bool)
      requires Valid() && e in Objects && (S.Mapped(Abs(), e) || e.waiting != 0)
      modifies this, Objects`next, Objects`prev
      ensures Valid() && Objects == old(Objects)
      ensures Abs() == S.Evict(old(Abs()), e) && ok == S.Evictable(old(Abs()), e)
    {
      hide S.Inv, Linked, S.Drop, InFlightUnlinked, Views;
      ObjectView(e);
      if e.waiting != 0 {
        return false;
      }
      S.CompleteListed(Abs(), e);
      UnlinkEntry(e);
      usedmemory := usedmemory - e.size;
      entries := entries - {e.key};
      Evicted(e);
      StillUnlinked(e);
      return true;
    }

    /** Only the fields of e changed, among the objects known before. */
    twostate predicate OnlyChanged(new e: CacheEntry)
      reads `Objects, Objects`value, Objects`expiration, Objects`size, Objects`waiting
    {
      old(Objects) <= Objects && forall o :: o in old(Objects) && o != e ==> o.View() == old(o.View())
    }

    twostate lemma ViewsUpdated(new e: CacheEntry)
      requires OnlyChanged(e) && Objects == old(Objects) + {e}
      ensures Views() == old(Views())[e := e.View()]
    {
    }

    twostate lemma ViewsSame()
      requires Objects == old(Objects) && forall o :: o in Objects ==> o.View() == old(o.View())
      ensures Views() == old(Views())
    {
    }

    lemma EveryView()
      ensures forall e :: e in Objects <==> e in Abs().objs
    {
    }

    /** What the state says of an entry is what its fields say. */
    lemma ObjectView(e: CacheEntry)
      requires e in Objects
      ensures e in Abs().objs && Abs().objs[e] == e.View()
    {
    }

    /** The two calls by which Get and Put mark an entry as the most recent. */
    method MoveToFront(e: CacheEntry)
      requires Valid() && e in List
      modifies this, Objects`next, Objects`prev
      ensures Valid() && Objects == old(Objects)
      ensures Abs() == S.PushFront(S.Unlink(old(Abs()), e), e)
    {
      hide S.Inv, Linked, S.Drop, InFlightUnlinked, Abs;
      S.Listed(Abs());
      ListedObject(e);
      UnlinkEntry(e);
      InsertFront(e);
      Moved(e);
    }

    lemma ListedObject(e: CacheEntry)
      requires S.Inv(Abs()) && e in List
      ensures e in Objects && e.expiration != 0
    {
      S.Listed(Abs());
      ObjectView(e);
      S.CompleteListed(Abs(), e);
      hide S.Inv;
    }

    /** After the two calls the entry is in front and all else is as it was. */
    twostate lemma Moved(e: CacheEntry)
      requires old(Valid()) && e in old(List) && e.expiration != 0 && Linked() && Objects == old(Objects)
      requires List == [e] + S.Drop(old(List), {e}) && entries == old(entries) && usedmemory == old(usedmemory)
      requires forall o :: o in Objects ==> o.View() == old(o.View())
      requires forall o :: o in Objects && o !in old(List) ==> o.next == old(o.next) && o.prev == old(o.prev)
      ensures Valid() && Abs() == S.PushFront(S.Unlink(old(Abs()), e), e)
    {
      hide S.Inv, Linked, S.Drop, InFlightUnlinked, Views;
      S.TouchInv(old(Abs()), e);
      S.DropMember(old(List), {e});
      ViewsSame();
      StillUnlinked(e);
    }

    /** cond.Wait is about to be called, or has just returned, on e. */
    method CountWaiter(e: CacheEntry, n: int)
      requires Valid() && e in Objects && S.Mapped(Abs(), e)
      requires e.waiting + n >= 0 && (e.expiration == 0 ==> e.waiting + n > 0)
      modifies e`waiting
      ensures Valid() && Abs() == S.AddWaiting(old(Abs()), e, n)
    {
      hide S.Inv, Linked;
      assert Abs().objs[e] == e.View();
      S.AddWaitingInv(Abs(), e, n);
      e.waiting := e.waiting + n;
      ViewsUpdated(e);
    }

    /** The part of Get that deals with a completed entry; its panic cannot happen. */
    method GetPresent(e: CacheEntry, now: int, canCompute: bool) returns (out: S.Outcome<CacheEntry>, panicked: bool)
      requires Valid() && e in List
      modifies this, Objects`next, Objects`prev
      ensures Valid() && Objects == old(Objects) && !panicked
      ensures (Abs(), out) == S.GetPresent(old(Abs()), e, now, canCompute)
    {
      hide S.Inv;
      S.Listed(Abs());
      assert Abs().objs[e] == e.View();
      assert S.Mapped(Abs(), e) && e.expiration != 0 by { S.CompleteListed(Abs(), e); }
      assert (e == head) == (List[0] == e);
      hide Linked;
      if now > e.expiration {
        var ok := EvictEntry(e);
        if !ok {
          if e.expiration == 0 {
            return S.Miss, true;
          }
          return S.Hit(e.value), false;
        }
        return if canCompute then S.Register else S.Miss, false;
      }
      if e != head {
        MoveToFront(e);
      }
      return S.Hit(e.value), false;
    }

    /** Get adds an entry in flight. */
    method Register(key: string) returns (e: CacheEntry)
      requires Valid() && key !in entries
      modifies this
      ensures Valid() && fresh(e) && Objects == old(Objects) + {e}
      ensures Abs() == S.Registered(old(Abs()), key, e)
    {
      hide S.Inv, Linked, Views;
      e := new CacheEntry(key, S.Nil, 0, 1);
      EveryView();
      S.RegisteredInv(Abs(), key, e);
      S.Listed(Abs());
      entries := entries[key := e];
      Objects := Objects + {e};
      StillLinked();
      ViewsUpdated(e);
    }

    /**
     Get up to its first release of the mutex: it returns a value or nil, or
     waits on an entry, or goes off to compute the value of the new entry e.
     */
    method GetEnter(key: string, now: int, canCompute: bool) returns (out: S.Outcome<CacheEntry>, e: CacheEntry?, panicked: bool)
      requires Valid()
      modifies this, Objects
      ensures Valid() && fresh(Objects - old(Objects)) && !panicked
      ensures var (t, o) := S.GetEnter(old(Abs()), key, now, canCompute);
        out == o &&
        if o.Register? then e != null && fresh(e) && Abs() == S.Registered(t, key, e) else Abs() == t
    {
      hide S.Inv, Linked;
      S.GetEnterInv(Abs(), key, now, canCompute);
      e, panicked := null, false;
      if key in entries {
        EntryKnown(key);
        var entry := entries[key];
        S.CompleteListed(Abs(), entry);
        if entry.expiration == 0 {
          CountWaiter(entry, 1);
          return S.Wait(entry), null, false;
        }
        out, panicked := GetPresent(entry, now, canCompute);
      } else {
        out := if canCompute then S.Register else S.Miss;
      }
      if out.Register? {
        e := Register(key);
      }
    }

    /** Get from the return of its cond.Wait on entry to its next release of the mutex. */
    method GetResume(entry: CacheEntry, now: int, canCompute: bool)
      returns (out: S.Outcome<CacheEntry>, e: CacheEntry?, panicked: bool)
      requires Valid() && entry in Objects && entry.waiting > 0
      requires entry.expiration == 0 ==> entry.waiting > 1  // the computing goroutine counts as well
      modifies this, Objects
      ensures Valid() && fresh(Objects - old(Objects)) && !panicked
      ensures var (t, o) := S.GetResume(old(Abs()), entry, now, canCompute);
        out == o &&
        if o.Register? then e != null && fresh(e) && Abs() == S.Registered(t, entry.key, e) else Abs() == t
    {
      hide S.Inv, Linked;
      ObjectView(entry);
      S.CompleteListed(Abs(), entry);
      S.Counted(Abs(), entry);
      S.GetResumeInv(Abs(), entry, now, canCompute);
      ghost var s := Abs();
      CountWaiter(entry, -1);
      e, panicked := null, false;
      if entry.expiration == 0 {
        CountWaiter(entry, 1);
        assert S.AddWaiting(S.AddWaiting(s, entry, -1), entry, 1).objs == s.objs;
        return S.Wait(entry), null, false;
      }
      S.CompleteListed(Abs(), entry);
      out, panicked := GetPresent(entry, now, canCompute);
      if out.Register? {
        e := Register(entry.key);
      }
    }

    lemma EntryKnown(key: string)
      requires S.Inv(Abs()) && key in entries
      ensures var e := entries[key];
        e in Objects && e.key == key && Abs().objs[e] == e.View() && S.Mapped(Abs(), e)
    {
      assert entries[key] in Abs().objs;
    }

    /** The assignments Get and Put make to an entry. */
    method Fill(e: CacheEntry, value: S.Any, expiration: int, size: int)
      modifies e`value, e`expiration, e`size
      ensures e.View() == old(e.View()).(value := value, expiration := expiration, size := size)
    {
      e.value, e.expiration, e.size := value, expiration, size;
    }

    /** Get stores what computeValue returned, up to its eviction loop. */
    method Land(e: CacheEntry, value: S.Any, expiration: int, size: int) returns (broadcast: bool)
      requires Valid() && e in Objects && e.expiration == 0 && expiration != 0
      modifies this, Objects
      ensures Valid() && Objects == old(Objects)
      ensures Abs() == S.Complete(old(Abs()), e, value, expiration, size)
      ensures broadcast <==> old(e.waiting) > 1
    {
      hide S.Inv, Linked, InFlightUnlinked, Abs;
      InFlightUnlisted(e);
      Fill(e, value, expiration, size);
      e.waiting := e.waiting - 1;
      broadcast := e.waiting > 0;
      usedmemory := usedmemory + size;
      InsertFront(e);
      Landed(e);
    }

    lemma InFlightUnlisted(e: CacheEntry)
      requires S.Inv(Abs()) && e in Objects && e.expiration == 0
      ensures e !in List
    {
      ObjectView(e);
      S.CompleteListed(Abs(), e);
      hide S.Inv;
    }

    /** The entry now has its value and is in front. */
    twostate lemma Landed(e: CacheEntry)
      requires old(Valid()) && e in old(Objects) && old(e.expiration) == 0 && e.expiration != 0 && e.waiting == old(e.waiting) - 1
      requires Linked() && Objects == old(Objects) && OnlyChanged(e)
      requires List == [e] + old(List) && entries == old(entries) && usedmemory == old(usedmemory) + e.size
      requires forall o :: o in Objects && o !in List ==> o.next == old(o.next) && o.prev == old(o.prev)
      requires forall o :: o in Objects && o.expiration == 0 ==> old(o.expiration) == 0
      ensures Valid() && Abs() == S.Complete(old(Abs()), e, e.value, e.expiration, e.size)
    {
      hide S.Inv, Linked, InFlightUnlinked;
      assert old(Abs()).objs[e] == old(e.View());
      S.CompleteInv(old(Abs()), e, e.value, e.expiration, e.size);
      ViewsUpdated(e);
      StillUnlinked(e);
    }

    /** Get from the return of computeValue to the end; it may have to wake the waiting goroutines. */
    method GetFinish(e: CacheEntry, value: S.Any, ttl: int, size: int, now: int) returns (broadcast: bool)
      requires Valid() && e in Objects && e.expiration == 0
      requires now + ttl != 0
      modifies this, Objects
      ensures Valid() && Objects == old(Objects)
      ensures (S.Listed(old(Abs())); Abs() == S.GetFinish(old(Abs()), e, value, now + ttl, size, now))
      ensures broadcast <==> old(e.waiting) > 1
    {
      hide S.Inv, Linked, S.Trim;
      S.Listed(Abs());
      broadcast := Land(e, value, now + ttl, size);
      EvictLoop(now);
    }

    lemma InOrder()
      ensures Abs().order == List && Abs().used == usedmemory && Abs().max == maxmemory
    {
    }

    /** One round of the loop of Get, at list position i. */
    lemma LoopRound(i: int, now: int)
      requires Valid() && 0 <= i < |List| && usedmemory > maxmemory
      ensures S.NoDup(List) && (forall r :: r in List ==> r in Abs().objs)
      ensures var e := List[i];
        && e in Objects && S.Mapped(Abs(), e) && e.prev == At(List, i - 1)
        && var t := Round(Abs(), i, now);
           && t == (if (e.size > 0 || now > e.expiration) && e.waiting == 0 then S.Evict(Abs(), e) else Abs())
           && i <= |t.order| && t.order[..i] == List[..i] && (forall r :: r in t.order ==> r in t.objs)
           && S.Trim(Abs(), i, now) == S.Trim(t, i - 1, now)
    {
      S.Listed(Abs());
      EveryView();
      ObjectView(List[i]);
      S.CompleteListed(Abs(), List[i]);
      RoundFacts(Abs(), i, now);
      hide S.Inv, S.Trim;
    }

    /** The loop of Get that walks from the tail to the head. */
    method EvictLoop(now: int)
      requires Valid()
      modifies this, Objects`next, Objects`prev
      ensures Valid() && Objects == old(Objects)
      ensures (S.Listed(old(Abs())); Abs() == S.TrimAll(old(Abs()), now))
    {
      hide S.Inv, S.Trim, Linked, InFlightUnlinked, Abs, Round;
      S.Listed(Abs());
      InOrder();
      EndsAgree();
      ghost var target := S.TrimAll(Abs(), now);
      ghost var i := |List| - 1;
      var candidate := tail;
      while usedmemory > maxmemory && candidate != null
        invariant Valid() && Objects == old(Objects)
        invariant Abs().order == List && -1 <= i < |List| && candidate == At(List, i)
        invariant (S.Listed(Abs()); S.Trim(Abs(), i, now) == target)
        decreases i
      {
        LoopRound(i, now);
        var next := candidate.prev;
        if (candidate.size > 0 || now > candidate.expiration) && candidate.waiting == 0 {
          var _ := EvictEntry(candidate);
        }
        InOrder();
        candidate := next;
        i := i - 1;
      }
      S.Listed(Abs());
      InOrder();
      TrimDone(Abs(), i, now);
    }

    /** Put over a completed entry. */
    method PutPresent(e: CacheEntry, value: S.Any, expiration: int, size: int)
      requires Valid() && e in List && expiration != 0
      modifies this, Objects
      ensures Valid() && Objects == old(Objects)
      ensures Abs() == S.PutPresent(old(Abs()), e, value, expiration, size)
    {
      hide S.Inv, Linked, S.Drop, Views;
      ghost var s := Abs();
      S.Listed(s);
      EveryView();
      ObjectView(e);
      S.OverwriteInv(s, e, value, expiration, size);
      usedmemory := usedmemory - e.size;
      Fill(e, value, expiration, size);
      usedmemory := usedmemory + e.size;
      ViewsUpdated(e);
      assert Abs() == S.Overwrite(s, e, value, expiration, size);
      MoveToFront(e);
    }

    /** Put of a key the map does not hold; nobody sets the size of the new entry. */
    method PutNew(key: string, value: S.Any, expiration: int) returns (entry: CacheEntry)
      requires Valid() && key !in entries && expiration != 0
      modifies this, Objects
      ensures Valid() && fresh(entry) && Objects == old(Objects) + {entry} && entries == old(entries)[key := entry]
      ensures Abs() == S.PutNew(old(Abs()), key, value, expiration, entry)
    {
      hide S.Inv, Linked, InFlightUnlinked, Abs;
      entry := new CacheEntry(key, value, expiration, 0);
      Unlisted(entry);
      entries := entries[key := entry];
      Objects := Objects + {entry};
      StillLinked();
      InsertFront(entry);
      Added(entry);
    }

    /** An object that is none of the entries is not listed. */
    lemma Unlisted(e: CacheEntry)
      requires Linked() && e !in Objects
      ensures e !in List
    {
    }

    /** The new entry is in the map and in front. */
    twostate lemma Added(new e: CacheEntry)
      requires old(Valid()) && e !in old(Objects) && e.key !in old(entries) && e.expiration != 0 && e.waiting == 0 && e.size == 0
      requires Linked() && Objects == old(Objects) + {e} && OnlyChanged(e)
      requires List == [e] + old(List) && entries == old(entries)[e.key := e] && usedmemory == old(usedmemory)
      requires forall o :: o in old(Objects) && o !in old(List) ==> o.next == old(o.next) && o.prev == old(o.prev)
      requires forall o :: o in old(Objects) && o.expiration == 0 ==> old(o.expiration) == 0
      ensures Valid() && Abs() == S.PutNew(old(Abs()), e.key, e.value, e.expiration, e)
    {
      hide S.Inv, Linked, InFlightUnlinked;
      assert e !in old(Abs()).objs;
      S.PutNewInv(old(Abs()), e.key, e.value, e.expiration, e);
      ViewsUpdated(e);
      StillUnlinked(e);
    }

    /** Put up to its end, or to waiting on an entry in flight. */
    method PutEnter(key: string, value: S.Any, size: int, ttl: int, now: int) returns (out: S.Outcome<CacheEntry>)
      requires Valid() && now + ttl != 0
      modifies this, Objects
      ensures Valid() && fresh(Objects - old(Objects))
      ensures var (t, o) := S.PutEnter(old(Abs()), key, value, now + ttl, size);
        if o.Register? then
          out == S.Stored && key in entries && fresh(entries[key]) && Abs() == S.PutNew(t, key, value, now + ttl, entries[key])
        else out == o && Abs() == t
    {
      hide S.Inv, Linked;
      if key in entries {
        EntryKnown(key);
        var entry := entries[key];
        S.CompleteListed(Abs(), entry);
        if entry.expiration == 0 {
          CountWaiter(entry, 1);
          return S.Wait(entry);
        }
        PutPresent(entry, value, now + ttl, size);
        return S.Stored;
      }
      var _ := PutNew(key, value, now + ttl);
      return S.Stored;
    }

    /** Put from the return of its cond.Wait on entry. */
    method PutResume(entry: CacheEntry, value: S.Any, size: int, ttl: int, now: int) returns (out: S.Outcome<CacheEntry>)
      requires Valid() && entry in Objects && entry.waiting > 0 && now + ttl != 0
      requires entry.expiration == 0 ==> entry.waiting > 1
      modifies this, Objects
      ensures Valid() && Objects == old(Objects)
      ensures (Abs(), out) == S.PutResume(old(Abs()), entry, value, now + ttl, size)
    {
      hide S.Inv, Linked;
      ghost var s := Abs();
      assert s.objs[entry] == entry.View();
      S.CompleteListed(s, entry);
      S.Counted(s, entry);
      CountWaiter(entry, -1);
      if entry.expiration == 0 {
        CountWaiter(entry, 1);
        assert S.AddWaiting(S.AddWaiting(s, entry, -1), entry, 1).objs == s.objs;
        return S.Wait(entry);
      }
      PutPresent(entry, value, now + ttl, size);
      return S.Stored;
    }

    method Del(key: string) returns (deleted: bool)
      requires Valid()
      modifies this, Objects`next, Objects`prev
      ensures Valid() && Objects == old(Objects)
      ensures (Abs(), deleted) == S.Del(old(Abs()), key)
    {
      hide S.Inv, Linked;
      if key in entries {
        EntryKnown(key);
        deleted := EvictEntry(entries[key]);
      } else {
        deleted := false;
      }
    }

    /** The links Keys checks agree with each other. */
    lemma LinksAgree(e: CacheEntry)
      requires Valid() && e in Objects && S.Mapped(Abs(), e)
      ensures e.prev != null ==> e.prev.next == e
      ensures e.next != null ==> e.next.prev == e
    {
      S.CompleteListed(Abs(), e);
      assert Abs().objs[e] == e.View();
      hide S.Inv;
      if e in List {
        var i :| 0 <= i < |List| && List[i] == e;
        assert e.prev == At(List, i - 1) && e.next == At(List, i + 1);
        assert i > 0 ==> List[i - 1].next == At(List, i);
        assert i + 1 < |List| ==> List[i + 1].prev == At(List, i);
      }
    }

    lemma EndsAgree()
      requires Linked()
      ensures head == At(List, 0) && tail == At(List, |List| - 1)
      ensures head == null <==> tail == null
      ensures head != null ==> head.prev == null && tail.next == null
    {
      assert List != [] ==> List[0].prev == At(List, -1) && List[|List| - 1].next == At(List, |List|);
    }

    /** One entry of the walk Keys makes: it may go, and its links are checked if it stays. */
    method Visit(e: CacheEntry, now: int) returns (evicted: bool, broken: bool)
      requires Valid() && e in Objects && S.Mapped(Abs(), e)
      modifies this, Objects`next, Objects`prev
      ensures Valid() && Objects == old(Objects) && !broken
      ensures evicted <==> old(Abs()).objs[e].Expired(now) && S.Evictable(old(Abs()), e)
      ensures Abs() == if evicted then S.Evict(old(Abs()), e) else old(Abs())
    {
      hide S.Inv, Linked;
      assert Abs().objs[e] == e.View();
      evicted, broken := false, false;
      if now > e.expiration {
        evicted := EvictEntry(e);
        if evicted {
          return;
        }
      }
      LinksAgree(e);
      if e.prev != null {
        if e.prev.next != e {
          broken := true;
        }
      }
      if e.next != null {
        if e.next.prev != e {
          broken := true;
        }
      }
    }

    /**
     Keys, walking the map in any order.  It evicts what has expired, calls f
     once for every other entry, and none of its panics can happen.
     */
    method Keys(now: int) returns (panicked: bool, calls: map<string, S.Any>)
      requires Valid()
      modifies this, Objects`next, Objects`prev
      ensures Valid() && Objects == old(Objects)
      ensures !panicked && Abs() == S.Sweep(old(Abs()), now)
      ensures calls == map k | k in entries :: entries[k].value
    {
      hide S.Inv, Linked, Walking;
      ghost var s := Abs();
      panicked, calls := false, map[];
      var size := 0;
      var todo := entries.Keys;
      WalkStart(s, now);
      while todo != {}
        invariant Valid() && Objects == old(Objects) && Views() == s.objs
        invariant Walking(s, Abs(), now, todo, size)
        invariant calls == map k | k in entries && k !in todo :: entries[k].value
        decreases todo
      {
        var key :| key in todo;
        WalkKnown(s, Abs(), now, todo, size, key);
        EntryKnown(key);
        var e := entries[key];
        if key != e.key {
          return true, calls;
        }
        ghost var t := Abs();
        var evicted, broken := Visit(e, now);
        if broken {
          return true, calls;
        }
        if evicted {
          WalkEvict(s, t, now, todo, size, key);
          todo := todo - {key};
          continue;
        }
        WalkKeep(s, t, now, todo, size, key);
        todo := todo - {key};
        size := size + e.size;
        calls := calls[key := e.value];
      }
      WalkEnd(s, Abs(), now, size);
      if size != usedmemory {
        return true, calls;
      }
      EndsAgree();
      if head != null {
        if tail == null || head.prev != null {
          return true, calls;
        }
      }
      if tail != null {
        if head == null || tail.next != null {
          return true, calls;
        }
      }
    }
  }
}
