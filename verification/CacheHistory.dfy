/**
 What a run of the concurrent cache stores: the value that a Get finds in terms of the
 actions before it, and the memory that Put accounts for.
 */
module CacheHistory {
  import opened CacheState
  import opened CacheMachine
  import opened CacheTheorems
  import opened Options
  import opened Sets

  // ----- the latest value -----

  datatype Change = Nothing | Gets(record: Record) | Loses

  /** The key a Get or Put is about. */
  ghost function KeyOf<R>(s: Sys<R>, a: Action<R>): string
    requires Enabled(s, a) && (a.Enter? || a.Wake?)
  {
    if a.Enter? then a.key else s.c.objs[s.pcs[a.t].r].key
  }

  ghost function OpOf<R>(s: Sys<R>, a: Action<R>): Op
    requires Enabled(s, a) && (a.Enter? || a.Wake?)
  {
    if a.Enter? then a.op else s.pcs[a.t].op
  }

  ghost function OutcomeOf<R>(s: Sys<R>, a: Action<R>): Outcome<R>
    requires Inv(s.c) && Enabled(s, a) && (a.Enter? || a.Wake?)
  {
    if a.Enter? then EnterC(s.c, a.key, a.op).1 else ResumeC(s.c, s.pcs[a.t].r, s.pcs[a.t].op).1
  }

  /** What an action does to a key: a computation or a Put that is done stores its value, a successful Del removes it. */
  ghost function ChangeBy<R>(s: Sys<R>, a: Action<R>, key: string): Change
    requires Inv(s.c) && Enabled(s, a)
  {
    match a
    case Finish(t, value, expiration, _) => if s.c.objs[s.pcs[t].r].key == key then Gets(Record(value, expiration)) else Nothing
    case Delete(_, k) => if k == key && Del(s.c, k).1 then Loses else Nothing
    case Walk(_, _) => Nothing
    case _ =>
      if OpOf(s, a).PutOp? && KeyOf(s, a) == key && !OutcomeOf(s, a).Wait? then Gets(Record(OpOf(s, a).value, OpOf(s, a).expiration)) else Nothing
  }

  /** The value that the last change before step i left to the key, and its expiration. */
  ghost function Latest<R>(tr: seq<Sys<R>>, acts: seq<Action<R>>, threads: set<nat>, max: int, i: nat, key: string): Option<Record>
    requires Run(tr, acts, threads, max) && i <= |acts|
  {
    if i == 0 then None
    else
      match ChangeBy(tr[i - 1], acts[i - 1], key)
      case Gets(record) => Some(record)
      case Loses => None
      case Nothing => Latest(tr, acts, threads, max, i - 1, key)
  }

  /** One step changes what is recorded for a key as it changes the key. */
  lemma ChangeRecorded<R>(s: Sys<R>, a: Action<R>, key: string)
    requires Inv(s.c) && Enabled(s, a)
    ensures match ChangeBy(s, a, key)
            case Gets(record) => key in Step(s, a).spec && Step(s, a).spec[key] == record
            case Loses => key !in Step(s, a).spec
            case Nothing => (key in Step(s, a).spec <==> key in s.spec) && (key in s.spec ==> Step(s, a).spec[key] == s.spec[key])
  {
    hide Inv, EnterC, ResumeC, Created, Uses;
  }

  lemma {:induction false} LatestRecorded<R>(tr: seq<Sys<R>>, acts: seq<Action<R>>, threads: set<nat>, max: int, i: nat, key: string)
    requires Run(tr, acts, threads, max) && i <= |acts|
    ensures Latest(tr, acts, threads, max, i, key) == if key in tr[i].spec then Some(tr[i].spec[key]) else None
  {
    hide Step, Inv, Enabled, ChangeBy;
    if i == 0 {
    } else {
      LatestRecorded(tr, acts, threads, max, i - 1, key);
      ChangeRecorded(tr[i - 1], acts[i - 1], key);
    }
  }

  /**
   In every run, a Get that returns a value without computing it returns the one that the last
   finished computation or Put of its key stored, with no successful Del of the key since.
   */
  lemma GetReturnsLatest<R>(tr: seq<Sys<R>>, acts: seq<Action<R>>, threads: set<nat>, max: int, i: nat)
    requires Run(tr, acts, threads, max) && i < |acts| && (acts[i].Enter? || acts[i].Wake?)
    requires OutcomeOf(tr[i], acts[i]).Hit?
    ensures var latest := Latest(tr, acts, threads, max, i, KeyOf(tr[i], acts[i]));
            latest.Some? && latest.value.value == OutcomeOf(tr[i], acts[i]).value
  {
    hide Step, Inv;
    var s, a := tr[i], acts[i];
    AlwaysSafe(tr, acts, threads, max, i);
    LatestRecorded(tr, acts, threads, max, i, KeyOf(s, a));
    hide Run, Safe, Latest;
    match OpOf(s, a)
    case GetOp(now, canCompute) =>
      if a.Enter? {
        EnterReturnsLatest(s, a.key, now, canCompute);
      } else {
        WakeReturnsLatest(s, a.t);
      }
    case PutOp(_, _, _) =>
  }

  /** Every complete entry of every run has the value and the expiration that its key was last given. */
  lemma EntryIsLatest<R>(tr: seq<Sys<R>>, acts: seq<Action<R>>, threads: set<nat>, max: int, i: nat, key: string)
    requires Run(tr, acts, threads, max) && i <= |acts| && key in tr[i].c.entries
    ensures tr[i].c.entries[key] in tr[i].c.objs
    ensures var e := tr[i].c.objs[tr[i].c.entries[key]];
            !e.InFlight() ==> Latest(tr, acts, threads, max, i, key) == Some(Record(e.value, e.expiration))
  {
    hide Step, Init, Latest, Enabled;
    AlwaysSafe(tr, acts, threads, max, i);
    LatestRecorded(tr, acts, threads, max, i, key);
    hide Run;
    EntryObj(tr[i].c, key);
    CompleteListed(tr[i].c, tr[i].c.entries[key]);
    hide Inv;
  }

  /** Another goroutine counts on the entry: it has waited for it and not gone on yet. */
  ghost predicate Awaited<R>(s: Sys<R>, t: nat, r: R) {
    exists u :: u in s.pcs && u != t && Waits(s.pcs[u], r)
  }

  /**
   In every run, a Get that finds its key complete returns without computing exactly if it is not
   later than the expiration that the last finished computation or Put gave the key, or if another
   goroutine counts on the entry. It then returns the value last given, and otherwise goes on to
   compute, or returns nil if it cannot.
   */
  lemma GetReturnsExactly<R>(tr: seq<Sys<R>>, acts: seq<Action<R>>, threads: set<nat>, max: int, i: nat)
    requires Run(tr, acts, threads, max) && i < |acts| && (acts[i].Enter? || acts[i].Wake?) && OpOf(tr[i], acts[i]).GetOp?
    requires var c, key := tr[i].c, KeyOf(tr[i], acts[i]); key in c.entries && c.entries[key] in c.objs && !c.objs[c.entries[key]].InFlight()
    ensures var s, a, out := tr[i], acts[i], OutcomeOf(tr[i], acts[i]);
            var latest := Latest(tr, acts, threads, max, i, KeyOf(s, a));
            && latest.Some?
            && (out.Hit? <==> OpOf(s, a).now <= latest.value.expiration || Awaited(s, a.t, s.c.entries[KeyOf(s, a)]))
            && (out.Hit? ==> out.value == latest.value.value)
            && (!out.Hit? ==> out == if OpOf(s, a).canCompute then Register else Miss)
  {
    hide Step, Init, Latest;
    var s, a, key := tr[i], acts[i], KeyOf(tr[i], acts[i]);
    EntryIsLatest(tr, acts, threads, max, i, key);
    AlwaysSafe(tr, acts, threads, max, i);
    CountedByOthers(s, a.t, s.c.entries[key]);
    if a.Wake? {
      WokenEntry(s, a.t);
    }
    hide Inv, Run, Awaited, ThreadInv, SpecInv, Recency;
  }

  /** The counter of a complete entry tells whether goroutines other than t count on it. */
  lemma CountedByOthers<R>(s: Sys<R>, t: nat, r: R)
    requires Safe(s) && r in s.c.objs && !s.c.objs[r].InFlight() && t in s.pcs
    ensures s.c.objs[r].waiting > One(Waits(s.pcs[t], r)) <==> Awaited(s, t, r)
  {
    var w := Waiters(s.pcs, r);
    assert s.c.objs[r].waiting == |w| by { assert Counted1(s.c.objs, s.pcs, r); }
    assert forall u :: u in w <==> u in s.pcs && Waits(s.pcs[u], r);
    hide Safe, Waiters, Waits;
    Swap(w, w - {t}, t);
    if Awaited(s, t, r) {
      var u :| u in s.pcs && u != t && Waits(s.pcs[u], r);
      assert u in w - {t};
    } else {
      assert w - {t} == {};
    }
  }

  lemma WokenEntry<R>(s: Sys<R>, t: nat)
    requires Safe(s) && t in s.pcs && s.pcs[t].Awake?
    ensures var r := s.pcs[t].r; r in s.c.objs && Mapped(s.c, r) && s.c.objs[r].waiting > 0
  {
    WaitedFor(s, t);
    Counted(s.c, s.pcs[t].r);
  }

  // ----- the memory of Put -----

  /** A Put that is done with this step. */
  ghost predicate PutDone<R>(s: Sys<R>, a: Action<R>)
    requires Inv(s.c) && Enabled(s, a)
  {
    (a.Enter? || a.Wake?) && OpOf(s, a).PutOp? && !OutcomeOf(s, a).Wait?
  }

  /** What a Put over a completed entry does to the memory: it accounts for the difference and evicts nothing. */
  lemma OverwriteMemory<R>(c: State<R>, r: R, value: Any, expiration: int, size: int)
    requires r in c.objs
    ensures var d := PutPresent(c, r, value, expiration, size);
            && d.entries == c.entries && d.max == c.max && r in d.objs && d.objs[r].size == size
            && d.used == c.used - c.objs[r].size + size
            && (d.used <= d.max <==> c.used - c.objs[r].size + size <= c.max)
  {
  }

  /**
   Put records the caller's size exactly if the key was there or the size is 0. The memory
   then meets the limit exactly if it does with the old size replaced by the new one, or,
   for a new key, if it did before. Put removes nothing.
   */
  lemma PutMemory<R>(s: Sys<R>, a: Action<R>)
    requires Safe(s) && Enabled(s, a) && PutDone(s, a)
    ensures var n, key, size := Step(s, a).c, KeyOf(s, a), OpOf(s, a).size;
            && key in n.entries && n.entries[key] in n.objs && n.max == s.c.max
            && (key in s.c.entries ==> s.c.entries[key] in s.c.objs)
            && (n.objs[n.entries[key]].size == size <==> key in s.c.entries || size == 0)
            && n.used == (if key in s.c.entries then s.c.used - s.c.objs[s.c.entries[key]].size + size else s.c.used)
            && (n.used <= n.max <==>
                  (if key in s.c.entries then s.c.used - s.c.objs[s.c.entries[key]].size + size else s.c.used) <= s.c.max)
            && forall k :: k in s.c.entries ==> k in n.entries && n.entries[k] == s.c.entries[k]
  {
    hide Inv, ThreadInv, SpecInv, Recency, PutPresent;
    var key, op := KeyOf(s, a), OpOf(s, a);
    if a.Enter? {
      if key in s.c.entries {
        EntryObj(s.c, key);
        OverwriteMemory(s.c, s.c.entries[key], op.value, op.expiration, op.size);
      }
    } else {
      var r := s.pcs[a.t].r;
      WaitedFor(s, a.t);
      Counted(s.c, r);
      OverwriteMemory(AddWaiting(s.c, r, -1), r, op.value, op.expiration, op.size);
    }
  }

  /** For every limit there is a run of two Puts of one key after which the cache holds more than it may. */
  lemma PutExceeds(max: nat) returns (tr: seq<Sys<nat>>, acts: seq<Action<nat>>)
    ensures Run(tr, acts, {0}, max) && |acts| == 2 && (forall i :: 0 <= i < 2 ==> acts[i].Enter? && acts[i].op.PutOp?)
    ensures tr[2].c.used == max + 1 && tr[2].c.max == max
  {
    hide Inv, Enabled, Step;
    var op := PutOp(Nil, 1, max + 1);
    var s: Sys<nat> := Init({0}, max);
    tr, acts := [s], [];
    InitSafe<nat>({0}, max);
    var a, n := OnePut(s, op, 0);
    Extend(tr, acts, {0}, max, a);
    tr, acts := tr + [Step(tr[0], a)], acts + [a];
    AlwaysSafe(tr, acts, {0}, max, 1);
    var b, m := OnePut(n, op, 1);
    Extend(tr, acts, {0}, max, b);
    tr, acts := tr + [Step(tr[1], b)], acts + [b];
  }

  /** Goroutine 0 puts the key k, which is not in flight. */
  lemma OnePut(s: Sys<nat>, op: Op, spare: nat) returns (a: Action<nat>, n: Sys<nat>)
    requires Safe(s) && 0 in s.pcs && s.pcs[0].Idle? && spare !in s.c.objs && op.PutOp? && op.expiration != 0
    requires "k" in s.c.entries ==> s.c.entries["k"] in s.c.objs && s.c.objs[s.c.entries["k"]].expiration != 0
    ensures a == Enter(0, "k", op, spare) && Enabled(s, a) && n == Step(s, a)
    ensures 0 in n.pcs && n.pcs[0].Idle? && n.c.max == s.c.max
    ensures forall x :: x in n.c.objs ==> x in s.c.objs || x == spare
    ensures "k" in n.c.entries && n.c.entries["k"] in n.c.objs && n.c.objs[n.c.entries["k"]].expiration == op.expiration
    ensures if "k" in s.c.entries then n.c.used == s.c.used - s.c.objs[s.c.entries["k"]].size + op.size
            else n.c.used == s.c.used && n.c.objs[n.c.entries["k"]].size == 0
  {
    hide Inv, ThreadInv, SpecInv, Recency, Drop;
    a := Enter(0, "k", op, spare);
    n := Step(s, a);
  }
}
