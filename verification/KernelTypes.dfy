/** Vocabulary of the scheduler model (threads/thread.h, threads/synch.h): identifiers, thread
    states, lock-priority records, and the list searches of thread.c and synch.c. */
module KernelTypes {
  import opened Collections

  type Tid = int
  type Sid = int

  const PRI_MIN: int := 0
  const PRI_MAX: int := 63
  const TIME_SLICE: nat := 4

  datatype Status = Running | Ready | Blocked

  /** Where a thread stands inside a primitive: nowhere, in the loop of sema_down, past the sema_up
      of lock_release, or in thread_sleep. */
  datatype Pc = Active | Downing(s: Sid) | Releasing | Asleep

  /** struct lock_priority, without its slot in the record page. */
  datatype Rec = Rec(lock: Sid, priority: int, waiting: bool)

  /** list_max with the thread priority as key: the earliest element of greatest priority. */
  function FirstMax(l: seq<Tid>, prio: map<Tid, int>): (m: nat)
    requires l != [] && AllIn(l, prio)
    ensures m < |l|
    ensures forall i :: 0 <= i < |l| ==> prio[l[i]] <= prio[l[m]]
    ensures forall i :: 0 <= i < m ==> prio[l[i]] < prio[l[m]]
  {
    var n := |l| - 1;
    if n == 0 then 0
    else
      var m := FirstMax(l[..n], prio);
      if prio[l[m]] < prio[l[n]] then n else m
  }

  /** find_lock_priority: the position of the record of lock L, or the length if there is none. */
  function FindRec(rs: seq<Rec>, l: Sid): (i: nat)
    ensures i <= |rs|
    ensures i < |rs| ==> rs[i].lock == l
    ensures forall j :: 0 <= j < i ==> rs[j].lock != l
  {
    if rs == [] then 0
    else if rs[0].lock == l then 0
    else 1 + FindRec(rs[1..], l)
  }

  function SetOwned(rs: seq<Rec>, l: Sid): seq<Rec> {
    var i := FindRec(rs, l);
    if i < |rs| then rs[i := rs[i].(waiting := false)] else rs
  }

  function DropRec(rs: seq<Rec>, l: Sid): seq<Rec> {
    var i := FindRec(rs, l);
    if i < |rs| then RemoveAt(rs, i) else rs
  }

  function Max(a: int, b: int): int {
    if a >= b then a else b
  }

  /** The greatest of B and the priorities of the records. */
  function MaxPriority(b: int, rs: seq<Rec>): (m: int)
    ensures b <= m
    ensures forall i :: 0 <= i < |rs| ==> rs[i].priority <= m
    ensures m == b || exists i :: 0 <= i < |rs| && rs[i].priority == m
  {
    if rs == [] then b
    else
      var r := MaxPriority(b, rs[..|rs| - 1]);
      Max(r, rs[|rs| - 1].priority)
  }
}
