/**
 Descriptor tables over reference-counted pipes and pseudo terminals, as fork,
 exit, dup3, pipe2, open and close move them between a process, its suspended
 parent and the stack of older ancestors.
 */
module Descriptors {
  import opened Machine

  const PIPES := 8
  const OBJECTS := 12
  const SLOTS := 16
  const NESTING := 32
  const MAX_REFERENCES := 0xffff

  // The reading end of a pipe or the master of a terminal; the writing end or
  // the slave.
  datatype End = First | Second

  // Pipes have the indices 0 to 7, terminals 8 to 11.
  datatype Key = Key(index: nat, generation: nat, end: End)

  datatype Descriptor = Empty | Plain(detail: nat) | Shared(key: Key, detail: nat)

  datatype Object = Object(used: bool, generation: nat, first: nat, second: nat, locked: bool, session: nat)

  // ---- Who names what ----

  // Whether a slot names one end of an object.
  function Has(d: Descriptor, key: Key): nat {
    if d.Shared? && d.key == key then 1 else 0
  }

  // How many slots of a table do.
  ghost function Named(t: seq<Descriptor>, key: Key): (n: nat)
    ensures n <= |t|
  {
    if t == [] then 0 else Named(t[..|t| - 1], key) + Has(t[|t| - 1], key)
  }

  lemma {:induction false} NamedSet(t: seq<Descriptor>, i: nat, d: Descriptor, key: Key)
    requires i < |t|
    ensures Has(t[i], key) <= Named(t, key)
    ensures Named(t[i := d], key) == Named(t, key) - Has(t[i], key) + Has(d, key)
  {
    var n := |t| - 1;
    if i < n {
      NamedSet(t[..n], i, d, key);
      assert t[i := d][..n] == t[..n][i := d];
    } else {
      assert t[i := d][..n] == t[..n];
    }
  }

  lemma {:induction false} NoneNamed(t: seq<Descriptor>, key: Key)
    requires forall i :: 0 <= i < |t| ==> t[i] == Empty
    ensures Named(t, key) == 0
  {
    if t != [] {
      NoneNamed(t[..|t| - 1], key);
    }
  }

  ghost function NamedIn(tables: seq<seq<Descriptor>>, key: Key): nat {
    if tables == [] then 0 else NamedIn(tables[..|tables| - 1], key) + Named(tables[|tables| - 1], key)
  }

  lemma {:induction false} NamedInBound(tables: seq<seq<Descriptor>>, key: Key)
    requires forall i :: 0 <= i < |tables| ==> |tables[i]| == SLOTS
    ensures NamedIn(tables, key) <= SLOTS * |tables|
  {
    if tables != [] {
      NamedInBound(tables[..|tables| - 1], key);
    }
  }

  lemma {:induction false} NamedInSet(n: seq<seq<Descriptor>>, i: nat, t: seq<Descriptor>, key: Key)
    requires i < |n|
    ensures NamedIn(n[i := t], key) == NamedIn(n, key) - Named(n[i], key) + Named(t, key)
  {
    var k := |n| - 1;
    if i < k {
      NamedInSet(n[..k], i, t, key);
      assert n[i := t][..k] == n[..k][i := t];
    } else {
      assert n[i := t][..k] == n[..k];
    }
  }

  // ---- Counts ----

  function Count(o: Object, end: End): nat {
    if end.First? then o.first else o.second
  }

  function Counted(o: Object, end: End, n: nat): Object {
    if end.First? then o.(first := n) else o.(second := n)
  }

  function References(objects: seq<Object>, key: Key): nat {
    if Alive(objects, key) then Count(objects[key.index], key.end) else 0
  }

  predicate Alive(objects: seq<Object>, key: Key) {
    key.index < |objects| && objects[key.index].used && objects[key.index].generation == key.generation
  }

  predicate Sound(o: Object) {
    && (o.used <==> o.first + o.second > 0)
    && o.generation <= 0xffff && o.first <= MAX_REFERENCES && o.second <= MAX_REFERENCES
  }

  ghost predicate AllSound(objects: seq<Object>) {
    |objects| == OBJECTS && forall i :: 0 <= i < |objects| ==> Sound(objects[i])
  }

  // retain(): a stale handle, a full count or, for a terminal, an end nobody
  // holds is refused.
  function Retain(objects: seq<Object>, key: Key): Option<seq<Object>> {
    if !Alive(objects, key) || Count(objects[key.index], key.end) >= MAX_REFERENCES
       || (key.index >= PIPES && Count(objects[key.index], key.end) == 0)
    then None
    else Some(objects[key.index := Counted(objects[key.index], key.end, Count(objects[key.index], key.end) + 1)])
  }

  // release(): the last reference to either end frees the object and keeps its
  // generation.
  function Release(objects: seq<Object>, key: Key): seq<Object> {
    if !Alive(objects, key) || Count(objects[key.index], key.end) == 0 then objects
    else
      var o := Counted(objects[key.index], key.end, Count(objects[key.index], key.end) - 1);
      objects[key.index := if o.first == 0 && o.second == 0 then Object(false, o.generation, 0, 0, false, 0) else o]
  }

  lemma {:induction false} Retained(objects: seq<Object>, key: Key, k: Key)
    requires AllSound(objects) && 0 < References(objects, key) < MAX_REFERENCES
    ensures Retain(objects, key).Some? && AllSound(Retain(objects, key).value)
    ensures References(Retain(objects, key).value, k) == References(objects, k) + if k == key then 1 else 0
  {
  }

  lemma {:induction false} Released(objects: seq<Object>, key: Key, k: Key)
    requires AllSound(objects) && 0 < References(objects, key)
    ensures AllSound(Release(objects, key))
    ensures References(Release(objects, key), k) == References(objects, k) - if k == key then 1 else 0
  {
  }

  function RetainSlot(objects: seq<Object>, d: Descriptor): Option<seq<Object>> {
    if d.Shared? then Retain(objects, d.key) else Some(objects)
  }

  function ReleaseSlot(objects: seq<Object>, d: Descriptor): seq<Object> {
    if d.Shared? then Release(objects, d.key) else objects
  }

  // ---- All tables together ----

  function EmptyTable(): (t: seq<Descriptor>)
    ensures |t| == SLOTS && forall i :: 0 <= i < SLOTS ==> t[i] == Empty
  {
    seq(SLOTS, _ => Empty)
  }

  ghost predicate Tables(a: seq<Descriptor>, p: seq<Descriptor>, n: seq<seq<Descriptor>>) {
    |a| == SLOTS && |p| == SLOTS && |n| == NESTING && forall i :: 0 <= i < NESTING ==> |n[i]| == SLOTS
  }

  ghost function Total(a: seq<Descriptor>, p: seq<Descriptor>, n: seq<seq<Descriptor>>, key: Key): nat {
    Named(a, key) + Named(p, key) + NamedIn(n, key)
  }

  // Every count is the number of slots, in all tables, that name its end.
  ghost predicate Balanced(objects: seq<Object>, a: seq<Descriptor>, p: seq<Descriptor>, n: seq<seq<Descriptor>>) {
    Tables(a, p, n) && AllSound(objects) && forall key :: Agrees(objects, a, p, n, key)
  }

  ghost predicate Agrees(objects: seq<Object>, a: seq<Descriptor>, p: seq<Descriptor>, n: seq<seq<Descriptor>>,
                         key: Key) {
    Total(a, p, n, key) == References(objects, key)
  }

  // Counts are 16 bits wide, and all tables together are too small to fill one.
  lemma {:induction false} TotalBound(a: seq<Descriptor>, p: seq<Descriptor>, n: seq<seq<Descriptor>>, key: Key)
    requires Tables(a, p, n)
    ensures Total(a, p, n, key) <= SLOTS * (NESTING + 2) < MAX_REFERENCES
  {
    NamedInBound(n, key);
  }

  lemma {:induction false} TotalSet(a: seq<Descriptor>, p: seq<Descriptor>, n: seq<seq<Descriptor>>, i: nat,
                                    d: Descriptor, key: Key)
    requires i < |a|
    ensures Has(a[i], key) <= Total(a, p, n, key)
    ensures Total(a[i := d], p, n, key) == Total(a, p, n, key) - Has(a[i], key) + Has(d, key)
  {
    NamedSet(a, i, d, key);
  }

  // The object behind a slot is there, and its count can take one more.
  lemma {:induction false} SlotCounted(objects: seq<Object>, a: seq<Descriptor>, p: seq<Descriptor>,
                                       n: seq<seq<Descriptor>>, d: Descriptor)
    requires Balanced(objects, a, p, n) && (d in a || d in p) && d.Shared?
    ensures 0 < References(objects, d.key) < MAX_REFERENCES
  {
    TotalBound(a, p, n, d.key);
    assert Agrees(objects, a, p, n, d.key);
    if d in a {
      var j :| 0 <= j < |a| && a[j] == d;
      NamedSet(a, j, Empty, d.key);
    } else {
      var j :| 0 <= j < |p| && p[j] == d;
      NamedSet(p, j, Empty, d.key);
    }
  }

  // A slot of the process that is released.
  lemma {:induction false} DropActive(objects: seq<Object>, a: seq<Descriptor>, p: seq<Descriptor>,
                                      n: seq<seq<Descriptor>>, i: nat)
    requires Balanced(objects, a, p, n) && i < SLOTS
    ensures Balanced(ReleaseSlot(objects, a[i]), a[i := Empty], p, n)
  {
    if a[i].Shared? {
      SlotCounted(objects, a, p, n, a[i]);
      Released(objects, a[i].key, a[i].key);
    }
    var left, a' := ReleaseSlot(objects, a[i]), a[i := Empty];
    forall k ensures Agrees(left, a', p, n, k) {
      assert Agrees(objects, a, p, n, k);
      TotalSet(a, p, n, i, Empty, k);
      if a[i].Shared? {
        Released(objects, a[i].key, k);
      }
    }
  }

  lemma {:induction false} DropParent(objects: seq<Object>, a: seq<Descriptor>, p: seq<Descriptor>,
                                      n: seq<seq<Descriptor>>, i: nat)
    requires Balanced(objects, a, p, n) && i < SLOTS
    ensures Balanced(ReleaseSlot(objects, p[i]), a, p[i := Empty], n)
  {
    Swapped(objects, a, p, n);
    DropActive(objects, p, a, n, i);
    Swapped(ReleaseSlot(objects, p[i]), p[i := Empty], a, n);
  }

  lemma {:induction false} Swapped(objects: seq<Object>, a: seq<Descriptor>, p: seq<Descriptor>,
                                   n: seq<seq<Descriptor>>)
    requires Balanced(objects, a, p, n)
    ensures Balanced(objects, p, a, n)
  {
    forall k ensures Agrees(objects, p, a, n, k) {
      assert Agrees(objects, a, p, n, k);
    }
  }

  // A copy of one of the process's descriptors into an empty slot: the
  // reference that is added is always granted.
  lemma {:induction false} CopyToParent(objects: seq<Object>, a: seq<Descriptor>, p: seq<Descriptor>,
                                        n: seq<seq<Descriptor>>, i: nat, d: Descriptor)
    requires Balanced(objects, a, p, n) && i < SLOTS && p[i] == Empty && d in a
    ensures RetainSlot(objects, d).Some? && Balanced(RetainSlot(objects, d).value, a, p[i := d], n)
  {
    if d.Shared? {
      SlotCounted(objects, a, p, n, d);
      Retained(objects, d.key, d.key);
    }
    var kept, p' := RetainSlot(objects, d).value, p[i := d];
    forall k ensures Agrees(kept, a, p', n, k) {
      assert Agrees(objects, a, p, n, k);
      NamedSet(p, i, d, k);
      if d.Shared? {
        Retained(objects, d.key, k);
      }
    }
  }

  // The same into a slot of the process itself; what the slot held before is
  // released afterwards.
  lemma {:induction false} CopyToActive(objects: seq<Object>, a: seq<Descriptor>, p: seq<Descriptor>,
                                        n: seq<seq<Descriptor>>, i: nat, d: Descriptor)
    requires Balanced(objects, a, p, n) && i < SLOTS && (d in a || !d.Shared?)
    ensures RetainSlot(objects, d).Some?
    ensures Balanced(ReleaseSlot(RetainSlot(objects, d).value, a[i]), a[i := d], p, n)
  {
    if d.Shared? {
      SlotCounted(objects, a, p, n, d);
      Retained(objects, d.key, d.key);
    }
    var kept := RetainSlot(objects, d).value;
    if a[i].Shared? {
      SlotCounted(objects, a, p, n, a[i]);
      KeptAfter(objects, d, a[i].key);
      Released(kept, a[i].key, a[i].key);
    }
    var left, a' := ReleaseSlot(kept, a[i]), a[i := d];
    forall k ensures Agrees(left, a', p, n, k) {
      assert Agrees(objects, a, p, n, k);
      TotalSet(a, p, n, i, d, k);
      KeptAfter(objects, d, k);
      if a[i].Shared? {
        Released(kept, a[i].key, k);
      }
    }
  }

  lemma {:induction false} KeptAfter(objects: seq<Object>, d: Descriptor, k: Key)
    requires AllSound(objects) && (d.Shared? ==> 0 < References(objects, d.key) < MAX_REFERENCES)
    ensures RetainSlot(objects, d).Some? && AllSound(RetainSlot(objects, d).value)
    ensures References(RetainSlot(objects, d).value, k) == References(objects, k) + Has(d, k)
  {
    if d.Shared? {
      Retained(objects, d.key, k);
    }
  }

  // ---- New objects ----

  function NextGeneration(g: nat): nat {
    if (g + 1) % 0x1_0000 == 0 then 1 else (g + 1) % 0x1_0000
  }

  function NewPipe(o: Object): Object {
    Object(true, NextGeneration(o.generation), 1, 1, false, 0)
  }

  function NewTerminal(o: Object): Object {
    Object(true, NextGeneration(o.generation), 1, 0, true, 0)
  }

  lemma {:induction false} PipeCounted(objects: seq<Object>, i: nat, k: Key)
    requires AllSound(objects) && i < OBJECTS && !objects[i].used
    ensures AllSound(objects[i := NewPipe(objects[i])])
    ensures var g := NextGeneration(objects[i].generation);
            References(objects[i := NewPipe(objects[i])], k) == References(objects, k) + if k == Key(i, g, First)
              || k == Key(i, g, Second) then 1 else 0
  {
  }

  lemma {:induction false} TerminalCounted(objects: seq<Object>, i: nat, k: Key)
    requires AllSound(objects) && i < OBJECTS && !objects[i].used
    ensures AllSound(objects[i := NewTerminal(objects[i])])
    ensures References(objects[i := NewTerminal(objects[i])], k)
         == References(objects, k) + if k == Key(i, NextGeneration(objects[i].generation), First) then 1 else 0
  {
  }

  lemma {:induction false} SlaveCounted(objects: seq<Object>, i: nat, k: Key)
    requires AllSound(objects) && i < OBJECTS && objects[i].used && objects[i].second < MAX_REFERENCES
    ensures AllSound(objects[i := objects[i].(second := objects[i].second + 1)])
    ensures References(objects[i := objects[i].(second := objects[i].second + 1)], k)
         == References(objects, k) + if k == Key(i, objects[i].generation, Second) then 1 else 0
  {
  }

  // The first empty slot of the process from `from` on, among the 13 that
  // open() and pipe2() hand out.
  method FindSlot(a: seq<Descriptor>, from: nat) returns (slot: nat)
    requires |a| == SLOTS && from <= 13
    ensures from <= slot <= 13 && (slot < 13 ==> a[slot] == Empty) && forall i :: from <= i < slot ==> a[i] != Empty
  {
    slot := from;
    while slot < 13 && a[slot] != Empty
      invariant from <= slot <= 13 && forall i :: from <= i < slot ==> a[i] != Empty
    {
      slot := slot + 1;
    }
  }

  method FindObject(objects: seq<Object>, lo: nat, hi: nat) returns (index: nat)
    requires lo <= hi <= |objects|
    ensures lo <= index <= hi && (index < hi ==> !objects[index].used)
            && forall i :: lo <= i < index ==> objects[i].used
  {
    index := lo;
    while index < hi && objects[index].used
      invariant lo <= index <= hi && forall i :: lo <= i < index ==> objects[i].used
    {
      index := index + 1;
    }
  }

  // ---- Suspended processes ----

  datatype Suspended = Suspended(active: bool, memorySaved: bool, pid: nat, parentPid: nat, childPid: nat)

  const NOBODY := Suspended(false, false, 0, 0, 0)

  // Whoever runs is the child of the suspended parent, whose own parent waits
  // one level down.
  ghost predicate Lineage(parent: Suspended, nested: seq<Suspended>, depth: nat, pid: nat) {
    && |nested| == NESTING && depth <= NESTING
    && (if parent.active then parent.memorySaved && pid == parent.childPid else depth == 0)
    && forall i :: 0 <= i < depth ==> Waits(parent, nested, depth, i)
  }

  ghost predicate Waits(parent: Suspended, nested: seq<Suspended>, depth: nat, i: nat)
    requires i < depth <= |nested|
  {
    nested[i].active && nested[i].memorySaved
      && nested[i].childPid == (if i + 1 < depth then nested[i + 1].pid else parent.pid)
  }

  // One more level, one level less, and a level nobody uses.
  lemma {:induction false} LineagePush(parent: Suspended, nested: seq<Suspended>, depth: nat, pid: nat,
                                       child: Suspended)
    requires Lineage(parent, nested, depth, pid) && parent.active && depth < NESTING
    requires child.active && child.memorySaved && child.pid == pid
    ensures Lineage(child, nested[depth := parent], depth + 1, child.childPid)
  {
    var deeper, above := nested[depth := parent], depth + 1;
    forall i | 0 <= i < above ensures Waits(child, deeper, above, i) {
      assert i < depth ==> Waits(parent, nested, depth, i);
    }
  }

  lemma {:induction false} LineagePop(parent: Suspended, nested: seq<Suspended>, depth: nat, pid: nat)
    requires Lineage(parent, nested, depth, pid) && 0 < depth
    ensures Lineage(nested[depth - 1], nested[depth - 1 := NOBODY], depth - 1, parent.pid)
  {
    var below := depth - 1;
    assert Waits(parent, nested, depth, below);
    var grandparent, lower := nested[below], nested[below := NOBODY];
    forall i | 0 <= i < below ensures Waits(grandparent, lower, below, i) {
      assert Waits(parent, nested, depth, i);
    }
  }

  lemma {:induction false} LineageAbove(parent: Suspended, nested: seq<Suspended>, depth: nat, pid: nat)
    requires Lineage(parent, nested, depth, pid) && depth < NESTING
    ensures Lineage(parent, nested[depth := parent][depth := NOBODY], depth, pid)
  {
    var other := nested[depth := parent][depth := NOBODY];
    forall i | 0 <= i < depth ensures Waits(parent, other, depth, i) {
      assert Waits(parent, nested, depth, i);
    }
  }

  datatype Errno = Success | InvalidArgument | NoMemory | BadDescriptor | NoEntry | AccessDenied

  datatype Terminal = Master | Slave(number: nat) | Controlling(session: nat)

  class Kernel {
    var objects: seq<Object>
    var active: seq<Descriptor>
    var parentTable: seq<Descriptor>
    var nestedTables: seq<seq<Descriptor>>
    var parent: Suspended
    var nested: seq<Suspended>
    var depth: nat
    var pid: nat
    var parentPid: nat
    var nextPid: nat

    ghost predicate Counts()
      reads this
    {
      Balanced(objects, active, parentTable, nestedTables)
    }

    ghost predicate Valid()
      reads this
    {
      && Counts() && Lineage(parent, nested, depth, pid)
      && (!parent.active ==> parentTable == EmptyTable())
      && (forall i :: depth <= i < NESTING ==> nestedTables[i] == EmptyTable())
    }

    // The tables of the processes that wait, the innermost last.
    ghost function Stack(): seq<seq<Descriptor>>
      requires |nestedTables| == NESTING && depth <= NESTING
      reads this
    {
      if parent.active then nestedTables[..depth] + [parentTable] else []
    }

    constructor ()
      ensures Valid() && active == EmptyTable() && Stack() == []
    {
      objects := seq(OBJECTS, _ => Object(false, 0, 0, 0, false, 0));
      active, parentTable := EmptyTable(), EmptyTable();
      nestedTables := seq(NESTING, _ => EmptyTable());
      parent, nested, depth := NOBODY, seq(NESTING, _ => NOBODY), 0;
      pid, parentPid, nextPid := 1, 0, 2;
      new;
      NothingNamed(objects, active, nestedTables);
    }

    // ---- Single slots ----

    method ReleaseActive(i: nat)
      requires Counts() && i < SLOTS
      modifies this`objects, this`active
      ensures Counts() && active == old(active)[i := Empty]
    {
      DropActive(objects, active, parentTable, nestedTables, i);
      objects := ReleaseSlot(objects, active[i]);
      active := active[i := Empty];
    }

    method ReleaseParent(i: nat)
      requires Counts() && i < SLOTS
      modifies this`objects, this`parentTable
      ensures Counts() && parentTable == old(parentTable)[i := Empty]
    {
      DropParent(objects, active, parentTable, nestedTables, i);
      objects := ReleaseSlot(objects, parentTable[i]);
      parentTable := parentTable[i := Empty];
    }

    method SaveSlot(i: nat) returns (ok: bool)
      requires Counts() && i < SLOTS && parentTable[i] == Empty
      modifies this`objects, this`parentTable
      ensures ok && Counts() && parentTable == old(parentTable)[i := active[i]]
    {
      CopyToParent(objects, active, parentTable, nestedTables, i, active[i]);
      var retained := RetainSlot(objects, active[i]);
      if retained.None? {
        return false;
      }
      objects := retained.value;
      parentTable := parentTable[i := active[i]];
      ok := true;
    }

    // ---- Whole tables ----

    method ResetDescriptors()
      requires Counts()
      modifies this`objects, this`active
      ensures Counts() && active == EmptyTable()
    {
      for i := 0 to SLOTS
        invariant Counts() && forall k :: 0 <= k < i ==> active[k] == Empty
      {
        ReleaseActive(i);
      }
    }

    method DiscardParent()
      requires Counts()
      modifies this`objects, this`parentTable
      ensures Counts() && parentTable == EmptyTable()
    {
      for i := 0 to SLOTS
        invariant Counts() && forall k :: 0 <= k < i ==> parentTable[k] == Empty
      {
        ReleaseParent(i);
      }
    }

    // save_parent_descriptors: the suspended copy of the table. No reference
    // is ever refused.
    method SaveParent() returns (ok: bool)
      requires Counts()
      modifies this`objects, this`parentTable
      ensures ok && Counts() && parentTable == active
    {
      DiscardParent();
      for i := 0 to SLOTS
        invariant Counts() && (forall k :: 0 <= k < i ==> parentTable[k] == active[k])
        invariant forall k :: i <= k < SLOTS ==> parentTable[k] == Empty
      {
        ok := SaveSlot(i);
        if !ok {
          return;
        }
      }
      ok := true;
    }

    // restore_parent_descriptors: what the child holds goes, what was saved
    // comes back.
    method RestoreParent()
      requires Counts()
      modifies this`objects, this`active, this`parentTable
      ensures Counts() && active == old(parentTable) && parentTable == EmptyTable()
    {
      ResetDescriptors();
      Swapped(objects, active, parentTable, nestedTables);
      active, parentTable := parentTable, EmptyTable();
    }

    // ---- The stack of ancestors ----

    method StackAncestor() returns (ok: bool)
      requires Counts() && depth <= NESTING == |nested|
      requires depth < NESTING ==> nestedTables[depth] == EmptyTable()
      modifies this
      ensures Counts() && (ok <==> old(parent).active && old(parent).memorySaved && old(depth) < NESTING)
      ensures active == old(active) && pid == old(pid) && parentPid == old(parentPid) && nextPid == old(nextPid)
      ensures !ok ==> parent == old(parent) && parentTable == old(parentTable) && nestedTables == old(nestedTables)
                      && nested == old(nested) && depth == old(depth)
      ensures ok ==> parent == NOBODY && parentTable == EmptyTable() && depth == old(depth) + 1
                     && nestedTables == old(nestedTables)[old(depth) := old(parentTable)]
                        && nested == old(nested)[old(depth) := old(parent)]
    {
      if !parent.active || !parent.memorySaved || depth == NESTING {
        return false;
      }
      Lowered(objects, active, parentTable, nestedTables, depth);
      nested := nested[depth := parent];
      nestedTables := nestedTables[depth := parentTable];
      parent, parentTable := NOBODY, EmptyTable();
      depth := depth + 1;
      ok := true;
    }

    method Reinstate()
      requires Counts() && depth <= NESTING == |nested| && parentTable == EmptyTable()
      modifies this
      ensures Counts() && active == old(active) && pid == old(pid) && parentPid == old(parentPid)
              && nextPid == old(nextPid)
      ensures old(depth) == 0 ==> parent == old(parent) && parentTable == old(parentTable)
                                  && nestedTables == old(nestedTables)
                                  && nested == old(nested) && depth == 0
      ensures old(depth) > 0 ==>
                && depth == old(depth) - 1 && parent == old(nested)[depth] && parentTable == old(nestedTables)[depth]
                && nestedTables == old(nestedTables)[depth := EmptyTable()] && nested == old(nested)[depth := NOBODY]
    {
      if depth == 0 {
        return;
      }
      var level := depth - 1;
      Lifted(objects, active, nestedTables, level);
      depth, parent, nested := level, nested[level], nested[level := NOBODY];
      parentTable, nestedTables := nestedTables[level], nestedTables[level := EmptyTable()];
    }

    // ---- Fork and exit ----

    // clone(): the flags and the stack were checked, a wait record is free and
    // the snapshot of the memory succeeded, or not.
    method Clone(flagsFit: bool, waitable: bool, memory: bool) returns (error: Errno)
      requires Valid()
      modifies this
      ensures Valid()
      ensures error == (if !flagsFit then InvalidArgument
                        else if (old(parent).active && old(depth) == NESTING) || !waitable || !memory then NoMemory
                        else Success)
      ensures active == old(active)
      ensures error == Success ==> Stack() == old(Stack()) + [old(active)] && pid == old(nextPid)
                                   && parentPid == old(pid)
      ensures error != Success ==> Stack() == old(Stack()) && pid == old(pid) && parentPid == old(parentPid)
      ensures error != Success ==> parentTable == old(parentTable) && nestedTables == old(nestedTables)
    {
      var nestedFork := parent.active && pid == parent.childPid;
      if !flagsFit {
        return InvalidArgument;
      }
      if parent.active && !nestedFork {
        return InvalidArgument;
      }
      if (nestedFork && depth == NESTING) || !waitable {
        return NoMemory;
      }
      if nestedFork {
        var stacked := StackAncestor();
        if !stacked {
          return NoMemory;
        }
      }
      var saved := SaveParent();
      if !saved {
        return NoMemory;
      }
      parent := Suspended(true, false, pid, parentPid, nextPid);
      nextPid := nextPid + 1;
      if !memory {
        parent := parent.(active := false);
        DiscardParent();
        Reinstate();
        if nestedFork {
          LineageAbove(old(parent), old(nested), old(depth), old(pid));
          assert nestedTables == old(nestedTables);
        }
        return NoMemory;
      }
      parent := parent.(memorySaved := true);
      parentPid := pid;
      pid := parent.childPid;
      if nestedFork {
        LineagePush(old(parent), old(nested), old(depth), old(pid), parent);
        assert nestedTables[..depth] == old(nestedTables)[..old(depth)] + [old(parentTable)];
      }
      error := Success;
    }

    // exit() of a process whose parent is suspended: the parent goes on with
    // the table it had at the fork, and its own parent waits underneath again.
    method Exit()
      requires Valid() && parent.active
      modifies this
      ensures Valid() && |old(Stack())| > 0
      ensures active == old(Stack())[|old(Stack())| - 1] && Stack() == old(Stack())[..|old(Stack())| - 1]
      ensures pid == old(parent).pid && parentPid == old(parent).parentPid
    {
      pid, parentPid := parent.pid, parent.parentPid;
      parent := parent.(active := false, memorySaved := false);
      RestoreParent();
      Reinstate();
      if old(depth) > 0 {
        LineagePop(old(parent), old(nested), old(depth), old(pid));
        assert Waits(old(parent), old(nested), old(depth), depth);
        assert nestedTables[..depth] + [parentTable] == old(nestedTables)[..old(depth)];
      }
    }

    // ---- Opening and closing ----

    function SlotOf(fd: nat): nat {
      if fd < 3 then 13 + fd else fd - 3
    }

    method Close(fd: nat) returns (error: Errno)
      requires Valid()
      modifies this`objects, this`active
      ensures Valid() && (error == Success || error == BadDescriptor)
      ensures error == BadDescriptor <==> fd >= SLOTS || (fd >= 3 && old(active)[SlotOf(fd)] == Empty)
      ensures active == if error == Success then old(active)[SlotOf(fd) := Empty] else old(active)
    {
      if fd < 3 {
        ReleaseActive(SlotOf(fd));
        return Success;
      }
      if fd >= SLOTS || active[fd - 3] == Empty {
        return BadDescriptor;
      }
      ReleaseActive(fd - 3);
      error := Success;
    }

    // dup3(): descriptors 0 to 2 stand for the console, whatever they were
    // redirected to.
    method Duplicate(flags: nat, from: nat, to: nat) returns (error: Errno)
      requires Valid()
      modifies this`objects, this`active
      ensures Valid() && (error == Success || error == InvalidArgument || error == BadDescriptor)
      ensures error == InvalidArgument <==> flags != 0 || from >= SLOTS || to >= SLOTS || from == to
      ensures error == BadDescriptor <==> error != InvalidArgument && from >= 3 && old(active)[from - 3] == Empty
      ensures active == if error == Success then old(active)[SlotOf(to) := Source(old(active), from)] else old(active)
    {
      if flags != 0 || from >= SLOTS || to >= SLOTS || from == to {
        return InvalidArgument;
      }
      if from >= 3 && active[from - 3] == Empty {
        return BadDescriptor;
      }
      var source := Source(active, from);
      CopyToActive(objects, active, parentTable, nestedTables, SlotOf(to), source);
      var retained := RetainSlot(objects, source);
      if retained.None? {
        return BadDescriptor;
      }
      objects := ReleaseSlot(retained.value, active[SlotOf(to)]);
      active := active[SlotOf(to) := source];
      error := Success;
    }

    method Pipe(flagsFit: bool, detail: nat) returns (error: Errno, reader: nat, writer: nat)
      requires Valid()
      modifies this`objects, this`active
      ensures Valid() && (error == Success || error == InvalidArgument || error == NoMemory)
      ensures error == InvalidArgument <==> !flagsFit
      ensures error == NoMemory <==>
                && flagsFit
                && ((forall i, j :: 0 <= i < j < 13 ==> old(active)[i] != Empty || old(active)[j] != Empty)
                    || (forall i :: 0 <= i < PIPES ==> old(objects)[i].used))
      ensures error != Success ==> active == old(active) && objects == old(objects)
      ensures error == Success ==>
                && 3 <= reader < writer < SLOTS && old(active)[reader - 3] == old(active)[writer - 3] == Empty
                && exists key, other :: Ends(key, other) && References(objects, key) == References(objects, other) == 1
                     && active == old(active)[reader - 3 := Shared(key, detail)][writer - 3 := Shared(other, detail)]
    {
      reader, writer := 0, 0;
      if !flagsFit {
        return InvalidArgument, 0, 0;
      }
      var r := FindSlot(active, 0);
      if r == 13 {
        return NoMemory, 0, 0;
      }
      var w := FindSlot(active, r + 1);
      if w == 13 {
        return NoMemory, 0, 0;
      }
      var i := FindObject(objects, 0, PIPES);
      if i == PIPES {
        return NoMemory, 0, 0;
      }
      var g := NextGeneration(objects[i].generation);
      PipeBalanced(objects, active, parentTable, nestedTables, i, r, w, detail);
      active := active[r := Shared(Key(i, g, First), detail)][w := Shared(Key(i, g, Second), detail)];
      objects := objects[i := NewPipe(objects[i])];
      assert Ends(Key(i, g, First), Key(i, g, Second));
      return Success, r + 3, w + 3;
    }

    // Opening the multiplexer, a numbered slave or the controlling terminal.
    method OpenTerminal(which: Terminal, detail: nat) returns (error: Errno, fd: nat)
      requires Valid()
      modifies this`objects, this`active
      ensures Valid() && error != InvalidArgument && error != BadDescriptor
      ensures error == NoMemory <==>
                || (forall i :: 0 <= i < 13 ==> old(active)[i] != Empty)
                || (which.Master? && forall i :: PIPES <= i < OBJECTS ==> old(objects)[i].used)
      ensures error == NoEntry <==>
                error != NoMemory && !which.Master?
                  && forall i :: PIPES <= i < OBJECTS ==> !Means(old(objects), which, i)
      ensures error == AccessDenied <==>
                error != NoMemory && exists i: nat :: FirstMeant(old(objects), which, i) && old(objects)[i].locked
      ensures error != Success ==> active == old(active) && objects == old(objects)
      ensures error == Success ==>
                exists key: Key :: TerminalOpened(old(objects), old(active), which, detail, key, objects, active, fd)
    {
      var slot := FindSlot(active, 0);
      if slot == 13 {
        return NoMemory, 0;
      }
      fd := slot + 3;
      if which.Master? {
        error := OpenMaster(fd, detail);
      } else {
        error := OpenSlave(which, fd, detail);
      }
    }

    method OpenMaster(fd: nat, detail: nat) returns (error: Errno)
      requires Valid() && 3 <= fd < SLOTS && active[fd - 3] == Empty
      modifies this`objects, this`active
      ensures Valid() && (error == NoMemory || error == Success)
      ensures error == NoMemory <==> forall i :: PIPES <= i < OBJECTS ==> old(objects)[i].used
      ensures error != Success ==> active == old(active) && objects == old(objects)
      ensures error == Success ==>
                exists key: Key :: TerminalOpened(old(objects), old(active), Master, detail, key, objects, active, fd)
    {
      var i := FindObject(objects, PIPES, OBJECTS);
      if i == OBJECTS {
        return NoMemory;
      }
      var key := Key(i, NextGeneration(objects[i].generation), First);
      MasterBalanced(objects, active, parentTable, nestedTables, i, fd - 3, detail);
      objects := objects[i := NewTerminal(objects[i])];
      active := active[fd - 3 := Shared(key, detail)];
      assert TerminalOpened(old(objects), old(active), Master, detail, key, objects, active, fd);
      error := Success;
    }

    method OpenSlave(which: Terminal, fd: nat, detail: nat) returns (error: Errno)
      requires Valid() && 3 <= fd < SLOTS && active[fd - 3] == Empty && !which.Master?
      modifies this`objects, this`active
      ensures Valid() && (error == NoEntry || error == AccessDenied || error == Success)
      ensures error == NoEntry <==> forall i :: PIPES <= i < OBJECTS ==> !Means(old(objects), which, i)
      ensures error == AccessDenied <==> exists i: nat :: FirstMeant(old(objects), which, i) && old(objects)[i].locked
      ensures error != Success ==> active == old(active) && objects == old(objects)
      ensures error == Success ==>
                exists key: Key :: TerminalOpened(old(objects), old(active), which, detail, key, objects, active, fd)
    {
      var i := FindTerminal(objects, which);
      if i == OBJECTS {
        return NoEntry;
      }
      OneMeant(objects, which, i);
      if objects[i].locked {
        return AccessDenied;
      }
      SlaveRoom(objects, active, parentTable, nestedTables, i);
      if objects[i].second == MAX_REFERENCES {
        return NoMemory;
      }
      var key := Key(i, objects[i].generation, Second);
      SlaveBalanced(objects, active, parentTable, nestedTables, i, fd - 3, detail);
      objects := objects[i := objects[i].(second := objects[i].second + 1)];
      active := active[fd - 3 := Shared(key, detail)];
      assert TerminalOpened(old(objects), old(active), which, detail, key, objects, active, fd);
      error := Success;
    }

    // A master locks or unlocks its slave side.
    method SetLocked(key: Key, locked: bool) returns (error: Errno)
      requires Valid() && PIPES <= key.index
      modifies this`objects
      ensures Valid()
      ensures error == if Alive(old(objects), key) && old(objects)[key.index].first > 0 then Success else BadDescriptor
      ensures objects == if error != Success then old(objects)
                         else old(objects)[key.index := old(objects)[key.index].(locked := locked)]
    {
      if !Alive(objects, key) || objects[key.index].first == 0 {
        return BadDescriptor;
      }
      Relabelled(objects, active, parentTable, nestedTables, key.index, locked, objects[key.index].session);
      objects := objects[key.index := objects[key.index].(locked := locked)];
      return Success;
    }

    // A session leader takes the terminal as its controlling terminal.
    method Acquire(key: Key, leader: nat, session: nat, force: bool) returns (error: Errno)
      requires Valid() && PIPES <= key.index
      modifies this`objects
      ensures Valid()
      ensures error == (if !Alive(old(objects), key) || old(objects)[key.index].second == 0 then BadDescriptor
                        else if leader != session
                          || (old(objects)[key.index].session != 0 && old(objects)[key.index].session != session
                              && !force)
                        then AccessDenied else Success)
      ensures objects == if error != Success then old(objects)
                         else old(objects)[key.index := old(objects)[key.index].(session := session)]
    {
      if !Alive(objects, key) || objects[key.index].second == 0 {
        return BadDescriptor;
      }
      if leader != session || (objects[key.index].session != 0 && objects[key.index].session != session && !force) {
        return AccessDenied;
      }
      Relabelled(objects, active, parentTable, nestedTables, key.index, objects[key.index].locked, session);
      objects := objects[key.index := objects[key.index].(session := session)];
      return Success;
    }
  }

  // Locks and sessions are not counted.
  lemma {:induction false} Relabelled(objects: seq<Object>, a: seq<Descriptor>, p: seq<Descriptor>,
                                      n: seq<seq<Descriptor>>,
                                      i: nat, locked: bool, session: nat)
    requires Balanced(objects, a, p, n) && i < OBJECTS
    ensures Balanced(objects[i := objects[i].(locked := locked, session := session)], a, p, n)
  {
    var objects' := objects[i := objects[i].(locked := locked, session := session)];
    forall key ensures Agrees(objects', a, p, n, key) {
      assert Agrees(objects, a, p, n, key);
    }
  }

  function Source(a: seq<Descriptor>, from: nat): Descriptor
    requires |a| == SLOTS && from < SLOTS
  {
    if from < 3 then Plain(from) else a[from - 3]
  }

  predicate Ends(key: Key, other: Key) {
    key.index == other.index < PIPES && key.generation == other.generation && key.end.First? && other.end.Second?
  }

  // The object is a terminal that the name stands for.
  predicate Means(objects: seq<Object>, which: Terminal, i: nat) {
    && PIPES <= i < |objects| && objects[i].used && !which.Master?
    && (which.Slave? ==> which.number == i - PIPES)
    && (which.Controlling? ==> which.session != 0 && objects[i].session == which.session)
  }

  // The first terminal that is meant, which is the one opened.
  predicate FirstMeant(objects: seq<Object>, which: Terminal, i: nat) {
    Means(objects, which, i) && forall j :: PIPES <= j < i ==> !Means(objects, which, j)
  }

  lemma {:induction false} OneMeant(objects: seq<Object>, which: Terminal, i: nat)
    requires FirstMeant(objects, which, i)
    ensures Means(objects, which, i) && forall j: nat :: FirstMeant(objects, which, j) ==> j == i
  {
  }

  // The object that a descriptor opened at fd names, and what became of it.
  ghost predicate TerminalOpened(objects: seq<Object>, table: seq<Descriptor>, which: Terminal, detail: nat,
                                 key: Key, objects': seq<Object>, table': seq<Descriptor>, fd: nat)
  {
    && PIPES <= key.index < OBJECTS == |objects| && 3 <= fd < SLOTS == |table| && table[fd - 3] == Empty
    && Alive(objects', key) && key.end.First? == which.Master?
    && (if which.Master? then !objects[key.index].used
        else FirstMeant(objects, which, key.index) && !objects[key.index].locked)
    && objects' == objects[key.index := Opened(objects[key.index], which)]
    && table' == table[fd - 3 := Shared(key, detail)]
  }

  function Opened(o: Object, which: Terminal): Object {
    if which.Master? then NewTerminal(o) else o.(second := o.second + 1)
  }

  // The terminal a slave is opened on; OBJECTS when there is none.
  method FindTerminal(objects: seq<Object>, which: Terminal) returns (index: nat)
    requires |objects| == OBJECTS && !which.Master?
    ensures PIPES <= index <= OBJECTS && (index < OBJECTS ==> FirstMeant(objects, which, index))
    ensures index == OBJECTS ==> forall i :: PIPES <= i < OBJECTS ==> !Means(objects, which, i)
  {
    if which.Slave? {
      return if which.number < OBJECTS - PIPES
        && objects[PIPES + which.number].used then PIPES + which.number else OBJECTS;
    }
    if which.session == 0 {
      return OBJECTS;
    }
    index := PIPES;
    while index < OBJECTS && !(objects[index].used && objects[index].session == which.session)
      invariant PIPES <= index <= OBJECTS && forall i :: PIPES <= i < index ==> !Means(objects, which, i)
    {
      index := index + 1;
    }
  }

  lemma {:induction false} PipeBalanced(objects: seq<Object>, a: seq<Descriptor>, p: seq<Descriptor>,
                                        n: seq<seq<Descriptor>>,
                                        i: nat, r: nat, w: nat, detail: nat)
    requires Balanced(objects, a, p, n) && i < OBJECTS && !objects[i].used && r < w < SLOTS && a[r] == a[w] == Empty
    ensures var g := NextGeneration(objects[i].generation);
            Balanced(objects[i := NewPipe(objects[i])],
                     a[r := Shared(Key(i, g, First), detail)][w := Shared(Key(i, g, Second), detail)], p, n)
  {
    var g := NextGeneration(objects[i].generation);
    var objects', a1 := objects[i := NewPipe(objects[i])], a[r := Shared(Key(i, g, First), detail)];
    var a2 := a1[w := Shared(Key(i, g, Second), detail)];
    PipeCounted(objects, i, Key(i, g, First));
    forall k ensures Agrees(objects', a2, p, n, k) {
      assert Agrees(objects, a, p, n, k);
      TotalSet(a, p, n, r, Shared(Key(i, g, First), detail), k);
      TotalSet(a1, p, n, w, Shared(Key(i, g, Second), detail), k);
      PipeCounted(objects, i, k);
    }
  }

  lemma {:induction false} MasterBalanced(objects: seq<Object>, a: seq<Descriptor>, p: seq<Descriptor>,
                                          n: seq<seq<Descriptor>>,
                                          i: nat, slot: nat, detail: nat)
    requires Balanced(objects, a, p, n) && i < OBJECTS && !objects[i].used && slot < SLOTS && a[slot] == Empty
    ensures Balanced(objects[i := NewTerminal(objects[i])],
                     a[slot := Shared(Key(i, NextGeneration(objects[i].generation), First), detail)], p, n)
  {
    var d := Shared(Key(i, NextGeneration(objects[i].generation), First), detail);
    var objects', a' := objects[i := NewTerminal(objects[i])], a[slot := d];
    TerminalCounted(objects, i, d.key);
    forall k ensures Agrees(objects', a', p, n, k) {
      assert Agrees(objects, a, p, n, k);
      TotalSet(a, p, n, slot, d, k);
      TerminalCounted(objects, i, k);
    }
  }

  lemma {:induction false} SlaveRoom(objects: seq<Object>, a: seq<Descriptor>, p: seq<Descriptor>,
                                     n: seq<seq<Descriptor>>, i: nat)
    requires Balanced(objects, a, p, n) && i < OBJECTS && objects[i].used
    ensures objects[i].second < MAX_REFERENCES
  {
    var key := Key(i, objects[i].generation, Second);
    assert Agrees(objects, a, p, n, key);
    TotalBound(a, p, n, key);
  }

  lemma {:induction false} SlaveBalanced(objects: seq<Object>, a: seq<Descriptor>, p: seq<Descriptor>,
                                         n: seq<seq<Descriptor>>,
                                         i: nat, slot: nat, detail: nat)
    requires Balanced(objects, a, p, n) && i < OBJECTS && objects[i].used && objects[i].second < MAX_REFERENCES
    requires slot < SLOTS && a[slot] == Empty
    ensures Balanced(objects[i := objects[i].(second := objects[i].second + 1)],
                     a[slot := Shared(Key(i, objects[i].generation, Second), detail)], p, n)
  {
    var d := Shared(Key(i, objects[i].generation, Second), detail);
    var objects', a' := objects[i := objects[i].(second := objects[i].second + 1)], a[slot := d];
    SlaveCounted(objects, i, d.key);
    forall k ensures Agrees(objects', a', p, n, k) {
      assert Agrees(objects, a, p, n, k);
      TotalSet(a, p, n, slot, d, k);
      SlaveCounted(objects, i, k);
    }
  }

  // A table moved into an empty level, and back.
  lemma {:induction false} Lowered(objects: seq<Object>, a: seq<Descriptor>, p: seq<Descriptor>,
                                   n: seq<seq<Descriptor>>, level: nat)
    requires Balanced(objects, a, p, n) && level < NESTING && n[level] == EmptyTable()
    ensures Balanced(objects, a, EmptyTable(), n[level := p])
  {
    var none, n' := EmptyTable(), n[level := p];
    forall k ensures Agrees(objects, a, none, n', k) {
      assert Agrees(objects, a, p, n, k);
      NoneNamed(EmptyTable(), k);
      NamedInSet(n, level, p, k);
    }
  }

  lemma {:induction false} Lifted(objects: seq<Object>, a: seq<Descriptor>, n: seq<seq<Descriptor>>, level: nat)
    requires Balanced(objects, a, EmptyTable(), n) && level < NESTING
    ensures Balanced(objects, a, n[level], n[level := EmptyTable()])
  {
    var p, n' := n[level], n[level := EmptyTable()];
    forall k ensures Agrees(objects, a, p, n', k) {
      assert Agrees(objects, a, EmptyTable(), n, k);
      NoneNamed(EmptyTable(), k);
      NamedInSet(n, level, EmptyTable(), k);
    }
  }

  lemma {:induction false} NothingNamed(objects: seq<Object>, a: seq<Descriptor>, n: seq<seq<Descriptor>>)
    requires |objects| == OBJECTS && forall i :: 0 <= i < OBJECTS ==> objects[i] == Object(false, 0, 0, 0, false, 0)
    requires a == EmptyTable() && |n| == NESTING && forall i :: 0 <= i < NESTING ==> n[i] == EmptyTable()
    ensures Balanced(objects, a, a, n)
  {
    forall k ensures Agrees(objects, a, a, n, k) {
      NoneNamed(a, k);
      NoneNested(n, k);
    }
  }

  lemma {:induction false} NoneNested(n: seq<seq<Descriptor>>, key: Key)
    requires forall i :: 0 <= i < |n| ==> n[i] == EmptyTable()
    ensures NamedIn(n, key) == 0
  {
    if n != [] {
      NoneNested(n[..|n| - 1], key);
      NoneNamed(n[|n| - 1], key);
    }
  }

  // ---- Whole runs ----

  datatype Call =
    | Fork(flagsFit: bool, waitable: bool, memory: bool)
    | Quit
    | CloseAt(fd: nat)
    | Dup(flags: nat, from: nat, to: nat)
    | MakePipe(pipeFlagsFit: bool, pipeDetail: nat)
    | Open(which: Terminal, detail: nat)
    | Lock(pty: nat, generation: nat, locked: bool)
    | Lead(leadPty: nat, leadGeneration: nat, leader: nat, session: nat, force: bool)

  // The table of the process that runs and the tables of those that wait.
  datatype View = View(active: seq<Descriptor>, stack: seq<seq<Descriptor>>)

  ghost predicate Follows(call: Call, v: View, v': View) {
    match call
    case Fork(_, _, _) => v'.active == v.active && (v'.stack == v.stack || v'.stack == v.stack + [v.active])
    case Quit => if v.stack == [] then v' == v else v' == View(v.stack[|v.stack| - 1], v.stack[..|v.stack| - 1])
    case _ => v'.stack == v.stack
  }

  method Perform(k: Kernel, call: Call)
    requires k.Valid()
    modifies k
    ensures k.Valid() && Follows(call, View(old(k.active), old(k.Stack())), View(k.active, k.Stack()))
  {
    match call
    case Fork(flagsFit, waitable, memory) =>
      var error := k.Clone(flagsFit, waitable, memory);
    case Quit =>
      if k.parent.active {
        k.Exit();
      }
    case CloseAt(fd) =>
      var error := k.Close(fd);
    case Dup(flags, from, to) =>
      var error := k.Duplicate(flags, from, to);
    case MakePipe(flagsFit, detail) =>
      var error, reader, writer := k.Pipe(flagsFit, detail);
    case Open(which, detail) =>
      var error, fd := k.OpenTerminal(which, detail);
    case Lock(pty, generation, locked) =>
      var error := k.SetLocked(Key(PIPES + pty, generation, First), locked);
    case Lead(pty, generation, leader, session, force) =>
      var error := k.Acquire(Key(PIPES + pty, generation, Second), leader, session, force);
  }

  // Every run keeps every count equal to the slots that name it, and moves
  // tables only as a stack.
  method Run(calls: seq<Call>) returns (k: Kernel, ghost trace: seq<View>)
    ensures k.Valid() && |trace| == |calls| + 1
    ensures trace[|calls|] == View(k.active, k.Stack()) && trace[0] == View(EmptyTable(), [])
    ensures forall i :: 0 <= i < |calls| ==> Follows(calls[i], trace[i], trace[i + 1])
  {
    k := new Kernel();
    trace := [View(k.active, k.Stack())];
    for i := 0 to |calls|
      invariant k.Valid() && |trace| == i + 1 && fresh(k)
      invariant trace[i] == View(k.active, k.Stack()) && trace[0] == View(EmptyTable(), [])
      invariant forall j :: 0 <= j < i ==> Follows(calls[j], trace[j], trace[j + 1])
    {
      Perform(k, calls[i]);
      trace := trace + [View(k.active, k.Stack())];
    }
  }

  ghost predicate IsTrace(calls: seq<Call>, trace: seq<View>) {
    |trace| == |calls| + 1 && forall i :: 0 <= i < |calls| ==> Follows(calls[i], trace[i], trace[i + 1])
  }

  // While the child and its own children run, the tables below stay as they are.
  lemma {:induction false} Undisturbed(calls: seq<Call>, trace: seq<View>, i: nat, k: nat)
    requires IsTrace(calls, trace) && i < k < |trace| && trace[i + 1].stack == trace[i].stack + [trace[i].active]
    requires forall m :: i < m <= k ==> |trace[m].stack| > |trace[i].stack|
    ensures var d := |trace[i].stack|; trace[k].stack[..d + 1] == trace[i].stack + [trace[i].active]
  {
    if k > i + 1 {
      Undisturbed(calls, trace, i, k - 1);
      assert Follows(calls[k - 1], trace[k - 1], trace[k]);
      StackStep(calls[k - 1], trace[k - 1], trace[k], |trace[i].stack| + 1);
    }
  }

  lemma {:induction false} StackStep(call: Call, v: View, v': View, d: nat)
    requires Follows(call, v, v') && d <= |v.stack| && d <= |v'.stack|
    ensures v'.stack[..d] == v.stack[..d]
  {
  }

  // A child's exit gives the parent back exactly the table it had at the fork,
  // whatever the child and its descendants did in between.
  lemma {:induction false} ExitRestores(calls: seq<Call>, trace: seq<View>, i: nat, j: nat)
    requires IsTrace(calls, trace) && i < j < |calls| && calls[j] == Quit
    requires trace[i + 1].stack == trace[i].stack + [trace[i].active]
    requires forall m :: i < m <= j ==> |trace[m].stack| > |trace[i].stack|
    requires |trace[j + 1].stack| == |trace[i].stack|
    ensures trace[j + 1] == trace[i]
  {
    Undisturbed(calls, trace, i, j);
    assert Follows(calls[j], trace[j], trace[j + 1]);
    var d := |trace[i].stack|;
    assert trace[j].stack == trace[j].stack[..d + 1];
  }
}
