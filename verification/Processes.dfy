/**
 The process table: fork, vfork, exec, exit, wait, stop and resume over a fixed
 set of records.
 */
module Processes {
  import opened Machine

  const PID_END := 0x1_0000_0000

  datatype ProcessState = Unused | Runnable | Running | Waiting | VforkWait | Stopped | Zombie

  datatype Record = Record(state: ProcessState, pid: nat, parent: nat, group: nat, session: nat, exitStatus: u32,
                           vforkParent: nat, executed: bool, addressSpace: bool)

  const EMPTY := Record(Unused, 0, 0, 0, 0, 0, 0, false, false)

  predicate Used(r: Record) {
    r.state != Unused
  }

  predicate Alive(r: Record) {
    r.state != Unused && r.state != Zombie
  }

  // ---- What every run keeps ----

  // Some live process has this pid.
  ghost predicate Lives(s: seq<Record>, pid: nat) {
    exists j :: 0 <= j < |s| && s[j].pid == pid && Alive(s[j])
  }

  // Some process still owes this vfork parent its wake-up.
  ghost predicate Owes(s: seq<Record>, pid: nat) {
    exists j :: 0 <= j < |s| && s[j].vforkParent == pid && Alive(s[j]) && !s[j].executed
  }

  ghost predicate HasLiveChild(s: seq<Record>, pid: nat) {
    exists j :: 0 <= j < |s| && s[j].parent == pid && Alive(s[j])
  }

  // One record among the others.
  ghost predicate Fine(s: seq<Record>, next: nat, r: Record) {
    if !Used(r) then r == EMPTY
    else
      && 1 <= r.pid < next && r.group != 0 && r.session != 0 && (r.state == Zombie ==> !r.addressSpace)
      && (if r.pid == 1 then Alive(r) && r.parent == 0 else r.parent < r.pid && Lives(s, r.parent))
      && (r.vforkParent != 0 ==> Alive(r) && !r.executed && r.vforkParent < r.pid
                                 && (Lives(s, r.vforkParent) ==> r.parent == r.vforkParent))
      && (r.state == VforkWait ==> Owes(s, r.pid))
      && (r.state == Waiting ==> HasLiveChild(s, r.pid))
  }

  ghost predicate Unique(s: seq<Record>) {
    forall i, j :: 0 <= i < j < |s| ==> Differ(s, i, j)
  }

  ghost predicate Differ(s: seq<Record>, i: nat, j: nat)
    requires i < |s| && j < |s|
  {
    Used(s[i]) && Used(s[j]) ==> s[i].pid != s[j].pid
  }

  // Process 1 runs, pids are unique, parents are live and older than their
  // children, and whoever sleeps has somebody to wake it.
  ghost predicate Consistent(s: seq<Record>, next: nat) {
    && 1 < next <= PID_END && Unique(s) && Lives(s, 1)
    && forall i :: 0 <= i < |s| ==> FineAt(s, next, i)
  }

  ghost predicate FineAt(s: seq<Record>, next: nat, i: nat)
    requires i < |s|
  {
    Fine(s, next, s[i])
  }

  // ---- Fork ----

  function Child(parent: Record, pid: nat, vfork: bool): Record {
    parent.(state := Runnable, pid := pid, parent := parent.pid, exitStatus := 0,
            vforkParent := if vfork then parent.pid else 0, executed := false, addressSpace := true)
  }

  function Forked(s: seq<Record>, p: nat, k: nat, pid: nat, vfork: bool): seq<Record>
    requires p < |s| && k < |s| && p != k
  {
    s[k := Child(s[p], pid, vfork)][p := if vfork then s[p].(state := VforkWait) else s[p]]
  }

  // Live processes that keep their identity keep what others rely on.
  ghost predicate Carries(s: seq<Record>, s': seq<Record>) {
    |s'| == |s| && forall j :: 0 <= j < |s| ==> Carried(s, s', j)
  }

  ghost predicate Carried(s: seq<Record>, s': seq<Record>, j: nat)
    requires j < |s| == |s'|
  {
    Alive(s[j]) ==> Same(s[j], s'[j])
  }

  predicate Same(r: Record, r': Record) {
    Alive(r') && r'.pid == r.pid && r'.parent == r.parent && r'.vforkParent == r.vforkParent
      && r'.executed == r.executed
  }

  lemma {:induction false} StillLives(s: seq<Record>, s': seq<Record>, pid: nat)
    requires Carries(s, s') && Lives(s, pid)
    ensures Lives(s', pid)
  {
    var j :| 0 <= j < |s| && s[j].pid == pid && Alive(s[j]);
    assert Carried(s, s', j);
    assert s'[j].pid == pid && Alive(s'[j]);
  }

  lemma {:induction false} StillOwes(s: seq<Record>, s': seq<Record>, pid: nat)
    requires Carries(s, s') && Owes(s, pid)
    ensures Owes(s', pid)
  {
    var j :| 0 <= j < |s| && s[j].vforkParent == pid && Alive(s[j]) && !s[j].executed;
    assert Carried(s, s', j);
    assert s'[j].vforkParent == pid && Alive(s'[j]) && !s'[j].executed;
  }

  lemma {:induction false} StillHasChild(s: seq<Record>, s': seq<Record>, pid: nat)
    requires Carries(s, s') && HasLiveChild(s, pid)
    ensures HasLiveChild(s', pid)
  {
    var j :| 0 <= j < |s| && s[j].parent == pid && Alive(s[j]);
    assert Carried(s, s', j);
    assert s'[j].parent == pid && Alive(s'[j]);
  }

  // Of the old pids, only those live that did before.
  ghost predicate NoneRise(s: seq<Record>, s': seq<Record>, next: nat) {
    |s'| == |s| && forall j :: 0 <= j < |s| ==> Falls(s, s', next, j)
  }

  ghost predicate Falls(s: seq<Record>, s': seq<Record>, next: nat, j: nat)
    requires j < |s| == |s'|
  {
    Alive(s'[j]) && s'[j].pid < next ==> Alive(s[j]) && s[j].pid == s'[j].pid
  }

  lemma {:induction false} LivedBefore(s: seq<Record>, s': seq<Record>, next: nat, pid: nat)
    requires NoneRise(s, s', next) && pid < next && Lives(s', pid)
    ensures Lives(s, pid)
  {
    var j :| 0 <= j < |s'| && s'[j].pid == pid && Alive(s'[j]);
    assert Falls(s, s', next, j);
    assert s[j].pid == pid && Alive(s[j]);
  }

  // A record that does not change stays fine.
  lemma {:induction false} FineCarried(s: seq<Record>, s': seq<Record>, next: nat, next': nat, r: Record)
    requires Carries(s, s') && NoneRise(s, s', next) && next <= next' && Fine(s, next, r)
    ensures Fine(s', next', r)
  {
    if Used(r) {
      if r.vforkParent != 0 && Lives(s', r.vforkParent) {
        LivedBefore(s, s', next, r.vforkParent);
      }
      if r.pid != 1 {
        StillLives(s, s', r.parent);
      }
      if r.state == VforkWait {
        StillOwes(s, s', r.pid);
      }
      if r.state == Waiting {
        StillHasChild(s, s', r.pid);
      }
    }
  }

  lemma {:induction false} ForkKeeps(s: seq<Record>, next: nat, p: nat, k: nat, vfork: bool)
    requires Consistent(s, next) && next < PID_END && p < |s| && k < |s| && Alive(s[p]) && !Used(s[k])
    ensures Consistent(Forked(s, p, k, next, vfork), next + 1)
  {
    var s', next' := Forked(s, p, k, next, vfork), next + 1;
    ForkUnique(s, next, p, k, vfork);
    ForkCarries(s, p, k, next, vfork);
    StillLives(s, s', 1);
    forall i | 0 <= i < |s'| ensures FineAt(s', next', i) {
      ForkFine(s, next, p, k, vfork, i);
    }
  }

  lemma {:induction false} ForkCarries(s: seq<Record>, p: nat, k: nat, pid: nat, vfork: bool)
    requires p < |s| && k < |s| && Alive(s[p]) && !Used(s[k])
    ensures Carries(s, Forked(s, p, k, pid, vfork)) && NoneRise(s, Forked(s, p, k, pid, vfork), pid)
  {
    var s' := Forked(s, p, k, pid, vfork);
    forall j | 0 <= j < |s| ensures Carried(s, s', j) && Falls(s, s', pid, j) {
    }
  }

  lemma {:induction false} ForkFine(s: seq<Record>, next: nat, p: nat, k: nat, vfork: bool, i: nat)
    requires Consistent(s, next) && p < |s| && k < |s| && Alive(s[p]) && !Used(s[k]) && i < |s|
    ensures FineAt(Forked(s, p, k, next, vfork), next + 1, i)
  {
    var s', next' := Forked(s, p, k, next, vfork), next + 1;
    assert FineAt(s, next, i) && FineAt(s, next, p);
    ForkCarries(s, p, k, next, vfork);
    if i == k {
      assert s'[p].pid == s'[k].parent && Alive(s'[p]);
    } else if i == p {
      FineCarried(s, s', next, next', s[p]);
      assert vfork ==> s'[k].vforkParent == s[p].pid && Alive(s'[k]) && !s'[k].executed;
    } else {
      FineCarried(s, s', next, next', s[i]);
    }
  }

  lemma {:induction false} ForkUnique(s: seq<Record>, next: nat, p: nat, k: nat, vfork: bool)
    requires Consistent(s, next) && p < |s| && k < |s| && Alive(s[p]) && !Used(s[k])
    ensures Unique(Forked(s, p, k, next, vfork))
  {
    var s' := Forked(s, p, k, next, vfork);
    forall i, j | 0 <= i < j < |s'| ensures Differ(s', i, j) {
      assert Differ(s, i, j) && FineAt(s, next, i) && FineAt(s, next, j);
    }
  }

  // ---- Small changes to one live process ----

  lemma {:induction false} AdjustKeeps(s: seq<Record>, next: nat, i: nat, r: Record)
    requires Consistent(s, next) && i < |s| && Alive(s[i]) && Same(s[i], r) && r.group != 0 && r.session != 0
    requires (r.state == VforkWait ==> s[i].state == VforkWait) && (r.state == Waiting ==> HasLiveChild(s, r.pid))
    ensures Consistent(s[i := r], next)
  {
    var s' := s[i := r];
    forall j | 0 <= j < |s| ensures Carried(s, s', j) && Falls(s, s', next, j) {
    }
    StillLives(s, s', 1);
    forall j, k | 0 <= j < k < |s'| ensures Differ(s', j, k) {
      assert Differ(s, j, k);
    }
    forall k | 0 <= k < |s'| ensures FineAt(s', next, k) {
      assert FineAt(s, next, k);
      FineCarried(s, s', next, next, s[k]);
      if k == i && r.state == Waiting {
        StillHasChild(s, s', r.pid);
      }
    }
  }

  // A zombie leaves the table.
  lemma {:induction false} ReapKeeps(s: seq<Record>, next: nat, i: nat)
    requires Consistent(s, next) && i < |s| && s[i].state == Zombie
    ensures Consistent(s[i := EMPTY], next)
  {
    var s' := s[i := EMPTY];
    forall j | 0 <= j < |s| ensures Carried(s, s', j) && Falls(s, s', next, j) {
    }
    StillLives(s, s', 1);
    forall j, k | 0 <= j < k < |s'| ensures Differ(s', j, k) {
      assert Differ(s, j, k);
    }
    forall k | 0 <= k < |s'| ensures FineAt(s', next, k) {
      assert FineAt(s, next, k);
      FineCarried(s, s', next, next, s[k]);
    }
  }

  // ---- Exec and exit ----

  // A vfork parent that is woken.
  function Woken(r: Record, pid: nat): Record {
    if r.pid == pid && r.state == VforkWait then r.(state := Runnable) else r
  }

  function Executed(s: seq<Record>, i: nat): (s': seq<Record>)
    requires i < |s|
    ensures |s'| == |s|
  {
    seq(|s|, k requires 0 <= k < |s| =>
        if k == i then s[i].(executed := true, vforkParent := 0)
        else if s[i].vforkParent == 0 then s[k] else Woken(s[k], s[i].vforkParent))
  }

  // What the others rely on, apart from process i.
  ghost predicate CarriesBut(s: seq<Record>, s': seq<Record>, i: nat) {
    |s'| == |s| && i < |s| && forall j :: 0 <= j < |s| && j != i ==> CarriedBut(s, s', i, j)
  }

  ghost predicate CarriedBut(s: seq<Record>, s': seq<Record>, i: nat, j: nat)
    requires j < |s| == |s'|
  {
    && s'[j].pid == s[j].pid && (Alive(s[j]) ==> Alive(s'[j])) && (Used(s'[j]) ==> Used(s[j]))
    && s'[j].vforkParent == s[j].vforkParent && s'[j].executed == s[j].executed
  }

  lemma {:induction false} ExecKeeps(s: seq<Record>, next: nat, i: nat)
    requires Consistent(s, next) && i < |s| && Alive(s[i])
    ensures Consistent(Executed(s, i), next)
  {
    var s' := Executed(s, i);
    forall j | 0 <= j < |s| && j != i ensures CarriedBut(s, s', i, j) {
    }
    ExecLives(s, s', i, 1);
    forall j, k | 0 <= j < k < |s'| ensures Differ(s', j, k) {
      assert Differ(s, j, k);
    }
    forall k | 0 <= k < |s'| ensures FineAt(s', next, k) {
      ExecFine(s, next, i, k);
    }
  }

  lemma {:induction false} ExecLives(s: seq<Record>, s': seq<Record>, i: nat, pid: nat)
    requires CarriesBut(s, s', i) && s'[i].pid == s[i].pid && Alive(s'[i]) && Lives(s, pid)
    ensures Lives(s', pid)
  {
    var j :| 0 <= j < |s| && s[j].pid == pid && Alive(s[j]);
    assert j != i ==> CarriedBut(s, s', i, j);
    assert s'[j].pid == pid && Alive(s'[j]);
  }

  // Whoever still sleeps in vfork waits for somebody else.
  lemma {:induction false} OwesBut(s: seq<Record>, s': seq<Record>, i: nat, pid: nat)
    requires CarriesBut(s, s', i) && Owes(s, pid) && s[i].vforkParent != pid
    ensures Owes(s', pid)
  {
    var j :| 0 <= j < |s| && s[j].vforkParent == pid && Alive(s[j]) && !s[j].executed;
    assert CarriedBut(s, s', i, j);
    assert s'[j].vforkParent == pid && Alive(s'[j]) && !s'[j].executed;
  }

  lemma {:induction false} ExecFine(s: seq<Record>, next: nat, i: nat, k: nat)
    requires Consistent(s, next) && i < |s| && Alive(s[i]) && k < |s|
    ensures FineAt(Executed(s, i), next, k)
  {
    var s' := Executed(s, i);
    var r, r' := s[k], s'[k];
    forall j | 0 <= j < |s| && j != i ensures CarriedBut(s, s', i, j) {
    }
    forall j | 0 <= j < |s| ensures Falls(s, s', next, j) {
    }
    assert FineAt(s, next, k) && FineAt(s, next, i);
    if Used(r) {
      if r'.vforkParent != 0 && Lives(s', r'.vforkParent) {
        LivedBefore(s, s', next, r'.vforkParent);
      }
      if r.pid != 1 {
        ExecLives(s, s', i, r.parent);
      }
      if r'.state == VforkWait {
        SleeperElsewhere(s, next, i, k);
        OwesBut(s, s', i, r.pid);
      }
      if r'.state == Waiting {
        ExecChild(s, i, r.pid);
      }
    }
  }

  // A process that exec leaves in vfork sleep is not the one exec would wake.
  lemma {:induction false} SleeperElsewhere(s: seq<Record>, next: nat, i: nat, k: nat)
    requires Consistent(s, next) && i < |s| && Alive(s[i]) && k < |s| && Executed(s, i)[k].state == VforkWait
    ensures s[k].state == VforkWait && s[i].vforkParent != s[k].pid
  {
    assert FineAt(s, next, i) && FineAt(s, next, k);
  }

  lemma {:induction false} ExecChild(s: seq<Record>, i: nat, pid: nat)
    requires i < |s| && Alive(s[i]) && HasLiveChild(s, pid)
    ensures HasLiveChild(Executed(s, i), pid)
  {
    var s' := Executed(s, i);
    var j :| 0 <= j < |s| && s[j].parent == pid && Alive(s[j]);
    assert s'[j].parent == pid && Alive(s'[j]);
  }

  function Released(r: Record, pid: nat): Record {
    if r.pid == pid && r.state == Waiting then r.(state := Runnable) else r
  }

  // The children of process 1 itself have no parent any more.
  function Adopted(r: Record, pid: nat): Record {
    if Used(r) && r.parent == pid then r.(parent := if pid == 1 then 0 else 1) else r
  }

  function Bystander(e: Record, r: Record): Record {
    Adopted(Released(if e.vforkParent == 0 then r else Woken(r, e.vforkParent), e.parent), e.pid)
  }

  function Exited(s: seq<Record>, i: nat, status: u32): (s': seq<Record>)
    requires i < |s|
    ensures |s'| == |s|
  {
    seq(|s|, k requires 0 <= k < |s| =>
        if k == i then s[i].(state := Zombie, exitStatus := status, addressSpace := false, vforkParent := 0)
        else Bystander(s[i], s[k]))
  }

  lemma {:induction false} ExitCarries(s: seq<Record>, i: nat, status: u32)
    requires i < |s|
    ensures CarriesBut(s, Exited(s, i, status), i)
  {
    var s' := Exited(s, i, status);
    forall j | 0 <= j < |s| && j != i ensures CarriedBut(s, s', i, j) {
    }
  }

  lemma {:induction false} ExitKeeps(s: seq<Record>, next: nat, i: nat, status: u32)
    requires Consistent(s, next) && i < |s| && Alive(s[i]) && s[i].pid != 1
    ensures Consistent(Exited(s, i, status), next)
  {
    var s' := Exited(s, i, status);
    ExitCarries(s, i, status);
    LivesBut(s, s', i, 1);
    ExitUnique(s, i, status);
    forall k | 0 <= k < |s'| ensures FineAt(s', next, k) {
      ExitFine(s, next, i, status, k);
    }
  }

  lemma {:induction false} LivesBut(s: seq<Record>, s': seq<Record>, i: nat, pid: nat)
    requires CarriesBut(s, s', i) && Lives(s, pid) && s[i].pid != pid
    ensures Lives(s', pid)
  {
    var j :| 0 <= j < |s| && s[j].pid == pid && Alive(s[j]);
    assert CarriedBut(s, s', i, j);
    assert s'[j].pid == pid && Alive(s'[j]);
  }

  // A sleeping parent keeps a live child unless the one that exits was it.
  lemma {:induction false} ChildBut(s: seq<Record>, next: nat, i: nat, status: u32, pid: nat)
    requires Consistent(s, next) && i < |s| && HasLiveChild(s, pid) && s[i].parent != pid && s[i].pid != pid
    ensures HasLiveChild(Exited(s, i, status), pid)
  {
    var s' := Exited(s, i, status);
    var j :| 0 <= j < |s| && s[j].parent == pid && Alive(s[j]);
    assert s'[j].parent == pid && Alive(s'[j]);
  }

  lemma {:induction false} ExitFine(s: seq<Record>, next: nat, i: nat, status: u32, k: nat)
    requires Consistent(s, next) && i < |s| && Alive(s[i]) && s[i].pid != 1 && k < |s|
    ensures FineAt(Exited(s, i, status), next, k)
  {
    var s' := Exited(s, i, status);
    ExitCarries(s, i, status);
    assert FineAt(s, next, k) && FineAt(s, next, i);
    if k == i {
      LivesBut(s, s', i, s[i].parent);
    } else if Used(s[k]) {
      OtherPid(s, i, k);
      ExitOthers(s, next, i, status, k);
    }
  }

  lemma {:induction false} OtherPid(s: seq<Record>, i: nat, k: nat)
    requires Unique(s) && i < |s| && k < |s| && i != k && Used(s[i]) && Used(s[k])
    ensures s[i].pid != s[k].pid
  {
    assert if i < k then Differ(s, i, k) else Differ(s, k, i);
  }

  lemma {:induction false} ExitOthers(s: seq<Record>, next: nat, i: nat, status: u32, k: nat)
    requires Consistent(s, next) && i < |s| && Alive(s[i]) && s[i].pid != 1 && k < |s| && k != i && Used(s[k])
             && s[i].pid != s[k].pid
    ensures FineAt(Exited(s, i, status), next, k)
  {
    var s' := Exited(s, i, status);
    var e, r, r' := s[i], s[k], s'[k];
    ExitCarries(s, i, status);
    assert FineAt(s, next, k) && FineAt(s, next, i);
    if r'.vforkParent != 0 && Lives(s', r'.vforkParent) {
      ExitVforkParent(s, next, i, status, k);
    }
    if r.pid != 1 {
      if r.parent == e.pid {
        LivesBut(s, s', i, 1);
      } else {
        LivesBut(s, s', i, r.parent);
      }
    }
    if r'.state == VforkWait {
      OwesBut(s, s', i, r.pid);
    }
    if r'.state == Waiting {
      ChildBut(s, next, i, status, r.pid);
    }
  }

  lemma {:induction false} ExitFalls(s: seq<Record>, next: nat, i: nat, status: u32)
    requires i < |s|
    ensures NoneRise(s, Exited(s, i, status), next)
  {
    var s' := Exited(s, i, status);
    forall j | 0 <= j < |s| ensures Falls(s, s', next, j) {
    }
  }

  lemma {:induction false} ExitUnique(s: seq<Record>, i: nat, status: u32)
    requires Unique(s) && i < |s| && Alive(s[i])
    ensures Unique(Exited(s, i, status))
  {
    var s' := Exited(s, i, status);
    forall j, k | 0 <= j < k < |s'| ensures Differ(s', j, k) {
      assert Differ(s, j, k);
    }
  }

  // A vfork parent that still lives did not exit, so its child is still its child.
  lemma {:induction false} ExitVforkParent(s: seq<Record>, next: nat, i: nat, status: u32, k: nat)
    requires Consistent(s, next) && i < |s| && Alive(s[i]) && k < |s| && k != i && Used(s[k]) && s[k].vforkParent != 0
    requires Lives(Exited(s, i, status), s[k].vforkParent)
    ensures Exited(s, i, status)[k].parent == s[k].vforkParent
  {
    var s', v := Exited(s, i, status), s[k].vforkParent;
    assert FineAt(s, next, k);
    ExitFalls(s, next, i, status);
    LivedBefore(s, s', next, v);
    var j :| 0 <= j < |s| && s'[j].pid == v && Alive(s'[j]);
    assert Falls(s, s', next, j) && s[j].pid == v && s[k].parent == v;
    OtherPid(s, i, j);
  }

  // Whoever sleeps in vfork has a live child that has not executed and will
  // wake it.
  lemma {:induction false} VforkChild(s: seq<Record>, next: nat, i: nat) returns (j: nat)
    requires Consistent(s, next) && i < |s| && s[i].state == VforkWait
    ensures j < |s| && s[j].parent == s[i].pid == s[j].vforkParent && Alive(s[j]) && !s[j].executed
  {
    assert FineAt(s, next, i);
    j :| 0 <= j < |s| && s[j].vforkParent == s[i].pid && Alive(s[j]) && !s[j].executed;
    assert s[i].pid == s[j].vforkParent && Alive(s[i]) && FineAt(s, next, j);
  }

  // ---- The tree ----

  // Following parents from this pid leads to process 1 in at most n steps.
  ghost predicate Descends(s: seq<Record>, pid: nat, n: nat)
    decreases n
  {
    pid == 1 || (n > 0 && exists j :: 0 <= j < |s| && Used(s[j]) && s[j].pid == pid && Descends(s, s[j].parent, n - 1))
  }

  lemma {:induction false} Rooted(s: seq<Record>, next: nat, i: nat)
    requires Consistent(s, next) && i < |s| && Used(s[i])
    ensures Descends(s, s[i].pid, s[i].pid)
    decreases s[i].pid
  {
    assert FineAt(s, next, i);
    if s[i].pid != 1 {
      var j :| 0 <= j < |s| && s[j].pid == s[i].parent && Alive(s[j]);
      Rooted(s, next, j);
      Farther(s, s[j].pid, s[j].pid, s[i].pid - 1);
    }
  }

  lemma {:induction false} Farther(s: seq<Record>, pid: nat, n: nat, m: nat)
    requires Descends(s, pid, n) && n <= m
    ensures Descends(s, pid, m)
    decreases n
  {
    if pid != 1 {
      var j :| 0 <= j < |s| && Used(s[j]) && s[j].pid == pid && Descends(s, s[j].parent, n - 1);
      Farther(s, s[j].parent, n - 1, m - 1);
    }
  }

  // ---- The table ----

  datatype Status = Success | NoProcess | NoChild | WouldBlock | NoSpace | InvalidArgument | PermissionDenied

  datatype Selector = AnyChild | ByPid(value: nat) | ByGroup(group: nat)

  predicate Selected(parent: Record, child: Record, selector: Selector) {
    match selector
    case AnyChild => true
    case ByPid(value) => child.pid == value
    case ByGroup(group) => child.group == if group == 0 then parent.group else group
  }

  // A child the caller asks about.
  predicate Candidate(parent: Record, r: Record, selector: Selector) {
    Used(r) && r.parent == parent.pid && Selected(parent, r, selector)
  }

  // Only one record has the pid that is woken.
  lemma {:induction false} WokenOnce(s: seq<Record>, pid: nat, j: nat, k: nat)
    requires Unique(s) && j < |s| && k < |s| && Used(s[j]) && s[j].pid == pid && k != j
    ensures Woken(s[k], pid) == s[k] && Released(s[k], pid) == s[k]
  {
    if Used(s[k]) {
      OtherPid(s, j, k);
    }
  }

  const FIRST := Record(Running, 1, 0, 1, 1, 0, 0, false, true)

  // The records of a table that holds process 1 alone.
  function Initial(capacity: nat): seq<Record>
    requires 2 <= capacity
  {
    [FIRST] + seq(capacity - 1, _ => EMPTY)
  }

  class ProcessTable {
    const records: array<Record>
    var nextPid: nat

    ghost predicate Valid()
      reads this, records
    {
      2 <= records.Length && Consistent(records[..], nextPid)
    }

    // The table with process 1 in it.
    constructor (capacity: nat)
      requires 2 <= capacity
      ensures Valid() && fresh(records) && records[..] == Initial(capacity) && nextPid == 2
    {
      records := new Record[capacity](_ => EMPTY);
      nextPid := 2;
      new;
      records[0] := FIRST;
      FirstProcess(records[..]);
    }

    method Find(pid: nat) returns (i: nat)
      ensures i <= records.Length && (i < records.Length ==> Used(records[i]) && records[i].pid == pid)
      ensures i == records.Length ==> forall k :: 0 <= k < records.Length ==> !Used(records[k]) || records[k].pid != pid
    {
      i := 0;
      while i < records.Length && !(Used(records[i]) && records[i].pid == pid)
        invariant 0 <= i <= records.Length && forall k :: 0 <= k < i ==> !Used(records[k]) || records[k].pid != pid
      {
        i := i + 1;
      }
    }

    method FreeSlot() returns (i: nat)
      ensures i <= records.Length && (i < records.Length ==> !Used(records[i]))
      ensures forall k :: 0 <= k < i ==> Used(records[k])
    {
      i := 0;
      while i < records.Length && Used(records[i])
        invariant 0 <= i <= records.Length && forall k :: 0 <= k < i ==> Used(records[k])
      {
        i := i + 1;
      }
    }

    method Fork(parent: nat, vfork: bool) returns (status: Status, child: nat)
      requires Valid()
      modifies this, records
      ensures Valid() && (status == Success || status == NoProcess || status == NoSpace)
      ensures status == NoProcess <==> !Lives(old(records[..]), parent)
      ensures status == NoSpace <==>
                Lives(old(records[..]), parent)
                  && ((forall i :: 0 <= i < records.Length ==> Used(old(records[..])[i])) || old(nextPid) == PID_END)
      ensures status == Success ==>
                && child == old(nextPid) && nextPid == child + 1
                && exists p, k :: ForkedFrom(old(records[..]), records[..], parent, p, k, child, vfork)
      ensures status != Success ==> records[..] == old(records[..]) && nextPid == old(nextPid)
    {
      child := 0;
      ghost var s := records[..];
      var p := Find(parent);
      if p == records.Length || records[p].state == Zombie {
        NotAlive(s, parent, p);
        return NoProcess, 0;
      }
      assert Alive(s[p]) && s[p].pid == parent;
      var k := FreeSlot();
      if k == records.Length || nextPid == PID_END {
        return NoSpace, 0;
      }
      ForkKeeps(s, nextPid, p, k, vfork);
      child := nextPid;
      nextPid := nextPid + 1;
      records[k] := Child(records[p], child, vfork);
      if vfork {
        records[p] := records[p].(state := VforkWait);
      }
      assert records[..] == Forked(s, p, k, child, vfork);
      assert ForkedFrom(s, records[..], parent, p, k, child, vfork);
      status := Success;
    }

    // mark_exec: the program changed; a vfork parent goes on.
    method MarkExec(pid: nat) returns (status: Status)
      requires Valid()
      modifies records
      ensures Valid() && (status == Success || status == NoProcess)
      ensures status == NoProcess <==> !Lives(old(records[..]), pid)
      ensures status == NoProcess ==> records[..] == old(records[..])
      ensures status == Success ==> exists i :: At(old(records[..]), pid, i)
                                      && records[..] == Executed(old(records[..]), i)
    {
      ghost var s := records[..];
      var i := Find(pid);
      if i == records.Length || records[i].state == Zombie {
        NotAlive(s, pid, i);
        return NoProcess;
      }
      assert At(s, pid, i);
      ExecKeeps(s, nextPid, i);
      assert FineAt(s, nextPid, i);
      records[i] := records[i].(executed := true);
      WakeVforkParent(i, s);
      assert records[..] == Executed(s, i);
      status := Success;
    }

    // wake_vfork_parent
    method WakeVforkParent(i: nat, ghost s: seq<Record>)
      requires i < records.Length == |s| && Used(records[i]) && Unique(s) && Used(s[i])
      requires records[i].pid == s[i].pid && records[i].vforkParent == s[i].vforkParent != s[i].pid
      requires forall k :: 0 <= k < |s| && k != i ==> records[k] == s[k]
      modifies records
      ensures records[i] == old(records[i]).(vforkParent := 0)
      ensures forall k :: 0 <= k < |s| && k != i ==>
                records[k] == if s[i].vforkParent == 0 then s[k] else Woken(s[k], s[i].vforkParent)
    {
      var parent := records[i].vforkParent;
      if parent == 0 {
        return;
      }
      var j := Find(parent);
      assert j != i;
      if j < records.Length {
        forall k | 0 <= k < |s| && k != j ensures Woken(s[k], parent) == s[k] {
          WokenOnce(s, parent, j, k);
        }
        if records[j].state == VforkWait {
          records[j] := records[j].(state := Runnable);
        }
      }
      records[i] := records[i].(vforkParent := 0);
    }

    // exit(): a zombie remains; parents that slept for it go on, and its
    // children become children of process 1.
    method Exit(pid: nat, exitStatus: u32) returns (status: Status)
      requires Valid()
      modifies records
      ensures (pid != 1 ==> Valid()) && (status == Success || status == NoProcess)
      ensures status == NoProcess <==> !Lives(old(records[..]), pid)
      ensures status == NoProcess ==> records[..] == old(records[..])
      ensures status == Success ==> exists i :: At(old(records[..]), pid, i)
                                      && records[..] == Exited(old(records[..]), i, exitStatus)
    {
      ghost var s := records[..];
      var i := Find(pid);
      if i == records.Length || records[i].state == Zombie {
        NotAlive(s, pid, i);
        return NoProcess;
      }
      assert At(s, pid, i);
      if pid != 1 {
        ExitKeeps(s, nextPid, i, exitStatus);
      }
      assert FineAt(s, nextPid, i);
      records[i] := records[i].(exitStatus := exitStatus, state := Zombie, addressSpace := false);
      WakeVforkParent(i, s);
      WakeWaiting(i, s);
      Reparent(i, s);
      assert records[..] == Exited(s, i, exitStatus);
      status := Success;
    }

    // A parent in wait() goes on.
    method WakeWaiting(i: nat, ghost s: seq<Record>)
      requires i < records.Length == |s| && Unique(s) && s[i].parent == records[i].parent != s[i].pid
               && records[i].pid == s[i].pid
      requires Used(records[i]) && records[i].state == Zombie && Used(s[i])
      requires forall k :: 0 <= k < |s| && k != i ==>
                 records[k] == if s[i].vforkParent == 0 then s[k] else Woken(s[k], s[i].vforkParent)
      modifies records
      ensures records[i] == old(records[i])
      ensures forall k :: 0 <= k < |s| && k != i ==>
                records[k] == Released(if s[i].vforkParent == 0 then s[k] else Woken(s[k], s[i].vforkParent),
                                       s[i].parent)
    {
      var j := Find(records[i].parent);
      assert j != i;
      if j < records.Length {
        forall k | 0 <= k < |s| && k != j ensures Released(s[k], s[i].parent) == s[k] {
          WokenOnce(s, s[i].parent, j, k);
        }
        if records[j].state == Waiting {
          records[j] := records[j].(state := Runnable);
        }
      }
    }

    // reparent_children
    method Reparent(i: nat, ghost s: seq<Record>)
      requires i < records.Length == |s| && records[i].pid == s[i].pid && records[i].parent != s[i].pid
      requires exists j :: 0 <= j < |s| && Used(records[j]) && records[j].pid == 1
      modifies records
      ensures records[i] == old(records[i])
      ensures forall k :: 0 <= k < |s| && k != i ==> records[k] == Adopted(old(records[k]), s[i].pid)
    {
      var exiting := records[i].pid;
      var first := Find(1);
      var adopter := if first < records.Length && exiting != 1 then 1 else 0;
      for k := 0 to records.Length
        invariant forall j :: 0 <= j < k ==> records[j] == Adopted(old(records[j]), exiting)
        invariant forall j :: k <= j < records.Length ==> records[j] == old(records[j])
      {
        if Used(records[k]) && records[k].parent == exiting {
          records[k] := records[k].(parent := adopter);
        }
      }
    }

    // wait(): the first selected zombie is reaped; with none, but with selected
    // children, the caller sleeps or returns at once.
    method Wait(caller: nat, selector: Selector, noHang: bool) returns (status: Status, pid: nat, word: u32)
      requires Valid()
      modifies records
      ensures Valid()
      ensures status == NoProcess <==> !Lives(old(records[..]), caller)
      ensures status != NoProcess ==> exists p,
              j :: Waited(old(records[..]), records[..], caller, selector, noHang, p, j, status, pid, word)
      ensures status == NoProcess ==> records[..] == old(records[..])
    {
      ghost var s := records[..];
      pid, word := 0, 0;
      var p := Find(caller);
      if p == records.Length || records[p].state == Zombie {
        NotAlive(s, caller, p);
        return NoProcess, 0, 0;
      }
      assert At(s, caller, p);
      var hasChild, j := FindChild(p, selector);
      if j < records.Length {
        ReapKeeps(s, nextPid, j);
        pid, word := records[j].pid, records[j].exitStatus;
        records[j] := EMPTY;
        assert records[..] == s[j := EMPTY];
        status := Success;
      } else if !hasChild {
        status := NoChild;
      } else if noHang {
        status := Success;
      } else {
        assert FineAt(s, nextPid, p);
        AdjustKeeps(s, nextPid, p, s[p].(state := Waiting));
        records[p] := records[p].(state := Waiting);
        assert records[..] == s[p := s[p].(state := Waiting)];
        status := WouldBlock;
      }
      assert Waited(s, records[..], caller, selector, noHang, p, j, status, pid, word);
    }

    method FindChild(p: nat, selector: Selector) returns (hasChild: bool, j: nat)
      requires p < records.Length
      ensures j <= records.Length && (j < records.Length ==>
                                        Candidate(records[p], records[j], selector) && records[j].state == Zombie)
      ensures forall k :: 0 <= k < j ==> Candidate(records[p], records[k], selector) ==> records[k].state != Zombie
      ensures j == records.Length ==> (hasChild <==>
                                         exists k :: 0 <= k < records.Length
                                           && Candidate(records[p], records[k], selector))
    {
      hasChild, j := false, 0;
      while j < records.Length
        invariant 0 <= j <= records.Length
        invariant forall k :: 0 <= k < j ==> Candidate(records[p], records[k], selector) ==> records[k].state != Zombie
        invariant hasChild <==> exists k :: 0 <= k < j && Candidate(records[p], records[k], selector)
      {
        if Candidate(records[p], records[j], selector) {
          hasChild := true;
          if records[j].state == Zombie {
            return;
          }
        }
        j := j + 1;
      }
    }

    method Stop(pid: nat) returns (status: Status)
      requires Valid()
      modifies records
      ensures Valid() && (status == Success || status == NoProcess)
      ensures status == NoProcess <==> !Lives(old(records[..]), pid)
      ensures status == NoProcess ==> records[..] == old(records[..])
      ensures status == Success ==>
                exists i: nat :: At(old(records[..]), pid, i)
                  && records[..] == old(records[..])[i := old(records[..])[i].(state := Stopped)]
    {
      ghost var s := records[..];
      var i := Find(pid);
      if i == records.Length || records[i].state == Zombie {
        NotAlive(s, pid, i);
        return NoProcess;
      }
      assert At(s, pid, i) && FineAt(s, nextPid, i);
      AdjustKeeps(s, nextPid, i, s[i].(state := Stopped));
      records[i] := records[i].(state := Stopped);
      assert records[..] == s[i := s[i].(state := Stopped)];
      status := Success;
    }

    method Resume(pid: nat) returns (status: Status)
      requires Valid()
      modifies records
      ensures Valid() && (status == Success || status == NoProcess)
      ensures status == NoProcess <==> !Lives(old(records[..]), pid)
      ensures status == NoProcess ==> records[..] == old(records[..])
      ensures status == Success ==>
                exists i: nat :: At(old(records[..]), pid, i)
                  && records[..] == old(records[..])[i := Resumed(old(records[..])[i])]
    {
      ghost var s := records[..];
      var i := Find(pid);
      if i == records.Length || records[i].state == Zombie {
        NotAlive(s, pid, i);
        return NoProcess;
      }
      assert At(s, pid, i) && FineAt(s, nextPid, i);
      AdjustKeeps(s, nextPid, i, Resumed(s[i]));
      if records[i].state == Stopped {
        records[i] := records[i].(state := Runnable);
      }
      assert records[..] == s[i := Resumed(s[i])];
      status := Success;
    }
  }

  function Resumed(r: Record): Record {
    if r.state == Stopped then r.(state := Runnable) else r
  }

  // No selected child of p among the first n records is a zombie.
  ghost predicate NoZombie(s: seq<Record>, p: nat, selector: Selector, n: nat)
    requires p < |s| && n <= |s|
  {
    forall k :: 0 <= k < n ==> Candidate(s[p], s[k], selector) ==> s[k].state != Zombie
  }

  // What wait() does, with p the caller and j the zombie it found, if any.
  ghost predicate Waited(s: seq<Record>, s': seq<Record>, caller: nat, selector: Selector, noHang: bool,
                         p: nat, j: nat, status: Status, pid: nat, word: u32) {
    && At(s, caller, p) && j <= |s|
    && NoZombie(s, p, selector, j)
    && if j < |s| then
         && Candidate(s[p], s[j], selector) && s[j].state == Zombie && s' == s[j := EMPTY]
         && status == Success && pid == s[j].pid && word == s[j].exitStatus
       else if !exists k :: 0 <= k < |s| && Candidate(s[p], s[k], selector) then status == NoChild && s' == s
       else if noHang then status == Success && pid == 0 && s' == s
       else status == WouldBlock && s' == s[p := s[p].(state := Waiting)]
  }

  ghost predicate At(s: seq<Record>, pid: nat, i: nat) {
    i < |s| && Alive(s[i]) && s[i].pid == pid
  }

  ghost predicate ForkedFrom(s: seq<Record>, s': seq<Record>, parent: nat, p: nat, k: nat, child: nat, vfork: bool) {
    && p < |s| && k < |s| && Alive(s[p]) && s[p].pid == parent && !Used(s[k]) && s' == Forked(s, p, k, child, vfork)
    && forall j :: 0 <= j < k ==> Used(s[j])
  }

  // The first record with a pid decides whether the process lives.
  lemma {:induction false} NotAlive(s: seq<Record>, pid: nat, p: nat)
    requires Unique(s) && p <= |s| && (p < |s| ==> s[p].pid == pid && s[p].state == Zombie)
    requires p == |s| ==> forall k :: 0 <= k < |s| ==> !Used(s[k]) || s[k].pid != pid
    ensures !Lives(s, pid)
  {
    forall j | 0 <= j < |s| && s[j].pid == pid && Alive(s[j]) ensures false {
      if p < |s| {
        OtherPid(s, p, j);
      }
    }
  }

  lemma {:induction false} FirstProcess(s: seq<Record>)
    requires 2 <= |s| && s[0] == FIRST
             && forall i :: 1 <= i < |s| ==> s[i] == EMPTY
    ensures Consistent(s, 2)
  {
    assert s[0].pid == 1 && Alive(s[0]);
    forall i | 0 <= i < |s| ensures FineAt(s, 2, i) {
    }
    forall i, j | 0 <= i < j < |s| ensures Differ(s, i, j) {
    }
  }

  // ---- Sleeping in wait ----

  // The table, with the selector of the last wait() that put each process to sleep.
  datatype View = View(records: seq<Record>, nextPid: nat, asleep: map<nat, Selector>)

  // Nobody sleeps in wait() beside a zombie that the call would have reaped.
  ghost predicate Quiet(v: View) {
    forall k, j :: 0 <= k < |v.records| && 0 <= j < |v.records| ==> QuietPair(v, k, j)
  }

  ghost predicate QuietPair(v: View, k: nat, j: nat)
    requires k < |v.records| && j < |v.records|
  {
    Awaits(v, k, j) ==> v.records[j].state != Zombie
  }

  // Process k sleeps in a wait() that selects its child j.
  ghost predicate Awaits(v: View, k: nat, j: nat)
    requires k < |v.records| && j < |v.records|
  {
    var r := v.records[k];
    r.state == Waiting && r.pid in v.asleep && Candidate(r, v.records[j], v.asleep[r.pid])
  }

  // The same for everybody but process 1.
  ghost predicate QuietOthers(v: View) {
    forall k, j :: 0 <= k < |v.records| && 0 <= j < |v.records| && v.records[k].pid != 1 ==> QuietPair(v, k, j)
  }

  ghost predicate Noted(v: View) {
    forall k :: 0 <= k < |v.records| && v.records[k].state == Waiting ==> v.records[k].pid in v.asleep
  }

  ghost predicate Sound(v: View) {
    Consistent(v.records, v.nextPid) && Noted(v) && QuietOthers(v)
  }

  // Process i would leave a zombie to process 1, which sleeps in a wait() that
  // selects it and is not woken because i is not its child.
  ghost predicate Strands(v: View, i: nat)
    requires i < |v.records|
  {
    v.records[i].parent != 1 && exists k, j :: Stranded(v, i, k, j)
  }

  ghost predicate Stranded(v: View, i: nat, k: nat, j: nat)
    requires i < |v.records|
  {
    && k < |v.records| && j < |v.records| && v.records[k].pid == 1 && v.records[k].state == Waiting && 1 in v.asleep
    && v.records[j].state == Zombie && v.records[j].parent == v.records[i].pid
    && Selected(v.records[k], v.records[j], v.asleep[1])
  }

  function AfterExit(v: View, i: nat, status: u32): View
    requires i < |v.records|
  {
    v.(records := Exited(v.records, i, status))
  }

  // Whoever sleeps after an exit slept before and is not the parent.
  lemma {:induction false} ExitAwaits(v: View, i: nat, status: u32, k: nat, j: nat)
    requires i < |v.records| && k < |v.records| && j < |v.records|
    requires Awaits(AfterExit(v, i, status), k, j) && AfterExit(v, i, status).records[j].state == Zombie
    ensures k != i && j != i && v.records[k].state == Waiting && v.records[k].pid != v.records[i].parent
    ensures v.records[j].state == Zombie
    ensures Awaits(v, k, j) || (v.records[k].pid in {0, 1} && v.records[j].parent == v.records[i].pid)
    ensures Selected(v.records[k], v.records[j], v.asleep[v.records[k].pid])
  {
  }

  // An exit keeps every sleeper but process 1 quiet.
  lemma {:induction false} ExitOthersQuiet(v: View, i: nat, status: u32)
    requires Sound(v) && i < |v.records| && Alive(v.records[i]) && v.records[i].pid != 1
    ensures Sound(AfterExit(v, i, status))
  {
    var v' := AfterExit(v, i, status);
    ExitKeeps(v.records, v.nextPid, i, status);
    forall k, j | 0 <= k < |v'.records| && 0 <= j < |v'.records| && v'.records[k].pid != 1 ensures QuietPair(v', k, j) {
      if Awaits(v', k, j) && v'.records[j].state == Zombie {
        assert FineAt(v.records, v.nextPid, k) && QuietPair(v, k, j);
        ExitAwaits(v, i, status, k, j);
      }
    }
  }

  // It keeps process 1 quiet exactly when it does not strand a zombie.
  lemma {:induction false} ExitQuiet(v: View, i: nat, status: u32)
    requires Sound(v) && Quiet(v) && i < |v.records| && Alive(v.records[i]) && v.records[i].pid != 1
    ensures Quiet(AfterExit(v, i, status)) <==> !Strands(v, i)
  {
    var v' := AfterExit(v, i, status);
    if Strands(v, i) {
      var k, j :| Stranded(v, i, k, j);
      assert FineAt(v.records, v.nextPid, k) && FineAt(v.records, v.nextPid, i);
      assert !QuietPair(v', k, j);
    } else {
      forall k, j | 0 <= k < |v'.records| && 0 <= j < |v'.records| ensures QuietPair(v', k, j) {
        if Awaits(v', k, j) && v'.records[j].state == Zombie {
          assert FineAt(v.records, v.nextPid, k) && QuietPair(v, k, j);
          assert v.records[i].parent != 1 ==> !Stranded(v, i, k, j);
          ExitAwaits(v, i, status, k, j);
        }
      }
    }
  }

  // A step that leaves sleepers and zombies as they are, or fewer of them.
  ghost predicate Calmer(v: View, v': View) {
    |v'.records| == |v.records| && forall k :: 0 <= k < |v.records| ==> CalmerAt(v, v', k)
  }

  ghost predicate CalmerAt(v: View, v': View, k: nat)
    requires k < |v.records| == |v'.records|
  {
    var r, r' := v.records[k], v'.records[k];
    && (r'.state == Zombie ==> r' == r)
    && (r'.state == Waiting ==> r.state == Waiting && r'.pid == r.pid && r'.group == r.group
                                && (r.pid in v.asleep ==> r.pid in v'.asleep && v'.asleep[r.pid] == v.asleep[r.pid]))
  }

  lemma {:induction false} CalmerQuiet(v: View, v': View)
    requires Calmer(v, v') && Sound(v) && Consistent(v'.records, v'.nextPid)
    ensures Sound(v') && (Quiet(v) ==> Quiet(v'))
  {
    forall k | 0 <= k < |v'.records| && v'.records[k].state == Waiting ensures v'.records[k].pid in v'.asleep {
      assert CalmerAt(v, v', k);
    }
    forall k, j | 0 <= k < |v'.records| && 0 <= j < |v'.records| && QuietPair(v, k, j) ensures QuietPair(v', k, j) {
      assert CalmerAt(v, v', k) && CalmerAt(v, v', j);
    }
    forall k | 0 <= k < |v'.records| && v'.records[k].pid != 1 && v'.records[k].state == Waiting
      ensures v.records[k].pid != 1
    {
      assert CalmerAt(v, v', k);
    }
  }

  // ---- Whole runs ----

  datatype Call =
    | ForkCall(parent: nat, vfork: bool)
    | ExecCall(execPid: nat)
    | ExitCall(exitPid: nat, exitStatus: u32)
    | WaitCall(caller: nat, selector: Selector, noHang: bool)
    | StopCall(stopPid: nat)
    | ResumeCall(resumePid: nat)

  // One call and its effect.
  ghost predicate Step(v: View, call: Call, v': View) {
    match call
    case ForkCall(parent, vfork) =>
      && v'.asleep == v.asleep
      && if Lives(v.records, parent) && v.nextPid < PID_END
         && exists i :: 0 <= i < |v.records| && !Used(v.records[i]) then
           && v'.nextPid == v.nextPid + 1
           && exists p, k :: ForkedFrom(v.records, v'.records, parent, p, k, v.nextPid, vfork)
         else v' == v
    case ExecCall(pid) =>
      if Lives(v.records, pid) then
        exists i :: At(v.records, pid, i) && v' == v.(records := Executed(v.records, i))
      else v' == v
    case ExitCall(pid, status) =>
      if Lives(v.records, pid) then exists i :: At(v.records, pid, i) && v' == AfterExit(v, i, status)
      else v' == v
    case WaitCall(caller, selector, noHang) =>
      if Lives(v.records, caller) then
        exists p, j, status, pid, word :: WaitStep(v, caller, selector, noHang, v', p, j, status, pid, word)
      else v' == v
    case StopCall(pid) =>
      if Lives(v.records, pid) then
        exists i: nat :: At(v.records, pid, i)
          && v' == v.(records := v.records[i := v.records[i].(state := Stopped)])
      else v' == v
    case ResumeCall(pid) =>
      if Lives(v.records, pid) then
        exists i: nat :: At(v.records, pid, i) && v' == v.(records := v.records[i := Resumed(v.records[i])])
      else v' == v
  }

  ghost predicate WaitStep(v: View, caller: nat, selector: Selector, noHang: bool, v': View, p: nat, j: nat,
                           status: Status, pid: nat, word: u32)
  {
    && Waited(v.records, v'.records, caller, selector, noHang, p, j, status, pid, word)
    && v'.nextPid == v.nextPid && v'.asleep == Slept(v.asleep, caller, selector, status)
  }

  ghost function Slept(asleep: map<nat, Selector>, caller: nat, selector: Selector, status: Status): map<nat, Selector>
  {
    if status == WouldBlock then asleep[caller := selector] else asleep
  }

  // A call that strands a zombie; the table before the call decides.
  ghost predicate StrandingCall(v: View, call: Call) {
    call.ExitCall? && exists i :: At(v.records, call.exitPid, i) && Strands(v, i)
  }

  // Every call keeps the sleepers other than process 1 quiet, and process 1
  // exactly if it strands nothing.
  lemma {:induction false} StepQuiet(v: View, call: Call, v': View)
    requires Sound(v) && Step(v, call, v') && Consistent(v'.records, v'.nextPid)
    requires call.ExitCall? ==> call.exitPid != 1
    ensures Sound(v') && (Quiet(v) ==> (Quiet(v') <==> !StrandingCall(v, call)))
  {
    if v' != v {
      match call
      case ForkCall(parent, vfork) => ForkQuiet(v, parent, vfork, v');
      case ExecCall(pid) => ExecQuiet(v, pid, v');
      case ExitCall(pid, status) => LeaveQuiet(v, pid, status, v');
      case WaitCall(caller, selector, noHang) => WaitQuiet(v, caller, selector, noHang, v');
      case StopCall(pid) =>
        forall k | 0 <= k < |v.records| ensures CalmerAt(v, v', k) {
        }
        CalmerQuiet(v, v');
      case ResumeCall(pid) =>
        forall k | 0 <= k < |v.records| ensures CalmerAt(v, v', k) {
        }
        CalmerQuiet(v, v');
    } else if StrandingCall(v, call) {
      LeaveQuiet(v, call.exitPid, call.exitStatus, v');
    }
  }

  lemma {:induction false} ForkQuiet(v: View, parent: nat, vfork: bool, v': View)
    requires Sound(v) && Step(v, ForkCall(parent, vfork), v') && v' != v && Consistent(v'.records, v'.nextPid)
    ensures Sound(v') && (Quiet(v) ==> Quiet(v'))
  {
    var p, k :| ForkedFrom(v.records, v'.records, parent, p, k, v.nextPid, vfork);
    forall i | 0 <= i < |v.records| ensures CalmerAt(v, v', i) {
    }
    CalmerQuiet(v, v');
  }

  lemma {:induction false} ExecQuiet(v: View, pid: nat, v': View)
    requires Sound(v) && Step(v, ExecCall(pid), v') && v' != v && Consistent(v'.records, v'.nextPid)
    ensures Sound(v') && (Quiet(v) ==> Quiet(v'))
  {
    var i :| At(v.records, pid, i) && v' == v.(records := Executed(v.records, i));
    forall k | 0 <= k < |v.records| ensures CalmerAt(v, v', k) {
    }
    CalmerQuiet(v, v');
  }

  lemma {:induction false} LeaveQuiet(v: View, pid: nat, status: u32, v': View)
    requires Sound(v) && Step(v, ExitCall(pid, status), v') && pid != 1
    ensures Sound(v') && (Quiet(v) ==> (Quiet(v') <==> !StrandingCall(v, ExitCall(pid, status))))
  {
    if Lives(v.records, pid) {
      var i :| At(v.records, pid, i) && v' == AfterExit(v, i, status);
      forall i' | At(v.records, pid, i') ensures i' == i {
        if i' != i {
          OtherPid(v.records, i, i');
        }
      }
      ExitOthersQuiet(v, i, status);
      if Quiet(v) {
        ExitQuiet(v, i, status);
      }
    }
  }

  lemma {:induction false} WaitQuiet(v: View, caller: nat, selector: Selector, noHang: bool, v': View)
    requires Sound(v) && Step(v, WaitCall(caller, selector, noHang), v') && v' != v
    requires Consistent(v'.records, v'.nextPid)
    ensures Sound(v') && (Quiet(v) ==> Quiet(v'))
  {
    var p, j, status, pid, word :| WaitStep(v, caller, selector, noHang, v', p, j, status, pid, word);
    WaitedQuiet(v, caller, selector, noHang, v', p, j, status, pid, word);
  }

  lemma {:induction false} WaitedQuiet(v: View, caller: nat, selector: Selector, noHang: bool, v': View, p: nat,
                                       j: nat, status: Status, pid: nat, word: u32)
    requires Sound(v) && Consistent(v'.records, v'.nextPid)
    requires WaitStep(v, caller, selector, noHang, v', p, j, status, pid, word)
    ensures Sound(v') && (Quiet(v) ==> Quiet(v'))
  {
    if status == WouldBlock {
      SleepQuiet(v, p, selector, v');
    } else if j < |v.records| {
      ReapQuiet(v, j, v');
    } else {
      assert v' == v;
    }
  }

  lemma {:induction false} ReapQuiet(v: View, j: nat, v': View)
    requires Sound(v) && j < |v.records| && v' == v.(records := v.records[j := EMPTY])
    requires Consistent(v'.records, v'.nextPid)
    ensures Sound(v') && (Quiet(v) ==> Quiet(v'))
  {
    forall k | 0 <= k < |v.records| ensures CalmerAt(v, v', k) {
    }
    CalmerQuiet(v, v');
  }

  // The call found no zombie, so its caller sleeps beside none.
  lemma {:induction false} SleepQuiet(v: View, p: nat, selector: Selector, v': View)
    requires Sound(v) && p < |v.records| && Alive(v.records[p]) && Consistent(v'.records, v'.nextPid)
    requires v' == View(v.records[p := v.records[p].(state := Waiting)], v.nextPid,
                        v.asleep[v.records[p].pid := selector])
    requires NoZombie(v.records, p, selector, |v.records|)
    ensures Sound(v') && (Quiet(v) ==> Quiet(v'))
  {
    forall k, j | 0 <= k < |v'.records| && 0 <= j < |v'.records| && (k == p || QuietPair(v, k, j))
      ensures QuietPair(v', k, j)
    {
      if k != p && Used(v.records[k]) {
        OtherPid(v.records, p, k);
      }
    }
  }

  method Perform(t: ProcessTable, call: Call, ghost v: View) returns (ghost v': View)
    requires t.Valid() && (call.ExitCall? ==> call.exitPid != 1)
    requires v.records == t.records[..] && v.nextPid == t.nextPid
    modifies t, t.records
    ensures t.Valid() && v'.records == t.records[..] && v'.nextPid == t.nextPid && Step(v, call, v')
  {
    var status;
    v' := v;
    match call
    case ForkCall(parent, vfork) =>
      var child;
      status, child := t.Fork(parent, vfork);
      v' := View(t.records[..], t.nextPid, v.asleep);
    case ExecCall(pid) =>
      status := t.MarkExec(pid);
      v' := v.(records := t.records[..]);
    case ExitCall(pid, exitStatus) =>
      status := t.Exit(pid, exitStatus);
      v' := v.(records := t.records[..]);
    case WaitCall(caller, selector, noHang) =>
      var pid, word;
      status, pid, word := t.Wait(caller, selector, noHang);
      v' := View(t.records[..], v.nextPid, Slept(v.asleep, caller, selector, status));
      if status != NoProcess {
        ghost var p, j :| Waited(v.records, v'.records, caller, selector, noHang, p, j, status, pid, word);
        assert WaitStep(v, caller, selector, noHang, v', p, j, status, pid, word);
      }
    case StopCall(pid) =>
      status := t.Stop(pid);
      v' := v.(records := t.records[..]);
    case ResumeCall(pid) =>
      status := t.Resume(pid);
      v' := v.(records := t.records[..]);
  }

  ghost predicate IsTrace(trace: seq<View>, calls: seq<Call>) {
    |trace| == |calls| + 1 && forall i :: 0 <= i < |calls| ==> Step(trace[i], calls[i], trace[i + 1])
  }

  // Every run in which process 1 does not exit keeps the table sound: whoever
  // sleeps has somebody to wake it, and nobody but process 1 sleeps in wait()
  // beside a zombie the call would have reaped. Process 1 never does so
  // exactly when no call strands a zombie.
  method Run(capacity: nat, calls: seq<Call>) returns (records: seq<Record>, nextPid: nat, ghost trace: seq<View>)
    requires 2 <= capacity && forall i :: 0 <= i < |calls| && calls[i].ExitCall? ==> calls[i].exitPid != 1
    ensures IsTrace(trace, calls) && trace[0] == View(Initial(capacity), 2, map[])
    ensures trace[|calls|].records == records && trace[|calls|].nextPid == nextPid && |records| == capacity
    ensures forall i :: 0 <= i < |trace| ==> Sound(trace[i])
    ensures (forall i :: 0 <= i < |trace| ==> Quiet(trace[i])) <==>
              forall i :: 0 <= i < |calls| ==> !StrandingCall(trace[i], calls[i])
  {
    var t := new ProcessTable(capacity);
    trace := [View(Initial(capacity), 2, map[])];
    for i := 0 to |calls|
      invariant t.Valid() && fresh(t) && fresh(t.records) && t.records.Length == capacity
      invariant |trace| == i + 1 && trace[0] == View(Initial(capacity), 2, map[]) && IsTrace(trace, calls[..i])
      invariant trace[i].records == t.records[..] && trace[i].nextPid == t.nextPid
      invariant forall j :: 0 <= j <= i ==> Sound(trace[j])
    {
      ghost var v := Perform(t, calls[i], trace[i]);
      StepQuiet(trace[i], calls[i], v);
      ghost var before := trace;
      trace := trace + [v];
      assert calls[..i + 1] == calls[..i] + [calls[i]];
      assert IsTrace(trace, calls[..i + 1]) by {
        forall j | 0 <= j <= i ensures Step(trace[j], calls[..i + 1][j], trace[j + 1]) {
          assert j < i ==> Step(before[j], calls[..i][j], before[j + 1]);
        }
      }
    }
    assert calls[..|calls|] == calls;
    records, nextPid := t.records[..], t.nextPid;
    QuietRun(trace, calls);
  }

  lemma {:induction false} QuietRun(trace: seq<View>, calls: seq<Call>)
    requires IsTrace(trace, calls) && forall i :: 0 <= i < |trace| ==> Sound(trace[i])
    requires forall i :: 0 <= i < |calls| && calls[i].ExitCall? ==> calls[i].exitPid != 1
    requires Quiet(trace[0])
    ensures (forall i :: 0 <= i < |trace| ==> Quiet(trace[i])) <==>
              forall i :: 0 <= i < |calls| ==> !StrandingCall(trace[i], calls[i])
  {
    if forall i :: 0 <= i < |calls| ==> !StrandingCall(trace[i], calls[i]) {
      for i := 0 to |calls|
        invariant forall j :: 0 <= j <= i ==> Quiet(trace[j])
      {
        StepQuiet(trace[i], calls[i], trace[i + 1]);
      }
    } else {
      var i :| 0 <= i < |calls| && StrandingCall(trace[i], calls[i]);
      StepQuiet(trace[i], calls[i], trace[i + 1]);
      assert !Quiet(trace[i]) || !Quiet(trace[i + 1]);
    }
  }

  // ---- A zombie that process 1 sleeps beside ----

  function Started(pid: nat, parent: nat): Record {
    Record(Runnable, pid, parent, 1, 1, 0, 0, false, true)
  }

  const GONE := Started(4, 3).(state := Zombie, addressSpace := false)

  // Process 1 starts 2, which starts 3, which starts 4. When 4 has exited,
  // process 1 goes to sleep in wait(); then 3 exits, and 4 becomes a zombie
  // child of process 1, which goes on sleeping.
  method StrandedExample() returns (records: seq<Record>)
    ensures |records| == 4 && records[0] == FIRST.(state := Waiting) && records[3] == GONE.(parent := 1)
  {
    var calls := [ForkCall(1, false), ForkCall(2, false), ForkCall(3, false), ExitCall(4, 0),
                  WaitCall(1, AnyChild, false), ExitCall(3, 0)];
    var nextPid;
    ghost var trace: seq<View>;
    records, nextPid, trace := Run(4, calls);
    FamilyGrows(trace, calls);
    FamilySleeps(trace, calls);
    FamilyStrands(trace, calls);
  }

  lemma {:induction false} FamilyGrows(trace: seq<View>, calls: seq<Call>)
    requires IsTrace(trace, calls) && trace[0] == View(Initial(4), 2, map[]) && 3 < |calls|
    requires calls[0] == ForkCall(1, false) && calls[1] == ForkCall(2, false) && calls[2] == ForkCall(3, false)
    requires forall i :: 0 <= i < |trace| ==> Unique(trace[i].records)
    ensures trace[3] == View([FIRST, Started(2, 1), Started(3, 2), Started(4, 3)], 5, map[])
  {
    NextFork(trace[0], 1, trace[1], 0, 1);
    assert trace[1] == View([FIRST, Started(2, 1), EMPTY, EMPTY], 3, map[]);
    NextFork(trace[1], 2, trace[2], 1, 2);
    assert trace[2] == View([FIRST, Started(2, 1), Started(3, 2), EMPTY], 4, map[]);
    NextFork(trace[2], 3, trace[3], 2, 3);
  }

  lemma {:induction false} FamilySleeps(trace: seq<View>, calls: seq<Call>)
    requires IsTrace(trace, calls) && 4 < |calls|
    requires trace[3] == View([FIRST, Started(2, 1), Started(3, 2), Started(4, 3)], 5, map[])
    requires calls[3] == ExitCall(4, 0) && calls[4] == WaitCall(1, AnyChild, false)
    requires forall i :: 0 <= i < |trace| ==> Unique(trace[i].records)
    ensures trace[5].records == [FIRST.(state := Waiting), Started(2, 1), Started(3, 2), GONE]
  {
    NextExit(trace[3], 4, 0, trace[4], 3);
    assert trace[4].records == [FIRST, Started(2, 1), Started(3, 2), GONE];
    assert Candidate(trace[4].records[0], trace[4].records[1], AnyChild);
    NextWait(trace[4], 1, AnyChild, trace[5], 0);
  }

  lemma {:induction false} FamilyStrands(trace: seq<View>, calls: seq<Call>)
    requires IsTrace(trace, calls) && 5 < |calls| && calls[5] == ExitCall(3, 0) && Unique(trace[5].records)
    requires trace[5].records == [FIRST.(state := Waiting), Started(2, 1), Started(3, 2), GONE]
    ensures |trace[6].records| == 4 && trace[6].records[0] == FIRST.(state := Waiting)
    ensures trace[6].records[3] == GONE.(parent := 1)
  {
    NextExit(trace[5], 3, 0, trace[6], 2);
  }

  lemma {:induction false} NextFork(v: View, parent: nat, v': View, p: nat, k: nat)
    requires Unique(v.records) && Step(v, ForkCall(parent, false), v') && At(v.records, parent, p)
    requires v.nextPid < PID_END && k < |v.records| && !Used(v.records[k])
    requires forall j :: 0 <= j < k ==> Used(v.records[j])
    ensures v' == View(Forked(v.records, p, k, v.nextPid, false), v.nextPid + 1, v.asleep)
  {
    assert Lives(v.records, parent);
    var p', k' :| ForkedFrom(v.records, v'.records, parent, p', k', v.nextPid, false);
    if p' != p {
      OtherPid(v.records, p, p');
    }
  }

  lemma {:induction false} NextExit(v: View, pid: nat, status: u32, v': View, i: nat)
    requires Unique(v.records) && Step(v, ExitCall(pid, status), v') && At(v.records, pid, i)
    ensures v' == AfterExit(v, i, status)
  {
    assert Lives(v.records, pid);
    var i' :| At(v.records, pid, i') && v' == AfterExit(v, i', status);
    if i' != i {
      OtherPid(v.records, i, i');
    }
  }

  lemma {:induction false} NextWait(v: View, caller: nat, selector: Selector, v': View, p: nat)
    requires Unique(v.records) && Step(v, WaitCall(caller, selector, false), v') && At(v.records, caller, p)
    requires NoZombie(v.records, p, selector, |v.records|)
    requires exists k :: 0 <= k < |v.records| && Candidate(v.records[p], v.records[k], selector)
    ensures v' == View(v.records[p := v.records[p].(state := Waiting)], v.nextPid, v.asleep[caller := selector])
  {
    assert Lives(v.records, caller);
    var p', j, status, pid, word :| WaitStep(v, caller, selector, false, v', p', j, status, pid, word);
    if p' != p {
      OtherPid(v.records, p, p');
    }
  }
}
