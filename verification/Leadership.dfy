/** The controllers' leader lease: one shared row, many processes with local
    caches that lag behind it, and writes fenced by the row's epoch. */
module Leadership {
  import opened Bytes

  // Times are in nanoseconds.
  const LEASE_TTL := 15 * 1_000_000_000

  // The singleton row of the lease table; no owner is the empty string.
  datatype Row = Row(owner: string, epoch: nat, until: int)

  const FIRST_ROW := Row("", 0, 0)

  // ---------- the statements that touch the row ----------

  // Takes a free or expired lease and moves to the next epoch.
  function AcquireRow(r: Row, id: string, ts: int): Option<Row> {
    if r.owner == "" || r.until <= ts then Some(Row(id, r.epoch + 1, ts + LEASE_TTL)) else None
  }

  function RenewRow(r: Row, id: string, epoch: nat, ts: int): Option<Row> {
    if r.owner == id && r.epoch == epoch && r.until > ts then Some(r.(until := ts + LEASE_TTL)) else None
  }

  function ReleaseRow(r: Row, id: string, epoch: nat, ts: int): Row {
    if r.owner == id && r.epoch == epoch then Row("", r.epoch, ts) else r
  }

  // The check made inside a write transaction just before it commits.
  predicate Fenced(r: Row, id: string, epoch: nat, ts: int) {
    r.epoch > 0 && r.owner == id && r.epoch == epoch && r.until > ts
  }

  // ---------- the processes ----------

  // Where a process's lease loop stands between a statement and the local
  // update that follows it.
  datatype Call = Idle | Acquired(epoch: nat) | Renewing(epoch: nat) | Releasing(epoch: nat) | SteppingDown

  datatype Process = Process(active: bool, epoch: nat, call: Call)

  const STANDBY := Process(false, 0, Idle)

  datatype System = System(row: Row, clock: int, processes: map<string, Process>)

  // Steps that touch the row carry the transaction's timestamp, which may lie
  // before the moment the statement takes effect.
  datatype Step =
    | Tick(now: int)
    | Start(id: string)
    | Acquire(id: string, ts: int, answered: bool)
    | SetLeader(id: string)
    | BeginRenew(id: string)
    | Renew(id: string, ts: int, answered: bool)
    | BeginRelease(id: string)
    | Release(id: string, ts: int, applied: bool)
    | SetStandby(id: string)
    | Write(id: string, ts: int)

  function Update(s: System, id: string, p: Process): System { s.(processes := s.processes[id := p]) }

  // The state after a step, or None when the step cannot be taken.
  function Apply(s: System, step: Step): Option<System> {
    match step
    case Tick(now) => if now >= s.clock then Some(s.(clock := now)) else None
    // Owner ids are random and never reused.
    case Start(id) => if id == "" || id in s.processes then None else Some(Update(s, id, STANDBY))
    case Acquire(id, ts, answered) =>
      if id !in s.processes || ts > s.clock then None
      else
        var p, row := s.processes[id], AcquireRow(s.row, id, ts);
        if p.call != Idle || p.active || row.None? then None
        // A commit whose answer is lost leaves the process standing by.
        else if !answered then Some(s.(row := row.value))
        else Some(Update(s.(row := row.value), id, p.(call := Acquired(row.value.epoch))))
    case SetLeader(id) =>
      if id !in s.processes || !s.processes[id].call.Acquired? then None
      else Some(Update(s, id, Process(true, s.processes[id].call.epoch, Idle)))
    case BeginRenew(id) =>
      if id !in s.processes || s.processes[id].call != Idle || !s.processes[id].active then None
      else Some(Update(s, id, s.processes[id].(call := Renewing(s.processes[id].epoch))))
    case Renew(id, ts, answered) =>
      if id !in s.processes || !s.processes[id].call.Renewing? || ts > s.clock then None
      else
        var p := s.processes[id];
        var row := RenewRow(s.row, id, p.call.epoch, ts);
        if row.None? then Some(Update(s, id, p.(call := SteppingDown)))
        else Some(Update(s.(row := row.value), id, p.(call := if answered then Idle else SteppingDown)))
    case BeginRelease(id) =>
      if id !in s.processes || s.processes[id].call != Idle || !s.processes[id].active then None
      else Some(Update(s, id, s.processes[id].(call := Releasing(s.processes[id].epoch))))
    case Release(id, ts, applied) =>
      if id !in s.processes || !s.processes[id].call.Releasing? || ts > s.clock then None
      else
        var p := s.processes[id];
        var row := if applied then ReleaseRow(s.row, id, p.call.epoch, ts) else s.row;
        Some(Update(s.(row := row), id, p.(call := SteppingDown)))
    case SetStandby(id) =>
      if id !in s.processes || s.processes[id].call != SteppingDown then None
      else Some(Update(s, id, STANDBY))
    // A write transaction passes the fence and commits; the row is locked from
    // the check to the commit.
    case Write(id, ts) => if CanWrite(s, id, ts) && ts <= s.clock then Some(s) else None
  }

  predicate CanWrite(s: System, id: string, ts: int) {
    id in s.processes && Fenced(s.row, id, s.processes[id].epoch, ts)
  }

  // ---------- runs ----------

  datatype Run = Run(states: seq<System>, steps: seq<Step>)

  ghost predicate IsStep(r: Run, i: nat)
    requires i < |r.steps| && |r.states| == |r.steps| + 1
  {
    Apply(r.states[i], r.steps[i]) == Some(r.states[i + 1])
  }

  ghost predicate IsRun(r: Run) {
    && |r.states| == |r.steps| + 1
    && r.states[0].row == FIRST_ROW && r.states[0].processes == map[]
    && forall i :: 0 <= i < |r.steps| ==> IsStep(r, i)
  }

  // Who was granted which epoch by the first n steps.
  ghost function Grants(r: Run, n: nat): map<nat, string>
    requires n <= |r.steps| && |r.states| == |r.steps| + 1
  {
    if n == 0 then map[]
    else if r.steps[n - 1].Acquire? then Grants(r, n - 1)[r.states[n].row.epoch := r.steps[n - 1].id]
    else Grants(r, n - 1)
  }

  // ---------- the invariant ----------

  // An epoch that a process holds or is about to act on was granted to it.
  ghost predicate Backed(g: map<nat, string>, id: string, epoch: nat) {
    epoch in g && g[epoch] == id
  }

  ghost predicate ProcessOk(g: map<nat, string>, id: string, p: Process) {
    && (p.active <==> p.epoch > 0)
    && (p.active ==> Backed(g, id, p.epoch))
    && (match p.call
        case Acquired(e) => e > 0 && Backed(g, id, e) && !p.active
        case Renewing(e) => Backed(g, id, e)
        case Releasing(e) => Backed(g, id, e)
        case _ => true)
  }

  ghost predicate RowOk(g: map<nat, string>, r: Row) {
    && (forall e :: e in g ==> 0 < e <= r.epoch)
    && (r.owner != "" ==> Backed(g, r.owner, r.epoch))
    && (forall e :: e in g ==> g[e] != "")
  }

  ghost predicate Inv(g: map<nat, string>, s: System) {
    && RowOk(g, s.row)
    && (forall id :: id in s.processes ==> id != "" && ProcessOk(g, id, s.processes[id]))
  }

  // What one step does to the grants.
  function Granted(g: map<nat, string>, s': System, step: Step): map<nat, string> {
    if step.Acquire? then g[s'.row.epoch := step.id] else g
  }

  lemma StepKeepsInv(g: map<nat, string>, s: System, step: Step, s': System)
    requires Inv(g, s) && Apply(s, step) == Some(s')
    ensures Inv(Granted(g, s', step), s')
    ensures s.row.epoch <= s'.row.epoch
    ensures step.Acquire? ==> s'.row.epoch == s.row.epoch + 1 && s'.row.epoch !in g
  {
    var g' := Granted(g, s', step);
    assert s.row.epoch + 1 !in g;
    forall id | id in s'.processes ensures id != "" && ProcessOk(g', id, s'.processes[id]) {
      assert id in s.processes ==> ProcessOk(g, id, s.processes[id]);
    }
  }

  lemma {:induction false} RunKeepsInv(r: Run, n: nat)
    requires IsRun(r) && n <= |r.steps|
    ensures Inv(Grants(r, n), r.states[n])
  {
    if n > 0 {
      RunKeepsInv(r, n - 1);
      assert IsStep(r, n - 1);
      StepKeepsInv(Grants(r, n - 1), r.states[n - 1], r.steps[n - 1], r.states[n]);
    }
  }

  // ---------- what holds in every run ----------

  lemma {:induction false} EpochsNeverDecrease(r: Run, i: nat, j: nat)
    requires IsRun(r) && i <= j <= |r.steps|
    ensures r.states[i].row.epoch <= r.states[j].row.epoch
  {
    if i < j {
      EpochsNeverDecrease(r, i, j - 1);
      RunKeepsInv(r, j - 1);
      assert IsStep(r, j - 1);
      StepKeepsInv(Grants(r, j - 1), r.states[j - 1], r.steps[j - 1], r.states[j]);
    }
  }

  // A grant is never taken back or passed on.
  lemma {:induction false} GrantsLast(r: Run, i: nat, j: nat, epoch: nat)
    requires IsRun(r) && i <= j <= |r.steps| && epoch in Grants(r, i)
    ensures epoch in Grants(r, j) && Grants(r, j)[epoch] == Grants(r, i)[epoch]
  {
    if i < j {
      GrantsLast(r, i, j - 1, epoch);
      RunKeepsInv(r, j - 1);
      assert IsStep(r, j - 1);
      StepKeepsInv(Grants(r, j - 1), r.states[j - 1], r.steps[j - 1], r.states[j]);
    }
  }

  // Each epoch has one owner, at whatever moments the row is looked at.
  lemma OneOwnerPerEpoch(r: Run, i: nat, j: nat)
    requires IsRun(r) && i <= j <= |r.steps|
    requires r.states[i].row.epoch == r.states[j].row.epoch
    requires r.states[i].row.owner != "" && r.states[j].row.owner != ""
    ensures r.states[i].row.owner == r.states[j].row.owner
  {
    RunKeepsInv(r, i);
    RunKeepsInv(r, j);
    GrantsLast(r, i, j, r.states[i].row.epoch);
  }

  // In any reachable state at most one process passes the fence, and it is the
  // only one whose cache even holds the row's epoch.
  lemma OneWriter(r: Run, n: nat, p: string, ts: int)
    requires IsRun(r) && n <= |r.steps| && CanWrite(r.states[n], p, ts)
    ensures r.states[n].processes[p].active
    ensures forall q, ts' :: CanWrite(r.states[n], q, ts') ==> q == p
    ensures forall q :: q in r.states[n].processes && q != p ==>
                          r.states[n].processes[q].epoch != r.states[n].row.epoch
  {
    RunKeepsInv(r, n);
    var g, s := Grants(r, n), r.states[n];
    assert ProcessOk(g, p, s.processes[p]);
    forall q | q in s.processes && q != p ensures s.processes[q].epoch != s.row.epoch {
      assert ProcessOk(g, q, s.processes[q]);
    }
  }

  // The step at which a granted epoch was granted.
  lemma {:induction false} GrantedAt(r: Run, n: nat, epoch: nat) returns (k: nat)
    requires IsRun(r) && n <= |r.steps| && epoch in Grants(r, n)
    ensures k < n && r.steps[k].Acquire? && r.steps[k].id == Grants(r, n)[epoch]
    ensures r.states[k + 1].row.epoch == epoch
  {
    if r.steps[n - 1].Acquire? && r.states[n].row.epoch == epoch {
      k := n - 1;
    } else {
      k := GrantedAt(r, n - 1, epoch);
    }
  }

  // After an acquisition commits, another process commits a write only if it
  // has since acquired a higher epoch itself, the one it writes under.
  lemma FencedAfterAcquire(r: Run, i: nat, j: nat) returns (k: nat)
    requires IsRun(r) && i < j < |r.steps|
    requires r.steps[i].Acquire? && r.steps[j].Write? && r.steps[j].id != r.steps[i].id
    ensures i < k < j && r.steps[k].Acquire? && r.steps[k].id == r.steps[j].id
    ensures r.states[k + 1].row.epoch == r.states[j].row.epoch > r.states[i + 1].row.epoch
  {
    var e := r.states[j].row.epoch;
    RunKeepsInv(r, j);
    assert IsStep(r, j);
    assert Backed(Grants(r, j), r.steps[j].id, e);
    k := GrantedAt(r, j, e);
    GrantsLast(r, i + 1, j, r.states[i + 1].row.epoch);
    assert e != r.states[i + 1].row.epoch;
    EpochsNeverDecrease(r, i + 1, j);
    if k <= i {
      EpochsNeverDecrease(r, k + 1, i + 1);
      assert false;
    }
  }

  // Committed writes are ordered by epoch, and one epoch has one writer.
  lemma WritesOrderedByEpoch(r: Run, i: nat, j: nat)
    requires IsRun(r) && i < j < |r.steps| && r.steps[i].Write? && r.steps[j].Write?
    ensures r.states[i].row.epoch <= r.states[j].row.epoch
    ensures r.states[i].row.epoch == r.states[j].row.epoch ==> r.steps[i].id == r.steps[j].id
  {
    EpochsNeverDecrease(r, i, j);
    assert IsStep(r, i) && IsStep(r, j);
    RunKeepsInv(r, i);
    RunKeepsInv(r, j);
    assert r.states[i].row.owner == r.steps[i].id && r.steps[i].id in r.states[i].processes;
    assert r.states[j].row.owner == r.steps[j].id && r.steps[j].id in r.states[j].processes;
    if r.states[i].row.epoch == r.states[j].row.epoch {
      OneOwnerPerEpoch(r, i, j);
    }
  }

  // ---------- what each step takes and does ----------

  // A process that stands by takes the lease exactly when it is free or has run
  // out at the statement's time; the row then names it, under the next epoch,
  // until a lease's length later.
  lemma AcquiresExactly(s: System, id: string, ts: int, answered: bool)
    ensures Apply(s, Acquire(id, ts, answered)).Some? <==>
            && id in s.processes && ts <= s.clock && s.processes[id].call == Idle && !s.processes[id].active
            && (s.row.owner == "" || s.row.until <= ts)
    ensures Apply(s, Acquire(id, ts, answered)).Some? ==>
              var s' := Apply(s, Acquire(id, ts, answered)).value;
              && s'.row == Row(id, s.row.epoch + 1, ts + LEASE_TTL) && id in s'.processes
              && s'.processes[id].call == (if answered then Acquired(s.row.epoch + 1) else Idle)
  {
  }

  // The row is this process's, at the epoch of its call, and has not run out.
  ghost predicate Renewable(s: System, id: string, ts: int) {
    && id in s.processes && s.processes[id].call.Renewing?
    && s.row.owner == id && s.row.epoch == s.processes[id].call.epoch && ts < s.row.until
  }

  // A renewal extends the row exactly then; otherwise it leaves the row alone
  // and the process steps down.
  lemma RenewsExactly(s: System, id: string, ts: int, answered: bool)
    requires Apply(s, Renew(id, ts, answered)).Some?
    ensures var s' := Apply(s, Renew(id, ts, answered)).value;
            && s'.row == (if Renewable(s, id, ts) then s.row.(until := ts + LEASE_TTL) else s.row) && id in s'.processes
            && s'.processes[id].call == (if Renewable(s, id, ts) && answered then Idle else SteppingDown)
  {
  }

  ghost predicate Releasable(s: System, id: string) {
    && id in s.processes && s.processes[id].call.Releasing? && s.row.owner == id && s.row.epoch == s.processes[id].call.epoch
  }

  // A release that takes effect frees the process's own row, keeping its epoch.
  lemma ReleasesExactly(s: System, id: string, ts: int, applied: bool)
    requires Apply(s, Release(id, ts, applied)).Some?
    ensures var s' := Apply(s, Release(id, ts, applied)).value;
            && s'.row == (if applied && Releasable(s, id) then Row("", s.row.epoch, ts) else s.row)
            && id in s'.processes && s'.processes[id].call == SteppingDown
  {
  }

  // A write commits exactly if the row is the process's, at its cached epoch,
  // and had not run out when the transaction began; it changes no row here.
  lemma WritesExactly(s: System, id: string, ts: int)
    ensures Apply(s, Write(id, ts)).Some? <==>
            && id in s.processes && ts <= s.clock && s.row.owner == id && 0 < s.row.epoch == s.processes[id].epoch && ts < s.row.until
    ensures Apply(s, Write(id, ts)).Some? ==> Apply(s, Write(id, ts)).value == s
  {
  }

  // A cached epoch changes only when its process hears of a grant or steps down.
  lemma CachesChangeLocally(s: System, step: Step, id: string)
    requires Apply(s, step).Some? && id in s.processes
    ensures var s' := Apply(s, step).value;
            && id in s'.processes
            && (s'.processes[id].epoch != s.processes[id].epoch || s'.processes[id].active != s.processes[id].active ==>
                  (step == SetLeader(id) && s.processes[id].call == Acquired(s'.processes[id].epoch) && s'.processes[id].active)
                  || (step == SetStandby(id) && s'.processes[id] == Process(false, 0, Idle)))
  {
  }

  // ---------- a lease is respected until it ends ----------

  // The step grants, renews or releases the lease.
  ghost predicate Moves(r: Run, k: nat)
    requires k < |r.steps| && |r.states| == |r.steps| + 1
  {
    match r.steps[k]
    case Acquire(_, _, _) => true
    case Renew(id, ts, _) => Renewable(r.states[k], id, ts)
    case Release(id, _, applied) => applied && Releasable(r.states[k], id)
    case _ => false
  }

  lemma RowStays(r: Run, k: nat)
    requires IsRun(r) && k < |r.steps| && !Moves(r, k)
    ensures r.states[k + 1].row == r.states[k].row
  {
    assert IsStep(r, k);
  }

  lemma {:induction false} RowStaysLong(r: Run, i: nat, j: nat)
    requires IsRun(r) && i <= j <= |r.steps| && forall k: nat :: i <= k < j ==> !Moves(r, k)
    ensures r.states[j].row == r.states[i].row
    decreases j
  {
    if i < j {
      RowStaysLong(r, i, j - 1);
      RowStays(r, j - 1);
    }
  }

  // After the last grant or renewal, and unless the lease is released, nobody
  // takes it at a time before it runs out, a lease's length after that step.
  lemma LeaseIsRespected(r: Run, i: nat, j: nat)
    requires IsRun(r) && i < j < |r.steps| && (r.steps[i].Acquire? || (r.steps[i].Renew? && Moves(r, i)))
    requires forall k: nat :: i < k < j ==> !Moves(r, k)
    requires r.steps[j].Acquire?
    ensures r.states[j].row.until == r.steps[i].ts + LEASE_TTL <= r.steps[j].ts
  {
    RowStaysLong(r, i + 1, j);
    assert IsStep(r, i) && IsStep(r, j);
    RunKeepsInv(r, i);
    AcquiresExactly(r.states[j], r.steps[j].id, r.steps[j].ts, r.steps[j].answered);
    match r.steps[i]
    case Acquire(id, ts, answered) => AcquiresExactly(r.states[i], id, ts, answered);
    case Renew(id, ts, answered) => RenewsExactly(r.states[i], id, ts, answered);
  }

  // ---------- writes that span an epoch change ----------

  ghost predicate AcquiresBetween(r: Run, p: string, i: nat, j: nat)
    requires i <= j <= |r.steps|
  {
    exists k :: i <= k < j && r.steps[k].Acquire? && r.steps[k].id == p
  }

  // Without a new acquisition a leader's cache only ever changes to standby.
  lemma {:induction false} CacheWithoutAcquire(r: Run, p: string, i: nat, j: nat)
    requires IsRun(r) && i <= j <= |r.steps| && !AcquiresBetween(r, p, i, j)
    requires p in r.states[i].processes && r.states[i].processes[p].active
    ensures p in r.states[j].processes && !r.states[j].processes[p].call.Acquired?
    ensures r.states[j].processes[p].epoch in {0, r.states[i].processes[p].epoch}
  {
    if i == j {
      RunKeepsInv(r, i);
    } else {
      assert !AcquiresBetween(r, p, i, j - 1);
      CacheWithoutAcquire(r, p, i, j - 1);
      assert IsStep(r, j - 1);
      assert !(r.steps[j - 1].Acquire? && r.steps[j - 1].id == p);
    }
  }

  // The fence compares with the epoch cached at commit. A write begun under one
  // epoch commits under that epoch exactly when its process has not acquired
  // the lease anew in between.
  lemma WriteKeepsItsEpoch(r: Run, p: string, i: nat, j: nat)
    requires IsRun(r) && i <= j < |r.steps|
    requires p in r.states[i].processes && r.states[i].processes[p].active
    requires r.steps[j].Write? && r.steps[j].id == p
    ensures r.states[j].row.epoch == r.states[i].processes[p].epoch <==> !AcquiresBetween(r, p, i, j)
  {
    assert IsStep(r, j);
    RunKeepsInv(r, i);
    var b := r.states[i].processes[p].epoch;
    if AcquiresBetween(r, p, i, j) {
      var k :| i <= k < j && r.steps[k].Acquire? && r.steps[k].id == p;
      RunKeepsInv(r, k);
      assert IsStep(r, k);
      StepKeepsInv(Grants(r, k), r.states[k], r.steps[k], r.states[k + 1]);
      EpochsNeverDecrease(r, i, k);
      EpochsNeverDecrease(r, k + 1, j);
    } else {
      CacheWithoutAcquire(r, p, i, j);
    }
  }

  // A process that lets its lease lapse, steps down, acquires it again and writes.
  ghost function LapsedRun(): Run {
    var p, later := "p", 2 * LEASE_TTL;
    var s0 := System(FIRST_ROW, 0, map[]);
    var s1 := Update(s0, p, STANDBY);
    var s2 := Update(s1.(row := Row(p, 1, LEASE_TTL)), p, Process(false, 0, Acquired(1)));
    var s3 := Update(s2, p, Process(true, 1, Idle));
    var s4 := Update(s3, p, Process(true, 1, Renewing(1)));
    var s5 := s4.(clock := later);
    var s6 := Update(s5, p, Process(true, 1, SteppingDown));
    var s7 := Update(s6, p, STANDBY);
    var s8 := Update(s7.(row := Row(p, 2, later + LEASE_TTL)), p, Process(false, 0, Acquired(2)));
    var s9 := Update(s8, p, Process(true, 2, Idle));
    Run([s0, s1, s2, s3, s4, s5, s6, s7, s8, s9, s9],
        [Start(p), Acquire(p, 0, true), SetLeader(p), BeginRenew(p), Tick(later),
         Renew(p, later, true), SetStandby(p), Acquire(p, later, true), SetLeader(p), Write(p, 0)])
  }

  lemma LapsedRunBegins()
    ensures IsStep(LapsedRun(), 0) && IsStep(LapsedRun(), 1) && IsStep(LapsedRun(), 2) && IsStep(LapsedRun(), 3)
  {
  }

  lemma LapsedRunSteps()
    ensures IsStep(LapsedRun(), 4) && IsStep(LapsedRun(), 5) && IsStep(LapsedRun(), 6)
  {
  }

  lemma LapsedRunEnds()
    ensures IsStep(LapsedRun(), 7) && IsStep(LapsedRun(), 8) && IsStep(LapsedRun(), 9)
  {
  }

  // A write begun under epoch 1, with the timestamp of its beginning, that
  // commits under epoch 2.
  lemma WriteAcrossEpochs() returns (r: Run, i: nat, j: nat)
    ensures IsRun(r) && i < j < |r.steps|
    ensures "p" in r.states[i].processes && r.states[i].processes["p"].active
    ensures r.steps[j].Write? && r.steps[j].id == "p" && r.steps[j].ts <= r.states[i].clock
    ensures r.states[j].row.epoch != r.states[i].processes["p"].epoch
  {
    r, i, j := LapsedRun(), 3, 9;
    LapsedRunBegins();
    LapsedRunSteps();
    LapsedRunEnds();
  }

  // ---------- the process-local object ----------

  class LeaseTable {
    var row: Row

    constructor ()
      ensures row == FIRST_ROW
    {
      row := FIRST_ROW;
    }
  }

  class Leader {
    const ownerID: string
    const enabled: bool
    const table: LeaseTable
    var active: bool
    var epoch: nat

    constructor (table: LeaseTable, ownerID: string, enabled: bool)
      ensures this.table == table && this.ownerID == ownerID && this.enabled == enabled
      ensures active == !enabled && epoch == 0
    {
      this.table, this.ownerID, this.enabled := table, ownerID, enabled;
      active, epoch := !enabled, 0;
    }

    method AcquireLease(ts: int) returns (granted: Option<nat>)
      modifies table
      ensures var row := old(table.row);
              if row.owner == "" || row.until <= ts
              then table.row == Row(ownerID, row.epoch + 1, ts + LEASE_TTL) && granted == Some(row.epoch + 1)
              else table.row == row && granted == None
      ensures (Some(table.row) == AcquireRow(old(table.row), ownerID, ts)) == granted.Some?
    {
      var row := table.row;
      if row.owner != "" && row.until > ts {
        return None;
      }
      table.row := Row(ownerID, row.epoch + 1, ts + LEASE_TTL);
      return Some(table.row.epoch);
    }

    method RenewLease(ts: int) returns (ok: bool)
      modifies table
      ensures var row := old(table.row);
              && ok == (active && row.owner == ownerID && row.epoch == epoch && ts < row.until)
              && table.row == (if ok then row.(until := ts + LEASE_TTL) else row)
      ensures active ==> (Some(table.row) == RenewRow(old(table.row), ownerID, epoch, ts)) == ok
    {
      if !active {
        return false;
      }
      var row := table.row;
      if row.owner != ownerID || row.epoch != epoch || row.until <= ts {
        return false;
      }
      table.row := row.(until := ts + LEASE_TTL);
      return true;
    }

    method BecomeLeader(granted: nat)
      modifies this
      ensures active && epoch == granted
    {
      if active && epoch == granted {
        return;
      }
      active, epoch := true, granted;
    }

    method BecomeStandby()
      modifies this
      ensures !active && epoch == 0
    {
      active, epoch := false, 0;
    }

    method ReleaseLease(ts: int)
      requires table as object != this
      modifies this, table
      ensures var row := old(table.row);
              table.row == if enabled && old(active) && row.owner == ownerID && row.epoch == old(epoch)
                           then Row("", row.epoch, ts) else row
      ensures enabled && old(active) ==> table.row == ReleaseRow(old(table.row), ownerID, old(epoch), ts)
      ensures enabled ==> !active && (old(active) ==> epoch == 0)
      ensures !enabled ==> active == old(active) && epoch == old(epoch)
    {
      if !enabled || !active {
        return;
      }
      if table.row.owner == ownerID && table.row.epoch == epoch {
        table.row := Row("", table.row.epoch, ts);
      }
      BecomeStandby();
    }

    method AssertWrite(ts: int) returns (ok: bool)
      ensures var row := table.row;
              ok <==> !enabled || (active && 0 < row.epoch == epoch && row.owner == ownerID && ts < row.until)
      ensures enabled && active ==> ok == Fenced(table.row, ownerID, epoch, ts)
    {
      if !enabled {
        return true;
      }
      if !active {
        return false;
      }
      var row := table.row;
      if row.epoch <= 0 || row.owner != ownerID || row.epoch != epoch || row.until <= ts {
        return false;
      }
      return true;
    }
  }
}
