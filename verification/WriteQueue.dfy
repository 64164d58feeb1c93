/**
 Group commit (db/db_impl.cc: Write, BuildBatchGroup): writers queue up, the one in front
 writes a whole group of them to the log and the memtable, and then lets them all go.
 */
module WriteQueue {
  import opened DbFormat
  import opened Views

  /** A batch and the number of bytes it takes. */
  datatype Batch = Batch(ops: seq<Op>, bytes: nat)

  /** A thread in Write.  A writer without a batch only waits for the writes before it. */
  datatype Writer = Writer(id: nat, batch: Option<Batch>, sync: bool)

  function OpsOf(w: Writer): (ops: seq<Op>)
  {
    if w.batch.Some? then w.batch.value.ops else []
  }

  // ---------------------------------------------------------------------------
  // Building a group

  function BytesOf(w: Writer): (n: nat)
  {
    if w.batch.Some? then w.batch.value.bytes else 0
  }

  /** The bytes of the first `n` writers. */
  function GroupBytes(ws: seq<Writer>, n: nat): (b: nat)
    requires n <= |ws|
  {
    if n == 0 then 0 else GroupBytes(ws, n - 1) + BytesOf(ws[n - 1])
  }

  /** The operations of the first `n` writers, in their order. */
  function GroupOps(ws: seq<Writer>, n: nat): (ops: seq<Op>)
    requires n <= |ws|
  {
    if n == 0 then [] else GroupOps(ws, n - 1) + OpsOf(ws[n - 1])
  }

  /** A small leader keeps its group small. */
  function MaxSize(first: Writer): (n: nat)
  {
    if BytesOf(first) <= 0x2_0000 then BytesOf(first) + 0x2_0000 else 0x10_0000
  }

  /** May the writer at position `n` join the ones before it? */
  predicate Joins(ws: seq<Writer>, n: nat)
    requires 0 < n < |ws|
  {
    && (ws[n].sync ==> ws[0].sync)
    && (ws[n].batch.Some? ==> GroupBytes(ws, n + 1) <= MaxSize(ws[0]))
  }

  /** A group: as many writers from the front as may join one after the other. */
  ghost predicate IsGroup(ws: seq<Writer>, n: nat)
  {
    && 0 < n <= |ws|
    && (forall i :: 1 <= i < n ==> Joins(ws, i))
    && (n < |ws| ==> !Joins(ws, n))
  }

  /** BuildBatchGroup: the operations to write and the position of the last writer taken. */
  method BuildBatchGroup(ws: seq<Writer>) returns (updates: seq<Op>, last: nat)
    requires |ws| > 0 && ws[0].batch.Some?
    ensures IsGroup(ws, last + 1) && updates == GroupOps(ws, last + 1)
  {
    var first := ws[0];
    updates := first.batch.value.ops;
    var size := first.batch.value.bytes;
    var maxSize := 0x10_0000;
    if size <= 0x2_0000 {
      maxSize := size + 0x2_0000;
    }
    last := 0;
    assert GroupOps(ws, 1) == GroupOps(ws, 0) + OpsOf(ws[0]);
    assert GroupBytes(ws, 1) == GroupBytes(ws, 0) + BytesOf(ws[0]);
    for iter := 1 to |ws|
      invariant last == iter - 1 && updates == GroupOps(ws, iter) && size == GroupBytes(ws, iter)
      invariant forall i :: 1 <= i < iter ==> Joins(ws, i)
    {
      var w := ws[iter];
      if w.sync && !first.sync {
        break;
      }
      if w.batch.Some? {
        size := size + w.batch.value.bytes;
        if size > maxSize {
          break;
        }
        updates := updates + w.batch.value.ops;
      }
      last := iter;
    }
  }

  // ---------------------------------------------------------------------------
  // The queue as a machine

  /** How far the leader has got. */
  datatype Stage = Building | Logged | Synced | Inserted | Failed | SyncFailed

  /** What the leader is writing: for how many writers, whether it was given sequence numbers, and how far it is. */
  datatype Group = Group(size: nat, granted: bool, ops: seq<Op>, synced: bool, stage: Stage)

  /** A writer that has returned: the result, the numbers its operations got, whether the log was synced for it. */
  datatype Ack = Ack(writer: Writer, ok: bool, first: nat, ops: seq<Op>, synced: bool)

  /** A log record: the number of its first operation, and its operations. */
  datatype Record = Record(first: nat, ops: seq<Op>)

  datatype State = State(
    // every thread that ever called Write, in the order in which it entered the queue
    arrived: seq<Writer>,
    queue: seq<Writer>,
    active: Option<Group>,
    lastSequence: nat,
    log: seq<Record>,
    // what the memtables hold under number 1, 2, ..
    slots: seq<Option<Op>>,
    acks: seq<Ack>,
    // a failed sync leaves the log in doubt: nothing is written from then on
    backgroundError: bool
  )

  datatype Step =
    | Arrive(batch: Option<Batch>, sync: bool)
    | Lead(room: bool, size: nat)
    | Append(appended: bool)
    | Sync(done: bool)
    | Insert
    | Finish

  const EMPTY := State([], [], None, 0, [], [], [], false)

  ghost predicate Enabled(s: State, a: Step)
  {
    match a
    case Arrive(_, _) => true
    case Lead(room, n) =>
      && s.queue != [] && s.active.None? && (s.backgroundError ==> !room)
      && if room && s.queue[0].batch.Some? then IsGroup(s.queue, n) else n == 1
    case Append(_) => s.active.Some? && s.active.value.stage.Building?
    case Sync(_) => s.active.Some? && s.active.value.stage.Logged? && s.queue != [] && s.queue[0].sync
    case Insert => s.active.Some? && s.queue != []
        && s.active.value.stage == (if s.queue[0].sync then Synced else Logged)
    case Finish => s.active.Some? && s.active.value.stage in {Inserted, Failed, SyncFailed}
                   && s.active.value.size <= |s.queue|
  }

  function Filled(ops: seq<Op>): (r: seq<Option<Op>>)
    ensures |r| == |ops| && forall i :: 0 <= i < |ops| ==> r[i] == Some(ops[i])
  {
    seq(|ops|, i requires 0 <= i < |ops| => Some(ops[i]))
  }

  function Empty(n: nat): (r: seq<Option<Op>>)
    ensures |r| == n && forall i :: 0 <= i < n ==> r[i] == None
  {
    seq(n, _ => None)
  }

  /** What writer `i` of the group returns with. */
  function AckOf(ws: seq<Writer>, i: nat, g: Group, first: nat): (a: Ack)
    requires i < |ws|
  {
    if g.granted then Ack(ws[i], g.stage.Inserted?, first + |GroupOps(ws, i)|, OpsOf(ws[i]), g.synced)
    else Ack(ws[i], g.stage.Inserted?, first, [], false)
  }

  /** The loop that pops the writers of the group off the queue, up to the last one. */
  method PopGroup(queue: seq<Writer>, g: Group, first: nat) returns (rest: seq<Writer>, acks: seq<Ack>)
    requires 0 < g.size <= |queue|
    ensures rest == queue[g.size..]
    ensures |acks| == g.size && forall i :: 0 <= i < g.size ==> acks[i] == AckOf(queue, i, g, first)
  {
    rest, acks := queue, [];
    while true
      invariant |acks| < g.size && rest == queue[|acks|..]
      invariant forall i :: 0 <= i < |acks| ==> acks[i] == AckOf(queue, i, g, first)
      decreases g.size - |acks|
    {
      var last := |acks| == g.size - 1;
      acks := acks + [AckOf(queue, |acks|, g, first)];
      rest := rest[1..];
      if last {
        break;
      }
    }
  }

  function Acked(ws: seq<Writer>, g: Group, first: nat): (acks: seq<Ack>)
    requires g.size <= |ws|
    ensures |acks| == g.size && forall i :: 0 <= i < g.size ==> acks[i] == AckOf(ws, i, g, first)
  {
    seq(g.size, i requires 0 <= i < g.size => AckOf(ws, i, g, first))
  }

  function Next(s: State, a: Step): (s': State)
    requires Enabled(s, a)
  {
    match a
    case Arrive(batch, sync) =>
      var w := Writer(|s.arrived|, batch, sync);
      s.(arrived := s.arrived + [w], queue := s.queue + [w])
    case Lead(room, n) =>
      if !room then s.(active := Some(Group(1, false, [], false, Failed)))
      else if s.queue[0].batch.None? then s.(active := Some(Group(1, false, [], false, Inserted)))
      else s.(active := Some(Group(n, true, GroupOps(s.queue, n), false, Building)))
    case Append(ok) =>
      var g := s.active.value;
      if ok then s.(active := Some(g.(stage := Logged)), log := s.log + [Record(s.lastSequence + 1, g.ops)])
      else s.(active := Some(g.(stage := Failed)))
    case Sync(ok) => s.(active := Some(s.active.value.(stage := if ok then Synced else SyncFailed, synced := ok)))
    case Insert =>
      var g := s.active.value;
      s.(active := Some(g.(stage := Inserted)), slots := s.slots + Filled(g.ops))
    case Finish =>
      // The numbers are used up even if the group failed.
      var g := s.active.value;
      s.(active := None, queue := s.queue[g.size..], lastSequence := s.lastSequence + |g.ops|,
         slots := if g.stage.Inserted? then s.slots else s.slots + Empty(|g.ops|),
         acks := s.acks + Acked(s.queue, g, s.lastSequence + 1),
         backgroundError := s.backgroundError || g.stage.SyncFailed?)
  }

  // ---------------------------------------------------------------------------
  // The invariant

  function Writers(acks: seq<Ack>): (ws: seq<Writer>)
    ensures |ws| == |acks| && forall i :: 0 <= i < |acks| ==> ws[i] == acks[i].writer
  {
    seq(|acks|, i requires 0 <= i < |acks| => acks[i].writer)
  }

  /** How many numbers the first `n` writers got. */
  function Total(acks: seq<Ack>, n: nat): (t: nat)
    requires n <= |acks|
  {
    if n == 0 then 0 else Total(acks, n - 1) + |acks[n - 1].ops|
  }

  /** The operations of `a` are held under its numbers, or nothing is, according to the result. */
  ghost predicate Holds(slots: seq<Option<Op>>, a: Ack)
  {
    && 1 <= a.first && a.first - 1 + |a.ops| <= |slots|
    && slots[a.first - 1..a.first - 1 + |a.ops|] == if a.ok then Filled(a.ops) else Empty(|a.ops|)
  }

  /** Some record of the log holds the operations of `a` under its numbers. */
  ghost predicate InLog(log: seq<Record>, a: Ack)
  {
    exists r :: r in log && RecordHolds(r, a)
  }

  ghost predicate RecordHolds(r: Record, a: Ack)
  {
    && r.first <= a.first && a.first + |a.ops| <= r.first + |r.ops|
    && r.ops[a.first - r.first..a.first - r.first + |a.ops|] == a.ops
  }

  /** What a returned writer may rely on. */
  ghost predicate Kept(s: State, a: Ack)
  {
    && Holds(s.slots, a)
    && (a.ok && a.writer.batch.Some? ==> a.ops == OpsOf(a.writer) && InLog(s.log, a))
    && (a.ok && a.writer.batch.Some? && a.writer.sync ==> a.synced)
  }

  ghost predicate GroupFits(s: State)
  {
    s.active.Some? ==>
      var g := s.active.value;
      && 0 < g.size <= |s.queue|
      && (g.granted ==> s.queue[0].batch.Some? && g.ops == GroupOps(s.queue, g.size))
      && (g.granted ==> forall i :: 0 <= i < g.size && s.queue[i].sync ==> s.queue[0].sync)
      && (!g.granted ==> g.size == 1 && g.ops == []
                         && (g.stage.Failed? || (g.stage.Inserted? && s.queue[0].batch.None?)))
      && (g.granted && g.stage in {Logged, Synced, Inserted} ==> Record(s.lastSequence + 1, g.ops) in s.log)
      && (g.granted && g.stage in {Synced, Inserted} && s.queue[0].sync ==> g.synced)
      && (g.stage in {Synced, SyncFailed} ==> s.queue[0].sync)
  }

  ghost predicate Slots(s: State)
  {
    var n := s.lastSequence;
    var writing := s.active.Some? && s.active.value.stage.Inserted?;
    && |s.slots| == n + (if writing then |s.active.value.ops| else 0)
    && (writing ==> s.slots[n..] == Filled(s.active.value.ops))
  }

  ghost predicate Served(s: State)
  {
    && s.arrived == Writers(s.acks) + s.queue
    && (forall i :: 0 <= i < |s.arrived| ==> s.arrived[i].id == i)
    && (forall i :: 0 <= i < |s.acks| ==> s.acks[i].first == Total(s.acks, i) + 1)
    && s.lastSequence == Total(s.acks, |s.acks|)
  }

  ghost predicate Inv(s: State)
  {
    && Served(s) && Slots(s) && GroupFits(s)
    && forall i :: 0 <= i < |s.acks| ==> Kept(s, s.acks[i])
  }

  // ---------------------------------------------------------------------------
  // Steps keep it

  lemma {:induction false} GroupOpsPrefix(ws: seq<Writer>, more: seq<Writer>, n: nat)
    requires n <= |ws|
    ensures GroupOps(ws + more, n) == GroupOps(ws, n)
  {
    if n > 0 {
      GroupOpsPrefix(ws, more, n - 1);
    }
  }

  lemma {:induction false} GroupOpsPart(ws: seq<Writer>, i: nat, n: nat)
    requires i < n <= |ws|
    ensures |GroupOps(ws, i)| + |OpsOf(ws[i])| <= |GroupOps(ws, n)|
    ensures GroupOps(ws, n)[|GroupOps(ws, i)|..|GroupOps(ws, i)| + |OpsOf(ws[i])|] == OpsOf(ws[i])
  {
    hide OpsOf;
    if i < n - 1 {
      GroupOpsPart(ws, i, n - 1);
    }
  }

  lemma {:induction false} TotalPrefix(acks: seq<Ack>, more: seq<Ack>, n: nat)
    requires n <= |acks|
    ensures Total(acks + more, n) == Total(acks, n)
  {
    if n > 0 {
      TotalPrefix(acks, more, n - 1);
    }
  }

  /** The numbers of the group's writers follow one another without gaps. */
  lemma {:induction false} TotalOfGroup(acks: seq<Ack>, ws: seq<Writer>, g: Group, more: seq<Ack>, first: nat, n: nat)
    requires n <= g.size <= |ws| && |more| == g.size
    requires forall i :: 0 <= i < g.size ==> more[i] == AckOf(ws, i, g, first)
    ensures Total(acks + more, |acks| + n) == Total(acks, |acks|) + (if g.granted then |GroupOps(ws, n)| else 0)
  {
    if n == 0 {
      TotalPrefix(acks, more, |acks|);
    } else {
      TotalOfGroup(acks, ws, g, more, first, n - 1);
      assert (acks + more)[|acks| + n - 1] == more[n - 1] == AckOf(ws, n - 1, g, first);
    }
  }

  lemma ArriveKeeps(s: State, batch: Option<Batch>, sync: bool)
    requires Inv(s)
    ensures Inv(Next(s, Arrive(batch, sync)))
  {
    hide Total, Kept, GroupOps;
    var s' := Next(s, Arrive(batch, sync));
    ArriveGroup(s, batch, sync);
    forall i | 0 <= i < |s'.acks| ensures Kept(s', s'.acks[i]) {
      KeptLater(s, s', s.acks[i]);
    }
  }

  lemma ArriveGroup(s: State, batch: Option<Batch>, sync: bool)
    requires GroupFits(s)
    ensures GroupFits(Next(s, Arrive(batch, sync)))
  {
    if s.active.Some? {
      GroupOpsPrefix(s.queue, [Writer(|s.arrived|, batch, sync)], s.active.value.size);
    }
  }

  lemma HeldLater(slots: seq<Option<Op>>, slots': seq<Option<Op>>, a: Ack)
    requires Holds(slots, a) && slots <= slots'
    ensures Holds(slots', a)
  {
    var lo, hi := a.first - 1, a.first - 1 + |a.ops|;
    assert slots'[lo..hi] == slots[lo..hi] by {
      assert slots'[..|slots|] == slots;
    }
  }

  lemma KeptLater(s: State, s': State, a: Ack)
    requires Kept(s, a) && s.slots <= s'.slots && s.log <= s'.log
    ensures Kept(s', a)
  {
    HeldLater(s.slots, s'.slots, a);
    if a.ok && a.writer.batch.Some? {
      var r :| r in s.log && RecordHolds(r, a);
      assert r in s'.log;
    }
  }

  lemma LeadKeeps(s: State, room: bool, n: nat)
    requires Inv(s) && Enabled(s, Lead(room, n))
    ensures Inv(Next(s, Lead(room, n)))
  {
    hide Total, Holds, InLog;
    var s' := Next(s, Lead(room, n));
    if room && s.queue[0].batch.Some? {
      forall i | 0 <= i < n && s.queue[i].sync ensures s.queue[0].sync {
        assert i > 0 ==> Joins(s.queue, i);
      }
    }
    forall i | 0 <= i < |s'.acks| ensures Kept(s', s'.acks[i]) {
      KeptLater(s, s', s.acks[i]);
    }
  }

  lemma WriteKeeps(s: State, a: Step)
    requires Inv(s) && Enabled(s, a) && (a.Append? || a.Sync? || a.Insert?)
    ensures Inv(Next(s, a))
  {
    hide Total, Holds, InLog, GroupOps;
    var s' := Next(s, a);
    forall i | 0 <= i < |s'.acks| ensures Kept(s', s'.acks[i]) {
      KeptLater(s, s', s.acks[i]);
    }
  }

  /** A writer of a finished group keeps what it was promised. */
  lemma NewAckKept(s: State, i: nat)
    requires Slots(s) && GroupFits(s) && Enabled(s, Finish) && i < s.active.value.size
    ensures Kept(Next(s, Finish), AckOf(s.queue, i, s.active.value, s.lastSequence + 1))
  {
    hide GroupOps;
    var g, s' := s.active.value, Next(s, Finish);
    var a := AckOf(s.queue, i, g, s.lastSequence + 1);
    if g.granted {
      var n := |GroupOps(s.queue, i)|;
      GroupOpsPart(s.queue, i, g.size);
      PartHeld(s'.slots, g.ops, s.lastSequence, n, g.stage.Inserted?, a);
      if a.ok {
        assert RecordHolds(Record(s.lastSequence + 1, g.ops), a);
      }
    }
  }

  /** The slots of one writer inside the slots of its group. */
  lemma PartHeld(slots: seq<Option<Op>>, ops: seq<Op>, base: nat, n: nat, ok: bool, a: Ack)
    requires base + |ops| == |slots| && n + |a.ops| <= |ops| && ops[n..n + |a.ops|] == a.ops
    requires slots[base..] == if ok then Filled(ops) else Empty(|ops|)
    requires a.ok == ok && a.first == base + 1 + n
    ensures Holds(slots, a)
  {
    var lo := base + n;
    assert lo + |a.ops| <= |slots|;
    var part, want := slots[lo..lo + |a.ops|], if ok then Filled(a.ops) else Empty(|a.ops|);
    forall j | 0 <= j < |a.ops| ensures part[j] == want[j] {
      assert slots[base..][n + j] == part[j];
      assert ops[n..n + |a.ops|][j] == ops[n + j];
    }
  }

  lemma FinishServes(s: State)
    requires Served(s) && GroupFits(s) && Enabled(s, Finish)
    ensures Served(Next(s, Finish))
  {
    hide Total, GroupOps, Acked;
    var g, s' := s.active.value, Next(s, Finish);
    var more := Acked(s.queue, g, s.lastSequence + 1);
    WritersMove(s.acks, s.queue, g, more);
    forall i | 0 <= i < |s'.acks| ensures s'.acks[i].first == Total(s'.acks, i) + 1 {
      if i < |s.acks| {
        TotalPrefix(s.acks, more, i);
      } else {
        TotalOfGroup(s.acks, s.queue, g, more, s.lastSequence + 1, i - |s.acks|);
        assert s'.acks[i] == more[i - |s.acks|];
      }
    }
    TotalOfGroup(s.acks, s.queue, g, more, s.lastSequence + 1, g.size);
  }

  lemma WritersMove(acks: seq<Ack>, queue: seq<Writer>, g: Group, more: seq<Ack>)
    requires g.size == |more| <= |queue| && forall i :: 0 <= i < g.size ==> more[i].writer == queue[i]
    ensures Writers(acks + more) + queue[g.size..] == Writers(acks) + queue
  {
    var a, b := Writers(acks + more) + queue[g.size..], Writers(acks) + queue;
    assert |a| == |b|;
    forall i | 0 <= i < |a| ensures a[i] == b[i] {
      if i < |acks| {
      } else if i < |acks| + g.size {
        assert (acks + more)[i] == more[i - |acks|];
      }
    }
  }

  lemma FinishKeeps(s: State)
    requires Inv(s) && Enabled(s, Finish)
    ensures Inv(Next(s, Finish))
  {
    hide Total, Holds, InLog, GroupOps, Kept, Served;
    var s' := Next(s, Finish);
    FinishServes(s);
    forall i | 0 <= i < |s'.acks| ensures Kept(s', s'.acks[i]) {
      if i < |s.acks| {
        KeptLater(s, s', s.acks[i]);
      } else {
        NewAckKept(s, i - |s.acks|);
      }
    }
  }

  lemma StepKeeps(s: State, a: Step)
    requires Inv(s) && Enabled(s, a)
    ensures Inv(Next(s, a))
  {
    hide *;
    match a
    case Arrive(batch, sync) => ArriveKeeps(s, batch, sync);
    case Lead(room, n) => LeadKeeps(s, room, n);
    case Append(_) => WriteKeeps(s, a);
    case Sync(_) => WriteKeeps(s, a);
    case Insert => WriteKeeps(s, a);
    case Finish => FinishKeeps(s);
  }

  // ---------------------------------------------------------------------------
  // Runs

  ghost predicate StepTaken(s: State, a: Step, s': State)
  {
    Enabled(s, a) && s' == Next(s, a)
  }

  ghost predicate Run(states: seq<State>, steps: seq<Step>)
  {
    && |states| == |steps| + 1 && states[0] == EMPTY
    && forall i :: 0 <= i < |steps| ==> StepTaken(states[i], steps[i], states[i + 1])
  }

  lemma {:induction false} RunKeeps(states: seq<State>, steps: seq<Step>, i: nat)
    requires Run(states, steps) && i < |states|
    ensures Inv(states[i])
  {
    hide Enabled, Next, Inv;
    if i == 0 {
      EmptyKeeps();
    } else {
      RunKeeps(states, steps, i - 1);
      assert StepTaken(states[i - 1], steps[i - 1], states[i]);
      StepKeeps(states[i - 1], steps[i - 1]);
    }
  }

  lemma EmptyKeeps()
    ensures Inv(EMPTY)
  {
  }

  /**
   In every interleaving of writers: they return exactly once and in the order they came, numbers are
   handed out without gaps in that order, a successful batch is in the log and in the memtable under its
   numbers, and a successful sync write was synced.
   */
  lemma WritersServedInOrder(states: seq<State>, steps: seq<Step>, i: nat, j: nat)
    requires Run(states, steps) && i < |states| && j < |states[i].acks|
    ensures |states[i].acks| + |states[i].queue| == |states[i].arrived|
    ensures states[i].acks[j].writer == states[i].arrived[j] && states[i].arrived[j].id == j
    ensures states[i].acks[j].first == Total(states[i].acks, j) + 1
    ensures Kept(states[i], states[i].acks[j])
  {
    RunKeeps(states, steps, i);
  }

  lemma {:induction false} AcksGrow(states: seq<State>, steps: seq<Step>, i: nat, k: nat)
    requires Run(states, steps) && i <= k < |states|
    ensures states[i].acks <= states[k].acks
    decreases k
  {
    if i < k {
      AcksGrow(states, steps, i, k - 1);
      assert StepTaken(states[k - 1], steps[k - 1], states[k]);
    }
  }

  lemma {:induction false} TotalMonotone(acks: seq<Ack>, n: nat, m: nat)
    requires n <= m <= |acks|
    ensures Total(acks, n) <= Total(acks, m)
  {
    if n < m {
      TotalMonotone(acks, n, m - 1);
    }
  }

  lemma TotalStep(acks: seq<Ack>, j: nat)
    requires j < |acks|
    ensures Total(acks, j + 1) == Total(acks, j) + |acks[j].ops|
  {
  }

  /** A snapshot taken at any time sees all of a batch or nothing of it. */
  lemma SnapshotsSeeWholeBatches(states: seq<State>, steps: seq<Step>, i: nat, k: nat, j: nat)
    requires Run(states, steps) && i <= k < |states| && j < |states[k].acks|
    ensures var a := states[k].acks[j];
            a.first + |a.ops| <= states[i].lastSequence + 1 || states[i].lastSequence < a.first
  {
    hide Run, Total, Kept, Slots, GroupFits;
    RunKeeps(states, steps, i);
    RunKeeps(states, steps, k);
    AcksGrow(states, steps, i, k);
    var early, now := states[i].acks, states[k].acks;
    assert now == early + now[|early|..];
    TotalPrefix(early, now[|early|..], |early|);
    TotalStep(now, j);
    if j < |early| {
      TotalMonotone(now, j + 1, |early|);
    } else {
      TotalMonotone(now, |early|, j);
    }
  }

  lemma GroupExists(ws: seq<Writer>) returns (n: nat)
    requires |ws| > 0
    ensures IsGroup(ws, n)
  {
    n := 1;
    while n < |ws| && Joins(ws, n)
      invariant 0 < n <= |ws|
      invariant forall i :: 1 <= i < n ==> Joins(ws, i)
    {
      n := n + 1;
    }
  }

  /** As long as a writer waits, somebody can take a step: the queue never gets stuck. */
  lemma SomebodyProceeds(states: seq<State>, steps: seq<Step>, i: nat) returns (a: Step)
    requires Run(states, steps) && i < |states| && states[i].queue != []
    ensures !a.Arrive? && Enabled(states[i], a)
  {
    RunKeeps(states, steps, i);
    hide *;
    a := StepPossible(states[i]);
  }

  lemma StepPossible(s: State) returns (a: Step)
    requires Inv(s) && s.queue != []
    ensures !a.Arrive? && Enabled(s, a)
  {
    hide Kept, Served, Slots, IsGroup, GroupOps;
    if s.active.None? {
      var n := GroupExists(s.queue);
      a := if s.backgroundError then Lead(false, 1) else Lead(true, if s.queue[0].batch.Some? then n else 1);
    } else {
      var stage := s.active.value.stage;
      a := match stage
           case Building => Append(true)
           case Logged => (if s.queue[0].sync then Sync(true) else Insert)
           case Synced => Insert
           case _ => Finish;
    }
  }
}
