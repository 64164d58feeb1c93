/**
 The writers' queue and the database are one system: what the queue does to the log, the
 memtable and the last sequence number are steps of the database (db/db_impl.cc: Write).
 */
module GroupCommit {
  import opened DbFormat
  import opened Views
  import D = Database
  import DatabaseSafety
  import Durability
  import Q = WriteQueue

  // ---------------------------------------------------------------------------
  // Several steps of the database

  /** Taking the steps in order leads from `d` to `d'`. */
  ghost predicate Leads(d: D.State, path: seq<D.Step>, d': D.State)
    decreases |path|
  {
    if path == [] then d' == d
    else |d.mems| == |d.starts| > 0 && D.Enabled(d, path[0]) && Leads(D.Next(d, path[0]), path[1..], d')
  }

  lemma OneStep(d: D.State, a: D.Step)
    requires |d.mems| == |d.starts| > 0 && D.Enabled(d, a)
    ensures Leads(d, [a], D.Next(d, a))
  {
    assert [a][1..] == [];
  }

  lemma {:induction false} LeadsSafely(d: D.State, path: seq<D.Step>, d': D.State)
    requires Durability.Safe(d) && Leads(d, path, d')
    ensures Durability.Safe(d')
    decreases |path|
  {
    hide Durability.Safe, D.Enabled, D.Next;
    if path != [] {
      Durability.StepSafe(d, path[0]);
      LeadsSafely(D.Next(d, path[0]), path[1..], d');
    }
  }

  /** Inserting the logged operations one after the other. */
  function Inserts(n: nat): (path: seq<D.Step>)
  {
    if n == 0 then [] else [D.InsertOne] + Inserts(n - 1)
  }

  // ---------------------------------------------------------------------------
  // How the two states belong together

  /** The operations of the first `n` writers that have returned. */
  function AckedOps(acks: seq<Q.Ack>, n: nat): (ops: seq<Op>)
    requires n <= |acks|
  {
    if n == 0 then [] else AckedOps(acks, n - 1) + acks[n - 1].ops
  }

  /** The operations of the leader's group once they are in the log. */
  function InFlight(q: Q.State): (ops: seq<Op>)
  {
    if q.active.Some? && q.active.value.stage in {Q.Logged, Q.Synced, Q.Inserted} then q.active.value.ops else []
  }

  /** The history is what the returned writers wrote, in their order, and then the group in flight. */
  ghost predicate Linked(q: Q.State, d: D.State)
  {
    && d.history == AckedOps(q.acks, |q.acks|) + InFlight(q)
    && d.lastSequence == q.lastSequence == |AckedOps(q.acks, |q.acks|)|
    && d.inserted == (if q.active.Some? && q.active.value.stage.Inserted? then |d.history| else d.lastSequence)
  }

  /** The writes to the log go well, and there are numbers left for them. */
  ghost predicate GoesWell(q: Q.State, a: Q.Step, d: D.State)
  {
    match a
    case Append(ok) => ok && q.active.Some? && |d.history| + |q.active.value.ops| < MAX_SEQUENCE
    case Sync(ok) => ok
    case _ => true
  }

  /** What the database does when the queue takes a step. */
  function Path(q: Q.State, a: Q.Step): (path: seq<D.Step>)
    requires a.Append? || a.Insert? ==> q.active.Some?
  {
    match a
    case Append(_) => [D.LogGroup(q.active.value.ops)]
    case Insert => Inserts(|q.active.value.ops|)
    case Finish => [D.Publish]
    case _ => []
  }

  lemma {:induction false} AckedPrefix(acks: seq<Q.Ack>, more: seq<Q.Ack>, n: nat)
    requires n <= |acks|
    ensures AckedOps(acks + more, n) == AckedOps(acks, n)
  {
    if n > 0 {
      AckedPrefix(acks, more, n - 1);
    }
  }

  lemma {:induction false} AckedGroup(acks: seq<Q.Ack>, ws: seq<Q.Writer>, g: Q.Group, more: seq<Q.Ack>, first: nat,
                                      n: nat)
    requires n <= g.size <= |ws| && |more| == g.size && g.granted
    requires forall i :: 0 <= i < g.size ==> more[i] == Q.AckOf(ws, i, g, first)
    ensures AckedOps(acks + more, |acks| + n) == AckedOps(acks, |acks|) + Q.GroupOps(ws, n)
  {
    if n == 0 {
      AckedPrefix(acks, more, |acks|);
      assert Q.GroupOps(ws, 0) == [];
    } else {
      AckedGroup(acks, ws, g, more, first, n - 1);
      assert (acks + more)[|acks| + n - 1] == more[n - 1] == Q.AckOf(ws, n - 1, g, first);
      var a, b, c := AckedOps(acks, |acks|), Q.GroupOps(ws, n - 1), Q.OpsOf(ws[n - 1]);
      assert (a + b) + c == a + (b + c);
    }
  }

  // ---------------------------------------------------------------------------
  // Every step of the queue

  /** Database steps that insert all of the group. */
  lemma {:induction false} InsertsLead(d: D.State, n: nat) returns (d': D.State)
    requires |d.mems| == |d.starts| > 0 && d.inserted + n <= |d.history|
    ensures Leads(d, Inserts(n), d')
    ensures d'.history == d.history && d'.lastSequence == d.lastSequence && d'.inserted == d.inserted + n
            && d'.failed == d.failed
    decreases n
  {
    d' := d;
    if n > 0 {
      assert D.Enabled(d, D.InsertOne);
      var d1 := D.Next(d, D.InsertOne);
      d' := InsertsLead(d1, n - 1);
      assert Inserts(n)[1..] == Inserts(n - 1);
    }
  }

  lemma AppendLeads(q: Q.State, d: D.State)
    requires Linked(q, d) && Q.Enabled(q, Q.Append(true)) && GoesWell(q, Q.Append(true), d) && Durability.Safe(d)
    ensures |d.mems| == |d.starts| > 0 && D.Enabled(d, D.LogGroup(q.active.value.ops))
    ensures Linked(Q.Next(q, Q.Append(true)), D.Next(d, D.LogGroup(q.active.value.ops)))
  {
    hide DatabaseSafety.MemTables, DatabaseSafety.Readers, DatabaseSafety.Background, Durability.Tables,
        Durability.Descriptor,
         Durability.Staged, D.Logged, D.LogTail, AckedOps;
    assert InFlight(q) == [];
  }

  lemma FinishLinks(q: Q.State, d: D.State)
    requires Q.Inv(q) && Linked(q, d) && Q.Enabled(q, Q.Finish) && q.active.value.stage.Inserted?
    ensures AckedOps(Q.Next(q, Q.Finish).acks, |Q.Next(q, Q.Finish).acks|) == d.history
  {
    hide Q.Served, Q.Slots, Q.Kept, Q.GroupOps, AckedOps;
    var g := q.active.value;
    var more := Q.Acked(q.queue, g, q.lastSequence + 1);
    if g.granted {
      AckedGroup(q.acks, q.queue, g, more, q.lastSequence + 1, g.size);
    } else {
      OneEmptyAck(q.acks, more);
    }
  }

  lemma OneEmptyAck(acks: seq<Q.Ack>, more: seq<Q.Ack>)
    requires |more| == 1 && more[0].ops == []
    ensures AckedOps(acks + more, |acks + more|) == AckedOps(acks, |acks|) + []
  {
    AckedPrefix(acks, more, |acks|);
    assert (acks + more)[|acks|] == more[0];
  }

  /** What the queue reports as written was written: without failures a group that ends was inserted. */
  ghost predicate NoFailure(q: Q.State)
  {
    q.active.Some? ==> !q.active.value.stage.SyncFailed? && (q.active.value.stage.Failed? ==> !q.active.value.granted)
  }

  lemma StepNoFailure(q: Q.State, a: Q.Step, d: D.State)
    requires NoFailure(q) && Q.Enabled(q, a) && GoesWell(q, a, d)
    ensures NoFailure(Q.Next(q, a))
  {
    hide Q.IsGroup;
  }

  lemma FinishLeads(q: Q.State, d: D.State)
    requires Q.Inv(q) && NoFailure(q) && Linked(q, d) && Q.Enabled(q, Q.Finish) && Durability.Safe(d)
    ensures |d.mems| == |d.starts| > 0 && D.Enabled(d, D.Publish)
    ensures Linked(Q.Next(q, Q.Finish), D.Next(d, D.Publish))
  {
    hide DatabaseSafety.MemTables, DatabaseSafety.Readers, DatabaseSafety.Background, Durability.Tables,
        Durability.Disk,
         AckedOps, Q.GroupOps, Q.Kept, Q.Served, Q.Slots;
    if q.active.value.stage.Inserted? {
      FinishLinks(q, d);
      assert q.lastSequence + |q.active.value.ops| == |d.history|;
    } else {
      OneEmptyAck(q.acks, Q.Acked(q.queue, q.active.value, q.lastSequence + 1));
      assert d.history == AckedOps(q.acks, |q.acks|);
    }
  }

  /** Every step of the queue is a sequence of steps of the database, and the states stay linked. */
  lemma QueueStepLeads(q: Q.State, a: Q.Step, d: D.State) returns (d': D.State)
    requires Q.Inv(q) && NoFailure(q) && Linked(q, d) && Durability.Safe(d)
    requires Q.Enabled(q, a) && GoesWell(q, a, d)
    ensures Leads(d, Path(q, a), d') && Linked(Q.Next(q, a), d')
  {
    hide Durability.Safe, Q.Inv, AckedOps, Q.IsGroup, D.Enabled, D.Next, Q.GroupOps;
    d' := d;
    match a {
      case Append(_) =>
        AppendLeads(q, d);
        OneStep(d, D.LogGroup(q.active.value.ops));
        d' := D.Next(d, D.LogGroup(q.active.value.ops));
      case Insert =>
        Durability.SafeShape(d);
        d' := InsertsLead(d, |q.active.value.ops|);
      case Finish =>
        FinishLeads(q, d);
        OneStep(d, D.Publish);
        d' := D.Next(d, D.Publish);
      case Arrive(_, _) => assert InFlight(Q.Next(q, a)) == InFlight(q);
      case Lead(_, _) => LeadLinks(q, a, d);
      case Sync(_) => assert InFlight(Q.Next(q, a)) == InFlight(q);
    }
  }

  lemma LeadLinks(q: Q.State, a: Q.Step, d: D.State)
    requires Linked(q, d) && Q.Enabled(q, a) && a.Lead?
    ensures Linked(Q.Next(q, a), d)
  {
    hide AckedOps, Q.IsGroup, Q.GroupOps;
    assert InFlight(Q.Next(q, a)) == [] == InFlight(q);
  }

  /** Steps that are not the writers' do not touch what they have written; a crash ends their process. */
  ghost predicate Others(a: D.Step)
  {
    !a.LogGroup? && !a.InsertOne? && !a.Publish? && !a.CrashAndRecover?
  }

  lemma OthersKeepLink(q: Q.State, d: D.State, a: D.Step)
    requires Linked(q, d) && |d.mems| == |d.starts| > 0 && D.Enabled(d, a) && Others(a)
    ensures Linked(q, D.Next(d, a))
  {
    hide AckedOps, InFlight;
  }

  // ---------------------------------------------------------------------------
  // Writers, readers and the background thread together

  datatype Action = Writers(step: Q.Step) | Store(other: D.Step)

  ghost predicate Taken(q: Q.State, d: D.State, a: Action, q': Q.State, d': D.State)
  {
    match a
    case Writers(b) => Q.Enabled(q, b) && GoesWell(q, b, d) && q' == Q.Next(q, b) && Leads(d, Path(q, b), d')
    case Store(b) => Others(b) && |d.mems| == |d.starts| > 0 && D.Enabled(d, b) && q' == q && d' == D.Next(d, b)
  }

  /** A joint run from an empty queue and a new database. */
  ghost predicate Run(qs: seq<Q.State>, ds: seq<D.State>, actions: seq<Action>)
  {
    && |qs| == |ds| == |actions| + 1 && qs[0] == Q.EMPTY && ds[0] == D.INITIAL
    && forall i :: 0 <= i < |actions| ==> Taken(qs[i], ds[i], actions[i], qs[i + 1], ds[i + 1])
  }

  ghost predicate Together(q: Q.State, d: D.State)
  {
    Q.Inv(q) && NoFailure(q) && Linked(q, d) && Durability.Safe(d)
  }

  lemma {:induction false} LeadsOneWay(d: D.State, path: seq<D.Step>, d1: D.State, d2: D.State)
    requires Leads(d, path, d1) && Leads(d, path, d2)
    ensures d1 == d2
    decreases |path|
  {
    hide D.Enabled, D.Next;
    if path != [] {
      LeadsOneWay(D.Next(d, path[0]), path[1..], d1, d2);
    }
  }

  lemma TakenKeeps(q: Q.State, d: D.State, a: Action, q': Q.State, d': D.State)
    requires Together(q, d) && Taken(q, d, a, q', d')
    ensures Together(q', d')
  {
    assert a.Writers? && (a.step.Append? || a.step.Insert?) ==> q.active.Some?;
    hide Durability.Safe, Q.Inv, NoFailure, Linked, GoesWell, Others, Leads, Path, Q.Enabled, Q.Next, D.Enabled, D.Next;
    match a
    case Writers(b) =>
      Q.StepKeeps(q, b);
      StepNoFailure(q, b, d);
      var d1 := QueueStepLeads(q, b, d);
      LeadsOneWay(d, Path(q, b), d1, d');
      LeadsSafely(d, Path(q, b), d');
    case Store(b) =>
      OthersKeepLink(q, d, b);
      Durability.StepSafe(d, b);
  }

  lemma {:induction false} RunTogether(qs: seq<Q.State>, ds: seq<D.State>, actions: seq<Action>, i: nat)
    requires Run(qs, ds, actions) && i < |qs|
    ensures Together(qs[i], ds[i])
  {
    hide Taken, Together;
    if i == 0 {
      StartTogether();
    } else {
      RunTogether(qs, ds, actions, i - 1);
      assert Taken(qs[i - 1], ds[i - 1], actions[i - 1], qs[i], ds[i]);
      TakenKeeps(qs[i - 1], ds[i - 1], actions[i - 1], qs[i], ds[i]);
    }
  }

  lemma StartTogether()
    ensures Together(Q.EMPTY, D.INITIAL)
  {
    Q.EmptyKeeps();
    Durability.InitialSafe();
    hide Durability.Safe, Q.Inv;
  }

  /**
   However writers, readers, flushes and compactions interleave: a read at a live snapshot, or at the
   latest state, is answered from the batches of the writers that have returned, taken in the order in
   which the writers came.
   */
  lemma ReadsSeeReturnedWriters(qs: seq<Q.State>, ds: seq<D.State>, actions: seq<Action>, i: nat, n: nat, k: UserKey)
    requires Run(qs, ds, actions) && i < |qs| && (n in ds[i].snapshots || n == ds[i].lastSequence)
    ensures var q, d := qs[i], ds[i];
            var h := AckedOps(q.acks, |q.acks|);
            && |d.mems| > 0 && (d.hasImm ==> |d.mems| > 1) && n <= |h| == d.lastSequence
            && ValueOf(D.ReadThrough(d, Durability.ReaderAt(d, n), k)) == Read(h, k, n)
  {
    RunTogether(qs, ds, actions, i);
    var q, d := qs[i], ds[i];
    var h := AckedOps(q.acks, |q.acks|);
    hide Run, AckedOps, Q.Inv, NoFailure;
    Durability.SafeServesReads(d, n, k);
    assert Durability.Acknowledged(d) == h by {
      hide Durability.Safe;
    }
  }
}
