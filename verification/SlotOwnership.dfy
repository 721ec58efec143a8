/**
  Interleavings of the C server's handlers over the session table. A SETUP_1 or AUTH_1 worker
  reserves a slot and later activates or abandons it by index; a SETUP_3 or AUTH_3 worker
  finds a slot, copies its record, drops the lock, and later releases it by index. Each step
  is one critical section.
*/
module SlotOwnership {
  import opened Bytes
  import opened SessionTable

  type Worker = nat

  /** Pending records are opaque here: the bytes of the C structures. */
  type Entry = Slot<seq<byte>, seq<byte>>

  datatype Job = Verifying(slot: nat) | Finishing(slot: nat, copy: Entry)

  datatype State = State(slots: seq<Entry>, jobs: map<Worker, Job>)

  datatype Step =
    | Begin(w: Worker)                                // reserve
    | Activate(w: Worker, entry: Entry)        // fill the reserved slot
    | Abandon(w: Worker)                              // the message was refused
    | Find(w: Worker, at: nat)                        // copy the record of an active slot
    | Keep(w: Worker)                                 // refused SETUP_3: the slot stays
    | Finish(w: Worker)                               // release the slot found

  function Init(): (s: State)
    ensures InTable(s)
  {
    State(seq(CAPACITY, _ => Free), map[])
  }

  predicate Active(slot: Entry) {
    slot.Setup? || slot.Auth?
  }

  /** Whether a worker is between finding this slot and releasing it. */
  ghost predicate InFlight(s: State, slot: nat) {
    exists w :: w in s.jobs && s.jobs[w].Finishing? && s.jobs[w].slot == slot
  }

  ghost predicate Enabled(s: State, step: Step) {
    match step
    case Begin(w) => w !in s.jobs && FirstFree(s.slots) < |s.slots|
    case Activate(w, entry) => w in s.jobs && s.jobs[w].Verifying? && Active(entry)
    case Abandon(w) => w in s.jobs && s.jobs[w].Verifying?
    case Find(w, at) => w !in s.jobs && at < |s.slots| && Active(s.slots[at])
    case Keep(w) => w in s.jobs && s.jobs[w].Finishing? && s.jobs[w].copy.Setup?
    case Finish(w) => w in s.jobs && s.jobs[w].Finishing?
  }

  /** At most one finisher in flight per slot. */
  ghost predicate Exclusive(s: State, step: Step) {
    step.Find? ==> !InFlight(s, step.at)
  }

  predicate InTable(s: State) {
    |s.slots| == CAPACITY && forall w | w in s.jobs :: s.jobs[w].slot < CAPACITY
  }

  /** What activation reports: the table accepts it only for a reserved slot. */
  predicate ActivationSucceeds(s: State, w: Worker)
    requires InTable(s) && w in s.jobs
  {
    s.slots[s.jobs[w].slot].Reserved?
  }

  function Next(s: State, step: Step): State
    requires InTable(s)
  {
    match step
    case Begin(w) =>
      var k := FirstFree(s.slots);
      if k == |s.slots| then s else State(s.slots[k := Reserved], s.jobs[w := Verifying(k)])
    case Activate(w, entry) =>
      if w !in s.jobs then s
      // a refused activation releases the slot all the same
      else if ActivationSucceeds(s, w) then State(s.slots[s.jobs[w].slot := entry], s.jobs - {w})
      else State(s.slots[s.jobs[w].slot := Free], s.jobs - {w})
    case Find(w, at) =>
      if at >= |s.slots| then s else State(s.slots, s.jobs[w := Finishing(at, s.slots[at])])
    case Keep(w) => State(s.slots, s.jobs - {w})
    case Abandon(w) => if w !in s.jobs then s else State(s.slots[s.jobs[w].slot := Free], s.jobs - {w})
    case Finish(w) => if w !in s.jobs then s else State(s.slots[s.jobs[w].slot := Free], s.jobs - {w})
  }

  // ---- The invariant ----

  ghost predicate Owned(s: State, w: Worker)
    requires InTable(s) && w in s.jobs
  {
    match s.jobs[w]
    case Verifying(k) => s.slots[k].Reserved?
    case Finishing(k, copy) => Active(copy) && s.slots[k] == copy
  }

  ghost predicate HasVerifier(s: State, k: nat) {
    exists w :: w in s.jobs && s.jobs[w] == Verifying(k)
  }

  /**
    Every worker's slot is still in the state in which the worker left it, no two workers hold
    one slot, and every reserved slot is some worker's.
  */
  ghost predicate Inv(s: State) {
    && InTable(s)
    && (forall w | w in s.jobs :: Owned(s, w))
    && (forall v, w | v in s.jobs && w in s.jobs && s.jobs[v].slot == s.jobs[w].slot :: v == w)
    && (forall k | 0 <= k < CAPACITY && s.slots[k].Reserved? :: HasVerifier(s, k))
  }

  lemma NotHeld(s: State, step: Step, v: Worker)
    requires Inv(s) && Enabled(s, step) && Exclusive(s, step) && v in s.jobs
    ensures step.Begin? ==> s.jobs[v].slot != FirstFree(s.slots)
    ensures step.Find? ==> s.jobs[v].slot != step.at
  {
    assert Owned(s, v);
  }

  lemma OthersKeepTheirSlots(s: State, step: Step, v: Worker)
    requires Inv(s) && Enabled(s, step) && Exclusive(s, step)
    requires v in Next(s, step).jobs
    ensures InTable(Next(s, step)) && Owned(Next(s, step), v)
    ensures forall u | u in Next(s, step).jobs && Next(s, step).jobs[u].slot == Next(s, step).jobs[v].slot :: u == v
  {
    var t := Next(s, step);
    forall u | u in s.jobs
      ensures Owned(s, u)
      ensures step.Begin? ==> s.jobs[u].slot != FirstFree(s.slots)
      ensures step.Find? ==> s.jobs[u].slot != step.at
    {
      NotHeld(s, step, u);
    }
    if v != step.w { assert v in s.jobs && t.jobs[v] == s.jobs[v]; }
    forall u | u in t.jobs && t.jobs[u].slot == t.jobs[v].slot ensures u == v {
      if u != step.w { assert u in s.jobs && t.jobs[u] == s.jobs[u]; }
    }
  }

  lemma ReservedHeld(s: State, step: Step, k: nat)
    requires Inv(s) && Enabled(s, step) && Exclusive(s, step)
    requires k < CAPACITY && |Next(s, step).slots| == CAPACITY && Next(s, step).slots[k].Reserved?
    ensures HasVerifier(Next(s, step), k)
  {
    var t := Next(s, step);
    if step.Begin? && k == FirstFree(s.slots) {
      assert t.jobs[step.w] == Verifying(k);
    } else {
      assert s.slots[k].Reserved?;
      assert HasVerifier(s, k);
      var v :| v in s.jobs && s.jobs[v] == Verifying(k);
      assert Owned(s, v) && (step.w in s.jobs ==> Owned(s, step.w));
      assert t.jobs[v] == Verifying(k);
    }
  }

  lemma InvStep(s: State, step: Step)
    requires Inv(s) && Enabled(s, step) && Exclusive(s, step)
    ensures Inv(Next(s, step))
  {
    var t := Next(s, step);
    assert InTable(t);
    forall v | v in t.jobs
      ensures Owned(t, v) && forall u | u in t.jobs && t.jobs[u].slot == t.jobs[v].slot :: u == v
    {
      OthersKeepTheirSlots(s, step, v);
    }
    forall k | 0 <= k < CAPACITY && t.slots[k].Reserved? ensures HasVerifier(t, k) {
      ReservedHeld(s, step, k);
    }
  }

  // ---- Runs ----

  function Run(s: State, steps: seq<Step>): (t: State)
    requires InTable(s)
    ensures InTable(t)
    decreases steps
  {
    if steps == [] then s
    else
      assert InTable(Next(s, steps[0])) by { NextInTable(s, steps[0]); }
      Run(Next(s, steps[0]), steps[1..])
  }

  lemma NextInTable(s: State, step: Step)
    requires InTable(s)
    ensures InTable(Next(s, step))
  {
  }

  /** Every step of the run is enabled and respects the one-finisher rule when it is taken. */
  ghost predicate Disciplined(s: State, steps: seq<Step>)
    requires InTable(s)
    decreases steps
  {
    steps != [] ==>
      && Enabled(s, steps[0]) && Exclusive(s, steps[0])
      && InTable(Next(s, steps[0])) && Disciplined(Next(s, steps[0]), steps[1..])
  }

  lemma {:induction false} RunKeepsInv(s: State, steps: seq<Step>)
    requires Inv(s) && Disciplined(s, steps)
    ensures Inv(Run(s, steps))
    decreases steps
  {
    if steps != [] {
      InvStep(s, steps[0]);
      RunKeepsInv(Next(s, steps[0]), steps[1..]);
    }
  }

  /**
    In every reachable state with at most one finisher per slot: an activation succeeds, a
    finisher's slot still holds the record it copied, and two workers never share a slot.
  */
  lemma OwnershipOverRuns(steps: seq<Step>)
    requires Disciplined(Init(), steps)
    ensures var t := Run(Init(), steps);
            && (forall w | w in t.jobs && t.jobs[w].Verifying? :: ActivationSucceeds(t, w))
            && (forall w | w in t.jobs && t.jobs[w].Finishing? :: t.slots[t.jobs[w].slot] == t.jobs[w].copy)
            && (forall v, w | v in t.jobs && w in t.jobs && v != w :: t.jobs[v].slot != t.jobs[w].slot)
  {
    var t := Run(Init(), steps);
    assert Inv(Init());
    RunKeepsInv(Init(), steps);
    forall w | w in t.jobs ensures Owned(t, w) {
    }
  }

  /**
    Nobody else touches a worker's slot: over any disciplined run in which worker v takes no
    step, whatever the others reserve, fill and release, its job and its slot stay as they were.
  */
  lemma {:induction false} UntouchedByOthers(s: State, steps: seq<Step>, v: Worker)
    requires Inv(s) && Disciplined(s, steps) && v in s.jobs
    requires forall i | 0 <= i < |steps| :: steps[i].w != v
    ensures var t := Run(s, steps);
            v in t.jobs && t.jobs[v] == s.jobs[v] && t.slots[s.jobs[v].slot] == s.slots[s.jobs[v].slot]
    decreases steps
  {
    if steps != [] {
      var step := steps[0];
      NotHeld(s, step, v);
      InvStep(s, step);
      assert step.w in s.jobs ==> s.jobs[step.w].slot != s.jobs[v].slot;
      UntouchedByOthers(Next(s, step), steps[1..], v);
    }
  }

  // ---- The rule is exactly what activations need ----

  predicate AllActivate(s: State)
    requires InTable(s)
  {
    forall w | w in s.jobs && s.jobs[w].Verifying? :: ActivationSucceeds(s, w)
  }

  /** However the run goes on under the rule, no activation is ever refused. */
  ghost predicate KeepsActivations(s: State)
    requires InTable(s)
  {
    forall steps | Disciplined(s, steps) :: AllActivate(Run(s, steps))
  }

  lemma {:induction false} Bound(ws: set<Worker>) returns (b: Worker)
    ensures forall w | w in ws :: w < b
  {
    b := 0;
    if ws != {} {
      var w :| w in ws;
      var rest := Bound(ws - {w});
      b := if w < rest then rest else w + 1;
      forall x | x in ws ensures x < b {
        if x != w { assert x in ws - {w}; }
      }
    }
  }

  lemma LaterFree(slots: seq<Entry>, k: nat)
    requires k == FirstFree(slots) < |slots|
    ensures FirstFree(slots[k := Reserved]) > k
  {
  }

  /**
    The harm a stale finisher can do. Worker w still means to release slot `at`, which is free:
    fresh workers reserve free slots, lowest first, until one holds `at`, and then w releases it.
  */
  lemma {:induction false} StaleRelease(s: State, at: nat, w: Worker) returns (steps: seq<Step>)
    requires InTable(s) && at < CAPACITY && s.slots[at].Free?
    requires w in s.jobs && s.jobs[w].Finishing? && s.jobs[w].slot == at
    ensures Disciplined(s, steps) && !AllActivate(Run(s, steps))
    decreases at - FirstFree(s.slots)
  {
    var k := FirstFree(s.slots);
    var u := Bound(s.jobs.Keys);
    var t := Next(s, Begin(u));
    NextInTable(s, Begin(u));
    assert Enabled(s, Begin(u)) && t.jobs[u] == Verifying(k);
    LaterFree(s.slots, k);
    if k == at {
      var end := Next(t, Finish(w));
      NextInTable(t, Finish(w));
      assert Enabled(t, Finish(w)) && end.jobs[u] == Verifying(at) && !ActivationSucceeds(end, u);
      RunOne(t, Finish(w));
      steps := [Begin(u)] + [Finish(w)];
      RunCons(s, Begin(u), [Finish(w)]);
    } else {
      var rest := StaleRelease(t, at, w);
      steps := [Begin(u)] + rest;
      RunCons(s, Begin(u), rest);
    }
  }

  lemma RunOne(s: State, step: Step)
    requires InTable(s) && Enabled(s, step) && Exclusive(s, step)
    ensures InTable(Next(s, step)) && Disciplined(s, [step]) && Run(s, [step]) == Next(s, step)
  {
    NextInTable(s, step);
    assert Run(Next(s, step), []) == Next(s, step) && Disciplined(Next(s, step), []);
    assert [step][1..] == [];
  }

  lemma RunCons(s: State, step: Step, rest: seq<Step>)
    requires InTable(s) && InTable(Next(s, step))
    ensures Run(s, [step] + rest) == Run(Next(s, step), rest)
    ensures Enabled(s, step) && Exclusive(s, step) && Disciplined(Next(s, step), rest) ==> Disciplined(s, [step] + rest)
  {
    assert ([step] + rest)[1..] == rest;
  }

  /** A second finisher on a slot in flight can always go on to cost some worker its activation. */
  lemma SecondFinisherHarms(s: State, step: Step) returns (steps: seq<Step>)
    requires Inv(s) && Enabled(s, step) && !Exclusive(s, step)
    ensures InTable(Next(s, step)) && Disciplined(Next(s, step), steps) && !AllActivate(Run(Next(s, step), steps))
  {
    var at, w := step.at, step.w;
    var v :| v in s.jobs && s.jobs[v].Finishing? && s.jobs[v].slot == at;
    var t := Next(s, step);
    NextInTable(s, step);
    assert v != w && t.jobs[v] == s.jobs[v] && t.jobs[w].slot == at;
    var freed := Next(t, Finish(v));
    NextInTable(t, Finish(v));
    assert Enabled(t, Finish(v)) && freed.slots[at].Free? && freed.jobs[w] == t.jobs[w];
    var rest := StaleRelease(freed, at, w);
    RunCons(t, Finish(v), rest);
    steps := [Finish(v)] + rest;
  }

  /**
    The one-finisher rule is exactly what the C server needs: after a step from an owned state,
    every continuation that respects the rule keeps every activation working if and only if the
    step itself respected it.
  */
  lemma RuleIsExact(s: State, step: Step)
    requires Inv(s) && Enabled(s, step)
    ensures InTable(Next(s, step))
    ensures KeepsActivations(Next(s, step)) <==> Exclusive(s, step)
  {
    NextInTable(s, step);
    var t := Next(s, step);
    if Exclusive(s, step) {
      InvStep(s, step);
      forall steps | Disciplined(t, steps) ensures AllActivate(Run(t, steps)) {
        RunKeepsInv(t, steps);
        InvActivates(Run(t, steps));
      }
    } else {
      var steps := SecondFinisherHarms(s, step);
    }
  }

  lemma InvActivates(s: State)
    requires Inv(s)
    ensures AllActivate(s)
  {
    forall w | w in s.jobs && s.jobs[w].Verifying? ensures ActivationSucceeds(s, w) {
      assert Owned(s, w);
    }
  }

  /** Two finishers found slot 0; the second release hits a worker that has reserved it since. */
  function Clash(entry: Entry): seq<Step> {
    [Begin(1), Activate(1, entry), Find(2, 0), Find(3, 0), Finish(2), Begin(4), Finish(3)]
  }

  lemma {:induction false} RunSnoc(s: State, steps: seq<Step>, last: Step)
    requires InTable(s)
    ensures Run(s, steps + [last]) == Next(Run(s, steps), last)
    decreases steps
  {
    hide Next;
    NextInTable(s, last);
    if steps == [] {
      assert steps + [last] == [last];
      assert Run(Next(s, last), []) == Next(s, last);
    } else {
      NextInTable(s, steps[0]);
      assert (steps + [last])[1..] == steps[1..] + [last];
      RunSnoc(Next(s, steps[0]), steps[1..], last);
    }
  }

  /** The table with one entry in slot 0. */
  function Only(entry: Entry): (slots: seq<Entry>)
    ensures |slots| == CAPACITY
    ensures entry.Free? ==> FirstFree(slots) == 0
    ensures slots[0] == entry
  {
    Init().slots[0 := entry]
  }

  lemma ClashRun(entry: Entry, n: nat)
    requires Active(entry) && n <= 7
    ensures Run(Init(), Clash(entry)[..n]) == ClashAt(entry, n)
  {
    var c := Clash(entry);
    if n == 0 {
      assert Init().slots == Only(Free);
    } else {
      ClashRun(entry, n - 1);
      assert c[..n] == c[..n - 1] + [c[n - 1]];
      RunSnoc(Init(), c[..n - 1], c[n - 1]);
      ClashStep(entry, n - 1);
    }
  }

  lemma OnlyReplaced(entry: Entry, by': Entry)
    ensures Only(entry)[0 := by'] == Only(by')
  {
  }

  /** The states that run passes through. */
  function ClashAt(entry: Entry, n: nat): (s: State)
    ensures InTable(s)
  {
    var f := Finishing(0, entry);
    match n
    case 0 => State(Only(Free), map[])
    case 1 => State(Only(Reserved), map[1 := Verifying(0)])
    case 2 => State(Only(entry), map[])
    case 3 => State(Only(entry), map[2 := f])
    case 4 => State(Only(entry), map[2 := f, 3 := f])
    case 5 => State(Only(Free), map[3 := f])
    case 6 => State(Only(Reserved), map[3 := f, 4 := Verifying(0)])
    case _ => State(Only(Free), map[4 := Verifying(0)])
  }

  lemma ClashStep(entry: Entry, n: nat)
    requires Active(entry) && n < 7
    ensures Next(ClashAt(entry, n), Clash(entry)[n]) == ClashAt(entry, n + 1)
  {
    hide FirstFree, Only;
    OnlyReplaced(Free, Reserved);
    OnlyReplaced(Reserved, entry);
    OnlyReplaced(entry, Free);
    OnlyReplaced(Reserved, Free);
    var s, t := Next(ClashAt(entry, n), Clash(entry)[n]), ClashAt(entry, n + 1);
    assert s.jobs == t.jobs;
  }

  /**
    Without the rule an accepted message can lose its session: worker 4 still verifies in slot
    0, which the stale release of worker 3 has freed, and its activation will be refused.
  */
  lemma StaleReleaseLosesSession(entry: Entry)
    requires Active(entry)
    ensures var t := Run(Init(), Clash(entry));
            4 in t.jobs && t.jobs[4] == Verifying(0) && !ActivationSucceeds(t, 4)
  {
    ClashRun(entry, 7);
    assert Clash(entry)[..7] == Clash(entry);
  }
}
