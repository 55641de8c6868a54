// The write side of the CH343 driver as a state machine over its steps: writers,
// completions, suspend, resume and shutdown share a pool of write buffers and a list
// of writes delayed until the device is awake.

module Ch343Pool {

  type Payload = seq<int>

  datatype Port = Port(
    writeSize: nat,           // room in one buffer; longer writes are cut short
    use: seq<bool>,           // wb[i].use
    buf: seq<Payload>,        // wb[i].buf[..wb[i].len]
    submitted: set<nat>,      // write URBs the host controller holds
    delayed: seq<nat>,        // the delayed anchor, oldest first
    transmitting: int,
    suspCount: int,
    pmRefs: int,              // asynchronous PM references not yet put back
    present: bool,            // ch343->dev is set
    initialised: bool,        // tty_port_initialized
    closing: bool,            // a shutdown of the port is draining the delayed list
    resuming: bool,           // resume is draining the delayed list under the write lock
    accepted: seq<Payload>,   // history: the writes reported as taken
    tag: seq<nat>,            // history: which accepted write a delayed buffer carries
    sent: seq<nat>,           // history: accepted writes submitted, as indices
    wire: seq<Payload>        // history: payloads submitted, as read from the buffers
  )

  datatype Action =
    | Write(data: Payload, pmStatus: int, submitOk: bool)
    | Complete(slot: nat)
    | Suspend(auto: bool)
    | DrainOne
    | ResumeBegin
    | ResumeOne(submitOk: bool)
    | ResumeEnd
    | Open
    | Close
    | CloseDone
    | Unplug

  /** The buffer the allocation loop finds, or the pool size when all are taken. */
  function FirstFree(use: seq<bool>): (n: nat)
    ensures n <= |use|
    ensures n < |use| ==> !use[n]
    ensures forall i :: 0 <= i < n ==> use[i]
  {
    if use == [] || !use[0] then 0 else 1 + FirstFree(use[1..])
  }

  /** Who may take a step: the write lock, held through a resume, keeps writers,
      completions and suspend out. The drain of the delayed list and the opening and
      closing of the port do not take it, but a closed port is opened again only after its
      shutdown has found the delayed list empty. */
  predicate Enabled(p: Port, a: Action) {
    match a
    case Write(_, _, _) => !p.resuming
    case Complete(slot) => !p.resuming && slot in p.submitted
    case Suspend(_) => !p.resuming
    case DrainOne => p.delayed != []
    case ResumeBegin => !p.resuming && p.suspCount > 0
    case ResumeOne(_) => p.resuming && p.delayed != []
    case ResumeEnd => p.resuming && p.delayed == []
    case Open => !p.initialised && !p.closing
    case Close => p.initialised
    case CloseDone => p.closing && p.delayed == []
    case Unplug => true
  }

  /** Submit buffer `slot`, which carries accepted write `t`. */
  function Submit(p: Port, slot: nat, t: nat): Port
    requires slot < |p.buf|
  {
    p.(submitted := p.submitted + {slot},
       transmitting := p.transmitting + 1,
       sent := p.sent + [t],
       wire := p.wire + [p.buf[slot]])
  }

  /** The part of a write that one buffer takes. */
  function Taken(p: Port, data: Payload): Payload {
    if |data| > p.writeSize then data[..p.writeSize] else data
  }

  /** A filled buffer: given back if the power manager or the controller refuses, delayed
      while suspended, else submitted. */
  function Deliver(p: Port, slot: nat, pmStatus: int, submitOk: bool): Port
    requires |p.use| == |p.buf| == |p.tag| && slot < |p.use|
  {
    if pmStatus != 0 then p.(use := p.use[slot := false])
    else if p.suspCount != 0 then
      p.(pmRefs := p.pmRefs + 1,
         delayed := p.delayed + [slot],
         tag := p.tag[slot := |p.accepted|],
         accepted := p.accepted + [p.buf[slot]])
    else if !submitOk then p.(use := p.use[slot := false])
    else Submit(p.(pmRefs := p.pmRefs + 1, accepted := p.accepted + [p.buf[slot]]), slot, |p.accepted|)
  }

  /** A write once buffer `slot` has been marked in use: given back if the device is gone. */
  function WriteInto(p: Port, slot: nat, whole: Payload, pmStatus: int, submitOk: bool): Port
    requires |p.use| == |p.buf| == |p.tag| && slot < |p.use|
  {
    if !p.present then p.(use := p.use[slot := false])
    else Deliver(p.(buf := p.buf[slot := Taken(p, whole)]), slot, pmStatus, submitOk)
  }

  function WriteStep(p: Port, data: Payload, pmStatus: int, submitOk: bool): Port
    requires |p.use| == |p.buf| == |p.tag|
  {
    var slot := FirstFree(p.use);
    if data == [] || slot == |p.use| then p
    else WriteInto(p.(use := p.use[slot := true]), slot, data, pmStatus, submitOk)
  }

  function Step(p: Port, a: Action): Port
    requires Enabled(p, a) && Accounted(p)
  {
    match a
    case Write(data, pmStatus, submitOk) => WriteStep(p, data, pmStatus, submitOk)
    case Complete(slot) =>
      p.(use := p.use[slot := false], submitted := p.submitted - {slot},
         transmitting := p.transmitting - 1, pmRefs := p.pmRefs - 1)
    case Suspend(auto) =>
      if auto && p.transmitting != 0 then p else p.(suspCount := p.suspCount + 1)
    case DrainOne =>
      p.(use := p.use[p.delayed[0] := false], delayed := p.delayed[1..], pmRefs := p.pmRefs - 1)
    case ResumeBegin =>
      p.(suspCount := p.suspCount - 1, resuming := p.suspCount == 1 && p.initialised)
    case ResumeOne(ok) =>
      var slot := p.delayed[0];
      var q := p.(delayed := p.delayed[1..]);
      if ok then Submit(q, slot, p.tag[slot])
      else q.(use := p.use[slot := false], pmRefs := p.pmRefs - 1)
    case ResumeEnd => p.(resuming := false)
    case Open => p.(initialised := true)
    case Close => p.(initialised := false, closing := true)
    case CloseDone => p.(closing := false)
    case Unplug => p.(present := false)
  }

  function Fresh(n: nat, writeSize: nat): (p: Port)
    ensures Accounted(p) && |p.use| == n
  {
    Port(writeSize, seq(n, i => false), seq(n, i => []), {}, [], 0, 0, 0, true, true, false, false,
         [], seq(n, i => 0), [], [])
  }

  // ----- accounting

  /** A buffer is in use exactly when it is submitted or delayed, never both; the two
      counters count what they are meant to. */
  ghost predicate Accounted(p: Port) {
    && |p.use| == |p.buf| == |p.tag|
    && (forall i :: i in p.submitted ==> i < |p.use|)
    && (forall k :: 0 <= k < |p.delayed| ==> p.delayed[k] < |p.use| && p.delayed[k] !in p.submitted)
    && (forall j, k :: 0 <= j < k < |p.delayed| ==> p.delayed[j] != p.delayed[k])
    && (forall i :: 0 <= i < |p.use| ==> (p.use[i] <==> i in p.submitted || i in p.delayed))
    && p.transmitting == |p.submitted|
    && p.pmRefs == |p.submitted| + |p.delayed|
    && p.suspCount >= 0
  }

  lemma StepKeepsAccounted(p: Port, a: Action)
    requires Enabled(p, a) && Accounted(p)
    ensures Accounted(Step(p, a)) && |Step(p, a).use| == |p.use|
  {
    match a
    case Write(_, _, _) => WriteKeepsAccounted(p, a);
    case Complete(slot) => CompleteKeepsAccounted(p, slot);
    case DrainOne => HeadKeepsAccounted(p, Step(p, a));
    case ResumeOne(_) => HeadKeepsAccounted(p, Step(p, a));
    case _ => hide WriteStep;
  }

  lemma CompleteKeepsAccounted(p: Port, slot: nat)
    requires Enabled(p, Complete(slot)) && Accounted(p)
    ensures Accounted(Step(p, Complete(slot))) && |Step(p, Complete(slot)).use| == |p.use|
  {
    hide WriteStep;
  }

  /** The oldest delayed write is freed, or submitted. */
  lemma HeadKeepsAccounted(p: Port, q: Port)
    requires Accounted(p) && p.delayed != []
    requires q.delayed == p.delayed[1..] && q.buf == p.buf && q.tag == p.tag && q.suspCount == p.suspCount
    requires p.delayed[0] < |p.use|
    requires || (q.use == p.use[p.delayed[0] := false] && q.submitted == p.submitted
                 && q.transmitting == p.transmitting && q.pmRefs == p.pmRefs - 1)
             || (q.use == p.use && q.submitted == p.submitted + {p.delayed[0]}
                 && q.transmitting == p.transmitting + 1 && q.pmRefs == p.pmRefs)
    ensures Accounted(q) && |q.use| == |p.use|
  {
    HeadGone(p.delayed);
  }

  lemma HeadGone(s: seq<nat>)
    requires s != []
    requires forall j, k :: 0 <= j < k < |s| ==> s[j] != s[k]
    ensures forall i :: i in s[1..] <==> i in s && i != s[0]
  {
  }

  lemma WriteKeepsAccounted(p: Port, a: Action)
    requires a.Write? && Enabled(p, a) && Accounted(p)
    ensures Accounted(Step(p, a)) && |Step(p, a).use| == |p.use|
  {
    var slot := FirstFree(p.use);
    if slot < |p.use| && a.data != [] {
      assert p.use[slot := true][slot := false] == p.use && |p.use| == |p.buf| == |p.tag|;
      hide FirstFree, Taken, Accounted, Deliver;
      var r := p.(use := p.use[slot := true], buf := p.buf[slot := Taken(p, a.data)]);
      assert r == p.(use := p.use[slot := true]).(buf := r.buf);
      GivenBackAccounted(p, p);
      DeliverKeepsAccounted(p, r, slot, a.pmStatus, a.submitOk);
    }
  }

  lemma DeliverKeepsAccounted(p: Port, r: Port, slot: nat, pmStatus: int, submitOk: bool)
    requires Accounted(p) && slot < |p.use| && !p.use[slot]
    requires r == p.(use := p.use[slot := true], buf := r.buf) && |r.buf| == |p.buf| == |p.tag| == |p.use|
    ensures Accounted(Deliver(r, slot, pmStatus, submitOk))
    ensures |Deliver(r, slot, pmStatus, submitOk).use| == |p.use|
  {
    assert p.use[slot := true][slot := false] == p.use;
    hide Accounted;
    var q := Deliver(r, slot, pmStatus, submitOk);
    if pmStatus != 0 || (p.suspCount == 0 && !submitOk) {
      assert q == r.(use := p.use);
      GivenBackAccounted(p, q);
    } else {
      assert q.use == r.use && q.buf == r.buf && |q.tag| == |p.tag|;
      TakenAccounted(p, q, slot);
    }
  }

  lemma GivenBackAccounted(p: Port, q: Port)
    requires Accounted(p) && q == p.(buf := q.buf) && |q.buf| == |p.buf|
    ensures Accounted(q)
  {
  }

  lemma TakenAccounted(p: Port, q: Port, slot: nat)
    requires Accounted(p) && slot < |p.use| && !p.use[slot]
    requires q.use == p.use[slot := true] && |q.buf| == |p.buf| && |q.tag| == |p.tag|
    requires q.pmRefs == p.pmRefs + 1 && q.suspCount == p.suspCount
    requires || (q.delayed == p.delayed + [slot] && q.submitted == p.submitted && q.transmitting == p.transmitting)
             || (q.delayed == p.delayed && q.submitted == p.submitted + {slot}
                 && q.transmitting == p.transmitting + 1)
    ensures Accounted(q)
  {
  }

  // ----- sizes, and which writes are taken

  /** No buffer holds more than its room, and so nothing longer is submitted. */
  ghost predicate Bounded(p: Port) {
    && (forall i :: 0 <= i < |p.buf| ==> |p.buf[i]| <= p.writeSize)
    && (forall k :: 0 <= k < |p.wire| ==> |p.wire[k]| <= p.writeSize)
  }

  lemma StepKeepsBounded(p: Port, a: Action)
    requires Enabled(p, a) && Accounted(p) && Bounded(p)
    ensures Bounded(Step(p, a)) && Step(p, a).writeSize == p.writeSize
  {
    hide FirstFree;
  }

  /** A write is taken exactly when there is a buffer and the device, and the power manager
      and, unless suspended, the controller agree; then its first `writeSize` bytes are
      accepted and kept in a buffer. Otherwise nothing is left of it. */
  lemma WriteTakenIff(p: Port, data: Payload, pmStatus: int, submitOk: bool)
    requires Enabled(p, Write(data, pmStatus, submitOk)) && Accounted(p)
    ensures var q, n := Step(p, Write(data, pmStatus, submitOk)), if |data| <= p.writeSize then |data| else p.writeSize;
      if data != [] && FirstFree(p.use) < |p.use| && p.present && pmStatus == 0 && (p.suspCount != 0 || submitOk)
      then
        var slot := FirstFree(p.use);
        && q.accepted == p.accepted + [data[..n]] && q.buf == p.buf[slot := data[..n]] && q.pmRefs == p.pmRefs + 1
        && (p.suspCount != 0 ==> q.delayed == p.delayed + [slot] && q.wire == p.wire)
        && (p.suspCount == 0 ==> q.delayed == p.delayed && q.wire == p.wire + [data[..n]])
      else
        && q.accepted == p.accepted && q.use == p.use && q.pmRefs == p.pmRefs
        && q.delayed == p.delayed && q.submitted == p.submitted && q.wire == p.wire
  {
    var slot := FirstFree(p.use);
    if slot < |p.use| {
      assert p.use[slot := true][slot := false] == p.use;
    }
    assert data[..|data|] == data;
    hide FirstFree;
  }

  // ----- order

  ghost predicate Increasing(s: seq<nat>) {
    forall j, k :: 0 <= j < k < |s| ==> s[j] < s[k]
  }

  /** What is delayed is in order and younger than all that was submitted, and nothing is
      delayed while awake. */
  ghost predicate InLine(p: Port)
    requires forall k :: 0 <= k < |p.delayed| ==> p.delayed[k] < |p.tag|
  {
    && (forall j, k :: 0 <= j < k < |p.delayed| ==> p.tag[p.delayed[j]] < p.tag[p.delayed[k]])
    && (forall j, k :: 0 <= j < |p.sent| && 0 <= k < |p.delayed| ==> p.sent[j] < p.tag[p.delayed[k]])
    && (p.suspCount == 0 && !p.resuming ==> p.delayed == [])
  }

  /** The submitted writes are accepted ones in order, each with its own bytes, and so are
      the delayed ones; what is delayed is in line, except when a shutdown is about to throw
      it away. */
  ghost predicate Ordered(p: Port) {
    && |p.buf| == |p.tag|
    && (forall k :: 0 <= k < |p.delayed| ==> p.delayed[k] < |p.tag|)
    && Increasing(p.sent)
    && |p.wire| == |p.sent|
    && (forall k :: 0 <= k < |p.sent| ==> p.sent[k] < |p.accepted| && p.wire[k] == p.accepted[p.sent[k]])
    && (forall k :: 0 <= k < |p.delayed| ==>
          p.tag[p.delayed[k]] < |p.accepted| && p.buf[p.delayed[k]] == p.accepted[p.tag[p.delayed[k]]])
    && (p.closing ==> !p.initialised)
    && (!p.closing || p.resuming ==> InLine(p))
  }

  /** A resume of a port that is closed for good leaves what is delayed behind. */
  predicate Strands(p: Port, a: Action) {
    a.ResumeBegin? && p.suspCount == 1 && !p.initialised && !p.closing && p.delayed != []
  }

  lemma StepKeepsOrdered(p: Port, a: Action)
    requires Enabled(p, a) && Accounted(p) && Ordered(p)
    requires !Strands(p, a)
    ensures Accounted(Step(p, a)) && Ordered(Step(p, a))
  {
    StepKeepsAccounted(p, a);
    match a
    case Write(_, _, _) => WriteKeepsOrdered(p, a);
    case ResumeOne(_) => ResumeKeepsOrdered(p, a);
    case DrainOne => DrainKeepsOrdered(p);
    case _ =>
      hide Accounted, WriteStep, Submit;
      NothingSentKeepsOrdered(p, Step(p, a));
  }

  lemma DrainKeepsOrdered(p: Port)
    requires Enabled(p, DrainOne) && Accounted(p) && Ordered(p)
    ensures Ordered(Step(p, DrainOne))
  {
    hide Accounted;
    var q := Step(p, DrainOne);
    assert forall k :: 0 <= k < |q.delayed| ==> q.delayed[k] == p.delayed[k + 1];
  }

  /** Steps that neither accept nor submit nor drop a delayed write. */
  lemma NothingSentKeepsOrdered(p: Port, q: Port)
    requires Ordered(p)
    requires q.buf == p.buf && q.tag == p.tag && q.delayed == p.delayed && q.accepted == p.accepted
    requires q.sent == p.sent && q.wire == p.wire
    requires q.closing ==> !q.initialised
    requires !q.closing || q.resuming ==>
               q.delayed == []
               || ((!p.closing || p.resuming) && (q.suspCount == 0 && !q.resuming ==> p.suspCount == 0 && !p.resuming))
    ensures Ordered(q)
  {
  }

  lemma WriteKeepsOrdered(p: Port, a: Action)
    requires a.Write? && Enabled(p, a) && Accounted(p) && Ordered(p)
    ensures Accounted(Step(p, a)) && Ordered(Step(p, a))
  {
    WriteKeepsAccounted(p, a);
    var slot := FirstFree(p.use);
    if slot < |p.use| && a.data != [] {
      assert slot !in p.delayed && |p.use| == |p.buf| == |p.tag|;
      hide FirstFree, Taken, Accounted, Ordered, Deliver;
      var r := p.(use := p.use[slot := true]);
      RefillKeepsOrdered(p, r.(buf := p.buf[slot := Taken(p, a.data)]), slot);
      RefillKeepsOrdered(p, r.(use := r.use[slot := false]), slot);
      DeliverKeepsOrdered(r.(buf := p.buf[slot := Taken(p, a.data)]), slot, a.pmStatus, a.submitOk);
    }
  }

  lemma DeliverKeepsOrdered(p: Port, slot: nat, pmStatus: int, submitOk: bool)
    requires Ordered(p) && !p.resuming
    requires |p.use| == |p.buf| == |p.tag| && slot < |p.use| && slot !in p.delayed
    ensures Ordered(Deliver(p, slot, pmStatus, submitOk))
  {
    hide Ordered, Submit;
    var q := Deliver(p, slot, pmStatus, submitOk);
    if pmStatus == 0 && p.suspCount != 0 {
      DelayKeepsOrdered(p, q, slot);
    } else if pmStatus == 0 && submitOk {
      SubmitKeepsOrdered(p, q, slot);
    } else {
      RefillKeepsOrdered(p, q, slot);
    }
  }

  /** The order speaks of delayed and submitted writes only, so filling a free buffer
      does not disturb it. */
  lemma RefillKeepsOrdered(p: Port, q: Port, slot: nat)
    requires Ordered(p) && slot < |p.buf| == |q.buf| && slot !in p.delayed
    requires q == p.(buf := q.buf, use := q.use) && q.buf == p.buf[slot := q.buf[slot]]
    ensures Ordered(q)
  {
  }

  lemma DelayKeepsOrdered(p: Port, q: Port, slot: nat)
    requires Ordered(p) && |p.buf| == |p.tag| && slot < |p.buf| && slot !in p.delayed
    requires p.suspCount != 0
    requires q == p.(pmRefs := q.pmRefs, delayed := p.delayed + [slot], tag := p.tag[slot := |p.accepted|],
                     accepted := p.accepted + [p.buf[slot]])
    ensures Ordered(q)
  {
    forall k | 0 <= k < |p.delayed| ensures p.delayed[k] != slot && q.delayed[k] == p.delayed[k] {
      assert p.delayed[k] in p.delayed;
    }
  }

  lemma SubmitKeepsOrdered(p: Port, q: Port, slot: nat)
    requires Ordered(p) && p.suspCount == 0 && !p.resuming && slot < |p.buf|
    requires q == Submit(p.(pmRefs := p.pmRefs + 1, accepted := p.accepted + [p.buf[slot]]), slot, |p.accepted|)
    ensures Ordered(q)
  {
    assert !p.closing ==> p.delayed == [];
  }

  lemma ResumeKeepsOrdered(p: Port, a: Action)
    requires a.ResumeOne? && Enabled(p, a) && Accounted(p) && Ordered(p)
    ensures Accounted(Step(p, a)) && Ordered(Step(p, a))
  {
    StepKeepsAccounted(p, a);
    assert p.delayed[0] < |p.use|;
    hide Accounted, Ordered;
    HeadKeepsOrdered(p, Step(p, a));
  }

  /** The oldest delayed write may be submitted or given up. */
  lemma HeadKeepsOrdered(p: Port, q: Port)
    requires Ordered(p) && p.resuming && p.delayed != []
    requires q == p.(use := q.use, pmRefs := q.pmRefs, submitted := q.submitted, transmitting := q.transmitting,
                     delayed := p.delayed[1..], sent := q.sent, wire := q.wire)
    requires || (q.sent == p.sent && q.wire == p.wire)
             || (q.sent == p.sent + [p.tag[p.delayed[0]]] && q.wire == p.wire + [p.buf[p.delayed[0]]])
    ensures Ordered(q)
  {
    assert forall k :: 0 <= k < |q.delayed| ==> q.delayed[k] == p.delayed[k + 1];
  }

  // ----- whole runs

  /** Every action of the run can be taken when its turn comes. */
  ghost predicate Possible(p: Port, run: seq<Action>)
    requires Accounted(p)
    decreases run
  {
    run == [] ||
    (Enabled(p, run[0]) && (StepKeepsAccounted(p, run[0]); Possible(Step(p, run[0]), run[1..])))
  }

  ghost function Run(p: Port, run: seq<Action>): (q: Port)
    requires Accounted(p) && Possible(p, run)
    ensures Accounted(q) && |q.use| == |p.use|
    decreases run
  {
    if run == [] then p
    else
      StepKeepsAccounted(p, run[0]);
      Run(Step(p, run[0]), run[1..])
  }

  /** Safety of every interleaving, for every pool size: from a fresh port the accounting
      holds after any run, whatever the transport and the power manager answer. */
  lemma PoolNeverLosesTrack(n: nat, size: nat, run: seq<Action>)
    requires Possible(Fresh(n, size), run)
    ensures var q := Run(Fresh(n, size), run);
      && (forall i :: 0 <= i < n ==> (q.use[i] <==> i in q.submitted || i in q.delayed))
      && (forall i :: i in q.submitted ==> i !in q.delayed)
      && q.transmitting == |q.submitted|
      && q.pmRefs == |q.submitted| + |q.delayed|
  {
    var q := Run(Fresh(n, size), run);
    assert Accounted(q) && |q.use| == n;
  }

  /** And no buffer ever holds, and no submission ever carries, more than it has room for. */
  lemma {:induction false} BuffersNeverOverflow(p: Port, run: seq<Action>)
    requires Accounted(p) && Bounded(p) && Possible(p, run)
    ensures Bounded(Run(p, run)) && Run(p, run).writeSize == p.writeSize
    decreases run
  {
    if run != [] {
      StepKeepsBounded(p, run[0]);
      StepKeepsAccounted(p, run[0]);
      hide Bounded, Accounted;
      BuffersNeverOverflow(Step(p, run[0]), run[1..]);
    }
  }

  lemma FreshIsBounded(n: nat, size: nat)
    ensures Bounded(Fresh(n, size))
  {
  }

  lemma FreshIsSound(n: nat, size: nat)
    ensures Ordered(Fresh(n, size))
  {
  }

  /** No resume of the run leaves a delayed write behind. */
  ghost predicate NeverStrands(p: Port, run: seq<Action>)
    requires Accounted(p) && Possible(p, run)
    decreases run
  {
    run == [] ||
    (!Strands(p, run[0]) && (StepKeepsAccounted(p, run[0]); NeverStrands(Step(p, run[0]), run[1..])))
  }

  /** The order is kept through every state of the run. */
  ghost predicate OrderedThroughout(p: Port, run: seq<Action>)
    requires Accounted(p) && Possible(p, run)
    decreases run
  {
    Ordered(p) &&
    (run == [] || (StepKeepsAccounted(p, run[0]); OrderedThroughout(Step(p, run[0]), run[1..])))
  }

  /** A resume breaks the order exactly when it leaves a delayed write behind. */
  lemma ResumeOrderedIff(p: Port)
    requires Accounted(p) && Ordered(p) && Enabled(p, ResumeBegin)
    ensures Ordered(Step(p, ResumeBegin)) <==> !Strands(p, ResumeBegin)
  {
    if !Strands(p, ResumeBegin) {
      StepKeepsOrdered(p, ResumeBegin);
    }
  }

  /** And so does a run. */
  lemma {:induction false} OrderedIff(p: Port, run: seq<Action>)
    requires Accounted(p) && Ordered(p) && Possible(p, run)
    ensures OrderedThroughout(p, run) <==> NeverStrands(p, run)
    decreases run
  {
    if run != [] {
      StepKeepsAccounted(p, run[0]);
      if Strands(p, run[0]) {
        ResumeOrderedIff(p);
      } else {
        StepKeepsOrdered(p, run[0]);
        hide Ordered, Accounted, Step, Strands;
        OrderedIff(Step(p, run[0]), run[1..]);
      }
    }
  }

  lemma {:induction false} OrderedAtEnd(p: Port, run: seq<Action>)
    requires Accounted(p) && Possible(p, run) && OrderedThroughout(p, run)
    ensures Ordered(Run(p, run))
    decreases run
  {
    hide Ordered, Accounted;
    if run != [] {
      StepKeepsAccounted(p, run[0]);
      OrderedAtEnd(Step(p, run[0]), run[1..]);
    }
  }

  /** Over every run in which no resume leaves a delayed write behind, the payloads handed
      to the controller are a subsequence, in order and byte for byte, of the writes
      reported as accepted, across any nesting of suspends and resumes and any number of
      closes; and nothing is left waiting while awake, unless about to be thrown away. */
  lemma SubmittedInOrder(n: nat, size: nat, run: seq<Action>) returns (picked: seq<nat>)
    requires Possible(Fresh(n, size), run) && NeverStrands(Fresh(n, size), run)
    ensures var q := Run(Fresh(n, size), run);
      && |picked| == |q.wire|
      && (forall j, k :: 0 <= j < k < |picked| ==> picked[j] < picked[k])
      && (forall k :: 0 <= k < |picked| ==> picked[k] < |q.accepted| && q.wire[k] == q.accepted[picked[k]])
      && (q.suspCount == 0 && !q.resuming && !q.closing ==> q.delayed == [])
  {
    FreshIsSound(n, size);
    OrderedIff(Fresh(n, size), run);
    OrderedAtEnd(Fresh(n, size), run);
    picked := Run(Fresh(n, size), run).sent;
  }

  /** In particular over every run without a close. */
  lemma {:induction false} OpenNeverStrands(p: Port, run: seq<Action>)
    requires Accounted(p) && Possible(p, run) && p.initialised && Close !in run
    ensures NeverStrands(p, run)
    decreases run
  {
    if run != [] {
      hide Accounted, Step, Enabled;
      StepKeepsAccounted(p, run[0]);
      assert run[0] in run && forall a :: a in run[1..] ==> a in run;
      StaysOpen(p, run[0]);
      OpenNeverStrands(Step(p, run[0]), run[1..]);
    }
  }

  lemma StaysOpen(p: Port, a: Action)
    requires Accounted(p) && Enabled(p, a) && p.initialised && a != Close
    ensures Step(p, a).initialised
  {
    hide Accounted, FirstFree, Taken;
  }

  // ----- the condition is needed

  /** What was left behind is overtaken: from any state in which a resume is about to do
      so, with the device present and a buffer free, opening the port, writing, suspending
      and resuming once more puts a later write on the wire before an earlier one. */
  lemma StrandedIsOvertaken(p: Port) returns (run: seq<Action>)
    requires Accounted(p) && Ordered(p) && Enabled(p, ResumeBegin) && Strands(p, ResumeBegin)
    requires p.present && FirstFree(p.use) < |p.use| && p.writeSize > 0
    ensures Possible(p, run)
    ensures var q, left := Run(p, run), p.delayed[0];
      && left < |p.tag| == |p.buf| && p.tag[left] < |p.accepted|
      && q.accepted == p.accepted + [[0]]
      && q.sent == p.sent + [|p.accepted|, p.tag[left]]
      && q.wire == p.wire + [[0], p.buf[left]]
  {
    var q, first := OvertakerSent(p);
    var r, second := LeftoverSent(q);
    run := first + second;
    hide Run, Possible, Accounted, Ordered;
    RunAppend(p, first, second);
    assert p.sent + [|p.accepted|, p.tag[p.delayed[0]]] == q.sent + [p.tag[p.delayed[0]]];
    assert p.wire + [[0], p.buf[p.delayed[0]]] == q.wire + [p.buf[p.delayed[0]]];
  }

  lemma OvertakerSent(p: Port) returns (q: Port, run: seq<Action>)
    requires Accounted(p) && Ordered(p) && Enabled(p, ResumeBegin) && Strands(p, ResumeBegin)
    requires p.present && FirstFree(p.use) < |p.use| && p.writeSize > 0
    ensures Accounted(q) && Possible(p, run) && Run(p, run) == q
    ensures q.delayed == p.delayed && q.tag == p.tag && |q.buf| == |p.buf|
    ensures q.delayed[0] < |q.buf| == |q.tag| && q.buf[q.delayed[0]] == p.buf[q.delayed[0]]
    ensures q.sent == p.sent + [|p.accepted|] && q.accepted == p.accepted + [[0]] && q.wire == p.wire + [[0]]
    ensures q.suspCount == 0 && q.initialised && !q.resuming
  {
    RunNone();
    assert p.delayed[0] in p.delayed && p.delayed[0] < |p.buf| == |p.tag| == |p.use|;
    hide Possible, Run, Accounted, Ordered, FirstFree;
    StepKeepsAccounted(p, ResumeBegin);
    var p1 := Step(p, ResumeBegin);
    StepKeepsAccounted(p1, Open);
    var p2 := Step(p1, Open);
    StepKeepsAccounted(p2, Write([0], 0, true));
    q := Step(p2, Write([0], 0, true));
    assert FirstFree(p.use) != p.delayed[0] by {
      InUseWhenDelayed(p);
    }
    hide Step;
    run := RunCons(p2, Write([0], 0, true), []);
    run := RunCons(p1, Open, run);
    run := RunCons(p, ResumeBegin, run);
  }

  lemma InUseWhenDelayed(p: Port)
    requires Accounted(p) && p.delayed != []
    ensures p.delayed[0] < |p.use| && p.use[p.delayed[0]]
  {
  }

  lemma LeftoverSent(p: Port) returns (q: Port, run: seq<Action>)
    requires Accounted(p) && p.delayed != [] && p.delayed[0] < |p.tag| == |p.buf|
    requires p.suspCount == 0 && p.initialised && !p.resuming
    ensures Possible(p, run) && Run(p, run) == q
    ensures q.accepted == p.accepted && q.sent == p.sent + [p.tag[p.delayed[0]]]
    ensures q.wire == p.wire + [p.buf[p.delayed[0]]]
  {
    RunNone();
    hide Possible, Run, Accounted;
    StepKeepsAccounted(p, Suspend(false));
    var p1 := Step(p, Suspend(false));
    StepKeepsAccounted(p1, ResumeBegin);
    var p2 := Step(p1, ResumeBegin);
    StepKeepsAccounted(p2, ResumeOne(true));
    q := Step(p2, ResumeOne(true));
    hide Step;
    run := RunCons(p2, ResumeOne(true), []);
    run := RunCons(p1, ResumeBegin, run);
    run := RunCons(p, Suspend(false), run);
  }

  /** Such a state is reached: a writer that comes after the shutdown of a suspended port
      is left behind when the device resumes. */
  lemma ClosedResumeReorders() returns (run: seq<Action>)
    ensures Possible(Fresh(2, 1), run)
    ensures var q := Run(Fresh(2, 1), run); q.accepted == [[1], [0]] && q.wire == [[0], [1]]
  {
    var p := Fresh(2, 1);
    FreshIsSound(2, 1);
    var q, late := LateWriter(p);
    hide *;
    var tail := StrandedIsOvertaken(q);
    run := late + tail;
    RunAppend(p, late, tail);
  }

  lemma LateWriter(p: Port) returns (q: Port, run: seq<Action>)
    requires p == Fresh(2, 1) && Ordered(p)
    ensures Possible(p, run) && Run(p, run) == q
    ensures Accounted(q) && Ordered(q) && Enabled(q, ResumeBegin) && Strands(q, ResumeBegin)
    ensures q.present && FirstFree(q.use) < |q.use| && q.writeSize > 0
    ensures q.delayed == [0] && |q.buf| > 0 && q.buf[0] == [1] && q.accepted == [[1]] && q.wire == []
  {
    FirstFreeOfTwo();
    RunNone();
    hide Possible, Run, Accounted, FirstFree, Ordered;
    StepKeepsOrdered(p, Suspend(false));
    var p1 := Step(p, Suspend(false));
    StepKeepsOrdered(p1, Close);
    var p2 := Step(p1, Close);
    StepKeepsOrdered(p2, CloseDone);
    var p3 := Step(p2, CloseDone);
    assert p3.use == [false, false] && |p3.buf| == 2;
    StepKeepsOrdered(p3, Write([1], 0, true));
    q := Step(p3, Write([1], 0, true));
    assert q.use == [true, false];
    hide Step;
    run := RunCons(p3, Write([1], 0, true), []);
    run := RunCons(p2, CloseDone, run);
    run := RunCons(p1, Close, run);
    run := RunCons(p, Suspend(false), run);
  }

  lemma FirstFreeOfTwo()
    ensures FirstFree([false, false]) == 0 && FirstFree([true, false]) == 1
  {
    assert [true, false][1..] == [false];
  }

  lemma RunNone()
    ensures forall p :: Accounted(p) ==> Possible(p, []) && Run(p, []) == p
  {
  }

  lemma RunCons(p: Port, a: Action, rest: seq<Action>) returns (run: seq<Action>)
    requires Accounted(p) && Enabled(p, a)
    requires Accounted(Step(p, a)) && Possible(Step(p, a), rest)
    ensures run == [a] + rest
    ensures Possible(p, run) && Run(p, run) == Run(Step(p, a), rest)
  {
    run := [a] + rest;
    assert run[1..] == rest;
  }

  lemma {:induction false} RunAppend(p: Port, run: seq<Action>, more: seq<Action>)
    requires Accounted(p) && Possible(p, run) && Possible(Run(p, run), more)
    ensures Possible(p, run + more) && Run(p, run + more) == Run(Run(p, run), more)
    decreases run
  {
    hide Enabled, Step, Accounted;
    if run == [] {
      assert [] + more == more;
    } else {
      StepKeepsAccounted(p, run[0]);
      assert (run + more)[1..] == run[1..] + more;
      RunAppend(Step(p, run[0]), run[1..], more);
    }
  }

  lemma {:induction false} RunSnoc(p: Port, run: seq<Action>, a: Action)
    requires Accounted(p) && Possible(p, run) && Enabled(Run(p, run), a)
    ensures Possible(p, run + [a]) && Run(p, run + [a]) == Step(Run(p, run), a)
    decreases run
  {
    hide Enabled, Step, Accounted;
    if run == [] {
      assert [] + [a] == [a];
      StepKeepsAccounted(p, a);
      assert [a][1..] == [];
    } else {
      StepKeepsAccounted(p, run[0]);
      assert (run + [a])[1..] == run[1..] + [a];
      RunSnoc(Step(p, run[0]), run[1..], a);
    }
  }

  // ----- how full the pool is

  function InUse(use: seq<bool>): nat {
    if use == [] then 0 else InUse(use[..|use| - 1]) + (if use[|use| - 1] then 1 else 0)
  }

  lemma {:induction false} InUseIs(use: seq<bool>)
    ensures InUse(use) == |UsedSet(use)|
  {
    if use == [] {
      assert UsedSet(use) == {};
    } else {
      var n := |use| - 1;
      InUseIs(use[..n]);
      assert UsedSet(use) == UsedSet(use[..n]) + (if use[n] then {n} else {});
    }
  }

  function Members(s: seq<nat>): set<nat> {
    set i | i in s
  }

  lemma {:induction false} DistinctCount(s: seq<nat>)
    requires forall j, k :: 0 <= j < k < |s| ==> s[j] != s[k]
    ensures |Members(s)| == |s|
  {
    if s == [] {
      assert Members(s) == {};
    } else {
      HeadGone(s);
      DistinctCount(s[1..]);
      assert Members(s) == Members(s[1..]) + {s[0]};
      assert s[0] !in Members(s[1..]);
    }
  }

  function UsedSet(use: seq<bool>): set<nat> {
    set i: nat | i < |use| && use[i]
  }

  /** The number of buffers in use, which the poll for room adds up, is the number of
      writes under way; a writer is turned away exactly when that fills the pool. */
  lemma UseCountsOutstanding(p: Port)
    requires Accounted(p)
    ensures InUse(p.use) == |p.submitted| + |p.delayed| == p.pmRefs
    ensures FirstFree(p.use) == |p.use| <==> p.pmRefs == |p.use|
  {
    InUseIs(p.use);
    DistinctCount(p.delayed);
    FullCount(p.use);
    var d := Members(p.delayed);
    assert UsedSet(p.use) == p.submitted + d;
    assert p.submitted !! d;
    hide Accounted, InUse, Members, UsedSet;
    assert |p.submitted + d| == |p.submitted| + |d|;
  }

  lemma {:induction false} FullCount(use: seq<bool>)
    ensures InUse(use) <= |use|
    ensures InUse(use) == |use| <==> forall i :: 0 <= i < |use| ==> use[i]
  {
    if use != [] {
      var n := |use| - 1;
      FullCount(use[..n]);
      if forall i :: 0 <= i < n ==> use[..n][i] {
        assert forall i :: 0 <= i < n ==> use[i] == use[..n][i];
      }
    }
  }
}
