// The CH343 driver object. Each entry point changes the shared fields step by step; its
// contract says which steps of the pool state machine it amounts to.

module Ch343Port {
  import opened Ch343Pool

  const ENODEV: int := 19
  const ETIMEDOUT: int := 110
  const EBUSY: int := 16

  class PortObject {
    const writeSize: nat
    const use: array<bool>
    const buf: array<Payload>
    var delayed: seq<nat>
    var transmitting: int
    var suspCount: int
    var present: bool
    var initialised: bool
    var closing: bool
    // the host controller, the power manager and the history, which the driver cannot see
    ghost var submitted: set<nat>
    ghost var pmRefs: int
    ghost var resuming: bool
    ghost var accepted: seq<Payload>
    ghost var tag: seq<nat>
    ghost var sent: seq<nat>
    ghost var wire: seq<Payload>

    ghost function State(): Port
      reads this, use, buf
    {
      Port(writeSize, use[..], buf[..], submitted, delayed, transmitting, suspCount, pmRefs,
           present, initialised, closing, resuming, accepted, tag, sent, wire)
    }

    ghost predicate Valid()
      reads this, use, buf
    {
      use.Length == buf.Length > 0 && Accounted(State())
    }

    constructor (n: nat, writeSize: nat)
      requires n > 0
      ensures Valid() && State() == Fresh(n, writeSize) && fresh(use) && fresh(buf)
    {
      this.writeSize := writeSize;
      use := new bool[n](i => false);
      buf := new Payload[n](i => []);
      delayed, transmitting, suspCount := [], 0, 0;
      present, initialised, closing := true, true, false;
      submitted, pmRefs, resuming := {}, 0, false;
      accepted, sent, wire := [], [], [];
      tag := seq(n, i => 0);
      new;
      assert State() == Fresh(n, writeSize);
    }

    /** Take a free write buffer; -1 if all are in use. */
    method WbAlloc() returns (wbn: int)
      requires use.Length > 0
      modifies use
      ensures wbn == -1 <==> FirstFree(old(use[..])) == use.Length
      ensures wbn == -1 ==> use[..] == old(use[..])
      ensures wbn != -1 ==> wbn == FirstFree(old(use[..])) && use[..] == old(use[..])[wbn := true]
    {
      wbn := 0;
      var i := 0;
      while true
        invariant 0 <= i < use.Length && wbn == i
        invariant use[..] == old(use[..])
        invariant forall j :: 0 <= j < i ==> use[j]
        decreases use.Length - i
      {
        if !use[wbn] {
          use[wbn] := true;
          return;
        }
        wbn := (wbn + 1) % use.Length;
        i := i + 1;
        if i >= use.Length {
          return -1;
        }
      }
    }

    /** How many buffers are free. */
    method WbIsAvail() returns (n: int)
      requires Valid()
      ensures n == use.Length - InUse(use[..])
      ensures n == use.Length - pmRefs
    {
      n := use.Length;
      for i := 0 to use.Length
        invariant n == use.Length - InUse(use[..i])
      {
        assert use[..i + 1][..i] == use[..i];
        n := n - (if use[i] then 1 else 0);
      }
      assert use[..use.Length] == use[..];
      UseCountsOutstanding(State());
    }

    method WriteDone(slot: nat)
      requires slot < use.Length
      modifies this`transmitting, this`pmRefs, use
      ensures use[..] == old(use[..])[slot := false]
      ensures transmitting == old(transmitting) - 1 && pmRefs == old(pmRefs) - 1
    {
      use[slot] := false;
      transmitting := transmitting - 1;
      pmRefs := pmRefs - 1;
    }

    /** Hand buffer `slot`, carrying accepted write `t`, to the controller, whose answer
        is `status`; a refusal undoes the allocation. */
    method StartWb(slot: nat, ghost t: nat, status: int) returns (rc: int)
      requires slot < use.Length == buf.Length
      modifies this`transmitting, this`pmRefs, this`submitted, this`sent, this`wire, use
      ensures rc == status
      ensures status >= 0 ==> State() == Submit(old(State()), slot, t)
      ensures status < 0 ==>
                State() == old(State()).(use := old(use[..])[slot := false], pmRefs := old(pmRefs) - 1)
    {
      transmitting := transmitting + 1;
      rc := status;
      if rc < 0 {
        WriteDone(slot);
      } else {
        submitted := submitted + {slot};
        sent := sent + [t];
        wire := wire + [buf[slot]];
      }
    }

    /** How much of a write one buffer takes. */
    function Room(data: Payload): (n: nat)
      ensures n <= |data| && n <= writeSize && (n == |data| || n == writeSize)
    {
      if |data| <= writeSize then |data| else writeSize
    }

    /** One write by the line discipline: turned away for want of a buffer, refused, or
        accepted up to what one buffer takes. */
    method TtyWrite(data: Payload, pmStatus: int, submitStatus: int) returns (ret: int, noRoom: bool)
      requires Valid() && !resuming && pmStatus <= 0
      modifies this`delayed, this`transmitting, this`pmRefs, this`submitted
      modifies this`accepted, this`tag, this`sent, this`wire, use, buf
      ensures Valid()
      ensures State() == Step(old(State()), Write(data, pmStatus, submitStatus >= 0))
      ensures ret == if data == [] then 0 else if noRoom then -ETIMEDOUT
                     else if !present then -ENODEV else if pmStatus != 0 then pmStatus
                     else if suspCount == 0 && submitStatus < 0 then submitStatus else Room(data)
      ensures accepted == if data == [] || ret < 0 then old(accepted) else old(accepted) + [data[..Room(data)]]
      ensures noRoom <==> data != [] && old(pmRefs) == use.Length
    {
      ghost var p := State();
      StepKeepsAccounted(p, Write(data, pmStatus, submitStatus >= 0));
      UseCountsOutstanding(p);
      hide Accounted, InUse, FirstFree;
      if |data| == 0 {
        return 0, false;
      }
      var wbn := WbAlloc();
      if wbn < 0 {
        return -ETIMEDOUT, true;
      }
      ret := Fill(wbn, data, pmStatus, submitStatus);
      return ret, false;
    }

    /** The rest of a write, once buffer `wbn` has been marked in use. */
    method Fill(wbn: nat, data: Payload, pmStatus: int, submitStatus: int) returns (ret: int)
      requires use.Length == buf.Length == |tag| && wbn < use.Length && use[wbn]
      requires data != [] && pmStatus <= 0
      modifies this`delayed, this`transmitting, this`pmRefs, this`submitted
      modifies this`accepted, this`tag, this`sent, this`wire, use, buf
      ensures ret == if !present then -ENODEV else if pmStatus != 0 then pmStatus
                     else if suspCount == 0 && submitStatus < 0 then submitStatus else Room(data)
      ensures accepted == if ret < 0 then old(accepted) else old(accepted) + [data[..Room(data)]]
      ensures State() == WriteInto(old(State()), wbn, data, pmStatus, submitStatus >= 0)
    {
      ghost var p := State();
      if !present {
        use[wbn] := false;
        return -ENODEV;
      }
      var count := if |data| > writeSize then writeSize else |data|;
      buf[wbn] := data[..count];
      assert data[..count] == Taken(p, data);
      assert State() == p.(buf := p.buf[wbn := data[..count]]);
      hide Deliver;
      ret := Send(wbn, count, pmStatus, submitStatus);
    }

    /** The rest, once the buffer holds its `count` bytes. */
    method Send(wbn: nat, count: nat, pmStatus: int, submitStatus: int) returns (ret: int)
      requires use.Length == buf.Length == |tag| && wbn < use.Length
      requires count == |buf[wbn]| && pmStatus <= 0
      modifies this`delayed, this`transmitting, this`pmRefs, this`submitted
      modifies this`accepted, this`tag, this`sent, this`wire, use
      ensures ret == if pmStatus != 0 then pmStatus
                     else if suspCount == 0 && submitStatus < 0 then submitStatus else count
      ensures accepted == if ret < 0 then old(accepted) else old(accepted) + [buf[wbn]]
      ensures State() == Deliver(old(State()), wbn, pmStatus, submitStatus >= 0)
    {
      if pmStatus != 0 {
        use[wbn] := false;
        return pmStatus;
      }
      pmRefs := pmRefs + 1;
      if suspCount != 0 {
        delayed := delayed + [wbn];
        tag := tag[wbn := |accepted|];
        accepted := accepted + [buf[wbn]];
        return count;
      }
      var rc := StartWb(wbn, |accepted|, submitStatus);
      if rc < 0 {
        return rc;
      }
      accepted := accepted + [buf[wbn]];
      return count;
    }

    /** Completion of a submitted write, successful or not. */
    method WriteBulk(slot: nat)
      requires Valid() && !resuming && slot in submitted
      modifies this`transmitting, this`pmRefs, this`submitted, use
      ensures Valid() && State() == Step(old(State()), Complete(slot))
    {
      StepKeepsAccounted(State(), Complete(slot));
      submitted := submitted - {slot};
      WriteDone(slot);
    }

    /** Throw away the delayed writes, then cancel what is submitted. Run without
        interference it leaves the whole pool free. */
    method StopDataTraffic() returns (ghost run: seq<Action>)
      requires Valid() && !resuming
      modifies this`delayed, this`transmitting, this`pmRefs, this`submitted, use
      ensures Valid()
      ensures Possible(old(State()), run) && State() == Run(old(State()), run)
      ensures delayed == [] && submitted == {} && transmitting == 0 && pmRefs == 0
      ensures forall i :: 0 <= i < use.Length ==> !use[i]
    {
      ghost var start := State();
      run := [];
      while delayed != []
        invariant Valid() && !resuming
        invariant Possible(start, run) && State() == Run(start, run)
        decreases |delayed|
      {
        RunSnoc(start, run, DrainOne);
        StepKeepsAccounted(State(), DrainOne);
        ghost var next := Step(State(), DrainOne);
        run := run + [DrainOne];
        hide Accounted, Run, Possible, Step;
        Pop();
      }
      run := KillAll(start, run);
    }

    method Pop()
      requires Valid() && delayed != []
      modifies this`delayed, this`pmRefs, use
      ensures Valid() && State() == Step(old(State()), DrainOne)
    {
      StepKeepsAccounted(State(), DrainOne);
      var slot := delayed[0];
      delayed := delayed[1..];
      use[slot] := false;
      pmRefs := pmRefs - 1;
    }

    /** usb_kill_urb on every write URB: those in flight complete. */
    method KillAll(ghost start: Port, ghost before: seq<Action>) returns (ghost run: seq<Action>)
      requires Valid() && !resuming && delayed == []
      requires Accounted(start) && Possible(start, before) && State() == Run(start, before)
      modifies this`transmitting, this`pmRefs, this`submitted, use
      ensures Valid()
      ensures Possible(start, run) && State() == Run(start, run)
      ensures submitted == {} && transmitting == 0 && pmRefs == 0
      ensures forall i :: 0 <= i < use.Length ==> !use[i]
    {
      hide Accounted, Run, Possible;
      run := before;
      for i := 0 to use.Length
        invariant Valid() && !resuming && delayed == []
        invariant Possible(start, run) && State() == Run(start, run)
        invariant forall s :: s in submitted ==> i <= s
      {
        run := KillOne(i, start, run);
      }
      AllKilled(State());
    }

    method KillOne(slot: nat, ghost start: Port, ghost before: seq<Action>) returns (ghost run: seq<Action>)
      requires Valid() && !resuming && delayed == [] && slot < use.Length
      requires Accounted(start) && Possible(start, before) && State() == Run(start, before)
      modifies this`transmitting, this`pmRefs, this`submitted, use
      ensures Valid() && submitted == old(submitted) - {slot}
      ensures Possible(start, run) && State() == Run(start, run)
    {
      run := before;
      if use[slot] {
        assert slot in submitted;
        RunSnoc(start, run, Complete(slot));
        run := run + [Complete(slot)];
        hide Accounted, Run, Possible;
        WriteBulk(slot);
      }
    }

    /** Closing the port: whoever still writes while it drains, the delayed list is found
        empty in the end, and only then can the port be opened again. */
    method PortShutdown() returns (ghost run: seq<Action>)
      requires Valid() && !resuming && initialised
      modifies this`delayed, this`transmitting, this`pmRefs, this`submitted, this`initialised, this`closing, use
      ensures Valid() && !initialised && !closing
      ensures Possible(old(State()), run) && State() == Run(old(State()), run)
      ensures delayed == [] && submitted == {} && transmitting == 0 && pmRefs == 0
      ensures forall i :: 0 <= i < use.Length ==> !use[i]
    {
      hide Accounted, Run, Possible;
      ghost var start := State();
      BeginShutdown();
      ghost var rest := StopDataTraffic();
      run := RunCons(start, Close, rest);
      run := EndShutdown(start, run);
    }

    method BeginShutdown()
      requires Valid() && initialised
      modifies this`initialised, this`closing
      ensures Valid() && State() == Step(old(State()), Close)
    {
      StepKeepsAccounted(State(), Close);
      hide Accounted;
      initialised, closing := false, true;
    }

    method EndShutdown(ghost start: Port, ghost before: seq<Action>) returns (ghost run: seq<Action>)
      requires Valid() && closing && delayed == []
      requires Accounted(start) && Possible(start, before) && State() == Run(start, before)
      modifies this`closing
      ensures Valid() && !closing
      ensures Possible(start, run) && State() == Run(start, run)
    {
      hide Accounted, Run, Possible;
      StepKeepsAccounted(State(), CloseDone);
      RunSnoc(start, before, CloseDone);
      run := before + [CloseDone];
      closing := false;
    }

    /** Suspend one interface; the first suspend stops the traffic. */
    method SuspendInterface(auto: bool) returns (rc: int, ghost run: seq<Action>)
      requires Valid() && !resuming
      modifies this`delayed, this`transmitting, this`pmRefs, this`submitted, this`suspCount, use
      ensures Valid()
      ensures Possible(old(State()), run) && State() == Run(old(State()), run)
      ensures rc == -EBUSY <==> auto && old(transmitting) != 0
      ensures rc == -EBUSY ==> State() == old(State())
      ensures rc != -EBUSY ==> suspCount == old(suspCount) + 1
      ensures rc != -EBUSY && old(suspCount) == 0 ==>
                && delayed == [] && submitted == {} && transmitting == 0 && pmRefs == 0
                && forall i :: 0 <= i < use.Length ==> !use[i]
    {
      ghost var start := State();
      if auto {
        if transmitting != 0 {
          run := [];
          return -EBUSY, run;
        }
      }
      var cnt := suspCount;
      suspCount := suspCount + 1;
      StepKeepsAccounted(start, Suspend(auto));
      assert State() == Step(start, Suspend(auto));
      run := RunCons(start, Suspend(auto), []);
      if cnt != 0 {
        return 0, run;
      }
      ghost var rest := StopDataTraffic();
      run := RunCons(start, Suspend(auto), rest);
      return 0, run;
    }

    /** Resume one interface; the last resume submits the delayed writes in order, the
        controller answering `answers(k)` to the k-th. */
    method ResumeInterface(answers: nat -> int) returns (ghost run: seq<Action>)
      requires Valid() && !resuming && suspCount > 0
      modifies this`delayed, this`transmitting, this`pmRefs, this`submitted, this`suspCount
      modifies this`resuming, this`sent, this`wire, use
      ensures Valid() && !resuming && suspCount == old(suspCount) - 1
      ensures Possible(old(State()), run) && State() == Run(old(State()), run)
      ensures suspCount == 0 && initialised ==>
                && delayed == [] && SlotsFit(buf[..], old(delayed))
                && wire == old(wire) + Submitted(buf[..], old(delayed), answers, 0)
      ensures suspCount > 0 || !initialised ==> delayed == old(delayed) && wire == old(wire)
    {
      hide Accounted;
      ghost var start := State();
      suspCount := suspCount - 1;
      StepKeepsAccounted(start, ResumeBegin);
      run := RunCons(start, ResumeBegin, []);
      if suspCount != 0 {
        assert State() == Step(start, ResumeBegin);
        return;
      }
      if initialised {
        resuming := true;
        assert State() == Step(start, ResumeBegin);
        hide Run, Possible;
        run := SubmitAllDelayed(answers, start, run);
        run := EndResume(start, run);
      }
    }

    method EndResume(ghost start: Port, ghost before: seq<Action>) returns (ghost run: seq<Action>)
      requires Valid() && resuming && delayed == []
      requires Accounted(start) && Possible(start, before) && State() == Run(start, before)
      modifies this`resuming
      ensures Valid() && !resuming
      ensures Possible(start, run) && State() == Run(start, run)
    {
      hide Accounted, Run, Possible;
      StepKeepsAccounted(State(), ResumeEnd);
      RunSnoc(start, before, ResumeEnd);
      run := before + [ResumeEnd];
      resuming := false;
    }

    method SubmitAllDelayed(answers: nat -> int, ghost start: Port, ghost before: seq<Action>)
      returns (ghost run: seq<Action>)
      requires Valid() && resuming && suspCount == 0
      requires Accounted(start) && Possible(start, before) && State() == Run(start, before)
      modifies this`delayed, this`transmitting, this`pmRefs, this`submitted, this`sent, this`wire, use
      ensures Valid() && delayed == []
      ensures Possible(start, run) && State() == Run(start, run)
      ensures SlotsFit(buf[..], old(delayed)) && wire == old(wire) + Submitted(buf[..], old(delayed), answers, 0)
    {
      hide Accounted;
      run := before;
      var k := 0;
      DelayedFit(State());
      while delayed != []
        invariant Valid() && resuming && suspCount == 0
        invariant Possible(start, run) && State() == Run(start, run)
        invariant SlotsFit(buf[..], delayed)
        invariant wire + Submitted(buf[..], delayed, answers, k) == old(wire + Submitted(buf[..], delayed, answers, 0))
        decreases |delayed|
      {
        SubmittedFirst(wire, buf[..], delayed, answers, k);
        RunSnoc(start, run, ResumeOne(answers(k) >= 0));
        run := run + [ResumeOne(answers(k) >= 0)];
        hide Run, Possible;
        SubmitDelayed(answers(k));
        k := k + 1;
      }
    }

    method SubmitDelayed(status: int)
      requires Valid() && resuming && delayed != []
      modifies this`delayed, this`transmitting, this`pmRefs, this`submitted, this`sent, this`wire, use
      ensures Valid() && State() == Step(old(State()), ResumeOne(status >= 0))
      ensures delayed == old(delayed)[1..]
      ensures old(delayed)[0] < buf.Length
              && wire == old(wire) + (if status >= 0 then [buf[old(delayed)[0]]] else [])
    {
      ghost var p := State();
      StepKeepsAccounted(p, ResumeOne(status >= 0));
      var slot := delayed[0];
      hide Accounted;
      delayed := delayed[1..];
      var rc := StartWb(slot, tag[slot], status);
    }
  }

  predicate SlotsFit(bufs: seq<Payload>, slots: seq<nat>) {
    forall k :: 0 <= k < |slots| ==> slots[k] < |bufs|
  }

  lemma DelayedFit(p: Port)
    requires Accounted(p)
    ensures SlotsFit(p.buf, p.delayed)
  {
  }

  /** The payloads a resume puts on the wire: those of the delayed writes, oldest first,
      that the controller takes. */
  function Submitted(bufs: seq<Payload>, slots: seq<nat>, answers: nat -> int, k: nat): seq<Payload>
    requires SlotsFit(bufs, slots)
    decreases slots
  {
    if slots == [] then []
    else
      assert forall j :: 0 <= j < |slots[1..]| ==> slots[1..][j] == slots[j + 1];
      (if answers(k) >= 0 then [bufs[slots[0]]] else []) + Submitted(bufs, slots[1..], answers, k + 1)
  }

  lemma SubmittedFirst(wire: seq<Payload>, bufs: seq<Payload>, slots: seq<nat>, answers: nat -> int, k: nat)
    requires SlotsFit(bufs, slots) && slots != []
    ensures SlotsFit(bufs, slots[1..])
    ensures wire + Submitted(bufs, slots, answers, k)
         == (wire + (if answers(k) >= 0 then [bufs[slots[0]]] else [])) + Submitted(bufs, slots[1..], answers, k + 1)
  {
  }

  lemma AllKilled(p: Port)
    requires Accounted(p) && p.delayed == [] && forall s :: s in p.submitted ==> |p.use| <= s
    ensures p.submitted == {} && p.transmitting == 0 && p.pmRefs == 0
    ensures forall i :: 0 <= i < |p.use| ==> !p.use[i]
  {
  }
}
