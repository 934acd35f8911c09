/** One master-driven AXI channel (AW, AR or W of hw/verilator_model/src/AXIMaster.hpp):
    a pending queue, a bounded queue, and the beat on the port, moved by alternating
    clock edges.  The three channels of the source differ in their payload only. */
module Channel {

  datatype State<T> = State(
    pending: seq<T>,
    queue: seq<T>,
    valid: bool,
    payload: T,       // what the port shows; meaningful while valid
    wait: bool,
    limit: nat,       // 0: unlimited
    // history and position in the clock cycle, for stating what is proved
    high: bool,       // a rising edge has been handled, the falling one not yet
    issued: seq<T>,
    accepted: seq<T>)

  function Issue<T>(s: State<T>, beat: T): State<T> {
    s.(pending := s.pending + [beat], issued := s.issued + [beat])
  }

  predicate CanSend<T>(s: State<T>) { s.limit == 0 || |s.queue| < s.limit }

  // has_*_beat, can_send_*_beat and send_*_beat
  function Send<T>(s: State<T>): State<T> {
    if s.pending != [] && CanSend(s)
    then s.(queue := s.queue + [s.pending[0]], pending := s.pending[1..])
    else s
  }

  function Posedge<T>(s: State<T>): State<T> {
    var t := s.(high := true);
    if s.wait then t
    else if s.queue == [] then t.(valid := false)
    else t.(valid := true, payload := s.queue[0], queue := s.queue[1..])
  }

  // The slave's ready may depend on valid and is looked at now; a beat with both set is
  // taken at the coming rising edge.
  function Negedge<T>(s: State<T>, ready: bool): State<T> {
    s.(high := false, wait := s.valid && !ready,
       accepted := if s.valid && ready then s.accepted + [s.payload] else s.accepted)
  }

  class Port<T> {
    var pending: seq<T>
    var queue: seq<T>
    var valid: bool
    var payload: T
    var wait: bool
    var limit: nat
    ghost var high: bool
    ghost var issued: seq<T>
    ghost var accepted: seq<T>

    ghost function View(): State<T>
      reads this
    {
      State(pending, queue, valid, payload, wait, limit, high, issued, accepted)
    }

    // The payload wires hold anything before the first beat.
    constructor (payload: T)
      ensures View() == State([], [], false, payload, false, 0, false, [], [])
      ensures Initial(View())
    {
      pending, queue, valid, wait, limit := [], [], false, false, 0;
      this.payload := payload;
      high, issued, accepted := false, [], [];
    }

    method Push(beat: T)
      modifies this
      ensures View() == Issue(old(View()), beat)
    {
      pending := pending + [beat];
      issued := issued + [beat];
    }

    method SendBeat()
      requires pending != [] && CanSend(View())  // the assertion of the source
      modifies this
      ensures View() == Send(old(View()))
    {
      queue := queue + [pending[0]];
      pending := pending[1..];
    }

    method OnPosedge()
      modifies this
      ensures View() == Posedge(old(View()))
    {
      high := true;
      if wait {
        return;
      }
      valid := false;
      if queue == [] {
        return;
      }
      payload := queue[0];
      valid := true;
      queue := queue[1..];
    }

    method OnNegedge(ready: bool)
      modifies this
      ensures View() == Negedge(old(View()), ready)
    {
      high := false;
      accepted := if valid && ready then accepted + [payload] else accepted;
      wait := false;
      if valid && !ready {
        wait := true;
      }
    }
  }

  // ---------- Runs ----------

  datatype Event<T> = Beat(beat: T) | SendBeat | Rise | Fall(ready: bool)

  // Edges alternate; beats come and move on at any time.
  predicate Enabled<T>(s: State<T>, e: Event<T>) {
    match e
    case Rise => !s.high
    case Fall(_) => s.high
    case _ => true
  }

  function Step<T>(s: State<T>, e: Event<T>): State<T> {
    match e
    case Beat(beat) => Issue(s, beat)
    case SendBeat => Send(s)
    case Rise => Posedge(s)
    case Fall(ready) => Negedge(s, ready)
  }

  ghost predicate Initial<T>(s: State<T>) {
    s.pending == [] && s.queue == [] && !s.wait && !s.high && s.issued == [] && s.accepted == []
  }

  ghost predicate IsRun<T>(run: seq<State<T>>, es: seq<Event<T>>) {
    && |run| == |es| + 1 && Initial(run[0])
    && forall i :: 0 <= i < |es| ==> Enabled(run[i], es[i]) && run[i + 1] == Step(run[i], es[i])
  }

  // The beat on the port that the slave has not accepted yet.
  function Held<T>(s: State<T>): seq<T> {
    if s.valid && (s.high || s.wait) then [s.payload] else []
  }

  ghost predicate Conserved<T>(s: State<T>) {
    && s.accepted + Held(s) + s.queue + s.pending == s.issued
    && (s.wait ==> s.valid)
    && (s.limit > 0 ==> |s.queue| <= s.limit)
  }

  lemma MoveOne<T>(front: seq<T>, queue: seq<T>, pending: seq<T>)
    requires pending != []
    ensures front + (queue + [pending[0]]) + pending[1..] == front + queue + pending
  {}

  lemma StepConserves<T>(s: State<T>, e: Event<T>)
    requires Conserved(s) && Enabled(s, e)
    ensures Conserved(Step(s, e))
  {
    var s' := Step(s, e);
    match e
    case Beat(beat) =>
      assert s.accepted + Held(s) + s.queue + (s.pending + [beat]) == s.issued + [beat];
    case SendBeat =>
      if s.pending != [] && CanSend(s) {
        MoveOne(s.accepted + Held(s), s.queue, s.pending);
      }
    case Rise =>
      assert Held(s') + s'.queue == Held(s) + s.queue;
      assert s.accepted + Held(s) + s.queue == s.accepted + (Held(s) + s.queue);
      assert s.accepted + Held(s') + s'.queue == s.accepted + (Held(s') + s'.queue);
    case Fall(ready) =>
      assert s'.accepted + Held(s') == s.accepted + Held(s);
  }

  // Main result: in every run, what was accepted, then the beat on the port, the queue
  // and the pending beats are exactly the beats issued, in order.
  lemma {:induction false} RunsConserve<T>(run: seq<State<T>>, es: seq<Event<T>>, i: nat)
    requires IsRun(run, es) && i < |run|
    ensures run[i].limit == 0 || |run[i].queue| <= run[i].limit
    ensures run[i].accepted + Held(run[i]) + run[i].queue + run[i].pending == run[i].issued
    ensures Conserved(run[i])
    decreases i
  {
    if i > 0 {
      RunsConserve(run, es, i - 1);
      StepConserves(run[i - 1], es[i - 1]);
    }
  }

  // Section A3.2.1 of ARM IHI 0022E: once valid is set, it and the payload stay until the
  // beat is accepted, whatever happens in between.
  lemma {:induction false} HeldUntilAccepted<T>(run: seq<State<T>>, es: seq<Event<T>>, i: nat, j: nat)
    requires IsRun(run, es) && i <= j < |run|
    requires Held(run[i]) != [] && run[j].accepted == run[i].accepted
    ensures run[j].valid && run[j].payload == run[i].payload && Held(run[j]) == Held(run[i])
    decreases j
  {
    if i < j {
      AcceptedGrows(run, es, i, j - 1);
      AcceptedGrows(run, es, j - 1, j);
      HeldUntilAccepted(run, es, i, j - 1);
    }
  }

  lemma {:induction false} AcceptedGrows<T>(run: seq<State<T>>, es: seq<Event<T>>, i: nat, j: nat)
    requires IsRun(run, es) && i <= j < |run|
    ensures run[i].accepted <= run[j].accepted
    decreases j
  {
    if i < j {
      AcceptedGrows(run, es, i, j - 1);
      assert run[j] == Step(run[j - 1], es[j - 1]);
    }
  }

  // ---------- Progress ----------

  // n clock cycles in which the slave is always ready.
  function Cycles<T>(s: State<T>, n: nat): State<T>
    decreases n
  {
    if n == 0 then s else Cycles(Negedge(Posedge(s), true), n - 1)
  }

  // The beats that no longer need the engine to send them on.
  function Waiting<T>(s: State<T>): seq<T> { Held(s) + s.queue }

  lemma ReadyCycle<T>(s: State<T>, t: State<T>)
    requires !s.high && (s.wait ==> s.valid) && Waiting(s) != [] && t == Negedge(Posedge(s), true)
    ensures t.accepted == s.accepted + [Waiting(s)[0]] && Waiting(t) == Waiting(s)[1..]
    ensures !t.high && !t.wait && t.pending == s.pending && t.issued == s.issued
  {}

  // A ready slave gets one beat a cycle, until the port and the queue are empty.
  lemma {:induction false} ReadySlaveDrains<T>(s: State<T>, n: nat)
    requires !s.high && (s.wait ==> s.valid) && n == |Waiting(s)|
    ensures Cycles(s, n).accepted == s.accepted + Waiting(s)
    ensures Waiting(Cycles(s, n)) == []
    decreases n
  {
    if n > 0 {
      ReadyCycle(s, Negedge(Posedge(s), true));
      ReadySlaveDrains(Negedge(Posedge(s), true), n - 1);
      FirstThenRest(s.accepted, Waiting(s));
    }
  }

  lemma FirstThenRest<T>(a: seq<T>, w: seq<T>)
    requires w != []
    ensures (a + [w[0]]) + w[1..] == a + w
  {}

  // A pending beat moves to the queue exactly when the queue is unlimited or not full.
  lemma BeatsMoveOn<T>(run: seq<State<T>>, es: seq<Event<T>>, k: nat)
    requires IsRun(run, es) && k < |es| && es[k] == SendBeat
    ensures var s, s' := run[k], run[k + 1];
      if s.pending != [] && (s.limit == 0 || |s.queue| < s.limit) then
        s' == s.(queue := s.queue + [s.pending[0]], pending := s.pending[1..])
      else s' == s
  {}

  // The beat on the port is accepted exactly at a falling edge with valid and ready set.
  lemma AcceptsExactly<T>(run: seq<State<T>>, es: seq<Event<T>>, k: nat)
    requires IsRun(run, es) && k < |es|
    ensures run[k + 1].accepted == run[k].accepted +
      if es[k] == Fall(true) && run[k].valid then [run[k].payload] else []
  {
    assert run[k].accepted + [] == run[k].accepted;
  }

  // At a rising edge with no beat held, the oldest queued beat goes on the port, and valid
  // falls if there is none.
  lemma RisesExactly<T>(run: seq<State<T>>, es: seq<Event<T>>, k: nat)
    requires IsRun(run, es) && k < |es| && es[k] == Rise
    ensures var s, s' := run[k], run[k + 1];
      if Held(s) != [] then Held(s') == Held(s) && s'.queue == s.queue
      else if s.queue == [] then !s'.valid
      else Held(s') == [s.queue[0]] && s'.queue == s.queue[1..]
  {
    RunsConserve(run, es, k);
  }

  // n clock cycles in which the engine moves a beat on and the slave is ready.
  function BusyCycles<T>(s: State<T>, n: nat): State<T>
    decreases n
  {
    if n == 0 then s else BusyCycles(Negedge(Posedge(Send(s)), true), n - 1)
  }

  // The beats not accepted yet.
  function Remaining<T>(s: State<T>): seq<T> { Held(s) + s.queue + s.pending }

  lemma SendKeepsRemaining<T>(s: State<T>)
    ensures Remaining(Send(s)) == Remaining(s)
    ensures Remaining(s) != [] ==> Waiting(Send(s)) != []
  {
    if s.pending != [] {
      MoveOne(Held(s), s.queue, s.pending);
    }
  }

  lemma ReadyCycleConserves<T>(s: State<T>, t: State<T>)
    requires Conserved(s) && !s.high && t == Negedge(Posedge(s), true)
    ensures Conserved(t)
  {
    StepConserves(s, Rise);
    StepConserves(Posedge(s), Fall(true));
  }

  lemma BusyCycle<T>(s: State<T>, u: State<T>, t: State<T>)
    requires Conserved(s) && !s.high && Remaining(s) != [] && u == Send(s) && t == Negedge(Posedge(u), true)
    ensures Conserved(t) && !t.high && t.issued == s.issued && Remaining(t) == Remaining(s)[1..]
  {
    SendKeepsRemaining(s);
    StepConserves(s, SendBeat);
    ReadyCycleConserves(u, t);
    ReadyCycle(u, t);
  }

  // Main result: from every state of every run between two cycles, every beat issued is
  // accepted, one a cycle, if the engine keeps sending and the slave is ready.
  lemma EveryBeatIsAccepted<T>(run: seq<State<T>>, es: seq<Event<T>>, i: nat)
    requires IsRun(run, es) && i < |run| && !run[i].high
    ensures var n := |run[i].issued| - |run[i].accepted|;
      n >= 0 && BusyCycles(run[i], n).accepted == run[i].issued
  {
    RunsConserve(run, es, i);
    BusyCyclesAccept(run[i], |Remaining(run[i])|);
  }

  lemma {:induction false} BusyCyclesAccept<T>(s: State<T>, n: nat)
    requires Conserved(s) && !s.high && n == |Remaining(s)|
    ensures BusyCycles(s, n).accepted == s.issued
    decreases n
  {
    if n > 0 {
      var t := Negedge(Posedge(Send(s)), true);
      BusyCycle(s, Send(s), t);
      BusyCyclesAccept(t, n - 1);
    } else {
      assert s.accepted + Held(s) + s.queue + s.pending == s.accepted + Remaining(s);
    }
  }
}
