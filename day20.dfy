/** Pulse propagation (aoc23/day20.py): modules wired into a circuit pass
    high and low pulses through a first-in first-out event bus. Flip-flops
    toggle on low pulses, conjunctions remember the last pulse from each
    input, and the broadcaster forwards what it receives. */
module Day20 {
  import opened Common

  /** The source encodes a low pulse as True and a high pulse as False. */
  const LO: bool := true
  const HI: bool := false

  /** The subclass of `Node` a module is. */
  datatype Kind = Plain | FlipFlop | Conjunction | Broadcaster

  /** An event on the bus: `(source name, value, receiver name)`. */
  datatype Pulse = Pulse(source: string, value: bool, receiver: string)

  /** The fields of one module as a value: its ordered inputs with the last
      pulse seen from each, its outputs in wiring order, and (for a
      flip-flop) its memory. */
  datatype NodeState = NodeState(kind: Kind, ins: seq<(string, bool)>, outs: seq<string>, mem: bool)

  // ---------------------------------------------------------------------
  // Ordered inputs

  /** The value recorded for input k, if any. */
  function Lookup(ins: seq<(string, bool)>, k: string): Option<bool>
  {
    if ins == [] then None else if ins[0].0 == k then Some(ins[0].1) else Lookup(ins[1..], k)
  }

  /** The input names, in order. */
  function Keys(ins: seq<(string, bool)>): (ks: seq<string>)
    ensures |ks| == |ins| && forall i :: 0 <= i < |ins| ==> ks[i] == ins[i].0
  {
    if ins == [] then [] else [ins[0].0] + Keys(ins[1..])
  }

  /** `ins[k] = v` on an ordered dict: an existing key keeps its place, a
      new key goes last. */
  function SetIn(ins: seq<(string, bool)>, k: string, v: bool): (r: seq<(string, bool)>)
  {
    if ins == [] then [(k, v)]
    else if ins[0].0 == k then [(k, v)] + ins[1..]
    else [ins[0]] + SetIn(ins[1..], k, v)
  }

  /** After `ins[k] = v`, k maps to v, every other key keeps its value, and
      the keys are the old ones with k added last if it was new. */
  lemma {:induction false} SetInLookup(ins: seq<(string, bool)>, k: string, v: bool, k': string)
    ensures Lookup(SetIn(ins, k, v), k') == if k' == k then Some(v) else Lookup(ins, k')
    ensures Keys(SetIn(ins, k, v)) == if k in Keys(ins) then Keys(ins) else Keys(ins) + [k]
  {
    if ins != [] && ins[0].0 != k {
      SetInLookup(ins[1..], k, v, k');
      assert Keys(ins) == [ins[0].0] + Keys(ins[1..]);
    }
  }

  /** Every input last saw a high pulse (`all` of nothing is true). */
  predicate AllHi(ins: seq<(string, bool)>)
  {
    forall i :: 0 <= i < |ins| ==> ins[i].1 == HI
  }

  /** Every input set to low, in the same order. */
  function Lowered(ins: seq<(string, bool)>): (r: seq<(string, bool)>)
    ensures |r| == |ins| && forall i :: 0 <= i < |ins| ==> r[i] == (ins[i].0, LO)
  {
    if ins == [] then [] else [(ins[0].0, LO)] + Lowered(ins[1..])
  }

  /** `Node.state`: bit i is set when input i last saw a low pulse;
      `FlipFlop.state` is its memory as 0 or 1. */
  function State(s: NodeState): (n: nat)
    ensures n < Pow2(if s.kind == FlipFlop then 1 else |s.ins|)
  {
    if s.kind == FlipFlop then (if s.mem then 1 else 0) else InputBits(s.ins)
  }

  function InputBits(ins: seq<(string, bool)>): (n: nat)
    ensures n < Pow2(|ins|)
  {
    if ins == [] then 0 else (if ins[0].1 then 1 else 0) + 2 * InputBits(ins[1..])
  }

  function Pow2(n: nat): (p: nat)
    ensures p >= 1
  {
    if n == 0 then 1 else 2 * Pow2(n - 1)
  }

  // ---------------------------------------------------------------------
  // What one module does with a pulse

  /** `bus.send(self, v, o) for o in outs`: one pulse per output, in order. */
  function Sends(self: string, v: bool, outs: seq<string>): (ps: seq<Pulse>)
    ensures |ps| == |outs|
  {
    if outs == [] then [] else Sends(self, v, outs[..|outs| - 1]) + [Pulse(self, v, outs[|outs| - 1])]
  }

  /** Pulse i goes from the sender to output i with the given value. */
  lemma {:induction false} SendsAt(self: string, v: bool, outs: seq<string>)
    ensures forall i :: 0 <= i < |outs| ==> Sends(self, v, outs)[i] == Pulse(self, v, outs[i])
  {
    if outs != [] {
      SendsAt(self, v, outs[..|outs| - 1]);
    }
  }

  /** `mem ^= LO`. */
  function Xor(a: bool, b: bool): bool { a != b }

  /** `signal` of the module's subclass: the new state and the pulses sent. */
  function Receive(s: NodeState, self: string, source: string, value: bool): (NodeState, seq<Pulse>)
  {
    var s1 := s.(ins := SetIn(s.ins, source, value));
    match s.kind
    case Plain => (s1, [])
    case FlipFlop =>
      if value == LO then
        var m := Xor(s.mem, LO);
        (s1.(mem := m), Sends(self, m, s.outs))
      else (s1, [])
    case Conjunction => (s1, Sends(self, if AllHi(s1.ins) then LO else HI, s.outs))
    case Broadcaster => (s1, Sends(self, value, s.outs))
  }

  /** Every module records the pulse against its source and keeps its outputs. */
  lemma ReceiveRecords(s: NodeState, self: string, source: string, value: bool)
    ensures var (s', _) := Receive(s, self, source, value);
            s'.ins == SetIn(s.ins, source, value) && s'.outs == s.outs && s'.kind == s.kind
  {
  }

  /** A flip-flop ignores a high pulse apart from recording it; a low pulse
      toggles its memory, and the new memory goes to every output in order. */
  lemma FlipFlopReceive(s: NodeState, self: string, source: string, value: bool)
    requires s.kind == FlipFlop
    ensures var (s', ps) := Receive(s, self, source, value);
            if value == HI then s'.mem == s.mem && ps == []
            else s'.mem == !s.mem && |ps| == |s.outs| && forall i :: 0 <= i < |ps| ==> ps[i] == Pulse(self, s'.mem, s.outs[i])
  {
    SendsAt(self, if s.kind == FlipFlop then !s.mem else if AllHi(SetIn(s.ins, source, value)) then LO else HI, s.outs);
  }

  /** A conjunction sends low to every output exactly when every remembered
      input, the new one included, is high; otherwise it sends high. */
  lemma ConjunctionReceive(s: NodeState, self: string, source: string, value: bool)
    requires s.kind == Conjunction
    ensures var (s', ps) := Receive(s, self, source, value);
            |ps| == |s.outs| && forall i :: 0 <= i < |ps| ==> ps[i] == Pulse(self, if AllHi(s'.ins) then LO else HI, s.outs[i])
  {
    SendsAt(self, if s.kind == FlipFlop then !s.mem else if AllHi(SetIn(s.ins, source, value)) then LO else HI, s.outs);
  }

  /** The broadcaster forwards the pulse it receives to every output; a
      plain module sends nothing. */
  lemma BroadcasterReceive(s: NodeState, self: string, source: string, value: bool)
    ensures s.kind == Broadcaster ==> Receive(s, self, source, value).1 == Sends(self, value, s.outs)
    ensures s.kind == Plain ==> Receive(s, self, source, value).1 == []
  {
  }

  // ---------------------------------------------------------------------
  // The whole circuit as a value

  /** How a run of the bus ended: the queue emptied, a pulse went to a name
      with no module (KeyError), or the step bound ran out (the source
      would go on). */
  datatype Status = Drained | NoReceiver(name: string) | Unfinished

  /** The end of `pump`: its status, the modules, the queue left, and every
      pulse taken from the queue, in order. */
  datatype Run = Run(status: Status, sys: map<string, NodeState>, q: seq<Pulse>, popped: seq<Pulse>)

  /** `EventBus.pump` with at most `fuel` pulses taken from the queue. */
  function PumpRun(sys: map<string, NodeState>, q: seq<Pulse>, fuel: nat): (r: Run)
    decreases fuel
  {
    if q == [] then Run(Drained, sys, q, [])
    else if fuel == 0 then Run(Unfinished, sys, q, [])
    else
      var p := q[0];
      if p.receiver !in sys then Run(NoReceiver(p.receiver), sys, q[1..], [p])
      else
        var got := Receive(sys[p.receiver], p.receiver, p.source, p.value);
        var rest := PumpRun(sys[p.receiver := got.0], q[1..] + got.1, fuel - 1);
        Run(rest.status, rest.sys, rest.q, [p] + rest.popped)
  }

  /** The pulses of the given value. */
  function CountOf(ps: seq<Pulse>, v: bool): (n: nat)
    ensures n <= |ps|
  {
    if ps == [] then 0 else CountOf(ps[..|ps| - 1], v) + (if ps[|ps| - 1].value == v then 1 else 0)
  }

  /** Every pulse is low or high, so lo + hi counts every pulse. */
  lemma {:induction false} CountLoHi(ps: seq<Pulse>)
    ensures CountOf(ps, LO) + CountOf(ps, HI) == |ps|
  {
    if ps != [] {
      CountLoHi(ps[..|ps| - 1]);
    }
  }

  lemma {:induction false} CountOfAppend(a: seq<Pulse>, b: seq<Pulse>, v: bool)
    ensures CountOf(a + b, v) == CountOf(a, v) + CountOf(b, v)
    decreases |b|
  {
    if b == [] {
      assert a + b == a;
    } else {
      assert (a + b)[..|a + b| - 1] == a + b[..|b| - 1];
      CountOfAppend(a, b[..|b| - 1], v);
    }
  }

  /** The queue is first-in first-out: when the bus drains, the pulses
      queued at the start are the first ones taken, in their order. */
  lemma {:induction false} PumpFifo(sys: map<string, NodeState>, q: seq<Pulse>, fuel: nat)
    requires PumpRun(sys, q, fuel).status == Drained
    ensures q <= PumpRun(sys, q, fuel).popped
    ensures PumpRun(sys, q, fuel).q == []
    decreases fuel
  {
    if q != [] {
      var p := q[0];
      var (s', out) := Receive(sys[p.receiver], p.receiver, p.source, p.value);
      PumpFifo(sys[p.receiver := s'], q[1..] + out, fuel - 1);
      var rest := PumpRun(sys[p.receiver := s'], q[1..] + out, fuel - 1);
      assert q[1..] <= q[1..] + out <= rest.popped;
      assert q == [p] + q[1..];
    }
  }

  /** A drained run keeps the same modules: pulses never create or remove one. */
  lemma {:induction false} PumpKeepsModules(sys: map<string, NodeState>, q: seq<Pulse>, fuel: nat)
    ensures PumpRun(sys, q, fuel).sys.Keys == sys.Keys
    decreases fuel
  {
    if q != [] && fuel > 0 && q[0].receiver in sys {
      var p := q[0];
      var (s', out) := Receive(sys[p.receiver], p.receiver, p.source, p.value);
      PumpKeepsModules(sys[p.receiver := s'], q[1..] + out, fuel - 1);
    }
  }

  // ---------------------------------------------------------------------
  // Modules and the bus as objects

  class Node {
    const name: string
    const kind: Kind
    var ins: seq<(string, bool)>
    var outs: seq<string>
    var mem: bool

    /** `Node(name)` of the given subclass: no inputs, no outputs, memory low. */
    constructor (name: string, kind: Kind)
      ensures this.name == name && this.kind == kind
      ensures ins == [] && outs == [] && mem == LO
    {
      this.name := name;
      this.kind := kind;
      ins := [];
      outs := [];
      mem := LO;
    }

    function Snap(): NodeState
      reads this
    {
      NodeState(kind, ins, outs, mem)
    }

    /** `connect_source`: the source gains this module as its last output,
        and this module records a low pulse from the source. */
    method ConnectSource(node: Node)
      modifies this, node
      ensures node.outs == old(node.outs) + [name]
      ensures ins == SetIn(old(ins), node.name, LO)
      ensures mem == old(mem) && node.mem == old(node.mem)
      ensures node != this ==> outs == old(outs) && node.ins == old(node.ins)
    {
      node.outs := node.outs + [name];
      ins := SetIn(ins, node.name, LO);
    }

    /** `bus.send(self, value, o)` for each output o, in order. */
    method SendAll(bus: EventBus, value: bool)
      modifies bus
      ensures bus.q == old(bus.q) + Sends(name, value, outs)
    {
      for i := 0 to |outs|
        invariant bus.q == old(bus.q) + Sends(name, value, outs[..i])
      {
        assert outs[..i + 1][..i] == outs[..i];
        bus.Send(this, value, outs[i]);
      }
      assert outs[..|outs|] == outs;
    }

    /** `signal`: record the pulse, then act as the module's subclass does. */
    method Signal(bus: EventBus, source: string, value: bool)
      modifies this, bus
      ensures Snap() == Receive(old(Snap()), name, source, value).0
      ensures bus.q == old(bus.q) + Receive(old(Snap()), name, source, value).1
    {
      ins := SetIn(ins, source, value);
      match kind {
        case Plain =>
        case FlipFlop =>
          if value == LO {
            mem := Xor(mem, LO);
            SendAll(bus, mem);
          }
        case Conjunction =>
          if AllHi(ins) {
            SendAll(bus, LO);
          } else {
            SendAll(bus, HI);
          }
        case Broadcaster =>
          SendAll(bus, value);
      }
    }

    /** `reset`: every input set to low, in the same order; a flip-flop's
        memory set to low as well. */
    method Reset()
      modifies this
      ensures Keys(ins) == Keys(old(ins)) && AllLow(ins)
      ensures outs == old(outs) && mem == (if kind == FlipFlop then LO else old(mem))
    {
      var i := 0;
      while i < |ins|
        invariant 0 <= i <= |ins| && |ins| == |old(ins)|
        invariant ins == Lowered(old(ins)[..i]) + old(ins)[i..]
        invariant outs == old(outs) && mem == old(mem)
      {
        LoweredStep(old(ins), i);
        ins := ins[i := (ins[i].0, LO)];
        i := i + 1;
      }
      LoweredAll(old(ins));
      if kind == FlipFlop {
        mem := LO;
      }
    }
  }

  predicate AllLow(ins: seq<(string, bool)>)
  {
    forall i :: 0 <= i < |ins| ==> ins[i].1 == LO
  }

  /** Setting input i to low extends the lowered prefix by one. */
  lemma LoweredStep(ins: seq<(string, bool)>, i: nat)
    requires i < |ins|
    ensures (Lowered(ins[..i]) + ins[i..])[i := (ins[i].0, LO)] == Lowered(ins[..i + 1]) + ins[i + 1..]
  {
    var got := (Lowered(ins[..i]) + ins[i..])[i := (ins[i].0, LO)];
    var want := Lowered(ins[..i + 1]) + ins[i + 1..];
    assert |got| == |want|;
    forall j | 0 <= j < |got|
      ensures got[j] == want[j]
    {
      if j < i {
        assert got[j] == Lowered(ins[..i])[j];
      } else if j > i {
        assert got[j] == ins[j];
      }
    }
    assert got == want;
  }

  /** Once the lowered prefix is the whole, every input is low and the keys are kept. */
  lemma LoweredAll(ins: seq<(string, bool)>)
    ensures Lowered(ins[..|ins|]) + ins[|ins|..] == Lowered(ins)
    ensures Keys(Lowered(ins)) == Keys(ins) && AllLow(Lowered(ins))
  {
    assert ins[..|ins|] == ins && ins[|ins|..] == [];
    KeysLowered(ins);
  }

  lemma KeysLowered(ins: seq<(string, bool)>)
    ensures Keys(Lowered(ins)) == Keys(ins) && AllLow(Lowered(ins))
  {
  }

  /** Each module sits under its own name, so distinct names are distinct objects. */
  predicate Valid(components: map<string, Node>)
  {
    forall k :: k in components ==> components[k].name == k
  }

  /** `sys` holds the fields of every module, under the module's name. */
  predicate Mirrors(components: map<string, Node>, sys: map<string, NodeState>)
    reads components.Values
  {
    components.Keys == sys.Keys && forall k :: k in components ==> components[k].Snap() == sys[k]
  }

  class EventBus {
    var q: seq<Pulse>

    constructor ()
      ensures q == []
    {
      q := [];
    }

    /** `send`: the pulse joins the back of the queue. */
    method Send(source: Node, value: bool, receiver: string)
      modifies this
      ensures q == old(q) + [Pulse(source.name, value, receiver)]
    {
      q := q + [Pulse(source.name, value, receiver)];
    }

    /** `push_button`: a low pulse from 'button' to 'broadcaster' joins the queue. */
    method PushButton()
      modifies this
      ensures q == old(q) + [Pulse("button", LO, "broadcaster")]
    {
      q := q + [Pulse("button", LO, "broadcaster")];
    }

    /** `pump`: take pulses from the front of the queue, count the low and
        high ones, and deliver each to its receiver, until the queue is
        empty; `fuel` bounds the number of pulses taken. */
    method Pump(components: map<string, Node>, ghost sys0: map<string, NodeState>, fuel: nat)
        returns (status: Status, lo: nat, hi: nat)
      requires Valid(components) && Mirrors(components, sys0)
      modifies this, components.Values
      ensures var r := PumpRun(sys0, old(q), fuel);
              status == r.status && Mirrors(components, r.sys) && q == r.q
              && lo == CountOf(r.popped, LO) && hi == CountOf(r.popped, HI)
    {
      ghost var goal := PumpRun(sys0, q, fuel);
      ghost var sys, popped;
      var left;
      sys, popped, left, lo, hi := Drain(components, sys0, fuel, goal);
      status, lo, hi := Finish(components, sys, left, goal, popped, lo, hi);
    }

    /** `pump`'s loop while the first receiver exists. */
    method Drain(components: map<string, Node>, ghost sys0: map<string, NodeState>, fuel: nat, ghost goal: Run)
        returns (ghost sys: map<string, NodeState>, ghost popped: seq<Pulse>, left: nat, lo: nat, hi: nat)
      requires Pumping(components, sys0, fuel, goal, [], 0, 0)
      modifies this, components.Values
      ensures Pumping(components, sys, left, goal, popped, lo, hi)
      ensures q == [] || left == 0 || q[0].receiver !in components
    {
      sys, popped, left, lo, hi := sys0, [], fuel, 0, 0;
      while q != [] && left > 0 && q[0].receiver in components
        invariant Pumping(components, sys, left, goal, popped, lo, hi)
        decreases left
      {
        sys, popped, left, lo, hi := Take(components, sys, left, goal, popped, lo, hi);
      }
    }

    /** How `pump` ends: the queue is empty, the bound is reached, or the
        first pulse has no receiver and is counted before the lookup fails. */
    method Finish(components: map<string, Node>, ghost sys: map<string, NodeState>, left: nat,
                  ghost goal: Run, ghost popped: seq<Pulse>, lo: nat, hi: nat)
        returns (status: Status, lo': nat, hi': nat)
      requires Pumping(components, sys, left, goal, popped, lo, hi)
      requires q == [] || left == 0 || q[0].receiver !in components
      modifies this
      ensures status == goal.status && Mirrors(components, goal.sys) && q == goal.q
      ensures lo' == CountOf(goal.popped, LO) && hi' == CountOf(goal.popped, HI)
    {
      if q == [] || left == 0 {
        ContinuesEnd(sys, q, left, goal, popped);
        status, lo', hi' := if q == [] then Drained else Unfinished, lo, hi;
      } else {
        var p := q[0];
        ContinuesMissing(sys, q, left, goal, popped);
        lo', hi' := Count(lo, hi, popped, p);
        q := q[1..];
        status := NoReceiver(p.receiver);
      }
    }

    /** `push_and_pump_n` with a given number of presses: push the button,
        pump, and add up the low and high counts, n times. */
    method PushAndPumpN(components: map<string, Node>, ghost sys0: map<string, NodeState>, n: nat, fuel: nat)
        returns (status: Status, totalLo: nat, totalHi: nat, presses: nat)
      requires Valid(components) && Mirrors(components, sys0)
      modifies this, components.Values
      ensures var r := PressRun(sys0, old(q), n, fuel);
              status == r.status && Mirrors(components, r.sys) && q == r.q
              && totalLo == r.lo && totalHi == r.hi && presses == r.presses
    {
      ghost var runs;
      status, totalLo, totalHi, presses, runs := PressAll(components, sys0, n, fuel);
      ChainPressRun(sys0, old(q), runs, n, fuel);
    }

    /** `push_and_pump_n`'s loop: the pumps it runs form a chain of presses. */
    method PressAll(components: map<string, Node>, ghost sys0: map<string, NodeState>, n: nat, fuel: nat)
        returns (status: Status, totalLo: nat, totalHi: nat, presses: nat, ghost runs: seq<Run>)
      requires Valid(components) && Mirrors(components, sys0)
      modifies this, components.Values
      ensures Chain(sys0, old(q), runs, fuel) && |runs| <= n
      ensures |runs| < n ==> runs != [] && runs[|runs| - 1].status != Drained
      ensures ChainPresses(sys0, old(q), runs) == Presses(status, ChainPresses(sys0, old(q), runs).sys, q, totalLo, totalHi, presses)
      ensures Mirrors(components, ChainPresses(sys0, old(q), runs).sys)
    {
      ghost var q0 := q;
      runs := [];
      totalLo, totalHi, presses := 0, 0, 0;
      status := Drained;
      while presses < n && status == Drained
        invariant Pressing(components, sys0, q0, fuel, n, runs, status, totalLo, totalHi, presses)
        decreases n - presses, if status == Drained then 1 else 0
      {
        status, totalLo, totalHi, presses, runs := PressOnce(components, sys0, q0, n, fuel, runs, totalLo, totalHi, presses);
      }
    }

    /** What `push_and_pump_n`'s loop keeps true: the pumps so far form a
        chain of presses, the modules and the queue are where the last one
        ended, and the totals add up its pulses. */
    predicate Pressing(components: map<string, Node>, sys0: map<string, NodeState>, q0: seq<Pulse>, fuel: nat, n: nat,
                       runs: seq<Run>, status: Status, totalLo: nat, totalHi: nat, presses: nat)
      reads this, components.Values
    {
      var start := StartOf(sys0, q0, runs, |runs|);
      Valid(components) && Mirrors(components, start.0) && q == start.1
      && Tally(sys0, q0, fuel, n, runs, status, totalLo, totalHi, presses)
    }

    /** One turn of `push_and_pump_n`'s loop: push the button, pump, and
        add the counts. */
    method PressOnce(components: map<string, Node>, ghost sys0: map<string, NodeState>, ghost q0: seq<Pulse>,
                     n: nat, fuel: nat, ghost runs: seq<Run>, totalLo: nat, totalHi: nat, presses: nat)
        returns (status': Status, totalLo': nat, totalHi': nat, presses': nat, ghost runs': seq<Run>)
      requires Pressing(components, sys0, q0, fuel, n, runs, Drained, totalLo, totalHi, presses) && presses < n
      modifies this, components.Values
      ensures Pressing(components, sys0, q0, fuel, n, runs', status', totalLo', totalHi', presses')
      ensures presses' == if status' == Drained then presses + 1 else presses
    {
      ghost var start := StartOf(sys0, q0, runs, |runs|);
      ghost var run := PumpRun(start.0, q + [Button], fuel);
      PushButton();
      var lo, hi;
      status', lo, hi := Pump(components, start.0, fuel);
      TallyStep(sys0, q0, fuel, n, runs, totalLo, totalHi, presses, run, lo, hi);
      runs' := runs + [run];
      totalLo', totalHi' := totalLo + lo, totalHi + hi;
      presses' := if status' == Drained then presses + 1 else presses;
    }

    /** What `pump` keeps true: the modules mirror `sys`, the rest of the
        run from here ends as the whole run does, and lo and hi count the
        pulses taken so far. */
    predicate Pumping(components: map<string, Node>, sys: map<string, NodeState>, left: nat,
                      goal: Run, popped: seq<Pulse>, lo: nat, hi: nat)
      reads this, components.Values
    {
      Valid(components) && Mirrors(components, sys) && Continues(PumpRun(sys, q, left), goal, popped)
      && lo == CountOf(popped, LO) && hi == CountOf(popped, HI)
    }

    /** One turn of `pump`'s loop when the first receiver exists: pop the
        pulse, count it and deliver it. */
    method Take(components: map<string, Node>, ghost sys: map<string, NodeState>, left: nat,
                ghost goal: Run, ghost popped: seq<Pulse>, lo: nat, hi: nat)
        returns (ghost sys': map<string, NodeState>, ghost popped': seq<Pulse>, left': nat, lo': nat, hi': nat)
      requires Pumping(components, sys, left, goal, popped, lo, hi)
      requires q != [] && left > 0 && q[0].receiver in components
      modifies this, components.Values
      ensures Pumping(components, sys', left', goal, popped', lo', hi')
      ensures popped' == popped + [old(q)[0]] && left' == left - 1
    {
      var p := q[0];
      lo', hi' := Count(lo, hi, popped, p);
      ghost var rcv := Receive(sys[p.receiver], p.receiver, p.source, p.value);
      ContinuesStep(sys, q, left, goal, popped, rcv.0, rcv.1);
      q := q[1..];
      Deliver(components, sys, p, this);
      sys', popped', left' := sys[p.receiver := rcv.0], popped + [p], left - 1;
    }
  }

  /** `lo += 1` or `hi += 1` for the pulse just taken. */
  method Count(lo: nat, hi: nat, ghost popped: seq<Pulse>, p: Pulse) returns (lo': nat, hi': nat)
    requires lo == CountOf(popped, LO) && hi == CountOf(popped, HI)
    ensures lo' == CountOf(popped + [p], LO) && hi' == CountOf(popped + [p], HI)
  {
    CountOfAppend(popped, [p], LO);
    CountOfAppend(popped, [p], HI);
    if p.value == LO {
      lo', hi' := lo + 1, hi;
    } else {
      lo', hi' := lo, hi + 1;
    }
  }

  /** The rest of a run, from some point on, ends as the whole run does;
      `popped` is what was taken before that point. */
  predicate Continues(r: Run, goal: Run, popped: seq<Pulse>)
  {
    r.status == goal.status && r.sys == goal.sys && r.q == goal.q && popped + r.popped == goal.popped
  }

  lemma ContinuesStep(sys: map<string, NodeState>, q: seq<Pulse>, fuel: nat, goal: Run, popped: seq<Pulse>,
                      s': NodeState, out: seq<Pulse>)
    requires Continues(PumpRun(sys, q, fuel), goal, popped)
    requires q != [] && fuel > 0 && q[0].receiver in sys
    requires (s', out) == Receive(sys[q[0].receiver], q[0].receiver, q[0].source, q[0].value)
    ensures Continues(PumpRun(sys[q[0].receiver := s'], q[1..] + out, fuel - 1), goal, popped + [q[0]])
  {
    var p := q[0];
    var rest := PumpRun(sys[p.receiver := s'], q[1..] + out, fuel - 1);
    assert popped + ([p] + rest.popped) == (popped + [p]) + rest.popped;
  }

  lemma ContinuesEnd(sys: map<string, NodeState>, q: seq<Pulse>, fuel: nat, goal: Run, popped: seq<Pulse>)
    requires Continues(PumpRun(sys, q, fuel), goal, popped)
    requires q == [] || fuel == 0
    ensures goal == Run(if q == [] then Drained else Unfinished, sys, q, popped)
  {
    assert popped + [] == popped;
  }

  lemma ContinuesMissing(sys: map<string, NodeState>, q: seq<Pulse>, fuel: nat, goal: Run, popped: seq<Pulse>)
    requires Continues(PumpRun(sys, q, fuel), goal, popped)
    requires q != [] && fuel > 0 && q[0].receiver !in sys
    ensures goal == Run(NoReceiver(q[0].receiver), sys, q[1..], popped + [q[0]])
  {
  }

  /** `components[receiver].signal(bus, source, value)` for one pulse. */
  method Deliver(components: map<string, Node>, ghost sys: map<string, NodeState>, p: Pulse, bus: EventBus)
    requires Valid(components) && Mirrors(components, sys) && p.receiver in components
    modifies bus, components.Values
    ensures Mirrors(components, sys[p.receiver := Receive(sys[p.receiver], p.receiver, p.source, p.value).0])
    ensures bus.q == old(bus.q) + Receive(sys[p.receiver], p.receiver, p.source, p.value).1
  {
    var node := components[p.receiver];
    node.Signal(bus, p.source, p.value);
    forall k | k in components
      ensures components[k].Snap() == sys[p.receiver := node.Snap()][k]
    {
      if k != p.receiver {
        assert components[k].name != node.name;
      }
    }
  }

  // ---------------------------------------------------------------------
  // A wired circuit never sends to a missing module

  /** Every output of every module names a module. */
  predicate Closed(sys: map<string, NodeState>)
  {
    forall k :: k in sys ==> Targets(sys, sys[k].outs)
  }

  /** Every name in the list names a module. */
  predicate Targets(sys: map<string, NodeState>, names: seq<string>)
  {
    forall i :: 0 <= i < |names| ==> names[i] in sys
  }

  /** Every queued pulse goes to an existing module. */
  predicate Addressed(sys: map<string, NodeState>, q: seq<Pulse>)
  {
    forall i :: 0 <= i < |q| ==> q[i].receiver in sys
  }

  /** Whatever a module sends goes to one of its outputs. */
  lemma ReceiveTargets(s: NodeState, self: string, source: string, value: bool)
    ensures var out := Receive(s, self, source, value).1;
            forall i :: 0 <= i < |out| ==> out[i].receiver in s.outs
  {
    SendsAt(self, if s.kind == FlipFlop then !s.mem else if s.kind == Broadcaster then value
                  else if AllHi(SetIn(s.ins, source, value)) then LO else HI, s.outs);
  }

  /** In a closed circuit whose queue is addressed, `pump` never meets a
      missing receiver, and the circuit stays closed. */
  lemma {:induction false} PumpNeverMissing(sys: map<string, NodeState>, q: seq<Pulse>, fuel: nat)
    requires Closed(sys) && Addressed(sys, q)
    ensures !PumpRun(sys, q, fuel).status.NoReceiver?
    ensures Closed(PumpRun(sys, q, fuel).sys) && Addressed(PumpRun(sys, q, fuel).sys, PumpRun(sys, q, fuel).q)
    decreases fuel
  {
    if q != [] && fuel > 0 {
      var p := q[0];
      assert p.receiver in sys;
      var got := Receive(sys[p.receiver], p.receiver, p.source, p.value);
      ReceiveRecords(sys[p.receiver], p.receiver, p.source, p.value);
      ReceiveTargets(sys[p.receiver], p.receiver, p.source, p.value);
      var sys' := sys[p.receiver := got.0];
      assert sys'.Keys == sys.Keys;
      assert Closed(sys') by {
        forall k | k in sys'
          ensures Targets(sys', sys'[k].outs)
        {
          assert Targets(sys, sys[k].outs);
        }
      }
      var q' := q[1..] + got.1;
      assert Addressed(sys', q') by {
        forall i | 0 <= i < |q'|
          ensures q'[i].receiver in sys'
        {
          if i < |q| - 1 {
            assert q'[i] == q[i + 1];
          } else {
            assert q'[i] == got.1[i - (|q| - 1)];
            assert Targets(sys, sys[p.receiver].outs);
          }
        }
      }
      PumpNeverMissing(sys', q', fuel - 1);
    }
  }

  // ---------------------------------------------------------------------
  // Pressing the button repeatedly

  /** The pulse `push_button` queues. */
  const Button := Pulse("button", LO, "broadcaster")

  /** The end of `push_and_pump_n`: how the last pump ended, the modules,
      the queue left, the low and high pulses over all presses, and the
      presses completed. */
  datatype Presses = Presses(status: Status, sys: map<string, NodeState>, q: seq<Pulse>, lo: nat, hi: nat, presses: nat)

  /** `push_and_pump_n` for n presses: push the button and pump, n times,
      adding up the counts; a pump that does not drain ends the run (the
      source would raise or not return). */
  function PressRun(sys: map<string, NodeState>, q: seq<Pulse>, n: nat, fuel: nat): (r: Presses)
    ensures r.status == Drained ==> r.presses == n
    decreases n
  {
    if n == 0 then Presses(Drained, sys, q, 0, 0, 0)
    else
      var run := PumpRun(sys, q + [Button], fuel);
      var lo, hi := CountOf(run.popped, LO), CountOf(run.popped, HI);
      if run.status != Drained then Presses(run.status, run.sys, run.q, lo, hi, 0)
      else
        var rest := PressRun(run.sys, run.q, n - 1, fuel);
        Presses(rest.status, rest.sys, rest.q, lo + rest.lo, hi + rest.hi, 1 + rest.presses)
  }

  /** In a closed circuit that holds a broadcaster, no press meets a
      missing receiver. */
  lemma {:induction false} PressNeverMissing(sys: map<string, NodeState>, q: seq<Pulse>, n: nat, fuel: nat)
    requires Closed(sys) && Addressed(sys, q) && "broadcaster" in sys
    ensures !PressRun(sys, q, n, fuel).status.NoReceiver?
    decreases n
  {
    if n > 0 {
      var q' := q + [Button];
      assert Addressed(sys, q') by {
        forall i | 0 <= i < |q'|
          ensures q'[i].receiver in sys
        {
          if i < |q| {
            assert q'[i] == q[i];
          }
        }
      }
      PumpNeverMissing(sys, q', fuel);
      PumpKeepsModules(sys, q', fuel);
      var run := PumpRun(sys, q', fuel);
      if run.status == Drained {
        PressNeverMissing(run.sys, run.q, n - 1, fuel);
      }
    }
  }

  /** Where press i starts: the initial modules and queue, or where press
      i - 1 ended. */
  function StartOf(sys0: map<string, NodeState>, q0: seq<Pulse>, runs: seq<Run>, i: nat): (map<string, NodeState>, seq<Pulse>)
    requires i <= |runs|
  {
    if i == 0 then (sys0, q0) else (runs[i - 1].sys, runs[i - 1].q)
  }

  /** Press i is a push of the button followed by a pump from where it starts. */
  predicate Link(sys0: map<string, NodeState>, q0: seq<Pulse>, runs: seq<Run>, i: nat, fuel: nat)
    requires i < |runs|
  {
    var start := StartOf(sys0, q0, runs, i);
    runs[i] == PumpRun(start.0, start.1 + [Button], fuel)
  }

  /** The pumps of successive presses, every one but the last drained. */
  predicate Chain(sys0: map<string, NodeState>, q0: seq<Pulse>, runs: seq<Run>, fuel: nat)
  {
    (forall i :: 0 <= i < |runs| ==> Link(sys0, q0, runs, i, fuel))
    && forall i :: 0 <= i < |runs| - 1 ==> runs[i].status == Drained
  }

  /** The pulses of the given value over all the pumps. */
  function PulsesOf(runs: seq<Run>, v: bool): nat
  {
    if runs == [] then 0 else CountOf(runs[0].popped, v) + PulsesOf(runs[1..], v)
  }

  lemma {:induction false} PulsesOfAppend(runs: seq<Run>, run: Run, v: bool)
    ensures PulsesOf(runs + [run], v) == PulsesOf(runs, v) + CountOf(run.popped, v)
  {
    if runs != [] {
      assert (runs + [run])[1..] == runs[1..] + [run];
      PulsesOfAppend(runs[1..], run, v);
    }
  }

  /** The bookkeeping of `push_and_pump_n`'s loop, apart from the modules
      and the queue: the pumps form a chain, the totals add up their
      pulses, and the press count matches the pumps that drained. */
  predicate Tally(sys0: map<string, NodeState>, q0: seq<Pulse>, fuel: nat, n: nat,
                  runs: seq<Run>, status: Status, totalLo: nat, totalHi: nat, presses: nat)
  {
    Chain(sys0, q0, runs, fuel)
    && totalLo == PulsesOf(runs, LO) && totalHi == PulsesOf(runs, HI)
    && presses <= n && |runs| <= n && |runs| == (if status == Drained then presses else presses + 1)
    && status == (if runs == [] then Drained else runs[|runs| - 1].status)
  }

  /** One more press keeps the bookkeeping. */
  lemma TallyStep(sys0: map<string, NodeState>, q0: seq<Pulse>, fuel: nat, n: nat, runs: seq<Run>,
                  totalLo: nat, totalHi: nat, presses: nat, run: Run, lo: nat, hi: nat)
    requires Tally(sys0, q0, fuel, n, runs, Drained, totalLo, totalHi, presses) && presses < n
    requires var start := StartOf(sys0, q0, runs, |runs|); run == PumpRun(start.0, start.1 + [Button], fuel)
    requires lo == CountOf(run.popped, LO) && hi == CountOf(run.popped, HI)
    ensures Tally(sys0, q0, fuel, n, runs + [run], run.status, totalLo + lo, totalHi + hi,
                  if run.status == Drained then presses + 1 else presses)
    ensures StartOf(sys0, q0, runs + [run], |runs| + 1) == (run.sys, run.q)
  {
    ChainExtend(sys0, q0, runs, run, fuel);
    PulsesOfAppend(runs, run, LO);
    PulsesOfAppend(runs, run, HI);
  }

  lemma ChainExtend(sys0: map<string, NodeState>, q0: seq<Pulse>, runs: seq<Run>, run: Run, fuel: nat)
    requires Chain(sys0, q0, runs, fuel)
    requires runs != [] ==> runs[|runs| - 1].status == Drained
    requires var start := StartOf(sys0, q0, runs, |runs|); run == PumpRun(start.0, start.1 + [Button], fuel)
    ensures Chain(sys0, q0, runs + [run], fuel)
  {
    var runs' := runs + [run];
    forall i | 0 <= i < |runs'|
      ensures Link(sys0, q0, runs', i, fuel)
    {
      if i < |runs| {
        assert Link(sys0, q0, runs, i, fuel);
        assert StartOf(sys0, q0, runs', i) == StartOf(sys0, q0, runs, i);
      }
    }
  }

  /** A chain without its first press is a chain from where that press ended. */
  lemma ChainShift(sys0: map<string, NodeState>, q0: seq<Pulse>, runs: seq<Run>, fuel: nat)
    requires Chain(sys0, q0, runs, fuel) && runs != []
    ensures Chain(runs[0].sys, runs[0].q, runs[1..], fuel)
    ensures |runs| > 1 ==> runs[1..][|runs| - 2] == runs[|runs| - 1]
  {
    forall i | 0 <= i < |runs| - 1
      ensures Link(runs[0].sys, runs[0].q, runs[1..], i, fuel)
    {
      assert Link(sys0, q0, runs, i + 1, fuel);
    }
  }

  /** How a chain of presses ends. */
  function ChainPresses(sys0: map<string, NodeState>, q0: seq<Pulse>, runs: seq<Run>): Presses
  {
    var end := StartOf(sys0, q0, runs, |runs|);
    var status := if runs == [] then Drained else runs[|runs| - 1].status;
    Presses(status, end.0, end.1, PulsesOf(runs, LO), PulsesOf(runs, HI),
            if status == Drained then |runs| else |runs| - 1)
  }

  /** A chain whose first pump drained ends as the chain of the other
      presses, started where the first one ended, with its pulses and its
      press added. */
  lemma ChainPressesCons(sys0: map<string, NodeState>, q0: seq<Pulse>, runs: seq<Run>)
    requires runs != [] && runs[0].status == Drained
    ensures var rest := ChainPresses(runs[0].sys, runs[0].q, runs[1..]);
      ChainPresses(sys0, q0, runs)
        == Presses(rest.status, rest.sys, rest.q, CountOf(runs[0].popped, LO) + rest.lo,
                   CountOf(runs[0].popped, HI) + rest.hi, 1 + rest.presses)
  {
    if |runs| > 1 {
      assert runs[1..][|runs| - 2] == runs[|runs| - 1];
    }
  }

  /** A chain of one pump that did not drain ends where that pump ended. */
  lemma ChainPressesOne(sys0: map<string, NodeState>, q0: seq<Pulse>, runs: seq<Run>)
    requires |runs| == 1 && runs[0].status != Drained
    ensures ChainPresses(sys0, q0, runs)
      == Presses(runs[0].status, runs[0].sys, runs[0].q, CountOf(runs[0].popped, LO), CountOf(runs[0].popped, HI), 0)
  {
    assert runs[1..] == [];
    assert PulsesOf(runs, LO) == CountOf(runs[0].popped, LO) + PulsesOf([], LO);
    assert PulsesOf(runs, HI) == CountOf(runs[0].popped, HI) + PulsesOf([], HI);
  }

  /** n presses are a chain of n drained pumps, or a shorter chain whose
      last pump did not drain. */
  lemma {:induction false} ChainPressRun(sys0: map<string, NodeState>, q0: seq<Pulse>, runs: seq<Run>, n: nat, fuel: nat)
    requires Chain(sys0, q0, runs, fuel) && |runs| <= n
    requires |runs| < n ==> runs != [] && runs[|runs| - 1].status != Drained
    ensures PressRun(sys0, q0, n, fuel) == ChainPresses(sys0, q0, runs)
    decreases n
  {
    if runs != [] {
      assert Link(sys0, q0, runs, 0, fuel);
      if runs[0].status == Drained {
        ChainShift(sys0, q0, runs, fuel);
        ChainPressRun(runs[0].sys, runs[0].q, runs[1..], n - 1, fuel);
        ChainPressesCons(sys0, q0, runs);
      } else {
        ChainPressesOne(sys0, q0, runs);
      }
    }
  }

  // ---------------------------------------------------------------------
  // Reading the circuit

  /** One line of the puzzle: the module's kind, name and targets. */
  datatype Line = Line(kind: Kind, name: string, targets: seq<string>)

  /** `comp_re.match(line.strip())` with `([&%]?)(\w+) -> (.*)`, then the
      targets split at ',' and stripped; None when the line does not match
      (the source then fails on `.groups()`). '&' makes a conjunction, '%' a
      flip-flop and no prefix the broadcaster kind. */
  function ParseLine(line: string): (r: Option<Line>)
    ensures r.Some? ==> r.value.kind != Plain && r.value.name != []
  {
    var t := Strip(line);
    var i := if |t| > 0 && (t[0] == '&' || t[0] == '%') then 1 else 0;
    var k := WordRunEnd(t, i);
    if k > i && HasAt(t, k, " -> ") then
      var rest := t[k + 4..];
      var ws := rest[..IndexOf(rest, '\n', 0)];
      var kind := if i == 0 then Broadcaster else if t[0] == '&' then Conjunction else FlipFlop;
      Some(Line(kind, t[i..k], StripAll(Common.Split(ws, ','))))
    else None
  }

  /** A non-empty run of word characters: a module name as the input writes it. */
  predicate IsName(s: string)
  {
    s != [] && forall j :: 0 <= j < |s| ==> IsWordChar(s[j])
  }

  /** The prefix that marks a kind. */
  function Prefix(kind: Kind): string
  {
    match kind
    case Conjunction => "&"
    case FlipFlop => "%"
    case _ => ""
  }

  /** Targets written after the first: ", t" for each. */
  function MoreTargets(ts: seq<string>): string
  {
    if ts == [] then "" else ", " + ts[0] + MoreTargets(ts[1..])
  }

  /** A line as the puzzle input writes it. */
  function LineText(l: Line): string
    requires l.targets != []
  {
    Prefix(l.kind) + l.name + " -> " + l.targets[0] + MoreTargets(l.targets[1..])
  }

  predicate NoComma(s: string)
  {
    forall j :: 0 <= j < |s| ==> s[j] != ','
  }

  predicate NoNewline(s: string)
  {
    forall j :: 0 <= j < |s| ==> s[j] != '\n'
  }

  /** Each target with the space written before it. */
  function Spaced(ts: seq<string>): (r: seq<string>)
    ensures |r| == |ts| && forall i :: 0 <= i < |ts| ==> r[i] == " " + ts[i]
  {
    seq(|ts|, i requires 0 <= i < |ts| => " " + ts[i])
  }

  /** Splitting a first piece and the targets written after it at ',' gives
      the piece and each target with its space. */
  lemma {:induction false} SplitMore(w: string, ts: seq<string>)
    requires NoComma(w) && forall i :: 0 <= i < |ts| ==> IsName(ts[i])
    ensures Common.Split(w + MoreTargets(ts), ',') == [w] + Spaced(ts)
    decreases |ts|
  {
    if ts == [] {
      assert w + MoreTargets(ts) == w;
      SplitNone(w, ',');
    } else {
      var next := " " + ts[0];
      assert NoComma(next) by {
        assert IsName(ts[0]);
      }
      SplitMore(next, ts[1..]);
      MoreTargetsCons(w, ts);
      SplitFirst(w, next + MoreTargets(ts[1..]), ',');
      SpacedCons(ts);
    }
  }

  lemma MoreTargetsCons(w: string, ts: seq<string>)
    requires ts != []
    ensures w + MoreTargets(ts) == w + [','] + (" " + ts[0] + MoreTargets(ts[1..]))
  {
  }

  lemma SpacedCons(ts: seq<string>)
    requires ts != []
    ensures Spaced(ts) == [" " + ts[0]] + Spaced(ts[1..])
  {
  }

  /** Targets written after a piece without a newline add none. */
  lemma {:induction false} MoreNoNewline(w: string, ts: seq<string>)
    requires NoNewline(w) && forall i :: 0 <= i < |ts| ==> IsName(ts[i])
    ensures NoNewline(w + MoreTargets(ts))
    decreases |ts|
  {
    if ts == [] {
      assert w + MoreTargets(ts) == w;
    } else {
      var next := " " + ts[0];
      assert NoNewline(w + [',']);
      assert NoNewline(next) by {
        assert IsName(ts[0]);
      }
      MoreNoNewline(next, ts[1..]);
      assert w + MoreTargets(ts) == (w + [',']) + (next + MoreTargets(ts[1..])) by {
        assert MoreTargets(ts) == [','] + (next + MoreTargets(ts[1..]));
      }
      NoNewlineJoin(w + [','], next + MoreTargets(ts[1..]));
    }
  }

  lemma NoNewlineJoin(a: string, b: string)
    requires NoNewline(a) && NoNewline(b)
    ensures NoNewline(a + b)
  {
    forall j | 0 <= j < |a + b|
      ensures (a + b)[j] != '\n'
    {
      if j < |a| {
        assert (a + b)[j] == a[j];
      } else {
        assert (a + b)[j] == b[j - |a|];
      }
    }
  }

  /** Stripping " t" for a name t gives t. */
  lemma StripSpaced(ts: seq<string>)
    requires forall i :: 0 <= i < |ts| ==> IsName(ts[i])
    ensures StripAll(Spaced(ts)) == ts
  {
    forall i | 0 <= i < |ts|
      ensures Strip(" " + ts[i]) == ts[i]
    {
      assert (" " + ts[i])[1..] == ts[i];
    }
  }

  /** Reading a line written from its parts gives those parts back. */
  lemma ParseLineWritten(l: Line)
    requires l.kind != Plain && IsName(l.name) && l.targets != []
    requires forall i :: 0 <= i < |l.targets| ==> IsName(l.targets[i])
    ensures ParseLine(LineText(l)) == Some(l)
  {
    WrittenStripped(l);
    WrittenName(l);
    WrittenTargets(l);
    ParseLineOf(LineText(l), |Prefix(l.kind)|, |Prefix(l.kind)| + |l.name|, l);
  }

  /** A written line has nothing to strip. */
  lemma WrittenStripped(l: Line)
    requires IsName(l.name) && l.targets != []
    requires forall i :: 0 <= i < |l.targets| ==> IsName(l.targets[i])
    ensures Strip(LineText(l)) == LineText(l) && |Prefix(l.kind)| + |l.name| <= |LineText(l)|
  {
    var tail := l.targets[0] + MoreTargets(l.targets[1..]);
    var p := Prefix(l.kind);
    var text := p + l.name + " -> " + tail;
    assert LineText(l) == text;
    TargetsLast(l.targets);
    LineEnds(p, l.name, tail);
    StripKeeps(text);
  }

  /** A written line shows its kind by its prefix, then its name, then the arrow. */
  lemma WrittenName(l: Line)
    requires l.kind != Plain && IsName(l.name) && l.targets != []
    ensures var text, i := LineText(l), |Prefix(l.kind)|;
            var k := i + |l.name|;
            (if |text| > 0 && (text[0] == '&' || text[0] == '%') then 1 else 0) == i
            && WordRunEnd(text, i) == k && HasAt(text, k, " -> ") && text[i..k] == l.name
            && l.kind == if i == 0 then Broadcaster else if text[0] == '&' then Conjunction else FlipFlop
  {
    var tail := l.targets[0] + MoreTargets(l.targets[1..]);
    var p := Prefix(l.kind);
    assert LineText(l) == p + l.name + " -> " + tail;
    LineName(p, l.name, tail);
  }

  /** The text after the arrow of a written line reads back as its targets. */
  lemma WrittenTargets(l: Line)
    requires l.targets != [] && forall i :: 0 <= i < |l.targets| ==> IsName(l.targets[i])
    ensures var text, k := LineText(l), |Prefix(l.kind)| + |l.name|;
            k + 4 <= |text|
            && StripAll(Common.Split(text[k + 4..][..IndexOf(text[k + 4..], '\n', 0)], ',')) == l.targets
  {
    var tail := l.targets[0] + MoreTargets(l.targets[1..]);
    var p := Prefix(l.kind);
    assert LineText(l) == p + l.name + " -> " + tail;
    TargetsRead(l.targets);
    TargetsNoNewline(l.targets);
    LineTail(p, l.name, tail);
  }

  /** What reading a line needs: nothing to strip, the prefix and name where
      expected, the arrow, and the targets after it. */
  lemma ParseLineOf(text: string, i: nat, k: nat, l: Line)
    requires Strip(text) == text && i < k <= |text|
    requires (if |text| > 0 && (text[0] == '&' || text[0] == '%') then 1 else 0) == i
    requires WordRunEnd(text, i) == k && HasAt(text, k, " -> ") && text[i..k] == l.name
    requires StripAll(Common.Split(text[k + 4..][..IndexOf(text[k + 4..], '\n', 0)], ',')) == l.targets
    requires l.kind == if i == 0 then Broadcaster else if text[0] == '&' then Conjunction else FlipFlop
    ensures ParseLine(text) == Some(l)
  {
  }

  /** A written line starts and ends with a character that is not a space. */
  lemma LineEnds(p: string, name: string, tail: string)
    requires p == "" || p == "&" || p == "%"
    requires IsName(name) && tail != [] && !IsSpace(tail[|tail| - 1])
    ensures var text := p + name + " -> " + tail;
            text != [] && !IsSpace(text[0]) && !IsSpace(text[|text| - 1])
  {
    var front := p + name + " -> ";
    EndsOf(front, tail);
    EndsOf(p + name, " -> ");
    if p == [] {
      assert p + name == name;
    } else {
      EndsOf(p, name);
    }
  }

  /** The first character of a concatenation comes from its front, the last from its back. */
  lemma EndsOf(a: string, b: string)
    requires a != [] && b != []
    ensures (a + b)[0] == a[0] && (a + b)[|a + b| - 1] == b[|b| - 1]
  {
  }

  /** In a written line the prefix is read as a prefix, the name as the
      word run after it, and the arrow follows. */
  lemma LineName(p: string, name: string, tail: string)
    requires p == "" || p == "&" || p == "%"
    requires IsName(name)
    ensures var text := p + name + " -> " + tail;
            (if |text| > 0 && (text[0] == '&' || text[0] == '%') then 1 else 0) == |p|
            && WordRunEnd(text, |p|) == |p| + |name| && HasAt(text, |p| + |name|, " -> ")
            && text[|p|..|p| + |name|] == name && (|p| > 0 ==> text[0] == p[0])
  {
    var text := p + name + " -> " + tail;
    var k := |p| + |name|;
    assert |p| == 0 ==> text[0] == name[0] && IsWordChar(name[0]);
    WordRunEndAt(text, |p|, k);
    assert text[k..k + 4] == " -> ";
    assert text[|p|..k] == name;
  }

  /** In a written line the text after the arrow, up to any newline, is the tail. */
  lemma LineTail(p: string, name: string, tail: string)
    requires NoNewline(tail)
    ensures var text := p + name + " -> " + tail;
            var k := |p| + |name|;
            text[k + 4..][..IndexOf(text[k + 4..], '\n', 0)] == tail
  {
    var text := p + name + " -> " + tail;
    var k := |p| + |name|;
    assert text[k + 4..] == tail;
    IndexOfAt(tail, '\n', 0, |tail|);
    assert tail[..|tail|] == tail;
  }

  /** The targets written out, split and stripped, are the targets. */
  lemma TargetsRead(ts: seq<string>)
    requires ts != [] && forall i :: 0 <= i < |ts| ==> IsName(ts[i])
    ensures StripAll(Common.Split(ts[0] + MoreTargets(ts[1..]), ',')) == ts
  {
    var t0 := ts[0];
    assert NoComma(t0) by {
      assert IsName(t0);
    }
    SplitMore(t0, ts[1..]);
    assert Strip(t0) == t0 by {
      assert IsName(t0) && IsWordChar(t0[0]) && IsWordChar(t0[|t0| - 1]);
      StripKeeps(t0);
    }
    StripSpaced(ts[1..]);
    var pieces := [t0] + Spaced(ts[1..]);
    assert StripAll(pieces) == [t0] + StripAll(Spaced(ts[1..]));
    assert ts == [t0] + ts[1..];
  }

  /** The targets written out hold no newline. */
  lemma TargetsNoNewline(ts: seq<string>)
    requires ts != [] && forall i :: 0 <= i < |ts| ==> IsName(ts[i])
    ensures NoNewline(ts[0] + MoreTargets(ts[1..]))
  {
    assert NoNewline(ts[0]) by {
      assert IsName(ts[0]);
    }
    MoreNoNewline(ts[0], ts[1..]);
  }

  /** The targets written out end with a character that is not a space. */
  lemma TargetsLast(ts: seq<string>)
    requires ts != [] && forall i :: 0 <= i < |ts| ==> IsName(ts[i])
    ensures var tail := ts[0] + MoreTargets(ts[1..]); tail != [] && !IsSpace(tail[|tail| - 1])
  {
    var tail := ts[0] + MoreTargets(ts[1..]);
    if |ts| > 1 {
      MoreTargetsLast(ts[1..]);
      EndsOf(ts[0], MoreTargets(ts[1..]));
    } else {
      assert tail == ts[0] && IsName(ts[0]);
    }
  }

  /** Targets written after a first one end with the last target's last character. */
  lemma {:induction false} MoreTargetsLast(ts: seq<string>)
    requires ts != [] && forall i :: 0 <= i < |ts| ==> IsName(ts[i])
    ensures MoreTargets(ts) != [] && IsWordChar(MoreTargets(ts)[|MoreTargets(ts)| - 1])
  {
    var m := MoreTargets(ts);
    if |ts| > 1 {
      MoreTargetsLast(ts[1..]);
      assert m == (", " + ts[0]) + MoreTargets(ts[1..]);
    } else {
      assert IsName(ts[0]) && ts[1..] == [];
      assert m == ", " + ts[0] + MoreTargets([]);
    }
  }

  // ---------------------------------------------------------------------
  // Wiring the circuit

  /** A module as `t(n)` or `Node(w)` makes it: no inputs, no outputs, memory low. */
  function Fresh(kind: Kind): NodeState
  {
    NodeState(kind, [], [], LO)
  }

  /** Every line read, or None when one of them does not match. */
  function ParseAll(lines: seq<string>): (r: Option<seq<Line>>)
    ensures r.Some? <==> forall i :: 0 <= i < |lines| ==> ParseLine(lines[i]).Some?
    ensures r.Some? ==> |r.value| == |lines| && forall i :: 0 <= i < |lines| ==> r.value[i] == ParseLine(lines[i]).value
  {
    if lines == [] then Some([])
    else
      match ParseAll(lines[..|lines| - 1])
      case None => None
      case Some(ls) =>
        match ParseLine(lines[|lines| - 1])
        case None => None
        case Some(l) => Some(ls + [l])
  }

  /** Every wiring entry names a module. */
  predicate Named(sys: map<string, NodeState>, wires: seq<(string, seq<string>)>)
  {
    forall i :: 0 <= i < |wires| ==> wires[i].0 in sys
  }

  /** The first loop of `wire`: each line makes a fresh module of its kind
      under its name (a later line with the same name replaces an earlier
      one) and adds its name and targets to the wiring list. */
  function Define(ls: seq<Line>): (r: (map<string, NodeState>, seq<(string, seq<string>)>))
    ensures |r.1| == |ls| && forall i :: 0 <= i < |ls| ==> r.1[i] == (ls[i].name, ls[i].targets)
    ensures Named(r.0, r.1)
    ensures forall k :: k in r.0 ==> r.0[k].ins == [] && r.0[k].outs == []
  {
    if ls == [] then (map[], [])
    else
      var d := Define(ls[..|ls| - 1]);
      var l := ls[|ls| - 1];
      (d.0[l.name := Fresh(l.kind)], d.1 + [(l.name, l.targets)])
  }

  /** `sum([ws for name, ws in wires if name == c], [])`: the targets of
      every entry for c, in order. */
  function TargetsOf(wires: seq<(string, seq<string>)>, c: string): (ws: seq<string>)
    ensures ws != [] ==> exists i :: 0 <= i < |wires| && wires[i].0 == c
    ensures forall w :: w in ws <==> exists i :: 0 <= i < |wires| && wires[i].0 == c && w in wires[i].1
  {
    if wires == [] then []
    else
      var rest := TargetsOf(wires[1..], c);
      assert forall i :: 0 < i < |wires| ==> wires[i] == wires[1..][i - 1];
      (if wires[0].0 == c then wires[0].1 else []) + rest
  }

  /** The targets of a list of entries are those of its first part followed
      by those of its second: with the one-entry case, this says that the
      result is every entry for c's targets, in the entries' order. */
  lemma {:induction false} TargetsOfAppend(a: seq<(string, seq<string>)>, b: seq<(string, seq<string>)>, c: string)
    ensures TargetsOf(a + b, c) == TargetsOf(a, c) + TargetsOf(b, c)
  {
    if a != [] {
      assert (a + b)[0] == a[0] && (a + b)[1..] == a[1..] + b;
      TargetsOfAppend(a[1..], b, c);
      Regroup(if a[0].0 == c then a[0].1 else [], TargetsOf(a[1..], c), TargetsOf(b, c));
    } else {
      assert a + b == b;
    }
  }

  lemma TargetsOfOne(e: (string, seq<string>), c: string)
    ensures TargetsOf([e], c) == if e.0 == c then e.1 else []
  {
    assert [e][1..] == [];
  }

  /** `[(name, w) for (name, w) in wires if name != c]`. */
  function Without(wires: seq<(string, seq<string>)>, c: string): (r: seq<(string, seq<string>)>)
    ensures |r| <= |wires| && (|r| == |wires| ==> TargetsOf(wires, c) == [])
    ensures forall i :: 0 <= i < |r| ==> r[i].0 != c && r[i] in wires
    ensures forall e :: e in wires && e.0 != c ==> e in r
  {
    if wires == [] then []
    else if wires[0].0 == c then Without(wires[1..], c)
    else [wires[0]] + Without(wires[1..], c)
  }

  /** Removing c's entries leaves c no targets and every other module the
      same targets in the same order: every other entry is kept, in order. */
  lemma {:induction false} WithoutKeeps(wires: seq<(string, seq<string>)>, c: string, d: string)
    ensures TargetsOf(Without(wires, c), d) == if d == c then [] else TargetsOf(wires, d)
  {
    if wires != [] {
      WithoutKeeps(wires[1..], c, d);
      if wires[0].0 != c {
        assert ([wires[0]] + Without(wires[1..], c))[1..] == Without(wires[1..], c);
      }
    }
  }

  /** One target of c: a missing name becomes a plain module, then
      `components[w].connect_source(components[c])`. */
  function Connect(sys: map<string, NodeState>, c: string, w: string): (r: map<string, NodeState>)
    requires c in sys
    ensures r.Keys == sys.Keys + {w}
  {
    var s1 := if w in sys then sys else sys[w := Fresh(Plain)];
    var s2 := s1[c := s1[c].(outs := s1[c].outs + [w])];
    s2[w := s2[w].(ins := SetIn(s2[w].ins, c, LO))]
  }

  /** Every target of c, in order. */
  function ConnectAll(sys: map<string, NodeState>, c: string, ws: seq<string>): (r: map<string, NodeState>)
    requires ws == [] || c in sys
    ensures sys.Keys <= r.Keys && forall i :: 0 <= i < |ws| ==> ws[i] in r
    decreases |ws|
  {
    if ws == [] then sys
    else
      var r := Connect(ConnectAll(sys, c, ws[..|ws| - 1]), c, ws[|ws| - 1]);
      assert forall i :: 0 <= i < |ws| - 1 ==> ws[i] == ws[..|ws| - 1][i];
      r
  }

  /** The second loop of `wire`: take the next name from the front of the
      work list, connect it to all its targets, queue the targets, and drop
      its entries, while both the work list and the entries remain. */
  function WireLoop(sys: map<string, NodeState>, wires: seq<(string, seq<string>)>, cs: seq<string>): (r: map<string, NodeState>)
    requires Named(sys, wires)
    ensures sys.Keys <= r.Keys
    decreases |wires|, |cs|
  {
    if cs == [] || wires == [] then sys
    else
      var c := cs[0];
      var ws := TargetsOf(wires, c);
      var sys' := ConnectAll(sys, c, ws);
      WireLoop(sys', Without(wires, c), cs[1..] + ws)
  }

  /** `wire(lines)`: None when a line does not match. */
  function Wired(lines: seq<string>): Option<map<string, NodeState>>
  {
    match ParseAll(lines)
    case None => None
    case Some(ls) =>
      var d := Define(ls);
      Some(WireLoop(d.0, d.1, ["broadcaster"]))
  }

  /** Every input of a module is a module, and o is an output of k
      exactly when k is an input of o. */
  predicate Linked(sys: map<string, NodeState>)
  {
    (forall o :: o in sys ==> Targets(sys, Keys(sys[o].ins)))
    && forall k, o :: k in sys && o in sys ==> (o in sys[k].outs <==> k in Keys(sys[o].ins))
  }

  /** Connecting one target keeps the circuit closed and its edges linked both ways. */
  lemma ConnectKeeps(sys: map<string, NodeState>, c: string, w: string)
    requires c in sys && Closed(sys) && Linked(sys)
    ensures Closed(Connect(sys, c, w)) && Linked(Connect(sys, c, w))
  {
    if w !in sys {
      AddModuleKeeps(sys, w);
    }
    var s1 := if w in sys then sys else sys[w := Fresh(Plain)];
    EdgeKeeps(s1, c, w);
  }

  /** A new plain module, unconnected, keeps the circuit closed and linked. */
  lemma AddModuleKeeps(sys: map<string, NodeState>, w: string)
    requires w !in sys && Closed(sys) && Linked(sys)
    ensures Closed(sys[w := Fresh(Plain)]) && Linked(sys[w := Fresh(Plain)])
  {
    var s1 := sys[w := Fresh(Plain)];
    assert Closed(s1) by {
      forall k | k in s1
        ensures Targets(s1, s1[k].outs)
      {
        if k in sys {
          assert Targets(sys, sys[k].outs);
        }
      }
    }
    forall o | o in s1
      ensures Targets(s1, Keys(s1[o].ins))
    {
      if o in sys {
        assert Targets(sys, Keys(sys[o].ins));
      }
    }
    forall k, o | k in s1 && o in s1
      ensures o in s1[k].outs <==> k in Keys(s1[o].ins)
    {
      if k in sys && o in sys {
        assert o in sys[k].outs <==> k in Keys(sys[o].ins);
      } else if k in sys {
        assert Targets(sys, sys[k].outs);
      } else if o in sys {
        assert Targets(sys, Keys(sys[o].ins));
      }
    }
  }

  /** The edge from c to w, both of them modules, recorded at both ends. */
  lemma EdgeKeeps(sys: map<string, NodeState>, c: string, w: string)
    requires c in sys && w in sys && Closed(sys) && Linked(sys)
    ensures Closed(Connect(sys, c, w)) && Linked(Connect(sys, c, w))
  {
    EdgeEnds(sys, c, w);
    EdgeAdded(sys, Connect(sys, c, w), c, w);
  }

  /** What connecting two modules changes: c gains w as its last output
      and w gains c as an input; nothing else changes. */
  lemma EdgeEnds(sys: map<string, NodeState>, c: string, w: string)
    requires c in sys && w in sys
    ensures Edge(sys, Connect(sys, c, w), c, w)
  {
    var s2 := sys[c := sys[c].(outs := sys[c].outs + [w])];
    SetInLookup(s2[w].ins, c, LO, c);
  }

  /** r is sys with one more edge, from c to w. */
  predicate Edge(sys: map<string, NodeState>, r: map<string, NodeState>, c: string, w: string)
    requires c in sys && w in sys
  {
    r.Keys == sys.Keys
    && (forall k :: k in r ==> r[k].outs == sys[k].outs + if k == c then [w] else [])
    && (forall o :: o in r ==> Keys(r[o].ins) == Keys(sys[o].ins) + if o == w && c !in Keys(sys[w].ins) then [c] else [])
  }

  /** Names that are modules stay modules when modules are only added. */
  lemma TargetsWithin(a: map<string, NodeState>, b: map<string, NodeState>, names: seq<string>, extra: seq<string>)
    requires a.Keys <= b.Keys && Targets(a, names) && Targets(b, extra)
    ensures Targets(b, names + extra)
  {
    forall i | 0 <= i < |names + extra|
      ensures (names + extra)[i] in b
    {
      if i < |names| {
        assert (names + extra)[i] == names[i];
      } else {
        assert (names + extra)[i] == extra[i - |names|];
      }
    }
  }

  /** One more edge keeps the circuit closed and linked. */
  lemma EdgeAdded(sys: map<string, NodeState>, r: map<string, NodeState>, c: string, w: string)
    requires c in sys && w in sys && Edge(sys, r, c, w) && Closed(sys) && Linked(sys)
    ensures Closed(r) && Linked(r)
  {
    forall k | k in r
      ensures Targets(r, r[k].outs)
    {
      TargetsWithin(sys, r, sys[k].outs, if k == c then [w] else []);
    }
    forall o | o in r
      ensures Targets(r, Keys(r[o].ins))
    {
      TargetsWithin(sys, r, Keys(sys[o].ins), if o == w && c !in Keys(sys[w].ins) then [c] else []);
    }
    EdgeBothEnds(sys, r, c, w);
  }

  lemma EdgeBothEnds(sys: map<string, NodeState>, r: map<string, NodeState>, c: string, w: string)
    requires c in sys && w in sys && Edge(sys, r, c, w) && Linked(sys)
    ensures forall k, o :: k in r && o in r ==> (o in r[k].outs <==> k in Keys(r[o].ins))
  {
    forall k, o | k in r && o in r
      ensures o in r[k].outs <==> k in Keys(r[o].ins)
    {
      assert o in sys[k].outs <==> k in Keys(sys[o].ins);
    }
  }

  lemma {:induction false} ConnectAllKeeps(sys: map<string, NodeState>, c: string, ws: seq<string>)
    requires (ws == [] || c in sys) && Closed(sys) && Linked(sys)
    ensures Closed(ConnectAll(sys, c, ws)) && Linked(ConnectAll(sys, c, ws))
    decreases |ws|
  {
    if ws != [] {
      ConnectAllKeeps(sys, c, ws[..|ws| - 1]);
      ConnectKeeps(ConnectAll(sys, c, ws[..|ws| - 1]), c, ws[|ws| - 1]);
    }
  }

  lemma {:induction false} WireLoopKeeps(sys: map<string, NodeState>, wires: seq<(string, seq<string>)>, cs: seq<string>)
    requires Named(sys, wires) && Closed(sys) && Linked(sys)
    ensures Closed(WireLoop(sys, wires, cs)) && Linked(WireLoop(sys, wires, cs))
    decreases |wires|, |cs|
  {
    if cs != [] && wires != [] {
      var c := cs[0];
      var ws := TargetsOf(wires, c);
      ConnectAllKeeps(sys, c, ws);
      WireLoopKeeps(ConnectAll(sys, c, ws), Without(wires, c), cs[1..] + ws);
    }
  }

  /** A wired circuit is closed (every output names a module) and every
      edge is recorded at both ends, as `connect_source` does. */
  lemma WiredLinked(lines: seq<string>)
    requires Wired(lines).Some?
    ensures Closed(Wired(lines).value) && Linked(Wired(lines).value)
  {
    var d := Define(ParseAll(lines).value);
    WireLoopKeeps(d.0, d.1, ["broadcaster"]);
  }

  /** Pressing the button of a wired circuit that has a broadcaster never
      sends a pulse to a missing module. */
  lemma WiredNeverMissing(lines: seq<string>, n: nat, fuel: nat)
    requires Wired(lines).Some? && "broadcaster" in Wired(lines).value
    ensures !PressRun(Wired(lines).value, [], n, fuel).status.NoReceiver?
  {
    WiredLinked(lines);
    PressNeverMissing(Wired(lines).value, [], n, fuel);
  }

  /** `wire(lines)` on objects: None when a line does not match; otherwise
      fresh modules under their names that hold the wired circuit. */
  method Wire(lines: seq<string>) returns (r: Option<map<string, Node>>)
    ensures r.Some? <==> Wired(lines).Some?
    ensures r.Some? ==> Valid(r.value) && Mirrors(r.value, Wired(lines).value)
    ensures r.Some? ==> forall k :: k in r.value ==> fresh(r.value[k])
  {
    var defined := DefineModules(lines);
    if defined.None? {
      return None;
    }
    var components := WireUp(defined.value.0, Define(ParseAll(lines).value).0, defined.value.1);
    r := Some(components);
  }

  /** `wire`'s first loop on objects: a fresh module per line, and the wiring list. */
  method DefineModules(lines: seq<string>) returns (r: Option<(map<string, Node>, seq<(string, seq<string>)>)>)
    ensures r.Some? <==> ParseAll(lines).Some?
    ensures r.Some? ==> Valid(r.value.0) && Mirrors(r.value.0, Define(ParseAll(lines).value).0)
                        && r.value.1 == Define(ParseAll(lines).value).1
    ensures r.Some? ==> forall k :: k in r.value.0 ==> fresh(r.value.0[k])
  {
    var components: map<string, Node> := map[];
    var wires: seq<(string, seq<string>)> := [];
    ghost var ls: seq<Line> := [];
    for i := 0 to |lines|
      invariant ParseAll(lines[..i]) == Some(ls)
      invariant Valid(components) && Mirrors(components, Define(ls).0) && wires == Define(ls).1
      invariant forall k :: k in components ==> fresh(components[k])
    {
      var parsed := ParseLine(lines[i]);
      if parsed.None? {
        assert ParseAll(lines).None?;
        return None;
      }
      var l := parsed.value;
      ParseAllStep(lines, i, ls, l);
      DefineStep(ls, l);
      components := AddModule(components, Define(ls).0, l);
      wires := wires + [(l.name, l.targets)];
      ls := ls + [l];
    }
    assert lines[..|lines|] == lines;
    r := Some((components, wires));
  }

  lemma ParseAllStep(lines: seq<string>, i: nat, ls: seq<Line>, l: Line)
    requires i < |lines| && ParseAll(lines[..i]) == Some(ls) && ParseLine(lines[i]) == Some(l)
    ensures ParseAll(lines[..i + 1]) == Some(ls + [l])
  {
    assert lines[..i + 1][..i] == lines[..i];
  }

  lemma DefineStep(ls: seq<Line>, l: Line)
    ensures Define(ls + [l]) == (Define(ls).0[l.name := Fresh(l.kind)], Define(ls).1 + [(l.name, l.targets)])
  {
    assert (ls + [l])[..|ls|] == ls;
  }

  /** `components[n] = t(n)`: a fresh module of the line's kind under its name. */
  method AddModule(components: map<string, Node>, ghost sys: map<string, NodeState>, l: Line)
      returns (result: map<string, Node>)
    requires Valid(components) && Mirrors(components, sys)
    ensures Valid(result) && Mirrors(result, sys[l.name := Fresh(l.kind)])
    ensures forall k :: k in result ==> (k in components && result[k] == components[k]) || fresh(result[k])
  {
    var node := new Node(l.name, l.kind);
    result := components[l.name := node];
  }

  /** `wire`'s second loop on objects, from the modules the lines define. */
  method WireUp(components: map<string, Node>, ghost sys: map<string, NodeState>, wires: seq<(string, seq<string>)>)
      returns (result: map<string, Node>)
    requires Valid(components) && Mirrors(components, sys) && Named(sys, wires)
    modifies components.Values
    ensures Valid(result) && Mirrors(result, WireLoop(sys, wires, ["broadcaster"]))
    ensures forall k :: k in result ==> (k in components && result[k] == components[k]) || fresh(result[k])
  {
    result := components;
    var cs := ["broadcaster"];
    var left := wires;
    ghost var now := sys;
    while cs != [] && left != []
      invariant Valid(result) && Mirrors(result, now) && Named(now, left)
      invariant WireLoop(now, left, cs) == WireLoop(sys, wires, ["broadcaster"])
      invariant forall k :: k in result ==> (k in components && result[k] == components[k]) || fresh(result[k])
      decreases |left|, |cs|
    {
      var c := cs[0];
      var ws := TargetsOf(left, c);
      WireLoopStep(now, left, cs);
      result, cs := ConnectTargets(result, now, c, ws, cs[1..]);
      now := ConnectAll(now, c, ws);
      left := Without(left, c);
    }
  }

  /** One turn of `wire`'s second loop. */
  lemma WireLoopStep(sys: map<string, NodeState>, wires: seq<(string, seq<string>)>, cs: seq<string>)
    requires Named(sys, wires) && cs != [] && wires != []
    ensures var ws := TargetsOf(wires, cs[0]);
            (ws == [] || cs[0] in sys)
            && Named(ConnectAll(sys, cs[0], ws), Without(wires, cs[0]))
            && WireLoop(sys, wires, cs) == WireLoop(ConnectAll(sys, cs[0], ws), Without(wires, cs[0]), cs[1..] + ws)
  {
  }

  /** `for w in ws`: connect c to each target in order and queue the target. */
  method ConnectTargets(components: map<string, Node>, ghost sys: map<string, NodeState>, c: string,
                        ws: seq<string>, cs: seq<string>)
      returns (result: map<string, Node>, cs': seq<string>)
    requires Valid(components) && Mirrors(components, sys) && (ws == [] || c in sys)
    modifies components.Values
    ensures Valid(result) && Mirrors(result, ConnectAll(sys, c, ws)) && cs' == cs + ws
    ensures forall k :: k in result ==> (k in components && result[k] == components[k]) || fresh(result[k])
  {
    result, cs' := components, cs;
    ghost var now := sys;
    for j := 0 to |ws|
      invariant Valid(result) && Mirrors(result, now)
      invariant now == ConnectAll(sys, c, ws[..j]) && cs' == cs + ws[..j]
      invariant forall k :: k in result ==> (k in components && result[k] == components[k]) || fresh(result[k])
    {
      var w := ws[j];
      ConnectAllStep(sys, c, ws, j);
      QueueStep(cs, ws, j);
      ghost var prev := result;
      result := Attach(result, now, c, w);
      forall k | k in result
        ensures (k in components && result[k] == components[k]) || fresh(result[k])
      {
        if k in prev && result[k] == prev[k] {
          assert (k in components && prev[k] == components[k]) || fresh(prev[k]);
        }
      }
      cs' := cs' + [w];
      now := Connect(now, c, w);
    }
    assert ws[..|ws|] == ws;
  }

  lemma ConnectAllStep(sys: map<string, NodeState>, c: string, ws: seq<string>, j: nat)
    requires j < |ws| && c in sys
    ensures ws[..j + 1] == ws[..j] + [ws[j]]
    ensures ConnectAll(sys, c, ws[..j + 1]) == Connect(ConnectAll(sys, c, ws[..j]), c, ws[j])
  {
    assert ws[..j + 1][..j] == ws[..j];
  }

  lemma QueueStep(cs: seq<string>, ws: seq<string>, j: nat)
    requires j < |ws|
    ensures cs + ws[..j] + [ws[j]] == cs + ws[..j + 1]
  {
    assert ws[..j + 1] == ws[..j] + [ws[j]];
  }

  /** One target w of c: `if w not in components: components[w] = Node(w)`,
      then `components[w].connect_source(components[c])`. */
  method Attach(components: map<string, Node>, ghost sys: map<string, NodeState>, c: string, w: string)
      returns (result: map<string, Node>)
    requires Valid(components) && Mirrors(components, sys) && c in components
    modifies components.Values
    ensures Valid(result) && Mirrors(result, Connect(sys, c, w))
    ensures forall k :: k in result ==> (k in components && result[k] == components[k]) || fresh(result[k])
  {
    result := components;
    if w !in result {
      var node := new Node(w, Plain);
      result := result[w := node];
    }
    ghost var s1 := if w in sys then sys else sys[w := Fresh(Plain)];
    assert Mirrors(result, s1);
    var target, source := result[w], result[c];
    target.ConnectSource(source);
    forall k | k in result
      ensures result[k].Snap() == Connect(sys, c, w)[k]
    {
      if k != c && k != w {
        assert result[k].name != c && result[k].name != w;
      }
    }
  }

  // ---------------------------------------------------------------------
  // Counter arithmetic

  /** The bit widths of the four counters, in order. */
  const Widths: seq<nat> := [7, 9, 8, 11]

  /** `counter_diff(l, r)`: entry i is `(l[i] - r[i]) % 2 ** width i`, for
      each entry of l; IndexError (None) when l has more entries than there
      are counters or r has fewer entries than l. */
  function CounterDiff(l: seq<int>, r: seq<int>): (d: Option<seq<int>>)
    ensures d.Some? <==> |l| <= |Widths| && |l| <= |r|
    ensures d.Some? ==> |d.value| == |l| && forall i :: 0 <= i < |l| ==> 0 <= d.value[i] < Pow2(Widths[i])
  {
    if |l| <= |Widths| && |l| <= |r| then Some(seq(|l|, i requires 0 <= i < |l| => (l[i] - r[i]) % Pow2(Widths[i])))
    else None
  }

  /** `counter_sum(t, d)`: entry i is `(t[i] + d[i]) % 2 ** width i`, for
      each entry of t; None on the same IndexErrors. */
  function CounterSum(t: seq<int>, d: seq<int>): (s: Option<seq<int>>)
    ensures s.Some? <==> |t| <= |Widths| && |t| <= |d|
    ensures s.Some? ==> |s.value| == |t| && forall i :: 0 <= i < |t| ==> 0 <= s.value[i] < Pow2(Widths[i])
  {
    if |t| <= |Widths| && |t| <= |d| then Some(seq(|t|, i requires 0 <= i < |t| => (t[i] + d[i]) % Pow2(Widths[i])))
    else None
  }

  /** Adding back the difference recovers l, each entry reduced to its
      counter's width; an l already within the widths comes back unchanged. */
  lemma CounterRoundTrip(l: seq<int>, r: seq<int>)
    requires |l| == |r| <= |Widths|
    ensures CounterSum(r, CounterDiff(l, r).value) == Some(seq(|l|, i requires 0 <= i < |l| => l[i] % Pow2(Widths[i])))
    ensures (forall i :: 0 <= i < |l| ==> 0 <= l[i] < Pow2(Widths[i])) ==> CounterSum(r, CounterDiff(l, r).value) == Some(l)
  {
    var d := CounterDiff(l, r).value;
    var got := CounterSum(r, d).value;
    var want := seq(|l|, i requires 0 <= i < |l| => l[i] % Pow2(Widths[i]));
    forall i | 0 <= i < |l|
      ensures got[i] == want[i]
    {
      AddMod(r[i], l[i] - r[i], Pow2(Widths[i]));
    }
    assert got == want;
    if forall i :: 0 <= i < |l| ==> 0 <= l[i] < Pow2(Widths[i]) {
      forall i | 0 <= i < |l|
        ensures want[i] == l[i]
      {
        ModUnique(l[i], Pow2(Widths[i]), 0, l[i]);
      }
      assert want == l;
    }
  }

  // ---------------------------------------------------------------------
  // The puzzle answer

  /** lo * hi over n presses of the freshly wired circuit. None when a
      line does not match, a pulse reaches a missing module, or a pump takes
      more than `fuel` pulses. */
  function PressValue(lines: seq<string>, n: nat, fuel: nat): (r: Option<int>)
    ensures r.Some? ==> Wired(lines).Some? && PressRun(Wired(lines).value, [], n, fuel).presses == n
    ensures r.Some? ==> var run := PressRun(Wired(lines).value, [], n, fuel); r.value == run.lo * run.hi
  {
    match Wired(lines)
    case None => None
    case Some(sys) =>
      var run := PressRun(sys, [], n, fuel);
      Answer(run.status, run.lo, run.hi)
  }

  /** The product of the counts when the presses completed. */
  function Answer(status: Status, lo: nat, hi: nat): Option<int>
  {
    if status == Drained then Some(lo * hi) else None
  }

  /** `day20a`: the value after 1000 presses. */
  function Day20Value(lines: seq<string>, fuel: nat): Option<int>
  {
    PressValue(lines, 1000, fuel)
  }

  /** With a broadcaster among the modules, the only way a wired circuit
      has no answer is a pump that outruns `fuel`. */
  lemma PressAnswers(lines: seq<string>, n: nat, fuel: nat)
    requires Wired(lines).Some? && "broadcaster" in Wired(lines).value
    ensures PressValue(lines, n, fuel).None? <==> PressRun(Wired(lines).value, [], n, fuel).status == Unfinished
  {
    WiredNeverMissing(lines, n, fuel);
  }

  /** Wire the modules, then push and pump n times. */
  method Press(lines: seq<string>, n: nat, fuel: nat) returns (r: Option<int>)
    ensures r == PressValue(lines, n, fuel)
  {
    var wired := Wire(lines);
    if wired.None? {
      return None;
    }
    var bus := new EventBus();
    var status, lo, hi, presses := bus.PushAndPumpN(wired.value, Wired(lines).value, n, fuel);
    r := Answer(status, lo, hi);
  }

  /** `day20a` on objects. */
  method Day20A(lines: seq<string>, fuel: nat) returns (r: Option<int>)
    ensures r == Day20Value(lines, fuel)
  {
    r := Press(lines, 1000, fuel);
  }
}
