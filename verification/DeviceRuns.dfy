/** Runs of a device with several queues over one interrupt line, such as the two queues of
    src/devices/virtio-net.c. */
module DeviceRuns {
  import opened Words
  import opened Irq
  import opened VirtRing

  /** One action at one queue of the device, by the device or its driver. */
  datatype Step = Step(queue: nat, action: Action)

  /** The queues of one device: each as it looks from its own rings, with the line they share. */
  ghost predicate OneDevice(ws: seq<World>) {
    && (forall k :: 0 <= k < |ws| ==> Live(ws[k]))
    && (forall j, k :: 0 <= j < |ws| && 0 <= k < |ws| ==> ws[j].line == ws[k].line && ws[j].sinceAck == ws[k].sinceAck)
  }

  /** What an action is to a queue: its own action, or the use of the shared line by another queue. */
  function Share(a: Action, own: bool): (r: seq<Action>) {
    if own then [a]
    else match a
      case Push(_) => [PushElsewhere]
      case Ack => [Ack]
      case _ => []
  }

  predicate StepEnabled(ws: seq<World>, s: Step)
    requires forall k :: 0 <= k < |ws| ==> Live(ws[k])
  {
    s.queue < |ws| && s.action != PushElsewhere && Enabled(ws[s.queue], s.action)
  }

  /** The device's queues after one step. */
  function StepOf(ws: seq<World>, s: Step): (r: seq<World>)
    requires forall k :: 0 <= k < |ws| ==> Live(ws[k])
    ensures |r| == |ws|
    ensures forall k :: 0 <= k < |ws| ==> r[k] == Run(ws[k], Share(s.action, k == s.queue))
  {
    seq(|ws|, k requires 0 <= k < |ws| => Run(ws[k], Share(s.action, k == s.queue)))
  }

  predicate JointFeasible(ws: seq<World>, steps: seq<Step>)
    requires forall k :: 0 <= k < |ws| ==> Live(ws[k])
    decreases |steps|
  {
    steps == [] || (StepEnabled(ws, steps[0]) && JointFeasible(StepOf(ws, steps[0]), steps[1..]))
  }

  function JointRun(ws: seq<World>, steps: seq<Step>): (r: seq<World>)
    requires forall k :: 0 <= k < |ws| ==> Live(ws[k])
    ensures |r| == |ws| && forall k :: 0 <= k < |r| ==> Live(r[k])
    decreases |steps|
  {
    if steps == [] then ws else JointRun(StepOf(ws, steps[0]), steps[1..])
  }

  /** A run of the device as queue k sees it. */
  function SeenBy(steps: seq<Step>, k: nat): seq<Action> {
    if steps == [] then [] else Share(steps[0].action, k == steps[0].queue) + SeenBy(steps[1..], k)
  }

  lemma ShareIsFeasible(w: World, a: Action, own: bool)
    requires Live(w) && (own ==> Enabled(w, a))
    ensures Feasible(w, Share(a, own))
    ensures Run(w, Share(a, own)) ==
      if own then Next(w, a) else if a.Push? then Next(w, PushElsewhere) else if a == Ack then Next(w, Ack) else w
  {
  }

  /** Each queue of a joint run goes through a run of its own. */
  lemma {:induction false} QueueRunsAlone(ws: seq<World>, steps: seq<Step>, k: nat)
    requires (forall i :: 0 <= i < |ws| ==> Live(ws[i])) && k < |ws| && JointFeasible(ws, steps)
    ensures Feasible(ws[k], SeenBy(steps, k))
    ensures JointRun(ws, steps)[k] == Run(ws[k], SeenBy(steps, k))
    decreases |steps|
  {
    if steps != [] {
      var s := steps[0];
      ShareIsFeasible(ws[k], s.action, k == s.queue);
      QueueRunsAlone(StepOf(ws, s), steps[1..], k);
      RunConcat(ws[k], Share(s.action, k == s.queue), SeenBy(steps[1..], k));
    }
  }

  /** The queues never disagree about their line. */
  lemma {:induction false} LineIsShared(ws: seq<World>, steps: seq<Step>)
    requires OneDevice(ws) && JointFeasible(ws, steps)
    ensures OneDevice(JointRun(ws, steps))
    decreases |steps|
  {
    if steps != [] {
      var r := StepOf(ws, steps[0]);
      forall k | 0 <= k < |ws|
        ensures r[k].line == LineAfter(ws[k].line, steps[0].action)
        ensures r[k].sinceAck == SinceAfter(ws[k].sinceAck, steps[0].action)
      {
        ShareIsFeasible(ws[k], steps[0].action, k == steps[0].queue);
      }
      LineIsShared(r, steps[1..]);
    }
  }

  function LineAfter(l: IrqLine, a: Action): IrqLine {
    if a.Push? then Raise(l) else if a == Ack then Acknowledge(l) else l
  }

  function SinceAfter(n: nat, a: Action): nat {
    if a.Push? then n + 1 else if a == Ack then 0 else n
  }

  predicate Acknowledges(steps: seq<Step>) {
    exists i :: 0 <= i < |steps| && steps[i].action == Ack
  }

  /** The completions, on whatever queue, after the last acknowledgement of a run. */
  function Completions(steps: seq<Step>): nat {
    if steps == [] then 0
    else Completions(steps[1..]) + if steps[0].action.Push? && !Acknowledges(steps[1..]) then 1 else 0
  }

  lemma {:induction false} LineCountsCompletions(ws: seq<World>, steps: seq<Step>, k: nat)
    requires (forall i :: 0 <= i < |ws| ==> Live(ws[i])) && k < |ws| && JointFeasible(ws, steps)
    ensures JointRun(ws, steps)[k].sinceAck == Completions(steps) + if Acknowledges(steps) then 0 else ws[k].sinceAck
    decreases |steps|
  {
    if steps != [] {
      var s := steps[0];
      ShareIsFeasible(ws[k], s.action, k == s.queue);
      LineCountsCompletions(StepOf(ws, s), steps[1..], k);
      AcknowledgesCons(steps);
    }
  }

  lemma AcknowledgesCons(steps: seq<Step>)
    requires steps != []
    ensures Acknowledges(steps) <==> steps[0].action == Ack || Acknowledges(steps[1..])
  {
    if i :| 0 <= i < |steps[1..]| && steps[1..][i].action == Ack {
      assert steps[i + 1].action == Ack;
    }
    if i :| 1 <= i < |steps| && steps[i].action == Ack {
      assert steps[1..][i - 1].action == Ack;
    }
  }

  /** Over every interleaving of every queue's steps, each queue refines its two FIFOs, and the eventfd
      they share holds the completions of all of them since the last acknowledgement. */
  lemma EveryDeviceRunRefines(ws: seq<World>, steps: seq<Step>, k: nat)
    requires OneDevice(ws) && k < |ws| && JointFeasible(ws, steps)
    requires forall i :: 0 <= i < |ws| ==> Initial(ws[i]) && TWO_16 % ws[i].q.size == 0
    ensures OneDevice(JointRun(ws, steps)) && Refined(JointRun(ws, steps)[k])
    ensures ws[k].line.Eventfd? ==> HoldsCount(JointRun(ws, steps)[k].line, Completions(steps))
  {
    LineIsShared(ws, steps);
    QueueRunsAlone(ws, steps, k);
    EveryRunRefines(ws[k], SeenBy(steps, k));
    SharedLineCounts(ws, steps, k);
  }

  lemma SharedLineCounts(ws: seq<World>, steps: seq<Step>, k: nat)
    requires (forall i :: 0 <= i < |ws| ==> Live(ws[i])) && k < |ws| && JointFeasible(ws, steps)
    requires Initial(ws[k])
    ensures ws[k].line.Eventfd? ==> HoldsCount(JointRun(ws, steps)[k].line, Completions(steps))
  {
    QueueRunsAlone(ws, steps, k);
    LineKeepsCount(ws[k], SeenBy(steps, k));
    LineCountsCompletions(ws, steps, k);
  }
}
