/** The stratified scheduler of a `Hydroflow` graph: per-stratum FIFO queues of subgraph ids,
    one `is_scheduled` flag per subgraph, a current stratum and a current tick, and an event
    channel on which subgraphs (and the outside world) ask for a subgraph to be scheduled.

    Subgraph bodies are not modelled: each run of a subgraph is described by an `Effect`, saying
    which handoffs hold data after the run and which scheduling events the run sent. A driver
    supplies these effects as a script, one per run, and the run loops stop (as incomplete) when
    the script is used up. */
module Scheduler {
  import opened SeqUtil

  type SubgraphId = nat
  type HandoffId = nat

  /** A subgraph: its stratum, its input and output handoffs, and whether it is scheduled. */
  datatype SubgraphData = SubgraphData(stratum: nat, preds: seq<HandoffId>, succs: seq<HandoffId>, isScheduled: bool)

  /** A handoff: the subgraphs writing into it and the subgraphs reading from it. */
  datatype HandoffData = HandoffData(preds: seq<SubgraphId>, succs: seq<SubgraphId>)

  /** A request to schedule `sg`; `isExternal` marks the events that come from outside. */
  datatype Event = Event(sg: SubgraphId, isExternal: bool)

  datatype Hydroflow = Hydroflow(
    subgraphs: seq<SubgraphData>,
    handoffs: seq<HandoffData>,
    stratumQueues: seq<seq<SubgraphId>>,
    eventQueue: seq<Event>,
    eventsReceivedTick: bool,
    currentStratum: nat,
    currentTick: nat)

  /** What one run of a subgraph left behind: the handoffs that are not empty afterwards, and the
      events it sent (for instance a subgraph rescheduling itself). */
  datatype Effect = Effect(nonEmpty: set<HandoffId>, sent: seq<Event>)

  /** One subgraph run: which subgraph, at which tick and in which stratum. */
  datatype Ran = Ran(sg: SubgraphId, tick: nat, stratum: nat)

  /** The result of `run_tick` / `run_available`: the graph afterwards, the unused effects, the
      returned `work_done`, the runs performed, and whether the loop ended on its own (rather than
      because the effects ran out). */
  datatype Outcome = Outcome(graph: Hydroflow, rest: seq<Effect>, workDone: bool, ran: seq<Ran>, complete: bool)

  // ---------------------------------------------------------------------------------------------
  // Invariants

  /** Every id stored anywhere names an existing subgraph, handoff or stratum. */
  ghost predicate Linked(g: Hydroflow)
  {
    && g.currentStratum < |g.stratumQueues|
    && (forall i :: 0 <= i < |g.subgraphs| ==>
          && g.subgraphs[i].stratum < |g.stratumQueues|
          && (forall h :: h in g.subgraphs[i].preds ==> h < |g.handoffs|)
          && (forall h :: h in g.subgraphs[i].succs ==> h < |g.handoffs|))
    && (forall h :: 0 <= h < |g.handoffs| ==>
          && (forall s :: s in g.handoffs[h].preds ==> s < |g.subgraphs|)
          && (forall s :: s in g.handoffs[h].succs ==> s < |g.subgraphs|))
    && (forall e :: e in g.eventQueue ==> e.sg < |g.subgraphs|)
  }

  /** A subgraph sits in a queue iff its flag is set; it only ever sits in its own stratum's
      queue, and at most once there. */
  ghost predicate QueuesMatchFlags(g: Hydroflow)
  {
    && (forall st :: 0 <= st < |g.stratumQueues| ==>
          && NoDup(g.stratumQueues[st])
          && forall id :: id in g.stratumQueues[st] ==> id < |g.subgraphs| && g.subgraphs[id].stratum == st)
    && (forall i :: 0 <= i < |g.subgraphs| && g.subgraphs[i].stratum < |g.stratumQueues| ==>
          (g.subgraphs[i].isScheduled <==> i in g.stratumQueues[g.subgraphs[i].stratum]))
  }

  ghost predicate Wf(g: Hydroflow)
  {
    Linked(g) && QueuesMatchFlags(g)
  }

  /** `r` has the same subgraphs (up to their flags), handoffs and number of strata as `g`. */
  ghost predicate SameGraph(g: Hydroflow, r: Hydroflow)
  {
    && r.handoffs == g.handoffs
    && |r.subgraphs| == |g.subgraphs|
    && |r.stratumQueues| == |g.stratumQueues|
    && (forall i :: 0 <= i < |g.subgraphs| ==>
          && r.subgraphs[i].stratum == g.subgraphs[i].stratum
          && r.subgraphs[i].preds == g.subgraphs[i].preds
          && r.subgraphs[i].succs == g.subgraphs[i].succs)
  }

  /** Every event a script's effects send names an existing subgraph. */
  ghost predicate ScriptOk(n: nat, script: seq<Effect>)
  {
    forall k, e :: 0 <= k < |script| && e in script[k].sent ==> e.sg < n
  }

  /** Whether any event of `events` is external. */
  predicate HasExternal(events: seq<Event>)
  {
    exists e :: e in events && e.isExternal
  }

  /** A subgraph id is never queued twice: it occurs at one position of one queue at most. */
  lemma AtMostOnce(g: Hydroflow, id: SubgraphId, st1: nat, i1: nat, st2: nat, i2: nat)
    requires Wf(g)
    requires st1 < |g.stratumQueues| && i1 < |g.stratumQueues[st1]| && g.stratumQueues[st1][i1] == id
    requires st2 < |g.stratumQueues| && i2 < |g.stratumQueues[st2]| && g.stratumQueues[st2][i2] == id
    ensures st1 == st2 && i1 == i2
  {
    assert id in g.stratumQueues[st1] && id in g.stratumQueues[st2];
    assert g.subgraphs[id].stratum == st1 && g.subgraphs[id].stratum == st2;
    assert NoDup(g.stratumQueues[st1]);
  }

  // ---------------------------------------------------------------------------------------------
  // Construction

  /** A new graph: no subgraphs or handoffs, one empty stratum queue, stratum 0 of tick 0. */
  function Default(): (g: Hydroflow)
    ensures Wf(g)
    ensures |g.stratumQueues| == 1 && g.stratumQueues[0] == []
    ensures g.currentStratum == 0 && g.currentTick == 0 && !g.eventsReceivedTick
    ensures g.subgraphs == [] && g.handoffs == [] && g.eventQueue == []
  {
    Hydroflow([], [], [[]], [], false, 0, 0)
  }

  /** `init_stratum`: grows the queue vector so that `stratum` has a queue. */
  function InitStratum(queues: seq<seq<SubgraphId>>, stratum: nat): (r: seq<seq<SubgraphId>>)
    ensures |r| > stratum && |r| >= |queues|
    ensures |r| == |queues| || |r| == stratum + 1
    ensures queues <= r
    ensures forall st :: |queues| <= st < |r| ==> r[st] == []
    decreases stratum + 1 - |queues|
  {
    if |queues| <= stratum then InitStratum(queues + [[]], stratum) else queues
  }

  /** `make_edge`: adds an empty handoff; both returned ports carry its id, the old handoff count. */
  function MakeEdge(g: Hydroflow): (r: (Hydroflow, HandoffId, HandoffId))
    ensures r.1 == |g.handoffs| && r.2 == |g.handoffs|
    ensures |r.0.handoffs| == |g.handoffs| + 1 && r.0.handoffs[..|g.handoffs|] == g.handoffs
    ensures r.0.handoffs[r.1] == HandoffData([], [])
    ensures r.0 == g.(handoffs := r.0.handoffs)
    ensures Wf(g) ==> Wf(r.0)
  {
    var id := |g.handoffs|;
    var r := g.(handoffs := g.handoffs + [HandoffData([], [])]);
    MakeEdgeKeepsWf(g, r);
    (r, id, id)
  }

  lemma MakeEdgeKeepsWf(g: Hydroflow, r: Hydroflow)
    requires r == g.(handoffs := g.handoffs + [HandoffData([], [])])
    ensures Wf(g) ==> Wf(r)
  {
    if Wf(g) {
      forall h | 0 <= h < |r.handoffs|
        ensures forall s :: s in r.handoffs[h].preds ==> s < |r.subgraphs|
        ensures forall s :: s in r.handoffs[h].succs ==> s < |r.subgraphs|
      {
        if h < |g.handoffs| {
          assert r.handoffs[h] == g.handoffs[h];
        }
      }
      QueuesFrame(g, r);
    }
  }

  /** Facts about the queues and flags carry over to a graph with the same subgraphs and queues. */
  lemma QueuesFrame(g: Hydroflow, r: Hydroflow)
    requires QueuesMatchFlags(g)
    requires r.stratumQueues == g.stratumQueues && r.subgraphs == g.subgraphs
    ensures QueuesMatchFlags(r)
  {
  }

  /** `Wf` carries over to a graph with the same subgraphs, handoffs and queues, at any valid stratum
      and with any valid pending events. */
  lemma WfFrame(g: Hydroflow, r: Hydroflow)
    requires Wf(g)
    requires r.stratumQueues == g.stratumQueues && r.subgraphs == g.subgraphs && r.handoffs == g.handoffs
    requires r.currentStratum < |r.stratumQueues|
    requires forall e :: e in r.eventQueue ==> e.sg < |r.subgraphs|
    ensures Wf(r)
  {
    QueuesFrame(g, r);
  }

  /** `Wf` carries over to a move to another valid stratum (or tick). */
  lemma WfMoves(g: Hydroflow, r: Hydroflow)
    requires r.stratumQueues == g.stratumQueues && r.subgraphs == g.subgraphs && r.handoffs == g.handoffs
    requires r.eventQueue == g.eventQueue
    ensures Wf(g) && r.currentStratum < |r.stratumQueues| ==> Wf(r)
  {
    if Wf(g) && r.currentStratum < |r.stratumQueues| {
      WfFrame(g, r);
    }
  }

  /** Records `sg` as a reader of every handoff in `ports`. */
  function AttachReader(handoffs: seq<HandoffData>, ports: seq<HandoffId>, sg: SubgraphId): (r: seq<HandoffData>)
    requires forall h :: h in ports ==> h < |handoffs|
    ensures |r| == |handoffs|
    ensures forall h :: 0 <= h < |r| ==> r[h].preds == handoffs[h].preds && handoffs[h].succs <= r[h].succs
    ensures forall h, s :: 0 <= h < |r| && s in r[h].succs ==> s in handoffs[h].succs || s == sg
    ensures forall h :: 0 <= h < |r| ==> (sg in r[h].succs <==> sg in handoffs[h].succs || h in ports)
    decreases |ports|
  {
    if ports == [] then handoffs
    else
      var h := ports[0];
      assert h in ports;
      assert forall x :: x in ports <==> x == h || x in ports[1..];
      AttachReader(handoffs[h := handoffs[h].(succs := handoffs[h].succs + [sg])], ports[1..], sg)
  }

  /** Records `sg` as a writer of every handoff in `ports`. */
  function AttachWriter(handoffs: seq<HandoffData>, ports: seq<HandoffId>, sg: SubgraphId): (r: seq<HandoffData>)
    requires forall h :: h in ports ==> h < |handoffs|
    ensures |r| == |handoffs|
    ensures forall h :: 0 <= h < |r| ==> r[h].succs == handoffs[h].succs && handoffs[h].preds <= r[h].preds
    ensures forall h, s :: 0 <= h < |r| && s in r[h].preds ==> s in handoffs[h].preds || s == sg
    ensures forall h :: 0 <= h < |r| ==> (sg in r[h].preds <==> sg in handoffs[h].preds || h in ports)
    decreases |ports|
  {
    if ports == [] then handoffs
    else
      var h := ports[0];
      assert h in ports;
      assert forall x :: x in ports <==> x == h || x in ports[1..];
      AttachWriter(handoffs[h := handoffs[h].(preds := handoffs[h].preds + [sg])], ports[1..], sg)
  }

  /** `add_subgraph_stratified`: the new subgraph gets the next id, is flagged scheduled and is
      appended to its stratum's queue (created if needed); its ports are linked both ways. */
  function AddSubgraphStratified(g: Hydroflow, stratum: nat, recvPorts: seq<HandoffId>, sendPorts: seq<HandoffId>): (r: (Hydroflow, SubgraphId))
    requires Wf(g)
    requires forall h :: h in recvPorts ==> h < |g.handoffs|
    requires forall h :: h in sendPorts ==> h < |g.handoffs|
    ensures r.1 == |g.subgraphs|
    ensures r.0.subgraphs == g.subgraphs + [SubgraphData(stratum, recvPorts, sendPorts, true)]
    ensures |r.0.stratumQueues| == (if |g.stratumQueues| <= stratum then stratum + 1 else |g.stratumQueues|)
    ensures forall st :: 0 <= st < |r.0.stratumQueues| && st != stratum ==>
              r.0.stratumQueues[st] == (if st < |g.stratumQueues| then g.stratumQueues[st] else [])
    ensures r.0.stratumQueues[stratum] == (if stratum < |g.stratumQueues| then g.stratumQueues[stratum] else []) + [r.1]
    ensures |r.0.handoffs| == |g.handoffs|
    ensures forall h :: 0 <= h < |g.handoffs| ==>
              (r.1 in r.0.handoffs[h].succs <==> h in recvPorts) && (r.1 in r.0.handoffs[h].preds <==> h in sendPorts)
    ensures r.0.eventQueue == g.eventQueue && r.0.currentStratum == g.currentStratum && r.0.currentTick == g.currentTick
  {
    var id := |g.subgraphs|;
    var handoffs := AttachWriter(AttachReader(g.handoffs, recvPorts, id), sendPorts, id);
    var queues := InitStratum(g.stratumQueues, stratum);
    var r := g.(subgraphs := g.subgraphs + [SubgraphData(stratum, recvPorts, sendPorts, true)],
                handoffs := handoffs,
                stratumQueues := queues[stratum := queues[stratum] + [id]]);
    AddSubgraphLinks(g, stratum, recvPorts, sendPorts, r);
    AddSubgraphQueues(g.stratumQueues, stratum, id, r.stratumQueues);
    (r, id)
  }

  /** Only the new subgraph's stratum queue changes, by the id appended at its back; strata that
      did not exist yet get empty queues. */
  lemma AddSubgraphQueues(queues: seq<seq<SubgraphId>>, stratum: nat, id: SubgraphId, r: seq<seq<SubgraphId>>)
    requires var q := InitStratum(queues, stratum); r == q[stratum := q[stratum] + [id]]
    ensures |r| == (if |queues| <= stratum then stratum + 1 else |queues|)
    ensures forall st :: 0 <= st < |r| && st != stratum ==> r[st] == (if st < |queues| then queues[st] else [])
    ensures r[stratum] == (if stratum < |queues| then queues[stratum] else []) + [id]
  {
  }

  /** Adding a subgraph keeps the graph well-formed: in particular the new id is queued once, in
      its own stratum's queue, and flagged. */
  lemma AddSubgraphKeepsWf(g: Hydroflow, stratum: nat, recvPorts: seq<HandoffId>, sendPorts: seq<HandoffId>)
    requires Wf(g)
    requires forall h :: h in recvPorts ==> h < |g.handoffs|
    requires forall h :: h in sendPorts ==> h < |g.handoffs|
    ensures Wf(AddSubgraphStratified(g, stratum, recvPorts, sendPorts).0)
  {
    var id := |g.subgraphs|;
    var handoffs := AttachWriter(AttachReader(g.handoffs, recvPorts, id), sendPorts, id);
    var queues := InitStratum(g.stratumQueues, stratum);
    var r := g.(subgraphs := g.subgraphs + [SubgraphData(stratum, recvPorts, sendPorts, true)],
                handoffs := handoffs,
                stratumQueues := queues[stratum := queues[stratum] + [id]]);
    AddSubgraphWf(g, r, stratum, recvPorts, sendPorts);
  }

  /** The new subgraph is linked to exactly its ports, and the graph stays well-formed. */
  lemma AddSubgraphLinks(g: Hydroflow, stratum: nat, recvPorts: seq<HandoffId>, sendPorts: seq<HandoffId>, r: Hydroflow)
    requires forall h :: 0 <= h < |g.handoffs| ==> forall s :: s in g.handoffs[h].preds ==> s < |g.subgraphs|
    requires forall h :: 0 <= h < |g.handoffs| ==> forall s :: s in g.handoffs[h].succs ==> s < |g.subgraphs|
    requires forall h :: h in recvPorts ==> h < |g.handoffs|
    requires forall h :: h in sendPorts ==> h < |g.handoffs|
    requires var id := |g.subgraphs|;
             var queues := InitStratum(g.stratumQueues, stratum);
             r == g.(subgraphs := g.subgraphs + [SubgraphData(stratum, recvPorts, sendPorts, true)],
                     handoffs := AttachWriter(AttachReader(g.handoffs, recvPorts, id), sendPorts, id),
                     stratumQueues := queues[stratum := queues[stratum] + [id]])
    ensures |r.handoffs| == |g.handoffs|
    ensures forall h :: 0 <= h < |g.handoffs| ==>
              (|g.subgraphs| in r.handoffs[h].succs <==> h in recvPorts) && (|g.subgraphs| in r.handoffs[h].preds <==> h in sendPorts)
  {
    var id := |g.subgraphs|;
    forall h | 0 <= h < |g.handoffs| ensures id !in g.handoffs[h].succs && id !in g.handoffs[h].preds {
    }
  }

  lemma AddSubgraphWf(g: Hydroflow, r: Hydroflow, stratum: nat, recvPorts: seq<HandoffId>, sendPorts: seq<HandoffId>)
    requires Wf(g)
    requires r.subgraphs == g.subgraphs + [SubgraphData(stratum, recvPorts, sendPorts, true)]
    requires forall h :: h in recvPorts ==> h < |g.handoffs|
    requires forall h :: h in sendPorts ==> h < |g.handoffs|
    requires |r.handoffs| == |g.handoffs|
    requires forall h, s :: 0 <= h < |r.handoffs| && s in r.handoffs[h].succs ==> s in g.handoffs[h].succs || s == |g.subgraphs|
    requires forall h, s :: 0 <= h < |r.handoffs| && s in r.handoffs[h].preds ==> s in g.handoffs[h].preds || s == |g.subgraphs|
    requires var queues := InitStratum(g.stratumQueues, stratum);
             r.stratumQueues == queues[stratum := queues[stratum] + [|g.subgraphs|]]
    requires r.eventQueue == g.eventQueue && r.currentStratum == g.currentStratum
    ensures Wf(r)
  {
    var id := |g.subgraphs|;
    var queues := InitStratum(g.stratumQueues, stratum);
    forall st | 0 <= st < |queues|
      ensures NoDup(queues[st]) && forall x :: x in queues[st] ==> x < id && g.subgraphs[x].stratum == st
    {
      if st < |g.stratumQueues| {
        assert queues[st] == g.stratumQueues[st];
      }
    }
    assert id !in queues[stratum];
    NoDupAppend(queues[stratum], [id]);
    forall i | 0 <= i < |r.subgraphs|
      ensures r.subgraphs[i].isScheduled <==> i in r.stratumQueues[r.subgraphs[i].stratum]
    {
      if i < id {
        var st := g.subgraphs[i].stratum;
        assert r.subgraphs[i] == g.subgraphs[i];
        assert st < |g.stratumQueues| && queues[st] == g.stratumQueues[st];
        if st == stratum {
          assert r.stratumQueues[st] == g.stratumQueues[st] + [id];
        }
      }
    }
  }

  // ---------------------------------------------------------------------------------------------
  // Scheduling a single subgraph

  /** Every subgraph's stratum has a queue: what scheduling needs in order to be defined. */
  ghost predicate StrataOk(g: Hydroflow)
  {
    forall i :: 0 <= i < |g.subgraphs| ==> g.subgraphs[i].stratum < |g.stratumQueues|
  }

  /** The common step of `run_stratum` and `try_recv_events`: a subgraph that is not yet flagged is
      flagged and appended to its own stratum's queue; a flagged one is left alone. Only flags and
      queues change. */
  function Schedule(g: Hydroflow, id: SubgraphId): (r: Hydroflow)
    requires StrataOk(g) && id < |g.subgraphs|
    ensures SameGraph(g, r) && r.(subgraphs := g.subgraphs, stratumQueues := g.stratumQueues) == g
    ensures forall i :: 0 <= i < |g.subgraphs| ==>
              r.subgraphs[i].isScheduled == (g.subgraphs[i].isScheduled || i == id)
    ensures forall st :: 0 <= st < |g.stratumQueues| ==>
              r.stratumQueues[st] == g.stratumQueues[st] +
                (if !g.subgraphs[id].isScheduled && st == g.subgraphs[id].stratum then [id] else [])
  {
    var sd := g.subgraphs[id];
    if sd.isScheduled then g
    else
      g.(subgraphs := g.subgraphs[id := sd.(isScheduled := true)],
         stratumQueues := g.stratumQueues[sd.stratum := g.stratumQueues[sd.stratum] + [id]])
  }

  /** Scheduling keeps the queue/flag invariant: in particular it never queues a subgraph twice. */
  lemma ScheduleKeepsWf(g: Hydroflow, id: SubgraphId)
    requires Wf(g) && id < |g.subgraphs|
    ensures Wf(Schedule(g, id))
  {
    var r := Schedule(g, id);
    var st := g.subgraphs[id].stratum;
    if !g.subgraphs[id].isScheduled {
      assert id !in g.stratumQueues[st];
      NoDupAppend(g.stratumQueues[st], [id]);
    }
    assert r.handoffs == g.handoffs && r.eventQueue == g.eventQueue && r.currentStratum == g.currentStratum;
  }

  /** Schedules every id of `ids`, in order. */
  function ScheduleAll(g: Hydroflow, ids: seq<SubgraphId>): (r: Hydroflow)
    requires StrataOk(g) && forall i :: i in ids ==> i < |g.subgraphs|
    ensures SameGraph(g, r) && r.(subgraphs := g.subgraphs, stratumQueues := g.stratumQueues) == g
    ensures forall i :: 0 <= i < |g.subgraphs| ==>
              (r.subgraphs[i].isScheduled <==> g.subgraphs[i].isScheduled || i in ids)
    ensures forall st :: 0 <= st < |g.stratumQueues| ==> g.stratumQueues[st] <= r.stratumQueues[st]
    decreases |ids|
  {
    if ids == [] then g
    else
      assert forall i :: i in ids <==> i == ids[0] || i in ids[1..];
      assert ids[0] in ids;
      var g1 := Schedule(g, ids[0]);
      assert StrataOk(g1);
      var r := ScheduleAll(g1, ids[1..]);
      assert forall st :: 0 <= st < |g.stratumQueues| ==> g.stratumQueues[st] <= g1.stratumQueues[st];
      r
  }

  lemma {:induction false} ScheduleAllKeepsWf(g: Hydroflow, ids: seq<SubgraphId>)
    requires Wf(g) && forall i :: i in ids ==> i < |g.subgraphs|
    ensures Wf(ScheduleAll(g, ids))
    decreases |ids|
  {
    if ids != [] {
      assert ids[0] in ids;
      ScheduleKeepsWf(g, ids[0]);
      assert forall i :: i in ids[1..] ==> i in ids;
      ScheduleAllKeepsWf(Schedule(g, ids[0]), ids[1..]);
    }
  }

  /** The subgraphs that became scheduled between `g` and `r`. */
  ghost function NewlyScheduled(g: Hydroflow, r: Hydroflow): set<SubgraphId>
    requires |r.subgraphs| == |g.subgraphs|
  {
    set i | 0 <= i < |g.subgraphs| && r.subgraphs[i].isScheduled && !g.subgraphs[i].isScheduled
  }

  // ---------------------------------------------------------------------------------------------
  // Events

  /** The subgraphs named by `events`, in order. */
  function Targets(events: seq<Event>): (r: seq<SubgraphId>)
    ensures |r| == |events| && forall k :: 0 <= k < |events| ==> r[k] == events[k].sg
  {
    if events == [] then [] else [events[0].sg] + Targets(events[1..])
  }

  /** The loop body of `try_recv_events` over `events`: schedules each named subgraph in turn,
      counting those that were not scheduled yet, and noting whether any event was external. */
  function ReceiveAll(g: Hydroflow, events: seq<Event>): (r: (Hydroflow, nat, bool))
    requires StrataOk(g) && forall e :: e in events ==> e.sg < |g.subgraphs|
    ensures forall i :: i in Targets(events) ==> i < |g.subgraphs|
    ensures r.0 == ScheduleAll(g, Targets(events))
    ensures r.1 == |NewlyScheduled(g, r.0)|
    ensures r.2 <==> HasExternal(events)
    decreases |events|
  {
    TargetsValid(g, events);
    if events == [] then (g, 0, false)
    else
      var e := events[0];
      ReceiveFirst(g, events);
      var g1 := Schedule(g, e.sg);
      var (g2, count, external) := ReceiveAll(g1, events[1..]);
      var enqueued := if g.subgraphs[e.sg].isScheduled then 0 else 1;
      ReceiveCount(g, g1, g2, e.sg);
      (g2, count + enqueued, external || e.isExternal)
  }

  /** Receiving the first event schedules its subgraph and leaves the rest to receive. */
  lemma ReceiveFirst(g: Hydroflow, events: seq<Event>)
    requires StrataOk(g) && events != [] && forall e :: e in events ==> e.sg < |g.subgraphs|
    ensures events[0].sg < |g.subgraphs|
    ensures var g1 := Schedule(g, events[0].sg);
            && StrataOk(g1)
            && (forall e :: e in events[1..] ==> e.sg < |g1.subgraphs|)
            && (forall i :: i in Targets(events) ==> i < |g.subgraphs|)
            && ScheduleAll(g, Targets(events)) == ScheduleAll(g1, Targets(events[1..]))
            && (HasExternal(events) <==> events[0].isExternal || HasExternal(events[1..]))
  {
    var e := events[0];
    assert e in events;
    assert forall x :: x in events[1..] ==> x in events;
    TargetsValid(g, events);
    assert Targets(events)[0] == e.sg && Targets(events)[1..] == Targets(events[1..]);
    assert forall x :: x in events <==> x == e || x in events[1..];
  }

  lemma TargetsValid(g: Hydroflow, events: seq<Event>)
    requires forall e :: e in events ==> e.sg < |g.subgraphs|
    ensures forall i :: i in Targets(events) ==> i < |g.subgraphs|
  {
    forall i | i in Targets(events) ensures i < |g.subgraphs| {
      var k :| 0 <= k < |events| && Targets(events)[k] == i;
      assert events[k] in events;
    }
  }

  lemma ReceiveCount(g: Hydroflow, g1: Hydroflow, g2: Hydroflow, id: SubgraphId)
    requires |g1.subgraphs| == |g.subgraphs| && |g2.subgraphs| == |g.subgraphs| && id < |g.subgraphs|
    requires forall i :: 0 <= i < |g.subgraphs| ==> g1.subgraphs[i].isScheduled == (g.subgraphs[i].isScheduled || i == id)
    requires forall i :: 0 <= i < |g.subgraphs| && g1.subgraphs[i].isScheduled ==> g2.subgraphs[i].isScheduled
    ensures |NewlyScheduled(g, g2)| == |NewlyScheduled(g1, g2)| + (if g.subgraphs[id].isScheduled then 0 else 1)
  {
    if g.subgraphs[id].isScheduled {
      assert NewlyScheduled(g, g2) == NewlyScheduled(g1, g2);
    } else {
      assert NewlyScheduled(g, g2) == NewlyScheduled(g1, g2) + {id};
    }
  }

  /** `try_recv_events`: drains the event channel, enqueueing each named subgraph that is not
      already scheduled. Returns the number enqueued and whether any event was external. */
  function TryRecvEvents(g: Hydroflow): (r: (Hydroflow, nat, bool))
    requires Wf(g)
    ensures Wf(r.0) && SameGraph(g, r.0)
    ensures r.0.eventsReceivedTick && r.0.eventQueue == []
    ensures forall i :: 0 <= i < |g.subgraphs| ==>
              (r.0.subgraphs[i].isScheduled <==> g.subgraphs[i].isScheduled || i in Targets(g.eventQueue))
    ensures forall st :: 0 <= st < |g.stratumQueues| ==> g.stratumQueues[st] <= r.0.stratumQueues[st]
    ensures r.1 == |NewlyScheduled(g, r.0)|
    ensures r.2 <==> HasExternal(g.eventQueue)
    ensures r.0.currentStratum == g.currentStratum && r.0.currentTick == g.currentTick
  {
    var g0 := g.(eventQueue := [], eventsReceivedTick := true);
    WfFrame(g, g0);
    var (g1, count, external) := ReceiveAll(g0, g.eventQueue);
    ScheduleAllKeepsWf(g0, Targets(g.eventQueue));
    assert NewlyScheduled(g, g1) == NewlyScheduled(g0, g1);
    (g1, count, external)
  }

  // ---------------------------------------------------------------------------------------------
  // Finding work

  /** Steps from stratum `c` to the stratum `e` at which a search stops, wrapping at `n`. */
  function Dist(c: nat, e: nat, n: nat): nat
    requires c < n
  {
    if c < e then e - c else e + n - c
  }

  /** `current_stratum += 1`, without wrapping. */
  function NextOfTick(g: Hydroflow): (r: Hydroflow)
    ensures SameGraph(g, r) && r == g.(currentStratum := g.currentStratum + 1)
    ensures Wf(g) && g.currentStratum + 1 < |g.stratumQueues| ==> Wf(r)
  {
    var r := g.(currentStratum := g.currentStratum + 1);
    WfMoves(g, r);
    r
  }

  /** Wrapping past the last stratum: back to stratum 0 of the next tick. */
  function Wrap(g: Hydroflow): (r: Hydroflow)
    ensures SameGraph(g, r) && r == g.(currentStratum := 0, currentTick := g.currentTick + 1)
    ensures Wf(g) ==> Wf(r)
  {
    var r := g.(currentStratum := 0, currentTick := g.currentTick + 1);
    WfMoves(g, r);
    r
  }

  /** Giving up: back to stratum 0, ready to receive events again. */
  function Idle(g: Hydroflow): (r: Hydroflow)
    ensures SameGraph(g, r) && r == g.(currentStratum := 0, eventsReceivedTick := false)
    ensures Wf(g) ==> Wf(r)
  {
    var r := g.(currentStratum := 0, eventsReceivedTick := false);
    WfMoves(g, r);
    r
  }

  /** The search loop of `next_stratum`, started at stratum `g.currentStratum` and stopping when
      it comes back round to `end`. */
  function Seek(g: Hydroflow, currentTickOnly: bool, end: nat): (r: (Hydroflow, bool))
    requires Wf(g) && end < |g.stratumQueues|
    ensures |r.0.stratumQueues| == |g.stratumQueues| && r.0.currentStratum < |g.stratumQueues|
    ensures r.1 ==> r.0.stratumQueues[r.0.currentStratum] != []
    ensures !r.1 ==> r.0.currentStratum == 0 && !r.0.eventsReceivedTick
    ensures r.1 ==> g.currentTick < r.0.currentTick || (g.currentTick == r.0.currentTick && g.currentStratum <= r.0.currentStratum)
    decreases if HasExternal(g.eventQueue) then 1 else 0, Dist(g.currentStratum, end, |g.stratumQueues|), 1
  {
    if g.stratumQueues[g.currentStratum] != [] then (g, true)
    else if g.currentStratum + 1 >= |g.stratumQueues| then SeekWrap(g, currentTickOnly, end)
    else
      var g1 := NextOfTick(g);
      if end == g1.currentStratum then (Idle(g1), false)
      else Seek(g1, currentTickOnly, end)
  }

  /** The search past the last stratum: on to stratum 0 of the next tick, where it gives up when
      confined to the current tick; otherwise it receives events, and goes round once more from
      the start when one of them was external. */
  function SeekWrap(g: Hydroflow, currentTickOnly: bool, end: nat): (r: (Hydroflow, bool))
    requires Wf(g) && end < |g.stratumQueues| && g.currentStratum + 1 == |g.stratumQueues|
    ensures |r.0.stratumQueues| == |g.stratumQueues| && r.0.currentStratum < |g.stratumQueues|
    ensures r.1 ==> r.0.stratumQueues[r.0.currentStratum] != []
    ensures !r.1 ==> r.0.currentStratum == 0 && !r.0.eventsReceivedTick
    ensures r.1 ==> g.currentTick < r.0.currentTick
    decreases if HasExternal(g.eventQueue) then 1 else 0, Dist(g.currentStratum, end, |g.stratumQueues|), 0
  {
    var g1 := Wrap(g);
    if currentTickOnly then (Idle(g1), false)
    else
      var (g2, _, external) := TryRecvEvents(g1);
      if external then Seek(g2, false, 0)
      else if end == 0 then (Idle(g2), false)
      else Seek(g2, false, end)
  }

  lemma {:induction false} SeekKeepsWf(g: Hydroflow, currentTickOnly: bool, end: nat)
    requires Wf(g) && end < |g.stratumQueues|
    ensures Wf(Seek(g, currentTickOnly, end).0)
    decreases if HasExternal(g.eventQueue) then 1 else 0, Dist(g.currentStratum, end, |g.stratumQueues|), 1
  {
    if g.stratumQueues[g.currentStratum] != [] {
    } else if g.currentStratum + 1 >= |g.stratumQueues| {
      SeekWrapKeepsWf(g, currentTickOnly, end);
    } else if end != g.currentStratum + 1 {
      SeekKeepsWf(NextOfTick(g), currentTickOnly, end);
    }
  }

  lemma {:induction false} SeekWrapKeepsWf(g: Hydroflow, currentTickOnly: bool, end: nat)
    requires Wf(g) && end < |g.stratumQueues| && g.currentStratum + 1 == |g.stratumQueues|
    ensures Wf(SeekWrap(g, currentTickOnly, end).0)
    decreases if HasExternal(g.eventQueue) then 1 else 0, Dist(g.currentStratum, end, |g.stratumQueues|), 0
  {
    if !currentTickOnly {
      var (g2, _, external) := TryRecvEvents(Wrap(g));
      if external {
        SeekKeepsWf(g2, false, 0);
      } else if end != 0 {
        SeekKeepsWf(g2, false, end);
      }
    }
  }

  /** The search changes no subgraph (but its flag), handoff or number of strata. */
  lemma {:induction false} SeekSameGraph(g: Hydroflow, currentTickOnly: bool, end: nat)
    requires Wf(g) && end < |g.stratumQueues|
    ensures SameGraph(g, Seek(g, currentTickOnly, end).0)
    decreases if HasExternal(g.eventQueue) then 1 else 0, Dist(g.currentStratum, end, |g.stratumQueues|), 1
  {
    if g.stratumQueues[g.currentStratum] != [] {
    } else if g.currentStratum + 1 >= |g.stratumQueues| {
      SeekWrapSameGraph(g, currentTickOnly, end);
    } else if end != g.currentStratum + 1 {
      var g1 := NextOfTick(g);
      SeekSameGraph(g1, currentTickOnly, end);
      SameGraphTrans(g, g1, Seek(g1, currentTickOnly, end).0);
    }
  }

  lemma {:induction false} SeekWrapSameGraph(g: Hydroflow, currentTickOnly: bool, end: nat)
    requires Wf(g) && end < |g.stratumQueues| && g.currentStratum + 1 == |g.stratumQueues|
    ensures SameGraph(g, SeekWrap(g, currentTickOnly, end).0)
    decreases if HasExternal(g.eventQueue) then 1 else 0, Dist(g.currentStratum, end, |g.stratumQueues|), 0
  {
    var g1 := Wrap(g);
    if !currentTickOnly {
      var (g2, _, external) := TryRecvEvents(g1);
      SameGraphTrans(g, g1, g2);
      if external {
        SeekSameGraph(g2, false, 0);
        SameGraphTrans(g, g2, Seek(g2, false, 0).0);
      } else if end != 0 {
        SeekSameGraph(g2, false, end);
        SameGraphTrans(g, g2, Seek(g2, false, end).0);
      } else {
        SameGraphTrans(g, g2, Idle(g2));
      }
    } else {
      SameGraphTrans(g, g1, Idle(g1));
    }
  }

  /** How far the search moves the tick: never back; at least one tick when it fails after a full
      loop; not at all when the stopping stratum lies ahead; by at most one, or two when an
      external event arrives at the wrap. */
  lemma {:induction false} SeekTicks(g: Hydroflow, currentTickOnly: bool, end: nat)
    requires Wf(g) && end < |g.stratumQueues|
    ensures var r := Seek(g, currentTickOnly, end);
            && g.currentTick <= r.0.currentTick
            && (!r.1 && end <= g.currentStratum ==> g.currentTick < r.0.currentTick)
            && (end > g.currentStratum ==> r.0.currentTick == g.currentTick)
            && r.0.currentTick <= g.currentTick + (if !currentTickOnly && HasExternal(g.eventQueue) then 2 else 1)
            && (r.0.eventQueue == g.eventQueue || r.0.eventQueue == [])
    decreases if HasExternal(g.eventQueue) then 1 else 0, Dist(g.currentStratum, end, |g.stratumQueues|), 1
  {
    if g.stratumQueues[g.currentStratum] != [] {
    } else if g.currentStratum + 1 >= |g.stratumQueues| {
      SeekWrapTicks(g, currentTickOnly, end);
    } else if end != g.currentStratum + 1 {
      SeekTicks(NextOfTick(g), currentTickOnly, end);
    }
  }

  lemma {:induction false} SeekWrapTicks(g: Hydroflow, currentTickOnly: bool, end: nat)
    requires Wf(g) && end < |g.stratumQueues| && g.currentStratum + 1 == |g.stratumQueues|
    ensures var r := SeekWrap(g, currentTickOnly, end);
            && g.currentTick < r.0.currentTick
            && r.0.currentTick <= g.currentTick + (if !currentTickOnly && HasExternal(g.eventQueue) then 2 else 1)
            && (r.0.eventQueue == g.eventQueue || r.0.eventQueue == [])
    decreases if HasExternal(g.eventQueue) then 1 else 0, Dist(g.currentStratum, end, |g.stratumQueues|), 0
  {
    if !currentTickOnly {
      var (g2, _, external) := TryRecvEvents(Wrap(g));
      if external {
        SeekTicks(g2, false, 0);
      } else if end != 0 {
        SeekTicks(g2, false, end);
      }
    }
  }

  /** Within the current tick the search neither receives events nor touches the queues: it stops
      at the first stratum with work, and fails only when no later stratum has any. */
  lemma {:induction false} SeekCurrentTick(g: Hydroflow, end: nat)
    requires Wf(g) && end <= g.currentStratum
    ensures var r := Seek(g, true, end);
            && r.0.stratumQueues == g.stratumQueues && r.0.eventQueue == g.eventQueue
            && (r.1 ==> r.0.currentTick == g.currentTick &&
                        forall st :: g.currentStratum <= st < r.0.currentStratum ==> g.stratumQueues[st] == [])
            && (!r.1 ==> r.0.currentTick == g.currentTick + 1 &&
                         forall st :: g.currentStratum <= st < |g.stratumQueues| ==> g.stratumQueues[st] == [])
    decreases Dist(g.currentStratum, end, |g.stratumQueues|)
  {
    if g.stratumQueues[g.currentStratum] == [] && g.currentStratum + 1 < |g.stratumQueues| {
      SeekCurrentTick(NextOfTick(g), end);
    }
  }

  /** `next_stratum`: receives events at the start of a tick, then looks for the next stratum
      with work, possibly the current one. */
  function NextStratum(g: Hydroflow, currentTickOnly: bool): (r: (Hydroflow, bool))
    requires Wf(g)
    ensures Wf(r.0) && SameGraph(g, r.0)
    ensures r.1 ==> r.0.stratumQueues[r.0.currentStratum] != []
    ensures !r.1 ==> r.0.currentStratum == 0 && !r.0.eventsReceivedTick && g.currentTick < r.0.currentTick
    ensures r.1 ==> g.currentTick < r.0.currentTick || (g.currentTick == r.0.currentTick && g.currentStratum <= r.0.currentStratum)
    ensures r.0.currentTick <= g.currentTick + (if currentTickOnly then 1 else 2)
    ensures g.currentStratum == 0 && !g.eventsReceivedTick ==> r.0.eventQueue == []
    ensures currentTickOnly && r.1 ==> r.0.currentTick == g.currentTick
    ensures currentTickOnly && !r.1 ==> r.0.currentTick == g.currentTick + 1
  {
    var g1 := if g.currentStratum == 0 && !g.eventsReceivedTick then TryRecvEvents(g).0 else g;
    SeekKeepsWf(g1, currentTickOnly, g1.currentStratum);
    SeekSameGraph(g1, currentTickOnly, g1.currentStratum);
    SeekTicks(g1, currentTickOnly, g1.currentStratum);
    if currentTickOnly then
      SeekCurrentTick(g1, g1.currentStratum);
      Seek(g1, currentTickOnly, g1.currentStratum)
    else
      Seek(g1, currentTickOnly, g1.currentStratum)
  }

  /** With `current_tick_only`, `next_stratum` returns true iff some stratum at or after the
      current one has queued work once events are in, and then stops at the first such. */
  lemma NextStratumFindsFirstWork(g: Hydroflow)
    requires Wf(g) && (g.currentStratum != 0 || g.eventsReceivedTick)
    ensures var r := NextStratum(g, true);
            && (r.1 <==> exists st :: g.currentStratum <= st < |g.stratumQueues| && g.stratumQueues[st] != [])
            && (r.1 ==> r.0.stratumQueues == g.stratumQueues && g.currentStratum <= r.0.currentStratum &&
                        forall st :: g.currentStratum <= st < r.0.currentStratum ==> g.stratumQueues[st] == [])
  {
    SeekCurrentTick(g, g.currentStratum);
    var r := Seek(g, true, g.currentStratum);
    assert NextStratum(g, true) == r;
    if r.1 {
      assert g.stratumQueues[r.0.currentStratum] != [];
    }
  }

  /** With nothing queued from the current stratum on and only internal events pending, the search
      wraps into the next tick, queues the events' subgraphs there, and still gives up: internal
      events never extend the search by a full loop. */
  lemma {:induction false} SeekDefersInternal(g: Hydroflow)
    requires Wf(g) && !HasExternal(g.eventQueue)
    requires forall st :: g.currentStratum <= st < |g.stratumQueues| ==> g.stratumQueues[st] == []
    ensures var r := Seek(g, false, 0);
            && !r.1 && r.0.currentTick == g.currentTick + 1 && r.0.eventQueue == []
            && |r.0.subgraphs| == |g.subgraphs|
            && forall i :: 0 <= i < |g.subgraphs| ==>
                 (r.0.subgraphs[i].isScheduled <==> g.subgraphs[i].isScheduled || i in Targets(g.eventQueue))
    decreases |g.stratumQueues| - g.currentStratum
  {
    SeekKeepsWf(g, false, 0);
    if g.currentStratum + 1 < |g.stratumQueues| {
      SeekDefersInternal(NextOfTick(g));
    }
  }

  /** The situation after the last run of a tick whose subgraphs only scheduled themselves (or
      each other) through internal events: `next_stratum(false)` moves on to the next tick and
      queues them, but reports no work, so `run_available` stops before running them. */
  lemma NextStratumDefersInternal(g: Hydroflow)
    requires Wf(g) && !HasExternal(g.eventQueue) && g.currentStratum == 0 && g.eventsReceivedTick
    requires forall st :: 0 <= st < |g.stratumQueues| ==> g.stratumQueues[st] == []
    ensures var r := NextStratum(g, false);
            && !r.1 && r.0.currentTick == g.currentTick + 1 && r.0.currentStratum == 0 && r.0.eventQueue == []
            && |r.0.subgraphs| == |g.subgraphs|
            && forall i :: 0 <= i < |g.subgraphs| ==>
                 (r.0.subgraphs[i].isScheduled <==> i in Targets(g.eventQueue))
  {
    SeekDefersInternal(g);
    assert NextStratum(g, false) == Seek(g, false, g.currentStratum);
    forall i | 0 <= i < |g.subgraphs| ensures !g.subgraphs[i].isScheduled {
      assert g.subgraphs[i].stratum < |g.stratumQueues|;
    }
  }

  /** A new graph has no work: running a tick of it does nothing but advance the tick. */
  lemma DefaultIsIdle()
    ensures var r := NextStratum(Default(), true);
            !r.1 && r.0.currentTick == 1 && r.0.currentStratum == 0
  {
  }

  // ---------------------------------------------------------------------------------------------
  // Running

  /** The subgraphs woken by a run that left the handoffs `nonEmpty` holding data: the readers of
      each non-empty handoff among `outs`, in order. */
  function Woken(handoffs: seq<HandoffData>, outs: seq<HandoffId>, nonEmpty: set<HandoffId>): (r: seq<SubgraphId>)
    requires forall h :: h in outs ==> h < |handoffs|
    ensures forall s :: s in r <==> exists h :: h in outs && h in nonEmpty && s in handoffs[h].succs
    decreases |outs|
  {
    if outs == [] then []
    else
      assert forall h :: h in outs <==> h == outs[0] || h in outs[1..];
      assert outs[0] in outs;
      var rest := Woken(handoffs, outs[1..], nonEmpty);
      (if outs[0] in nonEmpty then handoffs[outs[0]].succs else []) + rest
  }

  lemma WokenValid(g: Hydroflow, sg: SubgraphId, nonEmpty: set<HandoffId>)
    requires Linked(g) && sg < |g.subgraphs|
    ensures forall s :: s in Woken(g.handoffs, g.subgraphs[sg].succs, nonEmpty) ==> s < |g.subgraphs|
  {
    forall s | s in Woken(g.handoffs, g.subgraphs[sg].succs, nonEmpty) ensures s < |g.subgraphs| {
      var h :| h in g.subgraphs[sg].succs && h in nonEmpty && s in g.handoffs[h].succs;
    }
  }

  /** The start of one iteration of `run_stratum`'s loop: pop the front subgraph of the current
      stratum, which the invariant guarantees is flagged (the source asserts this), and clear its
      flag; `sent` are the events its run will send. */
  function Pop(g: Hydroflow, sent: seq<Event>): (r: (Hydroflow, SubgraphId))
    requires Wf(g) && g.stratumQueues[g.currentStratum] != []
    requires forall e :: e in sent ==> e.sg < |g.subgraphs|
    ensures r.1 == g.stratumQueues[g.currentStratum][0] && r.1 < |g.subgraphs|
    ensures g.subgraphs[r.1].isScheduled && g.subgraphs[r.1].stratum == g.currentStratum
    ensures Wf(r.0) && SameGraph(g, r.0)
    ensures forall i :: 0 <= i < |g.subgraphs| ==> r.0.subgraphs[i].isScheduled == (g.subgraphs[i].isScheduled && i != r.1)
    ensures r.0.stratumQueues == g.stratumQueues[g.currentStratum := g.stratumQueues[g.currentStratum][1..]]
    ensures r.0 == g.(subgraphs := r.0.subgraphs, stratumQueues := r.0.stratumQueues, eventQueue := g.eventQueue + sent)
  {
    var cur := g.currentStratum;
    var q := g.stratumQueues[cur];
    var sg := q[0];
    assert sg in q;
    var g1 := g.(subgraphs := g.subgraphs[sg := g.subgraphs[sg].(isScheduled := false)],
                 stratumQueues := g.stratumQueues[cur := q[1..]],
                 eventQueue := g.eventQueue + sent);
    PopKeepsWf(g, g1);
    (g1, sg)
  }

  lemma PopKeepsWf(g: Hydroflow, g1: Hydroflow)
    requires Wf(g) && g.stratumQueues[g.currentStratum] != []
    requires var cur := g.currentStratum;
             var q := g.stratumQueues[cur];
             var sg := q[0];
             sg < |g.subgraphs| &&
             g1 == g.(subgraphs := g.subgraphs[sg := g.subgraphs[sg].(isScheduled := false)],
                      stratumQueues := g.stratumQueues[cur := q[1..]],
                      eventQueue := g1.eventQueue)
    requires forall e :: e in g1.eventQueue ==> e.sg < |g.subgraphs|
    ensures Wf(g1)
  {
    var q := g.stratumQueues[g.currentStratum];
    assert q[0] in q;
    NoDupTail(q);
    assert forall x :: x in q[1..] ==> x in q;
  }

  /** One iteration of `run_stratum`'s loop: pop the front subgraph, run it (its `Effect`), then
      schedule every reader of each of its output handoffs left non-empty. Returns the graph and
      the subgraph that ran. */
  function RunOne(g: Hydroflow, effect: Effect): (r: (Hydroflow, SubgraphId))
    requires Wf(g) && g.stratumQueues[g.currentStratum] != []
    requires forall e :: e in effect.sent ==> e.sg < |g.subgraphs|
    ensures r.1 == g.stratumQueues[g.currentStratum][0]
    ensures r.1 < |g.subgraphs| && g.subgraphs[r.1].isScheduled && g.subgraphs[r.1].stratum == g.currentStratum
    ensures Wf(r.0) && SameGraph(g, r.0)
    ensures forall i :: 0 <= i < |g.subgraphs| ==>
              (r.0.subgraphs[i].isScheduled <==>
                 (g.subgraphs[i].isScheduled && i != r.1) || i in Woken(g.handoffs, g.subgraphs[r.1].succs, effect.nonEmpty))
    ensures g.stratumQueues[g.currentStratum][1..] <= r.0.stratumQueues[g.currentStratum]
    ensures forall st :: 0 <= st < |g.stratumQueues| && st != g.currentStratum ==> g.stratumQueues[st] <= r.0.stratumQueues[st]
    ensures r.0.(subgraphs := g.subgraphs, stratumQueues := g.stratumQueues) == g.(eventQueue := g.eventQueue + effect.sent)
  {
    var (g1, sg) := Pop(g, effect.sent);
    var woken := Woken(g.handoffs, g.subgraphs[sg].succs, effect.nonEmpty);
    WokenValid(g1, sg, effect.nonEmpty);
    var r0 := ScheduleAll(g1, woken);
    RunOneFlags(g, effect, g1, sg, woken, r0);
    RunOneFrame(g, effect, g1, sg, woken, r0);
    (r0, sg)
  }

  /** After the run exactly the woken readers and the still-queued subgraphs are flagged, and no
      queue loses anything but the popped front. */
  lemma RunOneFlags(g: Hydroflow, effect: Effect, g1: Hydroflow, sg: SubgraphId, woken: seq<SubgraphId>, r0: Hydroflow)
    requires Wf(g) && g.stratumQueues[g.currentStratum] != []
    requires forall e :: e in effect.sent ==> e.sg < |g.subgraphs|
    requires (g1, sg) == Pop(g, effect.sent)
    requires woken == Woken(g.handoffs, g.subgraphs[sg].succs, effect.nonEmpty)
    requires forall s :: s in woken ==> s < |g1.subgraphs|
    requires r0 == ScheduleAll(g1, woken)
    ensures forall i :: 0 <= i < |g.subgraphs| ==>
              (r0.subgraphs[i].isScheduled <==> (g.subgraphs[i].isScheduled && i != sg) || i in woken)
    ensures g.stratumQueues[g.currentStratum][1..] <= r0.stratumQueues[g.currentStratum]
    ensures forall st :: 0 <= st < |g.stratumQueues| && st != g.currentStratum ==> g.stratumQueues[st] <= r0.stratumQueues[st]
  {
  }

  /** The run keeps the invariant and the graph, and changes nothing else but the pending events. */
  lemma RunOneFrame(g: Hydroflow, effect: Effect, g1: Hydroflow, sg: SubgraphId, woken: seq<SubgraphId>, r0: Hydroflow)
    requires Wf(g) && g.stratumQueues[g.currentStratum] != []
    requires forall e :: e in effect.sent ==> e.sg < |g.subgraphs|
    requires (g1, sg) == Pop(g, effect.sent)
    requires forall s :: s in woken ==> s < |g1.subgraphs|
    requires r0 == ScheduleAll(g1, woken)
    ensures Wf(r0) && SameGraph(g, r0)
    ensures r0.(subgraphs := g.subgraphs, stratumQueues := g.stratumQueues) == g.(eventQueue := g.eventQueue + effect.sent)
  {
    ScheduleAllKeepsWf(g1, woken);
  }

  lemma ScriptTail(n: nat, script: seq<Effect>)
    requires ScriptOk(n, script) && script != []
    ensures ScriptOk(n, script[1..]) && forall e :: e in script[0].sent ==> e.sg < n
  {
    forall k, e | 0 <= k < |script[1..]| && e in script[1..][k].sent ensures e.sg < n {
      assert script[1..][k] == script[k + 1];
    }
  }

  /** `run_stratum`: runs the current stratum's queue until it is empty (or the effects run out).
      Returns the graph, the unused effects, the runs performed and `work_done`. */
  function RunStratum(g: Hydroflow, script: seq<Effect>): (r: (Hydroflow, seq<Effect>, seq<Ran>, bool))
    requires Wf(g) && ScriptOk(|g.subgraphs|, script)
    ensures r.3 <==> |r.2| > 0
    ensures |r.2| <= |script| && r.1 == script[|r.2|..]
    ensures g.stratumQueues[g.currentStratum] != [] && script != [] ==> |r.2| > 0
    decreases |script|
  {
    if g.stratumQueues[g.currentStratum] == [] || script == [] then (g, script, [], false)
    else
      ScriptTail(|g.subgraphs|, script);
      var (g1, sg) := RunOne(g, script[0]);
      var (g2, rest, ran, _) := RunStratum(g1, script[1..]);
      assert script[1..][|ran|..] == script[|ran| + 1..];
      (g2, rest, [Ran(sg, g.currentTick, g.currentStratum)] + ran, true)
  }

  /** `run_stratum` keeps the invariant and the graph. */
  lemma {:induction false} RunStratumKeepsWf(g: Hydroflow, script: seq<Effect>)
    requires Wf(g) && ScriptOk(|g.subgraphs|, script)
    ensures var r := RunStratum(g, script); Wf(r.0) && SameGraph(g, r.0)
    decreases |script|
  {
    if g.stratumQueues[g.currentStratum] != [] && script != [] {
      ScriptTail(|g.subgraphs|, script);
      var (g1, sg) := RunOne(g, script[0]);
      RunStratumKeepsWf(g1, script[1..]);
    }
  }

  /** `run_stratum` stays in its stratum and tick, only adds pending events, and stops only once
      the stratum's queue is empty or the effects are used up. */
  lemma {:induction false} RunStratumStays(g: Hydroflow, script: seq<Effect>)
    requires Wf(g) && ScriptOk(|g.subgraphs|, script)
    ensures var r := RunStratum(g, script);
            && |r.0.stratumQueues| == |g.stratumQueues|
            && (r.0.stratumQueues[g.currentStratum] == [] || r.1 == [])
            && r.0.currentStratum == g.currentStratum && r.0.currentTick == g.currentTick
            && r.0.eventsReceivedTick == g.eventsReceivedTick && g.eventQueue <= r.0.eventQueue
    decreases |script|
  {
    if g.stratumQueues[g.currentStratum] != [] && script != [] {
      ScriptTail(|g.subgraphs|, script);
      var (g1, sg) := RunOne(g, script[0]);
      RunStratumStays(g1, script[1..]);
    }
  }

  /** Every run `run_stratum` reports is of a subgraph of the current stratum, at the current tick. */
  lemma {:induction false} RunStratumRuns(g: Hydroflow, script: seq<Effect>)
    requires Wf(g) && ScriptOk(|g.subgraphs|, script)
    ensures var r := RunStratum(g, script);
            forall x :: x in r.2 ==>
              x.tick == g.currentTick && x.stratum == g.currentStratum &&
              x.sg < |g.subgraphs| && g.subgraphs[x.sg].stratum == g.currentStratum
    decreases |script|
  {
    if g.stratumQueues[g.currentStratum] != [] && script != [] {
      ScriptTail(|g.subgraphs|, script);
      var (g1, sg) := RunOne(g, script[0]);
      RunStratumRuns(g1, script[1..]);
    }
  }

  /** Runs come in stratified order: by tick, and by stratum within a tick. */
  predicate NotAfter(a: Ran, b: Ran)
  {
    a.tick < b.tick || (a.tick == b.tick && a.stratum <= b.stratum)
  }

  predicate Ordered(ran: seq<Ran>)
  {
    forall i, j :: 0 <= i < j < |ran| ==> NotAfter(ran[i], ran[j])
  }

  /** The loop shared by `run_tick` (`currentTickOnly`) and `run_available`: while `next_stratum`
      finds work, run that stratum. */
  function Drive(g: Hydroflow, script: seq<Effect>, currentTickOnly: bool): (r: Outcome)
    requires Wf(g) && ScriptOk(|g.subgraphs|, script)
    ensures r.complete ==> r.graph.currentStratum == 0 && !r.graph.eventsReceivedTick && (r.workDone <==> r.ran != [])
    ensures !r.complete ==> r.workDone && r.rest == []
    ensures |r.ran| <= |script| && r.rest == script[|r.ran|..]
    decreases |script|, 1
  {
    var (g1, more) := NextStratum(g, currentTickOnly);
    if !more then Outcome(g1, script, false, [], true)
    else if script == [] then Outcome(g1, [], true, [], false)
    else DriveFrom(g1, script, currentTickOnly)
  }

  /** One turn of the loop once `next_stratum` has found work: run the stratum, then carry on. */
  function DriveFrom(g: Hydroflow, script: seq<Effect>, currentTickOnly: bool): (r: Outcome)
    requires Wf(g) && ScriptOk(|g.subgraphs|, script)
    requires g.stratumQueues[g.currentStratum] != [] && script != []
    ensures r.workDone && r.ran != []
    ensures r.complete ==> r.graph.currentStratum == 0 && !r.graph.eventsReceivedTick
    ensures !r.complete ==> r.rest == []
    ensures |r.ran| <= |script| && r.rest == script[|r.ran|..]
    decreases |script|, 0
  {
    var (g2, rest, ran, _) := RunStratum(g, script);
    RunStratumLeavesDrivable(g, script);
    var o := Drive(g2, rest, currentTickOnly);
    SuffixOfSuffix(script, |ran|, |o.ran|);
    Outcome(o.graph, o.rest, true, ran + o.ran, o.complete)
  }

  /** After `run_stratum` the loop can go on: the graph is well-formed and the unused effects only
      name its subgraphs. */
  lemma RunStratumLeavesDrivable(g: Hydroflow, script: seq<Effect>)
    requires Wf(g) && ScriptOk(|g.subgraphs|, script)
    ensures var r := RunStratum(g, script); Wf(r.0) && ScriptOk(|r.0.subgraphs|, r.1)
  {
    RunStratumKeepsWf(g, script);
    ScriptSuffix(|g.subgraphs|, script, |RunStratum(g, script).2|);
  }

  lemma SuffixOfSuffix<T>(s: seq<T>, a: nat, b: nat)
    requires a + b <= |s|
    ensures s[a..][b..] == s[a + b..]
  {
  }

  lemma SameGraphTrans(g: Hydroflow, g1: Hydroflow, g2: Hydroflow)
    requires SameGraph(g, g1) && SameGraph(g1, g2)
    ensures SameGraph(g, g2)
  {
  }

  lemma ScriptSuffix(n: nat, script: seq<Effect>, k: nat)
    requires ScriptOk(n, script) && k <= |script|
    ensures ScriptOk(n, script[k..])
  {
    forall j, e | 0 <= j < |script[k..]| && e in script[k..][j].sent ensures e.sg < n {
      assert script[k..][j] == script[k + j];
    }
  }

  /** The run loops keep the invariant, and every run they report is of a subgraph of the
      stratum it ran in. */
  lemma {:induction false} DriveKeepsWf(g: Hydroflow, script: seq<Effect>, currentTickOnly: bool)
    requires Wf(g) && ScriptOk(|g.subgraphs|, script)
    ensures var r := Drive(g, script, currentTickOnly);
            && Wf(r.graph) && SameGraph(g, r.graph)
            && forall x :: x in r.ran ==> x.sg < |g.subgraphs| && g.subgraphs[x.sg].stratum == x.stratum
    decreases |script|, 1
  {
    var (g1, more) := NextStratum(g, currentTickOnly);
    if more && script != [] {
      DriveFromKeepsWf(g1, script, currentTickOnly);
      SameGraphTrans(g, g1, DriveFrom(g1, script, currentTickOnly).graph);
    }
  }

  lemma {:induction false} DriveFromKeepsWf(g: Hydroflow, script: seq<Effect>, currentTickOnly: bool)
    requires Wf(g) && ScriptOk(|g.subgraphs|, script)
    requires g.stratumQueues[g.currentStratum] != [] && script != []
    ensures var r := DriveFrom(g, script, currentTickOnly);
            && Wf(r.graph) && SameGraph(g, r.graph)
            && forall x :: x in r.ran ==> x.sg < |g.subgraphs| && g.subgraphs[x.sg].stratum == x.stratum
    decreases |script|, 0
  {
    var (g2, rest, ran, _) := RunStratum(g, script);
    RunStratumKeepsWf(g, script);
    RunStratumStays(g, script);
    RunStratumRuns(g, script);
    ScriptSuffix(|g.subgraphs|, script, |ran|);
    DriveKeepsWf(g2, rest, currentTickOnly);
    var o := Drive(g2, rest, currentTickOnly);
    SameGraphTrans(g, g2, o.graph);
    forall x | x in ran + o.ran ensures x.sg < |g.subgraphs| && g.subgraphs[x.sg].stratum == x.stratum {
      assert x in ran || x in o.ran;
    }
  }

  /** Runs are reported in stratified order, none before the stratum and tick the loop started at;
      `run_tick`'s runs all belong to the starting tick, and a completed `run_tick` ends one tick
      later. */
  lemma {:induction false} DriveOrdered(g: Hydroflow, script: seq<Effect>, currentTickOnly: bool)
    requires Wf(g) && ScriptOk(|g.subgraphs|, script)
    ensures var r := Drive(g, script, currentTickOnly);
            && Ordered(r.ran)
            && (forall x :: x in r.ran ==> NotAfter(Ran(0, g.currentTick, g.currentStratum), x))
            && (currentTickOnly ==> forall x :: x in r.ran ==> x.tick == g.currentTick)
            && (currentTickOnly && r.complete ==> r.graph.currentTick == g.currentTick + 1)
    decreases |script|, 1
  {
    var (g1, more) := NextStratum(g, currentTickOnly);
    if more && script != [] {
      DriveFromOrdered(g1, script, currentTickOnly);
    }
  }

  lemma {:induction false} DriveFromOrdered(g: Hydroflow, script: seq<Effect>, currentTickOnly: bool)
    requires Wf(g) && ScriptOk(|g.subgraphs|, script)
    requires g.stratumQueues[g.currentStratum] != [] && script != []
    ensures var r := DriveFrom(g, script, currentTickOnly);
            && Ordered(r.ran)
            && (forall x :: x in r.ran ==> NotAfter(Ran(0, g.currentTick, g.currentStratum), x))
            && (currentTickOnly ==> forall x :: x in r.ran ==> x.tick == g.currentTick)
            && (currentTickOnly && r.complete ==> r.graph.currentTick == g.currentTick + 1)
    decreases |script|, 0
  {
    var (g2, rest, ran, _) := RunStratum(g, script);
    RunStratumKeepsWf(g, script);
    RunStratumStays(g, script);
    RunStratumRuns(g, script);
    ScriptSuffix(|g.subgraphs|, script, |ran|);
    DriveOrdered(g2, rest, currentTickOnly);
    var o := Drive(g2, rest, currentTickOnly);
    OrderedJoin(ran, o.ran, Ran(0, g.currentTick, g.currentStratum));
    forall x | x in ran + o.ran ensures NotAfter(Ran(0, g.currentTick, g.currentStratum), x) {
      assert x in ran || x in o.ran;
    }
    if currentTickOnly {
      forall x | x in ran + o.ran ensures x.tick == g.currentTick {
        assert x in ran || x in o.ran;
      }
    }
  }

  lemma OrderedJoin(a: seq<Ran>, b: seq<Ran>, at: Ran)
    requires forall x :: x in a ==> x.tick == at.tick && x.stratum == at.stratum
    requires Ordered(b) && forall x :: x in b ==> NotAfter(at, x)
    ensures Ordered(a + b)
  {
    forall i, j | 0 <= i < j < |a + b| ensures NotAfter((a + b)[i], (a + b)[j]) {
      if j < |a| {
        assert (a + b)[i] in a && (a + b)[j] in a;
      } else if i < |a| {
        assert (a + b)[i] in a && (a + b)[j] in b;
      } else {
        assert (a + b)[i] == b[i - |a|] && (a + b)[j] == b[j - |a|];
      }
    }
  }

  /** `run_tick`: runs the strata of the current tick that have work, in order, and stops at the
      start of the next tick. Returns whether any work was done. */
  function RunTick(g: Hydroflow, script: seq<Effect>): (r: Outcome)
    requires Wf(g) && ScriptOk(|g.subgraphs|, script)
    ensures Wf(r.graph)
    ensures r.complete ==> r.graph.currentTick == g.currentTick + 1 && r.graph.currentStratum == 0
    ensures r.complete ==> (r.workDone <==> r.ran != [])
    ensures forall x :: x in r.ran ==> x.tick == g.currentTick && g.currentStratum <= x.stratum
    ensures Ordered(r.ran)
  {
    DriveKeepsWf(g, script, true);
    DriveOrdered(g, script, true);
    Drive(g, script, true)
  }

  /** `run_available`: keeps running strata, across ticks, while `next_stratum` finds work; ends
      at stratum 0 of a tick ready to receive events. Returns whether any work was done. */
  function RunAvailable(g: Hydroflow, script: seq<Effect>): (r: Outcome)
    requires Wf(g) && ScriptOk(|g.subgraphs|, script)
    ensures Wf(r.graph)
    ensures r.complete ==> r.graph.currentStratum == 0 && !r.graph.eventsReceivedTick
    ensures r.complete ==> (r.workDone <==> r.ran != [])
    ensures forall x :: x in r.ran ==> NotAfter(Ran(0, g.currentTick, g.currentStratum), x)
    ensures Ordered(r.ran)
  {
    DriveKeepsWf(g, script, false);
    DriveOrdered(g, script, false);
    Drive(g, script, false)
  }

  /** `run_available` called when nothing is queued and only internal events are pending (as after
      a subgraph that merely rescheduled itself) does no work and runs nothing: it only opens the
      next tick and queues the events' subgraphs for a later call. */
  lemma RunAvailableDefersInternal(g: Hydroflow, script: seq<Effect>)
    requires Wf(g) && ScriptOk(|g.subgraphs|, script)
    requires !HasExternal(g.eventQueue) && g.currentStratum == 0 && g.eventsReceivedTick
    requires forall st :: 0 <= st < |g.stratumQueues| ==> g.stratumQueues[st] == []
    ensures var r := RunAvailable(g, script);
            && r.complete && !r.workDone && r.ran == [] && r.rest == script
            && r.graph.currentTick == g.currentTick + 1
            && forall i :: 0 <= i < |g.subgraphs| ==>
                 (r.graph.subgraphs[i].isScheduled <==> i in Targets(g.eventQueue))
  {
    NextStratumDefersInternal(g);
  }
}
