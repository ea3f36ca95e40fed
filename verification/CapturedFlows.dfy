/**
  Which packets a generator looks at, told from the layers and the two ports alone: requests and
  responses both count, and nothing else does.
 */
module CapturedFlows {
  import opened Bytes
  import opened Framing
  import opened FrameRules
  import opened Reassembly
  import opened Captures
  import Chunking
  import O = OpcUa
  import I = OpcUaIsolation
  import C = OpcUaCuts

  predicate Layered(p: Packet) {
    p.hasTcp && p.hasRaw && p.hasNetwork
  }

  /** One of the two ports is `port`: the packet goes to the server or comes from it. */
  predicate Touches(f: Flow, port: nat) {
    f.sport == port || f.dport == port
  }

  /** The first `m` packets' segments of a flow, whatever its ports are. */
  function SegmentsOf(ps: seq<Packet>, f: Flow, m: nat): seq<Packet>
    requires m <= |ps|
  {
    if m == 0 then []
    else SegmentsOf(ps, f, m - 1) + if Layered(ps[m - 1]) && ps[m - 1].flow == f then [ps[m - 1]] else []
  }

  /** The ports of the four protocols, and the rules their streams are cut by. */
  lemma Ports()
    ensures PortOf(Modbus) == 502 && PortOf(Dnp3) == 20000 && PortOf(S7comm) == 102 && PortOf(Mms) == 102
    ensures RuleOf(Modbus) == MBAP && RuleOf(Dnp3) == DNP3 && RuleOf(S7comm) == TPKT && RuleOf(Mms) == TPKT
  {
  }

  lemma {:induction false} AllSegments(port: nat, ps: seq<Packet>, f: Flow, m: nat)
    requires m <= |ps| && Touches(f, port)
    ensures Only(port, ps, f, m) == SegmentsOf(ps, f, m)
  {
    if m != 0 {
      AllSegments(port, ps, f, m - 1);
      assert SegmentsOf(ps, f, m - 1) + [] == SegmentsOf(ps, f, m - 1);
    }
  }

  /**
    In either direction: among any other traffic, a flow with the port at one of its ends, delivered
    in order, yields the accepted frames of its whole-stream split and holds that split's remainder.
   */
  lemma FlowIsReported(r: Rule, port: nat, keep: Parser, ps: seq<Packet>, f: Flow)
    requires Wellformed(r) && (f.sport == port || f.dport == port)
    requires var segs := SegmentsOf(ps, f, |ps|); Delivers(r, segs) && NoHeldWrap(r, segs, |segs|)
    ensures var segs := SegmentsOf(ps, f, |ps|);
            var s, whole := Run(r, port, keep, ps), Split(r, Chunking.Joined(Payloads(segs), |segs|));
            && FramesOf(EmittedFor(s.out, f)) == Accepted(keep, f, whole.frames)
            && HeldFor(s.streams, f) == whole.rest
  {
    AllSegments(port, ps, f, |ps|);
    ReassemblyEqualsSplit(r, port, keep, ps, f);
  }

  lemma {:induction false} RunAppend(r: Rule, port: nat, keep: Parser, ps: seq<Packet>, p: Packet)
    requires Wellformed(r)
    ensures Run(r, port, keep, ps + [p]) == Step(r, port, keep, Run(r, port, keep, ps), p)
  {
    hide Step;
    AfterPrefix(r, port, keep, ps, [p], |ps|);
  }

  /** A packet with neither port, or without one of the layers, might as well not have been captured. */
  lemma {:induction false} OtherPacketsDoNotMatter(r: Rule, port: nat, keep: Parser, ps: seq<Packet>, p: Packet, qs: seq<Packet>)
    requires Wellformed(r)
    requires !p.hasTcp || !p.hasRaw || !p.hasNetwork || (p.flow.sport != port && p.flow.dport != port)
    ensures Run(r, port, keep, ps + [p] + qs) == Run(r, port, keep, ps + qs)
    decreases |qs|
  {
    if qs == [] {
      assert ps + [p] + qs == ps + [p] && ps + qs == ps;
      RunAppend(r, port, keep, ps, p);
    } else {
      var n := |qs| - 1;
      hide Step;
      OtherPacketsDoNotMatter(r, port, keep, ps, p, qs[..n]);
      assert ps + [p] + qs == (ps + [p] + qs[..n]) + [qs[n]] && ps + qs == (ps + qs[..n]) + [qs[n]];
      RunAppend(r, port, keep, ps + [p] + qs[..n], qs[n]);
      RunAppend(r, port, keep, ps + qs[..n], qs[n]);
    }
  }

  /** An emitted frame, and the packet that completed it. */
  ghost predicate CompletedBy(r: Rule, port: nat, keep: Parser, ps: seq<Packet>, e: Emission, k: nat) {
    && k < |ps| && ps[k].flow == e.flow && ps[k].time == e.time && Layered(ps[k])
    && (e.flow.sport == port || e.flow.dport == port)
    && keep(e.flow, e.frame)
    && Complete(r, e.frame) && CutFrom(SegmentsOf(ps, e.flow, k + 1), e.frame)
  }

  lemma StepEmits(r: Rule, port: nat, keep: Parser, s: State, p: Packet, e: Emission)
    requires Wellformed(r) && e in Step(r, port, keep, s, p).out && e !in s.out
    ensures Relevant(port, p) && e.flow == p.flow && e.time == p.time && keep(e.flow, e.frame)
  {
    hide Feed, Relevant;
    EmitMembers(keep, p, Feed(r, Lookup(s.streams, p.flow), p.seqno, p.payload).frames, e);
  }

  lemma {:induction false} OnlyPrefix(port: nat, ps: seq<Packet>, f: Flow, m: nat, n: nat)
    requires m <= n <= |ps|
    ensures Only(port, ps[..n], f, m) == Only(port, ps, f, m)
  {
    if m != 0 {
      OnlyPrefix(port, ps, f, m - 1, n);
    }
  }

  lemma {:induction false} AfterIsRun(r: Rule, port: nat, keep: Parser, ps: seq<Packet>, m: nat)
    requires Wellformed(r) && m <= |ps|
    ensures After(r, port, keep, ps, m) == Run(r, port, keep, ps[..m])
  {
    AfterPrefix(r, port, keep, ps[..m], ps[m..], m);
    assert ps[..m] + ps[m..] == ps;
  }

  /** What is emitted carries the flow and the time of the packet that completed it, and octets seen up to then. */
  lemma {:induction false} EmittedOnCompletion(r: Rule, port: nat, keep: Parser, ps: seq<Packet>, m: nat, e: Emission)
    requires Wellformed(r) && m <= |ps| && e in After(r, port, keep, ps, m).out
    ensures exists k: nat | k < m :: CompletedBy(r, port, keep, ps, e, k)
  {
    hide Step, Feed, CutFrom, Complete;
    if m != 0 {
      if e in After(r, port, keep, ps, m - 1).out {
        EmittedOnCompletion(r, port, keep, ps, m - 1, e);
      } else {
        StepEmits(r, port, keep, After(r, port, keep, ps, m - 1), ps[m - 1], e);
        AfterIsRun(r, port, keep, ps, m);
        NoSplicing(r, port, keep, ps[..m], e);
        OnlyPrefix(port, ps, e.flow, m, m);
        AllSegments(port, ps, e.flow, m);
        assert CompletedBy(r, port, keep, ps, e, m - 1);
      }
    }
  }

  // ---- OPC UA ----

  function Reversed(f: Flow): Flow {
    Flow(f.dst, f.dport, f.src, f.sport)
  }

  /** The first `m` packets' segments of a flow and of its reverse. */
  function BothWays(ps: seq<Packet>, f: Flow, m: nat): seq<Packet>
    requires m <= |ps|
  {
    if m == 0 then []
    else BothWays(ps, f, m - 1) + if Layered(ps[m - 1]) && ps[m - 1].flow in {f, Reversed(f)} then [ps[m - 1]] else []
  }

  lemma {:induction false} AllOfTheConnection(ps: seq<Packet>, f: Flow, m: nat)
    requires m <= |ps| && Touches(f, 4840)
    ensures I.OnlyConnection(ps, O.ConnectionOf(f), m) == BothWays(ps, f, m)
  {
    hide O.ConnectionOf;
    if m != 0 {
      AllOfTheConnection(ps, f, m - 1);
      O.ConnectionIgnoresDirection(f, ps[m - 1].flow);
    }
  }

  lemma FramesAreCut(r: Rule, port: nat, ps: seq<Packet>, f: Flow, segs: seq<Packet>)
    requires Wellformed(r) && (f.sport == port || f.dport == port)
    requires segs == SegmentsOf(ps, f, |ps|) && Delivers(r, segs) && NoHeldWrap(r, segs, |segs|)
    ensures var s, whole := Run(r, port, KeepAll, ps), Split(r, Chunking.Joined(Payloads(segs), |segs|));
            FramesOf(EmittedFor(s.out, f)) == whole.frames && HeldFor(s.streams, f) == whole.rest
  {
    hide Split, NoHeldWrap, EmittedFor, FramesOf, Accepted, Run, HeldFor, SegmentsOf;
    FlowIsReported(r, port, KeepAll, ps, f);
    AcceptedByAll(f, Split(r, Chunking.Joined(Payloads(segs), |segs|)).frames);
  }

  /**
    In either direction: what is cut from a flow with port 4840 at one of its ends, and so reported
    or skipped by the parser in this order, are the frames of its whole-stream split.
   */
  lemma OpcUaFlowIsCut(utf8: O.Utf8, ps: seq<Packet>, f: Flow)
    requires Wellformed(OPCUA) && (f.sport == 4840 || f.dport == 4840)
    requires var segs := SegmentsOf(ps, f, |ps|); Delivers(OPCUA, segs) && NoHeldWrap(OPCUA, segs, |segs|)
    ensures var segs, s, cut := SegmentsOf(ps, f, |ps|), O.After(utf8, ps, |ps|), Run(OPCUA, 4840, KeepAll, ps).out;
            var whole := Split(OPCUA, Chunking.Joined(Payloads(segs), |segs|));
            && s.out == C.ReportEach(utf8, cut, C.START).out
            && FramesOf(EmittedFor(cut, f)) == whole.frames && HeldFor(s.streams, f) == whole.rest
  {
    hide C.ReportEach, Split, Delivers, NoHeldWrap, EmittedFor, FramesOf, HeldFor, SegmentsOf, O.After, After, Payloads, Chunking.Joined;
    C.ReportsWhatWasCut(utf8, ps, |ps|);
    FramesAreCut(OPCUA, 4840, ps, f, SegmentsOf(ps, f, |ps|));
  }

  /** A connection reports what it would report alone, both of its directions included. */
  lemma ConnectionIsReported(utf8: O.Utf8, ps: seq<Packet>, f: Flow)
    requires Wellformed(OPCUA) && (f.sport == 4840 || f.dport == 4840)
    ensures var alone := BothWays(ps, f, |ps|);
            I.ReportedFor(O.After(utf8, ps, |ps|).out, O.ConnectionOf(f)) == O.After(utf8, alone, |alone|).out
  {
    hide O.After;
    AllOfTheConnection(ps, f, |ps|);
    I.ConnectionsAreIndependent(utf8, ps, O.ConnectionOf(f), |ps|);
  }

  /** Among any other connections, a side that speaks alone is reported as its whole stream would be. */
  lemma OneSideIsReported(utf8: O.Utf8, ps: seq<Packet>, f: Flow)
    requires Wellformed(OPCUA) && (f.sport == 4840 || f.dport == 4840)
    requires forall p | p in ps && Layered(p) && p.flow in {f, Reversed(f)} :: p.flow == f
    requires var segs := SegmentsOf(ps, f, |ps|); Delivers(OPCUA, segs) && NoHeldWrap(OPCUA, segs, |segs|)
    ensures var segs := SegmentsOf(ps, f, |ps|);
            var whole := Split(OPCUA, Chunking.Joined(Payloads(segs), |segs|));
            C.Messages(I.ReportedFor(O.After(utf8, ps, |ps|).out, O.ConnectionOf(f))) ==
            C.Messages(C.ReportEach(utf8, C.AsCut(f, whole.frames), C.START).out)
  {
    hide O.After, C.ReportEach, Split, Delivers, NoHeldWrap, O.ConnectionOf;
    AllSegments(4840, ps, f, |ps|);
    forall p | p in ps && Relevant(4840, p) && O.ConnectionOf(p.flow) == O.ConnectionOf(f)
      ensures p.flow == f
    {
      O.ConnectionIgnoresDirection(f, p.flow);
    }
    C.ChunkingReachesObservations(utf8, ps, f);
  }

  lemma OpcUaSkips(utf8: O.Utf8, s: O.State, p: Packet)
    requires Wellformed(OPCUA)
    requires !p.hasTcp || !p.hasRaw || !p.hasNetwork || (p.flow.sport != 4840 && p.flow.dport != 4840)
    ensures O.Step(utf8, s, p) == s
  {
    hide O.ReportAll, Feed, Store;
  }

  lemma OpcUaRunAppend(utf8: O.Utf8, ps: seq<Packet>, p: Packet)
    requires Wellformed(OPCUA)
    ensures O.After(utf8, ps + [p], |ps| + 1) == O.Step(utf8, O.After(utf8, ps, |ps|), p)
  {
    hide O.Step;
    I.AfterPrefix(utf8, ps, [p], |ps|);
  }

  /** A packet with neither port at 4840, or without one of the layers, might as well not have been captured. */
  lemma {:induction false} OtherPacketsDoNotMatterToOpcUa(utf8: O.Utf8, ps: seq<Packet>, p: Packet, qs: seq<Packet>)
    requires Wellformed(OPCUA)
    requires !p.hasTcp || !p.hasRaw || !p.hasNetwork || (p.flow.sport != 4840 && p.flow.dport != 4840)
    ensures O.After(utf8, ps + [p] + qs, |ps| + 1 + |qs|) == O.After(utf8, ps + qs, |ps| + |qs|)
    decreases |qs|
  {
    hide O.Step;
    if qs == [] {
      assert ps + [p] + qs == ps + [p] && ps + qs == ps;
      OpcUaRunAppend(utf8, ps, p);
      OpcUaSkips(utf8, O.After(utf8, ps, |ps|), p);
    } else {
      var n := |qs| - 1;
      OtherPacketsDoNotMatterToOpcUa(utf8, ps, p, qs[..n]);
      assert ps + [p] + qs == (ps + [p] + qs[..n]) + [qs[n]] && ps + qs == (ps + qs[..n]) + [qs[n]];
      OpcUaRunAppend(utf8, ps + [p] + qs[..n], qs[n]);
      OpcUaRunAppend(utf8, ps + qs[..n], qs[n]);
    }
  }
}
