/**
  The OPC UA generator is plain reassembly followed by a fold over the messages cut: it reports each
  of them once, in order, and nothing else. So the results on splicing and chunking reach the
  observations.
 */
module OpcUaCuts {
  import opened Wrappers
  import opened Bytes
  import opened Framing
  import opened FrameRules
  import opened OpcUa
  import opened OpcUaIsolation
  import R = Reassembly
  import Chunking
  import Captures

  // ---- The fold ----

  const START := State(map[], {}, [])

  /** The messages of `es` reported one after the other. */
  function ReportEach(utf8: Utf8, es: seq<R.Emission>, s: State): State
    decreases |es|
  {
    if es == [] then s else ReportEach(utf8, es[1..], Report(utf8, es[0], s))
  }

  lemma {:induction false} ReportEachAppend(utf8: Utf8, a: seq<R.Emission>, b: seq<R.Emission>, s: State)
    ensures ReportEach(utf8, a + b, s) == ReportEach(utf8, b, ReportEach(utf8, a, s))
    decreases |a|
  {
    hide Report;
    if a == [] {
      assert a + b == b;
    } else {
      assert (a + b)[0] == a[0] && (a + b)[1..] == a[1..] + b;
      ReportEachAppend(utf8, a[1..], b, Report(utf8, a[0], s));
    }
  }

  lemma {:induction false} BuffersDoNotMatter(utf8: Utf8, es: seq<R.Emission>, s: State, streams: R.Streams)
    ensures ReportEach(utf8, es, s.(streams := streams)) == ReportEach(utf8, es, s).(streams := streams)
    decreases |es|
  {
    hide ParseOpcUaTcp, ConnectionOf, ChannelId;
    if es != [] {
      BuffersDoNotMatter(utf8, es[1..], Report(utf8, es[0], s), streams);
      assert Report(utf8, es[0], s.(streams := streams)) == Report(utf8, es[0], s).(streams := streams);
    }
  }

  lemma {:induction false} ReportAllIsTheFold(utf8: Utf8, p: R.Packet, raws: seq<bytes>, s: State)
    ensures ReportAll(utf8, p, raws, s) == ReportEach(utf8, R.Emit(R.KeepAll, p, raws), s)
    decreases |raws|
  {
    hide Report;
    if raws != [] {
      var e := R.Emission(p.flow, p.time, raws[0]);
      ReportAllIsTheFold(utf8, p, raws[1..], Report(utf8, e, s));
      var es := R.Emit(R.KeepAll, p, raws);
      assert es == [e] + R.Emit(R.KeepAll, p, raws[1..]);
      assert es[0] == e && es[1..] == R.Emit(R.KeepAll, p, raws[1..]);
    }
  }

  lemma FoldStep(utf8: Utf8, s: State, t: R.State, p: R.Packet)
    requires Wellformed(OPCUA) && s == ReportEach(utf8, t.out, START).(streams := t.streams)
    ensures var t' := R.Step(OPCUA, 4840, R.KeepAll, t, p);
            Step(utf8, s, p) == ReportEach(utf8, t'.out, START).(streams := t'.streams)
  {
    hide Split, ReportAll, ReportEach, R.Feed, R.Store, R.Lookup, R.Relevant, R.Emit;
    if R.Relevant(4840, p) {
      var fed := R.Feed(OPCUA, R.Lookup(s.streams, p.flow), p.seqno, p.payload);
      var emitted, stored := R.Emit(R.KeepAll, p, fed.frames), R.Store(s.streams, p.flow, fed.next);
      ReportAllIsTheFold(utf8, p, fed.frames, s.(streams := stored));
      BuffersDoNotMatter(utf8, emitted, ReportEach(utf8, t.out, START), stored);
      ReportEachAppend(utf8, t.out, emitted, START);
    }
  }

  /**
    At every point of a capture the observations and the unprotected channels are those of reporting,
    in order, every message that plain reassembly has cut, and the buffers are those of plain reassembly.
   */
  lemma {:induction false} ReportsWhatWasCut(utf8: Utf8, ps: seq<R.Packet>, m: nat)
    requires Wellformed(OPCUA) && m <= |ps|
    ensures var cut := R.After(OPCUA, 4840, R.KeepAll, ps, m);
            After(utf8, ps, m) == ReportEach(utf8, cut.out, START).(streams := cut.streams)
  {
    hide Step, R.Step, ReportEach;
    if m == 0 {
      NothingCut(utf8);
    } else {
      ReportsWhatWasCut(utf8, ps, m - 1);
      FoldStep(utf8, After(utf8, ps, m - 1), R.After(OPCUA, 4840, R.KeepAll, ps, m - 1), ps[m - 1]);
    }
  }

  lemma NothingCut(utf8: Utf8)
    ensures ReportEach(utf8, [], START).(streams := map[]) == START
  {
  }

  // ---- No splicing ----

  /** The observation reports this message. */
  ghost predicate From(utf8: Utf8, o: Observation, e: R.Emission) {
    && o.flow == e.flow && o.time == e.time && o.byteCount == |e.frame|
    && exists known :: ParseOpcUaTcp(utf8, e.frame, known) == Ok(o.message)
  }

  ghost predicate AllFrom(utf8: Utf8, out: seq<Observation>, emissions: seq<R.Emission>) {
    forall o | o in out :: exists e | e in emissions :: From(utf8, o, e)
  }

  lemma {:induction false} ReportedAreFrom(utf8: Utf8, es: seq<R.Emission>, s: State, emissions: seq<R.Emission>)
    requires AllFrom(utf8, s.out, emissions) && forall e | e in es :: e in emissions
    ensures AllFrom(utf8, ReportEach(utf8, es, s).out, emissions)
    decreases |es|
  {
    hide ParseOpcUaTcp, ConnectionOf, ChannelId;
    if es != [] {
      var e, s1 := es[0], Report(utf8, es[0], s);
      var known := (ConnectionOf(e.flow), ChannelId(e.frame)) in s.noneChannels;
      forall o | o in s1.out
        ensures exists e | e in emissions :: From(utf8, o, e)
      {
        if o !in s.out {
          assert ParseOpcUaTcp(utf8, e.frame, known) == Ok(o.message);
          assert e in emissions && From(utf8, o, e);
        }
      }
      ReportedAreFrom(utf8, es[1..], s1, emissions);
    }
  }

  /** An observation reports one whole message cut from consecutive segments of its flow. */
  lemma ObservationsAreNotSpliced(utf8: Utf8, ps: seq<R.Packet>, o: Observation) returns (raw: bytes)
    requires Wellformed(OPCUA) && o in After(utf8, ps, |ps|).out
    ensures Complete(OPCUA, raw) && R.CutFrom(R.Only(4840, ps, o.flow, |ps|), raw)
    ensures |raw| == o.byteCount && exists known :: ParseOpcUaTcp(utf8, raw, known) == Ok(o.message)
  {
    hide R.CutFrom, ParseOpcUaTcp, After, R.After, ReportEach;
    var cut := R.After(OPCUA, 4840, R.KeepAll, ps, |ps|).out;
    ReportsWhatWasCut(utf8, ps, |ps|);
    ReportedAreFrom(utf8, cut, START, cut);
    var e :| e in cut && From(utf8, o, e);
    R.NoSplicing(OPCUA, 4840, R.KeepAll, ps, e);
    raw := e.frame;
  }

  // ---- Chunking ----

  /** An observation without its time, and a cut message without its time. */
  datatype Untimed = Untimed(flow: R.Flow, message: Message, byteCount: nat)
  datatype Cut = Cut(flow: R.Flow, raw: bytes)

  function Messages(out: seq<Observation>): seq<Untimed> {
    seq(|out|, i requires 0 <= i < |out| => Untimed(out[i].flow, out[i].message, out[i].byteCount))
  }

  function Cuts(es: seq<R.Emission>): seq<Cut> {
    seq(|es|, i requires 0 <= i < |es| => Cut(es[i].flow, es[i].frame))
  }

  lemma ReportUntimed(utf8: Utf8, e: R.Emission, e': R.Emission, s: State, t: State)
    requires e.flow == e'.flow && e.frame == e'.frame
    requires Messages(s.out) == Messages(t.out) && s.noneChannels == t.noneChannels
    ensures var s', t' := Report(utf8, e, s), Report(utf8, e', t);
            Messages(s'.out) == Messages(t'.out) && s'.noneChannels == t'.noneChannels
  {
    hide ParseOpcUaTcp, ConnectionOf, ChannelId;
    var parsed := ParseOpcUaTcp(utf8, e.frame, (ConnectionOf(e.flow), ChannelId(e.frame)) in s.noneChannels);
    if parsed.Ok? {
      var u := [Untimed(e.flow, parsed.value, |e.frame|)];
      assert |s.out| == |Messages(s.out)| == |t.out|;
      assert Messages(s.out + [Observation(e.flow, e.time, parsed.value, |e.frame|)]) == Messages(s.out) + u;
      assert Messages(t.out + [Observation(e.flow, e'.time, parsed.value, |e.frame|)]) == Messages(t.out) + u;
    }
  }

  /** What is reported depends on the messages cut and their order, not on when or in which pieces they came. */
  lemma {:induction false} SameCutsSameMessages(utf8: Utf8, a: seq<R.Emission>, b: seq<R.Emission>, s: State, t: State)
    requires Cuts(a) == Cuts(b) && Messages(s.out) == Messages(t.out) && s.noneChannels == t.noneChannels
    ensures Messages(ReportEach(utf8, a, s).out) == Messages(ReportEach(utf8, b, t).out)
    ensures ReportEach(utf8, a, s).noneChannels == ReportEach(utf8, b, t).noneChannels
    decreases |a|
  {
    hide Report, Messages;
    assert |a| == |Cuts(a)| == |Cuts(b)| == |b|;
    if a != [] {
      assert Cuts(a)[0] == Cuts(b)[0];
      ReportUntimed(utf8, a[0], b[0], s, t);
      assert Cuts(a[1..]) == Cuts(a)[1..] && Cuts(b[1..]) == Cuts(b)[1..];
      SameCutsSameMessages(utf8, a[1..], b[1..], Report(utf8, a[0], s), Report(utf8, b[0], t));
    }
  }

  /** Two captures from which the same messages are cut in the same order give the same observations, but for their times. */
  lemma ObservationsFollowCuts(utf8: Utf8, ps: seq<R.Packet>, qs: seq<R.Packet>)
    requires Wellformed(OPCUA)
    requires Cuts(R.Run(OPCUA, 4840, R.KeepAll, ps).out) == Cuts(R.Run(OPCUA, 4840, R.KeepAll, qs).out)
    ensures Messages(After(utf8, ps, |ps|).out) == Messages(After(utf8, qs, |qs|).out)
    ensures After(utf8, ps, |ps|).noneChannels == After(utf8, qs, |qs|).noneChannels
  {
    hide After, R.After, ReportEach, Messages, Cuts;
    ReportsWhatWasCut(utf8, ps, |ps|);
    ReportsWhatWasCut(utf8, qs, |qs|);
    SameCutsSameMessages(utf8, R.Run(OPCUA, 4840, R.KeepAll, ps).out, R.Run(OPCUA, 4840, R.KeepAll, qs).out, START, START);
  }

  /** The frames of a stream as messages cut from one flow, with no time. */
  function AsCut(f: R.Flow, frames: seq<bytes>): seq<R.Emission> {
    seq(|frames|, i requires 0 <= i < |frames| => R.Emission(f, 0, frames[i]))
  }

  lemma {:induction false} EmittedFlows(segs: seq<R.Packet>, f: R.Flow, m: nat)
    requires Wellformed(OPCUA) && m <= |segs| && Captures.OfFlow(4840, segs, f)
    ensures forall e | e in R.After(OPCUA, 4840, R.KeepAll, segs, m).out :: e.flow == f
  {
    hide Split, R.Feed, R.Store, R.Emit, R.Relevant;
    if m != 0 {
      EmittedFlows(segs, f, m - 1);
      var s, p := R.After(OPCUA, 4840, R.KeepAll, segs, m - 1), segs[m - 1];
      var frames := R.Feed(OPCUA, R.Lookup(s.streams, p.flow), p.seqno, p.payload).frames;
      forall e | e in R.Emit(R.KeepAll, p, frames)
        ensures e.flow == f
      {
        R.EmitMembers(R.KeepAll, p, frames, e);
      }
    }
  }

  /** A connection in which only one side speaks is its one flow. */
  lemma {:induction false} OneWay(ps: seq<R.Packet>, f: R.Flow, m: nat)
    requires m <= |ps|
    requires forall p | p in ps && R.Relevant(4840, p) && ConnectionOf(p.flow) == ConnectionOf(f) :: p.flow == f
    ensures OnlyConnection(ps, ConnectionOf(f), m) == R.Only(4840, ps, f, m)
  {
    hide ConnectionOf, R.Relevant;
    if m != 0 {
      OneWay(ps, f, m - 1);
      assert ps[m - 1] in ps;
    }
  }

  /**
    Chunking for OPC UA: among any other connections, a side that speaks alone, its stream delivered in
    order in segments of whatever sizes, is reported as its whole stream would be, message by message.
   */
  lemma ChunkingReachesObservations(utf8: Utf8, ps: seq<R.Packet>, f: R.Flow)
    requires Wellformed(OPCUA)
    requires forall p | p in ps && R.Relevant(4840, p) && ConnectionOf(p.flow) == ConnectionOf(f) :: p.flow == f
    requires var segs := R.Only(4840, ps, f, |ps|);
             Captures.Delivers(OPCUA, segs) && Captures.NoHeldWrap(OPCUA, segs, |segs|)
    ensures var segs := R.Only(4840, ps, f, |ps|);
            var whole := Split(OPCUA, Chunking.Joined(Captures.Payloads(segs), |segs|));
            Messages(ReportedFor(After(utf8, ps, |ps|).out, ConnectionOf(f))) ==
            Messages(ReportEach(utf8, AsCut(f, whole.frames), START).out)
  {
    hide Split, ReportEach, Messages, ConnectionOf, R.Relevant, Captures.NoHeldWrap, Captures.InOrder, R.After, After;
    var segs := R.Only(4840, ps, f, |ps|);
    OneWay(ps, f, |ps|);
    ConnectionsAreIndependent(utf8, ps, ConnectionOf(f), |ps|);
    ReportsWhatWasCut(utf8, segs, |segs|);
    Captures.ExactWithoutWrap(OPCUA, 4840, segs, f, |segs|);
    EmittedFlows(segs, f, |segs|);
    var cut := R.After(OPCUA, 4840, R.KeepAll, segs, |segs|).out;
    var frames := Split(OPCUA, Chunking.Joined(Captures.Payloads(segs), |segs|)).frames;
    assert forall i | 0 <= i < |cut| :: cut[i] in cut && Captures.FramesOf(cut)[i] == cut[i].frame;
    assert Cuts(cut) == Cuts(AsCut(f, frames));
    SameCutsSameMessages(utf8, cut, AsCut(f, frames), START, START);
  }
}
