/**
  The OPC UA generator keeps state across flows: the set of unprotected channels, shared by the two
  directions of a connection. Connections still do not influence one another.
 */
module OpcUaIsolation {
  import opened Bytes
  import opened Framing
  import opened FrameRules
  import opened Wrappers
  import opened OpcUa
  import R = Reassembly

  // ---- Connections are independent ----

  /** The packets of one connection that the generator looks at, in capture order. */
  function OnlyConnection(ps: seq<R.Packet>, c: Connection, m: nat): seq<R.Packet>
    requires m <= |ps|
  {
    if m == 0 then []
    else OnlyConnection(ps, c, m - 1) + if R.Relevant(4840, ps[m - 1]) && ConnectionOf(ps[m - 1].flow) == c then [ps[m - 1]] else []
  }

  function ReportedFor(out: seq<Observation>, c: Connection): seq<Observation> {
    if out == [] then []
    else
      var last := out[|out| - 1];
      ReportedFor(out[..|out| - 1], c) + if ConnectionOf(last.flow) == c then [last] else []
  }

  /** As far as the connection goes, `s` is `t`. */
  ghost predicate Agree(s: State, t: State, c: Connection) {
    && (forall f | ConnectionOf(f) == c :: R.Lookup(s.streams, f) == R.Lookup(t.streams, f))
    && (forall id: nat :: (c, id) in s.noneChannels <==> (c, id) in t.noneChannels)
    && ReportedFor(s.out, c) == t.out
  }

  lemma ReportedOne(out: seq<Observation>, o: Observation, c: Connection)
    ensures ReportedFor(out + [o], c) == ReportedFor(out, c) + if ConnectionOf(o.flow) == c then [o] else []
  {
    assert (out + [o])[..|out|] == out;
  }

  lemma ReportInside(utf8: Utf8, e: R.Emission, s: State, t: State, c: Connection)
    requires Agree(s, t, c) && ConnectionOf(e.flow) == c
    ensures Agree(Report(utf8, e, s), Report(utf8, e, t), c)
  {
    hide ParseOpcUaTcp, ConnectionOf, ChannelId, R.Lookup, ReportedFor;
    var parsed := ParseOpcUaTcp(utf8, e.frame, (c, ChannelId(e.frame)) in s.noneChannels);
    if parsed.Ok? {
      ReportedOne(s.out, Observation(e.flow, e.time, parsed.value, |e.frame|), c);
    }
  }

  lemma ReportOutside(utf8: Utf8, e: R.Emission, s: State, t: State, c: Connection)
    requires Agree(s, t, c) && ConnectionOf(e.flow) != c
    ensures Agree(Report(utf8, e, s), t, c)
  {
    hide ParseOpcUaTcp, ConnectionOf, ChannelId, R.Lookup, ReportedFor;
    var parsed := ParseOpcUaTcp(utf8, e.frame, (ConnectionOf(e.flow), ChannelId(e.frame)) in s.noneChannels);
    if parsed.Ok? {
      ReportedOne(s.out, Observation(e.flow, e.time, parsed.value, |e.frame|), c);
    }
  }

  lemma {:induction false} ReportAllInside(utf8: Utf8, p: R.Packet, raws: seq<bytes>, s: State, t: State, c: Connection)
    requires Agree(s, t, c) && ConnectionOf(p.flow) == c
    ensures Agree(ReportAll(utf8, p, raws, s), ReportAll(utf8, p, raws, t), c)
    decreases |raws|
  {
    hide Report, Agree, ConnectionOf;
    if raws != [] {
      var e := R.Emission(p.flow, p.time, raws[0]);
      ReportInside(utf8, e, s, t, c);
      ReportAllInside(utf8, p, raws[1..], Report(utf8, e, s), Report(utf8, e, t), c);
    }
  }

  lemma {:induction false} ReportAllOutside(utf8: Utf8, p: R.Packet, raws: seq<bytes>, s: State, t: State, c: Connection)
    requires Agree(s, t, c) && ConnectionOf(p.flow) != c
    ensures Agree(ReportAll(utf8, p, raws, s), t, c)
    decreases |raws|
  {
    hide Report, Agree, ConnectionOf;
    if raws != [] {
      var e := R.Emission(p.flow, p.time, raws[0]);
      ReportOutside(utf8, e, s, t, c);
      ReportAllOutside(utf8, p, raws[1..], Report(utf8, e, s), t, c);
    }
  }

  lemma StoreKeepsOthers(streams: R.Streams, f: R.Flow, b: Option<R.Buffer>, g: R.Flow)
    ensures R.Lookup(R.Store(streams, f, b), g) == if g == f then b else R.Lookup(streams, g)
  {
  }

  /** One packet, seen with and without the traffic of other connections. */
  lemma IndependentStep(utf8: Utf8, s: State, t: State, p: R.Packet, c: Connection)
    requires Wellformed(OPCUA) && Agree(s, t, c)
    ensures Agree(Step(utf8, s, p), if R.Relevant(4840, p) && ConnectionOf(p.flow) == c then Step(utf8, t, p) else t, c)
  {
    hide Split, ConnectionOf, ReportAll, ReportedFor, R.Feed, R.Store, R.Lookup, R.Relevant;
    if R.Relevant(4840, p) {
      var fed := R.Feed(OPCUA, R.Lookup(s.streams, p.flow), p.seqno, p.payload);
      var s1 := s.(streams := R.Store(s.streams, p.flow, fed.next));
      var t1 := t.(streams := R.Store(t.streams, p.flow, fed.next));
      forall f | ConnectionOf(f) == c
        ensures R.Lookup(s1.streams, f) == if f == p.flow then fed.next else R.Lookup(s.streams, f)
        ensures R.Lookup(t1.streams, f) == if f == p.flow then fed.next else R.Lookup(t.streams, f)
      {
        StoreKeepsOthers(s.streams, p.flow, fed.next, f);
        StoreKeepsOthers(t.streams, p.flow, fed.next, f);
      }
      if ConnectionOf(p.flow) == c {
        assert R.Lookup(t.streams, p.flow) == R.Lookup(s.streams, p.flow);
        ReportAllInside(utf8, p, fed.frames, s1, t1, c);
      } else {
        ReportAllOutside(utf8, p, fed.frames, s1, t, c);
      }
    }
  }

  lemma {:induction false} AfterPrefix(utf8: Utf8, a: seq<R.Packet>, b: seq<R.Packet>, m: nat)
    requires Wellformed(OPCUA) && m <= |a|
    ensures After(utf8, a + b, m) == After(utf8, a, m)
  {
    hide Step;
    if m != 0 {
      AfterPrefix(utf8, a, b, m - 1);
      assert (a + b)[m - 1] == a[m - 1];
    }
  }

  /**
    Whatever other connections are interleaved, the observations of a connection, its buffers and
    its unprotected channels are those of a capture that holds that connection alone.
   */
  lemma {:induction false} ConnectionsAreIndependent(utf8: Utf8, ps: seq<R.Packet>, c: Connection, m: nat)
    requires Wellformed(OPCUA) && m <= |ps|
    ensures var alone := OnlyConnection(ps, c, m); Agree(After(utf8, ps, m), After(utf8, alone, |alone|), c)
  {
    hide Step, R.Relevant, ConnectionOf;
    if m == 0 {
      NothingAgrees(c);
    } else {
      hide Agree;
      ConnectionsAreIndependent(utf8, ps, c, m - 1);
      var p, alone := ps[m - 1], OnlyConnection(ps, c, m - 1);
      IndependentStep(utf8, After(utf8, ps, m - 1), After(utf8, alone, |alone|), p, c);
      AfterPrefix(utf8, alone, [p], |alone|);
      assert alone + [] == alone;
    }
  }

  lemma NothingAgrees(c: Connection)
    ensures Agree(State(map[], {}, []), State(map[], {}, []), c)
  {
  }
}
