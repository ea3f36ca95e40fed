/**
  Passive stream reassembly: one buffer of undelivered octets per TCP 4-tuple, dropped on a
  sequence gap, over any frame splitter.
 */
module Reassembly {
  import opened Wrappers
  import opened Bytes
  import opened Framing
  import opened FrameRules

  datatype Flow = Flow(src: string, sport: nat, dst: string, dport: nat)

  /** A captured packet; the three flags say which layers the dissector found. */
  datatype Packet = Packet(hasTcp: bool, hasRaw: bool, hasNetwork: bool, flow: Flow, seqno: nat, payload: bytes, time: int)

  /** The sequence number at which the held octets start, and the octets. */
  datatype Buffer = Buffer(start: int, held: bytes)

  type Streams = map<Flow, Buffer>

  datatype Emission = Emission(flow: Flow, time: int, frame: bytes)

  datatype State = State(streams: Streams, out: seq<Emission>)

  /** Which frames the protocol parser accepts; the others are skipped. */
  type Parser = (Flow, bytes) -> bool

  predicate KeepAll(f: Flow, frame: bytes) {
    true
  }

  predicate Relevant(port: nat, p: Packet) {
    p.hasTcp && p.hasRaw && (p.flow.sport == port || p.flow.dport == port) && p.hasNetwork
  }

  function Lookup(streams: Streams, f: Flow): Option<Buffer> {
    if f in streams then Some(streams[f]) else None
  }

  /** The octets a segment is appended to. */
  function Kept(prev: Option<Buffer>, seqno: nat): bytes {
    var b := if prev.Some? then prev.value else Buffer(seqno, []);
    if b.held != [] && seqno != b.start + |b.held| then [] else b.held
  }

  datatype Fed = Fed(next: Option<Buffer>, frames: seq<bytes>)

  /** What one segment does to the buffer of its flow. */
  ghost function Feed(r: Rule, prev: Option<Buffer>, seqno: nat, payload: bytes): Fed
    requires Wellformed(r)
  {
    match Split(r, Kept(prev, seqno) + payload)
    case Error => Fed(None, [])
    case Parsed(frames, rest) => Fed(Some(Buffer(seqno + |payload| - |rest|, rest)), frames)
  }

  function Store(streams: Streams, f: Flow, b: Option<Buffer>): Streams {
    if b.Some? then streams[f := b.value] else streams - {f}
  }

  function Emit(keep: Parser, p: Packet, frames: seq<bytes>): seq<Emission> {
    if frames == [] then []
    else
      (if keep(p.flow, frames[0]) then [Emission(p.flow, p.time, frames[0])] else []) + Emit(keep, p, frames[1..])
  }

  ghost function Step(r: Rule, port: nat, keep: Parser, s: State, p: Packet): State
    requires Wellformed(r)
  {
    if !Relevant(port, p) then s
    else
      var fed := Feed(r, Lookup(s.streams, p.flow), p.seqno, p.payload);
      State(Store(s.streams, p.flow, fed.next), s.out + Emit(keep, p, fed.frames))
  }

  /** The generator's state after the first `m` packets of a capture. */
  ghost function After(r: Rule, port: nat, keep: Parser, ps: seq<Packet>, m: nat): State
    requires Wellformed(r) && m <= |ps|
  {
    if m == 0 then State(map[], []) else Step(r, port, keep, After(r, port, keep, ps, m - 1), ps[m - 1])
  }

  ghost function Run(r: Rule, port: nat, keep: Parser, ps: seq<Packet>): State
    requires Wellformed(r)
  {
    After(r, port, keep, ps, |ps|)
  }

  // ---- The generators ----

  datatype Protocol = Modbus | Dnp3 | S7comm | Mms

  function PortOf(p: Protocol): nat {
    match p
    case Modbus => 502
    case Dnp3 => 20000
    case S7comm => 102
    case Mms => 102
  }

  function RuleOf(p: Protocol): Rule {
    match p
    case Modbus => MBAP
    case Dnp3 => DNP3
    case S7comm => TPKT
    case Mms => TPKT
  }

  method SplitFor(protocol: Protocol, data: bytes) returns (o: Outcome)
    ensures Wellformed(RuleOf(protocol)) && o == Split(RuleOf(protocol), data)
  {
    match protocol
    case Modbus => o := SplitModbusTcpStream(data);
    case Dnp3 => o := SplitDnp3Stream(data);
    case S7comm => o := SplitTpktStream(data);
    case Mms => o := SplitTpktStream(data);
  }

  method EmitAll(keep: Parser, p: Packet, frames: seq<bytes>, before: seq<Emission>) returns (out: seq<Emission>)
    ensures out == before + Emit(keep, p, frames)
  {
    out := before;
    for i := 0 to |frames|
      invariant out + Emit(keep, p, frames[i..]) == before + Emit(keep, p, frames)
    {
      assert frames[i..][1..] == frames[i + 1..];
      if keep(p.flow, frames[i]) {
        Associative(out, [Emission(p.flow, p.time, frames[i])], Emit(keep, p, frames[i + 1..]));
        out := out + [Emission(p.flow, p.time, frames[i])];
      }
    }
  }

  lemma StepIrrelevant(r: Rule, port: nat, keep: Parser, s: State, p: Packet)
    requires Wellformed(r) && !Relevant(port, p)
    ensures Step(r, port, keep, s, p) == s
  {
  }

  lemma StepAfterSplit(r: Rule, port: nat, keep: Parser, s: State, p: Packet, split: Outcome)
    requires Wellformed(r) && Relevant(port, p)
    requires split == Split(r, Kept(Lookup(s.streams, p.flow), p.seqno) + p.payload)
    ensures Step(r, port, keep, s, p) ==
            if split.Error? then State(s.streams - {p.flow}, s.out)
            else State(
              s.streams[p.flow := Buffer(p.seqno + |p.payload| - |split.rest|, split.rest)],
              s.out + Emit(keep, p, split.frames))
  {
    hide Split;
    assert s.out + Emit(keep, p, []) == s.out;
  }

  /** The packet loop shared by the four generators without cross-packet parser state. */
  method ObservationsFromPcap(protocol: Protocol, keep: Parser, packets: seq<Packet>)
    returns (streams: Streams, out: seq<Emission>)
    ensures Wellformed(RuleOf(protocol))
    ensures State(streams, out) == Run(RuleOf(protocol), PortOf(protocol), keep, packets)
  {
    hide Split, Emit, Step;
    RulesAreWellformed();
    ghost var r, port := RuleOf(protocol), PortOf(protocol);
    streams, out := map[], [];
    for m := 0 to |packets|
      invariant State(streams, out) == After(r, port, keep, packets, m)
    {
      var p := packets[m];
      ghost var s := State(streams, out);
      if !Relevant(PortOf(protocol), p) {
        StepIrrelevant(r, port, keep, s, p);
        continue;
      }
      var previous := if p.flow in streams then streams[p.flow] else Buffer(p.seqno, []);
      var buffered := previous.held;
      var expected := previous.start + |buffered|;
      if buffered != [] && p.seqno != expected {
        buffered := [];
      }
      assert buffered == Kept(Lookup(streams, p.flow), p.seqno);
      var split := SplitFor(protocol, buffered + p.payload);
      StepAfterSplit(r, port, keep, s, p, split);
      if split.Error? {
        streams := streams - {p.flow};
        continue;
      }
      streams := streams[p.flow := Buffer(p.seqno + |p.payload| - |split.rest|, split.rest)];
      out := EmitAll(keep, p, split.frames, out);
    }
  }

  // ---- No cross-talk ----

  /** The packets of one flow that the generator looks at, in capture order. */
  function Only(port: nat, ps: seq<Packet>, f: Flow, m: nat): (segs: seq<Packet>)
    requires m <= |ps|
    ensures forall i | 0 <= i < |segs| :: segs[i].flow == f && Relevant(port, segs[i])
  {
    if m == 0 then []
    else if Relevant(port, ps[m - 1]) && ps[m - 1].flow == f then Only(port, ps, f, m - 1) + [ps[m - 1]]
    else Only(port, ps, f, m - 1)
  }

  function EmittedFor(out: seq<Emission>, f: Flow): seq<Emission> {
    if out == [] then []
    else (if out[0].flow == f then [out[0]] else []) + EmittedFor(out[1..], f)
  }

  lemma {:induction false} EmittedForAppend(a: seq<Emission>, b: seq<Emission>, f: Flow)
    ensures EmittedFor(a + b, f) == EmittedFor(a, f) + EmittedFor(b, f)
  {
    if a == [] {
      assert a + b == b;
    } else {
      assert (a + b)[0] == a[0] && (a + b)[1..] == a[1..] + b;
      EmittedForAppend(a[1..], b, f);
    }
  }

  lemma {:induction false} EmittedForPacket(keep: Parser, p: Packet, frames: seq<bytes>, f: Flow)
    ensures EmittedFor(Emit(keep, p, frames), f) == if p.flow == f then Emit(keep, p, frames) else []
  {
    if frames != [] {
      var head := if keep(p.flow, frames[0]) then [Emission(p.flow, p.time, frames[0])] else [];
      EmittedForPacket(keep, p, frames[1..], f);
      EmittedForAppend(head, Emit(keep, p, frames[1..]), f);
    }
  }

  /** The state after `m` packets does not depend on the packets that follow. */
  lemma {:induction false} AfterPrefix(r: Rule, port: nat, keep: Parser, a: seq<Packet>, b: seq<Packet>, m: nat)
    requires Wellformed(r) && m <= |a|
    ensures After(r, port, keep, a + b, m) == After(r, port, keep, a, m)
  {
    if m != 0 {
      AfterPrefix(r, port, keep, a, b, m - 1);
    }
  }

  lemma NoCrossTalkStep(r: Rule, port: nat, keep: Parser, s: State, t: State, p: Packet, f: Flow)
    requires Wellformed(r)
    requires EmittedFor(s.out, f) == t.out && Lookup(s.streams, f) == Lookup(t.streams, f)
    ensures var s' := Step(r, port, keep, s, p);
            var t' := if Relevant(port, p) && p.flow == f then Step(r, port, keep, t, p) else t;
            EmittedFor(s'.out, f) == t'.out && Lookup(s'.streams, f) == Lookup(t'.streams, f)
  {
    if Relevant(port, p) {
      var fed := Feed(r, Lookup(s.streams, p.flow), p.seqno, p.payload);
      EmittedForAppend(s.out, Emit(keep, p, fed.frames), f);
      EmittedForPacket(keep, p, fed.frames, f);
    }
  }

  /**
    No cross-talk: whatever other traffic is interleaved, the frames emitted for a flow, and the
    octets still held for it, are those of a capture containing that flow's packets alone.
   */
  lemma {:induction false} NoCrossTalk(r: Rule, port: nat, keep: Parser, ps: seq<Packet>, f: Flow, m: nat)
    requires Wellformed(r) && m <= |ps|
    ensures var mixed, alone := After(r, port, keep, ps, m), Run(r, port, keep, Only(port, ps, f, m));
            && EmittedFor(mixed.out, f) == alone.out
            && Lookup(mixed.streams, f) == Lookup(alone.streams, f)
  {
    hide Step, Relevant;
    if m != 0 {
      NoCrossTalk(r, port, keep, ps, f, m - 1);
      var p, segs := ps[m - 1], Only(port, ps, f, m - 1);
      AfterPrefix(r, port, keep, segs, [p], |segs|);
      NoCrossTalkStep(r, port, keep, After(r, port, keep, ps, m - 1), Run(r, port, keep, segs), p, f);
    }
  }

  // ---- No splicing ----

  /** Segments j..n-1 follow one another without a gap, a repeat or a wrap. */
  ghost predicate Consecutive(segs: seq<Packet>, j: nat, n: nat) {
    j <= n <= |segs| && forall k | j < k < n :: segs[k].seqno == segs[k - 1].seqno + |segs[k - 1].payload|
  }

  function Octets(segs: seq<Packet>, j: nat, n: nat): bytes
    requires j <= n <= |segs|
  {
    if j == n then [] else Octets(segs, j, n - 1) + segs[n - 1].payload
  }

  /** `part` is a contiguous stretch of `whole`. */
  predicate Within(part: bytes, whole: bytes, at: nat) {
    at + |part| <= |whole| && whole[at..at + |part|] == part
  }

  ghost predicate CutFrom(segs: seq<Packet>, frame: bytes) {
    exists j: nat, n: nat, at: nat :: Consecutive(segs, j, n) && Within(frame, Octets(segs, j, n), at)
  }

  /** Between segments: the held octets end a consecutive run that ends with the last segment. */
  ghost predicate Anchored(segs: seq<Packet>, n: nat, b: Buffer, j: nat) {
    && 1 <= n && Consecutive(segs, j, n) && j < n
    && b.start + |b.held| == segs[n - 1].seqno + |segs[n - 1].payload|
    && |b.held| <= |Octets(segs, j, n)|
    && Within(b.held, Octets(segs, j, n), |Octets(segs, j, n)| - |b.held|)
  }

  lemma {:induction false} FramesWithin(frames: seq<bytes>, tail: bytes, i: nat)
    requires i < |frames|
    ensures exists at: nat :: Within(frames[i], Flatten(frames) + tail, at)
  {
    var rest := Flatten(frames[1..]) + tail;
    Associative(frames[0], Flatten(frames[1..]), tail);
    assert Flatten(frames) + tail == frames[0] + rest;
    if i == 0 {
      assert (frames[0] + rest)[..|frames[0]|] == frames[0];
      assert Within(frames[0], frames[0] + rest, 0);
    } else {
      FramesWithin(frames[1..], tail, i - 1);
      var at: nat :| Within(frames[i], rest, at);
      assert (frames[0] + rest)[|frames[0]| + at..|frames[0]| + at + |frames[i]|] == rest[at..at + |frames[i]|];
      assert Within(frames[i], frames[0] + rest, |frames[0]| + at);
    }
  }

  lemma WithinSuffix(part: bytes, prefix: bytes, suffix: bytes, at: nat)
    requires Within(part, suffix, at)
    ensures Within(part, prefix + suffix, |prefix| + at)
  {
    assert (prefix + suffix)[|prefix| + at..|prefix| + at + |part|] == suffix[at..at + |part|];
  }

  lemma {:induction false} EmitMembers(keep: Parser, p: Packet, frames: seq<bytes>, e: Emission)
    requires e in Emit(keep, p, frames)
    ensures e.frame in frames && e.flow == p.flow && e.time == p.time && keep(e.flow, e.frame)
  {
    if e !in Emit(keep, p, frames[1..]) {
      assert e.frame == frames[0];
    } else {
      EmitMembers(keep, p, frames[1..], e);
    }
  }

  /** The run that a segment's work is cut from: either the old run extended, or the segment alone. */
  lemma RunExtends(segs: seq<Packet>, n: nat, prev: Option<Buffer>, j0: nat) returns (j: nat, skipped: bytes)
    requires n < |segs|
    requires prev.Some? && prev.value.held != [] ==> Anchored(segs, n, prev.value, j0)
    ensures j <= n && Consecutive(segs, j, n + 1)
    ensures Octets(segs, j, n + 1) == skipped + (Kept(prev, segs[n].seqno) + segs[n].payload)
  {
    var seg := segs[n];
    if prev.Some? && prev.value.held != [] && seg.seqno == prev.value.start + |prev.value.held| {
      j := j0;
      var run := Octets(segs, j, n);
      skipped := run[..|run| - |prev.value.held|];
      assert run == skipped + prev.value.held;
      Associative(skipped, prev.value.held, seg.payload);
    } else {
      j, skipped := n, [];
      assert Octets(segs, n, n) == [];
      assert Kept(prev, seg.seqno) == [];
    }
  }

  /** One segment: what it emits is cut from a run, and what it leaves behind ends that run. */
  lemma NoSplicingFeed(r: Rule, segs: seq<Packet>, n: nat, prev: Option<Buffer>, j0: nat) returns (j: nat)
    requires Wellformed(r) && n < |segs|
    requires prev.Some? ==> Anchored(segs, n, prev.value, j0)
    ensures var fed := Feed(r, prev, segs[n].seqno, segs[n].payload);
            && (forall frame | frame in fed.frames :: CutFrom(segs, frame) && Complete(r, frame))
            && (fed.next.Some? ==> Anchored(segs, n + 1, fed.next.value, j))
  {
    hide Split, Flatten, Octets, Kept;
    var skipped: bytes;
    j, skipped := RunExtends(segs, n, prev, j0);
    var data := Kept(prev, segs[n].seqno) + segs[n].payload;
    var frames, tail := SplitSound(r, data);
    var fed := Feed(r, prev, segs[n].seqno, segs[n].payload);
    forall frame | frame in fed.frames
      ensures CutFrom(segs, frame) && Complete(r, frame)
    {
      var i :| 0 <= i < |frames| && frames[i] == frame;
      FramesWithin(frames, tail, i);
      var at: nat :| Within(frame, data, at);
      WithinSuffix(frame, skipped, data, at);
    }
    WithinSuffix(tail, Flatten(frames), tail, 0);
    WithinSuffix(tail, skipped, data, |Flatten(frames)|);
  }

  lemma {:induction false} NoSplicingOneFlow(r: Rule, port: nat, keep: Parser, segs: seq<Packet>, f: Flow, n: nat)
    returns (j: nat)
    requires Wellformed(r) && n <= |segs|
    requires forall i | 0 <= i < |segs| :: segs[i].flow == f && Relevant(port, segs[i])
    ensures forall e | e in After(r, port, keep, segs, n).out :: CutFrom(segs, e.frame) && Complete(r, e.frame)
    ensures var b := Lookup(After(r, port, keep, segs, n).streams, f);
            b.Some? ==> Anchored(segs, n, b.value, j)
  {
    hide Feed, CutFrom, Complete, Anchored;
    j := 0;
    if n != 0 {
      var j0 := NoSplicingOneFlow(r, port, keep, segs, f, n - 1);
      var p := segs[n - 1];
      var prev := Lookup(After(r, port, keep, segs, n - 1).streams, f);
      j := NoSplicingFeed(r, segs, n - 1, prev, j0);
      forall e | e in Emit(keep, p, Feed(r, prev, p.seqno, p.payload).frames)
        ensures CutFrom(segs, e.frame) && Complete(r, e.frame)
      {
        EmitMembers(keep, p, Feed(r, prev, p.seqno, p.payload).frames, e);
      }
    }
  }

  /**
    No splicing: under arbitrary loss, repetition and reordering, every emitted frame is one whole
    frame and a contiguous stretch of segments of its own flow whose sequence numbers follow on.
   */
  lemma NoSplicing(r: Rule, port: nat, keep: Parser, ps: seq<Packet>, e: Emission)
    requires Wellformed(r) && e in Run(r, port, keep, ps).out
    ensures Complete(r, e.frame) && CutFrom(Only(port, ps, e.flow, |ps|), e.frame)
  {
    var segs := Only(port, ps, e.flow, |ps|);
    NoCrossTalk(r, port, keep, ps, e.flow, |ps|);
    EmittedForMember(Run(r, port, keep, ps).out, e);
    var _ := NoSplicingOneFlow(r, port, keep, segs, e.flow, |segs|);
  }

  lemma {:induction false} EmittedForMember(out: seq<Emission>, e: Emission)
    requires e in out
    ensures e in EmittedFor(out, e.flow)
  {
    if out[0] != e {
      EmittedForMember(out[1..], e);
    }
  }
}
