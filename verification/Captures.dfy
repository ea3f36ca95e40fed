/**
  From pieces of a stream to captured segments: what the capture loop makes of a flow whose segments
  arrive in order, including where the sequence number passes 2^32.
 */
module Captures {
  import opened Wrappers
  import opened Bytes
  import opened Framing
  import opened FrameRules
  import opened Reassembly
  import opened Chunking

  const TWO_TO_THE_32 := 0x1_0000_0000

  /** The sequence number of a segment, as it travels. */
  predicate InOrder(segs: seq<Packet>) {
    forall k | 0 < k < |segs| :: segs[k].seqno == (segs[k - 1].seqno + |segs[k - 1].payload|) % TWO_TO_THE_32
  }

  predicate OfFlow(port: nat, segs: seq<Packet>, f: Flow) {
    forall i | 0 <= i < |segs| :: segs[i].flow == f && Relevant(port, segs[i])
  }

  function Payloads(segs: seq<Packet>): (chunks: seq<bytes>)
    ensures |chunks| == |segs| && forall i | 0 <= i < |segs| :: chunks[i] == segs[i].payload
  {
    seq(|segs|, i requires 0 <= i < |segs| => segs[i].payload)
  }

  function FramesOf(out: seq<Emission>): (frames: seq<bytes>)
    ensures |frames| == |out| && forall i | 0 <= i < |out| :: frames[i] == out[i].frame
  {
    seq(|out|, i requires 0 <= i < |out| => out[i].frame)
  }

  /** The frames that the protocol parser does not skip, in order. */
  function Accepted(keep: Parser, f: Flow, frames: seq<bytes>): seq<bytes> {
    if frames == [] then []
    else (if keep(f, frames[0]) then [frames[0]] else []) + Accepted(keep, f, frames[1..])
  }

  lemma {:induction false} AcceptedAppend(keep: Parser, f: Flow, a: seq<bytes>, b: seq<bytes>)
    ensures Accepted(keep, f, a + b) == Accepted(keep, f, a) + Accepted(keep, f, b)
  {
    if a == [] {
      assert a + b == b;
    } else {
      assert (a + b)[0] == a[0] && (a + b)[1..] == a[1..] + b;
      AcceptedAppend(keep, f, a[1..], b);
      Associative(if keep(f, a[0]) then [a[0]] else [], Accepted(keep, f, a[1..]), Accepted(keep, f, b));
    }
  }

  lemma {:induction false} AcceptedByAll(f: Flow, frames: seq<bytes>)
    ensures Accepted(KeepAll, f, frames) == frames
  {
    if frames != [] {
      AcceptedByAll(f, frames[1..]);
    }
  }

  lemma {:induction false} EmitAccepts(keep: Parser, p: Packet, frames: seq<bytes>)
    ensures FramesOf(Emit(keep, p, frames)) == Accepted(keep, p.flow, frames)
  {
    if frames != [] {
      EmitAccepts(keep, p, frames[1..]);
      var first := if keep(p.flow, frames[0]) then [Emission(p.flow, p.time, frames[0])] else [];
      var rest := Emit(keep, p, frames[1..]);
      assert FramesOf(first + rest) == FramesOf(first) + FramesOf(rest);
    }
  }

  // ---- Where octets are dropped ----

  /** After a segment: what is held, and that it ends where that segment ended. */
  ghost predicate InStep(b: Option<Buffer>, held: bytes, end: int) {
    if b.None? then held == [] else b.value.held == held && b.value.start + |held| == end
  }

  /**
    The expected sequence number is not reduced modulo 2^32: the next segment in order is joined to
    the held octets exactly when nothing is held or the number does not wrap.
   */
  lemma JoinedIffNoWrap(b: Option<Buffer>, held: bytes, end: nat, seqno: nat)
    requires InStep(b, held, end) && seqno == end % TWO_TO_THE_32
    ensures Kept(b, seqno) == held <==> held == [] || end < TWO_TO_THE_32
    ensures Kept(b, seqno) == if held == [] || end < TWO_TO_THE_32 then held else []
  {
  }

  /** Segment `k` ends at or past 2^32 while octets are held, and another segment follows it. */
  ghost predicate WrapsHeld(r: Rule, segs: seq<Packet>, k: nat)
    requires Wellformed(r)
  {
    && k + 1 < |segs|
    && segs[k].seqno + |segs[k].payload| >= TWO_TO_THE_32
    && Deliver(r, Payloads(segs), k + 1).held != []
  }

  /** None of the first `m` segments meets octets that were held across the wrap. */
  ghost predicate NoHeldWrap(r: Rule, segs: seq<Packet>, m: nat)
    requires Wellformed(r)
  {
    forall k: nat | k + 1 < m :: !WrapsHeld(r, segs, k)
  }

  lemma CaptureStep(r: Rule, port: nat, keep: Parser, s: State, d: Progress, p: Packet)
    requires Wellformed(r) && Relevant(port, p)
    requires FramesOf(s.out) == Accepted(keep, p.flow, d.frames) && Kept(Lookup(s.streams, p.flow), p.seqno) == d.held
    ensures var s' := Step(r, port, keep, s, p);
            match Split(r, d.held + p.payload)
            case Error => FramesOf(s'.out) == Accepted(keep, p.flow, d.frames) && p.flow !in s'.streams
            case Parsed(frames, rest) =>
              && FramesOf(s'.out) == Accepted(keep, p.flow, d.frames + frames)
              && InStep(Lookup(s'.streams, p.flow), rest, p.seqno + |p.payload|)
  {
    hide Split, Emit, Kept, Accepted;
    var split := Split(r, d.held + p.payload);
    StepAfterSplit(r, port, keep, s, p, split);
    if split.Parsed? {
      EmitAccepts(keep, p, split.frames);
      AcceptedAppend(keep, p.flow, d.frames, split.frames);
      assert FramesOf(s.out + Emit(keep, p, split.frames)) == FramesOf(s.out) + FramesOf(Emit(keep, p, split.frames));
    }
  }

  /** What holds of the loop after `m` segments if it has kept up with the delivery in pieces. */
  ghost predicate KeptUp(r: Rule, port: nat, keep: Parser, segs: seq<Packet>, f: Flow, m: nat)
    requires Wellformed(r) && m <= |segs|
  {
    var s, d := After(r, port, keep, segs, m), Deliver(r, Payloads(segs), m);
    && FramesOf(s.out) == Accepted(keep, f, d.frames)
    && (if m == 0 then Lookup(s.streams, f) == None && d.held == []
        else InStep(Lookup(s.streams, f), d.held, segs[m - 1].seqno + |segs[m - 1].payload|))
  }

  lemma HeldForNext(r: Rule, port: nat, keep: Parser, segs: seq<Packet>, f: Flow, m: nat)
    requires Wellformed(r) && m < |segs| && InOrder(segs)
    requires KeptUp(r, port, keep, segs, f, m)
    ensures Kept(Lookup(After(r, port, keep, segs, m).streams, f), segs[m].seqno) ==
            if m > 0 && WrapsHeld(r, segs, m - 1) then [] else Deliver(r, Payloads(segs), m).held
  {
    hide After, Deliver, Payloads;
    if m > 0 {
      var end := segs[m - 1].seqno + |segs[m - 1].payload|;
      assert segs[m].seqno == end % TWO_TO_THE_32;
      hide InOrder, InStep, Kept;
      JoinedIffNoWrap(Lookup(After(r, port, keep, segs, m).streams, f), Deliver(r, Payloads(segs), m).held, end, segs[m].seqno);
    }
  }

  /**
    The capture loop, fed the segments of one flow in order, does what the piecewise delivery does,
    up to the first segment that meets octets held across the wrap.
   */
  lemma {:induction false} CaptureDelivers(r: Rule, port: nat, keep: Parser, segs: seq<Packet>, f: Flow, m: nat)
    requires Wellformed(r) && m <= |segs|
    requires OfFlow(port, segs, f) && InOrder(segs) && NoHeldWrap(r, segs, m)
    ensures KeptUp(r, port, keep, segs, f, m)
  {
    if m != 0 {
      hide Split, Step, FramesOf, Accepted, Relevant, InOrder, Lookup, WrapsHeld, KeptUp, Kept;
      assert OfFlow(port, segs, f) && segs[m - 1].flow == f && Relevant(port, segs[m - 1]);
      CaptureDelivers(r, port, keep, segs, f, m - 1);
      HeldForNext(r, port, keep, segs, f, m - 1);
      assert m > 1 ==> !WrapsHeld(r, segs, m - 2);
      KeepsUp(r, port, keep, segs, f, m - 1);
    } else {
      hide Split;
    }
  }

  lemma KeepsUp(r: Rule, port: nat, keep: Parser, segs: seq<Packet>, f: Flow, m: nat)
    requires Wellformed(r) && m < |segs| && segs[m].flow == f && Relevant(port, segs[m])
    requires KeptUp(r, port, keep, segs, f, m)
    requires Kept(Lookup(After(r, port, keep, segs, m).streams, f), segs[m].seqno) == Deliver(r, Payloads(segs), m).held
    ensures KeptUp(r, port, keep, segs, f, m + 1)
  {
    hide Split, Step, FramesOf, Accepted, Relevant, Kept;
    CaptureStep(r, port, keep, After(r, port, keep, segs, m), Deliver(r, Payloads(segs), m), segs[m]);
  }

  // ---- The whole stream ----

  /** The octets held for a flow. */
  function HeldFor(streams: Streams, f: Flow): bytes {
    if f in streams then streams[f].held else []
  }

  /** The segments of `f` in the capture arrive in order and make up a stream that splits as a whole. */
  ghost predicate Delivers(r: Rule, segs: seq<Packet>)
    requires Wellformed(r)
  {
    InOrder(segs) && Split(r, Joined(Payloads(segs), |segs|)).Parsed?
  }

  /**
    The theorem on captures: among any other traffic, a flow delivered in order, in segments of
    whatever sizes, yields the accepted frames of its whole-stream split, and what is still held for
    it is that split's remainder, as long as no octets are held across the wrap.
   */
  lemma ReassemblyEqualsSplit(r: Rule, port: nat, keep: Parser, ps: seq<Packet>, f: Flow)
    requires Wellformed(r)
    requires var segs := Only(port, ps, f, |ps|); Delivers(r, segs) && NoHeldWrap(r, segs, |segs|)
    ensures var segs := Only(port, ps, f, |ps|);
            var s, whole := Run(r, port, keep, ps), Split(r, Joined(Payloads(segs), |segs|));
            && FramesOf(EmittedFor(s.out, f)) == Accepted(keep, f, whole.frames)
            && HeldFor(s.streams, f) == whole.rest
  {
    hide Split, After, FramesOf, Accepted, EmittedFor, InOrder, NoHeldWrap;
    var segs := Only(port, ps, f, |ps|);
    NoCrossTalk(r, port, keep, ps, f, |ps|);
    CaptureDelivers(r, port, keep, segs, f, |segs|);
    DeliverySplits(r, Payloads(segs), |segs|);
  }

  /** After `m` segments, exactly the frames and the remainder of the octets received so far. */
  ghost predicate Exact(r: Rule, port: nat, segs: seq<Packet>, f: Flow, m: nat)
    requires Wellformed(r) && m <= |segs|
  {
    var s, whole := After(r, port, KeepAll, segs, m), Split(r, Joined(Payloads(segs), m));
    whole.Parsed? && FramesOf(s.out) == whole.frames && HeldFor(s.streams, f) == whole.rest
  }

  function Size(parts: seq<bytes>): nat {
    |Flatten(parts)|
  }

  lemma SplitConserves(r: Rule, data: bytes)
    requires Wellformed(r) && Split(r, data).Parsed?
    ensures Size(Split(r, data).frames) + |Split(r, data).rest| == |data|
  {
    var frames, tail := SplitSound(r, data);
  }

  /** Where a buffer ends, whatever was lost before. */
  lemma BufferEnds(r: Rule, port: nat, keep: Parser, segs: seq<Packet>, f: Flow, m: nat)
    requires Wellformed(r) && 0 < m <= |segs| && OfFlow(port, segs, f)
    ensures var b := Lookup(After(r, port, keep, segs, m).streams, f);
            b.Some? ==> b.value.start + |b.value.held| == segs[m - 1].seqno + |segs[m - 1].payload|
  {
    hide Split, Emit;
    assert segs[m - 1].flow == f && Relevant(port, segs[m - 1]);
  }

  /** A segment that is joined to nothing leaves no more octets behind than it brought. */
  lemma UnjoinedStep(r: Rule, port: nat, s: State, p: Packet)
    requires Wellformed(r) && Relevant(port, p) && Kept(Lookup(s.streams, p.flow), p.seqno) == []
    ensures var s' := Step(r, port, KeepAll, s, p);
            Size(FramesOf(s'.out)) + |HeldFor(s'.streams, p.flow)| <= Size(FramesOf(s.out)) + |p.payload|
  {
    hide Split, Emit, Kept, Accepted;
    var split := Split(r, p.payload);
    assert [] + p.payload == p.payload;
    StepAfterSplit(r, port, KeepAll, s, p, split);
    if split.Parsed? {
      EmitAccepts(KeepAll, p, split.frames);
      AcceptedByAll(p.flow, split.frames);
      assert FramesOf(s.out + Emit(KeepAll, p, split.frames)) == FramesOf(s.out) + split.frames;
      FlattenAppend(FramesOf(s.out), split.frames);
      SplitConserves(r, p.payload);
    }
  }

  /** Octets held across the wrap are lost, and the loop is no longer exact after the next segment. */
  lemma WrapLoses(r: Rule, port: nat, segs: seq<Packet>, f: Flow, k: nat)
    requires Wellformed(r) && OfFlow(port, segs, f) && Delivers(r, segs) && WrapsHeld(r, segs, k)
    requires Exact(r, port, segs, f, k + 1)
    ensures !Exact(r, port, segs, f, k + 2)
  {
    hide Split, Step, FramesOf, Size, Deliver;
    var s := After(r, port, KeepAll, segs, k + 1);
    DeliverySplits(r, Payloads(segs), k + 1);
    BufferEnds(r, port, KeepAll, segs, f, k + 1);
    var end := segs[k].seqno + |segs[k].payload|;
    assert segs[k + 1].seqno == end % TWO_TO_THE_32;
    JoinedIffNoWrap(Lookup(s.streams, f), HeldFor(s.streams, f), end, segs[k + 1].seqno);
    assert segs[k + 1].flow == f && Relevant(port, segs[k + 1]);
    UnjoinedStep(r, port, s, segs[k + 1]);
    SplitConserves(r, Joined(Payloads(segs), k + 1));
    if Exact(r, port, segs, f, k + 2) {
      SplitConserves(r, Joined(Payloads(segs), k + 2));
      assert false;
    }
  }

  /**
    After every segment of a stream that splits as a whole the loop is exact, exactly when no segment
    but the last ends at or past 2^32 while octets are held.
   */
  lemma ExactIffNoHeldWrap(r: Rule, port: nat, segs: seq<Packet>, f: Flow)
    requires Wellformed(r) && OfFlow(port, segs, f) && Delivers(r, segs)
    ensures (forall m: nat | m <= |segs| :: Exact(r, port, segs, f, m)) <==> NoHeldWrap(r, segs, |segs|)
  {
    hide Exact, WrapsHeld, Delivers;
    if NoHeldWrap(r, segs, |segs|) {
      forall m: nat | m <= |segs|
        ensures Exact(r, port, segs, f, m)
      {
        ExactWithoutWrap(r, port, segs, f, m);
      }
    } else {
      var k: nat :| k + 1 < |segs| && WrapsHeld(r, segs, k);
      if Exact(r, port, segs, f, k + 1) {
        WrapLoses(r, port, segs, f, k);
      }
      assert k + 1 <= |segs| && k + 2 <= |segs|;
    }
  }

  lemma ExactWithoutWrap(r: Rule, port: nat, segs: seq<Packet>, f: Flow, m: nat)
    requires Wellformed(r) && OfFlow(port, segs, f) && Delivers(r, segs) && NoHeldWrap(r, segs, |segs|) && m <= |segs|
    ensures Exact(r, port, segs, f, m)
  {
    hide Split, After, FramesOf, Accepted, InOrder, WrapsHeld;
    CaptureDelivers(r, port, KeepAll, segs, f, m);
    DeliverySplits(r, Payloads(segs), m);
    AcceptedByAll(f, Deliver(r, Payloads(segs), m).frames);
  }

  // ---- A capture that wraps ----

  const CLIENT := Flow("10.0.0.2", 49152, "10.0.0.1", 102)

  /** A TPKT frame of seven octets in two segments, the first of which ends at 2^32. */
  function WrappingCapture(): seq<Packet> {
    [Packet(true, true, true, CLIENT, TWO_TO_THE_32 - 4, TPKT_FRAME[..4], 0), Packet(true, true, true, CLIENT, 0, TPKT_FRAME[4..], 1)]
  }

  lemma TwoPieces()
    ensures Wellformed(TPKT)
    ensures var a, b := TPKT_FRAME[..4], TPKT_FRAME[4..];
            && Joined([a, b], 2) == TPKT_FRAME
            && Split(TPKT, a) == Parsed([], a) && Split(TPKT, b) == Parsed([], b)
            && Split(TPKT, TPKT_FRAME) == Parsed([TPKT_FRAME], [])
  {
    TpktFrameThenJunk();
    CompleteSplits(TPKT, TPKT_FRAME);
    var a, b := TPKT_FRAME[..4], TPKT_FRAME[4..];
    assert [a, b][..1] == [a] && Joined([a, b], 0) == [];
    assert Joined([a, b], 1) == [] + a == a;
    assert Joined([a, b], 2) == a + b == TPKT_FRAME;
    assert a[..4] == [3, 0, 0, 7];
  }

  lemma WrappingCaptureDelivers()
    ensures |WrappingCapture()| == 2 && Payloads(WrappingCapture()) == [TPKT_FRAME[..4], TPKT_FRAME[4..]]
    ensures Wellformed(TPKT) && OfFlow(102, WrappingCapture(), CLIENT) && Delivers(TPKT, WrappingCapture())
    ensures Split(TPKT, Joined(Payloads(WrappingCapture()), 2)) == Parsed([TPKT_FRAME], [])
  {
    TwoPieces();
    WrappingSegments();
    hide Split, WrappingCapture, Joined, TPKT_FRAME, InOrder, OfFlow;
  }

  lemma WrappingSegments()
    ensures |WrappingCapture()| == 2 && Payloads(WrappingCapture()) == [TPKT_FRAME[..4], TPKT_FRAME[4..]]
    ensures OfFlow(102, WrappingCapture(), CLIENT) && InOrder(WrappingCapture())
  {
    assert Payloads(WrappingCapture()) == [TPKT_FRAME[..4], TPKT_FRAME[4..]];
  }

  /** The stream of this capture is one whole frame, and the loop emits nothing. */
  lemma WrappingLosesTheFrame()
    ensures Wellformed(TPKT) && Delivers(TPKT, WrappingCapture())
    ensures Split(TPKT, Joined(Payloads(WrappingCapture()), 2)) == Parsed([TPKT_FRAME], [])
    ensures |WrappingCapture()| == 2 && After(TPKT, 102, KeepAll, WrappingCapture(), 2).out == []
  {
    WrappingCaptureDelivers();
    TwoPieces();
    hide Split, Step, Kept, Delivers;
    var segs := WrappingCapture();
    var a, b := TPKT_FRAME[..4], TPKT_FRAME[4..];
    var s0, s1 := After(TPKT, 102, KeepAll, segs, 0), After(TPKT, 102, KeepAll, segs, 1);
    assert [] + a == a && [] + b == b;
    NothingKept(segs[0].seqno);
    CaptureStep(TPKT, 102, KeepAll, s0, Progress([], []), segs[0]);
    JoinedIffNoWrap(Lookup(s1.streams, CLIENT), a, TWO_TO_THE_32, 0);
    CaptureStep(TPKT, 102, KeepAll, s1, Progress([], []), segs[1]);
    assert |FramesOf(After(TPKT, 102, KeepAll, segs, 2).out)| == 0;
  }

  lemma NothingKept(seqno: nat)
    ensures Kept(None, seqno) == []
  {
  }
}
