/**
  Segmentation independence: which frames a capture yields must not depend on how TCP happened to
  cut the stream into segments.
 */
module Chunking {
  import opened Wrappers
  import opened Bytes
  import opened Framing
  import opened FrameRules
  import opened Reassembly

  /** The held octets and the frames cut so far. */
  datatype Progress = Progress(held: bytes, frames: seq<bytes>)

  /** One flow delivered without loss, reordering or sequence wrap, in the given pieces. */
  ghost function Deliver(r: Rule, chunks: seq<bytes>, m: nat): Progress
    requires Wellformed(r) && m <= |chunks|
  {
    if m == 0 then Progress([], [])
    else
      var before := Deliver(r, chunks, m - 1);
      match Split(r, before.held + chunks[m - 1])
      case Error => Progress([], before.frames)
      case Parsed(frames, rest) => Progress(rest, before.frames + frames)
  }

  function Joined(chunks: seq<bytes>, m: nat): bytes
    requires m <= |chunks|
  {
    if m == 0 then [] else Joined(chunks, m - 1) + chunks[m - 1]
  }

  // ---- A stream that splits as a whole ----

  lemma {:induction false} JoinedPrefix(chunks: seq<bytes>, m: nat, n: nat) returns (rest: bytes)
    requires m <= n <= |chunks|
    ensures Joined(chunks, m) + rest == Joined(chunks, n)
    decreases n
  {
    if m == n {
      rest := [];
    } else {
      var part := JoinedPrefix(chunks, m, n - 1);
      Associative(Joined(chunks, m), part, chunks[n - 1]);
      rest := part + chunks[n - 1];
    }
  }

  /**
    If the whole stream splits, no prefix of it raises, and any segmentation of it produces exactly
    the frames of the whole-stream split and holds exactly its remainder.
   */
  lemma {:induction false} DeliverySplits(r: Rule, chunks: seq<bytes>, m: nat)
    requires Wellformed(r) && m <= |chunks|
    requires Split(r, Joined(chunks, |chunks|)).Parsed?
    ensures var whole := Split(r, Joined(chunks, m));
            whole.Parsed? && Deliver(r, chunks, m) == Progress(whole.rest, whole.frames)
  {
    assert Split(r, []) == Parsed([], []);
    hide Split;
    var later := JoinedPrefix(chunks, m, |chunks|);
    SplitResumes(r, Joined(chunks, m), later);
    if m != 0 {
      DeliverySplits(r, chunks, m - 1);
      SplitResumes(r, Joined(chunks, m - 1), chunks[m - 1]);
    }
  }

  // ---- A stream that raises ----

  /** A whole frame starts at offset `i` of the stream. */
  predicate FrameAt(r: Rule, s: bytes, i: nat) {
    && i + r.need <= |s|
    && r.size(s[i..i + r.need]).Size?
    && i + r.size(s[i..i + r.need]).n <= |s|
  }

  /** No whole frame starts at the front, nor anywhere a reader restarted after an error could see one. */
  ghost predicate Silent(r: Rule, s: bytes) {
    !FrameAt(r, s, 0) && forall i | r.need <= i <= |s| :: !FrameAt(r, s, i)
  }

  /** Between segments of a silent stream: nothing came out, and the held octets are a stretch up to here. */
  ghost predicate Quiet(r: Rule, s: bytes, m: nat, p: Progress, i: nat) {
    && m <= |s| && p.frames == []
    && i <= m && (i == 0 || r.need <= i) && p.held == s[i..m]
  }

  /** Reading from where no whole frame starts either waits for more or raises; it cuts nothing. */
  lemma NothingToCut(r: Rule, s: bytes, i: nat, n: nat)
    requires Wellformed(r) && !FrameAt(r, s, i) && i <= n <= |s|
    ensures Split(r, s[i..n]) == Parsed([], s[i..n]) || (Split(r, s[i..n]).Error? && i + r.need <= n)
  {
    if i + r.need <= n {
      assert s[i..n][..r.need] == s[i..i + r.need];
    }
  }

  lemma QuietStep(r: Rule, s: bytes, m: nat, n: nat, p: Progress, i: nat) returns (j: nat)
    requires Wellformed(r) && Silent(r, s)
    requires Quiet(r, s, m, p, i) && m <= n <= |s|
    ensures match Split(r, p.held + s[m..n])
            case Error => Quiet(r, s, n, Progress([], p.frames), j)
            case Parsed(frames, rest) => Quiet(r, s, n, Progress(rest, p.frames + frames), j)
  {
    hide Split, FrameAt;
    assert p.held + s[m..n] == s[i..n];
    NothingToCut(r, s, i, n);
    j := if Split(r, s[i..n]).Error? then n else i;
    assert s[n..n] == [];
  }

  lemma {:induction false} JoinedSlice(chunks: seq<bytes>, m: nat)
    requires 0 < m <= |chunks|
    ensures var s := Joined(chunks, |chunks|);
            var a, b := |Joined(chunks, m - 1)|, |Joined(chunks, m)|;
            a <= b <= |s| && s[a..b] == chunks[m - 1]
  {
    var rest := JoinedPrefix(chunks, m, |chunks|);
    var front, c := Joined(chunks, m - 1), chunks[m - 1];
    Associative(front, c, rest);
    assert (front + (c + rest))[|front|..|front| + |c|] == c;
  }

  lemma {:induction false} SilentDelivery(r: Rule, chunks: seq<bytes>, m: nat) returns (i: nat)
    requires Wellformed(r) && m <= |chunks|
    requires Silent(r, Joined(chunks, |chunks|))
    ensures Quiet(r, Joined(chunks, |chunks|), |Joined(chunks, m)|, Deliver(r, chunks, m), i)
  {
    var s := Joined(chunks, |chunks|);
    if m == 0 {
      i := 0;
      assert s[0..0] == [];
    } else {
      var i0 := SilentDelivery(r, chunks, m - 1);
      JoinedSlice(chunks, m);
      i := QuietStep(r, s, |Joined(chunks, m - 1)|, |Joined(chunks, m)|, Deliver(r, chunks, m - 1), i0);
    }
  }

  lemma JoinedThree(a: bytes, b: bytes, c: bytes)
    ensures Joined([a, b, c], 3) == a + b + c
  {
    var parts := [a, b, c];
    assert Joined(parts, 0) == [];
    assert Joined(parts, 1) == a;
    assert Joined(parts, 2) == a + b;
  }

  lemma JoinedOne(a: bytes)
    ensures Joined([a], 1) == a
  {
    assert Joined([a], 0) == [];
  }

  lemma CompleteSplits(r: Rule, frame: bytes)
    requires Wellformed(r) && Complete(r, frame)
    ensures Split(r, frame) == Parsed([frame], [])
  {
    SplitPeelsOne(r, frame, []);
    assert frame + [] == frame;
    assert [frame] + [] == [frame];
  }

  lemma DeliverThree(r: Rule, a: bytes, frame: bytes, c: bytes)
    requires Wellformed(r) && Complete(r, frame)
    requires a == [] || Split(r, a).Error?
    ensures Deliver(r, [a, frame, c], 3).frames != []
  {
    var parts := [a, frame, c];
    assert Deliver(r, parts, 0) == Progress([], []);
    assert [] + a == a;
    assert Split(r, [] + a).Parsed? ==> Split(r, [] + a) == Parsed([], []);
    assert Deliver(r, parts, 1).held == [];
    assert [] + frame == frame;
    CompleteSplits(r, frame);
    assert Deliver(r, parts, 2).frames == Deliver(r, parts, 1).frames + [frame];
  }

  /** A raising stream that is not silent: an inconvenient segmentation makes a frame appear. */
  lemma LoudWitness(r: Rule, s: bytes) returns (chunks: seq<bytes>)
    requires Wellformed(r) && Split(r, s).Error? && !Silent(r, s)
    ensures Joined(chunks, |chunks|) == s && Deliver(r, chunks, |chunks|).frames != []
  {
    hide Split, Deliver, Joined;
    var i: nat;
    if FrameAt(r, s, 0) {
      i := 0;
    } else {
      i :| r.need <= i <= |s| && FrameAt(r, s, i);
    }
    var n := r.size(s[i..i + r.need]).n;
    var frame := s[i..i + n];
    assert frame[..r.need] == s[i..i + r.need];
    assert s[..i] + frame + s[i + n..] == s;
    chunks := [s[..i], frame, s[i + n..]];
    JoinedThree(s[..i], frame, s[i + n..]);
    if i != 0 {
      RaisesAtTheFront(r, s, i);
    }
    DeliverThree(r, s[..i], frame, s[i + n..]);
  }

  lemma RaisesAtTheFront(r: Rule, s: bytes, i: nat)
    requires Wellformed(r) && Split(r, s).Error? && !FrameAt(r, s, 0) && r.need <= i <= |s|
    ensures Split(r, s[..i]).Error?
  {
    assert s[0..0 + r.need] == s[..r.need];
    assert s[..i][..r.need] == s[..r.need];
  }

  /** Every segmentation of `s` yields the same frames. */
  ghost predicate SegmentationIndependent(r: Rule, s: bytes)
    requires Wellformed(r)
  {
    forall a, b | Joined(a, |a|) == s && Joined(b, |b|) == s ::
      Deliver(r, a, |a|).frames == Deliver(r, b, |b|).frames
  }

  /**
    Exactly when the segmentation does not matter: the stream splits as a whole, or it raises and
    holds no whole frame at its front or after its first header.
   */
  lemma SegmentationIndependentIff(r: Rule, s: bytes)
    requires Wellformed(r)
    ensures SegmentationIndependent(r, s) <==> Split(r, s).Parsed? || Silent(r, s)
  {
    if Split(r, s).Parsed? {
      forall a | Joined(a, |a|) == s
        ensures Deliver(r, a, |a|).frames == Split(r, s).frames
      {
        DeliverySplits(r, a, |a|);
      }
    } else if Silent(r, s) {
      forall a | Joined(a, |a|) == s
        ensures Deliver(r, a, |a|).frames == []
      {
        var _ := SilentDelivery(r, a, |a|);
      }
    } else {
      var a := LoudWitness(r, s);
      JoinedOne(s);
      assert Deliver(r, [s], 0) == Progress([], []);
      assert [] + s == s;
      assert Deliver(r, [s], 1).frames == [];
      assert Joined([s], |[s]|) == s;
    }
  }

  const TPKT_FRAME: bytes := [3, 0, 0, 7, 2, 0xF0, 0x80]
  const TPKT_JUNK: bytes := [9, 0, 0, 7]

  lemma TpktFrameThenJunk()
    ensures Wellformed(TPKT) && Complete(TPKT, TPKT_FRAME) && Split(TPKT, TPKT_JUNK) == Error
  {
    RulesAreWellformed();
    assert TPKT_FRAME[..4] == [3, 0, 0, 7] && TPKT_JUNK[..4] == TPKT_JUNK;
  }

  /** The difference is real: a TPKT frame followed by a header of the wrong version. */
  lemma SegmentationMatters()
    ensures Wellformed(TPKT) && !SegmentationIndependent(TPKT, TPKT_FRAME + TPKT_JUNK)
  {
    TpktFrameThenJunk();
    hide Split, TPKT_FRAME, TPKT_JUNK, SegmentationIndependent;
    var s := TPKT_FRAME + TPKT_JUNK;
    SplitPeelsOne(TPKT, TPKT_FRAME, TPKT_JUNK);
    assert s[0..0 + TPKT.need] == TPKT_FRAME[..TPKT.need];
    assert FrameAt(TPKT, s, 0);
    SegmentationIndependentIff(TPKT, s);
  }
}
