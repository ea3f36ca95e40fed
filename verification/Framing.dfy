/**
  Length-prefixed framing of a TCP byte stream, for an arbitrary header rule.

  The five protocol splitters of the sensor are one algorithm over different headers: read a
  fixed number of header octets, reject or learn the frame size, cut the frame off, repeat, and
  hand back the incomplete tail. Everything here is proved once, for every rule.
 */
module Framing {
  import opened Bytes

  datatype Verdict = BadHeader | Size(n: nat)

  datatype Rule = Rule(need: nat, size: bytes -> Verdict)

  /** A header is at least one octet long and no frame is shorter than its own header. */
  ghost predicate Wellformed(r: Rule) {
    && 1 <= r.need
    && forall h: bytes :: |h| == r.need && r.size(h).Size? ==> r.need <= r.size(h).n
  }

  datatype Outcome = Error | Parsed(frames: seq<bytes>, rest: bytes)

  function Prepend(frames: seq<bytes>, o: Outcome): Outcome {
    if o.Error? then Error else Parsed(frames + o.frames, o.rest)
  }

  /** What the splitters compute; `Error` stands for their parse exception. */
  ghost function Split(r: Rule, data: bytes): Outcome
    requires Wellformed(r)
    decreases |data|
  {
    if |data| < r.need then Parsed([], data)
    else
      match r.size(data[..r.need])
      case BadHeader => Error
      case Size(n) =>
        if |data| < n then Parsed([], data) else Prepend([data[..n]], Split(r, data[n..]))
  }

  /** Exactly one whole frame. */
  ghost predicate Complete(r: Rule, frame: bytes) {
    r.need <= |frame| && r.size(frame[..r.need]) == Size(|frame|)
  }

  /** The start of a frame that more data could complete, or nothing at all. */
  ghost predicate Partial(r: Rule, rest: bytes) {
    r.need <= |rest| ==> r.size(rest[..r.need]).Size? && |rest| < r.size(rest[..r.need]).n
  }

  ghost predicate Rejected(r: Rule, tail: bytes) {
    r.need <= |tail| && r.size(tail[..r.need]).BadHeader?
  }

  ghost predicate AllComplete(r: Rule, frames: seq<bytes>) {
    forall i | 0 <= i < |frames| :: Complete(r, frames[i])
  }

  /** One whole frame in front is cut off, whatever follows it. */
  lemma SplitPeelsOne(r: Rule, frame: bytes, more: bytes)
    requires Wellformed(r) && Complete(r, frame)
    ensures Split(r, frame + more) == Prepend([frame], Split(r, more))
  {
    var data := frame + more;
    assert data[..r.need] == frame[..r.need];
    assert data[..|frame|] == frame;
    assert data[|frame|..] == more;
  }

  lemma PrependTwice(a: seq<bytes>, b: seq<bytes>, o: Outcome)
    ensures Prepend(a, Prepend(b, o)) == Prepend(a + b, o)
  {
    if o.Parsed? {
      Associative(a, b, o.frames);
    }
  }

  /** Whole frames in front are cut off one by one, whatever follows them. */
  lemma {:induction false} SplitPeels(r: Rule, frames: seq<bytes>, tail: bytes)
    requires Wellformed(r) && AllComplete(r, frames)
    ensures Split(r, Flatten(frames) + tail) == Prepend(frames, Split(r, tail))
  {
    if frames == [] {
      assert Flatten(frames) + tail == tail;
      if Split(r, tail).Parsed? {
        assert [] + Split(r, tail).frames == Split(r, tail).frames;
      }
    } else {
      var f, fs := frames[0], frames[1..];
      assert Complete(r, f);
      Associative(f, Flatten(fs), tail);
      SplitPeelsOne(r, f, Flatten(fs) + tail);
      SplitPeels(r, fs, tail);
      PrependTwice([f], fs, Split(r, tail));
      assert [f] + fs == frames;
    }
  }

  /** A run of whole frames followed by `tail`. */
  ghost predicate CutInto(r: Rule, data: bytes, frames: seq<bytes>, tail: bytes) {
    data == Flatten(frames) + tail && AllComplete(r, frames)
  }

  lemma CutIntoCons(r: Rule, f: bytes, more: bytes, frames: seq<bytes>, tail: bytes)
    requires Complete(r, f) && CutInto(r, more, frames, tail)
    ensures CutInto(r, f + more, [f] + frames, tail)
  {
    FlattenCons(f, frames);
    Associative(f, Flatten(frames), tail);
  }

  /** Cutting loses, adds and reorders nothing, and stops only at a partial or a rejected tail. */
  lemma {:induction false} SplitSound(r: Rule, data: bytes) returns (frames: seq<bytes>, tail: bytes)
    requires Wellformed(r)
    ensures CutInto(r, data, frames, tail)
    ensures Split(r, data).Parsed? ==> Split(r, data) == Parsed(frames, tail) && Partial(r, tail)
    ensures Split(r, data).Error? ==> Rejected(r, tail)
    decreases |data|
  {
    if r.need <= |data| && r.size(data[..r.need]).Size? && r.size(data[..r.need]).n <= |data| {
      var n := r.size(data[..r.need]).n;
      var f, more := data[..n], data[n..];
      assert f[..r.need] == data[..r.need];
      assert f + more == data;
      frames, tail := SplitSound(r, more);
      CutIntoCons(r, f, more, frames, tail);
      frames := [f] + frames;
    } else {
      frames, tail := [], data;
      assert Flatten(frames) + tail == data;
    }
  }

  /** The decomposition into whole frames and a partial tail is unique, and Split finds it. */
  lemma SplitUnique(r: Rule, data: bytes, frames: seq<bytes>, rest: bytes)
    requires Wellformed(r)
    ensures Split(r, data) == Parsed(frames, rest) <==> CutInto(r, data, frames, rest) && Partial(r, rest)
  {
    if Split(r, data) == Parsed(frames, rest) {
      var _, _ := SplitSound(r, data);
    }
    if CutInto(r, data, frames, rest) && Partial(r, rest) {
      SplitPeels(r, frames, rest);
      assert frames + [] == frames;
    }
  }

  /** The splitter raises exactly when a bad header follows a run of whole frames. */
  lemma SplitRaisesIff(r: Rule, data: bytes)
    requires Wellformed(r)
    ensures Split(r, data).Error? <==> exists frames, tail :: CutInto(r, data, frames, tail) && Rejected(r, tail)
  {
    var frames, tail := SplitSound(r, data);
    forall frames, tail | CutInto(r, data, frames, tail) && Rejected(r, tail)
      ensures Split(r, data).Error?
    {
      SplitPeels(r, frames, tail);
    }
  }

  /**
    Splitting may be resumed: once a first part has been split, the rest of the work depends only
    on its remainder. In the other direction, an error never goes away when more data arrives.
   */
  lemma SplitResumes(r: Rule, a: bytes, b: bytes)
    requires Wellformed(r)
    ensures Split(r, a).Parsed? ==> Split(r, a + b) == Prepend(Split(r, a).frames, Split(r, Split(r, a).rest + b))
    ensures Split(r, a).Error? ==> Split(r, a + b).Error?
  {
    var frames, tail := SplitSound(r, a);
    Associative(Flatten(frames), tail, b);
    SplitPeels(r, frames, tail + b);
    if Split(r, a).Error? {
      assert (tail + b)[..r.need] == tail[..r.need];
    }
  }
}
